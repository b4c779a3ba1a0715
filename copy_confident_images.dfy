/** The script that gathers a balanced training set from the predictions stored with the
    images (src/predictor/Model/copy_confident_images.py): every row is matched against the
    four (weather, snow) categories, and for the first category whose labels it carries,
    the image is copied into that category's folder when both prediction percentages reach
    the category's thresholds and fewer than 500 images have been copied there so far.
    The database rows are the input sequence; whether the source file exists and whether
    shutil.copy2 succeeds are the parameters `fileExists` and `copySucceeds`. */
module CopyConfidentImages {
  import opened Wrappers
  import opened Text
  import opened Paths

  const OutputBase: string := "/home/nmichelotti/Desktop/data"
  const BasePath: string := "/home/nmichelotti/Desktop/Image Archives/OneDrive_1_4-3-2025"
  const MaxPerCategory: nat := 500

  /** One entry of `categories` together with its entry in `thresholds` (the two
      dictionaries have the same keys, in the same order). */
  datatype Category = Category(folder: string, weather: string, snow: string, weatherThreshold: real, snowThreshold: real)

  const Categories: seq<Category> := [
    Category("Sunny_With_Snow", "Sunny", "Snow", 82.0, 82.0),
    Category("Sunny_No_Snow", "Sunny", "No Snow", 98.0, 98.0),
    Category("Cloudy_With_Snow", "Cloudy", "Snow", 98.0, 98.0),
    Category("Cloudy_No_Snow", "Cloudy", "No Snow", 0.0, 0.0)]

  /** One row of the query: the path and the two predictions with their percentages. A
      NULL label is None, which equals no expected label. */
  datatype Row = Row(filePath: string, weather: Option<string>, snow: Option<string>, weatherPercent: real, snowPercent: real)

  /** The counts per category, in the order of Categories, and the copies made, in order. */
  datatype Tally = Tally(counts: seq<nat>, copies: seq<(string, string)>)

  predicate LabelsMatch(row: Row, category: Category) {
    row.weather == Some(category.weather) && row.snow == Some(category.snow)
  }

  predicate Confident(row: Row, category: Category) {
    row.weatherPercent >= category.weatherThreshold && row.snowPercent >= category.snowThreshold
  }

  // ---------------------------------------------------------------- paths

  /** os.path.join(base_path, file_path.replace("/app", "").lstrip("/")). */
  function Source(filePath: string): string {
    PyJoin(BasePath, LStrip(Replace(filePath, "/app", ""), '/'))
  }

  /** os.path.join(os.path.join(output_base, folder_name), os.path.basename(src)). */
  function Destination(folder: string, src: string): string {
    PyJoin(PyJoin(OutputBase, folder), PyBasename(src))
  }

  /** A path stored under the container's /app directory is read from the same relative
      place under the base folder. */
  lemma SourceOfAppPath(rest: string)
    requires rest == [] || rest[0] != '/'
    requires !Contains("/" + rest, "/app")
    ensures Source("/app/" + rest) == BasePath + "/" + rest
  {
    assert "/app/" + rest == "/app" + ("/" + rest);
    assert ("/app" + ("/" + rest))[..4] == "/app";
    assert ("/app" + ("/" + rest))[4..] == "/" + rest;
    ReplaceAbsent("/" + rest, "/app", "");
    assert Replace("/app/" + rest, "/app", "") == "/" + rest;
    assert ("/" + rest)[1..] == rest;
    assert LStrip("/" + rest, '/') == rest;
  }

  /** Every occurrence of "/app" is removed, not only the leading one: a directory whose
      name starts with "app" right under /app (as in "/app/apples/a.jpg") loses those
      letters too. */
  lemma AppInsideNameIsRemoved(rest: string)
    requires rest == [] || rest[0] != '/'
    requires !Contains(rest, "/app")
    ensures Source("/app/app" + rest) == BasePath + "/" + rest
  {
    var s := "/app/app" + rest;
    assert s[..4] == "/app" && s[4..] == "/app" + rest;
    assert ("/app" + rest)[..4] == "/app" && ("/app" + rest)[4..] == rest;
    ReplaceAbsent(rest, "/app", "");
    assert Replace("/app" + rest, "/app", "") == rest;
    assert Replace(s, "/app", "") == rest;
  }

  /** The basename of a path ending in "/" followed by a name without '/' is that name. */
  lemma {:induction false} BasenameAfterSlash(a: string, name: string)
    requires forall i :: 0 <= i < |name| ==> name[i] != '/'
    ensures PyBasename(a + "/" + name) == name
  {
    if name != [] {
      var init := name[..|name| - 1];
      assert (a + "/" + name)[..|a + "/" + name| - 1] == a + "/" + init;
      BasenameAfterSlash(a, init);
      assert init + [name[|name| - 1]] == name;
    } else {
      assert a + "/" + name == a + "/";
    }
  }

  /** The copy lands directly in the category's folder under the output folder and keeps
      the file name of its source. */
  lemma DestinationInFolder(k: nat, src: string)
    requires k < |Categories|
    ensures var dst := Destination(Categories[k].folder, src);
            && dst == OutputBase + "/" + Categories[k].folder + "/" + PyBasename(src)
            && PyBasename(dst) == PyBasename(src)
  {
    var folder := Categories[k].folder;
    assert folder != [] && folder[|folder| - 1] != '/';
    PyBasenameShape(src);
    BasenameAfterSlash(OutputBase + "/" + folder, PyBasename(src));
  }

  // ---------------------------------------------------------------- one row

  /** The category the inner loop stops at: the first whose labels the row carries. */
  function FirstMatch(row: Row): (r: Option<nat>)
    ensures r.None? <==> forall j :: 0 <= j < |Categories| ==> !LabelsMatch(row, Categories[j])
    ensures r.Some? ==> r.value < |Categories| && LabelsMatch(row, Categories[r.value])
    ensures r.Some? ==> forall j :: 0 <= j < r.value ==> !LabelsMatch(row, Categories[j])
  {
    FirstMatchFrom(row, 0)
  }

  function FirstMatchFrom(row: Row, k: nat): (r: Option<nat>)
    requires k <= |Categories|
    ensures r.None? <==> forall j :: k <= j < |Categories| ==> !LabelsMatch(row, Categories[j])
    ensures r.Some? ==> k <= r.value < |Categories| && LabelsMatch(row, Categories[r.value])
    ensures r.Some? ==> forall j :: k <= j < r.value ==> !LabelsMatch(row, Categories[j])
    decreases |Categories| - k
  {
    if k == |Categories| then None
    else if LabelsMatch(row, Categories[k]) then Some(k)
    else FirstMatchFrom(row, k + 1)
  }

  /** No two categories carry the same labels, so a row matches at most one of them. */
  lemma AtMostOneCategory(row: Row, j: nat, k: nat)
    requires j < |Categories| && k < |Categories|
    requires LabelsMatch(row, Categories[j]) && LabelsMatch(row, Categories[k])
    ensures j == k
  {
  }

  /** Whether the row's image is copied into category k, over the counts so far. */
  predicate Copies(counts: seq<nat>, row: Row, k: nat, fileExists: string -> bool, copySucceeds: (string, string) -> bool)
    requires |counts| == |Categories| && k < |Categories|
  {
    var src := Source(row.filePath);
    && Confident(row, Categories[k])
    && counts[k] < MaxPerCategory
    && fileExists(src)
    && copySucceeds(src, Destination(Categories[k].folder, src))
  }

  /** One pass of the outer loop. */
  function Step(t: Tally, row: Row, fileExists: string -> bool, copySucceeds: (string, string) -> bool): Tally
    requires |t.counts| == |Categories|
  {
    match FirstMatch(row)
    case None => t
    case Some(k) =>
      if Copies(t.counts, row, k, fileExists, copySucceeds) then
        var src := Source(row.filePath);
        Tally(t.counts[k := t.counts[k] + 1], t.copies + [(src, Destination(Categories[k].folder, src))])
      else t
  }

  /** The whole loop over the rows, from all counts zero. */
  function Run(rows: seq<Row>, fileExists: string -> bool, copySucceeds: (string, string) -> bool): (t: Tally)
    ensures |t.counts| == |Categories|
  {
    if rows == [] then Tally([0, 0, 0, 0], [])
    else Step(Run(rows[..|rows| - 1], fileExists, copySucceeds), rows[|rows| - 1], fileExists, copySucceeds)
  }

  /** A row changes at most one count, that of the first category its labels match, and it
      raises that count by one exactly when both percentages reach the thresholds, fewer
      than 500 images are there yet, the source exists and the copy succeeds; the copy is
      then recorded. */
  lemma StepCounts(t: Tally, row: Row, fileExists: string -> bool, copySucceeds: (string, string) -> bool)
    requires |t.counts| == |Categories|
    ensures var t' := Step(t, row, fileExists, copySucceeds);
            && |t'.counts| == |Categories|
            && (forall j :: 0 <= j < |Categories| && FirstMatch(row) != Some(j) ==> t'.counts[j] == t.counts[j])
            && (FirstMatch(row).None? ==> t' == t)
            && (FirstMatch(row).Some? ==>
                  var k := FirstMatch(row).value;
                  var src := Source(row.filePath);
                  if Copies(t.counts, row, k, fileExists, copySucceeds)
                  then t'.counts[k] == t.counts[k] + 1 && t'.copies == t.copies + [(src, Destination(Categories[k].folder, src))]
                  else t' == t)
  {
  }

  /** No category ever holds more than 500 copies. */
  lemma {:induction false} CountsCapped(rows: seq<Row>, fileExists: string -> bool, copySucceeds: (string, string) -> bool)
    ensures forall k :: 0 <= k < |Categories| ==> Run(rows, fileExists, copySucceeds).counts[k] <= MaxPerCategory
  {
    if rows != [] {
      var t := Run(rows[..|rows| - 1], fileExists, copySucceeds);
      CountsCapped(rows[..|rows| - 1], fileExists, copySucceeds);
      StepCounts(t, rows[|rows| - 1], fileExists, copySucceeds);
    }
  }

  function Sum(counts: seq<nat>): nat {
    if counts == [] then 0 else Sum(counts[..|counts| - 1]) + counts[|counts| - 1]
  }

  lemma {:induction false} SumIncrement(counts: seq<nat>, k: nat)
    requires k < |counts|
    ensures Sum(counts[k := counts[k] + 1]) == Sum(counts) + 1
  {
    var c := counts[k := counts[k] + 1];
    assert c[..|c| - 1] == if k < |counts| - 1 then counts[..|counts| - 1][k := counts[k] + 1] else counts[..|counts| - 1];
    if k < |counts| - 1 {
      SumIncrement(counts[..|counts| - 1], k);
    }
  }

  /** The counts printed at the end add up to the number of copies made. */
  lemma {:induction false} CountsAreCopies(rows: seq<Row>, fileExists: string -> bool, copySucceeds: (string, string) -> bool)
    ensures Sum(Run(rows, fileExists, copySucceeds).counts) == |Run(rows, fileExists, copySucceeds).copies|
  {
    if rows != [] {
      var t := Run(rows[..|rows| - 1], fileExists, copySucceeds);
      CountsAreCopies(rows[..|rows| - 1], fileExists, copySucceeds);
      StepCounts(t, rows[|rows| - 1], fileExists, copySucceeds);
      assert Run(rows, fileExists, copySucceeds) == Step(t, rows[|rows| - 1], fileExists, copySucceeds);
      var k := FirstMatch(rows[|rows| - 1]);
      if k.Some? && Copies(t.counts, rows[|rows| - 1], k.value, fileExists, copySucceeds) {
        SumIncrement(t.counts, k.value);
      }
    } else {
      var zeros: seq<nat> := [0, 0, 0, 0];
      assert Sum(zeros[..1]) == 0 && zeros[..2][..1] == zeros[..1];
      assert Sum(zeros[..2]) == 0 && zeros[..3][..2] == zeros[..2];
      assert Sum(zeros[..3]) == 0 && zeros[..3] == zeros[..|zeros| - 1];
    }
  }

  /** Every copy made is of an existing source, into the folder of a category, under the
      source's own file name, and the copy succeeded. */
  lemma {:induction false} CopiesAreConfirmed(rows: seq<Row>, fileExists: string -> bool, copySucceeds: (string, string) -> bool)
    ensures forall c :: c in Run(rows, fileExists, copySucceeds).copies ==>
              && fileExists(c.0) && copySucceeds(c.0, c.1)
              && exists k :: 0 <= k < |Categories| && c.1 == Destination(Categories[k].folder, c.0)
  {
    if rows != [] {
      CopiesAreConfirmed(rows[..|rows| - 1], fileExists, copySucceeds);
    }
  }

  // ---------------------------------------------------------------- the loops

  /** The body of the outer loop: the inner loop over the categories, which stops at the
      first one whose labels match, whatever happens to the copy. */
  method ProcessRow(row: Row, counts: seq<nat>, copies: seq<(string, string)>,
                    fileExists: string -> bool, copySucceeds: (string, string) -> bool)
    returns (counts': seq<nat>, copies': seq<(string, string)>)
    requires |counts| == |Categories|
    ensures Tally(counts', copies') == Step(Tally(counts, copies), row, fileExists, copySucceeds)
  {
    counts', copies' := counts, copies;
    var k := 0;
    while k < |Categories|
      invariant 0 <= k <= |Categories|
      invariant forall j :: 0 <= j < k ==> !LabelsMatch(row, Categories[j])
      invariant counts' == counts && copies' == copies
    {
      var category := Categories[k];
      if row.weather == Some(category.weather) && row.snow == Some(category.snow) {
        assert FirstMatch(row) == Some(k);
        if row.weatherPercent >= category.weatherThreshold && row.snowPercent >= category.snowThreshold {
          if counts'[k] < MaxPerCategory {
            var src := PyJoin(BasePath, LStrip(Replace(row.filePath, "/app", ""), '/'));
            var dstFolder := PyJoin(OutputBase, category.folder);
            var dst := PyJoin(dstFolder, PyBasename(src));
            if fileExists(src) && copySucceeds(src, dst) {
              copies' := copies' + [(src, dst)];
              counts' := counts'[k := counts'[k] + 1];
            }
          }
        }
        break;
      }
      k := k + 1;
    }
  }

  /** The script's main loop over all rows; it returns image_counts and the copies. */
  method CopyConfidentImages(rows: seq<Row>, fileExists: string -> bool, copySucceeds: (string, string) -> bool)
    returns (imageCounts: seq<nat>, copies: seq<(string, string)>)
    ensures Tally(imageCounts, copies) == Run(rows, fileExists, copySucceeds)
    ensures forall k :: 0 <= k < |imageCounts| ==> imageCounts[k] <= MaxPerCategory
  {
    imageCounts := [0, 0, 0, 0];
    copies := [];
    var i := 0;
    while i < |rows|
      invariant 0 <= i <= |rows|
      invariant Tally(imageCounts, copies) == Run(rows[..i], fileExists, copySucceeds)
    {
      assert rows[..i + 1][..i] == rows[..i];
      imageCounts, copies := ProcessRow(rows[i], imageCounts, copies, fileExists, copySucceeds);
      i := i + 1;
    }
    assert rows[..i] == rows;
    CountsCapped(rows, fileExists, copySucceeds);
  }
}
