/** The first version of the path extraction program (Program.cs at the repository root):
    the same directory walk and site list as src/ExtractImagePaths/Program.cs, but the Unix
    time is read with long.Parse and nothing is skipped: a name that is too short or not a
    number throws, and every path gives one record. The site is null when none matches. */
module LegacyExtract {
  import opened Wrappers
  import opened Text
  import opened Paths
  import opened Seqs
  import opened Calendar
  import opened Records
  import opened Ingest
  import opened ExtractImagePaths

  /** long.Parse: a string that is not an optionally signed digit string throws
      FormatException, one whose value does not fit in a long OverflowException. */
  function LongParse(s: string): Result<int, Exception> {
    var signed := |s| > 0 && (s[0] == '-' || s[0] == '+');
    var body := if signed then s[1..] else s;
    if body == [] || !AllDigits(body) then Err(Format)
    else
      var v: int := if signed && s[0] == '-' then -(DigitsValue(body) as int) else DigitsValue(body);
      if Int64Min <= v <= Int64Max then Ok(v) else Err(Overflow)
  }

  /** long.Parse succeeds exactly where long.TryParse does, with the same value, and
      otherwise throws one of its two exceptions. */
  lemma LongParseAgrees(s: string)
    ensures var r := LongParse(s);
            && (r.Ok? <==> TryParseLong(s).Some?)
            && (r.Ok? ==> TryParseLong(s) == Some(r.value))
            && (r.Err? ==> r.error == Format || r.error == Overflow)
  {
  }

  /** nameWithoutExtension.Substring(0, Length - 2), parsed: a name of fewer than two
      characters makes Substring throw ArgumentOutOfRangeException. */
  function ParseUnixTime(filePath: string): Result<int, Exception> {
    var stem := NameWithoutExtension(filePath);
    if |stem| < 2 then Err(ArgumentOutOfRange) else LongParse(stem[..|stem| - 2])
  }

  /** A name shorter than two characters throws before parsing; a longer one has its
      last two characters dropped and the rest parsed as a long. */
  lemma ParseUnixTimeCases(filePath: string)
    ensures var stem := NameWithoutExtension(filePath);
            && (|stem| < 2 ==> ParseUnixTime(filePath) == Err(ArgumentOutOfRange))
            && (|stem| >= 2 ==> (ParseUnixTime(filePath).Ok? <==> TryParseLong(stem[..|stem| - 2]).Some?))
  {
    var stem := NameWithoutExtension(filePath);
    if |stem| >= 2 {
      LongParseAgrees(stem[..|stem| - 2]);
    }
  }

  /** The record of one path. */
  function Derive(civil: int -> DateTime, imagePath: string): Derived<PathImage> {
    match ParseUnixTime(imagePath)
    case Err(e) => Throws(e)
    case Ok(unixTime) =>
      match FromUnixTimeSeconds(unixTime, civil)
      case None => Throws(ArgumentOutOfRange)
      case Some(dateTime) =>
        Keep(PathImage(GetFileName(imagePath), imagePath, dateTime, unixTime, FirstSite(imagePath), CameraOf(imagePath)))
  }

  /** A path is never skipped: it either throws or gives its record, and it gives one
      exactly when its time parses and lies in the range of DateTime. */
  lemma DeriveOutcome(civil: int -> DateTime, imagePath: string)
    ensures var d := Derive(civil, imagePath);
            && !d.Skip?
            && (d.Keep? <==> ParseUnixTime(imagePath).Ok? && FromUnixTimeSeconds(ParseUnixTime(imagePath).value, civil).Some?)
            && (d.Keep? ==> d.image == PathImage(GetFileName(imagePath), imagePath,
                                                 civil(ParseUnixTime(imagePath).value), ParseUnixTime(imagePath).value,
                                                 FirstSite(imagePath), CameraOf(imagePath)))
  {
  }

  function Deriver(civil: int -> DateTime): string -> Derived<PathImage> {
    path => Derive(civil, path)
  }

  /** What the program does with the path list: the first path that throws ends it,
      during the listing before the prompt; otherwise the operator confirms or declines. */
  function Insertion(imagePaths: seq<string>, civil: int -> DateTime, confirm: bool): ExtractImagePaths.Insertion {
    match Collect(imagePaths, Deriver(civil))
    case Err(e) => Threw(e)
    case Ok(images) => if !confirm then Declined else Inserted(images)
  }

  /** The foreach over the site names, stopping at the first one the path contains. */
  method SiteOf(imagePath: string) returns (siteName: Option<string>)
    ensures siteName == FirstSite(imagePath)
  {
    siteName := None;
    var i := 0;
    while i < |SiteNames|
      invariant 0 <= i <= |SiteNames|
      invariant forall j :: 0 <= j < i ==> !Contains(imagePath, SiteNames[j])
    {
      if Contains(imagePath, SiteNames[i]) {
        siteName := Some(SiteNames[i]);
        FirstSiteAt(imagePath, i);
        return;
      }
      i := i + 1;
    }
  }

  /** When the first site the path contains is the i-th, that is the one chosen. */
  lemma FirstSiteAt(imagePath: string, i: nat)
    requires i < |SiteNames| && Contains(imagePath, SiteNames[i])
    requires forall j :: 0 <= j < i ==> !Contains(imagePath, SiteNames[j])
    ensures FirstSite(imagePath) == Some(SiteNames[i])
  {
    FindFirstAt(SiteNames, ContainedIn(imagePath), i);
  }

  /** The listing loop's work on one path: its Unix time and date, which may throw. */
  method ListPath(civil: int -> DateTime, imagePath: string) returns (thrown: Option<Exception>)
    ensures thrown.None? <==> Derive(civil, imagePath).Keep?
    ensures thrown.Some? ==> Derive(civil, imagePath) == Throws(thrown.value)
  {
    var unixTime := ParseUnixTime(imagePath);
    if unixTime.Err? {
      return Some(unixTime.error);
    }
    var dateTime := FromUnixTimeSeconds(unixTime.value, civil);
    if dateTime.None? {
      return Some(ArgumentOutOfRange);
    }
    return None;
  }

  /** The Select lambda's work on a path the listing loop has already read without an
      exception. */
  method BuildRecord(civil: int -> DateTime, imagePath: string) returns (image: PathImage)
    requires Derive(civil, imagePath).Keep?
    ensures Derive(civil, imagePath) == Keep(image)
  {
    var name := GetFileName(imagePath);
    var unixTime := ParseUnixTime(imagePath).value;
    var dateTime := FromUnixTimeSeconds(unixTime, civil).value;
    var siteName := SiteOf(imagePath);
    var camera := 1;
    if Contains(imagePath, "Camera2") {
      camera := 2;
    }
    image := PathImage(name, imagePath, dateTime, unixTime, siteName, camera);
  }

  /** The listing loop, which computes (and prints) every path's fields and so throws at
      the first bad one, with the exception the enumeration would throw. */
  method ListPaths(imagePaths: seq<string>, civil: int -> DateTime) returns (thrown: Option<Exception>)
    ensures thrown.Some? ==> Collect(imagePaths, Deriver(civil)) == Err(thrown.value)
    ensures thrown.None? ==> && Collect(imagePaths, Deriver(civil)).Ok?
                             && KeptAs(imagePaths, Deriver(civil), Collect(imagePaths, Deriver(civil)).value)
  {
    var derive := Deriver(civil);
    var i := 0;
    ghost var listed: seq<PathImage> := [];
    while i < |imagePaths|
      invariant 0 <= i <= |imagePaths|
      invariant KeptAs(imagePaths[..i], derive, listed)
    {
      thrown := ListPath(civil, imagePaths[i]);
      assert derive(imagePaths[i]) == Derive(civil, imagePaths[i]);
      if thrown.Some? {
        KeptAsThenThrow(imagePaths, derive, listed, i, thrown.value);
        return;
      }
      KeptAsSnoc(imagePaths, derive, listed, i, derive(imagePaths[i]).image);
      listed := listed + [derive(imagePaths[i]).image];
      i := i + 1;
    }
    assert imagePaths[..i] == imagePaths;
    KeptAsCollect(imagePaths, derive, listed);
    thrown := None;
  }

  /** The Select that builds the records, once the listing has gone through. */
  method BuildRecords(imagePaths: seq<string>, civil: int -> DateTime) returns (images: seq<PathImage>)
    requires Collect(imagePaths, Deriver(civil)).Ok?
    requires KeptAs(imagePaths, Deriver(civil), Collect(imagePaths, Deriver(civil)).value)
    ensures Collect(imagePaths, Deriver(civil)) == Ok(images)
  {
    var derive := Deriver(civil);
    ghost var listed := Collect(imagePaths, derive).value;
    images := [];
    var i := 0;
    while i < |imagePaths|
      invariant 0 <= i <= |imagePaths| && |images| == i
      invariant KeptAs(imagePaths[..i], derive, images)
    {
      KeptAsAt(imagePaths, derive, listed, i);
      assert derive(imagePaths[i]) == Derive(civil, imagePaths[i]);
      var image := BuildRecord(civil, imagePaths[i]);
      KeptAsSnoc(imagePaths, derive, images, i, image);
      images := images + [image];
      i := i + 1;
    }
    assert imagePaths[..i] == imagePaths;
    KeptAsCollect(imagePaths, derive, images);
  }

  /** InsertImagePathsIntoDatabase: the listing loop, the prompt, and the Select that
      builds the records. */
  method InsertImagePathsIntoDatabase(imagePaths: seq<string>, civil: int -> DateTime, confirm: bool)
    returns (outcome: ExtractImagePaths.Insertion)
    ensures outcome == Insertion(imagePaths, civil, confirm)
  {
    var thrown := ListPaths(imagePaths, civil);
    if thrown.Some? {
      return Threw(thrown.value);
    }
    if !confirm {
      return Declined;
    }
    var images := BuildRecords(imagePaths, civil);
    return Inserted(images);
  }

  /** Every path gives exactly one record, in input order, named after its file, with
      the site and camera its path names. */
  lemma OneRecordPerPath(imagePaths: seq<string>, civil: int -> DateTime, confirm: bool)
    ensures var out := Insertion(imagePaths, civil, confirm);
            out.Inserted? ==>
              && |out.images| == |imagePaths|
              && forall i :: 0 <= i < |imagePaths| ==>
                   && out.images[i].filePath == imagePaths[i]
                   && out.images[i].name == GetFileName(imagePaths[i])
                   && out.images[i].site == FirstSite(imagePaths[i])
                   && out.images[i].camera == CameraOf(imagePaths[i])
  {
    var derive := Deriver(civil);
    var out := Insertion(imagePaths, civil, confirm);
    if out.Inserted? {
      forall j | 0 <= j < |imagePaths|
        ensures !derive(imagePaths[j]).Skip?
      {
        DeriveOutcome(civil, imagePaths[j]);
      }
      CollectNeverSkips(imagePaths, derive);
      forall i | 0 <= i < |imagePaths|
        ensures && out.images[i].filePath == imagePaths[i]
                && out.images[i].name == GetFileName(imagePaths[i])
                && out.images[i].site == FirstSite(imagePaths[i])
                && out.images[i].camera == CameraOf(imagePaths[i])
      {
        DeriveOutcome(civil, imagePaths[i]);
      }
    }
  }

  /** A name of fewer than two characters before its extension aborts the run, whatever
      the operator answers. */
  lemma ShortNameAborts(imagePaths: seq<string>, civil: int -> DateTime, confirm: bool, i: nat)
    requires i < |imagePaths| && |NameWithoutExtension(imagePaths[i])| < 2
    ensures Insertion(imagePaths, civil, confirm).Threw?
  {
    ParseUnixTimeCases(imagePaths[i]);
    var derive := Deriver(civil);
    assert derive(imagePaths[i]).Throws?;
    CollectThrows(imagePaths, derive);
  }
}
