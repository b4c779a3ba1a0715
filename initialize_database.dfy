/** The database seeding program src/InitializeDatabase/Program.cs: the image files under
    the base directory, and for each one a record built from its path: the Unix time in
    its name, the first site name and the first "site_k" token it mentions, ignoring case.
    The recursive file listing is the parameter `allFiles`, the calendar conversion of Unix
    seconds the parameter `civil`. */
module InitializeDatabase {
  import opened Wrappers
  import opened Text
  import opened Paths
  import opened Seqs
  import opened Calendar
  import opened Records
  import opened Ingest

  // ---------------------------------------------------------------- the file list

  const Extensions: seq<string> := [".jpg", ".jpeg"]

  /** The extension filter: Path.GetExtension(file).ToLower() is in the list. */
  predicate IsImageFile(file: string) {
    ToLower(GetExtension(file)) in Extensions
  }

  /** GetImageFilePaths: each listed file is added when its extension passes. */
  method GetImageFilePaths(allFiles: seq<string>) returns (files: seq<string>)
    ensures files == Filter(allFiles, IsImageFile)
  {
    files := [];
    var i := 0;
    while i < |allFiles|
      invariant 0 <= i <= |allFiles|
      invariant files == Filter(allFiles[..i], IsImageFile)
    {
      assert allFiles[..i + 1][..i] == allFiles[..i];
      if ToLower(GetExtension(allFiles[i])) in Extensions {
        files := files + [allFiles[i]];
      }
      i := i + 1;
    }
    assert allFiles[..i] == allFiles;
  }

  /** The extension is compared without case: ".JPG" and ".Jpeg" pass, ".png" does not. */
  lemma ImageFileIff(file: string)
    ensures IsImageFile(file) <==>
              EqualsIgnoreCase(GetExtension(file), ".jpg") || EqualsIgnoreCase(GetExtension(file), ".jpeg")
  {
    LowerCaseLiteral(".jpg");
    LowerCaseLiteral(".jpeg");
  }

  // ---------------------------------------------------------------- one record

  const SiteNames: seq<string> := ["sheep", "snake", "spring", "rockland", "eldorado"]
  const SiteNumbers: seq<string> := ["site_0", "site_1", "site_2", "site_3", "site_4", "site_5"]

  /** The record the program inserts (src/InitializeDatabase/Image.cs, the fields it sets). */
  datatype SeedImage = SeedImage(filePath: string, unixTime: int, dateTime: DateTime, siteName: Option<string>, siteNumber: int)

  predicate Mentions(path: string, s: string) {
    ContainsIgnoreCase(path, s)
  }

  /** s => path contains s, ignoring case. */
  function MentionedIn(path: string): string -> bool {
    s => Mentions(path, s)
  }

  /** siteNames.FirstOrDefault(s => path contains s, ignoring case). */
  function SiteNameOf(path: string): (r: Option<string>)
    ensures r.None? <==> forall i :: 0 <= i < |SiteNames| ==> !Mentions(path, SiteNames[i])
    ensures r.Some? ==> exists i :: 0 <= i < |SiteNames| && SiteNames[i] == r.value && Mentions(path, r.value)
                          && forall j :: 0 <= j < i ==> !Mentions(path, SiteNames[j])
  {
    FindFirst(SiteNames, MentionedIn(path))
  }

  /** The site number: the last character of the first "site_k" token the path mentions,
      parsed; 1 when it mentions none. */
  function SiteNumberOf(path: string): int {
    TokenNumber(FindFirst(SiteNumbers, MentionedIn(path)))
  }

  /** The number a found token names; 1 when none is found. */
  function TokenNumber(found: Option<string>): int
    requires found.Some? ==> found.value in SiteNumbers
  {
    match found
    case None => 1
    case Some(token) =>
      SiteTokenDigit(token);
      DigitValue(token[|token| - 1])
  }

  /** Every token ends in a digit. */
  lemma SiteTokenDigit(token: string)
    requires token in SiteNumbers
    ensures |token| == 6 && IsDigit(token[5])
  {
  }

  /** The k-th token ends in the digit k. */
  lemma SiteTokenValue(k: nat)
    requires k < |SiteNumbers|
    ensures |SiteNumbers[k]| == 6 && IsDigit(SiteNumbers[k][5]) && DigitValue(SiteNumbers[k][5]) == k
  {
  }

  /** 1 when no token occurs; otherwise the k of the first "site_k" in list order that does. */
  lemma SiteNumberCases(path: string)
    ensures (forall i :: 0 <= i < |SiteNumbers| ==> !Mentions(path, SiteNumbers[i])) ==> SiteNumberOf(path) == 1
    ensures forall k ::
              (0 <= k < |SiteNumbers| && Mentions(path, SiteNumbers[k])
               && forall j :: 0 <= j < k ==> !Mentions(path, SiteNumbers[j])) ==> SiteNumberOf(path) == k
  {
    FirstTokenNumber(MentionedIn(path));
  }

  /** The same for any test of the tokens. */
  lemma FirstTokenNumber(p: string -> bool)
    ensures (forall i :: 0 <= i < |SiteNumbers| ==> !p(SiteNumbers[i])) ==> TokenNumber(FindFirst(SiteNumbers, p)) == 1
    ensures forall k ::
              (0 <= k < |SiteNumbers| && p(SiteNumbers[k])
               && forall j :: 0 <= j < k ==> !p(SiteNumbers[j])) ==> TokenNumber(FindFirst(SiteNumbers, p)) == k
  {
    forall k | 0 <= k < |SiteNumbers| && p(SiteNumbers[k]) && forall j :: 0 <= j < k ==> !p(SiteNumbers[j])
      ensures TokenNumber(FindFirst(SiteNumbers, p)) == k
    {
      FindFirstAt(SiteNumbers, p, k);
      SiteTokenValue(k);
    }
  }

  function NameOf(filePath: string): string {
    GetFileNameWithoutExtension(filePath)
  }

  /** The Select lambda for one path. */
  function Derive(civil: int -> DateTime, filePath: string): Derived<SeedImage> {
    var fileName := NameOf(filePath);
    if |fileName| <= 2 then Skip
    else match TryParseLong(fileName[..|fileName| - 2])
      case None => Skip
      case Some(unixTime) =>
        match FromUnixTimeSeconds(unixTime, civil)
        case None => Throws(ArgumentOutOfRange)
        case Some(dateTime) =>
          Keep(SeedImage(filePath, unixTime, dateTime, SiteNameOf(filePath), SiteNumberOf(filePath)))
  }

  /** A name (without extension) of two characters or fewer is skipped, and so is one
      whose part before its last two characters is not a long. */
  lemma DeriveSkips(civil: int -> DateTime, filePath: string)
    requires var name := NameOf(filePath);
             |name| <= 2 || TryParseLong(name[..|name| - 2]).None?
    ensures Derive(civil, filePath) == Skip
  {
  }

  /** A kept record holds the path, the Unix time its name carries, the date of that time,
      and the site name and number the path mentions. */
  lemma DeriveKeeps(civil: int -> DateTime, filePath: string)
    requires Derive(civil, filePath).Keep?
    ensures var name := NameOf(filePath);
            var image := Derive(civil, filePath).image;
            && |name| > 2 && TryParseLong(name[..|name| - 2]) == Some(image.unixTime)
            && FromUnixTimeSeconds(image.unixTime, civil) == Some(image.dateTime)
            && image.filePath == filePath
            && image.siteName == SiteNameOf(filePath)
            && image.siteNumber == SiteNumberOf(filePath)
  {
  }

  /** Only a Unix time outside the range of DateTime throws, with ArgumentOutOfRangeException. */
  lemma DeriveThrows(civil: int -> DateTime, filePath: string)
    requires Derive(civil, filePath).Throws?
    ensures var name := NameOf(filePath);
            && Derive(civil, filePath).e == ArgumentOutOfRange
            && |name| > 2 && TryParseLong(name[..|name| - 2]).Some?
            && FromUnixTimeSeconds(TryParseLong(name[..|name| - 2]).value, civil).None?
  {
  }

  function Deriver(civil: int -> DateTime): string -> Derived<SeedImage> {
    path => Derive(civil, path)
  }

  // ---------------------------------------------------------------- the insertion

  /** How InsertIntoDatabase ends: the records added and saved, nothing saved, or an
      exception out of the enumeration. */
  datatype Insertion = Inserted(images: seq<SeedImage>) | NothingInserted | Threw(e: Exception)

  function InsertIntoDatabase(filePaths: seq<string>, civil: int -> DateTime): Insertion {
    match Collect(filePaths, Deriver(civil))
    case Err(e) => Threw(e)
    case Ok(images) => if images == [] then NothingInserted else Inserted(images)
  }

  /** The inserted records are exactly those of the valid paths, in input order; nothing
      is saved when no path is valid; an out-of-range time aborts the whole insertion. */
  lemma InsertionOutcome(filePaths: seq<string>, civil: int -> DateTime)
    ensures var valid := Filter(filePaths, KeptBy(Deriver(civil)));
            var out := InsertIntoDatabase(filePaths, civil);
            && (out.Threw? <==> exists i :: 0 <= i < |filePaths| && Derive(civil, filePaths[i]).Throws?)
            && (out.Inserted? ==>
                  && |out.images| == |valid| > 0
                  && forall i :: 0 <= i < |valid| ==> Derive(civil, valid[i]) == Keep(out.images[i]))
            && (out.NothingInserted? <==>
                  valid == [] && forall i :: 0 <= i < |filePaths| ==> !Derive(civil, filePaths[i]).Throws?)
  {
    var derive := Deriver(civil);
    CollectThrows(filePaths, derive);
    if Collect(filePaths, derive).Ok? {
      CollectKeeps(filePaths, derive);
    }
  }
}
