/** The path extraction program src/ExtractImagePaths/Program.cs: the image files of every
    subdirectory of the root, and for each one a record built from its path: its name, the
    Unix time in the name, the first site name it contains and its camera. The directory
    listings are the parameters `directories` and `getFiles`, the calendar conversion of
    Unix seconds the parameter `civil`, the operator's Y/N answer the parameter `confirm`. */
module ExtractImagePaths {
  import opened Wrappers
  import opened Text
  import opened Paths
  import opened Seqs
  import opened Calendar
  import opened Records
  import opened Ingest

  const ImageExtensions: seq<string> := [".jpg", ".jpeg", ".png", ".gif", ".bmp", ".webp", ".tiff"]

  /** The file list: every file of every subdirectory, by extension, in the order of the
      directory and extension lists. */
  method FindImagePaths(directories: seq<string>, getFiles: (string, string) -> seq<string>)
    returns (imagePaths: seq<string>)
    ensures imagePaths == Gathered(getFiles, directories, ImageExtensions)
  {
    imagePaths := GetImagePaths(directories, ImageExtensions, getFiles);
  }

  const SiteNames: seq<string> := ["Sheep", "Snake", "Sagehen", "Spring", "Conness", "Rockland", "Lassen"]

  /** The record these programs insert: the properties their object initializers set. */
  datatype PathImage = PathImage(name: string, filePath: string, dateTime: DateTime, unixTime: int, site: Option<string>, camera: int)

  /** siteNames.FirstOrDefault(s => path.Contains(s)), case-sensitive. */
  function FirstSite(path: string): (r: Option<string>)
    ensures r.None? <==> forall i :: 0 <= i < |SiteNames| ==> !Contains(path, SiteNames[i])
    ensures r.Some? ==> exists i :: 0 <= i < |SiteNames| && SiteNames[i] == r.value && Contains(path, r.value)
                          && forall j :: 0 <= j < i ==> !Contains(path, SiteNames[j])
  {
    FindFirst(SiteNames, ContainedIn(path))
  }

  /** s => path.Contains(s). */
  function ContainedIn(path: string): string -> bool {
    s => Contains(path, s)
  }

  /** Camera 2 exactly when the path contains "Camera2". */
  function CameraOf(path: string): (c: int)
    ensures c == 2 <==> Contains(path, "Camera2")
    ensures c == 1 || c == 2
  {
    if Contains(path, "Camera2") then 2 else 1
  }

  /** Path.GetFileNameWithoutExtension(Path.GetFileName(path)). */
  function NameWithoutExtension(filePath: string): string {
    GetFileNameWithoutExtension(GetFileName(filePath))
  }

  /** The Select lambda: a name without extension of two characters or fewer, or one whose
      part before its last two characters is not a long, is skipped; a Unix time outside
      the range of DateTime throws; the site is the empty string when none matches. */
  function Extract(civil: int -> DateTime, filePath: string): (d: Derived<PathImage>)
    ensures var stem := NameWithoutExtension(filePath);
            && (|stem| <= 2 ==> d == Skip)
            && (|stem| > 2 && TryParseLong(stem[..|stem| - 2]).None? ==> d == Skip)
            && (d.Throws? ==> d.e == ArgumentOutOfRange)
            && (d.Keep? ==>
                  && |stem| > 2 && TryParseLong(stem[..|stem| - 2]) == Some(d.image.unixTime)
                  && FromUnixTimeSeconds(d.image.unixTime, civil) == Some(d.image.dateTime)
                  && d.image.name == GetFileName(filePath) && d.image.filePath == filePath
                  && d.image.site == Some(FirstSite(filePath).GetOr(""))
                  && d.image.camera == CameraOf(filePath))
  {
    var name := GetFileName(filePath);
    var nameWithoutExtension := NameWithoutExtension(filePath);
    if |nameWithoutExtension| <= 2 then Skip
    else match TryParseLong(nameWithoutExtension[..|nameWithoutExtension| - 2])
      case None => Skip
      case Some(unixTime) =>
        match FromUnixTimeSeconds(unixTime, civil)
        case None => Throws(ArgumentOutOfRange)
        case Some(dateTime) =>
          Keep(PathImage(name, filePath, dateTime, unixTime, Some(FirstSite(filePath).GetOr("")), CameraOf(filePath)))
  }

  function Extractor(civil: int -> DateTime): string -> Derived<PathImage> {
    path => Extract(civil, path)
  }

  /** How InsertImagePathsIntoDatabase ends. */
  datatype Insertion = Inserted(images: seq<PathImage>) | Declined | Threw(e: Exception)

  /** The records are listed; `images[0]` is read to log an example, so an empty list
      throws ArgumentOutOfRangeException (the "No images available" branch is behind a null
      test that a record never fails); then the operator confirms or declines. */
  function InsertImagePathsIntoDatabase(filePaths: seq<string>, civil: int -> DateTime, confirm: bool): Insertion {
    match Collect(filePaths, Extractor(civil))
    case Err(e) => Threw(e)
    case Ok(images) =>
      if |images| == 0 then Threw(ArgumentOutOfRange)
      else if !confirm then Declined
      else Inserted(images)
  }

  /** With no valid path the program throws rather than reporting that there are no
      images; the records inserted are exactly those of the valid paths, in input order. */
  lemma InsertionOutcome(filePaths: seq<string>, civil: int -> DateTime, confirm: bool)
    ensures var valid := Filter(filePaths, KeptBy(Extractor(civil)));
            var out := InsertImagePathsIntoDatabase(filePaths, civil, confirm);
            && (valid == [] ==> out.Threw?)
            && (out.Inserted? ==>
                  && confirm
                  && |out.images| == |valid| > 0
                  && forall i :: 0 <= i < |valid| ==> Extract(civil, valid[i]) == Keep(out.images[i]))
            && (out.Declined? ==> !confirm && valid != [])
  {
    var derive := Extractor(civil);
    if Collect(filePaths, derive).Ok? {
      CollectKeeps(filePaths, derive);
    }
  }
}
