/** What the three ingestion programs (src/InitializeDatabase/Program.cs,
    src/ExtractImagePaths/Program.cs and Program.cs) have in common: a per-path derivation
    that keeps, skips or throws, evaluated over the path list by a lazy
    Select/Where/ToList; and the directory walk that lists, for every subdirectory in turn,
    the files of each extension in turn. */
module Ingest {
  import opened Wrappers
  import opened Seqs
  import opened Records

  /** The outcome of deriving a record from one path. */
  datatype Derived<T> = Skip | Keep(image: T) | Throws(e: Exception)

  predicate Kept<T>(derive: string -> Derived<T>, path: string) {
    derive(path).Keep?
  }

  /** path => Kept(derive, path), named so that every use is the same function. */
  function KeptBy<T>(derive: string -> Derived<T>): string -> bool {
    path => Kept(derive, path)
  }

  /** Select(derive).Where(IsValid).Select(Image).ToList(): the paths are derived in order,
      the first derivation that throws ends the enumeration with its exception, and the
      kept records are collected in order. */
  function Collect<T>(paths: seq<string>, derive: string -> Derived<T>): Result<seq<T>, Exception>
  {
    if paths == [] then Ok([])
    else match derive(paths[0])
      case Throws(e) => Err(e)
      case Skip => Collect(paths[1..], derive)
      case Keep(image) =>
        match Collect(paths[1..], derive)
        case Ok(rest) => Ok([image] + rest)
        case Err(e) => Err(e)
  }

  /** The enumeration throws exactly when some derivation throws, and then with the
      exception of the first such path. */
  lemma {:induction false} CollectThrows<T>(paths: seq<string>, derive: string -> Derived<T>)
    ensures Collect(paths, derive).Err? <==> exists i :: 0 <= i < |paths| && derive(paths[i]).Throws?
    ensures Collect(paths, derive).Err? ==>
              exists i :: 0 <= i < |paths| && derive(paths[i]) == Throws(Collect(paths, derive).error)
                && forall j :: 0 <= j < i ==> !derive(paths[j]).Throws?
  {
    if paths != [] {
      CollectThrows(paths[1..], derive);
      assert forall i :: 1 <= i < |paths| ==> paths[i] == paths[1..][i - 1];
      if !derive(paths[0]).Throws? && Collect(paths, derive).Err? {
        var i :| 0 <= i < |paths[1..]| && derive(paths[1..][i]) == Throws(Collect(paths[1..], derive).error)
                 && forall j :: 0 <= j < i ==> !derive(paths[1..][j]).Throws?;
        assert derive(paths[i + 1]) == Throws(Collect(paths, derive).error);
        assert forall j :: 1 <= j < i + 1 ==> paths[j] == paths[1..][j - 1];
      }
    }
  }

  /** Whenever it does not throw, the result is exactly the records of the kept paths, one
      per kept path, in input order. */
  lemma {:induction false} CollectKeeps<T>(paths: seq<string>, derive: string -> Derived<T>)
    requires Collect(paths, derive).Ok?
    ensures var kept := Filter(paths, KeptBy(derive));
            && |Collect(paths, derive).value| == |kept|
            && forall i :: 0 <= i < |kept| ==> derive(kept[i]) == Keep(Collect(paths, derive).value[i])
  {
    if paths != [] {
      CollectKeeps(paths[1..], derive);
      assert paths == [paths[0]] + paths[1..];
      FilterAppend([paths[0]], paths[1..], KeptBy(derive));
      assert Filter([paths[0]], KeptBy(derive)) == if Kept(derive, paths[0]) then [paths[0]] else [];
    }
  }

  /** A list whose every path is kept enumerates to exactly those records. */
  lemma {:induction false} CollectAllKept<T>(paths: seq<string>, derive: string -> Derived<T>, images: seq<T>)
    requires |images| == |paths|
    requires forall j :: 0 <= j < |paths| ==> derive(paths[j]) == Keep(images[j])
    ensures Collect(paths, derive) == Ok(images)
  {
    if paths != [] {
      assert forall j :: 0 <= j < |paths| - 1 ==> paths[1..][j] == paths[j + 1] && images[1..][j] == images[j + 1];
      CollectAllKept(paths[1..], derive, images[1..]);
      assert images == [images[0]] + images[1..];
    }
  }

  /** Every path is kept, with the given records, one per path. */
  ghost predicate KeptAs<T>(paths: seq<string>, derive: string -> Derived<T>, images: seq<T>) {
    |paths| == |images| &&
    (paths == [] ||
     (KeptAs(paths[..|paths| - 1], derive, images[..|images| - 1]) && derive(paths[|paths| - 1]) == Keep(images[|images| - 1])))
  }

  /** One more kept path extends such a list by its record. */
  lemma KeptAsSnoc<T>(paths: seq<string>, derive: string -> Derived<T>, images: seq<T>, i: nat, image: T)
    requires i < |paths| && KeptAs(paths[..i], derive, images) && derive(paths[i]) == Keep(image)
    ensures KeptAs(paths[..i + 1], derive, images + [image])
  {
    assert paths[..i + 1][..i] == paths[..i];
    assert (images + [image])[..|images|] == images;
  }

  /** The i-th path of such a list is kept with the i-th record. */
  lemma {:induction false} KeptAsAt<T>(paths: seq<string>, derive: string -> Derived<T>, images: seq<T>, i: nat)
    requires KeptAs(paths, derive, images) && i < |paths|
    ensures derive(paths[i]) == Keep(images[i])
  {
    if i < |paths| - 1 {
      KeptAsAt(paths[..|paths| - 1], derive, images[..|images| - 1], i);
    }
  }

  /** Such a list enumerates to exactly its records. */
  lemma {:induction false} KeptAsCollect<T>(paths: seq<string>, derive: string -> Derived<T>, images: seq<T>)
    requires KeptAs(paths, derive, images)
    ensures Collect(paths, derive) == Ok(images)
  {
    forall j | 0 <= j < |paths|
      ensures derive(paths[j]) == Keep(images[j])
    {
      KeptAsAt(paths, derive, images, j);
    }
    CollectAllKept(paths, derive, images);
  }

  /** A list kept up to a path that throws enumerates to that path's exception. */
  lemma KeptAsThenThrow<T>(paths: seq<string>, derive: string -> Derived<T>, images: seq<T>, i: nat, e: Exception)
    requires i < |paths| && KeptAs(paths[..i], derive, images) && derive(paths[i]) == Throws(e)
    ensures Collect(paths, derive) == Err(e)
  {
    forall j | 0 <= j < i
      ensures !derive(paths[j]).Throws?
    {
      KeptAsAt(paths[..i], derive, images, j);
    }
    CollectFirstThrow(paths, derive, i, e);
  }

  /** A derivation that never skips gives one record per path, in order, whenever the
      enumeration does not throw. */
  lemma {:induction false} CollectNeverSkips<T>(paths: seq<string>, derive: string -> Derived<T>)
    requires forall j :: 0 <= j < |paths| ==> !derive(paths[j]).Skip?
    requires Collect(paths, derive).Ok?
    ensures |Collect(paths, derive).value| == |paths|
    ensures forall j :: 0 <= j < |paths| ==> derive(paths[j]) == Keep(Collect(paths, derive).value[j])
  {
    if paths != [] {
      assert forall j :: 0 <= j < |paths| - 1 ==> paths[1..][j] == paths[j + 1];
      CollectNeverSkips(paths[1..], derive);
    }
  }

  /** The first path whose derivation throws decides the exception. */
  lemma {:induction false} CollectFirstThrow<T>(paths: seq<string>, derive: string -> Derived<T>, i: nat, e: Exception)
    requires i < |paths| && derive(paths[i]) == Throws(e)
    requires forall j :: 0 <= j < i ==> !derive(paths[j]).Throws?
    ensures Collect(paths, derive) == Err(e)
  {
    if i > 0 {
      assert forall j :: 0 <= j < i - 1 ==> paths[1..][j] == paths[j + 1];
      CollectFirstThrow(paths[1..], derive, i - 1, e);
    }
  }

  // ---------------------------------------------------------------- the directory walk

  /** The files of one directory, for each extension in turn: Directory.GetFiles(dir,
      "*{ext}"), the parameter `getFiles`. */
  function InDirectory(getFiles: (string, string) -> seq<string>, directory: string, extensions: seq<string>): seq<string> {
    if extensions == [] then []
    else InDirectory(getFiles, directory, extensions[..|extensions| - 1])
         + getFiles(directory, "*" + extensions[|extensions| - 1])
  }

  /** The files of every listed directory, one directory after the other. */
  function Gathered(getFiles: (string, string) -> seq<string>, directories: seq<string>, extensions: seq<string>): seq<string> {
    if directories == [] then []
    else Gathered(getFiles, directories[..|directories| - 1], extensions)
         + InDirectory(getFiles, directories[|directories| - 1], extensions)
  }

  /** GetImagePaths: a foreach over the subdirectories, inside it a foreach over the
      extensions, inside that a foreach over the matching files, adding each one. */
  method GetImagePaths(directories: seq<string>, extensions: seq<string>, getFiles: (string, string) -> seq<string>)
    returns (imagePaths: seq<string>)
    ensures imagePaths == Gathered(getFiles, directories, extensions)
  {
    imagePaths := [];
    var d := 0;
    while d < |directories|
      invariant 0 <= d <= |directories|
      invariant imagePaths == Gathered(getFiles, directories[..d], extensions)
    {
      assert directories[..d + 1][..d] == directories[..d];
      var directory := directories[d];
      var before := imagePaths;
      var e := 0;
      while e < |extensions|
        invariant 0 <= e <= |extensions|
        invariant imagePaths == before + InDirectory(getFiles, directory, extensions[..e])
      {
        assert extensions[..e + 1][..e] == extensions[..e];
        var files := getFiles(directory, "*" + extensions[e]);
        var middle := imagePaths;
        var f := 0;
        while f < |files|
          invariant 0 <= f <= |files|
          invariant imagePaths == middle + files[..f]
        {
          assert files[..f + 1] == files[..f] + [files[f]];
          imagePaths := imagePaths + [files[f]];
          f := f + 1;
        }
        assert files[..f] == files;
        e := e + 1;
      }
      assert extensions[..e] == extensions;
      d := d + 1;
    }
    assert directories[..d] == directories;
  }

  /** A path is collected exactly when one of the listed directories holds it for one of
      the extensions; files of a directory that is not listed (the root itself) never are. */
  lemma {:induction false} GatheredMembership(getFiles: (string, string) -> seq<string>, directories: seq<string>, extensions: seq<string>, p: string)
    ensures p in Gathered(getFiles, directories, extensions) <==>
              exists i, j :: 0 <= i < |directories| && 0 <= j < |extensions| && p in getFiles(directories[i], "*" + extensions[j])
  {
    if directories != [] {
      var init := directories[..|directories| - 1];
      var last := directories[|directories| - 1];
      GatheredMembership(getFiles, init, extensions, p);
      InDirectoryMembership(getFiles, last, extensions, p);
      if exists i, j :: 0 <= i < |directories| && 0 <= j < |extensions| && p in getFiles(directories[i], "*" + extensions[j]) {
        var i, j :| 0 <= i < |directories| && 0 <= j < |extensions| && p in getFiles(directories[i], "*" + extensions[j]);
        if i < |init| {
          assert init[i] == directories[i];
        }
      }
      if exists i, j :: 0 <= i < |init| && 0 <= j < |extensions| && p in getFiles(init[i], "*" + extensions[j]) {
        var i, j :| 0 <= i < |init| && 0 <= j < |extensions| && p in getFiles(init[i], "*" + extensions[j]);
        assert directories[i] == init[i];
      }
    }
  }

  lemma {:induction false} InDirectoryMembership(getFiles: (string, string) -> seq<string>, directory: string, extensions: seq<string>, p: string)
    ensures p in InDirectory(getFiles, directory, extensions) <==>
              exists j :: 0 <= j < |extensions| && p in getFiles(directory, "*" + extensions[j])
  {
    if extensions != [] {
      var init := extensions[..|extensions| - 1];
      InDirectoryMembership(getFiles, directory, init, p);
      assert forall j :: 0 <= j < |init| ==> init[j] == extensions[j];
    }
  }
}
