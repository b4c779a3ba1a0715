/** The detection pass of the tool that sorts out broken JPEG files
    (src/MoveInvalidFiles/Program.cs): every listed path whose extension is not exactly
    ".jpg" or ".jpeg", or whose bytes do not start with SOI and end with EOI, is collected
    as invalid. Reading a file is the parameter `content`; None stands for an open or read
    that throws, which the tool rethrows, ending the pass. */
module MoveInvalidFiles {
  import opened Wrappers
  import opened Paths
  import opened Seqs
  import opened Jpeg

  /** The extensions the tool accepts, compared with List.Contains, so case-sensitively. */
  const AcceptedFileExtensions: seq<string> := [".jpg", ".jpeg"]

  /** The marker test on a file's bytes: at least two of them, the last word EOI, the
      first word SOI. */
  predicate HasJpegMarkers(bytes: seq<byte>) {
    |bytes| >= 2 && ReadBigEndian16(bytes, |bytes| - 2) == EOI && ReadBigEndian16(bytes, 0) == SOI
  }

  /** The extension test of the pass. */
  predicate Accepted(path: string) {
    GetExtension(path) in AcceptedFileExtensions
  }

  /** A path the pass collects, given that its content can be read. */
  predicate IsInvalid(path: string, bytes: seq<byte>) {
    !Accepted(path) || !HasJpegMarkers(bytes)
  }

  /** The verdict of the loop body on one path. */
  datatype Verdict = Valid | Invalid | Threw

  /** A path with a foreign extension is invalid without being opened; otherwise the read
      either throws or gives the bytes the marker test judges. */
  function VerdictOf(path: string, content: string -> Option<seq<byte>>): (v: Verdict)
    ensures v == Threw <==> Accepted(path) && content(path).None?
    ensures content(path).Some? ==> (v == Invalid <==> IsInvalid(path, content(path).value))
    ensures !Accepted(path) ==> v == Invalid
  {
    if !Accepted(path) then Invalid
    else if content(path).None? then Threw
    else if !HasJpegMarkers(content(path).value) then Invalid
    else Valid
  }

  function Verdicts(content: string -> Option<seq<byte>>): string -> Verdict {
    path => VerdictOf(path, content)
  }

  /** The outcome of the pass: the paths collected, and the path whose read threw, if any. */
  datatype Detection = Detection(invalidFiles: seq<string>, failed: Option<string>)

  /** What the pass does with each path, in order, given the verdict on each; after a read
      that throws nothing more is examined. */
  function Detect(filePaths: seq<string>, verdict: string -> Verdict): Detection
  {
    if filePaths == [] then Detection([], None)
    else Examine(Detect(filePaths[..|filePaths| - 1], verdict), filePaths[|filePaths| - 1], verdict)
  }

  /** One iteration of the pass. */
  function Examine(d: Detection, path: string, verdict: string -> Verdict): Detection {
    if d.failed.Some? then d
    else match verdict(path)
      case Invalid => d.(invalidFiles := d.invalidFiles + [path])
      case Threw => d.(failed := Some(path))
      case Valid => d
  }

  /** The body of the loop for one path: the extension test, then the length, the last
      word and the first word of the file, in that order. */
  method CheckFile(filePath: string, content: string -> Option<seq<byte>>) returns (verdict: Verdict)
    ensures verdict == VerdictOf(filePath, content)
  {
    if !Accepted(filePath) {
      return Invalid;
    }
    if content(filePath).None? {
      return Threw;
    }
    var bytes := content(filePath).value;
    if |bytes| < 2 {
      return Invalid;
    }
    var segmentMarker := ConvertToBigEndian16(ReadUInt16(bytes, |bytes| - 2));
    if segmentMarker != EOI {
      return Invalid;
    }
    var firstHeader := ConvertToBigEndian16(ReadUInt16(bytes, 0));
    if firstHeader != SOI {
      return Invalid;
    }
    return Valid;
  }

  /** DetectInvalidFiles: the loop over the paths, appending to the invalid list and
      counting; the count it returns is the number of paths it appended. */
  method DetectInvalidFiles(filePaths: seq<string>, content: string -> Option<seq<byte>>)
    returns (invalidFiles: seq<string>, invalidFileCount: int, failed: Option<string>)
    ensures Detection(invalidFiles, failed) == Detect(filePaths, Verdicts(content))
    ensures invalidFileCount == |invalidFiles|
  {
    invalidFiles := [];
    invalidFileCount := 0;
    failed := None;
    var i := 0;
    while i < |filePaths|
      invariant 0 <= i <= |filePaths|
      invariant Detection(invalidFiles, None) == Detect(filePaths[..i], Verdicts(content))
      invariant invalidFileCount == |invalidFiles|
    {
      var filePath := filePaths[i];
      assert filePaths[..i + 1][..i] == filePaths[..i];
      var verdict := CheckFile(filePath, content);
      if verdict == Threw {
        failed := Some(filePath);
        DetectStops(filePaths, i + 1, Verdicts(content));
        return;
      }
      if verdict == Invalid {
        invalidFiles := invalidFiles + [filePath];
        invalidFileCount := invalidFileCount + 1;
      }
      i := i + 1;
    }
    assert filePaths[..i] == filePaths;
  }

  /** Once a read has thrown, the paths after it change nothing. */
  lemma {:induction false} DetectStops(filePaths: seq<string>, k: nat, verdict: string -> Verdict)
    requires k <= |filePaths|
    requires Detect(filePaths[..k], verdict).failed.Some?
    ensures Detect(filePaths, verdict) == Detect(filePaths[..k], verdict)
  {
    if k < |filePaths| {
      var prefix := filePaths[..|filePaths| - 1];
      assert prefix[..k] == filePaths[..k];
      DetectStops(prefix, k, verdict);
    } else {
      assert filePaths[..k] == filePaths;
    }
  }

  /** When no read throws, the pass ends normally and collects exactly the paths judged
      invalid, each once, in input order. */
  lemma {:induction false} DetectIsFilter(filePaths: seq<string>, verdict: string -> Verdict)
    requires forall i :: 0 <= i < |filePaths| ==> verdict(filePaths[i]) != Threw
    ensures Detect(filePaths, verdict).failed == None
    ensures Detect(filePaths, verdict).invalidFiles == Filter(filePaths, (p: string) => verdict(p) == Invalid)
  {
    if filePaths != [] {
      var prefix := filePaths[..|filePaths| - 1];
      assert forall i :: 0 <= i < |prefix| ==> prefix[i] == filePaths[i];
      DetectIsFilter(prefix, verdict);
    }
  }

  /** When the first read that throws is at k, the pass ends there, after collecting the
      invalid paths before k. */
  lemma DetectFailure(filePaths: seq<string>, verdict: string -> Verdict, k: nat)
    requires k < |filePaths| && verdict(filePaths[k]) == Threw
    requires forall i :: 0 <= i < k ==> verdict(filePaths[i]) != Threw
    ensures Detect(filePaths, verdict).failed == Some(filePaths[k])
    ensures Detect(filePaths, verdict).invalidFiles == Filter(filePaths[..k], (p: string) => verdict(p) == Invalid)
  {
    var prefix := filePaths[..k];
    assert forall i :: 0 <= i < |prefix| ==> prefix[i] == filePaths[i];
    DetectIsFilter(prefix, verdict);
    assert filePaths[..k + 1][..k] == prefix;
    DetectStops(filePaths, k + 1, verdict);
  }

  /** The whole pass over readable files: with every accepted-extension file readable, the
      invalid list is exactly the paths failing the extension or marker test, in order, and
      the count is its length. */
  lemma DetectReadable(filePaths: seq<string>, content: string -> Option<seq<byte>>)
    requires forall i :: 0 <= i < |filePaths| ==> content(filePaths[i]).Some?
    ensures Detect(filePaths, Verdicts(content)).failed == None
    ensures Detect(filePaths, Verdicts(content)).invalidFiles ==
              Filter(filePaths, (p: string) => IsInvalid(p, content(p).GetOr([])))
  {
    var verdict := Verdicts(content);
    forall i | 0 <= i < |filePaths|
      ensures verdict(filePaths[i]) != Threw
    {
    }
    DetectIsFilter(filePaths, verdict);
    FilterAgreeing(filePaths, (p: string) => verdict(p) == Invalid,
                      (p: string) => IsInvalid(p, content(p).GetOr([])));
  }

  /** The verdict on one readable file, byte by byte: it is kept exactly when its extension
      is ".jpg" or ".jpeg" as written, it has at least two bytes, it starts FF D8 and it
      ends FF D9. */
  lemma ValidIff(path: string, bytes: seq<byte>)
    ensures !IsInvalid(path, bytes) <==>
              && (GetExtension(path) == ".jpg" || GetExtension(path) == ".jpeg")
              && |bytes| >= 2
              && bytes[0] == 0xFF && bytes[1] == 0xD8
              && bytes[|bytes| - 2] == 0xFF && bytes[|bytes| - 1] == 0xD9
  {
    MarkerBytes();
    if |bytes| >= 2 {
      ReadBigEndianIs(bytes, 0, SOI);
      ReadBigEndianIs(bytes, |bytes| - 2, EOI);
    }
  }
}
