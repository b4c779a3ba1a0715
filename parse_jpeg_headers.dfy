/** The header scan of src/ParseJpegHeaders/Program.cs: for each listed image, check the
    SOI and EOI markers, then walk the marker segments from offset 2 until the first APP0
    segment, whose payload bytes 26 and 28 are reported. Whether a path is fully qualified
    and exists is the parameter `usable`, the bytes of a file the parameter `content`, and
    the directory listing for a search pattern the parameter `listing`. */
module ParseJpegHeaders {
  import opened Wrappers
  import opened Records
  import opened Jpeg

  // ---------------------------------------------------------------- the segment walk

  /** How the walk over one file ends. */
  datatype WalkEnd =
    | App0Found(byte27: byte, byte29: byte)   // payload indices 26 and 28
    | NoApp0                                   // reached the end of the file
    | BadSegmentLength                         // the "Invalid segment length" early return
    | WalkThrew(e: Exception)                  // a read past the end, or a short payload

  /** The walk as ITU-T T.81 section B.1.1.4 describes a marker segment: a two-byte marker,
      then a two-byte length that counts itself but not the marker, so the next marker is
      2 + length bytes on. A length below 2 or one that runs past the end stops the run. */
  function Walk(bytes: seq<byte>, pos: nat): WalkEnd
    decreases |bytes| - pos
  {
    if pos >= |bytes| then NoApp0
    else if pos + 2 > |bytes| then WalkThrew(EndOfStream)
    else if pos + 4 > |bytes| then WalkThrew(EndOfStream)
    else
      var marker := ReadBigEndian16(bytes, pos);
      var length := ReadBigEndian16(bytes, pos + 2);
      if length < 2 || pos + 2 + length > |bytes| then BadSegmentLength
      else if marker == APP0 then
        if length - 2 < 29 then WalkThrew(IndexOutOfRange)
        else App0Found(bytes[pos + 4 + 26], bytes[pos + 4 + 28])
      else Walk(bytes, pos + 2 + length)
  }

  /** The while loop over the segments of one file, advancing the stream position past the
      marker and length reads and then by length - 2. */
  method WalkSegments(bytes: seq<byte>) returns (result: WalkEnd)
    requires |bytes| >= 2
    ensures result == Walk(bytes, 2)
  {
    var position := 2;
    while position < |bytes|
      invariant 2 <= position
      invariant Walk(bytes, position) == Walk(bytes, 2)
      decreases |bytes| - position
    {
      if position + 2 > |bytes| {
        return WalkThrew(EndOfStream);
      }
      var segmentMarker := ConvertToBigEndian16(ReadUInt16(bytes, position));
      position := position + 2;
      if position + 2 > |bytes| {
        return WalkThrew(EndOfStream);
      }
      var segmentLength := ConvertToBigEndian16(ReadUInt16(bytes, position));
      position := position + 2;
      if segmentLength < 2 || position + (segmentLength - 2) > |bytes| {
        return BadSegmentLength;
      }
      if segmentMarker == APP0 {
        var app0Header := bytes[position..position + (segmentLength - 2)];
        if |app0Header| <= 28 {
          return WalkThrew(IndexOutOfRange);
        }
        return App0Found(app0Header[26], app0Header[28]);
      } else {
        position := position + (segmentLength - 2);
      }
    }
    return NoApp0;
  }

  /** An APP0 segment at p whose length field covers a payload of at least 29 bytes
      inside the file. */
  predicate LongApp0At(bytes: seq<byte>, p: nat) {
    && p + 4 <= |bytes|
    && ReadBigEndian16(bytes, p) == APP0
    && 31 <= ReadBigEndian16(bytes, p + 2) && p + 2 + ReadBigEndian16(bytes, p + 2) <= |bytes|
  }

  /** The walk from pos reaches the segment at p by skipping only well-formed segments
      that are not APP0: each has a length of at least 2 that stays inside the file, and
      the next one starts 2 + length bytes on. */
  predicate SkipsTo(bytes: seq<byte>, pos: nat, p: nat)
    decreases |bytes| - pos
  {
    || p == pos
    || (&& pos + 4 <= |bytes|
        && ReadBigEndian16(bytes, pos) != APP0
        && 2 <= ReadBigEndian16(bytes, pos + 2) && pos + 2 + ReadBigEndian16(bytes, pos + 2) <= |bytes|
        && SkipsTo(bytes, pos + 2 + ReadBigEndian16(bytes, pos + 2), p))
  }

  /** A reported pair comes from the first APP0 segment on the chain of segments from pos:
      every segment before it is a well-formed non-APP0 one, its length field covers a
      payload of at least 29 bytes inside the file, and the two bytes are payload bytes
      26 and 28. */
  lemma {:induction false} App0FoundAtSegment(bytes: seq<byte>, pos: nat)
    requires Walk(bytes, pos).App0Found?
    ensures exists p: nat :: SkipsTo(bytes, pos, p) && LongApp0At(bytes, p)
              && Walk(bytes, pos) == App0Found(bytes[p + 4 + 26], bytes[p + 4 + 28])
    decreases |bytes| - pos
  {
    if ReadBigEndian16(bytes, pos) != APP0 {
      var next := pos + 2 + ReadBigEndian16(bytes, pos + 2);
      SkipAdvances(bytes, pos);
      App0FoundAtSegment(bytes, next);
      var p: nat :| SkipsTo(bytes, next, p) && LongApp0At(bytes, p)
              && Walk(bytes, next) == App0Found(bytes[p + 4 + 26], bytes[p + 4 + 28]);
      assert SkipsTo(bytes, pos, p);
    } else {
      assert SkipsTo(bytes, pos, pos);
      assert LongApp0At(bytes, pos);
    }
  }

  /** Conversely, the walk from pos ends as the walk from any segment the chain reaches. */
  lemma {:induction false} WalkFollowsChain(bytes: seq<byte>, pos: nat, p: nat)
    requires SkipsTo(bytes, pos, p)
    ensures Walk(bytes, pos) == Walk(bytes, p)
    decreases |bytes| - pos
  {
    if p != pos {
      SkipAdvances(bytes, pos);
      WalkFollowsChain(bytes, pos + 2 + ReadBigEndian16(bytes, pos + 2), p);
    }
  }

  /** A walk that stops on an APP0 segment with a payload of fewer than 29 bytes throws
      IndexOutOfRangeException, and never reports. */
  lemma ShortApp0Throws(bytes: seq<byte>, pos: nat)
    requires pos + 4 <= |bytes| && ReadBigEndian16(bytes, pos) == APP0
    requires 2 <= ReadBigEndian16(bytes, pos + 2) < 31
    requires pos + 2 + ReadBigEndian16(bytes, pos + 2) <= |bytes|
    ensures Walk(bytes, pos) == WalkThrew(IndexOutOfRange)
  {
  }

  /** Skipping a segment never moves backwards: the walk past a non-APP0 segment of
      length L resumes exactly 2 + L bytes on, which is at least 4 bytes further. */
  lemma SkipAdvances(bytes: seq<byte>, pos: nat)
    requires pos + 4 <= |bytes| && ReadBigEndian16(bytes, pos) != APP0
    requires 2 <= ReadBigEndian16(bytes, pos + 2) && pos + 2 + ReadBigEndian16(bytes, pos + 2) <= |bytes|
    ensures var next := pos + 2 + ReadBigEndian16(bytes, pos + 2);
            next >= pos + 4 && Walk(bytes, pos) == Walk(bytes, next)
  {
  }

  // ---------------------------------------------------------------- one file

  /** What the scan does with one path. */
  datatype FileEnd =
    | Skipped                  // not fully qualified or not there: reported, run continues
    | TooSmall                 // under 2 bytes: the run returns
    | UnexpectedEoi(marker: ushort)
    | UnexpectedSoi(marker: ushort)
    | Walked(walk: WalkEnd)
  {
    /** Whether the scan goes on to the next path after this one. */
    predicate Continues() {
      Skipped? || (Walked? && (walk.App0Found? || walk.NoApp0?))
    }
  }

  function ScanFile(path: string, usable: string -> bool, content: string -> seq<byte>): FileEnd {
    if !usable(path) then Skipped
    else
      var bytes := content(path);
      if |bytes| < 2 then TooSmall
      else if ReadBigEndian16(bytes, |bytes| - 2) != EOI then UnexpectedEoi(ReadBigEndian16(bytes, |bytes| - 2))
      else if ReadBigEndian16(bytes, 0) != SOI then UnexpectedSoi(ReadBigEndian16(bytes, 0))
      else Walked(Walk(bytes, 2))
  }

  /** The body of the loop for one path. */
  method ParseFile(path: string, usable: string -> bool, content: string -> seq<byte>) returns (e: FileEnd)
    ensures e == ScanFile(path, usable, content)
  {
    if !usable(path) {
      return Skipped;
    }
    var bytes := content(path);
    if |bytes| < 2 {
      return TooSmall;
    }
    var segmentMarker := ConvertToBigEndian16(ReadUInt16(bytes, |bytes| - 2));
    if segmentMarker != EOI {
      return UnexpectedEoi(segmentMarker);
    }
    var firstHeader := ConvertToBigEndian16(ReadUInt16(bytes, 0));
    if firstHeader != SOI {
      return UnexpectedSoi(firstHeader);
    }
    var walk := WalkSegments(bytes);
    return Walked(walk);
  }

  // ---------------------------------------------------------------- the whole run

  /** The outcome of each path examined, in order; the run ends after the first one that
      does not continue. */
  function Scan(imagePaths: seq<string>, usable: string -> bool, content: string -> seq<byte>): seq<FileEnd>
  {
    if imagePaths == [] then []
    else
      var done := Scan(imagePaths[..|imagePaths| - 1], usable, content);
      if done != [] && !done[|done| - 1].Continues() then done
      else done + [ScanFile(imagePaths[|imagePaths| - 1], usable, content)]
  }

  /** The top-level foreach over the image paths. */
  method ParseAll(imagePaths: seq<string>, usable: string -> bool, content: string -> seq<byte>)
    returns (outcomes: seq<FileEnd>)
    ensures outcomes == Scan(imagePaths, usable, content)
  {
    outcomes := [];
    var i := 0;
    while i < |imagePaths|
      invariant 0 <= i <= |imagePaths|
      invariant outcomes == Scan(imagePaths[..i], usable, content)
      invariant forall j :: 0 <= j < |outcomes| ==> outcomes[j].Continues()
    {
      assert imagePaths[..i + 1][..i] == imagePaths[..i];
      var e := ParseFile(imagePaths[i], usable, content);
      outcomes := outcomes + [e];
      if !e.Continues() {
        ScanStops(imagePaths, i + 1, usable, content);
        return;
      }
      i := i + 1;
    }
    assert imagePaths[..i] == imagePaths;
  }

  /** After an outcome that ends the run, the remaining paths are not examined. */
  lemma {:induction false} ScanStops(imagePaths: seq<string>, k: nat, usable: string -> bool, content: string -> seq<byte>)
    requires 0 < k <= |imagePaths|
    requires var done := Scan(imagePaths[..k], usable, content);
             done != [] && !done[|done| - 1].Continues()
    ensures Scan(imagePaths, usable, content) == Scan(imagePaths[..k], usable, content)
  {
    if k < |imagePaths| {
      var prefix := imagePaths[..|imagePaths| - 1];
      assert prefix[..k] == imagePaths[..k];
      ScanStops(prefix, k, usable, content);
    } else {
      assert imagePaths[..k] == imagePaths;
    }
  }

  /** The outcomes are those of the paths in order, one each, every one but the last
      letting the run continue; and when the last continues too, every path was examined. */
  lemma {:induction false} ScanShape(imagePaths: seq<string>, usable: string -> bool, content: string -> seq<byte>)
    ensures var done := Scan(imagePaths, usable, content);
            && |done| <= |imagePaths|
            && (forall j :: 0 <= j < |done| ==> done[j] == ScanFile(imagePaths[j], usable, content))
            && (forall j :: 0 <= j < |done| - 1 ==> done[j].Continues())
            && ((done == [] || done[|done| - 1].Continues()) ==> |done| == |imagePaths|)
  {
    if imagePaths != [] {
      var prefix := imagePaths[..|imagePaths| - 1];
      ScanShape(prefix, usable, content);
      assert forall j :: 0 <= j < |prefix| ==> prefix[j] == imagePaths[j];
    }
  }

  /** A path that is not usable is skipped and the run goes on. */
  lemma UnusablePathSkipped(path: string, usable: string -> bool, content: string -> seq<byte>)
    requires !usable(path)
    ensures ScanFile(path, usable, content) == Skipped && Skipped.Continues()
  {
  }

  /** A usable file whose first two bytes are not FF D8, or whose last two are not FF D9,
      or that has fewer than two bytes, ends the whole run. */
  lemma BadMarkersEndRun(path: string, usable: string -> bool, content: string -> seq<byte>)
    requires usable(path)
    requires var b := content(path);
             |b| < 2 || !(b[0] == 0xFF && b[1] == 0xD8 && b[|b| - 2] == 0xFF && b[|b| - 1] == 0xD9)
    ensures !ScanFile(path, usable, content).Continues()
  {
    var b := content(path);
    if |b| >= 2 {
      MarkerBytes();
      ReadBigEndianIs(b, 0, SOI);
      ReadBigEndianIs(b, |b| - 2, EOI);
    }
  }

  // ---------------------------------------------------------------- collecting the paths

  const ImageExtensions: seq<string> := [".jpg", ".jpeg"]

  /** The files the searches "*{ext}" list, one extension after the other. */
  function Gathered(listing: string -> seq<string>, extensions: seq<string>): seq<string> {
    if extensions == [] then []
    else Gathered(listing, extensions[..|extensions| - 1]) + listing("*" + extensions[|extensions| - 1])
  }

  /** GetImagePaths: the foreach over the extensions, appending each search's files. */
  method GetImagePaths(listing: string -> seq<string>) returns (imagePaths: seq<string>)
    ensures imagePaths == Gathered(listing, ImageExtensions)
  {
    imagePaths := [];
    var i := 0;
    while i < |ImageExtensions|
      invariant 0 <= i <= |ImageExtensions|
      invariant imagePaths == Gathered(listing, ImageExtensions[..i])
    {
      assert ImageExtensions[..i + 1][..i] == ImageExtensions[..i];
      imagePaths := imagePaths + listing("*" + ImageExtensions[i]);
      i := i + 1;
    }
    assert ImageExtensions[..i] == ImageExtensions;
  }

  /** The paths are the "*.jpg" matches followed by the "*.jpeg" matches. */
  lemma ImagePathsOrder(listing: string -> seq<string>)
    ensures Gathered(listing, ImageExtensions) == listing("*.jpg") + listing("*.jpeg")
  {
    assert ImageExtensions[..1] == [".jpg"];
    assert "*" + ".jpg" == "*.jpg";
    assert "*" + ".jpeg" == "*.jpeg";
  }
}
