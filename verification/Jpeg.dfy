/** Reading the size of a JPEG upload by walking over its marker segments (sections B.1.1.4 and B.2.2 of
    ITU-T T.81). */
module Jpeg {
  import opened Basics

  type byte = x: int | 0 <= x < 256

  datatype Size = Size(width: nat, height: nat)

  /** Start-of-frame markers: C0 to CF without DHT, JPG and DAC. */
  predicate IsFrame(marker: byte) {
    0xC0 <= marker <= 0xCF && marker != 0xC4 && marker != 0xC8 && marker != 0xCC
  }

  /** The markers SOI and EOI, which have no length. */
  predicate IsBare(marker: byte) {
    marker == 0xD8 || marker == 0xD9
  }

  function BigEndian(data: seq<byte>, i: nat): nat
    requires i + 2 <= |data|
  {
    (data[i] as int) * 256 + data[i + 1]
  }

  /** The size in the first frame header that a walk from the start of s reaches. */
  function Scan(s: seq<byte>): Option<Size> {
    if |s| < 10 then None
    else if s[0] != 0xFF then Scan(s[1..])
    else if IsBare(s[1]) then Scan(s[2..])
    else
      var length := BigEndian(s, 2);
      if length < 2 || 2 + length > |s| then None
      else if IsFrame(s[1]) then Some(Size(BigEndian(s, 7), BigEndian(s, 5)))
      else Scan(s[2 + length..])
  }

  /** One step of the walk, told in terms of the whole data. */
  lemma ScanAt(data: seq<byte>, index: nat)
    requires index + 9 < |data|
    ensures var rest := Scan(data[index..]);
      if data[index] != 0xFF then rest == Scan(data[index + 1..])
      else if IsBare(data[index + 1]) then rest == Scan(data[index + 2..])
      else var length := BigEndian(data, index + 2);
      if length < 2 || index + 2 + length > |data| then rest == None
      else if IsFrame(data[index + 1]) then rest == Some(Size(BigEndian(data, index + 7), BigEndian(data, index + 5)))
      else rest == Scan(data[index + 2 + length..])
  {
    var s := data[index..];
    assert s[1..] == data[index + 1..] && s[2..] == data[index + 2..];
    assert BigEndian(s, 2) == BigEndian(data, index + 2);
    if 2 + BigEndian(s, 2) <= |s| {
      assert s[2 + BigEndian(s, 2)..] == data[index + 2 + BigEndian(s, 2)..];
    }
  }

  lemma ScanEnd(data: seq<byte>, index: nat)
    requires index <= |data| <= index + 9
    ensures Scan(data[index..]) == None
  {
  }

  /** Walks over the bytes in place. Every read is inside the data, so no unpacking is ever short. */
  method InspectJpeg(data: seq<byte>) returns (size: Option<Size>)
    ensures size == if |data| < 2 then None else Scan(data[2..])
  {
    hide Scan, BigEndian;
    var index := 2;
    while index + 9 < |data|
      invariant 2 <= index && (|data| >= 2 ==> index <= |data| && Scan(data[2..]) == Scan(data[index..]))
    {
      ScanAt(data, index);
      if data[index] != 0xFF {
        index := index + 1;
        continue;
      }
      var marker := data[index + 1];
      index := index + 2;
      if IsBare(marker) {
        continue;
      }
      // The source also leaves the loop when fewer than two bytes remain; the loop's guard rules that out.
      assert index + 2 <= |data|;
      var length := BigEndian(data, index);
      if length < 2 || index + length > |data| {
        return None;
      }
      if IsFrame(marker) {
        var height := BigEndian(data, index + 3);
        var width := BigEndian(data, index + 5);
        return Some(Size(width, height));
      }
      index := index + length;
    }
    if |data| >= 2 {
      ScanEnd(data, index);
    }
    return None;
  }

  // ----- What is accepted, as a grammar -----

  /** What may precede the frame header: stray bytes, markers without a length, and other segments. */
  datatype Piece = Stray(b: byte) | Bare(marker: byte) | Segment(marker: byte, payload: seq<byte>)

  ghost predicate PieceOk(p: Piece) {
    match p
    case Stray(b) => b != 0xFF
    case Bare(m) => IsBare(m)
    case Segment(m, payload) => !IsBare(m) && !IsFrame(m) && |payload| <= 65533
  }

  function Length(n: nat): seq<byte>
    requires n < 65536
  {
    [n / 256, n % 256]
  }

  function Printed(p: Piece): seq<byte>
    requires PieceOk(p)
  {
    match p
    case Stray(b) => [b]
    case Bare(m) => [0xFF, m]
    case Segment(m, payload) => [0xFF, m] + Length(|payload| + 2) + payload
  }

  function PrintedAll(ps: seq<Piece>): seq<byte>
    requires forall p :: p in ps ==> PieceOk(p)
  {
    if ps == [] then [] else Printed(ps[0]) + PrintedAll(ps[1..])
  }

  /** A frame marker with a length that fits, and at least eight bytes after the marker. */
  ghost predicate StartsWithFrame(s: seq<byte>, size: Size) {
    && |s| >= 10 && s[0] == 0xFF && IsFrame(s[1])
    && 2 <= BigEndian(s, 2) <= |s| - 2
    && size == Size(BigEndian(s, 7), BigEndian(s, 5))
  }

  /** The size is that of a frame header after some pieces, whatever follows it. */
  ghost predicate Framed(s: seq<byte>, size: Size) {
    exists ps: seq<Piece>, rest: seq<byte> :: Parses(s, ps, rest, size)
  }

  ghost predicate Parses(s: seq<byte>, ps: seq<Piece>, rest: seq<byte>, size: Size) {
    (forall p :: p in ps ==> PieceOk(p)) && s == PrintedAll(ps) + rest && StartsWithFrame(rest, size)
  }

  lemma {:induction false} ScanSkips(ps: seq<Piece>, rest: seq<byte>)
    requires |rest| >= 10 && forall p :: p in ps ==> PieceOk(p)
    ensures Scan(PrintedAll(ps) + rest) == Scan(rest)
  {
    if ps == [] {
      assert PrintedAll(ps) + rest == rest;
    } else {
      var head, tail := Printed(ps[0]), PrintedAll(ps[1..]) + rest;
      var s := PrintedAll(ps) + rest;
      assert s == head + tail;
      ScanSkips(ps[1..], rest);
      assert s[|head|..] == tail;
      if ps[0].Segment? {
        assert BigEndian(s, 2) == |ps[0].payload| + 2;
      }
    }
  }

  lemma LengthOf(s: seq<byte>)
    requires |s| >= 4
    ensures BigEndian(s, 2) < 65536 && s[2..4] == Length(BigEndian(s, 2))
  {
  }

  lemma FirstPiece(s: seq<byte>) returns (piece: Piece, n: nat)
    requires Scan(s).Some? && !(s[0] == 0xFF && IsFrame(s[1]))
    ensures PieceOk(piece) && 0 < n <= |s| && Printed(piece) == s[..n] && Scan(s[n..]) == Scan(s)
  {
    if s[0] != 0xFF {
      return Stray(s[0]), 1;
    }
    if IsBare(s[1]) {
      return Bare(s[1]), 2;
    }
    LengthOf(s);
    n := 2 + BigEndian(s, 2);
    piece := Segment(s[1], s[4..n]);
    assert s[..n] == s[..2] + s[2..4] + s[4..n];
  }

  lemma PrependPiece(piece: Piece, s: seq<byte>, tail: seq<byte>, ps: seq<Piece>, rest: seq<byte>, size: Size)
    requires PieceOk(piece) && s == Printed(piece) + tail && Parses(tail, ps, rest, size)
    ensures Parses(s, [piece] + ps, rest, size)
  {
    assert ([piece] + ps)[1..] == ps;
  }

  lemma {:induction false} ScanParses(s: seq<byte>, size: Size)
    requires Scan(s) == Some(size)
    ensures Framed(s, size)
    decreases |s|
  {
    hide Parses, Printed, PieceOk;
    if s[0] == 0xFF && IsFrame(s[1]) {
      FrameFirst(s, size);
    } else {
      var piece, n := FirstPiece(s);
      ScanParses(s[n..], size);
      var ps: seq<Piece>, rest: seq<byte> :| Parses(s[n..], ps, rest, size);
      assert s == s[..n] + s[n..];
      PrependPiece(piece, s, s[n..], ps, rest, size);
    }
  }

  lemma FrameFirst(s: seq<byte>, size: Size)
    requires Scan(s) == Some(size) && s[0] == 0xFF && IsFrame(s[1])
    ensures Parses(s, [], s, size)
  {
    assert s == PrintedAll([]) + s;
  }

  /** The scanner finds a size exactly when the bytes parse that way. */
  lemma {:induction false} ScanIsExact(s: seq<byte>, size: Size)
    ensures Scan(s) == Some(size) <==> Framed(s, size)
  {
    if Scan(s) == Some(size) {
      ScanParses(s, size);
    }
    if Framed(s, size) {
      var ps: seq<Piece>, rest: seq<byte> :| Parses(s, ps, rest, size);
      ScanSkips(ps, rest);
    }
  }

  /** A frame header as an encoder writes it: precision, height, width and the components. */
  function PrintedFrame(marker: byte, precision: byte, size: Size, components: seq<byte>): seq<byte>
    requires IsFrame(marker) && size.width < 65536 && size.height < 65536 && |components| <= 65528
  {
    [0xFF, marker] + Length(|components| + 7) + [precision] + Length(size.height) + Length(size.width) + components
  }

  /** Printing and scanning are inverse, whatever precedes and follows the frame header. */
  lemma {:induction false} RoundTrip(
      ps: seq<Piece>, marker: byte, precision: byte, size: Size, components: seq<byte>, rest: seq<byte>)
    requires forall p :: p in ps ==> PieceOk(p)
    requires IsFrame(marker) && size.width < 65536 && size.height < 65536 && 1 <= |components| <= 65528
    ensures Scan(PrintedAll(ps) + (PrintedFrame(marker, precision, size, components) + rest)) == Some(size)
  {
    var frame := PrintedFrame(marker, precision, size, components) + rest;
    assert frame[..9]
           == [0xFF, marker] + Length(|components| + 7) + [precision] + Length(size.height) + Length(size.width);
    assert BigEndian(frame, 2) == |components| + 7;
    assert BigEndian(frame, 5) == size.height && BigEndian(frame, 7) == size.width;
    ScanSkips(ps, frame);
  }

  // ----- The markers, and one upload byte by byte -----

  /** The scanner stops at these markers and takes these for bare ones; every other marker has a length to skip. */
  lemma {:induction false} MarkersExactly(m: byte)
    ensures IsFrame(m)
            <==> m in {0xC0, 0xC1, 0xC2, 0xC3, 0xC5, 0xC6, 0xC7, 0xC9, 0xCA, 0xCB, 0xCD, 0xCE, 0xCF}
    ensures IsBare(m) <==> m in {0xD8, 0xD9}
  {
  }

  /** An application segment, a table, and a frame header of 258 lines of 772 samples. */
  const UPLOAD: seq<byte> := [
    0xFF, 0xD8, 0xFF, 0xE0, 0x00, 0x03, 0x4A, 0xFF, 0xC4, 0x00, 0x02,
    0xFF, 0xC0, 0x00, 0x0B, 0x08, 0x01, 0x02, 0x03, 0x04, 0x01, 0x01, 0x11, 0x00]

  lemma {:induction false} UploadIsRead()
    ensures Scan(UPLOAD[2..]) == Some(Size(772, 258))
  {
    var s := UPLOAD[2..];
    assert s[0] == 0xFF && s[1] == 0xE0 && s[2] == 0 && s[3] == 3;
    assert s[5] == 0xFF && s[6] == 0xC4 && s[7] == 0 && s[8] == 2;
    assert s[9] == 0xFF && s[10] == 0xC0 && s[11] == 0 && s[12] == 11;
    assert s[14] == 1 && s[15] == 2 && s[16] == 3 && s[17] == 4;
    UploadScans(s);
  }

  lemma SegmentIsSkipped(s: seq<byte>, length: nat)
    requires |s| >= 10 && s[0] == 0xFF && !IsBare(s[1]) && !IsFrame(s[1])
    requires length == BigEndian(s, 2) && 2 <= length && 2 + length <= |s|
    ensures Scan(s) == Scan(s[2 + length..])
  {
  }

  lemma UploadScans(s: seq<byte>)
    requires |s| == 22
    requires s[0] == 0xFF && s[1] == 0xE0 && s[2] == 0 && s[3] == 3
    requires s[5] == 0xFF && s[6] == 0xC4 && s[7] == 0 && s[8] == 2
    requires s[9] == 0xFF && s[10] == 0xC0 && s[11] == 0 && s[12] == 11
    requires s[14] == 1 && s[15] == 2 && s[16] == 3 && s[17] == 4
    ensures Scan(s) == Some(Size(772, 258))
  {
    hide Scan;
    SegmentIsSkipped(s, 3);
    var t := s[5..];
    SegmentIsSkipped(t, 2);
    var u := t[4..];
    assert BigEndian(u, 2) == 11 && BigEndian(u, 5) == 258 && BigEndian(u, 7) == 772;
    FrameIsRead(u);
  }

  lemma FrameIsRead(s: seq<byte>)
    requires |s| >= 10 && s[0] == 0xFF && IsFrame(s[1]) && 2 <= BigEndian(s, 2) <= |s| - 2
    ensures Scan(s) == Some(Size(BigEndian(s, 7), BigEndian(s, 5)))
  {
  }
}
