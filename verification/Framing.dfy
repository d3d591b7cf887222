/**
 The byte layer of the .gfm format: little-endian length prefixes, the frame of header, payload and
 signature, and the row-major layout of a matrix of 4-byte words.
 */
module Framing {
  import opened Wrappers

  newtype Byte = x: int | 0 <= x < 256

  type Bytes = seq<Byte>

  const MAX_LENGTH: int := 0x1_0000_0000

  // ----- Little-endian u32 -----

  function PackU32(n: nat): (r: Bytes)
    requires n < MAX_LENGTH
    ensures |r| == 4
  {
    [(n % 256) as Byte, (n / 256 % 256) as Byte, (n / 65536 % 256) as Byte, (n / 16777216) as Byte]
  }

  function UnpackU32(b: Bytes): (n: nat)
    requires |b| == 4
    ensures n < MAX_LENGTH
  {
    b[0] as int + 256 * b[1] as int + 65536 * b[2] as int + 16777216 * b[3] as int
  }

  lemma UnpackPack(n: nat)
    requires n < MAX_LENGTH
    ensures UnpackU32(PackU32(n)) == n
    ensures var b := PackU32(n); n == b[0] as int + 0x100 * b[1] as int + 0x1_0000 * b[2] as int + 0x100_0000 * b[3] as int
  {
    var q := n / 256;
    var r := q / 256;
    assert n / 65536 == r && n / 16777216 == r / 256;
  }

  lemma PackUnpack(b: Bytes)
    requires |b| == 4
    ensures PackU32(UnpackU32(b)) == b
  {
    var n := UnpackU32(b);
    var q := b[1] as int + 256 * b[2] as int + 65536 * b[3] as int;
    var r := b[2] as int + 256 * b[3] as int;
    assert n == b[0] as int + 256 * q && q == b[1] as int + 256 * r;
    assert n / 256 == q && q / 256 == r && r / 256 == b[3] as int;
    assert n / 65536 == r && n / 16777216 == b[3] as int;
  }

  // ----- The frame -----

  const MAGIC: Bytes := [0x47, 0x46, 0x4D, 0x31]

  datatype Parts = Parts(header: Bytes, payload: Bytes, signature: Bytes)

  predicate Framable(p: Parts) {
    |p.header| < MAX_LENGTH && |p.payload| < MAX_LENGTH && |p.signature| == 64
  }

  function Frame(p: Parts): Bytes
    requires Framable(p)
  {
    MAGIC + PackU32(|p.header|) + p.header + PackU32(|p.payload|) + p.payload + p.signature
  }

  datatype FrameError = BadMagic | TruncatedHeaderLength | TruncatedHeader | TruncatedPayloadLength
                      | TruncatedPayload | SignatureLength(length: nat)

  function Unframe(b: Bytes): Result<Parts, FrameError> {
    if |b| < 4 || b[..4] != MAGIC then Failure(BadMagic)
    else if |b| < 8 then Failure(TruncatedHeaderLength)
    else
      var hl := UnpackU32(b[4..8]);
      if |b| < 8 + hl then Failure(TruncatedHeader)
      else if |b| < 12 + hl then Failure(TruncatedPayloadLength)
      else
        var tl := UnpackU32(b[8 + hl..12 + hl]);
        if |b| < 12 + hl + tl then Failure(TruncatedPayload)
        else if |b| - (12 + hl + tl) != 64 then Failure(SignatureLength(|b| - (12 + hl + tl)))
        else Success(Parts(b[8..8 + hl], b[12 + hl..12 + hl + tl], b[12 + hl + tl..]))
  }

  /** Reading back what was framed gives the same parts. */
  lemma UnframeFrame(p: Parts)
    requires Framable(p)
    ensures Unframe(Frame(p)) == Success(p)
  {
    var hl, tl, b := |p.header|, |p.payload|, Frame(p);
    assert b[..4] == MAGIC;
    assert b[4..8] == PackU32(hl);
    UnpackPack(hl);
    assert b[8..8 + hl] == p.header;
    assert b[8 + hl..12 + hl] == PackU32(tl);
    UnpackPack(tl);
    assert b[12 + hl..12 + hl + tl] == p.payload;
    assert b[12 + hl + tl..] == p.signature;
  }

  /** Whatever is accepted is byte for byte the frame of its parts. */
  lemma FrameUnframe(b: Bytes)
    requires Unframe(b).Success?
    ensures Framable(Unframe(b).value) && Frame(Unframe(b).value) == b
  {
    var hl := UnpackU32(b[4..8]);
    var tl := UnpackU32(b[8 + hl..12 + hl]);
    PackUnpack(b[4..8]);
    PackUnpack(b[8 + hl..12 + hl]);
    var p := Unframe(b).value;
    assert Frame(p) == b[..4] + b[4..8] + b[8..8 + hl] + b[8 + hl..12 + hl] + b[12 + hl..12 + hl + tl] + b[12 + hl + tl..];
  }

  /** Acceptance is being a frame, and a frame of given part lengths has 76 more bytes than header and payload. */
  lemma FramingExact(b: Bytes, p: Parts)
    ensures Unframe(b) == Success(p) <==> Framable(p) && b == Frame(p)
    ensures Unframe(b) == Success(p) ==> |b| == 76 + |p.header| + |p.payload|
  {
    if Framable(p) {
      UnframeFrame(p);
    }
    if Unframe(b).Success? {
      FrameUnframe(b);
    }
  }

  /** No proper extension, and so no proper prefix, of an accepted buffer is accepted. */
  lemma FramesDoNotExtend(b: Bytes, longer: Bytes)
    requires Unframe(b).Success? && Unframe(longer).Success? && b <= longer
    ensures b == longer
  {
    assert b[4..8] == longer[4..8];
    var hl := UnpackU32(b[4..8]);
    assert b[8 + hl..12 + hl] == longer[8 + hl..12 + hl];
  }

  /** What is said of a frame that was cut short, by where it was cut, and of one with bytes after it. */
  lemma CutFrame(p: Parts, n: nat)
    requires Framable(p) && n <= |Frame(p)|
    ensures var cut, hl, tl := Unframe(Frame(p)[..n]), |p.header|, |p.payload|;
      if n < 4 then cut == Failure(BadMagic)
      else if n < 8 then cut == Failure(TruncatedHeaderLength)
      else if n < 8 + hl then cut == Failure(TruncatedHeader)
      else if n < 12 + hl then cut == Failure(TruncatedPayloadLength)
      else if n < 12 + hl + tl then cut == Failure(TruncatedPayload)
      else if n < 76 + hl + tl then cut == Failure(SignatureLength(n - (12 + hl + tl)))
      else cut == Success(p)
  {
    var b, c := Frame(p), Frame(p)[..n];
    UnframeFrame(p);
    FramingExact(b, p);
    FrameLengths(p);
    if n >= 8 {
      assert c[..4] == b[..4] && c[4..8] == b[4..8];
    }
    if n >= 12 + |p.header| {
      assert c[8 + |p.header|..12 + |p.header|] == b[8 + |p.header|..12 + |p.header|];
    }
    assert n == |b| ==> c == b;
  }

  lemma FrameLengths(p: Parts)
    requires Framable(p)
    ensures |Frame(p)| == 76 + |p.header| + |p.payload| && Frame(p)[..4] == MAGIC
    ensures UnpackU32(Frame(p)[4..8]) == |p.header|
    ensures UnpackU32(Frame(p)[8 + |p.header|..12 + |p.header|]) == |p.payload|
  {
    var hl, tl, b := |p.header|, |p.payload|, Frame(p);
    assert b[4..8] == PackU32(hl) && b[8 + hl..12 + hl] == PackU32(tl);
    UnpackPack(hl);
    UnpackPack(tl);
  }

  // ----- Row-major matrices of 4-byte words -----

  /** A float32 as the four bytes it is stored in. */
  datatype Word = Word(b0: Byte, b1: Byte, b2: Byte, b3: Byte)

  datatype Matrix = Matrix(rows: nat, cols: nat, cells: seq<seq<Word>>)

  ghost predicate ValidMatrix(m: Matrix) {
    |m.cells| == m.rows && forall i :: 0 <= i < |m.cells| ==> |m.cells[i]| == m.cols
  }

  function Flatten(cells: seq<seq<Word>>): seq<Word> {
    if cells == [] then [] else cells[0] + Flatten(cells[1..])
  }

  function WordBytes(ws: seq<Word>): (r: Bytes)
    ensures |r| == 4 * |ws|
  {
    if ws == [] then [] else [ws[0].b0, ws[0].b1, ws[0].b2, ws[0].b3] + WordBytes(ws[1..])
  }

  function ToWords(b: Bytes): (r: seq<Word>)
    ensures |b| == 4 * (|b| / 4) ==> 4 * |r| == |b|
    decreases |b|
  {
    if |b| < 4 then [] else [Word(b[0], b[1], b[2], b[3])] + ToWords(b[4..])
  }

  lemma {:induction false} WordsRoundTrip(ws: seq<Word>)
    ensures ToWords(WordBytes(ws)) == ws
  {
    if ws != [] {
      WordsRoundTrip(ws[1..]);
      assert WordBytes(ws)[4..] == WordBytes(ws[1..]);
    }
  }

  /** `reshape(d, d)` of a flat list: cell (i, j) is word i * d + j. */
  function Reshape(ws: seq<Word>, d: nat): Matrix
    requires |ws| == d * d
  {
    Matrix(d, d, seq(d, i requires 0 <= i < d =>
                          seq(d, j requires 0 <= j < d => (RowMajorBound(d, i, j); ws[i * d + j]))))
  }

  lemma RowMajorBound(d: nat, i: nat, j: nat)
    requires i < d && j < d
    ensures i * d + j < d * d
  {
    assert i * d + j < (i + 1) * d <= d * d;
  }

  lemma {:induction false} FlattenLength(cells: seq<seq<Word>>, cols: nat)
    requires forall i :: 0 <= i < |cells| ==> |cells[i]| == cols
    ensures |Flatten(cells)| == |cells| * cols
  {
    if cells != [] {
      FlattenLength(cells[1..], cols);
    }
  }

  /** Row-major order: cell (i, j) of a matrix with `cols` columns is stored at i * cols + j. */
  lemma {:induction false} FlattenAt(cells: seq<seq<Word>>, cols: nat, i: nat, j: nat)
    requires forall k :: 0 <= k < |cells| ==> |cells[k]| == cols
    requires i < |cells| && j < cols
    ensures i * cols + j < |Flatten(cells)| && Flatten(cells)[i * cols + j] == cells[i][j]
  {
    FlattenLength(cells, cols);
    if i > 0 {
      FlattenAt(cells[1..], cols, i - 1, j);
      assert i * cols == cols + (i - 1) * cols;
    }
  }

  lemma ReshapeFlatten(m: Matrix)
    requires ValidMatrix(m) && m.rows == m.cols
    ensures |Flatten(m.cells)| == m.rows * m.rows
    ensures Reshape(Flatten(m.cells), m.rows) == m
  {
    var d := m.rows;
    FlattenLength(m.cells, d);
    var back := Reshape(Flatten(m.cells), d);
    forall i | 0 <= i < d
      ensures back.cells[i] == m.cells[i]
    {
      forall j | 0 <= j < d
        ensures back.cells[i][j] == m.cells[i][j]
      {
        FlattenAt(m.cells, d, i, j);
      }
    }
  }
}
