/**
 * The reader and the joiner of WAV files (RIFF and WAVE chunks of "Multimedia
 * Programming Interface and Data Specifications 1.0", chapters 2 and 3).
 */
module Wav {
  import opened Prelude

  type Byte = x: int | 0 <= x < 256

  const U32_LIMIT: int := 0x1_0000_0000

  const RIFF: seq<Byte> := [82, 73, 70, 70]
  const WAVE: seq<Byte> := [87, 65, 86, 69]
  const FMT: seq<Byte> := [102, 109, 116, 32]
  const DATA: seq<Byte> := [100, 97, 116, 97]

  /** An ASCII read of four bytes: Node's decoder clears the top bit of each. */
  function Ascii4(view: seq<Byte>, at: nat): seq<Byte>
    requires at + 4 <= |view|
  {
    [view[at] % 128, view[at + 1] % 128, view[at + 2] % 128, view[at + 3] % 128]
  }

  function LittleEndian(a: int, b: int, c: int, d: int): int {
    a + 256 * b + 65536 * c + 16777216 * d
  }

  function ReadU32(view: seq<Byte>, at: nat): (n: nat)
    requires at + 4 <= |view|
    ensures n < U32_LIMIT
  {
    LittleEndian(view[at], view[at + 1], view[at + 2], view[at + 3])
  }

  function U32(n: nat): (bytes: seq<Byte>)
    requires n < U32_LIMIT
    ensures |bytes| == 4
  {
    [n % 256, n / 256 % 256, n / 65536 % 256, n / 16777216]
  }

  lemma DigitsAddUp(n: nat)
    ensures LittleEndian(n % 256, n / 256 % 256, n / 65536 % 256, n / 16777216) == n
  {
    var b, c := n / 256, n / 65536;
    assert b / 256 == c && c / 256 == n / 16777216;
  }

  /** What is written as a 32-bit little-endian size is read back, wherever it stands. */
  lemma ReadBack(view: seq<Byte>, at: nat, n: nat)
    requires n < U32_LIMIT && at + 4 <= |view| && view[at..at + 4] == U32(n)
    ensures ReadU32(view, at) == n
  {
    DigitsAddUp(n);
    var bytes := U32(n);
    hide LittleEndian, U32;
    assert view[at] == bytes[0] && view[at + 1] == bytes[1] && view[at + 2] == bytes[2] && view[at + 3] == bytes[3];
  }

  // -------------------------------------------------------------- the reader

  datatype Chunk = Chunk(id: seq<Byte>, body: seq<Byte>)

  /** The chunks from `offset` on. A chunk cut short keeps what is there; odd sizes are padded. */
  function Walk(view: seq<Byte>, offset: nat): seq<Chunk>
    decreases |view| - offset
  {
    if offset + 8 > |view| then []
    else
      var size := ReadU32(view, offset + 4);
      var body := offset + 8;
      var end := if body + size < |view| then body + size else |view|;
      [Chunk(Ascii4(view, offset), view[body..end])] + Walk(view, body + size + size % 2)
  }

  function ChunksOf(view: seq<Byte>): Option<seq<Chunk>> {
    if |view| < 12 || Ascii4(view, 0) != RIFF || Ascii4(view, 8) != WAVE then None
    else Some(Walk(view, 12))
  }

  // What a WAV file is, byte by byte, without a reader.

  /** The size standing at `at`, least significant byte first. */
  ghost predicate SizeAt(view: seq<Byte>, at: nat, size: int) {
    at + 4 <= |view|
    && var a: int, b: int, c: int, d: int := view[at], view[at + 1], view[at + 2], view[at + 3];
       size == a + 256 * b + 65536 * c + 16777216 * d
  }

  /** These seven-bit characters stand at `at`, whatever the top bits of the bytes. */
  ghost predicate TextAt(view: seq<Byte>, at: nat, text: seq<int>) {
    at + |text| <= |view| && forall k | 0 <= k < |text| :: view[at + k] % 128 == text[k]
  }

  /** The first chunk of the list stands at `o`; a size beyond the end of the file is cut off there. */
  ghost predicate ChunkAt(view: seq<Byte>, o: nat, c: Chunk, size: nat) {
    && |c.id| == 4 && TextAt(view, o, c.id) && SizeAt(view, o + 4, size)
    && |c.body| == (if o + 8 + size <= |view| then size else |view| - o - 8)
    && (forall k | 0 <= k < |c.body| :: c.body[k] == view[o + 8 + k])
  }

  /** From `o` on the file is these chunks, with one more byte after each odd size. */
  ghost predicate Layout(view: seq<Byte>, o: nat, chunks: seq<Chunk>)
    decreases |chunks|
  {
    if o + 8 > |view| then chunks == []
    else
      && chunks != []
      && exists size: nat :: ChunkAt(view, o, chunks[0], size) && Layout(view, o + 8 + size + size % 2, chunks[1..])
  }

  /** `None` for a file that does not begin with R, I, F, F and, after a size, W, A, V, E. */
  ghost predicate IsLayout(view: seq<Byte>, r: Option<seq<Chunk>>) {
    if TextAt(view, 0, [82, 73, 70, 70]) && TextAt(view, 8, [87, 65, 86, 69]) then r.Some? && Layout(view, 12, r.value)
    else r.None?
  }

  lemma SizeIsRead(view: seq<Byte>, at: nat, size: int)
    requires at + 4 <= |view|
    ensures SizeAt(view, at, size) <==> size == ReadU32(view, at)
  {
  }

  lemma TextIsRead(view: seq<Byte>, at: nat, text: seq<Byte>)
    requires at + 4 <= |view| && |text| == 4
    ensures TextAt(view, at, text) <==> text == Ascii4(view, at)
  {
    var read := Ascii4(view, at);
    assert forall k | 0 <= k < 4 :: read[k] == view[at + k] % 128;
    hide Ascii4;
  }

  lemma ChunkIsRead(view: seq<Byte>, o: nat, c: Chunk, size: nat)
    requires o + 8 <= |view|
    ensures var end := if o + 8 + size < |view| then o + 8 + size else |view|;
            ChunkAt(view, o, c, size)
            <==> size == ReadU32(view, o + 4) && c == Chunk(Ascii4(view, o), view[o + 8..end])
  {
    SizeIsRead(view, o + 4, size);
    if |c.id| == 4 {
      TextIsRead(view, o, c.id);
    }
    hide SizeAt, TextAt, ReadU32, Ascii4;
  }

  /** Exactly one list of chunks lays out a file from `o` on: the one that the walk finds. */
  lemma {:induction false} LayoutIsWalk(view: seq<Byte>, o: nat, chunks: seq<Chunk>)
    ensures Layout(view, o, chunks) <==> chunks == Walk(view, o)
    decreases |chunks|
  {
    hide ChunkAt, ReadU32, Ascii4;
    if o + 8 <= |view| {
      var size := ReadU32(view, o + 4);
      var walked := Walk(view, o);
      assert walked[1..] == Walk(view, o + 8 + size + size % 2);
      ChunkIsRead(view, o, walked[0], size);
      if chunks != [] {
        forall n: nat ensures ChunkAt(view, o, chunks[0], n) <==> n == size && chunks[0] == walked[0] {
          ChunkIsRead(view, o, chunks[0], n);
        }
        LayoutIsWalk(view, o + 8 + size + size % 2, chunks[1..]);
        assert chunks == [chunks[0]] + chunks[1..] && walked == [walked[0]] + walked[1..];
      }
    }
  }

  lemma {:induction false} LayoutIsRead(view: seq<Byte>, r: Option<seq<Chunk>>)
    ensures IsLayout(view, r) <==> r == ChunksOf(view)
  {
    if |view| >= 12 {
      TextIsRead(view, 0, RIFF);
      TextIsRead(view, 8, WAVE);
    }
    if r.Some? {
      LayoutIsWalk(view, 12, r.value);
    }
    hide Layout, Walk, TextAt, Ascii4;
  }

  method ReadWavChunks(view: seq<Byte>) returns (r: Option<seq<Chunk>>)
    ensures r == ChunksOf(view) && IsLayout(view, r)
  {
    r := WalkChunks(view);
    LayoutIsRead(view, r);
  }

  /** What one turn of the walk contributes. */
  lemma WalkTurn(view: seq<Byte>, o: nat, before: seq<Chunk>)
    ensures o + 8 > |view| ==> before + Walk(view, o) == before
    ensures o + 8 <= |view| ==>
              var size := ReadU32(view, o + 4);
              var end := if o + 8 + size < |view| then o + 8 + size else |view|;
              before + Walk(view, o)
              == (before + [Chunk(Ascii4(view, o), view[o + 8..end])]) + Walk(view, o + 8 + size + size % 2)
  {
    hide ReadU32, Ascii4;
  }

  method WalkChunks(view: seq<Byte>) returns (r: Option<seq<Chunk>>)
    ensures r == ChunksOf(view)
  {
    hide ReadU32, Ascii4, Walk;
    if |view| < 12 { return None; }
    if Ascii4(view, 0) != RIFF { return None; }
    if Ascii4(view, 8) != WAVE { return None; }
    var chunks: seq<Chunk> := [];
    var offset := 12;
    while offset + 8 <= |view|
      invariant chunks + Walk(view, offset) == Walk(view, 12)
      decreases |view| - offset
    {
      WalkTurn(view, offset, chunks);
      var size := ReadU32(view, offset + 4);
      var body := offset + 8;
      var end := if body + size < |view| then body + size else |view|;
      chunks := chunks + [Chunk(Ascii4(view, offset), view[body..end])];
      offset := body + size + size % 2;
    }
    WalkTurn(view, offset, chunks);
    return Some(chunks);
  }

  /** The body of the first chunk with this id. */
  function Find(chunks: seq<Chunk>, id: seq<Byte>): Option<seq<Byte>> {
    if chunks == [] then None
    else if chunks[0].id == id then Some(chunks[0].body)
    else Find(chunks[1..], id)
  }

  // -------------------------------------------------------------- the writer

  datatype WavError =
    | NoParts
    | NotWav(part: nat)
    | NoFormat(part: nat)
    | NoData(part: nat)
    | DifferentFormat(part: nat)
    | TooLarge

  datatype Joined = Joined(format: Option<seq<Byte>>, data: seq<Byte>)

  /** One part taken into the join. */
  function Take(j: Joined, part: seq<Byte>, index: nat): Result<Joined, WavError> {
    var chunks := ChunksOf(part);
    if chunks.None? then Err(NotWav(index))
    else
      var fmt := Find(chunks.value, FMT);
      var data := Find(chunks.value, DATA);
      if fmt.None? then Err(NoFormat(index))
      else if data.None? then Err(NoData(index))
      else if j.format.Some? && j.format != fmt then Err(DifferentFormat(index))
      else Ok(Joined(fmt, j.data + data.value))
  }

  function Gather(parts: seq<seq<Byte>>, k: nat): Result<Joined, WavError>
    requires k <= |parts|
  {
    if k == 0 then Ok(Joined(None, []))
    else
      var before := Gather(parts, k - 1);
      if before.Err? then before else Take(before.value, parts[k - 1], k - 1)
  }

  function Pad(n: nat): nat { n % 2 }

  function Padding(n: nat): (bytes: seq<Byte>)
    ensures |bytes| == n % 2
  {
    if n % 2 == 1 then [0] else []
  }

  /** The size the RIFF header declares: everything after its own first eight bytes. */
  function RiffSize(fmt: seq<Byte>, data: seq<Byte>): nat {
    4 + 8 + |fmt| + Pad(|fmt|) + 8 + |data|
  }

  predicate Fits(fmt: seq<Byte>, data: seq<Byte>) {
    RiffSize(fmt, data) < U32_LIMIT
  }

  function Header(fmt: seq<Byte>, data: seq<Byte>): seq<Byte>
    requires Fits(fmt, data)
  {
    RIFF + U32(RiffSize(fmt, data)) + WAVE + FMT + U32(|fmt|) + fmt + Padding(|fmt|) + DATA + U32(|data|)
  }

  function WavFile(fmt: seq<Byte>, data: seq<Byte>): seq<Byte>
    requires Fits(fmt, data)
  {
    Header(fmt, data) + data
  }

  function Concat(parts: seq<seq<Byte>>): Result<seq<Byte>, WavError> {
    if parts == [] then Err(NoParts)
    else
      var all := Gather(parts, |parts|);
      if all.Err? then Err(all.error)
      else if all.value.format.None? then Err(NoParts)
      else if !Fits(all.value.format.value, all.value.data) then Err(TooLarge)
      else Ok(WavFile(all.value.format.value, all.value.data))
  }

  lemma {:induction false} ErrorSticks(parts: seq<seq<Byte>>, k: nat, n: nat)
    requires k <= n <= |parts| && Gather(parts, k).Err?
    ensures Gather(parts, n) == Gather(parts, k)
  {
    hide Take;
    if k < n {
      ErrorSticks(parts, k, n - 1);
    }
  }

  ghost predicate Blank(header: array<Byte>, from: nat)
    reads header
  {
    forall k | from <= k < header.Length :: header[k] == 0
  }

  method NewBlank(n: nat) returns (header: array<Byte>)
    ensures fresh(header) && header.Length == n && Blank(header, 0)
  {
    header := new Byte[n](_ => 0);
  }

  /** Writes `bytes` at `at`, in place, over blank space. */
  method Write(header: array<Byte>, at: nat, bytes: seq<Byte>)
    requires at + |bytes| <= header.Length && Blank(header, at)
    modifies header
    ensures header[..at + |bytes|] == old(header[..at]) + bytes
    ensures Blank(header, at + |bytes|)
  {
    for i := 0 to |bytes|
      invariant header[..at + i] == old(header[..at]) + bytes[..i]
      invariant Blank(header, at + i)
    {
      header[at + i] := bytes[i];
    }
  }

  method WriteHeader(fmt: seq<Byte>, data: seq<Byte>) returns (bytes: seq<Byte>)
    requires Fits(fmt, data)
    ensures bytes == Header(fmt, data)
  {
    hide U32, Padding, Blank;
    var fmtSize := |fmt| + |fmt| % 2;
    var header := NewBlank(12 + 8 + fmtSize + 8);
    Write(header, 0, RIFF);
    assert header[..4] == RIFF;
    Write(header, 4, U32(4 + 8 + fmtSize + 8 + |data|));
    Write(header, 8, WAVE);
    Write(header, 12, FMT);
    Write(header, 16, U32(|fmt|));
    Write(header, 20, fmt);
    BlankIsPadding(header, 20 + |fmt|, |fmt|);
    Write(header, 20 + fmtSize, DATA);
    Write(header, 24 + fmtSize, U32(|data|));
    assert header[..] == header[..header.Length];
    bytes := header[..];
  }

  lemma BlankIsPadding(header: array<Byte>, at: nat, size: nat)
    requires Blank(header, at) && at + size % 2 <= header.Length
    ensures header[..at + size % 2] == header[..at] + Padding(size)
    ensures Blank(header, at + size % 2)
  {
  }

  method ConcatenateWav(parts: seq<seq<Byte>>) returns (r: Result<seq<Byte>, WavError>)
    ensures r == Concat(parts)
  {
    if |parts| == 0 {
      return Err(NoParts);
    }
    var format: Option<seq<Byte>> := None;
    var bodies: seq<Byte> := [];
    for index := 0 to |parts|
      invariant Gather(parts, index) == Ok(Joined(format, bodies))
      invariant index > 0 ==> format.Some?
    {
      var chunks := ReadWavChunks(parts[index]);
      if Gather(parts, index + 1).Err? {
        ErrorSticks(parts, index + 1, |parts|);
      }
      if chunks.None? {
        return Err(NotWav(index));
      }
      var fmt := Find(chunks.value, FMT);
      var data := Find(chunks.value, DATA);
      if fmt.None? {
        return Err(NoFormat(index));
      }
      if data.None? {
        return Err(NoData(index));
      }
      if format.None? {
        format := fmt;
      } else if format != fmt {
        return Err(DifferentFormat(index));
      }
      bodies := bodies + data.value;
    }
    if !Fits(format.value, bodies) {
      return Err(TooLarge);
    }
    var header := WriteHeader(format.value, bodies);
    return Ok(header + bodies);
  }
}
