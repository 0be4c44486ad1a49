/** What joining WAV files guarantees: it reads back, it regroups freely, and durations add up. */
module WavJoin {
  import opened Prelude
  import opened Wav

  // --------------------------------------------------------------- round trip

  /** One whole chunk standing at `o` is read as that chunk, and the walk goes on after its padding. */
  lemma WalkChunk(view: seq<Byte>, o: nat, id: seq<Byte>, body: seq<Byte>)
    requires o + 8 + |body| <= |view| && |body| < U32_LIMIT
    requires |id| == 4 && forall k | 0 <= k < 4 :: id[k] < 128
    requires view[o..o + 4] == id
    requires view[o + 4..o + 8] == U32(|body|)
    requires view[o + 8..o + 8 + |body|] == body
    ensures Walk(view, o) == [Chunk(id, body)] + Walk(view, o + 8 + |body| + |body| % 2)
  {
    ReadBack(view, o + 4, |body|);
    ReadId(view, o, id);
    hide ReadU32, Ascii4, U32;
  }

  lemma ReadId(view: seq<Byte>, o: nat, id: seq<Byte>)
    requires o + 4 <= |view| && view[o..o + 4] == id
    requires forall k | 0 <= k < 4 :: id[k] < 128
    ensures Ascii4(view, o) == id
  {
    assert view[o] == id[0] && view[o + 1] == id[1] && view[o + 2] == id[2] && view[o + 3] == id[3];
  }

  lemma InLeft(a: seq<Byte>, b: seq<Byte>, i: nat, j: nat)
    requires i <= j <= |a|
    ensures (a + b)[i..j] == a[i..j]
  {
  }

  lemma InRight(a: seq<Byte>, b: seq<Byte>, i: nat, j: nat)
    requires i <= j <= |b|
    ensures (a + b)[|a| + i..|a| + j] == b[i..j]
  {
  }

  /** Where the pieces of the opening part of a file lie. */
  lemma Opening(size: seq<Byte>, fmtSize: seq<Byte>)
    requires |size| == |fmtSize| == 4
    ensures var start := RIFF + size + WAVE + FMT + fmtSize;
            && |start| == 20 && start[0..4] == RIFF && start[8..12] == WAVE
            && start[12..16] == FMT && start[16..20] == fmtSize
  {
  }

  lemma PiecesAt(start: seq<Byte>, fmt: seq<Byte>, pad: seq<Byte>, dataSize: seq<Byte>, data: seq<Byte>)
    requires |start| == 20 && |dataSize| == 4
    ensures var view := start + fmt + pad + DATA + dataSize + data;
            var d := 20 + |fmt| + |pad|;
            && |view| == d + 8 + |data|
            && view[0..4] == start[0..4] && view[8..12] == start[8..12]
            && view[12..16] == start[12..16] && view[16..20] == start[16..20] && view[20..20 + |fmt|] == fmt
            && view[d..d + 4] == DATA && view[d + 4..d + 8] == dataSize && view[d + 8..d + 8 + |data|] == data
  {
    var rest := fmt + pad + DATA + dataSize + data;
    var view := start + fmt + pad + DATA + dataSize + data;
    assert view == start + rest;
    InLeft(start, rest, 0, 4);
    InLeft(start, rest, 8, 12);
    InLeft(start, rest, 12, 16);
    InLeft(start, rest, 16, 20);
    InRight(start, rest, 0, |fmt|);
    var front := start + fmt + pad;
    var tail := DATA + dataSize + data;
    assert view == front + tail;
    InRight(front, tail, 0, 4);
    InRight(front, tail, 4, 8);
    InRight(front, tail, 8, 8 + |data|);
  }

  /** Re-reading a written file yields exactly its format body and its data body. */
  lemma {:induction false} FileReadsBack(fmt: seq<Byte>, data: seq<Byte>)
    requires Fits(fmt, data)
    ensures ChunksOf(WavFile(fmt, data)) == Some([Chunk(FMT, fmt), Chunk(DATA, data)])
  {
    hide U32, Padding, Walk, ReadU32, Ascii4;
    var view := WavFile(fmt, data);
    var start := RIFF + U32(RiffSize(fmt, data)) + WAVE + FMT + U32(|fmt|);
    Opening(U32(RiffSize(fmt, data)), U32(|fmt|));
    PiecesAt(start, fmt, Padding(|fmt|), U32(|data|), data);
    ReadsBack(view, fmt, data);
  }

  lemma ReadsBack(view: seq<Byte>, fmt: seq<Byte>, data: seq<Byte>)
    requires |fmt| < U32_LIMIT && |data| < U32_LIMIT
    requires var d := 20 + |fmt| + |fmt| % 2;
             && |view| == d + 8 + |data|
             && view[0..4] == RIFF && view[8..12] == WAVE
             && view[12..16] == FMT && view[16..20] == U32(|fmt|) && view[20..20 + |fmt|] == fmt
             && view[d..d + 4] == DATA && view[d + 4..d + 8] == U32(|data|) && view[d + 8..d + 8 + |data|] == data
    ensures ChunksOf(view) == Some([Chunk(FMT, fmt), Chunk(DATA, data)])
  {
    hide U32, Walk, ReadU32, Ascii4;
    ReadId(view, 0, RIFF);
    ReadId(view, 8, WAVE);
    WalkChunk(view, 12, FMT, fmt);
    WalkChunk(view, 20 + |fmt| + |fmt| % 2, DATA, data);
    WalkEnds(view, 28 + |fmt| + |fmt| % 2 + |data| + |data| % 2);
    assert [Chunk(FMT, fmt)] + ([Chunk(DATA, data)] + []) == [Chunk(FMT, fmt), Chunk(DATA, data)];
  }

  lemma WalkEnds(view: seq<Byte>, o: nat)
    requires o + 8 > |view|
    ensures Walk(view, o) == []
  {
  }

  // -------------------------------------------------------- when parts join

  /** A readable part: a WAV with a format chunk and a data chunk. */
  predicate Readable(part: seq<Byte>) {
    var chunks := ChunksOf(part);
    chunks.Some? && Find(chunks.value, FMT).Some? && Find(chunks.value, DATA).Some?
  }

  function FormatOf(part: seq<Byte>): seq<Byte>
    requires Readable(part)
  {
    Find(ChunksOf(part).value, FMT).value
  }

  function DataOf(part: seq<Byte>): seq<Byte>
    requires Readable(part)
  {
    Find(ChunksOf(part).value, DATA).value
  }

  /** Every part is readable and carries byte for byte the format `fmt`. */
  ghost predicate Share(parts: seq<seq<Byte>>, fmt: seq<Byte>) {
    forall i | 0 <= i < |parts| :: Readable(parts[i]) && FormatOf(parts[i]) == fmt
  }

  /** The data bodies of the readable parts, one after another. */
  function Datas(parts: seq<seq<Byte>>): seq<Byte> {
    if parts == [] then []
    else
      var last := parts[|parts| - 1];
      Datas(parts[..|parts| - 1]) + (if Readable(last) then DataOf(last) else [])
  }

  lemma {:induction false} GatherShared(parts: seq<seq<Byte>>, fmt: seq<Byte>, k: nat)
    requires k <= |parts| && Share(parts, fmt)
    ensures Gather(parts, k) == Ok(Joined(if k == 0 then None else Some(fmt), Datas(parts[..k])))
  {
    hide ChunksOf, Find;
    if k > 0 {
      GatherShared(parts, fmt, k - 1);
      assert parts[..k][..k - 1] == parts[..k - 1];
      assert Readable(parts[k - 1]);
    }
  }

  lemma {:induction false} GatherOnlyShared(parts: seq<seq<Byte>>, k: nat)
    requires 1 <= k <= |parts| && Gather(parts, k).Ok?
    ensures Gather(parts, k).value.format.Some? && Share(parts[..k], Gather(parts, k).value.format.value)
  {
    hide ChunksOf, Find;
    if k > 1 {
      GatherOnlyShared(parts, k - 1);
    }
    TakeOneMore(parts, k - 1);
  }

  /** What a join of parts that share a format is. */
  lemma {:induction false} ConcatShared(parts: seq<seq<Byte>>, fmt: seq<Byte>)
    requires parts != [] && Share(parts, fmt)
    ensures Concat(parts) == if Fits(fmt, Datas(parts)) then Ok(WavFile(fmt, Datas(parts))) else Err(TooLarge)
  {
    GatherShared(parts, fmt, |parts|);
    assert parts[..|parts|] == parts;
    hide Gather, Datas, Fits, WavFile;
  }

  /** A join succeeds only for parts that share a format and fit a 32-bit size; then it is their file. */
  lemma {:induction false} ConcatOnlyShared(parts: seq<seq<Byte>>) returns (fmt: seq<Byte>)
    requires Concat(parts).Ok?
    ensures parts != [] && Share(parts, fmt) && Fits(fmt, Datas(parts))
            && Concat(parts) == Ok(WavFile(fmt, Datas(parts)))
  {
    hide Share, Gather, Datas, Fits, WavFile;
    GatherOnlyShared(parts, |parts|);
    assert parts[..|parts|] == parts;
    fmt := Gather(parts, |parts|).value.format.value;
    ConcatShared(parts, fmt);
  }

  /** Re-reading a join yields exactly the shared format, then the data bodies in order, and nothing else. */
  lemma {:induction false} JoinReadsBack(parts: seq<seq<Byte>>)
    requires Concat(parts).Ok?
    ensures var chunks := ChunksOf(Concat(parts).value);
            && chunks.Some? && |chunks.value| == 2
            && chunks.value[0].id == FMT && Share(parts, chunks.value[0].body)
            && chunks.value[1] == Chunk(DATA, Datas(parts))
  {
    hide Share, Gather, Datas, ChunksOf, WavFile;
    var fmt := ConcatOnlyShared(parts);
    FileReadsBack(fmt, Datas(parts));
  }

  // ------------------------------------------------------------- regrouping

  lemma {:induction false} DatasAppend(xs: seq<seq<Byte>>, ys: seq<seq<Byte>>)
    ensures Datas(xs + ys) == Datas(xs) + Datas(ys)
  {
    hide Readable;
    if ys == [] {
      assert xs + ys == xs;
    } else {
      var n := |ys| - 1;
      assert (xs + ys)[..|xs| + n] == xs + ys[..n];
      DatasAppend(xs, ys[..n]);
    }
  }

  lemma ShareAppend(xs: seq<seq<Byte>>, ys: seq<seq<Byte>>, fmt: seq<Byte>)
    ensures Share(xs + ys, fmt) <==> Share(xs, fmt) && Share(ys, fmt)
  {
    hide Readable;
    if Share(xs + ys, fmt) {
      forall i | 0 <= i < |xs| ensures Readable(xs[i]) && FormatOf(xs[i]) == fmt { assert (xs + ys)[i] == xs[i]; }
      forall i | 0 <= i < |ys| ensures Readable(ys[i]) && FormatOf(ys[i]) == fmt {
        assert (xs + ys)[|xs| + i] == ys[i];
      }
    }
  }

  /** A join is a readable part that stands for its parts. */
  lemma JoinIsPart(fmt: seq<Byte>, data: seq<Byte>)
    requires Fits(fmt, data)
    ensures Share([WavFile(fmt, data)], fmt) && Datas([WavFile(fmt, data)]) == data
  {
    hide ChunksOf, WavFile;
    FileReadsBack(fmt, data);
    var mid := WavFile(fmt, data);
    var chunks := [Chunk(FMT, fmt), Chunk(DATA, data)];
    assert Find(chunks, FMT) == Some(fmt);
    assert Find(chunks, DATA) == Find(chunks[1..], DATA) == Some(data);
    assert Readable(mid) && FormatOf(mid) == fmt && DataOf(mid) == data;
    assert Datas([]) + data == data;
  }

  /** Shared formats of overlapping lists agree. */
  lemma SharedFormat(parts: seq<seq<Byte>>, f: seq<Byte>, g: seq<Byte>)
    requires parts != [] && Share(parts, f) && Share(parts, g)
    ensures f == g
  {
    assert Readable(parts[0]);
  }

  /** Joining a stretch first, then the rest around it, gives the flat join, and succeeds just when that does. */
  lemma {:induction false} JoinOfJoin(xs: seq<seq<Byte>>, ys: seq<seq<Byte>>, zs: seq<seq<Byte>>)
    requires Concat(ys).Ok?
    ensures var grouped := xs + [Concat(ys).value] + zs;
            && (Concat(grouped).Ok? <==> Concat(xs + ys + zs).Ok?)
            && (Concat(grouped).Ok? ==> Concat(grouped) == Concat(xs + ys + zs))
  {
    hide Share, Datas, Fits, Concat, WavFile, Readable;
    var fmt := ConcatOnlyShared(ys);
    var mid := [Concat(ys).value];
    JoinIsPart(fmt, Datas(ys));
    var grouped, flat := xs + mid + zs, xs + ys + zs;
    SplitThree(xs, mid, zs, fmt);
    SplitThree(xs, ys, zs, fmt);
    if Concat(grouped).Ok? {
      SharedInMiddle(xs, mid, zs, fmt);
    }
    if Concat(flat).Ok? {
      SharedInMiddle(xs, ys, zs, fmt);
    }
    if Share(grouped, fmt) {
      ConcatShared(grouped, fmt);
      ConcatShared(flat, fmt);
    }
  }

  lemma SplitThree(xs: seq<seq<Byte>>, ys: seq<seq<Byte>>, zs: seq<seq<Byte>>, fmt: seq<Byte>)
    ensures Datas(xs + ys + zs) == Datas(xs) + Datas(ys) + Datas(zs)
    ensures Share(xs + ys + zs, fmt) <==> Share(xs, fmt) && Share(ys, fmt) && Share(zs, fmt)
  {
    hide Share, Datas;
    DatasAppend(xs + ys, zs);
    DatasAppend(xs, ys);
    ShareAppend(xs + ys, zs, fmt);
    ShareAppend(xs, ys, fmt);
  }

  lemma SharedInMiddle(xs: seq<seq<Byte>>, ys: seq<seq<Byte>>, zs: seq<seq<Byte>>, fmt: seq<Byte>)
    requires ys != [] && Share(ys, fmt) && Concat(xs + ys + zs).Ok?
    ensures Share(xs + ys + zs, fmt)
  {
    hide Share, Datas, Fits, Concat, WavFile;
    var all := ConcatOnlyShared(xs + ys + zs);
    SplitThree(xs, ys, zs, all);
    SharedFormat(ys, fmt, all);
  }

  /** Any stretch of a list that joins can itself be joined first. */
  lemma {:induction false} StretchJoins(xs: seq<seq<Byte>>, ys: seq<seq<Byte>>, zs: seq<seq<Byte>>)
    requires ys != [] && Concat(xs + ys + zs).Ok?
    ensures Concat(ys).Ok?
  {
    hide Share, Datas, Concat, WavFile;
    var fmt := ConcatOnlyShared(xs + ys + zs);
    SplitThree(xs, ys, zs, fmt);
    ConcatShared(ys, fmt);
  }

  // --------------------------------------------------------------- durations

  /** The duration read from the chunks, `byteRate` being the rate seen so far. */
  function Scan(chunks: seq<Chunk>, byteRate: nat): Option<real> {
    if chunks == [] then None
    else
      var c := chunks[0];
      if c.id == FMT && |c.body| >= 16 then Scan(chunks[1..], ReadU32(c.body, 8))
      else if c.id == DATA then if byteRate <= 0 then None else Some(|c.body| as real / byteRate as real)
      else Scan(chunks[1..], byteRate)
  }

  function Duration(audio: seq<Byte>): Option<real> {
    if |audio| < 44 || ChunksOf(audio).None? then None else Scan(ChunksOf(audio).value, 0)
  }

  method WavDurationSeconds(audio: seq<Byte>) returns (r: Option<real>)
    ensures r == Duration(audio)
  {
    hide ReadU32;
    if |audio| < 44 { return None; }
    var chunks := ReadWavChunks(audio);
    if chunks.None? { return None; }
    var byteRate := 0;
    for i := 0 to |chunks.value|
      invariant Scan(chunks.value, 0) == Scan(chunks.value[i..], byteRate)
    {
      var chunk := chunks.value[i];
      if chunk.id == FMT && |chunk.body| >= 16 {
        byteRate := ReadU32(chunk.body, 8);
      } else if chunk.id == DATA {
        if byteRate <= 0 { return None; }
        return Some(|chunk.body| as real / byteRate as real);
      }
    }
    return None;
  }

  function CountId(chunks: seq<Chunk>, id: seq<Byte>): nat {
    if chunks == [] then 0 else (if chunks[0].id == id then 1 else 0) + CountId(chunks[1..], id)
  }

  function Seconds(bytes: nat, byteRate: nat): real
    requires byteRate > 0
  {
    bytes as real / byteRate as real
  }

  lemma {:induction false} ScanAfterFormat(chunks: seq<Chunk>, byteRate: nat)
    requires Scan(chunks, byteRate).Some? && CountId(chunks, FMT) == 0
    ensures byteRate > 0 && Find(chunks, DATA).Some?
    ensures Scan(chunks, byteRate) == Some(Seconds(|Find(chunks, DATA).value|, byteRate))
  {
    hide ReadU32;
    if chunks[0].id != DATA {
      ScanAfterFormat(chunks[1..], byteRate);
    }
  }

  /** A measured part with one format chunk: its duration is its data over that chunk's byte rate. */
  lemma {:induction false} ScanOneFormat(chunks: seq<Chunk>)
    requires Scan(chunks, 0).Some? && CountId(chunks, FMT) == 1
    ensures Find(chunks, FMT).Some? && |Find(chunks, FMT).value| >= 16 && ReadU32(Find(chunks, FMT).value, 8) > 0
    ensures Find(chunks, DATA).Some?
    ensures Scan(chunks, 0) == Some(Seconds(|Find(chunks, DATA).value|, ReadU32(Find(chunks, FMT).value, 8)))
  {
    hide ReadU32, Seconds;
    if chunks[0].id == FMT {
      ScanAfterFormat(chunks[1..], if |chunks[0].body| >= 16 then ReadU32(chunks[0].body, 8) else 0);
    } else {
      ScanOneFormat(chunks[1..]);
    }
  }

  /** A part whose duration can be read and which has a single format chunk. */
  ghost predicate Measurable(part: seq<Byte>) {
    Duration(part).Some? && CountId(ChunksOf(part).value, FMT) == 1
  }

  function TotalSeconds(parts: seq<seq<Byte>>): real {
    if parts == [] then 0.0
    else
      var d := Duration(parts[|parts| - 1]);
      TotalSeconds(parts[..|parts| - 1]) + (if d.Some? then d.value else 0.0)
  }

  lemma SecondsAdd(a: nat, b: nat, byteRate: nat)
    requires byteRate > 0
    ensures Seconds(a + b, byteRate) == Seconds(a, byteRate) + Seconds(b, byteRate)
  {
  }

  lemma ZeroSeconds(byteRate: nat)
    requires byteRate > 0
    ensures Seconds(0, byteRate) == 0.0
  {
  }

  lemma PartSeconds(part: seq<Byte>)
    requires Measurable(part)
    ensures Readable(part) && |FormatOf(part)| >= 16 && ReadU32(FormatOf(part), 8) > 0
    ensures Duration(part) == Some(Seconds(|DataOf(part)|, ReadU32(FormatOf(part), 8)))
  {
    ScanOneFormat(ChunksOf(part).value);
    hide ChunksOf, Scan, Find, CountId, Seconds, ReadU32;
  }

  lemma {:induction false} SecondsOfDatas(parts: seq<seq<Byte>>, fmt: seq<Byte>)
    requires Share(parts, fmt) && |fmt| >= 16 && ReadU32(fmt, 8) > 0
    requires forall i | 0 <= i < |parts| :: Measurable(parts[i])
    ensures TotalSeconds(parts) == Seconds(|Datas(parts)|, ReadU32(fmt, 8))
  {
    hide Measurable, Seconds, ReadU32, Duration, Readable;
    if parts == [] {
      ZeroSeconds(ReadU32(fmt, 8));
    } else {
      var n := |parts| - 1;
      SecondsOfDatas(parts[..n], fmt);
      PartSeconds(parts[n]);
      SecondsAdd(|Datas(parts[..n])|, |DataOf(parts[n])|, ReadU32(fmt, 8));
    }
  }

  /** Measured duration is additive: a join lasts as long as its parts together. */
  lemma {:induction false} DurationsAdd(parts: seq<seq<Byte>>)
    requires Concat(parts).Ok?
    requires forall i | 0 <= i < |parts| :: Measurable(parts[i])
    ensures Duration(Concat(parts).value) == Some(TotalSeconds(parts))
  {
    hide Concat, Datas, ChunksOf, ReadU32, WavFile, Share, Measurable;
    var fmt := ConcatOnlyShared(parts);
    SharedRate(parts, fmt);
    SecondsOfDatas(parts, fmt);
    FileDuration(fmt, Datas(parts));
  }

  lemma SharedRate(parts: seq<seq<Byte>>, fmt: seq<Byte>)
    requires parts != [] && Share(parts, fmt) && Measurable(parts[0])
    ensures |fmt| >= 16 && ReadU32(fmt, 8) > 0
  {
    PartSeconds(parts[0]);
  }

  lemma FileDuration(fmt: seq<Byte>, data: seq<Byte>)
    requires Fits(fmt, data) && |fmt| >= 16 && ReadU32(fmt, 8) > 0
    ensures Duration(WavFile(fmt, data)) == Some(Seconds(|data|, ReadU32(fmt, 8)))
  {
    FileReadsBack(fmt, data);
    hide ChunksOf, ReadU32;
    var chunks := [Chunk(FMT, fmt), Chunk(DATA, data)];
    assert Scan(chunks, 0) == Scan(chunks[1..], ReadU32(fmt, 8));
  }
}
