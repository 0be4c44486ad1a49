/** WAV files down to their bytes: what a written file holds, what a join refuses, and how long a file lasts. */
module WavBytes {
  import opened Prelude
  import opened Wav
  import opened WavJoin

  // ---------------------------------------------------------- a written file

  /** `bytes` stand at `at`. */
  ghost predicate BytesAt(view: seq<Byte>, at: nat, bytes: seq<int>) {
    at + |bytes| <= |view| && forall k | 0 <= k < |bytes| :: view[at + k] == bytes[k]
  }

  lemma SizeIsWritten(view: seq<Byte>, at: nat, n: nat)
    requires n < U32_LIMIT && at + 4 <= |view| && view[at..at + 4] == U32(n)
    ensures SizeAt(view, at, n)
  {
    ReadBack(view, at, n);
    SizeIsRead(view, at, n);
  }

  /**
   * The bytes of a written file: R, I, F, F and the length of everything after
   * that size; W, A, V, E; f, m, t, space with the size and body of the format,
   * padded with a zero to an even length; d, a, t, a with the size of the data;
   * and the data, which is not padded.
   */
  ghost predicate WrittenAs(file: seq<Byte>, fmt: seq<Byte>, data: seq<Byte>) {
    var d := 20 + |fmt| + |fmt| % 2;
    && |file| == d + 8 + |data|
    && BytesAt(file, 0, [82, 73, 70, 70]) && SizeAt(file, 4, |file| - 8) && BytesAt(file, 8, [87, 65, 86, 69])
    && BytesAt(file, 12, [102, 109, 116, 32]) && SizeAt(file, 16, |fmt|) && BytesAt(file, 20, fmt)
    && (|fmt| % 2 == 1 ==> file[20 + |fmt|] == 0)
    && BytesAt(file, d, [100, 97, 116, 97]) && SizeAt(file, d + 4, |data|) && BytesAt(file, d + 8, data)
  }

  lemma SliceIsAt(view: seq<Byte>, at: nat, bytes: seq<Byte>)
    requires at + |bytes| <= |view| && view[at..at + |bytes|] == bytes
    ensures BytesAt(view, at, bytes)
  {
    forall k | 0 <= k < |bytes| ensures view[at + k] == bytes[k] {
      assert view[at..at + |bytes|][k] == view[at + k];
    }
  }

  lemma Headed(fmt: seq<Byte>, data: seq<Byte>)
    requires Fits(fmt, data)
    ensures var file := WavFile(fmt, data);
            && |file| == RiffSize(fmt, data) + 8 && file[4..8] == U32(RiffSize(fmt, data))
            && (|fmt| % 2 == 1 ==> file[20 + |fmt|] == 0)
  {
    hide U32;
  }

  lemma {:induction false} FileIsWrittenAs(fmt: seq<Byte>, data: seq<Byte>)
    requires Fits(fmt, data)
    ensures WrittenAs(WavFile(fmt, data), fmt, data)
  {
    var file := WavFile(fmt, data);
    var start := RIFF + U32(RiffSize(fmt, data)) + WAVE + FMT + U32(|fmt|);
    var d := 20 + |fmt| + |fmt| % 2;
    Headed(fmt, data);
    Opening(U32(RiffSize(fmt, data)), U32(|fmt|));
    PiecesAt(start, fmt, Padding(|fmt|), U32(|data|), data);
    hide U32, Padding, WavFile, SizeAt, BytesAt;
    SliceIsAt(file, 0, RIFF);
    SliceIsAt(file, 8, WAVE);
    SliceIsAt(file, 12, FMT);
    SliceIsAt(file, 20, fmt);
    SliceIsAt(file, d, DATA);
    SliceIsAt(file, d + 8, data);
    SizeIsWritten(file, 4, |file| - 8);
    SizeIsWritten(file, 16, |fmt|);
    SizeIsWritten(file, d + 4, |data|);
  }

  // ------------------------------------------------------- what a join refuses

  /** Chunk `k` is the first with this id. */
  ghost predicate FirstWith(chunks: seq<Chunk>, id: seq<int>, k: nat) {
    k < |chunks| && chunks[k].id == id && forall j | 0 <= j < k :: chunks[j].id != id
  }

  lemma {:induction false} FindIsFirst(chunks: seq<Chunk>, id: seq<Byte>)
    ensures forall k: nat | FirstWith(chunks, id, k) :: Find(chunks, id) == Some(chunks[k].body)
    ensures Find(chunks, id).Some? ==> exists k: nat :: FirstWith(chunks, id, k)
  {
    if chunks != [] {
      FindIsFirst(chunks[1..], id);
      if chunks[0].id == id {
        assert FirstWith(chunks, id, 0);
      } else {
        forall k: nat | FirstWith(chunks, id, k) ensures k > 0 && FirstWith(chunks[1..], id, k - 1) {
        }
        if k: nat :| FirstWith(chunks[1..], id, k) {
          assert FirstWith(chunks, id, k + 1);
        }
      }
    }
  }

  const FORMAT_ID: seq<int> := [102, 109, 116, 32]
  const DATA_ID: seq<int> := [100, 97, 116, 97]

  ghost predicate Has(chunks: seq<Chunk>, id: seq<int>) {
    exists k: nat :: FirstWith(chunks, id, k)
  }

  /** Why a part cannot be taken into a join whose format so far is `format`. */
  ghost predicate Trouble(part: seq<Byte>, format: Option<seq<Byte>>, i: nat, e: WavError) {
    if IsLayout(part, None) then e == NotWav(i)
    else
      exists chunks: seq<Chunk> ::
        && IsLayout(part, Some(chunks))
        && (if !Has(chunks, FORMAT_ID) then e == NoFormat(i)
            else if !Has(chunks, DATA_ID) then e == NoData(i)
            else
              && e == DifferentFormat(i) && format.Some?
              && exists k: nat :: FirstWith(chunks, FORMAT_ID, k) && chunks[k].body != format.value)
  }

  lemma TakeFails(j: Joined, part: seq<Byte>, i: nat, e: WavError)
    ensures Take(j, part, i) == Err(e) <==> Trouble(part, j.format, i, e)
  {
    LayoutIsRead(part, None);
    forall chunks: seq<Chunk> ensures IsLayout(part, Some(chunks)) <==> ChunksOf(part) == Some(chunks) {
      LayoutIsRead(part, Some(chunks));
    }
    if ChunksOf(part).Some? {
      var chunks := ChunksOf(part).value;
      FindIsFirst(chunks, FMT);
      FindIsFirst(chunks, DATA);
      hide IsLayout, ChunksOf, Find, FirstWith;
      assert Has(chunks, FORMAT_ID) <==> Find(chunks, FMT).Some?;
      assert Has(chunks, DATA_ID) <==> Find(chunks, DATA).Some?;
    }
  }

  /** The parts before `i` are joined without trouble, with this format so far. */
  ghost predicate JoinedSoFar(parts: seq<seq<Byte>>, i: nat, format: Option<seq<Byte>>)
    requires i <= |parts|
  {
    if i == 0 then format == None else format.Some? && Share(parts[..i], format.value)
  }

  lemma {:induction false} SoFarIsGathered(parts: seq<seq<Byte>>, i: nat, format: Option<seq<Byte>>)
    requires i <= |parts|
    ensures JoinedSoFar(parts, i, format) <==> Gather(parts, i).Ok? && Gather(parts, i).value.format == format
  {
    hide Take;
    if JoinedSoFar(parts, i, format) && i > 0 {
      GatherShared(parts[..i], format.value, i);
      GatherPrefix(parts, i, i);
    }
    if Gather(parts, i).Ok? && i > 0 {
      GatherOnlyShared(parts, i);
    }
    hide Gather, Share;
  }

  lemma {:induction false} GatherPrefix(parts: seq<seq<Byte>>, i: nat, k: nat)
    requires k <= i <= |parts|
    ensures Gather(parts[..i], k) == Gather(parts, k)
  {
    hide Take;
    if k > 0 {
      GatherPrefix(parts, i, k - 1);
    }
  }

  lemma {:induction false} FirstTrouble(parts: seq<seq<Byte>>, n: nat) returns (i: nat)
    requires n <= |parts| && Gather(parts, n).Err?
    ensures i < n && Gather(parts, i).Ok?
    ensures Take(Gather(parts, i).value, parts[i], i) == Err(Gather(parts, n).error)
  {
    hide Take;
    if Gather(parts, n - 1).Err? {
      i := FirstTrouble(parts, n - 1);
    } else {
      i := n - 1;
    }
  }

  /** Part `i` is the first that cannot be taken, and this is why. */
  ghost predicate RefusedAt(parts: seq<seq<Byte>>, i: nat, e: WavError) {
    i < |parts| && exists format :: JoinedSoFar(parts, i, format) && Trouble(parts[i], format, i, e)
  }

  lemma {:induction false} RefusalSticks(parts: seq<seq<Byte>>, i: nat, e: WavError)
    requires RefusedAt(parts, i, e)
    ensures Concat(parts) == Err(e)
  {
    var format :| JoinedSoFar(parts, i, format) && Trouble(parts[i], format, i, e);
    SoFarIsGathered(parts, i, format);
    TakeFails(Gather(parts, i).value, parts[i], i, e);
    ErrorSticks(parts, i + 1, |parts|);
    hide Take, JoinedSoFar, Trouble;
  }

  lemma {:induction false} RefusalFound(parts: seq<seq<Byte>>) returns (i: nat)
    requires Gather(parts, |parts|).Err?
    ensures RefusedAt(parts, i, Gather(parts, |parts|).error)
  {
    i := FirstTrouble(parts, |parts|);
    SoFarIsGathered(parts, i, Gather(parts, i).value.format);
    TakeFails(Gather(parts, i).value, parts[i], i, Gather(parts, |parts|).error);
    hide Take, JoinedSoFar, Trouble, Gather;
  }

  ghost predicate ShareTooMuch(parts: seq<seq<Byte>>, fmt: seq<Byte>) {
    parts != [] && Share(parts, fmt) && 20 + |fmt| + |fmt| % 2 + |Datas(parts)| >= 4294967296
  }

  /** A join is refused for the first part that cannot be taken, and says why; else for its size, or for no parts. */
  lemma {:induction false} JoinRefusedIff(parts: seq<seq<Byte>>, e: WavError)
    ensures Concat(parts) == Err(e)
            <==> || (e == NoParts && parts == [])
                 || (exists i: nat :: RefusedAt(parts, i, e))
                 || (e == TooLarge && exists fmt :: ShareTooMuch(parts, fmt))
  {
    if i: nat :| RefusedAt(parts, i, e) {
      RefusalSticks(parts, i, e);
    }
    if fmt :| ShareTooMuch(parts, fmt) {
      ConcatShared(parts, fmt);
    }
    if parts != [] && Concat(parts) == Err(e) {
      if Gather(parts, |parts|).Err? {
        var i := RefusalFound(parts);
      } else {
        GatherOnlyShared(parts, |parts|);
        assert parts[..|parts|] == parts;
        var fmt := Gather(parts, |parts|).value.format.value;
        ConcatShared(parts, fmt);
        assert ShareTooMuch(parts, fmt);
      }
    }
  }

  // --------------------------------------------------------------- durations

  /** Chunk `f` is the last format chunk of at least 16 bytes before chunk `d`. */
  ghost predicate LastFormat(chunks: seq<Chunk>, f: nat, d: nat) {
    && f < d <= |chunks| && chunks[f].id == FORMAT_ID && |chunks[f].body| >= 16
    && (forall j | f < j < d :: !(chunks[j].id == FORMAT_ID && |chunks[j].body| >= 16))
  }

  /** The rate stands at byte 8 of that chunk; without one it is nothing. */
  ghost predicate RateBefore(chunks: seq<Chunk>, d: nat, rate: int) {
    || (exists f: nat :: LastFormat(chunks, f, d) && SizeAt(chunks[f].body, 8, rate))
    || (rate == 0 && forall f: nat :: !LastFormat(chunks, f, d))
  }

  /** The length of the first data chunk over the rate before it, if there are both. */
  ghost predicate Lasts(chunks: seq<Chunk>, seconds: real) {
    exists d: nat, rate: nat ::
      && FirstWith(chunks, DATA_ID, d) && RateBefore(chunks, d, rate) && rate > 0
      && seconds == |chunks[d].body| as real / rate as real
  }

  lemma OneRate(chunks: seq<Chunk>, d: nat, a: int, b: int)
    requires RateBefore(chunks, d, a) && RateBefore(chunks, d, b)
    ensures a == b
  {
    if f: nat, g: nat :| LastFormat(chunks, f, d) && SizeAt(chunks[f].body, 8, a)
                         && LastFormat(chunks, g, d) && SizeAt(chunks[g].body, 8, b) {
      assert f == g;
    }
  }

  lemma RateAfter(chunks: seq<Chunk>, i: nat, rate: int)
    requires i < |chunks| && RateBefore(chunks, i, rate)
    ensures if chunks[i].id == FORMAT_ID && |chunks[i].body| >= 16
            then RateBefore(chunks, i + 1, ReadU32(chunks[i].body, 8))
            else RateBefore(chunks, i + 1, rate)
  {
    if chunks[i].id == FORMAT_ID && |chunks[i].body| >= 16 {
      SizeIsRead(chunks[i].body, 8, ReadU32(chunks[i].body, 8));
      assert LastFormat(chunks, i, i + 1) && SizeAt(chunks[i].body, 8, ReadU32(chunks[i].body, 8));
    } else {
      var next := i + 1;
      forall f: nat ensures LastFormat(chunks, f, next) <==> LastFormat(chunks, f, i) {
        assert f == i ==> !LastFormat(chunks, f, next);
      }
    }
    hide LastFormat, SizeAt, ReadU32;
  }

  lemma {:induction false} ScanLasts(chunks: seq<Chunk>, i: nat, byteRate: nat, seconds: real)
    requires i <= |chunks| && RateBefore(chunks, i, byteRate)
    requires forall j | 0 <= j < i :: chunks[j].id != DATA_ID
    ensures Scan(chunks[i..], byteRate) == Some(seconds) <==> Lasts(chunks, seconds)
    decreases |chunks| - i
  {
    hide ReadU32, SizeAt;
    if i < |chunks| {
      RateAfter(chunks, i, byteRate);
      assert chunks[i..][1..] == chunks[i + 1..];
      hide RateBefore;
      if chunks[i].id == FMT && |chunks[i].body| >= 16 {
        ScanLasts(chunks, i + 1, ReadU32(chunks[i].body, 8), seconds);
      } else if chunks[i].id == DATA {
        assert FirstWith(chunks, DATA_ID, i);
        forall d: nat, rate: nat | FirstWith(chunks, DATA_ID, d) && RateBefore(chunks, d, rate)
          ensures d == i && rate == byteRate
        {
          OneRate(chunks, i, rate, byteRate);
        }
      } else {
        ScanLasts(chunks, i + 1, byteRate, seconds);
      }
    }
  }

  /** How long a file lasts, from its bytes alone; nothing for fewer than 44 of them or for no layout. */
  lemma {:induction false} DurationMeans(audio: seq<Byte>, seconds: real)
    ensures Duration(audio) == Some(seconds)
            <==> |audio| >= 44 && exists chunks: seq<Chunk> :: IsLayout(audio, Some(chunks)) && Lasts(chunks, seconds)
  {
    forall chunks: seq<Chunk> ensures IsLayout(audio, Some(chunks)) <==> ChunksOf(audio) == Some(chunks) {
      LayoutIsRead(audio, Some(chunks));
    }
    hide IsLayout, Lasts, Scan;
    if ChunksOf(audio).Some? {
      var chunks := ChunksOf(audio).value;
      NoRate(chunks);
      ScanLasts(chunks, 0, 0, seconds);
      assert chunks[0..] == chunks;
    }
  }

  lemma NoRate(chunks: seq<Chunk>)
    ensures RateBefore(chunks, 0, 0)
  {
  }
}
