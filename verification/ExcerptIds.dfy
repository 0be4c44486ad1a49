/**
 * One label per excerpt of a pack, told apart by suffixes. `slug` is the heading's
 * normalised form, any function of the heading.
 */
module ExcerptIds {
  import opened Prelude

  datatype Excerpt = Excerpt(documentId: string, heading: string)

  function Digit(n: nat): char
    requires n < 10
  {
    "0123456789"[n]
  }

  /** The decimal numeral of `n`. */
  function Decimal(n: nat): (s: string)
    ensures s != []
  {
    if n < 10 then [Digit(n)] else Decimal(n / 10) + [Digit(n % 10)]
  }

  function Suffixed(base: string, suffix: nat): string {
    base + "-" + Decimal(suffix)
  }

  /** How many earlier excerpts come from the same document as excerpt `i`. */
  function Ordinal(excerpts: seq<Excerpt>, documentId: string, i: nat): nat
    requires i <= |excerpts|
  {
    if i == 0 then 0
    else Ordinal(excerpts, documentId, i - 1) + (if excerpts[i - 1].documentId == documentId then 1 else 0)
  }

  /** The label an excerpt would like: its heading's slug, or its ordinal in the document. */
  function Label(e: Excerpt, ordinal: nat, slug: string -> string): string {
    e.documentId + "#" + (if slug(e.heading) == "" then "section-" + Decimal(ordinal) else slug(e.heading))
  }

  function LabelAt(excerpts: seq<Excerpt>, slug: string -> string, i: nat): string
    requires i < |excerpts|
  {
    Label(excerpts[i], Ordinal(excerpts, excerpts[i].documentId, i), slug)
  }

  /** `id` is the label itself when that is free, and else the label with its smallest free suffix from 2 on. */
  ghost predicate FirstFree(base: string, used: set<string>, id: string) {
    && id !in used
    && (id == base || (base in used && exists suffix: nat :: SmallestFree(base, used, suffix, id)))
  }

  ghost predicate SmallestFree(base: string, used: set<string>, suffix: nat, id: string) {
    && suffix >= 2 && id == Suffixed(base, suffix)
    && forall k: nat | 2 <= k < suffix :: Suffixed(base, k) in used
  }

  function Elements(ids: seq<string>): set<string> {
    set i | 0 <= i < |ids| :: ids[i]
  }

  /** The ids a pack receives, said position by position. */
  ghost predicate IdsOf(excerpts: seq<Excerpt>, slug: string -> string, ids: seq<string>) {
    && |ids| == |excerpts|
    && forall i | 0 <= i < |ids| :: FirstFree(LabelAt(excerpts, slug, i), Elements(ids[..i]), ids[i])
  }

  // --------------------------------------------------- numerals and suffixes

  lemma {:induction false} DecimalInjective(a: nat, b: nat)
    requires Decimal(a) == Decimal(b)
    ensures a == b
  {
    var s, t := Decimal(a), Decimal(b);
    assert s[|s| - 1] == Digit(a % 10) && t[|t| - 1] == Digit(b % 10);
    assert a % 10 == b % 10;
    if a >= 10 && b >= 10 {
      assert s[..|s| - 1] == Decimal(a / 10) && t[..|t| - 1] == Decimal(b / 10);
      DecimalInjective(a / 10, b / 10);
    } else {
      assert a >= 10 ==> |s| >= 2;
      assert b >= 10 ==> |t| >= 2;
    }
  }

  lemma SuffixedInjective(base: string, a: nat, b: nat)
    requires Suffixed(base, a) == Suffixed(base, b)
    ensures a == b
  {
    var n := |base| + 1;
    assert Suffixed(base, a)[n..] == Decimal(a);
    assert Suffixed(base, b)[n..] == Decimal(b);
    DecimalInjective(a, b);
  }

  /** Distinct suffixes give distinct candidates, so a finite set cannot hold more of them than its size. */
  lemma {:induction false} SuffixesRunOut(base: string, used: set<string>, suffix: nat)
    requires suffix >= 2 && forall k: nat | 2 <= k < suffix :: Suffixed(base, k) in used
    ensures suffix - 2 <= |used|
    decreases suffix
  {
    hide Suffixed;
    if suffix > 2 {
      var last := Suffixed(base, suffix - 1);
      forall k: nat | 2 <= k < suffix - 1 ensures Suffixed(base, k) in used - {last} {
        if Suffixed(base, k) == last {
          SuffixedInjective(base, k, suffix - 1);
        }
      }
      SuffixesRunOut(base, used - {last}, suffix - 1);
    }
  }

  lemma NoElements()
    ensures Elements([]) == {}
  {
  }

  lemma ElementsSnoc(ids: seq<string>, id: string)
    ensures Elements(ids + [id]) == Elements(ids) + {id}
  {
    var more := ids + [id];
    forall x | x in Elements(ids) + {id} ensures x in Elements(more) {
      var i := if x == id then |ids| else var i :| 0 <= i < |ids| && ids[i] == x; i;
      assert more[i] == x;
    }
  }

  // ------------------------------------------------------------- the method

  method DeriveExcerptIds(excerpts: seq<Excerpt>, slug: string -> string) returns (ids: seq<string>)
    ensures IdsOf(excerpts, slug, ids)
  {
    hide FirstFree, Label, Elements;
    var used: set<string> := {};
    var ordinals: map<string, nat> := map[];
    ids := [];
    NoElements();
    for i := 0 to |excerpts|
      invariant |ids| == i && used == Elements(ids)
      invariant forall d :: (if d in ordinals then ordinals[d] else 0) == Ordinal(excerpts, d, i)
      invariant forall k | 0 <= k < i :: FirstFree(LabelAt(excerpts, slug, k), Elements(ids[..k]), ids[k])
    {
      var excerpt := excerpts[i];
      var ordinal := if excerpt.documentId in ordinals then ordinals[excerpt.documentId] else 0;
      ordinals := ordinals[excerpt.documentId := ordinal + 1];
      var base := Label(excerpt, ordinal, slug);
      var candidate := FreeId(base, used);
      used := used + {candidate};
      ElementsSnoc(ids, candidate);
      assert (ids + [candidate])[..i] == ids;
      assert forall k | 0 <= k < i :: (ids + [candidate])[..k] == ids[..k];
      ids := ids + [candidate];
    }
  }

  /** The suffix loop; it ends because the suffixes tried so far are all in use. */
  method FreeId(base: string, used: set<string>) returns (candidate: string)
    ensures FirstFree(base, used, candidate)
  {
    hide Suffixed;
    candidate := base;
    var suffix := 2;
    while candidate in used
      invariant suffix >= 2
      invariant suffix == 2 ==> candidate == base
      invariant suffix > 2 ==> base in used && candidate == Suffixed(base, suffix - 1)
      invariant forall k: nat | 2 <= k < suffix - 1 :: Suffixed(base, k) in used
      decreases |used| + 4 - suffix
    {
      SuffixesRunOut(base, used, suffix);
      candidate := Suffixed(base, suffix);
      suffix := suffix + 1;
    }
    if suffix > 2 {
      assert SmallestFree(base, used, suffix - 1, candidate);
    }
  }

  // ------------------------------------------------------ what the ids are good for

  /** No two excerpts of a pack share an id. */
  lemma {:induction false} IdsDistinct(excerpts: seq<Excerpt>, slug: string -> string, ids: seq<string>)
    requires IdsOf(excerpts, slug, ids)
    ensures Distinct(ids)
  {
    forall i, j | 0 <= i < j < |ids| ensures ids[i] != ids[j] {
      assert FirstFree(LabelAt(excerpts, slug, j), Elements(ids[..j]), ids[j]);
      assert ids[..j][i] == ids[i];
    }
  }

  lemma FirstFreeUnique(base: string, used: set<string>, a: string, b: string)
    requires FirstFree(base, used, a) && FirstFree(base, used, b)
    ensures a == b
  {
    hide Suffixed;
    if base in used {
      var s: nat :| SmallestFree(base, used, s, a);
      var t: nat :| SmallestFree(base, used, t, b);
      assert s <= t && t <= s;
    }
  }

  lemma {:induction false} OrdinalOfPrefix(excerpts: seq<Excerpt>, documentId: string, n: nat, i: nat)
    requires i <= n <= |excerpts|
    ensures Ordinal(excerpts[..n], documentId, i) == Ordinal(excerpts, documentId, i)
  {
    if i > 0 {
      OrdinalOfPrefix(excerpts, documentId, n, i - 1);
    }
  }

  /** The ids a pack receives are determined by the pack, and a prefix of the pack receives a prefix of them. */
  lemma {:induction false} PrefixIds(excerpts: seq<Excerpt>, slug: string -> string, ids: seq<string>,
                                     n: nat, prefix: seq<string>)
    requires IdsOf(excerpts, slug, ids)
    requires n <= |excerpts| && IdsOf(excerpts[..n], slug, prefix)
    ensures prefix == ids[..n]
  {
    PrefixIdsUpTo(excerpts, slug, ids, n, prefix, n);
  }

  lemma {:induction false} PrefixIdsUpTo(excerpts: seq<Excerpt>, slug: string -> string, ids: seq<string>,
                                         n: nat, prefix: seq<string>, k: nat)
    requires IdsOf(excerpts, slug, ids)
    requires k <= n <= |excerpts| && IdsOf(excerpts[..n], slug, prefix)
    ensures prefix[..k] == ids[..k]
  {
    hide FirstFree, Label, Ordinal, Elements;
    if k > 0 {
      PrefixIdsUpTo(excerpts, slug, ids, n, prefix, k - 1);
      OrdinalOfPrefix(excerpts, excerpts[k - 1].documentId, n, k - 1);
      var base := LabelAt(excerpts, slug, k - 1);
      assert LabelAt(excerpts[..n], slug, k - 1) == base;
      FirstFreeUnique(base, Elements(ids[..k - 1]), ids[k - 1], prefix[k - 1]);
      TakeOneMore(ids, k - 1);
      TakeOneMore(prefix, k - 1);
    }
  }

  /** An id whose label no earlier excerpt took is the label itself: suffixes appear only on a clash. */
  lemma {:induction false} LabelKeptWhenFree(excerpts: seq<Excerpt>, slug: string -> string, ids: seq<string>, i: nat)
    requires IdsOf(excerpts, slug, ids) && i < |ids|
    ensures LabelAt(excerpts, slug, i) !in ids[..i] <==> ids[i] == LabelAt(excerpts, slug, i)
  {
    var base := LabelAt(excerpts, slug, i);
    assert FirstFree(base, Elements(ids[..i]), ids[i]);
    assert base in Elements(ids[..i]) <==> base in ids[..i] by {
      ElementsAre(ids[..i], base);
    }
    hide IdsOf, Elements, LabelAt;
  }

  lemma ElementsAre(ids: seq<string>, x: string)
    ensures x in Elements(ids) <==> x in ids
  {
  }

  // ------------------------------------------------------------- how they read

  predicate IsDigit(c: char) {
    '0' <= c <= '9'
  }

  /** The number that a string of digits stands for. */
  function Value(s: string): int {
    if s == "" then 0 else 10 * Value(s[..|s| - 1]) + (s[|s| - 1] as int - '0' as int)
  }

  /** A numeral is written in digits, without a leading zero, and reads back as its number. */
  lemma {:induction false} DecimalReads(n: nat)
    ensures forall i | 0 <= i < |Decimal(n)| :: IsDigit(Decimal(n)[i])
    ensures Value(Decimal(n)) == n && (n > 0 ==> Decimal(n)[0] != '0')
  {
    DigitReads(n % 10);
    if n < 10 {
      assert Value([Digit(n)]) == 10 * Value("") + n;
    } else {
      DecimalReads(n / 10);
      assert Decimal(n)[..|Decimal(n)| - 1] == Decimal(n / 10);
    }
  }

  lemma DigitReads(n: nat)
    requires n < 10
    ensures IsDigit(Digit(n)) && Digit(n) as int - '0' as int == n
  {
  }

  ghost function EarlierOf(excerpts: seq<Excerpt>, documentId: string, i: nat): set<nat>
    requires i <= |excerpts|
  {
    set j: nat | j < i && excerpts[j].documentId == documentId
  }

  lemma {:induction false} OrdinalCounts(excerpts: seq<Excerpt>, documentId: string, i: nat)
    requires i <= |excerpts|
    ensures Ordinal(excerpts, documentId, i) == |EarlierOf(excerpts, documentId, i)|
  {
    if i == 0 {
      assert EarlierOf(excerpts, documentId, 0) == {};
    } else {
      OrdinalCounts(excerpts, documentId, i - 1);
      var before := EarlierOf(excerpts, documentId, i - 1);
      assert EarlierOf(excerpts, documentId, i)
             == if excerpts[i - 1].documentId == documentId then before + {i - 1} else before;
    }
  }

  /**
   * What a label reads: the document, a number sign, and the heading's slug, or
   * "section-" and the number of earlier excerpts of the same document.
   */
  lemma {:induction false} LabelReads(excerpts: seq<Excerpt>, slug: string -> string, i: nat) returns (numeral: string)
    requires i < |excerpts|
    ensures Value(numeral) == |EarlierOf(excerpts, excerpts[i].documentId, i)| && numeral != ""
    ensures forall k | 0 <= k < |numeral| :: IsDigit(numeral[k])
    ensures LabelAt(excerpts, slug, i)
            == excerpts[i].documentId + "#"
               + (if slug(excerpts[i].heading) == "" then "section-" + numeral else slug(excerpts[i].heading))
  {
    OrdinalCounts(excerpts, excerpts[i].documentId, i);
    numeral := Decimal(Ordinal(excerpts, excerpts[i].documentId, i));
    DecimalReads(Ordinal(excerpts, excerpts[i].documentId, i));
    hide Ordinal, Decimal, EarlierOf, Value;
  }

  /** A suffix is a hyphen and its numeral. */
  lemma {:induction false} SuffixReads(base: string, suffix: nat) returns (numeral: string)
    ensures Value(numeral) == suffix && Suffixed(base, suffix) == base + "-" + numeral
    ensures forall k | 0 <= k < |numeral| :: IsDigit(numeral[k])
  {
    numeral := Decimal(suffix);
    DecimalReads(suffix);
  }
}
