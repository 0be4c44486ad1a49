/**
 * Choosing the documents of a source pack: a primary one, those its links lead
 * to within `depth` rounds, and a cut by token count.
 * `idForUrl` stands for the mapping from links to document ids.
 */
module SourcePack {
  import opened Prelude

  type Id(!new, ==)
  type Url(!new)

  datatype Document = Document(id: Id, outboundLinks: seq<Url>, bodies: seq<string>)

  type Documents = map<Id, Document>

  type Resolver = Url -> Option<Id>

  /** The loader files every document under its own id. */
  ghost predicate KeyedById(documents: Documents) {
    forall id | id in documents :: documents[id].id == id
  }

  // --------------------------------------------------- distance along links

  /** One of the links stands for `id`. */
  ghost predicate Resolves(idForUrl: Resolver, links: seq<Url>, id: Id) {
    exists k :: 0 <= k < |links| && idForUrl(links[k]) == Some(id)
  }

  /** The document a chain passes through under an id: the primary itself, or one that was loaded. */
  ghost predicate IsDocument(documents: Documents, primary: Document, d: Document) {
    d == primary || (d.id != primary.id && d.id in documents && documents[d.id] == d)
  }

  /** Some chain of at most `hops` links leads from the primary to `id`, through loaded documents. */
  ghost predicate Within(documents: Documents, idForUrl: Resolver, primary: Document, hops: nat, id: Id) {
    if hops == 0 then id == primary.id
    else
      || Within(documents, idForUrl, primary, hops - 1, id)
      || exists d: Document ::
           && IsDocument(documents, primary, d)
           && Within(documents, idForUrl, primary, hops - 1, d.id)
           && id in documents && Resolves(idForUrl, d.outboundLinks, id)
  }

  ghost predicate AtDistance(documents: Documents, idForUrl: Resolver, primary: Document, hops: nat, id: Id) {
    && Within(documents, idForUrl, primary, hops, id)
    && (hops > 0 ==> !Within(documents, idForUrl, primary, hops - 1, id))
  }

  // ------------------------------------------------------ breadth-first order

  function Ids(ds: seq<Document>): set<Id> {
    set k | 0 <= k < |ds| :: ds[k].id
  }

  function Links(ds: seq<Document>): seq<Url> {
    if ds == [] then [] else Links(ds[..|ds| - 1]) + ds[|ds| - 1].outboundLinks
  }

  /** The documents first found along `links`, in link order, that were not seen before. */
  function Found(documents: Documents, idForUrl: Resolver, seen: set<Id>, links: seq<Url>): seq<Document> {
    if links == [] then []
    else
      var before := Found(documents, idForUrl, seen, links[..|links| - 1]);
      var id := idForUrl(links[|links| - 1]);
      if id.None? || id.value in seen + Ids(before) || id.value !in documents then before
      else before + [documents[id.value]]
  }

  /** Everything found in `hops` rounds, and the documents found in the last of them. */
  function Rounds(documents: Documents, idForUrl: Resolver, primary: Document, hops: nat)
    : (seq<Document>, seq<Document>)
  {
    if hops == 0 then ([], [primary])
    else
      var (ordered, frontier) := Rounds(documents, idForUrl, primary, hops - 1);
      var next := Found(documents, idForUrl, {primary.id} + Ids(ordered), Links(frontier));
      (ordered + next, next)
  }

  function Related(documents: Documents, idForUrl: Resolver, primary: Document, depth: int): seq<Document> {
    Rounds(documents, idForUrl, primary, if depth > 0 then depth else 0).0
  }

  lemma IdsAppend(xs: seq<Document>, ys: seq<Document>)
    ensures Ids(xs + ys) == Ids(xs) + Ids(ys)
  {
    forall id | id in Ids(xs) + Ids(ys) ensures id in Ids(xs + ys) {
      if id in Ids(xs) {
        var k :| 0 <= k < |xs| && xs[k].id == id;
        assert (xs + ys)[k].id == id;
      } else {
        var k :| 0 <= k < |ys| && ys[k].id == id;
        assert (xs + ys)[|xs| + k].id == id;
      }
    }
  }

  lemma {:induction false} NothingFound(documents: Documents, idForUrl: Resolver, primary: Document, hops: nat,
                                        more: nat)
    requires Rounds(documents, idForUrl, primary, hops).1 == []
    ensures Rounds(documents, idForUrl, primary, hops + more).0 == Rounds(documents, idForUrl, primary, hops).0
    ensures Rounds(documents, idForUrl, primary, hops + more).1 == []
  {
    if more > 0 {
      NothingFound(documents, idForUrl, primary, hops, more - 1);
    }
  }

  method ResolveRelated(documents: Documents, primary: Document, depth: int, idForUrl: Resolver)
    returns (ordered: seq<Document>)
    requires KeyedById(documents)
    ensures ordered == Related(documents, idForUrl, primary, depth)
  {
    hide Found;
    var seen := {primary.id};
    ordered := [];
    var frontier := [primary];
    var hop := 0;
    while hop < depth
      invariant 0 <= hop && (depth > 0 ==> hop <= depth) && (depth <= 0 ==> hop == 0)
      invariant (ordered, frontier) == Rounds(documents, idForUrl, primary, hop)
      invariant seen == {primary.id} + Ids(ordered)
    {
      var next := FindNext(documents, idForUrl, seen, frontier);
      ghost var after := Rounds(documents, idForUrl, primary, hop + 1);
      IdsAppend(ordered, next);
      seen := seen + Ids(next);
      ordered := ordered + next;
      hop := hop + 1;
      if |next| == 0 {
        NothingFound(documents, idForUrl, primary, hop, depth - hop);
        return;
      }
      frontier := next;
    }
  }

  /** What one more link adds. */
  lemma {:induction false} FoundSnoc(documents: Documents, idForUrl: Resolver, seen: set<Id>, links: seq<Url>,
                                     link: Url)
    requires KeyedById(documents)
    ensures var before := Found(documents, idForUrl, seen, links);
            var after := Found(documents, idForUrl, seen, links + [link]);
            var id := idForUrl(link);
            if id.None? || id.value in seen + Ids(before) || id.value !in documents then after == before
            else after == before + [documents[id.value]] && Ids(after) == Ids(before) + {id.value}
  {
    assert (links + [link])[..|links|] == links;
    var id := idForUrl(link);
    if id.Some? && id.value in documents {
      IdsAppend(Found(documents, idForUrl, seen, links), [documents[id.value]]);
      IdsOfOne(documents[id.value]);
    }
  }

  lemma IdsOfOne(d: Document)
    ensures Ids([d]) == {d.id}
  {
    assert [d][0].id == d.id;
  }

  /** One round: the links of each document of the frontier in turn. */
  method FindNext(documents: Documents, idForUrl: Resolver, seen0: set<Id>, frontier: seq<Document>)
    returns (next: seq<Document>)
    requires KeyedById(documents)
    ensures next == Found(documents, idForUrl, seen0, Links(frontier))
  {
    hide Found, Ids, KeyedById;
    var seen := seen0;
    next := [];
    FoundNothing(documents, idForUrl, seen0);
    for f := 0 to |frontier|
      invariant next == Found(documents, idForUrl, seen0, Links(frontier[..f]))
      invariant seen == seen0 + Ids(next)
    {
      var links := frontier[f].outboundLinks;
      ghost var before := Links(frontier[..f]);
      assert before + links[..0] == before;
      for k := 0 to |links|
        invariant next == Found(documents, idForUrl, seen0, before + links[..k])
        invariant seen == seen0 + Ids(next)
      {
        FoundSnoc(documents, idForUrl, seen0, before + links[..k], links[k]);
        assert before + links[..k + 1] == before + links[..k] + [links[k]];
        var id := idForUrl(links[k]);
        if id.None? || id.value in seen {
          continue;
        }
        if id.value !in documents {
          continue;
        }
        seen := seen + {id.value};
        next := next + [documents[id.value]];
      }
      LinksSnoc(frontier, f);
    }
    assert frontier[..|frontier|] == frontier;
  }

  lemma {:induction false} FoundNothing(documents: Documents, idForUrl: Resolver, seen: set<Id>)
    ensures Found(documents, idForUrl, seen, Links([])) == [] && Ids([]) == {}
  {
  }

  lemma LinksSnoc(ds: seq<Document>, f: nat)
    requires f < |ds|
    ensures Links(ds[..f + 1]) == Links(ds[..f]) + ds[f].outboundLinks
    ensures ds[f].outboundLinks[..|ds[f].outboundLinks|] == ds[f].outboundLinks
  {
    assert ds[..f + 1][..f] == ds[..f];
  }

  // -------------------------------------------- what breadth-first search finds

  lemma {:induction false} FoundShape(documents: Documents, idForUrl: Resolver, seen: set<Id>, links: seq<Url>)
    requires KeyedById(documents)
    ensures var found := Found(documents, idForUrl, seen, links);
            && (forall k | 0 <= k < |found| :: found[k].id in documents && documents[found[k].id] == found[k])
            && (forall j, k | 0 <= j < k < |found| :: found[j].id != found[k].id)
            && (forall id :: id in Ids(found)
                  <==> id !in seen && id in documents && Resolves(idForUrl, links, id))
  {
    if links != [] {
      var n := |links| - 1;
      FoundShape(documents, idForUrl, seen, links[..n]);
      assert links == links[..n] + [links[n]];
      FoundSnoc(documents, idForUrl, seen, links[..n], links[n]);
      ResolvesAppend(idForUrl, links[..n], [links[n]]);
      hide Found, KeyedById;
      forall id ensures Resolves(idForUrl, [links[n]], id) <==> idForUrl(links[n]) == Some(id) {
        assert [links[n]][0] == links[n];
      }
      hide Resolves, Ids;
    }
  }

  lemma {:induction false} ResolvesAppend(idForUrl: Resolver, xs: seq<Url>, ys: seq<Url>)
    ensures forall id :: Resolves(idForUrl, xs + ys, id) <==> Resolves(idForUrl, xs, id) || Resolves(idForUrl, ys, id)
  {
    forall id | Resolves(idForUrl, xs, id) || Resolves(idForUrl, ys, id) ensures Resolves(idForUrl, xs + ys, id) {
      if Resolves(idForUrl, xs, id) {
        var k :| 0 <= k < |xs| && idForUrl(xs[k]) == Some(id);
        assert (xs + ys)[k] == xs[k];
      } else {
        var k :| 0 <= k < |ys| && idForUrl(ys[k]) == Some(id);
        assert (xs + ys)[|xs| + k] == ys[k];
      }
    }
  }

  lemma {:induction false} LinksResolve(idForUrl: Resolver, ds: seq<Document>, id: Id)
    ensures Resolves(idForUrl, Links(ds), id)
            <==> exists i :: 0 <= i < |ds| && Resolves(idForUrl, ds[i].outboundLinks, id)
  {
    if ds != [] {
      var n := |ds| - 1;
      LinksResolve(idForUrl, ds[..n], id);
      ResolvesAppend(idForUrl, Links(ds[..n]), ds[n].outboundLinks);
      hide Resolves;
      assert forall i | 0 <= i < n :: ds[..n][i] == ds[i];
    }
  }

  lemma {:induction false} WithinGrows(documents: Documents, idForUrl: Resolver, primary: Document, m: nat, n: nat,
                                       id: Id)
    requires m <= n && Within(documents, idForUrl, primary, m, id)
    ensures Within(documents, idForUrl, primary, n, id)
  {
    if m < n {
      WithinGrows(documents, idForUrl, primary, m, n - 1, id);
    }
  }

  /** A page has at most one distance, and whatever is within some hops has a distance no larger. */
  lemma {:induction false} DistanceBound(documents: Documents, idForUrl: Resolver, primary: Document, hops: nat,
                                         n: nat, id: Id)
    requires Within(documents, idForUrl, primary, hops, id) && AtDistance(documents, idForUrl, primary, n, id)
    ensures n <= hops
  {
    if hops < n {
      WithinGrows(documents, idForUrl, primary, hops, n - 1, id);
    }
  }

  /** The documents of one round are those exactly one link beyond the last round's. */
  lemma {:induction false} NextRound(documents: Documents, idForUrl: Resolver, primary: Document, hops: nat,
                                     frontier: seq<Document>, id: Id)
    requires forall k | 0 <= k < |frontier| :: IsDocument(documents, primary, frontier[k])
    requires forall x :: x in Ids(frontier) <==> AtDistance(documents, idForUrl, primary, hops, x)
    ensures AtDistance(documents, idForUrl, primary, hops + 1, id)
            <==> !Within(documents, idForUrl, primary, hops, id) && id in documents
                 && Resolves(idForUrl, Links(frontier), id)
  {
    hide Resolves;
    LinksResolve(idForUrl, frontier, id);
    if AtDistance(documents, idForUrl, primary, hops + 1, id) {
      var d: Document :|
        && IsDocument(documents, primary, d) && Within(documents, idForUrl, primary, hops, d.id)
        && id in documents && Resolves(idForUrl, d.outboundLinks, id);
      assert AtDistance(documents, idForUrl, primary, hops, d.id);
      var k :| 0 <= k < |frontier| && frontier[k].id == d.id;
      assert frontier[k] == d;
    }
    if Resolves(idForUrl, Links(frontier), id) {
      var i :| 0 <= i < |frontier| && Resolves(idForUrl, frontier[i].outboundLinks, id);
      assert frontier[i].id in Ids(frontier);
    }
  }

  /** What the search knows after some rounds. */
  ghost predicate RoundsAreRight(documents: Documents, idForUrl: Resolver, primary: Document, hops: nat) {
    var (ordered, frontier) := Rounds(documents, idForUrl, primary, hops);
    && (forall id :: id in {primary.id} + Ids(ordered) <==> Within(documents, idForUrl, primary, hops, id))
    && (forall id :: id in Ids(frontier) <==> AtDistance(documents, idForUrl, primary, hops, id))
    && (forall k | 0 <= k < |frontier| :: IsDocument(documents, primary, frontier[k]))
    && (forall k | 0 <= k < |ordered| :: IsDocument(documents, primary, ordered[k]) && ordered[k].id != primary.id)
    && (forall j, k | 0 <= j < k < |ordered| :: ordered[j].id != ordered[k].id)
  }

  lemma {:induction false} SearchIsRight(documents: Documents, idForUrl: Resolver, primary: Document, hops: nat)
    requires KeyedById(documents)
    ensures RoundsAreRight(documents, idForUrl, primary, hops)
  {
    if hops == 0 {
      IdsOfOne(primary);
      FoundNothing(documents, idForUrl, {});
    } else {
      SearchIsRight(documents, idForUrl, primary, hops - 1);
      RoundIsRight(documents, idForUrl, primary, hops - 1);
    }
  }

  lemma {:induction false} RoundIsRight(documents: Documents, idForUrl: Resolver, primary: Document, hops: nat)
    requires KeyedById(documents) && RoundsAreRight(documents, idForUrl, primary, hops)
    ensures RoundsAreRight(documents, idForUrl, primary, hops + 1)
  {
    var (ordered, frontier) := Rounds(documents, idForUrl, primary, hops);
    var seen := {primary.id} + Ids(ordered);
    var next := Found(documents, idForUrl, seen, Links(frontier));
    FoundShape(documents, idForUrl, seen, Links(frontier));
    IdsAppend(ordered, next);
    hide Found, Links, Resolves, KeyedById;
    forall id
      ensures id in Ids(next) <==> AtDistance(documents, idForUrl, primary, hops + 1, id)
      ensures id in seen + Ids(next) <==> Within(documents, idForUrl, primary, hops + 1, id)
    {
      NextRound(documents, idForUrl, primary, hops, frontier, id);
    }
    assert forall k | 0 <= k < |next| :: next[k].id in Ids(next);
    assert forall k | 0 <= k < |ordered| :: ordered[k].id in Ids(ordered);
  }

  lemma {:induction false} DistanceExists(documents: Documents, idForUrl: Resolver, primary: Document, hops: nat,
                                          id: Id)
    returns (n: nat)
    requires Within(documents, idForUrl, primary, hops, id)
    ensures n <= hops && AtDistance(documents, idForUrl, primary, n, id)
  {
    if hops > 0 && Within(documents, idForUrl, primary, hops - 1, id) {
      n := DistanceExists(documents, idForUrl, primary, hops - 1, id);
    } else {
      n := hops;
    }
  }

  ghost predicate InDistanceOrder(documents: Documents, idForUrl: Resolver, primary: Document, ds: seq<Document>) {
    forall j, k, m: nat, n: nat | 0 <= j < k < |ds|
        && AtDistance(documents, idForUrl, primary, m, ds[j].id)
        && AtDistance(documents, idForUrl, primary, n, ds[k].id) ::
      m <= n
  }

  lemma {:induction false} RoundsInOrder(documents: Documents, idForUrl: Resolver, primary: Document, hops: nat)
    requires KeyedById(documents)
    ensures InDistanceOrder(documents, idForUrl, primary, Rounds(documents, idForUrl, primary, hops).0)
  {
    if hops > 0 {
      RoundsInOrder(documents, idForUrl, primary, hops - 1);
      SearchIsRight(documents, idForUrl, primary, hops - 1);
      SearchIsRight(documents, idForUrl, primary, hops);
      hide Found, Within, AtDistance, KeyedById;
      var (ordered, _) := Rounds(documents, idForUrl, primary, hops - 1);
      var (all, next) := Rounds(documents, idForUrl, primary, hops);
      forall j, k, m: nat, n: nat | 0 <= j < k < |all|
          && AtDistance(documents, idForUrl, primary, m, all[j].id)
          && AtDistance(documents, idForUrl, primary, n, all[k].id)
        ensures m <= n
      {
        assert all[j].id in Ids(all);
        if k < |ordered| {
          assert all[j] == ordered[j] && all[k] == ordered[k];
        } else {
          assert next[k - |ordered|].id in Ids(next);
          DistanceBound(documents, idForUrl, primary, hops, m, all[j].id);
          LastRoundIsFar(documents, idForUrl, primary, hops, n, all[k].id);
        }
      }
    }
  }

  lemma {:induction false} LastRoundIsFar(documents: Documents, idForUrl: Resolver, primary: Document, hops: nat,
                                          n: nat, id: Id)
    requires AtDistance(documents, idForUrl, primary, hops, id) && AtDistance(documents, idForUrl, primary, n, id)
    ensures n == hops
  {
    DistanceBound(documents, idForUrl, primary, hops, n, id);
    DistanceBound(documents, idForUrl, primary, n, hops, id);
  }

  /**
   * The related documents are exactly the loaded ones at link distance 1 to
   * `depth` from the primary, each once, never the primary, and nearer ones first.
   */
  lemma {:induction false} RelatedIsNeighbourhood(documents: Documents, idForUrl: Resolver, primary: Document,
                                                  depth: int)
    requires KeyedById(documents)
    ensures var related := Related(documents, idForUrl, primary, depth);
            && (forall id :: id in Ids(related)
                  <==> exists n: nat :: 1 <= n <= depth && AtDistance(documents, idForUrl, primary, n, id))
            && (forall k | 0 <= k < |related| ::
                  related[k].id in documents && documents[related[k].id] == related[k] && related[k].id != primary.id)
            && (forall j, k | 0 <= j < k < |related| :: related[j].id != related[k].id)
            && InDistanceOrder(documents, idForUrl, primary, related)
  {
    var hops := if depth > 0 then depth else 0;
    SearchIsRight(documents, idForUrl, primary, hops);
    RoundsInOrder(documents, idForUrl, primary, hops);
    var related := Related(documents, idForUrl, primary, depth);
    hide Rounds, Found, InDistanceOrder, KeyedById;
    forall id
      ensures id in Ids(related)
              <==> exists n: nat :: 1 <= n <= depth && AtDistance(documents, idForUrl, primary, n, id)
    {
      if id in Ids(related) {
        var k :| 0 <= k < |related| && related[k].id == id;
        var n := DistanceExists(documents, idForUrl, primary, hops, id);
        assert n >= 1;
      }
      if n: nat :| 1 <= n <= depth && AtDistance(documents, idForUrl, primary, n, id) {
        WithinGrows(documents, idForUrl, primary, 0, n - 1, primary.id);
        WithinGrows(documents, idForUrl, primary, n, hops, id);
      }
    }
  }

  // ----------------------------------------------------------------- the budget

  /** Four characters to the token, rounded up. */
  function EstimateTokens(text: string): nat {
    (|text| + 3) / 4
  }

  function BodyCost(bodies: seq<string>): nat {
    if bodies == [] then 0 else BodyCost(bodies[..|bodies| - 1]) + EstimateTokens(bodies[|bodies| - 1])
  }

  function DocumentCost(d: Document): nat {
    BodyCost(d.bodies)
  }

  function TotalCost(ds: seq<Document>): nat {
    if ds == [] then 0 else TotalCost(ds[..|ds| - 1]) + DocumentCost(ds[|ds| - 1])
  }

  /** Whether candidate `k` still fits after the choices made before it. */
  predicate Fits(primary: Document, related: seq<Document>, maxTokens: int, k: nat)
    requires k < |related|
  {
    TotalCost(Included(primary, related[..k], maxTokens)) + DocumentCost(related[k]) <= maxTokens
  }

  function Included(primary: Document, related: seq<Document>, maxTokens: int): seq<Document> {
    if related == [] then [primary]
    else
      var n := |related| - 1;
      Included(primary, related[..n], maxTokens) + (if Fits(primary, related, maxTokens, n) then [related[n]] else [])
  }

  function Dropped(primary: Document, related: seq<Document>, maxTokens: int): seq<Id> {
    if related == [] then []
    else
      var n := |related| - 1;
      Dropped(primary, related[..n], maxTokens) + (if Fits(primary, related, maxTokens, n) then [] else [related[n].id])
  }

  datatype Pack = Pack(included: seq<Document>, dropped: seq<Id>, estimatedTokens: nat)

  /** The budget loop: first come, first served, and a later small page may still fit. */
  method FitBudget(primary: Document, related: seq<Document>, maxTokens: int) returns (pack: Pack)
    ensures pack.included == Included(primary, related, maxTokens)
    ensures pack.dropped == Dropped(primary, related, maxTokens)
    ensures pack.estimatedTokens == TotalCost(pack.included)
  {
    hide DocumentCost;
    var included, dropped := [primary], [];
    var total := DocumentCost(primary);
    TotalSnoc([], primary);
    for k := 0 to |related|
      invariant included == Included(primary, related[..k], maxTokens)
      invariant dropped == Dropped(primary, related[..k], maxTokens)
      invariant total == TotalCost(included)
    {
      var candidate := related[k];
      var cost := DocumentCost(candidate);
      assert related[..k + 1][..k] == related[..k];
      assert Fits(primary, related[..k + 1], maxTokens, k) <==> total + cost <= maxTokens;
      if total + cost > maxTokens {
        assert included + [] == included;
        dropped := dropped + [candidate.id];
        continue;
      }
      assert dropped + [] == dropped;
      TotalSnoc(included, candidate);
      included := included + [candidate];
      total := total + cost;
    }
    assert related[..|related|] == related;
    pack := Pack(included, dropped, total);
  }

  lemma TotalSnoc(ds: seq<Document>, d: Document)
    ensures TotalCost(ds + [d]) == TotalCost(ds) + DocumentCost(d)
  {
    assert (ds + [d])[..|ds|] == ds;
  }

  /** The primary always stays, and the total never exceeds the budget unless the primary alone does. */
  lemma {:induction false} BudgetHolds(primary: Document, related: seq<Document>, maxTokens: int)
    ensures var included := Included(primary, related, maxTokens);
            && included != [] && included[0] == primary
            && DocumentCost(primary) <= TotalCost(included)
            && (TotalCost(included) <= maxTokens || included == [primary])
  {
    hide DocumentCost;
    TotalSnoc([], primary);
    assert [] + [primary] == [primary];
    if related != [] {
      var n := |related| - 1;
      BudgetHolds(primary, related[..n], maxTokens);
      var before := Included(primary, related[..n], maxTokens);
      TotalSnoc(before, related[n]);
      assert before + [] == before;
    }
  }

  /** Included and dropped split the candidates: each is in one of the two, by position, in order. */
  lemma {:induction false} BudgetSplits(primary: Document, related: seq<Document>, maxTokens: int)
    ensures |Included(primary, related, maxTokens)| >= 1
    ensures multiset(Included(primary, related, maxTokens)[1..]) <= multiset(related)
    ensures |Included(primary, related, maxTokens)| - 1 + |Dropped(primary, related, maxTokens)| == |related|
    ensures multiset(IdList(Included(primary, related, maxTokens)[1..]))
            + multiset(Dropped(primary, related, maxTokens))
            == multiset(IdList(related))
  {
    if related != [] {
      var n := |related| - 1;
      BudgetSplits(primary, related[..n], maxTokens);
      var before := Included(primary, related[..n], maxTokens);
      var included := Included(primary, related, maxTokens);
      hide Fits, DocumentCost;
      assert related == related[..n] + [related[n]];
      IdListSnoc(related[..n], related[n]);
      IdListSnoc(before[1..], related[n]);
      assert Fits(primary, related, maxTokens, n) ==> included[1..] == before[1..] + [related[n]];
      assert !Fits(primary, related, maxTokens, n) ==> included == before;
    }
  }

  function IdList(ds: seq<Document>): (r: seq<Id>)
    ensures |r| == |ds|
  {
    seq(|ds|, k requires 0 <= k < |ds| => ds[k].id)
  }

  lemma IdListSnoc(ds: seq<Document>, d: Document)
    ensures IdList(ds + [d]) == IdList(ds) + [d.id]
  {
  }

  datatype PackError = UnknownDocument(id: Id)

  /** The pack of a page; an unknown id stops the run instead of yielding an empty pack. */
  method BuildSourcePack(documents: Documents, primaryId: Id, maxTokens: int, depth: int, idForUrl: Resolver)
    returns (r: Result<Pack, PackError>)
    requires KeyedById(documents)
    ensures primaryId !in documents ==> r == Err(UnknownDocument(primaryId))
    ensures primaryId in documents ==>
              var primary := documents[primaryId];
              var related := Related(documents, idForUrl, primary, depth);
              && r.Ok?
              && r.value.included == Included(primary, related, maxTokens)
              && r.value.dropped == Dropped(primary, related, maxTokens)
              && r.value.estimatedTokens == TotalCost(r.value.included)
              && (r.value.estimatedTokens <= maxTokens || r.value.included == [primary])
  {
    if primaryId !in documents {
      return Err(UnknownDocument(primaryId));
    }
    var primary := documents[primaryId];
    var related := ResolveRelated(documents, primary, depth, idForUrl);
    var pack := FitBudget(primary, related, maxTokens);
    BudgetHolds(primary, related, maxTokens);
    return Ok(pack);
  }

  // ------------------------------------------------- the budget, without its loop

  /** Tokens of a text: a quarter of its characters, rounded up; of a document, those of all its bodies. */
  lemma {:induction false} CostMeans(d: Document) returns (costs: seq<int>)
    ensures |costs| == |d.bodies| && SumInt(costs) == DocumentCost(d)
    ensures forall i | 0 <= i < |costs| :: 4 * (costs[i] - 1) < |d.bodies[i]| <= 4 * costs[i]
  {
    costs := CostsOf(d.bodies);
  }

  lemma {:induction false} CostsOf(bodies: seq<string>) returns (costs: seq<int>)
    ensures |costs| == |bodies| && SumInt(costs) == BodyCost(bodies)
    ensures forall i | 0 <= i < |costs| :: 4 * (costs[i] - 1) < |bodies[i]| <= 4 * costs[i]
  {
    costs := [];
    if bodies != [] {
      var n := |bodies| - 1;
      var before := CostsOf(bodies[..n]);
      SumIntSnoc(before, EstimateTokens(bodies[n]));
      costs := before + [EstimateTokens(bodies[n])];
    }
  }

  /** The candidates marked `which`, in order. */
  function Marked(related: seq<Document>, kept: seq<bool>, which: bool): (r: seq<Document>)
    requires |kept| == |related|
  {
    if related == [] then []
    else
      var n := |related| - 1;
      Marked(related[..n], kept[..n], which) + (if kept[n] == which then [related[n]] else [])
  }

  /** The tokens of the primary and of the kept among the first `k` candidates. */
  function Spent(primary: Document, related: seq<Document>, kept: seq<bool>, k: nat): nat
    requires k <= |related| == |kept|
  {
    if k == 0 then DocumentCost(primary)
    else Spent(primary, related, kept, k - 1) + (if kept[k - 1] then DocumentCost(related[k - 1]) else 0)
  }

  lemma {:induction false} SpentPrefix(primary: Document, related: seq<Document>, kept: seq<bool>, more: Document,
                                       mark: bool, k: nat)
    requires k <= |related| == |kept|
    ensures Spent(primary, related + [more], kept + [mark], k) == Spent(primary, related, kept, k)
  {
    hide DocumentCost;
    if k > 0 {
      SpentPrefix(primary, related, kept, more, mark, k - 1);
    }
  }

  /**
   * The cut is greedy: a candidate is kept exactly when it fits on top of the
   * primary and of those kept before it; the others are dropped; both in order.
   */
  lemma {:induction false} BudgetIsGreedy(primary: Document, related: seq<Document>, maxTokens: int)
    returns (kept: seq<bool>)
    ensures |kept| == |related|
    ensures forall k | 0 <= k < |related| ::
              kept[k] <==> Spent(primary, related, kept, k) + DocumentCost(related[k]) <= maxTokens
    ensures Included(primary, related, maxTokens) == [primary] + Marked(related, kept, true)
    ensures Dropped(primary, related, maxTokens) == IdList(Marked(related, kept, false))
    ensures TotalCost(Included(primary, related, maxTokens)) == Spent(primary, related, kept, |related|)
  {
    kept := [];
    if related == [] {
      TotalSnoc([], primary);
      assert [] + [primary] == [primary];
    } else {
      var n := |related| - 1;
      var before, d := related[..n], related[n];
      assert related == before + [d];
      hide *;
      var marks := BudgetIsGreedy(primary, before, maxTokens);
      var fits := Spent(primary, before, marks, n) + DocumentCost(d) <= maxTokens;
      kept := marks + [fits];
      forall k | 0 <= k <= n ensures Spent(primary, related, kept, k) == Spent(primary, before, marks, k) {
        SpentPrefix(primary, before, marks, d, fits, k);
      }
      forall k | 0 <= k <= n
        ensures kept[k] <==> Spent(primary, related, kept, k) + DocumentCost(related[k]) <= maxTokens
      {
        assert k < n ==> kept[k] == marks[k] && related[k] == before[k];
      }
      PackNext(primary, before, d, maxTokens);
      SpentNext(primary, related, kept, n);
      MarkedNext(before, d, marks, fits);
      IdListSnoc(Marked(before, marks, false), d);
    }
  }

  lemma SpentNext(primary: Document, related: seq<Document>, kept: seq<bool>, k: nat)
    requires k < |related| == |kept|
    ensures Spent(primary, related, kept, k + 1)
            == Spent(primary, related, kept, k) + (if kept[k] then DocumentCost(related[k]) else 0)
  {
    hide DocumentCost;
  }

  lemma MarkedNext(related: seq<Document>, d: Document, kept: seq<bool>, mark: bool)
    requires |kept| == |related|
    ensures Marked(related + [d], kept + [mark], true) == Marked(related, kept, true) + (if mark then [d] else [])
    ensures Marked(related + [d], kept + [mark], false) == Marked(related, kept, false) + (if mark then [] else [d])
  {
    assert (related + [d])[..|related|] == related && (kept + [mark])[..|kept|] == kept;
  }

  /** One more candidate, in the loop's own terms. */
  lemma PackNext(primary: Document, related: seq<Document>, d: Document, maxTokens: int)
    ensures var before, after := Included(primary, related, maxTokens), Included(primary, related + [d], maxTokens);
            var dropped, dropped' := Dropped(primary, related, maxTokens), Dropped(primary, related + [d], maxTokens);
            if TotalCost(before) + DocumentCost(d) <= maxTokens then
              after == before + [d] && TotalCost(after) == TotalCost(before) + DocumentCost(d) && dropped' == dropped
            else after == before && dropped' == dropped + [d.id]
  {
    hide DocumentCost, TotalCost;
    assert (related + [d])[..|related|] == related;
    TotalSnoc(Included(primary, related, maxTokens), d);
    assert Included(primary, related, maxTokens) + [] == Included(primary, related, maxTokens);
    assert Dropped(primary, related, maxTokens) + [] == Dropped(primary, related, maxTokens);
  }
}
