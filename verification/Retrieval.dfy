/**
 Retrieve's ranking pipeline: vector hits are hydrated and scored, graph neighbours of the first
 five boost them or join them, and the merged candidates are sorted, deduplicated by content and
 cut to the limit.  Neighbours are visited in map order, which may be any order.
 */
module Retrieval {
  import opened Common
  import opened Dedup
  import opened Ranking
  import opened Sorting
  import opened Text
  import Words

  /** The columns of a memory that retrieval reads. */
  datatype Model = Model(tenantID: string, agentID: string, memoryType: string, content: string, importance: real,
                         reinforcement: real, decayFactor: real, createdAt: int, lastAccessed: int, retrievalCount: int)

  datatype Hit = Hit(id: string, score: real)

  datatype Breakdown = Breakdown(semantic: real, temporal: real, importance: real, reinforcement: real, layer: string)

  datatype Candidate = Candidate(id: string, score: real, breakdown: Breakdown, model: Model)

  datatype Request = Request(limit: int, threshold: real, alpha: real, beta: real, gamma: real)

  /**
   What the call sees of the world: the clock in seconds, the memory behind a hit (cache, then
   table), the memory behind a neighbour (table), and the neighbours themselves.  A failed lookup is
   None; `graph` tells whether a graph store is configured.
   */
  datatype World = World(now: int, functions: Functions, lower: char -> char,
                         hydrate: string -> Option<Model>, fetch: string -> Option<Model>,
                         graph: bool, related: string -> Option<seq<string>>)

  const DAY := 86_400

  function AgeDays(now: int, createdAt: int): real {
    (now - createdAt) as real / DAY as real
  }

  function DetermineLayer(now: int, m: Model): string {
    if now - m.lastAccessed < 300 && m.retrievalCount > 0 then "working"
    else if now - m.createdAt < 30 * DAY then "episodic"
    else if m.importance > 0.6 || m.reinforcement > 5.0 then "long_term"
    else if now - m.createdAt > 90 * DAY && m.importance < 0.3 then "archive"
    else "episodic"
  }

  function Limit(req: Request): nat {
    if req.limit <= 0 then 10 else req.limit
  }

  // ----- Vector hits -----

  function Scored(w: World, req: Request, hit: Hit, m: Model): Candidate {
    var weights := Overridden(req.alpha, req.beta, req.gamma);
    var score := ComputeRank(w.functions, hit.score, m.importance, m.reinforcement, m.decayFactor,
                             AgeDays(w.now, m.createdAt), weights);
    Candidate(hit.id, score.finalScore,
              Breakdown(score.semanticScore, score.temporalScore, score.importanceScore, score.reinforcementScore,
                        DetermineLayer(w.now, m)), m)
  }

  function FromHit(w: World, req: Request, hit: Hit): seq<Candidate> {
    var found := w.hydrate(hit.id);
    if found.None? then []
    else
      var c := Scored(w, req, hit, found.value);
      if c.score >= req.threshold then [c] else []
  }

  function HitScorer(w: World, req: Request): Hit -> seq<Candidate> {
    (hit: Hit) => FromHit(w, req, hit)
  }

  function FromHits(w: World, req: Request, hits: seq<Hit>): seq<Candidate> {
    FlatMap(HitScorer(w, req), hits, |hits|)
  }

  /** `seen` sends every listed id to the last position where it is listed. */
  ghost predicate SeenByID(scored: seq<Candidate>, seen: map<string, nat>) {
    && (forall id :: id in seen ==> seen[id] < |scored| && scored[seen[id]].id == id)
    && (forall i :: 0 <= i < |scored| ==> scored[i].id in seen && i <= seen[scored[i].id])
  }

  lemma SeenAfterAppend(scored: seq<Candidate>, seen: map<string, nat>, c: Candidate)
    requires SeenByID(scored, seen)
    ensures SeenByID(scored + [c], seen[c.id := |scored|])
  {
  }

  method ScoreHits(w: World, req: Request, hits: seq<Hit>) returns (scored: seq<Candidate>, seen: map<string, nat>)
    ensures scored == FromHits(w, req, hits) && SeenByID(scored, seen)
  {
    scored, seen := [], map[];
    for k := 0 to |hits|
      invariant scored == FlatMap(HitScorer(w, req), hits, k) && SeenByID(scored, seen)
    {
      var found := w.hydrate(hits[k].id);
      if found.None? {
        continue;
      }
      var c := Scored(w, req, hits[k], found.value);
      if c.score >= req.threshold {
        SeenAfterAppend(scored, seen, c);
        scored := scored + [c];
        seen := seen[c.id := |scored| - 1];
      }
    }
  }

  // ----- Neighbours and their boosts -----

  function TopIDs(scored: seq<Candidate>): (ids: seq<string>)
    ensures |ids| == (if |scored| <= 5 then |scored| else 5)
    ensures forall i :: 0 <= i < |ids| ==> ids[i] == scored[i].id
  {
    Map((c: Candidate) => c.id, if |scored| <= 5 then scored else scored[..5])
  }

  function Occurrences(ids: seq<string>, id: string): nat {
    multiset(ids)[id]
  }

  /** How often the neighbour lists of `tops` mention `id`, a memory's mention of itself apart. */
  function Mentions(w: World, tops: seq<string>, id: string): nat {
    if tops == [] then 0
    else Mentions(w, tops[..|tops| - 1], id) + MentionsOf(w, tops[|tops| - 1], id)
  }

  function MentionsOf(w: World, top: string, id: string): nat {
    if id == top || w.related(top).None? then 0 else Occurrences(w.related(top).value, id)
  }

  const BOOST := 0.05

  /** A boost of 0.05 for every mention. */
  ghost predicate IsBoosts(w: World, tops: seq<string>, boosts: map<string, real>) {
    && (forall id :: id in boosts <==> Mentions(w, tops, id) > 0)
    && (forall id :: id in boosts ==> boosts[id] == BOOST * Mentions(w, tops, id) as real)
  }

  method NeighborBoosts(w: World, tops: seq<string>) returns (boosts: map<string, real>)
    ensures IsBoosts(w, tops, boosts)
  {
    boosts := map[];
    for k := 0 to |tops|
      invariant IsBoosts(w, tops[..k], boosts)
    {
      assert tops[..k + 1][..k] == tops[..k];
      if w.related(tops[k]).Some? {
        boosts := BoostRelated(tops[k], w.related(tops[k]).value, boosts);
      }
    }
    assert tops[..|tops|] == tops;
  }

  /** The inner loop: each neighbour but the memory itself gains one boost per mention. */
  method BoostRelated(top: string, related: seq<string>, before: map<string, real>) returns (boosts: map<string, real>)
    ensures forall id :: id in boosts <==> id in before || (id != top && id in related)
    ensures forall id :: id in boosts ==>
      boosts[id] == (if id in before then before[id] else 0.0)
        + (if id == top then 0.0 else BOOST * Occurrences(related, id) as real)
  {
    boosts := before;
    for k := 0 to |related|
      invariant forall id :: id in boosts <==> id in before || (id != top && id in related[..k])
      invariant forall id :: id in boosts ==>
        boosts[id] == (if id in before then before[id] else 0.0)
          + (if id == top then 0.0 else BOOST * Occurrences(related[..k], id) as real)
    {
      assert related[..k + 1] == related[..k] + [related[k]];
      var rid := related[k];
      if rid == top {
        continue;
      }
      boosts := boosts[rid := (if rid in boosts then boosts[rid] else 0.0) + BOOST];
    }
    assert related[..|related|] == related;
  }

  // ----- Merging the neighbours -----

  /** The last listing of an id is the one that `seen` points to. */
  predicate IsLast(scored: seq<Candidate>, i: nat)
    requires i < |scored|
  {
    forall j :: i < j < |scored| ==> scored[j].id != scored[i].id
  }

  ghost predicate Lists(scored: seq<Candidate>, id: string) {
    exists i :: 0 <= i < |scored| && scored[i].id == id
  }

  /** The hits, those whose id is in `ids` boosted once. */
  ghost function Boosted(base: seq<Candidate>, boosts: map<string, real>, ids: set<string>): (r: seq<Candidate>)
    requires ids <= boosts.Keys
    ensures |r| == |base| && forall i :: 0 <= i < |base| ==> r[i].id == base[i].id
  {
    seq(|base|, i requires 0 <= i < |base| =>
      if IsLast(base, i) && base[i].id in ids then base[i].(score := base[i].score + boosts[base[i].id]) else base[i])
  }

  function NeighborOf(w: World, id: string, boost: real, m: Model): Candidate {
    Candidate(id, 0.6 + boost, Breakdown(0.6, 0.0, 0.0, boost, DetermineLayer(w.now, m)), m)
  }

  /** A neighbour that is no hit joins the candidates if its memory can be fetched. */
  ghost function Joins(w: World, base: seq<Candidate>, boosts: map<string, real>, id: string): seq<Candidate> {
    if Lists(base, id) || id !in boosts || w.fetch(id).None? then []
    else [NeighborOf(w, id, boosts[id], w.fetch(id).value)]
  }

  ghost function Joined(w: World, base: seq<Candidate>, boosts: map<string, real>, order: seq<string>): seq<Candidate> {
    if order == [] then []
    else Joined(w, base, boosts, order[..|order| - 1]) + Joins(w, base, boosts, order[|order| - 1])
  }

  /** The candidates when the boosts are visited in the given order. */
  ghost function Merged(w: World, base: seq<Candidate>, boosts: map<string, real>, order: seq<string>): seq<Candidate> {
    Boosted(base, boosts, boosts.Keys) + Joined(w, base, boosts, order)
  }

  ghost predicate Visits(order: seq<string>, ids: set<string>) {
    && (forall i, j :: 0 <= i < j < |order| ==> order[i] != order[j])
    && (forall id :: id in order <==> id in ids)
  }

  lemma {:induction false} JoinedIds(w: World, base: seq<Candidate>, boosts: map<string, real>, order: seq<string>)
    ensures forall c :: c in Joined(w, base, boosts, order) ==> c.id in order && !Lists(base, c.id)
    ensures forall id :: id in order ==> forall c :: c in Joins(w, base, boosts, id) ==>
      c in Joined(w, base, boosts, order)
  {
    if order != [] {
      JoinedIds(w, base, boosts, order[..|order| - 1]);
      assert order == order[..|order| - 1] + [order[|order| - 1]];
    }
  }

  /** The candidates after the neighbours in `order` have been visited. */
  ghost predicate MergedSoFar(w: World, base: seq<Candidate>, boosts: map<string, real>, order: seq<string>,
                              scored: seq<Candidate>) {
    && (forall id :: id in order ==> id in boosts)
    && scored == Boosted(base, boosts, Visited(order)) + Joined(w, base, boosts, order)
  }

  ghost function Visited(order: seq<string>): set<string> {
    set id | id in order
  }

  lemma SeenInBase(base: seq<Candidate>, scored: seq<Candidate>, seen: map<string, nat>, id: string)
    requires SeenByID(scored, seen) && |base| <= |scored|
    requires forall i :: 0 <= i < |base| ==> scored[i].id == base[i].id
    requires forall i :: |base| <= i < |scored| ==> scored[i].id != id
    ensures id in seen <==> Lists(base, id)
    ensures id in seen ==> seen[id] < |base| && base[seen[id]].id == id && IsLast(base, seen[id])
  {
    if i :| 0 <= i < |base| && base[i].id == id {
      assert scored[i].id == id;
    }
    if id in seen {
      assert base[seen[id]].id == id;
      forall j | seen[id] < j < |base| ensures base[j].id != id {
        assert scored[j].id == base[j].id;
      }
    }
  }

  lemma BoostOne(base: seq<Candidate>, boosts: map<string, real>, ids: set<string>, id: string, p: nat)
    requires ids <= boosts.Keys && id in boosts && id !in ids
    requires p < |base| && base[p].id == id && IsLast(base, p)
    ensures var before := Boosted(base, boosts, ids);
      Boosted(base, boosts, ids + {id}) == before[p := before[p].(score := before[p].score + boosts[id])]
  {
    var before, after := Boosted(base, boosts, ids), Boosted(base, boosts, ids + {id});
    forall i | 0 <= i < |base| && i != p ensures after[i] == before[i] {
      assert base[i].id == id && IsLast(base, i) ==> i == p;
    }
  }

  lemma BoostNone(base: seq<Candidate>, boosts: map<string, real>, ids: set<string>, id: string)
    requires ids <= boosts.Keys && id in boosts && !Lists(base, id)
    ensures Boosted(base, boosts, ids + {id}) == Boosted(base, boosts, ids)
  {
  }

  /** A neighbour not yet visited is seen only among the hits. */
  lemma SeenIsHit(w: World, base: seq<Candidate>, boosts: map<string, real>, order: seq<string>, id: string,
                  scored: seq<Candidate>, seen: map<string, nat>)
    requires id !in order && MergedSoFar(w, base, boosts, order, scored) && SeenByID(scored, seen)
    ensures id in seen <==> Lists(base, id)
    ensures id in seen ==> seen[id] < |base| && base[seen[id]].id == id && IsLast(base, seen[id])
  {
    var joined := Joined(w, base, boosts, order);
    JoinedIds(w, base, boosts, order);
    forall i | |base| <= i < |scored| ensures scored[i].id != id {
      assert scored[i] == joined[i - |base|];
    }
    SeenInBase(base, scored, seen, id);
  }

  /** Visiting a neighbour that is a hit bumps its last listing. */
  lemma MergeBoost(w: World, base: seq<Candidate>, boosts: map<string, real>, order: seq<string>, id: string,
                   scored: seq<Candidate>, p: nat)
    requires id in boosts && id !in order && MergedSoFar(w, base, boosts, order, scored)
    requires p < |base| && base[p].id == id && IsLast(base, p)
    ensures p < |scored|
    ensures MergedSoFar(w, base, boosts, order + [id], scored[p := scored[p].(score := scored[p].score + boosts[id])])
  {
    var ids := Visited(order);
    var boosted, joined := Boosted(base, boosts, ids), Joined(w, base, boosts, order);
    BoostOne(base, boosts, ids, id, p);
    VisitedOneMore(order, id);
    JoinedOneMore(w, base, boosts, order, id);
    assert Lists(base, id) && joined + [] == joined;
    UpdateLeft(boosted, joined, p, boosted[p].(score := boosted[p].score + boosts[id]));
  }

  /** Visiting any other neighbour appends it, if it can be fetched. */
  lemma MergeJoin(w: World, base: seq<Candidate>, boosts: map<string, real>, order: seq<string>, id: string,
                  scored: seq<Candidate>)
    requires id in boosts && id !in order && MergedSoFar(w, base, boosts, order, scored) && !Lists(base, id)
    ensures MergedSoFar(w, base, boosts, order + [id], scored + Joins(w, base, boosts, id))
  {
    var ids := Visited(order);
    var boosted, joined, joins :=
      Boosted(base, boosts, ids), Joined(w, base, boosts, order), Joins(w, base, boosts, id);
    BoostNone(base, boosts, ids, id);
    VisitedOneMore(order, id);
    JoinedOneMore(w, base, boosts, order, id);
    assert (boosted + joined) + joins == boosted + (joined + joins);
  }

  lemma JoinedOneMore(w: World, base: seq<Candidate>, boosts: map<string, real>, order: seq<string>, id: string)
    ensures Joined(w, base, boosts, order + [id]) == Joined(w, base, boosts, order) + Joins(w, base, boosts, id)
  {
    assert (order + [id])[..|order|] == order;
  }

  lemma VisitedOneMore(order: seq<string>, id: string)
    ensures Visited(order + [id]) == Visited(order) + {id}
  {
  }

  lemma UpdateLeft<T>(a: seq<T>, b: seq<T>, p: nat, x: T)
    requires p < |a|
    ensures (a + b)[p := x] == a[p := x] + b && (a + b)[p] == a[p]
  {
  }

  lemma VisitOneMore(order: seq<string>, ids: set<string>, remaining: set<string>, id: string)
    requires Visits(order, ids - remaining) && id in remaining && remaining <= ids
    ensures id !in order && Visits(order + [id], ids - (remaining - {id}))
  {
  }

  lemma SeenAfterBump(scored: seq<Candidate>, seen: map<string, nat>, p: nat, score: real)
    requires SeenByID(scored, seen) && p < |scored|
    ensures SeenByID(scored[p := scored[p].(score := score)], seen)
  {
  }

  lemma NothingVisited(w: World, base: seq<Candidate>, boosts: map<string, real>)
    ensures MergedSoFar(w, base, boosts, [], base)
  {
  }

  lemma AllVisited(w: World, base: seq<Candidate>, boosts: map<string, real>, order: seq<string>,
                   scored: seq<Candidate>)
    requires Visits(order, boosts.Keys) && MergedSoFar(w, base, boosts, order, scored)
    ensures scored == Merged(w, base, boosts, order)
  {
    assert Visited(order) == boosts.Keys;
  }

  method MergeNeighbors(w: World, base: seq<Candidate>, seenBase: map<string, nat>, boosts: map<string, real>)
    returns (scored: seq<Candidate>)
    requires SeenByID(base, seenBase)
    ensures exists order :: Visits(order, boosts.Keys) && scored == Merged(w, base, boosts, order)
  {
    scored := base;
    var seen: map<string, nat> := seenBase;
    ghost var order: seq<string> := [];
    NothingVisited(w, base, boosts);
    var remaining := boosts.Keys;
    while remaining != {}
      invariant remaining <= boosts.Keys
      invariant Visits(order, boosts.Keys - remaining)
      invariant MergedSoFar(w, base, boosts, order, scored) && SeenByID(scored, seen)
      decreases |remaining|
    {
      var rid :| rid in remaining;
      VisitOneMore(order, boosts.Keys, remaining, rid);
      scored, seen := VisitNeighbor(w, base, boosts, order, rid, scored, seen);
      remaining := remaining - {rid};
      order := order + [rid];
    }
    assert boosts.Keys - remaining == boosts.Keys;
    AllVisited(w, base, boosts, order, scored);
  }

  /** The body of the merging loop. */
  method VisitNeighbor(w: World, ghost base: seq<Candidate>, boosts: map<string, real>, ghost order: seq<string>,
                       rid: string,
                       before: seq<Candidate>, seenBefore: map<string, nat>)
    returns (scored: seq<Candidate>, seen: map<string, nat>)
    requires rid in boosts && rid !in order && MergedSoFar(w, base, boosts, order, before)
      && SeenByID(before, seenBefore)
    ensures MergedSoFar(w, base, boosts, order + [rid], scored) && SeenByID(scored, seen)
  {
    scored, seen := before, seenBefore;
    SeenIsHit(w, base, boosts, order, rid, scored, seen);
    var boost := boosts[rid];
    if rid in seen {
      var idx := seen[rid];
      MergeBoost(w, base, boosts, order, rid, scored, idx);
      SeenAfterBump(scored, seen, idx, scored[idx].score + boost);
      scored := scored[idx := scored[idx].(score := scored[idx].score + boost)];
      return;
    }
    MergeJoin(w, base, boosts, order, rid, scored);
    var found := w.fetch(rid);
    if found.None? {
      assert scored + [] == scored;
      return;
    }
    SeenAfterAppend(scored, seen, NeighborOf(w, rid, boost, found.value));
    scored := scored + [NeighborOf(w, rid, boost, found.value)];
    seen := seen[rid := |scored| - 1];
  }

  // ----- Ranking order -----

  datatype Rank = Rank(score: real, id: string)

  function RankOf(c: Candidate): Rank {
    Rank(c.score, c.id)
  }

  /** Higher scores first; equal scores by id. */
  predicate Precedes(a: Rank, b: Rank) {
    a.score > b.score || (a.score == b.score && StringLess(a.id, b.id))
  }

  lemma PrecedesIsTotalOrder()
    ensures StrictTotalOrder(Precedes)
  {
    StringLessIsTotalOrder();
  }

  function SortByRank(scored: seq<Candidate>): seq<Candidate> {
    StableSort(RankOf, Precedes, scored)
  }

  // ----- Deduplication and the limit -----

  function ContentKey(w: World): Candidate -> string {
    (c: Candidate) => Words.NormalizeContentKey(w.lower, c.model.content)
  }

  // ----- The whole call -----

  ghost function Pipeline(w: World, req: Request, hits: seq<Hit>, boosts: map<string, real>,
                          order: seq<string>): seq<Candidate> {
    Take(FirstOfEach(ContentKey(w), SortByRank(Merged(w, FromHits(w, req, hits), boosts, order))), Limit(req))
  }

  /** The boosts that a call works with; none without a graph. */
  ghost predicate BoostsFor(w: World, req: Request, hits: seq<Hit>, boosts: map<string, real>) {
    if w.graph then IsBoosts(w, TopIDs(FromHits(w, req, hits)), boosts) else boosts == map[]
  }

  lemma BoostsAreUnique(w: World, req: Request, hits: seq<Hit>, boosts: map<string, real>, boosts': map<string, real>)
    requires BoostsFor(w, req, hits, boosts) && BoostsFor(w, req, hits, boosts')
    ensures boosts == boosts'
  {
  }

  /** The pipeline's list for every order in which the neighbours might be visited, of which there is one. */
  ghost predicate IsRetrieved(w: World, req: Request, hits: seq<Hit>, final: seq<Candidate>) {
    && (forall boosts, order :: BoostsFor(w, req, hits, boosts) && Visits(order, boosts.Keys) ==>
          final == Pipeline(w, req, hits, boosts, order))
    && (exists boosts, order :: BoostsFor(w, req, hits, boosts) && Visits(order, boosts.Keys))
  }

  lemma OneOrderIsEnough(w: World, req: Request, hits: seq<Hit>, boosts: map<string, real>, order: seq<string>,
                         final: seq<Candidate>)
    requires BoostsFor(w, req, hits, boosts) && Visits(order, boosts.Keys)
      && final == Pipeline(w, req, hits, boosts, order)
    ensures IsRetrieved(w, req, hits, final)
  {
    forall boosts', order' | BoostsFor(w, req, hits, boosts') && Visits(order', boosts'.Keys)
      ensures final == Pipeline(w, req, hits, boosts', order')
    {
      BoostsAreUnique(w, req, hits, boosts, boosts');
      VisitOrderIsInvisible(w, FromHits(w, req, hits), boosts, order, order');
    }
  }

  method Retrieve(w: World, req: Request, hits: seq<Hit>) returns (final: seq<Candidate>)
    ensures IsRetrieved(w, req, hits, final)
  {
    var scored, seen := ScoreHits(w, req, hits);
    ghost var base := scored;
    ghost var boosts: map<string, real> := map[];
    if w.graph {
      var topIDs := TopIDs(scored);
      var neighborBoosts := NeighborBoosts(w, topIDs);
      scored := MergeNeighbors(w, scored, seen, neighborBoosts);
      boosts := neighborBoosts;
    } else {
      NothingToMerge(w, scored);
    }
    ghost var order :| Visits(order, boosts.Keys) && scored == Merged(w, base, boosts, order);
    var sorted := SortByRank(scored);
    final := DedupAndCut(ContentKey(w), sorted, Limit(req));
    OneOrderIsEnough(w, req, hits, boosts, order, final);
  }

  lemma NothingToMerge(w: World, base: seq<Candidate>)
    ensures Visits([], {}) && Merged(w, base, map[], []) == base
  {
  }

  // ----- The order of the neighbours never shows -----

  /** Among the neighbours that join, at most one has a given rank, wherever it was visited. */
  lemma {:induction false} JoinedWithRank(w: World, base: seq<Candidate>, boosts: map<string, real>,
                                          order: seq<string>, rank: Rank)
    requires forall i, j :: 0 <= i < j < |order| ==> order[i] != order[j]
    ensures WithKey(RankOf, rank, Joined(w, base, boosts, order))
         == if rank.id in order then WithKey(RankOf, rank, Joins(w, base, boosts, rank.id)) else []
  {
    if order != [] {
      var n := |order| - 1;
      var before := order[..n];
      assert order == before + [order[n]] && order[n] !in before;
      JoinedWithRank(w, base, boosts, before, rank);
      LastJoinedWithRank(w, base, boosts, order, rank);
      if rank.id != order[n] {
        JoinsOther(w, base, boosts, order[n], rank);
      }
    }
  }

  lemma LastJoinedWithRank(w: World, base: seq<Candidate>, boosts: map<string, real>, order: seq<string>, rank: Rank)
    requires order != []
    ensures var n := |order| - 1;
      WithKey(RankOf, rank, Joined(w, base, boosts, order))
      == WithKey(RankOf, rank, Joined(w, base, boosts, order[..n]))
        + WithKey(RankOf, rank, Joins(w, base, boosts, order[n]))
  {
    var n := |order| - 1;
    WithKeyConcat(RankOf, rank, Joined(w, base, boosts, order[..n]), Joins(w, base, boosts, order[n]));
  }

  lemma JoinsOther(w: World, base: seq<Candidate>, boosts: map<string, real>, id: string, rank: Rank)
    requires rank.id != id
    ensures WithKey(RankOf, rank, Joins(w, base, boosts, id)) == []
  {
  }

  /** Two visiting orders give the same sorted candidates, even if several hits share an id. */
  lemma VisitOrderIsInvisible(w: World, base: seq<Candidate>, boosts: map<string, real>, order: seq<string>,
                              order': seq<string>)
    requires Visits(order, boosts.Keys) && Visits(order', boosts.Keys)
    ensures SortByRank(Merged(w, base, boosts, order)) == SortByRank(Merged(w, base, boosts, order'))
  {
    var a, b := Merged(w, base, boosts, order), Merged(w, base, boosts, order');
    PrecedesIsTotalOrder();
    StableSortMeetsSpec(RankOf, Precedes, a);
    StableSortMeetsSpec(RankOf, Precedes, b);
    forall rank ensures WithKey(RankOf, rank, SortByRank(a)) == WithKey(RankOf, rank, SortByRank(b)) {
      SameWithRank(w, base, boosts, order, order', rank);
      assert WithKey(RankOf, rank, SortByRank(a)) == WithKey(RankOf, rank, a);
      assert WithKey(RankOf, rank, SortByRank(b)) == WithKey(RankOf, rank, b);
    }
    SortedByKeysUnique(RankOf, Precedes, SortByRank(a), SortByRank(b));
  }

  lemma SameWithRank(w: World, base: seq<Candidate>, boosts: map<string, real>, order: seq<string>,
                     order': seq<string>, rank: Rank)
    requires Visits(order, boosts.Keys) && Visits(order', boosts.Keys)
    ensures WithKey(RankOf, rank, Merged(w, base, boosts, order))
         == WithKey(RankOf, rank, Merged(w, base, boosts, order'))
  {
    var boosted := Boosted(base, boosts, boosts.Keys);
    WithKeyConcat(RankOf, rank, boosted, Joined(w, base, boosts, order));
    WithKeyConcat(RankOf, rank, boosted, Joined(w, base, boosts, order'));
    JoinedWithRank(w, base, boosts, order, rank);
    JoinedWithRank(w, base, boosts, order', rank);
  }

  // ----- What the final list is -----

  /** Every call returns the top of its merged candidates, one per content. */
  lemma PipelineIsTop(w: World, req: Request, hits: seq<Hit>, boosts: map<string, real>, order: seq<string>)
    ensures IsTopOf(ContentKey(w), RankOf, Precedes, Merged(w, FromHits(w, req, hits), boosts, order), Limit(req),
                    Pipeline(w, req, hits, boosts, order))
  {
    var cs := Merged(w, FromHits(w, req, hits), boosts, order);
    PrecedesIsTotalOrder();
    StableSortSorted(RankOf, Precedes, cs);
    StableSortPermutes(RankOf, Precedes, cs);
    TopOfSorted(ContentKey(w), RankOf, Precedes, SortByRank(cs), Limit(req));
    TopOfPermutation(ContentKey(w), RankOf, Precedes, SortByRank(cs), cs, Limit(req),
                     Pipeline(w, req, hits, boosts, order));
  }

  /** The list is the top of the candidates that some order of visits merges. */
  ghost predicate IsTopOfMerged(w: World, req: Request, hits: seq<Hit>, final: seq<Candidate>) {
    exists boosts, order ::
      && BoostsFor(w, req, hits, boosts) && Visits(order, boosts.Keys)
      && IsTopOf(ContentKey(w), RankOf, Precedes, Merged(w, FromHits(w, req, hits), boosts, order), Limit(req), final)
  }

  /** So what Retrieve returns is that top, however the neighbours were visited. */
  lemma RetrievedIsTop(w: World, req: Request, hits: seq<Hit>, final: seq<Candidate>)
    requires IsRetrieved(w, req, hits, final)
    ensures IsTopOfMerged(w, req, hits, final)
  {
    var boosts, order :| BoostsFor(w, req, hits, boosts) && Visits(order, boosts.Keys);
    PipelineIsTop(w, req, hits, boosts, order);
  }

  // ----- What the list is, in terms of scores -----

  function KeyOf(w: World, c: Candidate): string {
    Words.NormalizeContentKey(w.lower, c.model.content)
  }

  /** Higher scores come first, and equal scores in the order of their ids. */
  ghost predicate ByScore(final: seq<Candidate>) {
    forall i, j :: 0 <= i < j < |final| ==>
      && final[i].score >= final[j].score
      && (final[i].score == final[j].score ==> !StringLess(final[j].id, final[i].id))
  }

  /** No candidate of a content that is shown scores above the one shown for it. */
  ghost predicate BestOfContent(w: World, cs: seq<Candidate>, final: seq<Candidate>) {
    forall c, i :: c in cs && 0 <= i < |final| && KeyOf(w, c) == KeyOf(w, final[i]) ==> c.score <= final[i].score
  }

  /** No candidate of a content that is not shown scores above any that is shown. */
  ghost predicate NoneLeftOutIsBetter(w: World, cs: seq<Candidate>, final: seq<Candidate>) {
    forall c, i :: c in cs && 0 <= i < |final| && (forall f :: f in final ==> KeyOf(w, f) != KeyOf(w, c)) ==>
      c.score <= final[i].score
  }

  /** Every candidate's content is shown. */
  ghost predicate EveryContentShown(w: World, cs: seq<Candidate>, final: seq<Candidate>) {
    forall c :: c in cs ==> exists f :: f in final && KeyOf(w, f) == KeyOf(w, c)
  }

  lemma TopByScore(w: World, cs: seq<Candidate>, limit: nat, final: seq<Candidate>)
    requires IsTopOf(ContentKey(w), RankOf, Precedes, cs, limit, final)
    ensures ByScore(final) && BestOfContent(w, cs, final) && NoneLeftOutIsBetter(w, cs, final)
    ensures |final| < limit ==> EveryContentShown(w, cs, final)
  {
    forall c, i | c in cs && 0 <= i < |final| && KeyOf(w, c) == KeyOf(w, final[i]) ensures c.score <= final[i].score {
      assert ContentKey(w)(c) == ContentKey(w)(final[i]);
    }
    forall c, i | c in cs && 0 <= i < |final| && (forall f :: f in final ==> KeyOf(w, f) != KeyOf(w, c))
      ensures c.score <= final[i].score
    {
      assert ContentKey(w)(c) !in Keys(ContentKey(w), final);
    }
    if |final| < limit {
      forall c | c in cs ensures exists f :: f in final && KeyOf(w, f) == KeyOf(w, c) {
        assert ContentKey(w)(c) in Keys(ContentKey(w), cs);
      }
    }
  }

  /**
   What Retrieve returns, in terms of scores, for every order in which the neighbours might be visited:
   at most the requested number, or 10; best first; for each content its best candidate; nothing left
   out is better than anything returned; and contents are left out only when the list is full.
   */
  lemma RetrievedByScore(w: World, req: Request, hits: seq<Hit>, final: seq<Candidate>,
                         boosts: map<string, real>, order: seq<string>)
    requires IsRetrieved(w, req, hits, final)
    requires BoostsFor(w, req, hits, boosts) && Visits(order, boosts.Keys)
    ensures |final| <= if req.limit > 0 then req.limit else 10
    ensures ByScore(final)
    ensures var cs := Merged(w, FromHits(w, req, hits), boosts, order);
      && (forall c :: c in final ==> c in cs)
      && BestOfContent(w, cs, final) && NoneLeftOutIsBetter(w, cs, final)
      && ((|final| < if req.limit > 0 then req.limit else 10) ==> EveryContentShown(w, cs, final))
  {
    PipelineIsTop(w, req, hits, boosts, order);
    TopByScore(w, Merged(w, FromHits(w, req, hits), boosts, order), Limit(req), final);
  }

  // ----- What the candidates and their scores are -----

  /** A hit is a candidate exactly if its memory is found and scores at least the threshold. */
  lemma {:induction false} HitsKept(w: World, req: Request, hits: seq<Hit>, k: nat, c: Candidate)
    requires k <= |hits|
    ensures c in FlatMap(HitScorer(w, req), hits, k) <==>
      exists i :: 0 <= i < k && w.hydrate(hits[i].id).Some? && c.score >= req.threshold
        && c == Scored(w, req, hits[i], w.hydrate(hits[i].id).value)
  {
    if k > 0 {
      HitsKept(w, req, hits, k - 1, c);
      assert FlatMap(HitScorer(w, req), hits, k)
          == FlatMap(HitScorer(w, req), hits, k - 1) + FromHit(w, req, hits[k - 1]);
    }
  }

  /** Each component of a hit's score measures the column it is named after. */
  lemma ScoredMeasures(w: World, req: Request, hit: Hit, m: Model, age: real, rate: real)
    requires age * 86_400.0 == (w.now - m.createdAt) as real
    requires rate == if m.decayFactor >= 0.01 then m.decayFactor else 0.01
    ensures var c := Scored(w, req, hit, m); var d := c.breakdown;
      && c.id == hit.id && c.model == m
      && (0.0 <= hit.score <= 1.0 ==> d.semantic == hit.score)
      && d.temporal == Ranking.Min(1.0, m.importance * w.functions.exp(-rate * age))
      && (0.0 <= m.importance <= 1.0 ==> d.importance == m.importance)
      && d.reinforcement == w.functions.tanh(m.reinforcement / 10.0)
  {
    DaysOf(w, m, age);
    OverriddenIsPositive(req.alpha, req.beta, req.gamma);
    ForgettingCurve(w.functions, hit.score, m.importance, m.reinforcement, m.decayFactor, age,
                    Overridden(req.alpha, req.beta, req.gamma), rate);
  }

  lemma DaysOf(w: World, m: Model, age: real)
    requires age * 86_400.0 == (w.now - m.createdAt) as real
    ensures AgeDays(w.now, m.createdAt) == age
  {
    assert AgeDays(w.now, m.createdAt) * 86_400.0 == (w.now - m.createdAt) as real;
  }

  /** And the score weighs the components as the request asks, or by 0.4, 0.3 and 0.2; reinforcement by 0.1. */
  lemma ScoredWeighs(w: World, req: Request, hit: Hit, m: Model, a: real, b: real, g: real)
    requires a == (if req.alpha > 0.0 then req.alpha else 0.4) && b == (if req.beta > 0.0 then req.beta else 0.3)
    requires g == if req.gamma > 0.0 then req.gamma else 0.2
    ensures var c := Scored(w, req, hit, m); var d := c.breakdown;
      Weighs(c.score, d.semantic, d.temporal, d.importance, d.reinforcement, a, b, g)
  {
    RequestedScore(w.functions, hit.score, m.importance, m.reinforcement, m.decayFactor, AgeDays(w.now, m.createdAt),
                   req.alpha, req.beta, req.gamma, a, b, g);
  }

  /** The layers by their conditions: each name exactly when. */
  lemma LayerExactly(now: int, m: Model)
    ensures var layer := DetermineLayer(now, m);
      var working := now - m.lastAccessed < 300 && m.retrievalCount > 0;
      var days := (now - m.createdAt) as real / 86_400.0;
      var strong := m.importance > 0.6 || m.reinforcement > 5.0;
      && (layer == "working" <==> working)
      && (layer == "long_term" <==> !working && days >= 30.0 && strong)
      && (layer == "archive" <==> !working && days > 90.0 && m.importance < 0.3 && m.reinforcement <= 5.0)
      && (layer == "episodic" <==> !working && (days < 30.0 || (!strong && (days <= 90.0 || m.importance >= 0.3))))
  {
  }

  /** How often the leading candidates mention a memory; never, without a graph. */
  function MentionCount(w: World, req: Request, hits: seq<Hit>, id: string): nat {
    if w.graph then Mentions(w, TopIDs(FromHits(w, req, hits)), id) else 0
  }

  /** A hit as it is merged: 0.05 more for every mention, on the last listing of its id. */
  ghost predicate IsMergedHit(base: seq<Candidate>, i: nat, mentions: nat, c: Candidate)
    requires i < |base|
  {
    c == base[i].(score := base[i].score + if IsLast(base, i) then 0.05 * mentions as real else 0.0)
  }

  /** A neighbour as it is merged: the memory that was fetched for it, at 0.6 and 0.05 more for every mention. */
  ghost predicate IsMergedNeighbor(w: World, mentions: nat, c: Candidate) {
    mentions > 0 && w.fetch(c.id) == Some(c.model) && c.score == 0.6 + 0.05 * mentions as real
  }

  lemma MentionedBoost(w: World, req: Request, hits: seq<Hit>, boosts: map<string, real>, id: string)
    requires BoostsFor(w, req, hits, boosts)
    ensures id in boosts <==> MentionCount(w, req, hits, id) > 0
    ensures id in boosts ==> boosts[id] == 0.05 * MentionCount(w, req, hits, id) as real
  {
  }

  lemma MergedHit(w: World, req: Request, hits: seq<Hit>, boosts: map<string, real>, order: seq<string>, i: nat)
    requires BoostsFor(w, req, hits, boosts) && Visits(order, boosts.Keys) && i < |FromHits(w, req, hits)|
    ensures var base, cs := FromHits(w, req, hits), Merged(w, FromHits(w, req, hits), boosts, order);
      i < |cs| && IsMergedHit(base, i, MentionCount(w, req, hits, base[i].id), cs[i])
  {
    var base := FromHits(w, req, hits);
    MentionedBoost(w, req, hits, boosts, base[i].id);
    assert base[i] == base[i].(score := base[i].score + 0.0);
  }

  lemma {:induction false} JoinedExactly(w: World, base: seq<Candidate>, boosts: map<string, real>,
                                         order: seq<string>, c: Candidate)
    ensures c in Joined(w, base, boosts, order) <==> c.id in order && c in Joins(w, base, boosts, c.id)
  {
    if order != [] {
      var n := |order| - 1;
      JoinedExactly(w, base, boosts, order[..n], c);
      assert order == order[..n] + [order[n]];
    }
  }

  lemma MergedNeighbor(w: World, req: Request, hits: seq<Hit>, boosts: map<string, real>, order: seq<string>,
                       c: Candidate)
    requires BoostsFor(w, req, hits, boosts) && Visits(order, boosts.Keys)
    requires c in Joined(w, FromHits(w, req, hits), boosts, order)
    ensures !Lists(FromHits(w, req, hits), c.id) && IsMergedNeighbor(w, MentionCount(w, req, hits, c.id), c)
  {
    JoinedExactly(w, FromHits(w, req, hits), boosts, order, c);
    MentionedBoost(w, req, hits, boosts, c.id);
  }

  lemma MentionedJoins(w: World, req: Request, hits: seq<Hit>, boosts: map<string, real>, order: seq<string>,
                       id: string)
    returns (c: Candidate)
    requires BoostsFor(w, req, hits, boosts) && Visits(order, boosts.Keys)
    requires MentionCount(w, req, hits, id) > 0 && !Lists(FromHits(w, req, hits), id) && w.fetch(id).Some?
    ensures c.id == id && c in Joined(w, FromHits(w, req, hits), boosts, order)
  {
    MentionedBoost(w, req, hits, boosts, id);
    c := NeighborOf(w, id, boosts[id], w.fetch(id).value);
    JoinedExactly(w, FromHits(w, req, hits), boosts, order, c);
  }

  /** The hits of a merged list, boosted by their mentions. */
  ghost predicate HoldsHits(w: World, req: Request, hits: seq<Hit>, cs: seq<Candidate>) {
    var base := FromHits(w, req, hits);
    && |cs| == |base|
    && forall i :: 0 <= i < |base| ==> IsMergedHit(base, i, MentionCount(w, req, hits, base[i].id), cs[i])
  }

  /** The mentioned memories that are no hits and can be fetched, and none besides. */
  ghost predicate HoldsNeighbors(w: World, req: Request, hits: seq<Hit>, cs: seq<Candidate>) {
    var base := FromHits(w, req, hits);
    && (forall c :: c in cs ==> !Lists(base, c.id) && IsMergedNeighbor(w, MentionCount(w, req, hits, c.id), c))
    && (forall id :: MentionCount(w, req, hits, id) > 0 && !Lists(base, id) && w.fetch(id).Some? ==>
          exists c :: c in cs && c.id == id)
  }

  /**
   The merged candidates: every hit, boosted by its mentions, then every mentioned memory that is no
   hit and can be fetched.
   */
  lemma MergedExactly(w: World, req: Request, hits: seq<Hit>, boosts: map<string, real>, order: seq<string>)
    requires BoostsFor(w, req, hits, boosts) && Visits(order, boosts.Keys)
    ensures var n, cs := |FromHits(w, req, hits)|, Merged(w, FromHits(w, req, hits), boosts, order);
      |cs| >= n && HoldsHits(w, req, hits, cs[..n]) && HoldsNeighbors(w, req, hits, cs[n..])
  {
    var base, cs := FromHits(w, req, hits), Merged(w, FromHits(w, req, hits), boosts, order);
    forall i | 0 <= i < |base| ensures IsMergedHit(base, i, MentionCount(w, req, hits, base[i].id), cs[..|base|][i]) {
      MergedHit(w, req, hits, boosts, order, i);
    }
    assert cs[|base|..] == Joined(w, base, boosts, order);
    NeighborsJoin(w, req, hits, boosts, order);
  }

  lemma NeighborsJoin(w: World, req: Request, hits: seq<Hit>, boosts: map<string, real>, order: seq<string>)
    requires BoostsFor(w, req, hits, boosts) && Visits(order, boosts.Keys)
    ensures HoldsNeighbors(w, req, hits, Joined(w, FromHits(w, req, hits), boosts, order))
  {
    var base := FromHits(w, req, hits);
    var joined := Joined(w, base, boosts, order);
    forall c | c in joined ensures !Lists(base, c.id) && IsMergedNeighbor(w, MentionCount(w, req, hits, c.id), c) {
      MergedNeighbor(w, req, hits, boosts, order, c);
    }
    forall id | MentionCount(w, req, hits, id) > 0 && !Lists(base, id) && w.fetch(id).Some?
      ensures exists c :: c in joined && c.id == id
    {
      var c := MentionedJoins(w, req, hits, boosts, order, id);
    }
  }

  ghost function Places(ids: seq<string>, id: string): set<nat> {
    set k: nat | k < |ids| && ids[k] == id
  }

  lemma {:induction false} OccurrencesArePlaces(ids: seq<string>, id: string)
    ensures Occurrences(ids, id) == |Places(ids, id)|
  {
    if ids != [] {
      var n := |ids| - 1;
      OccurrencesArePlaces(ids[..n], id);
      assert ids == ids[..n] + [ids[n]];
      assert Places(ids, id) == Places(ids[..n], id) + if ids[n] == id then {n} else {};
    } else {
      assert Places(ids, id) == {};
    }
  }

  /** Where the neighbour lists of `tops` mention `id`: by list and position, a memory's own list apart. */
  ghost function MentionPlaces(w: World, tops: seq<string>, id: string): set<(nat, nat)> {
    set t: nat, k: nat | t < |tops| && tops[t] != id && w.related(tops[t]).Some?
      && k in Places(w.related(tops[t]).value, id) :: (t, k)
  }

  ghost function Row(t: nat, ks: set<nat>): set<(nat, nat)> {
    set k: nat | k in ks :: (t, k)
  }

  lemma {:induction false} RowSize(t: nat, ks: set<nat>)
    ensures |Row(t, ks)| == |ks|
  {
    if ks == {} {
      assert Row(t, ks) == {};
    } else {
      var k :| k in ks;
      RowSize(t, ks - {k});
      assert Row(t, ks) == Row(t, ks - {k}) + {(t, k)} && (t, k) !in Row(t, ks - {k});
    }
  }

  lemma MentionPlacesOneMore(w: World, tops: seq<string>, top: string, id: string)
    ensures MentionPlaces(w, tops + [top], id) == MentionPlaces(w, tops, id)
      + if top == id || w.related(top).None? then {} else Row(|tops|, Places(w.related(top).value, id))
    ensures top != id && w.related(top).Some? ==>
      MentionPlaces(w, tops, id) !! Row(|tops|, Places(w.related(top).value, id))
  {
  }

  /** Mentions are counted one by one, and none counts for the memory that makes it. */
  lemma {:induction false} MentionsArePlaces(w: World, tops: seq<string>, id: string)
    ensures Mentions(w, tops, id) == |MentionPlaces(w, tops, id)|
  {
    if tops == [] {
      assert MentionPlaces(w, tops, id) == {};
    } else {
      var n := |tops| - 1;
      MentionsArePlaces(w, tops[..n], id);
      MentionPlacesOneMore(w, tops[..n], tops[n], id);
      assert tops == tops[..n] + [tops[n]];
      if tops[n] != id && w.related(tops[n]).Some? {
        OccurrencesArePlaces(w.related(tops[n]).value, id);
        RowSize(n, Places(w.related(tops[n]).value, id));
      }
    }
  }

  // ----- That it is the only such list -----

  ghost predicate DistinctHits(hits: seq<Hit>) {
    forall i, j :: 0 <= i < j < |hits| ==> hits[i].id != hits[j].id
  }

  ghost predicate DistinctCandidates(cs: seq<Candidate>) {
    forall i, j :: 0 <= i < j < |cs| ==> cs[i].id != cs[j].id
  }

  lemma {:induction false} DistinctFromHits(w: World, req: Request, hits: seq<Hit>, k: nat)
    requires DistinctHits(hits) && k <= |hits|
    ensures DistinctCandidates(FlatMap(HitScorer(w, req), hits, k))
    ensures forall c :: c in FlatMap(HitScorer(w, req), hits, k) ==> exists i :: 0 <= i < k && hits[i].id == c.id
  {
    if k > 0 {
      DistinctFromHits(w, req, hits, k - 1);
      var before, last := FlatMap(HitScorer(w, req), hits, k - 1), FromHit(w, req, hits[k - 1]);
      assert FlatMap(HitScorer(w, req), hits, k) == before + last;
      forall c | c in before ensures c.id != hits[k - 1].id {
        var i :| 0 <= i < k - 1 && hits[i].id == c.id;
      }
    }
  }

  lemma {:induction false} DistinctJoined(w: World, base: seq<Candidate>, boosts: map<string, real>, order: seq<string>)
    requires forall i, j :: 0 <= i < j < |order| ==> order[i] != order[j]
    ensures DistinctCandidates(Joined(w, base, boosts, order))
  {
    if order != [] {
      var n := |order| - 1;
      DistinctJoined(w, base, boosts, order[..n]);
      JoinedIds(w, base, boosts, order[..n]);
      var before := Joined(w, base, boosts, order[..n]);
      forall i | 0 <= i < |before| ensures before[i].id != order[n] {
        assert before[i] in before && before[i].id in order[..n];
      }
    }
  }

  lemma DistinctMerged(w: World, base: seq<Candidate>, boosts: map<string, real>, order: seq<string>)
    requires DistinctCandidates(base) && Visits(order, boosts.Keys)
    ensures DistinctCandidates(Merged(w, base, boosts, order))
  {
    DistinctJoined(w, base, boosts, order);
    JoinedIds(w, base, boosts, order);
    var boosted, joined := Boosted(base, boosts, boosts.Keys), Joined(w, base, boosts, order);
    forall i, j | 0 <= i < |boosted| && 0 <= j < |joined| ensures boosted[i].id != joined[j].id {
      assert joined[j] in joined && base[i].id == boosted[i].id;
    }
  }

  lemma DistinctRanks(cs: seq<Candidate>)
    requires DistinctCandidates(cs)
    ensures RanksDiffer(RankOf, cs)
  {
    forall c, d | c in cs && d in cs && RankOf(c) == RankOf(d) ensures c == d {
      var i :| 0 <= i < |cs| && cs[i] == c;
      var j :| 0 <= j < |cs| && cs[j] == d;
      assert i == j;
    }
  }

  /** When the search returns each memory once, what Retrieve returns is that top and nothing else. */
  lemma RetrievedExactly(w: World, req: Request, hits: seq<Hit>, final: seq<Candidate>)
    requires DistinctHits(hits)
    ensures IsRetrieved(w, req, hits, final) <==> IsTopOfMerged(w, req, hits, final)
  {
    if IsRetrieved(w, req, hits, final) {
      RetrievedIsTop(w, req, hits, final);
    }
    if IsTopOfMerged(w, req, hits, final) {
      var boosts, order :|
        && BoostsFor(w, req, hits, boosts) && Visits(order, boosts.Keys)
        && IsTopOf(ContentKey(w), RankOf, Precedes, Merged(w, FromHits(w, req, hits), boosts, order), Limit(req),
                   final);
      TopIsPipeline(w, req, hits, boosts, order, final);
      OneOrderIsEnough(w, req, hits, boosts, order, final);
    }
  }

  lemma TopIsPipeline(w: World, req: Request, hits: seq<Hit>, boosts: map<string, real>, order: seq<string>,
                      final: seq<Candidate>)
    requires DistinctHits(hits) && Visits(order, boosts.Keys)
    requires IsTopOf(ContentKey(w), RankOf, Precedes, Merged(w, FromHits(w, req, hits), boosts, order), Limit(req),
                     final)
    ensures final == Pipeline(w, req, hits, boosts, order)
  {
    var cs := Merged(w, FromHits(w, req, hits), boosts, order);
    DistinctFromHits(w, req, hits, |hits|);
    DistinctMerged(w, FromHits(w, req, hits), boosts, order);
    DistinctRanks(cs);
    PrecedesIsTotalOrder();
    PipelineIsTop(w, req, hits, boosts, order);
    TopIsUnique(ContentKey(w), RankOf, Precedes, cs, Limit(req), final, Pipeline(w, req, hits, boosts, order));
  }

  // ----- Score bounds -----

  /** Importance and reinforcement are never negative in the table. */
  ghost predicate OrdinaryModels(w: World) {
    forall id :: w.hydrate(id).Some? ==>
      w.hydrate(id).value.importance >= 0.0 && w.hydrate(id).value.reinforcement >= 0.0
  }

  /** The graph returns each neighbour of a memory once. */
  ghost predicate DistinctNeighbors(w: World) {
    forall id :: w.related(id).Some? ==> forall i, j :: 0 <= i < j < |w.related(id).value| ==>
      w.related(id).value[i] != w.related(id).value[j]
  }

  lemma {:induction false} DistinctOccurrences(ids: seq<string>, id: string)
    requires forall i, j :: 0 <= i < j < |ids| ==> ids[i] != ids[j]
    ensures Occurrences(ids, id) <= 1
  {
    if ids != [] {
      var n := |ids| - 1;
      DistinctOccurrences(ids[..n], id);
      assert ids == ids[..n] + [ids[n]];
      if id in ids[..n] {
        assert id != ids[n];
      }
    }
  }

  lemma {:induction false} MentionsBounded(w: World, tops: seq<string>, id: string)
    requires DistinctNeighbors(w)
    ensures Mentions(w, tops, id) <= |tops|
  {
    if tops != [] {
      var n := |tops| - 1;
      MentionsBounded(w, tops[..n], id);
      if w.related(tops[n]).Some? {
        DistinctOccurrences(w.related(tops[n]).value, id);
      }
    }
  }

  lemma {:induction false} HitScoresTo(w: World, req: Request, hits: seq<Hit>, k: nat)
    requires Sound(w.functions) && OrdinaryModels(w) && k <= |hits|
    ensures forall c :: c in FlatMap(HitScorer(w, req), hits, k) ==> 0.0 <= c.score <= 1.0
  {
    if k > 0 {
      HitScoresTo(w, req, hits, k - 1);
      if w.hydrate(hits[k - 1].id).Some? {
        HitScore(w, req, hits[k - 1], w.hydrate(hits[k - 1].id).value);
      }
    }
  }

  lemma HitScores(w: World, req: Request, hits: seq<Hit>)
    requires Sound(w.functions) && OrdinaryModels(w)
    ensures forall c :: c in FromHits(w, req, hits) ==> 0.0 <= c.score <= 1.0
  {
    HitScoresTo(w, req, hits, |hits|);
  }

  lemma HitScore(w: World, req: Request, hit: Hit, m: Model)
    requires Sound(w.functions) && m.importance >= 0.0 && m.reinforcement >= 0.0
    ensures 0.0 <= Scored(w, req, hit, m).score <= 1.0
  {
    OverriddenIsPositive(req.alpha, req.beta, req.gamma);
    ScoreInUnitInterval(w.functions, hit.score, m.importance, m.reinforcement, m.decayFactor,
                        AgeDays(w.now, m.createdAt), Overridden(req.alpha, req.beta, req.gamma));
  }

  lemma {:induction false} JoinedScores(w: World, base: seq<Candidate>, boosts: map<string, real>, order: seq<string>)
    requires forall id :: id in boosts ==> 0.0 <= boosts[id] <= 0.25
    ensures forall c :: c in Joined(w, base, boosts, order) ==> 0.0 <= c.score <= 0.85
  {
    if order != [] {
      JoinedScores(w, base, boosts, order[..|order| - 1]);
    }
  }

  /** No candidate scores above 1.25: a hit at most 1, plus one boost for each of the five first. */
  lemma ScoresBounded(w: World, req: Request, hits: seq<Hit>, boosts: map<string, real>, order: seq<string>)
    requires Sound(w.functions) && OrdinaryModels(w) && DistinctNeighbors(w)
    requires BoostsFor(w, req, hits, boosts)
    ensures forall c :: c in Merged(w, FromHits(w, req, hits), boosts, order) ==> 0.0 <= c.score <= 1.25
  {
    var base := FromHits(w, req, hits);
    HitScores(w, req, hits);
    forall id | id in boosts ensures 0.0 <= boosts[id] <= 0.25 {
      MentionsBounded(w, TopIDs(base), id);
    }
    JoinedScores(w, base, boosts, order);
    var boosted := Boosted(base, boosts, boosts.Keys);
    forall i | 0 <= i < |boosted| ensures 0.0 <= boosted[i].score <= 1.25 {
      assert base[i] in base;
    }
  }
}
