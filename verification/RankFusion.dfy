/** Reciprocal rank fusion of the vector and full-text result lists. */
module RankFusion {

  type Id = nat

  datatype Chunk = Chunk(id: Id, content: string)

  /** A chunk found at a (1-based) rank of one of the lists. */
  datatype Hit = Hit(chunk: Chunk, rank: nat)

  datatype Entry = Entry(chunk: Chunk, score: real)

  datatype Scored = Scored(chunk: Chunk, score: real, rank: nat)

  const RANK_CONSTANT := 60

  function Reciprocal(rank: nat): real {
    1.0 / (RANK_CONSTANT + rank) as real
  }

  function Hits(list: seq<Chunk>): seq<Hit> {
    seq(|list|, i requires 0 <= i < |list| => Hit(list[i], i + 1))
  }

  /** Everything found, in the order the two loops meet it. */
  function AllHits(vec: seq<Chunk>, ft: seq<Chunk>): seq<Hit> {
    Hits(vec) + Hits(ft)
  }

  function Total(hits: seq<Hit>, id: Id): real
    decreases |hits|
  {
    if hits == [] then 0.0
    else
      var h := hits[|hits| - 1];
      Total(hits[..|hits| - 1], id) + if h.chunk.id == id then Reciprocal(h.rank) else 0.0
  }

  predicate Found(hits: seq<Hit>, id: Id) {
    exists i :: 0 <= i < |hits| && hits[i].chunk.id == id
  }

  /** Where `id` is first met. */
  function First(hits: seq<Hit>, id: Id): (i: nat)
    requires Found(hits, id)
    ensures i < |hits| && hits[i].chunk.id == id
    ensures forall j :: 0 <= j < i ==> hits[j].chunk.id != id
    decreases |hits|
  {
    if Found(hits[..|hits| - 1], id) then First(hits[..|hits| - 1], id) else |hits| - 1
  }

  /** `a` outranks `b`: a higher score, or the same score and met earlier. */
  predicate Ahead(hits: seq<Hit>, a: Id, b: Id)
    requires Found(hits, a) && Found(hits, b)
  {
    Total(hits, a) > Total(hits, b) || (Total(hits, a) == Total(hits, b) && First(hits, a) < First(hits, b))
  }

  // ----- the stable descending sort -----

  function Insert(sorted: seq<Entry>, x: Entry): seq<Entry>
    decreases |sorted|
  {
    if sorted != [] && sorted[|sorted| - 1].score < x.score
    then Insert(sorted[..|sorted| - 1], x) + [sorted[|sorted| - 1]]
    else sorted + [x]
  }

  function Sort(s: seq<Entry>): seq<Entry>
    decreases |s|
  {
    if s == [] then [] else Insert(Sort(s[..|s| - 1]), s[|s| - 1])
  }

  predicate Before(position: Entry -> int, x: Entry, y: Entry) {
    x.score > y.score || (x.score == y.score && position(x) < position(y))
  }

  ghost predicate SortedBy(position: Entry -> int, s: seq<Entry>) {
    forall i, j :: 0 <= i < j < |s| ==> Before(position, s[i], s[j])
  }

  lemma {:induction false} InsertKeeps(s: seq<Entry>, x: Entry)
    ensures multiset(Insert(s, x)) == multiset(s) + multiset{x}
    ensures forall y :: y in Insert(s, x) <==> y in s || y == x
    decreases |s|
  {
    if s != [] && s[|s| - 1].score < x.score {
      InsertKeeps(s[..|s| - 1], x);
      assert s == s[..|s| - 1] + [s[|s| - 1]];
    }
  }

  lemma SortedSnoc(position: Entry -> int, s: seq<Entry>, x: Entry)
    requires SortedBy(position, s) && forall y :: y in s ==> Before(position, y, x)
    ensures SortedBy(position, s + [x])
  {
  }

  lemma {:induction false} InsertSorts(position: Entry -> int, s: seq<Entry>, x: Entry)
    requires SortedBy(position, s) && forall y :: y in s ==> position(y) < position(x)
    ensures SortedBy(position, Insert(s, x))
    decreases |s|
  {
    if s != [] && s[|s| - 1].score < x.score {
      var init, last := s[..|s| - 1], s[|s| - 1];
      InsertKeeps(init, x);
      InsertSorts(position, init, x);
      forall y | y in init
        ensures Before(position, y, last)
      {
        var i :| 0 <= i < |init| && init[i] == y;
        assert s[i] == y;
      }
      SortedSnoc(position, Insert(init, x), last);
    } else {
      forall y | y in s
        ensures Before(position, y, x)
      {
        var i :| 0 <= i < |s| && s[i] == y;
        assert i == |s| - 1 || Before(position, y, s[|s| - 1]);
      }
      SortedSnoc(position, s, x);
    }
  }

  lemma {:induction false} SortKeeps(s: seq<Entry>)
    ensures multiset(Sort(s)) == multiset(s)
    ensures forall y :: y in Sort(s) <==> y in s
    decreases |s|
  {
    if s == [] {
    } else {
      SortKeeps(s[..|s| - 1]);
      InsertKeeps(Sort(s[..|s| - 1]), s[|s| - 1]);
      assert s == s[..|s| - 1] + [s[|s| - 1]];
    }
  }

  /** The sort keeps the entries, puts higher scores first and leaves ties in place. */
  lemma {:induction false} SortIsStable(position: Entry -> int, s: seq<Entry>)
    requires forall i, j :: 0 <= i < j < |s| ==> position(s[i]) < position(s[j])
    ensures SortedBy(position, Sort(s)) && multiset(Sort(s)) == multiset(s)
    decreases |s|
  {
    SortKeeps(s);
    if s == [] {
    } else {
      var init, last := s[..|s| - 1], s[|s| - 1];
      SortIsStable(position, init);
      SortKeeps(init);
      assert forall i :: 0 <= i < |init| ==> position(init[i]) < position(last);
      hide SortedBy;
      hide Insert;
      InsertSorts(position, Sort(init), last);
    }
  }

  // ----- accumulating the scores -----

  /** The map has exactly the ids met so far, each with its first chunk and its total. */
  ghost predicate Tallied(hits: seq<Hit>, entries: map<Id, Entry>) {
    && (forall id :: id in entries <==> Found(hits, id))
    && (forall id :: id in entries ==> entries[id] == Entry(hits[First(hits, id)].chunk, Total(hits, id)))
  }

  /** `order` lists each id once, by first meeting. */
  ghost predicate FirstMet(hits: seq<Hit>, order: seq<Id>) {
    && (forall id :: id in order <==> Found(hits, id))
    && (forall i, j :: 0 <= i < j < |order| ==>
          Found(hits, order[i]) && Found(hits, order[j]) && First(hits, order[i]) < First(hits, order[j]))
  }

  ghost predicate Tally(hits: seq<Hit>, order: seq<Id>, entries: map<Id, Entry>) {
    Tallied(hits, entries) && FirstMet(hits, order)
  }

  lemma FoundSnoc(hits: seq<Hit>, h: Hit)
    ensures forall id :: Found(hits + [h], id) <==> Found(hits, id) || id == h.chunk.id
    ensures forall id :: Found(hits, id) ==> Found(hits + [h], id) && First(hits + [h], id) == First(hits, id)
    ensures !Found(hits, h.chunk.id) ==> Found(hits + [h], h.chunk.id) && First(hits + [h], h.chunk.id) == |hits|
    ensures forall id :: Total(hits + [h], id) == Total(hits, id) + if h.chunk.id == id then Reciprocal(h.rank) else 0.0
  {
    var longer := hits + [h];
    assert longer[..|hits|] == hits && longer[|hits|] == h;
    forall id
      ensures Found(longer, id) <==> Found(hits, id) || id == h.chunk.id
      ensures Found(hits, id) ==> Found(longer, id) && First(longer, id) == First(hits, id)
    {
      if Found(hits, id) {
        var i :| 0 <= i < |hits| && hits[i].chunk.id == id;
        assert longer[i].chunk.id == id;
      }
    }
  }

  lemma TalliedAdd(hits: seq<Hit>, entries: map<Id, Entry>, h: Hit)
    requires Tallied(hits, entries)
    ensures var id := h.chunk.id;
            var e := if id in entries then entries[id] else Entry(h.chunk, 0.0);
            Tallied(hits + [h], entries[id := Entry(e.chunk, e.score + Reciprocal(h.rank))])
  {
    hide Found;
    hide First;
    hide Total;
    FoundSnoc(hits, h);
    if !Found(hits, h.chunk.id) {
      NotFoundTotal(hits, h.chunk.id);
    }
  }

  lemma FirstMetAdd(hits: seq<Hit>, order: seq<Id>, h: Hit)
    requires FirstMet(hits, order)
    ensures FirstMet(hits + [h], if Found(hits, h.chunk.id) then order else order + [h.chunk.id])
  {
    hide Found;
    hide First;
    hide Total;
    FoundSnoc(hits, h);
    assert forall i :: 0 <= i < |order| ==> order[i] in order;
  }

  lemma TallyAdd(hits: seq<Hit>, order: seq<Id>, entries: map<Id, Entry>, h: Hit)
    requires Tally(hits, order, entries)
    ensures var id := h.chunk.id;
            var e := if id in entries then entries[id] else Entry(h.chunk, 0.0);
            Tally(hits + [h], if id in entries then order else order + [id],
                  entries[id := Entry(e.chunk, e.score + Reciprocal(h.rank))])
  {
    hide First;
    hide Total;
    TalliedAdd(hits, entries, h);
    FirstMetAdd(hits, order, h);
    assert h.chunk.id in entries <==> Found(hits, h.chunk.id);
  }

  lemma {:induction false} NotFoundTotal(hits: seq<Hit>, id: Id)
    requires !Found(hits, id)
    ensures Total(hits, id) == 0.0
    decreases |hits|
  {
    if hits == [] {
    } else {
      NotFoundTotal(hits[..|hits| - 1], id);
    }
  }

  /** One of the two accumulation loops. */
  method Accumulate(ghost hits: seq<Hit>, list: seq<Chunk>, order: seq<Id>, entries: map<Id, Entry>)
    returns (order': seq<Id>, entries': map<Id, Entry>)
    requires Tally(hits, order, entries)
    ensures Tally(hits + Hits(list), order', entries')
  {
    hide *;
    order', entries' := order, entries;
    HitsPrefix(hits, list, 0);
    for idx := 0 to |list|
      invariant Tally(hits + Prefix(list, idx), order', entries')
    {
      var chunk := list[idx];
      var rank := idx + 1;
      HitsPrefix(hits, list, idx);
      TallyAdd(hits + Prefix(list, idx), order', entries', Hit(chunk, rank));
      ghost var before := entries';
      if chunk.id !in entries' {
        entries' := entries'[chunk.id := Entry(chunk, 0.0)];
        order' := order' + [chunk.id];
      }
      var e := entries'[chunk.id];
      entries' := entries'[chunk.id := Entry(e.chunk, e.score + Reciprocal(rank))];
      assert entries' == before[chunk.id := Entry(e.chunk, e.score + Reciprocal(rank))];
    }
  }

  ghost function Prefix(list: seq<Chunk>, n: nat): seq<Hit>
    requires n <= |list|
  {
    Hits(list)[..n]
  }

  lemma HitsPrefix(hits: seq<Hit>, list: seq<Chunk>, n: nat)
    requires n <= |list|
    ensures hits + Prefix(list, 0) == hits && Prefix(list, |list|) == Hits(list)
    ensures n < |list| ==> hits + Prefix(list, n) + [Hit(list[n], n + 1)] == hits + Prefix(list, n + 1)
  {
  }

  // ----- the fused result -----

  function Ids(hits: seq<Hit>): set<Id> {
    set i | 0 <= i < |hits| :: hits[i].chunk.id
  }

  /** The best `k` ids, best first, each with its exact total and its rank, and nothing left out
      that outranks anything returned. */
  ghost predicate IsFusion(hits: seq<Hit>, k: nat, results: seq<Scored>) {
    && |results| == (if k < |Ids(hits)| then k else |Ids(hits)|)
    && (forall i :: 0 <= i < |results| ==>
          && Found(hits, results[i].chunk.id)
          && results[i] == Scored(hits[First(hits, results[i].chunk.id)].chunk,
                                  Total(hits, results[i].chunk.id), i + 1))
    && (forall i, j :: 0 <= i < j < |results| ==> Ahead(hits, results[i].chunk.id, results[j].chunk.id))
    && (forall id, i :: Found(hits, id) && 0 <= i < |results| && !Returned(results, id) ==>
          Ahead(hits, results[i].chunk.id, id))
  }

  predicate Returned(results: seq<Scored>, id: Id) {
    exists i :: 0 <= i < |results| && results[i].chunk.id == id
  }

  function Values(order: seq<Id>, entries: map<Id, Entry>): seq<Entry>
    requires forall id :: id in order ==> id in entries
  {
    seq(|order|, i requires 0 <= i < |order| => assert order[i] in order; entries[order[i]])
  }

  ghost function Position(hits: seq<Hit>): Entry -> int {
    (e: Entry) => if Found(hits, e.chunk.id) then First(hits, e.chunk.id) else 0
  }

  /** The sorted entries list every id once, each ahead of all later ones. */
  ghost predicate Ranking(hits: seq<Hit>, sorted: seq<Entry>) {
    && |sorted| == |Ids(hits)|
    && (forall i :: 0 <= i < |sorted| ==>
          && Found(hits, sorted[i].chunk.id)
          && sorted[i] == Entry(hits[First(hits, sorted[i].chunk.id)].chunk, Total(hits, sorted[i].chunk.id)))
    && (forall i, j :: 0 <= i < j < |sorted| ==> Ahead(hits, sorted[i].chunk.id, sorted[j].chunk.id))
    && (forall id :: Found(hits, id) ==> exists i :: 0 <= i < |sorted| && sorted[i].chunk.id == id)
  }

  lemma OrderCount(hits: seq<Hit>, order: seq<Id>)
    requires FirstMet(hits, order)
    ensures |order| == |Ids(hits)|
  {
    assert Elements(order) == Ids(hits) by {
      forall id
        ensures id in Ids(hits) <==> Found(hits, id)
      {
      }
    }
    DistinctCount(order);
  }

  ghost function Elements(order: seq<Id>): set<Id> {
    set id | id in order
  }

  lemma {:induction false} DistinctCount(order: seq<Id>)
    requires forall i, j :: 0 <= i < j < |order| ==> order[i] != order[j]
    ensures |Elements(order)| == |order|
    decreases |order|
  {
    if order == [] {
    } else {
      var init, last := order[..|order| - 1], order[|order| - 1];
      DistinctCount(init);
      assert last !in init;
      assert forall id :: id in order <==> id in init || id == last;
      assert Elements(order) == Elements(init) + {last};
    }
  }

  /** The entry of an id that was met: its first chunk and its total. */
  ghost predicate EntryFor(hits: seq<Hit>, e: Entry) {
    Found(hits, e.chunk.id) && e == Entry(hits[First(hits, e.chunk.id)].chunk, Total(hits, e.chunk.id))
  }

  lemma ValuesInOrder(hits: seq<Hit>, order: seq<Id>, entries: map<Id, Entry>)
    requires Tally(hits, order, entries)
    ensures var fused := Values(order, entries);
            && (forall i :: 0 <= i < |fused| ==> fused[i].chunk.id == order[i] && EntryFor(hits, fused[i]))
            && (forall i, j :: 0 <= i < j < |fused| ==> Position(hits)(fused[i]) < Position(hits)(fused[j]))
            && (forall id :: Found(hits, id) ==> exists e :: e in fused && e.chunk.id == id)
  {
    var fused := Values(order, entries);
    forall i | 0 <= i < |fused|
      ensures fused[i].chunk.id == order[i] && EntryFor(hits, fused[i])
    {
      assert order[i] in order;
    }
    forall id | Found(hits, id)
      ensures exists e :: e in fused && e.chunk.id == id
    {
      var j :| 0 <= j < |order| && order[j] == id;
      assert fused[j] in fused;
    }
  }

  /** What holds of the entries in one order holds of them in another. */
  lemma SameEntries(hits: seq<Hit>, fused: seq<Entry>, sorted: seq<Entry>)
    requires forall e :: e in sorted <==> e in fused
    requires forall e :: e in fused ==> EntryFor(hits, e)
    requires forall id :: Found(hits, id) ==> exists e :: e in fused && e.chunk.id == id
    ensures forall i :: 0 <= i < |sorted| ==> EntryFor(hits, sorted[i])
    ensures forall id :: Found(hits, id) ==> exists i :: 0 <= i < |sorted| && sorted[i].chunk.id == id
  {
    hide EntryFor;
    hide Found;
    forall id | Found(hits, id)
      ensures exists i :: 0 <= i < |sorted| && sorted[i].chunk.id == id
    {
      var e :| e in fused && e.chunk.id == id;
      assert e in sorted;
    }
  }

  lemma SortedAhead(hits: seq<Hit>, sorted: seq<Entry>, i: nat, j: nat)
    requires SortedBy(Position(hits), sorted) && i < j < |sorted|
    requires EntryFor(hits, sorted[i]) && EntryFor(hits, sorted[j])
    ensures Ahead(hits, sorted[i].chunk.id, sorted[j].chunk.id)
  {
    hide Total;
    hide First;
    assert Before(Position(hits), sorted[i], sorted[j]);
  }

  lemma SortedByPosition(hits: seq<Hit>, order: seq<Id>, entries: map<Id, Entry>)
    requires Tally(hits, order, entries)
    ensures var fused := Values(order, entries);
            && SortedBy(Position(hits), Sort(fused)) && |Sort(fused)| == |fused|
            && forall e :: e in Sort(fused) <==> e in fused
  {
    var fused := Values(order, entries);
    hide Sort;
    hide Total;
    hide SortedBy;
    ValuesInOrder(hits, order, entries);
    SortIsStable(Position(hits), fused);
    SortKeeps(fused);
    assert |Sort(fused)| == |multiset(Sort(fused))| == |multiset(fused)| == |fused|;
  }

  lemma SortedValues(hits: seq<Hit>, order: seq<Id>, entries: map<Id, Entry>)
    requires Tally(hits, order, entries)
    ensures Ranking(hits, Sort(Values(order, entries)))
  {
    hide Sort;
    hide SortedBy;
    hide Ahead;
    hide Position;
    var fused := Values(order, entries);
    var sorted := Sort(fused);
    ValuesInOrder(hits, order, entries);
    SortedByPosition(hits, order, entries);
    OrderCount(hits, order);
    SameEntries(hits, fused, sorted);
    forall i, j | 0 <= i < j < |sorted|
      ensures Ahead(hits, sorted[i].chunk.id, sorted[j].chunk.id)
    {
      SortedAhead(hits, sorted, i, j);
    }
  }

  /** `hybrid_search` after the two searches. */
  method Fuse(vec: seq<Chunk>, ft: seq<Chunk>, k: nat) returns (results: seq<Scored>)
    ensures IsFusion(AllHits(vec, ft), k, results)
  {
    hide *;
    var order: seq<Id>, entries: map<Id, Entry> := [], map[];
    NothingMet(vec, ft);
    order, entries := Accumulate([], vec, order, entries);
    order, entries := Accumulate(Hits(vec), ft, order, entries);
    ghost var hits := AllHits(vec, ft);
    KeysMet(hits, order, entries);
    var sorted := Sort(Values(order, entries));
    SortedValues(hits, order, entries);
    results := [];
    var top := if k < |sorted| then k else |sorted|;
    for i := 0 to top
      invariant |results| == i
      invariant forall j :: 0 <= j < i ==> results[j] == Scored(sorted[j].chunk, sorted[j].score, j + 1)
    {
      results := results + [Scored(sorted[i].chunk, sorted[i].score, i + 1)];
    }
    TopOfRanking(hits, sorted, k, results);
  }

  lemma NothingMet(vec: seq<Chunk>, ft: seq<Chunk>)
    ensures Tally([], [], map[]) && [] + Hits(vec) == Hits(vec) && AllHits(vec, ft) == Hits(vec) + Hits(ft)
  {
  }

  lemma KeysMet(hits: seq<Hit>, order: seq<Id>, entries: map<Id, Entry>)
    requires Tally(hits, order, entries)
    ensures forall id :: id in order ==> id in entries
  {
  }

  lemma TopOfRanking(hits: seq<Hit>, sorted: seq<Entry>, k: nat, results: seq<Scored>)
    requires Ranking(hits, sorted)
    requires |results| == (if k < |sorted| then k else |sorted|)
    requires forall j :: 0 <= j < |results| ==> results[j] == Scored(sorted[j].chunk, sorted[j].score, j + 1)
    ensures IsFusion(hits, k, results)
  {
    forall id, i | Found(hits, id) && 0 <= i < |results| && !Returned(results, id)
      ensures Ahead(hits, results[i].chunk.id, id)
    {
      assert forall l :: 0 <= l < |results| ==> results[l].chunk.id != id && results[l].chunk == sorted[l].chunk;
      var j :| 0 <= j < |sorted| && sorted[j].chunk.id == id;
    }
  }

  // ----- agreement between the lists -----

  predicate Listed(list: seq<Chunk>, id: Id) {
    exists i :: 0 <= i < |list| && list[i].id == id
  }

  ghost predicate DistinctIds(list: seq<Chunk>) {
    forall i, j :: 0 <= i < j < |list| ==> list[i].id != list[j].id
  }

  lemma {:induction false} TotalAppend(h: seq<Hit>, g: seq<Hit>, id: Id)
    ensures Total(h + g, id) == Total(h, id) + Total(g, id)
    decreases |g|
  {
    if g == [] {
      assert h + g == h;
    } else {
      assert (h + g)[..|h + g| - 1] == h + g[..|g| - 1];
      TotalAppend(h, g[..|g| - 1], id);
    }
  }

  /** In a list without repeats an id scores the reciprocal of its one rank, or nothing. */
  lemma {:induction false} ListScore(list: seq<Chunk>, id: Id)
    requires DistinctIds(list)
    ensures !Listed(list, id) ==> Total(Hits(list), id) == 0.0
    ensures forall i :: 0 <= i < |list| && list[i].id == id ==> Total(Hits(list), id) == Reciprocal(i + 1)
    decreases |list|
  {
    if list == [] {
    } else {
      var init := list[..|list| - 1];
      assert Hits(list)[..|list| - 1] == Hits(init);
      ListScore(init, id);
      if Listed(init, id) {
        var i :| 0 <= i < |init| && init[i].id == id;
        assert list[i].id == id;
      }
    }
  }

  lemma ReciprocalBounds(rank: nat, most: nat)
    requires 1 <= rank <= most
    ensures Reciprocal(most) <= Reciprocal(rank) <= Reciprocal(1)
  {
    InverseMonotone((RANK_CONSTANT + rank) as real, (RANK_CONSTANT + most) as real);
    InverseMonotone((RANK_CONSTANT + 1) as real, (RANK_CONSTANT + rank) as real);
  }

  lemma InverseMonotone(x: real, y: real)
    requires 0.0 < x <= y
    ensures 1.0 / y <= 1.0 / x
  {
    var (a, b) := (1.0 / x, 1.0 / y);
    assert a * x == 1.0 && b * y == 1.0;
    assert b * x <= b * y == a * x;
  }

  lemma OnListScore(list: seq<Chunk>, id: Id, most: nat)
    requires DistinctIds(list) && Listed(list, id) && |list| <= most
    ensures Reciprocal(most) <= Total(Hits(list), id) <= Reciprocal(1)
  {
    var i :| 0 <= i < |list| && list[i].id == id;
    ListScore(list, id);
    ReciprocalBounds(i + 1, most);
  }

  lemma ListedIsFound(vec: seq<Chunk>, ft: seq<Chunk>, id: Id)
    ensures Listed(vec, id) || Listed(ft, id) ==> Found(AllHits(vec, ft), id)
  {
    var hits := AllHits(vec, ft);
    if Listed(vec, id) {
      var i :| 0 <= i < |vec| && vec[i].id == id;
      assert hits[i].chunk.id == id;
    } else if Listed(ft, id) {
      var i :| 0 <= i < |ft| && ft[i].id == id;
      assert hits[|vec| + i].chunk.id == id;
    }
  }

  /** Up to k = 30 (the searches return at most 2k each), a chunk both searches found is ahead of
      any chunk only one of them found. */
  lemma BothBeatOne(vec: seq<Chunk>, ft: seq<Chunk>, k: nat, both: Id, one: Id)
    requires DistinctIds(vec) && DistinctIds(ft) && |vec| <= 2 * k && |ft| <= 2 * k && k <= 30
    requires Listed(vec, both) && Listed(ft, both) && (Listed(vec, one) != Listed(ft, one))
    ensures Total(AllHits(vec, ft), both) > Total(AllHits(vec, ft), one)
  {
    TotalAppend(Hits(vec), Hits(ft), both);
    TotalAppend(Hits(vec), Hits(ft), one);
    OnListScore(vec, both, 60);
    OnListScore(ft, both, 60);
    ListScore(vec, one);
    ListScore(ft, one);
    if Listed(vec, one) {
      OnListScore(vec, one, 60);
    } else {
      OnListScore(ft, one, 60);
    }
  }

  lemma AgreementComesFirst(vec: seq<Chunk>, ft: seq<Chunk>, k: nat, results: seq<Scored>, both: Id, j: nat)
    requires DistinctIds(vec) && DistinctIds(ft) && |vec| <= 2 * k && |ft| <= 2 * k && k <= 30
    requires IsFusion(AllHits(vec, ft), k, results) && j < |results|
    requires Listed(vec, both) && Listed(ft, both)
    requires Listed(vec, results[j].chunk.id) != Listed(ft, results[j].chunk.id)
    ensures exists i :: 0 <= i < j && results[i].chunk.id == both
  {
    var hits := AllHits(vec, ft);
    BothBeatOne(vec, ft, k, both, results[j].chunk.id);
    ListedIsFound(vec, ft, both);
    assert Returned(results, both);
    var i :| 0 <= i < |results| && results[i].chunk.id == both;
    assert i < j;
  }

  /** From k = 31 on it can go the other way: rank 62 on both lists only ties rank 1 on one, and
      the tie goes to the chunk met first. */
  lemma AgreementCanLose(k: nat) returns (vec: seq<Chunk>, ft: seq<Chunk>, both: Id, one: Id)
    requires k >= 31
    ensures DistinctIds(vec) && DistinctIds(ft) && |vec| <= 2 * k && |ft| <= 2 * k
    ensures Listed(vec, both) && Listed(ft, both) && Listed(vec, one) && !Listed(ft, one)
    ensures Found(AllHits(vec, ft), one) && Found(AllHits(vec, ft), both) && Ahead(AllHits(vec, ft), one, both)
  {
    vec := seq(62, i requires 0 <= i < 62 => Chunk(i, ""));
    ft := seq(62, i requires 0 <= i < 62 => Chunk(if i < 61 then 100 + i else 61, ""));
    both, one := 61, 0;
    assert vec[61].id == ft[61].id == both && vec[0].id == one;
    ListScore(vec, both);
    ListScore(ft, both);
    ListScore(vec, one);
    ListScore(ft, one);
    TotalAppend(Hits(vec), Hits(ft), both);
    TotalAppend(Hits(vec), Hits(ft), one);
    ListedIsFound(vec, ft, both);
    ListedIsFound(vec, ft, one);
    var hits := AllHits(vec, ft);
    assert hits[0].chunk.id == one && hits[0].chunk.id != both;
    assert First(hits, one) == 0;
  }

  // ----- the result in terms of the two lists -----

  /** A chunk on both lists scores 1/(60 + rank) for each of its ranks, counted from 1. */
  lemma ScoreOfBoth(vec: seq<Chunk>, ft: seq<Chunk>, k: nat, results: seq<Scored>, i: nat, p: nat, q: nat)
    requires IsFusion(AllHits(vec, ft), k, results) && DistinctIds(vec) && DistinctIds(ft)
    requires i < |results| && p < |vec| && q < |ft| && vec[p].id == ft[q].id == results[i].chunk.id
    ensures results[i].score == 1.0 / (61 + p) as real + 1.0 / (61 + q) as real
    ensures results[i].chunk == vec[p] && results[i].rank == i + 1
  {
    var id := vec[p].id;
    TotalAppend(Hits(vec), Hits(ft), id);
    ListScore(vec, id);
    ListScore(ft, id);
    FirstInVec(vec, ft, p);
  }

  /** And one on a single list for that one. */
  lemma ScoreOfOne(vec: seq<Chunk>, ft: seq<Chunk>, k: nat, results: seq<Scored>, i: nat, p: nat)
    requires IsFusion(AllHits(vec, ft), k, results) && DistinctIds(vec) && DistinctIds(ft) && i < |results|
    requires || (p < |vec| && vec[p].id == results[i].chunk.id && !Listed(ft, vec[p].id))
             || (p < |ft| && ft[p].id == results[i].chunk.id && !Listed(vec, ft[p].id))
    ensures results[i].score == 1.0 / (61 + p) as real && results[i].rank == i + 1
  {
    var id := results[i].chunk.id;
    TotalAppend(Hits(vec), Hits(ft), id);
    ListScore(vec, id);
    ListScore(ft, id);
    hide Hits;
  }

  lemma FirstInVec(vec: seq<Chunk>, ft: seq<Chunk>, p: nat)
    requires DistinctIds(vec) && p < |vec|
    ensures var hits := AllHits(vec, ft);
            Found(hits, vec[p].id) && First(hits, vec[p].id) == p && hits[p].chunk == vec[p]
  {
    var hits := AllHits(vec, ft);
    assert hits[p].chunk == vec[p];
    assert forall j :: 0 <= j < p ==> hits[j].chunk == vec[j];
  }

  /** Scores fall through the result; of two that are equal the one comes first that is met first
      when the vector list is read before the full-text list, and it is returned as found there. */
  lemma ScoresFall(vec: seq<Chunk>, ft: seq<Chunk>, k: nat, results: seq<Scored>, i: nat, j: nat)
    requires IsFusion(AllHits(vec, ft), k, results) && i < j < |results|
    ensures results[i].score >= results[j].score
    ensures exists n :: && 0 <= n < |vec + ft| && (vec + ft)[n] == results[i].chunk
                        && (forall m :: 0 <= m < n ==> (vec + ft)[m].id != results[i].chunk.id)
                        && (results[i].score == results[j].score ==>
                              forall m :: 0 <= m <= n ==> (vec + ft)[m].id != results[j].chunk.id)
  {
    var hits, all := AllHits(vec, ft), vec + ft;
    assert |hits| == |all| && forall m :: 0 <= m < |all| ==> hits[m].chunk == all[m];
    hide Total;
    assert Ahead(hits, results[i].chunk.id, results[j].chunk.id);
    var n := First(hits, results[i].chunk.id);
    assert all[n] == results[i].chunk;
  }

  /** As many are returned as were asked for, or all the different ones there are. */
  lemma FusionSize(vec: seq<Chunk>, ft: seq<Chunk>, k: nat, results: seq<Scored>)
    requires IsFusion(AllHits(vec, ft), k, results)
    ensures var n := |set m | 0 <= m < |vec + ft| :: (vec + ft)[m].id|;
            |results| == if k < n then k else n
  {
    var hits, all := AllHits(vec, ft), vec + ft;
    assert |hits| == |all| && forall m :: 0 <= m < |all| ==> hits[m].chunk == all[m];
    assert Ids(hits) == set m | 0 <= m < |all| :: all[m].id;
  }
}
