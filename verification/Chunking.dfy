/** Assembles retrieval chunks from text units (paragraphs or sentences), each chunk
    opening with a tail of its predecessor. Units are opaque; `tokens` counts the
    tokens of one unit. A chunk is kept as its list of units. */
module Chunking {

  function Sum<U>(tokens: U -> nat, s: seq<U>): nat {
    if s == [] then 0 else tokens(s[0]) + Sum(tokens, s[1..])
  }

  lemma {:induction false} SumAppend<U>(tokens: U -> nat, s: seq<U>, t: seq<U>)
    ensures Sum(tokens, s + t) == Sum(tokens, s) + Sum(tokens, t)
    decreases |s|
  {
    if s == [] {
      assert s + t == t;
    } else {
      SumAppend(tokens, s[1..], t);
      assert (s + t)[1..] == s[1..] + t;
    }
  }

  lemma SumSnoc<U>(tokens: U -> nat, s: seq<U>, u: U)
    ensures Sum(tokens, s + [u]) == Sum(tokens, s) + tokens(u)
  {
    SumAppend(tokens, s, [u]);
    assert Sum(tokens, [u]) == tokens(u) + Sum(tokens, []) by { assert [u][1..] == []; }
  }

  /** The last `k` units of a chunk. */
  function Tail<U>(s: seq<U>, k: nat): seq<U>
    requires k <= |s|
  {
    s[|s| - k..]
  }

  lemma TailGrows<U>(tokens: U -> nat, s: seq<U>, k: nat)
    requires k < |s|
    ensures Sum(tokens, Tail(s, k + 1)) == tokens(s[|s| - 1 - k]) + Sum(tokens, Tail(s, k))
  {
    assert Tail(s, k + 1)[1..] == Tail(s, k);
  }

  lemma {:induction false} LongerTailWeighsMore<U>(tokens: U -> nat, s: seq<U>, k: nat, l: nat)
    requires k <= l <= |s|
    ensures Sum(tokens, Tail(s, k)) <= Sum(tokens, Tail(s, l))
    decreases l - k
  {
    if k < l {
      TailGrows(tokens, s, k);
      LongerTailWeighsMore(tokens, s, k + 1, l);
    }
  }

  /** `k` units is the longest proper tail of `s` within the overlap budget; no budget,
      not even a negative one, forbids the empty tail. */
  ghost predicate LongestOverlap<U>(tokens: U -> nat, overlap: int, s: seq<U>, k: nat) {
    && k < |s|
    && (k == 0 || Sum(tokens, Tail(s, k)) <= overlap)
    && (forall l: nat {:trigger Tail(s, l)} :: k < l < |s| ==> overlap < Sum(tokens, Tail(s, l)))
  }

  /** Walks back over the finished chunk and returns the units the next one repeats. */
  method Overlap<U>(tokens: U -> nat, overlap: int, chunk: seq<U>) returns (units: seq<U>)
    requires chunk != []
    ensures |units| < |chunk| && units == Tail(chunk, |units|)
    ensures LongestOverlap(tokens, overlap, chunk, |units|)
  {
    units := [];
    var count := 0;
    var j := |chunk|;
    while j > 0
      invariant 0 <= j <= |chunk| && units == chunk[j..]
      invariant count == Sum(tokens, units)
      invariant j < |chunk| ==> count <= overlap
    {
      TailGrows(tokens, chunk, |units|);
      var prevTokens := tokens(chunk[j - 1]);
      if count + prevTokens > overlap {
        break;
      }
      units := [chunk[j - 1]] + units;
      count := count + prevTokens;
      j := j - 1;
    }
    forall l: nat | |units| < l < |chunk|
      ensures overlap < Sum(tokens, Tail(chunk, l))
    {
      LongerTailWeighsMore(tokens, chunk, |units| + 1, l);
    }
    if |units| == |chunk| {
      LongerTailWeighsMore(tokens, chunk, |chunk| - 1, |chunk|);
      units := units[1..];
    }
  }

  /** Where a chunk sits in the unit list: units[start..end]. */
  datatype Span = Span(start: nat, end: nat)

  /** One call: the token counter, the two budgets and the units to pack. */
  datatype Job<!U> = Job(tokens: U -> nat, target: int, overlap: int, units: seq<U>) {

    /** The chunk at `sp` is in place, is a single unit or within the target, and could not
        have taken the unit after it. */
    ghost predicate ChunkAt(chunk: seq<U>, sp: Span) {
      && sp.start < sp.end <= |units|
      && chunk == units[sp.start..sp.end]
      && (|chunk| == 1 || Sum(tokens, chunk) <= target)
      && (sp.end < |units| ==> target < Sum(tokens, chunk) + tokens(units[sp.end]))
    }

    /** The next chunk starts after its predecessor starts, no later than it ends, shares with
        it the longest tail the budget allows, and reaches at least as far. */
    ghost predicate Follows(chunk: seq<U>, sp: Span, next: Span) {
      && sp.start < next.start <= sp.end <= next.end
      && sp.end < |units|
      && |chunk| == sp.end - sp.start
      && LongestOverlap(tokens, overlap, chunk, sp.end - next.start)
    }

    ghost predicate Chain(chunks: seq<seq<U>>, spans: seq<Span>) {
      && |spans| == |chunks|
      && (forall j :: 0 <= j < |chunks| ==> ChunkAt(chunks[j], spans[j]))
      && (forall j :: 0 < j < |chunks| ==> Follows(chunks[j - 1], spans[j - 1], spans[j]))
      && (chunks != [] ==> spans[0].start == 0)
    }

    /** A chain that reaches the last unit. */
    ghost predicate Chunked(chunks: seq<seq<U>>, spans: seq<Span>) {
      && Chain(chunks, spans)
      && if chunks == [] then units == [] else spans[|spans| - 1].end == |units|
    }
  }

  function Skip<U>(s: seq<U>, k: int): seq<U> {
    if 0 <= k <= |s| then s[k..] else []
  }

  /** The first `n` chunks, each without the opening it shares with its predecessor, joined up. */
  function Rebuild<U>(chunks: seq<seq<U>>, spans: seq<Span>, n: nat): seq<U>
    requires n <= |chunks| == |spans|
  {
    if n == 0 then []
    else if n == 1 then chunks[0]
    else Rebuild(chunks, spans, n - 1) + Skip(chunks[n - 1], spans[n - 2].end - spans[n - 1].start)
  }

  lemma ChainFacts<U>(job: Job<U>, chunks: seq<seq<U>>, spans: seq<Span>, j: nat)
    requires job.Chain(chunks, spans) && j < |chunks|
    ensures spans[j].start < spans[j].end <= |job.units|
    ensures chunks[j] == job.units[spans[j].start..spans[j].end]
    ensures j == 0 ==> spans[j].start == 0
    ensures j > 0 ==> spans[j - 1].start < spans[j].start <= spans[j - 1].end <= spans[j].end
    ensures j + 1 < |chunks| ==> spans[j].end < |job.units|
  {
    assert job.ChunkAt(chunks[j], spans[j]);
    if j > 0 {
      assert job.Follows(chunks[j - 1], spans[j - 1], spans[j]);
    }
    if j + 1 < |chunks| {
      assert job.Follows(chunks[j], spans[j], spans[j + 1]);
    }
  }

  lemma RebuildStep<U>(units: seq<U>, chunks: seq<seq<U>>, spans: seq<Span>, n: nat)
    requires 1 < n <= |chunks| == |spans|
    requires spans[n - 1].start <= spans[n - 2].end <= spans[n - 1].end <= |units|
    requires chunks[n - 1] == units[spans[n - 1].start..spans[n - 1].end]
    requires Rebuild(chunks, spans, n - 1) == units[..spans[n - 2].end]
    ensures Rebuild(chunks, spans, n) == units[..spans[n - 1].end]
  {
    var a, b, c := spans[n - 1].start, spans[n - 2].end, spans[n - 1].end;
    assert units[a..c][b - a..] == units[b..c];
    assert units[..b] + units[b..c] == units[..c];
  }

  /** No unit is lost, reordered or, once the overlaps are dropped, repeated. */
  lemma {:induction false} RebuildGivesPrefix<U>(job: Job<U>, chunks: seq<seq<U>>, spans: seq<Span>, n: nat)
    requires job.Chain(chunks, spans) && 0 < n <= |chunks|
    ensures spans[n - 1].end <= |job.units| && Rebuild(chunks, spans, n) == job.units[..spans[n - 1].end]
  {
    ChainFacts(job, chunks, spans, n - 1);
    if n > 1 {
      RebuildGivesPrefix(job, chunks, spans, n - 1);
      RebuildStep(job.units, chunks, spans, n);
    }
  }

  lemma RebuildGivesUnits<U>(job: Job<U>, chunks: seq<seq<U>>, spans: seq<Span>)
    requires job.Chunked(chunks, spans)
    ensures Rebuild(chunks, spans, |chunks|) == job.units
  {
    if chunks != [] {
      RebuildGivesPrefix(job, chunks, spans, |chunks|);
    }
  }

  /** Starts strictly increase, so there is at most one chunk per unit. */
  lemma {:induction false} ChunkStartsIncrease<U>(job: Job<U>, chunks: seq<seq<U>>, spans: seq<Span>, i: nat, j: nat)
    requires job.Chain(chunks, spans) && i <= j < |chunks|
    ensures spans[i].start + (j - i) <= spans[j].start < |job.units|
  {
    ChainFacts(job, chunks, spans, j);
    if i < j {
      ChunkStartsIncrease(job, chunks, spans, i, j - 1);
    }
  }

  lemma AtMostOneChunkPerUnit<U>(job: Job<U>, chunks: seq<seq<U>>, spans: seq<Span>)
    requires job.Chain(chunks, spans)
    ensures |chunks| <= |job.units|
  {
    if chunks != [] {
      ChunkStartsIncrease(job, chunks, spans, 0, |chunks| - 1);
    }
  }

  lemma SameStartSameEnd<U>(job: Job<U>, c: seq<U>, d: seq<U>, s: Span, t: Span)
    requires job.ChunkAt(c, s) && job.ChunkAt(d, t) && s.start == t.start
    ensures t.end <= s.end
  {
    if s.end < t.end {
      var n := |c| + 1;
      var through := job.units[s.start..s.end + 1];
      assert through == c + [job.units[s.end]];
      assert d[..n] == through && d == d[..n] + d[n..];
      SumSnoc(job.tokens, c, job.units[s.end]);
      SumAppend(job.tokens, d[..n], d[n..]);
    }
  }

  /** The conditions leave nothing open: two chunkings of the same units are the same. */
  lemma {:induction false} SpansAgree<U>(job: Job<U>, chunks: seq<seq<U>>, spans: seq<Span>, chunks': seq<seq<U>>,
          spans': seq<Span>, j: nat)
    requires job.Chain(chunks, spans) && job.Chain(chunks', spans')
    requires j < |chunks| && j < |chunks'|
    ensures spans[j] == spans'[j] && chunks[j] == chunks'[j]
  {
    assert job.ChunkAt(chunks[j], spans[j]) && job.ChunkAt(chunks'[j], spans'[j]);
    if j == 0 {
    } else {
      SpansAgree(job, chunks, spans, chunks', spans', j - 1);
      assert job.Follows(chunks[j - 1], spans[j - 1], spans[j]);
      assert job.Follows(chunks'[j - 1], spans'[j - 1], spans'[j]);
    }
    SameStartSameEnd(job, chunks[j], chunks'[j], spans[j], spans'[j]);
    SameStartSameEnd(job, chunks'[j], chunks[j], spans'[j], spans[j]);
  }

  lemma NoMoreChunks<U>(job: Job<U>, chunks: seq<seq<U>>, spans: seq<Span>, chunks': seq<seq<U>>, spans': seq<Span>)
    requires job.Chunked(chunks, spans) && job.Chunked(chunks', spans')
    ensures |chunks'| <= |chunks|
  {
    var n := |chunks|;
    AtMostOneChunkPerUnit(job, chunks', spans');
    if 0 < n < |chunks'| {
      SpansAgree(job, chunks, spans, chunks', spans', n - 1);
      ChainFacts(job, chunks', spans', n - 1);
    }
  }

  lemma ChunkingUnique<U>(job: Job<U>, chunks: seq<seq<U>>, spans: seq<Span>, chunks': seq<seq<U>>, spans': seq<Span>)
    requires job.Chunked(chunks, spans) && job.Chunked(chunks', spans')
    ensures chunks == chunks'
  {
    NoMoreChunks(job, chunks, spans, chunks', spans');
    NoMoreChunks(job, chunks', spans', chunks, spans);
    forall j | 0 <= j < |chunks|
      ensures chunks[j] == chunks'[j]
    {
      SpansAgree(job, chunks, spans, chunks', spans', j);
    }
  }

  /** The buffer holds units[start..i], which continues the chain built so far. */
  ghost predicate Assembling<U>(job: Job<U>, chunks: seq<seq<U>>, spans: seq<Span>, start: int, i: int) {
    && job.Chain(chunks, spans)
    && 0 <= start <= i <= |job.units|
    && (i - start <= 1 || Sum(job.tokens, job.units[start..i]) <= job.target)
    && if chunks == [] then start == 0
       else
         var sp := spans[|spans| - 1];
         && job.Follows(chunks[|chunks| - 1], sp, Span(start, i))
         && (start == i ==> i < |job.units|)
  }

  lemma CloseChunk<U>(job: Job<U>, chunks: seq<seq<U>>, spans: seq<Span>, start: int, i: int)
    requires Assembling(job, chunks, spans, start, i) && start < i
    requires i < |job.units| ==> job.target < Sum(job.tokens, job.units[start..i]) + job.tokens(job.units[i])
    ensures job.Chain(chunks + [job.units[start..i]], spans + [Span(start, i)])
  {
    assert job.ChunkAt(job.units[start..i], Span(start, i));
  }

  lemma OpenChunk<U>(job: Job<U>, chunks: seq<seq<U>>, spans: seq<Span>, start: int, i: int, k: nat)
    requires Assembling(job, chunks, spans, start, i) && start < i < |job.units|
    requires job.target < Sum(job.tokens, job.units[start..i]) + job.tokens(job.units[i])
    requires LongestOverlap(job.tokens, job.overlap, job.units[start..i], k)
    ensures Assembling(job, chunks + [job.units[start..i]], spans + [Span(start, i)], i - k, i)
    ensures Tail(job.units[start..i], k) == job.units[i - k..i]
  {
    hide Sum;
    var chunk := job.units[start..i];
    CloseChunk(job, chunks, spans, start, i);
    LongerTailWeighsMore(job.tokens, chunk, k, |chunk|);
    assert Tail(chunk, k) == job.units[i - k..i] && Tail(chunk, |chunk|) == chunk;
    assert job.Follows(chunk, Span(start, i), Span(i - k, i));
  }

  lemma GrowChunk<U>(job: Job<U>, chunks: seq<seq<U>>, spans: seq<Span>, start: int, i: int)
    requires Assembling(job, chunks, spans, start, i) && i < |job.units|
    requires start == i || Sum(job.tokens, job.units[start..i]) + job.tokens(job.units[i]) <= job.target
    ensures Assembling(job, chunks, spans, start, i + 1)
    ensures job.units[start..i + 1] == job.units[start..i] + [job.units[i]]
    ensures Sum(job.tokens, job.units[start..i + 1]) == Sum(job.tokens, job.units[start..i]) + job.tokens(job.units[i])
  {
    hide job.Chain;
    hide LongestOverlap;
    hide Sum;
    assert job.units[start..i + 1] == job.units[start..i] + [job.units[i]];
    SumSnoc(job.tokens, job.units[start..i], job.units[i]);
  }

  lemma Begin<U>(job: Job<U>)
    ensures Assembling(job, [], [], 0, 0)
    ensures Sum(job.tokens, []) == 0
  {
  }

  lemma Finish<U>(job: Job<U>, chunks: seq<seq<U>>, spans: seq<Span>, start: int)
    requires Assembling(job, chunks, spans, start, |job.units|)
    ensures if start < |job.units|
            then job.Chunked(chunks + [job.units[start..|job.units|]], spans + [Span(start, |job.units|)])
            else job.Chunked(chunks, spans) && chunks == []
  {
    if start < |job.units| {
      CloseChunk(job, chunks, spans, start, |job.units|);
    }
  }

  lemma OversizedIsSingle<U>(job: Job<U>, chunks: seq<seq<U>>, spans: seq<Span>)
    requires job.Chain(chunks, spans)
    ensures forall c :: c in chunks && job.target < Sum(job.tokens, c) ==> |c| == 1
  {
    forall c | c in chunks && job.target < Sum(job.tokens, c)
      ensures |c| == 1
    {
      var j :| 0 <= j < |chunks| && chunks[j] == c;
      assert job.ChunkAt(chunks[j], spans[j]);
    }
  }

  /** The assembly loop. A pass that closes a chunk leaves `i` alone and rewinds the buffer
      instead, so termination is by remaining units and then buffer length. */
  method ChunkText<U>(job: Job<U>) returns (chunks: seq<seq<U>>, ghost spans: seq<Span>, ghost passes: nat)
    ensures job.Chunked(chunks, spans)
    ensures Rebuild(chunks, spans, |chunks|) == job.units
    ensures |chunks| <= |job.units|
    ensures forall c :: c in chunks && job.target < Sum(job.tokens, c) ==> |c| == 1
    ensures passes == if chunks == [] then 0 else |job.units| + |chunks| - 1
  {
    hide *;
    Begin(job);
    chunks, spans, passes := [], [], 0;
    var current: seq<U> := [];
    var currentTokens := 0;
    var i := 0;
    ghost var start := 0;
    while i < |job.units|
      invariant 0 <= start <= i <= |job.units|
      invariant current == job.units[start..i]
      invariant currentTokens == Sum(job.tokens, current)
      invariant Assembling(job, chunks, spans, start, i)
      invariant passes == i + |chunks|
      decreases |job.units| - i, i - start
    {
      var unit := job.units[i];
      var unitTokens := job.tokens(unit);
      if currentTokens + unitTokens > job.target && current != [] {
        var overlapUnits := Overlap(job.tokens, job.overlap, current);
        OpenChunk(job, chunks, spans, start, i, |overlapUnits|);
        chunks, spans, start := chunks + [current], spans + [Span(start, i)], i - |overlapUnits|;
        current := overlapUnits;
        currentTokens := Sum(job.tokens, current);
      } else {
        GrowChunk(job, chunks, spans, start, i);
        current := current + [unit];
        currentTokens := currentTokens + unitTokens;
        i := i + 1;
      }
      passes := passes + 1;
    }
    Finish(job, chunks, spans, start);
    if current != [] {
      chunks, spans := chunks + [current], spans + [Span(start, i)];
    }
    RebuildGivesUnits(job, chunks, spans);
    AtMostOneChunkPerUnit(job, chunks, spans);
    OversizedIsSingle(job, chunks, spans);
  }

  // ----- the budgets at their limits -----

  lemma SumOfPair<U>(tokens: U -> nat, a: U, b: U)
    ensures Sum(tokens, [a]) == tokens(a) && Sum(tokens, [a, b]) == tokens(a) + tokens(b)
  {
    assert [a][1..] == [] && [a, b][1..] == [b] && [b][1..] == [];
    assert Sum(tokens, [b]) == tokens(b);
  }

  /** Two units make one chunk exactly when together they do not exceed the target, and two
      otherwise: a single unit is never repeated. */
  lemma TwoUnits<U>(job: Job<U>, chunks: seq<seq<U>>, spans: seq<Span>, a: U, b: U)
    requires job.units == [a, b] && job.Chunked(chunks, spans)
    ensures chunks == if job.tokens(a) + job.tokens(b) <= job.target then [[a, b]] else [[a], [b]]
  {
    SumOfPair(job.tokens, a, b);
    SumOfPair(job.tokens, b, a);
    if job.tokens(a) + job.tokens(b) <= job.target {
      assert job.units[0..2] == [a, b] && job.ChunkAt([a, b], Span(0, 2));
      ChunkingUnique(job, chunks, spans, [[a, b]], [Span(0, 2)]);
    } else {
      assert job.units[0..1] == [a] && job.ChunkAt([a], Span(0, 1));
      assert job.units[1..2] == [b] && job.ChunkAt([b], Span(1, 2));
      assert job.Follows([a], Span(0, 1), Span(1, 2));
      ChunkingUnique(job, chunks, spans, [[a], [b]], [Span(0, 1), Span(1, 2)]);
    }
  }

  /** Of a chunk of two the last is repeated exactly when it does not exceed the overlap budget. */
  lemma OverlapOfPair<U>(tokens: U -> nat, overlap: int, a: U, b: U, k: nat)
    requires LongestOverlap(tokens, overlap, [a, b], k)
    ensures k == if tokens(b) <= overlap then 1 else 0
  {
    SumOfPair(tokens, b, a);
    assert Tail([a, b], 1) == [b];
  }
}
