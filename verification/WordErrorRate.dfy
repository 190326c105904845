/** The Levenshtein table behind the speech-to-text benchmark's word error rate.
    Edit scripts are sequences of single-word edits, each applied to the list the
    previous one left; the table's last cell is the length of the shortest of them. */
module WordErrorRate {

  type Word = string

  datatype Edit =
    | Insert(at: nat, word: Word)
    | Delete(at: nat)
    | Substitute(at: nat, word: Word)

  predicate Applicable(e: Edit, s: seq<Word>) {
    match e
    case Insert(at, _) => at <= |s|
    case Delete(at) => at < |s|
    case Substitute(at, _) => at < |s|
  }

  function ApplyEdit(e: Edit, s: seq<Word>): seq<Word>
    requires Applicable(e, s)
  {
    match e
    case Insert(at, word) => s[..at] + [word] + s[at..]
    case Delete(at) => s[..at] + s[at + 1..]
    case Substitute(at, word) => s[at := word]
  }

  /** The script turns `s` into `t`. */
  ghost predicate Rewrites(script: seq<Edit>, s: seq<Word>, t: seq<Word>) {
    if script == [] then s == t
    else Applicable(script[0], s) && Rewrites(script[1..], ApplyEdit(script[0], s), t)
  }

  /** `n` edits suffice to turn `s` into `t`, and no fewer do. */
  ghost predicate IsEditDistance(n: int, s: seq<Word>, t: seq<Word>) {
    && (exists script :: Rewrites(script, s, t) && |script| == n)
    && (forall script :: Rewrites(script, s, t) ==> n <= |script|)
  }

  function Init(s: seq<Word>): seq<Word>
    requires s != []
  {
    s[..|s| - 1]
  }

  function Last(s: seq<Word>): Word
    requires s != []
  {
    s[|s| - 1]
  }

  function Min(a: int, b: int): int {
    if a <= b then a else b
  }

  /** The table's recurrence, on the two prefixes a cell stands for. */
  function Distance(r: seq<Word>, h: seq<Word>): nat
    decreases |r| + |h|
  {
    if r == [] then |h|
    else if h == [] then |r|
    else if Last(r) == Last(h) then Distance(Init(r), Init(h))
    else Min(Min(Distance(Init(r), Init(h)) + 1, Distance(r, Init(h)) + 1), Distance(Init(r), h) + 1)
  }

  // ----- the distance function is a metric -----

  /** Dropping the last word of either side moves the distance by at most one. This is
      what makes skipping the two other neighbours on a match harmless. */
  lemma {:induction false} Neighbours(r: seq<Word>, h: seq<Word>)
    ensures r != [] ==> -1 <= Distance(r, h) - Distance(Init(r), h) <= 1
    ensures h != [] ==> -1 <= Distance(r, h) - Distance(r, Init(h)) <= 1
    decreases |r| + |h|
  {
    if r != [] && h != [] {
      Neighbours(Init(r), h);
      Neighbours(r, Init(h));
    }
  }

  lemma {:induction false} DistanceZero(r: seq<Word>, h: seq<Word>)
    ensures Distance(r, h) == 0 <==> r == h
    decreases |r| + |h|
  {
    if r != [] && h != [] && Last(r) == Last(h) {
      DistanceZero(Init(r), Init(h));
      assert r == Init(r) + [Last(r)] && h == Init(h) + [Last(h)];
    }
  }

  lemma {:induction false} DistanceSymmetric(r: seq<Word>, h: seq<Word>)
    ensures Distance(r, h) == Distance(h, r)
    decreases |r| + |h|
  {
    if r != [] && h != [] {
      DistanceSymmetric(Init(r), Init(h));
      DistanceSymmetric(Init(r), h);
      DistanceSymmetric(r, Init(h));
    }
  }

  lemma {:induction false} DistanceBounds(r: seq<Word>, h: seq<Word>)
    ensures |r| - |h| <= Distance(r, h) && |h| - |r| <= Distance(r, h)
    ensures Distance(r, h) <= |r| || Distance(r, h) <= |h|
    decreases |r| + |h|
  {
    if r != [] && h != [] {
      DistanceBounds(Init(r), Init(h));
      DistanceBounds(Init(r), h);
      DistanceBounds(r, Init(h));
    }
  }

  lemma {:induction false} Triangle(x: seq<Word>, y: seq<Word>, z: seq<Word>)
    ensures Distance(x, z) <= Distance(x, y) + Distance(y, z)
    decreases |x| + |y| + |z|
  {
    if x == [] || y == [] || z == [] {
      DistanceBounds(x, y);
      DistanceBounds(y, z);
      DistanceBounds(x, z);
    } else {
      Neighbours(x, z);
      if Last(x) != Last(y) && Distance(x, y) == Distance(Init(x), y) + 1 {
        Triangle(Init(x), y, z);
      } else if Last(y) != Last(z) && Distance(y, z) == Distance(y, Init(z)) + 1 {
        Triangle(x, y, Init(z));
      } else {
        Triangle(x, Init(y), z);
        Triangle(Init(x), Init(y), z);
        Triangle(x, Init(y), Init(z));
        Triangle(Init(x), Init(y), Init(z));
        Neighbours(Init(x), z);
        Neighbours(x, Init(z));
      }
    }
  }

  // ----- no script beats the distance -----

  lemma {:induction false} InsertCostsOne(p: seq<Word>, w: Word, q: seq<Word>)
    ensures Distance(p + q, p + [w] + q) <= 1
    decreases |q|
  {
    if q == [] {
      DistanceZero(p, p);
      Neighbours(p, p + [w]);
      assert p + q == p && p + [w] + q == p + [w] && Init(p + [w]) == p;
    } else {
      InsertCostsOne(p, w, Init(q));
      assert Init(p + q) == p + Init(q) && Init(p + [w] + q) == p + [w] + Init(q);
    }
  }

  lemma {:induction false} SubstituteCostsOne(p: seq<Word>, v: Word, w: Word, q: seq<Word>)
    ensures Distance(p + [v] + q, p + [w] + q) <= 1
    decreases |q|
  {
    if q == [] {
      DistanceZero(p, p);
      assert p + [v] + q == p + [v] && p + [w] + q == p + [w];
      assert Init(p + [v]) == p && Init(p + [w]) == p;
    } else {
      SubstituteCostsOne(p, v, w, Init(q));
      assert Init(p + [v] + q) == p + [v] + Init(q) && Init(p + [w] + q) == p + [w] + Init(q);
    }
  }

  lemma EditCostsOne(e: Edit, s: seq<Word>)
    requires Applicable(e, s)
    ensures Distance(s, ApplyEdit(e, s)) <= 1
  {
    hide Distance;
    var i := e.at;
    match e
    case Insert(_, w) =>
      InsertCostsOne(s[..i], w, s[i..]);
      assert s == s[..i] + s[i..];
    case Delete(_) =>
      InsertCostsOne(s[..i], s[i], s[i + 1..]);
      assert s == s[..i] + [s[i]] + s[i + 1..];
      DistanceSymmetric(s, ApplyEdit(e, s));
    case Substitute(_, w) =>
      SubstituteCostsOne(s[..i], s[i], w, s[i + 1..]);
      assert s == s[..i] + [s[i]] + s[i + 1..];
      assert s[i := w] == s[..i] + [w] + s[i + 1..];
  }

  lemma {:induction false} NoScriptIsShorter(script: seq<Edit>, s: seq<Word>, t: seq<Word>)
    requires Rewrites(script, s, t)
    ensures Distance(s, t) <= |script|
    decreases |script|
  {
    if script == [] {
      DistanceZero(s, t);
    } else {
      var s' := ApplyEdit(script[0], s);
      EditCostsOne(script[0], s);
      NoScriptIsShorter(script[1..], s', t);
      Triangle(s, s', t);
    }
  }

  // ----- some script attains it -----

  lemma ApplyEditWithSuffix(e: Edit, s: seq<Word>, w: Word)
    requires Applicable(e, s)
    ensures Applicable(e, s + [w]) && ApplyEdit(e, s + [w]) == ApplyEdit(e, s) + [w]
  {
    var i := e.at;
    match e
    case Insert(_, v) =>
      assert (s + [w])[..i] == s[..i] && (s + [w])[i..] == s[i..] + [w];
    case Delete(_) =>
      assert (s + [w])[..i] == s[..i] && (s + [w])[i + 1..] == s[i + 1..] + [w];
    case Substitute(_, v) =>
  }

  /** A script never looks past the words it edits, so a common suffix rides along. */
  lemma {:induction false} RewritesWithSuffix(script: seq<Edit>, s: seq<Word>, t: seq<Word>, w: Word)
    requires Rewrites(script, s, t)
    ensures Rewrites(script, s + [w], t + [w])
    decreases |script|
  {
    if script == [] {
    } else {
      RewritesWithSuffix(script[1..], ApplyEdit(script[0], s), t, w);
      ApplyEditWithSuffix(script[0], s, w);
    }
  }

  lemma {:induction false} RewritesThen(script: seq<Edit>, e: Edit, s: seq<Word>, t: seq<Word>)
    requires Rewrites(script, s, t) && Applicable(e, t)
    ensures Rewrites(script + [e], s, ApplyEdit(e, t))
    decreases |script|
  {
    if script == [] {
      assert ([e])[1..] == [];
    } else {
      RewritesThen(script[1..], e, ApplyEdit(script[0], s), t);
      assert (script + [e])[1..] == script[1..] + [e];
    }
  }

  lemma SplitLast(s: seq<Word>)
    requires s != []
    ensures s == Init(s) + [Last(s)]
  {
  }

  lemma ThenInsertLast(script: seq<Edit>, r: seq<Word>, h: seq<Word>) returns (longer: seq<Edit>)
    requires h != [] && Rewrites(script, r, Init(h))
    ensures Rewrites(longer, r, h) && |longer| == |script| + 1
  {
    var e := Insert(|h| - 1, Last(h));
    RewritesThen(script, e, r, Init(h));
    assert ApplyEdit(e, Init(h)) == h;
    longer := script + [e];
  }

  lemma FirstDeleteLast(script: seq<Edit>, r: seq<Word>, h: seq<Word>) returns (longer: seq<Edit>)
    requires r != [] && Rewrites(script, Init(r), h)
    ensures Rewrites(longer, r, h) && |longer| == |script| + 1
  {
    var e := Delete(|r| - 1);
    assert ApplyEdit(e, r) == Init(r);
    longer := [e] + script;
    assert longer[1..] == script;
  }

  lemma KeepLast(script: seq<Edit>, r: seq<Word>, h: seq<Word>)
    requires r != [] && h != [] && Last(r) == Last(h) && Rewrites(script, Init(r), Init(h))
    ensures Rewrites(script, r, h)
  {
    RewritesWithSuffix(script, Init(r), Init(h), Last(r));
    SplitLast(r);
    SplitLast(h);
  }

  lemma ThenSubstituteLast(script: seq<Edit>, r: seq<Word>, h: seq<Word>) returns (longer: seq<Edit>)
    requires r != [] && h != [] && Rewrites(script, Init(r), Init(h))
    ensures Rewrites(longer, r, h) && |longer| == |script| + 1
  {
    RewritesWithSuffix(script, Init(r), Init(h), Last(r));
    SplitLast(r);
    var e := Substitute(|h| - 1, Last(h));
    RewritesThen(script, e, r, Init(h) + [Last(r)]);
    assert ApplyEdit(e, Init(h) + [Last(r)]) == h;
    longer := script + [e];
  }

  lemma {:induction false} ShortestScript(r: seq<Word>, h: seq<Word>) returns (script: seq<Edit>)
    ensures Rewrites(script, r, h) && |script| == Distance(r, h)
    decreases |r| + |h|
  {
    if r == [] && h == [] {
      script := [];
    } else if r != [] && h != [] && Last(r) == Last(h) {
      script := ShortestScript(Init(r), Init(h));
      KeepLast(script, r, h);
    } else if h != [] && (r == [] || Distance(r, h) == Distance(r, Init(h)) + 1) {
      var shorter := ShortestScript(r, Init(h));
      script := ThenInsertLast(shorter, r, h);
    } else if r != [] && (h == [] || Distance(r, h) == Distance(Init(r), h) + 1) {
      var shorter := ShortestScript(Init(r), h);
      script := FirstDeleteLast(shorter, r, h);
    } else {
      var shorter := ShortestScript(Init(r), Init(h));
      script := ThenSubstituteLast(shorter, r, h);
    }
  }

  /** The recurrence computes the length of a shortest edit script. */
  lemma DistanceIsEditDistance(r: seq<Word>, h: seq<Word>)
    ensures forall n :: IsEditDistance(n, r, h) <==> n == Distance(r, h)
  {
    var script := ShortestScript(r, h);
    forall other | Rewrites(other, r, h)
      ensures Distance(r, h) <= |other|
    {
      NoScriptIsShorter(other, r, h);
    }
  }

  // ----- the table and the rate -----

  lemma EdgeCells(r: seq<Word>, h: seq<Word>)
    ensures forall k :: 0 <= k <= |r| ==> Distance(r[..k], h[..0]) == k
    ensures forall l :: 0 <= l <= |h| ==> Distance(r[..0], h[..l]) == l
  {
  }

  lemma {:induction false} Recurrence(p: seq<Word>, q: seq<Word>)
    requires p != [] && q != []
    ensures Distance(p, q) ==
            if Last(p) == Last(q) then Distance(Init(p), Init(q))
            else Min(Min(Distance(Init(p), Init(q)) + 1, Distance(p, Init(q)) + 1), Distance(Init(p), q) + 1)
  {
  }

  lemma CellFromNeighbours(r: seq<Word>, h: seq<Word>, i: nat, j: nat)
    requires 0 < i <= |r| && 0 < j <= |h|
    ensures Distance(r[..i], h[..j]) ==
            if r[i - 1] == h[j - 1] then Distance(r[..i - 1], h[..j - 1])
            else Min(Min(Distance(r[..i - 1], h[..j - 1]) + 1, Distance(r[..i], h[..j - 1]) + 1),
                     Distance(r[..i - 1], h[..j]) + 1)
  {
    hide Distance;
    var p, q := r[..i], h[..j];
    Recurrence(p, q);
    assert Init(p) == r[..i - 1] && Init(q) == h[..j - 1] && Last(p) == r[i - 1] && Last(q) == h[j - 1];
  }

  /** Fills the table row by row; cell (i, j) is the distance between the first `i`
      reference words and the first `j` hypothesis words. */
  method FillTable(r: seq<Word>, h: seq<Word>) returns (d: array2<int>)
    ensures d.Length0 == |r| + 1 && d.Length1 == |h| + 1
    ensures forall k, l :: 0 <= k <= |r| && 0 <= l <= |h| ==> d[k, l] == Distance(r[..k], h[..l])
    ensures d[|r|, |h|] == Distance(r, h)
  {
    hide Distance;
    d := new int[|r| + 1, |h| + 1];
    for i := 0 to |r| + 1
      invariant forall k :: 0 <= k < i ==> d[k, 0] == k
    {
      d[i, 0] := i;
    }
    for j := 0 to |h| + 1
      invariant forall k :: 0 <= k <= |r| ==> d[k, 0] == k
      invariant forall k :: 0 <= k < j ==> d[0, k] == k
    {
      d[0, j] := j;
    }
    EdgeCells(r, h);
    for i := 1 to |r| + 1
      invariant forall k :: 0 <= k <= |r| ==> d[k, 0] == k
      invariant forall k, l :: 0 <= k < i && 0 <= l <= |h| ==> d[k, l] == Distance(r[..k], h[..l])
    {
      for j := 1 to |h| + 1
        invariant forall k :: 0 <= k <= |r| ==> d[k, 0] == k
        invariant forall k, l :: 0 <= k < i && 0 <= l <= |h| ==> d[k, l] == Distance(r[..k], h[..l])
        invariant forall l :: 0 <= l < j ==> d[i, l] == Distance(r[..i], h[..l])
      {
        CellFromNeighbours(r, h, i, j);
        if r[i - 1] == h[j - 1] {
          d[i, j] := d[i - 1, j - 1];
        } else {
          var substitution := d[i - 1, j - 1] + 1;
          var insertion := d[i, j - 1] + 1;
          var deletion := d[i - 1, j] + 1;
          d[i, j] := Min(Min(substitution, insertion), deletion);
        }
      }
    }
    assert r[..|r|] == r && h[..|h|] == h;
  }

  ghost predicate IsRate(wer: real, r: seq<Word>, h: seq<Word>)
    requires r != []
  {
    exists n: nat :: IsEditDistance(n, r, h) && wer == n as real / |r| as real
  }

  lemma RatioBounds(n: nat, ref: nat, hyp: nat)
    requires ref > 0 && (n <= ref || n <= hyp)
    ensures 0.0 <= n as real / ref as real
    ensures n as real / ref as real == 0.0 <==> n == 0
    ensures n as real / ref as real <= 1.0 || n as real / ref as real <= hyp as real / ref as real
  {
    var q := n as real / ref as real;
    assert q * ref as real == n as real;
    if n > hyp {
      assert n as real <= 1.0 * ref as real;
    }
  }

  lemma RateOfDistance(r: seq<Word>, h: seq<Word>, wer: real)
    requires r != [] && wer == Distance(r, h) as real / |r| as real
    ensures IsRate(wer, r, h)
    ensures 0.0 <= wer && (wer == 0.0 <==> r == h)
    ensures wer <= 1.0 || wer <= |h| as real / |r| as real
  {
    DistanceIsEditDistance(r, h);
    DistanceBounds(r, h);
    DistanceZero(r, h);
    RatioBounds(Distance(r, h), |r|, |h|);
    assert IsEditDistance(Distance(r, h), r, h);
  }

  /** The rate is the edit distance divided by the reference length; an empty reference
      scores 0 against an empty hypothesis and 1 against any other. */
  method Rate(r: seq<Word>, h: seq<Word>) returns (wer: real)
    ensures r == [] ==> wer == if h == [] then 0.0 else 1.0
    ensures r != [] ==> IsRate(wer, r, h)
    ensures 0.0 <= wer && (wer == 0.0 <==> r == h)
    ensures r != [] ==> wer <= 1.0 || wer <= |h| as real / |r| as real
  {
    if |r| == 0 {
      return if |h| == 0 then 0.0 else 1.0;
    }
    var d := FillTable(r, h);
    wer := d[|r|, |h|] as real / |r| as real;
    RateOfDistance(r, h, wer);
  }
}
