/** Step 4 of `scoreAndRank`: `results.sort((a, b) => b.score - a.score)`.
    Array.prototype.sort is stable, so the result is the stable sort by
    descending score: the reference `Rank` below, a stable insertion sort. */
module Ranking {
  import opened RVModel

  /** The records of score `v`, in their order in `s`. */
  function WithScore(s: seq<ScoredRV>, v: int): seq<ScoredRV>
  {
    if s == [] then [] else (if s[0].score == v then [s[0]] else []) + WithScore(s[1..], v)
  }

  /** A score class holds exactly the records of that score. */
  lemma {:induction false} WithScoreMembers(s: seq<ScoredRV>, v: int)
    ensures forall x :: x in WithScore(s, v) <==> x in s && x.score == v
  {
    if s != [] {
      WithScoreMembers(s[1..], v);
      assert s == [s[0]] + s[1..];
    }
  }

  /** Same records of each score, in the same relative order: what a stable
      sort by score keeps. */
  ghost predicate SameScoreClasses(s: seq<ScoredRV>, t: seq<ScoredRV>)
  {
    forall v :: WithScore(s, v) == WithScore(t, v)
  }

  /** Non-increasing scores. */
  predicate SortedByScore(s: seq<ScoredRV>)
  {
    forall p, q :: 0 <= p < q < |s| ==> s[p].score >= s[q].score
  }

  /** Places `x` before the first record whose score is not above its own. */
  function Insert(x: ScoredRV, s: seq<ScoredRV>): seq<ScoredRV>
  {
    if s == [] then [x]
    else if x.score >= s[0].score then [x] + s
    else [s[0]] + Insert(x, s[1..])
  }

  /** Insertion adds exactly the one record. */
  lemma {:induction false} InsertPermutes(x: ScoredRV, s: seq<ScoredRV>)
    ensures multiset(Insert(x, s)) == multiset(s) + multiset{x}
  {
    if s != [] && x.score < s[0].score {
      InsertPermutes(x, s[1..]);
      assert s == [s[0]] + s[1..];
    }
  }

  /** The reference stable descending sort. */
  function Rank(s: seq<ScoredRV>): (r: seq<ScoredRV>)
  {
    if s == [] then [] else Insert(s[0], Rank(s[1..]))
  }

  lemma {:induction false} WithScoreConcat(a: seq<ScoredRV>, b: seq<ScoredRV>, v: int)
    ensures WithScore(a + b, v) == WithScore(a, v) + WithScore(b, v)
  {
    if a != [] {
      WithScoreConcat(a[1..], b, v);
      var head := if a[0].score == v then [a[0]] else [];
      calc {
        WithScore(a + b, v);
        { assert (a + b)[0] == a[0]; assert (a + b)[1..] == a[1..] + b; }
        head + WithScore(a[1..] + b, v);
        head + (WithScore(a[1..], v) + WithScore(b, v));
        (head + WithScore(a[1..], v)) + WithScore(b, v);
        WithScore(a, v) + WithScore(b, v);
      }
    } else {
      assert a + b == b;
    }
  }

  lemma WithScoreCons(y: ScoredRV, t: seq<ScoredRV>, v: int)
    ensures WithScore([y] + t, v) == (if y.score == v then [y] else []) + WithScore(t, v)
  {
    assert ([y] + t)[0] == y && ([y] + t)[1..] == t;
  }

  lemma {:induction false} InsertSorted(x: ScoredRV, s: seq<ScoredRV>)
    requires SortedByScore(s)
    ensures SortedByScore(Insert(x, s))
    ensures Insert(x, s)[0] == x || (s != [] && Insert(x, s)[0] == s[0])
  {
    if s == [] {
      assert Insert(x, s) == [x];
    } else if x.score >= s[0].score {
      assert Insert(x, s) == [x] + s;
      SortedConcat([x], s);
    } else {
      var rest := s[1..];
      assert SortedByScore(rest);
      InsertSorted(x, rest);
      assert Insert(x, s) == [s[0]] + Insert(x, rest);
      assert rest != [] ==> s[0].score >= rest[0].score;
      SortedConcat([s[0]], Insert(x, rest));
    }
  }

  lemma {:induction false} InsertKeepsClasses(x: ScoredRV, s: seq<ScoredRV>, v: int)
    ensures WithScore(Insert(x, s), v) == WithScore([x] + s, v)
  {
    if s == [] {
      assert Insert(x, s) == [x] == [x] + s;
    } else if x.score >= s[0].score {
      assert Insert(x, s) == [x] + s;
    } else {
      var rest := s[1..];
      var hx := if x.score == v then [x] else [];
      var hs := if s[0].score == v then [s[0]] else [];
      InsertKeepsClasses(x, rest, v);
      assert Insert(x, s) == [s[0]] + Insert(x, rest);
      WithScoreCons(s[0], Insert(x, rest), v);
      WithScoreCons(x, rest, v);
      WithScoreCons(x, s, v);
      WithScoreCons(s[0], rest, v);
      assert s == [s[0]] + rest;
      assert hs + hx == hx + hs;
    }
  }

  /** The reference sort orders by non-increasing score. */
  lemma {:induction false} RankSorted(s: seq<ScoredRV>)
    ensures SortedByScore(Rank(s))
  {
    if s != [] {
      RankSorted(s[1..]);
      InsertSorted(s[0], Rank(s[1..]));
    }
  }

  /** The reference sort is stable: records of equal score keep their order. */
  lemma {:induction false} RankStable(s: seq<ScoredRV>)
    ensures SameScoreClasses(Rank(s), s)
  {
    if s != [] {
      RankStable(s[1..]);
      forall v ensures WithScore(Rank(s), v) == WithScore(s, v) {
        InsertKeepsClasses(s[0], Rank(s[1..]), v);
        WithScoreConcat([s[0]], Rank(s[1..]), v);
        WithScoreConcat([s[0]], s[1..], v);
        assert s == [s[0]] + s[1..];
      }
    }
  }

  /** The reference sort is a permutation. */
  lemma {:induction false} RankPermutes(s: seq<ScoredRV>)
    ensures multiset(Rank(s)) == multiset(s)
    ensures |Rank(s)| == |s|
  {
    if s != [] {
      RankPermutes(s[1..]);
      InsertPermutes(s[0], Rank(s[1..]));
      assert s == [s[0]] + s[1..];
    }
    assert |multiset(Rank(s))| == |multiset(s)|;
  }

  /** Two sequences sorted by score with the same score classes are equal: the
      stable descending sort has exactly one possible result. */
  lemma {:induction false} SortedUnique(s: seq<ScoredRV>, t: seq<ScoredRV>)
    requires SortedByScore(s) && SortedByScore(t)
    requires SameScoreClasses(s, t)
    ensures s == t
    decreases |s|
  {
    if s == [] || t == [] {
      if s != [] {
        WithScoreMembers(s, s[0].score);
        assert false;
      }
      if t != [] {
        WithScoreMembers(t, t[0].score);
        assert false;
      }
    } else {
      var k := s[0].score;
      WithScoreMembers(s, t[0].score);
      WithScoreMembers(t, k);
      assert s[0] in WithScore(t, k);
      assert t[0] in WithScore(s, t[0].score);
      assert t[0].score == k;
      assert WithScore(s, k) == [s[0]] + WithScore(s[1..], k);
      assert WithScore(t, k) == [t[0]] + WithScore(t[1..], k);
      assert s[0] == WithScore(s, k)[0] == WithScore(t, k)[0] == t[0];
      forall v ensures WithScore(s[1..], v) == WithScore(t[1..], v) {
        var head := if k == v then [s[0]] else [];
        assert WithScore(s, v) == head + WithScore(s[1..], v);
        assert WithScore(t, v) == head + WithScore(t[1..], v);
        assert WithScore(s[1..], v) == (head + WithScore(s[1..], v))[|head|..];
        assert WithScore(t[1..], v) == (head + WithScore(t[1..], v))[|head|..];
      }
      SortedUnique(s[1..], t[1..]);
      assert s == [s[0]] + s[1..] && t == [t[0]] + t[1..];
    }
  }

  /** Ranking an already ranked list changes nothing. */
  lemma RankIdempotent(s: seq<ScoredRV>)
    ensures Rank(Rank(s)) == Rank(s)
  {
    RankSorted(s);
    RankSorted(Rank(s));
    RankStable(Rank(s));
    SortedUnique(Rank(Rank(s)), Rank(s));
  }

  lemma SwapMiddle(front: seq<ScoredRV>, x: ScoredRV, y: ScoredRV, back: seq<ScoredRV>, v: int)
    requires x.score != y.score
    ensures WithScore(front + [x, y] + back, v) == WithScore(front + [y, x] + back, v)
  {
    WithScoreConcat(front + [x, y], back, v);
    WithScoreConcat(front + [y, x], back, v);
    WithScoreConcat(front, [x, y], v);
    WithScoreConcat(front, [y, x], v);
    assert WithScore([x, y], v) == WithScore([y, x], v) by {
      assert [x, y][1..] == [y] && [y, x][1..] == [x];
      assert [y][1..] == [] && [x][1..] == [];
    }
  }

  /** Exchanging two neighbours of different scores keeps every score class. */
  lemma SwapKeepsClasses(s: seq<ScoredRV>, p: nat)
    requires p + 1 < |s|
    requires s[p].score != s[p + 1].score
    ensures SameScoreClasses(s[p := s[p + 1]][p + 1 := s[p]], s)
  {
    var t := s[p := s[p + 1]][p + 1 := s[p]];
    var front, back := s[..p], s[p + 2..];
    assert s == front + [s[p], s[p + 1]] + back;
    assert t == front + [s[p + 1], s[p]] + back;
    forall v ensures WithScore(t, v) == WithScore(s, v) {
      SwapMiddle(front, s[p], s[p + 1], back, v);
    }
  }

  lemma SortedConcat(u: seq<ScoredRV>, w: seq<ScoredRV>)
    requires SortedByScore(u) && SortedByScore(w)
    requires u != [] && w != [] ==> u[|u| - 1].score >= w[0].score
    ensures SortedByScore(u + w)
  {
  }

  /** One exchange of the insertion pass: the record at `j`, above its left
      neighbour, moves one place left; both sorted runs stay sorted. */
  lemma SwapStep(s: seq<ScoredRV>, j: nat, i: nat)
    requires 0 < j <= i < |s|
    requires SortedByScore(s[..j]) && SortedByScore(s[j..i + 1])
    requires j < i ==> s[j - 1].score >= s[j + 1].score
    requires s[j - 1].score < s[j].score
    ensures var t := s[j - 1 := s[j]][j := s[j - 1]];
      && SortedByScore(t[..j - 1]) && SortedByScore(t[j - 1..i + 1])
      && (0 < j - 1 ==> t[j - 2].score >= t[j].score)
      && SameScoreClasses(t, s)
  {
    var t := s[j - 1 := s[j]][j := s[j - 1]];
    SwapKeepsClasses(s, j - 1);
    SortedConcat([s[j - 1]], s[j + 1..i + 1]);
    SortedConcat([s[j]], [s[j - 1]] + s[j + 1..i + 1]);
    assert t[j - 1..i + 1] == [s[j]] + ([s[j - 1]] + s[j + 1..i + 1]);
    assert t[..j - 1] == s[..j - 1];
  }

  /** The same exchange moves records only within the first i+1 places. */
  lemma SwapFrame(s: seq<ScoredRV>, j: nat, i: nat)
    requires 0 < j <= i < |s|
    ensures var t := s[j - 1 := s[j]][j := s[j - 1]];
      && multiset(t[..i + 1]) == multiset(s[..i + 1])
      && t[i + 1..] == s[i + 1..]
  {
    var t := s[j - 1 := s[j]][j := s[j - 1]];
    assert t[..i + 1] == s[..i + 1][j - 1 := s[j]][j := s[j - 1]];
  }

  /** The pass ends sorted once the moved record is not above its left neighbour. */
  lemma InsertDone(s: seq<ScoredRV>, j: nat, i: nat)
    requires j <= i < |s|
    requires SortedByScore(s[..j]) && SortedByScore(s[j..i + 1])
    requires j > 0 ==> s[j - 1].score >= s[j].score
    ensures SortedByScore(s[..i + 1])
  {
    SortedConcat(s[..j], s[j..i + 1]);
    assert s[..i + 1] == s[..j] + s[j..i + 1];
  }

  /** One pass of the insertion sort: moves `a[i]` left past records of
      strictly lower score only, so that it stays behind its ties. */
  method InsertAt(a: array<ScoredRV>, i: nat)
    requires i < a.Length
    requires SortedByScore(a[..i])
    modifies a
    ensures SortedByScore(a[..i + 1])
    ensures multiset(a[..i + 1]) == multiset(old(a[..i + 1]))
    ensures a[i + 1..] == old(a[i + 1..])
    ensures SameScoreClasses(a[..], old(a[..]))
  {
    var j := i;
    while j > 0 && a[j - 1].score < a[j].score
      invariant 0 <= j <= i
      invariant SortedByScore(a[..j]) && SortedByScore(a[j..i + 1])
      invariant 0 < j < i ==> a[j - 1].score >= a[j + 1].score
      invariant multiset(a[..i + 1]) == multiset(old(a[..i + 1]))
      invariant a[i + 1..] == old(a[i + 1..])
      invariant SameScoreClasses(a[..], old(a[..]))
    {
      ghost var s := a[..];
      SwapStep(s, j, i);
      SwapFrame(s, j, i);
      a[j - 1], a[j] := a[j], a[j - 1];
      assert a[..] == s[j - 1 := s[j]][j := s[j - 1]];
      j := j - 1;
    }
    InsertDone(a[..], j, i);
  }

  /** Copies the records into an array, sorts it in place, and reads it back. */
  method RankCopy(results: seq<ScoredRV>) returns (ranked: seq<ScoredRV>)
    ensures ranked == Rank(results)
  {
    var a := new ScoredRV[|results|](j requires 0 <= j < |results| => results[j]);
    assert a[..] == results;
    SortByScore(a);
    ranked := a[..];
  }

  /** The in-place stable sort by descending score. */
  method SortByScore(a: array<ScoredRV>)
    modifies a
    ensures a[..] == Rank(old(a[..]))
  {
    var i := 0;
    while i < a.Length
      invariant 0 <= i <= a.Length
      invariant SortedByScore(a[..i])
      invariant SameScoreClasses(a[..], old(a[..]))
    {
      InsertAt(a, i);
      i := i + 1;
    }
    assert a[..a.Length] == a[..];
    RankSorted(old(a[..]));
    RankStable(old(a[..]));
    SortedUnique(a[..], Rank(old(a[..])));
  }
}
