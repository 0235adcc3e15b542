/** The question shuffle of the screening test
    (src/modules/ai-proficiency/ai-proficiency.service.ts). */
module Shuffle {

  /** A draw r in [0, 1), scaled to a position in [0, i]. */
  function Picked(r: real, i: nat): int {
    (r * (i + 1) as real).Floor
  }

  ghost predicate UnitDraws(draws: seq<real>) {
    forall i :: 0 <= i < |draws| ==> 0.0 <= draws[i] < 1.0
  }

  /** One position in [0, i] for every place i. */
  ghost predicate Choices(picks: seq<int>) {
    forall i :: 0 <= i < |picks| ==> 0 <= picks[i] <= i
  }

  /** A pick is j exactly on the stretch of draws from j/(i+1) to (j+1)/(i+1):
      every position in [0, i] gets a share of the same length. */
  lemma EqualShares(r: real, i: nat, j: int)
    requires 0.0 <= r < 1.0
    ensures 0 <= Picked(r, i) <= i
    ensures Picked(r, i) == j <==> j as real / (i + 1) as real <= r < (j + 1) as real / (i + 1) as real
  {
  }

  function Swapped<T>(s: seq<T>, i: nat, j: nat): seq<T>
    requires i < |s| && j < |s|
  {
    s[i := s[j]][j := s[i]]
  }

  /** The order reached when places n-1 down to 1 have each been swapped with
      the place picked for them. */
  ghost function Dealt<T>(s: seq<T>, picks: seq<int>, n: nat): (t: seq<T>)
    requires Choices(picks) && n <= |s| && n <= |picks|
    ensures |t| == |s|
    decreases n
  {
    if n <= 1 then s else Dealt(Swapped(s, n - 1, picks[n - 1]), picks, n - 1)
  }

  ghost function PicksOf(draws: seq<real>): (picks: seq<int>)
    requires UnitDraws(draws)
    ensures |picks| == |draws| && Choices(picks)
    ensures forall i :: 0 <= i < |draws| ==> picks[i] == Picked(draws[i], i)
  {
    forall i | 0 <= i < |draws| ensures 0 <= Picked(draws[i], i) <= i { EqualShares(draws[i], i, 0); }
    seq(|draws|, i requires 0 <= i < |draws| => Picked(draws[i], i))
  }

  /** The in-place loop; draws[i] is the random number taken at place i. */
  method Shuffle<T>(arr: array<T>, draws: seq<real>)
    requires |draws| == arr.Length && UnitDraws(draws)
    modifies arr
    ensures arr[..] == Dealt(old(arr[..]), PicksOf(draws), arr.Length)
  {
    var i := arr.Length - 1;
    while i > 0
      invariant arr.Length > 0 ==> 0 <= i < arr.Length
      invariant arr.Length == 0 ==> i == -1
      invariant Dealt(arr[..], PicksOf(draws), i + 1) == Dealt(old(arr[..]), PicksOf(draws), arr.Length)
    {
      EqualShares(draws[i], i, 0);
      var j := Picked(draws[i], i);
      ghost var before := arr[..];
      arr[i], arr[j] := arr[j], arr[i];
      assert arr[..] == Swapped(before, i, j);
      i := i - 1;
    }
  }

  ghost predicate Distinct<T(!new)>(s: seq<T>) {
    forall i, j :: 0 <= i < j < |s| ==> s[i] != s[j]
  }

  lemma SwapKeeps<T>(s: seq<T>, i: nat, j: nat)
    requires i < |s| && j < |s|
    ensures multiset(Swapped(s, i, j)) == multiset(s)
  {
  }

  lemma {:induction false} DealtIsPermutation<T>(s: seq<T>, picks: seq<int>, n: nat)
    requires Choices(picks) && n <= |s| && n <= |picks|
    ensures multiset(Dealt(s, picks, n)) == multiset(s)
    ensures Dealt(s, picks, n)[n..] == s[n..]
    decreases n
  {
    if n > 1 {
      var next := Swapped(s, n - 1, picks[n - 1]);
      SwapKeeps(s, n - 1, picks[n - 1]);
      DealtIsPermutation(next, picks, n - 1);
      assert Dealt(s, picks, n)[n..] == Dealt(s, picks, n)[n - 1..][1..];
      assert next[n - 1..][1..] == s[n..];
    }
  }

  /** Place n-1 keeps what the first swap put there. */
  lemma DealtLast<T>(s: seq<T>, picks: seq<int>, n: nat)
    requires Choices(picks) && 1 < n <= |s| && n <= |picks|
    ensures Dealt(s, picks, n)[n - 1] == s[picks[n - 1]]
  {
    var next := Swapped(s, n - 1, picks[n - 1]);
    DealtIsPermutation(next, picks, n - 1);
    assert Dealt(s, picks, n)[n - 1..][0] == next[n - 1..][0];
  }

  /** Two different choice vectors give two different orders. */
  lemma {:induction false} DealtIsInjective<T(!new)>(s: seq<T>, p: seq<int>, q: seq<int>, n: nat)
    requires Distinct(s) && Choices(p) && Choices(q)
    requires n <= |s| && n <= |p| && n <= |q|
    requires Dealt(s, p, n) == Dealt(s, q, n)
    ensures p[..n] == q[..n]
    decreases n
  {
    if n == 1 {
      assert p[0] == q[0] == 0;
    } else if n > 1 {
      DealtLast(s, p, n);
      DealtLast(s, q, n);
      var next := Swapped(s, n - 1, p[n - 1]);
      SwapStaysDistinct(s, n - 1, p[n - 1]);
      DealtIsInjective(next, p, q, n - 1);
      assert p[..n] == p[..n - 1] + [p[n - 1]];
      assert q[..n] == q[..n - 1] + [q[n - 1]];
    }
  }

  lemma SwapStaysDistinct<T(!new)>(s: seq<T>, i: nat, j: nat)
    requires i < |s| && j < |s| && Distinct(s)
    ensures Distinct(Swapped(s, i, j))
  {
  }

  /** Some choice vector leads from s to any rearrangement t of its first n places. */
  lemma {:induction false} DealtIsSurjective<T>(s: seq<T>, t: seq<T>, n: nat) returns (picks: seq<int>)
    requires n <= |s| == |t|
    requires multiset(s[..n]) == multiset(t[..n]) && s[n..] == t[n..]
    ensures |picks| == n && Choices(picks) && Dealt(s, picks, n) == t
    decreases n
  {
    if n <= 1 {
      picks := seq(n, _ => 0);
      OnePlaceIsSettled(s, t, n);
    } else {
      var j := Find(s[..n], t[n - 1]) by {
        assert t[n - 1] in t[..n];
        assert t[n - 1] in multiset(s[..n]);
      }
      var next := Swapped(s, n - 1, j);
      PlaceLast(s, t, n, j);
      var rest := DealtIsSurjective(next, t, n - 1);
      picks := rest + [j];
      DealtReadsPrefix(next, rest, picks, n - 1);
    }
  }

  lemma OnePlaceIsSettled<T>(s: seq<T>, t: seq<T>, n: nat)
    requires n <= 1 && n <= |s| == |t|
    requires multiset(s[..n]) == multiset(t[..n]) && s[n..] == t[n..]
    ensures s == t
  {
    assert s == s[..n] + s[n..] && t == t[..n] + t[n..];
    if n == 1 {
      assert s[..1] == [s[0]] && t[..1] == [t[0]];
      assert s[0] in multiset(t[..1]);
    }
  }

  /** Swapping the wanted element into place n-1 leaves the same task one place shorter. */
  lemma PlaceLast<T>(s: seq<T>, t: seq<T>, n: nat, j: nat)
    requires 1 < n <= |s| == |t| && j < n && s[j] == t[n - 1]
    requires multiset(s[..n]) == multiset(t[..n]) && s[n..] == t[n..]
    ensures var next := Swapped(s, n - 1, j);
            multiset(next[..n - 1]) == multiset(t[..n - 1]) && next[n - 1..] == t[n - 1..]
  {
    var next := Swapped(s, n - 1, j);
    assert next[n - 1..] == [t[n - 1]] + s[n..];
    assert t[n - 1..] == [t[n - 1]] + t[n..];
    assert multiset(next[..n]) == multiset(s[..n]) by {
      assert next[..n] == Swapped(s[..n], n - 1, j);
      SwapKeeps(s[..n], n - 1, j);
    }
    assert next[..n] == next[..n - 1] + [t[n - 1]];
    assert t[..n] == t[..n - 1] + [t[n - 1]];
    assert multiset(next[..n - 1]) == multiset(next[..n]) - multiset{t[n - 1]};
    assert multiset(t[..n - 1]) == multiset(t[..n]) - multiset{t[n - 1]};
  }

  lemma Find<T>(s: seq<T>, x: T) returns (j: nat)
    requires x in s
    ensures j < |s| && s[j] == x
  {
    j :| 0 <= j < |s| && s[j] == x;
  }

  lemma {:induction false} DealtReadsPrefix<T>(s: seq<T>, p: seq<int>, q: seq<int>, n: nat)
    requires Choices(p) && Choices(q) && n <= |s| && n <= |p| && n <= |q| && p[..n] == q[..n]
    ensures Dealt(s, p, n) == Dealt(s, q, n)
    decreases n
  {
    if n > 1 {
      assert p[n - 1] == p[..n][n - 1] == q[..n][n - 1] == q[n - 1];
      assert p[..n - 1] == p[..n][..n - 1] && q[..n - 1] == q[..n][..n - 1];
      DealtReadsPrefix(Swapped(s, n - 1, p[n - 1]), p, q, n - 1);
    }
  }

  ghost predicate Leads<T>(s: seq<T>, picks: seq<int>, t: seq<T>) {
    |picks| == |s| && Choices(picks) && Dealt(s, picks, |s|) == t
  }

  /** On distinct elements the choice vectors and the orders match one to one. */
  lemma ChoicesMatchOrders<T(!new)>(s: seq<T>, t: seq<T>)
    requires Distinct(s)
    ensures multiset(t) == multiset(s) <==> exists picks :: Leads(s, picks, t)
    ensures forall p, q :: Leads(s, p, t) && Leads(s, q, t) ==> p == q
  {
    if multiset(t) == multiset(s) {
      assert |t| == |multiset(t)| == |multiset(s)| == |s|;
      assert s[..|s|] == s && t[..|s|] == t;
      var picks := DealtIsSurjective(s, t, |s|);
      assert Leads(s, picks, t);
    }
    if picks :| Leads(s, picks, t) {
      DealtIsPermutation(s, picks, |s|);
    }
    forall p, q | Leads(s, p, t) && Leads(s, q, t) ensures p == q {
      DealtIsInjective(s, p, q, |s|);
      assert p[..|s|] == p && q[..|s|] == q;
    }
  }

  /** Each draw lies in the share of the interval that its pick stands for. */
  ghost predicate InBox(draws: seq<real>, picks: seq<int>) {
    && |draws| == |picks|
    && forall i :: 0 <= i < |picks| ==>
         picks[i] as real / (i + 1) as real <= draws[i] < (picks[i] + 1) as real / (i + 1) as real
  }

  /** An order comes out exactly of the draws in one box, which has the share
      1/(i+1) of the interval for a side at every place i: all boxes are equally large. */
  lemma {:induction false} OrderHasOneBox<T(!new)>(s: seq<T>, t: seq<T>) returns (picks: seq<int>)
    requires Distinct(s) && multiset(t) == multiset(s)
    ensures |picks| == |s| && Choices(picks)
    ensures forall draws: seq<real> :: |draws| == |s| && UnitDraws(draws) ==>
              (Dealt(s, PicksOf(draws), |s|) == t <==> InBox(draws, picks))
  {
    ChoicesMatchOrders(s, t);
    picks :| Leads(s, picks, t);
    forall draws: seq<real> | |draws| == |s| && UnitDraws(draws)
      ensures Dealt(s, PicksOf(draws), |s|) == t <==> InBox(draws, picks)
    {
      PicksAre(draws, picks);
      if Dealt(s, PicksOf(draws), |s|) == t { assert Leads(s, PicksOf(draws), t); }
    }
  }

  lemma {:induction false} PicksAre(draws: seq<real>, picks: seq<int>)
    requires UnitDraws(draws)
    ensures PicksOf(draws) == picks <==> InBox(draws, picks)
  {
    forall i | 0 <= i < |draws| && i < |picks|
      ensures PicksOf(draws)[i] == picks[i]
              <==> picks[i] as real / (i + 1) as real <= draws[i] < (picks[i] + 1) as real / (i + 1) as real
    {
      EqualShares(draws[i], i, picks[i]);
    }
  }

  // ---- The test paper: the first questions of a shuffled pool ----

  function Min(x: nat, y: nat): nat {
    if x < y then x else y
  }

  ghost function Paper<T>(pool: seq<T>, picks: seq<int>, questionCount: nat): seq<T>
    requires |picks| == |pool| && Choices(picks)
  {
    Dealt(pool, picks, |pool|)[..Min(questionCount, |pool|)]
  }

  lemma {:induction false} CompleteTo<T(!new)>(pool: seq<T>, chosen: seq<T>) returns (rest: seq<T>)
    requires multiset(chosen) <= multiset(pool)
    ensures multiset(chosen + rest) == multiset(pool)
  {
    rest := Listed(multiset(pool) - multiset(chosen));
  }

  lemma {:induction false} Listed<T(!new)>(m: multiset<T>) returns (s: seq<T>)
    ensures multiset(s) == m
    decreases |m|
  {
    if m == multiset{} {
      s := [];
    } else {
      var x :| x in m;
      var rest := Listed(m - multiset{x});
      s := [x] + rest;
    }
  }

  /** The papers that can be drawn are exactly the repeat-free selections from
      the pool of the size asked for, in every order. */
  lemma EveryPaperCanBeDrawn<T(!new)>(pool: seq<T>, questionCount: nat, chosen: seq<T>)
    requires Distinct(pool)
    ensures (exists picks :: |picks| == |pool| && Choices(picks) && Paper(pool, picks, questionCount) == chosen)
       <==> && |chosen| == (if questionCount < |pool| then questionCount else |pool|)
            && Distinct(chosen) && forall q :: q in chosen ==> q in pool
  {
    if picks :| |picks| == |pool| && Choices(picks) && Paper(pool, picks, questionCount) == chosen {
      var order := Dealt(pool, picks, |pool|);
      DealtIsPermutation(pool, picks, |pool|);
      SamePartsDistinct(pool, order);
      forall q | q in chosen ensures q in pool { assert q in multiset(order); }
    }
    if |chosen| == Min(questionCount, |pool|) && Distinct(chosen) && forall q :: q in chosen ==> q in pool {
      forall x ensures multiset(chosen)[x] <= multiset(pool)[x] {
        CountAtMostOne(chosen, x);
        if x in chosen { assert x in multiset(pool); }
      }
      var rest := CompleteTo(pool, chosen);
      ChoicesMatchOrders(pool, chosen + rest);
      var picks :| Leads(pool, picks, chosen + rest);
      assert Paper(pool, picks, questionCount) == chosen;
    }
  }

  lemma {:induction false} CountAtMostOne<T(!new)>(s: seq<T>, x: T)
    requires Distinct(s)
    ensures multiset(s)[x] <= 1
  {
    if s != [] {
      var n := |s| - 1;
      assert s == s[..n] + [s[n]];
      CountAtMostOne(s[..n], x);
      if x == s[n] { assert x !in s[..n]; }
    }
  }

  lemma SamePartsDistinct<T(!new)>(s: seq<T>, t: seq<T>)
    requires Distinct(s) && multiset(s) == multiset(t)
    ensures Distinct(t)
  {
    forall i, j | 0 <= i < j < |t| ensures t[i] != t[j] {
      if t[i] == t[j] {
        assert t == t[..j] + [t[j]] + t[j + 1..];
        assert t[i] in t[..j];
        assert multiset(t)[t[i]] >= 2;
        CountAtMostOne(s, t[i]);
      }
    }
  }
}
