/** Deleting duplicates before the search: it never changes the best objective. */
module ShedPruning {
  import opened Shed
  import opened ShedSearch

  // ----- what the deletion loops do

  /** The tasks of solution `j` were already those of an earlier solution. */
  predicate Duplicate(s: seq<Solution>, j: nat)
    requires j < |s|
  {
    exists i | 0 <= i < j :: s[i].tasks == s[j].tasks
  }

  predicate DuplicateBelow(s: seq<Solution>, j: nat, n: nat)
    requires j < |s|
  {
    exists i | 0 <= i < j && i < n :: s[i].tasks == s[j].tasks
  }

  function Pruned(s: seq<Solution>): (r: seq<Solution>)
    ensures |r| == |s|
  {
    seq(|s|, j requires 0 <= j < |s| => if Duplicate(s, j) then s[j].(F := 0.0) else s[j])
  }

  /** A solution loses its merit exactly if an earlier one has the same tasks, and nothing else of it
      changes; so no two that keep a merit have the same tasks. */
  lemma PrunedExactly(s: seq<Solution>)
    ensures forall j | 0 <= j < |s| ::
              if exists i | 0 <= i < j :: s[i].tasks == s[j].tasks then Pruned(s)[j] == s[j].(F := 0.0) else Pruned(s)[j] == s[j]
    ensures forall i, j | 0 <= i < j < |s| && Pruned(s)[i].tasks == Pruned(s)[j].tasks :: Pruned(s)[j].F == 0.0
  {
  }

  /** `compare_solutions`. */
  method CompareSolutions(a: seq<int>, b: seq<int>, ntasks: nat) returns (equal: bool)
    requires |a| == |b| == ntasks
    ensures equal == (a == b)
  {
    var i := 0;
    while i < ntasks
      invariant 0 <= i <= ntasks && a[..i] == b[..i]
    {
      if a[i] != b[i] { return false; }
      i := i + 1;
    }
    return true;
  }

  /** `delete_duplicates` of one solution. */
  method DeleteDuplicates(local: array<Solution>, sol: nat, ntasks: nat)
    requires sol < local.Length && forall j | 0 <= j < local.Length :: |local[j].tasks| == ntasks
    modifies local
    ensures forall j | 0 <= j < local.Length ::
              local[j] == if j > sol && old(local[sol].tasks) == old(local[j].tasks)
                          then old(local[j]).(F := 0.0) else old(local[j])
  {
    var j := sol + 1;
    while j < local.Length
      invariant sol < j <= local.Length
      invariant forall i | 0 <= i < local.Length ::
                  local[i] == if sol < i < j && old(local[sol].tasks) == old(local[i].tasks)
                              then old(local[i]).(F := 0.0) else old(local[i])
    {
      if local[j].F != 0.0 {
        var equals := CompareSolutions(local[sol].tasks, local[j].tasks, ntasks);
        if equals { local[j] := local[j].(F := 0.0); }
      }
      j := j + 1;
    }
  }

  /** The loop over a satellite's solutions that `solve` has for this purpose. */
  method Prune(local: array<Solution>, ntasks: nat)
    requires forall j | 0 <= j < local.Length :: |local[j].tasks| == ntasks
    modifies local
    ensures local[..] == Pruned(old(local[..]))
  {
    ghost var s := local[..];
    var j := 0;
    while j < local.Length - 1
      invariant 0 <= j && (j <= local.Length - 1 || j == 0)
      invariant forall i | 0 <= i < local.Length :: local[i] == if DuplicateBelow(s, i, j) then s[i].(F := 0.0) else s[i]
    {
      ghost var before := local[..];
      DeleteDuplicates(local, j, ntasks);
      forall i | 0 <= i < local.Length ensures local[i] == if DuplicateBelow(s, i, j + 1) then s[i].(F := 0.0) else s[i] {
        assert before[i].tasks == s[i].tasks && before[j].tasks == s[j].tasks;
        DuplicateNext(s, i, j);
      }
      j := j + 1;
    }
    forall i | 0 <= i < local.Length ensures DuplicateBelow(s, i, j) == Duplicate(s, i) {
      if Duplicate(s, i) {
        var k :| 0 <= k < i && s[k].tasks == s[i].tasks;
        assert k < j;
      }
    }
  }

  lemma DuplicateNext(s: seq<Solution>, i: nat, j: nat)
    requires i < |s| && j < |s|
    ensures DuplicateBelow(s, i, j + 1) <==> DuplicateBelow(s, i, j) || (j < i && s[j].tasks == s[i].tasks)
  {
    if DuplicateBelow(s, i, j + 1) {
      var k :| 0 <= k < i && k < j + 1 && s[k].tasks == s[i].tasks;
      assert k == j || k < j;
    }
    if DuplicateBelow(s, i, j) {
      var k :| 0 <= k < i && k < j && s[k].tasks == s[i].tasks;
      assert k < j + 1;
    }
  }

  // ----- why it is harmless

  /** Figures of merit are positive and sorted, greatest first. */
  predicate Sorted(s: seq<Solution>) {
    && (forall i | 0 <= i < |s| :: s[i].F > 0.0)
    && forall i, j | 0 <= i < j < |s| :: s[i].F >= s[j].F
  }

  function PrunedAll(sats: Sats): (p: Sats)
    ensures |p| == |sats| && forall k | 0 <= k < |p| :: p[k] == Pruned(sats[k])
  {
    seq(|sats|, k requires 0 <= k < |sats| => Pruned(sats[k]))
  }

  /** The first solution with these tasks; the length when there is none. */
  function FirstWith(s: seq<Solution>, tasks: seq<int>): (i: nat)
    ensures i <= |s| && (i < |s| ==> s[i].tasks == tasks)
    ensures forall k | 0 <= k < i :: s[k].tasks != tasks
  {
    if s == [] || s[0].tasks == tasks then 0 else 1 + FirstWith(s[1..], tasks)
  }

  /** The same choice of tasks with solutions that survive. */
  function Representative(sats: Sats, c: seq<int>): (d: seq<int>)
    requires Combo(sats, c)
    ensures |d| == |c|
  {
    seq(|c|, k requires 0 <= k < |c| => if c[k] == 0 then 0 else FirstWith(sats[k], sats[k][c[k] - 1].tasks) + 1)
  }

  lemma RepresentativeAt(sats: Sats, c: seq<int>, k: nat)
    requires Combo(sats, c) && k < |c| && c[k] != 0
    ensures var i := Representative(sats, c)[k] - 1;
            0 <= i <= c[k] - 1 && sats[k][i].tasks == sats[k][c[k] - 1].tasks && !Duplicate(sats[k], i)
  {
    var i := FirstWith(sats[k], sats[k][c[k] - 1].tasks);
    assert sats[k][c[k] - 1].tasks == sats[k][c[k] - 1].tasks;
  }

  lemma RepresentativeCombo(sats: Sats, c: seq<int>)
    requires Combo(sats, c)
    ensures Combo(sats, Representative(sats, c)) && Combo(PrunedAll(sats), Representative(sats, c))
  {
    forall k | 0 <= k < |c| ensures 0 <= Representative(sats, c)[k] <= |sats[k]| {
      if c[k] != 0 { RepresentativeAt(sats, c, k); }
    }
  }

  /** Deletion keeps the tasks, so it keeps the choices. */
  lemma PrunedChoices(sats: Sats, c: seq<int>)
    requires Combo(sats, c)
    ensures Combo(PrunedAll(sats), c) && Choices(PrunedAll(sats), c) == Choices(sats, c)
  {
  }

  lemma RepresentativeChoices(sats: Sats, c: seq<int>)
    requires Combo(sats, c)
    ensures Combo(sats, Representative(sats, c)) && Choices(sats, Representative(sats, c)) == Choices(sats, c)
  {
    RepresentativeCombo(sats, c);
    var d := Representative(sats, c);
    forall k | 0 <= k < |c| ensures Choices(sats, d)[k] == Choices(sats, c)[k] {
      if c[k] != 0 { RepresentativeAt(sats, c, k); }
    }
  }

  /** The representative has at least the merit. */
  lemma {:induction false} RepresentativeMerit(sats: Sats, c: seq<int>, n: nat)
    requires Combo(sats, c) && n <= |c| && forall k | 0 <= k < |sats| :: Sorted(sats[k])
    ensures Combo(PrunedAll(sats), Representative(sats, c))
    ensures MeritSum(PrunedAll(sats), Representative(sats, c), n) >= MeritSum(sats, c, n)
  {
    RepresentativeCombo(sats, c);
    if n > 0 {
      RepresentativeMerit(sats, c, n - 1);
      RepresentativeMeritAt(sats, c, n - 1);
    }
  }

  lemma RepresentativeMeritAt(sats: Sats, c: seq<int>, k: nat)
    requires Combo(sats, c) && k < |c| && Sorted(sats[k]) && Combo(PrunedAll(sats), Representative(sats, c))
    ensures MeritAt(PrunedAll(sats), Representative(sats, c), k) >= MeritAt(sats, c, k)
  {
    if c[k] != 0 { RepresentativeKept(sats, c, k); }
  }

  /** A combination without deleted solutions has the merit it had. */
  lemma {:induction false} AcceptedMerit(sats: Sats, c: seq<int>, n: nat)
    requires Combo(sats, c) && Combo(PrunedAll(sats), c) && Accepted(PrunedAll(sats), c) && n <= |c|
    ensures MeritSum(PrunedAll(sats), c, n) == MeritSum(sats, c, n)
  {
    if n > 0 {
      AcceptedMerit(sats, c, n - 1);
      var k := n - 1;
      if c[k] != 0 { assert PrunedAll(sats)[k][c[k] - 1].F != 0.0; }
    }
  }

  lemma QuotientMono(x: real, y: real, m: real)
    requires x >= y && m > 0.0
    ensures x / m >= y / m
  {
  }

  lemma ProductMono(a: real, b: real, t: real)
    requires a >= b && t >= 0.0
    ensures a * t >= b * t
  {
    assert a * t - b * t == (a - b) * t;
  }

  /** Occurrences and `tic` depend on the choices only, and more merit is a greater objective. */
  lemma ObjectiveMono(a: Sats, c: seq<int>, b: Sats, d: seq<int>, ntasks: nat)
    requires ntasks >= 1 && Combo(a, c) && Combo(b, d) && Choices(a, c) == Choices(b, d)
    requires MeritSum(a, c, |c|) >= MeritSum(b, d, |d|)
    ensures Objective(a, ntasks, c) >= Objective(b, ntasks, d)
  {
    var ch := Choices(a, c);
    RewardMono(a, c, b, d, Tic(ch, ntasks));
    PerOccurrenceMono(Reward(a, c, Tic(ch, ntasks)), Reward(b, d, Tic(ch, ntasks)), Occurrences(ch, ntasks));
  }

  lemma RewardMono(a: Sats, c: seq<int>, b: Sats, d: seq<int>, tic: real)
    requires Combo(a, c) && Combo(b, d) && MeritSum(a, c, |c|) >= MeritSum(b, d, |d|) && tic >= 0.0
    ensures Reward(a, c, tic) >= Reward(b, d, tic)
  {
    ProductMono(MeritSum(a, c, |c|), MeritSum(b, d, |d|), tic);
  }

  lemma PerOccurrenceMono(x: real, y: real, n: nat)
    requires x >= y && n >= 1
    ensures PerOccurrence(x, n) >= PerOccurrence(y, n)
  {
    QuotientMono(x, y, n as real);
  }

  lemma RepresentativeAccepted(sats: Sats, c: seq<int>)
    requires Combo(sats, c) && NonZero(c) && forall k | 0 <= k < |sats| :: Sorted(sats[k])
    ensures Candidate(PrunedAll(sats), Representative(sats, c))
  {
    RepresentativeCombo(sats, c);
    RepresentativeNonZero(sats, c);
    var p: Sats, d := PrunedAll(sats), Representative(sats, c);
    forall j | 0 <= j < |d| && d[j] != 0 ensures p[j][d[j] - 1].F != 0.0 {
      RepresentativeKept(sats, c, j);
    }
  }

  lemma RepresentativeNonZero(sats: Sats, c: seq<int>)
    requires Combo(sats, c) && NonZero(c)
    ensures NonZero(Representative(sats, c))
  {
    var k :| 0 <= k < |c| && c[k] != 0;
    RepresentativeAt(sats, c, k);
    assert Representative(sats, c)[k] != 0;
  }

  lemma RepresentativeKept(sats: Sats, c: seq<int>, j: nat)
    requires Combo(sats, c) && j < |c| && c[j] != 0 && Sorted(sats[j])
    ensures var i := Representative(sats, c)[j] - 1;
            0 <= i < |sats[j]| && Pruned(sats[j])[i].F >= sats[j][c[j] - 1].F > 0.0
  {
    RepresentativeAt(sats, c, j);
  }

  /** Every combination has a representative among those the search accepts after pruning,
      and it is at least as good. */
  lemma PruningKeepsGood(sats: Sats, ntasks: nat, c: seq<int>)
    requires ntasks >= 1 && Combo(sats, c) && NonZero(c) && forall k | 0 <= k < |sats| :: Sorted(sats[k])
    ensures var d := Representative(sats, c);
            Candidate(PrunedAll(sats), d) && Objective(PrunedAll(sats), ntasks, d) >= Objective(sats, ntasks, c)
  {
    var d := Representative(sats, c);
    RepresentativeAccepted(sats, c);
    RepresentativeChoices(sats, c);
    PrunedChoices(sats, d);
    RepresentativeMerit(sats, c, |c|);
    ObjectiveMono(PrunedAll(sats), d, sats, c, ntasks);
  }

  /** What the search accepts after pruning was there before, and worth the same. */
  lemma PruningAddsNothing(sats: Sats, ntasks: nat, c: seq<int>)
    requires ntasks >= 1 && Candidate(PrunedAll(sats), c) && forall k | 0 <= k < |sats| :: Sorted(sats[k])
    ensures Candidate(sats, c) && Objective(PrunedAll(sats), ntasks, c) == Objective(sats, ntasks, c)
  {
    AcceptedBefore(sats, c);
    PrunedChoices(sats, c);
    AcceptedMerit(sats, c, |c|);
    ObjectiveMono(PrunedAll(sats), c, sats, c, ntasks);
    ObjectiveMono(sats, c, PrunedAll(sats), c, ntasks);
  }

  lemma AcceptedBefore(sats: Sats, c: seq<int>)
    requires Candidate(PrunedAll(sats), c) && forall k | 0 <= k < |sats| :: Sorted(sats[k])
    ensures Candidate(sats, c)
  {
    SortedAccepted(sats, c);
  }

  /** `v` is the greatest objective the search can find. */
  ghost predicate Best(sats: Sats, ntasks: nat, v: real)
    requires ntasks >= 1
  {
    Reached(sats, ntasks, v) && Bound(sats, ntasks, v)
  }

  ghost predicate Reached(sats: Sats, ntasks: nat, v: real)
    requires ntasks >= 1
  {
    exists c :: Candidate(sats, c) && Objective(sats, ntasks, c) == v
  }

  ghost predicate Bound(sats: Sats, ntasks: nat, v: real)
    requires ntasks >= 1
  {
    forall c | Candidate(sats, c) :: Objective(sats, ntasks, c) <= v
  }

  lemma ReachedBefore(sats: Sats, ntasks: nat, v: real)
    requires ntasks >= 1 && forall k | 0 <= k < |sats| :: Sorted(sats[k])
    ensures Reached(PrunedAll(sats), ntasks, v) ==> Reached(sats, ntasks, v)
  {
    if Reached(PrunedAll(sats), ntasks, v) {
      var c :| Candidate(PrunedAll(sats), c) && Objective(PrunedAll(sats), ntasks, c) == v;
      PruningAddsNothing(sats, ntasks, c);
    }
  }

  lemma BoundBefore(sats: Sats, ntasks: nat, v: real)
    requires ntasks >= 1 && (forall k | 0 <= k < |sats| :: Sorted(sats[k])) && Bound(PrunedAll(sats), ntasks, v)
    ensures Bound(sats, ntasks, v)
  {
    forall c | Candidate(sats, c) ensures Objective(sats, ntasks, c) <= v {
      PruningKeepsGood(sats, ntasks, c);
    }
  }

  lemma BoundAfter(sats: Sats, ntasks: nat, v: real)
    requires ntasks >= 1 && (forall k | 0 <= k < |sats| :: Sorted(sats[k])) && Bound(sats, ntasks, v)
    ensures Bound(PrunedAll(sats), ntasks, v)
  {
    forall c | Candidate(PrunedAll(sats), c) ensures Objective(PrunedAll(sats), ntasks, c) <= v {
      PruningAddsNothing(sats, ntasks, c);
    }
  }

  lemma ReachedAfter(sats: Sats, ntasks: nat, v: real)
    requires ntasks >= 1 && (forall k | 0 <= k < |sats| :: Sorted(sats[k])) && Best(sats, ntasks, v)
    ensures Reached(PrunedAll(sats), ntasks, v)
  {
    var c :| Candidate(sats, c) && Objective(sats, ntasks, c) == v;
    var d := Representative(sats, c);
    PruningKeepsGood(sats, ntasks, c);
    PruningAddsNothing(sats, ntasks, d);
  }

  /** Pruning preserves the optimum. */
  lemma PruningPreservesBest(sats: Sats, ntasks: nat, v: real)
    requires ntasks >= 1 && forall k | 0 <= k < |sats| :: Sorted(sats[k])
    ensures Best(PrunedAll(sats), ntasks, v) <==> Best(sats, ntasks, v)
  {
    if Best(PrunedAll(sats), ntasks, v) {
      ReachedBefore(sats, ntasks, v);
      BoundBefore(sats, ntasks, v);
    }
    if Best(sats, ntasks, v) {
      ReachedAfter(sats, ntasks, v);
      BoundAfter(sats, ntasks, v);
    }
  }

  /** All combinations of sorted satellites are accepted, so the best over the accepted ones is
      the best over all. */
  lemma SortedAccepted(sats: Sats, c: seq<int>)
    requires Combo(sats, c) && forall k | 0 <= k < |sats| :: Sorted(sats[k])
    ensures Accepted(sats, c)
  {
    forall k | 0 <= k < |c| ensures c[k] == 0 || sats[k][c[k] - 1].F != 0.0 {
      assert Sorted(sats[k]);
    }
  }

  /** Two searches, with and without pruning, that start from the same `max`, end with the same. */
  lemma SameMaximum(sats: Sats, ntasks: nat, max0: real, max1: real, solution1: seq<int>, max2: real, solution2: seq<int>,
                    s1: seq<int>, s2: seq<int>)
    requires ntasks >= 1 && forall k | 0 <= k < |sats| :: Sorted(sats[k])
    ensures && Searched(sats, ntasks, Product(Radices(sats)), max0, s1, max1, solution1)
            && Searched(PrunedAll(sats), ntasks, Product(Radices(PrunedAll(sats))), max0, s2, max2, solution2)
            ==> max1 == max2
  {
    var p := PrunedAll(sats);
    AllSearched(sats, Product(Radices(sats)));
    AllSearched(p, Product(Radices(p)));
    if && Searched(sats, ntasks, Product(Radices(sats)), max0, s1, max1, solution1)
       && Searched(p, ntasks, Product(Radices(p)), max0, s2, max2, solution2)
    {
      if max1 != max0 {
        PruningKeepsGood(sats, ntasks, solution1);
        assert max2 >= max1;
      }
      if max2 != max0 {
        PruningAddsNothing(sats, ntasks, solution2);
        assert max1 >= max2;
      }
    }
  }

  // ----- where the sorted figures come from

  /** The bubble sort of `generate_solutions`. */
  method SortDescending(F: array<real>)
    modifies F
    ensures multiset(F[..]) == old(multiset(F[..]))
    ensures forall i, j | 0 <= i < j < F.Length :: F[i] >= F[j]
  {
    var n, c := F.Length, 0;
    while c < n - 1
      invariant 0 <= c && (c <= n - 1 || c == 0)
      invariant multiset(F[..]) == old(multiset(F[..]))
      invariant forall i, j | 0 <= i < j < n && n - c <= j :: F[i] >= F[j]
    {
      BubbleUp(F, n - c);
      c := c + 1;
    }
  }

  /** One pass over the first `m` cells brings their least value to the end. */
  method BubbleUp(F: array<real>, m: nat)
    requires 1 <= m <= F.Length
    requires forall i, j | 0 <= i < j < F.Length && m <= j :: F[i] >= F[j]
    modifies F
    ensures multiset(F[..]) == old(multiset(F[..]))
    ensures forall i, j | 0 <= i < j < F.Length && m - 1 <= j :: F[i] >= F[j]
  {
    var d := 0;
    while d < m - 1
      invariant 0 <= d <= m - 1
      invariant multiset(F[..]) == old(multiset(F[..]))
      invariant forall i, j | 0 <= i < j < F.Length && m <= j :: F[i] >= F[j]
      invariant forall i | 0 <= i < d :: F[i] >= F[d]
    {
      if F[d] < F[d + 1] { SwapNext(F, d); }
      d := d + 1;
    }
  }

  method SwapNext(F: array<real>, d: nat)
    requires d + 1 < F.Length
    modifies F
    ensures multiset(F[..]) == old(multiset(F[..]))
    ensures F[d] == old(F[d + 1]) && F[d + 1] == old(F[d])
    ensures forall i | 0 <= i < F.Length && i != d && i != d + 1 :: F[i] == old(F[i])
  {
    F[d], F[d + 1] := F[d + 1], F[d];
  }

  /** `generate_solutions` after the draw: figures of merit `F` and a list of tasks per solution.
      The result is what pruning relies on. */
  method GenerateSolutions(local: array<Solution>, F: array<real>, tasks: seq<seq<int>>)
    requires local.Length == F.Length == |tasks|
    requires forall i | 0 <= i < F.Length :: F[i] > 0.0
    modifies local, F
    ensures Sorted(local[..])
    ensures multiset(F[..]) == old(multiset(F[..]))
    ensures forall i | 0 <= i < local.Length :: local[i] == Solution(i + 1, F[i], tasks[i])
  {
    ghost var drawn := F[..];
    SortDescending(F);
    StillPositive(drawn, F[..]);
    label sorted:
    var i := 0;
    while i < local.Length
      invariant 0 <= i <= local.Length && F[..] == old@sorted(F[..])
      invariant forall j | 0 <= j < i :: local[j] == Solution(j + 1, F[j], tasks[j])
    {
      local[i] := Solution(i + 1, F[i], tasks[i]);
      i := i + 1;
    }
  }

  lemma StillPositive(a: seq<real>, b: seq<real>)
    requires multiset(a) == multiset(b) && forall i | 0 <= i < |a| :: a[i] > 0.0
    ensures forall i | 0 <= i < |b| :: b[i] > 0.0
  {
    forall i | 0 <= i < |b| ensures b[i] > 0.0 {
      assert b[i] in multiset(b);
      assert b[i] in multiset(a);
    }
  }
}
