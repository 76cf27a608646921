/** `shed.c`: the exhaustive search as it runs, on arrays that are updated in place. */
module ShedSearch {
  import opened Shed
  import opened ShedObjective

  // ----- the evaluation loops

  predicate Shaped(sats: Sats, c: seq<int>, ntasks: nat) {
    ntasks >= 1 && ValidSats(sats, ntasks) && Combo(sats, c)
  }

  /** `total_occurrences`: the result and the new value of `tic`. */
  method TotalOccurrences(sats: Sats, combination: array<int>, ntasks: nat) returns (n: nat, tic: real)
    requires Shaped(sats, combination[..], ntasks)
    ensures n == Occurrences(Choices(sats, combination[..]), ntasks)
    ensures tic == Tic(Choices(sats, combination[..]), ntasks)
    ensures n == var shared := |SharedTasks(sats, combination[..], ntasks)|; if shared == 0 then 1 else shared
    ensures tic == (10 * |DoneTasks(sats, combination[..], ntasks)| / ntasks) as real
  {
    ghost var ch := Choices(sats, combination[..]);
    var sum := CountTasks(sats, combination, ntasks);
    var nzeros, total, i := 0, 0, 0;
    while i < ntasks
      invariant 0 <= i <= ntasks && nzeros == Undone(ch, i) && total == Repeated(ch, i)
    {
      if sum[i] == 0 {
        nzeros := nzeros + 1;
      } else if sum[i] != 1 {
        total := total + sum[i];
      }
      i := i + 1;
    }
    tic := ((ntasks - nzeros) * 10 / ntasks) as real;
    n := if total == 0 then 1 else total;
    OccurrencesAre(sats, combination[..], ntasks);
    UndoneCount(sats, combination[..], ntasks);
  }

  method CountTasks(sats: Sats, combination: array<int>, ntasks: nat) returns (sum: array<nat>)
    requires Shaped(sats, combination[..], ntasks)
    ensures sum.Length == ntasks
    ensures forall i | 0 <= i < ntasks ::
              sum[i] == Repetitions(Choices(sats, combination[..]), |sats|, i)
  {
    ghost var ch := Choices(sats, combination[..]);
    sum := new nat[ntasks](_ => 0);
    var k := 0;
    while k < |sats|
      invariant 0 <= k <= |sats| && combination[..] == old(combination[..])
      invariant forall i | 0 <= i < ntasks :: sum[i] == Repetitions(ch, k, i)
    {
      if combination[k] != 0 {
        var tasks := sats[k][combination[k] - 1].tasks;
        assert ch[k] == Tasks(tasks);
        var i := 0;
        while i < ntasks
          invariant 0 <= i <= ntasks && combination[..] == old(combination[..])
          invariant forall j | 0 <= j < i :: sum[j] == Repetitions(ch, k + 1, j)
          invariant forall j | i <= j < ntasks :: sum[j] == Repetitions(ch, k, j)
        {
          if tasks[i] == 1 { sum[i] := sum[i] + 1; }
          i := i + 1;
        }
      }
      k := k + 1;
    }
  }

  /** `total_reward`. */
  method TotalReward(sats: Sats, combination: array<int>, tic: real) returns (r: real)
    requires Combo(sats, combination[..])
    ensures r == Reward(sats, combination[..], tic)
  {
    var sumReward, k := 0.0, 0;
    while k < |sats|
      invariant 0 <= k <= |sats| && sumReward == MeritSum(sats, combination[..], k)
    {
      if combination[k] != 0 {
        sumReward := sumReward + sats[k][combination[k] - 1].F;
      }
      k := k + 1;
    }
    r := sumReward * tic;
  }

  /** `check_solution`. */
  method CheckSolution(sats: Sats, combination: array<int>) returns (ok: bool)
    requires Combo(sats, combination[..])
    ensures ok == Accepted(sats, combination[..])
  {
    var k := 0;
    while k < |sats|
      invariant 0 <= k <= |sats|
      invariant forall j | 0 <= j < k :: combination[j] == 0 || sats[j][combination[j] - 1].F != 0.0
    {
      if combination[k] != 0 && sats[k][combination[k] - 1].F == 0.0 { return false; }
      k := k + 1;
    }
    return true;
  }

  // ----- the odometer loops

  /** `next_combination`. */
  method NextCombination(sats: Sats, combination: array<int>)
    requires Digits(Radices(sats), combination[..])
    modifies combination
    ensures combination[..] == Successor(Radices(sats), old(combination[..]))
  {
    ghost var r, c := Radices(sats), combination[..];
    var n := combination.Length - 1;
    while n >= 0
      invariant -1 <= n < combination.Length
      invariant forall k | 0 <= k <= n :: combination[k] == c[k]
      invariant forall k | n < k < combination.Length :: combination[k] == 0 && c[k] + 1 == r[k]
    {
      combination[n] := combination[n] + 1;
      if combination[n] > |sats[n]| {
        combination[n] := 0;
        n := n - 1;
      } else {
        SuccessorAt(r, c, n);
        return;
      }
    }
    SuccessorAt(r, c, n);
  }

  /** With every digit after `n` full: digit `n` goes up and the ones after it start over. */
  lemma {:induction false} SuccessorAt(r: seq<nat>, c: seq<int>, n: int)
    requires Digits(r, c) && -1 <= n < |c| && (n >= 0 ==> c[n] + 1 < r[n])
    requires forall k | n < k < |c| :: c[k] + 1 == r[k]
    ensures |Successor(r, c)| == |c|
    ensures forall k | 0 <= k < |c| :: Successor(r, c)[k] == if k < n then c[k] else if k == n then c[k] + 1 else 0
    decreases |c|
  {
    if n < |c| - 1 {
      SuccessorAt(r[..|c| - 1], c[..|c| - 1], n);
    }
  }

  /** `number_of_combinations`. */
  method NumberOfCombinations(sats: Sats) returns (combs: nat)
    requires |sats| >= 1
    ensures combs == Product(Radices(sats))
  {
    ghost var r := Radices(sats);
    combs := |sats[0]| + 1;
    var k := 1;
    assert r[..1] == [r[0]] && r[..1][..0] == [];
    while k < |sats|
      invariant 1 <= k <= |sats| && combs == Product(r[..k])
    {
      assert r[..k + 1][..k] == r[..k];
      combs := combs * (|sats[k]| + 1);
      k := k + 1;
    }
    assert r[..k] == r;
  }

  // ----- the search

  /** What the search may choose: at least one solution, none of them deleted. */
  predicate Candidate(sats: Sats, c: seq<int>) {
    Combo(sats, c) && NonZero(c) && Accepted(sats, c)
  }

  lemma ComboDigits(sats: Sats, c: seq<int>)
    ensures Combo(sats, c) <==> Digits(Radices(sats), c)
  {
  }

  lemma {:induction false} ZeroValue(r: seq<nat>, c: seq<int>)
    requires Digits(r, c)
    ensures Value(r, c) == 0 <==> !NonZero(c)
  {
    if c != [] {
      var n := |c| - 1;
      ZeroValue(r[..n], c[..n]);
      ValueInRange(r[..n], c[..n]);
      MulMono(0, Value(r[..n], c[..n]), r[n]);
      if Value(r[..n], c[..n]) > 0 { MulMono(1, Value(r[..n], c[..n]), r[n]); }
      if NonZero(c) && c[n] == 0 {
        var k :| 0 <= k < |c| && c[k] != 0;
        assert c[..n][k] != 0;
      }
      if NonZero(c[..n]) {
        var k :| 0 <= k < n && c[..n][k] != 0;
        assert c[k] != 0;
      }
    }
  }

  /** `solution` and `max` after all combinations below number `v` were looked at, given what
      they were before: the greatest objective seen, and the first combination to reach it. */
  ghost predicate Searched(sats: Sats, ntasks: nat, v: int, max0: real, solution0: seq<int>, max: real, solution: seq<int>)
    requires ntasks >= 1
  {
    var r := Radices(sats);
    && (forall c | Candidate(sats, c) && Value(r, c) < v :: Objective(sats, ntasks, c) <= max)
    && (if max == max0 then solution == solution0
        else
          && max > max0 && Candidate(sats, solution) && Value(r, solution) < v
          && Objective(sats, ntasks, solution) == max
          && forall c | Candidate(sats, c) && Value(r, c) < Value(r, solution) :: Objective(sats, ntasks, c) < max)
  }

  /** Combination number `v` changes nothing, */
  lemma SearchedOn(sats: Sats, ntasks: nat, c: seq<int>, v: int, max0: real, solution0: seq<int>, max: real, solution: seq<int>)
    requires ntasks >= 1 && Combo(sats, c) && Value(Radices(sats), c) == v
    requires Searched(sats, ntasks, v, max0, solution0, max, solution)
    requires !Accepted(sats, c) || Objective(sats, ntasks, c) <= max
    ensures Searched(sats, ntasks, v + 1, max0, solution0, max, solution)
  {
    var r := Radices(sats);
    forall d | Candidate(sats, d) && Value(r, d) < v + 1 ensures Objective(sats, ntasks, d) <= max {
      if Value(r, d) == v { ValueInjective(r, d, c); }
    }
  }

  /** or is the new best. */
  lemma SearchedBetter(sats: Sats, ntasks: nat, c: seq<int>, v: int, max0: real, solution0: seq<int>, max: real, solution: seq<int>)
    requires ntasks >= 1 && Candidate(sats, c) && Value(Radices(sats), c) == v
    requires Searched(sats, ntasks, v, max0, solution0, max, solution)
    requires Objective(sats, ntasks, c) > max
    ensures Searched(sats, ntasks, v + 1, max0, solution0, Objective(sats, ntasks, c), c)
  {
    var r := Radices(sats);
    forall d | Candidate(sats, d) && Value(r, d) < v + 1 ensures Objective(sats, ntasks, d) <= Objective(sats, ntasks, c) {
      if Value(r, d) == v { ValueInjective(r, d, c); }
    }
  }

  /** The figure that `solve` compares. */
  method Evaluate(sats: Sats, combination: array<int>, ntasks: nat) returns (num: real)
    requires Shaped(sats, combination[..], ntasks)
    ensures num == Objective(sats, ntasks, combination[..])
  {
    var n, tic := TotalOccurrences(sats, combination, ntasks);
    var r := TotalReward(sats, combination, tic);
    num := PerOccurrence(r, n);
  }

  /** `copy_solution`. */
  method CopySolution(combination: array<int>, solution: array<int>)
    requires combination.Length == solution.Length
    modifies solution
    ensures solution[..] == old(combination[..])
  {
    var k := 0;
    while k < combination.Length
      invariant 0 <= k <= combination.Length && forall j | 0 <= j < k :: solution[j] == old(combination[j])
      invariant forall j | k <= j < combination.Length :: combination[j] == old(combination[j])
    {
      solution[k] := combination[k];
      k := k + 1;
    }
  }

  class Scheduler {
    var max: real

    constructor ()
      ensures max == 0.0
    {
      max := 0.0;
    }

    /** `solve`: among all combinations that choose something and nothing deleted, `solution`
        becomes the first one of greatest objective, provided that is more than `max` was. On the
        way every combination that chooses something is visited, once. */
    method Solve(sats: Sats, combination: array<int>, solution: array<int>, ntasks: nat) returns (ghost visited: seq<seq<int>>)
      requires |sats| >= 1 && ntasks >= 1 && ValidSats(sats, ntasks)
      requires combination.Length == solution.Length == |sats| && combination != solution
      modifies this, combination, solution
      ensures Searched(sats, ntasks, Product(Radices(sats)), old(max), old(solution[..]), max, solution[..])
      ensures forall c | Candidate(sats, c) :: Objective(sats, ntasks, c) <= max
      ensures max == old(max) ==> solution[..] == old(solution[..])
      ensures max != old(max) ==>
                && max > old(max)
                && Candidate(sats, solution[..]) && Objective(sats, ntasks, solution[..]) == max
                && forall c | Candidate(sats, c) && Value(Radices(sats), c) < Value(Radices(sats), solution[..]) ::
                     Objective(sats, ntasks, c) < max
      ensures forall c :: c in visited <==> Combo(sats, c) && NonZero(c)
      ensures forall i, j | 0 <= i < j < |visited| :: visited[i] != visited[j]
    {
      ghost var r := Radices(sats);
      var combs := NumberOfCombinations(sats);
      var k := 0;
      while k < |sats|
        invariant 0 <= k <= |sats| && forall j | 0 <= j < k :: combination[j] == 0
        invariant max == old(max) && solution[..] == old(solution[..])
      {
        combination[k] := 0;
        k := k + 1;
      }
      ZeroValue(r, combination[..]);
      NothingSearched(sats, ntasks, old(max), old(solution[..]));
      var i := 1;
      visited := [];
      while i < combs
        invariant 1 <= i && (i <= combs || i == 1)
        invariant Digits(r, combination[..]) && Value(r, combination[..]) == i - 1
        invariant Searched(sats, ntasks, i, old(max), old(solution[..]), max, solution[..])
        invariant Counted(r, visited) && |visited| == i - 1
      {
        Turn(sats, combination, solution, ntasks, i, old(max), old(solution[..]));
        visited := visited + [combination[..]];
        i := i + 1;
      }
      AllSearched(sats, combs);
      AllVisited(sats, visited);
    }

    /** One turn of the search loop. */
    method Turn(sats: Sats, combination: array<int>, solution: array<int>, ntasks: nat,
                ghost i: nat, ghost max0: real, ghost solution0: seq<int>)
      requires ntasks >= 1 && ValidSats(sats, ntasks) && combination.Length == solution.Length == |sats| && combination != solution
      requires Digits(Radices(sats), combination[..]) && Value(Radices(sats), combination[..]) == i - 1
      requires 1 <= i < Product(Radices(sats))
      requires Searched(sats, ntasks, i, max0, solution0, max, solution[..])
      modifies this, combination, solution
      ensures Digits(Radices(sats), combination[..]) && Value(Radices(sats), combination[..]) == i
      ensures Searched(sats, ntasks, i + 1, max0, solution0, max, solution[..])
    {
      SuccessorCounts(Radices(sats), combination[..]);
      NextCombination(sats, combination);
      ComboDigits(sats, combination[..]);
      ZeroValue(Radices(sats), combination[..]);
      Weigh(sats, combination, solution, ntasks, i, max0, solution0);
    }

    /** The new combination is looked at. */
    method Weigh(sats: Sats, combination: array<int>, solution: array<int>, ntasks: nat,
                 ghost i: nat, ghost max0: real, ghost solution0: seq<int>)
      requires ntasks >= 1 && ValidSats(sats, ntasks) && combination.Length == solution.Length == |sats| && combination != solution
      requires Combo(sats, combination[..]) && NonZero(combination[..]) && Value(Radices(sats), combination[..]) == i
      requires Searched(sats, ntasks, i, max0, solution0, max, solution[..])
      modifies this, solution
      ensures Searched(sats, ntasks, i + 1, max0, solution0, max, solution[..])
    {
      ghost var c := combination[..];
      var valid := CheckSolution(sats, combination);
      if !valid {
        SearchedOn(sats, ntasks, c, i, max0, solution0, max, solution[..]);
        return;
      }
      var num := Evaluate(sats, combination, ntasks);
      if num > max {
        SearchedBetter(sats, ntasks, c, i, max0, solution0, max, solution[..]);
        max := num;
        CopySolution(combination, solution);
      } else {
        SearchedOn(sats, ntasks, c, i, max0, solution0, max, solution[..]);
      }
    }
  }

  /** The combinations number 1, 2 and so on. */
  predicate Counted(r: seq<nat>, v: seq<seq<int>>) {
    forall i | 0 <= i < |v| :: Digits(r, v[i]) && Value(r, v[i]) == i + 1
  }

  /** Counting to the end comes by everything but the empty choice, and by nothing twice. */
  lemma AllVisited(sats: Sats, v: seq<seq<int>>)
    requires Counted(Radices(sats), v) && |v| + 1 >= Product(Radices(sats))
    ensures forall c :: c in v <==> Combo(sats, c) && NonZero(c)
    ensures forall i, j | 0 <= i < j < |v| :: v[i] != v[j]
  {
    var r := Radices(sats);
    forall c ensures c in v <==> Combo(sats, c) && NonZero(c) {
      ComboDigits(sats, c);
      if Digits(r, c) {
        ZeroValue(r, c);
        ValueInRange(r, c);
        if NonZero(c) { ValueInjective(r, c, v[Value(r, c) - 1]); }
      }
    }
  }

  lemma NothingSearched(sats: Sats, ntasks: nat, max0: real, solution0: seq<int>)
    requires ntasks >= 1
    ensures Searched(sats, ntasks, 1, max0, solution0, max0, solution0)
  {
    var r := Radices(sats);
    forall c | Candidate(sats, c) ensures Value(r, c) >= 1 {
      ComboDigits(sats, c);
      ZeroValue(r, c);
      ValueInRange(r, c);
    }
  }

  lemma AllSearched(sats: Sats, combs: nat)
    requires combs == Product(Radices(sats))
    ensures forall c | Candidate(sats, c) :: Value(Radices(sats), c) < combs
  {
    forall c | Candidate(sats, c) ensures Value(Radices(sats), c) < combs {
      ComboDigits(sats, c);
      ValueInRange(Radices(sats), c);
    }
  }
}
