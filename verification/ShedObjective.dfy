/** What the objective of the scheduler counts, as sets of tasks and satellites. */
module ShedObjective {
  import opened Shed

  /** The solution chosen for satellite `k` has task `i` marked. */
  predicate Doing(sats: Sats, c: seq<int>, k: nat, i: nat)
    requires Combo(sats, c)
  {
    k < |c| && c[k] != 0 && i < |sats[k][c[k] - 1].tasks| && sats[k][c[k] - 1].tasks[i] == 1
  }

  /** The satellites that do task `i`. */
  function Doers(sats: Sats, c: seq<int>, i: nat): set<nat>
    requires Combo(sats, c)
  {
    set k: nat | k < |c| && Doing(sats, c, k, i)
  }

  /** Those of the first `n` tasks that some satellite does. */
  function DoneTasks(sats: Sats, c: seq<int>, n: nat): set<nat>
    requires Combo(sats, c)
  {
    set i: nat | i < n && Doers(sats, c, i) != {}
  }

  /** Each satellite with each of the first `n` tasks that it does, if at least two do that task. */
  function SharedTasks(sats: Sats, c: seq<int>, n: nat): set<(nat, nat)>
    requires Combo(sats, c)
  {
    set i: nat, k: nat | i < n && k in Doers(sats, c, i) && |Doers(sats, c, i)| >= 2 :: (k, i)
  }

  // ----- what the loops add up

  lemma {:induction false} RepetitionsBelow(sats: Sats, c: seq<int>, n: nat, i: nat)
    requires Combo(sats, c) && n <= |c|
    ensures Repetitions(Choices(sats, c), n, i) == |set k: nat | k < n && Doing(sats, c, k, i)|
  {
    if n > 0 {
      RepetitionsBelow(sats, c, n - 1, i);
      var k0 := n - 1;
      var before := set k: nat | k < k0 && Doing(sats, c, k, i);
      var all := set k: nat | k < n && Doing(sats, c, k, i);
      assert Does(Choices(sats, c)[k0], i) <==> Doing(sats, c, k0, i);
      OneMore(before, all, k0, Doing(sats, c, k0, i));
    }
  }

  lemma OneMore(before: set<nat>, all: set<nat>, k: nat, more: bool)
    requires k !in before && forall j :: j in all <==> j in before || (more && j == k)
    ensures |all| == |before| + if more then 1 else 0
  {
    assert all == before + if more then {k} else {};
  }

  lemma RepetitionsCount(sats: Sats, c: seq<int>, i: nat)
    requires Combo(sats, c)
    ensures Repetitions(Choices(sats, c), |c|, i) == |Doers(sats, c, i)|
  {
    RepetitionsBelow(sats, c, |c|, i);
  }

  lemma {:induction false} UndoneCount(sats: Sats, c: seq<int>, n: nat)
    requires Combo(sats, c)
    ensures Undone(Choices(sats, c), n) + |DoneTasks(sats, c, n)| == n
  {
    if n == 0 {
      assert DoneTasks(sats, c, n) == {};
    } else {
      var i := n - 1;
      UndoneCount(sats, c, i);
      RepetitionsCount(sats, c, i);
      OneMore(DoneTasks(sats, c, i), DoneTasks(sats, c, n), i, Doers(sats, c, i) != {});
    }
  }

  function With(doers: set<nat>, i: nat): set<(nat, nat)> {
    set k | k in doers :: (k, i)
  }

  lemma {:induction false} WithSize(doers: set<nat>, i: nat)
    ensures |With(doers, i)| == |doers|
    decreases |doers|
  {
    if doers != {} {
      var k :| k in doers;
      WithSize(doers - {k}, i);
      assert With(doers, i) == With(doers - {k}, i) + {(k, i)};
    }
  }

  lemma {:induction false} RepeatedCount(sats: Sats, c: seq<int>, n: nat)
    requires Combo(sats, c)
    ensures Repeated(Choices(sats, c), n) == |SharedTasks(sats, c, n)|
  {
    if n == 0 {
      assert SharedTasks(sats, c, n) == {};
    } else {
      var i := n - 1;
      RepeatedCount(sats, c, i);
      RepetitionsCount(sats, c, i);
      var doers := Doers(sats, c, i);
      SharedMore(sats, c, i);
      WithSize(doers, i);
      assert SharedTasks(sats, c, i) !! With(doers, i);
    }
  }

  lemma SharedMore(sats: Sats, c: seq<int>, i: nat)
    requires Combo(sats, c)
    ensures SharedTasks(sats, c, i + 1) ==
              SharedTasks(sats, c, i) + if |Doers(sats, c, i)| >= 2 then With(Doers(sats, c, i), i) else {}
  {
  }

  /** The merits of the chosen solutions, in the order of the satellites. */
  function Chosen(sats: Sats, c: seq<int>): seq<real>
    requires Combo(sats, c)
  {
    if c == [] then []
    else (if c[0] == 0 then [] else [sats[0][c[0] - 1].F]) + Chosen(sats[1..], c[1..])
  }

  function Total(r: seq<real>): real {
    if r == [] then 0.0 else r[0] + Total(r[1..])
  }

  lemma {:induction false} MeritSumTotal(sats: Sats, c: seq<int>, n: nat)
    requires Combo(sats, c) && n <= |c|
    ensures MeritSum(sats, c, n) == Total(Chosen(sats[..n], c[..n]))
  {
    if n > 0 {
      MeritSumTotal(sats, c, n - 1);
      assert sats[..n][..n - 1] == sats[..n - 1] && c[..n][..n - 1] == c[..n - 1];
      ChosenLast(sats[..n], c[..n]);
    }
  }

  lemma {:induction false} ChosenLast(sats: Sats, c: seq<int>)
    requires Combo(sats, c) && c != []
    ensures var n := |c| - 1;
            Total(Chosen(sats, c)) == Total(Chosen(sats[..n], c[..n])) + if c[n] == 0 then 0.0 else sats[n][c[n] - 1].F
  {
    var n := |c| - 1;
    if n > 0 {
      ChosenLast(sats[1..], c[1..]);
      assert sats[1..][..n - 1] == sats[..n][1..] && c[1..][..n - 1] == c[..n][1..];
      ChosenFirst(sats, c);
      ChosenFirst(sats[..n], c[..n]);
    } else {
      ChosenFirst(sats, c);
    }
  }

  lemma ChosenFirst(sats: Sats, c: seq<int>)
    requires Combo(sats, c) && c != []
    ensures Total(Chosen(sats, c)) == (if c[0] == 0 then 0.0 else sats[0][c[0] - 1].F) + Total(Chosen(sats[1..], c[1..]))
  {
    var rest := Chosen(sats[1..], c[1..]);
    if c[0] == 0 {
      assert Chosen(sats, c) == rest;
    } else {
      assert Chosen(sats, c) == [sats[0][c[0] - 1].F] + rest;
      assert ([sats[0][c[0] - 1].F] + rest)[1..] == rest;
    }
  }

  // ----- what the objective means

  /** `tic` is a whole number: ten times the tasks that some satellite does, over all tasks,
      rounded down. */
  lemma TicIs(sats: Sats, c: seq<int>, ntasks: nat)
    requires Combo(sats, c) && ntasks >= 1
    ensures var t := Tic(Choices(sats, c), ntasks);
            && t == t.Floor as real
            && t.Floor * ntasks <= 10 * |DoneTasks(sats, c, ntasks)| < (t.Floor + 1) * ntasks
  {
    UndoneCount(sats, c, ntasks);
    var d := |DoneTasks(sats, c, ntasks)|;
    assert Tic(Choices(sats, c), ntasks) == (d * 10 / ntasks) as real;
    Rounded(d * 10, ntasks);
  }

  lemma Rounded(a: nat, b: nat)
    requires b >= 1
    ensures a / b * b <= a < (a / b + 1) * b
  {
    assert a == a / b * b + a % b;
    assert (a / b + 1) * b == a / b * b + b;
  }

  /** The occurrences are the pairs of a satellite and a task it shares with another one, and one
      if there are none. */
  lemma OccurrencesAre(sats: Sats, c: seq<int>, ntasks: nat)
    requires Combo(sats, c)
    ensures var shared := |SharedTasks(sats, c, ntasks)|;
            Occurrences(Choices(sats, c), ntasks) == if shared == 0 then 1 else shared
  {
    RepeatedCount(sats, c, ntasks);
  }

  function Share(merit: real, tenths: int, n: nat): real
    requires n >= 1
  {
    merit * tenths as real / n as real
  }

  /** The merits chosen, times the tenths of tasks done, over the occurrences. */
  function Worth(sats: Sats, c: seq<int>, ntasks: nat): real
    requires Combo(sats, c) && ntasks >= 1
  {
    var shared := |SharedTasks(sats, c, ntasks)|;
    Share(Total(Chosen(sats, c)), 10 * |DoneTasks(sats, c, ntasks)| / ntasks, if shared == 0 then 1 else shared)
  }

  /** That is what the search maximises. */
  lemma ObjectiveIsWorth(sats: Sats, c: seq<int>, ntasks: nat)
    requires Combo(sats, c) && ntasks >= 1
    ensures Objective(sats, ntasks, c) == Worth(sats, c, ntasks)
  {
    UndoneCount(sats, c, ntasks);
    OccurrencesAre(sats, c, ntasks);
    var tenths := 10 * |DoneTasks(sats, c, ntasks)| / ntasks;
    assert Tic(Choices(sats, c), ntasks) == tenths as real;
    ChosenReward(sats, c, tenths);
    Divided(Total(Chosen(sats, c)), tenths, Occurrences(Choices(sats, c), ntasks), Reward(sats, c, tenths as real));
  }

  lemma ChosenReward(sats: Sats, c: seq<int>, tenths: int)
    requires Combo(sats, c)
    ensures Reward(sats, c, tenths as real) == Total(Chosen(sats, c)) * tenths as real
  {
    MeritSumTotal(sats, c, |c|);
    assert sats[..|c|] == sats && c[..|c|] == c;
  }

  lemma Divided(merit: real, tenths: int, n: nat, reward: real)
    requires n >= 1 && reward == merit * tenths as real
    ensures PerOccurrence(reward, n) == Share(merit, tenths, n)
  {
  }
}
