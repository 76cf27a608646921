/** The satellite scheduler: choose for each satellite one of its local solutions, or none, so
    that the reward per repeated task is greatest. */
module Shed {

  /** `LocalSolution`: a figure of merit and a flag per task. */
  datatype Solution = Solution(id: int, F: real, tasks: seq<int>)

  /** The local solutions of each satellite. */
  type Sats = seq<seq<Solution>>

  predicate ValidSats(sats: Sats, ntasks: nat) {
    forall k, j | 0 <= k < |sats| && 0 <= j < |sats[k]| :: |sats[k][j].tasks| == ntasks
  }

  /** For each satellite 0, or the number of one of its solutions. */
  predicate Combo(sats: Sats, c: seq<int>) {
    |c| == |sats| && forall k | 0 <= k < |c| :: 0 <= c[k] <= |sats[k]|
  }

  predicate NonZero(c: seq<int>) {
    exists k | 0 <= k < |c| :: c[k] != 0
  }

  // ----- the objective

  datatype Choice = Nothing | Tasks(flags: seq<int>)

  /** What the combination makes each satellite do. */
  function Choices(sats: Sats, c: seq<int>): seq<Choice>
    requires Combo(sats, c)
  {
    seq(|c|, k requires 0 <= k < |c| => if c[k] == 0 then Nothing else Tasks(sats[k][c[k] - 1].tasks))
  }

  predicate Does(ch: Choice, i: nat) {
    ch.Tasks? && i < |ch.flags| && ch.flags[i] == 1
  }

  /** How many of the first `n` satellites do task `i`. */
  function Repetitions(ch: seq<Choice>, n: nat, i: nat): nat
    requires n <= |ch|
  {
    if n == 0 then 0 else Repetitions(ch, n - 1, i) + if Does(ch[n - 1], i) then 1 else 0
  }

  /** Repetitions of the first `n` tasks, leaving out tasks done once. */
  function Repeated(ch: seq<Choice>, n: nat): nat {
    if n == 0 then 0
    else
      var sum := Repetitions(ch, |ch|, n - 1);
      Repeated(ch, n - 1) + if sum >= 2 then sum else 0
  }

  /** Those of the first `n` tasks that nobody does. */
  function Undone(ch: seq<Choice>, n: nat): (z: nat)
    ensures z <= n
  {
    if n == 0 then 0 else Undone(ch, n - 1) + if Repetitions(ch, |ch|, n - 1) == 0 then 1 else 0
  }

  function Occurrences(ch: seq<Choice>, ntasks: nat): (n: nat)
    ensures n >= 1
  {
    if Repeated(ch, ntasks) == 0 then 1 else Repeated(ch, ntasks)
  }

  /** `tic`: tenths of the tasks that are done, rounded down. */
  function Tic(ch: seq<Choice>, ntasks: nat): (t: real)
    requires ntasks >= 1
    ensures t >= 0.0
  {
    ((ntasks - Undone(ch, ntasks)) * 10 / ntasks) as real
  }

  /** The figures of merit of the first `n` satellites' solutions. */
  function MeritSum(sats: Sats, c: seq<int>, n: nat): real
    requires Combo(sats, c) && n <= |c|
  {
    if n == 0 then 0.0 else MeritSum(sats, c, n - 1) + MeritAt(sats, c, n - 1)
  }

  function MeritAt(sats: Sats, c: seq<int>, k: nat): real
    requires Combo(sats, c) && k < |c|
  {
    if c[k] == 0 then 0.0 else sats[k][c[k] - 1].F
  }

  function Objective(sats: Sats, ntasks: nat, c: seq<int>): real
    requires ntasks >= 1 && Combo(sats, c)
  {
    var ch := Choices(sats, c);
    PerOccurrence(Reward(sats, c, Tic(ch, ntasks)), Occurrences(ch, ntasks))
  }

  function Reward(sats: Sats, c: seq<int>, tic: real): real
    requires Combo(sats, c)
  {
    MeritSum(sats, c, |c|) * tic
  }

  function PerOccurrence(reward: real, n: nat): real
    requires n >= 1
  {
    reward / n as real
  }

  /** `check_solution`: no chosen solution was deleted. */
  predicate Accepted(sats: Sats, c: seq<int>)
    requires Combo(sats, c)
  {
    forall k | 0 <= k < |c| :: c[k] == 0 || sats[k][c[k] - 1].F != 0.0
  }

  // ----- the odometer

  /** One more than the number of solutions of each satellite. */
  function Radices(sats: Sats): (r: seq<nat>)
    ensures |r| == |sats| && forall k | 0 <= k < |r| :: r[k] == |sats[k]| + 1
  {
    seq(|sats|, k requires 0 <= k < |sats| => |sats[k]| + 1)
  }

  predicate Digits(r: seq<nat>, c: seq<int>) {
    |c| == |r| && forall k | 0 <= k < |c| :: 0 <= c[k] < r[k]
  }

  function Product(r: seq<nat>): nat {
    if r == [] then 1 else Product(r[..|r| - 1]) * r[|r| - 1]
  }

  /** The number a combination stands for, the last satellite least significant. */
  function Value(r: seq<nat>, c: seq<int>): int
    requires |c| == |r|
  {
    if c == [] then 0 else Value(r[..|r| - 1], c[..|c| - 1]) * r[|r| - 1] + c[|c| - 1]
  }

  lemma MulMono(a: int, c: int, b: int)
    requires a <= c && b >= 0
    ensures a * b <= c * b
  {
    assert c * b - a * b == (c - a) * b;
  }

  lemma {:induction false} ValueInRange(r: seq<nat>, c: seq<int>)
    requires Digits(r, c)
    ensures 0 <= Value(r, c) < Product(r)
  {
    if c != [] {
      var n := |r| - 1;
      ValueInRange(r[..n], c[..n]);
      var v, p := Value(r[..n], c[..n]), Product(r[..n]);
      MulMono(0, v, r[n]);
      MulMono(v + 1, p, r[n]);
      assert (v + 1) * r[n] == v * r[n] + r[n];
    }
  }

  /** Different combinations stand for different numbers. */
  lemma {:induction false} ValueInjective(r: seq<nat>, c: seq<int>, d: seq<int>)
    requires Digits(r, c) && Digits(r, d) && Value(r, c) == Value(r, d)
    ensures c == d
  {
    if c != [] {
      var n := |r| - 1;
      LastDigit(Value(r[..n], c[..n]), c[n], Value(r[..n], d[..n]), d[n], r[n]);
      ValueInjective(r[..n], c[..n], d[..n]);
      assert c == c[..n] + [c[n]] && d == d[..n] + [d[n]];
    }
  }

  lemma LastDigit(v: int, x: int, w: int, y: int, b: int)
    requires 0 <= x < b && 0 <= y < b && v * b + x == w * b + y
    ensures v == w && x == y
  {
    if v < w {
      MulMono(v + 1, w, b);
    } else if w < v {
      MulMono(w + 1, v, b);
    }
  }

  /** Add one to the last digit, carrying into the ones before it. */
  function Successor(r: seq<nat>, c: seq<int>): seq<int>
    requires Digits(r, c)
  {
    if c == [] then []
    else
      var n := |c| - 1;
      if c[n] + 1 < r[n] then c[..n] + [c[n] + 1] else Successor(r[..n], c[..n]) + [0]
  }

  /** The odometer counts, and starts over after the last combination. */
  lemma {:induction false} SuccessorCounts(r: seq<nat>, c: seq<int>)
    requires Digits(r, c)
    ensures Digits(r, Successor(r, c))
    ensures Value(r, Successor(r, c)) == if Value(r, c) + 1 == Product(r) then 0 else Value(r, c) + 1
  {
    if c != [] {
      var n := |c| - 1;
      var s := Successor(r, c);
      var v, p := Value(r[..n], c[..n]), Product(r[..n]);
      ValueInRange(r[..n], c[..n]);
      if c[n] + 1 < r[n] {
        assert s[..n] == c[..n];
        MulMono(v + 1, p, r[n]);
        assert (v + 1) * r[n] == v * r[n] + r[n];
      } else {
        SuccessorCounts(r[..n], c[..n]);
        assert s[..n] == Successor(r[..n], c[..n]);
        CarryCounts(v, p, r[n], Value(r[..n], s[..n]));
      }
    }
  }

  /** A full last digit: one place up, `w` follows `v`. */
  lemma CarryCounts(v: int, p: int, b: int, w: int)
    requires 0 <= v < p && b >= 1 && w == if v + 1 == p then 0 else v + 1
    ensures w * b == if v * b + (b - 1) + 1 == p * b then 0 else v * b + (b - 1) + 1
  {
    assert (v + 1) * b == v * b + b;
    if v + 1 != p {
      MulMono(v + 2, p, b);
      assert (v + 2) * b == v * b + 2 * b;
    }
  }
}
