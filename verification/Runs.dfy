/** Runs of a transition system, and sums over its threads.

    Every concurrent component is modelled by a deterministic partial `step` function: an action
    names the thread that moves and every choice its environment makes, and `step` answers `None`
    when the action is not enabled. A run is then just a sequence of actions. */
module Runs {

  datatype Option<+T> = None | Some(value: T)

  /** The state after `actions`, or None as soon as one of them is not enabled. */
  ghost function Exec<S, A>(step: (S, A) -> Option<S>, s: S, actions: seq<A>): Option<S> {
    if actions == [] then Some(s)
    else match step(s, actions[0])
      case None => None
      case Some(next) => Exec(step, next, actions[1..])
  }

  /** What every step keeps holds after every run. */
  lemma {:induction false} InvariantHolds<S(!new), A(!new)>(
      step: (S, A) -> Option<S>, inv: S -> bool, s: S, actions: seq<A>)
    requires inv(s)
    requires forall x, a :: inv(x) && step(x, a).Some? ==> inv(step(x, a).value)
    ensures Exec(step, s, actions).Some? ==> inv(Exec(step, s, actions).value)
    decreases |actions|
  {
    if actions != [] && step(s, actions[0]).Some? {
      InvariantHolds(step, inv, step(s, actions[0]).value, actions[1..]);
    }
  }

  /** A run written out state by state. */
  lemma {:induction false} ExecChain<S, A>(step: (S, A) -> Option<S>, states: seq<S>, actions: seq<A>)
    requires |states| == |actions| + 1
    requires forall i :: 0 <= i < |actions| ==> step(states[i], actions[i]) == Some(states[i + 1])
    ensures Exec(step, states[0], actions) == Some(states[|actions|])
    decreases |actions|
  {
    if actions != [] {
      ExecChain(step, states[1..], actions[1..]);
    }
  }

  function Repeat<A>(a: A, n: nat): seq<A> { if n == 0 then [] else [a] + Repeat(a, n - 1) }

  /** A run can be cut anywhere. */
  lemma {:induction false} ExecConcat<S, A>(step: (S, A) -> Option<S>, s: S, first: seq<A>, second: seq<A>)
    requires Exec(step, s, first).Some?
    ensures Exec(step, s, first + second) == Exec(step, Exec(step, s, first).value, second)
    decreases |first|
  {
    if first == [] {
      assert first + second == second;
    } else {
      assert (first + second)[1..] == first[1..] + second;
      ExecConcat(step, step(s, first[0]).value, first[1..], second);
    }
  }
}

/** Weighted counts over the program counters of a sequence of threads. */
module Tally {

  function Bit(b: bool): int { if b then 1 else 0 }

  ghost function Sum<P>(threads: seq<P>, weight: P -> int): int {
    if threads == [] then 0 else weight(threads[0]) + Sum(threads[1..], weight)
  }

  lemma {:induction false} SumUpdate<P>(threads: seq<P>, t: nat, pc: P, weight: P -> int)
    requires t < |threads|
    ensures Sum(threads[t := pc], weight) == Sum(threads, weight) - weight(threads[t]) + weight(pc)
    decreases |threads|
  {
    if t == 0 {
      assert threads[t := pc][1..] == threads[1..];
    } else {
      assert threads[t := pc][1..] == threads[1..][t - 1 := pc];
      SumUpdate(threads[1..], t - 1, pc, weight);
    }
  }

  /** With weights 0 and 1, one thread's weight bounds the sum from both sides. */
  lemma {:induction false} SumBounds<P(!new)>(threads: seq<P>, t: nat, weight: P -> int)
    requires t < |threads|
    requires forall pc :: 0 <= weight(pc) <= 1
    ensures weight(threads[t]) <= Sum(threads, weight) <= |threads| - 1 + weight(threads[t])
    decreases |threads|
  {
    if t == 0 {
      SumRange(threads[1..], weight);
    } else {
      SumBounds(threads[1..], t - 1, weight);
    }
  }

  lemma {:induction false} SumRange<P(!new)>(threads: seq<P>, weight: P -> int)
    requires forall pc :: 0 <= weight(pc) <= 1
    ensures 0 <= Sum(threads, weight) <= |threads|
    decreases |threads|
  {
    if threads != [] {
      SumRange(threads[1..], weight);
    }
  }

  lemma {:induction false} SumNonNegative<P(!new)>(threads: seq<P>, weight: P -> int)
    requires forall pc :: 0 <= weight(pc)
    ensures 0 <= Sum(threads, weight)
    decreases |threads|
  {
    if threads != [] {
      SumNonNegative(threads[1..], weight);
    }
  }

  /** A positive sum of 0/1 weights has a thread that carries it. */
  lemma {:induction false} SumWitness<P(!new)>(threads: seq<P>, weight: P -> int) returns (t: nat)
    requires forall pc :: 0 <= weight(pc) <= 1
    requires Sum(threads, weight) > 0
    ensures t < |threads| && weight(threads[t]) == 1
    decreases |threads|
  {
    if weight(threads[0]) == 1 {
      t := 0;
    } else {
      var rest := SumWitness(threads[1..], weight);
      t := rest + 1;
    }
  }

  /** Equal weights at every thread give equal sums. */
  lemma {:induction false} SumCongruent<P>(left: seq<P>, right: seq<P>, weight: P -> int)
    requires |left| == |right|
    requires forall t :: 0 <= t < |left| ==> weight(left[t]) == weight(right[t])
    ensures Sum(left, weight) == Sum(right, weight)
    decreases |left|
  {
    if left != [] {
      SumCongruent(left[1..], right[1..], weight);
    }
  }

  /** The first `n` numbers hold each of them once. */
  lemma {:induction false} NumbersCount(n: nat, c: nat)
    ensures multiset(seq(n, i => i))[c] == Bit(c < n)
    decreases n
  {
    if n > 0 {
      assert seq(n, i => i) == seq(n - 1, i => i) + [n - 1];
      NumbersCount(n - 1, c);
    }
  }
}
