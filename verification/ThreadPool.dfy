/**
 The pool of sub-loops (EventLoopThreadPool.cpp): round-robin choice of the loop for the next
 connection, and its balance.
 */
module ThreadPool {
  import opened Reactor

  class EventLoopThreadPool {
    const baseLoop: EventLoop
    const numThreads: int
    var next: nat
    var loops: seq<EventLoop>
    var picks: nat   // how often a loop has been asked for since `Begin`

    ghost predicate Valid()
      reads this
    {
      next == if loops == [] then 0 else picks % |loops|
    }

    constructor (baseLoop: EventLoop, numThreads: int)
      ensures Valid() && loops == [] && picks == 0
      ensures this.baseLoop == baseLoop && this.numThreads == numThreads
    {
      this.baseLoop, this.numThreads := baseLoop, numThreads;
      next, loops, picks := 0, [], 0;
    }

    /** Start the threads; each has a loop of its own. */
    method Begin()
      requires loops == [] && picks == 0 && Valid()
      modifies this`loops
      ensures Valid()
      ensures |loops| == if numThreads < 0 then 0 else numThreads
      ensures forall i :: 0 <= i < |loops| ==> fresh(loops[i])
      ensures forall i, j :: 0 <= i < j < |loops| ==> loops[i] != loops[j]
    {
      var i := 0;
      while i < numThreads
        invariant 0 <= i && (i <= numThreads || i == 0)
        invariant |loops| == i
        invariant forall k :: 0 <= k < |loops| ==> fresh(loops[k])
        invariant forall j, k :: 0 <= j < k < |loops| ==> loops[j] != loops[k]
        decreases numThreads - i
      {
        var loop := new EventLoop(0);
        loops := loops + [loop];
        i := i + 1;
      }
    }

    /** Pick number `k`, counting from 0, is loop number `k` modulo the number of loops. */
    method GetNextLoop() returns (loop: EventLoop)
      requires Valid()
      modifies this`next, this`picks
      ensures Valid() && picks == old(picks) + 1
      ensures loop == if loops == [] then baseLoop else loops[PickOf(old(picks), |loops|)]
      ensures loops != [] ==> old(next) < |loops| && loop == loops[old(next)]
      ensures loops != [] ==> next == if old(next) + 1 == |loops| then 0 else old(next) + 1
    {
      picks := picks + 1;
      if loops == [] {
        return baseLoop;
      }
      loop := loops[next];
      next := (next + 1) % |loops|;
      NextPick(picks - 1, |loops|);
    }
  }

  function PickOf(k: nat, n: nat): (j: nat)
    requires n > 0
    ensures j < n
  {
    k % n
  }

  /** The first `n` picks go through the loops in order, and every later one repeats the one `n` before. */
  lemma {:induction false} PicksGoRound(k: nat, n: nat)
    requires n > 0
    ensures k < n ==> PickOf(k, n) == k
    ensures PickOf(k + n, n) == PickOf(k, n)
  {
    if k < n {
      DivMod(k, n, 0, k);
    }
    var q, r := k / n, k % n;
    assert k + n == n * (q + 1) + r;
    DivMod(k + n, n, q + 1, r);
  }

  lemma {:induction false} NextPick(k: nat, n: nat)
    requires n > 0
    ensures (k % n + 1) % n == (k + 1) % n
    ensures (k + 1) % n == if k % n == n - 1 then 0 else k % n + 1
    ensures (k + 1) / n == if k % n == n - 1 then k / n + 1 else k / n
  {
    var q, r := k / n, k % n;
    assert k == n * q + r;
    if r == n - 1 {
      assert k + 1 == n * (q + 1) + 0;
      DivMod(k + 1, n, q + 1, 0);
      DivMod(n, n, 1, 0);
    } else {
      assert k + 1 == n * q + (r + 1);
      DivMod(k + 1, n, q, r + 1);
      DivMod(r + 1, n, 0, r + 1);
    }
  }

  lemma {:induction false} DivMod(x: nat, n: nat, q: nat, r: nat)
    requires n > 0 && x == n * q + r && r < n
    ensures x / n == q && x % n == r
  {
    var d := x / n - q;
    assert n * d == r - x % n;
    MultipleIsFar(n, d);
  }

  lemma {:induction false} MultipleIsFar(n: nat, d: int)
    requires n > 0
    ensures d >= 1 ==> n * d >= n
    ensures d <= -1 ==> n * d + n <= 0
  {
    assert d >= 1 ==> n * (d - 1) >= 0;
    assert d <= -1 ==> n * (-d - 1) >= 0;
  }

  /** How many of the first `k` picks are loop `j`. */
  function TimesPicked(k: nat, n: nat, j: nat): nat
    requires n > 0
  {
    if k == 0 then 0 else TimesPicked(k - 1, n, j) + if PickOf(k - 1, n) == j then 1 else 0
  }

  /** Every loop has been picked the same number of times, rounded down or up. */
  lemma {:induction false} PicksAreBalanced(k: nat, n: nat, j: nat)
    requires n > 0 && j < n
    ensures TimesPicked(k, n, j) == k / n + if j < k % n then 1 else 0
    ensures k / n <= TimesPicked(k, n, j) <= (k + n - 1) / n
    decreases k
  {
    if k == 0 {
      DivMod(0, n, 0, 0);
      DivMod(n - 1, n, 0, n - 1);
    } else {
      PicksAreBalanced(k - 1, n, j);
      NextPick(k - 1, n);
      Ceiling(k, n);
    }
  }

  lemma {:induction false} Ceiling(k: nat, n: nat)
    requires n > 0
    ensures (k + n - 1) / n == k / n + if k % n > 0 then 1 else 0
  {
    var q, r := k / n, k % n;
    assert k == n * q + r;
    if r == 0 {
      assert k + n - 1 == n * q + (n - 1);
      DivMod(k + n - 1, n, q, n - 1);
    } else {
      assert k + n - 1 == n * (q + 1) + (r - 1);
      DivMod(k + n - 1, n, q + 1, r - 1);
    }
  }
}
