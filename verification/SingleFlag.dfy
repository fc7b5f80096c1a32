/** The flag operations in the source's own form. Other threads act between any two accesses:
    `env[i]` is the flag they leave for this thread's access number `i`. */
module SingleFlag {
  import opened Single

  datatype Outcome = Returned(value: bool) | StillRunning

  predicate Flags(env: seq<int>) {
    forall i :: 0 <= i < |env| ==> env[i] in {STOPPING, STOPPED, RUNNING}
  }

  /** Where the thread of the protocol is after its first `n` accesses. */
  function PcAt(first: Pc, env: seq<int>, weak: seq<bool>, n: nat): Pc
    requires n <= |env| == |weak|
  {
    if n == 0 then first else PcAfter(PcAt(first, env, weak, n - 1), env[n - 1], weak[n - 1])
  }

  lemma {:induction false} PcAtNext(first: Pc, env: seq<int>, weak: seq<bool>, n: nat)
    requires 0 < n <= |env| == |weak|
    ensures PcAt(first, env, weak, n) == PcAt(PcAfter(first, env[0], weak[0]), env[1..], weak[1..], n - 1)
  {
    hide PcAfter;
    if n > 1 {
      PcAtNext(first, env, weak, n - 1);
    }
  }

  lemma PcAtFirst(first: Pc, env: seq<int>, weak: seq<bool>)
    requires |env| == |weak|
    ensures PcAt(first, env, weak, 0) == first
  {
  }

  lemma PcAtStep(first: Pc, env: seq<int>, weak: seq<bool>, n: nat)
    requires n < |env| == |weak|
    ensures PcAt(first, env, weak, n + 1) == PcAfter(PcAt(first, env, weak, n), env[n], weak[n])
  {
    hide PcAfter;
  }

  /** Access `k` of an acquire does not decide it: if it compares, the flag is stopping, or it is
      stopped and the exchange fails weakly. */
  predicate Undecided(env: seq<int>, weak: seq<bool>, k: nat)
    requires k < |env| == |weak|
  {
    PcAt(Comparing(true), env, weak, k).Comparing? ==> env[k] == -1 || (env[k] == 0 && weak[k])
  }

  /** The flag is not stopping, and an exchange would not fail weakly. */
  predicate Settled(env: seq<int>, weak: seq<bool>, k: nat)
    requires k < |env| == |weak|
  {
    env[k] != -1 && !weak[k]
  }

  predicate Trying(pc: Pc) {
    pc == Comparing(true) || pc == Spinning(true)
  }

  /** What an acquire that is not over after `n` accesses has found so far: no comparison found the
      daemon running, or stopped without a weak failure; it waits only while it reads that the
      daemon is stopping; and so never twice in a row was the flag settled. */
  ghost predicate Tried(env: seq<int>, weak: seq<bool>, n: nat)
    requires n <= |env| == |weak|
  {
    && (forall k :: 0 <= k < n ==> Undecided(env, weak, k))
    && (forall k :: 0 <= k < n && PcAt(Comparing(true), env, weak, k).Spinning? ==>
          (PcAt(Comparing(true), env, weak, k + 1).Spinning? <==> env[k] == -1))
    && (forall k :: 0 <= k && k + 1 < n ==> !(Settled(env, weak, k) && Settled(env, weak, k + 1)))
  }

  /** Only a thread that tries goes on trying, and only for want of a decision. */
  lemma TryingStep(pc: Pc, flag: int, weak: bool)
    requires flag in {STOPPING, STOPPED, RUNNING} && Trying(PcAfter(pc, flag, weak))
    ensures Trying(pc)
    ensures pc.Comparing? ==> flag == -1 || (flag == 0 && weak)
    ensures pc.Spinning? ==> (PcAfter(pc, flag, weak).Spinning? <==> flag == -1)
  {
  }

  lemma TriedSnoc(env: seq<int>, weak: seq<bool>, n: nat)
    requires n < |env| == |weak| && Tried(env, weak, n) && Undecided(env, weak, n)
    requires PcAt(Comparing(true), env, weak, n).Spinning? ==>
      (PcAt(Comparing(true), env, weak, n + 1).Spinning? <==> env[n] == -1)
    requires n > 0 ==> !(Settled(env, weak, n - 1) && Settled(env, weak, n))
    ensures Tried(env, weak, n + 1)
  {
    hide PcAt, Undecided, Settled;
  }

  lemma NothingTried(env: seq<int>, weak: seq<bool>)
    requires |env| == |weak|
    ensures Tried(env, weak, 0)
  {
  }

  lemma {:induction false} StillTrying(env: seq<int>, weak: seq<bool>, n: nat)
    requires Flags(env) && n <= |env| == |weak| && Trying(PcAt(Comparing(true), env, weak, n))
    ensures Tried(env, weak, n)
    ensures n > 0 ==> env[0] == -1 || (env[0] == 0 && weak[0])
  {
    hide PcAt, PcAfter, Tried;
    if n == 0 {
      NothingTried(env, weak);
    } else {
      var k := n - 1;
      PcAtStep(Comparing(true), env, weak, k);
      TryingStep(PcAt(Comparing(true), env, weak, k), env[k], weak[k]);
      StillTrying(env, weak, k);
      if k > 0 {
        PcAtStep(Comparing(true), env, weak, k - 1);
        TryingStep(PcAt(Comparing(true), env, weak, k - 1), env[k - 1], weak[k - 1]);
      } else {
        PcAtFirst(Comparing(true), env, weak);
      }
      TriedSnoc(env, weak, k);
    }
  }

  class Flag {
    var value: int

    /** `single_acquire`: retry and spin until the flag is won or found running. */
    method Acquire(env: seq<int>, weak: seq<bool>) returns (r: Outcome, used: nat)
      requires Flags(env) && |weak| == |env|
      modifies this
      ensures used <= |env| && (r == StillRunning ==> used == |env|)
      ensures var pc := PcAt(Comparing(true), env, weak, used);
        match r
        case Returned(true) => pc == Acquired(true)
        case Returned(false) => pc == Refused
        case StillRunning => pc.Comparing? || pc.Spinning?
      ensures r == Returned(true) ==> used > 0 && env[used - 1] == STOPPED && value == RUNNING
      ensures r == Returned(false) ==> used > 0 && env[used - 1] == RUNNING && value == RUNNING
      ensures used > 0 ==> value == FlagAfter(PcAt(Comparing(true), env, weak, used - 1), env[used - 1], weak[used - 1])
      ensures Tried(env, weak, used - if r == StillRunning then 0 else 1)
      ensures r != StillRunning ==> PcAt(Comparing(true), env, weak, used - 1) == Comparing(true)
      ensures env != [] && env[0] == 1 ==> r == Returned(false) && used == 1
      ensures env != [] && env[0] == 0 && !weak[0] ==> r == Returned(true) && used == 1
    {
      hide Tried, PcAt, Undecided, Settled;
      assert PcAt(Comparing(true), env, weak, 0) == Comparing(true) by { PcAtFirst(Comparing(true), env, weak); }
      used := 0;
      while used < |env|
        invariant used <= |env|
        invariant PcAt(Comparing(true), env, weak, used) == Comparing(true)
        invariant used > 0 ==>
          value == FlagAfter(PcAt(Comparing(true), env, weak, used - 1), env[used - 1], weak[used - 1])
        decreases |env| - used
      {
        value := env[used];
        var oldFlag := value;
        PcAtStep(Comparing(true), env, weak, used);
        used := used + 1;
        if oldFlag == STOPPED && !weak[used - 1] {
          value := RUNNING;
          StillTrying(env, weak, used - 1);
          return Returned(true), used;
        }
        if oldFlag > 0 {
          StillTrying(env, weak, used - 1);
          return Returned(false), used;
        }
        // wait until fully stopped
        var negative := true;
        while negative && used < |env|
          invariant used <= |env| && used > 0
          invariant PcAt(Comparing(true), env, weak, used) == if negative then Spinning(true) else Comparing(true)
          invariant value == FlagAfter(PcAt(Comparing(true), env, weak, used - 1), env[used - 1], weak[used - 1])
          decreases |env| - used
        {
          value := env[used];
          PcAtStep(Comparing(true), env, weak, used);
          negative := value < 0;
          used := used + 1;
        }
        if negative {
          StillTrying(env, weak, used);
          return StillRunning, used;
        }
      }
      StillTrying(env, weak, used);
      r := StillRunning;
    }

    /** `_single_join`: spin until the flag is zero. */
    method Join(env: seq<int>, ghost weak: seq<bool>) returns (r: Outcome, used: nat)
      requires Flags(env) && |weak| == |env|
      modifies this
      ensures used <= |env| && (r == StillRunning ==> used == |env|)
      ensures PcAt(Joining, env, weak, used) == if r == Returned(true) then Joined else Joining
      ensures r != Returned(false) && (r == Returned(true) ==> used > 0 && env[used - 1] == STOPPED == value)
      ensures forall k :: 0 <= k < used - (if r == StillRunning then 0 else 1) ==> env[k] != 0
    {
      used := 0;
      while used < |env|
        invariant used <= |env| && forall k :: 0 <= k < used ==> env[k] != 0
        invariant PcAt(Joining, env, weak, used) == Joining
      {
        value := env[used];
        used := used + 1;
        if value == STOPPED {
          return Returned(true), used;
        }
      }
      r := StillRunning;
    }

    /** `single_join`: one read decides whether to wait. */
    method JoinInline(env: seq<int>, ghost weak: seq<bool>) returns (r: Outcome, used: nat)
      requires Flags(env) && |weak| == |env|
      modifies this
      ensures used <= |env| && (r == StillRunning ==> used == |env|) && r != Returned(false)
      ensures var pc := PcAt(AskingToJoin, env, weak, used);
        if r == Returned(true) then pc == Joined || pc == Skipped else pc == AskingToJoin || pc == Joining
      ensures r == Returned(true) ==> used > 0 && (env[0] == STOPPING || env[used - 1] == STOPPED)
      ensures env != [] && env[0] != 1 ==> r == Returned(true) && used == 1
      ensures env != [] && env[0] == 1 ==>
        forall k :: 0 < k < used - (if r == StillRunning then 0 else 1) ==> env[k] != 0
    {
      if |env| == 0 {
        return StillRunning, 0;
      }
      value := env[0];
      if value > 0 {
        r, used := Join(env[1..], weak[1..]);
        used := used + 1;
      } else {
        r, used := Returned(true), 1;
      }
      PcAtNext(AskingToJoin, env, weak, used);
    }

    /** `single_continue`: a read, and only if it is not positive a store; other threads may
        leave `later` in between. */
    method Continue(later: int) returns (b: bool)
      modifies this
      ensures b == (PcAfter(Working, old(value), false) == Working)
      ensures value == if b then old(value) else FlagAfter(PcAfter(Working, old(value), false), later, false)
      ensures b == (old(value) > 0) && value == if b then old(value) else 0
    {
      if value > 0 {
        return true;
      }
      value := later;
      value := STOPPED;
      return false;
    }

    /** `single_stop`: one strong compare-and-exchange. */
    method Stop()
      modifies this
      ensures value == FlagAfter(AboutToStop, old(value), false)
      ensures value == STOPPING <==> old(value) == RUNNING || old(value) == STOPPING
    {
      if value == RUNNING {
        value := STOPPING;
      }
    }
  }
}
