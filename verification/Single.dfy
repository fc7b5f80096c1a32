/** The single-daemon flag: any number of threads that start, run, stop and join one daemon,
    interleaved at every access to the shared flag (sequentially consistent). */
module Single {

  const STOPPING := -1
  const STOPPED := 0
  const RUNNING := 1

  /** Where a thread is. */
  datatype Pc =
    | Idle
    | Comparing(foreground: bool)   // single_acquire: about to compare and exchange
    | Spinning(foreground: bool)    // single_acquire: waiting until the flag is not negative
    | Refused                       // single_acquire has returned false
    | Acquired(foreground: bool)    // single_acquire has returned true
    | Working                       // inside the daemon function
    | Finishing                     // single_continue has read a flag that is not positive
    | Abandoning                    // about to call single_finish without having asked
    | AboutToStop                   // single_stop: about to compare and exchange
    | AskingToJoin                  // single_join: about to read once
    | Skipped                       // single_join has returned without waiting
    | Joining                       // _single_join: about to read
    | Joined                        // _single_join has returned

  predicate Owns(pc: Pc) {
    pc.Acquired? || pc == Working || pc == Finishing || pc == Abandoning
  }

  predicate Resting(pc: Pc) {
    pc == Idle || pc == Refused || pc == Skipped || pc == Joined
  }

  datatype World = World(flag: int, pcs: seq<Pc>)

  datatype Action =
    | NewThread
    | Begin(first: Pc)
    | Access(weak: bool)            // the next access to the flag; `weak`: a weak exchange fails spuriously
    | Enter                         // single_run calls the daemon function
    | Create(ok: bool)              // single_start creates the daemon thread
    | Quit                          // the daemon decides to end by itself

  datatype Step = Step(thread: nat, action: Action)

  /** The flag after a thread at `pc` has accessed it. */
  function FlagAfter(pc: Pc, flag: int, weak: bool): int {
    match pc
    case Comparing(_) => if flag == STOPPED && !weak then RUNNING else flag
    case AboutToStop => if flag == RUNNING then STOPPING else flag
    case Finishing => STOPPED
    case Abandoning => STOPPED
    case _ => flag
  }

  /** Where a thread at `pc` goes when it finds `flag`. */
  function PcAfter(pc: Pc, flag: int, weak: bool): Pc {
    match pc
    case Comparing(f) =>
      if flag == STOPPED && !weak then Acquired(f) else if flag > 0 then Refused else Spinning(f)
    case Spinning(f) => if flag < 0 then pc else Comparing(f)
    case Working => if flag > 0 then Working else Finishing
    case Finishing => Idle
    case Abandoning => Idle
    case AboutToStop => Idle
    case AskingToJoin => if flag > 0 then Joining else Skipped
    case Joining => if flag != 0 then Joining else Joined
    case _ => pc
  }

  predicate CanStep(w: World, s: Step) {
    if s.action == NewThread then true
    else s.thread < |w.pcs| && var pc := w.pcs[s.thread];
      match s.action
      case Begin(first) => Resting(pc) && (first.Comparing? || first in {AboutToStop, AskingToJoin, Joining})
      case Access(_) => !Resting(pc) && !pc.Acquired?
      case Enter => pc == Acquired(true)
      case Create(_) => pc == Acquired(false)
      case Quit => pc == Working
      case NewThread => true
  }

  function Next(w: World, s: Step): World
    requires CanStep(w, s)
  {
    var t := s.thread;
    match s.action
    case NewThread => w.(pcs := w.pcs + [Idle])
    case Begin(first) => w.(pcs := w.pcs[t := first])
    case Access(weak) => World(FlagAfter(w.pcs[t], w.flag, weak), w.pcs[t := PcAfter(w.pcs[t], w.flag, weak)])
    case Enter => w.(pcs := w.pcs[t := Working])
    case Create(ok) => if ok then w.(pcs := w.pcs[t := Idle] + [Working]) else w.(pcs := w.pcs[t := Abandoning])
    case Quit => w.(pcs := w.pcs[t := Abandoning])
  }

  predicate Initial(w: World) {
    w.flag == STOPPED && forall t :: 0 <= t < |w.pcs| ==> w.pcs[t] == Idle
  }

  /** A run: `ws[k]` is the world before step `k`. */
  predicate IsRun(ws: seq<World>, steps: seq<Step>) {
    && |ws| == |steps| + 1
    && Initial(ws[0])
    && forall k :: 0 <= k < |steps| ==> CanStep(ws[k], steps[k]) && ws[k + 1] == Next(ws[k], steps[k])
  }

  // -------------------------------------------------------- mutual exclusion

  predicate HasOwner(w: World) {
    exists t :: 0 <= t < |w.pcs| && Owns(w.pcs[t])
  }

  predicate Inv(w: World) {
    && w.flag in {STOPPING, STOPPED, RUNNING}
    && (forall t, u :: 0 <= t < |w.pcs| && 0 <= u < |w.pcs| && Owns(w.pcs[t]) && Owns(w.pcs[u]) ==> t == u)
    && (HasOwner(w) <==> w.flag != STOPPED)
    && (forall t :: 0 <= t < |w.pcs| && w.pcs[t] == Finishing ==> w.flag == STOPPING)
  }

  /** Who owns after a step: the acquirer, the thread created to run the daemon, or who owned
      before and has neither finished nor passed the daemon on. */
  predicate OwnsNext(w: World, s: Step, u: nat) {
    || (Acquires(w, s) && u == s.thread)
    || (s.action == Create(true) && u == |w.pcs|)
    || (u < |w.pcs| && Owns(w.pcs[u]) && !((Finishes(w, s) || s.action == Create(true)) && u == s.thread))
  }

  lemma OwnsAfter(w: World, s: Step)
    requires CanStep(w, s)
    ensures forall u :: 0 <= u < |Next(w, s).pcs| ==> (Owns(Next(w, s).pcs[u]) <==> OwnsNext(w, s, u))
  {
  }

  /** The thread that acquires has not owned, the one that finishes or passes the daemon on has. */
  lemma MoverOwns(w: World, s: Step)
    requires CanStep(w, s)
    ensures |Next(w, s).pcs| == |w.pcs| + if s.action == Create(true) || s.action == NewThread then 1 else 0
    ensures Acquires(w, s) || Finishes(w, s) || s.action == Create(true) ==>
      s.thread < |w.pcs| && (Acquires(w, s) || Owns(w.pcs[s.thread]))
    ensures Finishes(w, s) ==> !Acquires(w, s) && s.action != Create(true)
  {
  }

  lemma FinishingAfter(w: World, s: Step)
    requires CanStep(w, s)
    ensures forall u :: 0 <= u < |Next(w, s).pcs| && Next(w, s).pcs[u] == Finishing ==>
      && u < |w.pcs| && !(Finishes(w, s) && u == s.thread)
      && (w.pcs[u] == Finishing || (w.pcs[u] == Working && w.flag <= 0))
  {
  }

  lemma OwnerStays(w: World, s: Step)
    requires Inv(w) && CanStep(w, s)
    ensures HasOwner(Next(w, s)) <==> Acquires(w, s) || (HasOwner(w) && !Finishes(w, s))
  {
    hide Owns, Acquires, Finishes, Next, CanStep;
    MoverOwns(w, s);
    OwnsAfter(w, s);
    var v := Next(w, s);
    if HasOwner(w) {
      var o :| 0 <= o < |w.pcs| && Owns(w.pcs[o]);
      var p := if s.action == Create(true) then |w.pcs| else o;
      assert OwnsNext(w, s, p) <==> Owns(v.pcs[p]);
    }
    if Acquires(w, s) {
      assert OwnsNext(w, s, s.thread) <==> Owns(v.pcs[s.thread]);
    }
    if HasOwner(v) {
      var o :| 0 <= o < |v.pcs| && Owns(v.pcs[o]);
      assert OwnsNext(w, s, o);
    }
  }

  lemma StepKeepsInv(w: World, s: Step)
    requires Inv(w) && CanStep(w, s)
    ensures Inv(Next(w, s))
  {
    MoverOwns(w, s);
    OwnerStays(w, s);
    FlagMoves(w, s);
    OwnsAfter(w, s);
    FinishingAfter(w, s);
    FlagOfAcquire(w, s);
    hide Next, CanStep, Owns, Acquires, Finishes, Stops;
  }

  lemma FlagOfAcquire(w: World, s: Step)
    ensures Acquires(w, s) ==> w.flag == STOPPED && !Finishes(w, s)
  {
  }

  /** In every run there is at most one owner, and one exists exactly while the flag is set. */
  lemma {:induction false} MutualExclusion(ws: seq<World>, steps: seq<Step>, k: nat)
    requires IsRun(ws, steps) && k < |ws|
    ensures Inv(ws[k])
    ensures forall t, u :: 0 <= t < u < |ws[k].pcs| ==> !(Owns(ws[k].pcs[t]) && Owns(ws[k].pcs[u]))
    ensures HasOwner(ws[k]) <==> ws[k].flag != STOPPED
  {
    if k > 0 {
      MutualExclusion(ws, steps, k - 1);
      StepKeepsInv(ws[k - 1], steps[k - 1]);
    }
  }

  // -------------------------------------------------------------- trace facts

  predicate Acquires(w: World, s: Step) {
    s.action.Access? && s.thread < |w.pcs| && w.pcs[s.thread].Comparing? && w.flag == STOPPED && !s.action.weak
  }

  predicate Finishes(w: World, s: Step) {
    s.action.Access? && s.thread < |w.pcs| && (w.pcs[s.thread] == Finishing || w.pcs[s.thread] == Abandoning)
  }

  predicate Stops(w: World, s: Step) {
    s.action.Access? && s.thread < |w.pcs| && w.pcs[s.thread] == AboutToStop && w.flag == RUNNING
  }

  /** Only these three change the flag. */
  lemma FlagMoves(w: World, s: Step)
    requires CanStep(w, s)
    ensures Next(w, s).flag ==
      if Acquires(w, s) then RUNNING else if Finishes(w, s) then STOPPED else if Stops(w, s) then STOPPING else w.flag
  {
  }

  /** A comparison decides at once: it refuses while the daemon runs, takes a stopped flag unless the
      exchange fails weakly, and goes on to wait otherwise. */
  lemma ComparisonDecides(w: World, s: Step)
    requires CanStep(w, s) && s.action.Access? && w.pcs[s.thread].Comparing?
    ensures var v := Next(w, s); var pc := v.pcs[s.thread]; var fg := w.pcs[s.thread].foreground;
      && (w.flag == 1 ==> pc == Refused && v.flag == 1)
      && (w.flag == 0 && !s.action.weak ==> pc == Acquired(fg) && v.flag == 1)
      && (w.flag == 0 && s.action.weak ==> pc == Spinning(fg) && v.flag == 0)
      && (w.flag == -1 ==> pc == Spinning(fg) && v.flag == -1)
  {
  }

  /** The other accesses: who waits goes on waiting only while the flag tells so, a daemon that asks
      goes on only while the flag is 1, a stop turns 1 into -1, and a finish stores 0. */
  lemma AccessesAct(w: World, s: Step)
    requires CanStep(w, s) && s.action.Access?
    ensures var v := Next(w, s); var pc := v.pcs[s.thread];
      match w.pcs[s.thread]
      case Spinning(fg) => v.flag == w.flag && pc == if w.flag < 0 then Spinning(fg) else Comparing(fg)
      case Joining => v.flag == w.flag && pc == if w.flag == 0 then Joined else Joining
      case AskingToJoin => v.flag == w.flag && pc == if w.flag > 0 then Joining else Skipped
      case Working => v.flag == w.flag && pc == if w.flag > 0 then Working else Finishing
      case AboutToStop => pc == Idle && v.flag == if w.flag == 1 then -1 else w.flag
      case Finishing => pc == Idle && v.flag == 0
      case Abandoning => pc == Idle && v.flag == 0
      case _ => true
  {
  }

  /** Between two successful acquires the owner of the first finished. */
  lemma AcquiresAlternate(ws: seq<World>, steps: seq<Step>, i: nat, j: nat)
    requires IsRun(ws, steps) && i < j < |steps| && Acquires(ws[i], steps[i]) && Acquires(ws[j], steps[j])
    ensures exists k :: i < k < j && Finishes(ws[k], steps[k])
  {
    FlagMoves(ws[i], steps[i]);
    if forall k :: i < k < j ==> !Finishes(ws[k], steps[k]) {
      StaysSet(ws, steps, i + 1, j);
    }
  }

  lemma {:induction false} StaysSet(ws: seq<World>, steps: seq<Step>, i: nat, j: nat)
    requires IsRun(ws, steps) && i <= j < |ws| && ws[i].flag != STOPPED
    requires forall k :: i <= k < j ==> !Finishes(ws[k], steps[k])
    ensures ws[j].flag != STOPPED
    ensures forall k :: i <= k < j ==> !Acquires(ws[k], steps[k])
  {
    if i < j {
      StaysSet(ws, steps, i, j - 1);
      FlagMoves(ws[j - 1], steps[j - 1]);
    }
  }

  /** Between two finishes, and before the first, somebody acquired. */
  lemma FinishesAlternate(ws: seq<World>, steps: seq<Step>, j: nat)
    requires IsRun(ws, steps) && j < |steps| && Finishes(ws[j], steps[j])
    ensures exists i :: 0 <= i < j && Acquires(ws[i], steps[i]) && forall k :: i < k < j ==> !Finishes(ws[k], steps[k])
  {
    MutualExclusion(ws, steps, j);
    assert Owns(ws[j].pcs[steps[j].thread]);
    var i := LastAcquire(ws, steps, j);
  }

  lemma {:induction false} LastAcquire(ws: seq<World>, steps: seq<Step>, j: nat) returns (i: nat)
    requires IsRun(ws, steps) && j < |ws| && ws[j].flag != STOPPED
    ensures i < j && Acquires(ws[i], steps[i]) && forall k :: i < k < j ==> !Finishes(ws[k], steps[k])
  {
    assert j > 0;
    FlagMoves(ws[j - 1], steps[j - 1]);
    if Acquires(ws[j - 1], steps[j - 1]) {
      i := j - 1;
    } else {
      i := LastAcquire(ws, steps, j - 1);
    }
  }

  /** A successful stop is not lost: until the owner stores STOPPED the flag stays STOPPING and
      nobody else becomes owner, and whenever the owner asks it is told not to continue. */
  lemma {:induction false} StopSticks(ws: seq<World>, steps: seq<Step>, i: nat, j: nat)
    requires IsRun(ws, steps) && i < j < |ws| && Stops(ws[i], steps[i])
    requires forall k :: i < k < j ==> !Finishes(ws[k], steps[k])
    ensures ws[j].flag == STOPPING && HasOwner(ws[j])
    ensures forall k :: i < k < j ==> !Acquires(ws[k], steps[k])
    ensures j < |steps| && steps[j].action.Access? && ws[j].pcs[steps[j].thread] == Working
      ==> ws[j + 1].pcs[steps[j].thread] == Finishing
  {
    FlagMoves(ws[j - 1], steps[j - 1]);
    if i < j - 1 {
      StopSticks(ws, steps, i, j - 1);
    }
    MutualExclusion(ws, steps, j);
  }

  /** The owner of the stopped daemon at step `j`: the owner `o` at the stop, or the thread that it
      has created since to run the daemon. */
  predicate Holds(ws: seq<World>, steps: seq<Step>, i: nat, o: nat, j: nat, h: nat)
    requires |ws| == |steps| + 1 && i <= j < |ws|
  {
    && h < |ws[j].pcs| && Owns(ws[j].pcs[h])
    && (h == o || (ws[j].pcs[h] != Acquired(false) && HandedOver(ws, steps, i, o, j, h)))
  }

  predicate HandedOver(ws: seq<World>, steps: seq<Step>, i: nat, o: nat, j: nat, h: nat)
    requires |ws| == |steps| + 1 && i <= j < |ws|
  {
    exists k :: i < k < j && steps[k] == Step(o, Create(true)) && h == |ws[k].pcs|
  }

  lemma HolderMoves(w: World, s: Step, h: nat)
    requires CanStep(w, s) && h < |w.pcs| && Owns(w.pcs[h]) && !(Finishes(w, s) && s.thread == h)
    ensures var v := Next(w, s);
      if s == Step(h, Create(true)) then |v.pcs| == |w.pcs| + 1 && v.pcs[|w.pcs|] == Working
      else h < |v.pcs| && Owns(v.pcs[h])
    ensures w.pcs[h] != Acquired(false) ==>
      s != Step(h, Create(true)) && h < |Next(w, s).pcs| && Next(w, s).pcs[h] != Acquired(false)
  {
  }

  lemma {:induction false} HolderUntil(ws: seq<World>, steps: seq<Step>, i: nat, o: nat, j: nat) returns (h: nat)
    requires IsRun(ws, steps) && i < j < |ws| && Stops(ws[i], steps[i]) && o < |ws[i].pcs| && Owns(ws[i].pcs[o])
    requires forall k :: i < k < j ==> !Finishes(ws[k], steps[k])
    ensures Holds(ws, steps, i, o, j, h)
  {
    hide Next, CanStep, Stops, Finishes, Owns;
    if j == i + 1 {
      StopIsNoFinish(ws[i], steps[i], o);
      HolderMoves(ws[i], steps[i], o);
      h := o;
    } else {
      var k := j - 1;
      var g := HolderUntil(ws, steps, i, o, k);
      HolderMoves(ws[k], steps[k], g);
      if steps[k] == Step(g, Create(true)) {
        h := |ws[k].pcs|;
        WorkingOwns();
      } else {
        h := g;
      }
    }
  }

  lemma WorkingOwns()
    ensures Owns(Working)
  {
  }

  lemma StopIsNoFinish(w: World, s: Step, o: nat)
    requires Stops(w, s) && o < |w.pcs| && Owns(w.pcs[o])
    ensures !Finishes(w, s) && s != Step(o, Create(true))
  {
  }

  lemma FinisherOwns(w: World, s: Step)
    requires CanStep(w, s) && Finishes(w, s)
    ensures s.thread < |w.pcs| && Owns(w.pcs[s.thread])
  {
  }

  /** A stop reaches the daemon it is for: the first thread that stores STOPPED after it is the owner
      at the time of the stop, or the one thread that this owner has created to run the daemon. */
  lemma StopReachesOwner(ws: seq<World>, steps: seq<Step>, i: nat, o: nat, j: nat)
    requires IsRun(ws, steps) && i < j < |steps| && Stops(ws[i], steps[i]) && o < |ws[i].pcs| && Owns(ws[i].pcs[o])
    requires Finishes(ws[j], steps[j]) && forall k :: i < k < j ==> !Finishes(ws[k], steps[k])
    ensures steps[j].thread == o || HandedOver(ws, steps, i, o, j, steps[j].thread)
  {
    hide Next, CanStep, Stops, Finishes, Owns, HandedOver;
    var h := HolderUntil(ws, steps, i, o, j);
    FinisherOwns(ws[j], steps[j]);
    MutualExclusion(ws, steps, j);
    assert h == steps[j].thread;
  }

  /** Step `k` stops the daemon, and up to `j` nobody acquires or finishes after it. */
  predicate LastStop(ws: seq<World>, steps: seq<Step>, k: nat, j: nat)
    requires |ws| == |steps| + 1 && j < |ws|
  {
    && k < j && Stops(ws[k], steps[k])
    && forall m :: k < m < j ==> !Acquires(ws[m], steps[m]) && !Finishes(ws[m], steps[m])
  }

  /** A stop is not misdirected: whoever sees STOPPING sees the effect of a stop that came after
      every acquire so far, so a daemon is only ever told to end by a stop meant for it. */
  lemma {:induction false} StopIsForThisOwner(ws: seq<World>, steps: seq<Step>, j: nat) returns (k: nat)
    requires IsRun(ws, steps) && j < |ws| && ws[j].flag == STOPPING
    ensures LastStop(ws, steps, k, j)
  {
    hide Acquires, Finishes, Stops, Next, CanStep;
    assert j > 0;
    FlagMoves(ws[j - 1], steps[j - 1]);
    if Stops(ws[j - 1], steps[j - 1]) {
      k := j - 1;
    } else {
      k := StopIsForThisOwner(ws, steps, j - 1);
    }
  }

  predicate FoundRunning(w: World, s: Step, t: nat) {
    s.thread == t && t < |w.pcs| && w.pcs[t].Comparing? && w.flag == RUNNING && HasOwner(w)
  }

  predicate FoundNoOwner(w: World, s: Step, t: nat) {
    s.thread == t && t < |w.pcs| && w.pcs[t] == Joining && !HasOwner(w)
  }

  /** An acquire is refused only by a thread that saw a running daemon. */
  lemma {:induction false} RefusedSawRunning(ws: seq<World>, steps: seq<Step>, j: nat, t: nat)
    requires IsRun(ws, steps) && j < |ws| && t < |ws[j].pcs| && ws[j].pcs[t] == Refused
    ensures exists k :: 0 <= k < j && FoundRunning(ws[k], steps[k], t)
  {
    var k := j - 1;
    assert ws[k + 1] == Next(ws[k], steps[k]);
    if t < |ws[k].pcs| && ws[k].pcs[t] == Refused {
      RefusedSawRunning(ws, steps, k, t);
    } else {
      MutualExclusion(ws, steps, k);
      assert steps[k].thread == t;
    }
  }

  /** A join returns only after an instant without any owner. */
  lemma {:induction false} JoinedSawNoOwner(ws: seq<World>, steps: seq<Step>, j: nat, t: nat)
    requires IsRun(ws, steps) && j < |ws| && t < |ws[j].pcs| && ws[j].pcs[t] == Joined
    ensures exists k :: 0 <= k < j && FoundNoOwner(ws[k], steps[k], t)
  {
    var k := j - 1;
    assert ws[k + 1] == Next(ws[k], steps[k]);
    if t < |ws[k].pcs| && ws[k].pcs[t] == Joined {
      JoinedSawNoOwner(ws, steps, k, t);
    } else {
      MutualExclusion(ws, steps, k);
      assert steps[k].thread == t;
    }
  }

  // ------------------------------------------------------- the inline join

  /** Thread `t` makes the first read of `single_join`. */
  predicate FirstRead(w: World, s: Step, t: nat) {
    s.thread == t && s.action.Access? && t < |w.pcs| && w.pcs[t] == AskingToJoin
  }

  /** An inline join that reads first at step `f` has returned at `j`. */
  predicate InlineJoin(ws: seq<World>, steps: seq<Step>, f: nat, j: nat, t: nat)
    requires |ws| == |steps| + 1 && j < |ws|
  {
    && f < j && FirstRead(ws[f], steps[f], t)
    && (forall m :: f < m < j ==> t < |ws[m].pcs| && ws[m].pcs[t] == Joining)
    && t < |ws[j].pcs| && (ws[j].pcs[t] == Joined || ws[j].pcs[t] == Skipped)
  }

  /** A returned inline join has seen an instant without an owner, since it looked, exactly when
      what it found first was not the flag that a stop leaves. */
  lemma JoinIsRightUnlessStopping(ws: seq<World>, steps: seq<Step>, f: nat, j: nat, t: nat)
    requires IsRun(ws, steps) && j < |ws| && InlineJoin(ws, steps, f, j, t)
    ensures (exists k :: f <= k <= j && !HasOwner(ws[k])) <==> ws[f].flag != STOPPING
    ensures ws[f].flag == STOPPING ==> j == f + 1
  {
    hide HasOwner, CanStep;
    MutualExclusion(ws, steps, f);
    FirstReadMoves(ws[f], steps[f], t);
    assert f + 1 < j ==> ws[f + 1].pcs[t] == Joining;
    if ws[f].flag == STOPPING {
      MutualExclusion(ws, steps, j);
    } else if ws[f].flag == RUNNING {
      assert ws[j] == Next(ws[j - 1], steps[j - 1]);
      MutualExclusion(ws, steps, j - 1);
      LastReadMoves(ws[j - 1], steps[j - 1], t);
      assert !HasOwner(ws[j - 1]);
    } else {
      assert !HasOwner(ws[f]);
    }
  }

  lemma FirstReadMoves(w: World, s: Step, t: nat)
    requires CanStep(w, s) && FirstRead(w, s, t)
    ensures var v := Next(w, s);
      v.flag == w.flag && t < |v.pcs| && v.pcs[t] == if w.flag > 0 then Joining else Skipped
  {
  }

  lemma LastReadMoves(w: World, s: Step, t: nat)
    requires CanStep(w, s) && t < |w.pcs| && w.pcs[t] == Joining && Next(w, s).pcs[t] != Joining
    ensures w.flag == STOPPED
  {
  }

  /** A join whose first read comes after a successful stop, and before the daemon has finished,
      returns at once with the daemon still there. */
  lemma StopThenJoinDoesNotWait(ws: seq<World>, steps: seq<Step>, i: nat, f: nat, t: nat)
    requires IsRun(ws, steps) && i < f < |steps| && Stops(ws[i], steps[i]) && FirstRead(ws[f], steps[f], t)
    requires forall k :: i < k < f ==> !Finishes(ws[k], steps[k])
    ensures InlineJoin(ws, steps, f, f + 1, t) && ws[f + 1].pcs[t] == Skipped && HasOwner(ws[f + 1])
  {
    StopSticks(ws, steps, i, f);
    FirstReadMoves(ws[f], steps[f], t);
    MutualExclusion(ws, steps, f + 1);
  }

  predicate Moves(w: World, s: Step, v: World) {
    CanStep(w, s) && v == Next(w, s)
  }

  lemma RunOfMoves(ws: seq<World>, steps: seq<Step>)
    requires |ws| == |steps| + 1 && Initial(ws[0])
    requires forall k :: 0 <= k < |steps| ==> Moves(ws[k], steps[k], ws[k + 1])
    ensures IsRun(ws, steps)
  {
    forall k | 0 <= k < |steps| ensures CanStep(ws[k], steps[k]) && ws[k + 1] == Next(ws[k], steps[k]) {
      assert Moves(ws[k], steps[k], ws[k + 1]);
    }
  }

  lemma ExampleStarts(a: World, b: World, c: World, d: World)
    requires a == World(STOPPED, [Idle, Idle]) && b == World(STOPPED, [Comparing(true), Idle])
    requires c == World(RUNNING, [Acquired(true), Idle]) && d == World(RUNNING, [Working, Idle])
    ensures Moves(a, Step(0, Begin(Comparing(true))), b)
    ensures Moves(b, Step(0, Access(false)), c) && Moves(c, Step(0, Enter), d)
  {
  }

  lemma ExampleStops(a: World, b: World, c: World)
    requires a == World(RUNNING, [Working, Idle]) && b == World(RUNNING, [Working, AboutToStop])
    requires c == World(STOPPING, [Working, Idle])
    ensures Moves(a, Step(1, Begin(AboutToStop)), b) && Moves(b, Step(1, Access(false)), c)
    ensures Stops(b, Step(1, Access(false)))
  {
  }

  lemma ExampleJoins(a: World, b: World, c: World)
    requires a == World(STOPPING, [Working, Idle]) && b == World(STOPPING, [Working, AskingToJoin])
    requires c == World(STOPPING, [Working, Skipped])
    ensures Moves(a, Step(1, Begin(AskingToJoin)), b) && Moves(b, Step(1, Access(false)), c)
  {
  }

  /** Such a run exists: one thread stops the daemon and joins it, and the daemon works on. */
  lemma StopThenJoinExample() returns (ws: seq<World>, steps: seq<Step>)
    ensures IsRun(ws, steps) && |steps| == 7 && Stops(ws[4], steps[4]) && InlineJoin(ws, steps, 6, 7, 1)
    ensures ws[7].pcs == [Working, Skipped]
  {
    hide Moves, IsRun, Stops;
    var w0, w1 := World(STOPPED, [Idle, Idle]), World(STOPPED, [Comparing(true), Idle]);
    var w2, w3 := World(RUNNING, [Acquired(true), Idle]), World(RUNNING, [Working, Idle]);
    var w4, w5 := World(RUNNING, [Working, AboutToStop]), World(STOPPING, [Working, Idle]);
    var w6, w7 := World(STOPPING, [Working, AskingToJoin]), World(STOPPING, [Working, Skipped]);
    ExampleStarts(w0, w1, w2, w3);
    ExampleStops(w3, w4, w5);
    ExampleJoins(w5, w6, w7);
    ws := [w0, w1, w2, w3, w4, w5, w6, w7];
    steps := [Step(0, Begin(Comparing(true))), Step(0, Access(false)), Step(0, Enter), Step(1, Begin(AboutToStop)),
              Step(1, Access(false)), Step(1, Begin(AskingToJoin)), Step(1, Access(false))];
    RunOfMoves(ws, steps);
  }
}
