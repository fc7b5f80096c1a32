/** The discovery rendezvous: callers that reset a shared result, send a solicitation and wait,
    and a receive loop that fills the result from the first advertisement. Every access to the
    shared record is a step of its own; any number of threads take part. */
module Discovery {

  const TIMED_OUT := 254
  const LAST_ANSWER := 8

  /** The parsed sender of an advertisement; only its identity matters here. */
  type Host = int

  datatype Pc =
    | Idle
    // LeelenDiscovery_discovery
    | WantsCall                                // about to lock
    | Resetting                                // locked, about to store 254
    | Sending                                  // locked, about to send the solicitation
    | Waiting                                  // in cnd_timedwait, not locked
    | FetchingHost                             // woken, locked again
    | FetchingResult(host: Host)
    | Fetched(result: int, host: Host)         // about to unlock
    | SendFailed(result: int)                  // locked, about to unlock
    | Answered(result: int, host: Host)        // has returned after a successful send
    | NotSent(result: int)                     // has returned an error
    // the advertisement branch of the receive loop
    | Received(code: int, host: Host)          // about to look at the result without the lock
    | WantsStore(code: int, host: Host)        // about to lock
    | Rechecking(code: int, host: Host)        // locked
    | StoringHost(code: int, host: Host)
    | StoringResult(code: int, host: Host)
    | Stored                                   // about to unlock

  datatype World = World(result: int, host: Host, lock: int, pcs: seq<Pc>)

  const NOBODY := -1

  predicate Locked(pc: Pc) {
    || pc == Resetting || pc == Sending || pc == FetchingHost || pc.FetchingResult? || pc.Fetched? || pc.SendFailed?
    || pc.Rechecking? || pc.StoringHost? || pc.StoringResult? || pc == Stored
  }

  predicate Resting(pc: Pc) {
    pc == Idle || pc.Answered? || pc.NotSent?
  }

  /** `choice` is the outcome of a send, or drops an advertisement to another address. */
  datatype Step =
    | NewThread
    | Call(thread: nat)
    | Advertise(thread: nat, code: int, host: Host)
    | Go(thread: nat, choice: int)

  predicate CanStep(w: World, s: Step) {
    match s
    case NewThread => true
    case Call(t) => t < |w.pcs| && Resting(w.pcs[t])
    case Advertise(t, code, _) => t < |w.pcs| && Resting(w.pcs[t]) && 0 <= code < 8
    case Go(t, _) =>
      && t < |w.pcs| && !Resting(w.pcs[t])
      && (w.pcs[t] == WantsCall || w.pcs[t] == Waiting || w.pcs[t].WantsStore? ==> w.lock == NOBODY)
  }

  function Next(w: World, s: Step): World
    requires CanStep(w, s)
  {
    match s
    case NewThread => w.(pcs := w.pcs + [Idle])
    case Call(t) => w.(pcs := w.pcs[t := WantsCall])
    case Advertise(t, code, host) => w.(pcs := w.pcs[t := Received(code, host)])
    case Go(t, choice) => Advance(w, t, choice)
  }

  function Advance(w: World, t: nat, choice: int): World
    requires CanStep(w, Go(t, choice))
  {
    var to := (pc: Pc) => w.pcs[t := pc];
    match w.pcs[t]
    case WantsCall => w.(lock := t, pcs := to(Resetting))
    case Resetting => w.(result := TIMED_OUT, pcs := to(Sending))
    case Sending => if choice == 0 then w.(lock := NOBODY, pcs := to(Waiting)) else w.(pcs := to(SendFailed(choice)))
    case Waiting => w.(lock := t, pcs := to(FetchingHost))
    case FetchingHost => w.(pcs := to(FetchingResult(w.host)))
    case FetchingResult(host) => w.(pcs := to(Fetched(w.result, host)))
    case Fetched(result, host) => w.(lock := NOBODY, pcs := to(Answered(result, host)))
    case SendFailed(result) => w.(lock := NOBODY, pcs := to(NotSent(result)))
    case Received(code, host) =>
      w.(pcs := to(if w.result > LAST_ANSWER && choice == 0 then WantsStore(code, host) else Idle))
    case WantsStore(code, host) => w.(lock := t, pcs := to(Rechecking(code, host)))
    case Rechecking(code, host) => w.(pcs := to(if w.result > LAST_ANSWER then StoringHost(code, host) else Stored))
    case StoringHost(code, host) => w.(host := host, pcs := to(StoringResult(code, host)))
    case StoringResult(code, host) => w.(result := code, pcs := to(Stored))
    case Stored => w.(lock := NOBODY, pcs := to(Idle))
    case _ => w
  }

  predicate Initial(w: World) {
    w.result == 0 && w.lock == NOBODY && forall t :: 0 <= t < |w.pcs| ==> w.pcs[t] == Idle
  }

  predicate IsRun(ws: seq<World>, steps: seq<Step>) {
    && |ws| == |steps| + 1
    && Initial(ws[0])
    && forall k :: 0 <= k < |steps| ==> CanStep(ws[k], steps[k]) && ws[k + 1] == Next(ws[k], steps[k])
  }

  // --------------------------------------------------------------- invariant

  /** What a thread knows at each point, given what it holds. */
  predicate Knows(w: World, pc: Pc) {
    match pc
    case Received(code, _) => 0 <= code < 8
    case WantsStore(code, _) => 0 <= code < 8
    case Rechecking(code, _) => 0 <= code < 8
    case StoringHost(code, _) => 0 <= code < 8 && w.result > LAST_ANSWER
    case StoringResult(code, host) => 0 <= code < 8 && w.result > LAST_ANSWER && w.host == host
    case FetchingResult(host) => w.host == host
    case Fetched(result, host) => w.result == result && w.host == host
    case _ => true
  }

  /** The lock is held by exactly the thread that is at a locked point. */
  predicate LockInv(w: World) {
    && (forall t :: 0 <= t < |w.pcs| && Locked(w.pcs[t]) ==> w.lock == t)
    && (w.lock != NOBODY ==> 0 <= w.lock < |w.pcs| && Locked(w.pcs[w.lock]))
  }

  predicate Inv(w: World) {
    LockInv(w) && forall t :: 0 <= t < |w.pcs| ==> Knows(w, w.pcs[t])
  }

  lemma StepKeepsLock(w: World, s: Step)
    requires LockInv(w) && CanStep(w, s)
    ensures LockInv(Next(w, s))
  {
  }

  /** What an unlocked thread knows does not depend on the shared record. */
  lemma UnlockedKnows(w: World, v: World, pc: Pc)
    requires Knows(w, pc) && (!Locked(pc) || (v.result == w.result && v.host == w.host))
    ensures Knows(v, pc)
  {
  }

  lemma MoverKnows(w: World, t: nat, choice: int)
    requires CanStep(w, Go(t, choice)) && Knows(w, w.pcs[t])
    ensures var v := Advance(w, t, choice); |v.pcs| == |w.pcs| && Knows(v, v.pcs[t])
    ensures var v := Advance(w, t, choice); Locked(w.pcs[t]) || (v.result == w.result && v.host == w.host)
    ensures forall u :: 0 <= u < |w.pcs| && u != t ==> Advance(w, t, choice).pcs[u] == w.pcs[u]
  {
  }

  lemma StepKeepsInv(w: World, s: Step)
    requires Inv(w) && CanStep(w, s)
    ensures Inv(Next(w, s))
  {
    hide Advance;
    StepKeepsLock(w, s);
    var v := Next(w, s);
    if s.Go? {
      MoverKnows(w, s.thread, s.choice);
      hide Knows;
      forall u | 0 <= u < |v.pcs| ensures Knows(v, v.pcs[u]) {
        if u != s.thread {
          UnlockedKnows(w, v, w.pcs[u]);
        }
      }
    }
  }

  lemma {:induction false} RunKeepsInv(ws: seq<World>, steps: seq<Step>, k: nat)
    requires IsRun(ws, steps) && k < |ws|
    ensures Inv(ws[k])
  {
    if k > 0 {
      RunKeepsInv(ws, steps, k - 1);
      StepKeepsInv(ws[k - 1], steps[k - 1]);
    }
  }

  // -------------------------------------------------------- first reply wins

  predicate At(w: World, s: Step, pc: Pc) {
    s.Go? && s.thread < |w.pcs| && w.pcs[s.thread] == pc
  }

  predicate Resets(w: World, s: Step) {
    At(w, s, Resetting)
  }

  predicate StoresHost(w: World, s: Step) {
    s.Go? && s.thread < |w.pcs| && w.pcs[s.thread].StoringHost?
  }

  predicate StoresResult(w: World, s: Step) {
    s.Go? && s.thread < |w.pcs| && w.pcs[s.thread].StoringResult?
  }

  /** Nothing has been stored since the last reset. */
  predicate Open(w: World) {
    w.result > LAST_ANSWER && forall t :: 0 <= t < |w.pcs| ==> !w.pcs[t].StoringResult?
  }

  lemma OnlyResetsOpen(w: World, s: Step)
    requires Inv(w) && CanStep(w, s)
    ensures StoresHost(w, s) ==> Open(w) && !Open(Next(w, s))
    ensures !Open(w) && !Resets(w, s) ==> !Open(Next(w, s))
  {
    var v := Next(w, s);
    if StoresHost(w, s) {
      assert Knows(w, w.pcs[s.thread]);
      assert v.pcs[s.thread].StoringResult?;
      assert forall t :: 0 <= t < |w.pcs| && w.pcs[t].StoringResult? ==> Locked(w.pcs[t]);
    } else if !Open(w) && !Resets(w, s) && w.result > LAST_ANSWER {
      var t :| 0 <= t < |w.pcs| && w.pcs[t].StoringResult?;
      assert Locked(w.pcs[t]) && Knows(w, w.pcs[t]);
      assert v.pcs[t] == w.pcs[t] || v.result <= LAST_ANSWER;
    }
  }

  lemma {:induction false} StaysClosed(ws: seq<World>, steps: seq<Step>, i: nat, j: nat)
    requires IsRun(ws, steps) && i <= j < |ws| && !Open(ws[i])
    requires forall k :: i <= k < j ==> !Resets(ws[k], steps[k])
    ensures !Open(ws[j])
  {
    if i < j {
      StaysClosed(ws, steps, i, j - 1);
      RunKeepsInv(ws, steps, j - 1);
      OnlyResetsOpen(ws[j - 1], steps[j - 1]);
    }
  }

  /** Between two writes of the shared host some caller has reset the result. */
  lemma FirstReplyWins(ws: seq<World>, steps: seq<Step>, i: nat, j: nat)
    requires IsRun(ws, steps) && i < j < |steps| && StoresHost(ws[i], steps[i]) && StoresHost(ws[j], steps[j])
    ensures exists k :: i < k < j && Resets(ws[k], steps[k])
  {
    RunKeepsInv(ws, steps, i);
    RunKeepsInv(ws, steps, j);
    OnlyResetsOpen(ws[i], steps[i]);
    OnlyResetsOpen(ws[j], steps[j]);
    if forall k :: i < k < j ==> !Resets(ws[k], steps[k]) {
      StaysClosed(ws, steps, i + 1, j);
    }
  }

  lemma HostMoves(w: World, s: Step)
    requires CanStep(w, s)
    ensures !StoresHost(w, s) ==> Next(w, s).host == w.host
  {
  }

  /** Advertisements that arrive before any discovery are ignored. */
  lemma {:induction false} UnsolicitedIsIgnored(ws: seq<World>, steps: seq<Step>, j: nat)
    requires IsRun(ws, steps) && j < |ws| && forall k :: 0 <= k < j ==> !Resets(ws[k], steps[k])
    ensures ws[j].host == ws[0].host && (j < |steps| ==> !StoresHost(ws[j], steps[j]))
  {
    if j > 0 {
      UnsolicitedIsIgnored(ws, steps, j - 1);
      HostMoves(ws[j - 1], steps[j - 1]);
    }
    StaysClosed(ws, steps, 0, j);
    RunKeepsInv(ws, steps, j);
    if j < |steps| {
      OnlyResetsOpen(ws[j], steps[j]);
    }
  }

  // ------------------------------------------------------------ fresh replies

  /** Step `k` stores this reply, and up to `j` nothing is stored or reset after it. */
  predicate LastStore(ws: seq<World>, steps: seq<Step>, k: nat, j: nat, code: int, host: Host)
    requires |ws| == |steps| + 1 && j < |ws|
  {
    && k < j && At(ws[k], steps[k], StoringHost(code, host))
    && forall m :: k < m < j ==> !StoresHost(ws[m], steps[m]) && !Resets(ws[m], steps[m])
  }

  lemma LastStoreGoesOn(ws: seq<World>, steps: seq<Step>, k: nat, j: nat, code: int, host: Host)
    requires |ws| == |steps| + 1 && j + 1 < |ws| && LastStore(ws, steps, k, j, code, host)
    requires !StoresHost(ws[j], steps[j]) && !Resets(ws[j], steps[j])
    ensures LastStore(ws, steps, k, j + 1, code, host)
  {
  }

  /** While a thread holds the lock nobody else stores or resets. */
  lemma HolderIsAlone(w: World, s: Step, t: nat)
    requires Inv(w) && CanStep(w, s) && t < |w.pcs| && Locked(w.pcs[t])
    requires StoresHost(w, s) || Resets(w, s)
    ensures s.thread == t
  {
  }

  /** A thread comes to storing its result code only by storing the host. */
  lemma IntoStoringResult(w: World, s: Step, t: nat)
    requires CanStep(w, s) && t < |Next(w, s).pcs| && Next(w, s).pcs[t].StoringResult?
    ensures var pc := Next(w, s).pcs[t];
      (t < |w.pcs| && w.pcs[t] == pc) || (s.Go? && s.thread == t && At(w, s, StoringHost(pc.code, pc.host)))
  {
  }

  lemma {:induction false} StorerStored(ws: seq<World>, steps: seq<Step>, j: nat, t: nat) returns (k: nat)
    requires IsRun(ws, steps) && j < |ws| && t < |ws[j].pcs| && ws[j].pcs[t].StoringResult?
    ensures LastStore(ws, steps, k, j, ws[j].pcs[t].code, ws[j].pcs[t].host)
  {
    hide Next, CanStep, Inv;
    assert j > 0;
    var w, s, pc := ws[j - 1], steps[j - 1], ws[j].pcs[t];
    IntoStoringResult(w, s, t);
    if t < |w.pcs| && w.pcs[t] == pc {
      k := StorerStored(ws, steps, j - 1, t);
      RunKeepsInv(ws, steps, j - 1);
      if StoresHost(w, s) || Resets(w, s) {
        HolderIsAlone(w, s, t);
      }
      LastStoreGoesOn(ws, steps, k, j - 1, pc.code, pc.host);
    } else {
      k := j - 1;
    }
  }

  /** A result other than a timeout was either just stored or there before, with the same host. */
  lemma IntoSettled(w: World, s: Step)
    requires Inv(w) && CanStep(w, s) && Next(w, s).result != TIMED_OUT
    ensures !Resets(w, s)
    ensures var v := Next(w, s);
      if StoresResult(w, s) then w.pcs[s.thread] == StoringResult(v.result, v.host) && !StoresHost(w, s)
      else v.result == w.result && (w.result <= LAST_ANSWER ==> v.host == w.host && !StoresHost(w, s))
  {
  }

  /** A settled result is the last stored reply, and it was stored after every reset so far. */
  lemma {:induction false} SettledBy(ws: seq<World>, steps: seq<Step>, r: nat, j: nat) returns (k: nat)
    requires IsRun(ws, steps) && r < j < |ws| && Resets(ws[r], steps[r]) && ws[j].result != TIMED_OUT
    ensures r < k && LastStore(ws, steps, k, j, ws[j].result, ws[j].host)
  {
    hide Next, CanStep, Inv;
    var w, s := ws[j - 1], steps[j - 1];
    RunKeepsInv(ws, steps, j - 1);
    IntoSettled(w, s);
    if StoresResult(w, s) {
      k := StorerStored(ws, steps, j - 1, s.thread);
    } else {
      k := SettledBy(ws, steps, r, j - 1);
      ResultRange(ws, steps, j - 1);
    }
    LastStoreGoesOn(ws, steps, k, j - 1, ws[j].result, ws[j].host);
  }

  lemma {:induction false} ResultRange(ws: seq<World>, steps: seq<Step>, j: nat)
    requires IsRun(ws, steps) && j < |ws|
    ensures 0 <= ws[j].result < 8 || ws[j].result == TIMED_OUT
  {
    if j > 0 {
      ResultRange(ws, steps, j - 1);
      RunKeepsInv(ws, steps, j - 1);
      var w, s := ws[j - 1], steps[j - 1];
      assert ws[j] == Next(w, s);
      if s.Go? {
        assert Knows(w, w.pcs[s.thread]);
      }
    }
  }

  predicate InCall(pc: Pc) {
    pc == Sending || pc == Waiting || pc == FetchingHost || pc.FetchingResult? || pc.Fetched?
  }

  /** Step `r` is the reset of the call that thread `t` has been in ever since. */
  predicate ThisCall(ws: seq<World>, steps: seq<Step>, r: nat, j: nat, t: nat)
    requires |ws| == |steps| + 1 && j < |ws|
  {
    && r < j && Resets(ws[r], steps[r]) && steps[r].thread == t
    && forall m :: r < m <= j ==> t < |ws[m].pcs| && InCall(ws[m].pcs[t])
  }

  lemma NotInCallAtFirst(w: World, t: nat)
    ensures Initial(w) && t < |w.pcs| ==> !InCall(w.pcs[t])
  {
  }

  /** A thread comes into the locked and waiting part of a call only by the reset. */
  lemma IntoCall(w: World, s: Step, t: nat)
    requires CanStep(w, s) && t < |Next(w, s).pcs| && InCall(Next(w, s).pcs[t])
    ensures (t < |w.pcs| && InCall(w.pcs[t])) || (s.Go? && s.thread == t && Resets(w, s))
  {
  }

  /** The reset of the call a thread is in: since then it has been in that call. */
  lemma {:induction false} CallReset(ws: seq<World>, steps: seq<Step>, j: nat, t: nat) returns (r: nat)
    requires IsRun(ws, steps) && j < |ws| && t < |ws[j].pcs| && InCall(ws[j].pcs[t])
    ensures ThisCall(ws, steps, r, j, t)
  {
    hide Next, CanStep, InCall, Resets;
    assert j > 0 by { NotInCallAtFirst(ws[0], t); }
    var w, s := ws[j - 1], steps[j - 1];
    IntoCall(w, s, t);
    if t < |w.pcs| && InCall(w.pcs[t]) {
      r := CallReset(ws, steps, j - 1, t);
    } else {
      r := j - 1;
    }
  }

  /** A thread that has read anything but a timeout has read a reply that was stored after its own
      reset, and is still the last one stored. */
  lemma FetchedReply(ws: seq<World>, steps: seq<Step>, j: nat, t: nat)
    requires IsRun(ws, steps) && j < |ws| && t < |ws[j].pcs| && ws[j].pcs[t].Fetched?
    requires ws[j].pcs[t].result != TIMED_OUT
    ensures exists r, k :: r < k && ThisCall(ws, steps, r, j, t)
                        && LastStore(ws, steps, k, j, ws[j].pcs[t].result, ws[j].pcs[t].host)
  {
    RunKeepsInv(ws, steps, j);
    assert Knows(ws[j], ws[j].pcs[t]);
    var r := CallReset(ws, steps, j, t);
    var k := SettledBy(ws, steps, r, j);
  }

  /** Step `f` unlocks and returns what thread `t` has fetched, and that is what it holds since. */
  predicate ReturnsAt(ws: seq<World>, steps: seq<Step>, f: nat, j: nat, t: nat, result: int, host: Host)
    requires |ws| == |steps| + 1 && j < |ws|
  {
    && f < j && steps[f].Go? && steps[f].thread == t && At(ws[f], steps[f], Fetched(result, host))
    && forall m :: f < m <= j ==> t < |ws[m].pcs| && ws[m].pcs[t] == Answered(result, host)
  }

  lemma IntoAnswered(w: World, s: Step, t: nat)
    requires CanStep(w, s) && t < |Next(w, s).pcs| && Next(w, s).pcs[t].Answered?
    ensures var pc := Next(w, s).pcs[t];
      (t < |w.pcs| && w.pcs[t] == pc) || (s.Go? && s.thread == t && At(w, s, Fetched(pc.result, pc.host)))
  {
  }

  lemma {:induction false} AnsweredFrom(ws: seq<World>, steps: seq<Step>, j: nat, t: nat) returns (f: nat)
    requires IsRun(ws, steps) && j < |ws| && t < |ws[j].pcs| && ws[j].pcs[t].Answered?
    ensures ReturnsAt(ws, steps, f, j, t, ws[j].pcs[t].result, ws[j].pcs[t].host)
  {
    hide Next, CanStep, At;
    assert j > 0;
    IntoAnswered(ws[j - 1], steps[j - 1], t);
    if t < |ws[j - 1].pcs| && ws[j - 1].pcs[t] == ws[j].pcs[t] {
      f := AnsweredFrom(ws, steps, j - 1, t);
    } else {
      f := j - 1;
    }
  }

  /** A call that returned anything but a timeout, after its solicitation went out, returned a reply
      that was stored after the call's own reset, and that was still the last one stored when the
      call fetched it. */
  lemma FreshReply(ws: seq<World>, steps: seq<Step>, j: nat, t: nat)
    requires IsRun(ws, steps) && j < |ws| && t < |ws[j].pcs| && ws[j].pcs[t].Answered?
    requires ws[j].pcs[t].result != TIMED_OUT
    ensures var pc := ws[j].pcs[t];
      exists r, k, f :: r < k && ReturnsAt(ws, steps, f, j, t, pc.result, pc.host)
                     && ThisCall(ws, steps, r, f, t) && LastStore(ws, steps, k, f, pc.result, pc.host)
  {
    hide ThisCall, LastStore, ReturnsAt;
    var f := AnsweredFrom(ws, steps, j, t);
    ReturnedFetched(ws, steps, f, j, t, ws[j].pcs[t].result, ws[j].pcs[t].host);
    FetchedReply(ws, steps, f, t);
  }

  lemma ReturnedFetched(ws: seq<World>, steps: seq<Step>, f: nat, j: nat, t: nat, result: int, host: Host)
    requires |ws| == |steps| + 1 && j < |ws| && ReturnsAt(ws, steps, f, j, t, result, host)
    ensures f < j && t < |ws[f].pcs| && ws[f].pcs[t] == Fetched(result, host)
  {
  }

  lemma IntoTimeout(w: World, s: Step)
    requires Inv(w) && CanStep(w, s) && Next(w, s).result == TIMED_OUT
    ensures Resets(w, s) || (w.result == TIMED_OUT && !StoresResult(w, s))
  {
    if s.Go? {
      assert Knows(w, w.pcs[s.thread]);
    }
  }

  /** A timeout is only read when no result has been stored since some caller's reset. */
  lemma {:induction false} TimeoutIsHonest(ws: seq<World>, steps: seq<Step>, j: nat)
    requires IsRun(ws, steps) && j < |ws| && ws[j].result == TIMED_OUT
    ensures exists r :: 0 <= r < j && Resets(ws[r], steps[r])
                     && forall m :: r < m < j ==> !StoresResult(ws[m], steps[m])
  {
    hide Next, CanStep, Inv;
    assert j > 0;
    RunKeepsInv(ws, steps, j - 1);
    IntoTimeout(ws[j - 1], steps[j - 1]);
    if !Resets(ws[j - 1], steps[j - 1]) {
      TimeoutIsHonest(ws, steps, j - 1);
      var r :| 0 <= r < j - 1 && Resets(ws[r], steps[r])
        && forall m :: r < m < j - 1 ==> !StoresResult(ws[m], steps[m]);
      assert forall m :: r < m < j ==> !StoresResult(ws[m], steps[m]);
    }
  }
}
