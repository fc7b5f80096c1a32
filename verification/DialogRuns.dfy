/** What holds over whole runs of one dialog. */
module DialogRuns {
  import opened CStrings
  import opened Messages
  import opened Dialogs

  /** Everything that can happen to a dialog. Codes other than the guarded BYE are sent with
      `Say`; `ok` tells whether `sendto` succeeds. */
  datatype Event =
    | Poll(now: Timespec)
    | Say(code: nat, now: Timespec, ok: bool)
    | Bye(now: Timespec, ok: bool)
    | Hear(msg: seq<char>, wantAudio: bool, wantVideo: bool, now: Timespec, time: int, ok: bool)

  predicate ByeGoesOut(d: Dialog, e: Event) {
    e.Bye? && e.ok && d.id != 0 && ByeAllowed(d.core)
  }

  predicate Legible(e: Event) {
    e.Hear? ==> |e.msg| >= HEADER_SIZE
  }

  function Step(d: Dialog, e: Event): Dialog
    requires Legible(e)
  {
    match e
    case Poll(now) => d.(core := Polled(d.core, now))
    case Say(code, now, ok) => AfterSend(d, code, now, ok)
    case Bye(now, ok) => if d.id != 0 && ByeAllowed(d.core) then AfterSend(d, CODE_BYE, now, ok) else d
    case Hear(msg, wantAudio, wantVideo, now, time, ok) => Receive(d, msg, wantAudio, wantVideo, now, time, ok).dialog
  }

  function After(d: Dialog, es: seq<Event>): Dialog
    requires forall e :: e in es ==> Legible(e)
    decreases |es|
  {
    if es == [] then d else Step(After(d, es[..|es| - 1]), es[|es| - 1])
  }

  function Code(msg: seq<char>): nat
    requires |msg| >= HEADER_SIZE
  {
    FromLe32(msg[..4])
  }

  /** A received message moves the timer and the state, and nothing else in the core. */
  lemma HearMovesCore(d: Dialog, e: Event)
    requires e.Hear? && Legible(e)
    ensures var r := Receive(d, e.msg, e.wantAudio, e.wantVideo, e.now, e.time, e.ok);
      r.dialog.core ==
        if FromLe32(e.msg[4..8]) != d.id then d.core
        else if Code(e.msg) == CODE_OK then
          if TimedOut(d.core, e.now) then Polled(d.core, e.now) else d.core.(state := OnAck(d.core.state))
        else if e.ok then d.core.(state := OnReceive(d.core.state, Code(e.msg)))
        else d.core
  {
  }

  // ---------------------------------------------------- waiting implies armed

  predicate Armed(c: Core) {
    Waiting(c.state) ==> c.sent.sec != 0
  }

  predicate Clocked(e: Event) {
    e.now.sec > 0
  }

  lemma StepKeepsArmed(d: Dialog, e: Event)
    requires Armed(d.core) && Legible(e) && Clocked(e)
    ensures Armed(Step(d, e).core)
  {
    if e.Hear? {
      HearMovesCore(d, e);
    }
  }

  /** In every reachable dialog, whatever the timer held when the dialog was created, a dialog
      that waits for an ack has its timer set. */
  lemma {:induction false} WaitingIsArmed(d: Dialog, es: seq<Event>)
    requires d.core.state == Disconnected
    requires forall e :: e in es ==> Legible(e) && Clocked(e)
    ensures Armed(After(d, es).core)
    decreases |es|
  {
    hide Step;
    if es != [] {
      WaitingIsArmed(d, es[..|es| - 1]);
      assert es[|es| - 1] in es;
      StepKeepsArmed(After(d, es[..|es| - 1]), es[|es| - 1]);
    }
  }

  /** Hence a reported timeout always leaves a settled state, and asking again, at any later or
      earlier time, reports it again and changes nothing. */
  lemma TimeoutSettles(d: Dialog, es: seq<Event>, now: Timespec, again: Timespec)
    requires d.core.state == Disconnected
    requires forall e :: e in es ==> Legible(e) && Clocked(e)
    ensures var c := After(d, es).core;
      TimedOut(c, now) ==>
        && !Waiting(Polled(c, now).state)
        && (c.state == Connecting ==> Polled(c, now).state == Disconnected)
        && (c.state == Disconnecting ==> Polled(c, now).state == Connected)
        && (!Waiting(c.state) ==> Polled(c, now).state == c.state)
        && TimedOut(Polled(c, now), again)
        && Polled(Polled(c, now), again) == Polled(c, now)
  {
    WaitingIsArmed(d, es);
  }

  // ------------------------------------------------------- exact ack deadline

  /** An OK for a waiting dialog is the ack exactly when less than the timeout has passed. */
  lemma AckInTime(d: Dialog, msg: seq<char>, wantAudio: bool, wantVideo: bool, now: Timespec, time: int, ok: bool)
    requires |msg| >= HEADER_SIZE && FromLe32(msg[4..8]) == d.id && Code(msg) == CODE_OK
    requires Waiting(d.core.state) && Armed(d.core) && now.Normal() && d.core.sent.Normal()
    ensures var r := Receive(d, msg, wantAudio, wantVideo, now, time, ok);
      && (r.ret == 0 <==> now.Nanos() - d.core.sent.Nanos() < d.core.timeout * 1_000_000)
      && (r.ret == 0 || r.ret == RET_TIMEOUT)
      && (r.ret == 0 ==>
            r.dialog.core == d.core.(state := if d.core.state == Connecting then Connected else Disconnected))
      && (r.ret == 0 ==> r.dialog.lastActivity == time)
      && (r.ret == RET_TIMEOUT ==>
            r.dialog == d.(core := d.core.(state := if d.core.state == Connecting then Disconnected else Connected,
                                           sent := d.core.sent.(sec := 0))))
      && r.reply == None
  {
  }

  /** A code other than OK goes out. */
  predicate GoesOut(d: Dialog, e: Event) {
    (e.Say? && e.ok && e.code != CODE_OK) || ByeGoesOut(d, e)
  }

  /** The `k`-th event is the last one of the run that sends a code. */
  predicate LastSend(d: Dialog, es: seq<Event>, k: nat)
    requires forall e :: e in es ==> Legible(e)
  {
    && k < |es| && GoesOut(After(d, es[..k]), es[k])
    && forall m :: k < m < |es| ==> !GoesOut(After(d, es[..m]), es[m])
  }

  /** A code that goes out starts the timer; nothing else makes a dialog wait or moves the timer
      of one that goes on waiting. */
  lemma StepTimes(d: Dialog, e: Event)
    requires Legible(e) && Armed(d.core)
    ensures var c := Step(d, e).core;
      && (GoesOut(d, e) && Waiting(c.state) ==> c.sent == e.now)
      && (!GoesOut(d, e) && Waiting(c.state) ==> c.sent == d.core.sent && c.state == d.core.state)
  {
    hide Receive;
    if e.Hear? {
      HearMovesCore(d, e);
    }
  }

  lemma LastSendGoesOn(d: Dialog, es: seq<Event>, k: nat)
    requires (forall e :: e in es ==> Legible(e)) && es != []
    requires var n := |es| - 1;
      if GoesOut(After(d, es[..n]), es[n]) then k == n else LastSend(d, es[..n], k)
    ensures LastSend(d, es, k)
  {
    hide GoesOut, After;
    var n := |es| - 1;
    assert forall m :: 0 <= m < n ==> es[..n][..m] == es[..m] && es[..n][m] == es[m];
  }

  /** In every reachable dialog that waits for an ack the timer holds the time of the last send. */
  lemma {:induction false} WaitingSince(d: Dialog, es: seq<Event>) returns (k: nat)
    requires d.core.state == Disconnected
    requires forall e :: e in es ==> Legible(e) && Clocked(e)
    requires Waiting(After(d, es).core.state)
    ensures LastSend(d, es, k) && After(d, es).core.sent == es[k].now
    decreases |es|
  {
    hide Step, GoesOut, Clocked;
    var n := |es| - 1;
    var before := After(d, es[..n]);
    assert es[n] in es;
    WaitingIsArmed(d, es[..n]);
    StepTimes(before, es[n]);
    if GoesOut(before, es[n]) {
      k := n;
    } else {
      k := WaitingSince(d, es[..n]);
    }
    LastSendGoesOn(d, es, k);
  }

  lemma {:induction false} IdentityStays(d: Dialog, es: seq<Event>)
    requires forall e :: e in es ==> Legible(e)
    ensures After(d, es).id == d.id && After(d, es).core.timeout == d.core.timeout
    decreases |es|
  {
    hide Step;
    if es != [] {
      IdentityStays(d, es[..|es| - 1]);
      assert es[|es| - 1] in es;
      StepKeepsIdentity(After(d, es[..|es| - 1]), es[|es| - 1]);
    }
  }

  lemma StepKeepsIdentity(d: Dialog, e: Event)
    requires Legible(e)
    ensures Step(d, e).id == d.id && Step(d, e).core.timeout == d.core.timeout
  {
    hide Parse, Datagram;
  }

  /** After any run that leaves a dialog waiting, an OK is taken as the ack exactly when less than
      the timeout has passed since the run's last send, also when the clock was stepped back in
      between; otherwise the receive reports a timeout and the dialog falls back. */
  lemma AckDeadline(d: Dialog, es: seq<Event>, msg: seq<char>, wantAudio: bool, wantVideo: bool,
                    now: Timespec, time: int, ok: bool)
    requires now.Normal() && forall e :: e in es ==> Legible(e) && Clocked(e) && e.now.Normal()
    requires d.core.state == Disconnected && Waiting(After(d, es).core.state)
    requires |msg| >= HEADER_SIZE && FromLe32(msg[4..8]) == d.id && Code(msg) == CODE_OK
    ensures var s := After(d, es).core.state;
      var r := Receive(After(d, es), msg, wantAudio, wantVideo, now, time, ok);
      exists k: nat :: LastSend(d, es, k) &&
        if now.Nanos() - es[k].now.Nanos() < d.core.timeout * 1_000_000
        then r.ret == 0 && r.dialog.core.state == if s == Connecting then Connected else Disconnected
        else r.ret == RET_TIMEOUT && r.dialog.core.state == if s == Connecting then Disconnected else Connected
  {
    hide Receive, LastSend, After;
    var k := WaitingSince(d, es);
    WaitingIsArmed(d, es);
    IdentityStays(d, es);
    LastSendIndex(d, es, k);
    AckInTime(After(d, es), msg, wantAudio, wantVideo, now, time, ok);
  }

  lemma LastSendIndex(d: Dialog, es: seq<Event>, k: nat)
    requires (forall e :: e in es ==> Legible(e)) && LastSend(d, es, k)
    ensures k < |es| && es[k] in es
  {
  }

  // ----------------------------------------------------------- BYE discipline

  /** The ack timer runs out: the peer failed to answer. */
  predicate AckFails(d: Dialog, e: Event)
    requires Legible(e)
  {
    && d.core.sent.sec != 0
    && (e.Poll? || (e.Hear? && FromLe32(e.msg[4..8]) == d.id && Code(e.msg) == CODE_OK))
    && TimedOut(d.core, e.now)
  }

  /** An invite-class code is sent, or received and acked. */
  predicate Invited(d: Dialog, e: Event)
    requires Legible(e)
  {
    || (e.Say? && e.ok && e.code in {0x001, 0x002, 0x215, 0x217})
    || (e.Hear? && e.ok && FromLe32(e.msg[4..8]) == d.id && Code(e.msg) in {0x001, 0x002, 0x215, 0x217})
  }

  /** BYE is sent through the guarded call only. */
  predicate Disciplined(e: Event) {
    e.Say? ==> e.code != 0x214
  }

  predicate Ending(s: State) {
    s == Disconnecting || s == Disconnected
  }

  lemma StaysEnding(d: Dialog, e: Event)
    requires Ending(d.core.state) && Legible(e) && Disciplined(e)
    requires !AckFails(d, e) && !Invited(d, e)
    ensures Ending(Step(d, e).core.state) && !ByeGoesOut(d, e)
    ensures d.core.state == Disconnected ==> Step(d, e).core.state == Disconnected
  {
  }

  lemma ByeEnds(d: Dialog, e: Event)
    requires ByeGoesOut(d, e)
    ensures Ending(Step(d, e).core.state)
  {
  }

  lemma AfterNext(d: Dialog, es: seq<Event>, k: nat)
    requires k < |es| && forall e :: e in es ==> Legible(e)
    ensures es[k] in es && After(d, es[..k + 1]) == Step(After(d, es[..k]), es[k])
  {
    assert es[..k + 1][..k] == es[..k];
  }

  lemma {:induction false} EndingUntil(d: Dialog, es: seq<Event>, i: nat, j: nat)
    requires i < j <= |es| && (forall e :: e in es ==> Legible(e) && Disciplined(e))
    requires ByeGoesOut(After(d, es[..i]), es[i])
    requires forall k :: i < k < j ==> !AckFails(After(d, es[..k]), es[k]) && !Invited(After(d, es[..k]), es[k])
    ensures Ending(After(d, es[..j]).core.state)
    decreases j
  {
    hide AckFails, Invited, ByeGoesOut, Step, After, Ending, Disciplined;
    var k := j - 1;
    AfterNext(d, es, k);
    if k > i {
      EndingUntil(d, es, i, k);
      StaysEnding(After(d, es[..k]), es[k]);
    } else {
      ByeEnds(After(d, es[..k]), es[k]);
    }
  }

  /** Between two BYEs that went out the peer failed to ack in time, or an invite-class code
      was sent or received. */
  lemma ByeDiscipline(d: Dialog, es: seq<Event>, i: nat, j: nat)
    requires i < j < |es| && (forall e :: e in es ==> Legible(e) && Disciplined(e))
    requires ByeGoesOut(After(d, es[..i]), es[i]) && ByeGoesOut(After(d, es[..j]), es[j])
    ensures exists k :: i < k < j && (AckFails(After(d, es[..k]), es[k]) || Invited(After(d, es[..k]), es[k]))
  {
    if forall k :: i < k < j ==> !AckFails(After(d, es[..k]), es[k]) && !Invited(After(d, es[..k]), es[k]) {
      EndingUntil(d, es, i, j);
    }
  }

  lemma {:induction false} NeverInvitedUpTo(d: Dialog, es: seq<Event>, k: nat)
    requires d.core.state == Disconnected && (forall e :: e in es ==> Legible(e) && Disciplined(e)) && k <= |es|
    requires forall i :: 0 <= i < k ==> !Invited(After(d, es[..i]), es[i])
    ensures After(d, es[..k]).core.state == Disconnected
  {
    hide Invited, Step, Disciplined;
    if k > 0 {
      NeverInvitedUpTo(d, es, k - 1);
      AfterNext(d, es, k - 1);
      StaysDisconnected(After(d, es[..k - 1]), es[k - 1]);
    }
  }

  /** A dialog that is never invited stays disconnected and never sends a BYE. */
  lemma NeverInvited(d: Dialog, es: seq<Event>)
    requires d.core.state == Disconnected && (forall e :: e in es ==> Legible(e) && Disciplined(e))
    requires forall k :: 0 <= k < |es| ==> !Invited(After(d, es[..k]), es[k])
    ensures After(d, es).core.state == Disconnected
    ensures forall k :: 0 <= k < |es| ==> !ByeGoesOut(After(d, es[..k]), es[k])
  {
    hide Invited;
    assert es[..|es|] == es;
    NeverInvitedUpTo(d, es, |es|);
    forall k | 0 <= k < |es| ensures !ByeGoesOut(After(d, es[..k]), es[k]) {
      NeverInvitedUpTo(d, es, k);
    }
  }

  lemma StaysDisconnected(d: Dialog, e: Event)
    requires d.core.state == Disconnected && Legible(e) && Disciplined(e) && !Invited(d, e)
    ensures Step(d, e).core.state == Disconnected && !ByeGoesOut(d, e)
  {
  }

  /** Acking never moves the state or the timer of the dialog that acks. */
  lemma AckingIsNeutral(d: Dialog, now: Timespec, ok: bool)
    ensures Step(d, Say(CODE_OK, now, ok)) == d
  {
  }
}
