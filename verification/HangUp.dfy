/** Hanging up early: a side ends the call while its invitation, or the ack of it, may still be on
    the way. */
module HangUp {
  import opened CStrings
  import opened Messages
  import opened Dialogs
  import opened DialogRuns
  import opened Network

  predicate Settled(s: State) {
    s == Disconnected || s == Connected
  }

  predicate IsInvitation(code: nat) {
    code in {0x001, 0x002, 0x215, 0x217}
  }

  /** In flight to the side that is called: acks, invitations and BYEs of this dialog. */
  predicate Called(q: seq<seq<char>>, id: nat)
    requires Packets(q)
  {
    forall i :: 0 <= i < |q| ==>
      Id(q[i]) == id && (Code(q[i]) == 0x110 || Code(q[i]) == 0x214 || IsInvitation(Code(q[i])))
  }

  /** Something that wants an ack. */
  predicate Wanting(q: seq<seq<char>>)
    requires Packets(q)
  {
    exists i :: 0 <= i < |q| && Code(q[i]) != 0x110
  }

  predicate Inviting(q: seq<seq<char>>)
    requires Packets(q)
  {
    exists i :: 0 <= i < |q| && IsInvitation(Code(q[i]))
  }

  predicate Paired(n: Net) {
    Packets(n.toA) && Packets(n.toB) && 0 < n.a.id == n.b.id < U32 && n.a.core.timeout > 0 && n.b.core.timeout > 0
  }

  /** A caller that waits to be connected, or is; its peer is at rest; and in flight are acks, and
      invitations to the peer. */
  predicate Calling(n: Net) {
    && Paired(n)
    && (n.a.core.state == Connecting || n.a.core.state == Connected) && Settled(n.b.core.state)
    && OnlyAcks(n.toA, n.a.id) && Called(n.toB, n.a.id)
    && forall i :: 0 <= i < |n.toB| ==> Code(n.toB[i]) != 0x214
  }

  /** What holds after the caller has hung up. */
  predicate Ending(n: Net) {
    && Paired(n)
    && (n.a.core.state == Disconnecting || n.a.core.state == Disconnected) && Settled(n.b.core.state)
    && OnlyAcks(n.toA, n.a.id) && Called(n.toB, n.a.id)
    && (n.a.core.state == Disconnecting ==> n.a.core.sent.sec > 0 && (Wanting(n.toB) || n.toA != []))
  }

  predicate Passive(act: Action) {
    act.Deliver? || act.Check?
  }

  lemma WantingWithout(q: seq<seq<char>>, i: nat, id: nat)
    requires Packets(q) && i < |q| && Called(q, id)
    ensures Called(Without(q, i), id) && Id(q[i]) == id
    ensures Code(q[i]) == 0x110 || Code(q[i]) == 0x214 || IsInvitation(Code(q[i]))
    ensures Code(q[i]) == 0x110 ==> (Wanting(Without(q, i)) <==> Wanting(q))
    ensures Inviting(Without(q, i)) ==> Inviting(q)
    ensures IsInvitation(Code(q[i])) ==> Inviting(q)
    ensures Code(q[i]) != 0x110 ==> Wanting(q)
  {
    hide IsInvitation;
    var r := Without(q, i);
    assert forall k :: 0 <= k < |r| ==> r[k] == q[if k < i then k else k + 1];
    if Code(q[i]) == 0x110 && Wanting(q) {
      var k :| 0 <= k < |q| && Code(q[k]) != 0x110;
      assert r[if k < i then k else k - 1] == q[k];
    }
  }

  lemma AcksWithout(q: seq<seq<char>>, i: nat, id: nat)
    requires Packets(q) && i < |q| && OnlyAcks(q, id)
    ensures OnlyAcks(Without(q, i), id) && Id(q[i]) == id && Code(q[i]) == 0x110
  {
    var r := Without(q, i);
    assert forall k :: 0 <= k < |r| ==> r[k] == q[if k < i then k else k + 1];
  }

  lemma AcksSnoc(q: seq<seq<char>>, p: seq<char>, id: nat)
    requires Packets(q) && OnlyAcks(q, id) && IsPacket(p) && Id(p) == id && Code(p) == 0x110
    ensures Packets(q + [p]) && OnlyAcks(q + [p], id)
  {
  }

  /** What a delivery does to the core of the side that hears it. */
  lemma Delivered(n: Net, act: Action)
    requires CanAct(n, act) && act.Deliver? && act.ok && Id(n.toA[act.at]) == n.a.id
    ensures var c, p := Heard(n, act).dialog.core, n.toA[act.at];
      && c.timeout == n.a.core.timeout
      && (IsInvitation(Code(p)) ==> c.state == Connected)
      && (Code(p) == 0x214 ==> c.state == Disconnected)
      && (Code(p) == 0x110 && Settled(n.a.core.state) ==> c.state == n.a.core.state)
      && (Code(p) == 0x110 && n.a.core.state == Disconnecting && !TimedOut(n.a.core, act.now) ==>
            c.state == Disconnected)
  {
    hide Receive;
    var p := n.toA[act.at];
    HeaderSurvives(p);
    HearMovesCore(n.a, Hear(Received(p), act.wantAudio, act.wantVideo, act.now, act.time, act.ok));
  }

  /** A timely move of the caller leaves its peer and what is in flight to it alone. */
  lemma CallerMoves(n: Net, act: Action)
    requires Ending(n) && CanAct(n, act) && Timely(n, act, Teardown) && Passive(act)
    ensures var v := Act(n, act); Ending(v) && v.b == n.b && v.toB == n.toB
  {
    hide Receive, Wanting, Called;
    if act.Deliver? {
      AcksWithout(n.toA, act.at, n.a.id);
      RepliesAreAcks(n, act);
      Delivered(n, act);
    }
  }

  /** The state of the peer after it has heard a code. */
  function StateAfter(s: State, code: nat): State {
    if code == 0x214 then Disconnected else if IsInvitation(code) then Connected else s
  }

  /** A timely move of the peer: what it hears decides its state, and what wants an ack gets it. */
  lemma PeerMoves(n: Net, act: Action)
    requires Ending(n) && CanAct(Swap(n), act) && Timely(Swap(n), act, Teardown) && Passive(act)
    ensures var v := Swap(Act(Swap(n), act));
      && Ending(v)
      && v.b.core.state == (if act.Deliver? then StateAfter(n.b.core.state, Code(n.toB[act.at])) else n.b.core.state)
      && v.toB == (if act.Deliver? then Without(n.toB, act.at) else n.toB)
  {
    hide Receive, Wanting, Called, OnlyAcks;
    if act.Deliver? {
      WantingWithout(n.toB, act.at, n.a.id);
      RepliesAreAcks(Swap(n), act);
      Delivered(Swap(n), act);
      var r := Heard(Swap(n), act);
      if r.reply.Some? {
        AcksSnoc(n.toA, r.reply.value, n.a.id);
      }
    }
  }

  /** The code the peer hears in a move, if it hears one that wants an ack. */
  function HeardIn(n: Net, m: Move): Option<nat>
    requires CanMove(n, m)
  {
    if m.atB && m.act.Deliver? && Code(n.toB[m.act.at]) != 0x110 then Some(Code(n.toB[m.act.at])) else None
  }

  /** The last such code of a run. */
  function LastHeard(n: Net, ms: seq<Move>): Option<nat>
    requires CanRun(n, ms)
    decreases |ms|
  {
    if ms == [] then None
    else
      var rest := LastHeard(Next(n, ms[0]), ms[1..]);
      if rest.Some? then rest else HeardIn(n, ms[0])
  }

  lemma MoveEnds(n: Net, m: Move)
    requires Ending(n) && CanMove(n, m) && TimelyMove(n, m, Teardown) && Passive(m.act)
    ensures var v := Next(n, m); var h := HeardIn(n, m);
      && Ending(v)
      && v.b.core.state == (if h.Some? then StateAfter(n.b.core.state, h.value) else n.b.core.state)
      && (h.None? ==> (Wanting(v.toB) <==> Wanting(n.toB)))
      && (Inviting(v.toB) ==> Inviting(n.toB))
      && (h.Some? ==> Wanting(n.toB) && (h.value == 0x214 || (IsInvitation(h.value) && Inviting(n.toB))))
  {
    hide Act, Wanting, Inviting, Timely;
    if m.atB {
      PeerMoves(n, m.act);
      if m.act.Deliver? {
        WantingWithout(n.toB, m.act.at, n.a.id);
      }
    } else {
      CallerMoves(n, m.act);
    }
  }

  /** Along a run after the caller has hung up, the peer's state is what it heard last. */
  lemma {:induction false} RunEnds(n: Net, ms: seq<Move>)
    requires Ending(n) && CanRun(n, ms) && TimelyRun(n, ms, Teardown)
    requires forall i :: 0 <= i < |ms| ==> Passive(ms[i].act)
    ensures var f := Run(n, ms); var h := LastHeard(n, ms);
      && Ending(f)
      && f.b.core.state == (if h.Some? then StateAfter(n.b.core.state, h.value) else n.b.core.state)
      && (h.None? ==> (Wanting(f.toB) <==> Wanting(n.toB)))
      && (h.Some? ==> h.value == 0x214 || (IsInvitation(h.value) && Inviting(n.toB)))
    decreases |ms|
  {
    hide Ending, Wanting, Inviting, Next, CanMove, TimelyMove, HeardIn;
    if ms != [] {
      MoveEnds(n, ms[0]);
      RunEnds(Next(n, ms[0]), ms[1..]);
    }
  }

  /** Hanging up, in a call that is up or still being set up: what goes out is a BYE. */
  lemma ByeEndsCalling(n: Net, now: Timespec)
    requires Calling(n) && now.sec > 0
    ensures var m := Move(false, MayBye(now)); CanMove(n, m) && Ending(Next(n, m)) && Wanting(Next(n, m).toB)
    ensures Inviting(Next(n, Move(false, MayBye(now))).toB) ==> Inviting(n.toB)
  {
    hide Datagram;
    var m := Move(false, MayBye(now));
    CodeOfDatagram(CodeMessage(n.a, CODE_BYE), MIN_SIZE);
    var v := Next(n, m);
    assert v.toB[|n.toB|] == Datagram(CodeMessage(n.a, CODE_BYE), MIN_SIZE);
    assert forall i :: 0 <= i < |n.toB| ==> v.toB[i] == n.toB[i];
  }

  /** The caller hangs up before or after it has been connected, and all that is in flight arrives in
      time, in any order. Then the caller is disconnected; and its peer is exactly if the BYE was the
      last thing it heard: an invitation that arrives after the BYE connects it again. */
  lemma HangUpConverges(n: Net, now: Timespec, ms: seq<Move>)
    requires Calling(n) && now.sec > 0
    requires var v := Next(n, Move(false, MayBye(now))); CanRun(v, ms) && TimelyRun(v, ms, Teardown)
    requires forall i :: 0 <= i < |ms| ==> Passive(ms[i].act)
    ensures var v := Next(n, Move(false, MayBye(now))); var f := Run(v, ms);
      Quiet(f) ==>
        && f.a.core.state == Disconnected
        && (LastHeard(v, ms) == Some(0x214) || (LastHeard(v, ms).Some? && IsInvitation(LastHeard(v, ms).value)))
        && f.b.core.state == (if LastHeard(v, ms) == Some(0x214) then Disconnected else Connected)
        && (!Inviting(n.toB) ==> f.b.core.state == Disconnected)
  {
    ByeEndsCalling(n, now);
    hide Calling, Next, CanMove, LastHeard, Run, TimelyRun, CanRun, Inviting, IsInvitation;
    var v := Next(n, Move(false, MayBye(now)));
    RunEnds(v, ms);
    InvitationIsNoBye();
  }

  lemma InvitationIsNoBye()
    ensures !IsInvitation(0x214)
  {
  }

  // ---------------------------------------------------------------- overtaken

  /** A timely delivery of the first or the second datagram. */
  function Take(at: nat, now: Timespec): Action {
    Deliver(at, true, true, now, 0, true)
  }

  /** The peer hears something that wants an ack: it is gone, and its ack is on the way. */
  lemma PeerAcks(n: Net, at: nat, now: Timespec)
    requires Ending(n) && at < |n.toB| && Code(n.toB[at]) != 0x110 && now.sec > 0
    ensures var m := Move(true, Take(at, now));
      && CanMove(n, m) && TimelyMove(n, m, Teardown) && HeardIn(n, m) == Some(Code(n.toB[at]))
      && Ending(Next(n, m)) && Next(n, m).toB == Without(n.toB, at)
      && Next(n, m).a == n.a && |Next(n, m).toA| == |n.toA| + 1
  {
    hide Receive, Wanting;
    var m := Move(true, Take(at, now));
    assert CanMove(n, m) && Id(n.toB[at]) == n.a.id;
    PeerMoves(n, m.act);
    RepliesAreAcks(Swap(n), m.act);
  }

  /** The caller hears an ack. */
  lemma CallerHears(n: Net, now: Timespec)
    requires Ending(n) && n.toA != [] && now.sec > 0
    requires n.a.core.state == Disconnecting ==> !TimedOut(n.a.core, now)
    ensures var m := Move(false, Take(0, now));
      && CanMove(n, m) && TimelyMove(n, m, Teardown) && HeardIn(n, m) == None
      && Ending(Next(n, m)) && Next(n, m).toB == n.toB && |Next(n, m).toA| == |n.toA| - 1
      && Next(n, m).a.core.state == Disconnected
  {
    hide Receive, Wanting;
    var m := Move(false, Take(0, now));
    AcksWithout(n.toA, 0, n.a.id);
    CallerMoves(n, m.act);
    RepliesAreAcks(n, m.act);
    Delivered(n, m.act);
  }

  /** A timely move that leads from one net to another, and what the peer hears in it. */
  predicate Leads(n: Net, m: Move, v: Net, heard: Option<nat>) {
    CanMove(n, m) && TimelyMove(n, m, Teardown) && Next(n, m) == v && HeardIn(n, m) == heard
  }

  /** The peer hears the second datagram and then the first. */
  lemma PeerAcksBoth(n: Net, now: Timespec) returns (v1: Net, v2: Net)
    requires Ending(n) && |n.toB| == 2 && n.toA == [] && now.sec > 0
    requires Code(n.toB[0]) != 0x110 && Code(n.toB[1]) != 0x110
    ensures Leads(n, Move(true, Take(1, now)), v1, Some(Code(n.toB[1])))
    ensures Leads(v1, Move(true, Take(0, now)), v2, Some(Code(n.toB[0])))
    ensures Ending(v2) && v2.toB == [] && |v2.toA| == 2 && v2.a == n.a
  {
    hide Ending, Next, CanMove, TimelyMove, HeardIn;
    PeerAcks(n, 1, now);
    v1 := Next(n, Move(true, Take(1, now)));
    assert v1.toB == [n.toB[0]];
    PeerAcks(v1, 0, now);
    v2 := Next(v1, Move(true, Take(0, now)));
  }

  /** The caller hears both acks. */
  lemma CallerHearsBoth(n: Net, now: Timespec) returns (v3: Net, v4: Net)
    requires Ending(n) && n.toB == [] && |n.toA| == 2 && now.sec > 0 && !TimedOut(n.a.core, now)
    ensures Leads(n, Move(false, Take(0, now)), v3, None) && Leads(v3, Move(false, Take(0, now)), v4, None)
    ensures Quiet(v4)
  {
    hide Ending, Next, CanMove, TimelyMove, HeardIn, TimedOut;
    CallerHears(n, now);
    v3 := Next(n, Move(false, Take(0, now)));
    CallerHears(v3, now);
    v4 := Next(v3, Move(false, Take(0, now)));
  }

  lemma ByeIsSecond(n: Net, now: Timespec)
    requires Calling(n) && now.sec > 0 && |n.toB| == 1
    ensures CanMove(n, Move(false, MayBye(now)))
    ensures var v := Next(n, Move(false, MayBye(now)));
      && v.toA == n.toA && |v.toB| == 2 && v.toB[0] == n.toB[0] && IsPacket(v.toB[1]) && Code(v.toB[1]) == 0x214
      && !TimedOut(v.a.core, now)
  {
    hide Datagram;
    CodeOfDatagram(CodeMessage(n.a, CODE_BYE), MIN_SIZE);
  }

  lemma RunOfFour(n: Net, a: Move, v1: Net, b: Move, v2: Net, c: Move, v3: Net, d: Move, v4: Net, first: nat, last: nat)
    requires Leads(n, a, v1, Some(first)) && Leads(v1, b, v2, Some(last))
    requires Leads(v2, c, v3, None) && Leads(v3, d, v4, None)
    ensures var ms := [a, b, c, d];
      CanRun(n, ms) && TimelyRun(n, ms, Teardown) && Run(n, ms) == v4 && LastHeard(n, ms) == Some(last)
  {
    hide CanMove, TimelyMove, Next, HeardIn;
    assert [a, b, c, d][1..] == [b, c, d] && [b, c, d][1..] == [c, d] && [c, d][1..] == [d] && [d][1..] == [];
    assert CanRun(v3, [d]) && TimelyRun(v3, [d], Teardown) && Run(v3, [d]) == v4 && LastHeard(v3, [d]) == None;
    assert CanRun(v2, [c, d]) && TimelyRun(v2, [c, d], Teardown) && Run(v2, [c, d]) == v4;
    assert LastHeard(v2, [c, d]) == None;
    assert CanRun(v1, [b, c, d]) && TimelyRun(v1, [b, c, d], Teardown) && Run(v1, [b, c, d]) == v4;
    assert LastHeard(v1, [b, c, d]) == Some(last);
  }

  lemma InvitationWantsAck(code: nat)
    requires IsInvitation(code)
    ensures code != 0x110 && code != 0x214
  {
  }

  /** It does happen: whenever an invitation alone is on the way, hanging up can leave the peer
      connected, the BYE having overtaken the invitation. */
  lemma ByeOvertakes(n: Net, now: Timespec) returns (ms: seq<Move>)
    requires Calling(n) && now.sec > 0 && n.toA == [] && |n.toB| == 1 && IsInvitation(Code(n.toB[0]))
    ensures var v := Next(n, Move(false, MayBye(now)));
      && CanRun(v, ms) && TimelyRun(v, ms, Teardown) && (forall i :: 0 <= i < |ms| ==> Passive(ms[i].act))
      && Quiet(Run(v, ms)) && Run(v, ms).a.core.state == Disconnected && Run(v, ms).b.core.state == Connected
  {
    ByeEndsCalling(n, now);
    ByeIsSecond(n, now);
    InvitationWantsAck(Code(n.toB[0]));
    var peer1, peer0, caller := Move(true, Take(1, now)), Move(true, Take(0, now)), Move(false, Take(0, now));
    ms := [peer1, peer0, caller, caller];
    assert forall i :: 0 <= i < |ms| ==> Passive(ms[i].act);
    hide Calling, Ending, Wanting, Inviting, IsInvitation, Next, CanMove, TimelyMove, Leads;
    hide CanRun, TimelyRun, Run, LastHeard, TimedOut, Passive;
    var v := Next(n, Move(false, MayBye(now)));
    var v1, v2 := PeerAcksBoth(v, now);
    var v3, v4 := CallerHearsBoth(v2, now);
    RunOfFour(v, peer1, v1, peer0, v2, caller, v3, caller, v4, 0x214, Code(n.toB[0]));
    HangUpConverges(n, now, ms);
  }
}
