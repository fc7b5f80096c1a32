/** Two dialogs with the same identifier and the datagrams in flight between them, delivered
    in any order. */
module Network {
  import opened Messages
  import opened Dialogs
  import opened DialogRuns

  /** `toA` holds what is in flight to `a`; the order in it means nothing. */
  datatype Net = Net(a: Dialog, b: Dialog, toA: seq<seq<char>>, toB: seq<seq<char>>)

  function Swap(n: Net): Net {
    Net(n.b, n.a, n.toB, n.toA)
  }

  datatype Action =
    | Deliver(at: nat, wantAudio: bool, wantVideo: bool, now: Timespec, time: int, ok: bool)
    | MayBye(now: Timespec)
    | Invite(code: nat, audio: seq<string>, video: seq<string>, now: Timespec)
    | Check(now: Timespec)

  /** An action at side `a`, or at side `b` when `atB`. */
  datatype Move = Move(atB: bool, act: Action)

  predicate IsPacket(p: seq<char>) {
    |p| > HEADER_SIZE
  }

  predicate Packets(q: seq<seq<char>>) {
    forall i :: 0 <= i < |q| ==> IsPacket(q[i])
  }

  function Id(p: seq<char>): nat
    requires IsPacket(p)
  {
    FromLe32(p[4..8])
  }

  /** Taking one datagram out of those in flight. */
  function Without(q: seq<seq<char>>, i: nat): (r: seq<seq<char>>)
    requires i < |q|
    ensures |r| == |q| - 1
    ensures Packets(q) ==> Packets(r)
  {
    q[..i] + q[i + 1..]
  }

  predicate CanAct(n: Net, act: Action) {
    && Packets(n.toA) && Packets(n.toB)
    && match act
       case Deliver(at, _, _, _, _, _) => at < |n.toA|
       case MayBye(now) => n.a.id != 0 && ByeAllowed(n.a.core)
       case Invite(code, _, _, _) => n.a.id != 0 && n.a.mtu >= MIN_SIZE && code in {0x001, 0x002, 0x215, 0x217}
       case Check(now) => true
  }

  function Heard(n: Net, act: Action): Reception
    requires CanAct(n, act) && act.Deliver?
  {
    Receive(n.a, Received(n.toA[act.at]), act.wantAudio, act.wantVideo, act.now, act.time, act.ok)
  }

  function Act(n: Net, act: Action): (r: Net)
    requires CanAct(n, act)
    ensures Packets(r.toA) && Packets(r.toB)
  {
    match act
    case Deliver(at, _, _, _, _, _) =>
      var r := Heard(n, act);
      RepliesAreAcks(n, act);
      n.(a := r.dialog, toA := Without(n.toA, at),
         toB := if r.reply.Some? then n.toB + [r.reply.value] else n.toB)
    case MayBye(now) =>
      n.(a := AfterSend(n.a, CODE_BYE, now, true), toB := n.toB + [Datagram(CodeMessage(n.a, CODE_BYE), MIN_SIZE)])
    case Invite(code, audio, video, now) =>
      n.(a := AfterSend(n.a, code, now, true),
         toB := n.toB + [Datagram(MediaMessage(n.a, code, audio, video), n.a.mtu)])
    case Check(now) => n.(a := n.a.(core := Polled(n.a.core, now)))
  }

  predicate CanMove(n: Net, m: Move) {
    CanAct(if m.atB then Swap(n) else n, m.act)
  }

  function Next(n: Net, m: Move): (r: Net)
    requires CanMove(n, m)
  {
    if m.atB then Swap(Act(Swap(n), m.act)) else Act(n, m.act)
  }

  /** The moves can be made one after the other. */
  predicate CanRun(n: Net, ms: seq<Move>)
    decreases |ms|
  {
    ms == [] || (CanMove(n, ms[0]) && CanRun(Next(n, ms[0]), ms[1..]))
  }

  function Run(n: Net, ms: seq<Move>): Net
    requires CanRun(n, ms)
    decreases |ms|
  {
    if ms == [] then n else Run(Next(n, ms[0]), ms[1..])
  }

  // ----------------------------------------------------------- no ack storms

  function Cost(p: seq<char>): nat
    requires IsPacket(p)
  {
    if Code(p) == CODE_OK then 1 else 2
  }

  /** Twice the codes that want an ack plus the acks in flight. */
  function Weight(q: seq<seq<char>>): nat
    requires Packets(q)
  {
    if q == [] then 0 else Cost(q[|q| - 1]) + Weight(q[..|q| - 1])
  }

  lemma {:induction false} WeightWithout(q: seq<seq<char>>, i: nat)
    requires Packets(q) && i < |q|
    ensures Weight(q) == Cost(q[i]) + Weight(Without(q, i))
  {
    var last := |q| - 1;
    if i == last {
      assert Without(q, i) == q[..last];
    } else {
      WeightWithout(q[..last], i);
      assert Without(q, i)[..last - 1] == Without(q[..last], i);
    }
  }

  lemma HeaderSurvives(p: seq<char>)
    requires IsPacket(p)
    ensures Code(Received(p)) == Code(p) && FromLe32(Received(p)[4..8]) == Id(p)
  {
    assert Received(p)[..4] == p[..4] && Received(p)[4..8] == p[4..8];
  }

  lemma CodeOfDatagram(m: Message, mtu: nat)
    requires m.code < U32 && m.id < U32 && mtu >= MIN_SIZE
    ensures var g := Datagram(m, mtu); IsPacket(g) && Code(g) == m.code && Id(g) == m.id
  {
    var g := Datagram(m, mtu);
    assert g[..4] == Le32(m.code) && g[4..8] == Le32(m.id);
    Le32RoundTrip(m.code);
    Le32RoundTrip(m.id);
  }

  /** A delivery answers an OK with nothing and any other code with at most one OK. */
  lemma RepliesAreAcks(n: Net, act: Action)
    requires CanAct(n, act) && act.Deliver?
    ensures var r := Heard(n, act); var p := n.toA[act.at];
      && r.dialog.id == n.a.id && r.dialog.core.timeout == n.a.core.timeout
      && (r.reply.Some? <==> Code(p) != CODE_OK && Id(p) == n.a.id && act.ok)
      && (r.reply.Some? ==> IsPacket(r.reply.value) && Code(r.reply.value) == CODE_OK)
      && (r.reply.Some? && n.a.id < U32 ==> Id(r.reply.value) == n.a.id)
  {
    hide Parse, Datagram;
    var p := n.toA[act.at];
    HeaderSurvives(p);
    var r := Heard(n, act);
    if r.reply.Some? {
      CodeOfReply(r.dialog);
    }
  }

  lemma CodeOfReply(d: Dialog)
    ensures var g := Datagram(CodeMessage(d, CODE_OK), MIN_SIZE);
      IsPacket(g) && Code(g) == CODE_OK && (d.id < U32 ==> Id(g) == d.id)
  {
    var g := Datagram(CodeMessage(d, CODE_OK), MIN_SIZE);
    assert g[..4] == Le32(CODE_OK) && g[4..8] == Le32(d.id);
    Le32RoundTrip(CODE_OK);
    if d.id < U32 {
      Le32RoundTrip(d.id);
    }
  }

  function NetWeight(n: Net): nat
    requires Packets(n.toA) && Packets(n.toB)
  {
    Weight(n.toA) + Weight(n.toB)
  }

  lemma WeightSnoc(q: seq<seq<char>>, p: seq<char>)
    requires Packets(q) && IsPacket(p)
    ensures Packets(q + [p]) && Weight(q + [p]) == Weight(q) + Cost(p)
  {
  }

  /** Every delivery, timely or late, acked or not, leaves less to deliver. */
  lemma DeliveryLightens(n: Net, act: Action)
    requires CanAct(n, act) && act.Deliver?
    ensures NetWeight(Act(n, act)) < NetWeight(n)
  {
    hide Receive, Cost;
    RepliesAreAcks(n, act);
    WeightWithout(n.toA, act.at);
    var r := Heard(n, act);
    CostBounds(n.toA[act.at]);
    if r.reply.Some? {
      CostBounds(r.reply.value);
      WeightSnoc(n.toB, r.reply.value);
    }
  }

  lemma CostBounds(p: seq<char>)
    requires IsPacket(p)
    ensures 1 <= Cost(p) <= 2 && (Code(p) == CODE_OK <==> Cost(p) == 1)
  {
  }

  /** However the datagrams in flight are delivered, and whatever they are, an exchange in which
      neither side sends anything of its own is over after at most `NetWeight` deliveries. */
  lemma {:induction false} NoAckStorm(n: Net, ms: seq<Move>)
    requires Packets(n.toA) && Packets(n.toB)
    requires CanRun(n, ms) && forall i :: 0 <= i < |ms| ==> ms[i].act.Deliver?
    ensures var f := Run(n, ms); Packets(f.toA) && Packets(f.toB) && |ms| + NetWeight(f) <= NetWeight(n)
    decreases |ms|
  {
    hide Act, Weight, CanAct;
    if ms != [] {
      MoveLightens(n, ms[0]);
      NoAckStorm(Next(n, ms[0]), ms[1..]);
    }
  }

  lemma MoveLightens(n: Net, m: Move)
    requires CanMove(n, m) && m.act.Deliver?
    ensures Packets(n.toA) && Packets(n.toB) && Packets(Next(n, m).toA) && Packets(Next(n, m).toB)
    ensures NetWeight(Next(n, m)) < NetWeight(n)
  {
    hide Weight, Receive;
    DeliveryLightens(if m.atB then Swap(n) else n, m.act);
  }

  // ------------------------------------------------ setup and teardown converge

  /** Setting a call up and tearing it down are the same exchange with other states and codes. */
  datatype Phase = Setup | Teardown

  function First(phase: Phase): State {
    if phase == Setup then Disconnected else Connected
  }

  function Between(phase: Phase): State {
    if phase == Setup then Connecting else Disconnecting
  }

  function Last(phase: Phase): State {
    if phase == Setup then Connected else Disconnected
  }

  predicate IsPushCode(phase: Phase, code: nat) {
    if phase == Setup then code in {0x001, 0x002, 0x215, 0x217} else code == 0x214
  }

  predicate CarriesPush(q: seq<seq<char>>, phase: Phase)
    requires Packets(q)
  {
    exists i :: 0 <= i < |q| && IsPushCode(phase, Code(q[i]))
  }

  predicate CarriesAck(q: seq<seq<char>>)
    requires Packets(q)
  {
    exists i :: 0 <= i < |q| && Code(q[i]) == CODE_OK
  }

  /** Everything in flight belongs to the dialog and is an ack or a code of the phase. */
  predicate OfPhase(q: seq<seq<char>>, id: nat, phase: Phase)
    requires Packets(q)
  {
    forall i :: 0 <= i < |q| ==> Id(q[i]) == id && (Code(q[i]) == CODE_OK || IsPushCode(phase, Code(q[i])))
  }

  /** The invariant of a phase, seen from one side: `toPeer` and `toMe` are in flight. */
  predicate SideInv(me: Dialog, peer: Dialog, toMe: seq<seq<char>>, toPeer: seq<seq<char>>, phase: Phase)
    requires Packets(toMe) && Packets(toPeer)
  {
    var s := me.core.state;
    && 0 < me.id < U32 && me.core.timeout > 0
    && (s == First(phase) || s == Between(phase) || s == Last(phase))
    && (s == Between(phase) ==> me.core.sent.sec > 0)
    && OfPhase(toMe, me.id, phase)
    && (s == Between(phase) ==> CarriesPush(toPeer, phase) || CarriesAck(toMe))
    && (s == First(phase) && peer.core.state != First(phase) ==> CarriesPush(toMe, phase))
    && (CarriesPush(toPeer, phase) ==> s != First(phase))
  }

  predicate Inv(n: Net, phase: Phase) {
    && Packets(n.toA) && Packets(n.toB) && n.a.id == n.b.id
    && SideInv(n.a, n.b, n.toA, n.toB, phase)
    && SideInv(n.b, n.a, n.toB, n.toA, phase)
  }

  predicate OnlyAcks(q: seq<seq<char>>, id: nat)
    requires Packets(q)
  {
    forall i :: 0 <= i < |q| ==> Id(q[i]) == id && Code(q[i]) == CODE_OK
  }

  /** Both sides at rest in the first state of the phase and only acks in flight. */
  predicate Start(n: Net, phase: Phase) {
    && Packets(n.toA) && Packets(n.toB) && 0 < n.a.id == n.b.id < U32
    && n.a.core.timeout > 0 && n.b.core.timeout > 0
    && BothIn(n, First(phase)) && OnlyAcks(n.toA, n.a.id) && OnlyAcks(n.toB, n.a.id)
  }

  predicate BothIn(n: Net, s: State) {
    n.a.core.state == n.b.core.state == s
  }

  predicate IsPush(act: Action) {
    act.MayBye? || act.Invite?
  }

  /** What the phase allows: nothing is lost and nothing is late (acks can be sent, and no side
      that waits for an ack looks at its clock after the deadline); the only codes sent are
      guarded BYEs, or invitations, at any time and as often as a side likes. */
  predicate Timely(n: Net, act: Action, phase: Phase)
    requires CanAct(n, act)
  {
    && act.now.sec > 0
    && (act.Deliver? ==> act.ok)
    && (act.MayBye? ==> phase == Teardown)
    && (act.Invite? ==> phase == Setup)
    && (act.Check? || (act.Deliver? && Code(n.toA[act.at]) == CODE_OK) ==>
          Waiting(n.a.core.state) ==> !TimedOut(n.a.core, act.now))
  }

  lemma CarriesWithout(q: seq<seq<char>>, i: nat, phase: Phase)
    requires Packets(q) && i < |q|
    ensures CarriesPush(Without(q, i), phase) ==> CarriesPush(q, phase)
    ensures CarriesPush(q, phase) && !IsPushCode(phase, Code(q[i])) ==> CarriesPush(Without(q, i), phase)
    ensures CarriesAck(q) && Code(q[i]) != CODE_OK ==> CarriesAck(Without(q, i))
    ensures IsPushCode(phase, Code(q[i])) ==> CarriesPush(q, phase)
    ensures forall id :: OfPhase(q, id, phase) ==>
      OfPhase(Without(q, i), id, phase) && Id(q[i]) == id && (Code(q[i]) == CODE_OK || IsPushCode(phase, Code(q[i])))
  {
    var r := Without(q, i);
    assert forall k :: 0 <= k < |r| ==> r[k] == q[if k < i then k else k + 1];
    if CarriesPush(q, phase) && !IsPushCode(phase, Code(q[i])) {
      var k :| 0 <= k < |q| && IsPushCode(phase, Code(q[k]));
      assert r[if k < i then k else k - 1] == q[k];
    }
    if CarriesAck(q) && Code(q[i]) != CODE_OK {
      var k :| 0 <= k < |q| && Code(q[k]) == CODE_OK;
      assert r[if k < i then k else k - 1] == q[k];
    }
  }

  lemma CarriesSnoc(q: seq<seq<char>>, p: seq<char>, phase: Phase)
    requires Packets(q) && IsPacket(p)
    ensures Packets(q + [p])
    ensures CarriesPush(q + [p], phase) <==> CarriesPush(q, phase) || IsPushCode(phase, Code(p))
    ensures CarriesAck(q + [p]) <==> CarriesAck(q) || Code(p) == CODE_OK
    ensures forall id :: OfPhase(q + [p], id, phase) <==>
      OfPhase(q, id, phase) && Id(p) == id && (Code(p) == CODE_OK || IsPushCode(phase, Code(p)))
  {
    var r := q + [p];
    assert r[|q|] == p;
    assert forall k :: 0 <= k < |q| ==> r[k] == q[k];
    if CarriesPush(q, phase) {
      var k :| 0 <= k < |q| && IsPushCode(phase, Code(q[k]));
      assert r[k] == q[k];
    }
    if CarriesAck(q) {
      var k :| 0 <= k < |q| && Code(q[k]) == CODE_OK;
      assert r[k] == q[k];
    }
  }

  /** A timely delivery moves a side on exactly as the phase wants. */
  lemma DeliverMoves(n: Net, act: Action, phase: Phase)
    requires Inv(n, phase) && CanAct(n, act) && act.Deliver? && Timely(n, act, phase)
    ensures var p, c := n.toA[act.at], Heard(n, act).dialog.core;
      && c.timeout == n.a.core.timeout
      && (IsPushCode(phase, Code(p)) ==> c.state == Last(phase))
      && (Code(p) == CODE_OK ==>
            c.state == if n.a.core.state == Between(phase) then Last(phase) else n.a.core.state)
  {
    hide Receive;
    var p := n.toA[act.at];
    var e := Hear(Received(p), act.wantAudio, act.wantVideo, act.now, act.time, act.ok);
    HeaderSurvives(p);
    HearMovesCore(n.a, e);
  }

  lemma DeliverKeepsInv(n: Net, act: Action, phase: Phase)
    requires Inv(n, phase) && CanAct(n, act) && act.Deliver? && Timely(n, act, phase)
    ensures Inv(Act(n, act), phase) && Act(n, act).b == n.b
    ensures Act(n, act).a.core.state == First(phase) ==> n.a.core.state == First(phase)
  {
    hide Receive, CarriesPush, CarriesAck, OfPhase, Without;
    RepliesAreAcks(n, act);
    DeliverMoves(n, act, phase);
    var r := Heard(n, act);
    CarriesWithout(n.toA, act.at, phase);
    if r.reply.Some? {
      CarriesSnoc(n.toB, r.reply.value, phase);
    }
  }

  /** What a side puts on the wire of its own. */
  function Pushed(n: Net, act: Action): (p: seq<char>)
    requires CanAct(n, act) && IsPush(act)
    ensures IsPacket(p)
  {
    if act.MayBye? then Datagram(CodeMessage(n.a, CODE_BYE), MIN_SIZE)
    else Datagram(MediaMessage(n.a, act.code, act.audio, act.video), n.a.mtu)
  }

  lemma PushKeepsInv(n: Net, act: Action, phase: Phase)
    requires Inv(n, phase) && CanAct(n, act) && IsPush(act) && Timely(n, act, phase)
    ensures Inv(Act(n, act), phase) && Act(n, act).b == n.b
    ensures Act(n, act).a.core.state == Between(phase) && (phase == Teardown ==> n.a.core.state == First(phase))
    ensures NetWeight(Act(n, act)) == NetWeight(n) + 2
  {
    hide CarriesPush, CarriesAck, OfPhase, Datagram;
    var p := Pushed(n, act);
    if act.MayBye? {
      CodeOfDatagram(CodeMessage(n.a, CODE_BYE), MIN_SIZE);
    } else {
      CodeOfDatagram(MediaMessage(n.a, act.code, act.audio, act.video), n.a.mtu);
    }
    CarriesSnoc(n.toB, p, phase);
    WeightSnoc(n.toB, p);
  }

  lemma CheckKeepsInv(n: Net, act: Action, phase: Phase)
    requires Inv(n, phase) && CanAct(n, act) && act.Check? && Timely(n, act, phase)
    ensures Inv(Act(n, act), phase) && Act(n, act).b == n.b && Act(n, act).a.core.state == n.a.core.state
    ensures NetWeight(Act(n, act)) == NetWeight(n)
  {
    hide CarriesPush, CarriesAck;
  }

  /** The sides that are still in the first state. */
  function Firsts(n: Net, phase: Phase): nat {
    (if n.a.core.state == First(phase) then 1 else 0) + (if n.b.core.state == First(phase) then 1 else 0)
  }

  /** How much a move takes out of the network and puts into it. */
  predicate Pays(n: Net, act: Action, f: Net, phase: Phase)
    requires Packets(n.toA) && Packets(n.toB) && Packets(f.toA) && Packets(f.toB)
  {
    && NetWeight(f) + Moved(act) <= NetWeight(n) + 3 * SentBy(act)
    && (phase == Teardown ==> Firsts(f, phase) + SentBy(act) <= Firsts(n, phase))
  }

  function Moved(act: Action): nat {
    if act.Check? then 0 else 1
  }

  function SentBy(act: Action): nat {
    if IsPush(act) then 1 else 0
  }

  lemma ActTowardsEnd(n: Net, act: Action, phase: Phase)
    requires Inv(n, phase) && CanAct(n, act) && Timely(n, act, phase)
    ensures Inv(Act(n, act), phase) && Pays(n, act, Act(n, act), phase)
    ensures BothIn(Act(n, act), First(phase)) <==> BothIn(n, First(phase)) && !IsPush(act)
  {
    hide Act, Weight, SideInv;
    if act.Deliver? {
      DeliverKeepsInv(n, act, phase);
      DeliveryLightens(n, act);
      if BothIn(n, First(phase)) {
        StayTogether(n, act, phase);
      }
    } else if act.Check? {
      CheckKeepsInv(n, act, phase);
    } else {
      PushKeepsInv(n, act, phase);
    }
  }

  /** While both sides are in the first state only acks are in flight, which change no state. */
  lemma StayTogether(n: Net, act: Action, phase: Phase)
    requires Inv(n, phase) && CanAct(n, act) && act.Deliver? && Timely(n, act, phase) && BothIn(n, First(phase))
    ensures BothIn(Act(n, act), First(phase))
  {
    hide Receive, CarriesPush;
    CarriesWithout(n.toA, act.at, phase);
    DeliverMoves(n, act, phase);
  }

  lemma SwapInv(n: Net, phase: Phase)
    requires Inv(n, phase)
    ensures Inv(Swap(n), phase) && Swap(Swap(n)) == n
    ensures NetWeight(Swap(n)) == NetWeight(n) && Firsts(Swap(n), phase) == Firsts(n, phase)
  {
  }

  predicate TimelyMove(n: Net, m: Move, phase: Phase)
    requires CanMove(n, m)
  {
    Timely(if m.atB then Swap(n) else n, m.act, phase)
  }

  predicate TimelyRun(n: Net, ms: seq<Move>, phase: Phase)
    requires CanRun(n, ms)
    decreases |ms|
  {
    ms != [] ==> TimelyMove(n, ms[0], phase) && TimelyRun(Next(n, ms[0]), ms[1..], phase)
  }

  /** The deliveries and the codes sent. */
  function Moves(ms: seq<Move>): nat {
    if ms == [] then 0 else Moved(ms[0].act) + Moves(ms[1..])
  }

  /** The codes sent. */
  function Pushes(ms: seq<Move>): nat {
    if ms == [] then 0 else SentBy(ms[0].act) + Pushes(ms[1..])
  }

  predicate SomePush(ms: seq<Move>) {
    exists i :: 0 <= i < |ms| && IsPush(ms[i].act)
  }

  lemma SomePushSplits(ms: seq<Move>)
    requires ms != []
    ensures SomePush(ms) <==> IsPush(ms[0].act) || SomePush(ms[1..])
  {
  }

  /** The phase invariant along a run, and what the run has cost: every delivery takes something out
      of the network, and every code sent pays for three moves; a side can send only one BYE. */
  lemma {:induction false} RunTowardsEnd(n: Net, ms: seq<Move>, phase: Phase)
    requires Inv(n, phase) && CanRun(n, ms) && TimelyRun(n, ms, phase)
    ensures var f := Run(n, ms);
      && Inv(f, phase) && NetWeight(f) + Moves(ms) <= NetWeight(n) + 3 * Pushes(ms)
      && (phase == Teardown ==> Firsts(f, phase) + Pushes(ms) <= Firsts(n, phase))
      && (BothIn(f, First(phase)) <==> BothIn(n, First(phase)) && !SomePush(ms))
    decreases |ms|
  {
    hide SideInv, NetWeight, Firsts, Act, CanAct, Timely, BothIn, SomePush, IsPush;
    if ms == [] {
      NoPush();
    } else {
      MoveTowardsEnd(n, ms[0], phase);
      RunTowardsEnd(Next(n, ms[0]), ms[1..], phase);
      SomePushSplits(ms);
    }
  }

  lemma NoPush()
    ensures !SomePush([])
  {
  }

  lemma MoveTowardsEnd(n: Net, m: Move, phase: Phase)
    requires Inv(n, phase) && CanMove(n, m) && TimelyMove(n, m, phase)
    ensures Inv(Next(n, m), phase) && Pays(n, m.act, Next(n, m), phase)
    ensures BothIn(Next(n, m), First(phase)) <==> BothIn(n, First(phase)) && !IsPush(m.act)
  {
    hide SideInv, Act, CanAct, Timely, NetWeight, Firsts;
    if m.atB {
      SwapInv(n, phase);
      ActTowardsEnd(Swap(n), m.act, phase);
      SwapInv(Act(Swap(n), m.act), phase);
    } else {
      ActTowardsEnd(n, m.act, phase);
    }
  }

  predicate Quiet(n: Net) {
    n.toA == [] && n.toB == []
  }

  ghost predicate CanDeliver(n: Net, phase: Phase) {
    exists m: Move :: CanMove(n, m) && m.act.Deliver? && TimelyMove(n, m, phase)
  }

  /** Whatever the order of timely, lossless deliveries: the run is as short as what was in flight
      and what was sent allow; as long as something is in flight it can go on; and once nothing is,
      both sides have reached the last state of the phase if either sent its code, and are still in
      the first if neither did. */
  lemma PhaseConverges(n: Net, ms: seq<Move>, phase: Phase)
    requires Start(n, phase) && CanRun(n, ms) && TimelyRun(n, ms, phase)
    ensures Moves(ms) <= NetWeight(n) + 3 * Pushes(ms) && (phase == Teardown ==> Pushes(ms) <= 2)
    ensures var f := Run(n, ms);
      && (Quiet(f) && SomePush(ms) ==> BothIn(f, Last(phase)))
      && (!SomePush(ms) ==> BothIn(f, First(phase)))
      && (!Quiet(f) ==> CanDeliver(f, phase))
  {
    hide Act;
    assert Inv(n, phase) by {
      assert forall i :: 0 <= i < |n.toA| ==> !IsPushCode(phase, Code(n.toA[i]));
      assert forall i :: 0 <= i < |n.toB| ==> !IsPushCode(phase, Code(n.toB[i]));
    }
    RunTowardsEnd(n, ms, phase);
    var f := Run(n, ms);
    if !Quiet(f) {
      DeliveryIsPossible(f, phase);
    }
  }

  lemma DeliveryIsPossible(n: Net, phase: Phase)
    requires Inv(n, phase) && !Quiet(n)
    ensures CanDeliver(n, phase)
  {
    var atB := n.toA == [];
    var c := if atB then n.b.core else n.a.core;
    var m := Move(atB, Deliver(0, false, false, if Waiting(c.state) then c.sent else Timespec(1, 0), 0, true));
    assert Waiting(c.state) ==> !TimedOut(c, c.sent);
    assert CanMove(n, m) && TimelyMove(n, m, phase);
  }

  /** Teardown: two connected sides of which either or both send a guarded BYE end disconnected. */
  lemma TeardownConverges(n: Net, ms: seq<Move>)
    requires Start(n, Teardown) && CanRun(n, ms) && TimelyRun(n, ms, Teardown)
    ensures Quiet(Run(n, ms)) && SomePush(ms) ==> BothIn(Run(n, ms), Disconnected)
    ensures !Quiet(Run(n, ms)) ==> CanDeliver(Run(n, ms), Teardown)
    ensures Moves(ms) <= NetWeight(n) + 6
  {
    PhaseConverges(n, ms, Teardown);
  }

  /** Setup: two disconnected sides of which either or both send invitations, accept them, or repeat
      them, end connected. */
  lemma SetupConverges(n: Net, ms: seq<Move>)
    requires Start(n, Setup) && CanRun(n, ms) && TimelyRun(n, ms, Setup)
    ensures Quiet(Run(n, ms)) && SomePush(ms) ==> BothIn(Run(n, ms), Connected)
    ensures !Quiet(Run(n, ms)) ==> CanDeliver(Run(n, ms), Setup)
    ensures Moves(ms) <= NetWeight(n) + 3 * Pushes(ms)
  {
    PhaseConverges(n, ms, Setup);
  }
}
