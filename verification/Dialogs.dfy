/** LEELEN dialogs as values: the four-state machine, its ack timer, and the effect of every
    operation on a dialog. */
module Dialogs {
  import opened CStrings
  import opened Messages

  // -------------------------------------------------------------------- time

  datatype Timespec = Timespec(sec: int, nsec: int) {
    predicate Normal() {
      0 <= nsec < 1_000_000_000
    }

    function Nanos(): int {
      sec * 1_000_000_000 + nsec
    }
  }

  predicate TimeoutReached(end: Timespec, beg: Timespec, timeoutSec: int, timeoutNsec: int) {
    var borrow := end.nsec - beg.nsec < 0;
    var sec := end.sec - beg.sec - if borrow then 1 else 0;
    var nsec := end.nsec - beg.nsec + if borrow then 1_000_000_000 else 0;
    sec > timeoutSec || (sec == timeoutSec && nsec >= timeoutNsec)
  }

  /** The borrow makes the comparison exact, also when the clock has stepped backwards. */
  lemma TimeoutReachedIsExact(end: Timespec, beg: Timespec, millis: nat)
    requires end.Normal() && beg.Normal()
    ensures TimeoutReached(end, beg, millis / 1000, millis % 1000 * 1_000_000)
       <==> end.Nanos() - beg.Nanos() >= millis * 1_000_000
  {
  }

  // ----------------------------------------------------------- state machine

  datatype State = Disconnected | Connecting | Connected | Disconnecting

  predicate Invites(code: nat) {
    code == CODE_CALL || code == CODE_VIEW || code == CODE_VOICE_MESSAGE || code == CODE_ACCEPTED
  }

  predicate Waiting(s: State) {
    s == Connecting || s == Disconnecting
  }

  /** After receiving a code and acking it. */
  function OnReceive(s: State, code: nat): State {
    if Invites(code) then Connected else if code == CODE_BYE then Disconnected else s
  }

  /** After sending a code. */
  function OnSend(s: State, code: nat): State {
    if Invites(code) then Connecting else if code == CODE_BYE then Disconnecting else s
  }

  /** After the peer acked the last code. */
  function OnAck(s: State): State {
    match s
    case Connecting => Connected
    case Disconnecting => Disconnected
    case _ => s
  }

  /** After the peer failed to ack the last code in time. */
  function OnNak(s: State): State {
    match s
    case Connecting => Disconnected
    case Disconnecting => Connected
    case _ => s
  }

  /** The part of a dialog that drives the protocol: its state and its ack timer, which is
      unset when the seconds are zero. */
  datatype Core = Core(state: State, sent: Timespec, timeout: nat)

  predicate TimedOut(c: Core, now: Timespec) {
    c.sent.sec == 0 || TimeoutReached(now, c.sent, c.timeout / 1000, c.timeout % 1000 * 1_000_000)
  }

  /** The dialog after asking whether the ack is overdue. */
  function Polled(c: Core, now: Timespec): Core {
    if c.sent.sec != 0 && TimedOut(c, now) then c.(sent := c.sent.(sec := 0), state := OnNak(c.state)) else c
  }

  function Sent(c: Core, code: nat, now: Timespec): Core {
    if code == CODE_OK then c else c.(state := OnSend(c.state, code), sent := now)
  }

  predicate ByeAllowed(c: Core) {
    c.state == Connecting || c.state == Connected
  }

  // ----------------------------------------------------------------- dialogs

  datatype Dialog = Dialog(
    id: nat,
    our: string, ourType: nat, their: string, theirType: nat,
    ourAudioPort: nat, ourVideoPort: nat, theirAudioPort: nat, theirVideoPort: nat,
    mtu: nat, core: Core, lastActivity: int)

  predicate IsNumber(s: string) {
    |s| < NUMBER_STRLEN && NUL !in s
  }

  predicate WellFormed(d: Dialog) {
    && d.id < U32 && IsNumber(d.our) && IsNumber(d.their) && d.ourType < U8 && d.theirType < U8
    && d.ourAudioPort < U16 && d.ourVideoPort < U16 && d.theirAudioPort < U16 && d.theirVideoPort < U16
  }

  function CodeMessage(d: Dialog, code: nat): Message {
    Message(d.id, code, d.our, d.ourType, d.their, 0, 0, [], [])
  }

  function MediaMessage(d: Dialog, code: nat, audio: seq<string>, video: seq<string>): Message {
    Message(d.id, code, d.our, d.ourType, d.their, d.ourAudioPort, d.ourVideoPort, audio, video)
  }

  /** The dialog after a datagram with this code went out (or failed to). */
  function AfterSend(d: Dialog, code: nat, now: Timespec, ok: bool): Dialog {
    if !ok || code == CODE_OK then d
    else d.(core := Sent(d.core, code, now), lastActivity := now.sec + 1)
  }

  /** Fields the peer tells about itself; absent ones do not overwrite what is known. */
  function Learn(d: Dialog, m: Message): Dialog {
    d.(their := if m.from == "" then d.their else m.from,
       theirType := if m.fromType == 0 then d.theirType else m.fromType,
       theirAudioPort := if m.audioPort == 0 then d.theirAudioPort else m.audioPort,
       theirVideoPort := if m.videoPort == 0 then d.theirVideoPort else m.videoPort)
  }

  datatype Reception = Reception(dialog: Dialog, ret: int, reply: Option<seq<char>>,
                                 audio: seq<string>, video: seq<string>)

  const RET_TIMEOUT := 254
  const RET_REFUSED := 255

  /** `LeelenDialog_receive`: `now` is the clock of the timer, `time` the one of the activity
      stamp, and `ok` says whether the ack can be sent. */
  function Receive(d: Dialog, msg: seq<char>, wantAudio: bool, wantVideo: bool,
                   now: Timespec, time: int, ok: bool): Reception
    requires |msg| >= HEADER_SIZE
  {
    if FromLe32(msg[4..8]) != d.id then Reception(d, RET_REFUSED, None, [], [])
    else
      var code := FromLe32(msg[..4]);
      if code == CODE_OK then ReceiveOk(d, msg, wantAudio, wantVideo, now, time)
      else ReceiveOther(d, msg, wantAudio, wantVideo, time, ok)
  }

  function ReceiveOk(d: Dialog, msg: seq<char>, wantAudio: bool, wantVideo: bool, now: Timespec, time: int): Reception
    requires |msg| >= HEADER_SIZE
  {
    var polled := d.(core := Polled(d.core, now));
    if TimedOut(d.core, now) then Reception(polled, RET_TIMEOUT, None, [], [])
    else
      var acked := polled.(core := polled.core.(state := OnAck(polled.core.state)), lastActivity := time);
      if !wantAudio && !wantVideo then Reception(acked, 0, None, [], [])
      else
        var m := Parse(msg, !wantAudio, !wantVideo);
        Reception(Learn(acked, m), 0, None, m.audioFormats, m.videoFormats)
  }

  function ReceiveOther(d: Dialog, msg: seq<char>, wantAudio: bool, wantVideo: bool, time: int, ok: bool): Reception
    requires |msg| >= HEADER_SIZE
  {
    var m := Parse(msg, !wantAudio, !wantVideo);
    var known := Learn(d, m);
    if !ok then Reception(known, -1, None, [], [])
    else
      var state := OnReceive(known.core.state, FromLe32(msg[..4]));
      Reception(known.(core := known.core.(state := state), lastActivity := time), 0,
                Some(Datagram(CodeMessage(known, CODE_OK), MIN_SIZE)), m.audioFormats, m.videoFormats)
  }
}
