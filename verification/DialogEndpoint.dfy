/** A dialog as the mutable object its operations update in place. */
module DialogEndpoint {
  import opened CStrings
  import opened Messages
  import opened MessageCodec
  import MessageTheorems
  import opened Dialogs

  class LeelenDialog {
    var id: nat
    var our: string
    var ourType: nat
    var their: string
    var theirType: nat
    var ourAudioPort: nat
    var ourVideoPort: nat
    var theirAudioPort: nat
    var theirVideoPort: nat
    var mtu: nat
    var timeout: nat
    var state: State
    var lastSent: Timespec
    var lastActivity: int

    ghost function View(): Dialog
      reads this
    {
      Dialog(id, our, ourType, their, theirType, ourAudioPort, ourVideoPort, theirAudioPort, theirVideoPort,
             mtu, Core(state, lastSent, timeout), lastActivity)
    }

    ghost predicate Valid()
      reads this
    {
      WellFormed(View())
    }

    /** A new dialog. The last send time and the activity stamp are not set; `random` is the
        first non-zero random number, used when no identifier is given. */
    constructor (our: string, ourType: nat, their: Option<string>, id: nat, random: nat, timeout: nat,
                 audioPort: nat, videoPort: nat, mtu: nat)
      requires IsNumber(our) && (their.Some? ==> IsNumber(their.value))
      requires ourType < U8 && id < U32 && 0 < random < U32 && audioPort < U16 && videoPort < U16
      ensures Valid() && state == Disconnected
      ensures this.id == (if id == 0 then random else id) != 0
      ensures this.our == our && this.ourType == ourType && this.their == (if their.Some? then their.value else "")
      ensures this.timeout == timeout && this.mtu == mtu && ourAudioPort == audioPort && ourVideoPort == videoPort
      ensures theirType == theirAudioPort == theirVideoPort == 0
    {
      this.id := if id == 0 then random else id;
      this.our, this.ourType := our, ourType;
      this.their := if their.Some? then their.value else "";
      theirType := 0;
      this.timeout := timeout;
      ourAudioPort, ourVideoPort, theirAudioPort, theirVideoPort := audioPort, videoPort, 0, 0;
      this.mtu := mtu;
      state := Disconnected;
    }

    /** Whether the peer's ack is overdue; if it has just become so, the state falls back. */
    method AckTimeout(now: Timespec) returns (b: bool)
      modifies `state, `lastSent
      ensures b == TimedOut(old(View()).core, now)
      ensures View() == old(View()).(core := Polled(old(View()).core, now))
    {
      if lastSent.sec == 0 {
        return true;
      }
      if !TimeoutReached(now, lastSent, timeout / 1000, timeout % 1000 * 1_000_000) {
        return false;
      }
      lastSent := lastSent.(sec := 0);
      state := OnNak(state);
      return true;
    }

    /** Puts the first `len` bytes of `buf` on the wire; `ok` is the outcome of `sendto`. */
    method SendMsg(buf: array<char>, len: nat, now: Timespec, ok: bool) returns (ret: int, wire: Option<seq<char>>)
      requires 4 <= len <= buf.Length
      modifies `state, `lastSent, `lastActivity
      ensures ret == (if ok then 0 else -1) && wire == (if ok then Some(buf[..len]) else None)
      ensures View() == AfterSend(old(View()), FromLe32(buf[..4]), now, ok)
    {
      if !ok {
        return -1, None;
      }
      var code := FromLe32(buf[..4]);
      if code != CODE_OK {
        state := OnSend(state, code);
        lastSent := now;
        lastActivity := lastSent.sec + 1;
      }
      return 0, Some(buf[..len]);
    }

    /** Sends a bare code from a buffer of the minimum size, which always suffices. */
    method SendCode(code: nat, now: Timespec, ok: bool) returns (ret: int, wire: Option<seq<char>>)
      requires Valid() && code < U32
      modifies `state, `lastSent, `lastActivity
      ensures ret == (if ok then 0 else -1)
      ensures wire == (if ok then Some(Datagram(CodeMessage(old(View()), code), MIN_SIZE)) else None)
      ensures View() == AfterSend(old(View()), code, now, ok) && Valid()
    {
      ghost var m := CodeMessage(View(), code);
      var buf, len := Print(Message(id, code, our, ourType, their, 0, 0, [], []), MIN_SIZE);
      MessageTheorems.CodesFit(m);
      ret, wire := SendMsg(buf, len + 1, now, ok);
    }

    /** Ends the dialog unless it is already ended or ending. */
    method MayBye(now: Timespec, ok: bool) returns (ret: int, wire: Option<seq<char>>)
      requires Valid()
      modifies `state, `lastSent, `lastActivity
      ensures Valid()
      ensures var d := old(View());
        if d.id == 0 || !ByeAllowed(d.core) then ret == 1 && wire == None && View() == d
        else ret == (if ok then 0 else -1) && View() == AfterSend(d, CODE_BYE, now, ok)
             && wire == (if ok then Some(Datagram(CodeMessage(d, CODE_BYE), MIN_SIZE)) else None)
      ensures ret == (if old(id) == 0 || old(state) == Disconnected || old(state) == Disconnecting then 1
                      else if ok then 0 else -1)
      ensures wire.Some? <==> ret == 0
      ensures ret == 0 ==> state == Disconnecting && lastSent == now && lastActivity == now.sec + 1
      ensures ret != 0 ==> View() == old(View())
    {
      if id == 0 {
        return 1, None;
      }
      if state == Disconnected || state == Disconnecting {
        return 1, None;
      }
      ret, wire := SendCode(CODE_BYE, now, ok);
    }

    /** Sends a code with media descriptions, truncated to the MTU. */
    method Send(code: nat, audio: seq<string>, video: seq<string>, now: Timespec, ok: bool)
      returns (ret: int, wire: Option<seq<char>>)
      requires Valid() && code < U32
      modifies `state, `lastSent, `lastActivity
      ensures Valid()
      ensures var d := old(View());
        if d.id == 0 || d.mtu < MIN_SIZE then ret == RET_REFUSED && wire == None && View() == d
        else ret == (if ok then 0 else -1) && View() == AfterSend(d, code, now, ok)
             && wire == (if ok then Some(Datagram(MediaMessage(d, code, audio, video), d.mtu)) else None)
      ensures ret == (if old(id) == 0 || old(mtu) < 45 then 255 else if ok then 0 else -1)
    {
      if id == 0 || mtu < MIN_SIZE {
        return RET_REFUSED, None;
      }
      hide Datagram, Text, FromLe32;
      ghost var m := MediaMessage(View(), code, audio, video);
      DatagramSize(m, mtu);
      var buf, len := Print(
        Message(id, code, our, ourType, their, ourAudioPort, ourVideoPort, audio, video), mtu);
      len := len + 1;
      if len > mtu {
        len := mtu;
        assert buf[len - 1] == buf[..len][len - 1];
        ghost var b := buf[..];
        buf[len - 1] := NUL;
        assert buf[..] == b;
      }
      ret, wire := SendMsg(buf, len, now, ok);
    }

    /** Adopts what a message says about the peer. */
    method Verify(message: LeelenMessage)
      requires Valid() && MessageTheorems.Fits(message.View())
      modifies `their, `theirType, `theirAudioPort, `theirVideoPort
      ensures View() == Learn(old(View()), message.View()) && Valid()
    {
      hide WellFormed, MessageTheorems.Fits;
      LearnKeepsForm(View(), message.View());
      if message.from != "" && their != message.from {
        their := message.from;
      }
      if message.fromType != 0 && theirType != message.fromType {
        theirType := message.fromType;
      }
      if message.audioPort != 0 && theirAudioPort != message.audioPort {
        theirAudioPort := message.audioPort;
      }
      if message.videoPort != 0 && theirVideoPort != message.videoPort {
        theirVideoPort := message.videoPort;
      }
    }

    /** Parses a raw message and adopts what it says. */
    method Adopt(msg: array<char>, wantAudio: bool, wantVideo: bool) returns (audio: seq<string>, video: seq<string>)
      requires Valid() && msg.Length >= HEADER_SIZE && NUL in msg[HEADER_SIZE..]
      modifies `their, `theirType, `theirAudioPort, `theirVideoPort, msg
      ensures Valid()
      ensures var m := Parse(old(msg[..]), !wantAudio, !wantVideo);
        View() == Learn(old(View()), m) && audio == m.audioFormats && video == m.videoFormats
    {
      hide Parse, WellFormed, Learn, MessageTheorems.Fits;
      MessageTheorems.ParseFits(msg[..], !wantAudio, !wantVideo);
      var message := new LeelenMessage();
      var ret := message.Init(msg, !wantAudio, !wantVideo);
      Verify(message);
      audio, video := message.audioFormats, message.videoFormats;
    }

    /** Handles a raw message, acking every code but OK before the state follows it. */
    method ReceiveMsg(msg: array<char>, wantAudio: bool, wantVideo: bool, now: Timespec, time: int, ok: bool)
      returns (ret: int, wire: Option<seq<char>>, audio: seq<string>, video: seq<string>)
      requires Valid() && msg.Length >= HEADER_SIZE && NUL in msg[HEADER_SIZE..]
      modifies this, msg
      ensures Valid()
      ensures Receive(old(View()), old(msg[..]), wantAudio, wantVideo, now, time, ok)
           == Reception(View(), ret, wire, audio, video)
    {
      hide Parse, FromLe32, Datagram, Polled, TimedOut;
      ghost var bytes := msg[..];
      assert bytes[4..8] == msg[4..8] && bytes[..4] == msg[..4];
      audio, video := [], [];
      if FromLe32(msg[4..8]) != id {
        return RET_REFUSED, None, [], [];
      }
      var code := FromLe32(msg[..4]);
      if code == CODE_OK {
        var overdue := AckTimeout(now);
        if overdue {
          return RET_TIMEOUT, None, [], [];
        }
        state := OnAck(state);
        if !wantAudio && !wantVideo {
          lastActivity := time;
          return 0, None, [], [];
        }
      }

      audio, video := Adopt(msg, wantAudio, wantVideo);
      if code != CODE_OK {
        ret, wire := SendCode(CODE_OK, now, ok);
        if ret != 0 {
          return ret, wire, [], [];
        }
        state := OnReceive(state, code);
      } else {
        ret, wire := 0, None;
      }
      lastActivity := time;
    }
  }

  lemma LearnKeepsForm(d: Dialog, m: Message)
    requires WellFormed(d) && MessageTheorems.Fits(m)
    ensures WellFormed(Learn(d, m))
  {
  }

  /** A datagram is as long as the terminated text, or as the MTU allows. */
  lemma DatagramSize(m: Message, mtu: nat)
    requires mtu > HEADER_SIZE
    ensures |Datagram(m, mtu)| == Min(HEADER_SIZE + |Text(m)| + 1, mtu)
  {
  }

  /** A message printed into a new buffer of `size` bytes. */
  method Print(m: Message, size: nat) returns (buf: array<char>, len: nat)
    requires size > HEADER_SIZE && m.code < U32
    ensures fresh(buf) && buf.Length == size && len == HEADER_SIZE + |Text(m)|
    ensures buf[..|Datagram(m, size)|] == Datagram(m, size)
    ensures FromLe32(buf[..4]) == m.code
  {
    buf := new char[size];
    var message := new LeelenMessage.Of(m);
    ghost var o := buf[..];
    len := message.ToString(buf, size);
    PrintedBuffer(m, o, buf[..]);
    assert buf[..][..|Datagram(m, size)|] == buf[..|Datagram(m, size)|] && buf[..][..4] == buf[..4];
  }

  /** The head of a printed buffer is the datagram. */
  lemma PrintedBuffer(m: Message, o: seq<char>, b: seq<char>)
    requires |b| > HEADER_SIZE && m.code < U32
    requires |o| == |b| && b == Filled(WithHeader(o, |b|, m), |b|, Text(m))
    ensures b[..|Datagram(m, |b|)|] == Datagram(m, |b|)
    ensures FromLe32(b[..4]) == m.code
  {
    Le32RoundTrip(m.code);
    assert b[..4] == Le32(m.code);
  }
}
