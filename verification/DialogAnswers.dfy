/** What a dialog answers, in the bytes, codes and numbers of the wire. */
module DialogAnswers {
  import opened CStrings
  import opened Messages
  import opened MessageTheorems
  import opened PrintTheorems
  import opened Dialogs
  import opened DialogRuns
  import opened Exchange

  /** The message carries this code and the identifier of the dialog. */
  predicate Carries(msg: seq<char>, code: nat, id: nat) {
    |msg| >= 8 && code < 0x1_0000_0000 && id < 0x1_0000_0000 && CarriesWord(msg, 0, code) && CarriesWord(msg, 4, id)
  }

  lemma CarriesIsRead(msg: seq<char>, code: nat, id: nat)
    requires Carries(msg, code, id)
    ensures FromLe32(msg[..4]) == code && FromLe32(msg[4..8]) == id
  {
    hide CarriesWord, FromLe32;
    WordIsRead(msg, 0, code);
    WordIsRead(msg, 4, id);
    assert msg[0..4] == msg[..4];
  }

  // ---------------------------------------------------------------- receiving

  /** A code other than OK that can be acked: 1, 2, 0x215 and 0x217 connect, 0x214 disconnects, and
      no other code touches the state; the timer stays as it was. */
  lemma CodeIsAcked(d: Dialog, msg: seq<char>, code: nat, wantAudio: bool, wantVideo: bool, now: Timespec, time: int)
    requires Carries(msg, code, d.id) && code != 0x110
    ensures var r := Receive(d, msg, wantAudio, wantVideo, now, time, true);
      && r.ret == 0 && r.dialog.lastActivity == time
      && r.dialog.core.sent == d.core.sent && r.dialog.core.timeout == d.core.timeout
      && r.dialog.core.state == (if code in {0x001, 0x002, 0x215, 0x217} then Connected
                                 else if code == 0x214 then Disconnected
                                 else d.core.state)
      && r.reply.Some? && Carries(r.reply.value, 0x110, d.id)
  {
    hide Parse, Datagram, FromLe32, CarriesWord;
    CarriesIsRead(msg, code, d.id);
    var r := Receive(d, msg, wantAudio, wantVideo, now, time, true);
    DatagramStarts(CodeMessage(r.dialog, 0x110), 45);
  }

  /** A code other than OK that cannot be acked does not move the dialog. */
  lemma CodeIsNotAcked(d: Dialog, msg: seq<char>, code: nat, wantAudio: bool, wantVideo: bool, now: Timespec, time: int)
    requires Carries(msg, code, d.id) && code != 0x110
    ensures var r := Receive(d, msg, wantAudio, wantVideo, now, time, false);
      && r.ret == -1 && r.reply == None && r.audio == [] && r.video == []
      && r.dialog.core == d.core && r.dialog.lastActivity == d.lastActivity
  {
    hide Parse, Datagram, FromLe32, CarriesWord;
    CarriesIsRead(msg, code, d.id);
  }

  /** The timer is set and less than the timeout has passed. */
  predicate InTime(c: Core, now: Timespec) {
    c.sent.sec != 0 && now.Nanos() - c.sent.Nanos() < c.timeout * 1_000_000
  }

  /** OK in any state: never answered; 0 in time and 254 otherwise; in time it completes what is
      waited for, late it undoes that and clears the timer, and with the timer clear it does nothing. */
  lemma OkIsHeard(d: Dialog, msg: seq<char>, wantAudio: bool, wantVideo: bool, now: Timespec, time: int, ok: bool)
    requires Carries(msg, 0x110, d.id) && now.Normal() && d.core.sent.Normal()
    ensures var r := Receive(d, msg, wantAudio, wantVideo, now, time, ok); var s := d.core.state;
      && r.reply == None && r.ret == (if InTime(d.core, now) then 0 else 254)
      && (InTime(d.core, now) ==> r.dialog.lastActivity == time && r.dialog.core.sent == d.core.sent)
      && (InTime(d.core, now) ==>
            r.dialog.core.state ==
              if s == Connecting then Connected else if s == Disconnecting then Disconnected else s)
      && (!InTime(d.core, now) && d.core.sent.sec == 0 ==> r.dialog == d)
      && (!InTime(d.core, now) && d.core.sent.sec != 0 ==>
            r.dialog.core.sent.sec == 0 && r.dialog.lastActivity == d.lastActivity
            && r.dialog.core.state ==
                 if s == Connecting then Disconnected else if s == Disconnecting then Connected else s)
  {
    hide Parse, FromLe32, CarriesWord;
    CarriesIsRead(msg, 0x110, d.id);
    TimeoutReachedIsExact(now, d.core.sent, d.core.timeout);
    hide TimeoutReached;
  }

  /** Asking for the ack: overdue exactly if the timer is not set or the timeout has passed; then a set
      timer is cleared and the wait undone, and nothing else ever changes. */
  lemma AckIsOverdue(c: Core, now: Timespec)
    requires now.Normal() && c.sent.Normal()
    ensures TimedOut(c, now) <==> !InTime(c, now)
    ensures Polled(c, now) ==
      if InTime(c, now) || c.sent.sec == 0 then c
      else c.(sent := c.sent.(sec := 0),
              state := if c.state == Connecting then Disconnected
                       else if c.state == Disconnecting then Connected
                       else c.state)
  {
    TimeoutReachedIsExact(now, c.sent, c.timeout);
    hide TimeoutReached;
  }

  /** A message of another dialog is refused and changes nothing. */
  lemma ForeignIsRefused(d: Dialog, msg: seq<char>, code: nat, id: nat, wantAudio: bool, wantVideo: bool,
                         now: Timespec, time: int, ok: bool)
    requires Carries(msg, code, id) && id != d.id
    ensures Receive(d, msg, wantAudio, wantVideo, now, time, ok) == Reception(d, 255, None, [], [])
  {
    hide Parse, FromLe32, CarriesWord;
    CarriesIsRead(msg, code, id);
  }

  /** What a message that is parsed teaches: what it says of its sender; what it does not say stays
      known, and what the dialog says of itself never changes. */
  lemma MessageTeaches(d: Dialog, msg: seq<char>, code: nat, wantAudio: bool, wantVideo: bool,
                       now: Timespec, time: int, ok: bool)
    requires Carries(msg, code, d.id) && now.Normal() && d.core.sent.Normal()
    ensures var r := Receive(d, msg, wantAudio, wantVideo, now, time, ok);
      var m := Parse(msg, !wantAudio, !wantVideo);
      var parsed := code != 0x110 || (InTime(d.core, now) && (wantAudio || wantVideo));
      && r.dialog.their == (if parsed && m.from != "" then m.from else d.their)
      && r.dialog.theirType == (if parsed && m.fromType != 0 then m.fromType else d.theirType)
      && r.dialog.theirAudioPort == (if parsed && m.audioPort != 0 then m.audioPort else d.theirAudioPort)
      && r.dialog.theirVideoPort == (if parsed && m.videoPort != 0 then m.videoPort else d.theirVideoPort)
      && r.audio == (if parsed && r.ret == 0 then m.audioFormats else [])
      && r.video == (if parsed && r.ret == 0 then m.videoFormats else [])
      && r.dialog.id == d.id && r.dialog.our == d.our && r.dialog.ourType == d.ourType && r.dialog.mtu == d.mtu
      && r.dialog.ourAudioPort == d.ourAudioPort && r.dialog.ourVideoPort == d.ourVideoPort
  {
    hide Parse, Datagram, FromLe32, CarriesWord;
    CarriesIsRead(msg, code, d.id);
    TimeoutReachedIsExact(now, d.core.sent, d.core.timeout);
    hide TimeoutReached;
  }

  // ------------------------------------------------------------------ sending

  /** A code that goes out: 1, 2, 0x215 and 0x217 wait for a connection, 0x214 for its end, and no
      other code touches the state; all but OK start the timer. */
  lemma CodeGoesOut(d: Dialog, code: nat, now: Timespec)
    ensures AfterSend(d, code, now, false) == d
    ensures var r := AfterSend(d, code, now, true);
      if code == 0x110 then r == d
      else r == d.(lastActivity := now.sec + 1, core := Core(
        if code in {0x001, 0x002, 0x215, 0x217} then Connecting
        else if code == 0x214 then Disconnecting
        else d.core.state,
        now, d.core.timeout))
  {
  }

  /** What a message with media says of its sender, whatever of the lists arrives. */
  lemma MediaMessageSays(d: Dialog, code: nat, audio: seq<string>, video: seq<string>, noAudio: bool, noVideo: bool)
    requires CleanDialog(d) && code < 0x1_0000_0000 && CleanFormats(audio) && CleanFormats(video) && d.mtu >= 45
    ensures var g := Datagram(MediaMessage(d, code, audio, video), d.mtu);
      var p := Parse(Received(g), noAudio, noVideo);
      && |g| <= d.mtu && Carries(g, code, d.id)
      && p.from == d.our && p.fromType == d.ourType && p.to == d.their
      && CutShort(p.audioFormats, audio) && CutShort(p.videoFormats, video)
      && p.audioPort <= d.ourAudioPort && p.videoPort <= d.ourVideoPort
  {
    hide Parse, Datagram, Representable, Clean, CutShort, Text, CarriesWord, Received, Carried;
    var m := MediaMessage(d, code, audio, video);
    MediaIsClean(d, code, audio, video);
    TruncationSafe(m, d.mtu, noAudio, noVideo);
    PortsSurvive(m, d.mtu, noAudio, noVideo);
    DatagramStarts(m, d.mtu);
  }

  /** A bare code names both sides and nothing else, and is never cut. */
  lemma CodeMessageSays(d: Dialog, code: nat, noAudio: bool, noVideo: bool)
    requires Speaks(d) && code < 0x1_0000_0000
    ensures var g := Datagram(CodeMessage(d, code), 45);
      && Carries(g, code, d.id)
      && Parse(Received(g), noAudio, noVideo) == Message(d.id, code, d.our, d.ourType, d.their, 0, 0, [], [])
  {
    hide Parse, Datagram, Text, CarriesWord;
    var m := CodeMessage(d, code);
    CodesFit(m);
    CompleteArrival(m, noAudio, noVideo);
    DatagramStarts(m, 45);
  }

  // ---------------------------------------------------------------------- BYE

  /** In every reachable dialog that has an identifier, a guarded BYE goes out, and the dialog then
      waits from `now` for its end, exactly when it is connecting or connected. */
  lemma ByeGoesOutExactly(d: Dialog, es: seq<Event>, now: Timespec)
    requires d.id != 0 && forall e :: e in es ==> Legible(e)
    ensures var c := After(d, es); var r := Step(c, Bye(now, true));
      && (ByeGoesOut(c, Bye(now, true)) <==> c.core.state == Connecting || c.core.state == Connected)
      && (if c.core.state == Connecting || c.core.state == Connected
          then r == c.(lastActivity := now.sec + 1, core := Core(Disconnecting, now, d.core.timeout))
          else r == c)
  {
    hide After;
    IdentityStays(d, es);
  }

  // ----------------------------------------------------------- activity stamp

  /** An event that stamps the dialog: a code other than OK goes out, or a message is taken. */
  predicate Stamps(d: Dialog, e: Event)
    requires Legible(e)
  {
    || GoesOut(d, e)
    || (e.Hear? && Receive(d, e.msg, e.wantAudio, e.wantVideo, e.now, e.time, e.ok).ret == 0)
  }

  function Stamp(e: Event): int {
    if e.Hear? then e.time else e.now.sec + 1
  }

  lemma StepStamps(d: Dialog, e: Event)
    requires Legible(e)
    ensures Step(d, e).lastActivity == if Stamps(d, e) then Stamp(e) else d.lastActivity
  {
    hide Parse, Datagram, FromLe32;
  }

  /** The `k`-th event is the last one of the run that stamps. */
  predicate LastStamp(d: Dialog, es: seq<Event>, k: nat)
    requires forall e :: e in es ==> Legible(e)
  {
    && k < |es| && Stamps(After(d, es[..k]), es[k])
    && forall m :: k < m < |es| ==> !Stamps(After(d, es[..m]), es[m])
  }

  lemma LastStampBefore(d: Dialog, es: seq<Event>, k: nat)
    requires (forall e :: e in es ==> Legible(e)) && LastStamp(d, es, k)
    ensures k < |es|
    ensures var n := |es| - 1;
      if k == n then Stamps(After(d, es[..n]), es[n])
      else LastStamp(d, es[..n], k) && !Stamps(After(d, es[..n]), es[n]) && es[..n][k] == es[k]
  {
    hide Stamps, After;
    var n := |es| - 1;
    assert forall m :: 0 <= m < n ==> es[..n][..m] == es[..m] && es[..n][m] == es[m];
  }

  /** The activity stamp of a dialog is that of the last event that stamps it. */
  lemma {:induction false} ActivityIsLast(d: Dialog, es: seq<Event>, k: nat)
    requires (forall e :: e in es ==> Legible(e)) && LastStamp(d, es, k)
    ensures k < |es| && After(d, es).lastActivity == Stamp(es[k])
    decreases |es|
  {
    hide Step, Stamps, Stamp, LastStamp;
    LastStampBefore(d, es, k);
    var n := |es| - 1;
    assert es[n] in es;
    StepStamps(After(d, es[..n]), es[n]);
    if k < n {
      ActivityIsLast(d, es[..n], k);
    }
  }
}
