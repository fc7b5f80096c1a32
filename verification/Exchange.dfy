/** One invitation and its ack across the wire: the printer, the network's cut, the parser and
    both dialogs together. */
module Exchange {
  import opened CStrings
  import opened Messages
  import opened MessageTheorems
  import opened Dialogs
  import opened DialogRuns

  /** A number that the syntax of a message cannot confuse. */
  predicate CleanNumber(s: string) {
    IsNumber(s) && '?' !in s && '\n' !in s
  }

  predicate CleanFormats(formats: seq<string>) {
    forall f :: f in formats ==> NUL !in f && '\n' !in f
  }

  /** What the dialog says of itself in a bare code is clean. */
  predicate Speaks(d: Dialog) {
    0 < d.id < U32 && d.ourType < U8 && CleanNumber(d.our) && CleanNumber(d.their)
  }

  predicate CleanDialog(d: Dialog) {
    WellFormed(d) && Speaks(d)
  }

  /** What `b` makes of the datagram of a sent message, wanting these lists. */
  function HeardBy(b: Dialog, m: Message, mtu: nat, wantAudio: bool, wantVideo: bool,
                   now: Timespec, time: int): Reception
    requires mtu >= MIN_SIZE
  {
    Receive(b, Received(Datagram(m, mtu)), wantAudio, wantVideo, now, time, true)
  }

  lemma DatagramHeader(m: Message, mtu: nat)
    requires m.id < U32 && m.code < U32 && mtu >= MIN_SIZE
    ensures var r := Received(Datagram(m, mtu));
      |r| >= HEADER_SIZE && FromLe32(r[..4]) == m.code && FromLe32(r[4..8]) == m.id
  {
    var r := Received(Datagram(m, mtu));
    assert r[..4] == Le32(m.code) && r[4..8] == Le32(m.id);
    Le32RoundTrip(m.code);
    Le32RoundTrip(m.id);
  }

  lemma MediaIsClean(a: Dialog, code: nat, audio: seq<string>, video: seq<string>)
    requires CleanDialog(a) && code < U32 && CleanFormats(audio) && CleanFormats(video)
    ensures var m := MediaMessage(a, code, audio, video); Representable(m) && Clean(m)
  {
  }

  /** A port learnt from a datagram: the sender's own if all its digits arrived; from a dialog that
      knew none it is never larger than that, and the same only if the digits arrived or there is
      none to tell. Otherwise it is a smaller one or the one known before. */
  predicate LearntPort(before: nat, after: nat, port: nat, arrived: bool) {
    && (arrived && port != 0 ==> after == port)
    && (before == 0 ==> after <= port && (after == port <==> port == 0 || arrived))
    && (after == before || after <= port)
  }

  /** The peer of an invitation, at any admissible MTU: it learns who calls, takes what arrived of
      the formats it wants, acks, and is connected. */
  lemma InvitationHeard(a: Dialog, b: Dialog, code: nat, audio: seq<string>, video: seq<string>,
                        wantAudio: bool, wantVideo: bool, now: Timespec, time: int)
    requires CleanDialog(a) && CleanDialog(b) && a.id == b.id && a.mtu >= MIN_SIZE
    requires code in {0x001, 0x002, 0x215, 0x217} && CleanFormats(audio) && CleanFormats(video)
    ensures var m := MediaMessage(a, code, audio, video);
      var r := HeardBy(b, m, a.mtu, wantAudio, wantVideo, now, time);
      && r.ret == 0 && r.dialog.core == b.core.(state := Connected) && r.dialog.id == b.id
      && r.dialog.our == b.our && r.dialog.ourType == b.ourType
      && r.dialog.their == (if a.our == "" then b.their else a.our)
      && r.dialog.theirType == (if a.ourType == 0 then b.theirType else a.ourType)
      && r.reply == Some(Datagram(CodeMessage(r.dialog, CODE_OK), MIN_SIZE))
      && CutShort(r.audio, audio) && CutShort(r.video, video)
      && (!wantAudio ==> r.audio == []) && (!wantVideo ==> r.video == [])
      && (HEADER_SIZE + |Text(m)| + 1 <= a.mtu ==>
            r.audio == (if wantAudio then audio else []) && r.video == (if wantVideo then video else [])
            && (audio != [] && a.ourAudioPort != 0 ==> r.dialog.theirAudioPort == a.ourAudioPort)
            && (video != [] && a.ourVideoPort != 0 ==> r.dialog.theirVideoPort == a.ourVideoPort))
      && LearntPort(b.theirAudioPort, r.dialog.theirAudioPort, a.ourAudioPort,
                    audio != [] && Carried(m, a.mtu) >= AudioPortEnd(m))
      && LearntPort(b.theirVideoPort, r.dialog.theirVideoPort, a.ourVideoPort,
                    video != [] && Carried(m, a.mtu) >= VideoPortEnd(m))
  {
    hide Parse, Representable, Clean, Datagram, Text, CutShort, CleanFormats, WellFormed;
    hide Carried, AudioPortEnd, VideoPortEnd;
    var m := MediaMessage(a, code, audio, video);
    MediaIsClean(a, code, audio, video);
    DatagramHeader(m, a.mtu);
    TruncationSafe(m, a.mtu, !wantAudio, !wantVideo);
    PortsSurvive(m, a.mtu, !wantAudio, !wantVideo);
    if HEADER_SIZE + |Text(m)| + 1 <= a.mtu {
      WholeArrives(m, a.mtu, !wantAudio, !wantVideo);
    }
  }

  /** The caller, when the ack of its peer `c` arrives: in time it is connected, and knows its
      peer if it wants any list (otherwise the ack is not parsed); late it is back where it
      started. */
  lemma AckHeard(a: Dialog, c: Dialog, wantAudio: bool, wantVideo: bool, now: Timespec, time: int)
    requires Speaks(a) && Speaks(c) && c.id == a.id
    requires a.core.state == Connecting && a.core.sent.sec != 0 && a.core.sent.Normal() && now.Normal()
    ensures var r := HeardBy(a, CodeMessage(c, CODE_OK), MIN_SIZE, wantAudio, wantVideo, now, time);
      var learns := r.ret == 0 && (wantAudio || wantVideo);
      && r.reply == None && (r.ret == 0 || r.ret == RET_TIMEOUT)
      && (r.ret == 0 <==> now.Nanos() - a.core.sent.Nanos() < a.core.timeout * 1_000_000)
      && r.dialog.core.state == (if r.ret == 0 then Connected else Disconnected)
      && (r.ret != 0 ==> r.dialog.core.sent.sec == 0)
      && r.dialog.their == (if learns && c.our != "" then c.our else a.their)
      && r.dialog.theirType == (if learns && c.ourType != 0 then c.ourType else a.theirType)
  {
    hide Parse, Representable, Clean, Datagram, Text, CutShort;
    var m := CodeMessage(c, CODE_OK);
    AckIsClean(c);
    DatagramHeader(m, MIN_SIZE);
    TruncationSafe(m, MIN_SIZE, !wantAudio, !wantVideo);
    AckInTime(a, Received(Datagram(m, MIN_SIZE)), wantAudio, wantVideo, now, time, true);
  }

  lemma AckIsClean(c: Dialog)
    requires Speaks(c)
    ensures var m := CodeMessage(c, CODE_OK); Representable(m) && Clean(m)
  {
  }

  /** Which lists each side wants. */
  datatype Wants = Wants(callerAudio: bool, callerVideo: bool, calleeAudio: bool, calleeVideo: bool)

  function Callee(a: Dialog, b: Dialog, code: nat, audio: seq<string>, video: seq<string>, w: Wants,
                  heard: Timespec, time: int): Dialog
    requires a.mtu >= MIN_SIZE
  {
    HeardBy(b, MediaMessage(a, code, audio, video), a.mtu, w.calleeAudio, w.calleeVideo, heard, time).dialog
  }

  /** The handshake: whatever the formats, the lists wanted and the MTU, both sides end connected
      exactly when the ack comes back before the deadline, and then hold each other's numbers as
      far as they were told. A late ack leaves the caller disconnected while its peer believes the
      call is up. */
  lemma Handshake(a: Dialog, b: Dialog, code: nat, audio: seq<string>, video: seq<string>, w: Wants,
                  sent: Timespec, heard: Timespec, acked: Timespec, time: int)
    requires CleanDialog(a) && CleanDialog(b) && a.id == b.id && a.mtu >= MIN_SIZE
    requires code in {0x001, 0x002, 0x215, 0x217} && CleanFormats(audio) && CleanFormats(video)
    requires sent.sec > 0 && sent.Normal() && acked.Normal()
    ensures var caller := AfterSend(a, code, sent, true);
      var callee := Callee(a, b, code, audio, video, w, heard, time);
      var done := HeardBy(caller, CodeMessage(callee, CODE_OK), MIN_SIZE,
                          w.callerAudio, w.callerVideo, acked, time).dialog;
      var inTime := acked.Nanos() - sent.Nanos() < a.core.timeout * 1_000_000;
      && callee.core.state == Connected
      && done.core.state == (if inTime then Connected else Disconnected)
      && (!inTime ==> done.core.sent.sec == 0)
      && callee.their == (if a.our == "" then b.their else a.our)
      && done.their == (if inTime && (w.callerAudio || w.callerVideo) && b.our != "" then b.our else a.their)
  {
    hide HeardBy, CleanNumber;
    InvitationHeard(a, b, code, audio, video, w.calleeAudio, w.calleeVideo, heard, time);
    CallerWaits(a, code, sent);
    AckHeard(AfterSend(a, code, sent, true), Callee(a, b, code, audio, video, w, heard, time),
             w.callerAudio, w.callerVideo, acked, time);
  }

  lemma CallerWaits(a: Dialog, code: nat, sent: Timespec)
    requires CleanDialog(a) && code in {0x001, 0x002, 0x215, 0x217}
    ensures var caller := AfterSend(a, code, sent, true);
      CleanDialog(caller) && caller.core == Core(Connecting, sent, a.core.timeout) && caller.their == a.their
  {
  }

  lemma WholeArrives(m: Message, mtu: nat, noAudio: bool, noVideo: bool)
    requires Representable(m) && Clean(m) && mtu >= MIN_SIZE && HEADER_SIZE + |Text(m)| + 1 <= mtu
    ensures Parse(Received(Datagram(m, mtu)), noAudio, noVideo) == Normal(m, noAudio, noVideo)
  {
    hide Parse, Representable, Clean, Text;
    CompleteArrival(m, noAudio, noVideo);
    assert Text(m)[..|Text(m)|] == Text(m);
  }
}
