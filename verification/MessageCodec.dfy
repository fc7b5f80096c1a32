/** The in-place codec: the bounded printer and the destructive parser. */
module MessageCodec {
  import opened CStrings
  import opened Messages

  function Remain0(total: nat, used: nat): nat {
    if total < used then 0 else total - used
  }

  lemma FilledAt(b: seq<char>, len: nat, text: string, i: nat)
    requires HEADER_SIZE < len <= |b| && i < |b|
    ensures var k := Min(|text|, len - HEADER_SIZE - 1);
      Filled(b, len, text)[i] ==
        if HEADER_SIZE <= i < HEADER_SIZE + k then text[i - HEADER_SIZE] else if i == HEADER_SIZE + k then NUL else b[i]
  {
  }

  /** Appending to a buffer that holds the longest fitting prefix of `done`. */
  lemma FilledAppend(b: seq<char>, len: nat, done: string, text: string, f: seq<char>)
    requires len <= |b|
    requires f == if done == "" then b else Filled(b, len, done)
    ensures var cur := HEADER_SIZE + |done|;
      |f| == |b| && Filled(b, len, done + text) == Printed(f, cur, Remain0(len, cur), text)
  {
    if len > HEADER_SIZE + |done| {
      FilledRoom(b, len, done, text, f);
    } else {
      FilledFull(b, len, done, text);
    }
  }

  lemma FilledRoom(b: seq<char>, len: nat, done: string, text: string, f: seq<char>)
    requires HEADER_SIZE + |done| < len <= |b|
    requires f == if done == "" then b else Filled(b, len, done)
    ensures var cur := HEADER_SIZE + |done|;
      |f| == |b| && Filled(b, len, done + text) == Printed(f, cur, len - cur, text)
  {
    hide Filled, Printed;
    var cur := HEADER_SIZE + |done|;
    forall i | 0 <= i < |b| ensures Filled(b, len, done + text)[i] == Printed(f, cur, len - cur, text)[i] {
      AppendAt(b, len, done, text, f, i);
    }
  }

  lemma HeldAt(b: seq<char>, len: nat, done: string, f: seq<char>, i: nat)
    requires HEADER_SIZE + |done| < len <= |b| && i < |b|
    requires f == if done == "" then b else Filled(b, len, done)
    ensures |f| == |b|
    ensures i != HEADER_SIZE + |done| ==>
      f[i] == if HEADER_SIZE <= i < HEADER_SIZE + |done| then done[i - HEADER_SIZE] else b[i]
  {
    FilledAt(b, len, done, i);
    hide Filled;
  }

  lemma AppendAt(b: seq<char>, len: nat, done: string, text: string, f: seq<char>, i: nat)
    requires HEADER_SIZE + |done| < len <= |b| && i < |b|
    requires f == if done == "" then b else Filled(b, len, done)
    ensures var cur := HEADER_SIZE + |done|;
      |f| == |b| && Filled(b, len, done + text)[i] == Printed(f, cur, len - cur, text)[i]
  {
    hide Filled, Printed;
    var cur := HEADER_SIZE + |done|;
    HeldAt(b, len, done, f, i);
    FilledAt(b, len, done + text, i);
    PrintedAt(f, cur, len - cur, text, i);
    if i < cur {
      assert i >= HEADER_SIZE ==> (done + text)[i - HEADER_SIZE] == done[i - HEADER_SIZE];
    } else if i < cur + Min(|text|, len - cur - 1) {
      assert (done + text)[i - HEADER_SIZE] == text[i - cur];
    }
  }

  /** A buffer without room left stays as it is. */
  lemma FilledFull(b: seq<char>, len: nat, done: string, text: string)
    requires len <= |b| && len <= HEADER_SIZE + |done|
    ensures Filled(b, len, done + text) == if done == "" then b else Filled(b, len, done)
  {
    if len > HEADER_SIZE {
      assert (done + text)[..len - HEADER_SIZE - 1] == done[..len - HEADER_SIZE - 1];
    }
  }

  /** `cur += snprintf(buf + cur, remain0(len, cur), …)`: appending to a buffer that holds the
      longest fitting prefix of `done` makes it hold the longest fitting prefix of `done + text`.
      `b` is the buffer before anything was printed. */
  method Append(buf: array<char>, len: nat, cur: nat, text: string, ghost b: seq<char>, ghost done: string)
    returns (next: nat)
    requires len <= buf.Length == |b|
    requires cur == HEADER_SIZE + |done|
    requires buf[..] == if done == "" then b else Filled(b, len, done)
    modifies buf
    ensures next == cur + |text|
    ensures buf[..] == Filled(b, len, done + text)
  {
    hide Filled, Printed;
    FilledAppend(b, len, done, text, buf[..]);
    var n := Snprintf(buf, cur, Remain0(len, cur), text);
    next := cur + n;
  }

  /** A buffer with four bytes stored in it. */
  function Put(b: seq<char>, at: nat, w: seq<char>): (r: seq<char>)
    requires at + 4 <= |b| && |w| == 4
    ensures |r| == |b|
  {
    b[..at] + w + b[at + 4..]
  }

  lemma HeaderIsPut(b: seq<char>, len: nat, m: Message)
    requires len <= |b|
    ensures WithHeader(b, len, m) ==
      if len < 4 then b
      else if len < 8 then Put(b, 0, Le32(m.code))
      else Put(Put(b, 0, Le32(m.code)), 4, Le32(m.id))
  {
    hide Le32;
    if len >= 8 {
      var v := Put(b, 0, Le32(m.code));
      assert v[..4] == Le32(m.code) && v[8..] == b[8..];
    }
  }

  /** Stores four bytes. */
  method PutWord(buf: array<char>, at: nat, w: seq<char>)
    requires at + 4 <= buf.Length && |w| == 4
    modifies buf
    ensures buf[..] == Put(old(buf[..]), at, w)
  {
    forall i | 0 <= i < 4 {
      buf[at + i] := w[i];
    }
  }

  class LeelenMessage {
    var id: nat
    var code: nat
    var from: string
    var fromType: nat
    var to: string
    var audioPort: nat
    var videoPort: nat
    var audioFormats: seq<string>
    var videoFormats: seq<string>

    ghost function View(): Message
      reads this
    {
      Message(id, code, from, fromType, to, audioPort, videoPort, audioFormats, videoFormats)
    }

    /** An uninitialised message. */
    constructor ()
    {
    }

    /** A message built by an initializer. */
    constructor Of(m: Message)
      ensures View() == m
    {
      id, code, from, fromType, to := m.id, m.code, m.from, m.fromType, m.to;
      audioPort, videoPort, audioFormats, videoFormats := m.audioPort, m.videoPort, m.audioFormats, m.videoFormats;
    }

    method StoreHeader(buf: array<char>, len: nat)
      requires len <= buf.Length
      modifies buf
      ensures buf[..] == WithHeader(old(buf[..]), len, View())
    {
      hide Le32, Put, WithHeader;
      HeaderIsPut(buf[..], len, View());
      if len >= 4 {
        PutWord(buf, 0, Le32(code));
      }
      if len >= 8 {
        PutWord(buf, 4, Le32(id));
      }
    }

    /** Prints into the first `len` bytes of `buf`; the result does not depend on `len`. */
    method ToString(buf: array<char>, len: nat) returns (cur: nat)
      requires len <= buf.Length
      modifies buf
      ensures cur == HEADER_SIZE + |Text(View())|
      ensures buf[..] == Filled(WithHeader(old(buf[..]), len, View()), len, Text(View()))
    {
      hide WithHeader, Filled, Join, HeadLines, Section, LinesOf, Decimal;
      StoreHeader(buf, len);
      ghost var b := buf[..];
      ghost var lines := HeadLines(View());
      HeadText(View());
      cur := Append(buf, len, HEADER_SIZE,
                    "From=" + from + "?" + Decimal(fromType) + "\n" + ("To=" + to + "\n"), b, "");
      assert "" + Join(lines) == Join(lines);
      cur := PrintSection(buf, len, cur, "Audio", audioFormats, audioPort, b, lines);
      lines := lines + Section("Audio", audioFormats, audioPort);
      cur := PrintSection(buf, len, cur, "Video", videoFormats, videoPort, b, lines);
      TextParts(View());
    }

    /** The sender's number and device type. */
    method TakeFrom(body: string)
      modifies `from, `fromType
      ensures View() == ParseFrom(old(View()), body)
    {
      hide ParseLong, IndexOf;
      var sep := IndexOf(body, '?');
      if sep >= NUMBER_STRLEN {
        from := "";
      } else {
        from := body[..sep];
      }
      if sep < |body| && sep + 1 < |body| {
        var n := ParseLong(body[sep + 1..]);
        fromType := n.value % U8;
        if n.used != |body| - sep - 1 {
          fromType := 0;
        }
      }
    }

    /** One line of the parser's loop. */
    method TakeLine(line: string, noAudio: bool, noVideo: bool)
      modifies this
      ensures View() == ParseLine(old(View()), line, noAudio, noVideo)
    {
      hide ParseFrom, ParsePort;
      if "From=" <= line {
        TakeFrom(line[5..]);
      } else if "To=" <= line {
        if |line[3..]| < NUMBER_STRLEN {
          to := line[3..];
        }
      } else if "Audio=" <= line {
        if !noAudio {
          audioFormats := audioFormats + [line[6..]];
        }
      } else if "AudioPort=" <= line {
        audioPort := ParsePort(line[10..]);
      } else if "Video=" <= line {
        if !noVideo {
          videoFormats := videoFormats + [line[6..]];
        }
      } else if "VideoPort=" <= line {
        videoPort := ParsePort(line[10..]);
      }
    }

    /** Terminates the token found by `Scan` in place, handles it, and says where to go on. */
    method TakeToken(msg: array<char>, saved: nat, start: nat, stop: nat, noAudio: bool, noVideo: bool,
                     ghost o: seq<char>, ghost end: nat)
      returns (next: nat)
      requires msg.Length == |o| && InText(o, saved, end) && start < stop && IsToken(o, saved, start, stop, end)
      requires Chopped(o, msg[..], saved)
      modifies this, msg
      ensures saved < next && InText(o, next, end) && Chopped(o, msg[..], next)
      ensures View() == ParseLine(old(View()), o[start..stop], noAudio, noVideo)
      ensures Tokens(o[saved..end]) == [o[start..stop]] + Tokens(o[next..end])
    {
      hide ParseLine;
      TokenSplits(o, saved, start, stop, end);
      ChoppedFrame(o, msg[..], saved);
      ghost var n := msg[..];
      var line := msg[start..stop];
      SliceAfter(n, o, saved, start, stop);
      ChopOne(o, n, saved, start, stop, end);
      assert msg[stop] == n[stop] == o[stop];
      assert stop < end ==> o[stop] == '\n';
      next := if msg[stop] == NUL then stop else stop + 1;
      msg[stop] := NUL;
      assert msg[..] == n[stop := NUL];
      TakeLine(line, noAudio, noVideo);
    }

    /** The parser's loop over the lines of the text. */
    method TakeLines(msg: array<char>, noAudio: bool, noVideo: bool, ghost end: nat)
      requires InText(msg[..], HEADER_SIZE, end)
      modifies this, msg
      ensures View() == ParseLines(old(View()), Tokens(old(msg[..])[HEADER_SIZE..end]), noAudio, noVideo)
      ensures Chopped(old(msg[..]), msg[..], end)
    {
      hide ParseLine, Tokens;
      ghost var o, goal := msg[..], ParseLines(View(), Tokens(msg[..][HEADER_SIZE..end]), noAudio, noVideo);
      var saved := HEADER_SIZE;
      assert msg[..][HEADER_SIZE..end] == msg[HEADER_SIZE..end];
      var start, stop := Scan(msg, saved, end);
      while start < stop
        invariant msg.Length == |o| && InText(o, saved, end) && IsToken(o, saved, start, stop, end)
        invariant ParseLines(View(), Tokens(o[saved..end]), noAudio, noVideo) == goal
        invariant Chopped(o, msg[..], saved)
        decreases end - saved
      {
        saved := TakeToken(msg, saved, start, stop, noAudio, noVideo, o, end);
        ScanReady(o, msg[..], saved, end);
        assert msg[..][saved..end] == msg[saved..end];
        start, stop := Scan(msg, saved, end);
        TokenFrame(msg[..], o, saved, start, stop, end);
      }
      TokenSplits(o, saved, start, stop, end);
      ChopTail(o, msg[..], saved, end);
    }

    /** Parses the message in `msg`, whose text is a C string, chopping it into lines in place:
        exactly the line feeds that end a non-empty line become NUL. */
    method Init(msg: array<char>, noAudio: bool, noVideo: bool) returns (ret: int)
      requires msg.Length >= HEADER_SIZE && NUL in msg[HEADER_SIZE..]
      modifies this, msg
      ensures ret == 0
      ensures View() == Parse(old(msg[..]), noAudio, noVideo)
      ensures Chopped(old(msg[..]), msg[..], TextEnd(old(msg[..])))
    {
      hide FromLe32, Chopped, ParseLines, Tokens, CStr, TextEnd;
      assert msg[..][HEADER_SIZE..] == msg[HEADER_SIZE..] && msg[..][4..8] == msg[4..8] && msg[..][..4] == msg[..4];
      id, code := FromLe32(msg[4..8]), FromLe32(msg[..4]);
      from, fromType, to, audioPort, videoPort, audioFormats, videoFormats := "", 0, "", 0, 0, [], [];
      TakeLines(msg, noAudio, noVideo, TextEnd(msg[..]));
      ret := 0;
    }
  }

  /** The position of the text's terminator. */
  ghost function TextEnd(o: seq<char>): (end: nat)
    requires |o| >= HEADER_SIZE && NUL in o[HEADER_SIZE..]
    ensures HEADER_SIZE <= end < |o| && o[end] == NUL && o[HEADER_SIZE..end] == CStr(o[HEADER_SIZE..])
  {
    CStrStops(o[HEADER_SIZE..]);
    HEADER_SIZE + |CStr(o[HEADER_SIZE..])|
  }

  lemma CStrStops(s: seq<char>)
    requires NUL in s
    ensures |CStr(s)| < |s|
  {
  }

  /** `saved` is a place where the parser can go on: the start of a line, or the end. */
  ghost predicate InText(o: seq<char>, saved: nat, end: nat) {
    && HEADER_SIZE <= saved <= end < |o|
    && o[end] == NUL && NUL !in o[HEADER_SIZE..end]
    && (saved == HEADER_SIZE || saved == end || o[saved - 1] == '\n')
  }

  /** Past `saved` the chopped buffer is still the original one. */
  lemma ScanReady(o: seq<char>, n: seq<char>, saved: nat, end: nat)
    requires InText(o, saved, end) && Chopped(o, n, saved)
    ensures n[saved..] == o[saved..] && n[end] == NUL && NUL !in n[saved..end]
  {
    forall i | saved <= i < |o| ensures n[i] == o[i] {
      assert n[i] == ChoppedAt(o, saved, i);
    }
    forall i | saved <= i < end ensures o[i] != NUL {
      assert o[i] == o[HEADER_SIZE..end][i - HEADER_SIZE];
    }
  }

  lemma ChopTail(o: seq<char>, n: seq<char>, saved: nat, end: nat)
    requires InText(o, saved, end) && (forall i :: saved <= i < end ==> o[i] == '\n')
    requires Chopped(o, n, saved)
    ensures Chopped(o, n, end)
  {
  }

  /** `n` is `o` with every line feed before `end` that ends a non-empty line replaced. */
  ghost predicate Chopped(o: seq<char>, n: seq<char>, end: nat) {
    && |n| == |o|
    && forall i :: 0 <= i < |o| ==> n[i] == ChoppedAt(o, end, i)
  }

  ghost function ChoppedAt(o: seq<char>, end: nat, i: nat): char
    requires i < |o|
  {
    if HEADER_SIZE < i < end && o[i] == '\n' && o[i - 1] != '\n' then NUL else o[i]
  }

  lemma ChoppedFrame(o: seq<char>, n: seq<char>, end: nat)
    requires Chopped(o, n, end) && end <= |o|
    ensures n[end..] == o[end..]
  {
  }

  lemma SliceAfter(n: seq<char>, o: seq<char>, saved: nat, start: nat, stop: nat)
    requires |n| == |o| && saved <= start <= stop <= |o| && n[saved..] == o[saved..]
    ensures n[start..stop] == o[start..stop]
    ensures forall i :: saved <= i < |o| ==> n[i] == o[i]
  {
  }

  /** The text from `saved` to `end` starts with line feeds and the line from `start` to `stop`. */
  ghost predicate IsToken(o: seq<char>, saved: nat, start: nat, stop: nat, end: nat) {
    && saved <= start <= stop <= end < |o|
    && (forall i :: saved <= i < start ==> o[i] == '\n')
    && '\n' !in o[start..stop]
    && (stop < end ==> o[stop] == '\n')
    && (start == stop ==> start == end)
    && o[end] == NUL && NUL !in o[saved..end]
  }

  lemma TokenFrame(n: seq<char>, o: seq<char>, saved: nat, start: nat, stop: nat, end: nat)
    requires IsToken(n, saved, start, stop, end) && |n| == |o| && n[saved..] == o[saved..]
    ensures IsToken(o, saved, start, stop, end)
  {
    assert forall i :: saved <= i < |o| ==> o[i] == o[saved..][i - saved] == n[i];
  }

  /** Terminating the token in place brings the chopped buffer up to the next one. */
  lemma ChopOne(o: seq<char>, n: seq<char>, saved: nat, start: nat, stop: nat, end: nat)
    requires HEADER_SIZE <= saved && IsToken(o, saved, start, stop, end) && start < stop
    requires saved == HEADER_SIZE || o[saved - 1] == '\n'
    requires Chopped(o, n, saved)
    ensures Chopped(o, n[stop := NUL], if stop == end then end else stop + 1)
  {
  }

  /** The token `strtok_r` finds is the first of the non-empty lines. */
  lemma {:induction false} TokenSplits(o: seq<char>, saved: nat, start: nat, stop: nat, end: nat)
    requires IsToken(o, saved, start, stop, end)
    ensures start == stop ==> Tokens(o[saved..end]) == []
    ensures start < stop ==>
      Tokens(o[saved..end]) == [o[start..stop]] + Tokens(o[if stop == end then end else stop + 1..end])
    decreases start - saved
  {
    if saved < start {
      assert o[saved..end][1..] == o[saved + 1..end];
      TokenSplits(o, saved + 1, start, stop, end);
    } else if start < stop {
      assert o[saved..end] == o[start..stop] + o[stop..end];
      TokensStep(o[start..stop], o[stop..end]);
      assert stop < end ==> o[stop..end][1..] == o[stop + 1..end];
    }
  }

  /** The scanning half of `strtok_r(…, "\n", &saved)`. */
  method Scan(buf: array<char>, saved: nat, ghost end: nat) returns (start: nat, stop: nat)
    requires saved <= end < buf.Length && buf[end] == NUL && NUL !in buf[saved..end]
    ensures IsToken(buf[..], saved, start, stop, end)
  {
    start := saved;
    assert forall i :: saved <= i < end ==> buf[i] == buf[saved..end][i - saved];
    while buf[start] == '\n'
      invariant saved <= start <= end
      invariant forall i :: saved <= i < start ==> buf[i] == '\n'
      decreases end - start
    {
      start := start + 1;
    }
    stop := start;
    while buf[stop] != '\n' && buf[stop] != NUL
      invariant start <= stop <= end
      invariant forall i :: start <= i < stop ==> buf[i] != '\n'
      decreases end - stop
    {
      stop := stop + 1;
    }
    assert buf[..][saved..end] == buf[saved..end];
  }

  /** The loop over one format list. */
  method PrintFormats(buf: array<char>, len: nat, cur: nat, key: string, formats: seq<string>,
                      ghost b: seq<char>, ghost lines: seq<string>)
    returns (next: nat)
    requires len <= buf.Length == |b| && lines != []
    requires cur == HEADER_SIZE + |Join(lines)|
    requires buf[..] == Filled(b, len, Join(lines))
    modifies buf
    ensures next == HEADER_SIZE + |Join(lines + KeyLines(key, formats))|
    ensures buf[..] == Filled(b, len, Join(lines + KeyLines(key, formats)))
  {
    next := cur;
    ghost var done := lines;
    for i := 0 to |formats|
      invariant done == lines + KeyLines(key, formats)[..i]
      invariant next == HEADER_SIZE + |Join(done)|
      invariant buf[..] == Filled(b, len, Join(done))
    {
      var line := key + "=" + formats[i];
      JoinSnoc(done, line);
      next := Append(buf, len, next, line + "\n", b, Join(done));
      done := done + [line];
    }
    assert done == lines + KeyLines(key, formats);
  }

  /** A format list and its port line, printed only when the list is not empty. */
  method PrintSection(buf: array<char>, len: nat, cur: nat, key: string, formats: seq<string>, port: nat,
                      ghost b: seq<char>, ghost lines: seq<string>)
    returns (next: nat)
    requires len <= buf.Length == |b| && lines != []
    requires cur == HEADER_SIZE + |Join(lines)|
    requires buf[..] == Filled(b, len, Join(lines))
    modifies buf
    ensures next == HEADER_SIZE + |Join(lines + Section(key, formats, port))|
    ensures buf[..] == Filled(b, len, Join(lines + Section(key, formats, port)))
  {
    next := cur;
    if formats != [] {
      next := PrintFormats(buf, len, next, key, formats, b, lines);
      ghost var done := lines + KeyLines(key, formats);
      JoinSnoc(done, PortLine(key, port));
      next := Append(buf, len, next, key + "Port=" + Decimal(port) + "\n", b, Join(done));
      assert done + [PortLine(key, port)] == lines + Section(key, formats, port);
    } else {
      assert lines + Section(key, formats, port) == lines;
    }
  }

  lemma HeadText(m: Message)
    ensures HeadLines(m) != []
    ensures Join(HeadLines(m)) == "From=" + m.from + "?" + Decimal(m.fromType) + "\n" + ("To=" + m.to + "\n")
  {
    hide Join;
    var lines := HeadLines(m);
    JoinPair(lines[0], lines[1]);
  }

  lemma TextParts(m: Message)
    ensures Text(m) == Join(HeadLines(m) + Section("Audio", m.audioFormats, m.audioPort)
                                         + Section("Video", m.videoFormats, m.videoPort))
  {
  }

  lemma JoinPair(a: string, b: string)
    ensures Join([a, b]) == a + "\n" + (b + "\n")
  {
    JoinSnoc([], b);
    assert [] + [b] == [b] && [a, b][1..] == [b];
    assert "" + (b + "\n") == b + "\n";
  }

  lemma JoinSnoc(lines: seq<string>, line: string)
    ensures Join(lines + [line]) == Join(lines) + (line + "\n")
    ensures lines != [] ==> Join(lines) != ""
  {
    JoinConcat(lines, [line]);
    assert [line][1..] == [];
    assert line + "\n" + "" == line + "\n";
  }
}
