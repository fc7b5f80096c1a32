/** What survives the trip through a bounded datagram and the parser. */
module MessageTheorems {
  import opened CStrings
  import opened Messages

  /** The message fits the fields of the C structure. */
  predicate Representable(m: Message) {
    && m.id < U32 && m.code < U32 && m.fromType < U8 && m.audioPort < U16 && m.videoPort < U16
    && |m.from| < NUMBER_STRLEN && |m.to| < NUMBER_STRLEN
    && NUL !in m.from && NUL !in m.to
    && (forall f :: f in m.audioFormats ==> NUL !in f)
    && (forall f :: f in m.videoFormats ==> NUL !in f)
  }

  /** No text field contains a character the syntax uses. */
  predicate Clean(m: Message) {
    && '?' !in m.from && '\n' !in m.from && '\n' !in m.to
    && (forall f :: f in m.audioFormats ==> '\n' !in f)
    && (forall f :: f in m.videoFormats ==> '\n' !in f)
  }

  /** Clean, and a medium without formats has no port either: such a port is never printed. */
  predicate Normalised(m: Message) {
    && Clean(m)
    && (m.audioFormats == [] ==> m.audioPort == 0)
    && (m.videoFormats == [] ==> m.videoPort == 0)
  }

  // -------------------------------------------------- cutting a list of lines

  predicate IsLine(s: string) {
    s != "" && '\n' !in s && NUL !in s
  }

  predicate AreLines(lines: seq<string>) {
    forall i :: 0 <= i < |lines| ==> IsLine(lines[i])
  }

  /** The lines a reader sees when only the first `cut` characters of the text arrive. */
  function Cut(lines: seq<string>, cut: nat): seq<string> {
    if lines == [] || cut == 0 then []
    else if cut <= |lines[0]| then [lines[0][..cut]]
    else [lines[0]] + Cut(lines[1..], cut - |lines[0]| - 1)
  }

  lemma JoinCut(lines: seq<string>, cut: nat)
    requires lines != [] && cut <= |Join(lines)|
    ensures cut <= |lines[0]| ==> Join(lines)[..cut] == lines[0][..cut]
    ensures cut > |lines[0]| ==>
      var left := cut - |lines[0]| - 1;
      left <= |Join(lines[1..])| && Join(lines)[..cut] == lines[0] + ("\n" + Join(lines[1..])[..left])
  {
    var line, rest := lines[0], Join(lines[1..]);
    assert Join(lines) == line + "\n" + rest;
  }

  lemma PrefixIsLine(line: string, cut: nat)
    requires IsLine(line) && 0 < cut <= |line|
    ensures IsLine(line[..cut])
  {
  }

  lemma FirstIsLine(lines: seq<string>)
    requires AreLines(lines) && lines != []
    ensures IsLine(lines[0]) && AreLines(lines[1..])
  {
  }

  /** The first token of a text that starts with a line. */
  lemma LineFirst(line: string, more: string)
    requires IsLine(line)
    ensures Tokens(line) == [line] && Tokens(line + ("\n" + more)) == [line] + Tokens(more)
  {
    TokensStep(line, "");
    assert line + "" == line;
    TokensStep(line, "\n" + more);
    assert ("\n" + more)[1..] == more;
  }

  lemma {:induction false} TokensOfCut(lines: seq<string>, cut: nat)
    requires AreLines(lines) && cut <= |Join(lines)|
    ensures Tokens(Join(lines)[..cut]) == Cut(lines, cut)
  {
    hide IsLine, AreLines, Join, Tokens;
    if lines == [] || cut == 0 {
      NoTokens(lines, cut);
    } else {
      var line := lines[0];
      FirstIsLine(lines);
      JoinCut(lines, cut);
      if cut <= |line| {
        PrefixIsLine(line, cut);
        LineFirst(line[..cut], "");
      } else {
        LineFirst(line, Join(lines[1..])[..cut - |line| - 1]);
        TokensOfCut(lines[1..], cut - |line| - 1);
      }
    }
  }

  lemma NoTokens(lines: seq<string>, cut: nat)
    requires cut <= |Join(lines)| && (lines == [] || cut == 0)
    ensures Tokens(Join(lines)[..cut]) == []
  {
    assert Join(lines)[..cut] == "";
  }

  lemma CutCons(line: string, lines: seq<string>, cut: nat)
    ensures |Join([line] + lines)| == |line| + 1 + |Join(lines)|
    ensures Cut([line] + lines, cut) ==
      if cut == 0 then [] else if cut <= |line| then [line[..cut]] else [line] + Cut(lines, cut - |line| - 1)
  {
    assert ([line] + lines)[1..] == lines;
  }

  lemma FirstOf(a: seq<string>, b: seq<string>)
    requires a != []
    ensures a == [a[0]] + a[1..] && a + b == [a[0]] + (a[1..] + b)
  {
  }

  lemma {:induction false} CutWithin(a: seq<string>, b: seq<string>, cut: nat)
    requires cut <= |Join(a)|
    ensures Cut(a + b, cut) == Cut(a, cut)
  {
    if a != [] {
      hide Cut, Join;
      FirstOf(a, b);
      CutCons(a[0], a[1..], cut);
      CutCons(a[0], a[1..] + b, cut);
      if cut > |a[0]| {
        CutWithin(a[1..], b, cut - |a[0]| - 1);
      }
    }
  }

  lemma {:induction false} CutBeyond(a: seq<string>, b: seq<string>, cut: nat)
    requires cut >= |Join(a)|
    ensures Cut(a + b, cut) == a + Cut(b, cut - |Join(a)|)
  {
    if a == [] {
      assert a + b == b;
    } else {
      hide Cut, Join;
      FirstOf(a, b);
      CutCons(a[0], a[1..], cut);
      CutCons(a[0], a[1..] + b, cut);
      var left := cut - |a[0]| - 1;
      CutBeyond(a[1..], b, left);
      FirstOf(a, Cut(b, left - |Join(a[1..])|));
    }
  }

  lemma CutConcat(a: seq<string>, b: seq<string>, cut: nat)
    ensures cut <= |Join(a)| ==> Cut(a + b, cut) == Cut(a, cut)
    ensures cut >= |Join(a)| ==> Cut(a + b, cut) == a + Cut(b, cut - |Join(a)|)
  {
    hide Cut, Join;
    if cut <= |Join(a)| {
      CutWithin(a, b, cut);
    }
    if cut >= |Join(a)| {
      CutBeyond(a, b, cut);
    }
  }

  lemma JoinEmpty(lines: seq<string>)
    ensures Join(lines) == "" <==> lines == []
  {
  }

  /** Losing only the last line feed, or nothing, loses no line. */
  lemma {:induction false} CutAll(lines: seq<string>, cut: nat)
    requires (forall i :: 0 <= i < |lines| ==> lines[i] != "") && cut + 1 >= |Join(lines)|
    ensures Cut(lines, cut) == lines
  {
    if lines != [] {
      if cut <= |lines[0]| {
        assert |Join(lines)| == |lines[0]| + 1 + |Join(lines[1..])|;
        JoinEmpty(lines[1..]);
        assert lines == [lines[0]] && lines[0][..cut] == lines[0];
      } else {
        CutAll(lines[1..], cut - |lines[0]| - 1);
      }
    }
  }

  lemma {:induction false} JoinNoNul(lines: seq<string>)
    requires AreLines(lines)
    ensures NUL !in Join(lines)
  {
    if lines != [] {
      assert IsLine(lines[0]);
      JoinNoNul(lines[1..]);
    }
  }

  lemma DecimalIsPlain(n: nat)
    ensures '\n' !in Decimal(n) && NUL !in Decimal(n) && '?' !in Decimal(n)
  {
  }

  lemma HeadIsLines(m: Message)
    requires Representable(m) && Clean(m)
    ensures AreLines(HeadLines(m))
  {
    DecimalIsPlain(m.fromType);
  }

  lemma SectionIsLines(video: bool, formats: seq<string>, port: nat)
    requires forall f :: f in formats ==> '\n' !in f && NUL !in f
    ensures AreLines(Section(Key(video), formats, port))
  {
    hide IsLine, Key, Decimal;
    forall i | 0 <= i < |formats| ensures IsLine(KeyLines(Key(video), formats)[i]) {
      assert formats[i] in formats;
      FormatIsLine(video, formats[i]);
    }
    PortIsLine(video, port);
  }

  lemma FormatIsLine(video: bool, format: string)
    requires '\n' !in format && NUL !in format
    ensures IsLine(Key(video) + "=" + format)
  {
  }

  lemma PortIsLine(video: bool, port: nat)
    ensures IsLine(PortLine(Key(video), port))
  {
    hide Decimal;
    DecimalIsPlain(port);
  }

  lemma LinesAreLines(m: Message)
    requires Representable(m) && Clean(m)
    ensures AreLines(LinesOf(m)) && AreLines(HeadLines(m))
    ensures AreLines(Section("Audio", m.audioFormats, m.audioPort))
    ensures AreLines(Section("Video", m.videoFormats, m.videoPort))
  {
    hide IsLine, HeadLines, Section;
    HeadIsLines(m);
    SectionIsLines(false, m.audioFormats, m.audioPort);
    SectionIsLines(true, m.videoFormats, m.videoPort);
  }

  // --------------------------------------------------------- parsing sections

  lemma {:induction false} ParseConcat(p: Message, a: seq<string>, b: seq<string>, noAudio: bool, noVideo: bool)
    ensures ParseLines(p, a + b, noAudio, noVideo)
         == ParseLines(ParseLines(p, a, noAudio, noVideo), b, noAudio, noVideo)
    decreases |a|
  {
    hide ParseLine;
    if a == [] {
      assert a + b == b;
    } else {
      assert (a + b)[1..] == a[1..] + b;
      ParseConcat(ParseLine(p, a[0], noAudio, noVideo), a[1..], b, noAudio, noVideo);
    }
  }

  lemma ParseOne(p: Message, line: string, noAudio: bool, noVideo: bool)
    ensures ParseLines(p, [line], noAudio, noVideo) == ParseLine(p, line, noAudio, noVideo)
  {
  }

  lemma FromBody(p: Message, from: string, digits: string)
    requires |from| < NUMBER_STRLEN && '?' !in from && digits != "" && AllDigits(digits) && Value(digits) < U8
    ensures ParseFrom(p, from + ['?'] + digits) == p.(from := from, fromType := Value(digits))
  {
    hide ParseLong, Value;
    var body := from + ['?'] + digits;
    IndexOfAt(from, '?', digits);
    assert body[..|from|] == from && body[|from| + 1..] == digits;
    ParseLongDigits(digits);
  }

  lemma FromLine(p: Message, from: string, fromType: nat, noAudio: bool, noVideo: bool)
    requires |from| < NUMBER_STRLEN && '?' !in from && fromType < U8
    ensures ParseLine(p, "From=" + from + "?" + Decimal(fromType), noAudio, noVideo)
         == p.(from := from, fromType := fromType)
  {
    hide ParsePort, ParseFrom;
    var line, body := "From=" + from + "?" + Decimal(fromType), from + ['?'] + Decimal(fromType);
    assert line == "From=" + body;
    assert "From=" <= line && line[5..] == body;
    FromBody(p, from, Decimal(fromType));
  }

  lemma ToLine(p: Message, to: string, noAudio: bool, noVideo: bool)
    requires |to| < NUMBER_STRLEN
    ensures ParseLine(p, "To=" + to, noAudio, noVideo) == p.(to := to)
  {
    hide ParsePort, ParseFrom;
    assert "To=" <= "To=" + to && ("To=" + to)[3..] == to;
    assert ("To=" + to)[0] == 'T' && "From="[0] == 'F';
  }

  // ------------------------------------------------------- one medium, truncated

  function Key(video: bool): (k: string)
    ensures |k| == 5
  {
    if video then "Video" else "Audio"
  }

  function WithFormats(p: Message, video: bool, formats: seq<string>): Message {
    if video then p.(videoFormats := p.videoFormats + formats) else p.(audioFormats := p.audioFormats + formats)
  }

  function WithPort(p: Message, video: bool, port: nat): Message {
    if video then p.(videoPort := port) else p.(audioPort := port)
  }

  /** Formats the caller did not ask for are dropped. */
  function Taken(p: Message, video: bool, formats: seq<string>, noAudio: bool, noVideo: bool): Message {
    if (if video then noVideo else noAudio) then p else WithFormats(p, video, formats)
  }

  lemma TakenTwice(p: Message, video: bool, a: seq<string>, b: seq<string>, noAudio: bool, noVideo: bool)
    ensures Taken(Taken(p, video, a, noAudio, noVideo), video, b, noAudio, noVideo)
         == Taken(p, video, a + b, noAudio, noVideo)
    ensures Taken(p, video, [], noAudio, noVideo) == p
  {
  }

  /** The formats recovered from the first `cut` characters of the lines of a format list. */
  function Recovered(formats: seq<string>, cut: nat): seq<string> {
    if formats == [] || cut < 6 then []
    else if cut <= 6 + |formats[0]| then [formats[0][..cut - 6]]
    else [formats[0]] + Recovered(formats[1..], cut - 7 - |formats[0]|)
  }

  /** The port recovered from the first `cut` characters of a port line. */
  function RecoveredPort(port: nat, cut: nat): nat {
    if cut <= 10 then 0 else Value(Decimal(port)[..Min(cut - 10, |Decimal(port)|)])
  }

  lemma FormatLine(p: Message, video: bool, format: string, noAudio: bool, noVideo: bool)
    ensures ParseLine(p, Key(video) + "=" + format, noAudio, noVideo)
         == if (if video then noVideo else noAudio) then p else WithFormats(p, video, [format])
  {
    hide ParsePort, ParseFrom;
    var line := Key(video) + "=" + format;
    assert line[0] == Key(video)[0] && line[5] == '=' && line[6..] == format;
    assert line[..6] == if video then "Video=" else "Audio=";
  }

  lemma PortLineParsed(p: Message, video: bool, digits: string, noAudio: bool, noVideo: bool)
    ensures ParseLine(p, Key(video) + "Port=" + digits, noAudio, noVideo) == WithPort(p, video, ParsePort(digits))
  {
    hide ParsePort, ParseFrom;
    var line := Key(video) + "Port=" + digits;
    assert line[0] == Key(video)[0] && line[5] == 'P' && line[10..] == digits;
    assert line[..10] == if video then "VideoPort=" else "AudioPort=";
  }

  /** A line cut inside its key means nothing. */
  lemma CutKey(p: Message, video: bool, line: string, noAudio: bool, noVideo: bool)
    requires (line <= Key(video) + "=" && |line| < 6) || (line <= Key(video) + "Port=" && |line| < 10)
    ensures ParseLine(p, line, noAudio, noVideo) == p
  {
    hide ParsePort, ParseFrom;
    if line != "" {
      assert line[0] == Key(video)[0];
    }
    if |line| >= 6 {
      assert line[5] == 'P';
    }
  }

  /** One format line of which `cut` characters arrive. */
  lemma FormatLineCut(p: Message, video: bool, format: string, cut: nat, noAudio: bool, noVideo: bool)
    requires cut <= 6 + |format|
    ensures ParseLine(p, (Key(video) + "=" + format)[..cut], noAudio, noVideo)
         == Taken(p, video, if cut < 6 then [] else [format[..cut - 6]], noAudio, noVideo)
  {
    hide ParseLine;
    var line := Key(video) + "=" + format;
    if cut < 6 {
      assert line[..cut] == (Key(video) + "=")[..cut];
      CutKey(p, video, line[..cut], noAudio, noVideo);
    } else {
      assert line[..cut] == Key(video) + "=" + format[..cut - 6];
      FormatLine(p, video, format[..cut - 6], noAudio, noVideo);
    }
  }

  lemma {:induction false} FormatsCut(p: Message, video: bool, formats: seq<string>, cut: nat,
                                      noAudio: bool, noVideo: bool)
    ensures ParseLines(p, Cut(KeyLines(Key(video), formats), cut), noAudio, noVideo)
         == Taken(p, video, Recovered(formats, cut), noAudio, noVideo)
    decreases |formats|
  {
    hide ParseLine, Key, Taken;
    if formats == [] || cut == 0 {
      TakenTwice(p, video, [], [], noAudio, noVideo);
    } else {
      var lines, n := KeyLines(Key(video), formats), 6 + |formats[0]|;
      var line := lines[0];
      FormatLineCut(p, video, formats[0], Min(cut, n), noAudio, noVideo);
      if cut <= n {
        ParseOne(p, line[..cut], noAudio, noVideo);
      } else {
        assert line[..n] == line && formats[0][..n - 6] == formats[0];
        var q := ParseLine(p, line, noAudio, noVideo);
        assert lines[1..] == KeyLines(Key(video), formats[1..]);
        FormatsCut(q, video, formats[1..], cut - n - 1, noAudio, noVideo);
        assert Cut(lines, cut)[1..] == Cut(lines[1..], cut - n - 1);
        TakenTwice(p, video, [formats[0]], Recovered(formats[1..], cut - n - 1), noAudio, noVideo);
      }
    }
  }

  lemma PortCut(p: Message, video: bool, port: nat, cut: nat, noAudio: bool, noVideo: bool)
    requires port < U16 && (if video then p.videoPort else p.audioPort) == 0
    ensures ParseLines(p, Cut([PortLine(Key(video), port)], cut), noAudio, noVideo)
         == WithPort(p, video, RecoveredPort(port, cut))
  {
    hide ParseLine, ParsePort;
    var line, digits := PortLine(Key(video), port), Decimal(port);
    var c := Min(cut, |line|);
    assert line[..|line|] == line;
    assert cut > 0 ==> Cut([line], cut) == [line[..c]];
    ParseOne(p, line[..c], noAudio, noVideo);
    if c < 10 {
      assert line[..c] == (Key(video) + "Port=")[..c];
      CutKey(p, video, line[..c], noAudio, noVideo);
    } else {
      assert line[..c] == Key(video) + "Port=" + digits[..c - 10];
      PortLineParsed(p, video, digits[..c - 10], noAudio, noVideo);
      PortDigits(port, c - 10);
      assert c == 10 ==> digits[..0] == "";
    }
  }

  lemma PortDigits(port: nat, k: nat)
    requires port < U16 && k <= |Decimal(port)|
    ensures ParsePort(Decimal(port)[..k]) == Value(Decimal(port)[..k])
  {
    hide ParseLong, Value, Decimal;
    PrefixValue(Decimal(port), k);
    ParseLongDigits(Decimal(port)[..k]);
  }

  lemma {:induction false} RecoveredAll(key: string, formats: seq<string>, cut: nat)
    requires |key| == 5 && cut + 1 >= |Join(KeyLines(key, formats))|
    ensures Recovered(formats, cut) == formats
  {
    if formats != [] {
      var lines := KeyLines(key, formats);
      assert lines[1..] == KeyLines(key, formats[1..]);
      JoinEmpty(lines[1..]);
      if cut <= 6 + |formats[0]| {
        assert formats == [formats[0]] && formats[0][..cut - 6] == formats[0];
      } else {
        RecoveredAll(key, formats[1..], cut - 7 - |formats[0]|);
      }
    }
  }

  /** What one medium contributes when `cut` characters of its section arrive. */
  function SurvivingMedium(p: Message, video: bool, formats: seq<string>, port: nat, cut: nat, drop: bool): Message {
    var keyed := |Join(KeyLines(Key(video), formats))|;
    WithPort(if drop then p else WithFormats(p, video, Recovered(formats, cut)), video,
             if formats == [] || cut <= keyed then 0 else RecoveredPort(port, cut - keyed))
  }

  lemma SectionCut(p: Message, video: bool, formats: seq<string>, port: nat, cut: nat, noAudio: bool, noVideo: bool)
    requires port < U16 && (if video then p.videoPort else p.audioPort) == 0
    ensures ParseLines(p, Cut(Section(Key(video), formats, port), cut), noAudio, noVideo)
         == SurvivingMedium(p, video, formats, port, cut, if video then noVideo else noAudio)
  {
    hide Recovered, RecoveredPort, Decimal, Join, PortLine, Cut, ParseLines, Key;
    if formats == [] {
      NoSectionCut(p, video, port, cut, noAudio, noVideo);
    } else {
      var lines, last := KeyLines(Key(video), formats), [PortLine(Key(video), port)];
      var keyed := |Join(lines)|;
      CutConcat(lines, last, cut);
      if cut <= keyed {
        FormatsCut(p, video, formats, cut, noAudio, noVideo);
        var q := Taken(p, video, Recovered(formats, cut), noAudio, noVideo);
        assert WithPort(q, video, 0) == q;
      } else {
        WholeList(p, video, formats, cut, noAudio, noVideo);
        var q := ParseLines(p, lines, noAudio, noVideo);
        ParseConcat(p, lines, Cut(last, cut - keyed), noAudio, noVideo);
        PortCut(q, video, port, cut - keyed, noAudio, noVideo);
      }
    }
  }

  lemma NoSectionCut(p: Message, video: bool, port: nat, cut: nat, noAudio: bool, noVideo: bool)
    requires (if video then p.videoPort else p.audioPort) == 0
    ensures ParseLines(p, Cut(Section(Key(video), [], port), cut), noAudio, noVideo)
         == SurvivingMedium(p, video, [], port, cut, if video then noVideo else noAudio)
  {
  }

  /** All lines of a format list, of which more than the list arrives. */
  lemma WholeList(p: Message, video: bool, formats: seq<string>, cut: nat, noAudio: bool, noVideo: bool)
    requires cut >= |Join(KeyLines(Key(video), formats))|
    ensures ParseLines(p, KeyLines(Key(video), formats), noAudio, noVideo)
         == Taken(p, video, Recovered(formats, cut), noAudio, noVideo)
  {
    hide Recovered, Join, Cut, ParseLines, Key, Taken;
    var lines := KeyLines(Key(video), formats);
    var keyed := |Join(lines)|;
    CutAll(lines, keyed);
    FormatsCut(p, video, formats, keyed, noAudio, noVideo);
    RecoveredAll(Key(video), formats, keyed);
    RecoveredAll(Key(video), formats, cut);
  }

  // ------------------------------------------------------- the whole message

  function HeadLength(m: Message): nat {
    |Join(HeadLines(m))|
  }

  function AudioLength(m: Message): nat {
    |Join(Section("Audio", m.audioFormats, m.audioPort))|
  }

  /** Where the digits of each port end in the ideal text. */
  function AudioPortEnd(m: Message): int {
    HeadLength(m) + AudioLength(m) - 1
  }

  function VideoPortEnd(m: Message): int {
    |Text(m)| - 1
  }

  lemma HeadParsed(p: Message, m: Message, noAudio: bool, noVideo: bool)
    requires Representable(m) && Clean(m)
    ensures ParseLines(p, HeadLines(m), noAudio, noVideo) == p.(from := m.from, fromType := m.fromType, to := m.to)
  {
    hide ParseLine;
    var lines := HeadLines(m);
    FromLine(p, m.from, m.fromType, noAudio, noVideo);
    var q := p.(from := m.from, fromType := m.fromType);
    ToLine(q, m.to, noAudio, noVideo);
    assert lines[1..] == [lines[1]];
    ParseOne(q, lines[1], noAudio, noVideo);
  }

  /** The message a receiver reconstructs from the first `cut` characters of the text. */
  function Survivor(m: Message, cut: nat, noAudio: bool, noVideo: bool): Message
    requires cut >= HeadLength(m)
  {
    var a := SurvivingMedium(Named(m), false, m.audioFormats, m.audioPort, cut - HeadLength(m), noAudio);
    if cut <= HeadLength(m) + AudioLength(m) then a
    else SurvivingMedium(a, true, m.videoFormats, m.videoPort, cut - HeadLength(m) - AudioLength(m), noVideo)
  }

  /** The message whose head has been parsed. */
  function Named(m: Message): Message {
    Blank(m.id, m.code).(from := m.from, fromType := m.fromType, to := m.to)
  }

  lemma LinesNotEmpty(lines: seq<string>)
    requires AreLines(lines)
    ensures forall i :: 0 <= i < |lines| ==> lines[i] != ""
  {
    assert forall i :: 0 <= i < |lines| ==> IsLine(lines[i]);
  }

  /** The head tells no port, and the audio section no video port. */
  lemma NoPortYet(m: Message, cut: nat, drop: bool)
    ensures Named(m).audioPort == 0
    ensures SurvivingMedium(Named(m), false, m.audioFormats, m.audioPort, cut, drop).videoPort == 0
  {
    hide Recovered, RecoveredPort, KeyLines, Join;
  }

  lemma MediaParsed(m: Message, c: nat, noAudio: bool, noVideo: bool)
    requires Representable(m) && Clean(m)
    ensures var a := SurvivingMedium(Named(m), false, m.audioFormats, m.audioPort, c, noAudio);
      ParseLines(Named(m), Cut(Section("Audio", m.audioFormats, m.audioPort)
                               + Section("Video", m.videoFormats, m.videoPort), c), noAudio, noVideo)
      == if c <= AudioLength(m) then a
         else SurvivingMedium(a, true, m.videoFormats, m.videoPort, c - AudioLength(m), noVideo)
  {
    hide ParseLine, ParseLines, Cut, Section, Join, SurvivingMedium, IsLine, Named;
    var audio, video := Section("Audio", m.audioFormats, m.audioPort), Section("Video", m.videoFormats, m.videoPort);
    CutConcat(audio, video, c);
    NoPortYet(m, c, noAudio);
    if c <= AudioLength(m) {
      SectionCut(Named(m), false, m.audioFormats, m.audioPort, c, noAudio, noVideo);
    } else {
      LinesAreLines(m);
      LinesNotEmpty(audio);
      CutAll(audio, AudioLength(m));
      SectionCut(Named(m), false, m.audioFormats, m.audioPort, AudioLength(m), noAudio, noVideo);
      NoPortYet(m, AudioLength(m), noAudio);
      SameMedium(Named(m), m, c, noAudio);
      var a := ParseLines(Named(m), audio, noAudio, noVideo);
      ParseConcat(Named(m), audio, Cut(video, c - AudioLength(m)), noAudio, noVideo);
      SectionCut(a, true, m.videoFormats, m.videoPort, c - AudioLength(m), noAudio, noVideo);
    }
  }

  lemma HeadThenMedia(m: Message)
    ensures LinesOf(m) == HeadLines(m) + (Section("Audio", m.audioFormats, m.audioPort)
                                          + Section("Video", m.videoFormats, m.videoPort))
  {
  }

  lemma CutParsed(m: Message, cut: nat, noAudio: bool, noVideo: bool)
    requires Representable(m) && Clean(m) && cut >= HeadLength(m)
    ensures ParseLines(Blank(m.id, m.code), Cut(LinesOf(m), cut), noAudio, noVideo)
         == Survivor(m, cut, noAudio, noVideo)
  {
    hide ParseLine, ParseLines, Cut, SurvivingMedium, Section, HeadLines, LinesOf, Join;
    var head := HeadLines(m);
    var media := Section("Audio", m.audioFormats, m.audioPort) + Section("Video", m.videoFormats, m.videoPort);
    var c := cut - HeadLength(m);
    HeadThenMedia(m);
    CutConcat(head, media, cut);
    HeadParsed(Blank(m.id, m.code), m, noAudio, noVideo);
    ParseConcat(Blank(m.id, m.code), head, Cut(media, c), noAudio, noVideo);
    MediaParsed(m, c, noAudio, noVideo);
  }

  /** Once its section is complete, more text does not change what a medium contributes. */
  lemma SameMedium(p: Message, m: Message, c: nat, drop: bool)
    requires c >= AudioLength(m)
    ensures SurvivingMedium(p, false, m.audioFormats, m.audioPort, c, drop)
         == SurvivingMedium(p, false, m.audioFormats, m.audioPort, AudioLength(m), drop)
  {
    var formats, port := m.audioFormats, m.audioPort;
    if formats != [] {
      SectionLength(false, formats, port);
      RecoveredAll("Audio", formats, c);
      RecoveredAll("Audio", formats, AudioLength(m));
    }
  }

  lemma SectionLength(video: bool, formats: seq<string>, port: nat)
    ensures |Join(Section(Key(video), formats, port))|
         == if formats == [] then 0 else |Join(KeyLines(Key(video), formats))| + 11 + |Decimal(port)|
  {
    if formats != [] {
      JoinConcat(KeyLines(Key(video), formats), [PortLine(Key(video), port)]);
      assert Join([PortLine(Key(video), port)]) == PortLine(Key(video), port) + "\n" + Join([]);
    }
  }

  /** A received buffer with `k` characters of text parses to what survives of them. */
  lemma Delivered(m: Message, k: nat, noAudio: bool, noVideo: bool)
    requires Representable(m) && Clean(m) && k <= |Text(m)|
    ensures Parse(Header(m) + Text(m)[..k] + [NUL], noAudio, noVideo)
         == ParseLines(Blank(m.id, m.code), Cut(LinesOf(m), k), noAudio, noVideo)
  {
    hide ParseLine, ParseLines, Tokens, Cut, LinesOf, Join, FromLe32, Le32, CStr;
    var text := Text(m)[..k];
    var msg := Header(m) + text + [NUL];
    assert msg[..4] == Le32(m.code) && msg[4..8] == Le32(m.id);
    Le32RoundTrip(m.code);
    Le32RoundTrip(m.id);
    LinesAreLines(m);
    JoinNoNul(LinesOf(m));
    assert msg[HEADER_SIZE..] == text + [NUL];
    CStrIs(text, [NUL]);
    TokensOfCut(LinesOf(m), k);
  }

  // ------------------------------------------------------------- main results

  /** What a complete message becomes: unwanted formats and unprinted ports are gone. */
  function Normal(m: Message, noAudio: bool, noVideo: bool): Message {
    m.(audioFormats := if noAudio then [] else m.audioFormats,
       videoFormats := if noVideo then [] else m.videoFormats,
       audioPort := if m.audioFormats == [] then 0 else m.audioPort,
       videoPort := if m.videoFormats == [] then 0 else m.videoPort)
  }

  lemma WholeMedium(p: Message, video: bool, formats: seq<string>, port: nat, drop: bool)
    ensures var all := |Join(Section(Key(video), formats, port))|;
      SurvivingMedium(p, video, formats, port, all, drop)
      == WithPort(if drop then p else WithFormats(p, video, formats), video, if formats == [] then 0 else port)
  {
    SectionLength(video, formats, port);
    if formats != [] {
      RecoveredAll(Key(video), formats, |Join(Section(Key(video), formats, port))|);
      assert Decimal(port)[..|Decimal(port)|] == Decimal(port);
    }
  }

  lemma TextLength(m: Message)
    ensures |Text(m)| == HeadLength(m) + AudioLength(m) + |Join(Section("Video", m.videoFormats, m.videoPort))|
    ensures |Text(m)| > 0
  {
    var head, audio := HeadLines(m), Section("Audio", m.audioFormats, m.audioPort);
    JoinConcat(head + audio, Section("Video", m.videoFormats, m.videoPort));
    JoinConcat(head, audio);
  }

  lemma WholeSurvives(m: Message, noAudio: bool, noVideo: bool)
    ensures |Text(m)| >= HeadLength(m)
    ensures Survivor(m, |Text(m)|, noAudio, noVideo) == Normal(m, noAudio, noVideo)
  {
    hide Recovered, RecoveredPort, SurvivingMedium, LinesOf, KeyLines, Join;
    TextLength(m);
    SectionLength(true, m.videoFormats, m.videoPort);
    var p := Named(m);
    var c := |Text(m)| - HeadLength(m);
    WholeMedium(p, false, m.audioFormats, m.audioPort, noAudio);
    SameMedium(p, m, c, noAudio);
    WholeMedium(SurvivingMedium(p, false, m.audioFormats, m.audioPort, c, noAudio),
                true, m.videoFormats, m.videoPort, noVideo);
  }

  /** A message that arrives whole, with its NUL or with its last line feed overwritten, parses
      to its normal form, whichever lists the caller discards. */
  lemma CompleteArrival(m: Message, noAudio: bool, noVideo: bool)
    requires Representable(m) && Clean(m)
    ensures Parse(Received(Header(m) + Text(m) + [NUL]), noAudio, noVideo) == Normal(m, noAudio, noVideo)
    ensures Parse(Received(Header(m) + Text(m)), noAudio, noVideo) == Normal(m, noAudio, noVideo)
  {
    hide ParseLine, Survivor, Normal, Cut, Parse;
    var all := |Text(m)|;
    TextLength(m);
    LinesAreLines(m);
    CutAll(LinesOf(m), all);
    CutAll(LinesOf(m), all - 1);
    WholeSurvives(m, noAudio, noVideo);
    CutParsed(m, all, noAudio, noVideo);
    Delivered(m, all, noAudio, noVideo);
    Delivered(m, all - 1, noAudio, noVideo);
    var whole, cut := Header(m) + Text(m) + [NUL], Header(m) + Text(m);
    assert Text(m)[..all] == Text(m);
    assert Received(whole) == whole;
    assert Received(cut) == Header(m) + Text(m)[..all - 1] + [NUL];
  }

  lemma {:induction false} TokensAreClean(s: string)
    ensures forall i :: 0 <= i < |Tokens(s)| ==> '\n' !in Tokens(s)[i]
    decreases |s|
  {
    if s != "" {
      var e := IndexOf(s, '\n');
      TokensAreClean(if e == 0 then s[1..] else s[e..]);
    }
  }

  /** A line keeps the parser's fields clean. */
  lemma ParseLineClean(p: Message, line: string, noAudio: bool, noVideo: bool)
    requires Clean(p) && '\n' !in line
    ensures Clean(ParseLine(p, line, noAudio, noVideo))
  {
    hide ParsePort, ParseFrom, Clean;
    if "From=" <= line {
      FromClean(p, line[5..]);
    } else if "To=" <= line {
      FieldsClean(p, p.(to := line[3..]), line[3..]);
    } else if "Audio=" <= line {
      FormatClean(p, line[6..]);
    } else if "AudioPort=" <= line {
      FieldsClean(p, p.(audioPort := ParsePort(line[10..])), "");
    } else if "Video=" <= line {
      FormatClean(p, line[6..]);
    } else if "VideoPort=" <= line {
      FieldsClean(p, p.(videoPort := ParsePort(line[10..])), "");
    }
  }

  lemma FromClean(p: Message, body: string)
    requires Clean(p) && '\n' !in body
    ensures Clean(ParseFrom(p, body))
  {
    hide ParseLong;
  }

  lemma FieldsClean(p: Message, q: Message, to: string)
    requires Clean(p) && '\n' !in to && (q.to == to || q.to == p.to)
    requires q.from == p.from && q.audioFormats == p.audioFormats && q.videoFormats == p.videoFormats
    ensures Clean(q)
  {
  }

  lemma FormatClean(p: Message, format: string)
    requires Clean(p) && '\n' !in format
    ensures Clean(p.(audioFormats := p.audioFormats + [format]))
    ensures Clean(p.(videoFormats := p.videoFormats + [format]))
  {
  }

  /** Whatever bytes arrive, the parser's fields are clean. */
  lemma {:induction false} ParseLinesClean(p: Message, lines: seq<string>, noAudio: bool, noVideo: bool)
    requires Clean(p) && forall i :: 0 <= i < |lines| ==> '\n' !in lines[i]
    ensures Clean(ParseLines(p, lines, noAudio, noVideo))
    decreases |lines|
  {
    hide ParseLine, Clean;
    if lines != [] {
      assert '\n' !in lines[0];
      ParseLineClean(p, lines[0], noAudio, noVideo);
      ParseLinesClean(ParseLine(p, lines[0], noAudio, noVideo), lines[1..], noAudio, noVideo);
    }
  }

  lemma ParseIsClean(msg: seq<char>, noAudio: bool, noVideo: bool)
    requires |msg| >= HEADER_SIZE
    ensures Clean(Parse(msg, noAudio, noVideo))
  {
    hide ParseLine;
    TokensAreClean(CStr(msg[HEADER_SIZE..]));
    ParseLinesClean(Blank(FromLe32(msg[4..8]), FromLe32(msg[..4])), Tokens(CStr(msg[HEADER_SIZE..])), noAudio, noVideo);
  }

  /** The parsed fields fit the C structure. */
  predicate Fits(m: Message) {
    && m.fromType < U8 && m.audioPort < U16 && m.videoPort < U16
    && |m.from| < NUMBER_STRLEN && |m.to| < NUMBER_STRLEN && NUL !in m.from && NUL !in m.to
  }

  lemma {:induction false} TokensHaveNoNul(s: string)
    requires NUL !in s
    ensures forall i :: 0 <= i < |Tokens(s)| ==> NUL !in Tokens(s)[i]
    decreases |s|
  {
    if s != "" {
      var e := IndexOf(s, '\n');
      TokensHaveNoNul(if e == 0 then s[1..] else s[e..]);
    }
  }

  lemma ParseLineFits(p: Message, line: string, noAudio: bool, noVideo: bool)
    requires Fits(p) && NUL !in line
    ensures Fits(ParseLine(p, line, noAudio, noVideo))
  {
    hide ParseLong, ParsePort;
  }

  lemma {:induction false} ParseLinesFits(p: Message, lines: seq<string>, noAudio: bool, noVideo: bool)
    requires Fits(p) && forall i :: 0 <= i < |lines| ==> NUL !in lines[i]
    ensures Fits(ParseLines(p, lines, noAudio, noVideo))
    decreases |lines|
  {
    hide ParseLine, Fits;
    if lines != [] {
      assert NUL !in lines[0];
      ParseLineFits(p, lines[0], noAudio, noVideo);
      ParseLinesFits(ParseLine(p, lines[0], noAudio, noVideo), lines[1..], noAudio, noVideo);
    }
  }

  /** Whatever bytes arrive, the parser stays within its fields. */
  lemma ParseFits(msg: seq<char>, noAudio: bool, noVideo: bool)
    requires |msg| >= HEADER_SIZE
    ensures Fits(Parse(msg, noAudio, noVideo))
  {
    hide ParseLine;
    TokensHaveNoNul(CStr(msg[HEADER_SIZE..]));
    ParseLinesFits(Blank(FromLe32(msg[4..8]), FromLe32(msg[..4])), Tokens(CStr(msg[HEADER_SIZE..])), noAudio, noVideo);
  }

  /** Parsing undoes printing for exactly the normalised messages, also when the receiver
      overwrites the last byte of an unterminated text. */
  lemma RoundTrip(m: Message)
    requires Representable(m)
    ensures Parse(Received(Header(m) + Text(m) + [NUL]), false, false) == m <==> Normalised(m)
    ensures Parse(Received(Header(m) + Text(m)), false, false) == m <==> Normalised(m)
  {
    hide Parse;
    if Clean(m) {
      CompleteArrival(m, false, false);
    } else {
      ParseIsClean(Received(Header(m) + Text(m) + [NUL]), false, false);
      ParseIsClean(Received(Header(m) + Text(m)), false, false);
    }
  }

  // -------------------------------------------------------------- truncation

  /** Every entry but the last is the original one, and the last is a prefix of it. */
  predicate CutShort(r: seq<string>, formats: seq<string>) {
    && |r| <= |formats|
    && forall i :: 0 <= i < |r| ==> r[i] <= formats[i] && (i + 1 < |r| ==> r[i] == formats[i])
  }

  lemma {:induction false} RecoveredIsCutShort(formats: seq<string>, cut: nat)
    ensures CutShort(Recovered(formats, cut), formats)
    decreases |formats|
  {
    if formats != [] && cut > 6 + |formats[0]| {
      var rest := Recovered(formats[1..], cut - 7 - |formats[0]|);
      RecoveredIsCutShort(formats[1..], cut - 7 - |formats[0]|);
      forall i | 0 <= i < |rest| + 1
        ensures ([formats[0]] + rest)[i] <= formats[i]
        ensures i + 1 < |rest| + 1 ==> ([formats[0]] + rest)[i] == formats[i]
      {
        if i > 0 {
          assert ([formats[0]] + rest)[i] == rest[i - 1] && formats[i] == formats[1..][i - 1];
        }
      }
    }
  }

  /** The header and the From and To lines need at most `MIN_SIZE` bytes with the NUL, and
      need them all exactly when both numbers and the type are as long as they can be. */
  lemma HeadBound(m: Message)
    requires Representable(m)
    ensures HEADER_SIZE + HeadLength(m) + 1 <= MIN_SIZE
    ensures HEADER_SIZE + HeadLength(m) + 1 == MIN_SIZE <==> |m.from| == |m.to| == 11 && m.fromType >= 100
  {
    var lines := HeadLines(m);
    assert lines[1..] == [lines[1]] && Join([lines[1]]) == lines[1] + "\n" + Join([]);
    ThreeDigits(m.fromType);
  }

  /** A message without formats, such as every bare code, is never truncated. */
  lemma CodesFit(m: Message)
    requires Representable(m) && m.audioFormats == [] && m.videoFormats == []
    ensures HEADER_SIZE + |Text(m)| + 1 <= MIN_SIZE
    ensures Datagram(m, MIN_SIZE) == Header(m) + Text(m) + [NUL]
  {
    HeadBound(m);
    TextLength(m);
    assert Text(m)[..|Text(m)|] == Text(m);
  }

  /** How many characters of the text a datagram of `mtu` bytes carries. */
  function Carried(m: Message, mtu: nat): (k: nat)
    requires mtu > HEADER_SIZE
    ensures k <= |Text(m)|
  {
    Min(|Text(m)|, mtu - HEADER_SIZE - 1)
  }

  lemma Arrival(m: Message, mtu: nat, noAudio: bool, noVideo: bool)
    requires Representable(m) && Clean(m) && mtu >= MIN_SIZE
    ensures Carried(m, mtu) >= HeadLength(m)
    ensures Parse(Received(Datagram(m, mtu)), noAudio, noVideo) == Survivor(m, Carried(m, mtu), noAudio, noVideo)
  {
    hide ParseLine, Survivor, Parse;
    HeadBound(m);
    TextLength(m);
    Delivered(m, Carried(m, mtu), noAudio, noVideo);
    CutParsed(m, Carried(m, mtu), noAudio, noVideo);
    assert Received(Datagram(m, mtu)) == Datagram(m, mtu);
  }

  /** What a cut text keeps of its message. */
  predicate KeptSafe(p: Message, m: Message, noAudio: bool, noVideo: bool) {
    && p.id == m.id && p.code == m.code
    && p.from == m.from && p.fromType == m.fromType && p.to == m.to
    && CutShort(p.audioFormats, m.audioFormats) && CutShort(p.videoFormats, m.videoFormats)
    && (noAudio ==> p.audioFormats == []) && (noVideo ==> p.videoFormats == [])
    && (p.videoFormats != [] ==> noAudio || p.audioFormats == m.audioFormats)
    && (p.videoFormats != [] ==> p.audioPort == if m.audioFormats == [] then 0 else m.audioPort)
  }

  lemma NothingIsCutShort(formats: seq<string>)
    ensures CutShort([], formats)
  {
  }

  lemma SurvivorIsSafe(m: Message, k: nat, noAudio: bool, noVideo: bool)
    requires k >= HeadLength(m)
    ensures KeptSafe(Survivor(m, k, noAudio, noVideo), m, noAudio, noVideo)
  {
    hide Recovered, RecoveredPort, KeyLines, Join, Section, CutShort;
    var h, a := HeadLength(m), AudioLength(m);
    RecoveredIsCutShort(m.audioFormats, k - h);
    NothingIsCutShort(m.audioFormats);
    NothingIsCutShort(m.videoFormats);
    assert [] + Recovered(m.audioFormats, k - h) == Recovered(m.audioFormats, k - h);
    if k > h + a {
      RecoveredIsCutShort(m.videoFormats, k - h - a);
      assert [] + Recovered(m.videoFormats, k - h - a) == Recovered(m.videoFormats, k - h - a);
      SameMedium(Named(m), m, k - h, noAudio);
      WholeMedium(Named(m), false, m.audioFormats, m.audioPort, noAudio);
    }
  }

  /** Truncation at any admissible MTU spares the identity of the message and cuts each list to
      a prefix of which only the last entry may be cut; video survives only if all audio does. */
  lemma TruncationSafe(m: Message, mtu: nat, noAudio: bool, noVideo: bool)
    requires Representable(m) && Clean(m) && mtu >= MIN_SIZE
    ensures |Datagram(m, mtu)| <= mtu && Datagram(m, mtu)[|Datagram(m, mtu)| - 1] == NUL
    ensures KeptSafe(Parse(Received(Datagram(m, mtu)), noAudio, noVideo), m, noAudio, noVideo)
  {
    hide Parse, Survivor, Datagram, Text, KeptSafe, Representable, Clean, Received;
    Arrival(m, mtu, noAudio, noVideo);
    SurvivorIsSafe(m, Carried(m, mtu), noAudio, noVideo);
  }

  function PortFrom(port: nat, cut: int): nat {
    if cut <= 0 then 0 else RecoveredPort(port, cut)
  }

  lemma SurvivingPorts(m: Message, k: nat, noAudio: bool, noVideo: bool)
    requires k >= HeadLength(m)
    ensures var c := k - HeadLength(m); var p := Survivor(m, k, noAudio, noVideo);
      && p.audioPort == (if m.audioFormats == [] then 0
                         else PortFrom(m.audioPort, c - |Join(KeyLines("Audio", m.audioFormats))|))
      && p.videoPort == (if m.videoFormats == [] then 0
                         else PortFrom(m.videoPort, c - AudioLength(m) - |Join(KeyLines("Video", m.videoFormats))|))
  {
    hide Recovered, RecoveredPort, KeyLines, Section, Join;
  }

  /** Whichever lists the receiver wants, a port comes back wrong exactly when it is non-zero and
      not all of its digits arrived (or it was never printed, its format list being empty). */
  lemma PortsSurvive(m: Message, mtu: nat, noAudio: bool, noVideo: bool)
    requires Representable(m) && Clean(m) && mtu >= MIN_SIZE
    ensures var p := Parse(Received(Datagram(m, mtu)), noAudio, noVideo);
      && p.audioPort <= m.audioPort && p.videoPort <= m.videoPort
      && (p.audioPort == m.audioPort <==>
            m.audioPort == 0 || (m.audioFormats != [] && Carried(m, mtu) >= AudioPortEnd(m)))
      && (p.videoPort == m.videoPort <==>
            m.videoPort == 0 || (m.videoFormats != [] && Carried(m, mtu) >= VideoPortEnd(m)))
  {
    hide Parse, Survivor, Representable, Clean, Join, KeyLines, Datagram, Received, Section, PortFrom, Text, HeadLength;
    Arrival(m, mtu, noAudio, noVideo);
    TextLength(m);
    var c := Carried(m, mtu) - HeadLength(m);
    SurvivingPorts(m, Carried(m, mtu), noAudio, noVideo);
    SectionLength(false, m.audioFormats, m.audioPort);
    SectionLength(true, m.videoFormats, m.videoPort);
    PortSurvives(m.audioPort, c - |Join(KeyLines("Audio", m.audioFormats))|);
    PortSurvives(m.videoPort, c - AudioLength(m) - |Join(KeyLines("Video", m.videoFormats))|);
  }

  lemma PortSurvives(port: nat, cut: int)
    ensures var r := PortFrom(port, cut);
      r <= port && (r == port <==> port == 0 || cut >= 10 + |Decimal(port)|)
  {
    var d := Decimal(port);
    if cut > 10 {
      PrefixValue(d, Min(cut - 10, |d|));
      assert d[..|d|] == d;
    }
  }

  /** A port line that loses only its last digit still parses, to a tenth of the port. */
  lemma TruncatedPortIsWrong(m: Message, noAudio: bool, noVideo: bool)
    requires Representable(m) && Clean(m)
    requires m.audioFormats != [] && m.audioPort >= 10
    requires AudioPortEnd(m) + HEADER_SIZE >= MIN_SIZE
    ensures Parse(Received(Datagram(m, AudioPortEnd(m) + HEADER_SIZE)), noAudio, noVideo).audioPort == m.audioPort / 10
  {
    hide Parse, Survivor, Representable, Clean, Join, KeyLines, Datagram, Received, Section, Text, HeadLength;
    var mtu := AudioPortEnd(m) + HEADER_SIZE;
    Arrival(m, mtu, noAudio, noVideo);
    TextLength(m);
    SurvivingPorts(m, Carried(m, mtu), noAudio, noVideo);
    SectionLength(false, m.audioFormats, m.audioPort);
    LastDigitLost(m.audioPort);
  }

  lemma LastDigitLost(port: nat)
    requires port >= 10
    ensures RecoveredPort(port, 9 + |Decimal(port)|) == port / 10
  {
    assert Decimal(port)[..|Decimal(port)| - 1] == Decimal(port / 10);
  }

  /** A clean message whose port is never printed, and so comes back as zero from a datagram that
      loses nothing. */
  lemma UnprintedPortExample()
    ensures var m := Message(1, CODE_CALL, "1", 1, "2", 5004, 0, [], []);
      && Representable(m) && Clean(m) && Datagram(m, MIN_SIZE) == Header(m) + Text(m) + [NUL]
      && Parse(Received(Datagram(m, MIN_SIZE)), false, false) == m.(audioPort := 0)
  {
    hide Parse, Text, Header;
    var m := Message(1, CODE_CALL, "1", 1, "2", 5004, 0, [], []);
    CodesFit(m);
    CompleteArrival(m, false, false);
  }
}
