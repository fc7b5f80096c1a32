/** LEELEN VoIP messages as values: the ideal (unbounded) text of a message, the datagram a
    bounded buffer holds, and the line-by-line parse of a received datagram. */
module Messages {
  import opened CStrings

  const HEADER_SIZE := 8
  const NUMBER_STRLEN := 12

  /** 8 header bytes, `From=?\nTo=\n` and its NUL, two numbers and three digits of type. */
  const MIN_SIZE := HEADER_SIZE + 12 + 2 * (NUMBER_STRLEN - 1) + 3

  const CODE_CALL := 0x001
  const CODE_VIEW := 0x002
  const CODE_OK := 0x110
  const CODE_BYE := 0x214
  const CODE_ACCEPTED := 0x215
  const CODE_VOICE_MESSAGE := 0x217

  const U8 := 0x100
  const U16 := 0x1_0000
  const U32 := 0x1_0000_0000

  datatype Message = Message(
    id: nat, code: nat,
    from: string, fromType: nat, to: string,
    audioPort: nat, videoPort: nat,
    audioFormats: seq<string>, videoFormats: seq<string>)

  // ------------------------------------------------------------------ header

  function Le32(x: nat): (s: seq<char>)
    ensures |s| == 4
  {
    [(x % 256) as char, (x / 256 % 256) as char, (x / 65536 % 256) as char, (x / 16777216 % 256) as char]
  }

  function FromLe32(s: seq<char>): (x: nat)
    requires |s| == 4
  {
    s[0] as int + 256 * (s[1] as int) + 65536 * (s[2] as int) + 16777216 * (s[3] as int)
  }

  lemma Le32RoundTrip(x: nat)
    requires x < U32
    ensures FromLe32(Le32(x)) == x
  {
    assert x / 256 / 256 == x / 65536;
    assert x / 65536 / 256 == x / 16777216;
    assert x / 16777216 < 256;
  }

  function Header(m: Message): (s: seq<char>)
    ensures |s| == HEADER_SIZE
  {
    Le32(m.code) + Le32(m.id)
  }

  // -------------------------------------------------------------- ideal text

  /** Lines, each with its line feed. */
  function Join(lines: seq<string>): string {
    if lines == [] then "" else lines[0] + "\n" + Join(lines[1..])
  }

  lemma {:induction false} JoinConcat(a: seq<string>, b: seq<string>)
    ensures Join(a + b) == Join(a) + Join(b)
  {
    if a == [] {
      assert a + b == b;
    } else {
      assert (a + b)[1..] == a[1..] + b;
      JoinConcat(a[1..], b);
    }
  }

  function HeadLines(m: Message): seq<string> {
    ["From=" + m.from + "?" + Decimal(m.fromType), "To=" + m.to]
  }

  function KeyLines(key: string, formats: seq<string>): (lines: seq<string>)
    ensures |lines| == |formats|
    ensures forall i :: 0 <= i < |lines| ==> lines[i] == key + "=" + formats[i]
  {
    seq(|formats|, i requires 0 <= i < |formats| => key + "=" + formats[i])
  }

  function PortLine(key: string, port: nat): string {
    key + "Port=" + Decimal(port)
  }

  function Section(key: string, formats: seq<string>, port: nat): seq<string> {
    if formats == [] then [] else KeyLines(key, formats) + [PortLine(key, port)]
  }

  function LinesOf(m: Message): seq<string> {
    HeadLines(m) + Section("Audio", m.audioFormats, m.audioPort) + Section("Video", m.videoFormats, m.videoPort)
  }

  function Text(m: Message): string {
    Join(LinesOf(m))
  }

  // ---------------------------------------------------------- bounded buffer

  /** The header stores of the printer, which a buffer too short for a field skips. */
  function WithHeader(b: seq<char>, len: nat, m: Message): (r: seq<char>)
    requires len <= |b|
    ensures |r| == |b|
  {
    if len < 4 then b
    else if len < 8 then Le32(m.code) + b[4..]
    else Header(m) + b[8..]
  }

  /** A buffer of which the first `len` bytes may be used, with its text region holding the
      longest prefix of `text` that leaves room for a NUL. */
  function Filled(b: seq<char>, len: nat, text: string): (r: seq<char>)
    requires len <= |b|
    ensures |r| == |b|
  {
    if len <= HEADER_SIZE then b
    else
      var k := Min(|text|, len - HEADER_SIZE - 1);
      b[..HEADER_SIZE] + text[..k] + [NUL] + b[HEADER_SIZE + k + 1..]
  }

  /** What goes on the wire when at most `mtu` bytes are available. */
  function Datagram(m: Message, mtu: nat): (d: seq<char>)
    requires mtu > HEADER_SIZE
    ensures HEADER_SIZE < |d| <= mtu && d[|d| - 1] == NUL
  {
    Header(m) + Text(m)[..Min(|Text(m)|, mtu - HEADER_SIZE - 1)] + [NUL]
  }

  // ------------------------------------------------------------------- parse

  /** What repeated `strtok_r(…, "\n", …)` yields: the non-empty lines. */
  function Tokens(s: string): seq<string>
    decreases |s|
  {
    if s == "" then []
    else if s[0] == '\n' then Tokens(s[1..])
    else
      var e := IndexOf(s, '\n');
      assert e > 0;
      [s[..e]] + Tokens(s[e..])
  }

  /** The first token and what is left after it. */
  lemma TokensStep(line: string, rest: string)
    requires line != "" && '\n' !in line
    requires rest == "" || rest[0] == '\n'
    ensures Tokens(line + rest) == [line] + if rest == "" then [] else Tokens(rest[1..])
  {
    if rest == "" {
      IndexOfNone(line, '\n');
      assert line + rest == line;
    } else {
      assert line + rest == line + ['\n'] + rest[1..];
      IndexOfAt(line, '\n', rest[1..]);
      assert (line + rest)[|line|..] == rest && (line + rest)[..|line|] == line;
    }
  }

  function ParseFrom(p: Message, body: string): Message {
    var q := IndexOf(body, '?');
    var named := p.(from := if q >= NUMBER_STRLEN then "" else body[..q]);
    if q == |body| || q + 1 == |body| then named
    else
      var n := ParseLong(body[q + 1..]);
      named.(fromType := if n.used == |body| - q - 1 then n.value % U8 else 0)
  }

  function ParsePort(body: string): (port: nat)
    ensures port < U16
  {
    var n := ParseLong(body);
    if n.used == |body| then n.value % U16 else 0
  }

  /** One line of the message, in the order the source tests the keys. */
  function ParseLine(p: Message, line: string, noAudio: bool, noVideo: bool): Message {
    if "From=" <= line then ParseFrom(p, line[5..])
    else if "To=" <= line then
      if |line[3..]| >= NUMBER_STRLEN then p else p.(to := line[3..])
    else if "Audio=" <= line then
      if noAudio then p else p.(audioFormats := p.audioFormats + [line[6..]])
    else if "AudioPort=" <= line then p.(audioPort := ParsePort(line[10..]))
    else if "Video=" <= line then
      if noVideo then p else p.(videoFormats := p.videoFormats + [line[6..]])
    else if "VideoPort=" <= line then p.(videoPort := ParsePort(line[10..]))
    else p
  }

  function ParseLines(p: Message, lines: seq<string>, noAudio: bool, noVideo: bool): Message
    decreases |lines|
  {
    if lines == [] then p
    else ParseLines(ParseLine(p, lines[0], noAudio, noVideo), lines[1..], noAudio, noVideo)
  }

  function Blank(id: nat, code: nat): Message {
    Message(id, code, "", 0, "", 0, 0, [], [])
  }

  function Parse(msg: seq<char>, noAudio: bool, noVideo: bool): Message
    requires |msg| >= HEADER_SIZE
  {
    ParseLines(Blank(FromLe32(msg[4..8]), FromLe32(msg[..4])),
               Tokens(CStr(msg[HEADER_SIZE..])), noAudio, noVideo)
  }

  /** The receiver overwrites the last byte it got before it looks at the message. */
  function Received(d: seq<char>): (r: seq<char>)
    requires d != []
    ensures |r| == |d|
  {
    d[..|d| - 1] + [NUL]
  }
}
