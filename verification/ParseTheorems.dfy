/** What the parser makes of any text at all, whoever wrote it. */
module ParseTheorems {
  import opened CStrings
  import opened Messages
  import opened MessageTheorems

  // ------------------------------------------------------------------- lines

  lemma TokensAfterFeed(s: string)
    ensures Tokens("\n" + s) == Tokens(s)
  {
    assert ("\n" + s)[0] == '\n' && ("\n" + s)[1..] == s;
  }

  /** The first line of a text and the rest, which is empty or starts with a line feed. */
  lemma TokensFirst(line: string, rest: string)
    requires line != "" && '\n' !in line && (rest == "" || rest[0] == '\n')
    ensures Tokens(line + rest) == [line] + Tokens(rest)
  {
    TokensStep(line, rest);
    if rest != "" {
      assert rest == "\n" + rest[1..];
      TokensAfterFeed(rest[1..]);
    }
  }

  /** A line feed separates: what is before it and what is after it are read apart. */
  lemma {:induction false} TokensSplit(a: string, b: string)
    ensures Tokens(a + ("\n" + b)) == Tokens(a) + Tokens(b)
    decreases |a|
  {
    hide Tokens;
    var feed := "\n" + b;
    if a == "" {
      assert a + feed == feed;
      TokensAfterFeed(b);
      TokensOfNothing();
    } else if a[0] == '\n' {
      assert a == "\n" + a[1..] && a + feed == "\n" + (a[1..] + feed);
      TokensAfterFeed(a[1..]);
      TokensAfterFeed(a[1..] + feed);
      TokensSplit(a[1..], b);
    } else {
      var e := IndexOf(a, '\n');
      var line, rest := a[..e], a[e..];
      assert a == line + rest && a + feed == line + (rest + feed);
      TokensFirst(line, rest);
      TokensFirst(line, rest + feed);
      TokensSplit(rest, b);
    }
  }

  lemma TokensOfNothing()
    ensures Tokens("") == []
  {
  }

  /** A line without line feeds is one token, unless it is empty. */
  lemma TokensOfLine(line: string)
    requires '\n' !in line
    ensures Tokens(line) == if line == "" then [] else [line]
  {
    if line != "" {
      TokensStep(line, "");
      assert line + "" == line;
    }
  }

  // ---------------------------------------------------------------- one line

  /** A number that fills the whole text; anything else counts as zero. */
  function Whole(s: string): int {
    var n := ParseLong(s);
    if n.used == |s| then n.value else 0
  }

  /** The number before the question mark, empty if it does not fit. */
  function Caller(body: string): string {
    var q := IndexOf(body, '?');
    if q >= 12 then "" else body[..q]
  }

  /** There is something after the question mark. */
  predicate Typed(body: string) {
    IndexOf(body, '?') + 1 < |body|
  }

  function TypeText(body: string): string
    requires Typed(body)
  {
    body[IndexOf(body, '?') + 1..]
  }

  /** At most one key starts a line. */
  lemma KeysExclude(line: string)
    ensures "From=" <= line ==> !("To=" <= line) && line[0] == 'F'
    ensures "To=" <= line ==> line[0] == 'T'
    ensures "Audio=" <= line ==> line[0] == 'A' && line[5] == '='
    ensures "AudioPort=" <= line ==> line[0] == 'A' && line[5] == 'P'
    ensures "Video=" <= line ==> line[0] == 'V' && line[5] == '='
    ensures "VideoPort=" <= line ==> line[0] == 'V' && line[5] == 'P'
  {
  }

  /** What a line says, key by key: everything its key does not name stays as it was. */
  lemma LineMeans(p: Message, line: string, noAudio: bool, noVideo: bool)
    ensures var q := ParseLine(p, line, noAudio, noVideo);
      && q.id == p.id && q.code == p.code
      && q.from == (if "From=" <= line then Caller(line[5..]) else p.from)
      && q.fromType == (if "From=" <= line && Typed(line[5..]) then Whole(TypeText(line[5..])) % 256 else p.fromType)
      && q.to == (if "To=" <= line && |line[3..]| < 12 then line[3..] else p.to)
      && q.audioFormats == p.audioFormats + (if "Audio=" <= line && !noAudio then [line[6..]] else [])
      && q.videoFormats == p.videoFormats + (if "Video=" <= line && !noVideo then [line[6..]] else [])
      && q.audioPort == (if "AudioPort=" <= line then Whole(line[10..]) % 65536 else p.audioPort)
      && q.videoPort == (if "VideoPort=" <= line then Whole(line[10..]) % 65536 else p.videoPort)
  {
    hide ParseLong, IndexOf;
    KeysExclude(line);
  }

  // ------------------------------------------------------------ all the lines

  /** What the last line that starts with `key` and counts says. */
  function LastSaid(lines: seq<string>, key: string, counts: string -> bool): (r: Option<string>) {
    if lines == [] then None
    else
      var line := lines[|lines| - 1];
      if key <= line && counts(line[|key|..]) then Some(line[|key|..]) else LastSaid(lines[..|lines| - 1], key, counts)
  }

  /** What the lines that start with `key` say, in order. */
  function AllSaid(lines: seq<string>, key: string): seq<string> {
    if lines == [] then []
    else AllSaid(lines[..|lines| - 1], key) + if key <= lines[|lines| - 1] then [lines[|lines| - 1][|key|..]] else []
  }

  lemma {:induction false} LastSaidCounts(lines: seq<string>, key: string, counts: string -> bool)
    ensures LastSaid(lines, key, counts).Some? ==> counts(LastSaid(lines, key, counts).value)
  {
    if lines != [] {
      LastSaidCounts(lines[..|lines| - 1], key, counts);
    }
  }

  function Always(): string -> bool {
    _ => true
  }

  /** A number that fits. */
  function Short(): string -> bool {
    s => |s| < 12
  }

  function HasType(): string -> bool {
    s => Typed(s)
  }

  /** The parse of any lines, field by field: each field is what the last line for it says, and the
      format lists are all the lines for them. */
  predicate Means(p: Message, id: nat, code: nat, lines: seq<string>, noAudio: bool, noVideo: bool) {
    && p.id == id && p.code == code
    && p.from == (match LastSaid(lines, "From=", Always()) case None => "" case Some(b) => Caller(b))
    && p.fromType == (match LastSaid(lines, "From=", HasType())
                      case None => 0
                      case Some(b) => if Typed(b) then Whole(TypeText(b)) % 256 else 0)
    && p.to == (match LastSaid(lines, "To=", Short()) case None => "" case Some(b) => b)
    && p.audioFormats == (if noAudio then [] else AllSaid(lines, "Audio="))
    && p.videoFormats == (if noVideo then [] else AllSaid(lines, "Video="))
    && p.audioPort == (match LastSaid(lines, "AudioPort=", Always()) case None => 0 case Some(b) => Whole(b) % 65536)
    && p.videoPort == (match LastSaid(lines, "VideoPort=", Always()) case None => 0 case Some(b) => Whole(b) % 65536)
  }

  lemma MeansSnoc(p: Message, id: nat, code: nat, lines: seq<string>, line: string, noAudio: bool, noVideo: bool)
    requires Means(p, id, code, lines, noAudio, noVideo)
    ensures Means(ParseLine(p, line, noAudio, noVideo), id, code, lines + [line], noAudio, noVideo)
  {
    hide ParseLine, Whole, Caller, TypeText, Typed;
    LineMeans(p, line, noAudio, noVideo);
    assert (lines + [line])[..|lines|] == lines;
  }

  lemma NothingMeans(id: nat, code: nat, noAudio: bool, noVideo: bool)
    ensures Means(ParseLines(Blank(id, code), [], noAudio, noVideo), id, code, [], noAudio, noVideo)
  {
  }

  lemma {:induction false} LinesMean(id: nat, code: nat, lines: seq<string>, noAudio: bool, noVideo: bool)
    ensures Means(ParseLines(Blank(id, code), lines, noAudio, noVideo), id, code, lines, noAudio, noVideo)
    decreases |lines|
  {
    hide ParseLine, Means, ParseLines;
    if lines == [] {
      NothingMeans(id, code, noAudio, noVideo);
    } else {
      var n := |lines| - 1;
      LinesMean(id, code, lines[..n], noAudio, noVideo);
      var p := ParseLines(Blank(id, code), lines[..n], noAudio, noVideo);
      assert lines == lines[..n] + [lines[n]];
      ParseConcat(Blank(id, code), lines[..n], [lines[n]], noAudio, noVideo);
      ParseOne(p, lines[n], noAudio, noVideo);
      MeansSnoc(p, id, code, lines[..n], lines[n], noAudio, noVideo);
    }
  }

  /** The meaning of every message, well formed or not. */
  lemma ParseMeans(msg: seq<char>, noAudio: bool, noVideo: bool)
    requires |msg| >= HEADER_SIZE
    ensures Means(Parse(msg, noAudio, noVideo), FromLe32(msg[4..8]), FromLe32(msg[..4]),
                  Tokens(CStr(msg[8..])), noAudio, noVideo)
  {
    LinesMean(FromLe32(msg[4..8]), FromLe32(msg[..4]), Tokens(CStr(msg[8..])), noAudio, noVideo);
  }

  // ------------------------------------------------------------ ignored lines

  predicate Ignorable(line: string) {
    && '\n' !in line && NUL !in line
    && !("From=" <= line) && !("To=" <= line) && !("Audio=" <= line) && !("AudioPort=" <= line)
    && !("Video=" <= line) && !("VideoPort=" <= line)
  }

  lemma IgnorableLine(p: Message, line: string, noAudio: bool, noVideo: bool)
    requires Ignorable(line)
    ensures ParseLine(p, line, noAudio, noVideo) == p
  {
    hide ParseLine, Whole, Caller;
    LineMeans(p, line, noAudio, noVideo);
  }

  lemma ParseText(head: seq<char>, text: string, noAudio: bool, noVideo: bool)
    requires |head| == HEADER_SIZE && NUL !in text
    ensures Parse(head + text + [NUL], noAudio, noVideo)
         == ParseLines(Blank(FromLe32(head[4..8]), FromLe32(head[..4])), Tokens(text), noAudio, noVideo)
  {
    hide ParseLines, Tokens, FromLe32;
    var msg := head + text + [NUL];
    assert msg[..4] == head[..4] && msg[4..8] == head[4..8] && msg[HEADER_SIZE..] == text + [NUL];
    CStrIs(text, [NUL]);
  }

  /** A line that starts with none of the six keys, wherever it stands, changes nothing. */
  lemma UnknownLineIgnored(head: seq<char>, pre: string, line: string, post: string, noAudio: bool, noVideo: bool)
    requires |head| == HEADER_SIZE && NUL !in pre && NUL !in post && Ignorable(line)
    ensures Parse(head + (pre + ("\n" + (line + ("\n" + post)))) + [NUL], noAudio, noVideo)
         == Parse(head + (pre + ("\n" + post)) + [NUL], noAudio, noVideo)
  {
    hide Parse, ParseLine, ParseLines, Tokens, FromLe32, Ignorable;
    var p := Blank(FromLe32(head[4..8]), FromLe32(head[..4]));
    IgnorableHasNoNul(line);
    ParseText(head, pre + ("\n" + (line + ("\n" + post))), noAudio, noVideo);
    ParseText(head, pre + ("\n" + post), noAudio, noVideo);
    TokensSplit(pre, line + ("\n" + post));
    TokensSplit(line, post);
    TokensSplit(pre, post);
    TokensOfLine(line);
    var before := ParseLines(p, Tokens(pre), noAudio, noVideo);
    ParseConcat(p, Tokens(pre), Tokens(line) + Tokens(post), noAudio, noVideo);
    ParseConcat(p, Tokens(pre), Tokens(post), noAudio, noVideo);
    if line == "" {
      assert [] + Tokens(post) == Tokens(post);
    } else {
      ParseConcat(before, [line], Tokens(post), noAudio, noVideo);
      ParseOne(before, line, noAudio, noVideo);
      IgnorableLine(before, line, noAudio, noVideo);
    }
  }

  lemma IgnorableHasNoNul(line: string)
    requires Ignorable(line)
    ensures NUL !in line && '\n' !in line
  {
  }

  // ---------------------------------------------------------- malformed fields

  /** What a From line does, through what it says. */
  lemma FromLineSets(p: Message, body: string, noAudio: bool, noVideo: bool)
    requires !Typed(body)
    ensures ParseLine(p, "From=" + body, noAudio, noVideo) == p.(from := Caller(body))
  {
    hide ParseLine, ParseLong, IndexOf, Caller, Typed;
    var line := "From=" + body;
    assert line[5..] == body;
    LineMeans(p, line, noAudio, noVideo);
    KeysExclude(line);
  }

  /** A From line without a question mark, or with nothing behind it, leaves the type alone; and a
      number of twelve or more characters counts as none. */
  lemma FromLineCases(p: Message, number: string, noAudio: bool, noVideo: bool)
    requires '?' !in number
    ensures var q := p.(from := if |number| >= 12 then "" else number);
      && ParseLine(p, "From=" + number, noAudio, noVideo) == q
      && ParseLine(p, "From=" + (number + ['?'] + ""), noAudio, noVideo) == q
  {
    hide ParseLine, IndexOf;
    IndexOfNone(number, '?');
    IndexOfAt(number, '?', "");
    assert number[..|number|] == number && (number + ['?'] + "")[..|number|] == number;
    FromLineSets(p, number, noAudio, noVideo);
    FromLineSets(p, number + ['?'] + "", noAudio, noVideo);
  }

  /** A device type or port that is a numeral is taken modulo the width of its field, also with
      white space or a sign before it; anything behind the digits makes it zero. */
  lemma NumeralFills(blanks: string, sign: string, d: string, rest: string)
    requires Blanks(blanks) && IsSign(sign) && d != "" && AllDigits(d) && (rest == "" || !IsDigit(rest[0]))
    ensures Whole(blanks + (sign + (d + rest))) == if rest == "" then Clamped(sign, Value(d)) else 0
  {
    hide ParseLong;
    StrtolReads(blanks, sign, d, rest);
  }

  lemma NoNumeralIsZero(blanks: string, sign: string, rest: string)
    requires Blanks(blanks) && IsSign(sign) && (rest == "" || !IsDigit(rest[0]))
    requires sign == "" ==> rest == "" || (!IsBlank(rest[0]) && rest[0] != '+' && rest[0] != '-')
    ensures Whole(blanks + (sign + rest)) == 0
  {
    hide ParseLong;
    StrtolReadsNothing(blanks, sign, rest);
  }
}
