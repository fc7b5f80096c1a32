/** Numbers packed into 32 bits: 14 for the block, 14 for the room, 4 for the extension. */
module NumberPacking {
  import opened CStrings
  import opened Numbers

  const FIELD := 0x4000
  const EXT_SHIFT := 0x1000_0000
  const NO_EXT := 0xf
  const WORD := 0x1_0000_0000

  /** The three bit fields as one integer. */
  function Fields(block: nat, room: nat, ext: nat): nat {
    block + room * FIELD + ext * EXT_SHIFT
  }

  function BlockField(x: nat): nat {
    x % FIELD
  }

  function RoomField(x: nat): nat {
    x / FIELD % FIELD
  }

  function ExtField(x: nat): nat {
    x / EXT_SHIFT % 16
  }

  lemma FieldsRoundTrip(block: nat, room: nat, ext: nat)
    requires block < FIELD && room < FIELD && ext < 16
    ensures var x := Fields(block, room, ext);
      x < WORD && BlockField(x) == block && RoomField(x) == room && ExtField(x) == ext
  {
  }

  lemma FieldsComplete(x: nat)
    requires x < WORD
    ensures Fields(BlockField(x), RoomField(x), ExtField(x)) == x
  {
  }

  /** `sep2 | extension` is not zero. */
  predicate HasExtension(w: seq<char>)
    requires |w| == STRLEN
  {
    w[9] != NUL || w[10] != NUL
  }

  function ExtBits(c: char): (e: nat)
    ensures e < 16
  {
    (c as int - '0' as int) % 16
  }

  /** `LeelenNumber_toint`; `atoi` reads on until a character that is not a digit. */
  function Pack(w: seq<char>): nat
    requires |w| == STRLEN
  {
    Fields(ParseLong(w).value % FIELD, ParseLong(w[5..]).value % FIELD,
           if HasExtension(w) then ExtBits(w[10]) else NO_EXT)
  }

  /** The last four decimal digits. */
  function Digits4(n: nat): (s: string)
    ensures IsBlock(s)
  {
    [DigitChar(n / 1000 % 10), DigitChar(n / 100 % 10), DigitChar(n / 10 % 10), DigitChar(n % 10)]
  }

  /** `LeelenNumber_fromint` into a record that held `o`. */
  function Unpack(o: seq<char>, x: nat): (w: seq<char>)
    requires |o| == STRLEN
    ensures |w| == STRLEN
  {
    Written(o, Digits4(BlockField(x)), Digits4(RoomField(x)),
            if ExtField(x) >= 10 then None else Some(DigitChar(ExtField(x))))
  }

  lemma Value4(s: string)
    requires IsBlock(s)
    ensures Value(s) == 1000 * DigitOf(s[0]) + 100 * DigitOf(s[1]) + 10 * DigitOf(s[2]) + DigitOf(s[3]) < 10000
  {
    assert s[..3][..2] == s[..2] && s[..2][..1] == s[..1] && s[..1][..0] == "";
    assert Value(s[..1]) == DigitOf(s[0]);
    assert Value(s[..2]) == 10 * Value(s[..1]) + DigitOf(s[1]);
    assert Value(s[..3]) == 10 * Value(s[..2]) + DigitOf(s[2]);
  }

  lemma ValueOfDigits4(n: nat)
    ensures Value(Digits4(n)) == n % 10000
  {
    Value4(Digits4(n));
    assert n / 10 / 10 == n / 100 && n / 100 / 10 == n / 1000 && n / 1000 / 10 == n / 10000;
  }

  lemma Digits4OfValue(s: string)
    requires IsBlock(s)
    ensures Digits4(Value(s)) == s
  {
    Value4(s);
    Digits4Of(DigitOf(s[0]), DigitOf(s[1]), DigitOf(s[2]), DigitOf(s[3]));
    hide Digits4, Value;
    assert forall k :: 0 <= k < 4 ==> DigitChar(DigitOf(s[k])) == s[k];
    assert s == [s[0], s[1], s[2], s[3]];
  }

  lemma Digits4Of(a: nat, b: nat, c: nat, d: nat)
    requires a < 10 && b < 10 && c < 10 && d < 10
    ensures Digits4(1000 * a + 100 * b + 10 * c + d) == [DigitChar(a), DigitChar(b), DigitChar(c), DigitChar(d)]
  {
    Quotients(a, b, c, d);
    hide DigitChar;
  }

  lemma Quotients(a: nat, b: nat, c: nat, d: nat)
    requires a < 10 && b < 10 && c < 10 && d < 10
    ensures var n := 1000 * a + 100 * b + 10 * c + d;
      n / 1000 % 10 == a && n / 100 % 10 == b && n / 10 % 10 == c && n % 10 == d
  {
    var n := 1000 * a + 100 * b + 10 * c + d;
    LastDigit(100 * a + 10 * b + c, d);
    LastDigit(10 * a + b, c);
    LastDigit(a, b);
    assert n / 10 == 100 * a + 10 * b + c;
    assert n / 100 == n / 10 / 10 && n / 1000 == n / 100 / 10;
  }

  lemma LastDigit(q: nat, r: nat)
    requires r < 10
    ensures (10 * q + r) / 10 == q && (10 * q + r) % 10 == r
  {
  }

  /** `atoi` on a part stops at the byte after it. */
  lemma AtoiPart(part: string, rest: seq<char>)
    requires IsBlock(part) && rest != [] && !IsDigit(rest[0])
    ensures ParseLong(part + rest).value == Value(part)
  {
    var s := part + rest;
    DigitsEnd(part, rest);
    assert s[0..] == s && s[..4] == part;
    Value4(part);
  }

  lemma {:induction false} DigitsEnd(d: string, rest: seq<char>)
    requires AllDigits(d) && rest != [] && !IsDigit(rest[0])
    ensures LeadingDigits(d + rest) == |d|
  {
    if d != "" {
      assert (d + rest)[1..] == d[1..] + rest;
      DigitsEnd(d[1..], rest);
    } else {
      assert d + rest == rest;
    }
  }

  lemma PackFields(w: seq<char>)
    requires |w| == STRLEN
    ensures var b, r := ParseLong(w).value, ParseLong(w[5..]).value;
      0 <= b < 10000 && 0 <= r < 10000 ==> Pack(w) == Fields(b, r, if HasExtension(w) then ExtBits(w[10]) else NO_EXT)
  {
    hide ParseLong, Fields;
  }

  /** A record as it is written, byte by byte: without an extension its last two bytes stay. */
  lemma WrittenParts(o: seq<char>, block: string, room: string, ext: Option<char>)
    requires |o| == STRLEN && |block| == |room| == 4 && IsExt(ext)
    ensures var w := Written(o, block, room, ext);
      && w == block + w[4..] && w[4] == '-' && w[5..] == room + w[9..] && !IsDigit(w[9])
      && w[..4] == block && w[5..9] == room && w[9] as int == (if ext.Some? then 45 else 0)
      && (ext.Some? ==> HasExtension(w) && w[10] == ext.value && w[11] as int == 0)
      && (ext.Some? ==> ExtBits(w[10]) == DigitOf(ext.value))
      && (ext.None? ==> w[10] == o[10] && w[11] == o[11] && (HasExtension(w) <==> o[10] != NUL))
  {
  }

  /** What packing makes of a number as the parser leaves it. */
  lemma PackWritten(o: seq<char>, block: string, room: string, ext: Option<char>)
    requires |o| == STRLEN && IsBlock(block) && IsBlock(room) && IsExt(ext)
    ensures Pack(Written(o, block, room, ext)) == Fields(Value(block), Value(room),
      if ext.Some? then DigitOf(ext.value) else if o[10] == NUL then NO_EXT else ExtBits(o[10]))
    ensures Pack(Written(o, block, room, ext)) == Value(block) + 0x4000 * Value(room) + 0x1000_0000 *
      (if ext.Some? then ext.value as int - 48 else if o[10] as int == 0 then 15 else (o[10] as int - 48) % 16)
  {
    hide Pack, ParseLong, Value, Written, HasExtension;
    var w := Written(o, block, room, ext);
    WrittenParts(o, block, room, ext);
    PackFields(w);
    AtoiPart(block, w[4..]);
    AtoiPart(room, w[9..]);
    Value4(block);
    Value4(room);
  }

  /** A number whose extension byte is zero when it has no extension. */
  predicate WellFormed(w: seq<char>, block: string, room: string, ext: Option<char>) {
    && |w| == STRLEN && IsBlock(block) && IsBlock(room) && IsExt(ext)
    && w == Written(w, block, room, ext) && (ext.None? ==> w[10] == NUL)
  }

  /** Unpacking undoes packing for every well-formed number, whatever the target held. */
  lemma UnpackPack(w: seq<char>, block: string, room: string, ext: Option<char>, o: seq<char>)
    requires WellFormed(w, block, room, ext) && |o| == STRLEN
    ensures Unpack(o, Pack(w)) == Written(o, block, room, ext)
    ensures CStr(Unpack(o, Pack(w))) == CStr(w) == Canonical(block, room, ext)
  {
    hide Pack, Digits4, Written;
    PackWritten(w, block, room, ext);
    Value4(block);
    Value4(room);
    var e := if ext.Some? then DigitOf(ext.value) else NO_EXT;
    FieldsRoundTrip(Value(block), Value(room), e);
    Digits4OfValue(block);
    Digits4OfValue(room);
    WrittenText(o, block, room, ext);
    WrittenText(w, block, room, ext);
  }

  /** The number unpacked from any word, as text: the last four decimal digits of both fields, and the
      extension if the last field is a digit. */
  lemma UnpackText(o: seq<char>, x: nat)
    requires x < 0x1_0000_0000 && |o| == STRLEN
    ensures var t := CStr(Unpack(o, x)); var e := x / 0x1000_0000;
      && |t| == (if e >= 10 then 9 else 11)
      && IsBlock(t[..4]) && Value(t[..4]) == x % 0x4000 % 10000
      && t[4] == '-'
      && IsBlock(t[5..9]) && Value(t[5..9]) == x / 0x4000 % 0x4000 % 10000
      && (e < 10 ==> t[9] == '-' && t[10] as int == 48 + e)
  {
    hide Digits4, Written, CStr;
    var b, r := Digits4(BlockField(x)), Digits4(RoomField(x));
    var ext := if ExtField(x) >= 10 then None else Some(DigitChar(ExtField(x)));
    ValueOfDigits4(BlockField(x));
    ValueOfDigits4(RoomField(x));
    WrittenText(o, b, r, ext);
    var t := Canonical(b, r, ext);
    assert t[..4] == b && t[5..9] == r;
    assert ExtField(x) == x / 0x1000_0000;
  }

  /** Packing tells well-formed numbers apart. */
  lemma PackIsInjective(w: seq<char>, b: string, r: string, e: Option<char>,
                        w': seq<char>, b': string, r': string, e': Option<char>)
    requires WellFormed(w, b, r, e) && WellFormed(w', b', r', e') && Pack(w) == Pack(w')
    ensures b == b' && r == r' && e == e'
  {
    hide Pack, Unpack;
    UnpackPack(w, b, r, e, w);
    UnpackPack(w', b', r', e', w);
    var t := Canonical(b, r, e);
    assert t[..4] == b && t[5..9] == r && (e.Some? ==> t[10] == e.value);
    var t' := Canonical(b', r', e');
    assert t'[..4] == b' && t'[5..9] == r' && (e'.Some? ==> t'[10] == e'.value);
  }

  /** A word unpacked into a zeroed record packs to itself exactly when its fields are decimal. */
  lemma PackUnpack(x: nat, o: seq<char>)
    requires x < WORD && |o| == STRLEN && o[10] == NUL
    ensures Pack(Unpack(o, x)) == x <==>
      BlockField(x) < 10000 && RoomField(x) < 10000 && (ExtField(x) <= 9 || ExtField(x) == NO_EXT)
  {
    hide Pack, Digits4, Written, Fields, BlockField, RoomField, ExtField, Value;
    var b, r, e := BlockField(x), RoomField(x), ExtField(x);
    var ext := if e >= 10 then None else Some(DigitChar(e));
    PackWritten(o, Digits4(b), Digits4(r), ext);
    ValueOfDigits4(b);
    ValueOfDigits4(r);
    FieldsComplete(x);
    FieldsRoundTrip(b % 10000, r % 10000, if e >= 10 then NO_EXT else e);
  }

  /** A number parsed into a record that is not zeroed keeps the old extension byte, and packing
      takes it for an extension: the packed number has none exactly when that byte is zero or
      looks like none. */
  lemma StaleExtension(o: seq<char>, block: string, room: string)
    requires |o| == STRLEN && IsBlock(block) && IsBlock(room)
    ensures ExtField(Pack(Written(o, block, room, None))) >= 10 <==> o[10] == NUL || ExtBits(o[10]) >= 10
  {
    hide Pack, Written;
    PackWritten(o, block, room, None);
    Value4(block);
    Value4(room);
    FieldsRoundTrip(Value(block), Value(room), if o[10] == NUL then NO_EXT else ExtBits(o[10]));
  }

  lemma ExampleForms()
    ensures Parse("1234-5678-3") == Some(Form(Some("1234"), "5678", Some('3')))
    ensures Parse("1-02") == Some(Form(Some("1"), "02", None))
  {
    hide Parse;
    var s, t := "1234-5678-3", "1-02";
    assert s[..4] == "1234" && s[5..9] == "5678";
    assert t[..1] == "1" && t[2..] == "02";
    ParseIsGrammar(s, Form(Some("1234"), "5678", Some('3')));
    ParseIsGrammar(t, Form(Some("1"), "02", None));
  }

  lemma ExamplePads()
    ensures Pad("1") == "0001" && Pad("02") == "0002"
    ensures Value("0001") == 1 && Value("0002") == 2
  {
    Value4("0001");
    Value4("0002");
  }

  /** Reading `1234-5678-3` and then `1-02` into the same record: the second number packs as
      `0001-0002-3`. */
  lemma StaleExtensionExample(o: seq<char>)
    requires |o| == STRLEN
    ensures Parse("1234-5678-3").Some? && Parse("1-02").Some?
    ensures var first := Result(o, "1234-5678-3", "0000"); var second := Result(first, "1-02", "0000");
      CStr(second) == "0001-0002" && Pack(second) == Fields(1, 2, 3)
  {
    hide Parse, Pack, ParseLong, Value, Written, Fields, Canonical;
    ExampleForms();
    ExamplePads();
    var first := Written(o, "1234", "5678", Some('3'));
    WrittenParts(o, "1234", "5678", Some('3'));
    WrittenText(first, "0001", "0002", None);
    PackWritten(first, "0001", "0002", None);
    ExampleText();
  }

  lemma ExampleText()
    ensures Canonical("0001", "0002", None) == "0001-0002"
  {
  }
}
