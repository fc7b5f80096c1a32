/** LEELEN phone numbers: the accepted spellings as a grammar, the parser as a function, and the
    packing into a 32-bit integer. */
module Numbers {
  import opened CStrings

  const STRLEN := 12

  /** A number as written: the block may be left to the base. */
  datatype Form = Form(block: Option<string>, room: string, ext: Option<char>)

  // ----------------------------------------------------------------- grammar

  predicate Part(s: string) {
    1 <= |s| <= 4 && AllDigits(s)
  }

  predicate IsSep(c: char) {
    !IsDigit(c)
  }

  predicate Joined2(s: string, a: string, b: string) {
    |s| == |a| + 1 + |b| && s[..|a|] == a && IsSep(s[|a|]) && s[|a| + 1..] == b
  }

  predicate Joined3(s: string, a: string, b: string, e: char) {
    && |s| == |a| + |b| + 3 && s[..|a|] == a && IsSep(s[|a|]) && s[|a| + 1..|a| + 1 + |b|] == b
    && IsSep(s[|a| + |b| + 1]) && s[|a| + |b| + 2] == e
  }

  /** The spellings of a form. A one-digit tail after a single separator is an extension, so
      `block-room` needs a room of at least two digits. */
  predicate Spells(s: string, f: Form) {
    && Part(f.room) && (f.ext.Some? ==> IsDigit(f.ext.value))
    && match f
       case Form(Some(b), r, None) =>
         Part(b) && ((|r| >= 2 && Joined2(s, b, r)) || (|b| == |r| == 4 && s == b + r))
       case Form(Some(b), r, Some(e)) =>
         Part(b) && (Joined3(s, b, r, e) || (|b| == |r| == 4 && (s == b + r + [e] || Joined2(s, b + r, [e]))))
       case Form(None, r, None) =>
         s == r
       case Form(None, r, Some(e)) =>
         Joined2(s, r, [e]) || (|r| == 4 && s == r + [e])
  }

  // ------------------------------------------------------------------ parser

  /** The first separator at or after `i`. */
  function NextSep(s: string, i: nat): (j: nat)
    requires i <= |s|
    ensures i <= j <= |s| && (forall k :: i <= k < j ==> IsDigit(s[k]))
    ensures j < |s| ==> IsSep(s[j])
    decreases |s| - i
  {
    if i == |s| || IsSep(s[i]) then i else NextSep(s, i + 1)
  }

  function Parse(s: string): Option<Form> {
    if s == "" || |s| >= STRLEN || IsSep(s[0]) then None
    else
      var i := NextSep(s, 0);
      if i == |s| then ParsePlain(s)
      else
        var j := NextSep(s, i + 1);
        if j == |s| then ParseOneSep(s, i)
        else if NextSep(s, j + 1) < |s| then None
        else ParseTwoSeps(s, i, j)
  }

  function ParsePlain(s: string): Option<Form> {
    if |s| <= 4 then Some(Form(None, s, None))
    else if |s| == 5 then Some(Form(None, s[..4], Some(s[4])))
    else if |s| == 8 then Some(Form(Some(s[..4]), s[4..], None))
    else if |s| == 9 then Some(Form(Some(s[..4]), s[4..8], Some(s[8])))
    else None
  }

  function ParseOneSep(s: string, i: nat): Option<Form>
    requires i < |s|
  {
    var rest := s[i + 1..];
    if rest == "" then None
    else if |rest| >= 2 then
      if i <= 4 && |rest| <= 4 then Some(Form(Some(s[..i]), rest, None)) else None
    else if i <= 4 then Some(Form(None, s[..i], Some(rest[0])))
    else if i == 8 then Some(Form(Some(s[..4]), s[4..8], Some(rest[0])))
    else None
  }

  function ParseTwoSeps(s: string, i: nat, j: nat): Option<Form>
    requires i < j < |s|
  {
    if i + 1 == j || j + 2 != |s| || i > 4 || j - i - 1 > 4 then None
    else Some(Form(Some(s[..i]), s[i + 1..j], Some(s[j + 1])))
  }

  /** The parser accepts exactly the grammar, which is therefore unambiguous. */
  lemma ParseIsGrammar(s: string, f: Form)
    ensures Parse(s) == Some(f) <==> Spells(s, f)
  {
    if Spells(s, f) {
      Complete(s, f);
    }
    if Parse(s) == Some(f) {
      Sound(s, f);
    }
  }

  lemma SepAt(s: string, i: nat, j: nat)
    requires i <= j <= |s| && (forall k :: i <= k < j ==> IsDigit(s[k])) && (j < |s| ==> IsSep(s[j]))
    ensures NextSep(s, i) == j
    decreases j - i
  {
  }

  lemma Sound(s: string, f: Form)
    requires Parse(s) == Some(f)
    ensures Spells(s, f)
  {
    hide Spells, ParsePlain, ParseOneSep, ParseTwoSeps;
    var i := NextSep(s, 0);
    if i == |s| {
      SoundPlain(s, f);
    } else if NextSep(s, i + 1) == |s| {
      SoundOneSep(s, i, f);
    } else {
      SoundTwoSeps(s, i, NextSep(s, i + 1), f);
    }
  }

  lemma SoundPlain(s: string, f: Form)
    requires s != "" && AllDigits(s) && ParsePlain(s) == Some(f)
    ensures Spells(s, f)
  {
  }

  lemma SoundOneSep(s: string, i: nat, f: Form)
    requires 0 < i < |s| && AllDigits(s[..i]) && IsSep(s[i]) && AllDigits(s[i + 1..])
    requires ParseOneSep(s, i) == Some(f)
    ensures Spells(s, f)
  {
  }

  lemma SoundTwoSeps(s: string, i: nat, j: nat, f: Form)
    requires 0 < i < j < |s| && AllDigits(s[..i]) && IsSep(s[i]) && AllDigits(s[i + 1..j]) && IsSep(s[j])
    requires AllDigits(s[j + 1..]) && ParseTwoSeps(s, i, j) == Some(f)
    ensures Spells(s, f)
  {
  }

  lemma Complete(s: string, f: Form)
    requires Spells(s, f)
    ensures Parse(s) == Some(f)
  {
    hide Parse;
    if f.ext.None? && f.block.Some? && |f.room| >= 2 && Joined2(s, f.block.value, f.room) {
      CompleteOneSep(s, f.block.value, f.room);
    } else if f.ext.Some? && f.block.Some? && Joined3(s, f.block.value, f.room, f.ext.value) {
      CompleteTwoSeps(s, f.block.value, f.room, f.ext.value);
    } else if f.ext.Some? && Joined2(s, if f.block.Some? then f.block.value + f.room else f.room, [f.ext.value]) {
      CompleteOneSep(s, if f.block.Some? then f.block.value + f.room else f.room, [f.ext.value]);
      if f.block.Some? {
        assert s[..4] == s[..8][..4] == f.block.value && s[4..8] == s[..8][4..] == f.room;
      }
    } else {
      CompletePlain(s);
      if f.block.Some? {
        assert s[..4] == f.block.value && s[4..8] == f.room && s[4..][..4] == f.room;
      } else if f.ext.Some? {
        assert s[..4] == f.room;
      }
    }
  }

  lemma CompletePlain(s: string)
    requires 0 < |s| < STRLEN && AllDigits(s)
    ensures Parse(s) == ParsePlain(s)
  {
  }

  lemma CompleteOneSep(s: string, a: string, b: string)
    requires Joined2(s, a, b) && a != "" && AllDigits(a) && AllDigits(b) && |s| < STRLEN
    ensures Parse(s) == ParseOneSep(s, |a|)
  {
    assert forall k :: 0 <= k < |a| ==> s[k] == s[..|a|][k];
    assert forall k :: |a| + 1 <= k < |s| ==> s[k] == s[|a| + 1..][k - |a| - 1];
    SepAt(s, 0, |a|);
    SepAt(s, |a| + 1, |s|);
  }

  lemma CompleteTwoSeps(s: string, a: string, b: string, e: char)
    requires Joined3(s, a, b, e) && a != "" && b != "" && AllDigits(a) && AllDigits(b) && IsDigit(e) && |s| < STRLEN
    ensures Parse(s) == ParseTwoSeps(s, |a|, |a| + 1 + |b|)
  {
    var j := |a| + 1 + |b|;
    assert forall k :: 0 <= k < |a| ==> s[k] == s[..|a|][k];
    assert forall k :: |a| + 1 <= k < j ==> s[k] == s[|a| + 1..j][k - |a| - 1];
    SepAt(s, 0, |a|);
    SepAt(s, |a| + 1, j);
    SepAt(s, j + 1, |s|);
  }

  /** No string spells two forms. */
  lemma Unambiguous(s: string, f: Form, g: Form)
    requires Spells(s, f) && Spells(s, g)
    ensures f == g
  {
    hide Spells;
    ParseIsGrammar(s, f);
    ParseIsGrammar(s, g);
  }

  // ------------------------------------------------------- the number itself

  function Zeros(n: nat): (z: string)
    ensures |z| == n && forall i :: 0 <= i < n ==> z[i] == '0'
  {
    seq(n, _ => '0')
  }

  /** A part padded with zeros to four digits. */
  function Pad(s: string): (r: string)
    requires |s| <= 4
    ensures |r| == 4 && (AllDigits(s) ==> AllDigits(r))
    ensures |s| == 4 ==> r == s
  {
    Zeros(4 - |s|) + s
  }

  /** Padding keeps the value of a part, and only padding makes parts of one value equal. */
  lemma PadKeepsValue(s: string, t: string)
    requires |s| <= 4 && |t| <= 4 && AllDigits(s) && AllDigits(t)
    ensures Value(Pad(s)) == Value(s)
    ensures Pad(s) == Pad(t) <==> Value(s) == Value(t)
  {
    hide Value, Pad;
    PadOne(s);
    PadOne(t);
    SameValue(Pad(s), Pad(t));
  }

  lemma PadOne(s: string)
    requires |s| <= 4 && AllDigits(s)
    ensures |Pad(s)| == 4 && AllDigits(Pad(s)) && Value(Pad(s)) == Value(s)
  {
    hide Value, Zeros;
    ZerosKeepValue(4 - |s|, s);
  }

  lemma {:induction false} ZerosKeepValue(n: nat, s: string)
    requires AllDigits(s)
    ensures AllDigits(Zeros(n) + s) && Value(Zeros(n) + s) == Value(s)
  {
    if s != "" {
      assert (Zeros(n) + s)[..n + |s| - 1] == Zeros(n) + s[..|s| - 1];
      ZerosKeepValue(n, s[..|s| - 1]);
    } else if n > 0 {
      assert (Zeros(n) + s)[..n - 1] == Zeros(n - 1) + s;
      ZerosKeepValue(n - 1, s);
    }
  }

  lemma {:induction false} SameValue(s: string, t: string)
    requires |s| == |t| && AllDigits(s) && AllDigits(t)
    ensures Value(s) == Value(t) <==> s == t
  {
    if s != "" && Value(s) == Value(t) {
      var n := |s| - 1;
      SameValue(s[..n], t[..n]);
      assert s[n] == t[n];
      assert s == s[..n] + [s[n]] && t == t[..n] + [t[n]];
    }
  }

  /** The twelve bytes of a number without the ones that are left alone. */
  function Written(o: seq<char>, block: string, room: string, ext: Option<char>): (r: seq<char>)
    requires |o| == STRLEN && |block| == |room| == 4
    ensures |r| == STRLEN
  {
    block + ['-'] + room + match ext
      case None => [NUL] + o[10..]
      case Some(e) => ['-', e, NUL]
  }

  /** The number as text. */
  function Canonical(block: string, room: string, ext: Option<char>): string {
    block + ['-'] + room + match ext
      case None => ""
      case Some(e) => ['-', e]
  }

  const RET_OK := 0
  const RET_BAD := 1
  const RET_NEEDS_BASE := 2

  /** What the parser returns for the C string `s`. */
  function Verdict(s: string, hasBase: bool): int {
    match Parse(s)
    case None => RET_BAD
    case Some(f) => if f.block.Some? || hasBase then RET_OK else RET_NEEDS_BASE
  }

  /** The bytes the parser leaves in the destination. */
  function Result(o: seq<char>, s: string, base: string): (r: seq<char>)
    requires |o| == STRLEN && |base| == 4 && Parse(s).Some?
    ensures |r| == STRLEN
  {
    var f := Parse(s).value;
    ParseIsGrammar(s, f);
    Written(o, if f.block.Some? then Pad(f.block.value) else base, Pad(f.room), f.ext)
  }

  /** 0, 1 and 2: accepted, no spelling of any form, and a spelling that lacks the base for its block. */
  lemma VerdictIs(s: string, hasBase: bool)
    ensures Verdict(s, hasBase) == 1 <==> forall f :: !Spells(s, f)
    ensures Verdict(s, hasBase) == 2 <==> !hasBase && exists f :: Spells(s, f) && f.block.None?
    ensures Verdict(s, hasBase) == 0 <==> exists f :: Spells(s, f) && (f.block.Some? || hasBase)
  {
    hide Parse, Spells;
    if Parse(s).Some? {
      ParseIsGrammar(s, Parse(s).value);
    }
    forall f ensures Spells(s, f) ==> Parse(s) == Some(f) {
      ParseIsGrammar(s, f);
    }
  }

  // -------------------------------------------------------- canonicalisation

  predicate IsBlock(s: string) {
    |s| == 4 && AllDigits(s)
  }

  predicate IsExt(e: Option<char>) {
    e.Some? ==> IsDigit(e.value)
  }

  lemma WrittenText(o: seq<char>, block: string, room: string, ext: Option<char>)
    requires |o| == STRLEN && IsBlock(block) && IsBlock(room) && IsExt(ext)
    ensures CStr(Written(o, block, room, ext)) == Canonical(block, room, ext)
  {
    var t, w := Canonical(block, room, ext), Written(o, block, room, ext);
    assert NUL !in block && NUL !in room;
    assert w == t + w[|t|..];
    CStrIs(t, w[|t|..]);
  }

  lemma WrittenTwice(o: seq<char>, block: string, room: string, ext: Option<char>)
    requires |o| == STRLEN && |block| == |room| == 4
    ensures Written(Written(o, block, room, ext), block, room, ext) == Written(o, block, room, ext)
  {
  }

  lemma CanonicalParses(block: string, room: string, ext: Option<char>)
    requires IsBlock(block) && IsBlock(room) && IsExt(ext)
    ensures Parse(Canonical(block, room, ext)) == Some(Form(Some(block), room, ext))
  {
    hide Parse;
    var t := Canonical(block, room, ext);
    assert t[..4] == block && t[4] == '-' && t[5..9] == room;
    assert ext.None? ==> t[5..] == room;
    ParseIsGrammar(t, Form(Some(block), room, ext));
  }

  /** Every accepted spelling yields a canonical number: parsing the result again, in place and
      with or without any base, accepts it and changes nothing. */
  lemma Canonicalises(o: seq<char>, s: string, base: string, again: string, hasBase: bool)
    requires |o| == STRLEN && IsBlock(base) && |again| == 4 && Parse(s).Some?
    ensures var w := Result(o, s, base);
      && Verdict(CStr(w), hasBase) == RET_OK
      && Result(w, CStr(w), again) == w
      && Result(o, CStr(w), again) == w
  {
    hide Parse, Spells, Written, Pad, Canonical, CStr;
    var f := Parse(s).value;
    ParseIsGrammar(s, f);
    SpelledParts(s, f);
    var b := if f.block.Some? then Pad(f.block.value) else base;
    WrittenTwice(o, b, Pad(f.room), f.ext);
    WrittenText(o, b, Pad(f.room), f.ext);
    CanonicalParses(b, Pad(f.room), f.ext);
  }

  lemma SpelledParts(s: string, f: Form)
    requires Spells(s, f)
    ensures Part(f.room) && (f.block.Some? ==> Part(f.block.value)) && IsExt(f.ext)
  {
  }

  lemma LongSpelling(b: string, c: char, r: string, d: char, e: char)
    requires Part(b) && Part(r) && IsSep(c) && IsSep(d) && IsDigit(e)
    ensures Parse(b + [c] + r + [d] + [e]) == Some(Form(Some(b), r, Some(e)))
  {
    hide Parse;
    var s := b + [c] + r + [d] + [e];
    assert s[..|b|] == b && s[|b| + 1..|b| + 1 + |r|] == r;
    ParseIsGrammar(s, Form(Some(b), r, Some(e)));
  }

  lemma JoinedSpelling(b: string, r: string, c: char, e: char)
    requires IsBlock(b) && IsBlock(r) && IsSep(c) && IsDigit(e)
    ensures Parse(b + r + [e]) == Some(Form(Some(b), r, Some(e)))
    ensures Parse(b + r + [c] + [e]) == Some(Form(Some(b), r, Some(e)))
  {
    hide Parse;
    ParseIsGrammar(b + r + [e], Form(Some(b), r, Some(e)));
    var s := b + r + [c] + [e];
    assert s[..8] == b + r && s[9..] == [e];
    ParseIsGrammar(s, Form(Some(b), r, Some(e)));
  }

  lemma ShortSpelling(r: string, c: char, e: char)
    requires Part(r) && IsSep(c) && IsDigit(e)
    ensures Parse(r + [c] + [e]) == Some(Form(None, r, Some(e)))
    ensures Parse(Pad(r) + [e]) == Some(Form(None, Pad(r), Some(e)))
  {
    hide Parse;
    var s := r + [c] + [e];
    assert s[..|r|] == r && s[|r| + 1..] == [e];
    ParseIsGrammar(s, Form(None, r, Some(e)));
    ParseIsGrammar(Pad(r) + [e], Form(None, Pad(r), Some(e)));
  }

  /** All spellings of a number with an extension parse to the same number. */
  lemma SpellingsAgree(o: seq<char>, b: string, c: char, r: string, d: char, e: char, other: string)
    requires |o| == STRLEN && Part(b) && Part(r) && IsSep(c) && IsSep(d) && IsDigit(e) && |other| == 4
    ensures var n := Written(o, Pad(b), Pad(r), Some(e));
      && IsResult(o, b + [c] + r + [d] + [e], other, n)
      && IsResult(o, Pad(b) + Pad(r) + [e], other, n)
      && IsResult(o, Pad(b) + Pad(r) + [c] + [e], other, n)
      && IsResult(o, r + [c] + [e], Pad(b), n)
      && IsResult(o, Pad(r) + [e], Pad(b), n)
  {
    hide Parse, Written;
    LongSpelling(b, c, r, d, e);
    JoinedSpelling(Pad(b), Pad(r), c, e);
    ShortSpelling(r, c, e);
  }

  predicate IsResult(o: seq<char>, s: string, base: string, n: seq<char>)
    requires |o| == STRLEN && |base| == 4
  {
    Parse(s).Some? && Result(o, s, base) == n
  }

  /** The same without an extension. */
  lemma PlainSpellingsAgree(o: seq<char>, b: string, c: char, r: string, other: string)
    requires |o| == STRLEN && Part(b) && Part(r) && IsSep(c) && |other| == 4
    ensures var n := Written(o, Pad(b), Pad(r), None);
      && IsResult(o, Pad(b) + Pad(r), other, n)
      && IsResult(o, b + [c] + Pad(r), other, n)
      && IsResult(o, r, Pad(b), n)
      && (IsResult(o, b + [c] + r, Pad(b), n) <==> |r| >= 2)
  {
    hide Parse, Pad;
    ParseIsGrammar(Pad(b) + Pad(r), Form(Some(Pad(b)), Pad(r), None));
    ParseIsGrammar(r, Form(None, r, None));
    var s1, s2 := b + [c] + Pad(r), b + [c] + r;
    assert s1[..|b|] == b && s1[|b| + 1..] == Pad(r);
    assert s2[..|b|] == b && s2[|b| + 1..] == r;
    ParseIsGrammar(s1, Form(Some(b), Pad(r), None));
    if |r| >= 2 {
      ParseIsGrammar(s2, Form(Some(b), r, None));
    } else {
      assert r == [r[0]];
      ParseIsGrammar(s2, Form(None, b, Some(r[0])));
      assert Result(o, s2, Pad(b))[9] == '-';
    }
  }
}
