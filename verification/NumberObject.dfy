/** The number as a twelve-byte record written in place, and the parser with its loops, its
    separator slots and its four-byte copies. */
module NumberObject {
  import opened CStrings
  import opened Numbers
  import opened NumberPacking

  /** `memcpy(dst + d, src + s, 4)`. */
  method Copy4(dst: array<char>, d: nat, src: array<char>, s: nat)
    requires d + 4 <= dst.Length && s + 4 <= src.Length && dst != src
    modifies dst
    ensures dst[..] == old(dst[..d]) + src[s..s + 4] + old(dst[d + 4..])
  {
    forall i | 0 <= i < 4 {
      dst[d + i] := src[s + i];
    }
  }

  /** A local buffer of eight bytes of which four are zeros. */
  method NewPart() returns (a: array<char>)
    ensures fresh(a) && a.Length == 8 && a[..4] == Zeros(4)
  {
    a := new char[8](_ => NUL);
    forall i | 0 <= i < 4 {
      a[i] := '0';
    }
  }

  /** `memcpy(part + 4 - n, src + s, 4)` right-aligns `n` characters; what it reads and writes
      beyond them does not matter. */
  method CopyPadded(part: array<char>, src: array<char>, s: nat, n: nat)
    requires part.Length == 8 && part[..4] == Zeros(4) && n <= 4 && s + 4 <= src.Length && part != src
    modifies part
    ensures part[..4] == Pad(src[s..s + n])
  {
    Copy4(part, 4 - n, src, s);
    assert part[..4] == part[..][..4];
    assert src[s..s + 4][..n] == src[s..s + n];
  }

  /** The scan over the source: its length, how many separators and where; the third slot takes
      the index that is stored before the count is checked. */
  method FindSeps(src: array<char>) returns (ok: bool, len: nat, count: nat, iSep: array<nat>)
    requires src.Length >= STRLEN
    ensures fresh(iSep) && iSep.Length == 3
    ensures var s := CStr(src[..]);
      && (ok ==> |s| < STRLEN && len == |s| && src[len] == NUL && count <= 2 && Seps(s, count, iSep[0], iSep[1]))
      && (!ok ==> |s| >= STRLEN || TooMany(s))
  {
    hide SepsUpTo, TooMany, CStr;
    iSep := new nat[3];
    len, count, ok := 0, 0, true;
    var i := 0;
    ghost var s := CStr(src[..]);
    NoSepsYet(s, iSep[0], iSep[1]);
    while src[i] != NUL
      invariant i < STRLEN && i <= |s| && len == i && count <= 2
      invariant SepsUpTo(s, i, count, iSep[0], iSep[1])
      decreases STRLEN - i
    {
      CStrAt(src[..], i);
      SepsNext(s, i, count, iSep[0], iSep[1]);
      if !(i < STRLEN - 1) {
        return false, len, count, iSep;
      }
      if !IsDigit(src[i]) {
        iSep[count] := i;
        count := count + 1;
        if !(count <= 2) {
          return false, len, count, iSep;
        }
      }
      i := i + 1;
      len := i;
    }
    CStrEnds(src[..], i);
  }

  /** Among the first `n` characters of `s` the separators are these. */
  ghost predicate SepsUpTo(s: string, n: nat, count: nat, i: nat, j: nat)
    requires n <= |s|
  {
    && count <= 2
    && (count >= 1 ==> i < n && IsSep(s[i]))
    && (count >= 2 ==> i < j < n && IsSep(s[j]))
    && (forall k :: 0 <= k < n && !(count >= 1 && k == i) && !(count >= 2 && k == j) ==> IsDigit(s[k]))
  }

  lemma NoSepsYet(s: string, i: nat, j: nat)
    ensures SepsUpTo(s, 0, 0, i, j)
  {
  }

  /** One more character of the scan; a third separator is one too many. */
  lemma SepsNext(s: string, n: nat, count: nat, i: nat, j: nat)
    requires n < |s| && SepsUpTo(s, n, count, i, j)
    ensures count <= 2
    ensures IsDigit(s[n]) ==> SepsUpTo(s, n + 1, count, i, j)
    ensures IsSep(s[n]) && count == 0 ==> SepsUpTo(s, n + 1, 1, n, j)
    ensures IsSep(s[n]) && count == 1 ==> SepsUpTo(s, n + 1, 2, i, n)
    ensures IsSep(s[n]) && count == 2 ==> TooMany(s)
  {
  }

  ghost predicate Seps(s: string, count: nat, i: nat, j: nat) {
    SepsUpTo(s, |s|, count, i, j)
  }

  ghost predicate TooMany(s: string) {
    exists i, j, k :: 0 <= i < j < k < |s| && IsSep(s[i]) && IsSep(s[j]) && IsSep(s[k])
  }

  lemma CStrAt(a: seq<char>, i: nat)
    requires i < |a| && i <= |CStr(a)| && a[i] != NUL
    ensures i < |CStr(a)| && CStr(a)[i] == a[i]
  {
  }

  lemma CStrEnds(a: seq<char>, i: nat)
    requires i < |a| && i <= |CStr(a)| && a[i] == NUL
    ensures i == |CStr(a)|
  {
  }

  /** The result of a scan that found a string short enough and not too many separators. */
  ghost predicate Scanned(a: seq<char>, len: nat, count: nat, iSep: seq<nat>) {
    && |iSep| == 3 && 0 < len < STRLEN <= |a| && a[len] == NUL && NUL !in a[..len]
    && IsDigit(a[0]) && Seps(a[..len], count, iSep[0], iSep[1])
  }

  lemma ScannedText(a: seq<char>, len: nat, count: nat, iSep: seq<nat>)
    requires Scanned(a, len, count, iSep)
    ensures Parse(a[..len]) == if count == 0 then ParsePlain(a[..len])
                               else if count == 1 then ParseOneSep(a[..len], iSep[0])
                               else ParseTwoSeps(a[..len], iSep[0], iSep[1])
    ensures forall k :: 0 <= k < len ==> a[k] == a[..len][k] != NUL
    ensures CStr(a) == a[..len]
  {
  }

  /** Where the room ends in the cases with a block of their own. */
  ghost function RoomEnd(len: nat, count: nat, iSep: seq<nat>): nat
    requires |iSep| == 3
  {
    if count == 2 then iSep[1] else len
  }

  lemma TwoPartsParse(a: seq<char>, len: nat, count: nat, iSep: seq<nat>)
    requires Scanned(a, len, count, iSep)
    requires count == 2 || (count == 1 && iSep[0] + 2 < len)
    requires a[iSep[count - 1] + 1] != NUL
    ensures var i := iSep[0]; var e := RoomEnd(len, count, iSep);
      && 0 < i < e <= len && (count == 2 ==> e + 2 <= len && a[e + 1] != NUL)
      && Parse(a[..len]) ==
           if count == 2 && (i + 1 == e || a[e + 2] != NUL) then None
           else if i > 4 || e - i - 1 > 4 then None
           else Some(Form(Some(a[..i]), a[i + 1..e], if count == 2 then Some(a[e + 1]) else None))
  {
    hide Parse, ParsePlain, CStr;
    ScannedText(a, len, count, iSep);
    var s, i, e := a[..len], iSep[0], RoomEnd(len, count, iSep);
    assert s[0] == a[0] && s[..i] == a[..i];
    if count == 1 {
      hide ParseTwoSeps;
      assert s[i + 1..] == a[i + 1..e];
    } else {
      hide ParseOneSep;
      assert s[i + 1..e] == a[i + 1..e] && s[e + 1] == a[e + 1];
    }
  }

  ghost predicate Parts(f: Form) {
    |f.room| <= 4 && (f.block.Some? ==> |f.block.value| <= 4)
  }

  /** What the cases of the switch leave in the local buffers. */
  ghost predicate Holds(f: Form, base: Option<string>, block: seq<char>, room: seq<char>, ext: char)
    requires Parts(f)
  {
    && room == Pad(f.room)
    && (f.block.Some? ==> block == Pad(f.block.value))
    && (f.block.None? ==> base.Some? && block == base.value)
    && ext == (if f.ext.Some? then f.ext.value else NUL)
  }

  class LeelenNumber {
    const str: array<char>

    ghost predicate Valid()
      reads this
    {
      str.Length == STRLEN
    }

    ghost function Bytes(): (b: seq<char>)
      requires Valid()
      reads this, str
      ensures |b| == STRLEN
    {
      str[..]
    }

    /** block-room[-extension]: `to` is where the room ends. */
    static method BlockRoom(src: array<char>, sep: nat, to: nat)
      returns (ok: bool, block: array<char>, room: array<char>)
      requires src.Length >= STRLEN && sep < to
      ensures ok <==> sep <= 4 && to - sep - 1 <= 4
      ensures fresh(block) && fresh(room) && block.Length == room.Length == 8
      ensures ok ==> to <= src.Length && block[..4] == Pad(src[..sep]) && room[..4] == Pad(src[sep + 1..to])
    {
      block := NewPart();
      room := NewPart();
      ok := sep <= 4 && to - sep - 1 <= 4;
      if ok {
        CopyPadded(block, src, 0, sep);
        CopyPadded(room, src, sep + 1, to - sep - 1);
      }
    }

    /** [block]room[extension], with `len` digits before the extension, if that was split off. */
    static method Digits(src: array<char>, len: nat, split: char, base: LeelenNumber?)
      returns (ret: int, block: array<char>, room: array<char>, ext: char)
      requires src.Length >= STRLEN && len <= STRLEN && (base != null ==> base.Valid())
      ensures fresh(block) && fresh(room) && block.Length == room.Length == 8
      ensures ret == (if len <= 5 then if base == null then RET_NEEDS_BASE else RET_OK
                      else if len == 8 || len == 9 then RET_OK else RET_BAD)
      ensures ret == RET_OK && len <= 5 ==> block[..4] == base.Bytes()[..4] && room[..4] == Pad(src[..Min(len, 4)])
      ensures ret == RET_OK && len > 5 ==> block[..4] == src[..4] && room[..4] == src[4..8]
      ensures ext == if ret == RET_OK && len == 5 then src[4] else if ret == RET_OK && len == 9 then src[8] else split
    {
      block := NewPart();
      room := NewPart();
      ext := split;
      ret := RET_OK;
      if len <= 5 {
        if base == null {
          return RET_NEEDS_BASE, block, room, ext;
        }
        Copy4(block, 0, base.str, 0);
        assert block[..4] == block[..][..4] == base.Bytes()[..4];
        if len <= 4 {
          CopyPadded(room, src, 0, len);
        } else {
          CopyPadded(room, src, 0, 4);
          ext := src[4];
        }
      } else if len == 8 || len == 9 {
        CopyPadded(block, src, 0, 4);
        CopyPadded(room, src, 4, 4);
        if len == 9 {
          ext := src[8];
        }
      } else {
        ret := RET_BAD;
      }
    }

    /** Stores the parsed parts; without an extension the last two bytes are left alone. */
    method Store(block: array<char>, room: array<char>, ext: char)
      requires Valid() && block.Length == room.Length == 8 && str != block && str != room
      modifies str
      ensures Bytes() == Written(old(Bytes()), block[..4], room[..4], if ext == NUL then None else Some(ext))
    {
      hide Written;
      ghost var o := str[..];
      Copy4(str, 0, block, 0);
      ghost var v := str[..];
      str[4] := '-';
      Copy4(str, 5, room, 0);
      PartsStored(o, block[..4], room[..4], v, str[..]);
      if ext == NUL {
        str[9] := NUL;
      } else {
        str[9], str[10], str[11] := '-', ext, NUL;
      }
      WrittenBytes(o, block[..4], room[..4], if ext == NUL then None else Some(ext), str[..]);
    }

    /** Unpacks an integer; without an extension the last two bytes are left alone. */
    method FromInt(x: nat)
      requires Valid() && x < WORD
      modifies str
      ensures Bytes() == Unpack(old(Bytes()), x)
    {
      hide Written, Digits4, BlockField, RoomField, ExtField;
      ghost var o := str[..];
      Itoa4(BlockField(x), str, 0);
      ghost var v := str[..];
      str[4] := '-';
      Itoa4(RoomField(x), str, 5);
      PartsStored(o, Digits4(BlockField(x)), Digits4(RoomField(x)), v, str[..]);
      if ExtField(x) >= 10 {
        str[9] := NUL;
      } else {
        str[9] := '-';
        str[10] := DigitChar(ExtField(x));
        str[11] := NUL;
      }
      WrittenBytes(o, Digits4(BlockField(x)), Digits4(RoomField(x)),
                   if ExtField(x) >= 10 then None else Some(DigitChar(ExtField(x))), str[..]);
    }

    /** Packs the number. */
    method ToInt() returns (x: nat)
      requires Valid()
      ensures x == Pack(Bytes())
      ensures forall o: seq<char>, block: string, room: string, ext: Option<char> ::
        |o| == STRLEN && IsBlock(block) && IsBlock(room) && IsExt(ext) && Bytes() == Written(o, block, room, ext) ==>
          x == Value(block) + 0x4000 * Value(room) + 0x1000_0000 *
            (if ext.Some? then ext.value as int - 48 else if o[10] as int == 0 then 15 else (o[10] as int - 48) % 16)
    {
      var extension := if str[9] != NUL || str[10] != NUL then ExtBits(str[10]) else NO_EXT;
      assert str[..] == Bytes() && str[5..] == Bytes()[5..];
      forall o: seq<char>, block: string, room: string, ext: Option<char> |
        |o| == STRLEN && IsBlock(block) && IsBlock(room) && IsExt(ext) && Bytes() == Written(o, block, room, ext)
        ensures Pack(Bytes()) == Value(block) + 0x4000 * Value(room) + 0x1000_0000 *
          (if ext.Some? then ext.value as int - 48 else if o[10] as int == 0 then 15 else (o[10] as int - 48) % 16)
      {
        PackWritten(o, block, room, ext);
      }
      x := Fields(ParseLong(str[..]).value % FIELD, ParseLong(str[5..]).value % FIELD, extension);
    }

    /** The cases with a block of their own: two separators, or one with a long tail. */
    static method TwoParts(src: array<char>, len: nat, count: nat, iSep: array<nat>)
      returns (ok: bool, block: array<char>, room: array<char>, ext: char)
      requires src.Length >= STRLEN && Scanned(src[..], len, count, iSep[..])
      requires count == 2 || (count == 1 && iSep[0] + 2 < len)
      requires src[iSep[count - 1] + 1] != NUL
      modifies iSep
      ensures fresh(block) && fresh(room) && block.Length == room.Length == 8
      ensures var p := Parse(src[..len]);
        && ok == p.Some?
        && (ok ==> Parts(p.value) && Holds(p.value, None, block[..4], room[..4], ext))
    {
      hide Parse, Pad, CStr;
      ext := NUL;
      assert src[..][iSep[..][count - 1] + 1] == src[iSep[count - 1] + 1];
      TwoPartsParse(src[..], len, count, iSep[..]);
      assert src[..][..len] == src[..len];
      hide Scanned, Seps;
      if count == 2 {
        ext := src[iSep[1] + 1];
        if iSep[0] + 1 == iSep[1] || src[iSep[1] + 2] != NUL {
          block := NewPart();
          room := NewPart();
          return false, block, room, ext;
        }
      } else {
        iSep[1] := len;
      }
      ok, block, room := BlockRoom(src, iSep[0], iSep[1]);
    }

    /** The cases that may leave the block to the base: no separator, or one with one digit after it. */
    static method OnePart(src: array<char>, len: nat, count: nat, iSep: array<nat>, base: LeelenNumber?)
      returns (ret: int, block: array<char>, room: array<char>, ext: char)
      requires src.Length >= STRLEN && Scanned(src[..], len, count, iSep[..]) && (base != null ==> base.Valid())
      requires count == 0 || (count == 1 && iSep[0] + 2 == len)
      ensures fresh(block) && fresh(room) && block.Length == room.Length == 8
      ensures var p := Parse(src[..len]);
        && ret == Verdict(src[..len], base != null)
        && (ret == RET_OK ==> Parts(p.value))
        && (ret == RET_OK ==>
              Holds(p.value, if base == null then None else Some(base.Bytes()[..4]), block[..4], room[..4], ext))
    {
      hide Parse;
      assert count == 1 ==> src[..][iSep[..][0] + 1] == src[iSep[0] + 1];
      OnePartParse(src[..], len, count, iSep[..]);
      assert src[..][..len] == src[..len];
      ext := NUL;
      var n := len;
      if count == 1 {
        ext := src[iSep[0] + 1];
        n := len - 2;
        if !(n <= 4 || n == 8) {
          block := NewPart();
          room := NewPart();
          return RET_BAD, block, room, ext;
        }
      }
      hide Scanned, Seps;
      ret, block, room, ext := Digits(src, n, ext, base);
    }

    /** Parses the C string in `src`, which may be this number's own text. Nothing beyond its
        terminator matters, and nothing is written unless it is accepted. */
    method Init(src: array<char>, base: LeelenNumber?) returns (ret: int)
      requires Valid() && src.Length >= STRLEN && (base != null ==> base.Valid())
      modifies str
      ensures ret == Verdict(CStr(old(src[..])), base != null)
      ensures ret == RET_OK ==>
        Bytes() == Result(old(Bytes()), CStr(old(src[..])), if base != null then old(base.Bytes()[..4]) else Zeros(4))
      ensures ret != RET_OK ==> Bytes() == old(Bytes())
    {
      hide Parse;
      ghost var s := CStr(src[..]);
      FirstChar(src[..]);
      if !IsDigit(src[0]) {
        return RET_BAD;
      }
      var ok, len, count, iSep := FindSeps(src);
      if !ok {
        ScanFailed(CStr(src[..]));
        return RET_BAD;
      }
      ScanDone(src[..], len, count, iSep[..]);
      if count != 0 && src[iSep[count - 1] + 1] == NUL {
        return RET_BAD;
      }
      var block, room, ext;
      if count == 2 || (count == 1 && src[iSep[0] + 2] != NUL) {
        ok, block, room, ext := TwoParts(src, len, count, iSep);
        if !ok {
          return RET_BAD;
        }
        HoldsAnyBase(Parse(s).value, if base == null then None else Some(base.Bytes()[..4]),
                     block[..4], room[..4], ext);
      } else {
        ret, block, room, ext := OnePart(src, len, count, iSep, base);
        if ret != RET_OK {
          return ret;
        }
      }
      StoreIsResult(Bytes(), s, if base == null then None else Some(base.Bytes()[..4]), block[..4], room[..4], ext);
      Store(block, room, ext);
      ret := RET_OK;
    }
  }

  /** A record of which the parts are stored and the rest is as it was. */
  lemma WrittenBytes(o: seq<char>, block: string, room: string, ext: Option<char>, w: seq<char>)
    requires |o| == |w| == STRLEN && |block| == |room| == 4
    requires forall i :: 0 <= i < 9 ==> w[i] == (block + ['-'] + room)[i]
    requires ext.None? ==> w[9] == NUL && w[10] == o[10] && w[11] == o[11]
    requires ext.Some? ==> w[9] == '-' && w[10] == ext.value && w[11] == NUL
    ensures w == Written(o, block, room, ext)
  {
  }

  /** The two copies and the separator between them. */
  lemma PartsStored(o: seq<char>, block: string, room: string, v: seq<char>, w: seq<char>)
    requires |o| == |v| == |w| == STRLEN && |block| == |room| == 4
    requires v == block + o[4..] && w == v[4 := '-'][..5] + room + v[4 := '-'][9..]
    ensures forall i :: 0 <= i < 9 ==> w[i] == (block + ['-'] + room)[i]
    ensures w[9..] == o[9..] && w[10] == o[10] && w[11] == o[11]
  {
  }

  /** `itoa4`: four digits from the right, into `str[at..]`. */
  method Itoa4(value: nat, str: array<char>, at: nat)
    requires at + 4 <= str.Length
    modifies str
    ensures str[..] == old(str[..at]) + Digits4(value) + old(str[at + 4..])
  {
    var v := value;
    str[at + 3] := DigitChar(v % 10);
    v := v / 10;
    str[at + 2] := DigitChar(v % 10);
    v := v / 10;
    str[at + 1] := DigitChar(v % 10);
    v := v / 10;
    str[at] := DigitChar(v % 10);
    assert value / 10 / 10 == value / 100 && value / 100 / 10 == value / 1000;
  }

  lemma HoldsAnyBase(f: Form, base: Option<string>, block: seq<char>, room: seq<char>, ext: char)
    requires Parts(f) && Holds(f, None, block, room, ext)
    ensures f.block.Some? && Holds(f, base, block, room, ext)
  {
  }

  lemma StoreIsResult(o: seq<char>, s: string, base: Option<string>, block: seq<char>, room: seq<char>, ext: char)
    requires |o| == STRLEN && Parse(s).Some? && Parts(Parse(s).value)
    requires base.Some? ==> |base.value| == 4
    requires |block| == |room| == 4
    requires Parse(s).value.block.None? ==> base.Some?
    requires Holds(Parse(s).value, base, block, room, ext)
    ensures Written(o, block, room, if ext == NUL then None else Some(ext))
         == Result(o, s, if base.Some? then base.value else Zeros(4))
  {
  }

  lemma ScanFailed(s: string)
    requires |s| >= STRLEN || TooMany(s)
    ensures Parse(s) == None
  {
  }

  /** What is known once the scan has succeeded; a separator at the very end is fatal. */
  lemma ScanDone(a: seq<char>, len: nat, count: nat, iSep: seq<nat>)
    requires |iSep| == 3 && |a| >= STRLEN && IsDigit(a[0])
    requires var s := CStr(a); |s| < STRLEN && len == |s| && a[len] == NUL && Seps(s, count, iSep[0], iSep[1])
    ensures Scanned(a, len, count, iSep) && CStr(a) == a[..len]
    ensures count != 0 ==> iSep[count - 1] < len
    ensures count != 0 && a[iSep[count - 1] + 1] == NUL ==> Parse(CStr(a)) == None
    ensures count == 1 && a[iSep[0] + 1] != NUL ==>
      iSep[0] + 2 <= len && (a[iSep[0] + 2] == NUL <==> iSep[0] + 2 == len)
  {
    hide Parse;
    FirstChar(a);
    ScannedText(a, len, count, iSep);
    var s := a[..len];
    assert forall k :: 0 <= k < len ==> a[k] != NUL;
    if count != 0 && a[iSep[count - 1] + 1] == NUL {
      assert iSep[count - 1] + 1 == len;
      assert count == 1 ==> s[iSep[0] + 1..] == "";
    }
  }

  /** The digits before an extension that a separator splits off. */
  ghost function Stem(len: nat, count: nat): int {
    if count == 1 then len - 2 else len
  }

  lemma OnePartParse(a: seq<char>, len: nat, count: nat, iSep: seq<nat>)
    requires Scanned(a, len, count, iSep)
    requires count == 0 || (count == 1 && iSep[0] + 2 == len)
    ensures var n := Stem(len, count); var split := if count == 1 then Some(a[iSep[0] + 1]) else None;
      && 0 < n < STRLEN
      && (split.Some? ==> split.value != NUL)
      && (n == 5 || n == 9 ==> a[n - 1] != NUL)
      && Parse(a[..len]) ==
           if n <= 4 then Some(Form(None, a[..n], split))
           else if n == 8 then Some(Form(Some(a[..4]), a[4..8], split))
           else if count == 0 && n == 5 then Some(Form(None, a[..4], Some(a[4])))
           else if count == 0 && n == 9 then Some(Form(Some(a[..4]), a[4..8], Some(a[8])))
           else None
  {
    hide Parse, ParseTwoSeps;
    ScannedText(a, len, count, iSep);
    var s, n := a[..len], Stem(len, count);
    assert s[..n] == a[..n];
    assert n >= 4 ==> s[..4] == a[..4];
    assert n >= 8 ==> s[4..8] == a[4..8];
    assert n == 8 && count == 0 ==> s[4..] == a[4..8];
    assert n >= 5 ==> s[4] == a[4];
    assert count == 1 ==> s[iSep[0] + 1..] == [a[iSep[0] + 1]];
  }

  lemma FirstChar(a: seq<char>)
    requires a != []
    ensures a[0] == NUL ==> CStr(a) == ""
    ensures a[0] != NUL ==> CStr(a) != "" && CStr(a)[0] == a[0]
    ensures !IsDigit(a[0]) ==> Parse(CStr(a)) == None
  {
  }
}
