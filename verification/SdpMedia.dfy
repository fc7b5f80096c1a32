/** The media descriptions themselves: what is written into one, attribute by attribute, and what is
    read out of any. */
module SdpMedia {
  import opened CStrings
  import opened Sdp

  /** The text is a numeral of this value. */
  predicate Reads(s: string, n: nat) {
    s != "" && AllDigits(s) && Value(s) == n
  }

  lemma DecimalReads(n: nat)
    ensures Reads(Decimal(n), n)
  {
    hide Decimal;
  }

  lemma Decimal127()
    ensures Decimal(127) == "127"
  {
    assert 127 / 10 == 12 && 12 / 10 == 1;
    assert Decimal(1) == "1";
    assert Decimal(12) == "12";
  }

  // ------------------------------------------------------------------ writing

  /** The attribute gives payload type `payload` the name `name`. */
  predicate Maps(a: Attribute, payload: string, name: string) {
    a == Attribute(Some("rtpmap"), Some(payload + [' '] + name))
  }

  lemma EntryIsMapped(e: Entry)
    ensures Maps(RtpMap(e), Decimal(e.payload), e.name)
  {
    hide Decimal;
  }

  /** The two attributes that end every media. */
  lemma EventAttributes(media: string, port: nat, formats: seq<string>)
    ensures var m := Encoded(media, port, formats); var n := |m.payloads|;
      && |m.attributes| == n + 2
      && m.attributes[n] == Attribute(Some("rtpmap"), Some("127 telephone-event/8000"))
      && m.attributes[n + 1] == Attribute(Some("fmtp"), Some("127 0-15"))
  {
    hide Entries, Decimal;
    Decimal127();
    assert "127" + [' '] + "telephone-event/8000" == "127 telephone-event/8000";
    assert "127" + [' '] + "0-15" == "127 0-15";
  }

  /** Every entry carries a name that was asked for. */
  lemma {:induction false} EntryIsAsked(kind: Kind, formats: seq<string>, next: nat, i: nat)
    requires i < |Entries(kind, formats, next)|
    ensures Entries(kind, formats, next)[i].name in formats
    decreases |formats|
  {
    hide TypeOf, NextFree;
    if formats != [] {
      var t, rest := TypeOf(kind, formats[0], next), Entries(kind, formats[1..], NextFree(kind, formats[0], next));
      if t == 127 {
        EntryIsAsked(kind, formats[1..], NextFree(kind, formats[0], next), i);
        assert rest[i].name in formats[1..];
      } else if i > 0 {
        EntryIsAsked(kind, formats[1..], NextFree(kind, formats[0], next), i - 1);
        assert rest[i - 1].name in formats[1..];
      }
    }
  }

  /** The attribute gives payload type `payload` a name that was asked for. */
  predicate MapsAsked(a: Attribute, payload: string, formats: seq<string>) {
    exists name :: name in formats && Maps(a, payload, name)
  }

  lemma EntryIsWritten(media: string, port: nat, formats: seq<string>, i: nat)
    requires i < |Encoded(media, port, formats).payloads|
    ensures var m := Encoded(media, port, formats);
      && i < |m.attributes| && MapsAsked(m.attributes[i], m.payloads[i], formats)
      && AllDigits(m.payloads[i]) && m.payloads[i] != ""
  {
    hide Entries, Decimal, Maps, RtpMap;
    var m, es := Encoded(media, port, formats), Entries(KindOf(media), formats, DYNAMIC);
    assert m.payloads[i] == Decimal(es[i].payload) && m.attributes[i] == RtpMaps(es)[i];
    EntryIsMapped(es[i]);
    EntryIsAsked(KindOf(media), formats, DYNAMIC, i);
  }

  /** A media as it is written, for any list: name, protocol and port; as many rtpmap attributes as
      payloads, in the same order and with the same numbers, each for a name that was asked for; and
      the two attributes of telephone events. */
  lemma MediaIsWritten(media: string, port: nat, formats: seq<string>)
    ensures var m := Encoded(media, port, formats); var n := |m.payloads|;
      && m.name == Some(media) && m.proto == Some("RTP/AVP") && Reads(m.port, port)
      && |m.attributes| == n + 2
      && (forall i :: 0 <= i < n ==> AllDigits(m.payloads[i]) && m.payloads[i] != "")
      && (forall i :: 0 <= i < n ==> MapsAsked(m.attributes[i], m.payloads[i], formats))
      && m.attributes[n] == Attribute(Some("rtpmap"), Some("127 telephone-event/8000"))
      && m.attributes[n + 1] == Attribute(Some("fmtp"), Some("127 0-15"))
  {
    HeadIsWritten(media, port, formats);
    EventAttributes(media, port, formats);
    hide Encoded, Reads, MapsAsked, AllDigits;
    var m := Encoded(media, port, formats);
    forall i | 0 <= i < |m.payloads|
      ensures MapsAsked(m.attributes[i], m.payloads[i], formats) && AllDigits(m.payloads[i]) && m.payloads[i] != ""
    {
      EntryIsWritten(media, port, formats, i);
    }
  }

  lemma HeadIsWritten(media: string, port: nat, formats: seq<string>)
    ensures var m := Encoded(media, port, formats);
      m.name == Some(media) && m.proto == Some("RTP/AVP") && Reads(m.port, port)
  {
    hide Entries, Decimal;
    DecimalReads(port);
  }

  /** The type of a name that follows so many names outside the table. */
  function TypeAfter(kind: Kind, name: string, unknowns: nat): nat {
    match Lookup(Table(kind), name)
    case Some(t) => t
    case None => 96 + unknowns
  }

  /** With at most 31 formats outside the table nothing but telephone events is left out, and the
      payload types are those of the table and consecutive ones from 96. */
  lemma MediaAllocates(media: string, port: nat, formats: seq<string>)
    requires media == "audio" || media == "video"
    requires Unknowns(KindOf(media), formats) <= 31
    ensures var m := Encoded(media, port, formats); var kind := if media == "audio" then Audio else Video;
      var kept := Kept(kind, formats);
      && |m.payloads| == |kept|
      && (forall i :: 0 <= i < |kept| ==> Maps(m.attributes[i], m.payloads[i], kept[i]))
      && (forall i :: 0 <= i < |kept| ==>
            Reads(m.payloads[i], TypeAfter(kind, kept[i], Unknowns(kind, kept[..i]))))
  {
    hide Entries, Decimal, Kept, Unknowns, Known, Lookup, AllocatedAt, RtpMap, Maps, Reads, TypeAfter;
    var kind := KindOf(media);
    var m, es, kept := Encoded(media, port, formats), Entries(kind, formats, DYNAMIC), Kept(kind, formats);
    EntriesAllocate(kind, formats, DYNAMIC);
    forall i | 0 <= i < |kept|
      ensures Maps(m.attributes[i], m.payloads[i], kept[i])
      ensures Reads(m.payloads[i], TypeAfter(kind, kept[i], Unknowns(kind, kept[..i])))
    {
      AllocatedMeans(kind, es, kept, i);
      assert m.attributes[i] == RtpMaps(es)[i];
      EntryIsMapped(es[i]);
      DecimalReads(es[i].payload);
    }
  }

  lemma AllocatedMeans(kind: Kind, es: seq<Entry>, kept: seq<string>, i: nat)
    requires i < |es| == |kept| && AllocatedAt(kind, es, kept, DYNAMIC, i)
    ensures es[i].name == kept[i]
    ensures es[i].payload == TypeAfter(kind, kept[i], Unknowns(kind, kept[..i]))
  {
    hide Lookup, Unknowns;
  }

  /** For any list: the payload types of a media are never 127, pairwise different exactly if no
      name of the table is listed twice, and below 127 exactly if at most 32 are outside it. */
  lemma PayloadsDiffer(media: string, port: nat, formats: seq<string>)
    ensures var ps := Encoded(media, port, formats).payloads; var kind := KindOf(media);
      && (forall i :: 0 <= i < |ps| ==> AllDigits(ps[i]))
      && (forall i :: 0 <= i < |ps| ==> Value(ps[i]) != 127)
      && ((forall i, j :: 0 <= i < j < |ps| ==> Value(ps[i]) != Value(ps[j]))
          <==> NoKnownTwice(kind, Kept(kind, formats)))
      && ((forall i :: 0 <= i < |ps| ==> Value(ps[i]) < 127) <==> Unknowns(kind, formats) <= 32)
  {
    hide Entries, Decimal, Value, NoKnownTwice, Kept, Unknowns;
    var kind := KindOf(media);
    var es, ps := Entries(kind, formats, 96), Encoded(media, port, formats).payloads;
    TypesAreDistinct(kind, formats, 96);
    TypesInRange(kind, formats, 96);
    assert forall i :: 0 <= i < |ps| ==> ps[i] == Decimal(es[i].payload) && Value(ps[i]) == es[i].payload;
    ReadBack(es, ps);
  }

  lemma ReadBack(es: seq<Entry>, ps: seq<string>)
    requires |es| == |ps| && forall i :: 0 <= i < |ps| ==> AllDigits(ps[i]) && Value(ps[i]) == es[i].payload
    ensures Distinct(es) <==> forall i, j :: 0 <= i < j < |ps| ==> Value(ps[i]) != Value(ps[j])
    ensures AllBelow(es, 127) <==> forall i :: 0 <= i < |ps| ==> Value(ps[i]) < 127
    ensures !HasType(es, 127) <==> forall i :: 0 <= i < |ps| ==> Value(ps[i]) != 127
  {
    hide Value;
    if forall i, j :: 0 <= i < j < |ps| ==> Value(ps[i]) != Value(ps[j]) {
      forall i, j | 0 <= i < j < |es| ensures es[i].payload != es[j].payload {
        assert Value(ps[i]) != Value(ps[j]);
      }
    }
    if Distinct(es) {
      forall i, j | 0 <= i < j < |ps| ensures Value(ps[i]) != Value(ps[j]) {
        assert es[i].payload != es[j].payload;
      }
    }
    if AllBelow(es, 127) {
      forall i | 0 <= i < |ps| ensures Value(ps[i]) < 127 {
        assert es[i].payload < 127;
      }
    }
    if !HasType(es, 127) {
      forall i | 0 <= i < |ps| ensures Value(ps[i]) != 127 {
        assert es[i].payload != 127;
      }
    }
  }

  /** The static types, as section 6 of RFC 3551 assigns them; L16 is listed for one channel. */
  lemma StaticTypes()
    ensures AUDIO_TYPES[..9] == [
      Static(0, "PCMU/8000"), Static(3, "GSM/8000"), Static(4, "G723/8000"), Static(5, "DVI4/8000"),
      Static(6, "DVI4/16000"), Static(7, "LPC/8000"), Static(8, "PCMA/8000"), Static(9, "G722/8000"),
      Static(11, "L16/44100")]
    ensures AUDIO_TYPES[9..] == [
      Static(12, "QCELP/8000"), Static(13, "CN/8000"), Static(14, "MPA/90000"), Static(15, "G728/8000"),
      Static(16, "DVI4/11025"), Static(17, "DVI4/22050"), Static(18, "G729/8000"), Static(33, "MP2T/90000"),
      Static(127, "telephone-event/8000")]
    ensures VIDEO_TYPES == [
      Static(25, "CelB/90000"), Static(26, "JPEG/90000"), Static(28, "nv/90000"), Static(31, "H261/90000"),
      Static(32, "MP/90000"), Static(33, "MP2T/90000"), Static(34, "H263/90000")]
  {
  }

  // ------------------------------------------------------------------ reading

  /** The name in an rtpmap attribute: what follows the first space and the white space after it. */
  lemma NameIsRead(number: string, blanks: string, name: string)
    requires ' ' !in number && Blanks(blanks) && (name == "" || !IsBlank(name[0]))
    ensures NameIn(Attribute(Some("rtpmap"), Some(number + [' '] + (blanks + name))))
         == if name == "" then [] else [name]
  {
    hide IndexOf, LeadingSpaces, Blanks;
    AfterNumber(number, blanks + name);
    SkipsBlanks(blanks, name);
    assert (blanks + name)[|blanks|..] == name;
  }

  /** Any other attribute names nothing. */
  lemma OtherAttributesIgnored(pre: seq<Attribute>, a: Attribute, post: seq<Attribute>)
    requires a.field != Some("rtpmap") || a.value.None? || ' ' !in a.value.value
    ensures NamesIn(pre + ([a] + post)) == NamesIn(pre + post)
  {
    NamesConcat(pre, [a] + post);
    NamesConcat([a], post);
    NamesConcat(pre, post);
    if a.value.Some? && ' ' !in a.value.value {
      IndexOfNone(a.value.value, ' ');
    }
    assert [a][1..] == [] && NamesIn([a]) == NameIn(a) + NamesIn([]);
    assert [] + NamesIn(post) == NamesIn(post);
  }

  /** A media is read for the kind its name tells, and only over plain RTP. */
  lemma MediaIsRead(pre: seq<Media>, m: Media, post: seq<Media>)
    ensures Extracted(pre + ([m] + post), Audio) == Extracted(pre, Audio) + (
      (if m.name == Some("audio") && m.proto == Some("RTP/AVP") then NamesIn(m.attributes) else [])
      + Extracted(post, Audio))
    ensures Extracted(pre + ([m] + post), Video) == Extracted(pre, Video) + (
      (if m.name == Some("video") && m.proto == Some("RTP/AVP") then NamesIn(m.attributes) else [])
      + Extracted(post, Video))
  {
    hide Extracted, NamesIn;
    ExtractedConcat(pre, [m] + post, Audio);
    ExtractedConcat([m], post, Audio);
    ExtractedConcat(pre, [m] + post, Video);
    ExtractedConcat([m], post, Video);
    ExtractedOne(m);
    assert "audio" != "video" by { assert "audio"[0] != "video"[0]; }
  }

  /** The names of the attributes of a media come in their order. */
  lemma AttributesAreRead(pre: seq<Attribute>, a: Attribute, post: seq<Attribute>)
    ensures NamesIn(pre + ([a] + post)) == NamesIn(pre) + (NameIn(a) + NamesIn(post))
  {
    hide NameIn;
    NamesConcat(pre, [a] + post);
    NamesConcat([a], post);
    assert [a][1..] == [] && NamesIn([a]) == NameIn(a) + NamesIn([]);
  }
}
