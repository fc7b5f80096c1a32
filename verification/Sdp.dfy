/** SDP media descriptions built from and read back into lists of format names, and the
    allocation of RTP payload types. */
module Sdp {
  import opened CStrings

  // ----------------------------------------------------------- payload types

  datatype Static = Static(payload: nat, name: string)

  const AUDIO_TYPES: seq<Static> := [
    Static(0, "PCMU/8000"), Static(3, "GSM/8000"), Static(4, "G723/8000"), Static(5, "DVI4/8000"),
    Static(6, "DVI4/16000"), Static(7, "LPC/8000"), Static(8, "PCMA/8000"), Static(9, "G722/8000"),
    Static(11, "L16/44100"), Static(12, "QCELP/8000"), Static(13, "CN/8000"), Static(14, "MPA/90000"),
    Static(15, "G728/8000"), Static(16, "DVI4/11025"), Static(17, "DVI4/22050"), Static(18, "G729/8000"),
    Static(33, "MP2T/90000"), Static(127, "telephone-event/8000")]

  const VIDEO_TYPES: seq<Static> := [
    Static(25, "CelB/90000"), Static(26, "JPEG/90000"), Static(28, "nv/90000"), Static(31, "H261/90000"),
    Static(32, "MP/90000"), Static(33, "MP2T/90000"), Static(34, "H263/90000")]

  const DYNAMIC: nat := 96
  const EVENT_TYPE: nat := 127
  const EVENT := "telephone-event/8000"

  /** 0 for audio, 1 for video, 2 for anything else. */
  datatype Kind = Audio | Video | Other

  function Table(kind: Kind): seq<Static> {
    match kind
    case Audio => AUDIO_TYPES
    case Video => VIDEO_TYPES
    case Other => []
  }

  function Lookup(table: seq<Static>, name: string): (r: Option<nat>)
    ensures r.Some? ==> exists i :: 0 <= i < |table| && table[i].name == name && table[i].payload == r.value
    ensures r.None? <==> forall i :: 0 <= i < |table| ==> table[i].name != name
  {
    if table == [] then None
    else if table[0].name == name then Some(table[0].payload)
    else
      var r := Lookup(table[1..], name);
      assert forall i :: 0 < i < |table| ==> table[i] == table[1..][i - 1];
      r
  }

  predicate Known(kind: Kind, name: string) {
    Lookup(Table(kind), name).Some?
  }

  /** The payload type of a name when the next free dynamic type is `next`. */
  function TypeOf(kind: Kind, name: string, next: nat): nat {
    if Known(kind, name) then Lookup(Table(kind), name).value else next
  }

  function NextFree(kind: Kind, name: string, next: nat): nat {
    if Known(kind, name) then next else next + 1
  }

  /** `rtpformat2type`. */
  method FormatToType(name: string, next: nat, kind: Kind) returns (payload: nat, free: nat)
    ensures payload == TypeOf(kind, name, next) && free == NextFree(kind, name, next)
  {
    hide AUDIO_TYPES, VIDEO_TYPES;
    var table := Table(kind);
    for i := 0 to |table|
      invariant Lookup(table, name) == Lookup(table[i..], name)
    {
      if table[i].name == name {
        return table[i].payload, next;
      }
      assert table[i..][1..] == table[i + 1..];
    }
    return next, next + 1;
  }

  predicate Increasing(table: seq<Static>) {
    forall i, j :: 0 <= i < j < |table| ==> table[i].payload < table[j].payload
  }

  predicate Ascends(table: seq<Static>) {
    forall i :: 0 < i < |table| ==> table[i - 1].payload < table[i].payload
  }

  lemma AudioAscends()
    ensures Ascends(AUDIO_TYPES)
  {
  }

  lemma VideoAscends()
    ensures Ascends(VIDEO_TYPES)
  {
  }

  lemma {:induction false} AscendsFar(table: seq<Static>, i: nat, j: nat)
    requires Ascends(table) && i < j < |table|
    ensures table[i].payload < table[j].payload
  {
    assert table[j - 1].payload < table[j].payload;
    if i < j - 1 {
      AscendsFar(table, i, j - 1);
    }
  }

  lemma AscendsIncreases(table: seq<Static>)
    requires Ascends(table)
    ensures Increasing(table)
  {
    forall i, j | 0 <= i < j < |table| ensures table[i].payload < table[j].payload {
      AscendsFar(table, i, j);
    }
  }

  lemma TablesIncrease(kind: Kind)
    ensures Increasing(Table(kind))
  {
    hide AUDIO_TYPES, VIDEO_TYPES, Ascends;
    AudioAscends();
    VideoAscends();
    AscendsIncreases(AUDIO_TYPES);
    AscendsIncreases(VIDEO_TYPES);
  }

  /** A table gives different names different types. */
  lemma LookupInjective(kind: Kind, a: string, b: string)
    ensures Known(kind, a) ==> (Lookup(Table(kind), a) == Lookup(Table(kind), b) <==> a == b)
  {
    TablesIncrease(kind);
  }

  lemma AudioTable()
    ensures forall i :: 0 <= i < 17 ==> AUDIO_TYPES[i].payload < DYNAMIC && |AUDIO_TYPES[i].name| < |EVENT|
    ensures |AUDIO_TYPES| == 18 && AUDIO_TYPES[17] == Static(EVENT_TYPE, EVENT)
  {
  }

  lemma VideoTable()
    ensures forall i :: 0 <= i < |VIDEO_TYPES| ==> VIDEO_TYPES[i].payload < DYNAMIC
  {
  }

  /** Table types are below the dynamic ones, except the one reserved for events on audio. */
  lemma TableRange(kind: Kind, name: string)
    requires Known(kind, name)
    ensures var t := Lookup(Table(kind), name).value;
      if kind == Audio && name == EVENT then t == EVENT_TYPE else t < DYNAMIC
  {
    hide Lookup;
    AudioTable();
    VideoTable();
    hide AUDIO_TYPES, VIDEO_TYPES;
  }

  // ----------------------------------------------------------------- encoding

  datatype Attribute = Attribute(field: Option<string>, value: Option<string>)

  datatype Media = Media(
    name: Option<string>, port: string, proto: Option<string>,
    payloads: seq<string>, attributes: seq<Attribute>)

  datatype Entry = Entry(payload: nat, name: string)

  function KindOf(media: string): Kind {
    if media == "audio" then Audio else if media == "video" then Video else Other
  }

  /** What the encode loop emits for the formats still to come. */
  function Entries(kind: Kind, formats: seq<string>, next: nat): seq<Entry>
    decreases |formats|
  {
    if formats == [] then []
    else
      var t := TypeOf(kind, formats[0], next);
      var rest := Entries(kind, formats[1..], NextFree(kind, formats[0], next));
      if t == EVENT_TYPE then rest else [Entry(t, formats[0])] + rest
  }

  function NumberedAttribute(payload: nat, field: string, value: string): Attribute {
    Attribute(Some(field), Some(Decimal(payload) + [' '] + value))
  }

  function RtpMap(e: Entry): Attribute {
    NumberedAttribute(e.payload, "rtpmap", e.name)
  }

  function RtpMaps(es: seq<Entry>): (r: seq<Attribute>)
    ensures |r| == |es| && forall i :: 0 <= i < |es| ==> r[i] == RtpMap(es[i])
  {
    seq(|es|, i requires 0 <= i < |es| => RtpMap(es[i]))
  }

  function PayloadList(es: seq<Entry>): (r: seq<string>)
    ensures |r| == |es| && forall i :: 0 <= i < |es| ==> r[i] == Decimal(es[i].payload)
  {
    seq(|es|, i requires 0 <= i < |es| => Decimal(es[i].payload))
  }

  function Encoded(media: string, port: nat, formats: seq<string>): Media {
    var es := Entries(KindOf(media), formats, DYNAMIC);
    Media(Some(media), Decimal(port), Some("RTP/AVP"), PayloadList(es),
          RtpMaps(es) + [NumberedAttribute(EVENT_TYPE, "rtpmap", EVENT), NumberedAttribute(EVENT_TYPE, "fmtp", "0-15")])
  }

  // --------------------------------------------------------------- extraction

  /** The format name an attribute carries, if any. */
  function NameIn(a: Attribute): seq<string> {
    if a.field != Some("rtpmap") || a.value.None? then []
    else
      var rest := a.value.value[IndexOf(a.value.value, ' ')..];
      var name := rest[LeadingSpaces(rest)..];
      if name == "" then [] else [name]
  }

  function NamesIn(attributes: seq<Attribute>): seq<string> {
    if attributes == [] then [] else NameIn(attributes[0]) + NamesIn(attributes[1..])
  }

  /** The names contributed by one media to the list of one kind. */
  function NamesOf(media: Media, kind: Kind): seq<string> {
    if media.name.Some? && media.proto == Some("RTP/AVP") && kind != Other && KindOf(media.name.value) == kind
    then NamesIn(media.attributes) else []
  }

  function Extracted(medias: seq<Media>, kind: Kind): seq<string> {
    if medias == [] then [] else NamesOf(medias[0], kind) + Extracted(medias[1..], kind)
  }

  lemma {:induction false} NamesConcat(a: seq<Attribute>, b: seq<Attribute>)
    ensures NamesIn(a + b) == NamesIn(a) + NamesIn(b)
  {
    if a == [] {
      assert a + b == b;
    } else {
      assert (a + b)[1..] == a[1..] + b;
      NamesConcat(a[1..], b);
    }
  }

  lemma {:induction false} ExtractedConcat(a: seq<Media>, b: seq<Media>, kind: Kind)
    ensures Extracted(a + b, kind) == Extracted(a, kind) + Extracted(b, kind)
  {
    if a == [] {
      assert a + b == b;
    } else {
      assert (a + b)[1..] == a[1..] + b;
      ExtractedConcat(a[1..], b, kind);
    }
  }

  // --------------------------------------------------------------- operations

  class SdpMessage {
    var medias: seq<Media>

    /** `_SIPLeelen_encode_media_formats`: nothing is added for port zero. */
    method EncodeMedia(media: string, port: nat, formats: seq<string>) returns (ret: int)
      modifies this
      ensures ret == 0
      ensures medias == old(medias) + if port == 0 then [] else [Encoded(media, port, formats)]
    {
      if port == 0 {
        return 0;
      }
      var payloads, attributes := EncodeFormats(KindOf(media), formats);
      attributes := attributes + [NumberedAttribute(EVENT_TYPE, "rtpmap", EVENT)];
      attributes := attributes + [NumberedAttribute(EVENT_TYPE, "fmtp", "0-15")];
      assert attributes == Encoded(media, port, formats).attributes;
      medias := medias + [Media(Some(media), Decimal(port), Some("RTP/AVP"), payloads, attributes)];
      ret := 0;
    }

    /** `_SIPLeelen_extract_media_formats`: a list that is not wanted stays empty; `sdp` is null when
        the request has no description. */
    static method ExtractMedia(sdp: SdpMessage?, wantAudio: bool, wantVideo: bool)
      returns (ret: int, audio: seq<string>, video: seq<string>)
      ensures ret == if sdp == null then 1 else 0
      ensures audio == if sdp != null && wantAudio then Extracted(sdp.medias, Audio) else []
      ensures video == if sdp != null && wantVideo then Extracted(sdp.medias, Video) else []
    {
      ret, audio, video := 0, [], [];
      if sdp == null {
        return 1, [], [];
      }
      var medias := sdp.medias;
      for i := 0 to |medias|
        invariant audio == if wantAudio then Extracted(medias[..i], Audio) else []
        invariant video == if wantVideo then Extracted(medias[..i], Video) else []
      {
        var media := medias[i];
        assert medias[..i + 1] == medias[..i] + [media];
        ExtractedConcat(medias[..i], [media], Audio);
        ExtractedConcat(medias[..i], [media], Video);
        ExtractedOne(media);
        if media.name.None? || media.proto.None? || media.proto.value != "RTP/AVP" {
          continue;
        }
        var isAudio, isVideo := media.name.value == "audio", media.name.value == "video";
        if !(isAudio || isVideo) {
          continue;
        }
        if !(if isAudio then wantAudio else wantVideo) {
          continue;
        }
        var names := ReadNames(media.attributes);
        if isAudio {
          audio := audio + names;
        } else {
          video := video + names;
        }
      }
      assert medias[..|medias|] == medias;
    }
  }

  /** The loop over the formats, which threads the next free dynamic type. */
  method EncodeFormats(kind: Kind, formats: seq<string>) returns (payloads: seq<string>, attributes: seq<Attribute>)
    ensures var es := Entries(kind, formats, DYNAMIC); payloads == PayloadList(es) && attributes == RtpMaps(es)
  {
    hide TypeOf, NextFree, Decimal;
    var next: nat := DYNAMIC;
    payloads, attributes := [], [];
    ghost var done: seq<Entry> := [];
    for i := 0 to |formats|
      invariant payloads == PayloadList(done) && attributes == RtpMaps(done)
      invariant done + Entries(kind, formats[i..], next) == Entries(kind, formats, DYNAMIC)
    {
      assert formats[i..][1..] == formats[i + 1..];
      var payload;
      payload, next := FormatToType(formats[i], next, kind);
      if payload != EVENT_TYPE {
        payloads := payloads + [Decimal(payload)];
        attributes := attributes + [NumberedAttribute(payload, "rtpmap", formats[i])];
        done := done + [Entry(payload, formats[i])];
      }
    }
    assert done == Entries(kind, formats, DYNAMIC);
  }

  lemma ExtractedOne(media: Media)
    ensures Extracted([media], Audio) == NamesOf(media, Audio)
    ensures Extracted([media], Video) == NamesOf(media, Video)
  {
  }

  lemma NamesSnoc(attributes: seq<Attribute>, j: nat)
    requires j < |attributes|
    ensures NamesIn(attributes[..j + 1]) == NamesIn(attributes[..j]) + NameIn(attributes[j])
  {
    assert attributes[..j + 1] == attributes[..j] + [attributes[j]];
    NamesConcat(attributes[..j], [attributes[j]]);
    assert [attributes[j]][1..] == [];
  }

  /** What follows the first space run of an attribute value. */
  lemma NameAt(a: Attribute, sep: nat)
    requires a.value.Some? && sep == IndexOf(a.value.value, ' ')
    ensures sep <= |a.value.value|
    ensures var from := sep + LeadingSpaces(a.value.value[sep..]);
      from <= |a.value.value|
      && NameIn(a) == if a.field != Some("rtpmap") || from == |a.value.value| then [] else [a.value.value[from..]]
  {
  }

  /** The loop over the attributes of one media. */
  method ReadNames(attributes: seq<Attribute>) returns (names: seq<string>)
    ensures names == NamesIn(attributes)
  {
    names := [];
    assert NamesIn(attributes[..0]) == [];
    hide NamesIn, IndexOf, LeadingSpaces;
    for j := 0 to |attributes|
      invariant names == NamesIn(attributes[..j])
    {
      var a := attributes[j];
      NamesSnoc(attributes, j);
      if a.field.None? || a.value.None? {
        continue;
      }
      if a.field.value != "rtpmap" {
        continue;
      }
      var sep := IndexOf(a.value.value, ' ');
      NameAt(a, sep);
      if sep == |a.value.value| {
        continue;
      }
      sep := sep + LeadingSpaces(a.value.value[sep..]);
      if sep == |a.value.value| {
        continue;
      }
      names := names + [a.value.value[sep..]];
    }
    assert attributes[..|attributes|] == attributes;
  }

  // -------------------------------------------------------------- round trip

  /** The names that come back: all but the audio name that stands for events. */
  function Kept(kind: Kind, formats: seq<string>): seq<string> {
    if formats == [] then []
    else (if kind == Audio && formats[0] == EVENT then [] else [formats[0]]) + Kept(kind, formats[1..])
  }

  /** How many occurrences need a dynamic type. */
  function Unknowns(kind: Kind, formats: seq<string>): nat {
    if formats == [] then 0 else (if Known(kind, formats[0]) then 0 else 1) + Unknowns(kind, formats[1..])
  }

  /** A name that `rtpmap` can carry. */
  predicate Carried(name: string) {
    name != "" && !IsSpace(name[0])
  }

  predicate AllCarried(names: seq<string>) {
    forall i :: 0 <= i < |names| ==> Carried(names[i])
  }

  /** A measure that only shrinks when names are dropped or stripped. */
  function Size(names: seq<string>): nat {
    if names == [] then 0 else |names[0]| + 1 + Size(names[1..])
  }

  /** The one dynamic type that collides with the reserved one is handed out. */
  predicate Overflows(kind: Kind, formats: seq<string>, next: nat) {
    next <= EVENT_TYPE < next + Unknowns(kind, formats)
  }

  /** Where the name starts in the value of a numbered attribute. */
  lemma AfterNumber(d: string, name: string)
    requires ' ' !in d
    ensures var value := d + [' '] + name;
      && IndexOf(value, ' ') == |d|
      && LeadingSpaces(value[|d|..]) == 1 + LeadingSpaces(name)
      && value[|d|..][1 + LeadingSpaces(name)..] == name[LeadingSpaces(name)..]
  {
    var rest := (d + [' '] + name)[|d|..];
    IndexOfAt(d, ' ', name);
    assert rest[0] == ' ' && rest[1..] == name;
  }

  lemma NumbersHaveNoSpace(n: nat)
    ensures ' ' !in Decimal(n)
  {
    hide Decimal;
    assert forall i :: 0 <= i < |Decimal(n)| ==> IsDigit(Decimal(n)[i]);
  }

  lemma NameOfRtpMap(e: Entry)
    ensures var name := e.name[LeadingSpaces(e.name)..]; NameIn(RtpMap(e)) == if name == "" then [] else [name]
  {
    hide Decimal, IndexOf, LeadingSpaces;
    NumbersHaveNoSpace(e.payload);
    AfterNumber(Decimal(e.payload), e.name);
  }

  lemma CarriedBack(e: Entry)
    ensures Carried(e.name) ==> NameIn(RtpMap(e)) == [e.name]
    ensures !Carried(e.name) ==> Size(NameIn(RtpMap(e))) < |e.name| + 1
  {
    NameOfRtpMap(e);
    hide NameIn, RtpMap;
    var name := e.name[LeadingSpaces(e.name)..];
    assert [name][1..] == [];
    assert Size([name]) == |name| + 1;
  }

  lemma {:induction false} SizeConcat(a: seq<string>, b: seq<string>)
    ensures Size(a + b) == Size(a) + Size(b)
  {
    if a == [] {
      assert a + b == b;
    } else {
      assert (a + b)[1..] == a[1..] + b;
      SizeConcat(a[1..], b);
    }
  }

  lemma EntryType(kind: Kind, name: string, next: nat)
    requires kind != Other
    ensures TypeOf(kind, name, next) == EVENT_TYPE
       <==> (kind == Audio && name == EVENT) || (!Known(kind, name) && next == EVENT_TYPE)
    ensures kind == Audio && name == EVENT ==> Known(kind, name)
  {
    hide Lookup;
    if Known(kind, name) {
      TableRange(kind, name);
    }
    AudioTable();
    assert AUDIO_TYPES[17].name == EVENT;
    hide AUDIO_TYPES, VIDEO_TYPES;
  }

  lemma NamesCons(e: Entry, es: seq<Entry>)
    ensures NamesIn(RtpMaps([e] + es)) == NameIn(RtpMap(e)) + NamesIn(RtpMaps(es))
  {
    assert RtpMaps([e] + es)[1..] == RtpMaps(es);
  }

  lemma SizeCons(name: string, names: seq<string>)
    ensures Size([name] + names) == |name| + 1 + Size(names)
    ensures AllCarried([name] + names) <==> Carried(name) && AllCarried(names)
  {
  }

  /** `back` are the names that came back of the `kept` ones, all of them or fewer. */
  predicate Returned(back: seq<string>, kept: seq<string>, overflows: bool) {
    if AllCarried(kept) && !overflows then back == kept else Size(back) < Size(kept)
  }

  lemma ReturnedCons(e: Entry, es: seq<Entry>, kept: seq<string>, overflows: bool)
    requires Returned(NamesIn(RtpMaps(es)), kept, overflows)
    ensures Returned(NamesIn(RtpMaps([e] + es)), [e.name] + kept, overflows)
  {
    hide NameIn, RtpMap, RtpMaps, AllCarried, Carried;
    NamesCons(e, es);
    CarriedBack(e);
    SizeConcat(NameIn(RtpMap(e)), NamesIn(RtpMaps(es)));
    SizeCons(e.name, kept);
    SizeCons(e.name, []);
    assert [e.name] + [] == [e.name];
  }

  /** The names read back from the emitted attributes are the kept ones when every name can be
      carried and the reserved type is not hit; otherwise something is missing. */
  lemma {:induction false} EntriesBack(kind: Kind, formats: seq<string>, next: nat)
    requires kind != Other
    ensures Returned(NamesIn(RtpMaps(Entries(kind, formats, next))), Kept(kind, formats),
                     Overflows(kind, formats, next))
    decreases |formats|
  {
    hide Known, TypeOf, Lookup, Table, NamesIn, RtpMaps, Returned;
    if formats == [] {
      NothingBack();
    } else {
      var name, more := formats[0], formats[1..];
      var free := NextFree(kind, name, next);
      EntryType(kind, name, next);
      EntriesBack(kind, more, free);
      var t, es := TypeOf(kind, name, next), Entries(kind, more, free);
      if t != EVENT_TYPE {
        ReturnedCons(Entry(t, name), es, Kept(kind, more), Overflows(kind, more, free));
      } else if !Known(kind, name) {
        ReturnedLess(NamesIn(RtpMaps(es)), name, Kept(kind, more), Overflows(kind, more, free));
      } else {
        assert Kept(kind, formats) == Kept(kind, more);
      }
    }
  }

  lemma ReturnedLess(back: seq<string>, name: string, kept: seq<string>, overflows: bool)
    requires Returned(back, kept, overflows)
    ensures Returned(back, [name] + kept, true)
  {
  }

  lemma NothingBack()
    ensures Returned(NamesIn(RtpMaps([])), [], false)
  {
  }

  /** Encoding a media and extracting it gives the kept names in order, and then the event name,
      exactly when each of them is non-empty without leading white space and at most 31
      occurrences need a dynamic type. */
  lemma SdpRoundTrip(media: string, port: nat, formats: seq<string>)
    requires media == "audio" || media == "video"
    ensures var kind := KindOf(media); var kept := Kept(kind, formats);
      Extracted([Encoded(media, port, formats)], kind) == kept + [EVENT]
      <==> AllCarried(kept) && Unknowns(kind, formats) <= 31
  {
    hide Lookup;
    var kind := KindOf(media);
    var es, kept := Entries(kind, formats, DYNAMIC), Kept(kind, formats);
    EncodedNames(media, port, formats);
    ExtractedOne(Encoded(media, port, formats));
    EntriesBack(kind, formats, DYNAMIC);
    var back := NamesIn(RtpMaps(es));
    if back + [EVENT] == kept + [EVENT] {
      assert back == (back + [EVENT])[..|back|] && kept == (kept + [EVENT])[..|kept|];
    }
  }

  lemma EncodedNames(media: string, port: nat, formats: seq<string>)
    ensures NamesIn(Encoded(media, port, formats).attributes)
         == NamesIn(RtpMaps(Entries(KindOf(media), formats, DYNAMIC))) + [EVENT]
  {
    hide Entries, Decimal, NameIn, RtpMaps;
    var event, fmtp := NumberedAttribute(EVENT_TYPE, "rtpmap", EVENT), NumberedAttribute(EVENT_TYPE, "fmtp", "0-15");
    NamesConcat(RtpMaps(Entries(KindOf(media), formats, DYNAMIC)), [event, fmtp]);
    CarriedBack(Entry(EVENT_TYPE, EVENT));
    assert RtpMap(Entry(EVENT_TYPE, EVENT)) == event;
    FmtpIsNoName(fmtp);
    NamesPair(event, fmtp);
  }

  lemma FmtpIsNoName(a: Attribute)
    requires a.field == Some("fmtp")
    ensures NameIn(a) == []
  {
  }

  lemma NamesPair(a: Attribute, b: Attribute)
    ensures NamesIn([a, b]) == NameIn(a) + NameIn(b)
  {
    assert [a, b][1..] == [b] && [b][1..] == [];
    assert NamesIn([b]) == NameIn(b) + NamesIn([]);
    assert NamesIn([a, b]) == NameIn(a) + NamesIn([b]);
  }

  /** Two media in one message do not mix, in either order: each list is what its own media
      gives alone. */
  lemma MediaDoNotMix(audioPort: nat, audio: seq<string>, videoPort: nat, video: seq<string>)
    ensures var a, v := Encoded("audio", audioPort, audio), Encoded("video", videoPort, video);
      && Extracted([a, v], Audio) == Extracted([v, a], Audio) == Extracted([a], Audio)
      && Extracted([a, v], Video) == Extracted([v, a], Video) == Extracted([v], Video)
      && (Extracted([a, v], Audio) == Kept(Audio, audio) + [EVENT] <==>
            AllCarried(Kept(Audio, audio)) && Unknowns(Audio, audio) <= 31)
      && (Extracted([a, v], Video) == Kept(Video, video) + [EVENT] <==>
            AllCarried(Kept(Video, video)) && Unknowns(Video, video) <= 31)
  {
    hide NamesIn, Entries, Kept, Unknowns, AllCarried;
    var a, v := Encoded("audio", audioPort, audio), Encoded("video", videoPort, video);
    SdpRoundTrip("audio", audioPort, audio);
    SdpRoundTrip("video", videoPort, video);
    assert [a] + [v] == [a, v] && [v] + [a] == [v, a];
    ExtractedConcat([a], [v], Audio);
    ExtractedConcat([a], [v], Video);
    ExtractedConcat([v], [a], Audio);
    ExtractedConcat([v], [a], Video);
    ExtractedOne(a);
    ExtractedOne(v);
  }

  // ------------------------------------------------- payload type allocation

  /** The entries of the kept names: table types for known names, consecutive types from `next`
      for the others, none of them the reserved one. */
  predicate Allocated(kind: Kind, es: seq<Entry>, kept: seq<string>, next: nat) {
    |es| == |kept| && forall i :: 0 <= i < |es| ==> AllocatedAt(kind, es, kept, next, i)
  }

  predicate AllocatedAt(kind: Kind, es: seq<Entry>, kept: seq<string>, next: nat, i: nat)
    requires i < |es| == |kept|
  {
    && es[i].name == kept[i]
    && es[i].payload == TypeOf(kind, kept[i], next + Unknowns(kind, kept[..i]))
    && es[i].payload < EVENT_TYPE
  }

  lemma AllocatedFirst(kind: Kind, name: string, es: seq<Entry>, kept: seq<string>, next: nat)
    requires |es| == |kept| && TypeOf(kind, name, next) < EVENT_TYPE
    ensures AllocatedAt(kind, [Entry(TypeOf(kind, name, next), name)] + es, [name] + kept, next, 0)
  {
    hide TypeOf;
    assert ([name] + kept)[..0] == [];
  }

  lemma AllocatedNext(kind: Kind, name: string, e: Entry, es: seq<Entry>, kept: seq<string>, next: nat, i: nat)
    requires 0 < i <= |es| == |kept| && AllocatedAt(kind, es, kept, NextFree(kind, name, next), i - 1)
    ensures AllocatedAt(kind, [e] + es, [name] + kept, next, i)
  {
    hide TypeOf, NextFree, Unknowns;
    UnknownsCons(kind, name, kept, next, i);
  }

  lemma UnknownsCons(kind: Kind, name: string, kept: seq<string>, next: nat, i: nat)
    requires 0 < i <= |kept|
    ensures next + Unknowns(kind, ([name] + kept)[..i]) == NextFree(kind, name, next) + Unknowns(kind, kept[..i - 1])
  {
    hide Known;
    assert ([name] + kept)[..i][1..] == kept[..i - 1];
  }

  lemma AllocatedCons(kind: Kind, name: string, es: seq<Entry>, kept: seq<string>, next: nat)
    requires Allocated(kind, es, kept, NextFree(kind, name, next)) && TypeOf(kind, name, next) < EVENT_TYPE
    ensures Allocated(kind, [Entry(TypeOf(kind, name, next), name)] + es, [name] + kept, next)
  {
    hide AllocatedAt, TypeOf, NextFree;
    var e := Entry(TypeOf(kind, name, next), name);
    AllocatedFirst(kind, name, es, kept, next);
    forall i | 0 < i <= |es| ensures AllocatedAt(kind, [e] + es, [name] + kept, next, i) {
      AllocatedNext(kind, name, e, es, kept, next, i);
    }
  }

  /** With at most 31 dynamic occurrences the loop allocates types for every kept name. */
  lemma {:induction false} EntriesAllocate(kind: Kind, formats: seq<string>, next: nat)
    requires next + Unknowns(kind, formats) <= EVENT_TYPE && kind != Other
    ensures Allocated(kind, Entries(kind, formats, next), Kept(kind, formats), next)
    decreases |formats|
  {
    hide Known, Lookup, Table, Allocated;
    if formats == [] {
      NothingAllocated(kind, next);
    } else {
      var name, more := formats[0], formats[1..];
      EntryType(kind, name, next);
      EntriesAllocate(kind, more, NextFree(kind, name, next));
      if TypeOf(kind, name, next) == EVENT_TYPE {
        assert Kept(kind, formats) == Kept(kind, more);
      } else {
        TypeBelow(kind, name, next);
        AllocatedCons(kind, name, Entries(kind, more, NextFree(kind, name, next)), Kept(kind, more), next);
      }
    }
  }

  lemma NothingAllocated(kind: Kind, next: nat)
    ensures Allocated(kind, [], [], next)
  {
  }

  lemma TypeBelow(kind: Kind, name: string, next: nat)
    requires next <= EVENT_TYPE && TypeOf(kind, name, next) != EVENT_TYPE
    ensures TypeOf(kind, name, next) < EVENT_TYPE
  {
    hide Lookup;
    if Known(kind, name) {
      TableRange(kind, name);
    }
  }

  predicate NoKnownTwice(kind: Kind, names: seq<string>) {
    forall i, j :: 0 <= i < j < |names| && Known(kind, names[i]) ==> names[i] != names[j]
  }

  predicate Distinct(es: seq<Entry>) {
    forall i, j :: 0 <= i < j < |es| ==> es[i].payload != es[j].payload
  }

  predicate HasType(es: seq<Entry>, payload: nat) {
    exists i :: 0 <= i < |es| && es[i].payload == payload
  }

  lemma HasTypeCons(e: Entry, es: seq<Entry>, payload: nat)
    ensures HasType([e] + es, payload) <==> e.payload == payload || HasType(es, payload)
  {
    var all := [e] + es;
    assert all[0] == e && forall i :: 0 <= i < |es| ==> all[i + 1] == es[i];
    if HasType(es, payload) {
      var i :| 0 <= i < |es| && es[i].payload == payload;
      assert all[i + 1].payload == payload;
    }
  }

  lemma DistinctCons(e: Entry, es: seq<Entry>)
    ensures Distinct([e] + es) <==> Distinct(es) && !HasType(es, e.payload)
  {
    var all := [e] + es;
    assert all[0] == e && forall i :: 0 <= i < |es| ==> all[i + 1] == es[i];
    if HasType(es, e.payload) {
      var i :| 0 <= i < |es| && es[i].payload == e.payload;
      assert all[0].payload == all[i + 1].payload;
    }
    if Distinct(all) {
      forall i, j | 0 <= i < j < |es| ensures es[i].payload != es[j].payload {
        assert all[i + 1].payload != all[j + 1].payload;
      }
    }
  }

  lemma NoKnownTwiceCons(kind: Kind, name: string, kept: seq<string>)
    ensures NoKnownTwice(kind, [name] + kept) <==> NoKnownTwice(kind, kept) && (Known(kind, name) ==> name !in kept)
  {
    hide Known;
    var all := [name] + kept;
    assert all[0] == name && forall i :: 0 <= i < |kept| ==> all[i + 1] == kept[i];
    if Known(kind, name) && name in kept {
      var i :| 0 <= i < |kept| && kept[i] == name;
      assert all[0] == all[i + 1];
    }
    if NoKnownTwice(kind, all) {
      forall i, j | 0 <= i < j < |kept| && Known(kind, kept[i]) ensures kept[i] != kept[j] {
        assert all[i + 1] != all[j + 1];
      }
    }
  }

  /** What the next format emits: nothing for the reserved type, else its type and name. */
  lemma EntriesCons(kind: Kind, formats: seq<string>, next: nat)
    requires formats != []
    ensures var t := TypeOf(kind, formats[0], next);
      var rest := Entries(kind, formats[1..], NextFree(kind, formats[0], next));
      Entries(kind, formats, next) == if t == EVENT_TYPE then rest else [Entry(t, formats[0])] + rest
  {
    hide TypeOf, NextFree;
  }

  lemma KnownType(kind: Kind, name: string, next: nat)
    requires Known(kind, name)
    ensures NextFree(kind, name, next) == next
    ensures var t := TypeOf(kind, name, next); if kind == Audio && name == EVENT then t == EVENT_TYPE else t < DYNAMIC
  {
    TableRange(kind, name);
  }

  lemma UnknownType(kind: Kind, name: string, next: nat)
    requires !Known(kind, name)
    ensures TypeOf(kind, name, next) == next && NextFree(kind, name, next) == next + 1
    ensures !(kind == Audio && name == EVENT)
  {
    hide Lookup;
    AudioTable();
    assert AUDIO_TYPES[17].name == EVENT;
    hide AUDIO_TYPES, VIDEO_TYPES;
  }

  /** A dynamic type below the next free one is not emitted any more; the type of a known name is
      emitted exactly if the name is kept. */
  lemma {:induction false} EmittedTypes(kind: Kind, formats: seq<string>, next: nat, payload: nat, name: string)
    requires next >= DYNAMIC
    ensures DYNAMIC <= payload < next || payload == EVENT_TYPE ==> !HasType(Entries(kind, formats, next), payload)
    ensures Known(kind, name) && !(kind == Audio && name == EVENT) ==>
      (HasType(Entries(kind, formats, next), TypeOf(kind, name, next)) <==> name in Kept(kind, formats))
    decreases |formats|
  {
    hide Known, Lookup, TypeOf, NextFree, HasType, Entries;
    if formats == [] {
      NothingEmitted(kind, next);
    } else {
      var first, free := formats[0], NextFree(kind, formats[0], next);
      var t, rest := TypeOf(kind, first, next), Entries(kind, formats[1..], free);
      EntriesCons(kind, formats, next);
      if Known(kind, first) {
        KnownType(kind, first, next);
      } else {
        UnknownType(kind, first, next);
      }
      EmittedTypes(kind, formats[1..], free, payload, name);
      HasTypeCons(Entry(t, first), rest, payload);
      if Known(kind, name) && !(kind == Audio && name == EVENT) {
        KnownType(kind, name, next);
        HasTypeCons(Entry(t, first), rest, TypeOf(kind, name, next));
        SameKnownType(kind, name, first, next, free);
      }
    }
  }

  lemma NothingEmitted(kind: Kind, next: nat)
    ensures Entries(kind, [], next) == [] && Kept(kind, []) == []
    ensures forall payload :: !HasType([], payload)
  {
  }

  lemma SameKnownType(kind: Kind, name: string, first: string, next: nat, free: nat)
    requires Known(kind, name)
    ensures TypeOf(kind, name, next) == TypeOf(kind, name, free)
    ensures Known(kind, first) ==> (TypeOf(kind, first, next) == TypeOf(kind, name, next) <==> first == name)
  {
    hide Lookup;
    if Known(kind, first) {
      LookupInjective(kind, name, first);
    }
  }

  /** Whatever is listed, and however many names are unknown: the emitted types are never the
      reserved one, and they are pairwise distinct exactly when no name of the static table is
      listed twice; an unknown name may be. */
  lemma {:induction false} TypesAreDistinct(kind: Kind, formats: seq<string>, next: nat)
    requires next >= DYNAMIC
    ensures !HasType(Entries(kind, formats, next), EVENT_TYPE)
    ensures Distinct(Entries(kind, formats, next)) <==> NoKnownTwice(kind, Kept(kind, formats))
    decreases |formats|
  {
    hide Known, Lookup, TypeOf, NextFree, HasType, Entries, Distinct, NoKnownTwice;
    EmittedTypes(kind, formats, next, EVENT_TYPE, "");
    if formats == [] {
      NothingTwice(kind, next);
    } else {
      var first, more, free := formats[0], formats[1..], NextFree(kind, formats[0], next);
      var t, rest := TypeOf(kind, first, next), Entries(kind, formats[1..], free);
      EntriesCons(kind, formats, next);
      if Known(kind, first) {
        KnownType(kind, first, next);
      } else {
        UnknownType(kind, first, next);
      }
      TypesAreDistinct(kind, more, free);
      EmittedTypes(kind, more, free, t, first);
      DistinctCons(Entry(t, first), rest);
      NoKnownTwiceCons(kind, first, Kept(kind, more));
      assert kind == Audio && first == EVENT ==> Kept(kind, formats) == Kept(kind, more);
    }
  }

  lemma NothingTwice(kind: Kind, next: nat)
    ensures Distinct(Entries(kind, [], next)) && NoKnownTwice(kind, Kept(kind, []))
  {
  }

  predicate AllBelow(es: seq<Entry>, bound: nat) {
    forall i :: 0 <= i < |es| ==> es[i].payload < bound
  }

  lemma AllBelowCons(e: Entry, es: seq<Entry>, bound: nat)
    ensures AllBelow([e] + es, bound) <==> e.payload < bound && AllBelow(es, bound)
  {
    var all := [e] + es;
    assert all[0] == e && forall i :: 0 <= i < |es| ==> all[i + 1] == es[i];
    if AllBelow(all, bound) {
      forall i | 0 <= i < |es| ensures es[i].payload < bound {
        assert all[i + 1].payload < bound;
      }
    }
  }

  /** The emitted types stay within seven bits exactly as long as at most one name hits the
      reserved type: the next one would get 128. */
  lemma {:induction false} TypesInRange(kind: Kind, formats: seq<string>, next: nat)
    requires DYNAMIC <= next <= EVENT_TYPE + 1
    ensures AllBelow(Entries(kind, formats, next), EVENT_TYPE) <==> next + Unknowns(kind, formats) <= EVENT_TYPE + 1
    decreases |formats|
  {
    hide Known, Lookup, TypeOf, NextFree, Entries, AllBelow;
    if formats == [] {
      NothingAbove(kind, next);
    } else {
      var first, free := formats[0], NextFree(kind, formats[0], next);
      var t, rest := TypeOf(kind, first, next), Entries(kind, formats[1..], free);
      EntriesCons(kind, formats, next);
      AllBelowCons(Entry(t, first), rest, EVENT_TYPE);
      if Known(kind, first) {
        KnownType(kind, first, next);
        TypesInRange(kind, formats[1..], free);
      } else {
        UnknownType(kind, first, next);
        if next <= EVENT_TYPE {
          TypesInRange(kind, formats[1..], free);
        }
      }
    }
  }

  lemma NothingAbove(kind: Kind, next: nat)
    ensures AllBelow(Entries(kind, [], next), EVENT_TYPE)
  {
  }

  // ------------------------------------------------- more than 31 dynamic types

  predicate AllUnknown(kind: Kind, names: seq<string>) {
    forall i :: 0 <= i < |names| ==> !Known(kind, names[i])
  }

  /** Entries of consecutive types. */
  function Consecutive(names: seq<string>, next: nat, n: nat): (es: seq<Entry>)
    requires n <= |names|
    ensures |es| == n && forall i :: 0 <= i < n ==> es[i] == Entry(next + i, names[i])
  {
    seq(n, i requires 0 <= i < n => Entry(next + i, names[i]))
  }

  /** Unknown names get consecutive types, and the one that hits the reserved type is dropped. */
  lemma {:induction false} UnknownEntries(kind: Kind, names: seq<string>, next: nat)
    requires AllUnknown(kind, names) && next <= EVENT_TYPE && next + |names| <= EVENT_TYPE + 1
    ensures Entries(kind, names, next) == Consecutive(names, next, Min(|names|, EVENT_TYPE - next))
    decreases |names|
  {
    hide Known, Consecutive;
    if names != [] {
      var rest := names[1..];
      assert !Known(kind, names[0]) && AllUnknown(kind, rest);
      if next < EVENT_TYPE {
        UnknownEntries(kind, rest, next + 1);
        ConsecutiveCons(names, next, Min(|rest|, EVENT_TYPE - next - 1));
      } else {
        assert rest == [];
      }
    }
  }

  lemma ConsecutiveCons(names: seq<string>, next: nat, n: nat)
    requires n < |names|
    ensures Consecutive(names, next, n + 1) == [Entry(next, names[0])] + Consecutive(names[1..], next + 1, n)
  {
  }

  lemma {:induction false} UnknownKept(kind: Kind, names: seq<string>)
    requires AllUnknown(kind, names) && kind != Other
    ensures Kept(kind, names) == names && Unknowns(kind, names) == |names|
    decreases |names|
  {
    hide Known;
    if names != [] {
      assert !Known(kind, names[0]) && AllUnknown(kind, names[1..]);
      EntryType(kind, names[0], 0);
      UnknownKept(kind, names[1..]);
    }
  }

  /** Of 32 audio formats outside the table the last one is lost. */
  lemma LastFormatDropped(port: nat, names: seq<string>)
    requires |names| == 32 && AllUnknown(Audio, names) && AllCarried(names)
    ensures Extracted([Encoded("audio", port, names)], Audio) == names[..31] + [EVENT]
  {
    hide Entries, Known, Extracted, Kept, Unknowns, Carried;
    var first := names[..31];
    UnknownEntries(Audio, names, DYNAMIC);
    UnknownEntries(Audio, first, DYNAMIC);
    assert Consecutive(names, DYNAMIC, 31) == Consecutive(first, DYNAMIC, 31);
    UnknownKept(Audio, first);
    SdpRoundTrip("audio", port, first);
  }

  /** A name no table starts with. */
  function Strange(i: nat): (name: string)
    ensures name != "" && name[0] == 'x'
  {
    "x" + Decimal(i)
  }

  lemma StrangeIsUnknown(kind: Kind, i: nat)
    ensures !Known(kind, Strange(i)) && Carried(Strange(i))
  {
    hide Strange, Decimal;
    NoTableStartsWithX(kind);
  }

  lemma NoTableStartsWithX(kind: Kind)
    ensures forall i :: 0 <= i < |Table(kind)| ==> Table(kind)[i].name != "" && Table(kind)[i].name[0] != 'x'
  {
  }

  lemma StrangeAreDistinct(i: nat, j: nat)
    requires i != j
    ensures Strange(i) != Strange(j)
  {
    assert Strange(i)[1..] == Decimal(i) && Strange(j)[1..] == Decimal(j);
  }

  function StrangeNames(n: nat): (names: seq<string>)
    ensures |names| == n && forall i :: 0 <= i < n ==> names[i] == Strange(i)
  {
    seq(n, i requires 0 <= i < n => Strange(i))
  }

  /** Such formats exist, all different. */
  lemma DroppedFormatExample(port: nat)
    ensures var names := StrangeNames(32);
      && (forall i, j :: 0 <= i < j < 32 ==> names[i] != names[j])
      && Extracted([Encoded("audio", port, names)], Audio) == names[..31] + [EVENT]
  {
    hide Strange, StrangeNames, Encoded, Extracted, Known, Carried;
    var names := StrangeNames(32);
    forall i, j | 0 <= i < j < 32 ensures names[i] != names[j] {
      StrangeAreDistinct(i, j);
    }
    forall i | 0 <= i < 32 ensures !Known(Audio, names[i]) && Carried(names[i]) {
      StrangeIsUnknown(Audio, i);
    }
    LastFormatDropped(port, names);
  }
}
