/** The text on the wire, literally: what the printer's output is, byte by byte. */
module PrintTheorems {
  import opened CStrings
  import opened Messages
  import opened MessageCodec
  import opened MessageTheorems

  // ------------------------------------------------------------------ header

  /** The bytes at `at` are the little-endian form of `x`. */
  predicate CarriesWord(s: seq<char>, at: nat, x: nat)
    requires at + 4 <= |s|
  {
    && s[at] as int == x % 0x100
    && s[at + 1] as int == x / 0x100 % 0x100
    && s[at + 2] as int == x / 0x1_0000 % 0x100
    && s[at + 3] as int == x / 0x100_0000 % 0x100
  }

  /** A word is read as what its bytes carry, and no other word has those bytes. */
  lemma WordIsRead(s: seq<char>, at: nat, x: nat)
    requires at + 4 <= |s| && x < 0x1_0000_0000 && CarriesWord(s, at, x)
    ensures FromLe32(s[at..at + 4]) == x
  {
    var w := s[at..at + 4];
    assert w[0] == s[at] && w[1] == s[at + 1] && w[2] == s[at + 2] && w[3] == s[at + 3];
    assert x / 0x100 / 0x100 == x / 0x1_0000;
    assert x / 0x1_0000 / 0x100 == x / 0x100_0000;
    assert x / 0x100_0000 < 0x100;
  }

  lemma WordIsWritten(x: nat)
    ensures CarriesWord(Le32(x), 0, x)
  {
  }

  /** Every datagram starts with the code and the identifier, both little-endian. */
  lemma DatagramStarts(m: Message, mtu: nat)
    requires mtu > 8
    ensures var g := Datagram(m, mtu); |g| > 8 && CarriesWord(g, 0, m.code) && CarriesWord(g, 4, m.id)
  {
    hide Le32, Text;
    var g := Datagram(m, mtu);
    WordIsWritten(m.code);
    WordIsWritten(m.id);
    assert g[0..4] == Le32(m.code) && g[4..8] == Le32(m.id);
    assert forall i :: 0 <= i < 4 ==> g[i] == Le32(m.code)[i] && g[4 + i] == Le32(m.id)[i];
  }

  // -------------------------------------------------------------------- text

  function AudioText(formats: seq<string>): string {
    if formats == [] then "" else "Audio=" + formats[0] + "\n" + AudioText(formats[1..])
  }

  function VideoText(formats: seq<string>): string {
    if formats == [] then "" else "Video=" + formats[0] + "\n" + VideoText(formats[1..])
  }

  lemma {:induction false} AudioLines(formats: seq<string>)
    ensures Join(KeyLines("Audio", formats)) == AudioText(formats)
  {
    if formats != [] {
      var lines := KeyLines("Audio", formats);
      assert lines[1..] == KeyLines("Audio", formats[1..]);
      assert lines[0] == "Audio=" + formats[0];
      AudioLines(formats[1..]);
    }
  }

  lemma {:induction false} VideoLines(formats: seq<string>)
    ensures Join(KeyLines("Video", formats)) == VideoText(formats)
  {
    if formats != [] {
      var lines := KeyLines("Video", formats);
      assert lines[1..] == KeyLines("Video", formats[1..]);
      assert lines[0] == "Video=" + formats[0];
      VideoLines(formats[1..]);
    }
  }

  lemma AudioSection(formats: seq<string>, port: nat)
    ensures Join(Section("Audio", formats, port)) ==
      if formats == [] then "" else AudioText(formats) + ("AudioPort=" + Decimal(port) + "\n")
  {
    hide KeyLines, Decimal;
    if formats != [] {
      AudioLines(formats);
      JoinSnoc(KeyLines("Audio", formats), PortLine("Audio", port));
      assert "Audio" + "Port=" == "AudioPort=";
    }
  }

  lemma VideoSection(formats: seq<string>, port: nat)
    ensures Join(Section("Video", formats, port)) ==
      if formats == [] then "" else VideoText(formats) + ("VideoPort=" + Decimal(port) + "\n")
  {
    hide KeyLines, Decimal;
    if formats != [] {
      VideoLines(formats);
      JoinSnoc(KeyLines("Video", formats), PortLine("Video", port));
      assert "Video" + "Port=" == "VideoPort=";
    }
  }

  /** The text of every message. */
  lemma TextIs(m: Message)
    ensures Text(m) ==
      "From=" + m.from + "?" + Decimal(m.fromType) + "\n" + ("To=" + m.to + "\n")
      + (if m.audioFormats == [] then "" else AudioText(m.audioFormats) + ("AudioPort=" + Decimal(m.audioPort) + "\n"))
      + (if m.videoFormats == [] then "" else VideoText(m.videoFormats) + ("VideoPort=" + Decimal(m.videoPort) + "\n"))
  {
    hide Join, HeadLines, Section, Decimal, AudioText, VideoText;
    TextParts(m);
    HeadText(m);
    AudioSection(m.audioFormats, m.audioPort);
    VideoSection(m.videoFormats, m.videoPort);
    var head, audio := HeadLines(m), Section("Audio", m.audioFormats, m.audioPort);
    JoinConcat(head + audio, Section("Video", m.videoFormats, m.videoPort));
    JoinConcat(head, audio);
  }

  // ------------------------------------------------------------------ buffer

  /** Byte `i` of a buffer of which `len` bytes may be used, after printing: code, identifier, text,
      one NUL, and everything else as it was. */
  lemma PrintedByte(b: seq<char>, len: nat, m: Message, i: nat)
    requires len <= |b| && i < |b|
    ensures var r := Filled(WithHeader(b, len, m), len, Text(m)); var n := |Text(m)|;
      && |r| == |b|
      && r[i] ==
           if i < 4 && len >= 4 then Le32(m.code)[i]
           else if 4 <= i < 8 && len >= 8 then Le32(m.id)[i - 4]
           else if 8 <= i && i + 1 < len && i < 8 + n then Text(m)[i - 8]
           else if 8 <= i && (i == 8 + n < len || (i + 1 == len && n >= len - 8)) then NUL
           else b[i]
  {
    hide Text, Le32, Filled, WithHeader;
    HeaderByte(b, len, m, i);
    if len > 8 {
      FilledAt(WithHeader(b, len, m), len, Text(m), i);
    } else {
      FilledNothing(WithHeader(b, len, m), len, Text(m));
    }
  }

  lemma FilledNothing(b: seq<char>, len: nat, text: string)
    requires len <= |b| && len <= 8
    ensures Filled(b, len, text) == b
  {
  }

  lemma HeaderByte(b: seq<char>, len: nat, m: Message, i: nat)
    requires len <= |b| && i < |b|
    ensures WithHeader(b, len, m)[i] ==
      if i < 4 && len >= 4 then Le32(m.code)[i] else if 4 <= i < 8 && len >= 8 then Le32(m.id)[i - 4] else b[i]
  {
    hide Le32;
  }
}
