/** The one-line sha256sum record kept in .config-hash. */
module HashRecord {
  import opened Basics
  import opened GuardTypes

  const CONFIG_NAME := "openclaw.json"
  const CONFIG_PATH := "/sandbox/.openclaw/openclaw.json"

  function AsciiByte(c: char): Octet {
    if c < 128 as char then c as int as Octet else 0
  }

  /** Encodes text; the guard only ever encodes ASCII. */
  function Ascii(s: string): (b: Bytes)
    ensures |b| == |s|
  {
    seq(|s|, i requires 0 <= i < |s| => AsciiByte(s[i]))
  }

  /** bytes.decode("ascii"): fails on any byte above 127. */
  function DecodeAscii(b: Bytes): Option<string> {
    if forall i :: 0 <= i < |b| ==> b[i] < 128
    then Some(seq(|b|, i requires 0 <= i < |b| && b[i] < 128 => b[i] as char))
    else None
  }

  predicate IsAscii(s: string) {
    forall i :: 0 <= i < |s| ==> s[i] < 128 as char
  }

  lemma DecodeAsciiInvertsAscii(s: string)
    requires IsAscii(s)
    ensures DecodeAscii(Ascii(s)) == Some(s)
  {
    assert forall i :: 0 <= i < |s| ==> Ascii(s)[i] < 128;
    assert DecodeAscii(Ascii(s)).value == s;
  }

  predicate IsHex(c: char) {
    IsLowerHex(c) || 'A' <= c <= 'F'
  }

  function LowerHex(c: char): char {
    if 'A' <= c <= 'F' then (c as int + 32) as char else c
  }

  /** The fields of a well-formed record: digest, marker, path. */
  datatype Line = Line(digest: string, marker: char, path: string)

  /** Full match of 64 hex digits, a space, a space or star, a path without line
      breaks, and at most one trailing newline. */
  function ParseLine(text: string): Option<Line> {
    if |text| < 67 || text[64] != ' ' || (text[65] != ' ' && text[65] != '*')
       || exists i :: 0 <= i < 64 && !IsHex(text[i]) then None
    else
      var path := if text[|text| - 1] == '\n' then text[66..|text| - 1] else text[66..];
      if path == "" || '\n' in path || '\r' in path then None
      else Some(Line(text[..64], text[65], path))
  }

  function Lowered(s: string): (t: string)
    ensures |t| == |s|
  {
    seq(|s|, i requires 0 <= i < |s| => LowerHex(s[i]))
  }

  /** Whether the hash file's bytes are one canonical record for these config bytes. */
  predicate Matches(facts: Facts, config: Bytes, hash: Bytes) {
    var text := DecodeAscii(hash);
    text.Some? &&
    var line := ParseLine(text.value);
    line.Some?
    && (line.value.path == CONFIG_NAME || line.value.path == CONFIG_PATH)
    && Lowered(line.value.digest) == facts.sha256(config)
  }

  /** The record the guard writes: digest, two spaces, name, newline. */
  function RecordFor(digest: Digest): Bytes {
    Ascii(digest + "  openclaw.json\n")
  }

  /** Every record the guard writes is accepted by its own parser for exactly the
      config bytes whose digest it holds. */
  lemma RecordForMatches(facts: Facts, config: Bytes, digest: Digest)
    ensures Matches(facts, config, RecordFor(digest)) <==> facts.sha256(config) == digest
    ensures |RecordFor(digest)| <= MAX_HASH_BYTES
  {
    hide ParseLine, DecodeAscii;
    var text := digest + "  openclaw.json\n";
    assert IsAscii(text) by {
      forall i | 0 <= i < |text| ensures text[i] < 128 as char {
        if i < 64 { assert IsLowerHex(digest[i]); }
      }
    }
    DecodeAsciiInvertsAscii(text);
    RecordParses(digest);
    assert Lowered(digest) == digest;
  }

  lemma RecordParses(digest: Digest)
    ensures ParseLine(digest + "  openclaw.json\n") == Some(Line(digest, ' ', CONFIG_NAME))
  {
    var text := digest + "  openclaw.json\n";
    assert text[66..|text| - 1] == CONFIG_NAME;
    assert text[..64] == digest;
    assert forall i :: 0 <= i < 64 ==> text[i] == digest[i];
  }

  // ----- which bytes are a record, without the parser

  function HexValue(c: char): int {
    if '0' <= c <= '9' then c as int - '0' as int
    else if 'a' <= c <= 'f' then c as int - 'a' as int + 10
    else if 'A' <= c <= 'F' then c as int - 'A' as int + 10
    else -1
  }

  /** Two hexadecimal texts name the same number, digit by digit. */
  predicate SameHex(s: string, t: string) {
    |s| == |t| && forall i :: 0 <= i < |s| ==> HexValue(s[i]) >= 0 && HexValue(s[i]) == HexValue(t[i])
  }

  function RecordText(digest: string, marker: char, path: string, newline: string): string {
    digest + ([' ', marker] + path + newline)
  }

  /** The line that sha256sum writes: hexadecimal digest, a space, a marker, one of the two
      spellings of the config's path, and a newline that may be missing. */
  predicate IsRecord(hash: Bytes, digest: string, marker: char, path: string, newline: string) {
    && |digest| == 64 && (forall i :: 0 <= i < 64 ==> HexValue(digest[i]) >= 0)
    && (marker == ' ' || marker == '*')
    && (path == "openclaw.json" || path == "/sandbox/.openclaw/openclaw.json")
    && (newline == "" || newline == "\n")
    && hash == Ascii(RecordText(digest, marker, path, newline))
  }

  lemma LoweredIsSameHex(s: string, digest: Digest)
    requires |s| == 64 && forall i :: 0 <= i < 64 ==> IsHex(s[i])
    ensures Lowered(s) == digest <==> SameHex(s, digest)
  {
    assert forall i :: 0 <= i < 64 ==> IsLowerHex(digest[i]);
    if SameHex(s, digest) {
      forall i | 0 <= i < 64 ensures Lowered(s)[i] == digest[i] {
        assert IsLowerHex(LowerHex(s[i])) && HexValue(LowerHex(s[i])) == HexValue(s[i]);
      }
    }
    if Lowered(s) == digest {
      forall i | 0 <= i < 64 ensures HexValue(s[i]) >= 0 && HexValue(s[i]) == HexValue(digest[i]) {
        assert LowerHex(s[i]) == digest[i];
      }
    }
  }

  lemma RecordIsAscii(digest: string, marker: char, path: string, newline: string)
    requires |digest| == 64 && (forall i :: 0 <= i < 64 ==> HexValue(digest[i]) >= 0)
    requires marker < 128 as char && IsAscii(path) && IsAscii(newline)
    ensures IsAscii(RecordText(digest, marker, path, newline))
  {
    forall i | 0 <= i < 64 ensures digest[i] < 128 as char {
      assert HexValue(digest[i]) >= 0;
    }
  }

  lemma RecordTextParses(digest: string, marker: char, path: string, newline: string)
    requires |digest| == 64 && (forall i :: 0 <= i < 64 ==> HexValue(digest[i]) >= 0)
    requires (marker == ' ' || marker == '*') && (newline == "" || newline == "\n")
    requires path != "" && '\n' !in path && '\r' !in path
    ensures ParseLine(RecordText(digest, marker, path, newline)) == Some(Line(digest, marker, path))
  {
    var text := RecordText(digest, marker, path, newline);
    forall i | 0 <= i < 64 ensures IsHex(text[i]) {
      assert text[i] == digest[i] && HexValue(digest[i]) >= 0;
    }
    assert text[..64] == digest && text[66..] == path + newline;
    if newline == "\n" {
      assert text[66..|text| - 1] == path && text[|text| - 1] == '\n';
    } else {
      assert path + newline == path && text[|text| - 1] == path[|path| - 1];
    }
  }

  /** What a line that parses was made of. */
  lemma ParsedIsRecordText(text: string)
    requires ParseLine(text).Some?
    ensures var line := ParseLine(text).value;
      && |line.digest| == 64 && (forall i :: 0 <= i < 64 ==> IsHex(line.digest[i]))
      && (line.marker == ' ' || line.marker == '*')
      && (text == RecordText(line.digest, line.marker, line.path, "")
          || text == RecordText(line.digest, line.marker, line.path, "\n"))
  {
    var line := ParseLine(text).value;
    assert forall i :: 0 <= i < 64 ==> IsHex(text[i]);
    if text[|text| - 1] == '\n' {
      assert text == RecordText(line.digest, line.marker, line.path, "\n");
    } else {
      assert text == RecordText(line.digest, line.marker, line.path, "");
    }
  }

  lemma AsciiInvertsDecodeAscii(b: Bytes)
    requires DecodeAscii(b).Some?
    ensures Ascii(DecodeAscii(b).value) == b
  {
  }

  lemma HexHasValue(c: char)
    ensures IsHex(c) <==> HexValue(c) >= 0
  {
  }

  /** A hash file is accepted for a config exactly if it is such a line and its digest, in
      either case of letters, is that of the config. */
  lemma MatchesIff(facts: Facts, config: Bytes, hash: Bytes)
    ensures Matches(facts, config, hash) <==>
      exists digest, marker, path, newline ::
        IsRecord(hash, digest, marker, path, newline) && SameHex(digest, facts.sha256(config))
  {
    if Matches(facts, config, hash) {
      AcceptedIsRecord(facts, config, hash);
    }
    if digest, marker, path, newline :|
      IsRecord(hash, digest, marker, path, newline) && SameHex(digest, facts.sha256(config))
    {
      RecordIsAccepted(facts, config, hash, digest, marker, path, newline);
    }
  }

  lemma AcceptedIsRecord(facts: Facts, config: Bytes, hash: Bytes)
    requires Matches(facts, config, hash)
    ensures exists digest, marker, path, newline ::
        IsRecord(hash, digest, marker, path, newline) && SameHex(digest, facts.sha256(config))
  {
    hide ParseLine, RecordText, Ascii, Lowered, SameHex, IsHex, HexValue;
    var text := DecodeAscii(hash).value;
    var line := ParseLine(text).value;
    ParsedIsRecordText(text);
    AsciiInvertsDecodeAscii(hash);
    LoweredIsSameHex(line.digest, facts.sha256(config));
    forall i | 0 <= i < 64 ensures HexValue(line.digest[i]) >= 0 {
      HexHasValue(line.digest[i]);
    }
    var newline := if text == RecordText(line.digest, line.marker, line.path, "") then "" else "\n";
    assert IsRecord(hash, line.digest, line.marker, line.path, newline);
  }

  lemma NewlineIsAscii(newline: string)
    requires newline == "" || newline == "\n"
    ensures IsAscii(newline)
  {
  }

  lemma PathIsPlain(path: string)
    requires path == "openclaw.json" || path == "/sandbox/.openclaw/openclaw.json"
    ensures path != "" && IsAscii(path) && '\n' !in path && '\r' !in path
    ensures path == CONFIG_NAME || path == CONFIG_PATH
  {
  }

  lemma RecordIsAccepted(facts: Facts, config: Bytes, hash: Bytes, digest: string, marker: char, path: string,
                         newline: string)
    requires IsRecord(hash, digest, marker, path, newline) && SameHex(digest, facts.sha256(config))
    ensures Matches(facts, config, hash)
  {
    hide DecodeAscii, ParseLine, RecordText, Ascii, Lowered, SameHex, IsAscii;
    PathIsPlain(path);
    assert IsAscii(newline) by {
      NewlineIsAscii(newline);
    }
    RecordIsAscii(digest, marker, path, newline);
    DecodeAsciiInvertsAscii(RecordText(digest, marker, path, newline));
    RecordTextParses(digest, marker, path, newline);
    forall i | 0 <= i < 64 ensures IsHex(digest[i]) {
      HexHasValue(digest[i]);
    }
    LoweredIsSameHex(digest, facts.sha256(config));
  }

  /** One hash file never vouches for two digests. */
  lemma RecordNamesOneDigest(facts: Facts, a: Bytes, b: Bytes, hash: Bytes)
    requires Matches(facts, a, hash) && Matches(facts, b, hash)
    ensures facts.sha256(a) == facts.sha256(b)
  {
  }
}
