/** Base64 as in section 4 of RFC 4648: three octets become four characters, and the last
    group is padded. */
module Base64 {
  import opened Basics

  type Sextet = x: int | 0 <= x < 64

  const PAD := '='

  function Character(x: Sextet): (c: char)
    ensures c != PAD
  {
    if x < 26 then ('A' as int + x) as char
    else if x < 52 then ('a' as int + (x - 26)) as char
    else if x < 62 then ('0' as int + (x - 52)) as char
    else if x == 62 then '+' else '/'
  }

  function SextetOf(c: char): Option<Sextet> {
    if 'A' <= c <= 'Z' then Some(c as int - 'A' as int)
    else if 'a' <= c <= 'z' then Some(c as int - 'a' as int + 26)
    else if '0' <= c <= '9' then Some(c as int - '0' as int + 52)
    else if c == '+' then Some(62)
    else if c == '/' then Some(63)
    else None
  }

  lemma CharacterOfSextet(x: Sextet)
    ensures SextetOf(Character(x)) == Some(x)
  {
  }

  function EncodeGroup(a: Octet, b: Octet, c: Octet): (g: string)
    ensures |g| == 4
  {
    var a, b, c := a as int, b as int, c as int;
    [Character(a / 4), Character(a % 4 * 16 + b / 16), Character(b % 16 * 4 + c / 64), Character(c % 64)]
  }

  /** The padded groups of one and of two octets. */
  function EncodeOne(a: Octet): (g: string)
    ensures |g| == 4
  {
    EncodeGroup(a, 0, 0)[..2] + [PAD, PAD]
  }

  function EncodeTwo(a: Octet, b: Octet): (g: string)
    ensures |g| == 4
  {
    EncodeGroup(a, b, 0)[..3] + [PAD]
  }

  function Encode(data: Bytes): (s: string)
    ensures |s| == (|data| + 2) / 3 * 4
    decreases |data|
  {
    if |data| == 0 then ""
    else if |data| == 1 then EncodeOne(data[0])
    else if |data| == 2 then EncodeTwo(data[0], data[1])
    else EncodeGroup(data[0], data[1], data[2]) + Encode(data[3..])
  }

  function Byte(x: int): Octet
    requires 0 <= x < 256
  {
    x as Octet
  }

  /** The octets of four characters; only the last group may be padded. */
  function DecodeGroup(s: string, last: bool): Option<Bytes>
    requires |s| == 4
  {
    var p :- SextetOf(s[0]);
    var q :- SextetOf(s[1]);
    var first := Byte(p * 4 + q / 16);
    if last && s[2] == PAD && s[3] == PAD then Some([first])
    else
      var r :- SextetOf(s[2]);
      var second := Byte(q % 16 * 16 + r / 4);
      if last && s[3] == PAD then Some([first, second])
      else
        var t :- SextetOf(s[3]);
        Some([first, second, Byte(r % 4 * 64 + t)])
  }

  /** Strict decoding: any other character or a ragged length is an error. */
  function Decode(s: string): Option<Bytes>
    decreases |s|
  {
    if |s| == 0 then Some([])
    else if |s| < 4 then None
    else
      var group :- DecodeGroup(s[..4], |s| == 4);
      var rest :- Decode(s[4..]);
      Some(group + rest)
  }

  lemma Regroup(a: int, b: int, c: int)
    requires 0 <= a < 256 && 0 <= b < 256 && 0 <= c < 256
    ensures a / 4 * 4 + (a % 4 * 16 + b / 16) / 16 == a
    ensures (a % 4 * 16 + b / 16) % 16 * 16 + (b % 16 * 4 + c / 64) / 4 == b
    ensures (b % 16 * 4 + c / 64) % 4 * 64 + c % 64 == c
  {
    assert (a % 4 * 16 + b / 16) / 16 == a % 4 && (a % 4 * 16 + b / 16) % 16 == b / 16;
    assert (b % 16 * 4 + c / 64) / 4 == b % 16 && (b % 16 * 4 + c / 64) % 4 == c / 64;
  }

  lemma SextetsDecode(g: string, p: Sextet, q: Sextet, r: Sextet, t: Sextet, last: bool)
    requires |g| == 4 && SextetOf(g[0]) == Some(p) && SextetOf(g[1]) == Some(q)
    requires SextetOf(g[2]) == Some(r) && SextetOf(g[3]) == Some(t)
    ensures DecodeGroup(g, last) == Some([Byte(p * 4 + q / 16), Byte(q % 16 * 16 + r / 4), Byte(r % 4 * 64 + t)])
  {
    assert g[2] != PAD && g[3] != PAD;
  }

  lemma GroupRoundTrip(a: Octet, b: Octet, c: Octet, last: bool)
    ensures DecodeGroup(EncodeGroup(a, b, c), last) == Some([a, b, c])
  {
    var x, y, z := a as int, b as int, c as int;
    var p, q, r, t := x / 4, x % 4 * 16 + y / 16, y % 16 * 4 + z / 64, z % 64;
    CharacterOfSextet(p);
    CharacterOfSextet(q);
    CharacterOfSextet(r);
    CharacterOfSextet(t);
    SextetsDecode(EncodeGroup(a, b, c), p, q, r, t, last);
    Regroup(x, y, z);
  }

  lemma PaddedGroupsRoundTrip(a: Octet, b: Octet)
    ensures DecodeGroup(EncodeOne(a), true) == Some([a])
    ensures DecodeGroup(EncodeTwo(a, b), true) == Some([a, b])
  {
    CharacterOfSextet(a as int / 4);
    CharacterOfSextet(a as int % 4 * 16);
    CharacterOfSextet(a as int % 4 * 16 + b as int / 16);
    CharacterOfSextet(b as int % 16 * 4);
  }

  /** Decoding works group by group. */
  lemma DecodeStep(g: string, octets: Bytes, s: string, rest: Bytes)
    requires |g| == 4 && DecodeGroup(g, |s| == 0) == Some(octets) && Decode(s) == Some(rest)
    ensures Decode(g + s) == Some(octets + rest)
  {
    assert (g + s)[..4] == g && (g + s)[4..] == s;
  }

  /** The last group stands alone. */
  lemma LastGroup(g: string, octets: Bytes)
    requires |g| == 4 && DecodeGroup(g, true) == Some(octets)
    ensures Decode(g) == Some(octets)
  {
    hide DecodeGroup;
    assert g[..4] == g && g[4..] == "" && octets + [] == octets;
  }

  lemma OneRoundTrip(a: Octet)
    ensures Decode(Encode([a])) == Some([a])
  {
    hide EncodeOne, EncodeTwo, EncodeGroup, DecodeGroup;
    PaddedGroupsRoundTrip(a, 0);
    LastGroup(EncodeOne(a), [a]);
  }

  lemma TwoRoundTrip(a: Octet, b: Octet)
    ensures Decode(Encode([a, b])) == Some([a, b])
  {
    hide EncodeOne, EncodeTwo, EncodeGroup, DecodeGroup;
    PaddedGroupsRoundTrip(a, b);
    LastGroup(EncodeTwo(a, b), [a, b]);
  }

  /** Decoding inverts encoding on every byte string. */
  lemma {:induction false} RoundTrip(data: Bytes)
    ensures Decode(Encode(data)) == Some(data)
    decreases |data|
  {
    hide EncodeOne, EncodeTwo, EncodeGroup, DecodeGroup;
    if |data| == 0 {
    } else if |data| == 1 {
      assert data == [data[0]];
      OneRoundTrip(data[0]);
    } else if |data| == 2 {
      assert data == [data[0], data[1]];
      TwoRoundTrip(data[0], data[1]);
    } else {
      var group := EncodeGroup(data[0], data[1], data[2]);
      GroupRoundTrip(data[0], data[1], data[2], |Encode(data[3..])| == 0);
      RoundTrip(data[3..]);
      DecodeStep(group, [data[0], data[1], data[2]], Encode(data[3..]), data[3..]);
      assert data == [data[0], data[1], data[2]] + data[3..];
    }
  }

  /** The alphabet of the standard, by ASCII code. */
  lemma Alphabet(x: Sextet)
    ensures Character(x) as int
            == if x <= 25 then 65 + x else if x <= 51 then 71 + x else if x <= 61 then x - 4
               else if x == 62 then 43 else 47
  {
  }

  /** A group of four characters spells the 24 bits of three octets, most significant first; a
      padded group those of one or two octets, filled up with zeros. */
  lemma GroupSpells(a: Octet, b: Octet, c: Octet, p: Sextet, q: Sextet, r: Sextet, s: Sextet)
    requires a as int * 65536 + b as int * 256 + c as int == p * 262144 + q * 4096 + r * 64 + s
    ensures EncodeGroup(a, b, c) == [Character(p), Character(q), Character(r), Character(s)]
    ensures b == 0 && c == 0 ==> EncodeOne(a) == [Character(p), Character(q), '=', '=']
    ensures c == 0 ==> EncodeTwo(a, b) == [Character(p), Character(q), Character(r), '=']
  {
    var x, y, z := a as int, b as int, c as int;
    assert x / 4 == p;
    assert x % 4 * 16 + y / 16 == q;
    assert y % 16 * 4 + z / 64 == r;
    assert z % 64 == s;
  }

  predicate InAlphabet(c: char) {
    65 <= c as int <= 90 || 97 <= c as int <= 122 || 48 <= c as int <= 57 || c == '+' || c == '/'
  }

  /** Whatever decodes is whole groups of the alphabet, with padding at the very end at most,
      and holds three octets a group, less one for each character of padding. */
  lemma {:induction false} DecodedIsStrict(s: string)
    requires Decode(s).Some?
    ensures |s| % 4 == 0
    ensures forall i :: 0 <= i < |s| ==> InAlphabet(s[i]) || (s[i] == '=' && i >= |s| - 2)
    ensures s != "" ==>
      |Decode(s).value| == |s| / 4 * 3 - (if s[|s| - 2] == '=' then 2 else if s[|s| - 1] == '=' then 1 else 0)
    decreases |s|
  {
    if s != "" {
      GroupIsStrict(s[..4], |s| == 4);
      DecodedIsStrict(s[4..]);
      forall i | 0 <= i < |s| ensures InAlphabet(s[i]) || (s[i] == '=' && i >= |s| - 2) {
        assert s[i] == if i < 4 then s[..4][i] else s[4..][i - 4];
      }
    }
  }

  lemma GroupIsStrict(g: string, last: bool)
    requires |g| == 4 && DecodeGroup(g, last).Some?
    ensures InAlphabet(g[0]) && InAlphabet(g[1])
    ensures InAlphabet(g[2]) || (last && g[2] == '=' && g[3] == '=')
    ensures InAlphabet(g[3]) || (last && g[3] == '=')
    ensures |DecodeGroup(g, last).value| == 3 - (if g[2] == '=' then 2 else if g[3] == '=' then 1 else 0)
  {
  }
}
