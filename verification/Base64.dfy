/** Base64, streaming and at once: encoding/src/base64.c. */
module Base64 {

  import opened Arithmetic
  import opened Wrappers

  type Byte = bv8

  function EncodeSingle(c: int): char
    requires 0 <= c < 64
  {
    if c < 26 then (c + 'A' as int) as char
    else if c < 52 then (c - 26 + 'a' as int) as char
    else if c < 62 then (c - 52 + '0' as int) as char
    else if c == 62 then '+' else '/'
  }

  function DecodeSingle(c: char): int {
    if 'A' <= c <= 'Z' then c as int - 'A' as int
    else if 'a' <= c <= 'z' then c as int + 26 - 'a' as int
    else if '0' <= c <= '9' then c as int + 52 - '0' as int
    else if c == '+' then 62
    else if c == '/' then 63
    else if c == '=' then 64
    else -1
  }

  /** Decoding a character inverts encoding it; only the 64 characters and the pad decode at all. */
  lemma SingleInverse(c: int, ch: char)
    ensures 0 <= c < 64 ==> DecodeSingle(EncodeSingle(c)) == c && EncodeSingle(c) != '='
    ensures var v := DecodeSingle(ch); -1 <= v <= 64 && (0 <= v < 64 ==> EncodeSingle(v) == ch) && (v == 64 <==> ch == '=')
  {}

  const CAPITALS: string := "ABCDEFGHIJKLMNOPQRSTUVWXYZ"

  const SMALL: string := "abcdefghijklmnopqrstuvwxyz"

  const DIGITS: string := "0123456789"

  /** The 64 characters in the order of section 4 of RFC 4648. */
  const ALPHABET: string := CAPITALS + SMALL + DIGITS + "+/"

  lemma Sizes()
    ensures |CAPITALS| == |SMALL| == 26 && |DIGITS| == 10 && |ALPHABET| == 64
  {}

  lemma CapitalAt(c: int)
    requires 0 <= c < 26
    ensures |CAPITALS| == 26 && EncodeSingle(c) == CAPITALS[c]
  {}

  lemma SmallAt(c: int)
    requires 26 <= c < 52
    ensures |SMALL| == 26 && EncodeSingle(c) == SMALL[c - 26]
  {}

  lemma DigitAt(c: int)
    requires 52 <= c < 62
    ensures |DIGITS| == 10 && EncodeSingle(c) == DIGITS[c - 52]
  {}

  lemma AlphabetIs(c: int)
    requires 0 <= c < 64
    ensures |ALPHABET| == 64 && EncodeSingle(c) == ALPHABET[c]
  {
    Sizes();
    if c < 26 {
      CapitalAt(c);
    } else if c < 52 {
      SmallAt(c);
    } else if c < 62 {
      DigitAt(c);
    }
  }

  // ---------- The encoding of whole sequences ----------

  function Sextet0(b0: Byte): (r: int)
    ensures 0 <= r < 64
  {
    (b0 >> 2) as int
  }

  function Sextet1(b0: Byte, b1: Byte): (r: int)
    ensures 0 <= r < 64
  {
    (((b0 & 3) << 4) | (b1 >> 4)) as int
  }

  function Sextet2(b1: Byte, b2: Byte): (r: int)
    ensures 0 <= r < 64
  {
    (((b1 & 15) << 2) | (b2 >> 6)) as int
  }

  function Sextet3(b2: Byte): (r: int)
    ensures 0 <= r < 64
  {
    (b2 & 63) as int
  }

  lemma High2(b: Byte)
    ensures 4 * (b >> 2) as int + (b & 3) as int == b as int
  {}

  lemma High4(b: Byte)
    ensures 16 * (b >> 4) as int + (b & 15) as int == b as int
  {}

  lemma High6(b: Byte)
    ensures 64 * (b >> 6) as int + (b & 63) as int == b as int
  {}

  lemma Middle1(b0: Byte, b1: Byte)
    ensures Sextet1(b0, b1) == 16 * (b0 & 3) as int + (b1 >> 4) as int
  {}

  lemma Middle2(b1: Byte, b2: Byte)
    ensures Sextet2(b1, b2) == 4 * (b1 & 15) as int + (b2 >> 6) as int
  {}

  /** Three bytes in two parts each, and the sextets made of them. */
  lemma Parts(b0: Byte, b1: Byte, b2: Byte) returns (h0: int, l0: int, h1: int, l1: int, h2: int, l2: int)
    ensures b0 as int == 4 * h0 + l0 && b1 as int == 16 * h1 + l1 && b2 as int == 64 * h2 + l2
    ensures Sextet0(b0) == h0 && Sextet1(b0, b1) == 16 * l0 + h1 && Sextet2(b1, b2) == 4 * l1 + h2 && Sextet3(b2) == l2
  {
    hide Sextet1, Sextet2;
    High2(b0);
    High4(b1);
    High6(b2);
    Middle1(b0, b1);
    Middle2(b1, b2);
    h0, l0, h1, l1, h2, l2 := (b0 >> 2) as int, (b0 & 3) as int, (b1 >> 4) as int, (b1 & 15) as int, (b2 >> 6) as int, (b2 & 63) as int;
  }

  /** The four sextets are the 24-bit group of section 4 of RFC 4648, six bits at a time. */
  lemma GroupValue(b0: Byte, b1: Byte, b2: Byte)
    ensures 262144 * Sextet0(b0) + 4096 * Sextet1(b0, b1) + 64 * Sextet2(b1, b2) + Sextet3(b2)
         == 65536 * (b0 as int) + 256 * (b1 as int) + b2 as int
  {
    hide Sextet0, Sextet1, Sextet2, Sextet3;
    var h0, l0, h1, l1, h2, l2 := Parts(b0, b1, b2);
  }

  function Group(b0: Byte, b1: Byte, b2: Byte): (r: string)
    ensures |r| == 4
  {
    [EncodeSingle(Sextet0(b0)), EncodeSingle(Sextet1(b0, b1)), EncodeSingle(Sextet2(b1, b2)), EncodeSingle(Sextet3(b2))]
  }

  /** The last group, of one or two bytes, padded. */
  function Padded(s: seq<Byte>): (r: string)
    requires 1 <= |s| <= 2
    ensures |r| == 4
  {
    if |s| == 1 then [EncodeSingle(Sextet0(s[0])), EncodeSingle(Sextet1(s[0], 0)), '=', '=']
    else [EncodeSingle(Sextet0(s[0])), EncodeSingle(Sextet1(s[0], s[1])), EncodeSingle(Sextet2(s[1], 0)), '=']
  }

  /** Groups that `n` bytes take, the last one padded. */
  function Quads(n: nat): nat {
    (n + 2) / 3
  }

  lemma QuadsOf(k: nat, m: nat)
    requires m < 3
    ensures Quads(3 * k + m) == k + if m > 0 then 1 else 0
  {}

  function Encode(s: seq<Byte>): (r: string)
    ensures |r| == 4 * Quads(|s|)
  {
    if s == [] then ""
    else if |s| < 3 then Padded(s)
    else Group(s[0], s[1], s[2]) + Encode(s[3..])
  }

  lemma EncodeStep(s: seq<Byte>)
    ensures |s| >= 3 ==> Encode(s) == Group(s[0], s[1], s[2]) + Encode(s[3..])
    ensures 1 <= |s| <= 2 ==> Encode(s) == Padded(s)
    ensures s == [] ==> Encode(s) == ""
  {
    hide Group, Padded;
  }

  lemma Associate<T>(a: seq<T>, b: seq<T>, c: seq<T>)
    ensures a + (b + c) == a + b + c
  {}

  lemma FirstGroup(s: seq<Byte>, t: seq<Byte>)
    requires |s| >= 3
    ensures (s + t)[3..] == s[3..] + t && (s + t)[0] == s[0] && (s + t)[1] == s[1] && (s + t)[2] == s[2]
  {}

  lemma {:induction false} EncodeConcat(s: seq<Byte>, t: seq<Byte>)
    requires |s| % 3 == 0
    ensures Encode(s + t) == Encode(s) + Encode(t)
  {
    hide Encode, Group, Quads;
    EncodeStep(s);
    if s == [] {
      assert s + t == t && "" + Encode(t) == Encode(t);
    } else {
      EncodeConcat(s[3..], t);
      EncodeStep(s + t);
      FirstGroup(s, t);
      Associate(Group(s[0], s[1], s[2]), Encode(s[3..]), Encode(t));
    }
  }

  // ---------- The encoding as the standard states it ----------

  /** Byte `j` of the input, zero bits beyond its end. */
  function ByteAt(s: seq<Byte>, j: nat): int {
    if j < |s| then s[j] as int else 0
  }

  /** The 24 bits of group `i`. */
  function Bits24(s: seq<Byte>, i: nat): (v: int)
    ensures 0 <= v < 0x100_0000
  {
    65536 * ByteAt(s, 3 * i) + 256 * ByteAt(s, 3 * i + 1) + ByteAt(s, 3 * i + 2)
  }

  /** The four characters of a group: six bits each, and a pad where no byte contributes. */
  predicate Spells(g: string, v: int, bytes: nat)
    requires 0 <= v < 0x100_0000
  {
    && |g| == 4
    && g[0] == ALPHABET[v / 262144] && g[1] == ALPHABET[v / 4096 % 64]
    && g[2] == (if bytes >= 2 then ALPHABET[v / 64 % 64] else '=')
    && g[3] == (if bytes >= 3 then ALPHABET[v % 64] else '=')
  }

  lemma SixBits(v: int, a: int, b: int, c: int, d: int)
    requires v == 262144 * a + 4096 * b + 64 * c + d && 0 <= a < 64 && 0 <= b < 64 && 0 <= c < 64 && 0 <= d < 64
    ensures 0 <= v < 0x100_0000
    ensures v / 262144 == a && v / 4096 % 64 == b && v / 64 % 64 == c && v % 64 == d
  {
    assert v / 64 == 4096 * a + 64 * b + c;
    assert v / 4096 == 64 * a + b;
  }

  function Chars(a: int, b: int, c: int, d: int, bytes: nat): string
    requires 0 <= a < 64 && 0 <= b < 64 && 0 <= c < 64 && 0 <= d < 64
  {
    [EncodeSingle(a), EncodeSingle(b), if bytes >= 2 then EncodeSingle(c) else '=', if bytes >= 3 then EncodeSingle(d) else '=']
  }

  lemma CharsSpell(v: int, a: int, b: int, c: int, d: int, bytes: nat)
    requires v == 262144 * a + 4096 * b + 64 * c + d && 0 <= a < 64 && 0 <= b < 64 && 0 <= c < 64 && 0 <= d < 64
    ensures 0 <= v < 0x100_0000 && Spells(Chars(a, b, c, d, bytes), v, bytes)
  {
    hide EncodeSingle;
    SixBits(v, a, b, c, d);
    AlphabetIs(a);
    AlphabetIs(b);
    AlphabetIs(c);
    AlphabetIs(d);
  }

  lemma GroupSpells(b0: Byte, b1: Byte, b2: Byte, bytes: nat)
    ensures var v := 65536 * (b0 as int) + 256 * (b1 as int) + b2 as int;
            && 0 <= v < 0x100_0000
            && Spells(Chars(Sextet0(b0), Sextet1(b0, b1), Sextet2(b1, b2), Sextet3(b2), bytes), v, bytes)
  {
    hide *;
    GroupValue(b0, b1, b2);
    var v := 65536 * (b0 as int) + 256 * (b1 as int) + b2 as int;
    CharsSpell(v, Sextet0(b0), Sextet1(b0, b1), Sextet2(b1, b2), Sextet3(b2), bytes);
  }

  lemma FirstSpells(s: seq<Byte>)
    requires s != []
    ensures |Encode(s)| >= 4 && Spells(Encode(s)[..4], Bits24(s, 0), |s|)
  {
    hide Spells, Encode, EncodeSingle, Sextet0, Sextet1, Sextet2, Sextet3;
    EncodeStep(s);
    var b1, b2 := if |s| >= 2 then s[1] else 0, if |s| >= 3 then s[2] else 0;
    GroupSpells(s[0], b1, b2, |s|);
    assert Encode(s)[..4] == Chars(Sextet0(s[0]), Sextet1(s[0], b1), Sextet2(b1, b2), Sextet3(b2), |s|);
  }

  /** Section 4 of RFC 4648: every three bytes, or what is left of them, become four characters, six bits each, and
      where there is no byte a pad; the bits beyond the last byte are zero. */
  lemma {:induction false} EncodeSpells(s: seq<Byte>, i: nat)
    requires 3 * i < |s|
    ensures |Encode(s)| == 4 * ((|s| + 2) / 3) && 4 * i + 4 <= |Encode(s)|
    ensures Spells(Encode(s)[4 * i..4 * i + 4], Bits24(s, i), |s| - 3 * i)
    decreases i
  {
    hide Spells, Encode;
    EncodeStep(s);
    if i == 0 {
      FirstSpells(s);
    } else {
      EncodeSpells(s[3..], i - 1);
      var g := Group(s[0], s[1], s[2]);
      assert (g + Encode(s[3..]))[4 * i..4 * i + 4] == Encode(s[3..])[4 * (i - 1)..4 * (i - 1) + 4];
      assert Bits24(s, i) == Bits24(s[3..], i - 1);
    }
  }

  // ---------- Chunks ----------

  /** The bytes that fill whole groups. */
  function Whole(s: seq<Byte>): seq<Byte> {
    s[..|s| / 3 * 3]
  }

  function Rest(s: seq<Byte>): (r: seq<Byte>)
    ensures |r| == |s| % 3
  {
    s[|s| / 3 * 3..]
  }

  lemma WholeAndRest(s: seq<Byte>)
    ensures Whole(s) + Rest(s) == s && |Whole(s)| % 3 == 0
  {}

  function Flat(chunks: seq<seq<Byte>>): seq<Byte> {
    if chunks == [] then [] else chunks[0] + Flat(chunks[1..])
  }

  /** What update after update writes from a state with `pending` bytes, then the final call. */
  function Streamed(pending: seq<Byte>, chunks: seq<seq<Byte>>): string
    decreases |chunks|
  {
    if chunks == [] then Encode(pending)
    else Encode(Whole(pending + chunks[0])) + Streamed(Rest(pending + chunks[0]), chunks[1..])
  }

  /** The output does not depend on how the input was cut into chunks. */
  lemma {:induction false} ChunksDoNotMatter(pending: seq<Byte>, chunks: seq<seq<Byte>>)
    ensures Streamed(pending, chunks) == Encode(pending + Flat(chunks))
    decreases |chunks|
  {
    hide Encode, Whole, Rest;
    if chunks == [] {
      assert pending + Flat(chunks) == pending;
    } else {
      var all := pending + chunks[0];
      ChunksDoNotMatter(Rest(all), chunks[1..]);
      WholeAndRest(all);
      EncodeConcat(Whole(all), Rest(all) + Flat(chunks[1..]));
      var later := Flat(chunks[1..]);
      assert Whole(all) + (Rest(all) + later) == (Whole(all) + Rest(all)) + later == pending + (chunks[0] + later);
    }
  }

  // ---------- Decoding ----------

  function Byte0(a: int, b: int): Byte
    requires 0 <= a <= 64 && 0 <= b <= 64
  {
    ((a as bv8) << 2) | ((b as bv8) >> 4)
  }

  function Byte1(b: int, c: int): Byte
    requires 0 <= b <= 64 && 0 <= c <= 64
  {
    ((b as bv8) << 4) | ((c as bv8) >> 2)
  }

  function Byte2(c: int, d: int): Byte
    requires 0 <= c <= 64 && 0 <= d <= 64
  {
    ((c as bv8) << 6) | (d as bv8)
  }

  /** A group that decodes: two characters of the alphabet, then two that may be pads. */
  predicate GroupValid(s: string)
    requires |s| == 4
  {
    0 <= DecodeSingle(s[0]) < 64 && 0 <= DecodeSingle(s[1]) < 64 && DecodeSingle(s[2]) >= 0 && DecodeSingle(s[3]) >= 0
  }

  function GroupBytes(s: string): (r: seq<Byte>)
    requires |s| == 4 && GroupValid(s)
    ensures 1 <= |r| <= 3
  {
    var a, b, c, d := DecodeSingle(s[0]), DecodeSingle(s[1]), DecodeSingle(s[2]), DecodeSingle(s[3]);
    [Byte0(a, b)] + (if s[2] == '=' then [] else [Byte1(b, c)] + if s[3] == '=' then [] else [Byte2(c, d)])
  }

  function Prepended(done: seq<Byte>, rest: Option<seq<Byte>>): Option<seq<Byte>> {
    match rest
    case None => None
    case Some(r) => Some(done + r)
  }

  /** Decoding of the whole groups of `s`; characters past the last whole group are ignored. */
  function Decode(s: string): Option<seq<Byte>> {
    if |s| < 4 then Some([])
    else if !GroupValid(s[..4]) then None
    else Prepended(GroupBytes(s[..4]), Decode(s[4..]))
  }

  /** The result fits three quarters of the text. */
  lemma {:induction false} DecodeBound(s: string)
    ensures Decode(s).Some? ==> |Decode(s).value| <= |s| / 4 * 3
  {
    hide GroupValid, GroupBytes;
    if |s| >= 4 {
      DecodeBound(s[4..]);
      assert |s| / 4 == |s[4..]| / 4 + 1;
    }
  }

  /** Only the characters of the alphabet have a value, and it is their place in it. */
  lemma LetterValue(ch: char)
    ensures |ALPHABET| == 64 && (0 <= DecodeSingle(ch) < 64 <==> ch in ALPHABET)
    ensures ch in ALPHABET ==> ALPHABET[DecodeSingle(ch)] == ch
    ensures DecodeSingle(ch) == 64 <==> ch == '='
    ensures DecodeSingle(ch) <= 64
  {
    Sizes();
    SingleInverse(0, ch);
    var v := DecodeSingle(ch);
    hide EncodeSingle, DecodeSingle;
    if 0 <= v < 64 {
      AlphabetIs(v);
    }
    if ch in ALPHABET {
      var c :| 0 <= c < |ALPHABET| && ALPHABET[c] == ch;
      AlphabetIs(c);
      SingleInverse(c, ch);
    }
  }

  /** Two characters of the alphabet, then two that may be pads. */
  predicate WellFormed(g: string) {
    |g| == 4 && g[0] in ALPHABET && g[1] in ALPHABET && g[2] in ALPHABET + "=" && g[3] in ALPHABET + "="
  }

  lemma ValidIsWellFormed(g: string)
    requires |g| == 4
    ensures GroupValid(g) <==> WellFormed(g)
  {
    hide DecodeSingle;
    LetterValue(g[0]);
    LetterValue(g[1]);
    LetterValue(g[2]);
    LetterValue(g[3]);
  }

  ghost predicate AllWellFormed(s: string) {
    forall i :: 0 <= i < |s| / 4 ==> WellFormed(s[4 * i..4 * i + 4])
  }

  lemma FourBehind(s: string, at: nat)
    requires at + 8 <= |s|
    ensures s[4..][at..at + 4] == s[at + 4..at + 8]
  {}

  lemma GroupOfRest(s: string, i: nat)
    requires 4 * i + 8 <= |s|
    ensures s[4..][4 * i..4 * i + 4] == s[4 * (i + 1)..4 * (i + 1) + 4]
  {
    FourBehind(s, 4 * i);
  }

  lemma AllWellFormedStep(s: string)
    requires |s| >= 4
    ensures AllWellFormed(s) <==> WellFormed(s[..4]) && AllWellFormed(s[4..])
  {
    hide WellFormed;
    var rest := s[4..];
    assert |rest| / 4 == |s| / 4 - 1;
    assert s[4 * 0..4 * 0 + 4] == s[..4];
    forall i | 0 <= i < |rest| / 4
      ensures rest[4 * i..4 * i + 4] == s[4 * (i + 1)..4 * (i + 1) + 4]
    {
      GroupOfRest(s, i);
    }
    if AllWellFormed(s) {
      assert WellFormed(s[4 * 0..4 * 0 + 4]);
      forall i | 0 <= i < |rest| / 4
        ensures WellFormed(rest[4 * i..4 * i + 4])
      {
        assert WellFormed(s[4 * (i + 1)..4 * (i + 1) + 4]);
      }
    }
    if WellFormed(s[..4]) && AllWellFormed(rest) {
      forall i | 0 <= i < |s| / 4
        ensures WellFormed(s[4 * i..4 * i + 4])
      {
        if i > 0 {
          GroupOfRest(s, i - 1);
          assert WellFormed(rest[4 * (i - 1)..4 * (i - 1) + 4]);
        }
      }
    }
  }

  /** A text decodes if and only if all its whole groups are well formed; up to three more characters are ignored. */
  lemma {:induction false} DecodesWellFormed(s: string)
    ensures Decode(s).Some? <==> AllWellFormed(s)
  {
    hide GroupValid, GroupBytes, WellFormed;
    if |s| >= 4 {
      DecodesWellFormed(s[4..]);
      ValidIsWellFormed(s[..4]);
      AllWellFormedStep(s);
    }
  }

  lemma Below(b: Byte)
    ensures 0 <= (b & 15) as int < 16 && 0 <= (b & 3) as int < 4
  {}

  lemma Split(b: Byte)
    ensures (b & 15) as int == b as int % 16 && (b >> 4) as int == b as int / 16
    ensures (b & 3) as int == b as int % 4 && (b >> 2) as int == b as int / 4
  {
    Below(b);
    High4(b);
    High2(b);
  }

  lemma ToBits(x: int)
    requires 0 <= x < 64
    ensures (x as bv8) as int == x
  {
    if x < 16 {
    } else if x < 32 {
    } else if x < 48 {
    }
  }

  lemma AsByte(x: int) returns (p: Byte)
    requires 0 <= x < 64
    ensures p as int == x && x as bv8 == p
  {
    ToBits(x);
    p := x as bv8;
  }

  lemma FewBits(p: Byte)
    requires p as int < 64
    ensures p < 64
  {}

  lemma Join0(p: Byte, q: Byte)
    requires p < 64 && q < 64
    ensures ((p << 2) | (q >> 4)) as int == 4 * (p as int) + (q >> 4) as int
  {}

  lemma Join1(p: Byte, q: Byte)
    requires p < 64 && q < 64
    ensures ((p << 4) | (q >> 2)) as int == 16 * (p & 15) as int + (q >> 2) as int
  {}

  lemma Join2(p: Byte, q: Byte)
    requires p < 64 && q < 64
    ensures ((p << 6) | q) as int == 64 * (p & 3) as int + q as int
  {}

  lemma Joined(p: Byte, q: Byte, x: int, y: int)
    requires p < 64 && q < 64 && p as int == x && q as int == y
    ensures ((p << 2) | (q >> 4)) as int == 4 * x + y / 16
    ensures ((p << 4) | (q >> 2)) as int == x % 16 * 16 + y / 4
    ensures ((p << 6) | q) as int == x % 4 * 64 + y
  {
    Join0(p, q);
    Join1(p, q);
    Join2(p, q);
    Split(p);
    Split(q);
  }

  lemma BytesJoined(x: int, y: int, p: Byte, q: Byte)
    requires 0 <= x <= 64 && 0 <= y <= 64 && x as bv8 == p && y as bv8 == q
    ensures Byte0(x, y) == (p << 2) | (q >> 4)
    ensures Byte1(x, y) == (p << 4) | (q >> 2)
    ensures Byte2(x, y) == (p << 6) | q
  {}

  lemma ByteValues(x: int, y: int)
    requires 0 <= x < 64 && 0 <= y < 64
    ensures Byte0(x, y) as int == 4 * x + y / 16
    ensures Byte1(x, y) as int == x % 16 * 16 + y / 4
    ensures Byte2(x, y) as int == x % 4 * 64 + y
  {
    hide *;
    var p := AsByte(x);
    var q := AsByte(y);
    FewBits(p);
    FewBits(q);
    BytesJoined(x, y, p, q);
    Joined(p, q, x, y);
  }

  lemma EightBits(v: int, a: int, b: int, c: int, d: int)
    requires v == 262144 * a + 4096 * b + 64 * c + d && 0 <= a < 64 && 0 <= b < 64 && 0 <= c < 64 && 0 <= d < 64
    ensures v / 65536 == 4 * a + b / 16
    ensures v / 256 % 256 == b % 16 * 16 + c / 4
    ensures v % 256 == c % 4 * 64 + d
  {
    var b0, b1, b2 := 4 * a + b / 16, b % 16 * 16 + c / 4, c % 4 * 64 + d;
    assert v == 65536 * b0 + (256 * b1 + b2) == 256 * (256 * b0 + b1) + b2;
    DivModIs(v, 65536, b0, 256 * b1 + b2);
    DivModIs(v, 256, 256 * b0 + b1, b2);
    DivModIs(256 * b0 + b1, 256, b0, b1);
  }

  lemma EightBitsOf(v: int, a: int, b: int, c: int, d: int)
    requires 0 <= a < 64 && 0 <= b < 64 && 0 <= c <= 64 && 0 <= d <= 64
    requires v == 262144 * a + 4096 * b + 64 * (c % 64) + d % 64
    ensures v / 65536 == 4 * a + b / 16
    ensures c < 64 ==> v / 256 % 256 == b % 16 * 16 + c / 4
    ensures c < 64 && d < 64 ==> v % 256 == c % 4 * 64 + d
  {
    EightBits(v, a, b, c % 64, d % 64);
  }

  lemma GroupShape(g: string)
    requires |g| == 4 && GroupValid(g)
    ensures var a, b, c, d := DecodeSingle(g[0]), DecodeSingle(g[1]), DecodeSingle(g[2]), DecodeSingle(g[3]);
            var r := GroupBytes(g);
            && 0 <= a < 64 && 0 <= b < 64 && 0 <= c <= 64 && 0 <= d <= 64
            && (c == 64 <==> g[2] == '=') && (d == 64 <==> g[3] == '=')
            && |r| == (if c == 64 then 1 else if d == 64 then 2 else 3)
            && r[0] == Byte0(a, b)
            && (|r| >= 2 ==> r[1] == Byte1(b, c)) && (|r| == 3 ==> r[2] == Byte2(c, d))
  {
    hide DecodeSingle, Byte0, Byte1, Byte2;
    LetterValue(g[2]);
    LetterValue(g[3]);
  }

  lemma GroupValues(g: string)
    requires |g| == 4 && GroupValid(g)
    ensures var a, b, c, d := DecodeSingle(g[0]), DecodeSingle(g[1]), DecodeSingle(g[2]), DecodeSingle(g[3]);
            var r := GroupBytes(g);
            && ByteAt(r, 0) == 4 * a + b / 16
            && (|r| >= 2 ==> ByteAt(r, 1) == b % 16 * 16 + c / 4) && (|r| == 3 ==> ByteAt(r, 2) == c % 4 * 64 + d)
  {
    hide DecodeSingle, GroupValid, GroupBytes, Byte0, Byte1, Byte2;
    GroupShape(g);
    var a, b, c, d := DecodeSingle(g[0]), DecodeSingle(g[1]), DecodeSingle(g[2]), DecodeSingle(g[3]);
    ByteValues(a, b);
    if c < 64 {
      ByteValues(b, c);
      if d < 64 {
        ByteValues(c, d);
      }
    }
  }

  /** The bytes of a group are the bits of its characters, eight at a time; a pad ends them. */
  lemma GroupBytesAre(g: string)
    requires |g| == 4 && GroupValid(g)
    ensures var a, b, c, d := DecodeSingle(g[0]), DecodeSingle(g[1]), DecodeSingle(g[2]) % 64, DecodeSingle(g[3]) % 64;
            var v, r := 262144 * a + 4096 * b + 64 * c + d, GroupBytes(g);
            && |r| == (if g[2] == '=' then 1 else if g[3] == '=' then 2 else 3)
            && ByteAt(r, 0) == v / 65536
            && (|r| >= 2 ==> ByteAt(r, 1) == v / 256 % 256)
            && (|r| == 3 ==> ByteAt(r, 2) == v % 256)
  {
    hide *;
    GroupShape(g);
    GroupValues(g);
    var a, b, c, d := DecodeSingle(g[0]), DecodeSingle(g[1]), DecodeSingle(g[2]), DecodeSingle(g[3]);
    EightBitsOf(262144 * a + 4096 * b + 64 * (c % 64) + d % 64, a, b, c, d);
  }

  lemma PrependedTwice(first: seq<Byte>, second: seq<Byte>, rest: Option<seq<Byte>>)
    ensures Prepended(first, Prepended(second, rest)) == Prepended(first + second, rest)
  {
    if rest.Some? {
      assert first + (second + rest.value) == (first + second) + rest.value;
    }
  }

  /** The first `i` characters decode to `done`. */
  ghost predicate Decoded(s: string, i: nat, done: seq<Byte>) {
    i <= |s| && i % 4 == 0 && |done| <= i / 4 * 3 && Decode(s) == Prepended(done, Decode(s[i..]))
  }

  lemma DecodedStart(s: string)
    ensures Decoded(s, 0, [])
  {
    assert s[0..] == s;
    if Decode(s).Some? {
      assert [] + Decode(s).value == Decode(s).value;
    }
  }

  lemma DecodedStep(s: string, i: nat, done: seq<Byte>)
    requires Decoded(s, i, done) && i + 4 <= |s|
    ensures var g := s[i..i + 4];
            if GroupValid(g) then Decoded(s, i + 4, done + GroupBytes(g)) else Decode(s).None?
  {
    hide GroupValid, GroupBytes;
    var g := s[i..i + 4];
    assert s[i..][..4] == g && s[i..][4..] == s[i + 4..];
    if GroupValid(g) {
      PrependedTwice(done, GroupBytes(g), Decode(s[i + 4..]));
    }
  }

  lemma SameQuarter(i: nat, n: nat)
    requires i % 4 == 0 && i <= n < i + 4
    ensures i / 4 == n / 4
  {}

  lemma DecodedEnd(s: string, i: nat, done: seq<Byte>)
    requires Decoded(s, i, done) && |s| < i + 4
    ensures Decode(s) == Some(done) && |done| <= |s| / 4 * 3
  {
    assert done + [] == done;
    SameQuarter(i, |s|);
    hide GroupValid, GroupBytes;
  }

  lemma ThereAndBack(b: Byte)
    ensures (b as int) as bv8 == b
  {}

  lemma SextetBits(b0: Byte, b1: Byte, b2: Byte)
    ensures ((b0 >> 2) << 2) | ((((b0 & 3) << 4) | (b1 >> 4)) >> 4) == b0
    ensures ((((b0 & 3) << 4) | (b1 >> 4)) << 4) | ((((b1 & 15) << 2) | (b2 >> 6)) >> 2) == b1
    ensures ((((b1 & 15) << 2) | (b2 >> 6)) << 6) | (b2 & 63) == b2
  {}

  lemma GroupInverse(b0: Byte, b1: Byte, b2: Byte)
    ensures Byte0(Sextet0(b0), Sextet1(b0, b1)) == b0
    ensures Byte1(Sextet1(b0, b1), Sextet2(b1, b2)) == b1
    ensures Byte2(Sextet2(b1, b2), Sextet3(b2)) == b2
  {
    ThereAndBack(b0 >> 2);
    ThereAndBack(((b0 & 3) << 4) | (b1 >> 4));
    ThereAndBack(((b1 & 15) << 2) | (b2 >> 6));
    ThereAndBack(b2 & 63);
    SextetBits(b0, b1, b2);
  }

  lemma WholeInverse(b0: Byte, b1: Byte, b2: Byte)
    ensures var g := Group(b0, b1, b2); GroupValid(g) && GroupBytes(g) == [b0, b1, b2]
  {
    SingleInverse(Sextet0(b0), '=');
    SingleInverse(Sextet1(b0, b1), '=');
    SingleInverse(Sextet2(b1, b2), '=');
    SingleInverse(Sextet3(b2), '=');
    GroupInverse(b0, b1, b2);
    hide EncodeSingle, DecodeSingle, Byte0, Byte1, Byte2, Sextet0, Sextet1, Sextet2, Sextet3;
  }

  lemma PaddedInverse(s: seq<Byte>)
    requires 1 <= |s| <= 2
    ensures GroupValid(Padded(s)) && GroupBytes(Padded(s)) == s
  {
    var b1 := if |s| == 2 then s[1] else 0;
    SingleInverse(Sextet0(s[0]), '=');
    SingleInverse(Sextet1(s[0], b1), '=');
    SingleInverse(Sextet2(b1, 0), '=');
    GroupInverse(s[0], b1, 0);
    hide EncodeSingle, DecodeSingle, Byte0, Byte1, Byte2, Sextet0, Sextet1, Sextet2, Sextet3;
  }

  /** Decoding gives back what was encoded, of any length. */
  lemma {:induction false} DecodeInvertsEncode(s: seq<Byte>)
    ensures Decode(Encode(s)) == Some(s)
  {
    hide GroupValid, GroupBytes, Group, Padded;
    if s == [] {
    } else if |s| < 3 {
      PaddedInverse(s);
      var e := Encode(s);
      assert e == Padded(s) && e[..4] == e && e[4..] == "";
      assert Decode(e[4..]) == Some([]);
      assert s + [] == s;
    } else {
      WholeInverse(s[0], s[1], s[2]);
      DecodeInvertsEncode(s[3..]);
      var g := Group(s[0], s[1], s[2]);
      assert Encode(s)[..4] == g && Encode(s)[4..] == Encode(s[3..]);
      assert [s[0], s[1], s[2]] + s[3..] == s;
    }
  }

  // ---------- The encoder object ----------

  /** `out` with `text` written over it from position `at` on. */
  function Written(out: string, at: nat, text: string): (r: string)
    requires at + |text| <= |out|
    ensures |r| == |out|
  {
    out[..at] + text + out[at + |text|..]
  }

  lemma WrittenTwice(out: string, at: nat, first: string, second: string)
    requires at + |first| + |second| <= |out|
    ensures Written(Written(out, at, first), at + |first|, second) == Written(out, at, first + second)
  {}

  lemma WrittenNothing(out: string, at: nat)
    requires at <= |out|
    ensures Written(out, at, "") == out
  {}

  lemma Terminate(out: string, at: nat, text: string)
    requires at + |text| < |out|
    ensures Written(out, at, text)[at + |text| := '\0'] == Written(out, at, text + ['\0'])
  {}

  lemma EncodePending(p: seq<Byte>)
    ensures |p| == 0 ==> Encode(p) == ""
    ensures 1 <= |p| <= 2 ==> Encode(p) == Padded(p)
    ensures 1 <= |p| <= 3 ==> |Encode(p)| == 4
  {
    EncodeStep(p);
    hide Encode, Padded;
  }

  /** Groups written by an update that has `all` to encode and `room` characters to write to. */
  function Groups(all: seq<Byte>, room: nat): (r: nat)
    ensures 3 * r <= |all| && 4 * r <= room
  {
    if room / 4 < |all| / 3 then room / 4 else |all| / 3
  }

  /** An update has taken in the first `taken` bytes and written `k` groups; the rest is pending. */
  ghost predicate Progress(all: seq<Byte>, taken: nat, k: nat, pending: seq<Byte>, now: string, was: string, at: nat) {
    && 3 * k <= taken <= |all| && pending == all[3 * k..taken]
    && at + 4 * k <= |was| && now == Written(was, at, Encode(all[..3 * k]))
  }

  lemma StartStep(all: seq<Byte>, taken: nat, was: string, at: nat)
    requires taken <= |all| && at <= |was|
    ensures Progress(all, taken, 0, all[..taken], was, was, at)
  {}

  lemma TakeStep(all: seq<Byte>, taken: nat, k: nat, pending: seq<Byte>, now: string, was: string, at: nat)
    requires Progress(all, taken, k, pending, now, was, at) && taken < |all|
    ensures Progress(all, taken + 1, k, pending + [all[taken]], now, was, at)
  {}

  lemma GroupAppended(all: seq<Byte>, k: nat)
    requires 3 * k + 3 <= |all|
    ensures Encode(all[..3 * (k + 1)]) == Encode(all[..3 * k]) + Encode(all[3 * k..3 * k + 3])
    ensures |Encode(all[..3 * k])| == 4 * k && |Encode(all[3 * k..3 * k + 3])| == 4
  {
    hide Encode, Quads;
    QuadsOf(k, 0);
    QuadsOf(1, 0);
    EncodeConcat(all[..3 * k], all[3 * k..3 * k + 3]);
    assert all[..3 * k] + all[3 * k..3 * k + 3] == all[..3 * (k + 1)];
  }

  lemma FlushStep(all: seq<Byte>, taken: nat, k: nat, pending: seq<Byte>, now: string, was: string, at: nat)
    requires Progress(all, taken, k, pending, now, was, at) && |pending| == 3 && at + 4 * k + 4 <= |was|
    ensures |now| == |was| && Progress(all, taken, k + 1, [], Written(now, at + 4 * k, Encode(pending)), was, at)
  {
    hide Encode, Written, Quads;
    GroupAppended(all, k);
    WrittenTwice(was, at, Encode(all[..3 * k]), Encode(pending));
  }

  /** What an update ends with, either way. */
  ghost predicate Updated(all: seq<Byte>, room: nat, pending: seq<Byte>, written: nat, now: string, was: string, at: nat) {
    var k := Groups(all, room);
    && at + 4 * k <= |was| && now == Written(was, at, Encode(all[..3 * k]))
    && (k == |all| / 3 ==> written == 4 * k && pending == Rest(all))
    && (k < |all| / 3 ==> written == 0 && pending == all[3 * k..3 * k + 3])
  }

  lemma StuckStep(all: seq<Byte>, taken: nat, k: nat, pending: seq<Byte>, now: string, was: string, at: nat, room: nat)
    requires Progress(all, taken, k, pending, now, was, at) && |pending| == 3 && 4 * k <= room < 4 * k + 4
    ensures Updated(all, room, pending, 0, now, was, at)
  {
    hide Encode, Quads, Written;
    QuadsOf(k, 0);
    assert Groups(all, room) == k < |all| / 3;
  }

  lemma DoneStep(all: seq<Byte>, k: nat, pending: seq<Byte>, now: string, was: string, at: nat, room: nat)
    requires Progress(all, |all|, k, pending, now, was, at) && |pending| < 3 && 4 * k <= room
    ensures Updated(all, room, pending, 4 * k, now, was, at)
  {
    hide Encode, Quads, Written;
    QuadsOf(k, 0);
    assert Groups(all, room) == k == |all| / 3;
  }

  lemma UpdateRoom(data: seq<Byte>, room: nat, pending: seq<Byte>, n: nat, now: string, was: string)
    requires |Encode(data)| < room && Updated(data, room - 1, pending, n, now, was, 0)
    ensures pending == Rest(data) && n == |Encode(Whole(data))| && now == Written(was, 0, Encode(Whole(data)))
    ensures n + |Encode(pending)| == |Encode(data)|
  {
    hide Encode, Quads, Written;
    QuadsOf(|data| / 3, 0);
    QuadsOf(|data| / 3, |data| % 3);
    QuadsOf(0, |data| % 3);
    assert Groups(data, room - 1) == |data| / 3;
  }

  /** An update with room for all of `data` and a final call together write its encoding. */
  lemma UpdateThenFinal(was: string, data: seq<Byte>)
    requires |Encode(data)| < |was|
    ensures |Encode(Whole(data))| + |Encode(Rest(data))| == |Encode(data)|
    ensures var first, last := Encode(Whole(data)), Encode(Rest(data)) + ['\0'];
            Written(Written(was[0 := '\0'], 0, first), |first|, last) == Written(was, 0, Encode(data) + ['\0'])
  {
    hide Encode, Quads, Whole, Rest;
    WholeAndRest(data);
    EncodeConcat(Whole(data), Rest(data));
    var first, last := Encode(Whole(data)), Encode(Rest(data)) + ['\0'];
    WrittenTwice(was[0 := '\0'], 0, first, last);
    assert first + last == Encode(data) + ['\0'];
    assert Written(was[0 := '\0'], 0, first + last) == Written(was, 0, first + last);
  }

  lemma FullGroup(a: Byte, b: Byte, c: Byte)
    ensures Encode([a, b, c]) == Group(a, b, c)
  {
    EncodeStep([a, b, c]);
    assert [a, b, c][3..] == [];
  }

  /** The four stores of a group. */
  method PutFour(out: array<char>, at: nat, a: char, b: char, c: char, d: char)
    requires at + 4 <= out.Length
    modifies out
    ensures out[..] == Written(old(out[..]), at, [a, b, c, d])
  {
    out[at], out[at + 1], out[at + 2], out[at + 3] := a, b, c, d;
  }

  class Encoder {
    const bytes: array<Byte>
    var count: nat

    ghost predicate Valid()
      reads this
    {
      bytes.Length == 3 && count <= 3
    }

    ghost function Pending(): seq<Byte>
      requires Valid()
      reads this, bytes
    {
      bytes[..count]
    }

    constructor ()
      ensures Valid() && fresh(bytes) && Pending() == []
    {
      bytes := new Byte[3](_ => 0);
      count := 0;
    }

    /** The stores of a full group; they occur at three places of the source. */
    method Flush(out: array<char>, at: nat)
      requires Valid() && count == 3 && at + 4 <= out.Length
      modifies this, out
      ensures Valid() && Pending() == []
      ensures out[..] == Written(old(out[..]), at, Encode(old(Pending())))
    {
      hide EncodeSingle, Sextet0, Sextet1, Sextet2, Sextet3, Encode, Written;
      var b1, b2, b3 := bytes[0], bytes[1], bytes[2];
      ghost var p := Pending();
      FullGroup(b1, b2, b3);
      assert p == [b1, b2, b3];
      PutFour(out, at, EncodeSingle(Sextet0(b1)), EncodeSingle(Sextet1(b1, b2)), EncodeSingle(Sextet2(b2, b3)),
              EncodeSingle(Sextet3(b3)));
      count := 0;
    }

    method Take(b: Byte)
      requires Valid() && count < 3
      modifies this, bytes
      ensures Valid() && Pending() == old(Pending()) + [b]
    {
      bytes[count] := b;
      count := count + 1;
    }

    /** Empties a full group if there is room for it; the source gives up otherwise. */
    method Emit(out: array<char>, at: nat, written: nat, outMax: nat,
                ghost all: seq<Byte>, ghost taken: nat, ghost k: nat, ghost was: string) returns (ok: bool)
      requires Valid() && count == 3 && at + outMax <= out.Length && written == 4 * k <= outMax
      requires Progress(all, taken, k, Pending(), out[..], was, at) && |was| == out.Length
      modifies this, out
      ensures Valid()
      ensures ok ==> written + 4 <= outMax && count == 0 && Progress(all, taken, k + 1, Pending(), out[..], was, at)
      ensures !ok ==> Updated(all, outMax, Pending(), 0, out[..], was, at)
    {
      hide Progress, Updated, Encode, Written, Groups, Rest, Whole, Quads;
      ghost var p, o := Pending(), out[..];
      if written + 4 > outMax {
        StuckStep(all, taken, k, p, o, was, at, outMax);
        return false;
      }
      FlushStep(all, taken, k, p, o, was, at);
      Flush(out, at + written);
      QuadsOf(1, 0);
      assert Pending() == [] && out[..] == Written(o, at + 4 * k, Encode(p));
      ok := true;
    }

    /** The loop body of an update: one more byte, and the group it may complete. */
    method TakeIn(b: Byte, out: array<char>, at: nat, written: nat, outMax: nat,
                  ghost all: seq<Byte>, ghost taken: nat, ghost k: nat, ghost was: string)
      returns (ok: bool, newly: nat)
      requires Valid() && count < 3 && at + outMax <= out.Length && written == 4 * k <= outMax && |was| == out.Length
      requires (out as object) != bytes
      requires Progress(all, taken, k, Pending(), out[..], was, at) && taken < |all| && all[taken] == b
      modifies this, bytes, out
      ensures Valid() && (newly == 0 || newly == 4)
      ensures ok ==> count < 3 && written + newly <= outMax && Progress(all, taken + 1, k + newly / 4, Pending(), out[..], was, at)
      ensures !ok ==> Updated(all, outMax, Pending(), 0, out[..], was, at)
    {
      hide Progress, Updated, Encode, Written, Groups, Rest, Whole, Quads;
      TakeStep(all, taken, k, Pending(), out[..], was, at);
      ghost var o := out[..];
      Take(b);
      assert out[..] == o;
      if count < 3 {
        return true, 0;
      }
      ok := Emit(out, at, written, outMax, all, taken + 1, k, was);
      newly := if ok then 4 else 0;
    }

    /** Writes every whole group of the pending bytes and the input, as far as the room goes. */
    method Update(input: seq<Byte>, out: array<char>, at: nat, outMax: nat) returns (written: nat)
      requires Valid() && at + outMax <= out.Length
      requires (out as object) != bytes // the output lies outside the encoder
      modifies this, bytes, out
      ensures Valid()
      ensures Updated(old(Pending()) + input, outMax, Pending(), written, out[..], old(out[..]), at)
    {
      hide Progress, Updated, Encode, Written, Groups, Rest, Whole, Quads;
      ghost var all, was, k, held := Pending() + input, out[..], 0, count;
      assert all[..held] == Pending() && all[held..] == input;
      StartStep(all, held, was, at);
      written := 0;
      if count == 3 {
        var ok := Emit(out, at, written, outMax, all, held, k, was);
        if !ok {
          return 0;
        }
        written, k := written + 4, 1;
      }
      var i := 0;
      while i < |input|
        invariant 0 <= i <= |input| && Valid() && count < 3 && written == 4 * k <= outMax
        invariant Progress(all, held + i, k, Pending(), out[..], was, at)
      {
        assert input[i] == all[held..][i];
        var ok, newly := TakeIn(input[i], out, at, written, outMax, all, held + i, k, was);
        if !ok {
          return 0;
        }
        written, k := written + newly, k + newly / 4;
        i := i + 1;
      }
      DoneStep(all, k, Pending(), out[..], was, at, outMax);
    }

    /** The last group, of one byte or two. */
    method PutPadded(out: array<char>, at: nat)
      requires Valid() && 1 <= count <= 2 && at + 4 <= out.Length
      modifies out
      ensures out[..] == Written(old(out[..]), at, Padded(Pending()))
    {
      hide EncodeSingle, Sextet0, Sextet1, Sextet2, Sextet3, Written;
      var b1 := bytes[0];
      if count == 1 {
        PutFour(out, at, EncodeSingle(Sextet0(b1)), EncodeSingle(Sextet1(b1, 0)), '=', '=');
      } else {
        var b2 := bytes[1];
        PutFour(out, at, EncodeSingle(Sextet0(b1)), EncodeSingle(Sextet1(b1, b2)), EncodeSingle(Sextet2(b2, 0)), '=');
      }
    }

    /** Writes what is still pending, padded, and a terminator. */
    method Final(out: array<char>, at: nat, outMax: nat) returns (written: nat)
      requires Valid() && at + outMax <= out.Length && (out as object) != bytes
      modifies this, out
      ensures Valid()
      ensures var last := Encode(old(Pending())) + ['\0'];
              if |last| <= outMax then
                written == |last| - 1 && Pending() == [] && out[..] == Written(old(out[..]), at, last)
              else
                written == 0 && Pending() == old(Pending()) && out[..] == old(out[..])
    {
      hide Encode, Padded, Quads, Written;
      ghost var p, was := Pending(), out[..];
      EncodePending(p);
      WrittenNothing(was, at);
      written := 0;
      if count > 0 {
        if outMax < 5 {
          return 0;
        }
        if count == 3 {
          Flush(out, at);
        } else {
          PutPadded(out, at);
        }
        written := 4;
        count := 0;
      } else if outMax < 1 {
        return 0;
      }
      Terminate(was, at, Encode(p));
      ghost var o := out[..];
      out[at + written] := '\0';
      assert out[..] == o[at + written := '\0'];
    }
  }

  lemma RoomTest(data: seq<Byte>)
    ensures (|data| / 3 + if |data| % 3 != 0 then 1 else 0) * 4 == |Encode(data)|
  {
    hide Encode, Quads;
    QuadsOf(|data| / 3, |data| % 3);
  }

  lemma NothingPending(data: seq<Byte>)
    ensures [] + data == data
  {}

  /** The encoding and its terminator, or nothing but the terminator when the room is too small. */
  method EncodeAll(data: seq<Byte>, out: array<char>, outMax: nat) returns (written: nat)
    requires outMax <= out.Length
    modifies out
    ensures var whole := Encode(data) + ['\0'];
            if |whole| <= outMax then written == |whole| - 1 && out[..] == Written(old(out[..]), 0, whole)
            else written == 0 && out[..] == if outMax > 0 then Written(old(out[..]), 0, ['\0']) else old(out[..])
  {
    ghost var was := out[..];
    RoomTest(data);
    if outMax > 0 {
      out[0] := '\0';
      assert out[..] == was[0 := '\0'] == Written(was, 0, ['\0']);
    }
    if outMax < (|data| / 3 + if |data| % 3 != 0 then 1 else 0) * 4 + 1 {
      return 0;
    }
    hide *;
    var encoder := new Encoder();
    NothingPending(data);
    var n := encoder.Update(data, out, 0, outMax - 1);
    UpdateRoom(data, outMax, encoder.Pending(), n, out[..], was[0 := '\0']);
    UpdateThenFinal(was, data);
    var m := encoder.Final(out, n, outMax - n);
    written := n + m;
  }

  // ---------- A run over chunks ----------

  lemma {:induction false} FlatSnoc(chunks: seq<seq<Byte>>, i: nat)
    requires i < |chunks|
    ensures Flat(chunks[..i + 1]) == Flat(chunks[..i]) + chunks[i]
    decreases i
  {
    if i == 0 {
      assert chunks[..1] == [chunks[0]] && chunks[..1][1..] == [];
    } else {
      assert chunks[..i + 1][1..] == chunks[1..][..i] && chunks[..i][1..] == chunks[1..][..i - 1];
      FlatSnoc(chunks[1..], i - 1);
      assert chunks[0] + (Flat(chunks[1..][..i - 1]) + chunks[i]) == chunks[0] + Flat(chunks[1..][..i - 1]) + chunks[i];
    }
  }

  lemma {:induction false} FlatPrefix(chunks: seq<seq<Byte>>, i: nat)
    requires i <= |chunks|
    ensures Flat(chunks[..i]) <= Flat(chunks)
    decreases |chunks| - i
  {
    if i == |chunks| {
      assert chunks[..i] == chunks;
    } else {
      FlatSnoc(chunks, i);
      FlatPrefix(chunks, i + 1);
    }
  }

  /** The groups of `done` and then those of its rest and `more` are the groups of both. */
  lemma WholeStep(done: seq<Byte>, more: seq<Byte>)
    ensures var all := Rest(done) + more;
            && Whole(done + more) == Whole(done) + Whole(all) && Rest(done + more) == Rest(all)
            && |Whole(done)| % 3 == 0 && |Whole(done)| <= |Whole(done + more)|
  {
    var q, all := |done| / 3 * 3, Rest(done) + more;
    assert |done + more| == q + |all| && |done + more| / 3 * 3 == q + |all| / 3 * 3;
    assert done + more == done[..q] + all;
  }

  /** Where a run stands after `done` bytes: every whole group written, the rest pending. */
  ghost predicate Streaming(done: seq<Byte>, pending: seq<Byte>, written: nat, now: string, was: string) {
    && written == |Encode(Whole(done))| <= |was|
    && pending == Rest(done) && now == Written(was, 0, Encode(Whole(done)))
  }

  lemma StreamStart(was: string)
    ensures Streaming([], [], 0, was, was)
  {}

  lemma WholeIs(s: seq<Byte>)
    ensures Whole(s) == s[..3 * (|s| / 3)] && |Encode(Whole(s))| == 4 * (|s| / 3)
  {
    QuadsOf(|s| / 3, 0);
    hide Encode, Quads;
  }

  lemma RoomForGroups(done: seq<Byte>, more: seq<Byte>, room: nat)
    requires |Encode(done + more)| <= room
    ensures var all := Rest(done) + more;
            && |Encode(Whole(done))| <= room && Groups(all, room - |Encode(Whole(done))|) == |all| / 3
            && |Encode(Whole(done))| + 4 * (|all| / 3) <= room
  {
    hide Encode, Quads, Whole;
    var all := Rest(done) + more;
    WholeIs(done);
    QuadsOf(|done + more| / 3, |done + more| % 3);
    assert |done + more| / 3 == |done| / 3 + |all| / 3;
  }

  lemma StreamStep(done: seq<Byte>, more: seq<Byte>, pending: seq<Byte>, pending': seq<Byte>, written: nat, n: nat,
                   room: nat, before: string, now: string, was: string)
    requires Streaming(done, pending, written, before, was) && |Encode(done + more)| <= room <= |was|
    requires Updated(pending + more, room - written, pending', n, now, before, written)
    ensures Streaming(done + more, pending', written + n, now, was) && written + n <= room
  {
    hide Encode, Quads, Written, Whole, Rest, Groups;
    var all := pending + more;
    WholeStep(done, more);
    EncodeConcat(Whole(done), Whole(all));
    RoomForGroups(done, more, room);
    WholeIs(all);
    WrittenTwice(was, 0, Encode(Whole(done)), Encode(Whole(all)));
  }

  lemma StreamEnd(data: seq<Byte>, pending: seq<Byte>, written: nat, now: string, was: string)
    requires Streaming(data, pending, written, now, was) && |Encode(data)| < |was|
    ensures written + |Encode(pending)| == |Encode(data)| && |now| == |was|
    ensures Written(now, written, Encode(pending) + ['\0']) == Written(was, 0, Encode(data) + ['\0'])
  {
    hide Encode, Quads, Whole, Rest, Written;
    WholeAndRest(data);
    EncodeConcat(Whole(data), Rest(data));
    var first, last := Encode(Whole(data)), Encode(Rest(data)) + ['\0'];
    WrittenTwice(was, 0, first, last);
    assert first + last == Encode(data) + ['\0'];
  }

  lemma FlatNone(chunks: seq<seq<Byte>>)
    ensures Flat(chunks[..0]) == []
  {}

  lemma EncodeGrows(s: seq<Byte>, t: seq<Byte>)
    requires s <= t
    ensures |Encode(s)| <= |Encode(t)|
  {
    hide Encode;
  }

  /**
   * The encoder fed chunk by chunk into one buffer, each call behind what the last one wrote: with room for the whole,
   * the buffer ends up with the encoding of all chunks together.
   */
  method EncodeChunks(chunks: seq<seq<Byte>>, out: array<char>, outMax: nat) returns (written: nat)
    requires outMax <= out.Length && |Encode(Flat(chunks))| < outMax
    modifies out
    ensures written == |Encode(Flat(chunks))|
    ensures out[..] == Written(old(out[..]), 0, Encode(Flat(chunks)) + ['\0'])
  {
    hide Encode, Quads, Written, Streaming, Updated, Whole, Rest, Groups, Flat;
    ghost var was, done := out[..], [];
    StreamStart(was);
    FlatNone(chunks);
    var encoder := new Encoder();
    written := 0;
    var i := 0;
    while i < |chunks|
      invariant 0 <= i <= |chunks| && encoder.Valid() && fresh(encoder) && fresh(encoder.bytes) && written <= outMax
      invariant done == Flat(chunks[..i]) && Streaming(done, encoder.Pending(), written, out[..], was)
    {
      FlatSnoc(chunks, i);
      FlatPrefix(chunks, i + 1);
      EncodeGrows(done + chunks[i], Flat(chunks));
      ghost var pending, before := encoder.Pending(), out[..];
      var n := encoder.Update(chunks[i], out, written, outMax - written);
      StreamStep(done, chunks[i], pending, encoder.Pending(), written, n, outMax, before, out[..], was);
      written := written + n;
      done := done + chunks[i];
      i := i + 1;
    }
    assert chunks[..i] == chunks;
    StreamEnd(done, encoder.Pending(), written, out[..], was);
    var m := encoder.Final(out, written, outMax - written);
    written := written + m;
  }

  /** One group; 0 if it is malformed. */
  method DecodeGroup(s: string, out: array<Byte>, at: nat) returns (n: nat)
    requires |s| == 4 && at + 3 <= out.Length
    modifies out
    ensures n == 0 <==> !GroupValid(s)
    ensures GroupValid(s) ==> n == |GroupBytes(s)| && out[..] == old(out[..at]) + GroupBytes(s) + old(out[at + n..])
    ensures !GroupValid(s) ==> out[..] == old(out[..])
  {
    var a, b, c, d := DecodeSingle(s[0]), DecodeSingle(s[1]), DecodeSingle(s[2]), DecodeSingle(s[3]);
    SingleInverse(0, s[0]);
    SingleInverse(0, s[1]);
    SingleInverse(0, s[2]);
    SingleInverse(0, s[3]);
    hide DecodeSingle, EncodeSingle, Byte0, Byte1, Byte2;
    if a == 64 || a < 0 || b == 64 || b < 0 || c < 0 || d < 0 {
      return 0;
    }
    out[at] := Byte0(a, b);
    n := 1;
    if s[2] != '=' {
      out[at + 1] := Byte1(b, c);
      n := 2;
      if s[3] != '=' {
        out[at + 2] := Byte2(c, d);
        n := 3;
      }
    }
  }

  /** The decoded bytes and their number, with a terminator after them; 0 if a group is malformed or the room too small. */
  method DecodeAll(data: string, out: array<Byte>, outMax: nat) returns (len: nat)
    requires outMax <= out.Length
    modifies out
    ensures if |data| / 4 * 3 + 1 <= outMax && Decode(data).Some? then
              && len == |Decode(data).value| < outMax
              && out[..len] == Decode(data).value && out[len] == 0 && out[len + 1..] == old(out[len + 1..])
            else
              len == 0 && out[outMax..] == old(out[outMax..])
    ensures outMax < |data| / 4 * 3 + 1 ==> out[..] == if outMax > 0 then old(out[..])[0 := 0] else old(out[..])
  {
    hide Decode, Decoded, GroupValid, GroupBytes;
    len := 0;
    if outMax > 0 {
      out[0] := 0;
    }
    if outMax < |data| / 4 * 3 + 1 {
      assert outMax > 0 ==> out[..] == old(out[..])[0 := 0];
      return;
    }
    var i := 0;
    DecodedStart(data);
    assert out[..0] == [];
    while i + 3 < |data|
      invariant 0 <= i <= |data| && i % 4 == 0 && len <= i / 4 * 3 && Decoded(data, i, out[..len])
      invariant forall k :: 0 < k < out.Length && len <= k ==> out[k] == old(out[k])
    {
      DecodedStep(data, i, out[..len]);
      ghost var done := out[..len];
      var n := DecodeGroup(data[i..i + 4], out, len);
      if n == 0 {
        return 0;
      }
      assert out[..len + n] == done + GroupBytes(data[i..i + 4]);
      len := len + n;
      i := i + 4;
    }
    DecodedEnd(data, i, out[..len]);
    ghost var done := out[..len];
    out[len] := 0;
    assert out[..len] == done;
  }
}
