/** What SHA-1 and MD5 share: blocks, the two-word bit counter and the padding. The block transform stays a parameter. */
module Digest {

  import opened Arithmetic

  type Byte = x: int | 0 <= x < 256

  const W: nat := 0x1_0000_0000

  const WW: nat := 0x1_0000_0000_0000_0000

  type Word = x: int | 0 <= x < 0x1_0000_0000

  const BLOCK := 64

  // ---------- Blocks ----------

  function Fold<S>(f: (S, seq<Byte>) -> S, s: S, m: seq<Byte>): S
    requires |m| % BLOCK == 0
  {
    if m == [] then s else Fold(f, f(s, m[..BLOCK]), m[BLOCK..])
  }

  lemma {:induction false} FoldConcat<S>(f: (S, seq<Byte>) -> S, s: S, a: seq<Byte>, b: seq<Byte>)
    requires |a| % BLOCK == 0 && |b| % BLOCK == 0
    ensures Fold(f, s, a + b) == Fold(f, Fold(f, s, a), b)
  {
    if a == [] {
      assert a + b == b;
    } else {
      assert (a + b)[..BLOCK] == a[..BLOCK] && (a + b)[BLOCK..] == a[BLOCK..] + b;
      FoldConcat(f, f(s, a[..BLOCK]), a[BLOCK..], b);
    }
  }

  /** `state` is what the first `pos` bytes of `m`, whole blocks, lead to. */
  ghost predicate Absorbed<S(!new)>(f: (S, seq<Byte>) -> S, iv: S, m: seq<Byte>, pos: nat, state: S) {
    pos % BLOCK == 0 && pos <= |m| && state == Fold(f, iv, m[..pos])
  }

  lemma AbsorbBlock<S(!new)>(f: (S, seq<Byte>) -> S, iv: S, m: seq<Byte>, pos: nat, state: S, block: seq<Byte>)
    requires Absorbed(f, iv, m, pos, state) && pos + BLOCK <= |m| && block == m[pos..pos + BLOCK]
    ensures Absorbed(f, iv, m, pos + BLOCK, f(state, block))
  {
    FoldConcat(f, iv, m[..pos], block);
    assert m[..pos] + block == m[..pos + BLOCK];
    assert block[..BLOCK] == block && block[BLOCK..] == [];
  }

  lemma AbsorbLonger<S(!new)>(f: (S, seq<Byte>) -> S, iv: S, m: seq<Byte>, pos: nat, state: S, more: seq<Byte>)
    requires Absorbed(f, iv, m, pos, state)
    ensures Absorbed(f, iv, m + more, pos, state)
  {
    assert (m + more)[..pos] == m[..pos];
  }

  /** Where the block that is being filled starts. */
  function Start(n: nat): (r: nat)
    ensures r <= n < r + BLOCK && r % BLOCK == 0
  {
    n / BLOCK * BLOCK
  }

  lemma OffsetInBlock(n: nat)
    ensures n % BLOCK == n - Start(n)
  {}

  lemma LastBlock<S(!new)>(f: (S, seq<Byte>) -> S, iv: S, m: seq<Byte>, pos: nat, state: S)
    requires Absorbed(f, iv, m, pos, state) && |m| < pos + BLOCK
    ensures pos == Start(|m|)
  {}

  lemma WholeMessage<S(!new)>(f: (S, seq<Byte>) -> S, iv: S, m: seq<Byte>, state: S)
    requires Absorbed(f, iv, m, Start(|m|), state) && |m| % BLOCK == 0
    ensures state == Fold(f, iv, m)
  {
    assert m[..|m|] == m;
  }

  /** `part` lies in the message from position `from` on. */
  ghost predicate Part(m: seq<Byte>, from: nat, part: seq<Byte>) {
    from + |part| <= |m| && m[from..from + |part|] == part
  }

  lemma PartsOf(a: seq<Byte>, b: seq<Byte>, base: nat)
    requires base <= |a|
    ensures Part(a + b, base, a[base..]) && Part(a + b, |a|, b)
  {}

  lemma NoPart(m: seq<Byte>, from: nat)
    requires from <= |m|
    ensures Part(m, from, [])
  {}

  lemma PartSplit(m: seq<Byte>, from: nat, part: seq<Byte>, cut: nat)
    requires Part(m, from, part) && cut <= |part|
    ensures Part(m, from, part[..cut]) && Part(m, from + cut, part[cut..])
  {}

  lemma PartInside(m: seq<Byte>, from: nat, part: seq<Byte>, lo: nat, hi: nat)
    requires Part(m, from, part) && lo <= hi <= |part|
    ensures from + hi <= |m| && m[from + lo..from + hi] == part[lo..hi]
  {
    PartSplit(m, from, part, hi);
    PartSplit(m, from, part[..hi], lo);
    assert part[..hi][lo..] == part[lo..hi];
  }

  lemma PartJoin(m: seq<Byte>, from: nat, first: seq<Byte>, second: seq<Byte>)
    requires Part(m, from, first) && Part(m, from + |first|, second)
    ensures Part(m, from, first + second)
  {}

  lemma PartIs(m: seq<Byte>, from: nat, part: seq<Byte>)
    requires Part(m, from, part)
    ensures from + |part| <= |m| && m[from..from + |part|] == part
    ensures from + |part| == |m| ==> m[from..] == part
  {}

  // ---------- The bit counter ----------

  /** The counter holds eight times the length, modulo 2^64. */
  ghost predicate Counts(lo: Word, hi: Word, length: nat) {
    hi * W + lo == 8 * length % WW
  }

  /** The low word after `len` more bytes; the first addition of both update functions. */
  function AddLow(lo: Word, len: nat): Word {
    (lo + len % W * 8 % W) % W
  }

  /** The high word: a carry when the low word wrapped, and the bits of the length that do not fit the low word. */
  function AddHigh(lo: Word, hi: Word, len: nat): Word {
    ((if AddLow(lo, len) < lo then (hi + 1) % W else hi) + len / 0x2000_0000 % W) % W
  }

  lemma ModIs(x: nat, q: nat, r: nat)
    requires x == q * W + r && r < W
    ensures x % W == r
  {}

  lemma LowPart(lo: Word, len: nat)
    ensures var d := len % 0x2000_0000 * 8; AddLow(lo, len) == if lo + d < W then lo + d else lo + d - W
  {
    var d := len % 0x2000_0000 * 8;
    var a, b := len % 0x2000_0000, len / 0x2000_0000;
    ModIs(len, b / 8, b % 8 * 0x2000_0000 + a);
    ModIs(len % W * 8, b % 8, d);
  }

  lemma SumMod(a: nat, b: nat)
    ensures (a % W + b % W) % W == (a + b) % W
  {
    var q := a / W + b / W;
    if a % W + b % W < W {
      ModIs(a + b, q, a % W + b % W);
    } else {
      ModIs(a + b, q + 1, a % W + b % W - W);
    }
  }

  lemma HighPart(lo: Word, hi: Word, len: nat, carry: nat)
    requires carry == if lo + len % 0x2000_0000 * 8 < W then 0 else 1
    ensures AddHigh(lo, hi, len) == (hi + carry + len / 0x2000_0000) % W
  {
    LowPart(lo, len);
    hide AddLow;
    SumMod(hi + carry, len / 0x2000_0000);
  }

  /** The new words, without the wrap-around of either. */
  lemma NewWords(lo: Word, hi: Word, len: nat) returns (q: int)
    ensures AddHigh(lo, hi, len) * W + AddLow(lo, len) == hi * W + lo + 8 * len - q * WW
  {
    var d, e := len % 0x2000_0000 * 8, len / 0x2000_0000;
    var carry := if lo + d < W then 0 else 1;
    LowPart(lo, len);
    HighPart(lo, hi, len, carry);
    hide AddLow, AddHigh;
    q := (hi + carry + e) / W;
  }

  lemma CountsAre(lo: Word, hi: Word, length: nat) returns (p: int)
    requires Counts(lo, hi, length)
    ensures hi * W + lo == 8 * length - p * WW
  {
    p := 8 * length / WW;
  }

  lemma CountsIf(lo: Word, hi: Word, length: nat, q: int)
    requires hi * W + lo == 8 * length - q * WW
    ensures Counts(lo, hi, length)
  {}

  lemma CounterAdds(lo: Word, hi: Word, length: nat, len: nat)
    requires Counts(lo, hi, length)
    ensures Counts(AddLow(lo, len), AddHigh(lo, hi, len), length + len)
  {
    hide *;
    var q := NewWords(lo, hi, len);
    var p := CountsAre(lo, hi, length);
    CountsIf(AddLow(lo, len), AddHigh(lo, hi, len), length + len, p + q);
  }

  lemma SameOffset(x: nat, y: nat, blocks: int)
    requires x == y - BLOCK * blocks
    ensures x % BLOCK == y % BLOCK
  {}

  /** The offset both update functions take from the low word is the fill of the current block. */
  lemma CounterOffset(lo: Word, hi: Word, length: nat)
    requires Counts(lo, hi, length)
    ensures lo / 8 % BLOCK == length % BLOCK
  {
    var p := CountsAre(lo, hi, length);
    hide Counts;
    var blocks := p * 0x80_0000_0000_0000 + hi * 0x80_0000;
    assert lo == 8 * (length - BLOCK * blocks);
    SameOffset(lo / 8, length, blocks);
  }

  /** What an update finds: the fill of the buffer from the counter, and where the two parts of the message lie. */
  lemma Opens<S(!new)>(f: (S, seq<Byte>) -> S, iv: S, a: seq<Byte>, b: seq<Byte>, state: S, lo: Word, hi: Word)
    requires Counts(lo, hi, |a|) && Absorbed(f, iv, a, Start(|a|), state)
    ensures lo / 8 % BLOCK == |a| % BLOCK == |a| - Start(|a|)
    ensures Absorbed(f, iv, a + b, Start(|a|), state)
    ensures Part(a + b, Start(|a|), a[Start(|a|)..]) && Part(a + b, |a|, b)
  {
    hide Absorbed, Counts, Start, Part;
    CounterOffset(lo, hi, |a|);
    OffsetInBlock(|a|);
    AbsorbLonger(f, iv, a, Start(|a|), state, b);
    PartsOf(a, b, Start(|a|));
  }

  // ---------- Byte order and padding ----------

  /** The `k`-th most significant byte. */
  function ByteOf(w: Word, k: nat): Byte
    requires k < 4
  {
    if k == 0 then w / 0x100_0000 else if k == 1 then w / 0x1_0000 % 256 else if k == 2 then w / 256 % 256 else w % 256
  }

  function Big(w: Word): (r: seq<Byte>)
    ensures |r| == 4
  {
    [ByteOf(w, 0), ByteOf(w, 1), ByteOf(w, 2), ByteOf(w, 3)]
  }

  function Little(w: Word): (r: seq<Byte>)
    ensures |r| == 4
  {
    [ByteOf(w, 3), ByteOf(w, 2), ByteOf(w, 1), ByteOf(w, 0)]
  }

  function BigValue(s: seq<Byte>): nat {
    if s == [] then 0 else BigValue(s[..|s| - 1]) * 256 + s[|s| - 1]
  }

  function Reversed(s: seq<Byte>): seq<Byte> {
    seq(|s|, k requires 0 <= k < |s| => s[|s| - 1 - k])
  }

  function FourBytes(a: int, b: int, c: int, d: int): int {
    0x100_0000 * a + 0x1_0000 * b + 256 * c + d
  }

  lemma WordValue(w: Word)
    ensures FourBytes(ByteOf(w, 0), ByteOf(w, 1), ByteOf(w, 2), ByteOf(w, 3)) == w
  {
    var a, b := w / 256, w / 256 / 256;
    var c := b / 256;
    DivModIs(w, 0x1_0000, b, 256 * (a % 256) + w % 256);
    DivModIs(w, 0x100_0000, c, 0x1_0000 * (b % 256) + 256 * (a % 256) + w % 256);
  }

  lemma Value4(s: seq<Byte>)
    requires |s| == 4
    ensures BigValue(s) == FourBytes(s[0], s[1], s[2], s[3])
  {
    assert s[..2][..1] == s[..1] && s[..3][..2] == s[..2] && s[..4] == s && s[..1][..0] == [];
    assert BigValue(s[..1]) == s[0];
    assert BigValue(s[..2]) == BigValue(s[..1]) * 256 + s[1];
    assert BigValue(s[..3]) == BigValue(s[..2]) * 256 + s[2];
  }

  lemma Value8(s: seq<Byte>)
    requires |s| == 8
    ensures BigValue(s) == W * FourBytes(s[0], s[1], s[2], s[3]) + FourBytes(s[4], s[5], s[6], s[7])
  {
    Value4(s[..4]);
    assert s[..5][..4] == s[..4] && s[..6][..5] == s[..5] && s[..7][..6] == s[..6] && s[..8] == s;
    assert BigValue(s[..5]) == BigValue(s[..4]) * 256 + s[4];
    assert BigValue(s[..6]) == BigValue(s[..5]) * 256 + s[5];
    assert BigValue(s[..7]) == BigValue(s[..6]) * 256 + s[6];
  }

  /** The two words, high word first, as one 64-bit number; the low word first and reversed is the same number. */
  lemma FieldValue(lo: Word, hi: Word)
    ensures BigValue(Big(hi) + Big(lo)) == hi * W + lo
    ensures Reversed(Little(lo) + Little(hi)) == Big(hi) + Big(lo)
  {
    Value8(Big(hi) + Big(lo));
    WordValue(hi);
    WordValue(lo);
    hide ByteOf, BigValue;
  }

  /** The length field: the number of bits modulo 2^64. */
  function LowBits(length: nat): Word { 8 * length % W }
  function HighBits(length: nat): Word { 8 * length / W % W }

  lemma ModWide(x: nat, q: nat, r: nat)
    requires x == q * WW + r && r < WW
    ensures x % WW == r
  {}

  lemma WordsOf(n: nat)
    ensures n / W % W * W + n % W == n % WW
  {
    var a, b := n / W, n % W;
    assert n == a / W * WW + a % W * W + b;
    var r := a % W * W + b;
    assert r < WW;
    ModWide(n, a / W, r);
  }

  lemma CountsUnique(lo: Word, hi: Word, length: nat)
    ensures Counts(lo, hi, length) <==> lo == LowBits(length) && hi == HighBits(length)
  {
    WordsOf(8 * length);
  }

  function Zeros(n: nat): (r: seq<Byte>)
    ensures |r| == n
  {
    seq(n, _ => 0)
  }

  lemma NoZeros(m: seq<Byte>)
    ensures m + Zeros(0) == m
  {}

  lemma ZerosGrow(m: seq<Byte>, n: nat)
    ensures m + Zeros(n) + [0] == m + Zeros(n + 1)
  {}

  function ZeroCount(length: nat): (z: nat)
    ensures z < BLOCK
  {
    (55 - length) % BLOCK
  }

  lemma FillAfter(length: nat, k: nat)
    requires k <= BLOCK
    ensures var r := length % BLOCK + k; (length + k) % BLOCK == if r < BLOCK then r else r - BLOCK
  {}

  lemma ZeroCountIs(length: nat)
    ensures var r := length % BLOCK; ZeroCount(length) == if r <= 55 then 55 - r else 119 - r
  {}

  /** Eight bytes are left in the block just when the zeros are all there. */
  lemma PaddingTest(lo: Word, hi: Word, length: nat, n: nat)
    requires n <= ZeroCount(length) && Counts(lo, hi, length + 1 + n)
    ensures lo / 8 % BLOCK * 8 == 448 <==> n == ZeroCount(length)
  {
    hide Counts, ZeroCount;
    CounterOffset(lo, hi, length + 1 + n);
    FillAfter(length, 1 + n);
    ZeroCountIs(length);
  }

  /** Section 5.1.1 of FIPS 180-4 and sections 3.1 and 3.2 of RFC 1321, for either form of the length field. */
  function Pad(m: seq<Byte>, field: seq<Byte>): seq<Byte> {
    m + [0x80] + Zeros(ZeroCount(|m|)) + field
  }

  lemma PadParts(m: seq<Byte>, field: seq<Byte>)
    requires |field| == 8
    ensures var p := Pad(m, field);
            && |p| == |m| + 1 + ZeroCount(|m|) + 8 && p[..|m|] == m
            && p[|m|..|p| - 8] == [0x80] + Zeros(ZeroCount(|m|)) && p[|p| - 8..] == field
  {}

  /** Whole blocks, with the least number of zeros that achieves it. */
  lemma PadFills(m: seq<Byte>, field: seq<Byte>, z: nat)
    requires |field| == 8
    ensures |Pad(m, field)| % BLOCK == 0
    ensures (|m| + 1 + z + 8) % BLOCK == 0 ==> ZeroCount(|m|) <= z
  {
  }

  function BigField(m: seq<Byte>): seq<Byte> { Big(HighBits(|m|)) + Big(LowBits(|m|)) }
  function LittleField(m: seq<Byte>): seq<Byte> { Little(LowBits(|m|)) + Little(HighBits(|m|)) }

  /** Read in its byte order, the field is the number of bits. */
  lemma FieldIsLength(m: seq<Byte>)
    ensures |BigField(m)| == |LittleField(m)| == 8
    ensures BigValue(BigField(m)) == 8 * |m| % WW && BigField(m) == Reversed(LittleField(m))
  {
    FieldValue(LowBits(|m|), HighBits(|m|));
    CountsUnique(LowBits(|m|), HighBits(|m|), |m|);
    hide BigValue, ByteOf, LowBits, HighBits;
  }

  lemma PadEnds(m: seq<Byte>, f: seq<Byte>, n: seq<Byte>, g: seq<Byte>)
    requires |f| == |g| == 8 && Pad(m, f) == Pad(n, g)
    ensures f == g && (|m| == |n| ==> m == n)
  {
    var p := Pad(m, f);
    assert f == p[|p| - 8..] && g == p[|p| - 8..];
    assert m == p[..|m|] && n == p[..|n|];
  }

  /** No two messages of fewer than 2^61 bytes are padded alike, in either byte order. */
  lemma PadInjective(m: seq<Byte>, n: seq<Byte>)
    requires |m| < 0x2000_0000_0000_0000 && |n| < 0x2000_0000_0000_0000
    requires Pad(m, BigField(m)) == Pad(n, BigField(n)) || Pad(m, LittleField(m)) == Pad(n, LittleField(n))
    ensures m == n
  {
    hide Pad, BigField, LittleField, BigValue, Reversed;
    FieldIsLength(m);
    FieldIsLength(n);
    if Pad(m, BigField(m)) == Pad(n, BigField(n)) {
      PadEnds(m, BigField(m), n, BigField(n));
    } else {
      PadEnds(m, LittleField(m), n, LittleField(n));
    }
  }

  // ---------- The padding as the standards state it ----------

  lemma {:induction false} ValueInjective(s: seq<Byte>, t: seq<Byte>)
    requires |s| == |t| && BigValue(s) == BigValue(t)
    ensures s == t
  {
    if s != [] {
      var n := |s| - 1;
      ValueInjective(s[..n], t[..n]);
      assert s == s[..n] + [s[n]] && t == t[..n] + [t[n]];
    }
  }

  lemma ReversedTwice(s: seq<Byte>)
    ensures Reversed(Reversed(s)) == s
  {}

  /** The message, the byte 0x80, as few zero bytes as fill whole blocks together with `field`. */
  ghost predicate PaddedWith(m: seq<Byte>, z: nat, field: seq<Byte>, p: seq<Byte>) {
    && |field| == 8 && z < BLOCK && |p| % BLOCK == 0
    && p == m + [0x80] + seq(z, _ => 0) + field
  }

  lemma ZerosNeeded(length: nat, z: nat)
    requires z < BLOCK && (length + 1 + z + 8) % BLOCK == 0
    ensures z == ZeroCount(length)
  {
    hide ZeroCount;
    ZeroCountIs(length);
    assert (length % BLOCK + z + 9) % BLOCK == 0;
  }

  lemma PaddedIsPad(m: seq<Byte>, z: nat, field: seq<Byte>, p: seq<Byte>)
    requires PaddedWith(m, z, field, p)
    ensures p == Pad(m, field)
  {
    ZerosNeeded(|m|, z);
    assert seq(z, _ => 0) == Zeros(z);
  }

  /** Read with the most significant byte first the field is the number of bits: SHA-1's padding. */
  lemma PaddedBig(m: seq<Byte>, z: nat, field: seq<Byte>, p: seq<Byte>)
    requires PaddedWith(m, z, field, p) && BigValue(field) == 8 * |m| % WW
    ensures p == Pad(m, BigField(m))
  {
    FieldIsLength(m);
    ValueInjective(field, BigField(m));
    PaddedIsPad(m, z, field, p);
  }

  /** Read with the least significant byte first: MD5's padding. */
  lemma PaddedLittle(m: seq<Byte>, z: nat, field: seq<Byte>, p: seq<Byte>)
    requires PaddedWith(m, z, field, p) && BigValue(Reversed(field)) == 8 * |m| % WW
    ensures p == Pad(m, LittleField(m))
  {
    FieldIsLength(m);
    ValueInjective(Reversed(field), BigField(m));
    ReversedTwice(field);
    ReversedTwice(LittleField(m));
    PaddedIsPad(m, z, field, p);
  }
}
