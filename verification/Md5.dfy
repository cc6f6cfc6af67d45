/** The streaming MD5 context of crypto/src/md5.c around an arbitrary block transform. */
module Md5 {

  import opened Digest

  type Chaining = s: seq<Word> | |s| == 4 witness [0, 0, 0, 0]

  const IV: Chaining := [0x67452301, 0xefcdab89, 0x98badcfe, 0x10325476]

  function Output(s: Chaining): seq<Byte> {
    Little(s[0]) + Little(s[1]) + Little(s[2]) + Little(s[3])
  }

  /** The digest of a message by sections 3.1 to 3.5 of RFC 1321. */
  function Hash(f: (Chaining, seq<Byte>) -> Chaining, m: seq<Byte>): seq<Byte> {
    PadFills(m, LittleField(m), 0);
    Output(Fold(f, IV, Pad(m, LittleField(m))))
  }

  /** The four words start as section 3.3 of RFC 1321 lists them, low-order bytes first. */
  lemma StartBytes()
    ensures Little(IV[0]) == [0x01, 0x23, 0x45, 0x67] && Little(IV[1]) == [0x89, 0xab, 0xcd, 0xef]
    ensures Little(IV[2]) == [0xfe, 0xdc, 0xba, 0x98] && Little(IV[3]) == [0x76, 0x54, 0x32, 0x10]
  {}

  /** The digest begins with the low-order byte of the first word and ends with the high-order byte of the fourth. */
  lemma OutputAt(s: Chaining, i: nat)
    requires i < 16
    ensures |Output(s)| == 16 && Output(s)[i] == ByteOf(s[i / 4], 3 - i % 4)
  {
    hide ByteOf;
  }

  /** The digest, from any form of the padded message that fits the description in RFC 1321. */
  lemma HashOfPadded(f: (Chaining, seq<Byte>) -> Chaining, m: seq<Byte>, z: nat, field: seq<Byte>, p: seq<Byte>)
    requires PaddedWith(m, z, field, p) && BigValue(Reversed(field)) == 8 * |m| % WW
    ensures Hash(f, m) == Output(Fold(f, IV, p))
  {
    PaddedLittle(m, z, field, p);
  }

  lemma ZerosFrom(base: nat, r: nat)
    requires base % BLOCK == 0 && r < BLOCK
    ensures ZeroCount(base + r) == if r < 56 then 55 - r else 119 - r
  {
    assert (55 - (base + r)) % BLOCK == (55 - r) % BLOCK;
  }

  /** The padding after `r` bytes of a block: it ends in that block or fills it and runs into one more. */
  lemma PaddedBlocks(p: seq<Byte>, base: nat, r: nat)
    requires r < BLOCK && base + r <= |p| && |p| == base + r + 1 + ZeroCount(base + r) + 8 && base % BLOCK == 0
    requires p[base + r..|p| - 8] == [0x80] + Zeros(ZeroCount(base + r))
    ensures |p| == base + if r < 56 then BLOCK else 2 * BLOCK
    ensures r < 56 ==> p[base..base + 56] == p[base..base + r] + [0x80] + Zeros(55 - r)
    ensures r >= 56 ==> p[base..base + BLOCK] == p[base..base + r] + [0x80] + Zeros(63 - r)
    ensures r >= 56 ==> p[base + BLOCK..base + BLOCK + 56] == Zeros(56)
  {
    hide ZeroCount;
    ZerosFrom(base, r);
    var z, tail := ZeroCount(base + r), p[base + r..|p| - 8];
    assert forall k :: base + r <= k <= base + r + z ==> p[k] == tail[k - (base + r)];
    assert forall k :: base + r <= k <= base + r + z ==> p[k] == if k == base + r then 0x80 else 0;
  }

  lemma LittleIs(v: Word)
    ensures Little(v) == [v % 256, v / 256 % 256, v / 0x1_0000 % 256, v / 0x100_0000]
    ensures v / 0x100_0000 < 256
  {}

  method StoreLe32(a: array<Byte>, at: nat, v: Word)
    requires at + 4 <= a.Length
    modifies a
    ensures a[..] == old(a[..at]) + Little(v) + old(a[at + 4..])
  {
    hide Little;
    LittleIs(v);
    a[at] := v % 256;
    a[at + 1] := v / 256 % 256;
    a[at + 2] := v / 0x1_0000 % 256;
    a[at + 3] := v / 0x100_0000 % 256;
  }

  /** What the padded message looks like from the block that is being filled. */
  lemma FinalShape(f: (Chaining, seq<Byte>) -> Chaining, m: seq<Byte>, lo: Word, hi: Word, state: Chaining)
    requires Counts(lo, hi, |m|) && Absorbed(f, IV, m, Start(|m|), state)
    ensures var r, base, p := |m| - Start(|m|), Start(|m|), Pad(m, LittleField(m));
            && lo / 8 % BLOCK == r < BLOCK && |p| == |m| + 1 + ZeroCount(|m|) + 8 && |p| % BLOCK == 0
            && p[..|m|] == m && p[base..base + r] == m[base..]
            && p[|m|..|p| - 8] == [0x80] + Zeros(ZeroCount(|m|)) && p[|p| - 8..] == Little(lo) + Little(hi)
            && Absorbed(f, IV, p, base, state)
  {
    hide Absorbed, Counts, Start, ZeroCount, Zeros, Little, Pad, HighBits, LowBits;
    PadParts(m, LittleField(m));
    PadFills(m, LittleField(m), 0);
    CounterOffset(lo, hi, |m|);
    CountsUnique(lo, hi, |m|);
    OffsetInBlock(|m|);
    var p := Pad(m, LittleField(m));
    AbsorbLonger(f, IV, m, Start(|m|), state, p[|m|..]);
    assert m + p[|m|..] == p;
  }

  class Context {
    const transform: (Chaining, seq<Byte>) -> Chaining
    const input: array<Byte>
    var buf: Chaining
    var bits0: Word
    var bits1: Word
    /** All bytes given to the context so far. */
    ghost var message: seq<Byte>

    ghost predicate Valid()
      reads this, input
    {
      && input.Length == BLOCK
      && Counts(bits0, bits1, |message|)
      && Absorbed(transform, IV, message, Start(|message|), buf)
      && input[..|message| - Start(|message|)] == message[Start(|message|)..]
    }

    constructor (f: (Chaining, seq<Byte>) -> Chaining)
      ensures Valid() && fresh(input) && transform == f && message == []
    {
      transform := f;
      input := new Byte[BLOCK](_ => 0);
      buf := IV;
      bits0, bits1 := 0, 0;
      message := [];
    }

    method Fill(at: nat, n: nat)
      requires at + n <= input.Length
      modifies input
      ensures input[..] == old(input[..at]) + Zeros(n) + old(input[at + n..])
    {
      forall k | at <= k < at + n {
        input[k] := 0;
      }
    }

    method Init()
      requires input.Length == BLOCK
      modifies this, input
      ensures Valid() && message == []
    {
      buf := IV;
      bits0, bits1 := 0, 0;
      Fill(0, BLOCK);
      message := [];
    }

    method Copy(at: nat, data: seq<Byte>)
      requires at + |data| <= input.Length
      modifies input
      ensures input[..] == old(input[..at]) + data + old(input[at + |data|..])
    {
      forall k | 0 <= k < |data| {
        input[at + k] := data[k];
      }
    }

    /** The bit counter, with its carry. */
    method Count(len: nat)
      requires Counts(bits0, bits1, |message|)
      modifies `bits0, `bits1
      ensures Counts(bits0, bits1, |message| + len)
    {
      hide Counts;
      CounterAdds(bits0, bits1, |message|, len);
      var t := bits0;
      bits0 := (t + len % W * 8 % W) % W;
      if bits0 < t {
        bits1 := (bits1 + 1) % W;
      }
      bits1 := (bits1 + len / 0x2000_0000 % W) % W;
    }

    /** Copies `part` in behind the `t` bytes there and absorbs the block that this completes. */
    method Block(t: nat, part: seq<Byte>, ghost m: seq<Byte>, ghost pos: nat)
      requires input.Length == BLOCK == t + |part|
      requires Part(m, pos, input[..t]) && Part(m, pos + t, part)
      requires Absorbed(transform, IV, m, pos, buf)
      modifies `buf, input
      ensures Absorbed(transform, IV, m, pos + BLOCK, buf)
    {
      hide Absorbed, Part;
      PartJoin(m, pos, input[..t], part);
      Copy(t, part);
      PartIs(m, pos, input[..]);
      AbsorbBlock(transform, IV, m, pos, buf, input[..]);
      buf := transform(buf, input[..]);
    }

    /** Stores the bytes that do not complete a block. */
    method Keep(t: nat, part: seq<Byte>, ghost m: seq<Byte>, ghost pos: nat)
      requires input.Length == BLOCK > t + |part| && pos + t + |part| == |m|
      requires Part(m, pos, input[..t]) && Part(m, pos + t, part)
      modifies input
      ensures input[..|m| - pos] == m[pos..]
    {
      hide Part;
      PartJoin(m, pos, input[..t], part);
      PartIs(m, pos, input[..t] + part);
      Copy(t, part);
    }

    /** Absorbs the whole blocks of `data` and stores the rest. */
    method Blocks(data: seq<Byte>, ghost m: seq<Byte>, ghost at: nat)
      requires input.Length == BLOCK && at + |data| == |m| && Part(m, at, data)
      requires Absorbed(transform, IV, m, at, buf)
      modifies `buf, input
      ensures Absorbed(transform, IV, m, Start(|m|), buf) && input[..|m| - Start(|m|)] == m[Start(|m|)..]
    {
      hide Absorbed, Start, Part;
      var rest := data;
      ghost var pos := at;
      while |rest| >= 64
        invariant at <= pos && pos + |rest| == |m| && Part(m, pos, rest)
        invariant Absorbed(transform, IV, m, pos, buf)
      {
        PartSplit(m, pos, rest, 64);
        NoPart(m, pos);
        Block(0, rest[..64], m, pos);
        rest, pos := rest[64..], pos + BLOCK;
      }
      LastBlock(transform, IV, m, pos, buf);
      NoPart(m, pos);
      Keep(0, rest, m, pos);
    }

    method Update(data: seq<Byte>)
      requires Valid()
      modifies this, input
      ensures Valid() && message == old(message) + data
    {
      hide Absorbed, Counts, Start, Part;
      ghost var m, base := message + data, Start(|message|);
      Opens(transform, IV, message, data, buf, bits0, bits1);
      var t := bits0 / 8 % BLOCK;
      Count(|data|);
      var rest := data;
      if t > 0 {
        if |data| < BLOCK - t {
          LastBlock(transform, IV, m, base, buf);
          Keep(t, data, m, base);
          message := m;
          return;
        }
        PartSplit(m, |message|, data, BLOCK - t);
        Block(t, data[..BLOCK - t], m, base);
        rest := data[BLOCK - t..];
      }
      Blocks(rest, m, |m| - |rest|);
      message := m;
    }

    /** The byte after the message and the zeros, over one block or two, until eight bytes are left. */
    method AddPadding(ghost p: seq<Byte>, ghost base: nat, r: nat) returns (ghost pos: nat)
      requires input.Length == BLOCK && r < BLOCK && base + r <= |p| && input[..r] == p[base..base + r]
      requires |p| == base + r + 1 + ZeroCount(base + r) + 8 && base % BLOCK == 0
      requires p[base + r..|p| - 8] == [0x80] + Zeros(ZeroCount(base + r))
      requires Absorbed(transform, IV, p, base, buf)
      modifies `buf, input
      ensures pos + BLOCK == |p| && Absorbed(transform, IV, p, pos, buf) && input[..56] == p[pos..pos + 56]
    {
      hide Absorbed, ZeroCount, Zeros;
      PaddedBlocks(p, base, r);
      input[r] := 0x80;
      var at, count := r + 1, 64 - 1 - r;
      if count < 8 {
        Fill(at, count);
        assert input[..] == p[base..base + BLOCK];
        Block(BLOCK, [], p, base);
        Fill(0, 56);
        pos := base + BLOCK;
      } else {
        Fill(at, count - 8);
        pos := base;
        assert input[..56] == p[base..base + 56];
      }
    }

    /** The length goes into the last eight bytes of the last block. */
    method LastBlockOf(ghost p: seq<Byte>, ghost pos: nat)
      requires input.Length == BLOCK && pos + BLOCK == |p|
      requires Absorbed(transform, IV, p, pos, buf) && input[..56] == p[pos..pos + 56]
      requires p[|p| - 8..] == Little(bits0) + Little(bits1)
      modifies `buf, input
      ensures Absorbed(transform, IV, p, |p|, buf)
    {
      hide Absorbed, Little;
      StoreLe32(input, 56, bits0);
      StoreLe32(input, 60, bits1);
      assert p[pos..pos + BLOCK] == p[pos..pos + 56] + p[|p| - 8..];
      assert input[..] == p[pos..pos + BLOCK];
      Block(BLOCK, [], p, pos);
    }

    method WriteDigest(digest: array<Byte>)
      requires digest.Length == 16
      modifies digest
      ensures digest[..] == Output(buf)
    {
      hide Little;
      StoreLe32(digest, 0, buf[0]);
      StoreLe32(digest, 4, buf[1]);
      StoreLe32(digest, 8, buf[2]);
      StoreLe32(digest, 12, buf[3]);
    }

    /** Pads, absorbs the length and writes the digest; the context starts afresh. */
    method Final(digest: array<Byte>)
      requires Valid() && digest.Length == 16 && digest != input
      modifies this, input, digest
      ensures digest[..] == Hash(transform, old(message))
      ensures Valid() && message == []
    {
      hide Absorbed, Counts, Start, Fold, ZeroCount, Zeros, Little, LittleField, Pad, Output;
      ghost var m, base := message, Start(|message|);
      ghost var p := Pad(m, LittleField(m));
      FinalShape(transform, m, bits0, bits1, buf);
      var count := bits0 / 8 % BLOCK;
      ghost var pos := AddPadding(p, base, count);
      LastBlockOf(p, pos);
      WholeMessage(transform, IV, p, buf);
      WriteDigest(digest);
      Init();
    }
  }

  method Sum(f: (Chaining, seq<Byte>) -> Chaining, data: seq<Byte>, digest: array<Byte>)
    requires digest.Length == 16
    modifies digest
    ensures digest[..] == Hash(f, data)
  {
    var context := new Context(f);
    context.Update(data);
    assert context.message == data;
    context.Final(digest);
  }
}
