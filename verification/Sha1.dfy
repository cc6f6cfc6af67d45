/** The streaming SHA-1 context of crypto/src/sha1.c around an arbitrary block transform. */
module Sha1 {

  import opened Digest

  type Chaining = s: seq<Word> | |s| == 5 witness [0, 0, 0, 0, 0]

  const IV: Chaining := [0x67452301, 0xEFCDAB89, 0x98BADCFE, 0x10325476, 0xC3D2E1F0]

  function Output(s: Chaining): seq<Byte> {
    Big(s[0]) + Big(s[1]) + Big(s[2]) + Big(s[3]) + Big(s[4])
  }

  lemma OutputAt(s: Chaining, i: nat)
    requires i < 20
    ensures |Output(s)| == 20 && Output(s)[i] == ByteOf(s[i / 4], i % 4)
  {
    hide ByteOf;
  }

  lemma FieldAt(lo: Word, hi: Word, i: nat)
    requires i < 8
    ensures |Big(hi) + Big(lo)| == 8 && (Big(hi) + Big(lo))[i] == ByteOf(if i >= 4 then lo else hi, i % 4)
  {
    hide ByteOf;
  }

  /** The digest of a message by sections 5.1.1 and 6.1.2 of FIPS 180-4. */
  function Hash(f: (Chaining, seq<Byte>) -> Chaining, m: seq<Byte>): seq<Byte> {
    PadFills(m, BigField(m), 0);
    Output(Fold(f, IV, Pad(m, BigField(m))))
  }

  /** The five words start as section 5.3.1 of FIPS 180-4 lists them. */
  lemma StartBytes()
    ensures Big(IV[0]) == [0x67, 0x45, 0x23, 0x01] && Big(IV[1]) == [0xef, 0xcd, 0xab, 0x89]
    ensures Big(IV[2]) == [0x98, 0xba, 0xdc, 0xfe] && Big(IV[3]) == [0x10, 0x32, 0x54, 0x76]
    ensures Big(IV[4]) == [0xc3, 0xd2, 0xe1, 0xf0]
  {}

  /** The digest, from any form of the padded message that fits the description in FIPS 180-4. */
  lemma HashOfPadded(f: (Chaining, seq<Byte>) -> Chaining, m: seq<Byte>, z: nat, field: seq<Byte>, p: seq<Byte>)
    requires PaddedWith(m, z, field, p) && BigValue(field) == 8 * |m| % WW
    ensures Hash(f, m) == Output(Fold(f, IV, p))
  {
    PaddedBig(m, z, field, p);
  }

  // ---------- The 32-bit index of the update loop ----------

  /** The largest input that an update takes when `j` bytes are in the buffer, plus one. */
  function Limit(j: nat): (r: nat)
    requires j < BLOCK
    ensures r >= W
  {
    W + (BLOCK - j) % BLOCK
  }

  /** The index after `k` rounds of the loop, unless it has ended before. */
  function Index(j: nat, k: nat): Word
    requires j < BLOCK
  {
    if k == 0 then BLOCK - j else (Index(j, k - 1) + BLOCK) % W
  }

  /** After some number of rounds the test of the loop fails. */
  ghost predicate LoopEnds(j: nat, len: nat)
    requires j < BLOCK
  {
    exists k: nat :: Index(j, k) + BLOCK > len
  }

  lemma LastIndex(i: Word, r: nat)
    requires r < BLOCK && i % BLOCK == r
    ensures i <= W - BLOCK + r
    ensures i + BLOCK < W + r ==> i + BLOCK < W
    ensures (i + BLOCK) % W % BLOCK == r
  {
    var q := i / BLOCK;
    assert i == BLOCK * q + r && q < W / BLOCK;
  }

  lemma IndexStep(i: Word, j: nat, len: nat)
    requires j < BLOCK && i % BLOCK == (BLOCK - j) % BLOCK
    ensures (i + BLOCK) % W % BLOCK == (BLOCK - j) % BLOCK
    ensures i + BLOCK <= len < Limit(j) ==> (i + BLOCK) % W == i + BLOCK
    ensures len >= Limit(j) ==> i + BLOCK <= len
  {
    LastIndex(i, (BLOCK - j) % BLOCK);
  }

  lemma {:induction false} IndexAligned(j: nat, k: nat)
    requires j < BLOCK
    ensures Index(j, k) % BLOCK == (BLOCK - j) % BLOCK
  {
    if k > 0 {
      IndexAligned(j, k - 1);
      IndexStep(Index(j, k - 1), j, 0);
    }
  }

  /** Up to the first test that fails the index does not wrap. */
  lemma {:induction false} IndexGrows(j: nat, len: nat, k: nat)
    requires j < BLOCK && len < Limit(j) && BLOCK - j + BLOCK * k <= len
    ensures Index(j, k) == BLOCK - j + BLOCK * k
  {
    if k > 0 {
      IndexGrows(j, len, k - 1);
      IndexAligned(j, k - 1);
      IndexStep(Index(j, k - 1), j, len);
    }
  }

  /** The loop over whole blocks ends if and only if the input is below the limit. */
  lemma LoopEndsBelowLimit(j: nat, len: nat)
    requires j < BLOCK
    ensures LoopEnds(j, len) <==> len < Limit(j)
  {
    if len >= Limit(j) {
      forall k: nat
        ensures Index(j, k) + BLOCK <= len
      {
        IndexAligned(j, k);
        IndexStep(Index(j, k), j, len);
      }
    } else if len < BLOCK - j {
      assert Index(j, 0) + BLOCK > len;
    } else {
      var k := (len - (BLOCK - j)) / BLOCK;
      IndexGrows(j, len, k);
      assert Index(j, k) + BLOCK > len;
    }
  }

  class Context {
    const transform: (Chaining, seq<Byte>) -> Chaining
    const buffer: array<Byte>
    var state: Chaining
    var count0: Word
    var count1: Word
    /** All bytes given to the context so far. */
    ghost var message: seq<Byte>

    ghost predicate Valid()
      reads this, buffer
    {
      && buffer.Length == BLOCK
      && Counts(count0, count1, |message|)
      && Absorbed(transform, IV, message, Start(|message|), state)
      && buffer[..|message| - Start(|message|)] == message[Start(|message|)..]
    }

    constructor (f: (Chaining, seq<Byte>) -> Chaining)
      ensures Valid() && fresh(buffer) && transform == f && message == []
    {
      transform := f;
      buffer := new Byte[BLOCK](_ => 0);
      state := IV;
      count0, count1 := 0, 0;
      message := [];
    }

    method Copy(at: nat, data: seq<Byte>)
      requires at + |data| <= buffer.Length
      modifies buffer
      ensures buffer[..] == old(buffer[..at]) + data + old(buffer[at + |data|..])
    {
      forall k | 0 <= k < |data| {
        buffer[at + k] := data[k];
      }
    }

    /** The bit counter, with its carry. */
    method Count(len: nat)
      requires Counts(count0, count1, |message|)
      modifies this
      ensures Counts(count0, count1, |message| + len)
      ensures message == old(message) && state == old(state)
    {
      hide Counts;
      CounterAdds(count0, count1, |message|, len);
      var j := count0;
      count0 := (count0 + len % W * 8 % W) % W;
      if count0 < j {
        count1 := (count1 + 1) % W;
      }
      count1 := (count1 + len / 0x2000_0000 % W) % W;
    }

    /** Every whole block of the input behind the first `64 - j` bytes, taken where it lies. */
    method Blocks(data: seq<Byte>, j: nat, ghost m: seq<Byte>, ghost at: nat) returns (i: Word)
      requires j < BLOCK && BLOCK - j <= |data| < Limit(j) && Part(m, at, data)
      requires Absorbed(transform, IV, m, at + BLOCK - j, state)
      modifies `state
      ensures BLOCK - j <= i <= |data| < i + BLOCK && Absorbed(transform, IV, m, at + i, state)
    {
      hide Absorbed, Limit, Part;
      i := BLOCK - j;
      while i + 64 <= |data|
        invariant BLOCK - j <= i <= |data| && i % BLOCK == (BLOCK - j) % BLOCK
        invariant Absorbed(transform, IV, m, at + i, state)
      {
        IndexStep(i, j, |data|);
        PartInside(m, at, data, i, i + 64);
        AbsorbBlock(transform, IV, m, at + i, state, data[i..i + 64]);
        state := transform(state, data[i..i + 64]);
        i := (i + 64) % W;
      }
    }

    /** Completes the block that `j` bytes of the buffer begin. */
    method Complete(part: seq<Byte>, j: nat, ghost m: seq<Byte>, ghost base: nat)
      requires buffer.Length == BLOCK == j + |part|
      requires Part(m, base, buffer[..j]) && Part(m, base + j, part)
      requires Absorbed(transform, IV, m, base, state)
      modifies `state, buffer
      ensures Absorbed(transform, IV, m, base + BLOCK, state)
    {
      hide Absorbed, Part;
      PartJoin(m, base, buffer[..j], part);
      Copy(j, part);
      PartIs(m, base, buffer[..]);
      AbsorbBlock(transform, IV, m, base, state, buffer[..]);
      state := transform(state, buffer[..]);
    }

    /** Completes the block in the buffer and absorbs the whole blocks behind it. */
    method CompleteAndGoOn(data: seq<Byte>, j: nat, ghost m: seq<Byte>, ghost base: nat) returns (i: Word)
      requires buffer.Length == BLOCK && j < BLOCK && BLOCK - j <= |data| < Limit(j)
      requires Part(m, base, buffer[..j]) && Part(m, base + j, data)
      requires Absorbed(transform, IV, m, base, state)
      modifies `state, buffer
      ensures BLOCK - j <= i <= |data| < i + BLOCK && Absorbed(transform, IV, m, base + j + i, state)
    {
      hide Absorbed, Part, Limit;
      PartSplit(m, base + j, data, BLOCK - j);
      Complete(data[..BLOCK - j], j, m, base);
      i := Blocks(data, j, m, base + j);
    }

    /** Stores the bytes that do not fill a block. */
    method Keep(rest: seq<Byte>, j: nat, ghost m: seq<Byte>, ghost pos: nat)
      requires buffer.Length == BLOCK > j + |rest| && pos + j + |rest| == |m|
      requires Part(m, pos, buffer[..j]) && Part(m, pos + j, rest)
      modifies buffer
      ensures buffer[..|m| - pos] == m[pos..]
    {
      hide Part;
      PartJoin(m, pos, buffer[..j], rest);
      PartIs(m, pos, buffer[..j] + rest);
      Copy(j, rest);
    }

    method Update(data: seq<Byte>)
      requires Valid() && |data| < Limit(|message| % BLOCK)
      modifies this, buffer
      ensures Valid() && message == old(message) + data
    {
      hide Absorbed, Counts, Start, Part, Limit;
      ghost var m, base := message + data, Start(|message|);
      Opens(transform, IV, message, data, state, count0, count1);
      var len, j := |data|, count0 / 8 % BLOCK;
      Count(len);
      var i := 0;
      if j + len > 63 {
        i := CompleteAndGoOn(data, j, m, base);
        j := 0;
        NoPart(m, |message| + i);
      }
      ghost var pos := |message| + i - j;
      LastBlock(transform, IV, m, pos, state);
      PartSplit(m, |message|, data, i);
      Keep(data[i..], j, m, pos);
      message := m;
    }

    /** The counter, most significant byte first. */
    method CountBytes() returns (finalcount: array<Byte>)
      ensures fresh(finalcount) && finalcount[..] == Big(count1) + Big(count0)
    {
      finalcount := new Byte[8](_ => 0);
      FieldAt(count0, count1, 0);
      ghost var all := Big(count1) + Big(count0);
      hide ByteOf, Big;
      var i := 0;
      while i < 8
        invariant 0 <= i <= 8 && finalcount[..i] == all[..i]
      {
        FieldAt(count0, count1, i);
        finalcount[i] := ByteOf(if i >= 4 then count0 else count1, i % 4);
        i := i + 1;
      }
    }

    /** The byte after the message, then zero bytes until eight are left in the block. */
    method AddPadding()
      requires Valid()
      modifies this, buffer
      ensures Valid() && message == old(message) + [0x80] + Zeros(ZeroCount(|old(message)|))
    {
      hide Counts, Absorbed, ZeroCount, Zeros, Start, Limit;
      ghost var m, n := message, 0;
      Update([0x80]);
      NoZeros(message);
      PaddingTest(count0, count1, |m|, n);
      while count0 / 8 % BLOCK * 8 != 448
        invariant Valid() && n <= ZeroCount(|m|) && message == m + [0x80] + Zeros(n)
        invariant count0 / 8 % BLOCK * 8 == 448 <==> n == ZeroCount(|m|)
        decreases ZeroCount(|m|) - n
      {
        ZerosGrow(m + [0x80], n);
        Update([0]);
        n := n + 1;
        PaddingTest(count0, count1, |m|, n);
      }
    }

    method WriteDigest(digest: array<Byte>)
      requires digest.Length == 20
      modifies digest
      ensures digest[..] == Output(state)
    {
      hide Output, ByteOf;
      var i := 0;
      OutputAt(state, 0);
      while i < 20
        invariant 0 <= i <= 20 && digest[..i] == Output(state)[..i]
      {
        OutputAt(state, i);
        digest[i] := ByteOf(state[i / 4], i % 4);
        i := i + 1;
      }
    }

    /** Pads, absorbs the length and writes the digest; the context is wiped. */
    method Final(digest: array<Byte>)
      requires Valid() && digest.Length == 20 && digest != buffer
      modifies this, buffer, digest
      ensures digest[..] == Hash(transform, old(message))
      ensures state == [0, 0, 0, 0, 0] && count0 == count1 == 0 && buffer[..] == Zeros(BLOCK)
    {
      hide Counts, Absorbed, ZeroCount, Output, Fold, Start, HighBits, LowBits, Limit;
      CountsUnique(count0, count1, |message|);
      var finalcount := CountBytes();
      ghost var m := message;
      AddPadding();
      Update(finalcount[..]);
      PadFills(m, BigField(m), 0);
      WholeMessage(transform, IV, message, state);
      WriteDigest(digest);
      state := [0, 0, 0, 0, 0];
      count0, count1 := 0, 0;
      forall k | 0 <= k < BLOCK {
        buffer[k] := 0;
      }
    }
  }

  method Sum(f: (Chaining, seq<Byte>) -> Chaining, data: seq<Byte>, digest: array<Byte>)
    requires |data| < W && digest.Length == 20
    modifies digest
    ensures digest[..] == Hash(f, data)
  {
    var context := new Context(f);
    context.Update(data);
    assert context.message == data;
    context.Final(digest);
  }
}
