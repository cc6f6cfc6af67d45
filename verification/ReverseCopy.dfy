/** The two reversing copies of core/src/strings.c, over one memory addressed by offsets. */
module ReverseCopy {

  type Byte = bv8

  const WORD := 8

  predicate Disjoint(dest: nat, src: nat, count: nat) {
    dest + count <= src || src + count <= dest
  }

  predicate InBounds(mem: seq<Byte>, dest: nat, src: nat, count: nat) {
    dest + count <= |mem| && src + count <= |mem|
  }

  /** What cell `k` holds once the first `done` of the `count` bytes, counted from the end of the source, are written. */
  function Cell(mem: seq<Byte>, dest: nat, src: nat, count: nat, done: nat, k: nat): Byte
    requires InBounds(mem, dest, src, count) && k < |mem| && done <= count
  {
    if dest <= k < dest + done then mem[src + count - 1 - (k - dest)] else mem[k]
  }

  function Moved(mem: seq<Byte>, dest: nat, src: nat, count: nat): (r: seq<Byte>)
    requires InBounds(mem, dest, src, count)
    ensures |r| == |mem| && forall k :: 0 <= k < |mem| ==> r[k] == Cell(mem, dest, src, count, count, k)
  {
    seq(|mem|, k requires 0 <= k < |mem| => Cell(mem, dest, src, count, count, k))
  }

  function Reversed(s: seq<Byte>): seq<Byte> {
    if s == [] then [] else Reversed(s[1..]) + [s[0]]
  }

  lemma {:induction false} ReversedAt(s: seq<Byte>, k: nat)
    requires k < |s|
    ensures |Reversed(s)| == |s| && Reversed(s)[k] == s[|s| - 1 - k]
  {
    if |s| > 1 {
      ReversedAt(s[1..], if k < |s| - 1 then k else 0);
    }
  }

  /** The destination becomes the source reversed and all around it stays. */
  lemma MovedIsReversal(mem: seq<Byte>, dest: nat, src: nat, count: nat)
    requires InBounds(mem, dest, src, count)
    ensures Moved(mem, dest, src, count) == mem[..dest] + Reversed(mem[src..src + count]) + mem[dest + count..]
  {
    var s := mem[src..src + count];
    forall k: nat | k < count
      ensures |Reversed(s)| == count && Reversed(s)[k] == s[count - 1 - k]
    {
      ReversedAt(s, k);
    }
    if count > 0 {
      ReversedAt(s, 0);
    }
  }

  /** An overlapping move down is a disjoint move of the top bytes, then a reversal of the rest in place. */
  lemma MoveDown(mem: seq<Byte>, dest: nat, src: nat, count: nat)
    requires InBounds(mem, dest, src, count) && dest < src < dest + count
    ensures var gap := src - dest;
            && Disjoint(dest, dest + count, gap)
            && Moved(Moved(mem, dest, dest + count, gap), src, src, count - gap) == Moved(mem, dest, src, count)
  {}

  /** An overlapping move up likewise; the disjoint part lands past the end of the source. */
  lemma MoveUp(mem: seq<Byte>, dest: nat, src: nat, count: nat)
    requires InBounds(mem, dest, src, count) && src < dest < src + count
    ensures var gap := dest - src;
            && Disjoint(src + count, src, gap)
            && Moved(Moved(mem, src + count, src, gap), dest, dest, count - gap) == Moved(mem, dest, src, count)
  {}

  /** Moving back between disjoint regions restores the source; in place, twice is nothing. */
  lemma MovedBack(mem: seq<Byte>, dest: nat, src: nat, count: nat)
    requires InBounds(mem, dest, src, count)
    requires dest == src || Disjoint(dest, src, count)
    ensures var back := Moved(Moved(mem, dest, src, count), src, dest, count);
            && back[src..src + count] == mem[src..src + count]
            && (dest == src ==> back == mem)
  {}

  /** The first `done` bytes of the destination are written and nothing else is. */
  ghost predicate Progress(now: seq<Byte>, was: seq<Byte>, dest: nat, src: nat, count: nat, done: nat)
    requires InBounds(was, dest, src, count)
  {
    |now| == |was| && done <= count && forall k :: 0 <= k < |was| ==> now[k] == Cell(was, dest, src, count, done, k)
  }

  lemma OneMore(now: seq<Byte>, was: seq<Byte>, dest: nat, src: nat, count: nat, done: nat)
    requires InBounds(was, dest, src, count) && Disjoint(dest, src, count)
    requires Progress(now, was, dest, src, count, done) && done < count
    ensures Progress(now[dest + done := now[src + count - 1 - done]], was, dest, src, count, done + 1)
  {}

  lemma Start(was: seq<Byte>, dest: nat, src: nat, count: nat)
    requires InBounds(was, dest, src, count)
    ensures Progress(was, was, dest, src, count, 0)
  {}

  /** One `*dst++ = *--src`. */
  method CopyByte(mem: array<Byte>, to: nat, from: nat,
                  ghost was: seq<Byte>, ghost dest: nat, ghost src: nat, ghost count: nat, ghost done: nat)
    requires InBounds(was, dest, src, count) && Disjoint(dest, src, count) && |was| == mem.Length
    requires done < count && to == dest + done && from == src + count - done
    requires Progress(mem[..], was, dest, src, count, done)
    modifies mem
    ensures Progress(mem[..], was, dest, src, count, done + 1)
  {
    hide Progress;
    OneMore(mem[..], was, dest, src, count, done);
    mem[to] := mem[from - 1];
    assert mem[..] == old(mem[..])[to := old(mem[..])[from - 1]];
  }

  lemma Finish(now: seq<Byte>, was: seq<Byte>, dest: nat, src: nat, count: nat)
    requires InBounds(was, dest, src, count) && Progress(now, was, dest, src, count, count)
    ensures now == Moved(was, dest, src, count)
  {}

  method ReverseMemcpy(mem: array<Byte>, dest: nat, src: nat, count: nat)
    requires InBounds(mem[..], dest, src, count)
    requires dest == src || Disjoint(dest, src, count)
    modifies mem
    ensures mem[..] == if dest == src then old(mem[..]) else Moved(old(mem[..]), dest, src, count)
  {
    if count == 0 || dest == src {
      return;
    }
    hide Progress;
    var multiple, remain := 0, count;
    if count >= WORD {
      multiple := count / WORD;
      remain := count % WORD;
    }
    ghost var was := mem[..];
    Start(was, dest, src, count);
    var i := 0;
    while i < remain
      invariant 0 <= i <= remain && Progress(mem[..], was, dest, src, count, i)
    {
      CopyByte(mem, dest + i, src + count - i, was, dest, src, count, i);
      i := i + 1;
    }
    var to, from := dest + remain, src + (count - remain);
    i := 0;
    while i < multiple
      invariant 0 <= i <= multiple && to == dest + remain + WORD * i && from == src + count - remain - WORD * i
      invariant Progress(mem[..], was, dest, src, count, remain + WORD * i)
    {
      ghost var done := remain + WORD * i;
      CopyByte(mem, to, from, was, dest, src, count, done);
      CopyByte(mem, to + 1, from - 1, was, dest, src, count, done + 1);
      CopyByte(mem, to + 2, from - 2, was, dest, src, count, done + 2);
      CopyByte(mem, to + 3, from - 3, was, dest, src, count, done + 3);
      CopyByte(mem, to + 4, from - 4, was, dest, src, count, done + 4);
      CopyByte(mem, to + 5, from - 5, was, dest, src, count, done + 5);
      CopyByte(mem, to + 6, from - 6, was, dest, src, count, done + 6);
      CopyByte(mem, to + 7, from - 7, was, dest, src, count, done + 7);
      to, from := to + WORD, from - WORD;
      i := i + 1;
    }
    Finish(mem[..], was, dest, src, count);
  }

  /** The swap loop that ends `ct_reverse_memmove`. */
  method ReverseInPlace(mem: array<Byte>, at: nat, n: nat)
    requires at + n <= mem.Length
    modifies mem
    ensures mem[..] == Moved(old(mem[..]), at, at, n)
  {
    ghost var was := mem[..];
    var half := n / 2;
    var i := 0;
    while i < half
      invariant 0 <= i <= half
      invariant forall k :: 0 <= k < mem.Length ==>
          mem[k] == if at <= k < at + i || at + n - i <= k < at + n then Cell(was, at, at, n, n, k) else was[k]
    {
      var val := mem[at + i];
      mem[at + i] := mem[at + n - 1 - i];
      mem[at + n - 1 - i] := val;
      i := i + 1;
    }
  }

  lemma MovedNothing(mem: seq<Byte>, dest: nat, src: nat)
    requires InBounds(mem, dest, src, 0)
    ensures Moved(mem, dest, src, 0) == mem
  {}

  lemma Apart(mem: seq<Byte>, dest: nat, src: nat, count: nat)
    requires InBounds(mem, dest, src, count)
    ensures Disjoint(dest, src, count) <==> dest + count <= src || src + count <= dest
    ensures dest < src < dest + count ==> InBounds(mem, dest, dest + count, src - dest)
    ensures src < dest < src + count ==> InBounds(mem, src + count, src, dest - src)
    ensures dest + count <= |mem|
  {}

  method ReverseMemmove(mem: array<Byte>, dest: nat, src: nat, count: nat)
    requires InBounds(mem[..], dest, src, count)
    modifies mem
    ensures mem[..] == Moved(old(mem[..]), dest, src, count)
  {
    hide *;
    if count == 0 {
      MovedNothing(mem[..], dest, src);
      return;
    }
    Apart(mem[..], dest, src, count);
    var n, at := count, dest;
    if dest < src {
      if dest + count > src {
        var len := src - dest;
        MoveDown(mem[..], dest, src, count);
        ReverseMemcpy(mem, dest, dest + count, len);
        n, at := count - len, dest + len;
      } else {
        ReverseMemcpy(mem, dest, src, count);
        return;
      }
    } else if dest > src {
      if dest < src + count {
        var len := dest - src;
        MoveUp(mem[..], dest, src, count);
        n := count - len;
        ReverseMemcpy(mem, dest + n, src, len);
      } else {
        ReverseMemcpy(mem, dest, src, count);
        return;
      }
    }
    ReverseInPlace(mem, at, n);
  }
}
