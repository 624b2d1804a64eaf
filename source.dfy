/** The byte cursor of `src/source.rs`: a buffer, a read position, big-endian
    reads of one, two and four bytes, and a relative signed seek. The pure
    functions describe each read as a function of (buffer, position); the class
    `ByteStream` does the reads in place and is proved against them. */
module Source {
  import opened Base

  // ---------------------------------------------------------------------------
  // Specification of the reads

  /** One byte at position `i`, the read `next` (and `next_u1`) performs. */
  function U1(v: seq<byte>, i: nat): (r: Outcome<Parsed<byte>>)
    ensures !r.Fatal?
    ensures r.Ok? <==> i < |v|
    ensures r.Ok? ==> r.value == Parsed(v[i], i + 1)
  {
    if i < |v| then Ok(Parsed(v[i], i + 1)) else None
  }

  /** A big-endian `u2` at position `i` (`next_u2`). `(a << 8) | b` with `b < 256`
      is `a * 256 + b`. */
  function U2(v: seq<byte>, i: nat): (r: Outcome<Parsed<nat>>)
    ensures !r.Fatal?
    ensures r.Ok? <==> i + 2 <= |v|
    ensures r.Ok? ==> r.value.next == i + 2
    ensures r.Ok? ==> r.value.value == v[i] as nat * 0x100 + v[i + 1] as nat
    ensures r.Ok? ==> r.value.value < 0x1_0000
  {
    if i + 2 <= |v| then Ok(Parsed(v[i] as nat * 0x100 + v[i + 1] as nat, i + 2)) else None
  }

  /** A big-endian `u4` at position `i` (`next_u4`). */
  function U4(v: seq<byte>, i: nat): (r: Outcome<Parsed<nat>>)
    ensures !r.Fatal?
    ensures r.Ok? <==> i + 4 <= |v|
    ensures r.Ok? ==> r.value.next == i + 4
    ensures r.Ok? ==> r.value.value
                      == v[i] as nat * 0x100_0000 + v[i + 1] as nat * 0x1_0000 + v[i + 2] as nat * 0x100 + v[i + 3] as nat
    ensures r.Ok? ==> r.value.value < 0x1_0000_0000
  {
    if i + 4 <= |v| then
      Ok(Parsed(v[i] as nat * 0x100_0000 + v[i + 1] as nat * 0x1_0000 + v[i + 2] as nat * 0x100 + v[i + 3] as nat,
                i + 4))
    else None
  }

  /** Bytes left after position `i`; every successful read makes it smaller. */
  function Remaining(v: seq<byte>, i: nat): nat {
    if i <= |v| then |v| - i else 0
  }

  /** `n` consecutive reads by `p`, as the decoder's counted loops perform them,
      pushing each element read: the first failure ends the whole read. */
  function Many<T>(p: (seq<byte>, nat) -> Outcome<Parsed<T>>, v: seq<byte>, i: nat, n: nat)
    : (r: Outcome<Parsed<seq<T>>>)
    ensures r.Ok? ==> |r.value.value| == n
    ensures n == 0 ==> r == Ok(Parsed([], i))
    decreases n
  {
    if n == 0 then Ok(Parsed([], i))
    else
      var x :- p(v, i);
      Prepend([x.value], Many(p, v, x.next, n - 1))
  }

  /** One iteration of such a loop: the element read at `i` joins the elements
      already pushed, and the loop goes on from where that read stopped. */
  lemma ManyStep<T>(p: (seq<byte>, nat) -> Outcome<Parsed<T>>, v: seq<byte>, i: nat, n: nat,
                    acc: seq<T>, x: T, j: nat)
    requires 0 < n && p(v, i) == Ok(Parsed(x, j))
    ensures Prepend(acc, Many(p, v, i, n)) == Prepend(acc + [x], Many(p, v, j, n - 1))
  {
    PrependTwice(acc, x, Many(p, v, j, n - 1));
  }

  /** `n` single-byte reads yield exactly the next `n` bytes, or `None` when fewer remain. */
  lemma {:induction false} ManyBytes(v: seq<byte>, i: nat, n: nat)
    ensures i + n <= |v| ==> Many(U1, v, i, n) == Ok(Parsed(v[i..i + n], i + n))
    ensures 0 < n && |v| < i + n ==> Many(U1, v, i, n) == None
    decreases n
  {
    if n > 0 {
      if i < |v| {
        ManyBytes(v, i + 1, n - 1);
        assert Many(U1, v, i, n) == Prepend([v[i]], Many(U1, v, i + 1, n - 1));
        if i + n <= |v| {
          assert [v[i]] + v[i + 1..i + n] == v[i..i + n];
        }
      }
    } else if i <= |v| {
      assert v[i..i + n] == [];
    }
  }

  // ---------------------------------------------------------------------------
  // Encodings, the inverses of the reads

  /** The bytes `b` stand at position `i` of `v`. */
  predicate At(v: seq<byte>, i: nat, b: seq<byte>) {
    i + |b| <= |v| && v[i..i + |b|] == b
  }

  lemma AtConcat(v: seq<byte>, i: nat, a: seq<byte>, b: seq<byte>)
    requires At(v, i, a + b)
    ensures At(v, i, a) && At(v, i + |a|, b)
  {
    assert v[i..i + |a|] == (a + b)[..|a|];
    assert v[i + |a|..i + |a| + |b|] == (a + b)[|a|..];
  }

  function EncodeU2(x: nat): (b: seq<byte>)
    requires x < 0x1_0000
    ensures |b| == 2
  {
    [(x / 0x100) as byte, (x % 0x100) as byte]
  }

  /** A big-endian `u4`: the high half, then the low half. */
  function EncodeU4(x: nat): (b: seq<byte>)
    requires x < 0x1_0000_0000
    ensures |b| == 4
  {
    EncodeU2(x / 0x1_0000) + EncodeU2(x % 0x1_0000)
  }

  lemma U2Encoded(v: seq<byte>, i: nat, x: nat)
    requires x < 0x1_0000 && At(v, i, EncodeU2(x))
    ensures U2(v, i) == Ok(Parsed(x, i + 2))
  {
    assert v[i] == EncodeU2(x)[0] && v[i + 1] == EncodeU2(x)[1];
  }

  lemma U4Encoded(v: seq<byte>, i: nat, x: nat)
    requires x < 0x1_0000_0000 && At(v, i, EncodeU4(x))
    ensures U4(v, i) == Ok(Parsed(x, i + 4))
  {
    AtConcat(v, i, EncodeU2(x / 0x1_0000), EncodeU2(x % 0x1_0000));
    U2Encoded(v, i, x / 0x1_0000);
    U2Encoded(v, i + 2, x % 0x1_0000);
    assert U4(v, i).value.value == U2(v, i).value.value * 0x1_0000 + U2(v, i + 2).value.value;
  }

  /** The byte strings `bs` one after the other. */
  function Concat(bs: seq<seq<byte>>): (b: seq<byte>)
  {
    if bs == [] then [] else bs[0] + Concat(bs[1..])
  }

  /** Every element `xs[k]` is read back by `p` from its encoding `bs[k]`,
      wherever in `v` that encoding stands. */
  ghost predicate ReadsBack<T>(p: (seq<byte>, nat) -> Outcome<Parsed<T>>, v: seq<byte>,
                               xs: seq<T>, bs: seq<seq<byte>>) {
    |bs| == |xs| &&
    forall j: nat, k | 0 <= k < |xs| && At(v, j, bs[k]) :: p(v, j) == Ok(Parsed(xs[k], j + |bs[k]|))
  }

  lemma ReadsBackSplit<T>(p: (seq<byte>, nat) -> Outcome<Parsed<T>>, v: seq<byte>, i: nat,
                          xs: seq<T>, bs: seq<seq<byte>>)
    requires ReadsBack(p, v, xs, bs) && xs != [] && At(v, i, bs[0])
    ensures ReadsBack(p, v, xs[1..], bs[1..])
    ensures p(v, i) == Ok(Parsed(xs[0], i + |bs[0]|))
  {
    forall j: nat, k | 0 <= k < |xs| - 1 && At(v, j, bs[1..][k])
      ensures p(v, j) == Ok(Parsed(xs[1..][k], j + |bs[1..][k]|))
    {
      assert bs[1..][k] == bs[k + 1] && xs[1..][k] == xs[k + 1];
    }
  }

  lemma ConcatSplit(v: seq<byte>, i: nat, bs: seq<seq<byte>>)
    requires bs != [] && At(v, i, Concat(bs))
    ensures At(v, i, bs[0]) && At(v, i + |bs[0]|, Concat(bs[1..]))
    ensures i + |Concat(bs)| == i + |bs[0]| + |Concat(bs[1..])|
  {
    assert Concat(bs) == bs[0] + Concat(bs[1..]);
    AtConcat(v, i, bs[0], Concat(bs[1..]));
  }

  /** When `ReadsBack(p, v, xs, bs)`, `|xs|` reads by `p` from the start of the
      encodings laid end to end give back `xs` and stop right after them, at `end`. */
  lemma {:induction false} ManyConcat<T>(p: (seq<byte>, nat) -> Outcome<Parsed<T>>, v: seq<byte>, i: nat,
                                         xs: seq<T>, bs: seq<seq<byte>>, end: nat)
    requires ReadsBack(p, v, xs, bs)
    requires At(v, i, Concat(bs)) && end == i + |Concat(bs)|
    ensures Many(p, v, i, |xs|) == Ok(Parsed(xs, end))
    decreases |xs|
  {
    if xs != [] {
      ConcatSplit(v, i, bs);
      var j := i + |bs[0]|;
      ReadsBackSplit(p, v, i, xs, bs);
      ManyConcat(p, v, j, xs[1..], bs[1..], end);
      ManyCons(p, v, i, xs, j, end);
    } else {
      assert end == i;
    }
  }

  lemma ManyCons<T>(p: (seq<byte>, nat) -> Outcome<Parsed<T>>, v: seq<byte>, i: nat,
                    xs: seq<T>, j: nat, end: nat)
    requires xs != [] && p(v, i) == Ok(Parsed(xs[0], j))
    requires Many(p, v, j, |xs| - 1) == Ok(Parsed(xs[1..], end))
    ensures Many(p, v, i, |xs|) == Ok(Parsed(xs, end))
  {
    assert [xs[0]] + xs[1..] == xs;
  }

  // ---------------------------------------------------------------------------
  // Specification of the seek

  /** `advance_by(offset)` on a buffer of `len` bytes at position `i`: what it
      reports and the position it leaves behind. The position is converted
      with `as isize`, the guard for a negative overshoot is tested, the sum is
      computed in `isize` (an overflow panics), converted back with `as usize`
      (which wraps a negative sum), stored, and only then compared to `len`. */
  function Seek(len: nat, i: nat, offset: int): (r: (Outcome<()>, nat))
    ensures r.0.Fatal? ==> r.1 == i
  {
    var p := AsIsize(i);
    if offset < 0 && p < offset then (None, i)
    else if !(ISIZE_MIN <= p + offset <= ISIZE_MAX) then (Fatal, i)
    else
      var j := AsUsize(p + offset);
      (if j < len then Ok(()) else None, j)
  }

  /** From any position a read can leave in a buffer Rust can allocate (at most
      `isize::MAX` bytes), the seek succeeds exactly when the target lies inside
      the buffer, and always overwrites the position: with the target, or with
      the target wrapped around `2^64` when it is negative. The guard for a
      negative overshoot never fires there. */
  lemma SeekWithinBuffer(len: nat, i: nat, offset: int)
    requires i <= len <= ISIZE_MAX
    requires ISIZE_MIN <= offset && i + offset <= ISIZE_MAX
    ensures !(offset < 0 && AsIsize(i) < offset)
    ensures !Seek(len, i, offset).0.Fatal?
    ensures Seek(len, i, offset).0 == Ok(()) <==> 0 <= i + offset < len
    ensures 0 <= i + offset ==> Seek(len, i, offset).1 == i + offset
    ensures i + offset < 0 ==> Seek(len, i, offset).1 == i + offset + USIZE_MODULUS
  {
  }

  /** Seeking to exactly the end of the buffer is reported as a failure. */
  lemma SeekToEndFails(len: nat, i: nat, offset: int)
    requires i <= len <= ISIZE_MAX && i + offset == len
    ensures Seek(len, i, offset) == (None, len)
  {
  }

  /** The guard does fire from a position past `isize::MAX`, which only a
      failed seek that wrapped around can leave behind. */
  lemma SeekGuardAfterWrap()
    ensures AsIsize(0x8000_0000_0000_0000) < 0
    ensures Seek(10, 0x8000_0000_0000_0000, -1) == (None, 0x8000_0000_0000_0000)
  {
  }

  // ---------------------------------------------------------------------------
  // The cursor

  class ByteStream {
    /** The buffer, which no operation changes. */
    const v: seq<byte>
    /** The read position; a failed seek may leave it anywhere. */
    var i: nat

    /** `ByteStream::from`: a cursor at the start of `value`. */
    constructor From(value: seq<byte>)
      ensures v == value && i == 0
    {
      v := value;
      i := 0;
    }

    /** `next`: the byte at the position, which advances by one; at or past the
        end, `None` and the position stays. */
    method Next() returns (r: Outcome<byte>)
      modifies this
      ensures old(i) < |v| ==> r == Ok(v[old(i)]) && i == old(i) + 1
      ensures |v| <= old(i) ==> r == None && i == old(i)
    {
      if i < |v| {
        var k := i;
        i := i + 1;
        r := Ok(v[k]);
      } else {
        r := None;
      }
    }

    /** `next_u1`. */
    method NextU1() returns (r: Outcome<byte>)
      modifies this
      ensures Agrees(U1(v, old(i)), r, i)
      ensures r.None? ==> i == old(i)
    {
      r := Next();
    }

    /** `next_u2`: two calls of `next`; when the second one fails, the first
        byte stays consumed. */
    method NextU2() returns (r: Outcome<nat>)
      modifies this
      ensures Agrees(U2(v, old(i)), r, i)
      ensures r.None? ==> i == if old(i) < |v| then |v| else old(i)
    {
      var a :- Next();
      var b :- Next();
      r := Ok(a as nat * 0x100 + b as nat);
    }

    /** `next_u4`: four calls of `next`; a failure leaves the bytes read before
        it consumed. */
    method NextU4() returns (r: Outcome<nat>)
      modifies this
      ensures Agrees(U4(v, old(i)), r, i)
      ensures r.None? ==> i == if old(i) < |v| then |v| else old(i)
    {
      var a :- Next();
      var b :- Next();
      var c :- Next();
      var d :- Next();
      r := Ok(a as nat * 0x100_0000 + b as nat * 0x1_0000 + c as nat * 0x100 + d as nat);
    }

    /** `advance_by(offset)` for an `isize` offset. */
    method AdvanceBy(offset: int) returns (r: Outcome<()>)
      requires ISIZE_MIN <= offset <= ISIZE_MAX
      modifies this
      ensures (r, i) == Seek(|v|, old(i), offset)
    {
      var p := AsIsize(i);
      if offset < 0 && p < offset {
        return None;
      }
      if !(ISIZE_MIN <= p + offset <= ISIZE_MAX) {
        return Fatal;
      }
      i := AsUsize(p + offset);
      if i < |v| {
        r := Ok(());
      } else {
        r := None;
      }
    }
  }
}
