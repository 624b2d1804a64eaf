/** Vocabulary shared by every part of the model: bytes, the three-way outcome of
    the loader's operations, the Rust integer casts the loader relies on, and the
    UTF-8 well-formedness test that `String::from_utf8` performs. */
module Base {

  /** A `u8`. */
  newtype byte = x: int | 0 <= x < 0x100

  const ISIZE_MIN: int := -0x8000_0000_0000_0000
  const ISIZE_MAX: int := 0x7fff_ffff_ffff_ffff
  const USIZE_MODULUS: int := 0x1_0000_0000_0000_0000

  /** How an operation of the loader ends.
      - `Ok`: it produced a value;
      - `None`: it gave up with an `Option::None` that `?` propagates to the caller
        (end of input, an index past the end of the constant pool, bad UTF-8);
      - `Fatal`: the process aborts (`panic!`, `todo!`, `unreachable!`, a failing
        `unwrap`, a `cast!` to the wrong variant, or an arithmetic overflow, which
        panics in a debug build). */
  datatype Outcome<+T> = Ok(value: T) | None | Fatal {

    predicate IsFailure() {
      !Ok?
    }

    function PropagateFailure<U>(): Outcome<U>
      requires !Ok?
    {
      if None? then None else Fatal
    }

    function Extract(): T
      requires Ok?
    {
      value
    }

    /** `.unwrap()` applied to the `Option` this outcome stands for: a `None` aborts. */
    function Unwrap(): (r: Outcome<T>)
      ensures !r.None?
      ensures r.Ok? <==> Ok?
      ensures !None? ==> r == this
    {
      if None? then Fatal else this
    }
  }

  /** A value read from a byte stream together with the cursor position after it. */
  datatype Parsed<+T> = Parsed(value: T, next: nat)

  /** A method that returns `r` and leaves its cursor at `pos` did what the
      specification `spec` says: the same value and end position on success, the
      same kind of failure otherwise. */
  predicate Agrees<T(==)>(spec: Outcome<Parsed<T>>, r: Outcome<T>, pos: nat) {
    match r
    case Ok(x) => spec == Ok(Parsed(x, pos))
    case None => spec == None
    case Fatal => spec == Fatal
  }

  /** The elements `acc` already pushed, followed by whatever the rest of a loop reads. */
  function Prepend<T>(acc: seq<T>, r: Outcome<Parsed<seq<T>>>): (q: Outcome<Parsed<seq<T>>>)
    ensures r.Ok? ==> q == Ok(Parsed(acc + r.value.value, r.value.next))
    ensures !r.Ok? ==> q == r
    ensures acc == [] ==> q == r
  {
    match r
    case Ok(p) =>
      assert acc == [] ==> acc + p.value == p.value;
      Ok(Parsed(acc + p.value, p.next))
    case _ => r
  }

  lemma PrependTwice<T>(acc: seq<T>, x: T, r: Outcome<Parsed<seq<T>>>)
    ensures Prepend(acc, Prepend([x], r)) == Prepend(acc + [x], r)
  {
    if r.Ok? {
      assert acc + ([x] + r.value.value) == (acc + [x]) + r.value.value;
    }
  }

  // ---------------------------------------------------------------------------
  // Rust integer casts

  /** `x as i8`: the low 8 bits read as a two's-complement number. */
  function AsI8(x: int): (r: int)
    ensures -0x80 <= r < 0x80
    ensures (x - r) % 0x100 == 0
    ensures -0x80 <= x < 0x80 ==> r == x
  {
    (x + 0x80) % 0x100 - 0x80
  }

  /** `x as i16`. */
  function AsI16(x: int): (r: int)
    ensures -0x8000 <= r < 0x8000
    ensures (x - r) % 0x1_0000 == 0
    ensures -0x8000 <= x < 0x8000 ==> r == x
  {
    (x + 0x8000) % 0x1_0000 - 0x8000
  }

  /** `x as i32`. */
  function AsI32(x: int): (r: int)
    ensures -0x8000_0000 <= r < 0x8000_0000
    ensures (x - r) % 0x1_0000_0000 == 0
    ensures -0x8000_0000 <= x < 0x8000_0000 ==> r == x
  {
    (x + 0x8000_0000) % 0x1_0000_0000 - 0x8000_0000
  }

  /** `x as isize` on a 64-bit target. */
  function AsIsize(x: int): (r: int)
    ensures ISIZE_MIN <= r <= ISIZE_MAX
    ensures (x - r) % USIZE_MODULUS == 0
    ensures ISIZE_MIN <= x <= ISIZE_MAX ==> r == x
  {
    (x - ISIZE_MIN) % USIZE_MODULUS + ISIZE_MIN
  }

  /** `x as usize` on a 64-bit target. */
  function AsUsize(x: int): (r: nat)
    ensures r < USIZE_MODULUS
    ensures (x - r) % USIZE_MODULUS == 0
    ensures 0 <= x < USIZE_MODULUS ==> r == x
  {
    x % USIZE_MODULUS
  }

  // ---------------------------------------------------------------------------
  // Text

  /** The bytes of an ASCII string literal of the Rust source (`"Code"`, `"main"`, ...). */
  function Ascii(s: string): (r: seq<byte>)
    requires forall k | 0 <= k < |s| :: s[k] as int < 0x80
    ensures |r| == |s|
    ensures forall k | 0 <= k < |s| :: r[k] as int == s[k] as int
  {
    if s == [] then [] else [s[0] as int as byte] + Ascii(s[1..])
  }

  predicate ByteIn(b: seq<byte>, j: nat, lo: byte, hi: byte) {
    j < |b| && lo <= b[j] <= hi
  }

  /** Length of the well-formed UTF-8 character that starts at `b[i]`, or 0 when
      none does (the table of well-formed byte sequences of the Unicode Standard,
      section 3.9, which `String::from_utf8` enforces). */
  function Utf8CharWidth(b: seq<byte>, i: nat): (w: nat)
    requires i < |b|
    ensures w <= 4
    ensures b[i] < 0x80 ==> w == 1
  {
    var b0 := b[i];
    if b0 < 0x80 then 1
    else if 0xC2 <= b0 <= 0xDF then
      (if ByteIn(b, i + 1, 0x80, 0xBF) then 2 else 0)
    else if b0 == 0xE0 then
      (if ByteIn(b, i + 1, 0xA0, 0xBF) && ByteIn(b, i + 2, 0x80, 0xBF) then 3 else 0)
    else if 0xE1 <= b0 <= 0xEC || 0xEE <= b0 <= 0xEF then
      (if ByteIn(b, i + 1, 0x80, 0xBF) && ByteIn(b, i + 2, 0x80, 0xBF) then 3 else 0)
    else if b0 == 0xED then
      (if ByteIn(b, i + 1, 0x80, 0x9F) && ByteIn(b, i + 2, 0x80, 0xBF) then 3 else 0)
    else if b0 == 0xF0 then
      (if ByteIn(b, i + 1, 0x90, 0xBF) && ByteIn(b, i + 2, 0x80, 0xBF) && ByteIn(b, i + 3, 0x80, 0xBF) then 4 else 0)
    else if 0xF1 <= b0 <= 0xF3 then
      (if ByteIn(b, i + 1, 0x80, 0xBF) && ByteIn(b, i + 2, 0x80, 0xBF) && ByteIn(b, i + 3, 0x80, 0xBF) then 4 else 0)
    else if b0 == 0xF4 then
      (if ByteIn(b, i + 1, 0x80, 0x8F) && ByteIn(b, i + 2, 0x80, 0xBF) && ByteIn(b, i + 3, 0x80, 0xBF) then 4 else 0)
    else 0
  }

  predicate ValidUtf8From(b: seq<byte>, i: nat)
    decreases |b| - i
  {
    i >= |b| || (Utf8CharWidth(b, i) > 0 && ValidUtf8From(b, i + Utf8CharWidth(b, i)))
  }

  /** `String::from_utf8(b).is_ok()`. */
  predicate ValidUtf8(b: seq<byte>) {
    ValidUtf8From(b, 0)
  }

  lemma {:induction false} AsciiIsUtf8From(b: seq<byte>, i: nat)
    requires forall k | 0 <= k < |b| :: b[k] < 0x80
    ensures ValidUtf8From(b, i)
    decreases |b| - i
  {
    if i < |b| {
      AsciiIsUtf8From(b, i + 1);
    }
  }

  /** Every ASCII byte string is valid UTF-8. */
  lemma AsciiIsUtf8(b: seq<byte>)
    requires forall k | 0 <= k < |b| :: b[k] < 0x80
    ensures ValidUtf8(b)
  {
    AsciiIsUtf8From(b, 0);
  }
}
