/** The instruction set of `src/code.rs`: the opcodes the interpreter knows, their
    operands, and `OpCode::parse`, which reads one instruction from a cursor.
    Opcodes that differ only in a small constant (`iconst_<n>`, `iload_<n>`, the
    six `if<cond>` and six `if_icmp<cond>` branches, ...) are one constructor
    with that constant as a field. */
module Instructions {
  import opened Base
  import opened Source

  /** The comparison of a conditional branch (the suffix of `ifeq`, `if_icmplt`, ...),
      in opcode order. */
  datatype Cond = Eq | Ne | Lt | Ge | Gt | Le

  /** `x <cond> y`. */
  predicate Holds(c: Cond, x: int, y: int) {
    match c
    case Eq => x == y
    case Ne => x != y
    case Lt => x < y
    case Ge => x >= y
    case Gt => x > y
    case Le => x <= y
  }

  function CondAt(k: nat): Cond
    requires k < 6
  {
    [Eq, Ne, Lt, Ge, Gt, Le][k]
  }

  function CondIndex(c: Cond): (k: nat)
    ensures k < 6 && CondAt(k) == c
  {
    match c
    case Eq => 0
    case Ne => 1
    case Lt => 2
    case Ge => 3
    case Gt => 4
    case Le => 5
  }

  /** An instruction. Signed operands hold the value after sign extension. */
  datatype OpCode =
    | IConst(n: int)                 // iconst_m1 .. iconst_5, 0x02 ..= 0x08
    | BiPush(byteValue: int)         // 0x10
    | SiPush(shortValue: int)        // 0x11
    | Ldc(index: nat)                // 0x12
    | ILoad(slot: nat)               // iload_<n>, 0x1a ..= 0x1d
    | ALoad(slot: nat)               // aload_<n>, 0x2a ..= 0x2d
    | IStore(slot: nat)              // istore_<n>, 0x3b ..= 0x3e
    | AStore(slot: nat)              // astore_<n>, 0x4b ..= 0x4e
    | Dup                            // 0x59
    | IAdd                           // 0x60
    | ISub                           // 0x64
    | IMul                           // 0x68
    | Iinc(index: nat, delta: int)   // 0x84
    | IReturn                        // 0xac
    | Return                         // 0xb1
    | GetStatic(index: nat)          // 0xb2
    | InvokeVirtual(index: nat)      // 0xb6
    | InvokeSpecial(index: nat)      // 0xb7
    | InvokeStatic(index: nat)       // 0xb8
    | New(index: nat)                // 0xbb
    | If(cond: Cond, offset: int)    // if<cond>, 0x99 ..= 0x9e
    | IfICmp(cond: Cond, offset: int) // if_icmp<cond>, 0x9f ..= 0xa4
    | Goto(offset: int)              // 0xa7

  /** The operands an opcode byte is followed by. */
  datatype Operands = NoOperand | OneByte | TwoBytes | TwoOneByte | Unimplemented

  function Shape(b: byte): Operands {
    if 0x02 <= b <= 0x08 || 0x1a <= b <= 0x1d || 0x2a <= b <= 0x2d || 0x3b <= b <= 0x3e
       || 0x4b <= b <= 0x4e || b == 0x59 || b == 0x60 || b == 0x64 || b == 0x68
       || b == 0xac || b == 0xb1 then NoOperand
    else if b == 0x10 || b == 0x12 then OneByte
    else if b == 0x11 || b == 0xb2 || 0xb6 <= b <= 0xb8 || b == 0xbb || 0x99 <= b <= 0xa4
         || b == 0xa7 then TwoBytes
    else if b == 0x84 then TwoOneByte
    else Unimplemented
  }

  /** Bytes an instruction of that shape takes, opcode included. */
  function ShapeWidth(s: Operands): nat {
    match s
    case NoOperand => 1
    case OneByte => 2
    case TwoBytes => 3
    case TwoOneByte => 3
    case Unimplemented => 0
  }

  /** The instruction of an operand-less opcode. All four `astore_<n>` bytes
      decode to `astore_0`. */
  function Bare(b: byte): (op: OpCode)
    requires Shape(b) == NoOperand
    ensures WellFormed(op) && OperandBytes(op) == []
  {
    if b <= 0x08 then IConst(b as int - 3)
    else if b <= 0x1d then ILoad(b as int - 0x1a)
    else if b <= 0x2d then ALoad(b as int - 0x2a)
    else if b <= 0x3e then IStore(b as int - 0x3b)
    else if b <= 0x4e then AStore(0)
    else if b == 0x59 then Dup
    else if b == 0x60 then IAdd
    else if b == 0x64 then ISub
    else if b == 0x68 then IMul
    else if b == 0xac then IReturn
    else Return
  }

  /** `bipush` sign-extends its byte (`as i8 as isize`); `ldc` keeps it unsigned. */
  function WithByte(b: byte, x: byte): (op: OpCode)
    requires Shape(b) == OneByte
    ensures WellFormed(op) && |OperandBytes(op)| == 1
  {
    if b == 0x10 then BiPush(AsI8(x as int)) else Ldc(x as nat)
  }

  /** `sipush` and the branches sign-extend their `u2` (`as i16 as isize`); the
      pool references keep it unsigned. */
  function WithShort(b: byte, x: nat): (op: OpCode)
    requires Shape(b) == TwoBytes && x < 0x1_0000
    ensures WellFormed(op) && |OperandBytes(op)| == 2 && !op.Iinc?
  {
    if b == 0x11 then SiPush(AsI16(x))
    else if b == 0xb2 then GetStatic(x)
    else if b == 0xb6 then InvokeVirtual(x)
    else if b == 0xb7 then InvokeSpecial(x)
    else if b == 0xb8 then InvokeStatic(x)
    else if b == 0xbb then New(x)
    else if b <= 0x9e then If(CondAt(b as nat - 0x99), AsI16(x))
    else if b <= 0xa4 then IfICmp(CondAt(b as nat - 0x9f), AsI16(x))
    else Goto(AsI16(x))
  }

  /** The operands each constructor can carry: what the decoder can produce
      from some bytes, and what `Encode` can write. */
  predicate WellFormed(op: OpCode) {
    match op
    case IConst(n) => -1 <= n <= 5
    case BiPush(n) => -0x80 <= n < 0x80
    case SiPush(n) => -0x8000 <= n < 0x8000
    case Ldc(k) => k < 0x100
    case ILoad(k) => k < 4
    case ALoad(k) => k < 4
    case IStore(k) => k < 4
    case AStore(k) => k < 4
    case Iinc(k, d) => k < 0x100 && -0x80 <= d < 0x80
    case GetStatic(k) => k < 0x1_0000
    case InvokeVirtual(k) => k < 0x1_0000
    case InvokeSpecial(k) => k < 0x1_0000
    case InvokeStatic(k) => k < 0x1_0000
    case New(k) => k < 0x1_0000
    case If(_, d) => -0x8000 <= d < 0x8000
    case IfICmp(_, d) => -0x8000 <= d < 0x8000
    case Goto(d) => -0x8000 <= d < 0x8000
    case _ => true
  }

  /** The opcode byte of each instruction (JVMS section 6.5). */
  function Opcode(op: OpCode): byte
    requires WellFormed(op)
  {
    match op
    case IConst(n) => (n + 3) as byte
    case BiPush(_) => 0x10
    case SiPush(_) => 0x11
    case Ldc(_) => 0x12
    case ILoad(k) => (0x1a + k) as byte
    case ALoad(k) => (0x2a + k) as byte
    case IStore(k) => (0x3b + k) as byte
    case AStore(k) => (0x4b + k) as byte
    case Dup => 0x59
    case IAdd => 0x60
    case ISub => 0x64
    case IMul => 0x68
    case Iinc(_, _) => 0x84
    case IReturn => 0xac
    case Return => 0xb1
    case GetStatic(_) => 0xb2
    case InvokeVirtual(_) => 0xb6
    case InvokeSpecial(_) => 0xb7
    case InvokeStatic(_) => 0xb8
    case New(_) => 0xbb
    case If(c, _) => (0x99 + CondIndex(c)) as byte
    case IfICmp(c, _) => (0x9f + CondIndex(c)) as byte
    case Goto(_) => 0xa7
  }

  /** The bytes after the opcode: signed operands in two's complement. */
  function OperandBytes(op: OpCode): (b: seq<byte>)
    requires WellFormed(op)
  {
    match op
    case BiPush(n) => [(n % 0x100) as byte]
    case Ldc(k) => [k as byte]
    case SiPush(n) => EncodeU2(n % 0x1_0000)
    case Iinc(k, d) => [k as byte, (d % 0x100) as byte]
    case GetStatic(k) => EncodeU2(k)
    case InvokeVirtual(k) => EncodeU2(k)
    case InvokeSpecial(k) => EncodeU2(k)
    case InvokeStatic(k) => EncodeU2(k)
    case New(k) => EncodeU2(k)
    case If(_, d) => EncodeU2(d % 0x1_0000)
    case IfICmp(_, d) => EncodeU2(d % 0x1_0000)
    case Goto(d) => EncodeU2(d % 0x1_0000)
    case _ => []
  }

  /** The class-file form of an instruction. */
  function Encode(op: OpCode): (b: seq<byte>)
    requires WellFormed(op)
  {
    [Opcode(op)] + OperandBytes(op)
  }

  /** `OpCode::parse` on the bytes from position `i`: `None` at the end of the
      bytes and when operand bytes are missing, a panic (`todo!`) on an opcode
      outside the table. */
  function Decode(v: seq<byte>, i: nat): (r: Outcome<Parsed<OpCode>>)
    ensures r.Fatal? <==> i < |v| && Shape(v[i]) == Unimplemented
    ensures r.Ok? <==> i < |v| && Shape(v[i]) != Unimplemented && i + ShapeWidth(Shape(v[i])) <= |v|
    ensures r.Ok? ==> r.value.next == i + ShapeWidth(Shape(v[i]))
    ensures r.Ok? ==> WellFormed(r.value.value)
  {
    var op :- U1(v, i);
    match Shape(op.value)
    case NoOperand =>
      Ok(Parsed(Bare(op.value), op.next))
    case OneByte =>
      var x :- U1(v, op.next);
      Ok(Parsed(WithByte(op.value, x.value), x.next))
    case TwoBytes =>
      var x :- U2(v, op.next);
      Ok(Parsed(WithShort(op.value, x.value), x.next))
    case TwoOneByte =>
      var index :- U1(v, op.next);
      var delta :- U1(v, index.next);
      Ok(Parsed(Iinc(index.value as nat, AsI8(delta.value as int)), delta.next))
    case Unimplemented =>
      Fatal
  }

  /** The byte width of an instruction. */
  function Width(op: OpCode): (w: nat)
    requires WellFormed(op)
    ensures w == |Encode(op)| && 1 <= w <= 3
  {
    1 + |OperandBytes(op)|
  }

  // ---------------------------------------------------------------------------
  // Properties of the decoder

  /** A decoded instruction takes one byte when it has no operand, two for
      `bipush` and `ldc`, and three for every other instruction with operands. */
  lemma DecodedWidth(v: seq<byte>, i: nat)
    requires Decode(v, i).Ok?
    ensures var p := Decode(v, i).value;
            p.next == i + Width(p.value)
            && (Width(p.value) == 2 <==> p.value.BiPush? || p.value.Ldc?)
            && (Width(p.value) == 1 <==> OperandBytes(p.value) == [])
  {
  }

  /** All four `astore_<n>` opcode bytes decode to `astore_0`, and no byte string
      decodes to another `astore` slot. */
  lemma AStoreQuirk(v: seq<byte>, i: nat)
    requires i < |v| && 0x4b <= v[i] <= 0x4e
    ensures Decode(v, i) == Ok(Parsed(AStore(0), i + 1))
  {
  }

  lemma AStoreSlotZero(v: seq<byte>, i: nat)
    requires Decode(v, i).Ok? && Decode(v, i).value.value.AStore?
    ensures Decode(v, i).value.value.slot == 0
  {
  }

  /** The opcode byte of each shape decodes back to the instruction. */
  lemma BareOpcode(op: OpCode)
    requires WellFormed(op) && OperandBytes(op) == [] && !(op.AStore? && op.slot != 0)
    ensures Shape(Opcode(op)) == NoOperand && Bare(Opcode(op)) == op
  {
  }

  lemma ByteOperand(op: OpCode)
    requires WellFormed(op) && (op.BiPush? || op.Ldc?)
    ensures Shape(Opcode(op)) == OneByte && |OperandBytes(op)| == 1
    ensures WithByte(Opcode(op), OperandBytes(op)[0]) == op
  {
  }

  lemma ShortOperand(op: OpCode, x: nat)
    requires WellFormed(op) && |OperandBytes(op)| == 2 && !op.Iinc?
    requires x < 0x1_0000 && OperandBytes(op) == EncodeU2(x)
    ensures Shape(Opcode(op)) == TwoBytes && WithShort(Opcode(op), x) == op
  {
    match op
    case SiPush(n) => SignedShort(n, x);
    case If(c, d) => SignedShort(d, x); assert CondAt(CondIndex(c)) == c;
    case IfICmp(c, d) => SignedShort(d, x); assert CondAt(CondIndex(c)) == c;
    case Goto(d) => SignedShort(d, x);
    case GetStatic(k) => UnsignedShort(k, x);
    case InvokeVirtual(k) => UnsignedShort(k, x);
    case InvokeSpecial(k) => UnsignedShort(k, x);
    case InvokeStatic(k) => UnsignedShort(k, x);
    case New(k) => UnsignedShort(k, x);
  }

  /** A sign-extended 16-bit value comes back from its two's-complement `u2`. */
  lemma SignedShort(n: int, x: nat)
    requires -0x8000 <= n < 0x8000 && x < 0x1_0000 && EncodeU2(n % 0x1_0000) == EncodeU2(x)
    ensures AsI16(x) == n
  {
    U2Injective(n % 0x1_0000, x);
  }

  lemma UnsignedShort(k: nat, x: nat)
    requires k < 0x1_0000 && x < 0x1_0000 && EncodeU2(k) == EncodeU2(x)
    ensures k == x
  {
    U2Injective(k, x);
  }

  lemma U2Injective(a: nat, b: nat)
    requires a < 0x1_0000 && b < 0x1_0000 && EncodeU2(a) == EncodeU2(b)
    ensures a == b
  {
    assert EncodeU2(a)[0] == EncodeU2(b)[0] && EncodeU2(a)[1] == EncodeU2(b)[1];
  }

  /** Decoding an encoded instruction gives it back and stops right after it;
      `astore_1` to `astore_3` are the exception (see `AStoreQuirk`). */
  lemma DecodeEncoded(v: seq<byte>, i: nat, op: OpCode)
    requires WellFormed(op) && !(op.AStore? && op.slot != 0)
    requires At(v, i, Encode(op))
    ensures Decode(v, i) == Ok(Parsed(op, i + Width(op)))
  {
    AtConcat(v, i, [Opcode(op)], OperandBytes(op));
    assert v[i] == Opcode(op);
    if OperandBytes(op) == [] {
      BareDecoded(v, i, op);
    } else if op.BiPush? || op.Ldc? {
      ByteDecoded(v, i, op);
    } else if op.Iinc? {
      IincDecoded(v, i, op);
    } else {
      ShortDecoded(v, i, op);
    }
  }

  lemma BareDecoded(v: seq<byte>, i: nat, op: OpCode)
    requires WellFormed(op) && OperandBytes(op) == [] && !(op.AStore? && op.slot != 0)
    requires i < |v| && v[i] == Opcode(op)
    ensures Decode(v, i) == Ok(Parsed(op, i + Width(op)))
  {
    BareOpcode(op);
    assert i + Width(op) == i + 1;
  }

  lemma ByteDecoded(v: seq<byte>, i: nat, op: OpCode)
    requires WellFormed(op) && (op.BiPush? || op.Ldc?)
    requires i < |v| && v[i] == Opcode(op) && At(v, i + 1, OperandBytes(op))
    ensures Decode(v, i) == Ok(Parsed(op, i + Width(op)))
  {
    ByteOperand(op);
    assert v[i + 1] == OperandBytes(op)[0];
    assert i + Width(op) == i + 2;
  }

  lemma IincDecoded(v: seq<byte>, i: nat, op: OpCode)
    requires WellFormed(op) && op.Iinc?
    requires i < |v| && v[i] == Opcode(op) && At(v, i + 1, OperandBytes(op))
    ensures Decode(v, i) == Ok(Parsed(op, i + Width(op)))
  {
    assert v[i + 1] == OperandBytes(op)[0] && v[i + 2] == OperandBytes(op)[1];
    assert i + Width(op) == i + 3;
  }

  lemma ShortDecoded(v: seq<byte>, i: nat, op: OpCode)
    requires WellFormed(op) && |OperandBytes(op)| == 2 && !op.Iinc?
    requires i < |v| && v[i] == Opcode(op) && At(v, i + 1, OperandBytes(op))
    ensures Decode(v, i) == Ok(Parsed(op, i + Width(op)))
  {
    var x := ShortValue(op);
    U2Encoded(v, i + 1, x);
    ShortOperand(op, x);
    assert i + Width(op) == i + 3;
  }

  /** The `u2` after the opcode of a three-byte instruction other than `iinc`. */
  function ShortValue(op: OpCode): (x: nat)
    requires WellFormed(op) && |OperandBytes(op)| == 2 && !op.Iinc?
    ensures x < 0x1_0000 && OperandBytes(op) == EncodeU2(x)
  {
    match op
    case SiPush(n) => n % 0x1_0000
    case If(_, d) => d % 0x1_0000
    case IfICmp(_, d) => d % 0x1_0000
    case Goto(d) => d % 0x1_0000
    case GetStatic(k) => k
    case InvokeVirtual(k) => k
    case InvokeSpecial(k) => k
    case InvokeStatic(k) => k
    case New(k) => k
  }

  /** Conversely, a decoded instruction is the encoding of what it decodes to,
      apart from the opcode byte of `astore_1` to `astore_3`. */
  lemma EncodeDecoded(v: seq<byte>, i: nat)
    requires Decode(v, i).Ok?
    ensures var op := Decode(v, i).value.value;
            At(v, i + 1, OperandBytes(op))
            && (v[i] == Opcode(op) || (op == AStore(0) && 0x4c <= v[i] <= 0x4e))
  {
    var b := v[i];
    var op := Decode(v, i).value.value;
    match Shape(b)
    case NoOperand =>
      assert op == Bare(b);
      BareEncoded(v, i);
    case OneByte =>
      assert op == WithByte(b, v[i + 1]);
      WithByteEncoded(v, i);
    case TwoBytes =>
      assert op == WithShort(b, v[i + 1] as nat * 0x100 + v[i + 2] as nat);
      WithShortEncoded(v, i);
    case TwoOneByte =>
      assert op == Iinc(v[i + 1] as nat, AsI8(v[i + 2] as int));
      IincEncoded(v, i);
  }

  lemma BareEncoded(v: seq<byte>, i: nat)
    requires i < |v| && Shape(v[i]) == NoOperand
    ensures var op := Bare(v[i]);
            At(v, i + 1, OperandBytes(op))
            && (v[i] == Opcode(op) || (op == AStore(0) && 0x4c <= v[i] <= 0x4e))
  {
    assert v[i + 1..i + 1] == [];
  }

  lemma WithByteEncoded(v: seq<byte>, i: nat)
    requires i + 1 < |v| && Shape(v[i]) == OneByte
    ensures var op := WithByte(v[i], v[i + 1]);
            At(v, i + 1, OperandBytes(op)) && v[i] == Opcode(op)
  {
    assert v[i + 1..i + 2] == [v[i + 1]];
  }

  lemma IincEncoded(v: seq<byte>, i: nat)
    requires i + 2 < |v|
    ensures var op := Iinc(v[i + 1] as nat, AsI8(v[i + 2] as int));
            At(v, i + 1, OperandBytes(op)) && Opcode(op) == 0x84
  {
    assert v[i + 1..i + 3] == [v[i + 1], v[i + 2]];
  }

  lemma WithShortEncoded(v: seq<byte>, i: nat)
    requires i + 2 < |v| && Shape(v[i]) == TwoBytes
    ensures var op := WithShort(v[i], v[i + 1] as nat * 0x100 + v[i + 2] as nat);
            At(v, i + 1, OperandBytes(op)) && v[i] == Opcode(op)
  {
    ShortBytes(v[i], v[i + 1], v[i + 2]);
    assert v[i + 1..i + 3] == [v[i + 1], v[i + 2]];
  }

  lemma ShortBytes(b: byte, hi: byte, lo: byte)
    requires Shape(b) == TwoBytes
    ensures var op := WithShort(b, hi as nat * 0x100 + lo as nat);
            Opcode(op) == b && OperandBytes(op) == [hi, lo]
  {
    var x := hi as nat * 0x100 + lo as nat;
    U2Bytes(hi, lo);
    assert AsI16(x) % 0x1_0000 == x;
    if 0x99 <= b <= 0x9e {
      assert CondIndex(CondAt(b as nat - 0x99)) == b as nat - 0x99;
    } else if 0x9f <= b <= 0xa4 {
      assert CondIndex(CondAt(b as nat - 0x9f)) == b as nat - 0x9f;
    }
  }

  lemma U2Bytes(hi: byte, lo: byte)
    ensures EncodeU2(hi as nat * 0x100 + lo as nat) == [hi, lo]
  {
  }

  // ---------------------------------------------------------------------------
  // The decoder on a cursor

  /** `OpCode::parse`. */
  method ParseOpCode(f: ByteStream) returns (r: Outcome<OpCode>)
    modifies f
    ensures Agrees(Decode(f.v, old(f.i)), r, f.i)
    ensures r.None? && old(f.i) >= |f.v| ==> f.i == old(f.i)
  {
    var b :- f.Next();
    match Shape(b)
    case NoOperand =>
      r := Ok(Bare(b));
    case OneByte =>
      var x :- f.NextU1();
      r := Ok(WithByte(b, x));
    case TwoBytes =>
      var x :- f.NextU2();
      r := Ok(WithShort(b, x));
    case TwoOneByte =>
      var index :- f.NextU1();
      var delta :- f.NextU1();
      r := Ok(Iinc(index as nat, AsI8(delta as int)));
    case Unimplemented =>
      r := Fatal;
  }
}
