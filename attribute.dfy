/** The attributes of `src/class/attribute.rs`: `Code` (with the instruction
    listing and the two maps between instruction numbers and byte offsets),
    `LineNumberTable`, `SourceFile` and `StackMapTable`, with the stack-map
    frames and verification types they hold. Attributes nest: a `Code`
    attribute carries attributes of its own, which are read recursively. */
module Attributes {
  import opened Base
  import opened Source
  import opened Instructions
  import CP = ConstantPool

  /** `VerificationTypeInfo`; the order of the unit variants is that of their tags 0 to 6,
      except that the decoder maps tag 3 to `Double` and tag 4 to `Long`. */
  datatype VerificationTypeInfo =
    | Top | Integer | Float | Long | Double | Null | UninitializedThis
    | Object(cpoolIndex: nat)
    | Uninitialized(offset: nat)

  /** The frame kinds the decoder builds. */
  datatype StackMapFrame =
    | SameFrame(frameType: nat)
    | ChopFrame(frameType: nat, offsetDelta: nat)
    | AppendFrame(frameType: nat, offsetDelta: nat, locals: seq<VerificationTypeInfo>)

  datatype LineNumber = LineNumber(startPc: nat, lineNumber: nat)

  datatype Exception = Exception(startPc: nat, endPc: nat, handlerPc: nat, catchType: nat)

  datatype CodeAttribute = CodeAttribute(
    maxStack: nat,
    maxLocals: nat,
    bytecodeToOp: seq<nat>,
    opToBytecode: seq<nat>,
    code: seq<OpCode>,
    codeRaw: seq<byte>,
    exceptionTable: seq<Exception>,
    attributes: seq<AttributeInfo>)

  datatype Attribute =
    | Code(body: CodeAttribute)
    | StackMapTable(entries: seq<StackMapFrame>)
    | SourceFile(sourcefileIndex: nat, sourcefile: seq<byte>)
    | LineNumberTable(lineNumberTable: seq<LineNumber>)

  datatype AttributeInfo = AttributeInfo(attributeName: seq<byte>, attributeNameIndex: nat, attribute: Attribute)

  /** The instructions of a `code` array and the byte offset each one starts at. */
  datatype Listing = Listing(code: seq<OpCode>, offsets: seq<nat>)

  /** The attribute names the loader recognises, as the bytes of their UTF-8
      (here ASCII) spelling. */
  const CODE: seq<byte> := [0x43, 0x6f, 0x64, 0x65]
  const LINE_NUMBER_TABLE: seq<byte> :=
    [0x4c, 0x69, 0x6e, 0x65, 0x4e, 0x75, 0x6d, 0x62, 0x65, 0x72, 0x54, 0x61, 0x62, 0x6c, 0x65]
  const SOURCE_FILE: seq<byte> := [0x53, 0x6f, 0x75, 0x72, 0x63, 0x65, 0x46, 0x69, 0x6c, 0x65]
  const STACK_MAP_TABLE: seq<byte> :=
    [0x53, 0x74, 0x61, 0x63, 0x6b, 0x4d, 0x61, 0x70, 0x54, 0x61, 0x62, 0x6c, 0x65]

  // ---------------------------------------------------------------------------
  // Verification types and stack-map frames

  /** `VerificationTypeInfo::parse`: a tag byte, then a `u2` for tags 7 and 8;
      a tag above 8 is `unreachable!`. */
  function VerificationType(v: seq<byte>, i: nat): (r: Outcome<Parsed<VerificationTypeInfo>>)
    ensures r.Fatal? <==> i < |v| && v[i] > 8
    ensures r.Ok? ==> i < |v| && r.value.next == i + (if v[i] < 7 then 1 else 3) <= |v|
    ensures r.Ok? ==> (v[i] < 7 <==> !(r.value.value.Object? || r.value.value.Uninitialized?))
  {
    var tag :- U1(v, i);
    match tag.value
    case 0 => Ok(Parsed(Top, tag.next))
    case 1 => Ok(Parsed(Integer, tag.next))
    case 2 => Ok(Parsed(Float, tag.next))
    case 3 => Ok(Parsed(Double, tag.next))
    case 4 => Ok(Parsed(Long, tag.next))
    case 5 => Ok(Parsed(Null, tag.next))
    case 6 => Ok(Parsed(UninitializedThis, tag.next))
    case 7 =>
      var index :- U2(v, tag.next);
      Ok(Parsed(Object(index.value), index.next))
    case 8 =>
      var offset :- U2(v, tag.next);
      Ok(Parsed(Uninitialized(offset.value), offset.next))
    case _ => Fatal
  }

  /** `StackMapFrame::parse`: frame types 0 to 63 are `same_frame`, 248 to 250
      `chop_frame` with a `u2` offset delta, 252 to 254 `append_frame` with a
      `u2` offset delta and `frame_type - 251` verification types; any other
      frame type is a `todo!`. */
  function Frame(v: seq<byte>, i: nat): (r: Outcome<Parsed<StackMapFrame>>)
    ensures r.Fatal? ==> i < |v|
    ensures i < |v| && !(v[i] <= 63 || 248 <= v[i] <= 250 || 252 <= v[i] <= 254) ==> r.Fatal?
    ensures r.Ok? ==> i < |v| && r.value.value.frameType == v[i] as nat
    ensures r.Ok? && r.value.value.AppendFrame? ==> |r.value.value.locals| == v[i] as nat - 251
  {
    var ft :- U1(v, i);
    var t := ft.value as nat;
    if t <= 63 then Ok(Parsed(SameFrame(t), ft.next))
    else if 248 <= t <= 250 then
      var delta :- U2(v, ft.next);
      Ok(Parsed(ChopFrame(t, delta.value), delta.next))
    else if 252 <= t <= 254 then
      var delta :- U2(v, ft.next);
      var locals :- Many(VerificationType, v, delta.next, t - 251);
      Ok(Parsed(AppendFrame(t, delta.value, locals.value), locals.next))
    else Fatal
  }

  /** A verification type whose index fits the `u2` it is stored in. */
  predicate EncodableType(t: VerificationTypeInfo) {
    (t.Object? ==> t.cpoolIndex < 0x1_0000) && (t.Uninitialized? ==> t.offset < 0x1_0000)
  }

  /** The class-file form of a verification type. */
  function EncodeVerificationType(t: VerificationTypeInfo): (b: seq<byte>)
    requires EncodableType(t)
  {
    match t
    case Top => [0]
    case Integer => [1]
    case Float => [2]
    case Double => [3]
    case Long => [4]
    case Null => [5]
    case UninitializedThis => [6]
    case Object(k) => [7] + EncodeU2(k)
    case Uninitialized(k) => [8] + EncodeU2(k)
  }

  /** Decoding an encoded verification type gives it back and stops right after it. */
  lemma VerificationTypeRoundTrip(v: seq<byte>, i: nat, t: VerificationTypeInfo, end: nat)
    requires EncodableType(t)
    requires At(v, i, EncodeVerificationType(t)) && end == i + |EncodeVerificationType(t)|
    ensures VerificationType(v, i) == Ok(Parsed(t, end))
  {
    assert v[i] == EncodeVerificationType(t)[0];
    match t
    case Object(k) =>
      AtConcat(v, i, [7], EncodeU2(k));
      U2Encoded(v, i + 1, k);
    case Uninitialized(k) =>
      AtConcat(v, i, [8], EncodeU2(k));
      U2Encoded(v, i + 1, k);
    case _ =>
  }

  // ---------------------------------------------------------------------------
  // Fixed-width table entries

  /** One `line_number_table` entry: `start_pc`, then `line_number`. */
  function LineNumberEntry(v: seq<byte>, i: nat): (r: Outcome<Parsed<LineNumber>>)
    ensures !r.Fatal?
    ensures r.Ok? <==> i + 4 <= |v|
    ensures r.Ok? ==> r.value.next == i + 4
                      && r.value.value == LineNumber(U2(v, i).value.value, U2(v, i + 2).value.value)
  {
    var startPc :- U2(v, i);
    var lineNumber :- U2(v, startPc.next);
    Ok(Parsed(LineNumber(startPc.value, lineNumber.value), lineNumber.next))
  }

  /** One `exception_table` entry: `start_pc`, `end_pc`, `handler_pc`, `catch_type`. */
  function ExceptionEntry(v: seq<byte>, i: nat): (r: Outcome<Parsed<Exception>>)
    ensures !r.Fatal?
    ensures r.Ok? <==> i + 8 <= |v|
    ensures r.Ok? ==> r.value.next == i + 8
                      && r.value.value == Exception(U2(v, i).value.value, U2(v, i + 2).value.value,
                                                    U2(v, i + 4).value.value, U2(v, i + 6).value.value)
  {
    var startPc :- U2(v, i);
    var endPc :- U2(v, startPc.next);
    var handlerPc :- U2(v, endPc.next);
    var catchType :- U2(v, handlerPc.next);
    Ok(Parsed(Exception(startPc.value, endPc.value, handlerPc.value, catchType.value), catchType.next))
  }

  /** `n` exception-table entries take exactly `8 * n` bytes. */
  lemma {:induction false} ExceptionsWidth(v: seq<byte>, i: nat, n: nat)
    ensures Many(ExceptionEntry, v, i, n).Ok? ==> Many(ExceptionEntry, v, i, n).value.next == i + 8 * n
    decreases n
  {
    if n > 0 && ExceptionEntry(v, i).Ok? {
      ExceptionsWidth(v, i + 8, n - 1);
    }
  }

  // ---------------------------------------------------------------------------
  // The instruction listing of a `code` array

  predicate Increasing(s: seq<nat>) {
    forall a, b | 0 <= a < b < |s| :: s[a] < s[b]
  }

  /** The decode loop of the `Code` branch from byte `start` of `raw`: instructions
      are decoded one after the other until `OpCode::parse` gives `None` (the end
      of `raw`, or an instruction whose operands are cut off, which is dropped);
      an unknown opcode panics. */
  function Disassembly(raw: seq<byte>, start: nat): (r: Outcome<Listing>)
    requires start <= |raw|
    ensures !r.None?
    ensures r.Ok? ==> |r.value.code| == |r.value.offsets|
    decreases |raw| - start
  {
    match Decode(raw, start)
    case None => Ok(Listing([], []))
    case Fatal => Fatal
    case Ok(p) =>
      var rest :- Disassembly(raw, p.next);
      Ok(Listing([p.value] + rest.code, [start] + rest.offsets))
  }

  /** The offsets of a listing start at `start`, increase strictly and stay inside `raw`. */
  lemma {:induction false} DisassemblyOffsets(raw: seq<byte>, start: nat)
    requires start <= |raw| && Disassembly(raw, start).Ok?
    ensures var offs := Disassembly(raw, start).value.offsets;
            && (forall k | 0 <= k < |offs| :: start <= offs[k] < |raw|)
            && Increasing(offs)
            && (offs != [] ==> offs[0] == start)
    decreases |raw| - start
  {
    if Decode(raw, start).Ok? {
      var p := Decode(raw, start).value;
      DecodedWidth(raw, start);
      DisassemblyOffsets(raw, p.next);
      var rest := Disassembly(raw, p.next).value.offsets;
      assert Disassembly(raw, start).value.offsets == [start] + rest;
    }
  }

  /** `bytecode_to_op` after the decode loop has written the instruction number
      `k` at byte offset `offsets[k]`, in order, into `len` zeros. */
  function IndexTable(offsets: seq<nat>, len: nat): (t: seq<nat>)
    requires forall k | 0 <= k < |offsets| :: offsets[k] < len
    ensures |t| == len
  {
    if offsets == [] then seq(len, _ => 0)
    else IndexTable(offsets[..|offsets| - 1], len)[offsets[|offsets| - 1] := |offsets| - 1]
  }

  /** The two maps are inverse: the table sends the start of instruction `k`
      back to `k`, and every byte that starts no instruction to 0. */
  lemma {:induction false} IndexTableInverse(offsets: seq<nat>, len: nat)
    requires forall k | 0 <= k < |offsets| :: offsets[k] < len
    requires Increasing(offsets)
    ensures forall k | 0 <= k < |offsets| :: IndexTable(offsets, len)[offsets[k]] == k
    ensures forall p | 0 <= p < len && p !in offsets :: IndexTable(offsets, len)[p] == 0
    decreases |offsets|
  {
    if offsets != [] {
      var init := offsets[..|offsets| - 1];
      IndexTableInverse(init, len);
      forall k | 0 <= k < |init| ensures offsets[k] != offsets[|offsets| - 1] {
      }
    }
  }

  /** Each listed instruction is what the decoder reads at its offset, and the
      next instruction starts right after it. */
  lemma {:induction false} DisassemblyDecodes(raw: seq<byte>, start: nat, k: nat)
    requires start <= |raw| && Disassembly(raw, start).Ok?
    requires k < |Disassembly(raw, start).value.code|
    ensures var l := Disassembly(raw, start).value;
            Decode(raw, l.offsets[k]).Ok? && Decode(raw, l.offsets[k]).value.value == l.code[k]
            && (k + 1 < |l.code| ==> l.offsets[k + 1] == l.offsets[k] + Width(l.code[k]))
    decreases |raw| - start
  {
    var p := Decode(raw, start).value;
    DecodedWidth(raw, start);
    if k > 0 {
      DisassemblyDecodes(raw, p.next, k - 1);
    } else if 1 < |Disassembly(raw, start).value.code| {
      assert Disassembly(raw, p.next).value.offsets != [];
    }
  }

  // ---------------------------------------------------------------------------
  // Attributes

  /** `AttributeInfo::parse`: the `u2` name index, resolved with `get_utf` at
      once, the `u4` length (read, then ignored: the body is parsed by its
      name alone), then the body. */
  function Attr(v: seq<byte>, i: nat, pool: CP.CpPool): (r: Outcome<Parsed<AttributeInfo>>)
    ensures r.Ok? ==> i + 6 <= r.value.next <= |v|
    ensures r.Ok? ==> U2(v, i).Ok? && r.value.value.attributeNameIndex == U2(v, i).value.value
    ensures r.Ok? ==> CP.GetUtfBytes(pool, r.value.value.attributeNameIndex) == Ok(r.value.value.attributeName)
    decreases Remaining(v, i), 4
  {
    var nameIndex :- U2(v, i);
    var name :- CP.GetUtfBytes(pool, nameIndex.value);
    var length :- U4(v, nameIndex.next);
    var body :- Body(v, length.next, pool, name);
    Ok(Parsed(AttributeInfo(name, nameIndex.value, body.value), body.next))
  }

  /** The body of an attribute named `name`, from position `i`; a name other
      than the four handled is a `todo!`. */
  function Body(v: seq<byte>, i: nat, pool: CP.CpPool, name: seq<byte>): (r: Outcome<Parsed<Attribute>>)
    ensures r.Ok? ==> i <= r.value.next <= |v|
    ensures r.Ok? ==> (r.value.value.Code? <==> name == CODE)
    ensures name !in {CODE, LINE_NUMBER_TABLE, SOURCE_FILE, STACK_MAP_TABLE} ==> r.Fatal?
    ensures r.Ok? && name == CODE ==> CodeBody(v, i, pool) == Ok(Parsed(r.value.value.body, r.value.next))
    ensures name == LINE_NUMBER_TABLE ==> (r.Ok? <==> LineNumbers(v, i).Ok?)
    ensures name == LINE_NUMBER_TABLE && r.Ok? ==>
      r.value == Parsed(LineNumberTable(LineNumbers(v, i).value.value), LineNumbers(v, i).value.next)
    ensures name == STACK_MAP_TABLE ==> (r.Ok? <==> Frames(v, i).Ok?)
    ensures name == STACK_MAP_TABLE && r.Ok? ==>
      r.value == Parsed(StackMapTable(Frames(v, i).value.value), Frames(v, i).value.next)
    ensures name == SOURCE_FILE ==> (r.Ok? <==> U2(v, i).Ok? && CP.GetUtfBytes(pool, U2(v, i).value.value).Ok?)
    ensures name == SOURCE_FILE && r.Ok? ==>
      r.value == Parsed(SourceFile(U2(v, i).value.value, CP.GetUtfBytes(pool, U2(v, i).value.value).value), i + 2)
    decreases Remaining(v, i), 3
  {
    if name == CODE then
      var code :- CodeBody(v, i, pool);
      Ok(Parsed(Code(code.value), code.next))
    else if name == LINE_NUMBER_TABLE then
      var table :- LineNumbers(v, i);
      Ok(Parsed(LineNumberTable(table.value), table.next))
    else if name == SOURCE_FILE then
      var index :- U2(v, i);
      var sourcefile :- CP.GetUtfBytes(pool, index.value);
      Ok(Parsed(SourceFile(index.value, sourcefile), index.next))
    else if name == STACK_MAP_TABLE then
      var entries :- Frames(v, i);
      Ok(Parsed(StackMapTable(entries.value), entries.next))
    else Fatal
  }

  /** The `Code` branch: `max_stack`, `max_locals`, the `u4` code length and that
      many bytes, their listing, the exception table and the nested attributes. */
  function CodeBody(v: seq<byte>, i: nat, pool: CP.CpPool): (r: Outcome<Parsed<CodeAttribute>>)
    ensures r.Ok? ==> i + 12 <= r.value.next <= |v|
    ensures r.Ok? ==> var c := r.value.value;
                      && U2(v, i) == Ok(Parsed(c.maxStack, i + 2))
                      && U2(v, i + 2) == Ok(Parsed(c.maxLocals, i + 4))
                      && U4(v, i + 4) == Ok(Parsed(|c.codeRaw|, i + 8))
                      && i + 8 + |c.codeRaw| <= |v| && c.codeRaw == v[i + 8..i + 8 + |c.codeRaw|]
                      && Disassembly(c.codeRaw, 0) == Ok(Listing(c.code, c.opToBytecode))
                      && (forall k | 0 <= k < |c.opToBytecode| :: c.opToBytecode[k] < |c.codeRaw|)
                      && c.bytecodeToOp == IndexTable(c.opToBytecode, |c.codeRaw|)
    decreases Remaining(v, i), 2
  {
    var maxStack :- U2(v, i);
    var maxLocals :- U2(v, maxStack.next);
    var codeLength :- U4(v, maxLocals.next);
    CodeFrom(v, codeLength.next, pool, maxStack.value, maxLocals.value, codeLength.value)
  }

  /** The `Code` arm from its code bytes on: `len` bytes read one at a time
      (`None` when fewer remain; see `ManyBytes`), their listing, then the tail. */
  function CodeFrom(v: seq<byte>, i: nat, pool: CP.CpPool, maxStack: nat, maxLocals: nat, len: nat)
    : (r: Outcome<Parsed<CodeAttribute>>)
    ensures r.Ok? ==> i + len + 4 <= r.value.next <= |v|
    ensures r.Ok? ==> r.value.value.codeRaw == v[i..i + len]
    ensures r.Ok? ==> var c := r.value.value;
                      && Disassembly(c.codeRaw, 0) == Ok(Listing(c.code, c.opToBytecode))
                      && (forall k | 0 <= k < |c.opToBytecode| :: c.opToBytecode[k] < len)
                      && c.bytecodeToOp == IndexTable(c.opToBytecode, len)
                      && c.maxStack == maxStack && c.maxLocals == maxLocals
    decreases Remaining(v, i), 1
  {
    ManyBytes(v, i, len);
    var raw :- Many(U1, v, i, len);
    var listing :- Disassembly(raw.value, 0);
    DisassemblyOffsets(raw.value, 0);
    CodeTail(v, raw.next, pool, maxStack, maxLocals, raw.value, listing)
  }

  /** The rest of the `Code` arm, after the code bytes: the exception table and
      the nested attributes. */
  function CodeTail(v: seq<byte>, i: nat, pool: CP.CpPool, maxStack: nat, maxLocals: nat,
                    raw: seq<byte>, listing: Listing): (r: Outcome<Parsed<CodeAttribute>>)
    requires forall k | 0 <= k < |listing.offsets| :: listing.offsets[k] < |raw|
    ensures r.Ok? ==> i + 4 <= r.value.next <= |v|
    ensures r.Ok? ==> r.value.value.code == listing.code && r.value.value.opToBytecode == listing.offsets
                      && r.value.value.codeRaw == raw && r.value.value.maxStack == maxStack
                      && r.value.value.maxLocals == maxLocals
    ensures r.Ok? ==> r.value.value.bytecodeToOp == IndexTable(listing.offsets, |raw|)
    decreases Remaining(v, i), 0
  {
    var exceptionCount :- U2(v, i);
    ExceptionsWidth(v, exceptionCount.next, exceptionCount.value);
    var exceptions :- Many(ExceptionEntry, v, exceptionCount.next, exceptionCount.value);
    var attributeCount :- U2(v, exceptions.next);
    var attributes :- Attrs(v, attributeCount.next, pool, attributeCount.value);
    Ok(Parsed(CodeAttribute(maxStack, maxLocals, IndexTable(listing.offsets, |raw|),
                            listing.offsets, listing.code, raw, exceptions.value, attributes.value),
              attributes.next))
  }

  /** What `CodeTail` reads: the `u2` exception-table length, exactly that many
      8-byte entries, then the `u2` attribute count and exactly that many nested
      attributes right after them. */
  lemma CodeTailLayout(v: seq<byte>, i: nat, pool: CP.CpPool, maxStack: nat, maxLocals: nat,
                       raw: seq<byte>, listing: Listing)
    requires forall k | 0 <= k < |listing.offsets| :: listing.offsets[k] < |raw|
    requires CodeTail(v, i, pool, maxStack, maxLocals, raw, listing).Ok?
    ensures var p := CodeTail(v, i, pool, maxStack, maxLocals, raw, listing).value;
            var c := p.value; var n := |c.exceptionTable|;
            && U2(v, i) == Ok(Parsed(n, i + 2))
            && Many(ExceptionEntry, v, i + 2, n) == Ok(Parsed(c.exceptionTable, i + 2 + 8 * n))
            && U2(v, i + 2 + 8 * n) == Ok(Parsed(|c.attributes|, i + 4 + 8 * n))
            && Attrs(v, i + 4 + 8 * n, pool, |c.attributes|) == Ok(Parsed(c.attributes, p.next))
  {
    ExceptionsWidth(v, i + 2, U2(v, i).value.value);
  }

  /** What a decoded `Code` attribute holds: `code` and `op_to_bytecode` are
      the listing of `code_raw` (strictly increasing offsets from 0, each the
      start of the instruction kept at that index), and `bytecode_to_op` has
      one slot per byte of code that sends each instruction's start offset back
      to its index and every other byte to 0. */
  lemma CodeContents(v: seq<byte>, i: nat, pool: CP.CpPool)
    requires CodeBody(v, i, pool).Ok?
    ensures var c := CodeBody(v, i, pool).value.value;
            && |c.code| == |c.opToBytecode|
            && |c.bytecodeToOp| == |c.codeRaw|
            && (c.opToBytecode != [] ==> c.opToBytecode[0] == 0)
            && Increasing(c.opToBytecode)
            && (forall k | 0 <= k < |c.opToBytecode| ::
                  && c.opToBytecode[k] < |c.codeRaw|
                  && c.bytecodeToOp[c.opToBytecode[k]] == k
                  && Decode(c.codeRaw, c.opToBytecode[k]).Ok?
                  && Decode(c.codeRaw, c.opToBytecode[k]).value.value == c.code[k])
            && (forall p | 0 <= p < |c.codeRaw| && p !in c.opToBytecode :: c.bytecodeToOp[p] == 0)
  {
    var c := CodeBody(v, i, pool).value.value;
    DisassemblyOffsets(c.codeRaw, 0);
    IndexTableInverse(c.opToBytecode, |c.codeRaw|);
    forall k | 0 <= k < |c.opToBytecode|
      ensures Decode(c.codeRaw, c.opToBytecode[k]).Ok?
              && Decode(c.codeRaw, c.opToBytecode[k]).value.value == c.code[k]
    {
      DisassemblyDecodes(c.codeRaw, 0, k);
    }
  }

  /** `n` attributes one after the other, as the counted attribute loops read
      them: the first attribute that fails ends the whole read. */
  function Attrs(v: seq<byte>, i: nat, pool: CP.CpPool, n: nat): (r: Outcome<Parsed<seq<AttributeInfo>>>)
    ensures r.Ok? ==> |r.value.value| == n && i <= r.value.next
    ensures r.Ok? && 0 < n ==> r.value.next <= |v|
    decreases Remaining(v, i), 5, n
  {
    if n == 0 then Ok(Parsed([], i))
    else
      var a :- Attr(v, i, pool);
      Prepend([a.value], Attrs(v, a.next, pool, n - 1))
  }

  /** The `LineNumberTable` body: a `u2` count, then that many entries. */
  function LineNumbers(v: seq<byte>, i: nat): (r: Outcome<Parsed<seq<LineNumber>>>)
    ensures !r.Fatal?
    ensures r.Ok? ==> U2(v, i).Ok? && |r.value.value| == U2(v, i).value.value
                      && r.value.next == i + 2 + 4 * |r.value.value| <= |v|
  {
    var count :- U2(v, i);
    LineNumbersWidth(v, count.next, count.value);
    var table :- Many(LineNumberEntry, v, count.next, count.value);
    Ok(Parsed(table.value, table.next))
  }

  /** The `StackMapTable` body: a `u2` count, then that many frames. */
  function Frames(v: seq<byte>, i: nat): (r: Outcome<Parsed<seq<StackMapFrame>>>)
    ensures r.Ok? ==> U2(v, i).Ok? && |r.value.value| == U2(v, i).value.value
                      && i + 2 <= r.value.next <= |v|
  {
    var count :- U2(v, i);
    FramesAdvance(v, count.next, count.value);
    var entries :- Many(Frame, v, count.next, count.value);
    Ok(Parsed(entries.value, entries.next))
  }

  /** `n` line-number entries take exactly `4 * n` bytes. */
  lemma {:induction false} LineNumbersWidth(v: seq<byte>, i: nat, n: nat)
    ensures !Many(LineNumberEntry, v, i, n).Fatal?
    ensures Many(LineNumberEntry, v, i, n).Ok? ==> Many(LineNumberEntry, v, i, n).value.next == i + 4 * n
    ensures Many(LineNumberEntry, v, i, n).Ok? && i <= |v| ==> i + 4 * n <= |v|
    decreases n
  {
    if n > 0 && LineNumberEntry(v, i).Ok? {
      LineNumbersWidth(v, i + 4, n - 1);
    }
  }

  /** Reading frames never moves backwards. */
  lemma {:induction false} FramesAdvance(v: seq<byte>, i: nat, n: nat)
    ensures Many(Frame, v, i, n).Ok? ==> i <= Many(Frame, v, i, n).value.next <= |v| || n == 0
    decreases n
  {
    if n > 0 && Frame(v, i).Ok? {
      FrameAdvances(v, i);
      FramesAdvance(v, Frame(v, i).value.next, n - 1);
    }
  }

  lemma FrameAdvances(v: seq<byte>, i: nat)
    requires Frame(v, i).Ok?
    ensures i < Frame(v, i).value.next <= |v|
  {
    var t := v[i] as nat;
    if 252 <= t <= 254 {
      VerificationTypesAdvance(v, i + 3, t - 251);
    }
  }

  lemma {:induction false} VerificationTypesAdvance(v: seq<byte>, i: nat, n: nat)
    requires i <= |v|
    ensures Many(VerificationType, v, i, n).Ok? ==> i <= Many(VerificationType, v, i, n).value.next <= |v|
    decreases n
  {
    if n > 0 && VerificationType(v, i).Ok? {
      VerificationTypesAdvance(v, VerificationType(v, i).value.next, n - 1);
    }
  }

  /** One iteration of the attribute loop: the attribute read at `i` joins those
      already pushed. */
  lemma AttrsStep(v: seq<byte>, i: nat, pool: CP.CpPool, n: nat, acc: seq<AttributeInfo>, a: AttributeInfo, j: nat)
    requires 0 < n && Attr(v, i, pool) == Ok(Parsed(a, j))
    ensures Prepend(acc, Attrs(v, i, pool, n)) == Prepend(acc + [a], Attrs(v, j, pool, n - 1))
  {
    PrependTwice(acc, a, Attrs(v, j, pool, n - 1));
  }

  // ---------------------------------------------------------------------------
  // Round trips

  /** A frame the decoder can produce, with fields that fit their fields in the file. */
  predicate EncodableFrame(fr: StackMapFrame) {
    match fr
    case SameFrame(t) => t <= 63
    case ChopFrame(t, delta) => 248 <= t <= 250 && delta < 0x1_0000
    case AppendFrame(t, delta, locals) =>
      252 <= t <= 254 && delta < 0x1_0000 && |locals| == t - 251
      && forall k | 0 <= k < |locals| :: EncodableType(locals[k])
  }

  function EncodeTypes(ts: seq<VerificationTypeInfo>): (bs: seq<seq<byte>>)
    requires forall k | 0 <= k < |ts| :: EncodableType(ts[k])
    ensures |bs| == |ts|
    ensures forall k | 0 <= k < |ts| :: bs[k] == EncodeVerificationType(ts[k])
  {
    seq(|ts|, k requires 0 <= k < |ts| => EncodeVerificationType(ts[k]))
  }

  /** The class-file form of a stack-map frame. */
  function EncodeFrame(fr: StackMapFrame): (b: seq<byte>)
    requires EncodableFrame(fr)
  {
    match fr
    case SameFrame(t) => [t as byte]
    case ChopFrame(t, delta) => [t as byte] + EncodeU2(delta)
    case AppendFrame(t, delta, locals) => [t as byte] + EncodeU2(delta) + Concat(EncodeTypes(locals))
  }

  lemma EachTypeRoundTrip(v: seq<byte>, ts: seq<VerificationTypeInfo>, bs: seq<seq<byte>>)
    requires forall k | 0 <= k < |ts| :: EncodableType(ts[k])
    requires |bs| == |ts| && forall k | 0 <= k < |ts| :: bs[k] == EncodeVerificationType(ts[k])
    ensures ReadsBack(VerificationType, v, ts, bs)
  {
    forall j: nat, k | 0 <= k < |ts| && At(v, j, bs[k])
      ensures VerificationType(v, j) == Ok(Parsed(ts[k], j + |bs[k]|))
    {
      VerificationTypeRoundTrip(v, j, ts[k], j + |bs[k]|);
    }
  }

  /** Decoding an encoded frame gives it back and stops right after it. */
  lemma FrameRoundTrip(v: seq<byte>, i: nat, fr: StackMapFrame, end: nat)
    requires EncodableFrame(fr)
    requires At(v, i, EncodeFrame(fr)) && end == i + |EncodeFrame(fr)|
    ensures Frame(v, i) == Ok(Parsed(fr, end))
  {
    assert v[i] == EncodeFrame(fr)[0];
    match fr
    case SameFrame(t) =>
    case ChopFrame(t, delta) =>
      AtConcat(v, i, [t as byte], EncodeU2(delta));
      U2Encoded(v, i + 1, delta);
    case AppendFrame(t, delta, locals) =>
      var bs := EncodeTypes(locals);
      AppendFrameRoundTrip(v, i, t, delta, locals, bs, end);
  }

  lemma AppendFrameRoundTrip(v: seq<byte>, i: nat, t: nat, delta: nat, locals: seq<VerificationTypeInfo>,
                             bs: seq<seq<byte>>, end: nat)
    requires 252 <= t <= 254 && delta < 0x1_0000 && |locals| == t - 251
    requires forall k | 0 <= k < |locals| :: EncodableType(locals[k])
    requires bs == EncodeTypes(locals)
    requires At(v, i, [t as byte] + EncodeU2(delta) + Concat(bs))
    requires end == i + 3 + |Concat(bs)|
    ensures Frame(v, i) == Ok(Parsed(AppendFrame(t, delta, locals), end))
  {
    AtConcat(v, i, [t as byte] + EncodeU2(delta), Concat(bs));
    AtConcat(v, i, [t as byte], EncodeU2(delta));
    U2Encoded(v, i + 1, delta);
    EachTypeRoundTrip(v, locals, bs);
    ManyConcat(VerificationType, v, i + 3, locals, bs, end);
    AppendFrameRead(v, i, t, delta, locals, end);
  }

  lemma AppendFrameRead(v: seq<byte>, i: nat, t: nat, delta: nat, locals: seq<VerificationTypeInfo>, end: nat)
    requires 252 <= t <= 254 && |locals| == t - 251
    requires i < |v| && v[i] as nat == t && U2(v, i + 1) == Ok(Parsed(delta, i + 3))
    requires Many(VerificationType, v, i + 3, |locals|) == Ok(Parsed(locals, end))
    ensures Frame(v, i) == Ok(Parsed(AppendFrame(t, delta, locals), end))
  {
  }

  function EncodeAll(ops: seq<OpCode>): (bs: seq<seq<byte>>)
    requires forall k | 0 <= k < |ops| :: WellFormed(ops[k])
    ensures |bs| == |ops|
    ensures forall k | 0 <= k < |ops| :: bs[k] == Encode(ops[k])
  {
    seq(|ops|, k requires 0 <= k < |ops| => Encode(ops[k]))
  }

  /** A `code` array made of encoded instructions disassembles to exactly those
      instructions. */
  lemma {:induction false} DisassemblyRoundTrip(raw: seq<byte>, start: nat, ops: seq<OpCode>, bs: seq<seq<byte>>)
    requires forall k | 0 <= k < |ops| :: WellFormed(ops[k])
    requires forall k | 0 <= k < |ops| :: !(ops[k].AStore? && ops[k].slot != 0)
    requires |bs| == |ops| && forall k | 0 <= k < |ops| :: bs[k] == Encode(ops[k])
    requires At(raw, start, Concat(bs)) && start + |Concat(bs)| == |raw|
    ensures Disassembly(raw, start).Ok? && Disassembly(raw, start).value.code == ops
    decreases |ops|
  {
    if ops == [] {
      assert Decode(raw, start).None?;
    } else {
      ConcatSplit(raw, start, bs);
      DecodeEncoded(raw, start, ops[0]);
      var next := start + Width(ops[0]);
      DisassemblyRoundTrip(raw, next, ops[1..], bs[1..]);
      DisassemblyCons(raw, start, ops[0], next, ops[1..]);
      assert ops == [ops[0]] + ops[1..];
    }
  }

  lemma DisassemblyCons(raw: seq<byte>, start: nat, o: OpCode, next: nat, rest: seq<OpCode>)
    requires start <= |raw| && Decode(raw, start) == Ok(Parsed(o, next))
    requires next <= |raw| && Disassembly(raw, next).Ok? && Disassembly(raw, next).value.code == rest
    ensures Disassembly(raw, start).Ok? && Disassembly(raw, start).value.code == [o] + rest
  {
  }

  // ---------------------------------------------------------------------------
  // The parsers, over a `ByteStream`

  /** `VerificationTypeInfo::parse`. */
  method ParseVerificationType(f: ByteStream) returns (r: Outcome<VerificationTypeInfo>)
    modifies f
    ensures Agrees(VerificationType(f.v, old(f.i)), r, f.i)
  {
    var tag :- f.NextU1();
    match tag
    case 0 => r := Ok(Top);
    case 1 => r := Ok(Integer);
    case 2 => r := Ok(Float);
    case 3 => r := Ok(Double);
    case 4 => r := Ok(Long);
    case 5 => r := Ok(Null);
    case 6 => r := Ok(UninitializedThis);
    case 7 =>
      var index :- f.NextU2();
      r := Ok(Object(index));
    case 8 =>
      var offset :- f.NextU2();
      r := Ok(Uninitialized(offset));
    case _ => r := Fatal;
  }

  /** `StackMapFrame::parse`. */
  method ParseFrame(f: ByteStream) returns (r: Outcome<StackMapFrame>)
    modifies f
    ensures Agrees(Frame(f.v, old(f.i)), r, f.i)
  {
    var ft :- f.NextU1();
    var t := ft as nat;
    if t <= 63 {
      r := Ok(SameFrame(t));
    } else if 248 <= t <= 250 {
      var delta :- f.NextU2();
      r := Ok(ChopFrame(t, delta));
    } else if 252 <= t <= 254 {
      var delta :- f.NextU2();
      var capacity := t - 251;
      var locals: seq<VerificationTypeInfo> := [];
      ghost var start, left := f.i, capacity;
      for k := 0 to capacity
        invariant left == capacity - k
        invariant Many(VerificationType, f.v, start, capacity)
                  == Prepend(locals, Many(VerificationType, f.v, f.i, left))
      {
        ghost var at := f.i;
        var local :- ParseVerificationType(f);
        ManyStep(VerificationType, f.v, at, left, locals, local, f.i);
        locals, left := locals + [local], left - 1;
      }
      assert locals + [] == locals;
      r := Ok(AppendFrame(t, delta, locals));
    } else {
      r := Fatal;
    }
  }

  /** The `StackMapTable` arm: the entry count and the loop over the frames. */
  method ParseFrames(f: ByteStream) returns (r: Outcome<seq<StackMapFrame>>)
    modifies f
    ensures Agrees(Frames(f.v, old(f.i)), r, f.i)
  {
    var count :- f.NextU2();
    FramesAdvance(f.v, f.i, count);
    var entries: seq<StackMapFrame> := [];
    ghost var start, left := f.i, count;
    for k := 0 to count
      invariant left == count - k
      invariant Many(Frame, f.v, start, count) == Prepend(entries, Many(Frame, f.v, f.i, left))
    {
      ghost var at := f.i;
      var entry :- ParseFrame(f);
      ManyStep(Frame, f.v, at, left, entries, entry, f.i);
      entries, left := entries + [entry], left - 1;
    }
    assert entries + [] == entries;
    r := Ok(entries);
  }

  /** The struct literal of the `LineNumberTable` loop body. */
  method ParseLineNumber(f: ByteStream) returns (r: Outcome<LineNumber>)
    modifies f
    ensures Agrees(LineNumberEntry(f.v, old(f.i)), r, f.i)
  {
    var startPc :- f.NextU2();
    var lineNumber :- f.NextU2();
    r := Ok(LineNumber(startPc, lineNumber));
  }

  /** The struct literal of the exception-table loop body. */
  method ParseException(f: ByteStream) returns (r: Outcome<Exception>)
    modifies f
    ensures Agrees(ExceptionEntry(f.v, old(f.i)), r, f.i)
  {
    var startPc :- f.NextU2();
    var endPc :- f.NextU2();
    var handlerPc :- f.NextU2();
    var catchType :- f.NextU2();
    r := Ok(Exception(startPc, endPc, handlerPc, catchType));
  }

  /** The `LineNumberTable` arm: the table length and the loop over the entries. */
  method ParseLineNumbers(f: ByteStream) returns (r: Outcome<seq<LineNumber>>)
    modifies f
    ensures Agrees(LineNumbers(f.v, old(f.i)), r, f.i)
  {
    var count :- f.NextU2();
    LineNumbersWidth(f.v, f.i, count);
    var table: seq<LineNumber> := [];
    ghost var start, left := f.i, count;
    for k := 0 to count
      invariant left == count - k
      invariant Many(LineNumberEntry, f.v, start, count) == Prepend(table, Many(LineNumberEntry, f.v, f.i, left))
    {
      ghost var at := f.i;
      var entry :- ParseLineNumber(f);
      ManyStep(LineNumberEntry, f.v, at, left, table, entry, f.i);
      table, left := table + [entry], left - 1;
    }
    assert table + [] == table;
    r := Ok(table);
  }

  /** The exception-table loop of the `Code` arm. */
  method ParseExceptions(f: ByteStream, n: nat) returns (r: Outcome<seq<Exception>>)
    modifies f
    ensures Agrees(Many(ExceptionEntry, f.v, old(f.i), n), r, f.i)
  {
    var table: seq<Exception> := [];
    ghost var start, left := f.i, n;
    for k := 0 to n
      invariant left == n - k
      invariant Many(ExceptionEntry, f.v, start, n) == Prepend(table, Many(ExceptionEntry, f.v, f.i, left))
    {
      ghost var at := f.i;
      var e :- ParseException(f);
      ManyStep(ExceptionEntry, f.v, at, left, table, e, f.i);
      table, left := table + [e], left - 1;
    }
    assert table + [] == table;
    r := Ok(table);
  }

  /** The listing `l` followed by whatever the rest of the decode loop produces. */
  function Extend(l: Listing, r: Outcome<Listing>): (q: Outcome<Listing>)
    ensures r.Ok? ==> q == Ok(Listing(l.code + r.value.code, l.offsets + r.value.offsets))
    ensures !r.Ok? ==> q == r
    ensures l == Listing([], []) ==> q == r
    ensures r == Ok(Listing([], [])) ==> q == Ok(l)
  {
    match r
    case Ok(rest) =>
      assert l == Listing([], []) ==> l.code + rest.code == rest.code && l.offsets + rest.offsets == rest.offsets;
      assert rest == Listing([], []) ==> l.code + rest.code == l.code && l.offsets + rest.offsets == l.offsets;
      Ok(Listing(l.code + rest.code, l.offsets + rest.offsets))
    case _ => r
  }

  /** What the decode loop knows when it is about to decode at `start`: the
      instructions found so far, followed by the listing from `start`, make up
      the whole listing, and the table holds the inverse of what was found. */
  ghost predicate Progress(raw: seq<byte>, start: nat, code: seq<OpCode>, offsets: seq<nat>, table: seq<nat>) {
    && start <= |raw|
    && |code| == |offsets|
    && (forall k | 0 <= k < |offsets| :: offsets[k] < start)
    && Extend(Listing(code, offsets), Disassembly(raw, start)) == Disassembly(raw, 0)
    && table == IndexTable(offsets, |raw|)
  }

  lemma ProgressStart(raw: seq<byte>)
    ensures Progress(raw, 0, [], [], seq(|raw|, _ => 0))
  {
  }

  /** One iteration of the decode loop: the instruction decoded at `start` joins the listing. */
  lemma ProgressStep(raw: seq<byte>, start: nat, code: seq<OpCode>, offsets: seq<nat>, table: seq<nat>,
                     o: OpCode, next: nat)
    requires Progress(raw, start, code, offsets, table)
    requires Decode(raw, start) == Ok(Parsed(o, next))
    ensures start < next
    ensures Progress(raw, next, code + [o], offsets + [start], table[start := |code|])
  {
    DecodedWidth(raw, start);
    ListingStep(raw, start, Listing(code, offsets), o, next);
    IndexTableStep(offsets, start, |raw|);
  }

  lemma ListingStep(raw: seq<byte>, start: nat, l: Listing, o: OpCode, next: nat)
    requires start <= |raw| && Decode(raw, start) == Ok(Parsed(o, next))
    ensures Extend(l, Disassembly(raw, start)) == Extend(Listing(l.code + [o], l.offsets + [start]), Disassembly(raw, next))
  {
    var rest := Disassembly(raw, next);
    if rest.Ok? {
      assert l.code + ([o] + rest.value.code) == l.code + [o] + rest.value.code;
      assert l.offsets + ([start] + rest.value.offsets) == l.offsets + [start] + rest.value.offsets;
    }
  }

  lemma IndexTableStep(offsets: seq<nat>, start: nat, len: nat)
    requires forall k | 0 <= k < |offsets| :: offsets[k] < len
    requires start < len
    ensures IndexTable(offsets + [start], len) == IndexTable(offsets, len)[start := |offsets|]
  {
    assert (offsets + [start])[..|offsets|] == offsets;
  }

  /** The loop stops where the decoder gives `None`, with the whole listing in hand. */
  lemma ProgressDone(raw: seq<byte>, start: nat, code: seq<OpCode>, offsets: seq<nat>, table: seq<nat>)
    requires Progress(raw, start, code, offsets, table)
    requires Decode(raw, start).None?
    ensures Disassembly(raw, 0) == Ok(Listing(code, offsets))
    ensures table == IndexTable(offsets, |raw|)
  {
  }

  /** The loop stops where the decoder panics, and so does the whole decode. */
  lemma ProgressFatal(raw: seq<byte>, start: nat, code: seq<OpCode>, offsets: seq<nat>, table: seq<nat>)
    requires Progress(raw, start, code, offsets, table)
    requires Decode(raw, start).Fatal?
    ensures Disassembly(raw, 0) == Fatal
  {
  }

  /** The decode loop of the `Code` arm over a fresh stream on `raw`, filling
      `bytecode_to_op` in place: the listing is `Disassembly(raw, 0)` and the
      table is its inverse map. */
  method Disassemble(raw: seq<byte>) returns (r: Outcome<Listing>, bytecodeToOp: seq<nat>)
    ensures r == Disassembly(raw, 0)
    ensures r.Ok? ==> (forall k | 0 <= k < |r.value.offsets| :: r.value.offsets[k] < |raw|)
                      && bytecodeToOp == IndexTable(r.value.offsets, |raw|)
  {
    var stream := new ByteStream.From(raw);
    var table := new nat[|raw|](_ => 0);
    var code: seq<OpCode> := [];
    var offsets: seq<nat> := [];
    var start: nat := 0;
    assert table[..] == seq(|raw|, _ => 0);
    ProgressStart(raw);
    while true
      invariant stream.v == raw && stream.i == start
      invariant Progress(raw, start, code, offsets, table[..])
      decreases |raw| - start
    {
      var op := ParseOpCode(stream);
      if op.None? {
        ProgressDone(raw, start, code, offsets, table[..]);
        break;
      } else if op.Fatal? {
        ProgressFatal(raw, start, code, offsets, table[..]);
        return Fatal, [];
      }
      ProgressStep(raw, start, code, offsets, table[..], op.value, stream.i);
      ghost var before: seq<nat> := table[..];
      var n: nat := |code|;
      table[start] := n;
      assert table[..] == before[start := n];
      offsets := offsets + [start];
      code := code + [op.value];
      start := stream.i;
    }
    r, bytecodeToOp := Ok(Listing(code, offsets)), table[..];
  }

  /** `AttributeInfo::parse`. */
  method ParseAttribute(f: ByteStream, pool: CP.CpPool) returns (r: Outcome<AttributeInfo>)
    modifies f
    ensures Agrees(Attr(f.v, old(f.i), pool), r, f.i)
    decreases Remaining(f.v, f.i), 4
  {
    var nameIndex :- f.NextU2();
    var name :- CP.GetUtfBytes(pool, nameIndex);
    var _ :- f.NextU4();
    var body :- ParseBody(f, pool, name);
    r := Ok(AttributeInfo(name, nameIndex, body));
  }

  /** The `match attribute_name.as_str()` of `AttributeInfo::parse`. */
  method ParseBody(f: ByteStream, pool: CP.CpPool, name: seq<byte>) returns (r: Outcome<Attribute>)
    modifies f
    ensures Agrees(Body(f.v, old(f.i), pool, name), r, f.i)
    decreases Remaining(f.v, f.i), 3
  {
    if name == CODE {
      var code :- ParseCode(f, pool);
      r := Ok(Code(code));
    } else if name == LINE_NUMBER_TABLE {
      var table :- ParseLineNumbers(f);
      r := Ok(LineNumberTable(table));
    } else if name == SOURCE_FILE {
      var index :- f.NextU2();
      var sourcefile :- CP.GetUtfBytes(pool, index);
      r := Ok(SourceFile(index, sourcefile));
    } else if name == STACK_MAP_TABLE {
      var entries :- ParseFrames(f);
      r := Ok(StackMapTable(entries));
    } else {
      r := Fatal;
    }
  }

  /** The `"Code"` arm of `AttributeInfo::parse`. */
  method ParseCode(f: ByteStream, pool: CP.CpPool) returns (r: Outcome<CodeAttribute>)
    modifies f
    ensures Agrees(CodeBody(f.v, old(f.i), pool), r, f.i)
    decreases Remaining(f.v, f.i), 2
  {
    var maxStack :- f.NextU2();
    var maxLocals :- f.NextU2();
    var codeLength :- f.NextU4();
    r := ParseCodeFrom(f, pool, maxStack, maxLocals, codeLength);
  }

  /** The `"Code"` arm from the code bytes on. */
  method ParseCodeFrom(f: ByteStream, pool: CP.CpPool, maxStack: nat, maxLocals: nat, len: nat)
    returns (r: Outcome<CodeAttribute>)
    modifies f
    ensures Agrees(CodeFrom(f.v, old(f.i), pool, maxStack, maxLocals, len), r, f.i)
    decreases Remaining(f.v, f.i), 1
  {
    ManyBytes(f.v, f.i, len);
    var raw :- CP.ParseBytes(f, len);
    var listing, bytecodeToOp := Disassemble(raw);
    var l :- listing;
    r := ParseCodeTail(f, pool, maxStack, maxLocals, raw, l, bytecodeToOp);
  }

  /** The `"Code"` arm after the code bytes are decoded. */
  method ParseCodeTail(f: ByteStream, pool: CP.CpPool, maxStack: nat, maxLocals: nat,
                       raw: seq<byte>, l: Listing, bytecodeToOp: seq<nat>) returns (r: Outcome<CodeAttribute>)
    requires forall k | 0 <= k < |l.offsets| :: l.offsets[k] < |raw|
    requires bytecodeToOp == IndexTable(l.offsets, |raw|)
    modifies f
    ensures Agrees(CodeTail(f.v, old(f.i), pool, maxStack, maxLocals, raw, l), r, f.i)
    decreases Remaining(f.v, f.i), 0
  {
    var exceptionCount :- f.NextU2();
    ExceptionsWidth(f.v, f.i, exceptionCount);
    var exceptions :- ParseExceptions(f, exceptionCount);
    var attributeCount :- f.NextU2();
    var attributes :- ParseAttributes(f, pool, attributeCount);
    r := Ok(CodeAttribute(maxStack, maxLocals, bytecodeToOp, l.offsets, l.code, raw, exceptions, attributes));
  }

  /** Where the attribute loop stands: the attributes pushed so far, followed
      by the `left` still to be read from `i`, are the whole run read from `start`. */
  ghost predicate AttrsSoFar(v: seq<byte>, start: nat, pool: CP.CpPool, n: nat,
                             attributes: seq<AttributeInfo>, i: nat, left: nat) {
    start <= i && Attrs(v, start, pool, n) == Prepend(attributes, Attrs(v, i, pool, left))
  }

  /** One pass of the attribute loop's body: read an attribute and push it. */
  method PushAttribute(f: ByteStream, pool: CP.CpPool, ghost start: nat, ghost n: nat,
                       attributes: seq<AttributeInfo>, ghost left: nat) returns (r: Outcome<seq<AttributeInfo>>)
    requires 0 < left && AttrsSoFar(f.v, start, pool, n, attributes, f.i, left)
    modifies f
    ensures r.Ok? ==> AttrsSoFar(f.v, start, pool, n, r.value, f.i, left - 1)
    ensures r.None? ==> Attrs(f.v, start, pool, n) == None
    ensures r.Fatal? ==> Attrs(f.v, start, pool, n) == Fatal
    decreases Remaining(f.v, f.i), 5
  {
    ghost var at := f.i;
    var a :- ParseAttribute(f, pool);
    AttrsStep(f.v, at, pool, left, attributes, a, f.i);
    r := Ok(attributes + [a]);
  }

  /** The counted loop that reads `n` attributes and pushes each one. */
  method ParseAttributes(f: ByteStream, pool: CP.CpPool, n: nat) returns (r: Outcome<seq<AttributeInfo>>)
    modifies f
    ensures Agrees(Attrs(f.v, old(f.i), pool, n), r, f.i)
    decreases Remaining(f.v, f.i), 6
  {
    var attributes: seq<AttributeInfo> := [];
    ghost var start, left := f.i, n;
    for k := 0 to n
      invariant left == n - k
      invariant AttrsSoFar(f.v, start, pool, n, attributes, f.i, left)
    {
      attributes :- PushAttribute(f, pool, start, n, attributes, left);
      left := left - 1;
    }
    assert attributes + [] == attributes;
    r := Ok(attributes);
  }
}
