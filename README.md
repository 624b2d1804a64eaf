# jrust in Dafny

A model of the core of `jrust`, a small Java class-file loader and bytecode
interpreter written in Rust. The model covers:

- the byte cursor the decoder reads through (`Source`);
- the constant pool decoder and its typed lookups (`ConstantPool`);
- the instruction decoder (`Instructions`);
- the attribute decoder: `Code`, `LineNumberTable`, `SourceFile` and
  `StackMapTable` (`Attributes`);
- the field, method and class decoders (`Fields`, `Methods`, `Classes`);
- the interpreter: the method table built from the class, the lookup of
  `main`, and `exec`, the loop that runs one method's bytecode
  (`Interpreter`).

Every decoder is written twice:

- a pure function from the bytes and a start position to an
  `Outcome<Parsed<T>>` (the value and the position after it);
- an imperative method over the `ByteStream` class that follows the Rust
  code read by read.

Each method is proved to agree with its function (`Agrees`): the same value,
the same failure, and the cursor left where the function says.

`Outcome` has three cases:

- `Ok`;
- `None`, the Rust `Option::None` that `?` propagates;
- `Fatal`, any panic: `panic!`, `todo!`, `unreachable!`, a failed `unwrap()`,
  a `cast!` that meets the wrong variant, and the debug-build overflow of
  `index - 1` when the index is 0.

Round trips from an independent encoder show that the decoders read back what
the class-file format writes. The interpreter is:

- a recursive function `Run` over a frame (position, locals, operand stack);
- the method `Exec`, a `while` loop over a `ByteStream` that calls itself for
  `invokestatic`.

`Exec` is proved equal to `Run`. Lemmas about `Run` state what each
instruction does.

Points where the model follows the code rather than the usual reading of the
class-file format:

- Branch offsets are added to the position after the whole branch
  instruction, as `advance_by` is called once the operands have been read;
  section 6.5 of the Java Virtual Machine Specification measures them from
  the opcode.
- A branch whose target is exactly the end of the bytecode panics, because
  `advance_by` accepts only positions strictly inside the buffer
  (`Source.SeekToEndFails`).
- The negative-offset guard in `advance_by` can never fire from any position
  a read can leave (at most `isize::MAX`; `Source.SeekWithinBuffer`): a jump
  before the start wraps around and then fails the length test. The guard
  could fire only from a position an earlier failed seek wrapped past 2^63
  (`Source.SeekGuardAfterWrap`), and `exec` panics on that failure instead of
  going on.
- All four `astore_<n>` opcodes decode to `astore_0`
  (`Instructions.AStoreQuirk`).
- Tag 11 (`InterfaceMethodref`) is not decoded and panics
  (`ConstantPool.InterfaceMethodrefIsFatal`).
- `MethodInfo::parse` reads the attribute count before it resolves the name,
  while `FieldInfo::parse` resolves the name first. The two can therefore fail
  differently on the same bytes (`Methods.OrderOfResolution`).

## Model

| member | source | states |
|---|---|---|
| Base.Unwrap | src/main.rs:70-74 | `unwrap()` panics exactly on `None`, and otherwise keeps the value or the failure |
| Base.AsI8 | src/code.rs:85 | `as i8`: the result is in [-128, 128), agrees with the input modulo 2^8, and is the input itself when that is already in range |
| Base.AsI16 | src/code.rs:86 | `as i16`: the result is in [-2^15, 2^15), agrees with the input modulo 2^16, and is the input when in range |
| Base.AsI32 | src/main.rs:283 | `as i32`: the result is in [-2^31, 2^31), agrees with the input modulo 2^32, and is the input when in range |
| Base.AsIsize | src/source.rs:24-27 | `as isize` on a 64-bit target: the result is in isize range, agrees with the input modulo 2^64, and is the input when in range |
| Base.AsUsize | src/source.rs:27 | `as usize`: the result is below 2^64, agrees with the input modulo 2^64, and is the input when in range |
| Base.Utf8CharWidth | src/class/constant_pool.rs:78 | the width of the well-formed UTF-8 character at a position is at most 4 and is 1 for an ASCII byte |
| Base.AsciiIsUtf8 | src/class/constant_pool.rs:78 | any run of ASCII bytes passes the UTF-8 check of `String::from_utf8` |
| Source.U1 | src/source.rs:14-36 | reading one byte never panics, succeeds exactly when a byte remains, and gives that byte with the position one further |
| Source.U2 | src/source.rs:39-43 | `next_u2` succeeds exactly when two bytes remain, gives their big-endian value below 2^16 and advances by 2 |
| Source.U4 | src/source.rs:46-52 | `next_u4` succeeds exactly when four bytes remain, gives their big-endian value below 2^32 and advances by 4 |
| Source.Many | src/class/constant_pool.rs:103-105 | `n` repeated reads give exactly `n` values when they succeed, and none for `n = 0` |
| Source.ManyBytes | src/class/constant_pool.rs:72-76 | reading `n` single bytes gives the slice of those bytes when they are all there, and `None` when the buffer is too short |
| Source.U2Encoded | src/source.rs:39-43 | `next_u2` reads back any 16-bit value written big-endian |
| Source.U4Encoded | src/source.rs:46-52 | `next_u4` reads back any 32-bit value written big-endian |
| Source.ManyConcat | src/class/constant_pool.rs:103-105 | a loop of `n` reads reads back `n` values whose encodings lie one after the other |
| Source.Seek | src/source.rs:23-33 | a panicking `advance_by` leaves the position unchanged; when a seek from a reachable position succeeds or fails is stated by `SeekWithinBuffer` |
| Source.SeekWithinBuffer | src/source.rs:23-33 | for an in-range offset: the guard never fires, the seek never panics, it succeeds exactly when the new position is inside the buffer, and the position is the sum, wrapped modulo 2^64 when negative |
| Source.SeekToEndFails | src/source.rs:28-32 | a seek to exactly the end of the buffer fails |
| Source.SeekGuardAfterWrap | src/source.rs:23-26 | from a position at or past 2^63, which `as isize` makes negative, a backward seek is stopped by the guard with the position unchanged |
| Source.ByteStream.From | src/source.rs:6-11 | a new cursor over the buffer, at position 0 |
| Source.ByteStream.Next | src/source.rs:14-22 | `next` gives the current byte and advances by one, or gives `None` at the end and stays put |
| Source.ByteStream.NextU1 | src/source.rs:34-36 | `next_u1` agrees with `U1` |
| Source.ByteStream.NextU2 | src/source.rs:39-43 | `next_u2` agrees with `U2`; on a short buffer the cursor ends at the end of the buffer |
| Source.ByteStream.NextU4 | src/source.rs:46-52 | `next_u4` agrees with `U4`; on a short buffer the cursor ends at the end of the buffer |
| Source.ByteStream.AdvanceBy | src/source.rs:23-33 | `advance_by` gives the result and the new position that `Seek` gives |
| ConstantPool.Text | src/class/constant_pool.rs:71-80 | a `Utf8` body succeeds exactly when its length and bytes are present and the bytes are well-formed UTF-8; the text is those bytes |
| ConstantPool.Entry | src/class/constant_pool.rs:57-93 | an entry panics exactly on an unknown tag (11 among them); a decoded entry has the tag read, occupies its width, holds valid UTF-8 if it is text, and is never an `InterfaceMethodref` |
| ConstantPool.Pool | src/class/constant_pool.rs:100-107 | a missing count gives `None`, a count of 0 panics, and a decoded pool has count - 1 entries |
| ConstantPool.EntriesAdvance | src/class/constant_pool.rs:103-105 | decoding entries never moves the cursor backwards or past the end |
| ConstantPool.PoolBounds | src/class/constant_pool.rs:100-107 | a decoded pool ends after its count and inside the buffer |
| ConstantPool.Get | src/class/constant_pool.rs:108-110 | `get` panics on index 0, gives `None` past the end, and otherwise gives entry `index - 1` |
| ConstantPool.Cast | src/main.rs:17-25 | `cast!` gives the entry when the variant matches and panics otherwise |
| ConstantPool.GetUtf | src/class/constant_pool.rs:111-113 | success exactly for a `Utf8` entry at that index; `None` past the end; a panic otherwise |
| ConstantPool.GetClass | src/class/constant_pool.rs:114-116 | the same as `GetUtf`, for a `Class` entry |
| ConstantPool.GetString | src/class/constant_pool.rs:117-119 | the same as `GetUtf`, for a `String` entry |
| ConstantPool.GetFieldref | src/class/constant_pool.rs:120-122 | the same as `GetUtf`, for a `Fieldref` entry |
| ConstantPool.GetNameAndType | src/class/constant_pool.rs:123-125 | the same as `GetUtf`, for a `NameAndType` entry |
| ConstantPool.GetInterfaceMethodref | src/class/constant_pool.rs:126-129 | the same as `GetUtf`, for an `InterfaceMethodref` entry |
| ConstantPool.GetMethodref | src/class/constant_pool.rs:130-133 | the same as `GetUtf`, for a `Methodref` entry |
| ConstantPool.GetInteger | src/class/constant_pool.rs:134-136 | the same as `GetUtf`, for an `Integer` entry |
| ConstantPool.GetUtfBytes | src/class/field.rs:23-24 | `get_utf(k)?.bytes` succeeds exactly when entry `k` is text, and gives its bytes |
| ConstantPool.OneIndexRoundTrip | src/class/constant_pool.rs:64-87 | an encoded `Class` or `String` entry decodes to itself, 3 bytes on |
| ConstantPool.TwoIndicesRoundTrip | src/class/constant_pool.rs:60-84 | an encoded `Fieldref`, `Methodref` or `NameAndType` entry decodes to itself, 5 bytes on |
| ConstantPool.TextRoundTrip | src/class/constant_pool.rs:71-80 | an encoded `Utf8` entry decodes to itself when its bytes are valid UTF-8, and gives `None` otherwise |
| ConstantPool.TextEncoded | src/class/constant_pool.rs:72-78 | a length-prefixed text body reads back when valid UTF-8, and gives `None` otherwise |
| ConstantPool.IntegerRoundTrip | src/class/constant_pool.rs:88 | an encoded `Integer` entry decodes to itself, 5 bytes on |
| ConstantPool.EntryRoundTrip | src/class/constant_pool.rs:57-93 | every entry the decoder accepts reads back from its encoding |
| ConstantPool.InterfaceMethodrefIsFatal | src/class/constant_pool.rs:89-91 | an encoded `InterfaceMethodref` entry panics the decoder |
| ConstantPool.EntriesRoundTrip | src/class/constant_pool.rs:103-105 | a run of encoded readable entries decodes to those entries |
| ConstantPool.PoolRoundTrip | src/class/constant_pool.rs:100-107 | an encoded pool (count + 1, then the entries) decodes to itself |
| ConstantPool.LookupInParsedPool | src/class/constant_pool.rs:108-136 | in a decoded pool, each typed lookup succeeds exactly for its own kind of entry, `InterfaceMethodref` lookups panic, index 0 panics, and indices past the end give `None` |
| ConstantPool.ParseBytes | src/class/constant_pool.rs:72-76 | the byte-by-byte loop agrees with `Many(U1, ..)` |
| ConstantPool.ParseText | src/class/constant_pool.rs:71-80 | the `Utf8` arm agrees with `Text` |
| ConstantPool.ParseEntry | src/class/constant_pool.rs:57-93 | `CpInfo::parse` agrees with `Entry` |
| ConstantPool.ParseEntries | src/class/constant_pool.rs:103-106 | the entry loop agrees with `Many(Entry, ..)` |
| ConstantPool.ParsePool | src/class/constant_pool.rs:100-107 | `CpPool::parse` agrees with `Pool` |
| Instructions.Decode | src/code.rs:75-149 | decoding panics exactly on an unimplemented opcode; it succeeds exactly when the operands are all there, advances by the opcode's width, and gives a well-formed instruction |
| Instructions.DecodedWidth | src/code.rs:75-149 | a decoded instruction takes `Width` bytes: 2 exactly for `bipush` and `ldc`, 1 exactly for an instruction with no operands |
| Instructions.AStoreQuirk | src/code.rs:105-108 | every `astore_<n>` byte decodes to `astore_0` |
| Instructions.AStoreSlotZero | src/code.rs:105-108 | a decoded `astore` always stores into slot 0 |
| Instructions.BareOpcode | src/code.rs:76-121 | every operand-less instruction is what its own opcode byte decodes to |
| Instructions.ByteOperand | src/code.rs:85-87 | `bipush` and `ldc` are rebuilt from their opcode and operand byte |
| Instructions.ShortOperand | src/code.rs:122-144 | every two-byte-operand instruction is rebuilt from its opcode and its 16-bit operand |
| Instructions.SignedShort | src/code.rs:129-144 | `as i16` recovers a signed 16-bit offset from its two bytes |
| Instructions.UnsignedShort | src/code.rs:122-126 | an unsigned 16-bit index is recovered from its two bytes |
| Instructions.DecodeEncoded | src/code.rs:75-149 | every well-formed instruction (other than `astore_1..3`) decodes back from its encoding, advancing by its width |
| Instructions.EncodeDecoded | src/code.rs:75-149 | whatever decodes was written as its own opcode and operand bytes, except that the `astore_1..3` bytes come back as `astore_0` |
| Instructions.ParseOpCode | src/code.rs:75-149 | `OpCode::parse` agrees with `Decode`, and at the end of the code it gives `None` without moving |
| Attributes.VerificationType | src/class/attribute.rs:252-267 | a tag above 8 panics; tags 0-6 take one byte and carry no payload, tags 7-8 take three bytes and carry one |
| Attributes.Frame | src/class/attribute.rs:207-235 | a frame type outside 0-63, 248-250 and 252-254 panics; a decoded frame records its type, and an append frame carries `type - 251` locals |
| Attributes.VerificationTypeRoundTrip | src/class/attribute.rs:252-267 | an encoded verification type reads back |
| Attributes.LineNumberEntry | src/class/attribute.rs:152-155 | a line-number entry is four bytes: start pc, then line number |
| Attributes.ExceptionEntry | src/class/attribute.rs:124-129 | an exception entry is eight bytes: start, end, handler and catch type |
| Attributes.ExceptionsWidth | src/class/attribute.rs:121-131 | `n` exception entries take exactly `8n` bytes |
| Attributes.Disassembly | src/class/attribute.rs:109-119 | the decode loop never gives `None` (it stops at the first `None` of `OpCode::parse`) and records one start offset per instruction |
| Attributes.DisassemblyOffsets | src/class/attribute.rs:113-119 | the recorded offsets are strictly increasing, lie inside the bytecode, and start at 0 |
| Attributes.IndexTable | src/class/attribute.rs:110-115 | `bytecode_to_op` has one slot per byte of code |
| Attributes.IndexTableInverse | src/class/attribute.rs:110-117 | `bytecode_to_op` maps each instruction's start offset back to its index, and every other offset to 0 |
| Attributes.DisassemblyDecodes | src/class/attribute.rs:114-118 | each listed instruction is what decodes at its offset, and the next offset is this one plus its width |
| Attributes.DisassemblyRoundTrip | src/class/attribute.rs:109-119 | encoded instructions laid end to end disassemble to themselves |
| Attributes.Attr | src/class/attribute.rs:93-183 | a decoded attribute spans at least its six header bytes, records the name index read, and carries the pool's text at that index as its name |
| Attributes.Body | src/class/attribute.rs:99-176 | the body is a `Code` attribute exactly when the name is `Code`, and is then what `CodeBody` reads; a `LineNumberTable` or `StackMapTable` body is exactly its counted entries, failing as they do; a `SourceFile` body keeps the `u2` index read and the pool text at it, and fails exactly when either read fails; any other name panics |
| Attributes.CodeBody | src/class/attribute.rs:101-147 | a `Code` body takes at least its twelve fixed bytes; `max_stack` and `max_locals` are the two `u2` read first, `code_raw` is exactly the `code_length` bytes after the `u4` length, `code` and `op_to_bytecode` are the disassembly of `code_raw` from offset 0, and `bytecode_to_op` is the index table of those offsets |
| Attributes.CodeFrom | src/class/attribute.rs:103-147 | `code_raw` is exactly the `code_length` bytes after the length; `code` and `op_to_bytecode` are its disassembly from offset 0, every offset lies inside the code, `bytecode_to_op` is the index table of the offsets, and the two sizes are kept |
| Attributes.CodeTail | src/class/attribute.rs:121-146 | the attribute keeps max stack, max locals, the raw code, the decoded instructions and their offsets, and `bytecode_to_op` is the index table of those offsets |
| Attributes.CodeTailLayout | src/class/attribute.rs:121-136 | the exception table holds as many entries as the `u2` length read first, each the eight bytes that follow in turn; then come the `u2` attribute count and exactly that many nested attributes |
| Attributes.CodeContents | src/class/attribute.rs:101-119 | in a decoded `Code` attribute, `code` and `op_to_bytecode` have the same length and `bytecode_to_op` has one slot per code byte; the offsets start at 0 and strictly increase; each offset lies inside the code, is sent back to its index by `bytecode_to_op`, and decodes to the instruction kept at that index; every other byte maps to 0 |
| Attributes.Attrs | src/class/attribute.rs:132-136 | `n` attributes are decoded when the loop succeeds |
| Attributes.LineNumbers | src/class/attribute.rs:148-158 | a line-number table never panics, holds as many entries as its count, and takes 2 + 4n bytes |
| Attributes.Frames | src/class/attribute.rs:167-174 | a stack-map table holds as many frames as its count |
| Attributes.LineNumbersWidth | src/class/attribute.rs:149-156 | `n` line-number entries never panic and take exactly `4n` bytes |
| Attributes.FramesAdvance | src/class/attribute.rs:168-172 | decoding frames stays inside the buffer |
| Attributes.FrameAdvances | src/class/attribute.rs:207-235 | each decoded frame consumes at least one byte |
| Attributes.VerificationTypesAdvance | src/class/attribute.rs:221-224 | decoding the locals of an append frame stays inside the buffer |
| Attributes.FrameRoundTrip | src/class/attribute.rs:207-235 | an encoded same, chop or append frame reads back |
| Attributes.AppendFrameRoundTrip | src/class/attribute.rs:218-230 | an append frame with its encoded locals reads back |
| Attributes.ParseVerificationType | src/class/attribute.rs:252-267 | `VerificationTypeInfo::parse` agrees with `VerificationType` |
| Attributes.ParseFrame | src/class/attribute.rs:207-235 | `StackMapFrame::parse` agrees with `Frame` |
| Attributes.ParseFrames | src/class/attribute.rs:167-174 | the `StackMapTable` arm agrees with `Frames` |
| Attributes.ParseLineNumber | src/class/attribute.rs:152-155 | one line-number read agrees with `LineNumberEntry` |
| Attributes.ParseException | src/class/attribute.rs:124-130 | one exception-entry read agrees with `ExceptionEntry` |
| Attributes.ParseLineNumbers | src/class/attribute.rs:148-158 | the `LineNumberTable` arm agrees with `LineNumbers` |
| Attributes.ParseExceptions | src/class/attribute.rs:121-131 | the exception-table loop agrees with `Many(ExceptionEntry, ..)` |
| Attributes.Disassemble | src/class/attribute.rs:109-119 | the `while let` loop over a fresh cursor gives the listing of `Disassembly`, and fills `bytecode_to_op` with the `IndexTable` of its offsets |
| Attributes.ParseAttribute | src/class/attribute.rs:93-183 | `AttributeInfo::parse` agrees with `Attr` |
| Attributes.ParseBody | src/class/attribute.rs:99-176 | the `match` on the attribute name agrees with `Body` |
| Attributes.ParseCode | src/class/attribute.rs:100-147 | the `Code` arm agrees with `CodeBody` |
| Attributes.ParseCodeFrom | src/class/attribute.rs:103-147 | the `Code` arm from the code length on agrees with `CodeFrom` |
| Attributes.ParseCodeTail | src/class/attribute.rs:121-146 | the `Code` arm from the exception table on agrees with `CodeTail` |
| Attributes.PushAttribute | src/class/attribute.rs:134-136 | one iteration of the nested attribute loop keeps the loop invariant, or fails the whole list the same way |
| Attributes.ParseAttributes | src/class/attribute.rs:132-136 | the nested attribute loop agrees with `Attrs` |
| Fields.Field | src/class/field.rs:18-39 | a decoded field takes at least its eight fixed bytes |
| Fields.FieldLayout | src/class/field.rs:18-39 | a decoded field holds the flags, name index and descriptor index read, the pool texts at those indices, and as many attributes as its count |
| Fields.NameResolvedBeforeCount | src/class/field.rs:19-26 | an unresolvable name or descriptor fails the field, and a name index of 0 panics, before the attribute count is read |
| Fields.ParseField | src/class/field.rs:18-39 | `FieldInfo::parse` agrees with `Field` |
| Fields.FieldList | src/class/mod.rs:73-77 | the field loop gives as many fields as its count and stays inside the buffer |
| Fields.PushField | src/class/mod.rs:75-77 | one iteration of the field loop keeps the loop invariant, or fails the whole list the same way |
| Fields.ParseFields | src/class/mod.rs:73-77 | the field loop agrees with `FieldList` |
| Methods.Method | src/class/method.rs:18-39 | a decoded method takes at least its eight fixed bytes |
| Methods.MethodLayout | src/class/method.rs:18-39 | a decoded method holds the flags, name index and descriptor index read, the pool texts at those indices, and as many attributes as its count |
| Methods.SameLayoutAsField | src/class/method.rs:18-39 | a method decodes exactly when a field would from the same bytes, to the same contents and end position |
| Methods.OrderOfResolution | src/class/method.rs:19-25 | on six zero bytes and an empty pool, the field decoder panics (name index 0) while the method decoder gives `None` (the missing attribute count is read first) |
| Methods.ParseMethod | src/class/method.rs:18-39 | `MethodInfo::parse` agrees with `Method` |
| Methods.MethodList | src/class/mod.rs:79-83 | the method loop gives as many methods as its count and stays inside the buffer |
| Methods.PushMethod | src/class/mod.rs:81-83 | one iteration of the method loop keeps the loop invariant, or fails the whole list the same way |
| Methods.ParseMethods | src/class/mod.rs:79-83 | the method loop agrees with `MethodList` |
| Classes.ClassName | src/class/mod.rs:57-65 | a class name resolves exactly when the index names a `Class` entry whose name index is text; index 0 panics |
| Classes.Class | src/class/mod.rs:46-106 | a decoded class holds the magic, the versions and the constant pool read at their places, and lies within the buffer |
| Classes.ClassBody | src/class/mod.rs:53-105 | after the pool: the flags, this and super class indices as read, and both class names resolved through the pool |
| Classes.ClassBodyLayout | src/class/mod.rs:67-89 | the interfaces, fields, methods and class attributes of a decoded class are exactly what `InterfacesAndMembers` reads right after the super class index |
| Classes.InterfacesAndMembers | src/class/mod.rs:67-89 | the interfaces and the members take at least their four counts and stay inside the buffer |
| Classes.InterfacesLayout | src/class/mod.rs:67-89 | the interface list is as long as the `u2` count read first and holds the `u2` indices that follow in order, `2n` bytes in all; the members are read right after them |
| Classes.Members | src/class/mod.rs:73-89 | the fields, methods and class attributes take at least their three counts |
| Classes.MembersLayout | src/class/mod.rs:73-89 | the field list is exactly the fields read for the `u2` count in front of it; the methods and class attributes are read right after the last field |
| Classes.MethodsAndAttributes | src/class/mod.rs:79-89 | the methods and class attributes take at least their two counts and stay inside the buffer |
| Classes.MethodsAndAttributesLayout | src/class/mod.rs:79-89 | the method list is exactly the methods read for the `u2` count in front of it, and the class attributes, right after the last method, are exactly as many as the `u2` count in front of them |
| Classes.IndicesWidth | src/class/mod.rs:67-71 | `n` interface indices take exactly `2n` bytes |
| Classes.ParseClass | src/class/mod.rs:46-106 | `Class::parse` agrees with `Class` |
| Classes.ParseClassBody | src/class/mod.rs:53-105 | the class decoder after the pool agrees with `ClassBody` |
| Classes.ParseInterfaces | src/class/mod.rs:67-71 | the interface loop agrees with `Many(U2, ..)` |
| Classes.ParseMembers | src/class/mod.rs:73-89 | the field, method and attribute loops agree with `Members` |
| Interpreter.CodeOf | src/main.rs:70-75 | finding a method's `Code` attribute either succeeds or panics, never `None` |
| Interpreter.TableOf | src/main.rs:62-81 | building the method table either succeeds or panics |
| Interpreter.Zeros | src/main.rs:89 | `vec![0; n]` has `n` slots, all 0 |
| Interpreter.Program | src/main.rs:62-91 | a refused program prints nothing, and it is refused as a class that could not be parsed exactly when the class decoder gives `None` |
| Interpreter.Virtual | src/main.rs:122-144 | `invokevirtual` never calls or returns: it pops exactly one value and prints one line, or panics; anything but `println` with one of the two descriptors panics, and `println(I)` prints the top value |
| Interpreter.Static | src/main.rs:145-168 | `invokestatic` never continues or returns on its own: it panics exactly when the reference is not resolved, not in the table, or the stack holds fewer than `max_locals` values; otherwise it calls the table's code with that many top values, top first, and the rest of the stack |
| Interpreter.Target | src/main.rs:146-158 | resolving a method reference either gives a name and descriptor or panics, never `None` |
| Interpreter.TargetResolved | src/main.rs:146-158 | the reference resolves exactly when entry `k` is a `Methodref` whose class entry is a `Class` with a text name, and whose `NameAndType` entry has a text name and a text descriptor, every index inside the pool; it then gives those two texts |
| Interpreter.Popped | src/main.rs:162-165 | `n` pops give `n` values, the top of the stack first |
| Interpreter.Step | src/main.rs:106-295 | an instruction that leaves the method hands back at most one value |
| Interpreter.Run | src/main.rs:96-298 | a finished method hands its caller at most one value, and `exec` never refuses |
| Interpreter.Resume | src/main.rs:145-168 | after an instruction, including a call and its return, a finished run still hands back at most one value |
| Interpreter.BuildTable | src/main.rs:62-81 | the loop over the methods builds the table `TableOf` describes, or panics when it does |
| Interpreter.PopLocals | src/main.rs:162-165 | the pop loop succeeds exactly when the stack holds `max_locals` values, gives them top first and leaves the rest |
| Interpreter.ExecOp | src/main.rs:106-295 | one arm of the `match` in `exec` has the effect `Step` gives, and leaves the cursor at the next position |
| Interpreter.Call | src/main.rs:145-168 | `invokestatic` runs the callee to the end and continues with what `Resume` says |
| Interpreter.Instruction | src/main.rs:105-295 | one iteration of the `while let` loop: it stops with the result of `Run`, or continues in a frame from which `Run` has the same result |
| Interpreter.Exec | src/main.rs:96-298 | `exec` ends with the status and output of `Run`, and the caller's stack gains exactly the value returned |
| Interpreter.Launch | src/main.rs:45-91 | the program ends with the status and output of `Program` |
| Interpreter.TableFatalPrefix | src/main.rs:70-75 | a panic while inserting an earlier method panics the whole build |
| Interpreter.CodeOfFirst | src/main.rs:70-75 | the first attribute named `Code` is taken; the build panics if its body is not a `Code` attribute |
| Interpreter.CodeOfMissing | src/main.rs:70-74 | a method without a `Code` attribute panics the build |
| Interpreter.TableFails | src/main.rs:65-81 | the build panics exactly when some method's `Code` lookup does |
| Interpreter.TableKeys | src/main.rs:76 | the table holds exactly the name and descriptor pairs of the methods |
| Interpreter.TableLatest | src/main.rs:76 | for each key, the table holds the code of the last method with that key |
| Interpreter.NoMainFunctionFound | src/main.rs:86-88 | the program stops with "no main function found" exactly when the class and the table build but no method is `main([Ljava/lang/String;)V`; a refused program prints nothing |
| Interpreter.EntryPoint | src/main.rs:86-91 | otherwise the program is a run of `main` from byte 0, locals all 0 (`max_locals` of them), an empty stack and no output |
| Interpreter.TraceGrows | src/main.rs:137-139 | a run only extends the output printed so far |
| Interpreter.ResumeTraceGrows | src/main.rs:145-168 | continuing after an instruction, including a call, only extends the output printed so far |
| Interpreter.MoreFuel | src/main.rs:105 | a run that ends without running out of fuel ends the same way with more fuel |
| Interpreter.ResumeMoreFuel | src/main.rs:145-168 | the same for continuing after an instruction or a call |
| Interpreter.Arithmetic | src/main.rs:264-280 | `iadd`, `isub` and `imul` replace the two top values by `a + b`, `b - a` and `a * b` (a on top), and panic on a short stack |
| Interpreter.Jump | src/main.rs:260-262 | a taken jump lands at the position after the instruction plus the offset when that lies inside the code, and panics otherwise |
| Interpreter.IfBranch | src/main.rs:189-218 | `if<cond>` pops the top value, compares it with 0, and jumps only when the condition holds; on an empty stack it panics |
| Interpreter.IfICmpBranch | src/main.rs:219-258 | `if_icmp<cond>` pops two values, compares the lower one with the top one, and jumps only when the condition holds; on a short stack it panics |
| Interpreter.GotoBranch | src/main.rs:260-262 | `goto` always jumps by its offset, and panics when the target is outside the code |
| Interpreter.StaticInvocation | src/main.rs:145-168 | `invokestatic` panics exactly when the reference is not resolved, not in the table, or the stack holds too few values; otherwise it calls the table's code with the `max_locals` top values, top first, as locals |
| Interpreter.LowSlotsOnly | src/main.rs:170-187 | instructions keep the number of locals and change none of slots 4 and above; a load or store of a missing slot panics |
| Interpreter.LoadStore | src/main.rs:170-187 | `iload`/`aload` push the slot, and `istore`/`astore` pop into it (panicking on an empty stack) |
| Interpreter.LdcPushes | src/main.rs:282-287 | `ldc` pushes an `Integer` entry as a signed 32-bit value, a `String` entry as its text index, and panics on anything else |
| Interpreter.LdcThenPrintln | src/main.rs:122-144 | `ldc` of a string followed by `println(String)` prints that string and leaves the stack as it was |
| Interpreter.LdcString | src/main.rs:284 | `ldc` of a `String` entry pushes its text index and moves on |
| Interpreter.PrintlnString | src/main.rs:138-140 | `println(String)` pops a text index and prints the pool text at it |
| Interpreter.Returns | src/main.rs:288-297 | `ireturn` finishes with the top value, and `return` or the end of the code finishes with none |
| Interpreter.CallReturns | src/main.rs:160-168 | after `invokestatic`, a callee that finishes pushes its value onto the caller's remaining stack and the caller carries on after the call; a callee that does not finish ends the caller the same way |
| Interpreter.NoOpsAndUnimplemented | src/main.rs:106-294 | `getstatic` does nothing; `dup`, `iinc`, `invokespecial`, `new` and any `invokevirtual` other than the two `println`s panic |

## Left out

- Reading the file named on the command line and the usage check: `Launch` starts from the file's bytes.
- The diagnostic listings `main` prints before execution (constants, fields, methods and their stack sizes): they do not affect the run.
- `println` in `exec` appends a `Printed` value to an output trace instead of writing to standard output.
- Interpreter.Run: runs on fuel, one unit per instruction and one per call. A call runs the callee with the fuel the caller has left, and the caller then goes on with that same amount, so fuel bounds the length of each activation and the depth of calls, not the total number of steps. Running out is the status `OutOfFuel`. A real run that does not terminate, or that overflows the host stack through deep recursion, is not modelled.
- ConstantPool.Get: the model follows a debug build, where `index - 1` on index 0 panics. In a release build it wraps and `get(0)` finds nothing. The same choice holds for the `isize` overflow in `Source.Seek` (a panic here; wrap-around in release), and it shapes `Classes.ClassName`, `Fields.NameResolvedBeforeCount` and `Methods.OrderOfResolution`.
- Classes.ClassBody: its own contract covers the header it reads; the interfaces, fields, methods and class attributes are stated by `ClassBodyLayout`, `InterfacesLayout`, `MembersLayout` and `MethodsAndAttributesLayout`, which keeps the recursive decoder cheap to verify.
- Classes.Members: its own contract gives only the bounds; the three lists are stated by `MembersLayout` and `MethodsAndAttributesLayout`.
- Interpreter.Step: stack values are unbounded integers; the `isize` overflow of `iadd`, `isub` and `imul` (a panic in a debug build, wrap-around in release) is not modelled.
- `max_stack` and the capacity hints of `Vec::with_capacity` do not limit anything in the source, so they are not modelled. `max_locals` decides how many values `invokestatic` pops.
- An `Err` from the file open or read, and the `anyhow` context messages: a class that does not parse is the status `Refused(CouldNotParseClass)`, and a missing `main` is `Refused(NoMainFunction)`.
- The value `exec` pushes onto the empty vector `main` passes as the caller's stack is dropped.
- The access-flag sets (`bitflags!`): flags are kept as the raw 16-bit number read.
- The `Deref`/`DerefMut` impls of `CpPool` (the pool is a sequence) and the empty `struct Method`.
- The variants of `Attribute` the decoder never builds. The exception table and the stack-map frames are decoded but, as in the source, never consulted.
- `attribute_length` is read and ignored, as in the source.
- `String::from_utf8` is written out as the table of well-formed UTF-8 sequences; the decoded text is kept as its bytes, not as a Rust `String`.
- Memory allocation failure and capacity overflow in `Vec::with_capacity` are not modelled.
