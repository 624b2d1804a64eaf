/** The constant pool of `src/class/constant_pool.rs` (section 4.4 of the Java
    Virtual Machine Specification): its entries, how one entry and the whole
    pool are decoded, and the 1-based lookups that check the kind of entry they
    find. */
module ConstantPool {
  import opened Base
  import opened Source

  /** One entry. Indices into the pool are `u2`, the integer is a `u4`, and the
      text of a `Utf` entry is kept as its (valid UTF-8) bytes. */
  datatype CpInfo =
    | Class(nameIndex: nat)
    | Fieldref(classIndex: nat, nameAndTypeIndex: nat)
    | Methodref(classIndex: nat, nameAndTypeIndex: nat)
    | InterfaceMethodref(classIndex: nat, nameAndTypeIndex: nat)
    | NameAndType(nameIndex: nat, descriptorIndex: nat)
    | Utf(bytes: seq<byte>)
    | String(stringIndex: nat)
    | Integer(val: nat)

  /** The entries in pool order; entry `k` (counting from 1) is `pool[k - 1]`. */
  type CpPool = seq<CpInfo>

  const UTF8_TAG: byte := 1
  const INTEGER_TAG: byte := 3
  const CLASS_TAG: byte := 7
  const STRING_TAG: byte := 8
  const FIELDREF_TAG: byte := 9
  const METHODREF_TAG: byte := 10
  const INTERFACE_METHODREF_TAG: byte := 11
  const NAME_AND_TYPE_TAG: byte := 12

  /** The tag byte that announces each kind of entry in a class file. Distinct
      kinds have distinct tags, so the tag also names the variant that `cast!`
      checks for. */
  function Tag(e: CpInfo): byte {
    match e
    case Class(_) => CLASS_TAG
    case Fieldref(_, _) => FIELDREF_TAG
    case Methodref(_, _) => METHODREF_TAG
    case InterfaceMethodref(_, _) => INTERFACE_METHODREF_TAG
    case NameAndType(_, _) => NAME_AND_TYPE_TAG
    case Utf(_) => UTF8_TAG
    case String(_) => STRING_TAG
    case Integer(_) => INTEGER_TAG
  }

  /** The tags the decoder knows; every other tag, 11 included, panics. */
  predicate KnownTag(t: byte) {
    t in {UTF8_TAG, INTEGER_TAG, CLASS_TAG, STRING_TAG, FIELDREF_TAG, METHODREF_TAG, NAME_AND_TYPE_TAG}
  }

  /** Bytes an entry occupies in the class file: the tag, then two `u2`
      indices, one `u2`, a `u4`, or a `u2` length and that many bytes. */
  function EntryWidth(e: CpInfo): nat {
    match e
    case Class(_) => 3
    case String(_) => 3
    case Utf(b) => 3 + |b|
    case _ => 5
  }

  // ---------------------------------------------------------------------------
  // Decoding

  /** The body of a `CONSTANT_Utf8` entry at `i`: a `u2` length, then that many
      bytes, which `String::from_utf8(..).ok()?` turns into `None` unless they
      are well-formed UTF-8. */
  function Text(v: seq<byte>, i: nat): (r: Outcome<Parsed<seq<byte>>>)
    ensures !r.Fatal?
    ensures r.Ok? <==> U2(v, i).Ok? && i + 2 + U2(v, i).value.value <= |v|
                       && ValidUtf8(v[i + 2..i + 2 + U2(v, i).value.value])
    ensures r.Ok? ==> r.value.next == i + 2 + |r.value.value| <= |v|
                      && r.value.value == v[i + 2..r.value.next]
  {
    var len :- U2(v, i);
    var end := len.next + len.value;
    if |v| < end then None
    else if ValidUtf8(v[len.next..end]) then Ok(Parsed(v[len.next..end], end))
    else None
  }

  /** `CpInfo::parse` on the bytes from position `i`. */
  function Entry(v: seq<byte>, i: nat): (r: Outcome<Parsed<CpInfo>>)
    ensures r.Fatal? <==> i < |v| && !KnownTag(v[i])
    ensures r.Ok? ==> i < |v| && Tag(r.value.value) == v[i]
    ensures r.Ok? ==> r.value.next == i + EntryWidth(r.value.value) <= |v|
    ensures r.Ok? && r.value.value.Utf? ==> ValidUtf8(r.value.value.bytes)
    ensures r.Ok? ==> !r.value.value.InterfaceMethodref?
  {
    var tag :- U1(v, i);
    match tag.value
    case 10 =>
      var classIndex :- U2(v, tag.next);
      var nameAndTypeIndex :- U2(v, classIndex.next);
      Ok(Parsed(Methodref(classIndex.value, nameAndTypeIndex.value), nameAndTypeIndex.next))
    case 7 =>
      var nameIndex :- U2(v, tag.next);
      Ok(Parsed(Class(nameIndex.value), nameIndex.next))
    case 12 =>
      var nameIndex :- U2(v, tag.next);
      var descriptorIndex :- U2(v, nameIndex.next);
      Ok(Parsed(NameAndType(nameIndex.value, descriptorIndex.value), descriptorIndex.next))
    case 1 =>
      var text :- Text(v, tag.next);
      Ok(Parsed(Utf(text.value), text.next))
    case 9 =>
      var classIndex :- U2(v, tag.next);
      var nameAndTypeIndex :- U2(v, classIndex.next);
      Ok(Parsed(Fieldref(classIndex.value, nameAndTypeIndex.value), nameAndTypeIndex.next))
    case 8 =>
      var stringIndex :- U2(v, tag.next);
      Ok(Parsed(String(stringIndex.value), stringIndex.next))
    case 3 =>
      var val :- U4(v, tag.next);
      Ok(Parsed(Integer(val.value), val.next))
    case _ =>
      Fatal
  }

  /** `CpPool::parse`: a `u2` count, then count - 1 entries (entry 0 does not
      exist in a class file). A count of 0 makes `constant_pool_count - 1`
      underflow, which panics. */
  function Pool(v: seq<byte>, i: nat): (r: Outcome<Parsed<CpPool>>)
    ensures U2(v, i).None? ==> r.None?
    ensures U2(v, i).Ok? && U2(v, i).value.value == 0 ==> r.Fatal?
    ensures r.Ok? ==> U2(v, i).Ok? && |r.value.value| == U2(v, i).value.value - 1
  {
    var count :- U2(v, i);
    if count.value == 0 then Fatal
    else Many(Entry, v, count.next, count.value - 1)
  }

  /** Entries never overlap: reading `n` of them moves forward and stays inside the input. */
  lemma {:induction false} EntriesAdvance(v: seq<byte>, i: nat, n: nat)
    requires i <= |v|
    ensures Many(Entry, v, i, n).Ok? ==> i <= Many(Entry, v, i, n).value.next <= |v|
    decreases n
  {
    if n > 0 && Entry(v, i).Ok? {
      EntriesAdvance(v, Entry(v, i).value.next, n - 1);
    }
  }

  /** A parsed pool ends after its count and inside the input. */
  lemma PoolBounds(v: seq<byte>, i: nat)
    ensures Pool(v, i).Ok? ==> i + 2 <= Pool(v, i).value.next <= |v|
  {
    if U2(v, i).Ok? && U2(v, i).value.value > 0 {
      EntriesAdvance(v, i + 2, U2(v, i).value.value - 1);
    }
  }

  // ---------------------------------------------------------------------------
  // Lookups

  /** `CpPool::get`: the 1-based entry `k`. Index 0 makes `index - 1` underflow,
      which panics; an index past the end finds nothing. */
  function Get(pool: CpPool, k: nat): (r: Outcome<CpInfo>)
    ensures r.Fatal? <==> k == 0
    ensures r.None? <==> |pool| < k
    ensures r.Ok? ==> r.value == pool[k - 1]
  {
    if k == 0 then Fatal
    else if k - 1 < |pool| then Ok(pool[k - 1])
    else None
  }

  /** `cast!(e, V)` for the variant `V` whose tag is `tag`: the entry itself when
      it is of that variant, a panic otherwise. */
  function Cast(e: CpInfo, tag: byte): (r: Outcome<CpInfo>)
    ensures !r.None?
    ensures r.Ok? <==> Tag(e) == tag
    ensures r.Ok? ==> r.value == e
  {
    if Tag(e) == tag then Ok(e) else Fatal
  }

  /** What each typed accessor `get_*` promises: entry `k` when it exists and is
      of the kind with tag `tag`; nothing when `k` is past the end; a panic for
      index 0 and for an entry of another kind. */
  ghost predicate Typed(pool: CpPool, k: nat, tag: byte, r: Outcome<CpInfo>) {
    && (r.Ok? <==> 1 <= k <= |pool| && Tag(pool[k - 1]) == tag)
    && (r.Ok? ==> r.value == pool[k - 1])
    && (r.None? <==> |pool| < k)
  }

  /** `get_utf`. */
  function GetUtf(pool: CpPool, k: nat): (r: Outcome<CpInfo>)
    ensures Typed(pool, k, UTF8_TAG, r)
  {
    var e :- Get(pool, k);
    Cast(e, UTF8_TAG)
  }

  /** `get_class`. */
  function GetClass(pool: CpPool, k: nat): (r: Outcome<CpInfo>)
    ensures Typed(pool, k, CLASS_TAG, r)
  {
    var e :- Get(pool, k);
    Cast(e, CLASS_TAG)
  }

  /** `get_string`. */
  function GetString(pool: CpPool, k: nat): (r: Outcome<CpInfo>)
    ensures Typed(pool, k, STRING_TAG, r)
  {
    var e :- Get(pool, k);
    Cast(e, STRING_TAG)
  }

  /** `get_fieldref`. */
  function GetFieldref(pool: CpPool, k: nat): (r: Outcome<CpInfo>)
    ensures Typed(pool, k, FIELDREF_TAG, r)
  {
    var e :- Get(pool, k);
    Cast(e, FIELDREF_TAG)
  }

  /** `get_name_and_type`. */
  function GetNameAndType(pool: CpPool, k: nat): (r: Outcome<CpInfo>)
    ensures Typed(pool, k, NAME_AND_TYPE_TAG, r)
  {
    var e :- Get(pool, k);
    Cast(e, NAME_AND_TYPE_TAG)
  }

  /** `get_interface_methodref`. */
  function GetInterfaceMethodref(pool: CpPool, k: nat): (r: Outcome<CpInfo>)
    ensures Typed(pool, k, INTERFACE_METHODREF_TAG, r)
  {
    var e :- Get(pool, k);
    Cast(e, INTERFACE_METHODREF_TAG)
  }

  /** `get_methodref`. */
  function GetMethodref(pool: CpPool, k: nat): (r: Outcome<CpInfo>)
    ensures Typed(pool, k, METHODREF_TAG, r)
  {
    var e :- Get(pool, k);
    Cast(e, METHODREF_TAG)
  }

  /** `get_integer`. */
  function GetInteger(pool: CpPool, k: nat): (r: Outcome<CpInfo>)
    ensures Typed(pool, k, INTEGER_TAG, r)
  {
    var e :- Get(pool, k);
    Cast(e, INTEGER_TAG)
  }

  /** The text of the `Utf` entry `k`, the form in which the class file's names
      and descriptors are resolved. */
  function GetUtfBytes(pool: CpPool, k: nat): (r: Outcome<seq<byte>>)
    ensures r.Ok? <==> 1 <= k <= |pool| && pool[k - 1].Utf?
    ensures r.Ok? ==> r.value == pool[k - 1].bytes
    ensures r.None? <==> |pool| < k
  {
    var e :- GetUtf(pool, k);
    Ok(e.bytes)
  }

  // ---------------------------------------------------------------------------
  // Encoding, the inverse of decoding

  /** Every index and the length of a text fit in a `u2`, an integer in a `u4`. */
  predicate Encodable(e: CpInfo) {
    match e
    case Class(n) => n < 0x1_0000
    case Fieldref(c, nt) => c < 0x1_0000 && nt < 0x1_0000
    case Methodref(c, nt) => c < 0x1_0000 && nt < 0x1_0000
    case InterfaceMethodref(c, nt) => c < 0x1_0000 && nt < 0x1_0000
    case NameAndType(n, d) => n < 0x1_0000 && d < 0x1_0000
    case Utf(b) => |b| < 0x1_0000
    case String(s) => s < 0x1_0000
    case Integer(x) => x < 0x1_0000_0000
  }

  /** An entry the decoder accepts: valid text, and not an `InterfaceMethodref`
      (whose tag the decoder rejects). */
  predicate Readable(e: CpInfo) {
    !e.InterfaceMethodref? && (e.Utf? ==> ValidUtf8(e.bytes))
  }

  /** The class-file form of an entry. */
  function EncodeEntry(e: CpInfo): (b: seq<byte>)
    requires Encodable(e)
    ensures |b| == EntryWidth(e)
    ensures b[0] == Tag(e)
  {
    match e
    case Class(n) => [CLASS_TAG] + EncodeU2(n)
    case Fieldref(c, nt) => [FIELDREF_TAG] + EncodeU2(c) + EncodeU2(nt)
    case Methodref(c, nt) => [METHODREF_TAG] + EncodeU2(c) + EncodeU2(nt)
    case InterfaceMethodref(c, nt) => [INTERFACE_METHODREF_TAG] + EncodeU2(c) + EncodeU2(nt)
    case NameAndType(n, d) => [NAME_AND_TYPE_TAG] + EncodeU2(n) + EncodeU2(d)
    case Utf(b) => [UTF8_TAG] + EncodeU2(|b|) + b
    case String(s) => [STRING_TAG] + EncodeU2(s)
    case Integer(x) => [INTEGER_TAG] + EncodeU4(x)
  }

  /** The encodings of the entries, one per entry. */
  function EncodeEach(es: seq<CpInfo>): (bs: seq<seq<byte>>)
    requires forall k | 0 <= k < |es| :: Encodable(es[k])
    ensures |bs| == |es|
    ensures forall k | 0 <= k < |es| :: bs[k] == EncodeEntry(es[k])
  {
    seq(|es|, k requires 0 <= k < |es| => EncodeEntry(es[k]))
  }

  /** A pool as a class file stores it: the count (one more than the number of
      entries), then the entries. */
  function EncodePool(pool: CpPool): (b: seq<byte>)
    requires |pool| + 1 < 0x1_0000
    requires forall k | 0 <= k < |pool| :: Encodable(pool[k])
  {
    EncodeU2(|pool| + 1) + Concat(EncodeEach(pool))
  }

  /** Two `u2` fields that stand after a tag byte. */
  lemma TwoIndicesAt(v: seq<byte>, i: nat, t: byte, a: nat, b: nat)
    requires a < 0x1_0000 && b < 0x1_0000
    requires At(v, i, [t] + EncodeU2(a) + EncodeU2(b))
    ensures i < |v| && v[i] == t
    ensures U2(v, i + 1) == Ok(Parsed(a, i + 3))
    ensures U2(v, i + 3) == Ok(Parsed(b, i + 5))
  {
    AtConcat(v, i, [t] + EncodeU2(a), EncodeU2(b));
    AtConcat(v, i, [t], EncodeU2(a));
    U2Encoded(v, i + 1, a);
    U2Encoded(v, i + 3, b);
    assert v[i] == ([t] + EncodeU2(a) + EncodeU2(b))[0];
  }

  lemma OneIndexRoundTrip(v: seq<byte>, i: nat, e: CpInfo)
    requires (e.Class? || e.String?) && Encodable(e) && At(v, i, EncodeEntry(e))
    ensures Entry(v, i) == Ok(Parsed(e, i + 3))
  {
    var n := if e.Class? then e.nameIndex else e.stringIndex;
    AtConcat(v, i, [Tag(e)], EncodeU2(n));
    U2Encoded(v, i + 1, n);
  }

  lemma TwoIndicesRoundTrip(v: seq<byte>, i: nat, e: CpInfo)
    requires (e.Fieldref? || e.Methodref? || e.NameAndType?) && Encodable(e) && At(v, i, EncodeEntry(e))
    ensures Entry(v, i) == Ok(Parsed(e, i + 5))
  {
    if e.NameAndType? {
      TwoIndicesAt(v, i, NAME_AND_TYPE_TAG, e.nameIndex, e.descriptorIndex);
    } else {
      TwoIndicesAt(v, i, Tag(e), e.classIndex, e.nameAndTypeIndex);
    }
  }

  lemma TextRoundTrip(v: seq<byte>, i: nat, s: seq<byte>)
    requires |s| < 0x1_0000 && At(v, i, EncodeEntry(Utf(s)))
    ensures ValidUtf8(s) ==> Entry(v, i) == Ok(Parsed(Utf(s), i + 3 + |s|))
    ensures !ValidUtf8(s) ==> Entry(v, i) == None
  {
    assert [UTF8_TAG] + EncodeU2(|s|) + s == [UTF8_TAG] + (EncodeU2(|s|) + s);
    AtConcat(v, i, [UTF8_TAG], EncodeU2(|s|) + s);
    TextEncoded(v, i + 1, s);
  }

  lemma TextEncoded(v: seq<byte>, i: nat, s: seq<byte>)
    requires |s| < 0x1_0000 && At(v, i, EncodeU2(|s|) + s)
    ensures ValidUtf8(s) ==> Text(v, i) == Ok(Parsed(s, i + 2 + |s|))
    ensures !ValidUtf8(s) ==> Text(v, i) == None
  {
    AtConcat(v, i, EncodeU2(|s|), s);
    U2Encoded(v, i, |s|);
  }

  lemma IntegerRoundTrip(v: seq<byte>, i: nat, x: nat)
    requires x < 0x1_0000_0000 && At(v, i, EncodeEntry(Integer(x)))
    ensures Entry(v, i) == Ok(Parsed(Integer(x), i + 5))
  {
    AtConcat(v, i, [INTEGER_TAG], EncodeU4(x));
    U4Encoded(v, i + 1, x);
  }

  /** Decoding an encoded entry gives the entry back and stops right after it. */
  lemma EntryRoundTrip(v: seq<byte>, i: nat, e: CpInfo)
    requires Encodable(e) && Readable(e) && At(v, i, EncodeEntry(e))
    ensures Entry(v, i) == Ok(Parsed(e, i + |EncodeEntry(e)|))
  {
    match e
    case Class(_) => OneIndexRoundTrip(v, i, e);
    case String(_) => OneIndexRoundTrip(v, i, e);
    case Fieldref(_, _) => TwoIndicesRoundTrip(v, i, e);
    case Methodref(_, _) => TwoIndicesRoundTrip(v, i, e);
    case NameAndType(_, _) => TwoIndicesRoundTrip(v, i, e);
    case Utf(s) => TextRoundTrip(v, i, s);
    case Integer(x) => IntegerRoundTrip(v, i, x);
  }

  /** Tag 11 has a variant but no decoder: an encoded `InterfaceMethodref`
      makes the decoder panic. */
  lemma InterfaceMethodrefIsFatal(v: seq<byte>, i: nat, c: nat, nt: nat)
    requires c < 0x1_0000 && nt < 0x1_0000
    requires At(v, i, EncodeEntry(InterfaceMethodref(c, nt)))
    ensures Entry(v, i) == Fatal
  {
    assert v[i] == EncodeEntry(InterfaceMethodref(c, nt))[0];
  }

  /** Every entry of a pool is read back from its encoding, wherever it stands. */
  lemma EachEntryRoundTrip(v: seq<byte>, es: seq<CpInfo>, bs: seq<seq<byte>>)
    requires forall k | 0 <= k < |es| :: Encodable(es[k]) && Readable(es[k])
    requires |bs| == |es| && forall k | 0 <= k < |es| :: bs[k] == EncodeEntry(es[k])
    ensures ReadsBack(Entry, v, es, bs)
  {
    forall j: nat, k | 0 <= k < |es| && At(v, j, bs[k])
      ensures Entry(v, j) == Ok(Parsed(es[k], j + |bs[k]|))
    {
      EntryRoundTrip(v, j, es[k]);
    }
  }

  /** The entries of a pool, encoded one after the other as `bs`, decode to themselves. */
  lemma EntriesRoundTrip(v: seq<byte>, i: nat, es: seq<CpInfo>, bs: seq<seq<byte>>, end: nat)
    requires forall k | 0 <= k < |es| :: Encodable(es[k]) && Readable(es[k])
    requires |bs| == |es| && forall k | 0 <= k < |es| :: bs[k] == EncodeEntry(es[k])
    requires At(v, i, Concat(bs)) && end == i + |Concat(bs)|
    ensures Many(Entry, v, i, |es|) == Ok(Parsed(es, end))
  {
    EachEntryRoundTrip(v, es, bs);
    ManyConcat(Entry, v, i, es, bs, end);
  }

  /** Decoding an encoded pool gives the pool back and stops right after it. */
  lemma PoolRoundTrip(v: seq<byte>, i: nat, pool: CpPool)
    requires |pool| + 1 < 0x1_0000
    requires forall k | 0 <= k < |pool| :: Encodable(pool[k]) && Readable(pool[k])
    requires At(v, i, EncodePool(pool))
    ensures Pool(v, i) == Ok(Parsed(pool, i + |EncodePool(pool)|))
  {
    var bs := EncodeEach(pool);
    var end := i + 2 + |Concat(bs)|;
    assert EncodePool(pool) == EncodeU2(|pool| + 1) + Concat(bs);
    PoolFromParts(v, i, pool, bs, end);
    assert end == i + |EncodePool(pool)|;
  }

  /** The same, with the encodings of the entries given as `bs`. */
  lemma PoolFromParts(v: seq<byte>, i: nat, pool: CpPool, bs: seq<seq<byte>>, end: nat)
    requires |pool| + 1 < 0x1_0000
    requires forall k | 0 <= k < |pool| :: Encodable(pool[k]) && Readable(pool[k])
    requires |bs| == |pool| && forall k | 0 <= k < |pool| :: bs[k] == EncodeEntry(pool[k])
    requires At(v, i, EncodeU2(|pool| + 1) + Concat(bs)) && end == i + 2 + |Concat(bs)|
    ensures Pool(v, i) == Ok(Parsed(pool, end))
  {
    AtConcat(v, i, EncodeU2(|pool| + 1), Concat(bs));
    U2Encoded(v, i, |pool| + 1);
    EntriesRoundTrip(v, i + 2, pool, bs, end);
    PoolOfParts(v, i, pool, end);
  }

  /** A count of one more than `|pool|`, followed by the entries of `pool`. */
  lemma PoolOfParts(v: seq<byte>, i: nat, pool: CpPool, end: nat)
    requires U2(v, i) == Ok(Parsed(|pool| + 1, i + 2))
    requires Many(Entry, v, i + 2, |pool|) == Ok(Parsed(pool, end))
    ensures Pool(v, i) == Ok(Parsed(pool, end))
  {
  }

  /** In a decoded pool, each typed accessor finds entry `k` exactly when it is
      of its own kind and panics on every other kind; past the end every
      accessor finds nothing, and index 0 panics. */
  lemma LookupInParsedPool(v: seq<byte>, i: nat, pool: CpPool, k: nat)
    requires |pool| + 1 < 0x1_0000
    requires forall j | 0 <= j < |pool| :: Encodable(pool[j]) && Readable(pool[j])
    requires At(v, i, EncodePool(pool))
    ensures Pool(v, i).Ok?
    ensures var p := Pool(v, i).value.value;
      && (1 <= k <= |pool| ==>
            && (GetUtf(p, k).Ok? <==> pool[k - 1].Utf?)
            && (GetClass(p, k).Ok? <==> pool[k - 1].Class?)
            && (GetString(p, k).Ok? <==> pool[k - 1].String?)
            && (GetFieldref(p, k).Ok? <==> pool[k - 1].Fieldref?)
            && (GetMethodref(p, k).Ok? <==> pool[k - 1].Methodref?)
            && (GetNameAndType(p, k).Ok? <==> pool[k - 1].NameAndType?)
            && (GetInteger(p, k).Ok? <==> pool[k - 1].Integer?)
            && GetInterfaceMethodref(p, k).Fatal?
            && Get(p, k) == Ok(pool[k - 1]))
      && (|pool| < k ==> GetUtf(p, k).None? && GetClass(p, k).None? && GetInteger(p, k).None?)
      && (k == 0 ==> GetUtf(p, k).Fatal? && GetClass(p, k).Fatal? && GetInteger(p, k).Fatal?)
  {
    PoolRoundTrip(v, i, pool);
  }

  // ---------------------------------------------------------------------------
  // The decoders, reading through a cursor

  /** The loop of `CpInfo::parse` that reads the `n` bytes of a text one by one. */
  method ParseBytes(f: ByteStream, n: nat) returns (r: Outcome<seq<byte>>)
    modifies f
    ensures Agrees(Many(U1, f.v, old(f.i), n), r, f.i)
  {
    var bytes: seq<byte> := [];
    ghost var start, left := f.i, n;
    for k := 0 to n
      invariant left == n - k
      invariant Many(U1, f.v, start, n) == Prepend(bytes, Many(U1, f.v, f.i, left))
    {
      ghost var at := f.i;
      var b :- f.NextU1();
      ManyStep(U1, f.v, at, left, bytes, b, f.i);
      bytes, left := bytes + [b], left - 1;
    }
    assert bytes + [] == bytes;
    r := Ok(bytes);
  }

  /** The `CONSTANT_Utf8` arm of `CpInfo::parse`. */
  method ParseText(f: ByteStream) returns (r: Outcome<seq<byte>>)
    modifies f
    ensures Agrees(Text(f.v, old(f.i)), r, f.i)
  {
    var len :- f.NextU2();
    ManyBytes(f.v, f.i, len);
    var bytes :- ParseBytes(f, len);
    if ValidUtf8(bytes) {
      r := Ok(bytes);
    } else {
      r := None;
    }
  }

  /** `CpInfo::parse`. */
  method ParseEntry(f: ByteStream) returns (r: Outcome<CpInfo>)
    modifies f
    ensures Agrees(Entry(f.v, old(f.i)), r, f.i)
  {
    var tag :- f.NextU1();
    match tag
    case 10 =>
      var classIndex :- f.NextU2();
      var nameAndTypeIndex :- f.NextU2();
      r := Ok(Methodref(classIndex, nameAndTypeIndex));
    case 7 =>
      var nameIndex :- f.NextU2();
      r := Ok(Class(nameIndex));
    case 12 =>
      var nameIndex :- f.NextU2();
      var descriptorIndex :- f.NextU2();
      r := Ok(NameAndType(nameIndex, descriptorIndex));
    case 1 =>
      var bytes :- ParseText(f);
      r := Ok(Utf(bytes));
    case 9 =>
      var classIndex :- f.NextU2();
      var nameAndTypeIndex :- f.NextU2();
      r := Ok(Fieldref(classIndex, nameAndTypeIndex));
    case 8 =>
      var stringIndex :- f.NextU2();
      r := Ok(String(stringIndex));
    case 3 =>
      var val :- f.NextU4();
      r := Ok(Integer(val));
    case _ =>
      r := Fatal;
  }

  /** The loop of `CpPool::parse` that reads the `n` entries. */
  method ParseEntries(f: ByteStream, n: nat) returns (r: Outcome<CpPool>)
    modifies f
    ensures Agrees(Many(Entry, f.v, old(f.i), n), r, f.i)
  {
    var pool: CpPool := [];
    ghost var start, left := f.i, n;
    for k := 0 to n
      invariant left == n - k
      invariant Many(Entry, f.v, start, n) == Prepend(pool, Many(Entry, f.v, f.i, left))
    {
      ghost var at := f.i;
      var e :- ParseEntry(f);
      ManyStep(Entry, f.v, at, left, pool, e, f.i);
      pool, left := pool + [e], left - 1;
    }
    assert pool + [] == pool;
    r := Ok(pool);
  }

  /** `CpPool::parse`. */
  method ParsePool(f: ByteStream) returns (r: Outcome<CpPool>)
    modifies f
    ensures Agrees(Pool(f.v, old(f.i)), r, f.i)
  {
    var count :- f.NextU2();
    if count == 0 {
      return Fatal;
    }
    r := ParseEntries(f, count - 1);
  }
}
