/** The `field_info` records of a class file (`src/class/field.rs`). */
module Fields {
  import opened Base
  import opened Source
  import opened Attributes
  import CP = ConstantPool

  /** `FieldInfo`; the access flags are kept as the raw `u2`, as the source's
      `FieldAccessFlags { bits }` keeps them, unknown bits included. */
  datatype FieldInfo = FieldInfo(
    accessFlags: nat,
    name: seq<byte>,
    descriptor: seq<byte>,
    nameIndex: nat,
    descriptorIndex: nat,
    attributes: seq<AttributeInfo>)

  /** `FieldInfo::parse`: the access flags, the name and descriptor indices,
      both resolved with `get_utf` before the attribute count is read, then the
      attributes. */
  function Field(v: seq<byte>, i: nat, pool: CP.CpPool): (r: Outcome<Parsed<FieldInfo>>)
    ensures r.Ok? ==> i + 8 <= r.value.next <= |v|
  {
    var flags :- U2(v, i);
    var nameIndex :- U2(v, flags.next);
    var descriptorIndex :- U2(v, nameIndex.next);
    var name :- CP.GetUtfBytes(pool, nameIndex.value);
    var descriptor :- CP.GetUtfBytes(pool, descriptorIndex.value);
    var count :- U2(v, descriptorIndex.next);
    var attributes :- Attrs(v, count.next, pool, count.value);
    Ok(Parsed(FieldInfo(flags.value, name, descriptor, nameIndex.value, descriptorIndex.value, attributes.value),
              attributes.next))
  }

  /** What a parsed record holds: the raw flags and the two indices from the
      first six bytes, the name and descriptor they resolve to, and as many
      attributes as the count at byte 6 says. */
  lemma FieldLayout(v: seq<byte>, i: nat, pool: CP.CpPool)
    requires Field(v, i, pool).Ok?
    ensures var fi := Field(v, i, pool).value.value;
            && U2(v, i) == Ok(Parsed(fi.accessFlags, i + 2))
            && U2(v, i + 2) == Ok(Parsed(fi.nameIndex, i + 4))
            && U2(v, i + 4) == Ok(Parsed(fi.descriptorIndex, i + 6))
            && CP.GetUtfBytes(pool, fi.nameIndex) == Ok(fi.name)
            && CP.GetUtfBytes(pool, fi.descriptorIndex) == Ok(fi.descriptor)
            && U2(v, i + 6).Ok? && |fi.attributes| == U2(v, i + 6).value.value
  {
  }

  /** A name or descriptor index that does not resolve aborts the field as soon
      as the three indices are read, whether an attribute count follows or not. */
  lemma NameResolvedBeforeCount(v: seq<byte>, i: nat, pool: CP.CpPool)
    requires i + 6 <= |v|
    requires !CP.GetUtfBytes(pool, U2(v, i + 2).value.value).Ok?
             || !CP.GetUtfBytes(pool, U2(v, i + 4).value.value).Ok?
    ensures !Field(v, i, pool).Ok?
    ensures CP.GetUtfBytes(pool, U2(v, i + 2).value.value).Fatal? ==> Field(v, i, pool).Fatal?
  {
  }

  /** `FieldInfo::parse` on a `ByteStream`. */
  method ParseField(f: ByteStream, pool: CP.CpPool) returns (r: Outcome<FieldInfo>)
    modifies f
    ensures Agrees(Field(f.v, old(f.i), pool), r, f.i)
  {
    var flags :- f.NextU2();
    var nameIndex :- f.NextU2();
    var descriptorIndex :- f.NextU2();
    var name :- CP.GetUtfBytes(pool, nameIndex);
    var descriptor :- CP.GetUtfBytes(pool, descriptorIndex);
    var count :- f.NextU2();
    var attributes :- ParseAttributes(f, pool, count);
    r := Ok(FieldInfo(flags, name, descriptor, nameIndex, descriptorIndex, attributes));
  }

  /** `n` records one after the other, as the loop of `Class::parse` reads them. */
  function FieldList(v: seq<byte>, i: nat, pool: CP.CpPool, n: nat): (r: Outcome<Parsed<seq<FieldInfo>>>)
    ensures r.Ok? ==> |r.value.value| == n
    ensures r.Ok? && i <= |v| ==> i <= r.value.next <= |v|
    decreases n
  {
    if n == 0 then Ok(Parsed([], i))
    else
      var x :- Field(v, i, pool);
      Prepend([x.value], FieldList(v, x.next, pool, n - 1))
  }

  /** Where the loop stands: the records pushed so far, followed by the `left`
      still to be read from `i`, are the whole list read from `start`. */
  ghost predicate FieldsSoFar(v: seq<byte>, start: nat, pool: CP.CpPool, n: nat,
                              fields: seq<FieldInfo>, i: nat, left: nat) {
    FieldList(v, start, pool, n) == Prepend(fields, FieldList(v, i, pool, left))
  }

  /** One iteration of that loop. */
  lemma FieldListStep(v: seq<byte>, start: nat, pool: CP.CpPool, n: nat, fields: seq<FieldInfo>,
                      i: nat, left: nat, x: FieldInfo, j: nat)
    requires FieldsSoFar(v, start, pool, n, fields, i, left)
    requires 0 < left && Field(v, i, pool) == Ok(Parsed(x, j))
    ensures FieldsSoFar(v, start, pool, n, fields + [x], j, left - 1)
  {
    PrependTwice(fields, x, FieldList(v, j, pool, left - 1));
  }

  /** One pass of the loop body: read a record and push it. */
  method PushField(f: ByteStream, pool: CP.CpPool, ghost start: nat, ghost n: nat, fields: seq<FieldInfo>, ghost left: nat)
    returns (r: Outcome<seq<FieldInfo>>)
    requires 0 < left && FieldsSoFar(f.v, start, pool, n, fields, f.i, left)
    modifies f
    ensures r.Ok? ==> FieldsSoFar(f.v, start, pool, n, r.value, f.i, left - 1)
    ensures r.None? ==> FieldList(f.v, start, pool, n) == None
    ensures r.Fatal? ==> FieldList(f.v, start, pool, n) == Fatal
  {
    ghost var at := f.i;
    var fd :- ParseField(f, pool);
    FieldListStep(f.v, start, pool, n, fields, at, left, fd, f.i);
    r := Ok(fields + [fd]);
  }

  /** The counted loop that reads `n` fields and pushes each one; the first field that fails ends it. */
  method ParseFields(f: ByteStream, pool: CP.CpPool, n: nat) returns (r: Outcome<seq<FieldInfo>>)
    modifies f
    ensures Agrees(FieldList(f.v, old(f.i), pool, n), r, f.i)
  {
    var fields: seq<FieldInfo> := [];
    ghost var start, left := f.i, n;
    for k := 0 to n
      invariant left == n - k
      invariant FieldsSoFar(f.v, start, pool, n, fields, f.i, left)
    {
      fields :- PushField(f, pool, start, n, fields, left);
      left := left - 1;
    }
    assert fields + [] == fields;
    r := Ok(fields);
  }
}
