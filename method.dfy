/** The `method_info` records of a class file (`src/class/method.rs`). */
module Methods {
  import opened Base
  import opened Source
  import opened Attributes
  import Fields
  import CP = ConstantPool

  /** `MethodInfo`; the access flags are the raw `u2`, as `MethodAccessFlags { bits }` keeps them. */
  datatype MethodInfo = MethodInfo(
    accessFlags: nat,
    name: seq<byte>,
    descriptor: seq<byte>,
    nameIndex: nat,
    descriptorIndex: nat,
    attributes: seq<AttributeInfo>)

  /** `MethodInfo::parse`: the same layout as a field, except that the attribute
      count is read before the name and descriptor are resolved. */
  function Method(v: seq<byte>, i: nat, pool: CP.CpPool): (r: Outcome<Parsed<MethodInfo>>)
    ensures r.Ok? ==> i + 8 <= r.value.next <= |v|
  {
    var flags :- U2(v, i);
    var nameIndex :- U2(v, flags.next);
    var descriptorIndex :- U2(v, nameIndex.next);
    var count :- U2(v, descriptorIndex.next);
    var name :- CP.GetUtfBytes(pool, nameIndex.value);
    var descriptor :- CP.GetUtfBytes(pool, descriptorIndex.value);
    var attributes :- Attrs(v, count.next, pool, count.value);
    Ok(Parsed(MethodInfo(flags.value, name, descriptor, nameIndex.value, descriptorIndex.value, attributes.value),
              attributes.next))
  }

  /** What a parsed record holds: the raw flags and the two indices from the
      first six bytes, the name and descriptor they resolve to, and as many
      attributes as the count at byte 6 says. */
  lemma MethodLayout(v: seq<byte>, i: nat, pool: CP.CpPool)
    requires Method(v, i, pool).Ok?
    ensures var mi := Method(v, i, pool).value.value;
            && U2(v, i) == Ok(Parsed(mi.accessFlags, i + 2))
            && U2(v, i + 2) == Ok(Parsed(mi.nameIndex, i + 4))
            && U2(v, i + 4) == Ok(Parsed(mi.descriptorIndex, i + 6))
            && CP.GetUtfBytes(pool, mi.nameIndex) == Ok(mi.name)
            && CP.GetUtfBytes(pool, mi.descriptorIndex) == Ok(mi.descriptor)
            && U2(v, i + 6).Ok? && |mi.attributes| == U2(v, i + 6).value.value
  {
  }

  /** Where both succeed, a method record and a field record read from the same
      bytes carry the same contents and end at the same place; and one succeeds
      exactly when the other does. */
  lemma SameLayoutAsField(v: seq<byte>, i: nat, pool: CP.CpPool)
    ensures Method(v, i, pool).Ok? <==> Fields.Field(v, i, pool).Ok?
    ensures Method(v, i, pool).Ok? ==>
              var m := Method(v, i, pool).value;
              var fd := Fields.Field(v, i, pool).value;
              && m.next == fd.next
              && m.value == MethodInfo(fd.value.accessFlags, fd.value.name, fd.value.descriptor,
                                       fd.value.nameIndex, fd.value.descriptorIndex, fd.value.attributes)
  {
  }

  /** The two orders differ in how a failure ends: with a name index of 0 (which
      `get` panics on) and no attribute count left in the input, the field
      parser panics while the method parser returns `None`. */
  lemma OrderOfResolution()
    ensures Fields.Field([0, 0, 0, 0, 0, 0], 0, []) == Fatal
    ensures Method([0, 0, 0, 0, 0, 0], 0, []) == None
  {
  }

  /** `MethodInfo::parse` on a `ByteStream`. */
  method ParseMethod(f: ByteStream, pool: CP.CpPool) returns (r: Outcome<MethodInfo>)
    modifies f
    ensures Agrees(Method(f.v, old(f.i), pool), r, f.i)
  {
    var flags :- f.NextU2();
    var nameIndex :- f.NextU2();
    var descriptorIndex :- f.NextU2();
    var count :- f.NextU2();
    var name :- CP.GetUtfBytes(pool, nameIndex);
    var descriptor :- CP.GetUtfBytes(pool, descriptorIndex);
    var attributes :- ParseAttributes(f, pool, count);
    r := Ok(MethodInfo(flags, name, descriptor, nameIndex, descriptorIndex, attributes));
  }

  /** `n` records one after the other, as the loop of `Class::parse` reads them. */
  function MethodList(v: seq<byte>, i: nat, pool: CP.CpPool, n: nat): (r: Outcome<Parsed<seq<MethodInfo>>>)
    ensures r.Ok? ==> |r.value.value| == n
    ensures r.Ok? && i <= |v| ==> i <= r.value.next <= |v|
    decreases n
  {
    if n == 0 then Ok(Parsed([], i))
    else
      var x :- Method(v, i, pool);
      Prepend([x.value], MethodList(v, x.next, pool, n - 1))
  }

  /** Where the loop stands: the records pushed so far, followed by the `left`
      still to be read from `i`, are the whole list read from `start`. */
  ghost predicate MethodsSoFar(v: seq<byte>, start: nat, pool: CP.CpPool, n: nat,
                               methods: seq<MethodInfo>, i: nat, left: nat) {
    MethodList(v, start, pool, n) == Prepend(methods, MethodList(v, i, pool, left))
  }

  /** One iteration of that loop. */
  lemma MethodListStep(v: seq<byte>, start: nat, pool: CP.CpPool, n: nat, methods: seq<MethodInfo>,
                       i: nat, left: nat, x: MethodInfo, j: nat)
    requires MethodsSoFar(v, start, pool, n, methods, i, left)
    requires 0 < left && Method(v, i, pool) == Ok(Parsed(x, j))
    ensures MethodsSoFar(v, start, pool, n, methods + [x], j, left - 1)
  {
    PrependTwice(methods, x, MethodList(v, j, pool, left - 1));
  }

  /** One pass of the loop body: read a record and push it. */
  method PushMethod(f: ByteStream, pool: CP.CpPool, ghost start: nat, ghost n: nat, methods: seq<MethodInfo>,
                    ghost left: nat) returns (r: Outcome<seq<MethodInfo>>)
    requires 0 < left && MethodsSoFar(f.v, start, pool, n, methods, f.i, left)
    modifies f
    ensures r.Ok? ==> MethodsSoFar(f.v, start, pool, n, r.value, f.i, left - 1)
    ensures r.None? ==> MethodList(f.v, start, pool, n) == None
    ensures r.Fatal? ==> MethodList(f.v, start, pool, n) == Fatal
  {
    ghost var at := f.i;
    var m :- ParseMethod(f, pool);
    MethodListStep(f.v, start, pool, n, methods, at, left, m, f.i);
    r := Ok(methods + [m]);
  }

  /** The counted loop that reads `n` methods and pushes each one; the first method that fails ends it. */
  method ParseMethods(f: ByteStream, pool: CP.CpPool, n: nat) returns (r: Outcome<seq<MethodInfo>>)
    modifies f
    ensures Agrees(MethodList(f.v, old(f.i), pool, n), r, f.i)
  {
    var methods: seq<MethodInfo> := [];
    ghost var start, left := f.i, n;
    for k := 0 to n
      invariant left == n - k
      invariant MethodsSoFar(f.v, start, pool, n, methods, f.i, left)
    {
      methods :- PushMethod(f, pool, start, n, methods, left);
      left := left - 1;
    }
    assert methods + [] == methods;
    r := Ok(methods);
  }
}
