/** `Class::parse` (`src/class/mod.rs`): the whole class file. */
module Classes {
  import opened Base
  import opened Source
  import opened Attributes
  import opened Fields
  import opened Methods
  import CP = ConstantPool

  /** `Class`; the access flags are the raw `u2`. */
  datatype ClassFile = ClassFile(
    magic: nat,
    minorVersion: nat,
    majorVersion: nat,
    cp: CP.CpPool,
    accessFlags: nat,
    thisClass: nat,
    thisClassName: seq<byte>,
    superClass: nat,
    superClassName: seq<byte>,
    interfaces: seq<nat>,
    fields: seq<FieldInfo>,
    methods: seq<MethodInfo>,
    attributes: seq<AttributeInfo>)

  /** `get_utf(get_class(k)?.name_index)`: the name of the class that pool entry `k` refers to. */
  function ClassName(pool: CP.CpPool, k: nat): (r: Outcome<seq<byte>>)
    ensures r.Ok? <==> 1 <= k <= |pool| && pool[k - 1].Class?
                       && CP.GetUtfBytes(pool, pool[k - 1].nameIndex).Ok?
    ensures r.Ok? ==> r == CP.GetUtfBytes(pool, pool[k - 1].nameIndex)
    ensures k == 0 ==> r.Fatal?
  {
    var c :- CP.GetClass(pool, k);
    CP.GetUtfBytes(pool, c.nameIndex)
  }

  /** `Class::parse` from position `i`: the magic number (read and kept, not
      checked), the two versions, the constant pool, then the rest. */
  function Class(v: seq<byte>, i: nat): (r: Outcome<Parsed<ClassFile>>)
    ensures r.Ok? ==> U4(v, i) == Ok(Parsed(r.value.value.magic, i + 4))
    ensures r.Ok? ==> U2(v, i + 4) == Ok(Parsed(r.value.value.minorVersion, i + 6))
    ensures r.Ok? ==> U2(v, i + 6) == Ok(Parsed(r.value.value.majorVersion, i + 8))
    ensures r.Ok? ==> CP.Pool(v, i + 8).Ok? && r.value.value.cp == CP.Pool(v, i + 8).value.value
    ensures r.Ok? ==> i + 16 <= r.value.next <= |v|
  {
    var magic :- U4(v, i);
    var minor :- U2(v, magic.next);
    var major :- U2(v, minor.next);
    CP.PoolBounds(v, major.next);
    var pool :- CP.Pool(v, major.next);
    ClassBody(v, pool.next, magic.value, minor.value, major.value, pool.value)
  }

  /** The part of `Class::parse` after the constant pool. */
  function ClassBody(v: seq<byte>, i: nat, magic: nat, minor: nat, major: nat, pool: CP.CpPool)
    : (r: Outcome<Parsed<ClassFile>>)
    ensures r.Ok? ==> i + 8 <= r.value.next <= |v|
    ensures r.Ok? ==> var c := r.value.value;
                      && c.magic == magic && c.minorVersion == minor && c.majorVersion == major && c.cp == pool
                      && U2(v, i) == Ok(Parsed(c.accessFlags, i + 2))
                      && U2(v, i + 2) == Ok(Parsed(c.thisClass, i + 4))
                      && U2(v, i + 4) == Ok(Parsed(c.superClass, i + 6))
                      && ClassName(pool, c.thisClass) == Ok(c.thisClassName)
                      && ClassName(pool, c.superClass) == Ok(c.superClassName)
  {
    var flags :- U2(v, i);
    var thisClass :- U2(v, flags.next);
    var superClass :- U2(v, thisClass.next);
    var thisName :- ClassName(pool, thisClass.value);
    var superName :- ClassName(pool, superClass.value);
    var rest :- InterfacesAndMembers(v, superClass.next, pool);
    var (interfaces, (fields, methods, attributes)) := rest.value;
    Ok(Parsed(ClassFile(magic, minor, major, pool, flags.value, thisClass.value, thisName,
                        superClass.value, superName, interfaces, fields, methods, attributes),
              rest.next))
  }

  /** The part of `ClassBody` after the two class names: the counted interface
      indices, then the members. */
  function InterfacesAndMembers(v: seq<byte>, i: nat, pool: CP.CpPool)
    : (r: Outcome<Parsed<(seq<nat>, (seq<FieldInfo>, seq<MethodInfo>, seq<AttributeInfo>))>>)
    ensures r.Ok? ==> i + 8 <= r.value.next <= |v|
  {
    var interfacesCount :- U2(v, i);
    var interfaces :- Many(U2, v, interfacesCount.next, interfacesCount.value);
    IndicesWidth(v, interfacesCount.next, interfacesCount.value);
    var members :- Members(v, interfaces.next, pool);
    Ok(Parsed((interfaces.value, members.value), members.next))
  }

  /** The fields, methods and attributes of a class, each a `u2` count and that many records. */
  function Members(v: seq<byte>, i: nat, pool: CP.CpPool)
    : (r: Outcome<Parsed<(seq<FieldInfo>, seq<MethodInfo>, seq<AttributeInfo>)>>)
    ensures r.Ok? ==> i + 6 <= r.value.next <= |v|
  {
    var fieldsCount :- U2(v, i);
    var fields :- FieldList(v, fieldsCount.next, pool, fieldsCount.value);
    var rest :- MethodsAndAttributes(v, fields.next, pool);
    Ok(Parsed((fields.value, rest.value.0, rest.value.1), rest.next))
  }

  /** The part of `Members` after the fields: the counted method list, then
      the counted class attributes. */
  function MethodsAndAttributes(v: seq<byte>, i: nat, pool: CP.CpPool)
    : (r: Outcome<Parsed<(seq<MethodInfo>, seq<AttributeInfo>)>>)
    ensures r.Ok? ==> i + 4 <= r.value.next <= |v|
  {
    var methodsCount :- U2(v, i);
    var methods :- MethodList(v, methodsCount.next, pool, methodsCount.value);
    var attributesCount :- U2(v, methods.next);
    var attributes :- Attrs(v, attributesCount.next, pool, attributesCount.value);
    Ok(Parsed((methods.value, attributes.value), attributes.next))
  }

  /** What `Members` reads: the `u2` field count, exactly that many fields,
      then the methods and class attributes right after them. */
  lemma MembersLayout(v: seq<byte>, i: nat, pool: CP.CpPool)
    requires Members(v, i, pool).Ok?
    ensures var (fields, methods, attributes) := Members(v, i, pool).value.value; var n := |fields|;
            && U2(v, i) == Ok(Parsed(n, i + 2))
            && FieldList(v, i + 2, pool, n).Ok? && FieldList(v, i + 2, pool, n).value.value == fields
            && MethodsAndAttributes(v, FieldList(v, i + 2, pool, n).value.next, pool)
               == Ok(Parsed((methods, attributes), Members(v, i, pool).value.next))
  {
  }

  /** What `MethodsAndAttributes` reads: each of the two lists is exactly as
      long as the `u2` count in front of it, one right after the other. */
  lemma MethodsAndAttributesLayout(v: seq<byte>, i: nat, pool: CP.CpPool)
    requires MethodsAndAttributes(v, i, pool).Ok?
    ensures var (methods, attributes) := MethodsAndAttributes(v, i, pool).value.value; var n := |methods|;
            && U2(v, i) == Ok(Parsed(n, i + 2))
            && MethodList(v, i + 2, pool, n).Ok? && MethodList(v, i + 2, pool, n).value.value == methods
            && var j := MethodList(v, i + 2, pool, n).value.next;
            && U2(v, j) == Ok(Parsed(|attributes|, j + 2))
            && Attrs(v, j + 2, pool, |attributes|) == Ok(Parsed(attributes, MethodsAndAttributes(v, i, pool).value.next))
  {
  }

  /** What `ClassBody` reads after the two class names, as `InterfacesAndMembers`. */
  lemma ClassBodyLayout(v: seq<byte>, i: nat, magic: nat, minor: nat, major: nat, pool: CP.CpPool)
    requires ClassBody(v, i, magic, minor, major, pool).Ok?
    ensures var p := ClassBody(v, i, magic, minor, major, pool).value; var c := p.value;
            InterfacesAndMembers(v, i + 6, pool)
            == Ok(Parsed((c.interfaces, (c.fields, c.methods, c.attributes)), p.next))
  {
  }

  /** What `InterfacesAndMembers` reads: the `u2` interface count, exactly that
      many interface indices in stream order, then the members right after them. */
  lemma InterfacesLayout(v: seq<byte>, i: nat, pool: CP.CpPool)
    requires InterfacesAndMembers(v, i, pool).Ok?
    ensures U2(v, i).Ok? && U2(v, i).value.next == i + 2
    ensures var n := U2(v, i).value.value; var p := InterfacesAndMembers(v, i, pool).value;
            && Many(U2, v, i + 2, n).Ok? && Many(U2, v, i + 2, n).value.value == p.value.0
            && Members(v, Many(U2, v, i + 2, n).value.next, pool) == Ok(Parsed(p.value.1, p.next))
    ensures var n := U2(v, i).value.value; Many(U2, v, i + 2, n).value.next == i + 2 + 2 * n
  {
    IndicesWidth(v, i + 2, U2(v, i).value.value);
  }

  /** `n` interface indices take `2 * n` bytes. */
  lemma {:induction false} IndicesWidth(v: seq<byte>, i: nat, n: nat)
    ensures Many(U2, v, i, n).Ok? ==> Many(U2, v, i, n).value.next == i + 2 * n
    decreases n
  {
    if n > 0 && U2(v, i).Ok? {
      IndicesWidth(v, i + 2, n - 1);
    }
  }

  // ---------------------------------------------------------------------------
  // The parser, over a `ByteStream`

  /** `Class::parse`. */
  method ParseClass(f: ByteStream) returns (r: Outcome<ClassFile>)
    modifies f
    ensures Agrees(Class(f.v, old(f.i)), r, f.i)
  {
    var magic :- f.NextU4();
    var minor :- f.NextU2();
    var major :- f.NextU2();
    CP.PoolBounds(f.v, f.i);
    var pool :- CP.ParsePool(f);
    r := ParseClassBody(f, magic, minor, major, pool);
  }

  /** `Class::parse` after the constant pool. */
  method ParseClassBody(f: ByteStream, magic: nat, minor: nat, major: nat, pool: CP.CpPool)
    returns (r: Outcome<ClassFile>)
    modifies f
    ensures Agrees(ClassBody(f.v, old(f.i), magic, minor, major, pool), r, f.i)
  {
    var flags :- f.NextU2();
    var thisClass :- f.NextU2();
    var superClass :- f.NextU2();
    var thisName :- ClassName(pool, thisClass);
    var superName :- ClassName(pool, superClass);
    var interfacesCount :- f.NextU2();
    IndicesWidth(f.v, f.i, interfacesCount);
    var interfaces :- ParseInterfaces(f, interfacesCount);
    var members :- ParseMembers(f, pool);
    r := Ok(ClassFile(magic, minor, major, pool, flags, thisClass, thisName, superClass, superName,
                      interfaces, members.0, members.1, members.2));
  }

  /** The loop over the interface indices. */
  method ParseInterfaces(f: ByteStream, n: nat) returns (r: Outcome<seq<nat>>)
    modifies f
    ensures Agrees(Many(U2, f.v, old(f.i), n), r, f.i)
  {
    var interfaces: seq<nat> := [];
    ghost var start, left := f.i, n;
    for k := 0 to n
      invariant left == n - k
      invariant Many(U2, f.v, start, n) == Prepend(interfaces, Many(U2, f.v, f.i, left))
    {
      ghost var at := f.i;
      var index :- f.NextU2();
      ManyStep(U2, f.v, at, left, interfaces, index, f.i);
      interfaces, left := interfaces + [index], left - 1;
    }
    assert interfaces + [] == interfaces;
    r := Ok(interfaces);
  }

  /** The loops over the fields, the methods and the attributes. */
  method ParseMembers(f: ByteStream, pool: CP.CpPool)
    returns (r: Outcome<(seq<FieldInfo>, seq<MethodInfo>, seq<AttributeInfo>)>)
    modifies f
    ensures Agrees(Members(f.v, old(f.i), pool), r, f.i)
  {
    var fieldsCount :- f.NextU2();
    var fields :- ParseFields(f, pool, fieldsCount);
    var methodsCount :- f.NextU2();
    var methods :- ParseMethods(f, pool, methodsCount);
    var attributesCount :- f.NextU2();
    var attributes :- ParseAttributes(f, pool, attributesCount);
    r := Ok((fields, methods, attributes));
  }

}
