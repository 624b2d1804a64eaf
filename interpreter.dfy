/** The interpreter of `src/main.rs`: the table from (name, descriptor) to the
    `Code` attribute of each method, the lookup of the entry point, and `exec`,
    which runs one method's bytecode over an operand stack and a vector of
    locals, recursing for `invokestatic`.

    Values on the stack and in the locals are `isize`; the model uses
    mathematical integers for them. What `println` writes to standard output is
    collected in a trace. Running bytecode need not terminate, so the
    specification `Run` takes a fuel bound: every instruction, and every call,
    spends one unit, and a run that exhausts it ends with `OutOfFuel`. */
module Interpreter {
  import opened Base
  import opened Source
  import opened Instructions
  import Attributes
  import Methods
  import Classes
  import CP = ConstantPool

  type Code = Attributes.CodeAttribute

  /** A method as `invokestatic` names it: its name and its descriptor. */
  type Key = (seq<byte>, seq<byte>)

  /** The `HashMap` built by `main`. */
  type Table = map<Key, Code>

  const MAIN: seq<byte> := [0x6d, 0x61, 0x69, 0x6e]
  /** `([Ljava/lang/String;)V` */
  const MAIN_DESCRIPTOR: seq<byte> :=
    [0x28, 0x5b, 0x4c, 0x6a, 0x61, 0x76, 0x61, 0x2f, 0x6c, 0x61, 0x6e, 0x67, 0x2f,
     0x53, 0x74, 0x72, 0x69, 0x6e, 0x67, 0x3b, 0x29, 0x56]
  const PRINTLN: seq<byte> := [0x70, 0x72, 0x69, 0x6e, 0x74, 0x6c, 0x6e]
  /** `(I)V` */
  const INT_TO_VOID: seq<byte> := [0x28, 0x49, 0x29, 0x56]
  /** `(Ljava/lang/String;)V` */
  const STRING_TO_VOID: seq<byte> :=
    [0x28, 0x4c, 0x6a, 0x61, 0x76, 0x61, 0x2f, 0x6c, 0x61, 0x6e, 0x67, 0x2f,
     0x53, 0x74, 0x72, 0x69, 0x6e, 0x67, 0x3b, 0x29, 0x56]

  /** One line written by `println`: an integer, or the text of a `Utf` entry. */
  datatype Printed = PrintInt(n: int) | PrintText(text: seq<byte>)

  /** Why `main` returns an error instead of running anything. */
  datatype Reason = CouldNotParseClass | NoMainFunction

  /** How a run ends.
      - `Finished`: `exec` returned; `pushed` is what it pushed onto its caller's
        stack (the value of an `ireturn`; nothing after `return` or at the end of
        the bytecode);
      - `Panicked`: the process aborted;
      - `OutOfFuel`: the bound on the length of the run was reached;
      - `Refused`: `main` returned an error before running any instruction. */
  datatype Status = Finished(pushed: seq<int>) | Panicked | OutOfFuel | Refused(reason: Reason)

  /** A final status and everything printed up to it. */
  datatype Exit = Exit(status: Status, out: seq<Printed>)

  /** The state of one activation of `exec`: the cursor position in `code_raw`,
      the locals `l` and the operand stack `s` (its top is the last element). */
  datatype Frame = Frame(pc: nat, locals: seq<int>, stack: seq<int>)

  /** What one instruction does to its activation. */
  datatype Effect =
    | Continue(frame: Frame, printed: seq<Printed>)
    | Leave(pushed: seq<int>)
    | Invoke(callee: Code, args: seq<int>, frame: Frame)
    | Panic

  // ---------------------------------------------------------------------------
  // The method table and the entry point (`main`)

  /** The `Code` attribute of a method: the first attribute named `Code`
      (`find(..).unwrap()`, a panic when there is none), which must be of the
      `Code` variant (`cast!`). */
  function CodeOf(attrs: seq<Attributes.AttributeInfo>): (r: Outcome<Code>)
    ensures !r.None?
  {
    if attrs == [] then Fatal
    else if attrs[0].attributeName == Attributes.CODE then
      (if attrs[0].attribute.Code? then Ok(attrs[0].attribute.body) else Fatal)
    else CodeOf(attrs[1..])
  }

  function KeyOf(m: Methods.MethodInfo): Key {
    (m.name, m.descriptor)
  }

  /** The table after inserting the methods in order: a later method with the
      same name and descriptor replaces an earlier one. */
  function TableOf(methods: seq<Methods.MethodInfo>): (r: Outcome<Table>)
    ensures !r.None?
  {
    if methods == [] then Ok(map[])
    else
      var t :- TableOf(methods[..|methods| - 1]);
      var m := methods[|methods| - 1];
      var code :- CodeOf(m.attributes);
      Ok(t[KeyOf(m) := code])
  }

  function Zeros(n: nat): (l: seq<int>)
    ensures |l| == n && forall k | 0 <= k < n :: l[k] == 0
  {
    if n == 0 then [] else Zeros(n - 1) + [0]
  }

  /** `main` on the bytes of a class file: parse it, build the table, look up
      `main([Ljava/lang/String;)V`, and run it with `max_locals` zeroed locals
      and an empty stack. */
  function Program(v: seq<byte>, fuel: nat): (r: Exit)
    ensures r.status.Refused? ==> r.out == []
    ensures r.status == Refused(CouldNotParseClass) <==> Classes.Class(v, 0).None?
  {
    match Classes.Class(v, 0)
    case None => Exit(Refused(CouldNotParseClass), [])
    case Fatal => Exit(Panicked, [])
    case Ok(c) =>
      match TableOf(c.value.methods)
      case Ok(t) =>
        if (MAIN, MAIN_DESCRIPTOR) !in t then Exit(Refused(NoMainFunction), [])
        else
          var entry := t[(MAIN, MAIN_DESCRIPTOR)];
          Run(c.value.cp, t, entry.codeRaw, Frame(0, Zeros(entry.maxLocals), []), [], fuel)
      case None => Exit(Panicked, [])
      case Fatal => Exit(Panicked, [])
  }

  // ---------------------------------------------------------------------------
  // One instruction

  /** The method a `Methodref` entry names, resolved as `invokevirtual` and
      `invokestatic` do: every lookup is unwrapped, so any failure panics. The
      name of the class is resolved too, and then ignored. */
  function Target(pool: CP.CpPool, k: nat): (r: Outcome<Key>)
    ensures !r.None?
  {
    var m :- CP.GetMethodref(pool, k).Unwrap();
    var c :- CP.GetClass(pool, m.classIndex).Unwrap();
    var _ :- CP.GetUtf(pool, c.nameIndex).Unwrap();
    var nt :- CP.GetNameAndType(pool, m.nameAndTypeIndex).Unwrap();
    var name :- CP.GetUtf(pool, nt.nameIndex).Unwrap();
    var descriptor :- CP.GetUtf(pool, nt.descriptorIndex).Unwrap();
    Ok((name.bytes, descriptor.bytes))
  }

  /** Pool entry `k` exists. */
  predicate InPool(pool: CP.CpPool, k: nat) {
    1 <= k <= |pool|
  }

  /** `Target` succeeds exactly when the whole chain of entries is there with
      the right kinds: a `Methodref` at `k`, a `Class` at its class index whose
      name is text, and a `NameAndType` at its name-and-type index whose name and
      descriptor are both text; it then gives those two texts. */
  lemma TargetResolved(pool: CP.CpPool, k: nat)
    ensures Target(pool, k).Ok? <==>
              && InPool(pool, k) && pool[k - 1].Methodref?
              && var m := pool[k - 1];
              && InPool(pool, m.classIndex) && pool[m.classIndex - 1].Class?
              && InPool(pool, pool[m.classIndex - 1].nameIndex) && pool[pool[m.classIndex - 1].nameIndex - 1].Utf?
              && InPool(pool, m.nameAndTypeIndex) && pool[m.nameAndTypeIndex - 1].NameAndType?
              && var nt := pool[m.nameAndTypeIndex - 1];
              && InPool(pool, nt.nameIndex) && pool[nt.nameIndex - 1].Utf?
              && InPool(pool, nt.descriptorIndex) && pool[nt.descriptorIndex - 1].Utf?
    ensures Target(pool, k).Ok? ==>
              var nt := pool[pool[k - 1].nameAndTypeIndex - 1];
              Target(pool, k).value == (pool[nt.nameIndex - 1].bytes, pool[nt.descriptorIndex - 1].bytes)
  {
  }

  function Push(f: Frame, x: int): Effect {
    Continue(f.(stack := f.stack + [x]), [])
  }

  /** A conditional or unconditional jump by `offset` from the position after
      the instruction: `advance_by(offset).unwrap()`, so a target outside the
      bytecode panics. */
  function Branch(len: nat, taken: bool, offset: int, f: Frame): Effect {
    if !taken then Continue(f, [])
    else
      var (moved, j) := Seek(len, f.pc, offset);
      if moved.Ok? then Continue(f.(pc := j), []) else Panic
  }

  /** `ldc`: an `Integer` entry pushes its `u4` as an `i32`, a `String` entry its
      `string_index`; any other entry is `todo!`. */
  function Constant(pool: CP.CpPool, k: nat, f: Frame): Effect {
    var e := CP.Get(pool, k);
    if !e.Ok? then Panic
    else if e.value.Integer? then Push(f, AsI32(e.value.val))
    else if e.value.String? then Push(f, e.value.stringIndex)
    else Panic
  }

  /** `invokevirtual`: only the two `println` overloads are implemented. */
  function Virtual(pool: CP.CpPool, k: nat, f: Frame): (r: Effect)
    ensures !r.Leave? && !r.Invoke?
    ensures r.Continue? ==> && |f.stack| > 0 && |r.printed| == 1
                            && r.frame == f.(stack := f.stack[..|f.stack| - 1])
    ensures var t := Target(pool, k);
            !(t.Ok? && t.value.0 == PRINTLN && t.value.1 in {INT_TO_VOID, STRING_TO_VOID}) ==> r.Panic?
    ensures Target(pool, k) == Ok((PRINTLN, INT_TO_VOID)) && |f.stack| > 0 ==>
              r == Continue(f.(stack := f.stack[..|f.stack| - 1]), [PrintInt(f.stack[|f.stack| - 1])])
  {
    var t := Target(pool, k);
    var s := f.stack;
    if !t.Ok? || t.value.0 != PRINTLN || |s| == 0 then Panic
    else if t.value.1 == INT_TO_VOID then
      Continue(f.(stack := s[..|s| - 1]), [PrintInt(s[|s| - 1])])
    else if t.value.1 == STRING_TO_VOID then
      var u := CP.GetUtf(pool, AsUsize(s[|s| - 1]));
      if u.Ok? then Continue(f.(stack := s[..|s| - 1]), [PrintText(u.value.bytes)]) else Panic
    else Panic
  }

  /** The top `n` values of `s`, in the order `n` pops take them. */
  function Popped(s: seq<int>, n: nat): (args: seq<int>)
    requires n <= |s|
    ensures |args| == n
    ensures forall j | 0 <= j < n :: args[j] == s[|s| - 1 - j]
  {
    if n == 0 then [] else Popped(s, n - 1) + [s[|s| - n]]
  }

  /** `invokestatic`: look the target up in the table (a panic when it is
      missing), then pop `max_locals` arguments, the first one popped becoming
      local 0. */
  function Static(pool: CP.CpPool, table: Table, k: nat, f: Frame): (r: Effect)
    ensures !r.Continue? && !r.Leave?
    ensures r.Panic? <==> !Target(pool, k).Ok? || Target(pool, k).value !in table
                          || |f.stack| < table[Target(pool, k).value].maxLocals
    ensures r.Invoke? ==> && r.callee == table[Target(pool, k).value]
                          && |r.args| == r.callee.maxLocals
                          && r.frame == f.(stack := f.stack[..|f.stack| - |r.args|])
                          && forall j | 0 <= j < |r.args| :: r.args[j] == f.stack[|f.stack| - 1 - j]
  {
    var t := Target(pool, k);
    if !t.Ok? || t.value !in table then Panic
    else
      var callee := table[t.value];
      var s := f.stack;
      var n := callee.maxLocals;
      if |s| < n then Panic
      else Invoke(callee, Popped(s, n), f.(stack := s[..|s| - n]))
  }

  function Load(f: Frame, k: nat): Effect {
    if k < |f.locals| then Push(f, f.locals[k]) else Panic
  }

  function Store(f: Frame, k: nat): Effect {
    var s := f.stack;
    if |s| == 0 || |f.locals| <= k then Panic
    else Continue(Frame(f.pc, f.locals[k := s[|s| - 1]], s[..|s| - 1]), [])
  }

  /** One arm of the `match` in `exec`, for the instruction `op` whose bytes end
      at `f.pc`, in bytecode `len` bytes long. */
  function Step(pool: CP.CpPool, table: Table, len: nat, op: OpCode, f: Frame): (r: Effect)
    ensures r.Leave? ==> |r.pushed| <= 1
  {
    var s := f.stack;
    match op
    case GetStatic(_) => Continue(f, [])
    case IConst(n) => Push(f, n)
    case BiPush(x) => Push(f, AsI8(x))
    case SiPush(x) => Push(f, AsI16(x))
    case Ldc(k) => Constant(pool, k, f)
    case ILoad(k) => Load(f, k)
    case ALoad(k) => Load(f, k)
    case IStore(k) => Store(f, k)
    case AStore(k) => Store(f, k)
    case IAdd => if |s| < 2 then Panic else Push(f.(stack := s[..|s| - 2]), s[|s| - 1] + s[|s| - 2])
    case ISub => if |s| < 2 then Panic else Push(f.(stack := s[..|s| - 2]), s[|s| - 2] - s[|s| - 1])
    case IMul => if |s| < 2 then Panic else Push(f.(stack := s[..|s| - 2]), s[|s| - 1] * s[|s| - 2])
    case If(c, d) =>
      if |s| == 0 then Panic else Branch(len, Holds(c, s[|s| - 1], 0), d, f.(stack := s[..|s| - 1]))
    case IfICmp(c, d) =>
      if |s| < 2 then Panic else Branch(len, Holds(c, s[|s| - 2], s[|s| - 1]), d, f.(stack := s[..|s| - 2]))
    case Goto(d) => Branch(len, true, d, f)
    case InvokeVirtual(k) => Virtual(pool, k, f)
    case InvokeStatic(k) => Static(pool, table, k, f)
    case IReturn => if |s| == 0 then Panic else Leave([s[|s| - 1]])
    case Return => Leave([])
    case Dup => Panic
    case Iinc(_, _) => Panic
    case InvokeSpecial(_) => Panic
    case New(_) => Panic
  }

  // ---------------------------------------------------------------------------
  // A whole activation

  /** `exec` from the activation `f` of the method whose bytecode is `raw`, after
      `out` has been printed: decode an instruction (the end of the bytecode or
      a truncated instruction ends the activation), perform it, and go on.
      An `invokestatic` runs the callee on a fresh empty stack; when it returns,
      the caller goes on with what the callee pushed on top of its stack. */
  function Run(pool: CP.CpPool, table: Table, raw: seq<byte>, f: Frame, out: seq<Printed>, fuel: nat)
    : (r: Exit)
    ensures r.status.Finished? ==> |r.status.pushed| <= 1
    ensures !r.status.Refused?
    decreases fuel, 0
  {
    if fuel == 0 then Exit(OutOfFuel, out)
    else match Decode(raw, f.pc)
      case None => Exit(Finished([]), out)
      case Fatal => Exit(Panicked, out)
      case Ok(p) => Resume(pool, table, raw, Step(pool, table, |raw|, p.value, f.(pc := p.next)), out, fuel - 1)
  }

  /** The rest of a run of `raw` once an instruction has had the effect `e`. */
  function Resume(pool: CP.CpPool, table: Table, raw: seq<byte>, e: Effect, out: seq<Printed>, fuel: nat)
    : (r: Exit)
    ensures r.status.Finished? ==> |r.status.pushed| <= 1
    requires e.Leave? ==> |e.pushed| <= 1
    ensures !r.status.Refused?
    decreases fuel, 1
  {
    match e
    case Continue(g, printed) => Run(pool, table, raw, g, out + printed, fuel)
    case Leave(pushed) => Exit(Finished(pushed), out)
    case Panic => Exit(Panicked, out)
    case Invoke(callee, args, g) =>
      var sub := Run(pool, table, callee.codeRaw, Frame(0, args, []), out, fuel);
      if sub.status.Finished? then
        Run(pool, table, raw, g.(stack := g.stack + sub.status.pushed), sub.out, fuel)
      else sub
  }

  // ---------------------------------------------------------------------------
  // The imperative interpreter

  /** `main`'s insert loop over the methods in class-file order. */
  method BuildTable(methods: seq<Methods.MethodInfo>) returns (r: Outcome<Table>)
    ensures r == TableOf(methods)
  {
    var table: Table := map[];
    for j := 0 to |methods|
      invariant TableOf(methods[..j]) == Ok(table)
    {
      assert methods[..j + 1][..j] == methods[..j];
      var code := CodeOf(methods[j].attributes);
      if !code.Ok? {
        TableFatalPrefix(methods, j + 1);
        return Fatal;
      }
      table := table[KeyOf(methods[j]) := code.value];
    }
    assert methods[..|methods|] == methods;
    r := Ok(table);
  }

  /** The loop of `invokestatic` that pops `n` values into a new vector of locals. */
  method PopLocals(s: seq<int>, n: nat) returns (locals: Outcome<seq<int>>, rest: seq<int>)
    ensures !locals.None?
    ensures locals.Ok? <==> n <= |s|
    ensures locals.Ok? ==> n <= |s| && locals.value == Popped(s, n) && rest == s[..|s| - n]
  {
    var acc := [];
    rest := s;
    for j := 0 to n
      invariant j <= |s| && rest == s[..|s| - j] && acc == Popped(s, j)
    {
      if |rest| == 0 {
        return Fatal, rest;
      }
      acc := acc + [rest[|rest| - 1]];
      rest := rest[..|rest| - 1];
    }
    locals := Ok(acc);
  }

  /** One arm of the `match` in `exec` for an instruction that neither calls a
      method nor returns, with the cursor `code` just after the instruction. */
  method ExecOp(code: ByteStream, pool: CP.CpPool, table: Table, op: OpCode, l: seq<int>, s: seq<int>)
    returns (e: Effect)
    requires WellFormed(op) && !op.InvokeStatic? && !op.IReturn? && !op.Return?
    modifies code
    ensures e == Step(pool, table, |code.v|, op, Frame(old(code.i), l, s))
    ensures e.Continue? ==> e.frame.pc == code.i
  {
    var locals, stack := l, s;
    var printed: seq<Printed> := [];
    match op {
    case GetStatic(_) =>
    case IConst(n) =>
      stack := stack + [n];
    case BiPush(x) =>
      stack := stack + [AsI8(x)];
    case SiPush(x) =>
      stack := stack + [AsI16(x)];
    case Ldc(k) =>
      var entry := CP.Get(pool, k);
      if !entry.Ok? {
        return Panic;
      }
      if entry.value.Integer? {
        stack := stack + [AsI32(entry.value.val)];
      } else if entry.value.String? {
        stack := stack + [entry.value.stringIndex];
      } else {
        return Panic;
      }
    case ILoad(k) =>
      if |locals| <= k {
        return Panic;
      }
      stack := stack + [locals[k]];
    case ALoad(k) =>
      if |locals| <= k {
        return Panic;
      }
      stack := stack + [locals[k]];
    case IStore(k) =>
      if |stack| == 0 || |locals| <= k {
        return Panic;
      }
      locals := locals[k := stack[|stack| - 1]];
      stack := stack[..|stack| - 1];
    case AStore(k) =>
      if |stack| == 0 || |locals| <= k {
        return Panic;
      }
      locals := locals[k := stack[|stack| - 1]];
      stack := stack[..|stack| - 1];
    case IAdd =>
      if |stack| < 2 {
        return Panic;
      }
      var a, b := stack[|stack| - 1], stack[|stack| - 2];
      stack := stack[..|stack| - 2] + [a + b];
    case ISub =>
      if |stack| < 2 {
        return Panic;
      }
      var a, b := stack[|stack| - 1], stack[|stack| - 2];
      stack := stack[..|stack| - 2] + [b - a];
    case IMul =>
      if |stack| < 2 {
        return Panic;
      }
      var a, b := stack[|stack| - 1], stack[|stack| - 2];
      stack := stack[..|stack| - 2] + [a * b];
    case If(c, d) =>
      if |stack| == 0 {
        return Panic;
      }
      var x := stack[|stack| - 1];
      stack := stack[..|stack| - 1];
      if Holds(c, x, 0) {
        var moved := code.AdvanceBy(d);
        if !moved.Ok? {
          return Panic;
        }
      }
    case IfICmp(c, d) =>
      if |stack| < 2 {
        return Panic;
      }
      var a, b := stack[|stack| - 1], stack[|stack| - 2];
      stack := stack[..|stack| - 2];
      if Holds(c, b, a) {
        var moved := code.AdvanceBy(d);
        if !moved.Ok? {
          return Panic;
        }
      }
    case Goto(d) =>
      var moved := code.AdvanceBy(d);
      if !moved.Ok? {
        return Panic;
      }
    case InvokeVirtual(k) =>
      var t := Target(pool, k);
      if !t.Ok? || t.value.0 != PRINTLN || |stack| == 0 {
        return Panic;
      }
      var x := stack[|stack| - 1];
      if t.value.1 == INT_TO_VOID {
        printed := [PrintInt(x)];
      } else if t.value.1 == STRING_TO_VOID {
        var u := CP.GetUtf(pool, AsUsize(x));
        if !u.Ok? {
          return Panic;
        }
        printed := [PrintText(u.value.bytes)];
      } else {
        return Panic;
      }
      stack := stack[..|stack| - 1];
    case Dup =>
      return Panic;
    case Iinc(_, _) =>
      return Panic;
    case InvokeSpecial(_) =>
      return Panic;
    case New(_) =>
      return Panic;
    case InvokeStatic(_) =>
      assert false;
    case IReturn =>
      assert false;
    case Return =>
      assert false;
    }
    e := Continue(Frame(code.i, locals, stack), printed);
  }

  /** How one instruction of `exec` ends: the run stops (with its exit), or it
      goes on from a new activation with a longer trace. */
  datatype Tick = Stop(exit: Exit) | Go(frame: Frame, out: seq<Printed>)

  /** `invokestatic` of the method that pool entry `k` names, from the activation
      `g`: look the callee up, pop its arguments and run it to its end. */
  method Call(pool: CP.CpPool, table: Table, raw: seq<byte>, k: nat, g: Frame, out: seq<Printed>, left: nat)
    returns (t: Tick)
    requires 0 < left
    ensures t.Stop? ==> t.exit == Resume(pool, table, raw, Static(pool, table, k, g), out, left - 1)
    ensures t.Go? ==> t.frame.pc == g.pc && t.frame.locals == g.locals
                      && Run(pool, table, raw, t.frame, t.out, left - 1)
                         == Resume(pool, table, raw, Static(pool, table, k, g), out, left - 1)
    decreases left, 0
  {
    var target := Target(pool, k);
    if !target.Ok? || target.value !in table {
      return Stop(Exit(Panicked, out));
    }
    var callee := table[target.value];
    var args, rest := PopLocals(g.stack, callee.maxLocals);
    if !args.Ok? {
      return Stop(Exit(Panicked, out));
    }
    ghost var e := Invoke(callee, args.value, g.(stack := rest));
    assert Static(pool, table, k, g) == e;
    var status, stack, printed := Exec(pool, table, callee, args.value, rest, [], out, left - 1);
    if !status.Finished? {
      return Stop(Exit(status, printed));
    }
    assert Resume(pool, table, raw, e, out, left - 1)
        == Run(pool, table, raw, g.(stack := rest + status.pushed), printed, left - 1);
    return Go(g.(stack := stack), printed);
  }

  /** One turn of the loop of `exec`: decode an instruction at the cursor and
      perform it. */
  method Instruction(cursor: ByteStream, pool: CP.CpPool, table: Table, l: seq<int>, s: seq<int>,
                     out: seq<Printed>, left: nat)
    returns (t: Tick)
    requires 0 < left
    modifies cursor
    ensures t.Stop? ==> t.exit == Run(pool, table, cursor.v, Frame(old(cursor.i), l, s), out, left)
    ensures t.Go? ==> t.frame.pc == cursor.i
                      && Run(pool, table, cursor.v, t.frame, t.out, left - 1)
                         == Run(pool, table, cursor.v, Frame(old(cursor.i), l, s), out, left)
    decreases left, 1
  {
    ghost var f := Frame(cursor.i, l, s);
    var op := ParseOpCode(cursor);
    if op.None? {
      return Stop(Exit(Finished([]), out));
    } else if op.Fatal? {
      return Stop(Exit(Panicked, out));
    }
    var x := op.value;
    var after := Frame(cursor.i, l, s);
    assert Run(pool, table, cursor.v, f, out, left)
        == Resume(pool, table, cursor.v, Step(pool, table, |cursor.v|, x, after), out, left - 1);
    if x.Return? {
      t := Stop(Exit(Finished([]), out));
    } else if x.IReturn? {
      if |s| == 0 {
        return Stop(Exit(Panicked, out));
      }
      t := Stop(Exit(Finished([s[|s| - 1]]), out));
    } else if x.InvokeStatic? {
      t := Call(pool, table, cursor.v, x.index, after, out, left);
    } else {
      var e := ExecOp(cursor, pool, table, x, l, s);
      if e.Panic? {
        return Stop(Exit(Panicked, out));
      }
      t := Go(e.frame, out + e.printed);
    }
  }

  /** `exec(c, f, code, l, s0, s)`: runs the bytecode of `code` from its start
      with locals `l` and stack `s`; `caller` is the caller's stack `s0` after the
      run, `trace` the output so far. */
  method Exec(pool: CP.CpPool, table: Table, code: Code, l: seq<int>, s0: seq<int>, s: seq<int>,
              out: seq<Printed>, fuel: nat)
    returns (status: Status, caller: seq<int>, trace: seq<Printed>)
    ensures Exit(status, trace) == Run(pool, table, code.codeRaw, Frame(0, l, s), out, fuel)
    ensures caller == if status.Finished? then s0 + status.pushed else s0
    decreases fuel, 2
  {
    var cursor := new ByteStream.From(code.codeRaw);
    var frame := Frame(0, l, s);
    var left: nat := fuel;
    trace, caller := out, s0;
    while 0 < left
      invariant cursor.v == code.codeRaw && left <= fuel && frame.pc == cursor.i
      invariant Run(pool, table, code.codeRaw, frame, trace, left)
             == Run(pool, table, code.codeRaw, Frame(0, l, s), out, fuel)
      decreases left
    {
      var t := Instruction(cursor, pool, table, frame.locals, frame.stack, trace, left);
      if t.Stop? {
        status, trace := t.exit.status, t.exit.out;
        if status.Finished? {
          caller := s0 + status.pushed;
        }
        return;
      }
      frame, trace := t.frame, t.out;
      left := left - 1;
    }
    status := OutOfFuel;
  }

  /** `main` on the bytes `v` of a class file. */
  method Launch(v: seq<byte>, fuel: nat) returns (status: Status, out: seq<Printed>)
    ensures Exit(status, out) == Program(v, fuel)
  {
    var f := new ByteStream.From(v);
    var c := Classes.ParseClass(f);
    if c.None? {
      return Refused(CouldNotParseClass), [];
    } else if c.Fatal? {
      return Panicked, [];
    }
    var table := BuildTable(c.value.methods);
    if !table.Ok? {
      return Panicked, [];
    }
    if (MAIN, MAIN_DESCRIPTOR) !in table.value {
      return Refused(NoMainFunction), [];
    }
    var entry := table.value[(MAIN, MAIN_DESCRIPTOR)];
    var locals := Zeros(entry.maxLocals);
    var pushed;
    status, pushed, out := Exec(c.value.cp, table.value, entry, locals, [], [], [], fuel);
  }

  // ---------------------------------------------------------------------------
  // Properties of the table

  lemma {:induction false} TableFatalPrefix(methods: seq<Methods.MethodInfo>, j: nat)
    requires j <= |methods| && TableOf(methods[..j]).Fatal?
    ensures TableOf(methods).Fatal?
  {
    if j < |methods| {
      var init := methods[..|methods| - 1];
      assert init[..j] == methods[..j];
      TableFatalPrefix(init, j);
    } else {
      assert methods[..j] == methods;
    }
  }

  /** The first attribute named `Code` decides: its body when it is a `Code`
      attribute, a panic otherwise; later attributes are not looked at. */
  lemma {:induction false} CodeOfFirst(attrs: seq<Attributes.AttributeInfo>, j: nat)
    requires j < |attrs| && attrs[j].attributeName == Attributes.CODE
    requires forall i | 0 <= i < j :: attrs[i].attributeName != Attributes.CODE
    ensures CodeOf(attrs) == if attrs[j].attribute.Code? then Ok(attrs[j].attribute.body) else Fatal
  {
    if 0 < j {
      assert attrs[0].attributeName != Attributes.CODE;
      assert forall i | 0 <= i < j - 1 :: attrs[1..][i] == attrs[i + 1];
      CodeOfFirst(attrs[1..], j - 1);
    }
  }

  /** A method without a `Code` attribute makes `main` panic. */
  lemma {:induction false} CodeOfMissing(attrs: seq<Attributes.AttributeInfo>)
    requires forall i | 0 <= i < |attrs| :: attrs[i].attributeName != Attributes.CODE
    ensures CodeOf(attrs) == Fatal
  {
    if attrs != [] {
      assert attrs[0].attributeName != Attributes.CODE;
      assert forall i | 0 <= i < |attrs| - 1 :: attrs[1..][i] == attrs[i + 1];
      CodeOfMissing(attrs[1..]);
    }
  }

  /** Building the table panics exactly when some method has no usable `Code`
      attribute. */
  lemma {:induction false} TableFails(methods: seq<Methods.MethodInfo>)
    ensures TableOf(methods).Fatal? <==> exists j | 0 <= j < |methods| :: CodeOf(methods[j].attributes).Fatal?
  {
    if methods != [] {
      var init := methods[..|methods| - 1];
      TableFails(init);
      assert forall j | 0 <= j < |init| :: init[j] == methods[j];
      if TableOf(init).Fatal? {
        var j :| 0 <= j < |init| && CodeOf(init[j].attributes).Fatal?;
        assert CodeOf(methods[j].attributes).Fatal?;
      } else if CodeOf(methods[|methods| - 1].attributes).Fatal? {
        assert TableOf(methods).Fatal?;
      } else {
        assert forall j | 0 <= j < |methods| :: !CodeOf(methods[j].attributes).Fatal? by {
          forall j | 0 <= j < |methods|
            ensures !CodeOf(methods[j].attributes).Fatal?
          {
            if j < |init| {
              assert CodeOf(init[j].attributes) == CodeOf(methods[j].attributes);
            }
          }
        }
      }
    }
  }

  /** The table holds exactly the keys of the methods. */
  lemma {:induction false} TableKeys(methods: seq<Methods.MethodInfo>, t: Table)
    requires TableOf(methods) == Ok(t)
    ensures forall key :: key in t <==> exists j | 0 <= j < |methods| :: KeyOf(methods[j]) == key
  {
    if methods != [] {
      var init := methods[..|methods| - 1];
      var m := methods[|methods| - 1];
      var t0 := TableOf(init).value;
      TableKeys(init, t0);
      assert t.Keys == t0.Keys + {KeyOf(m)};
      forall key
        ensures key in t <==> exists j | 0 <= j < |methods| :: KeyOf(methods[j]) == key
      {
        if key in t0 {
          var j :| 0 <= j < |init| && KeyOf(init[j]) == key;
          assert KeyOf(methods[j]) == key;
        }
        if key != KeyOf(m) && exists j | 0 <= j < |methods| :: KeyOf(methods[j]) == key {
          var j :| 0 <= j < |methods| && KeyOf(methods[j]) == key;
          assert j < |init| && KeyOf(init[j]) == key;
        }
        assert key == KeyOf(m) ==> KeyOf(methods[|methods| - 1]) == key;
      }
    }
  }

  /** Each key is mapped to the `Code` attribute of the last method with that
      name and descriptor: a later insertion replaces an earlier one. */
  lemma {:induction false} TableLatest(methods: seq<Methods.MethodInfo>, t: Table, j: nat)
    requires TableOf(methods) == Ok(t)
    requires j < |methods| && forall i | j < i < |methods| :: KeyOf(methods[i]) != KeyOf(methods[j])
    ensures KeyOf(methods[j]) in t && CodeOf(methods[j].attributes) == Ok(t[KeyOf(methods[j])])
  {
    var init := methods[..|methods| - 1];
    var m := methods[|methods| - 1];
    var t0 := TableOf(init).value;
    assert t == t0[KeyOf(m) := CodeOf(m.attributes).value];
    if j < |init| {
      assert init[j] == methods[j];
      assert forall i | j < i < |init| :: init[i] == methods[i];
      TableLatest(init, t0, j);
    }
  }

  /** `main` fails with "no main function found" exactly when the class parses,
      the table can be built, and no method is `main([Ljava/lang/String;)V`;
      nothing has been printed then. */
  lemma NoMainFunctionFound(v: seq<byte>, fuel: nat)
    ensures Program(v, fuel).status == Refused(NoMainFunction) <==>
            && Classes.Class(v, 0).Ok?
            && var methods := Classes.Class(v, 0).value.value.methods;
               && TableOf(methods).Ok?
               && forall j | 0 <= j < |methods| :: KeyOf(methods[j]) != (MAIN, MAIN_DESCRIPTOR)
    ensures Program(v, fuel).status.Refused? ==> Program(v, fuel).out == []
  {
    if Classes.Class(v, 0).Ok? && TableOf(Classes.Class(v, 0).value.value.methods).Ok? {
      var methods := Classes.Class(v, 0).value.value.methods;
      TableKeys(methods, TableOf(methods).value);
    }
  }

  /** When the class parses and the table is built, `main` runs the `Code` of
      the last method named `main` with descriptor `([Ljava/lang/String;)V`,
      from its first byte, with `max_locals` zeroed locals, an empty stack and
      nothing printed yet. */
  lemma EntryPoint(v: seq<byte>, fuel: nat, j: nat)
    requires Classes.Class(v, 0).Ok?
    requires var methods := Classes.Class(v, 0).value.value.methods;
             && TableOf(methods).Ok?
             && j < |methods| && KeyOf(methods[j]) == (MAIN, MAIN_DESCRIPTOR)
             && forall i | j < i < |methods| :: KeyOf(methods[i]) != (MAIN, MAIN_DESCRIPTOR)
    ensures var c := Classes.Class(v, 0).value.value;
            && CodeOf(c.methods[j].attributes).Ok?
            && var entry := CodeOf(c.methods[j].attributes).value;
               Program(v, fuel)
               == Run(c.cp, TableOf(c.methods).value, entry.codeRaw, Frame(0, Zeros(entry.maxLocals), []), [], fuel)
  {
    var c := Classes.Class(v, 0).value.value;
    var t := TableOf(c.methods).value;
    TableLatest(c.methods, t, j);
    var entry := t[(MAIN, MAIN_DESCRIPTOR)];
    assert Program(v, fuel) == Run(c.cp, t, entry.codeRaw, Frame(0, Zeros(entry.maxLocals), []), [], fuel);
  }

  // ---------------------------------------------------------------------------
  // Properties of a run

  /** Output is only ever appended: what was printed before stays a prefix. */
  lemma {:induction false} TraceGrows(pool: CP.CpPool, table: Table, raw: seq<byte>, f: Frame,
                                      out: seq<Printed>, fuel: nat)
    ensures out <= Run(pool, table, raw, f, out, fuel).out
    decreases fuel, 0
  {
    if 0 < fuel && Decode(raw, f.pc).Ok? {
      var p := Decode(raw, f.pc).value;
      ResumeTraceGrows(pool, table, raw, Step(pool, table, |raw|, p.value, f.(pc := p.next)), out, fuel - 1);
    }
  }

  lemma {:induction false} ResumeTraceGrows(pool: CP.CpPool, table: Table, raw: seq<byte>, e: Effect,
                                            out: seq<Printed>, fuel: nat)
    requires e.Leave? ==> |e.pushed| <= 1
    ensures out <= Resume(pool, table, raw, e, out, fuel).out
    decreases fuel, 1
  {
    match e
    case Continue(g, printed) =>
      TraceGrows(pool, table, raw, g, out + printed, fuel);
    case Invoke(callee, args, g) =>
      var sub := Run(pool, table, callee.codeRaw, Frame(0, args, []), out, fuel);
      TraceGrows(pool, table, callee.codeRaw, Frame(0, args, []), out, fuel);
      if sub.status.Finished? {
        TraceGrows(pool, table, raw, g.(stack := g.stack + sub.status.pushed), sub.out, fuel);
      }
    case Leave(_) =>
    case Panic =>
  }

  /** The fuel only bounds the run: a run that ends within `fuel` steps ends the
      same way with any larger bound. */
  lemma {:induction false} MoreFuel(pool: CP.CpPool, table: Table, raw: seq<byte>, f: Frame,
                                    out: seq<Printed>, fuel: nat, more: nat)
    requires fuel <= more && Run(pool, table, raw, f, out, fuel).status != OutOfFuel
    ensures Run(pool, table, raw, f, out, more) == Run(pool, table, raw, f, out, fuel)
    decreases fuel, 0
  {
    if Decode(raw, f.pc).Ok? {
      var p := Decode(raw, f.pc).value;
      ResumeMoreFuel(pool, table, raw, Step(pool, table, |raw|, p.value, f.(pc := p.next)), out, fuel - 1, more - 1);
    }
  }

  lemma {:induction false} ResumeMoreFuel(pool: CP.CpPool, table: Table, raw: seq<byte>, e: Effect,
                                          out: seq<Printed>, fuel: nat, more: nat)
    requires e.Leave? ==> |e.pushed| <= 1
    requires fuel <= more && Resume(pool, table, raw, e, out, fuel).status != OutOfFuel
    ensures Resume(pool, table, raw, e, out, more) == Resume(pool, table, raw, e, out, fuel)
    decreases fuel, 1
  {
    match e
    case Continue(g, printed) =>
      MoreFuel(pool, table, raw, g, out + printed, fuel, more);
    case Invoke(callee, args, g) =>
      var sub := Run(pool, table, callee.codeRaw, Frame(0, args, []), out, fuel);
      MoreFuel(pool, table, callee.codeRaw, Frame(0, args, []), out, fuel, more);
      if sub.status.Finished? {
        MoreFuel(pool, table, raw, g.(stack := g.stack + sub.status.pushed), sub.out, fuel, more);
      }
    case Leave(_) =>
    case Panic =>
  }

  // ---------------------------------------------------------------------------
  // Properties of single instructions

  /** `iadd`, `isub` and `imul` take `..., b, a` to `..., a + b`, `..., b - a`
      and `..., a * b`, and panic on a stack with fewer than two values. */
  lemma Arithmetic(pool: CP.CpPool, table: Table, len: nat, op: OpCode, pc: nat, l: seq<int>,
                   rest: seq<int>, b: int, a: int)
    requires op.IAdd? || op.ISub? || op.IMul?
    ensures Step(pool, table, len, op, Frame(pc, l, rest + [b, a]))
            == Continue(Frame(pc, l, rest + [if op.IAdd? then a + b else if op.ISub? then b - a else a * b]), [])
    ensures Step(pool, table, len, op, Frame(pc, l, [a])) == Panic
    ensures Step(pool, table, len, op, Frame(pc, l, [])) == Panic
  {
    var s := rest + [b, a];
    assert s[..|s| - 2] == rest && s[|s| - 1] == a && s[|s| - 2] == b;
  }

  /** A taken jump by `offset` from position `pc` in bytecode of `len` bytes
      (a `code` length is a `u4`) lands on `pc + offset` when that lies inside
      the bytecode and panics otherwise. */
  lemma Jump(len: nat, offset: int, f: Frame)
    requires f.pc <= len < 0x1_0000_0000 && -0x8000 <= offset < 0x8000
    ensures Branch(len, true, offset, f)
            == if 0 <= f.pc + offset < len then Continue(f.(pc := f.pc + offset), []) else Panic
  {
    SeekWithinBuffer(len, f.pc, offset);
  }

  /** `if<cond>` pops `x` and jumps when `x <cond> 0`, falling through otherwise. */
  lemma IfBranch(pool: CP.CpPool, table: Table, len: nat, c: Cond, offset: int, pc: nat, l: seq<int>,
                 rest: seq<int>, x: int)
    requires WellFormed(If(c, offset)) && pc <= len < 0x1_0000_0000
    ensures Step(pool, table, len, If(c, offset), Frame(pc, l, rest + [x]))
            == if !Holds(c, x, 0) then Continue(Frame(pc, l, rest), [])
               else if 0 <= pc + offset < len then Continue(Frame(pc + offset, l, rest), [])
               else Panic
    ensures Step(pool, table, len, If(c, offset), Frame(pc, l, [])) == Panic
  {
    var s := rest + [x];
    assert s[..|s| - 1] == rest;
    Jump(len, offset, Frame(pc, l, rest));
  }

  /** `if_icmp<cond>` pops `a`, then `b`, and jumps when `b <cond> a`. */
  lemma IfICmpBranch(pool: CP.CpPool, table: Table, len: nat, c: Cond, offset: int, pc: nat, l: seq<int>,
                     rest: seq<int>, b: int, a: int)
    requires WellFormed(IfICmp(c, offset)) && pc <= len < 0x1_0000_0000
    ensures Step(pool, table, len, IfICmp(c, offset), Frame(pc, l, rest + [b, a]))
            == if !Holds(c, b, a) then Continue(Frame(pc, l, rest), [])
               else if 0 <= pc + offset < len then Continue(Frame(pc + offset, l, rest), [])
               else Panic
    ensures Step(pool, table, len, IfICmp(c, offset), Frame(pc, l, [a])) == Panic
  {
    var s := rest + [b, a];
    assert s[..|s| - 2] == rest && s[|s| - 1] == a && s[|s| - 2] == b;
    Jump(len, offset, Frame(pc, l, rest));
  }

  /** `goto` always jumps, whatever the stack holds. */
  lemma GotoBranch(pool: CP.CpPool, table: Table, len: nat, offset: int, f: Frame)
    requires WellFormed(Goto(offset)) && f.pc <= len < 0x1_0000_0000
    ensures Step(pool, table, len, Goto(offset), f)
            == if 0 <= f.pc + offset < len then Continue(f.(pc := f.pc + offset), []) else Panic
  {
    Jump(len, offset, f);
  }

  /** `invokestatic` panics when the target cannot be resolved or is not in the
      table, or when the stack holds fewer than the callee's `max_locals`
      values; otherwise it pops exactly that many, the first popped becoming
      local 0, and leaves the rest of the stack and the locals as they were. */
  lemma StaticInvocation(pool: CP.CpPool, table: Table, len: nat, k: nat, f: Frame)
    ensures var t := Target(pool, k);
            var e := Step(pool, table, len, InvokeStatic(k), f);
            && (!t.Ok? || t.value !in table || |f.stack| < table[t.value].maxLocals <==> e == Panic)
            && (e.Invoke? ==>
                  var n := table[t.value].maxLocals;
                  && t.Ok? && t.value in table && n <= |f.stack|
                  && e.callee == table[t.value]
                  && |e.args| == n
                  && (forall j | 0 <= j < n :: e.args[j] == f.stack[|f.stack| - 1 - j])
                  && e.frame == Frame(f.pc, f.locals, f.stack[..|f.stack| - n]))
  {
  }

  /** Loads and stores name only slots 0 to 3: no instruction changes the number
      of locals or a local from slot 4 on, and an access to a slot outside the
      locals panics. */
  lemma LowSlotsOnly(pool: CP.CpPool, table: Table, len: nat, op: OpCode, f: Frame)
    requires WellFormed(op)
    ensures var e := Step(pool, table, len, op, f);
            (e.Continue? || e.Invoke?) ==>
              && |e.frame.locals| == |f.locals|
              && forall j | 4 <= j < |f.locals| :: e.frame.locals[j] == f.locals[j]
    ensures (op.ILoad? || op.ALoad? || op.IStore? || op.AStore?) && |f.locals| <= op.slot
            ==> Step(pool, table, len, op, f) == Panic
  {
  }

  /** `iload_<n>` and `aload_<n>` push local `n`; `istore_<n>` and `astore_<n>`
      pop the top into local `n`. */
  lemma LoadStore(pool: CP.CpPool, table: Table, len: nat, op: OpCode, pc: nat, l: seq<int>,
                  rest: seq<int>, x: int)
    requires op.ILoad? || op.ALoad? || op.IStore? || op.AStore?
    requires op.slot < |l|
    ensures (op.ILoad? || op.ALoad?) ==>
              Step(pool, table, len, op, Frame(pc, l, rest)) == Continue(Frame(pc, l, rest + [l[op.slot]]), [])
    ensures (op.IStore? || op.AStore?) ==>
              && Step(pool, table, len, op, Frame(pc, l, rest + [x])) == Continue(Frame(pc, l[op.slot := x], rest), [])
              && Step(pool, table, len, op, Frame(pc, l, [])) == Panic
  {
    var s := rest + [x];
    assert s[..|s| - 1] == rest;
  }

  /** `ldc` of an `Integer` entry pushes its value sign-extended from 32 bits,
      of a `String` entry its `string_index`; any other entry, index 0 and an
      index past the pool panic. */
  lemma LdcPushes(pool: CP.CpPool, table: Table, len: nat, k: nat, f: Frame)
    ensures 1 <= k <= |pool| && pool[k - 1].Integer? ==>
              var x := pool[k - 1].val;
              && Step(pool, table, len, Ldc(k), f) == Continue(f.(stack := f.stack + [AsI32(x)]), [])
              && (x < 0x8000_0000 ==> AsI32(x) == x)
              && (0x8000_0000 <= x < 0x1_0000_0000 ==> AsI32(x) == x - 0x1_0000_0000)
    ensures 1 <= k <= |pool| && pool[k - 1].String? ==>
              Step(pool, table, len, Ldc(k), f) == Continue(f.(stack := f.stack + [pool[k - 1].stringIndex]), [])
    ensures !(1 <= k <= |pool| && (pool[k - 1].Integer? || pool[k - 1].String?)) ==>
              Step(pool, table, len, Ldc(k), f) == Panic
  {
  }

  /** `ldc` of a `String` entry followed by `invokevirtual` of
      `println(Ljava/lang/String;)V` prints the text of the `Utf` entry the
      string refers to, and leaves the stack and the locals as they were. */
  lemma LdcThenPrintln(pool: CP.CpPool, table: Table, raw: seq<byte>, f: Frame, out: seq<Printed>, fuel: nat,
                       k: nat, m: nat, text: seq<byte>)
    requires 2 <= fuel
    requires Decode(raw, f.pc) == Ok(Parsed(Ldc(k), f.pc + 2))
    requires Decode(raw, f.pc + 2) == Ok(Parsed(InvokeVirtual(m), f.pc + 5))
    requires 1 <= k <= |pool| && pool[k - 1].String? && pool[k - 1].stringIndex < 0x1_0000
    requires CP.GetUtfBytes(pool, pool[k - 1].stringIndex) == Ok(text)
    requires Target(pool, m) == Ok((PRINTLN, STRING_TO_VOID))
    ensures Run(pool, table, raw, f, out, fuel)
            == Run(pool, table, raw, f.(pc := f.pc + 5), out + [PrintText(text)], fuel - 2)
  {
    var si := pool[k - 1].stringIndex;
    var g := f.(pc := f.pc + 2, stack := f.stack + [si]);
    assert g.stack[|g.stack| - 1] == si && g.stack[..|g.stack| - 1] == f.stack;
    LdcString(pool, table, raw, f, out, fuel, k);
    PrintlnString(pool, table, raw, g, out, fuel - 1, m, text);
    assert g.(pc := g.pc + 3, stack := g.stack[..|g.stack| - 1]) == f.(pc := f.pc + 5);
  }

  lemma LdcString(pool: CP.CpPool, table: Table, raw: seq<byte>, f: Frame, out: seq<Printed>, fuel: nat, k: nat)
    requires 1 <= fuel && Decode(raw, f.pc) == Ok(Parsed(Ldc(k), f.pc + 2))
    requires 1 <= k <= |pool| && pool[k - 1].String?
    ensures Run(pool, table, raw, f, out, fuel)
            == Run(pool, table, raw, f.(pc := f.pc + 2, stack := f.stack + [pool[k - 1].stringIndex]), out, fuel - 1)
  {
    assert out + [] == out;
  }

  lemma PrintlnString(pool: CP.CpPool, table: Table, raw: seq<byte>, g: Frame, out: seq<Printed>, fuel: nat,
                      m: nat, text: seq<byte>)
    requires 1 <= fuel && Decode(raw, g.pc) == Ok(Parsed(InvokeVirtual(m), g.pc + 3))
    requires g.stack != [] && 0 <= g.stack[|g.stack| - 1] < 0x1_0000
    requires CP.GetUtfBytes(pool, g.stack[|g.stack| - 1]) == Ok(text)
    requires Target(pool, m) == Ok((PRINTLN, STRING_TO_VOID))
    ensures Run(pool, table, raw, g, out, fuel)
            == Run(pool, table, raw, g.(pc := g.pc + 3, stack := g.stack[..|g.stack| - 1]), out + [PrintText(text)],
                   fuel - 1)
  {
    var si := g.stack[|g.stack| - 1];
    assert AsUsize(si) == si;
    assert CP.GetUtf(pool, si) == Ok(CP.Utf(text));
  }

  /** `ireturn` ends the activation handing exactly the top of the stack to the
      caller; `return`, and running off the end of the bytecode, hand nothing. */
  lemma Returns(pool: CP.CpPool, table: Table, raw: seq<byte>, f: Frame, out: seq<Printed>, fuel: nat)
    requires 0 < fuel
    ensures Decode(raw, f.pc).Ok? && Decode(raw, f.pc).value.value == IReturn && f.stack != [] ==>
              Run(pool, table, raw, f, out, fuel) == Exit(Finished([f.stack[|f.stack| - 1]]), out)
    ensures Decode(raw, f.pc).Ok? && Decode(raw, f.pc).value.value == Return ==>
              Run(pool, table, raw, f, out, fuel) == Exit(Finished([]), out)
    ensures |raw| <= f.pc ==> Run(pool, table, raw, f, out, fuel) == Exit(Finished([]), out)
  {
  }

  /** When the callee of an `invokestatic` returns, the caller goes on after the
      instruction with the arguments popped and what the callee handed back
      (at most one value) pushed, and with the callee's output. The callee
      runs from its first byte with the popped arguments as its locals and a
      fresh empty stack. */
  lemma CallReturns(pool: CP.CpPool, table: Table, raw: seq<byte>, f: Frame, out: seq<Printed>, fuel: nat,
                    k: nat, next: nat)
    requires 0 < fuel && Decode(raw, f.pc) == Ok(Parsed(InvokeStatic(k), next))
    requires Target(pool, k).Ok? && Target(pool, k).value in table
    requires table[Target(pool, k).value].maxLocals <= |f.stack|
    ensures var callee := table[Target(pool, k).value];
            var n := callee.maxLocals;
            var sub := Run(pool, table, callee.codeRaw, Frame(0, Popped(f.stack, n), []), out, fuel - 1);
            && (sub.status.Finished? ==>
                  && |sub.status.pushed| <= 1
                  && Run(pool, table, raw, f, out, fuel)
                     == Run(pool, table, raw, Frame(next, f.locals, f.stack[..|f.stack| - n] + sub.status.pushed),
                            sub.out, fuel - 1))
            && (!sub.status.Finished? ==> Run(pool, table, raw, f, out, fuel) == sub)
  {
  }

  /** `getstatic` does nothing; `dup`, `iinc`, `invokespecial`, `new` and an
      `invokevirtual` of anything but the two `println` overloads panic. */
  lemma NoOpsAndUnimplemented(pool: CP.CpPool, table: Table, raw: seq<byte>, f: Frame, out: seq<Printed>,
                              fuel: nat, op: OpCode, next: nat)
    requires 0 < fuel && Decode(raw, f.pc) == Ok(Parsed(op, next))
    ensures op.GetStatic? ==> Run(pool, table, raw, f, out, fuel) == Run(pool, table, raw, f.(pc := next), out, fuel - 1)
    ensures op.Dup? || op.Iinc? || op.InvokeSpecial? || op.New? ==>
              Run(pool, table, raw, f, out, fuel) == Exit(Panicked, out)
    ensures op.InvokeVirtual? && Target(pool, op.index).Ok?
            && Target(pool, op.index).value !in {(PRINTLN, INT_TO_VOID), (PRINTLN, STRING_TO_VOID)} ==>
              Run(pool, table, raw, f, out, fuel) == Exit(Panicked, out)
  {
    assert out + [] == out;
    if op.InvokeVirtual? && Target(pool, op.index).Ok? {
      var t := Target(pool, op.index).value;
      assert t == (t.0, t.1);
    }
  }
}
