/** The value algebra, the instruction set and the stack machine of
    `stack-core/src/compile.rs`. */
module Machine {

  import opened Results
  import opened Numerics
  import Core

  // ----- values -----

  /** The floating-point operations of `f64`, which this model leaves
      unevaluated. */
  datatype FloatOp = FAdd | FSub | FMul | FDiv | FRem

  /** An `f64` the machine holds: a literal bit pattern, or the IEEE result
      of an operation on two such values, kept as a term. */
  datatype F64Term = Literal(bits: bv64) | Arith(op: FloatOp, lhs: F64Term, rhs: F64Term)

  /** `Val`: what the machine's stack holds. */
  datatype Val = Integer(i: I64) | Float(f: F64Term)

  /** Both operands are integers or both are floats. */
  predicate SameVariant(lhs: Val, rhs: Val)
  {
    lhs.Integer? == rhs.Integer?
  }

  /** `r` is an integer result equal to `exact` moved to the nearest bound of
      `i64` when `exact` lies outside it. */
  predicate SaturatedTo(r: Result<Val, (Val, Val)>, exact: int)
  {
    && r.Ok? && r.value.Integer?
    && (I64_MIN <= exact <= I64_MAX ==> r.value.i == exact)
    && (exact > I64_MAX ==> r.value.i == I64_MAX)
    && (exact < I64_MIN ==> r.value.i == I64_MIN)
  }

  /** `Val + Val`: saturating on integers; operands of different kinds are
      handed back, in their order, as the error. */
  function Add(lhs: Val, rhs: Val): (r: Result<Val, (Val, Val)>)
    ensures r.Ok? <==> SameVariant(lhs, rhs)
    ensures r.Err? ==> r.error == (lhs, rhs)
    ensures lhs.Integer? && rhs.Integer? ==> SaturatedTo(r, lhs.i + rhs.i)
    ensures lhs.Float? && rhs.Float? ==> r == Ok(Float(Arith(FAdd, lhs.f, rhs.f)))
  {
    match (lhs, rhs)
    case (Integer(a), Integer(b)) => Ok(Integer(Saturate(a + b)))
    case (Float(a), Float(b)) => Ok(Float(Arith(FAdd, a, b)))
    case _ => Err((lhs, rhs))
  }

  /** `Val - Val`: saturating on integers. */
  function Sub(lhs: Val, rhs: Val): (r: Result<Val, (Val, Val)>)
    ensures r.Ok? <==> SameVariant(lhs, rhs)
    ensures r.Err? ==> r.error == (lhs, rhs)
    ensures lhs.Integer? && rhs.Integer? ==> SaturatedTo(r, lhs.i - rhs.i)
    ensures lhs.Float? && rhs.Float? ==> r == Ok(Float(Arith(FSub, lhs.f, rhs.f)))
  {
    match (lhs, rhs)
    case (Integer(a), Integer(b)) => Ok(Integer(Saturate(a - b)))
    case (Float(a), Float(b)) => Ok(Float(Arith(FSub, a, b)))
    case _ => Err((lhs, rhs))
  }

  /** `Val * Val`: saturating on integers. */
  function Mul(lhs: Val, rhs: Val): (r: Result<Val, (Val, Val)>)
    ensures r.Ok? <==> SameVariant(lhs, rhs)
    ensures r.Err? ==> r.error == (lhs, rhs)
    ensures lhs.Integer? && rhs.Integer? ==> SaturatedTo(r, lhs.i * rhs.i)
    ensures lhs.Float? && rhs.Float? ==> r == Ok(Float(Arith(FMul, lhs.f, rhs.f)))
  {
    match (lhs, rhs)
    case (Integer(a), Integer(b)) => Ok(Integer(Saturate(a * b)))
    case (Float(a), Float(b)) => Ok(Float(Arith(FMul, a, b)))
    case _ => Err((lhs, rhs))
  }

  /** `Val / Val`: `saturating_div` on integers, which panics on a zero
      divisor and turns `i64::MIN / -1` into `i64::MAX`. */
  function Div(lhs: Val, rhs: Val): (r: Result<Val, (Val, Val)>)
    requires !(lhs.Integer? && rhs.Integer? && rhs.i == 0)
    ensures r.Ok? <==> SameVariant(lhs, rhs)
    ensures r.Err? ==> r.error == (lhs, rhs)
    ensures lhs.Integer? && rhs.Integer? ==>
      && r.Ok? && r.value.Integer?
      && (lhs.i == I64_MIN && rhs.i == -1 ==> r.value.i == I64_MAX)
      && (!(lhs.i == I64_MIN && rhs.i == -1) ==> r.value.i == TruncDiv(lhs.i, rhs.i))
    ensures lhs.Float? && rhs.Float? ==> r == Ok(Float(Arith(FDiv, lhs.f, rhs.f)))
  {
    match (lhs, rhs)
    case (Integer(a), Integer(b)) => Ok(Integer(SaturatingDiv(a, b)))
    case (Float(a), Float(b)) => Ok(Float(Arith(FDiv, a, b)))
    case _ => Err((lhs, rhs))
  }

  /** `Val % Val`: the plain `%` on integers, which panics on a zero divisor
      and on `i64::MIN % -1`; the remainder takes the dividend's sign. */
  function Rem(lhs: Val, rhs: Val): (r: Result<Val, (Val, Val)>)
    requires !(lhs.Integer? && rhs.Integer? && (rhs.i == 0 || (lhs.i == I64_MIN && rhs.i == -1)))
    ensures r.Ok? <==> SameVariant(lhs, rhs)
    ensures r.Err? ==> r.error == (lhs, rhs)
    ensures lhs.Integer? && rhs.Integer? ==>
      && r.Ok? && r.value.Integer?
      && r.value.i == TruncRem(lhs.i, rhs.i)
      && Abs(r.value.i) < Abs(rhs.i)
      && (r.value.i == 0 || ((r.value.i < 0) == (lhs.i < 0)))
    ensures lhs.Float? && rhs.Float? ==> r == Ok(Float(Arith(FRem, lhs.f, rhs.f)))
  {
    match (lhs, rhs)
    case (Integer(a), Integer(b)) => Ok(Integer(RemI64(a, b)))
    case (Float(a), Float(b)) => Ok(Float(Arith(FRem, a, b)))
    case _ => Err((lhs, rhs))
  }

  // ----- instructions -----

  datatype Op = Push(v: Val) | Intrinsic(intrinsic: Core.Intrinsic) | End

  datatype VMError = Unknown | Halt | IPBounds

  /** What one step of the machine comes to: `Ok(())`, an error, or one of
      the branches the source leaves as `todo!()` (a panic), which this model
      does not give a meaning. */
  datatype Outcome = Stepped | Failed(error: VMError) | Unimplemented

  /** A value of Rust's `usize` on a 64-bit target. */
  type Usize = x: int | 0 <= x <= USIZE_MAX

  /** The expressions `compile_expr` has a translation for: integer literals
      and symbols that name an intrinsic. `intrinsics` stands for
      `Intrinsic::from_str`. */
  predicate Compilable(e: Core.ExprKind, intrinsics: map<string, Core.Intrinsic>)
  {
    e.Integer? || (e.Symbol? && e.name in intrinsics)
  }

  /** `VM::compile_expr`. */
  function CompileExpr(e: Core.ExprKind, intrinsics: map<string, Core.Intrinsic>): (op: Op)
    requires Compilable(e, intrinsics)
    ensures op != End
    ensures op.Push? <==> e.Integer?
    ensures op.Push? ==> op.v == Integer(e.i)
    ensures op.Intrinsic? ==> e.Symbol? && op.intrinsic == intrinsics[e.name]
  {
    match e
    case Integer(i) => Push(Integer(i))
    case Symbol(name) => Intrinsic(intrinsics[name])
  }

  /** The instructions `compile` emits for `exprs`, before the final `End`:
      one per expression, in order. */
  function CompileAll(exprs: seq<Core.ExprKind>, intrinsics: map<string, Core.Intrinsic>): (ops: seq<Op>)
    requires forall k :: 0 <= k < |exprs| ==> Compilable(exprs[k], intrinsics)
    ensures |ops| == |exprs|
    ensures forall k :: 0 <= k < |exprs| ==> ops[k] == CompileExpr(exprs[k], intrinsics)
    ensures End !in ops
  {
    if exprs == [] then []
    else CompileAll(exprs[..|exprs| - 1], intrinsics) + [CompileExpr(exprs[|exprs| - 1], intrinsics)]
  }

  // ----- the machine's state and its step function -----

  /** The fields of `VM` the shown code reads or writes. */
  datatype State = State(ops: seq<Op>, ip: Usize, stack: seq<Val>)

  /** The `Add` intrinsic once `ip` has moved: pop `rhs`, pop `lhs`, push
      their sum. A failed pop ends the step with what is popped so far gone. */
  function AddTop(s: State): (r: (State, Outcome))
    ensures r.0.ops == s.ops && r.0.ip == s.ip
    ensures |s.stack| < 2 ==> r == (s.(stack := []), Failed(Unknown))
    ensures |s.stack| >= 2 ==> s.stack[..|s.stack| - 2] <= r.0.stack
  {
    if |s.stack| == 0 then (s, Failed(Unknown))
    else if |s.stack| == 1 then (s.(stack := []), Failed(Unknown))
    else
      var n := |s.stack|;
      var rhs, lhs := s.stack[n - 1], s.stack[n - 2];
      match Add(lhs, rhs)
      case Ok(sum) => (s.(stack := s.stack[..n - 2] + [sum]), Stepped)
      case Err(_) => (s.(stack := s.stack[..n - 2]), Unimplemented)
  }

  /** `VM::step`: fetch the instruction at `ip`, move `ip` one further but
      never past the end of `ops`, and execute the instruction. */
  function Next(s: State): (r: (State, Outcome))
    ensures r.0.ops == s.ops
    ensures s.ip <= |s.ops| ==> s.ip <= r.0.ip <= |s.ops|
    ensures r.1 == Stepped ==> s.ip < |s.ops| && r.0.ip == s.ip + 1
    ensures r.1 == Failed(IPBounds) <==> s.ip == USIZE_MAX
    ensures r.1 == Failed(IPBounds) ==> r.0 == s
    ensures r.1 == Failed(Halt) ==> r.0.stack == s.stack
    ensures |s.stack| >= 2 ==> s.stack[..|s.stack| - 2] <= r.0.stack
  {
    if s.ip == USIZE_MAX then (s, Failed(IPBounds))
    else
      var moved := s.(ip := if s.ip + 1 < |s.ops| then s.ip + 1 else |s.ops|);
      if s.ip >= |s.ops| then (moved, Unimplemented)
      else
        match s.ops[s.ip]
        case Push(v) => (moved.(stack := s.stack + [v]), Stepped)
        case End => (moved, Failed(Halt))
        case Intrinsic(intrinsic) =>
          if intrinsic == Core.Intrinsic.Add then AddTop(moved) else (moved, Unimplemented)
  }

  /** The driver loop of `main`: step until a step does not return `Ok`. */
  function Execute(s: State): (r: (State, Outcome))
    requires s.ip <= |s.ops|
    ensures r.0.ops == s.ops && r.0.ip <= |s.ops|
    ensures r.1 != Stepped
    decreases |s.ops| - s.ip
  {
    var (t, o) := Next(s);
    if o == Stepped then Execute(t) else (t, o)
  }

  /** A run over instructions that end with `End` stops at that `End` at
      the latest: it halts, or an intrinsic fails with `Unknown` or reaches
      one of its `todo!()` branches. `ip` never runs past the end of `ops`,
      and `Halt` comes from an `End`. */
  lemma {:induction false} ExecuteStops(s: State)
    requires |s.ops| <= USIZE_MAX && s.ip < |s.ops| && s.ops[|s.ops| - 1] == End
    ensures var (t, o) := Execute(s);
      && s.ip < t.ip <= |s.ops|
      && (o == Failed(Halt) || o == Failed(Unknown) || o == Unimplemented)
      && (o == Failed(Halt) ==> s.ops[t.ip - 1] == End)
      && (o == Failed(Unknown) ==> s.ops[t.ip - 1] == Intrinsic(Core.Intrinsic.Add))
      && (o == Unimplemented ==> s.ops[t.ip - 1].Intrinsic?)
    decreases |s.ops| - s.ip
  {
    assert s.ip < USIZE_MAX;
    var (t, o) := Next(s);
    if o == Stepped {
      assert s.ops[s.ip] != End;
      ExecuteStops(t);
    } else {
      assert Execute(s) == (t, o);
    }
  }

  /** The run of `main` over a compiled program, from `ip` 0: it stops at
      the `End` that `compile` appends at the latest, and never reaches the
      branch for `ip` past the end of `ops`. When it halts, every compiled
      instruction has run. */
  lemma CompiledRunStops(exprs: seq<Core.ExprKind>, intrinsics: map<string, Core.Intrinsic>, stack: seq<Val>)
    requires forall k :: 0 <= k < |exprs| ==> Compilable(exprs[k], intrinsics)
    requires |exprs| < USIZE_MAX
    ensures var ops := CompileAll(exprs, intrinsics) + [End];
      var r := Execute(State(ops, 0, stack));
      && 1 <= r.0.ip <= |ops|
      && (r.1 == Failed(Halt) || r.1 == Failed(Unknown) || r.1 == Unimplemented)
      && (r.1 == Failed(Halt) ==> r.0.ip == |ops|)
      && (r.1 == Failed(Unknown) || r.1 == Unimplemented ==> ops[r.0.ip - 1].Intrinsic?)
  {
    RunStopsAtEnd(CompileAll(exprs, intrinsics), stack);
  }

  /** `CompiledRunStops` for any instructions without `End`, followed by
      one `End`. */
  lemma RunStopsAtEnd(compiled: seq<Op>, stack: seq<Val>)
    requires End !in compiled && |compiled| < USIZE_MAX
    ensures var ops := compiled + [End];
      var r := Execute(State(ops, 0, stack));
      && 1 <= r.0.ip <= |ops|
      && (r.1 == Failed(Halt) || r.1 == Failed(Unknown) || r.1 == Unimplemented)
      && (r.1 == Failed(Halt) ==> r.0.ip == |ops|)
      && (r.1 == Failed(Unknown) || r.1 == Unimplemented ==> ops[r.0.ip - 1].Intrinsic?)
  {
    var ops := compiled + [End];
    ExecuteStops(State(ops, 0, stack));
    EndOnlyLast(compiled, Execute(State(ops, 0, stack)).0.ip - 1);
  }

  /** After instructions without `End`, the appended `End` is the only one. */
  lemma EndOnlyLast(compiled: seq<Op>, k: nat)
    requires End !in compiled && k <= |compiled|
    ensures (compiled + [End])[k] == End ==> k == |compiled|
  {
    if k < |compiled| {
      assert (compiled + [End])[k] == compiled[k];
    }
  }

  // ----- properties of a step -----

  /** A `Push` appends its value and leaves the rest of the stack as it was. */
  lemma StepPush(s: State, v: Val)
    requires |s.ops| <= USIZE_MAX
    requires s.ip < |s.ops| && s.ops[s.ip] == Push(v)
    ensures Next(s) == (State(s.ops, s.ip + 1, s.stack + [v]), Stepped)
  {
    assert s.ip < USIZE_MAX;
  }

  /** `End` halts the machine and leaves the stack as it was; `ip` is left
      at the end of `ops` when `End` is the last instruction. */
  lemma StepEnd(s: State)
    requires |s.ops| <= USIZE_MAX
    requires s.ip < |s.ops| && s.ops[s.ip] == End
    ensures Next(s) == (State(s.ops, s.ip + 1, s.stack), Failed(Halt))
  {
    assert s.ip < USIZE_MAX;
  }

  /** `Add` on two integers on top of the stack replaces them with their
      saturated sum. */
  lemma StepAddIntegers(s: State, rest: seq<Val>, a: I64, b: I64)
    requires |s.ops| <= USIZE_MAX
    requires s.ip < |s.ops| && s.ops[s.ip] == Intrinsic(Core.Intrinsic.Add)
    requires s.stack == rest + [Integer(a), Integer(b)]
    ensures Next(s) == (State(s.ops, s.ip + 1, rest + [Integer(Saturate(a + b))]), Stepped)
  {
    assert s.ip < USIZE_MAX;
    assert s.stack[..|s.stack| - 2] == rest;
  }

  /** `Add` with fewer than two values fails with `Unknown`; a single value
      is popped before the failure and lost. */
  lemma StepAddUnderflow(s: State)
    requires |s.ops| <= USIZE_MAX
    requires s.ip < |s.ops| && s.ops[s.ip] == Intrinsic(Core.Intrinsic.Add)
    requires |s.stack| < 2
    ensures Next(s) == (State(s.ops, s.ip + 1, []), Failed(Unknown))
  {
    assert s.ip < USIZE_MAX;
  }

  /** The source `2 2 +` compiles to two pushes, `Add` and `End`; three
      steps leave `4` on the stack and the fourth halts. */
  lemma TwoPlusTwo(intrinsics: map<string, Core.Intrinsic>)
    requires "+" in intrinsics && intrinsics["+"] == Core.Intrinsic.Add
    ensures var exprs := [Core.ExprKind.Integer(2), Core.ExprKind.Integer(2), Core.ExprKind.Symbol("+")];
      var ops := CompileAll(exprs, intrinsics) + [End];
      && ops == [Push(Integer(2)), Push(Integer(2)), Intrinsic(Core.Intrinsic.Add), End]
      && Next(State(ops, 0, [])) == (State(ops, 1, [Integer(2)]), Stepped)
      && Next(State(ops, 1, [Integer(2)])) == (State(ops, 2, [Integer(2), Integer(2)]), Stepped)
      && Next(State(ops, 2, [Integer(2), Integer(2)])) == (State(ops, 3, [Integer(4)]), Stepped)
      && Next(State(ops, 3, [Integer(4)])) == (State(ops, 4, [Integer(4)]), Failed(Halt))
      && Execute(State(ops, 0, [])) == (State(ops, 4, [Integer(4)]), Failed(Halt))
  {
    var exprs := [Core.ExprKind.Integer(2), Core.ExprKind.Integer(2), Core.ExprKind.Symbol("+")];
    var ops := CompileAll(exprs, intrinsics) + [End];
    assert ops == [Push(Integer(2)), Push(Integer(2)), Intrinsic(Core.Intrinsic.Add), End];
    StepPush(State(ops, 0, []), Integer(2));
    assert [] + [Integer(2)] == [Integer(2)];
    StepPush(State(ops, 1, [Integer(2)]), Integer(2));
    assert [Integer(2)] + [Integer(2)] == [Integer(2), Integer(2)];
    assert [] + [Integer(2), Integer(2)] == [Integer(2), Integer(2)];
    StepAddIntegers(State(ops, 2, [Integer(2), Integer(2)]), [], 2, 2);
    assert [] + [Integer(Saturate(2 + 2))] == [Integer(4)];
    StepEnd(State(ops, 3, [Integer(4)]));
    assert Execute(State(ops, 3, [Integer(4)])) == (State(ops, 4, [Integer(4)]), Failed(Halt));
    assert Execute(State(ops, 2, [Integer(2), Integer(2)])) == Execute(State(ops, 3, [Integer(4)]));
    assert Execute(State(ops, 1, [Integer(2)])) == Execute(State(ops, 2, [Integer(2), Integer(2)]));
    assert Execute(State(ops, 0, [])) == Execute(State(ops, 1, [Integer(2)]));
  }

  // ----- the machine itself -----

  class VM {
    var ops: seq<Op>
    var ip: Usize
    var stack: seq<Val>

    function Snapshot(): State
      reads this
    {
      State(ops, ip, stack)
    }

    /** `VM::new`: no instructions, `ip` at 0, an empty stack. */
    constructor ()
      ensures ops == [] && ip == 0 && stack == []
    {
      ops := [];
      ip := 0;
      stack := [];
    }

    /** `VM::stack_pop`: the top value, or `Unknown` on an empty stack, which
        is then left as it was. */
    method StackPop() returns (r: Result<Val, VMError>)
      modifies this
      ensures old(stack) == [] ==> r == Err(Unknown) && stack == []
      ensures old(stack) != [] ==>
        r == Ok(old(stack)[|old(stack)| - 1]) && stack == old(stack)[..|old(stack)| - 1]
      ensures ops == old(ops) && ip == old(ip)
    {
      if stack == [] {
        return Err(Unknown);
      }
      r := Ok(stack[|stack| - 1]);
      stack := stack[..|stack| - 1];
    }

    /** `VM::stack_push`. */
    method StackPush(v: Val)
      modifies this
      ensures stack == old(stack) + [v]
      ensures ops == old(ops) && ip == old(ip)
    {
      stack := stack + [v];
    }

    /** `VM::compile`: keep the existing instructions, append one per
        expression, then `End`. */
    method Compile(exprs: seq<Core.ExprKind>, intrinsics: map<string, Core.Intrinsic>)
      requires forall k :: 0 <= k < |exprs| ==> Compilable(exprs[k], intrinsics)
      modifies this
      ensures ops == old(ops) + CompileAll(exprs, intrinsics) + [End]
      ensures ip == old(ip) && stack == old(stack)
    {
      for k := 0 to |exprs|
        invariant ops == old(ops) + CompileAll(exprs[..k], intrinsics)
        invariant ip == old(ip) && stack == old(stack)
      {
        assert exprs[..k + 1][..k] == exprs[..k];
        ops := ops + [CompileExpr(exprs[k], intrinsics)];
      }
      assert exprs[..|exprs|] == exprs;
      ops := ops + [End];
    }

    /** `VM::step`. */
    method Step() returns (r: Outcome)
      modifies this
      ensures (Snapshot(), r) == Next(old(Snapshot()))
    {
      if ip == USIZE_MAX {
        return Failed(IPBounds);
      }
      if ip >= |ops| {
        ip := |ops|;
        return Unimplemented;
      }
      var op := ops[ip];
      ip := if ip + 1 < |ops| then ip + 1 else |ops|;
      match op {
        case Push(v) =>
          stack := stack + [v];
          return Stepped;
        case End =>
          return Failed(Halt);
        case Intrinsic(intrinsic) =>
          if intrinsic != Core.Intrinsic.Add {
            return Unimplemented;
          }
          ghost var before := stack;
          assert Next(old(Snapshot())) == AddTop(State(ops, ip, before));
          var rhs := StackPop();
          if rhs.Err? {
            return Failed(rhs.error);
          }
          var lhs := StackPop();
          if lhs.Err? {
            return Failed(lhs.error);
          }
          var sum := Add(lhs.value, rhs.value);
          assert |before| >= 2 && rhs.value == before[|before| - 1] && lhs.value == before[|before| - 2];
          assert stack == before[..|before| - 2];
          if sum.Err? {
            return Unimplemented;
          }
          StackPush(sum.value);
          assert stack == before[..|before| - 2] + [sum.value];
          return Stepped;
      }
    }

    /** The loop of `main`: step until a step reports an error. */
    method Run() returns (r: Outcome)
      requires ip <= |ops|
      modifies this
      ensures (Snapshot(), r) == Execute(old(Snapshot()))
    {
      r := Step();
      while r == Stepped
        invariant ip <= |ops|
        invariant Execute(old(Snapshot())) == if r == Stepped then Execute(Snapshot()) else (Snapshot(), r)
        decreases |ops| - ip, if r == Stepped then 1 else 0
      {
        r := Step();
      }
    }
  }

  /** `main`: compile `2 2 +` into a fresh machine and run it; it halts with
      `4` on the stack. */
  method RunTwoPlusTwo(intrinsics: map<string, Core.Intrinsic>) returns (stack: seq<Val>, r: Outcome)
    requires "+" in intrinsics && intrinsics["+"] == Core.Intrinsic.Add
    ensures stack == [Integer(4)] && r == Failed(Halt)
  {
    var vm := new VM();
    var exprs := [Core.ExprKind.Integer(2), Core.ExprKind.Integer(2), Core.ExprKind.Symbol("+")];
    vm.Compile(exprs, intrinsics);
    TwoPlusTwo(intrinsics);
    assert vm.Snapshot() == State(CompileAll(exprs, intrinsics) + [End], 0, []);
    r := vm.Run();
    stack := vm.stack;
  }
}
