/** The finsh stack machine as functions: one operation, and running a text segment. */
module FinshVm {
  import opened FinshTree
  import opened FinshCompiler

  /** FINSH_STACK_MAX */
  const STACK_MAX := 64

  datatype Vm = Vm(pc: nat, stack: seq<Word>, mem: Mem)

  /** `Fault`: stack under- or overflow, an operand past the text, more than 16 call
      arguments, or an operation on bytes or half words, which the model leaves out. */
  datatype Outcome = Fault | Ok(vm: Vm)

  predicate IsByte(x: int) { 0 <= x < 256 }

  predicate IsText(text: Code) {
    forall i :: 0 <= i < |text| ==> IsByte(text[i])
  }

  /** FINSH_GET32 */
  function Get4(text: Code, pc: nat): Word
    requires IsText(text) && pc + 4 <= |text|
  {
    text[pc] + 256 * text[pc + 1] + 65536 * text[pc + 2] + 16777216 * text[pc + 3]
  }

  datatype Operation =
    | NoOp | Arith(op: BinOp) | Complement | LdDword | LdValueDword | StDword | Pop | Syscall | LdValueDwordStack | Other

  /** op_table, restricted to the double word operations */
  function Decode(byte: int): Operation {
    match byte
    case 0 => NoOp
    case 3 => Arith(Add)
    case 6 => Arith(Sub)
    case 9 => Arith(Div)
    case 12 => Arith(Mod)
    case 15 => Arith(Mul)
    case 18 => Arith(And)
    case 21 => Arith(Or)
    case 24 => Arith(Xor)
    case 27 => Complement
    case 30 => Arith(Shl)
    case 33 => Arith(Shr)
    case 36 => LdDword
    case 39 => LdValueDword
    case 42 => StDword
    case 43 => Pop
    case 44 => Syscall
    case 47 => LdValueDwordStack
    case _ => Other
  }

  function Push(vm: Vm, pc: nat, w: Word): Outcome {
    if |vm.stack| < STACK_MAX then Ok(Vm(pc, vm.stack + [w], vm.mem)) else Fault
  }

  /** One turn of the loop of finsh_vm_run. */
  function Execute(m: Machine, text: Code, vm: Vm): (r: Outcome)
    requires IsText(text) && vm.pc < |text|
    ensures r.Ok? ==> r.vm.pc > vm.pc
  {
    var pc, s, n := vm.pc + 1, vm.stack, |vm.stack|;
    match Decode(text[vm.pc])
    case NoOp => Ok(vm.(pc := pc))
    case Arith(op) =>
      if n < 2 then Fault else Ok(Vm(pc, s[..n - 2] + [m.alu(op, s[n - 2], s[n - 1])], vm.mem))
    case Complement =>
      if n < 1 then Fault else Ok(Vm(pc, s[..n - 1] + [m.complement(s[n - 1])], vm.mem))
    case LdDword =>
      if pc + 4 > |text| then Fault else Push(vm, pc + 4, Get4(text, pc))
    case LdValueDword =>
      if pc + 4 > |text| then Fault else Push(vm, pc + 4, Load(vm.mem, Get4(text, pc)))
    case StDword =>
      if n < 2 then Fault else Ok(Vm(pc, s[..n - 1], vm.mem[s[n - 2] := s[n - 1]]))
    case Pop =>
      if n < 1 then Fault else Ok(Vm(pc, s[..n - 1], vm.mem))
    case Syscall =>
      if pc >= |text| || text[pc] > 16 || n < text[pc] + 1 then Fault
      else
        var base := n - text[pc] - 1;
        var (r, mem') := m.call(s[base], s[base + 1..], vm.mem);
        Ok(Vm(pc + 1, s[..base] + [r], mem'))
    case LdValueDwordStack =>
      if n < 1 then Fault else Ok(Vm(pc, s[..n - 1] + [Load(vm.mem, s[n - 1])], vm.mem))
    case Other => Fault
  }

  /** finsh_vm_run: execute until the program counter leaves the text segment. */
  function Run(m: Machine, text: Code, vm: Vm): Outcome
    requires IsText(text)
    decreases |text| - vm.pc
  {
    if vm.pc >= |text| then Ok(vm)
    else
      match Execute(m, text, vm)
      case Fault => Fault
      case Ok(vm') => Run(m, text, vm')
  }

  lemma ByteSum(w: Word)
    ensures w % 256 + 256 * (w / 256 % 256) + 65536 * (w / 65536 % 256) + 16777216 * (w / 16777216) == w
  {
    var a, b, c := w / 256, w / 65536, w / 16777216;
    assert b == a / 256 && c == b / 256;
  }

  lemma Get4OfBytes4(text: Code, pc: nat, w: Word)
    requires IsText(text) && pc + 4 <= |text| && text[pc..pc + 4] == Bytes4(w)
    ensures Get4(text, pc) == w
  {
    var c := text[pc..pc + 4];
    assert text[pc] == c[0] && text[pc + 1] == c[1] && text[pc + 2] == c[2] && text[pc + 3] == c[3];
    ByteSum(w);
  }
}

/** Type check, compile and run agree with direct evaluation. */
module FinshCorrectness {
  import opened FinshTree
  import opened FinshCompiler
  import opened FinshVm

  /** The bytes `c` stand in the text at `pc`. */
  ghost predicate At(text: Code, pc: nat, c: Code) {
    pc + |c| <= |text| && text[pc..pc + |c|] == c
  }

  lemma AtSplit(text: Code, pc: nat, a: Code, b: Code)
    requires At(text, pc, a + b)
    ensures At(text, pc, a) && At(text, pc + |a|, b)
  {
    var c := a + b;
    assert text[pc..pc + |a|] == text[pc..pc + |c|][..|a|];
    assert text[pc + |a|..pc + |c|] == text[pc..pc + |c|][|a|..];
  }

  /** Stack slots an expression's code uses at most. */
  function Depth(e: Expr): nat
    decreases e, 0
  {
    match e
    case Const(_) => 1
    case Var(_, _) => 1
    case Bin(_, l, r) => Max(Depth(l), 1 + Depth(r))
    case Not(arg) => Depth(arg)
    case Assign(target, source) => Max(Depth(target), 1 + Depth(source))
    case Step(prefix, _, _, _) => if prefix then 3 else 4
    case Deref(arg) => Depth(arg)
    case AddrOf(arg) => Depth(arg)
    case Call(_, args) => 1 + DepthAll(args)
  }

  function DepthAll(es: Exprs): nat
    decreases es, 0
  {
    match es
    case Nil => 0
    case Cons(head, tail) => Max(Depth(head), 1 + DepthAll(tail))
  }

  function Max(a: nat, b: nat): nat { if a < b then b else a }

  /** A function of machine states that every operation leaves unchanged, such as the
      outcome of running on from the state. */
  type Runner = Vm -> Outcome

  ghost predicate Follows(g: Runner, m: Machine, text: Code)
    requires IsText(text)
  {
    forall vm: Vm {:trigger Execute(m, text, vm)} :: vm.pc < |text| && Execute(m, text, vm).Ok? ==> g(vm) == g(Execute(m, text, vm).vm)
  }

  /** Where a run at `pc` with `stack` and `mem` goes on after code `c` that leaves `pushed`
      on top of the untouched stack. */
  ghost predicate Advances(g: Runner, pc: nat, c: Code, stack: seq<Word>, mem: Mem, pushed: seq<Word>, mem': Mem)
  {
    g(Vm(pc, stack, mem)) == g(Vm(pc + |c|, stack + pushed, mem'))
  }

  lemma RunLdDword(g: Runner, m: Machine, text: Code, pc: nat, stack: seq<Word>, mem: Mem, w: Word)
    requires IsText(text) && Follows(g, m, text) && At(text, pc, LoadDword(w)) && |stack| < STACK_MAX
    ensures Advances(g, pc, LoadDword(w), stack, mem, [w], mem)
  {
    AtSplit(text, pc, [OP_LD + 2], Bytes4(w));
    assert text[pc] == text[pc..pc + 1][0];
    Get4OfBytes4(text, pc + 1, w);
    assert Execute(m, text, Vm(pc, stack, mem)) == Ok(Vm(pc + 5, stack + [w], mem));
  }

  lemma RunLdValue(g: Runner, m: Machine, text: Code, pc: nat, stack: seq<Word>, mem: Mem, a: Word)
    requires IsText(text) && Follows(g, m, text) && At(text, pc, [OP_LD_VALUE + 2] + Bytes4(a)) && |stack| < STACK_MAX
    ensures Advances(g, pc, [OP_LD_VALUE + 2] + Bytes4(a), stack, mem, [Load(mem, a)], mem)
  {
    AtSplit(text, pc, [OP_LD_VALUE + 2], Bytes4(a));
    assert text[pc] == text[pc..pc + 1][0];
    Get4OfBytes4(text, pc + 1, a);
    assert Execute(m, text, Vm(pc, stack, mem)) == Ok(Vm(pc + 5, stack + [Load(mem, a)], mem));
  }

  lemma RunArith(g: Runner, m: Machine, text: Code, pc: nat, stack: seq<Word>, mem: Mem, op: BinOp, x: Word, y: Word)
    requires IsText(text) && Follows(g, m, text) && At(text, pc, [OpBase(op) + 2])
    ensures g(Vm(pc, stack + [x, y], mem)) == g(Vm(pc + 1, stack + [m.alu(op, x, y)], mem))
  {
    assert text[pc] == text[pc..pc + 1][0];
    var s := stack + [x, y];
    assert s[..|s| - 2] == stack;
    assert Execute(m, text, Vm(pc, s, mem)).Ok?;
  }

  /** The one-byte operations on the top of the stack. */
  lemma RunTop(g: Runner, m: Machine, text: Code, pc: nat, stack: seq<Word>, mem: Mem, x: Word)
    requires IsText(text) && Follows(g, m, text) && pc < |text|
    ensures text[pc] == OP_BITWISE + 2 ==>
              g(Vm(pc, stack + [x], mem)) == g(Vm(pc + 1, stack + [m.complement(x)], mem))
    ensures text[pc] == OP_LD_VALUE_STACK + 2 ==>
              g(Vm(pc, stack + [x], mem)) == g(Vm(pc + 1, stack + [Load(mem, x)], mem))
    ensures text[pc] == OP_POP ==>
              g(Vm(pc, stack + [x], mem)) == g(Vm(pc + 1, stack, mem))
  {
    var s := stack + [x];
    assert s[..|s| - 1] == stack;
    var next := Execute(m, text, Vm(pc, s, mem));
  }

  lemma RunStore(g: Runner, m: Machine, text: Code, pc: nat, stack: seq<Word>, mem: Mem, a: Word, v: Word)
    requires IsText(text) && Follows(g, m, text) && At(text, pc, [OP_ST + 2])
    ensures g(Vm(pc, stack + [a, v], mem)) == g(Vm(pc + 1, stack + [a], mem[a := v]))
  {
    assert text[pc] == text[pc..pc + 1][0];
    var s := stack + [a, v];
    assert s[..|s| - 1] == stack + [a];
    assert Execute(m, text, Vm(pc, s, mem)).Ok?;
  }

  lemma RunCall(g: Runner, m: Machine, text: Code, pc: nat, stack: seq<Word>, mem: Mem, f: Word, vs: seq<Word>)
    requires IsText(text) && Follows(g, m, text) && |vs| <= 16 && At(text, pc, [OP_SYSCALL, |vs|])
    ensures var (r, mem') := m.call(f, vs, mem);
            g(Vm(pc, stack + [f] + vs, mem)) == g(Vm(pc + 2, stack + [r], mem'))
  {
    assert text[pc] == text[pc..pc + 2][0] && text[pc + 1] == text[pc..pc + 2][1];
    var s := stack + [f] + vs;
    var base := |s| - |vs| - 1;
    assert s[..base] == stack && s[base] == f && s[base + 1..] == vs;
    assert Execute(m, text, Vm(pc, s, mem)).Ok?;
  }

  /** The code of an expression pushes its value, performs its effects, and touches no
      stack slot below; the code of a target pushes its address. */
  lemma {:induction false} RunExpr(g: Runner, m: Machine, text: Code, pc: nat, stack: seq<Word>, mem: Mem, e: Expr)
    requires IsText(text) && Follows(g, m, text) && InFragment(e) && At(text, pc, Emit(e, false))
    requires |stack| + Depth(e) <= STACK_MAX
    ensures var (v, mem') := Eval(m, e, mem);
            Advances(g, pc, Emit(e, false), stack, mem, [v], mem')
    decreases e, 0
  {
    hide Emit, Follows, IsText;
    match e
    case Const(w) =>
      EmitConst(w);
      RunLdDword(g, m, text, pc, stack, mem, w);
    case Var(a, t) =>
      EmitVar(a, t, false);
      RunLdValue(g, m, text, pc, stack, mem, a);
    case Bin(op, l, r) => RunBin(g, m, text, pc, stack, mem, op, l, r);
    case Not(arg) => RunNot(g, m, text, pc, stack, mem, arg);
    case Assign(target, source) => RunAssign(g, m, text, pc, stack, mem, target, source);
    case Step(prefix, up, a, t) => RunStep(g, m, text, pc, stack, mem, prefix, up, a, t);
    case Deref(arg) => RunDeref(g, m, text, pc, stack, mem, arg);
    case AddrOf(arg) =>
      EmitAddrOf(arg);
      RunAddress(g, m, text, pc, stack, mem, arg);
    case Call(f, args) => RunCallExpr(g, m, text, pc, stack, mem, f, args);
  }

  lemma {:induction false} RunNot(g: Runner, m: Machine, text: Code, pc: nat, stack: seq<Word>, mem: Mem, arg: Expr)
    requires IsText(text) && Follows(g, m, text) && InFragment(Not(arg)) && At(text, pc, Emit(Not(arg), false))
    requires |stack| + Depth(arg) <= STACK_MAX
    ensures var (v, mem') := Eval(m, Not(arg), mem);
            Advances(g, pc, Emit(Not(arg), false), stack, mem, [v], mem')
    decreases Not(arg), 0, 0
  {
    hide Emit, Follows, IsText;
    EmitNot(arg);
    AtSplit(text, pc, Emit(arg, false), [OP_BITWISE + 2]);
    RunExpr(g, m, text, pc, stack, mem, arg);
    var (v, mem1) := Eval(m, arg, mem);
    var pc1 := pc + |Emit(arg, false)|;
    assert text[pc1] == text[pc1..pc1 + 1][0];
    RunTop(g, m, text, pc1, stack, mem1, v);
  }

  lemma {:induction false} RunDeref(g: Runner, m: Machine, text: Code, pc: nat, stack: seq<Word>, mem: Mem, arg: Expr)
    requires IsText(text) && Follows(g, m, text) && InFragment(Deref(arg)) && At(text, pc, Emit(Deref(arg), false))
    requires |stack| + Depth(arg) <= STACK_MAX
    ensures var (v, mem') := Eval(m, Deref(arg), mem);
            Advances(g, pc, Emit(Deref(arg), false), stack, mem, [v], mem')
    decreases Deref(arg), 0, 0
  {
    hide Emit, Follows, IsText;
    EmitDeref(arg);
    AtSplit(text, pc, Emit(arg, false), [OP_LD_VALUE_STACK + 2]);
    RunExpr(g, m, text, pc, stack, mem, arg);
    var (v, mem1) := Eval(m, arg, mem);
    var pc1 := pc + |Emit(arg, false)|;
    assert text[pc1] == text[pc1..pc1 + 1][0];
    RunTop(g, m, text, pc1, stack, mem1, v);
  }

  lemma {:induction false} RunCallExpr(g: Runner, m: Machine, text: Code, pc: nat, stack: seq<Word>, mem: Mem, f: Word, args: Exprs)
    requires IsText(text) && Follows(g, m, text) && InFragment(Call(f, args)) && At(text, pc, Emit(Call(f, args), false))
    requires |stack| + 1 + DepthAll(args) <= STACK_MAX
    ensures var (v, mem') := Eval(m, Call(f, args), mem);
            Advances(g, pc, Emit(Call(f, args), false), stack, mem, [v], mem')
    decreases Call(f, args), 0, 0
  {
    hide Emit, EmitAll, Follows, IsText;
    EmitCall(f, args);
    var c1 := LoadDword(f) + EmitAll(args);
    AtSplit(text, pc, c1, [OP_SYSCALL, Count(args)]);
    AtSplit(text, pc, LoadDword(f), EmitAll(args));
    RunLdDword(g, m, text, pc, stack, mem, f);
    RunArgs(g, m, text, pc + |LoadDword(f)|, stack + [f], mem, args);
    var (vs, mem1) := EvalAll(m, args, mem);
    RunCall(g, m, text, pc + |c1|, stack, mem1, f, vs);
  }

  lemma {:induction false} RunBin(g: Runner, m: Machine, text: Code, pc: nat, stack: seq<Word>, mem: Mem, op: BinOp, l: Expr, r: Expr)
    requires var e := Bin(op, l, r);
             && IsText(text) && Follows(g, m, text) && InFragment(e) && At(text, pc, Emit(e, false)) && |stack| + Depth(e) <= STACK_MAX
    ensures var (v, mem') := Eval(m, Bin(op, l, r), mem);
            Advances(g, pc, Emit(Bin(op, l, r), false), stack, mem, [v], mem')
    decreases Bin(op, l, r), 0, 0
  {
    hide Emit, Follows, IsText, At;
    EmitBin(op, l, r);
    var c1, c2 := Emit(l, false), Emit(r, false);
    AtSplit(text, pc, c1 + c2, [OpBase(op) + 2]);
    AtSplit(text, pc, c1, c2);
    RunExpr(g, m, text, pc, stack, mem, l);
    var (x, mem1) := Eval(m, l, mem);
    RunExpr(g, m, text, pc + |c1|, stack + [x], mem1, r);
    var (y, mem2) := Eval(m, r, mem1);
    assert stack + [x] + [y] == stack + [x, y];
    RunArith(g, m, text, pc + |c1| + |c2|, stack, mem2, op, x, y);
  }

  lemma {:induction false} RunAssign(g: Runner, m: Machine, text: Code, pc: nat, stack: seq<Word>, mem: Mem, target: Expr, source: Expr)
    requires var e := Assign(target, source);
             && IsText(text) && Follows(g, m, text) && InFragment(e) && At(text, pc, Emit(e, false)) && |stack| + Depth(e) <= STACK_MAX
    ensures var (v, mem') := Eval(m, Assign(target, source), mem);
            Advances(g, pc, Emit(Assign(target, source), false), stack, mem, [v], mem')
    decreases Assign(target, source), 0, 0
  {
    hide Emit, Follows, IsText, At;
    EmitAssign(target, source);
    var c1, c2 := Emit(target, true), Emit(source, false);
    AtSplit(text, pc, c1 + c2, [OP_ST + 2, OP_LD_VALUE_STACK + 2]);
    AtSplit(text, pc, c1, c2);
    RunAddress(g, m, text, pc, stack, mem, target);
    var (a, mem1) := Address(m, target, mem);
    RunExpr(g, m, text, pc + |c1|, stack + [a], mem1, source);
    var (v, mem2) := Eval(m, source, mem1);
    assert stack + [a] + [v] == stack + [a, v];
    RunStoreLoad(g, m, text, pc + |c1| + |c2|, stack, mem2, a, v);
  }

  /** The store and the reload of an assignment. */
  lemma {:induction false} RunStoreLoad(g: Runner, m: Machine, text: Code, pc: nat, stack: seq<Word>, mem: Mem, a: Word, v: Word)
    requires IsText(text) && Follows(g, m, text) && At(text, pc, [OP_ST + 2, OP_LD_VALUE_STACK + 2])
    ensures g(Vm(pc, stack + [a, v], mem)) == g(Vm(pc + 2, stack + [v], mem[a := v]))
  {
    hide Follows, IsText;
    assert [OP_ST + 2, OP_LD_VALUE_STACK + 2] == [OP_ST + 2] + [OP_LD_VALUE_STACK + 2];
    AtSplit(text, pc, [OP_ST + 2], [OP_LD_VALUE_STACK + 2]);
    RunStore(g, m, text, pc, stack, mem, a, v);
    assert text[pc + 1] == text[pc + 1..pc + 2][0];
    RunTop(g, m, text, pc + 1, stack, mem[a := v], a);
  }

  /** The code of `++` and `--`, in both positions. */
  lemma RunStep(g: Runner, m: Machine, text: Code, pc: nat, stack: seq<Word>, mem: Mem, prefix: bool, up: bool, a: Word, t: VarType)
    requires IsText(text) && Follows(g, m, text) && DwordVar(t) && At(text, pc, Emit(Step(prefix, up, a, t), false))
    requires |stack| + (if prefix then 3 else 4) <= STACK_MAX
    ensures var (v, mem') := Eval(m, Step(prefix, up, a, t), mem);
            Advances(g, pc, Emit(Step(prefix, up, a, t), false), stack, mem, [v], mem')
  {
    EmitStep(prefix, up, a, t);
    EmitVar(a, t, prefix);
    if prefix {
      RunPrefix(g, m, text, pc, stack, mem, up, a);
    } else {
      RunPostfix(g, m, text, pc, stack, mem, up, a);
    }
  }

  lemma RunPrefix(g: Runner, m: Machine, text: Code, pc: nat, stack: seq<Word>, mem: Mem, up: bool, a: Word)
    requires IsText(text) && Follows(g, m, text) && |stack| + 3 <= STACK_MAX
    requires At(text, pc, LoadDword(a) + StepCode(true, up, DwordData, a))
    ensures var v := m.alu(if up then Add else Sub, Load(mem, a), 1);
            Advances(g, pc, LoadDword(a) + StepCode(true, up, DwordData, a), stack, mem, [v], mem[a := v])
  {
    var body := StepBody(up, a);
    var v := m.alu(if up then Add else Sub, Load(mem, a), 1);
    AtSplit(text, pc, LoadDword(a), body + [OP_LD_VALUE_STACK + 2]);
    AtSplit(text, pc + 5, body, [OP_LD_VALUE_STACK + 2]);
    RunLdDword(g, m, text, pc, stack, mem, a);
    RunBody(g, m, text, pc + 5, stack, mem, up, a);
    var pc2 := pc + 5 + |body|;
    assert text[pc2] == text[pc2..pc2 + 1][0];
    RunTop(g, m, text, pc2, stack, mem[a := v], a);
  }

  lemma RunPostfix(g: Runner, m: Machine, text: Code, pc: nat, stack: seq<Word>, mem: Mem, up: bool, a: Word)
    requires IsText(text) && Follows(g, m, text) && |stack| + 4 <= STACK_MAX
    requires At(text, pc, [OP_LD_VALUE + 2] + Bytes4(a) + StepCode(false, up, DwordData, a))
    ensures var v := m.alu(if up then Add else Sub, Load(mem, a), 1);
            Advances(g, pc, [OP_LD_VALUE + 2] + Bytes4(a) + StepCode(false, up, DwordData, a), stack, mem, [Load(mem, a)], mem[a := v])
  {
    var body := StepBody(up, a);
    var first := [OP_LD_VALUE + 2] + Bytes4(a);
    var v := m.alu(if up then Add else Sub, Load(mem, a), 1);
    assert StepCode(false, up, DwordData, a) == LoadDword(a) + (body + [OP_POP]);
    AtSplit(text, pc, first, LoadDword(a) + (body + [OP_POP]));
    AtSplit(text, pc + 5, LoadDword(a), body + [OP_POP]);
    AtSplit(text, pc + 10, body, [OP_POP]);
    RunLdValue(g, m, text, pc, stack, mem, a);
    var s1 := stack + [Load(mem, a)];
    RunLdDword(g, m, text, pc + 5, s1, mem, a);
    RunBody(g, m, text, pc + 10, s1, mem, up, a);
    var pc2 := pc + 10 + |body|;
    assert text[pc2] == text[pc2..pc2 + 1][0];
    RunTop(g, m, text, pc2, s1, mem[a := v], a);
  }

  /** Load, add or subtract one, store: the common part of `++` and `--`. */
  function StepBody(up: bool, a: Word): Code {
    [OP_LD_VALUE + 2] + Bytes4(a) + LoadDword(1) + [OpBase(if up then Add else Sub) + 2] + [OP_ST + 2]
  }

  lemma RunBody(g: Runner, m: Machine, text: Code, pc: nat, stack: seq<Word>, mem: Mem, up: bool, a: Word)
    requires IsText(text) && Follows(g, m, text) && At(text, pc, StepBody(up, a)) && |stack| + 3 <= STACK_MAX
    ensures var op := if up then Add else Sub;
            g(Vm(pc, stack + [a], mem))
            == g(Vm(pc + |StepBody(up, a)|, stack + [a], mem[a := m.alu(op, Load(mem, a), 1)]))
  {
    var op := if up then Add else Sub;
    var c1, c2 := [OP_LD_VALUE + 2] + Bytes4(a), LoadDword(1);
    AtSplit(text, pc, c1 + c2 + [OpBase(op) + 2], [OP_ST + 2]);
    AtSplit(text, pc, c1 + c2, [OpBase(op) + 2]);
    AtSplit(text, pc, c1, c2);
    var s1 := stack + [a];
    RunLdValue(g, m, text, pc, s1, mem, a);
    var x := Load(mem, a);
    RunLdDword(g, m, text, pc + 5, s1 + [x], mem, 1);
    assert s1 + [x] + [1] == s1 + [x, 1];
    RunArith(g, m, text, pc + 10, s1, mem, op, x, 1);
    var y := m.alu(op, x, 1);
    assert s1 + [y] == stack + [a, y];
    RunStore(g, m, text, pc + 11, stack, mem, a, y);
  }

  lemma {:induction false} RunAddress(g: Runner, m: Machine, text: Code, pc: nat, stack: seq<Word>, mem: Mem, e: Expr)
    requires IsText(text) && Follows(g, m, text) && InFragment(e) && IsTarget(e) && At(text, pc, Emit(e, true))
    requires |stack| + Depth(e) <= STACK_MAX
    ensures var (a, mem') := Address(m, e, mem);
            Advances(g, pc, Emit(e, true), stack, mem, [a], mem')
    decreases e, 1
  {
    hide Emit, Follows, IsText;
    match e
    case Var(a, t) =>
      EmitVar(a, t, true);
      RunLdDword(g, m, text, pc, stack, mem, a);
    case Deref(arg) =>
      EmitDeref(arg);
      RunExpr(g, m, text, pc, stack, mem, arg);
  }

  lemma {:induction false} RunArgs(g: Runner, m: Machine, text: Code, pc: nat, stack: seq<Word>, mem: Mem, es: Exprs)
    requires IsText(text) && Follows(g, m, text) && AllInFragment(es) && At(text, pc, EmitAll(es))
    requires |stack| + DepthAll(es) <= STACK_MAX
    ensures var (vs, mem') := EvalAll(m, es, mem);
            Advances(g, pc, EmitAll(es), stack, mem, vs, mem')
    decreases es, 0
  {
    hide Emit, EmitAll, Follows, IsText, Eval, InFragment, Depth;
    match es
    case Nil =>
      EmitNil();
      assert stack + [] == stack;
    case Cons(head, tail) =>
      EmitCons(head, tail);
      AtSplit(text, pc, Emit(head, false), EmitAll(tail));
      RunExpr(g, m, text, pc, stack, mem, head);
      var (v, mem1) := Eval(m, head, mem);
      RunArgs(g, m, text, pc + |Emit(head, false)|, stack + [v], mem1, tail);
      var (vs, mem2) := EvalAll(m, tail, mem1);
      assert stack + [v] + vs == stack + ([v] + vs);
  }

  // ----- statement lists -----

  /** Statements one after another; the result is the last one's value. */
  function EvalProgram(m: Machine, es: Exprs, mem: Mem): (seq<Word>, Mem) {
    match es
    case Nil => ([], mem)
    case Cons(head, tail) =>
      var (v, mem1) := Eval(m, head, mem);
      if tail.Nil? then ([v], mem1) else EvalProgram(m, tail, mem1)
  }

  ghost predicate FitsStack(es: Exprs) {
    match es
    case Nil => true
    case Cons(head, tail) => Depth(head) <= STACK_MAX && FitsStack(tail)
  }

  function Compiled(es: Exprs): Code {
    ProgramCode(TypeCheck(Trees(es), false))
  }

  lemma CompiledParts(es: Exprs)
    ensures Compiled(es) == match es
                            case Nil => []
                            case Cons(head, tail) => Emit(head, false) + (if tail.Nil? then [] else [OP_POP]) + Compiled(tail)
  {
    match es
    case Nil =>
    case Cons(head, tail) => ProgramCons(head, tail);
  }

  lemma {:induction false} RunStatements(g: Runner, m: Machine, text: Code, pc: nat, mem: Mem, es: Exprs)
    requires IsText(text) && Follows(g, m, text) && AllInFragment(es) && FitsStack(es) && At(text, pc, Compiled(es))
    ensures var (vs, mem') := EvalProgram(m, es, mem);
            Advances(g, pc, Compiled(es), [], mem, vs, mem')
    decreases es
  {
    hide Emit, Compiled, Follows, IsText, Eval, InFragment, Depth, At;
    CompiledParts(es);
    match es
    case Nil =>
    case Cons(head, tail) =>
      var c := Emit(head, false);
      var pop := if tail.Nil? then [] else [OP_POP];
      AtSplit(text, pc, c + pop, Compiled(tail));
      AtSplit(text, pc, c, pop);
      RunExpr(g, m, text, pc, [], mem, head);
      var (v, mem1) := Eval(m, head, mem);
      if tail.Cons? {
        RunPop(g, m, text, pc + |c|, mem1, v);
        RunStatements(g, m, text, pc + |c| + 1, mem1, tail);
      } else {
        CompiledParts(tail);
      }
  }

  lemma {:induction false} RunPop(g: Runner, m: Machine, text: Code, pc: nat, mem: Mem, v: Word)
    requires IsText(text) && Follows(g, m, text) && At(text, pc, [OP_POP])
    ensures g(Vm(pc, [] + [v], mem)) == g(Vm(pc + 1, [], mem))
  {
    hide Follows, IsText;
    assert text[pc] == text[pc..pc + 1][0];
    RunTop(g, m, text, pc, [], mem, v);
  }

  lemma RunNoOps(m: Machine, text: Code, vm: Vm)
    requires IsText(text) && vm.pc <= |text|
    requires forall i :: vm.pc <= i < |text| ==> text[i] == 0
    ensures Run(m, text, vm) == Ok(vm.(pc := |text|))
    decreases |text| - vm.pc
  {
    if vm.pc < |text| {
      RunNoOps(m, text, vm.(pc := vm.pc + 1));
    }
  }

  /** For every statement list of the fragment whose code fits the text segment, running
      the compiled text (the rest of the segment is zero) leaves the memory of direct
      evaluation, and the last statement's value alone on the stack. */
  lemma CompileAndRunIsEval(m: Machine, text: Code, mem: Mem, es: Exprs)
    requires IsText(text) && AllInFragment(es) && FitsStack(es)
    requires |Compiled(es)| <= |text| && text[..|Compiled(es)|] == Compiled(es)
    requires forall i :: |Compiled(es)| <= i < |text| ==> text[i] == 0
    ensures var (vs, mem') := EvalProgram(m, es, mem);
            && Run(m, text, Vm(0, [], mem)) == Ok(Vm(|text|, vs, mem'))
            && |vs| == if es.Nil? then 0 else 1
  {
    assert text[0..|Compiled(es)|] == text[..|Compiled(es)|];
    var g := (vm: Vm) => Run(m, text, vm);
    assert Follows(g, m, text);
    RunStatements(g, m, text, 0, mem, es);
    var (vs, mem') := EvalProgram(m, es, mem);
    assert [] + vs == vs;
    RunNoOps(m, text, Vm(|Compiled(es)|, vs, mem'));
    ProgramValues(m, es, mem);
  }

  lemma ProgramValues(m: Machine, es: Exprs, mem: Mem)
    ensures |EvalProgram(m, es, mem).0| == if es.Nil? then 0 else 1
  {
    match es
    case Nil =>
    case Cons(head, tail) =>
      if tail.Cons? {
        ProgramValues(m, tail, Eval(m, head, mem).1);
      }
  }
}
