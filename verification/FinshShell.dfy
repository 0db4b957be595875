/** The compiler's text segment and the virtual machine's stack as they are updated:
    finsh_compile through finsh_compile_pc, the operators through finsh_sp. */
module FinshShell {
  import opened FinshTree
  import opened FinshCompiler
  import opened FinshVm
  import opened FinshCorrectness

  /** FINSH_TEXT_MAX */
  const TEXT_MAX := 128

  lemma CodeOfParts(n: Node)
    ensures CodeOf(n) == if n.Null? then [] else CodeOf(n.child) + NodeCode(n) + CodeOf(n.sibling)
  {
  }

  lemma Bytes4IsText(w: Word)
    ensures IsText(Bytes4(w)) && IsText(LoadDword(w))
  {
  }

  lemma JoinIsText(a: Code, b: Code)
    requires IsText(a) && IsText(b)
    ensures IsText(a + b)
  {
  }

  lemma StepCodeIsText(prefix: bool, up: bool, t: DataType, a: Word)
    ensures IsText(StepCode(prefix, up, t, a))
  {
    Bytes4IsText(a);
    Bytes4IsText(1);
    if !t.VoidData? {
      var op := OpBase(if up then Add else Sub);
      var c1 := Sized(OP_LD_VALUE, t) + Bytes4(a);
      var c2 := c1 + LoadOne(t);
      var c3 := c2 + Sized(op, t);
      var body := c3 + Sized(OP_ST, t);
      JoinIsText(Sized(OP_LD_VALUE, t), Bytes4(a));
      JoinIsText(c1, LoadOne(t));
      JoinIsText(c2, Sized(op, t));
      JoinIsText(c3, Sized(OP_ST, t));
      JoinIsText(LoadDword(a), body);
      JoinIsText(body, [OP_LD_VALUE_STACK + 2]);
      JoinIsText(LoadDword(a) + body, [OP_POP]);
    }
  }

  lemma NodeCodeIsText(n: Node)
    requires n.Node?
    ensures IsText(NodeCode(n))
  {
    match n.kind
    case IdVar(t, a) => Bytes4IsText(a);
    case IdSyscall(f) => Bytes4IsText(f);
    case ValueChar(c) =>
    case ValueWord(w) => Bytes4IsText(w);
    case SysBin(op) =>
    case SysBitwise =>
    case SysFunc =>
    case SysAssign =>
      if n.child.Node? {
        JoinIsText(Sized(OP_ST, n.child.dataType), Sized(OP_LD_VALUE_STACK, n.child.dataType));
      }
    case SysStep(prefix, up) =>
      if n.child.Node? && n.child.kind.IdVar? {
        StepCodeIsText(prefix, up, n.dataType, n.child.kind.addr);
      }
    case SysGetValue =>
    case SysGetAddr =>
  }

  /** `c` written over `t` from position `k`. */
  function Overlay(t: Code, k: nat, c: Code): (r: Code)
    requires k + |c| <= |t|
    ensures |r| == |t|
  {
    t[..k] + c + t[k + |c|..]
  }

  lemma OverlayTwice(t: Code, k: nat, a: Code, b: Code)
    requires k + |a| + |b| <= |t|
    ensures Overlay(Overlay(t, k, a), k + |a|, b) == Overlay(t, k, a + b)
  {
  }

  lemma OverlayNothing(t: Code, k: nat)
    requires k <= |t|
    ensures Overlay(t, k, []) == t
  {
  }

  lemma CodeOfIsText(n: Node)
    ensures IsText(CodeOf(n))
  {
    if n.Node? {
      CodeOfIsText(n.child);
      CodeOfIsText(n.sibling);
      NodeCodeIsText(n);
    }
  }

  lemma ProgramUnfolds(n: Node)
    requires n.Node?
    ensures var c := CodeOf(n.(sibling := Null)) + (if n.sibling.Node? then [OP_POP] else []);
            |ProgramCode(n)| == |c| + |ProgramCode(n.sibling)| && ProgramCode(n) == c + ProgramCode(n.sibling)
  {
  }

  class Shell {
    const m: Machine
    const text: array<int>
    const stack: array<Word>
    var compilePc: nat
    var pc: nat
    var sp: nat
    var mem: Mem

    ghost predicate Valid()
      reads this, text, stack
    {
      && text.Length == TEXT_MAX && stack.Length == STACK_MAX
      && sp <= STACK_MAX && compilePc <= TEXT_MAX
      && IsText(text[..])
    }

    /** The machine state seen by the functional definition. */
    ghost function State(): Vm
      requires Valid()
      reads this, text, stack
    {
      Vm(pc, stack[..sp], mem)
    }

    constructor (m: Machine, mem: Mem)
      ensures Valid() && fresh(text) && fresh(stack) && this.m == m && this.mem == mem
    {
      this.m, this.mem := m, mem;
      text := new int[TEXT_MAX](_ => 0);
      stack := new Word[STACK_MAX](_ => 0);
      compilePc, pc, sp := 0, 0, 0;
    }

    // ----- compiler -----

    /** finsh_code_byte */
    method CodeByte(x: int)
      requires Valid() && compilePc < TEXT_MAX && IsByte(x)
      modifies text, this`compilePc
      ensures Valid() && compilePc == old(compilePc) + 1
      ensures text[..] == old(text[..])[old(compilePc) := x]
    {
      text[compilePc] := x;
      compilePc := compilePc + 1;
    }

    method CodeBytes(c: Code)
      requires Valid() && compilePc + |c| <= TEXT_MAX && IsText(c)
      modifies text, this`compilePc
      ensures Valid() && compilePc == old(compilePc) + |c|
      ensures text[..] == Overlay(old(text[..]), old(compilePc), c)
    {
      var i := 0;
      while i < |c|
        invariant 0 <= i <= |c| && Valid() && compilePc == old(compilePc) + i
        invariant text[..] == Overlay(old(text[..]), old(compilePc), c[..i])
      {
        CodeByte(c[i]);
        i := i + 1;
        assert c[..i] == c[..i - 1] + [c[i - 1]];
      }
      assert c[..i] == c;
    }

    /** finsh_compile */
    method Compile(n: Node)
      requires Valid() && compilePc + |CodeOf(n)| <= TEXT_MAX
      modifies text, this`compilePc
      ensures Valid() && compilePc == old(compilePc) + |CodeOf(n)|
      ensures text[..] == Overlay(old(text[..]), old(compilePc), CodeOf(n))
      decreases n
    {
      hide CodeOf, NodeCode, Overlay;
      CodeOfParts(n);
      OverlayNothing(text[..], compilePc);
      if n.Node? {
        ghost var t, k := text[..], compilePc;
        ghost var a, b, c := CodeOf(n.child), NodeCode(n), CodeOf(n.sibling);
        NodeCodeIsText(n);
        OverlayTwice(t, k, a, b);
        OverlayTwice(t, k, a + b, c);
        Compile(n.child);
        CodeBytes(NodeCode(n));
        Compile(n.sibling);
      }
    }

    /** The memset of the text segment, and the reset of finsh_compile_pc */
    method ClearText()
      requires Valid()
      modifies text, this`compilePc
      ensures Valid() && compilePc == 0 && forall j :: 0 <= j < TEXT_MAX ==> text[j] == 0
    {
      var i := 0;
      while i < TEXT_MAX
        invariant 0 <= i <= TEXT_MAX && Valid() && forall j :: 0 <= j < i ==> text[j] == 0
      {
        text[i] := 0;
        i := i + 1;
      }
      compilePc := 0;
    }

    /** finsh_compiler_run, for a tree not yet annotated */
    method CompilerRun(n: Node)
      requires Valid() && |ProgramCode(TypeCheck(n, false))| <= TEXT_MAX
      modifies text, this`compilePc
      ensures Valid() && compilePc == |ProgramCode(TypeCheck(n, false))|
      ensures text[..compilePc] == ProgramCode(TypeCheck(n, false))
      ensures forall i :: compilePc <= i < TEXT_MAX ==> text[i] == 0
    {
      ClearText();
      CompileAll(TypeCheck(n, false));
    }

    /** The loop of finsh_compiler_run over the annotated statements. */
    method CompileAll(n: Node)
      requires Valid() && |ProgramCode(n)| <= TEXT_MAX
      requires compilePc == 0 && forall i :: 0 <= i < TEXT_MAX ==> text[i] == 0
      modifies text, this`compilePc
      ensures Valid() && text[..compilePc] == ProgramCode(n)
      ensures forall i :: compilePc <= i < TEXT_MAX ==> text[i] == 0
    {
      var sibling := n;
      while sibling.Node?
        invariant Pending(sibling, ProgramCode(n))
        decreases sibling
      {
        sibling := CompileNext(sibling, ProgramCode(n));
      }
    }

    /** The text holds `goal` but for the code of the statements from `n` on, and zeros. */
    ghost predicate Pending(n: Node, goal: Code)
      reads this, text, stack
    {
      && Valid() && |goal| <= TEXT_MAX
      && text[..compilePc] + ProgramCode(n) == goal
      && (forall j :: compilePc <= j < TEXT_MAX ==> text[j] == 0)
    }

    method CompileNext(n: Node, ghost goal: Code) returns (sibling: Node)
      requires n.Node? && Pending(n, goal)
      modifies text, this`compilePc
      ensures sibling == n.sibling && Pending(sibling, goal)
    {
      hide CodeOf;
      hide NodeCode;
      ProgramUnfolds(n);
      ghost var done := text[..compilePc];
      ghost var c := CodeOf(n.(sibling := Null)) + if n.sibling.Node? then [OP_POP] else [];
      assert |done| + |ProgramCode(n)| == |goal|;
      sibling := n.sibling;
      Statement(n.(sibling := Null), sibling.Node?);
      assert done + c + ProgramCode(sibling) == done + (c + ProgramCode(sibling));
    }

    /** One statement of finsh_compiler_run, popped unless it is the last. */
    method Statement(n: Node, more: bool)
      requires Valid() && compilePc + |CodeOf(n)| + (if more then 1 else 0) <= TEXT_MAX
      requires forall j :: compilePc <= j < TEXT_MAX ==> text[j] == 0
      modifies text, this`compilePc
      ensures Valid()
      ensures text[..compilePc] == old(text[..compilePc]) + (CodeOf(n) + if more then [OP_POP] else [])
      ensures forall j :: compilePc <= j < TEXT_MAX ==> text[j] == 0
    {
      ghost var done := text[..compilePc];
      Compile(n);
      assert text[..compilePc] == done + CodeOf(n);
      if more {
        CodeByte(OP_POP);
        assert text[..compilePc] == done + CodeOf(n) + [OP_POP];
      }
    }

    // ----- operators -----

    /** OP_BIN_DWORD */
    method OpArith(op: BinOp)
      requires Valid() && sp >= 2
      modifies this`sp, stack
      ensures Valid()
      ensures var s := old(stack[..sp]); var n := |s|;
              sp == n - 1 && stack[..sp] == s[..n - 2] + [m.alu(op, s[n - 2], s[n - 1])]
    {
      stack[sp - 2] := m.alu(op, stack[sp - 2], stack[sp - 1]);
      sp := sp - 1;
    }

    method OpTop(w: Word)
      requires Valid() && sp >= 1
      modifies stack
      ensures Valid() && stack[..sp] == old(stack[..sp])[..sp - 1] + [w]
    {
      stack[sp - 1] := w;
    }

    method OpPush(w: Word)
      requires Valid() && sp < STACK_MAX
      modifies this`sp, stack
      ensures Valid() && stack[..sp] == old(stack[..sp]) + [w]
    {
      stack[sp] := w;
      sp := sp + 1;
    }

    method OpStore()
      requires Valid() && sp >= 2
      modifies this`sp, this`mem
      ensures Valid() && mem == old(mem[stack[sp - 2] := stack[sp - 1]])
      ensures sp == old(sp) - 1 && stack[..sp] == old(stack[..sp - 1])
    {
      mem := mem[stack[sp - 2] := stack[sp - 1]];
      sp := sp - 1;
    }

    method OpPop()
      requires Valid() && sp >= 1
      modifies this`sp
      ensures Valid() && sp == old(sp) - 1 && stack[..sp] == old(stack[..sp - 1])
    {
      sp := sp - 1;
    }

    /** FINSH_GET32 and the advance of finsh_pc */
    method FetchDword() returns (w: Word)
      requires Valid() && pc + 4 <= TEXT_MAX
      modifies this`pc
      ensures Valid() && pc == old(pc) + 4 && w == Get4(text[..], old(pc))
    {
      assert text[..][pc] == text[pc] && text[..][pc + 1] == text[pc + 1]
          && text[..][pc + 2] == text[pc + 2] && text[..][pc + 3] == text[pc + 3];
      w := text[pc] + 256 * text[pc + 1] + 65536 * text[pc + 2] + 16777216 * text[pc + 3];
      pc := pc + 4;
    }

    /** The loop of OP_call: the arguments, popped from the last to the first */
    method PopArguments(parameterv: array<Word>, parameters: nat)
      requires Valid() && parameters <= 16 == parameterv.Length && sp >= parameters + 1 && parameterv != stack
      modifies this`sp, parameterv
      ensures sp == old(sp) - parameters - 1 && parameterv[..parameters] == stack[..old(sp)][sp + 1..]
    {
      ghost var s := stack[..sp];
      var i := 0;
      sp := sp - 1;
      while i < parameters
        invariant 0 <= i <= parameters && sp + i + 1 == |s| && parameters < |s| <= stack.Length && stack[..|s|] == s
        invariant parameterv[parameters - i..parameters] == s[sp + 1..]
      {
        parameterv[parameters - 1 - i] := stack[sp];
        assert s[sp] == stack[sp];
        sp := sp - 1;
        i := i + 1;
      }
    }

    /** OP_call */
    method OpCall()
      requires Valid() && pc < TEXT_MAX && text[pc] <= 16 && sp >= text[pc] + 1
      modifies this`pc, this`sp, this`mem, stack
      ensures Valid() && pc == old(pc) + 1
      ensures var s, k := old(stack[..sp]), old(text[pc]);
              var base := |s| - k - 1;
              var (r, mem') := m.call(s[base], s[base + 1..], old(mem));
              stack[..sp] == s[..base] + [r] && mem == mem'
    {
      var parameterv := new Word[16];
      var parameters := text[pc];
      pc := pc + 1;
      PopArguments(parameterv, parameters);
      ghost var s := old(stack[..sp]);
      assert stack[sp] == s[sp];
      var (r, mem') := m.call(stack[sp], parameterv[..parameters], mem);
      mem := mem';
      stack[sp] := r;
      assert stack[..sp] == s[..sp];
      sp := sp + 1;
    }

    /** One turn of the loop of finsh_vm_run: fetch an operation and call it. */
    method Turn()
      requires Valid() && pc < TEXT_MAX
      requires Execute(m, text[..], State()).Ok?
      modifies this`pc, this`sp, this`mem, stack
      ensures Valid() && Ok(State()) == Execute(m, text[..], old(State()))
    {
      hide Decode, Get4, IsText, Load;
      var op := text[pc];
      assert text[..][pc] == op;
      pc := pc + 1;
      match Decode(op) {
        case NoOp =>
        case Arith(b) => OpArith(b);
        case Complement => OpTop(m.complement(stack[sp - 1]));
        case LdDword =>
          var w := FetchDword();
          OpPush(w);
        case LdValueDword =>
          var a := FetchDword();
          OpPush(Load(mem, a));
        case StDword => OpStore();
        case Pop => OpPop();
        case Syscall =>
          assert text[..][pc] == text[pc];
          OpCall();
        case LdValueDwordStack => OpTop(Load(mem, stack[sp - 1]));
      }
    }

    /** finsh_vm_run */
    method VmRun()
      requires Valid() && Run(m, text[..], Vm(0, [], mem)).Ok?
      modifies this`pc, this`sp, this`mem, stack
      ensures Valid() && Ok(State()) == Run(m, text[..], Vm(0, [], old(mem)))
    {
      sp, pc := 0, 0;
      assert stack[..sp] == [];
      while pc < TEXT_MAX
        invariant Valid() && Run(m, text[..], State()) == Run(m, text[..], Vm(0, [], old(mem)))
        decreases TEXT_MAX - pc
      {
        Turn();
      }
    }

    /** A command line of the fragment: compiled and run, it has the effect and the value
        (what finsh_stack_bottom returns) of its direct evaluation. */
    method RunLine(es: Exprs) returns (bottom: Word)
      requires Valid() && AllInFragment(es) && FitsStack(es) && |Compiled(es)| <= TEXT_MAX
      modifies this`compilePc, this`pc, this`sp, this`mem, text, stack
      ensures Valid()
      ensures var (vs, mem') := EvalProgram(m, es, old(mem));
              mem == mem' && (es.Cons? ==> vs == [bottom])
    {
      CompilerRun(Trees(es));
      assert text[..][..compilePc] == text[..compilePc];
      CompileAndRunIsEval(m, text[..], mem, es);
      VmRun();
      bottom := stack[0];
      assert es.Cons? ==> stack[..sp][0] == bottom;
    }
  }
}
