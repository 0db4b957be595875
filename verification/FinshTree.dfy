/** finsh expressions, the first-child/next-sibling trees the parser builds for them,
    and the direct meaning of an expression. */
module FinshTree {

  const WORD_RANGE := 0x1_0000_0000
  type Word = w: int | 0 <= w < WORD_RANGE witness 0
  type Mem = map<Word, Word>

  function Load(mem: Mem, a: Word): Word {
    if a in mem then mem[a] else 0
  }

  datatype BinOp = Add | Sub | Mul | Div | Mod | And | Or | Xor | Shl | Shr

  /** enum finsh_type, for the variables a user can declare */
  datatype VarType =
    | Void | VoidP | Char | UChar | CharP | Short | UShort | ShortP
    | Int | UInt | IntP | Long | ULong | LongP

  /** Shell expressions; `Step` is `++` or `--` on a variable, before or after. */
  datatype Expr =
    | Const(value: Word)
    | Var(addr: Word, vtype: VarType)
    | Bin(op: BinOp, left: Expr, right: Expr)
    | Not(arg: Expr)
    | Assign(target: Expr, source: Expr)
    | Step(prefix: bool, up: bool, addr: Word, vtype: VarType)
    | Deref(arg: Expr)
    | AddrOf(arg: Expr)
    | Call(func: Word, args: Exprs)
  datatype Exprs = Nil | Cons(head: Expr, tail: Exprs)

  function Count(es: Exprs): nat {
    match es
    case Nil => 0
    case Cons(_, tail) => 1 + Count(tail)
  }

  // ----- direct evaluation -----

  /** The processor's arithmetic and the system calls, left uninterpreted. */
  datatype Machine = Machine(
    alu: (BinOp, Word, Word) -> Word,
    complement: Word -> Word,
    call: (Word, seq<Word>, Mem) -> (Word, Mem))

  function Eval(m: Machine, e: Expr, mem: Mem): (r: (Word, Mem))
    decreases e, 0
  {
    match e
    case Const(w) => (w, mem)
    case Var(a, _) => (Load(mem, a), mem)
    case Bin(op, l, r) =>
      var (x, mem1) := Eval(m, l, mem);
      var (y, mem2) := Eval(m, r, mem1);
      (m.alu(op, x, y), mem2)
    case Not(arg) =>
      var (x, mem1) := Eval(m, arg, mem);
      (m.complement(x), mem1)
    case Assign(target, value) =>
      var (a, mem1) := Address(m, target, mem);
      var (v, mem2) := Eval(m, value, mem1);
      (v, mem2[a := v])
    case Step(prefix, up, a, _) =>
      var before := Load(mem, a);
      var after := m.alu(if up then Add else Sub, before, 1);
      (if prefix then after else before, mem[a := after])
    case Deref(arg) =>
      var (a, mem1) := Eval(m, arg, mem);
      (Load(mem1, a), mem1)
    case AddrOf(arg) => Address(m, arg, mem)
    case Call(f, args) =>
      var (vs, mem1) := EvalAll(m, args, mem);
      m.call(f, vs, mem1)
  }

  /** The location a target denotes; only variables and `*e` denote one. */
  function Address(m: Machine, e: Expr, mem: Mem): (Word, Mem)
    decreases e, 1
  {
    match e
    case Var(a, _) => (a, mem)
    case Deref(arg) => Eval(m, arg, mem)
    case _ => (0, mem)
  }

  function EvalAll(m: Machine, es: Exprs, mem: Mem): (r: (seq<Word>, Mem))
    ensures |r.0| == Count(es)
    decreases es, 0
  {
    match es
    case Nil => ([], mem)
    case Cons(head, tail) =>
      var (v, mem1) := Eval(m, head, mem);
      var (vs, mem2) := EvalAll(m, tail, mem1);
      ([v] + vs, mem2)
  }

  // ----- the parser's trees -----

  datatype DataType = VoidData | ByteData | WordData | DwordData

  datatype Kind =
    | IdVar(vtype: VarType, addr: Word)
    | IdSyscall(func: Word)
    | ValueChar(c: int)
    | ValueWord(value: Word)
    | SysBin(op: BinOp)
    | SysBitwise
    | SysFunc
    | SysAssign
    | SysStep(prefix: bool, up: bool)
    | SysGetValue
    | SysGetAddr

  /** struct finsh_node; `address` is the bit FINSH_IDTYPE_ADDRESS of idtype. */
  datatype Node = Null | Node(kind: Kind, dataType: DataType, address: bool, child: Node, sibling: Node)

  function New(kind: Kind, child: Node, sibling: Node): Node {
    Node(kind, VoidData, false, child, sibling)
  }

  /** The tree make_sys_node and the leaf constructors build, linked to `sibling`. */
  function Tree(e: Expr, sibling: Node): (n: Node)
    ensures n.Node? && n.sibling == sibling
    decreases e, 0
  {
    match e
    case Const(w) => New(ValueWord(w), Null, sibling)
    case Var(a, t) => New(IdVar(t, a), Null, sibling)
    case Bin(op, l, r) => New(SysBin(op), Tree(l, Tree(r, Null)), sibling)
    case Not(arg) => New(SysBitwise, Tree(arg, Null), sibling)
    case Assign(target, value) => New(SysAssign, Tree(target, Tree(value, Null)), sibling)
    case Step(prefix, up, a, t) => New(SysStep(prefix, up), New(IdVar(t, a), Null, Null), sibling)
    case Deref(arg) => New(SysGetValue, Tree(arg, Null), sibling)
    case AddrOf(arg) => New(SysGetAddr, Tree(arg, Null), sibling)
    case Call(f, args) => New(SysFunc, New(IdSyscall(f), Null, Trees(args)), sibling)
  }

  function Trees(es: Exprs): Node
    decreases es, 0
  {
    match es
    case Nil => Null
    case Cons(head, tail) => Tree(head, Trees(tail))
  }

  // ----- the fragment -----

  /** Variables whose value the compiler loads as a double word. */
  predicate DwordVar(t: VarType) {
    t.Int? || t.UInt? || t.Long? || t.ULong? || t.CharP? || t.ShortP? || t.IntP? || t.LongP?
  }

  /** The data type a node gets is that of its leftmost leaf; a call's is never set. */
  predicate Typed(e: Expr) {
    match e
    case Const(_) => true
    case Var(_, t) => DwordVar(t)
    case Bin(_, l, _) => Typed(l)
    case Not(arg) => Typed(arg)
    case Assign(target, _) => Typed(target)
    case Step(_, _, _, t) => DwordVar(t)
    case Deref(arg) => Typed(arg)
    case AddrOf(arg) => Typed(arg)
    case Call(_, _) => false
  }

  predicate IsTarget(e: Expr) {
    e.Var? || e.Deref?
  }

  /** Every operator node gets data type DWORD, targets are variables or `*e`, and a
      call has at most 16 arguments. */
  predicate InFragment(e: Expr)
    decreases e, 0
  {
    match e
    case Const(_) => true
    case Var(_, t) => DwordVar(t)
    case Bin(_, l, r) => Typed(l) && InFragment(l) && InFragment(r)
    case Not(arg) => Typed(arg) && InFragment(arg)
    case Assign(target, value) => IsTarget(target) && Typed(target) && InFragment(target) && InFragment(value)
    case Step(_, _, _, t) => DwordVar(t)
    case Deref(arg) => Typed(arg) && InFragment(arg)
    case AddrOf(arg) => IsTarget(arg) && InFragment(arg)
    case Call(_, args) => Count(args) <= 16 && AllInFragment(args)
  }

  predicate AllInFragment(es: Exprs)
    decreases es, 0
  {
    match es
    case Nil => true
    case Cons(head, tail) => InFragment(head) && AllInFragment(tail)
  }
}
