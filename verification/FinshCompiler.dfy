/** finsh_type_check and finsh_compile: what each node is annotated with and the bytes
    it becomes. */
module FinshCompiler {
  import opened FinshTree

  // ----- type check -----

  function VarDataType(t: VarType): DataType {
    match t
    case Void => VoidData
    case Char => ByteData
    case UChar => ByteData
    case Short => WordData
    case UShort => WordData
    case _ => DwordData
  }

  predicate WantsAddress(k: Kind) {
    k.SysAssign? || (k.SysStep? && k.prefix) || k.SysGetAddr?
  }

  /** The `is_addr` argument finsh_type_check hands to its child. */
  function ChildAddress(k: Kind, address: bool): bool {
    if WantsAddress(k) then true else if k.SysGetValue? && address then false else address
  }

  function LeafDataType(k: Kind, before: DataType): DataType {
    match k
    case IdVar(t, _) => VarDataType(t)
    case ValueChar(_) => ByteData
    case ValueWord(_) => DwordData
    case _ => before
  }

  /** finsh_type_check: the annotated tree. */
  function TypeCheck(n: Node, address: bool): (r: Node)
    ensures r.Null? <==> n.Null?
    ensures n.Node? ==> r.kind == n.kind && (r.sibling.Null? <==> n.sibling.Null?) && (r.child.Null? <==> n.child.Null?)
  {
    match n
    case Null => Null
    case Node(k, t, a, child, sibling) =>
      var child' := TypeCheck(child, ChildAddress(k, address));
      Node(k,
           if child'.Node? then child'.dataType else LeafDataType(k, t),
           if k.IdSyscall? then a else a || address,
           child',
           TypeCheck(sibling, false))
  }

  // ----- code -----

  type Code = seq<int>

  /** Every operation has its byte, word and double word forms at consecutive numbers. */
  function Sized(base: int, t: DataType): Code {
    match t
    case VoidData => []
    case ByteData => [base]
    case WordData => [base + 1]
    case DwordData => [base + 2]
  }

  const OP_BITWISE := 25
  const OP_LD := 34
  const OP_LD_VALUE := 37
  const OP_ST := 40
  const OP_POP := 43
  const OP_SYSCALL := 44
  const OP_LD_VALUE_STACK := 45

  function OpBase(op: BinOp): int {
    match op
    case Add => 1
    case Sub => 4
    case Div => 7
    case Mod => 10
    case Mul => 13
    case And => 16
    case Or => 19
    case Xor => 22
    case Shl => 28
    case Shr => 31
  }

  /** FINSH_SET32 */
  function Bytes4(w: Word): (c: Code)
    ensures |c| == 4
  {
    [w % 256, w / 256 % 256, w / 65536 % 256, w / 16777216]
  }

  function LoadDword(w: Word): Code {
    [OP_LD + 2] + Bytes4(w)
  }

  function LoadOne(t: DataType): Code {
    match t
    case VoidData => []
    case ByteData => [OP_LD, 1]
    case WordData => [OP_LD + 1, 1, 0]
    case DwordData => LoadDword(1)
  }

  function LoadVar(t: VarType, a: Word, address: bool): Code {
    var d := if t == VoidP then VoidData else VarDataType(t);
    if d.VoidData? then [] else (if address then [OP_LD + 2] else Sized(OP_LD_VALUE, d)) + Bytes4(a)
  }

  function StepCode(prefix: bool, up: bool, t: DataType, a: Word): Code {
    if t.VoidData? then []
    else
      var body := Sized(OP_LD_VALUE, t) + Bytes4(a) + LoadOne(t) + Sized(OpBase(if up then Add else Sub), t) + Sized(OP_ST, t);
      if prefix then body + [OP_LD_VALUE_STACK + 2] else LoadDword(a) + body + [OP_POP]
  }

  function Siblings(n: Node): nat {
    if n.Null? then 0 else 1 + Siblings(n.sibling)
  }

  /** What finsh_compile emits for a node, between its child's and its sibling's code. */
  function NodeCode(n: Node): Code
    requires n.Node?
  {
    match n.kind
    case IdVar(t, a) => LoadVar(t, a, n.address)
    case IdSyscall(f) => LoadDword(f)
    case ValueChar(c) => [OP_LD, c % 256]
    case ValueWord(w) => LoadDword(w)
    case SysBin(op) => Sized(OpBase(op), n.dataType)
    case SysBitwise => Sized(OP_BITWISE, n.dataType)
    case SysFunc => if n.child.Null? then [] else [OP_SYSCALL, Siblings(n.child.sibling) % 256]
    case SysAssign =>
      if n.child.Node? && (n.child.kind.IdVar? || n.child.kind.IdSyscall? || n.child.kind.SysGetValue?) then
        Sized(OP_ST, n.child.dataType) + Sized(OP_LD_VALUE_STACK, n.child.dataType)
      else []
    case SysStep(prefix, up) =>
      if n.child.Node? && n.child.kind.IdVar? then StepCode(prefix, up, n.dataType, n.child.kind.addr) else []
    case SysGetValue => if n.address then [] else Sized(OP_LD_VALUE_STACK, n.dataType)
    case SysGetAddr => []
  }

  /** finsh_compile: child first, then the node, then the sibling. */
  function CodeOf(n: Node): Code {
    if n.Null? then [] else CodeOf(n.child) + NodeCode(n) + CodeOf(n.sibling)
  }

  /** finsh_compiler_run: one statement after another, each but the last popped. */
  function ProgramCode(n: Node): Code {
    if n.Null? then []
    else CodeOf(n.(sibling := Null)) + (if n.sibling.Null? then [] else [OP_POP]) + ProgramCode(n.sibling)
  }

  // ----- the code of an expression -----

  /** Code of an expression on its own, as a value or as an address. */
  function Emit(e: Expr, address: bool): Code {
    CodeOf(TypeCheck(Tree(e, Null), address))
  }

  function EmitAll(es: Exprs): Code {
    CodeOf(TypeCheck(Trees(es), false))
  }

  lemma TreeSibling(e: Expr, sibling: Node)
    ensures Tree(e, Null).Node? && Tree(e, sibling) == Tree(e, Null).(sibling := sibling)
  {
    match e
    case Const(_) =>
    case Var(_, _) =>
    case Bin(_, _, _) =>
    case Not(_) =>
    case Assign(_, _) =>
    case Step(_, _, _, _) =>
    case Deref(_) =>
    case AddrOf(_) =>
    case Call(_, _) =>
  }

  lemma CodeOfAlone(n: Node)
    requires n.Node? && n.sibling.Null?
    ensures CodeOf(n) == CodeOf(n.child) + NodeCode(n)
  {
    assert CodeOf(n.sibling) == [];
  }

  lemma CodeOfWithSibling(e: Expr, sibling: Node, address: bool)
    ensures var n := TypeCheck(Tree(e, Null), address);
            && TypeCheck(Tree(e, sibling), address) == n.(sibling := TypeCheck(sibling, false))
            && CodeOf(TypeCheck(Tree(e, sibling), address)) == Emit(e, address) + CodeOf(TypeCheck(sibling, false))
  {
    TreeSibling(e, sibling);
    var n := TypeCheck(Tree(e, Null), address);
    CodeOfAlone(n);
    var n' := n.(sibling := TypeCheck(sibling, false));
    assert NodeCode(n') == NodeCode(n);
  }

  lemma EmitNil()
    ensures EmitAll(Nil) == []
  {
  }

  lemma EmitCons(head: Expr, tail: Exprs)
    ensures EmitAll(Cons(head, tail)) == Emit(head, false) + EmitAll(tail)
  {
    CodeOfWithSibling(head, Trees(tail), false);
  }

  /** A typed expression's node has data type DWORD. */
  lemma {:induction false} TypedIsDword(e: Expr, address: bool)
    requires Typed(e)
    ensures TypeCheck(Tree(e, Null), address).dataType == DwordData
  {
    hide CodeOf;
    match e
    case Const(_) =>
    case Var(_, _) =>
    case Bin(op, l, r) =>
      CodeOfWithSibling(l, Tree(r, Null), address);
      TypedIsDword(l, address);
    case Not(arg) => TypedIsDword(arg, address);
    case Assign(target, value) =>
      CodeOfWithSibling(target, Tree(value, Null), true);
      TypedIsDword(target, true);
    case Step(prefix, _, a, t) =>
      assert TypeCheck(New(IdVar(t, a), Null, Null), prefix || address).dataType == DwordData;
    case Deref(arg) => TypedIsDword(arg, false);
    case AddrOf(arg) => TypedIsDword(arg, true);
  }

  lemma EmitBin(op: BinOp, l: Expr, r: Expr)
    requires Typed(l)
    ensures Emit(Bin(op, l, r), false) == Emit(l, false) + Emit(r, false) + [OpBase(op) + 2]
  {
    hide CodeOf;
    CodeOfWithSibling(l, Tree(r, Null), false);
    TypedIsDword(l, false);
    CodeOfAlone(TypeCheck(Tree(Bin(op, l, r), Null), false));
  }

  lemma EmitNot(arg: Expr)
    requires Typed(arg)
    ensures Emit(Not(arg), false) == Emit(arg, false) + [OP_BITWISE + 2]
  {
    hide CodeOf;
    TypedIsDword(arg, false);
    CodeOfAlone(TypeCheck(Tree(Not(arg), Null), false));
  }

  lemma EmitAssign(target: Expr, value: Expr)
    requires IsTarget(target) && Typed(target)
    ensures Emit(Assign(target, value), false)
            == Emit(target, true) + Emit(value, false) + [OP_ST + 2, OP_LD_VALUE_STACK + 2]
  {
    hide CodeOf;
    CodeOfWithSibling(target, Tree(value, Null), true);
    TypedIsDword(target, true);
    CodeOfAlone(TypeCheck(Tree(Assign(target, value), Null), false));
  }

  lemma EmitDeref(arg: Expr)
    requires Typed(arg)
    ensures Emit(Deref(arg), false) == Emit(arg, false) + [OP_LD_VALUE_STACK + 2]
    ensures Emit(Deref(arg), true) == Emit(arg, false)
  {
    hide CodeOf;
    TypedIsDword(arg, false);
    CodeOfAlone(TypeCheck(Tree(Deref(arg), Null), false));
    CodeOfAlone(TypeCheck(Tree(Deref(arg), Null), true));
  }

  lemma EmitAddrOf(arg: Expr)
    ensures Emit(AddrOf(arg), false) == Emit(arg, true)
  {
    hide CodeOf;
    CodeOfAlone(TypeCheck(Tree(AddrOf(arg), Null), false));
  }

  lemma EmitVar(a: Word, t: VarType, address: bool)
    requires DwordVar(t)
    ensures TypeCheck(Tree(Var(a, t), Null), address) == Node(IdVar(t, a), DwordData, address, Null, Null)
    ensures Emit(Var(a, t), address) == if address then LoadDword(a) else [OP_LD_VALUE + 2] + Bytes4(a)
  {
    var n := TypeCheck(Tree(Var(a, t), Null), address);
    assert n == Node(IdVar(t, a), DwordData, address, Null, Null);
    CodeOfAlone(n);
  }

  lemma EmitConst(w: Word)
    ensures Emit(Const(w), false) == LoadDword(w)
  {
    CodeOfAlone(TypeCheck(Tree(Const(w), Null), false));
  }

  lemma EmitStep(prefix: bool, up: bool, a: Word, t: VarType)
    requires DwordVar(t)
    ensures Emit(Step(prefix, up, a, t), false) == Emit(Var(a, t), prefix) + StepCode(prefix, up, DwordData, a)
  {
    hide CodeOf;
    EmitVar(a, t, prefix);
    var n := TypeCheck(Tree(Step(prefix, up, a, t), Null), false);
    assert n.child == TypeCheck(Tree(Var(a, t), Null), prefix);
    CodeOfAlone(n);
  }

  lemma EmitCall(f: Word, args: Exprs)
    requires Count(args) <= 16
    ensures Emit(Call(f, args), false) == LoadDword(f) + EmitAll(args) + [OP_SYSCALL, Count(args)]
  {
    hide CodeOf;
    var n := TypeCheck(Tree(Call(f, args), Null), false);
    CalleeCode(f, args);
    SiblingCount(args);
    CodeOfAlone(n);
  }

  lemma CalleeCode(f: Word, args: Exprs)
    ensures TypeCheck(New(IdSyscall(f), Null, Trees(args)), false)
            == Node(IdSyscall(f), VoidData, false, Null, TypeCheck(Trees(args), false))
    ensures CodeOf(TypeCheck(New(IdSyscall(f), Null, Trees(args)), false)) == LoadDword(f) + EmitAll(args)
  {
    var n := TypeCheck(New(IdSyscall(f), Null, Trees(args)), false);
    assert CodeOf(n.child) == [];
    assert NodeCode(n) == LoadDword(f);
  }

  lemma SiblingCount(es: Exprs)
    ensures Siblings(TypeCheck(Trees(es), false)) == Count(es)
  {
    match es
    case Nil =>
    case Cons(head, tail) =>
      CodeOfWithSibling(head, Trees(tail), false);
      SiblingCount(tail);
  }

  /** A program is its statements' code with POP between them. */
  lemma ProgramCons(head: Expr, tail: Exprs)
    ensures ProgramCode(TypeCheck(Trees(Cons(head, tail)), false))
            == Emit(head, false) + (if tail.Nil? then [] else [OP_POP]) + ProgramCode(TypeCheck(Trees(tail), false))
  {
    CodeOfWithSibling(head, Trees(tail), false);
    var n := TypeCheck(Trees(Cons(head, tail)), false);
    assert n.(sibling := Null) == TypeCheck(Tree(head, Null), false);
  }
}
