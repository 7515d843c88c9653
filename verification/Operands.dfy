/** The operands and destinations of instructions, written out constructor by constructor. */
module Operands {
  import opened Tacky

  /** The instruction names the variable as an operand. */
  predicate ReadsVar(i: Instr, x: Name) {
    match i
    case Return(v) => v == Var(x)
    case Unary(_, v, _) => v == Var(x)
    case Binary(_, v, w, _) => v == Var(x) || w == Var(x)
    case Copy(v, _) => v == Var(x)
    case Convert(_, v, _) => v == Var(x)
    case JumpIfZero(v, _) => v == Var(x)
    case JumpIfNotZero(v, _) => v == Var(x)
    case FunCall(f, args, _, indirect) => (indirect && f == x) || Var(x) in args
    case GetAddress(y, _) => y == x
    case Load(p, _) => p == Var(x)
    case Store(v, p) => v == Var(x) || p == Var(x)
    case CopyToOffset(v, _, _) => v == Var(x)
    case CopyFromOffset(y, _, _) => y == x
    case AddPtr(v, w, _, _) => v == Var(x) || w == Var(x)
    case _ => false
  }

  /** The instruction gives the whole variable a new value. */
  predicate Overwrites(i: Instr, x: Name) {
    match i
    case Unary(_, _, d) => d == x
    case Binary(_, _, _, d) => d == x
    case Copy(_, d) => d == x
    case Convert(_, _, d) => d == x
    case FunCall(_, _, d, _) => d == x
    case GetAddress(_, d) => d == x
    case Load(_, d) => d == x
    case CopyFromOffset(_, _, d) => d == x
    case AddPtr(_, _, _, d) => d == x
    case _ => false
  }

  lemma ReadsAreSources(i: Instr, x: Name)
    ensures ReadsVar(i, x) <==> x in SourceVars(i)
    ensures Overwrites(i, x) <==> DefinedVar(i) == Some(x) && !i.CopyToOffset?
  {
    if i.FunCall? && Var(x) in i.args {
      var k :| 0 <= k < |i.args| && i.args[k] == Var(x);
      assert i.args[k].name in ArgVars(i.args);
    }
  }
}
