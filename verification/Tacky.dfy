/** The three-address code ("TACKY") the optimizer works on: operands, instructions,
    and the def/use sets that every pass consults. */
module Tacky {

  datatype Option<+T> = None | Some(value: T)

  type Name = string

  datatype CType =
    | Char | SChar | UChar | Short | UShort | Int | Long | Int128
    | UInt | ULong | UInt128 | Float | Double | LongDouble | Bool
    | Struct | Pointer | Void

  /** Byte size; aggregates carry their size elsewhere and count as 0 here. */
  function Size(t: CType): nat {
    match t
    case Char | SChar | UChar | Bool => 1
    case Short | UShort => 2
    case Int | UInt | Float => 4
    case Long | ULong | Double | Pointer => 8
    case Int128 | UInt128 | LongDouble => 16
    case Void | Struct => 0
  }

  predicate IsSigned(t: CType) {
    t.Char? || t.SChar? || t.Short? || t.Int? || t.Long? || t.Int128?
  }

  predicate IsFloating(t: CType) {
    t.Float? || t.Double? || t.LongDouble?
  }

  /** The optimizer's notion of "same type" for copies. */
  predicate SameType(a: CType, b: CType) {
    a == b || (IsSigned(a) == IsSigned(b) && Size(a) == Size(b))
  }

  /** What a machine operation can see of an operand's type. */
  datatype Class = Class(signed: bool, size: nat, floating: bool)

  function ClassOf(t: CType): Class {
    Class(IsSigned(t), Size(t), IsFloating(t))
  }

  type Types = map<Name, CType>

  function TypeOf(types: Types, x: Name): CType {
    if x in types then types[x] else Int
  }

  /** Doubles are kept as their bit pattern, which is how the passes compare them. */
  datatype Val =
    | Constant(i: int)
    | Int128Constant(i128: int)
    | UInt128Constant(u128: int)
    | DoubleConstant(bits: int)
    | Var(name: Name)

  function ValType(types: Types, v: Val): CType {
    match v
    case Constant(_) => Int
    case Int128Constant(_) => Int128
    case UInt128Constant(_) => UInt128
    case DoubleConstant(_) => Double
    case Var(x) => TypeOf(types, x)
  }

  function ValVars(v: Val): set<Name> {
    if v.Var? then {v.name} else {}
  }

  datatype UnaryOp = Negate | Complement | LogicalNot

  datatype BinaryOp =
    | Add | Sub | Mul | Div | Mod
    | BitwiseAnd | BitwiseNand | BitwiseOr | BitwiseXor
    | ShiftLeft | ShiftRight
    | Equal | NotEqual | LessThan | LessEqual | GreaterThan | GreaterEqual

  predicate IsComparison(op: BinaryOp) {
    op.Equal? || op.NotEqual? || op.LessThan? || op.LessEqual? || op.GreaterThan? || op.GreaterEqual?
  }

  /** The thirteen conversion instructions share one shape: src, dst. */
  datatype Conversion =
    | Truncate | SignExtend | ZeroExtend
    | DoubleToInt | FloatToInt | DoubleToUInt | FloatToUInt
    | IntToDouble | IntToFloat | UIntToDouble | UIntToFloat
    | FloatToDouble | DoubleToFloat

  /** Destinations are variables: `validate_tacky_program` accepts nothing else. */
  datatype Instr =
    | Nop
    | Return(val: Val)
    | Unary(uop: UnaryOp, src: Val, dst: Name)
    | Binary(bop: BinaryOp, left: Val, right: Val, dst: Name)
    | Copy(src: Val, dst: Name)
    | Convert(kind: Conversion, src: Val, dst: Name)
    | Jump(target: Name)
    | JumpIfZero(cond: Val, target: Name)
    | JumpIfNotZero(cond: Val, target: Name)
    | Label(name: Name)
    | Unreachable
    | FunCall(callee: Name, args: seq<Val>, dst: Name, indirect: bool)
    | GetAddress(taken: Name, dst: Name)
    | Load(srcPtr: Val, dst: Name)
    | Store(src: Val, dstPtr: Val)
    | CopyToOffset(src: Val, dstName: Name, offset: int)
    | CopyFromOffset(srcName: Name, offset: int, dst: Name)
    | AddPtr(ptr: Val, index: Val, scale: int, dst: Name)

  /** `ends_basic_block` */
  predicate EndsBlock(i: Instr) {
    i.Jump? || i.JumpIfZero? || i.JumpIfNotZero? || i.Return? || i.Unreachable?
  }

  /** `exits_cfg` */
  predicate ExitsCfg(i: Instr) {
    i.Return? || i.Unreachable?
  }

  /** `for_each_instr_defined_var`: the variable an instruction names as its destination. */
  function DefinedVar(i: Instr): Option<Name> {
    match i
    case Unary(_, _, d) => Some(d)
    case Binary(_, _, _, d) => Some(d)
    case Copy(_, d) => Some(d)
    case Convert(_, _, d) => Some(d)
    case FunCall(_, _, d, _) => Some(d)
    case GetAddress(_, d) => Some(d)
    case Load(_, d) => Some(d)
    case CopyToOffset(_, d, _) => Some(d)
    case CopyFromOffset(_, _, d) => Some(d)
    case AddPtr(_, _, _, d) => Some(d)
    case _ => None
  }

  function ArgVars(args: seq<Val>): set<Name> {
    set k | 0 <= k < |args| && args[k].Var? :: args[k].name
  }

  /** `for_each_instr_source_var`: the variables an instruction names as operands. */
  function SourceVars(i: Instr): set<Name> {
    match i
    case Return(v) => ValVars(v)
    case Unary(_, v, _) => ValVars(v)
    case Binary(_, v, w, _) => ValVars(v) + ValVars(w)
    case Copy(v, _) => ValVars(v)
    case Convert(_, v, _) => ValVars(v)
    case JumpIfZero(v, _) => ValVars(v)
    case JumpIfNotZero(v, _) => ValVars(v)
    case FunCall(f, args, _, indirect) => (if indirect then {f} else {}) + ArgVars(args)
    case GetAddress(x, _) => {x}
    case Load(p, _) => ValVars(p)
    case Store(v, p) => ValVars(v) + ValVars(p)
    case CopyToOffset(v, _, _) => ValVars(v)
    case CopyFromOffset(x, _, _) => {x}
    case AddPtr(v, w, _, _) => ValVars(v) + ValVars(w)
    case _ => {}
  }

  /** `find_aliased_vars`, as the set it denotes on a list of instructions. */
  function AddressTaken(body: seq<Instr>): set<Name> {
    set k | 0 <= k < |body| && body[k].GetAddress? :: body[k].taken
  }

  /** The loop of `find_aliased_vars`. */
  method FindAliasedVars(body: seq<Instr>, statics: set<Name>) returns (aliased: set<Name>)
    ensures aliased == statics + AddressTaken(body)
  {
    aliased := statics;
    for k := 0 to |body|
      invariant aliased == statics + AddressTaken(body[..k])
    {
      assert body[..k + 1] == body[..k] + [body[k]];
      if body[k].GetAddress? {
        aliased := aliased + {body[k].taken};
      }
    }
    assert body[..|body|] == body;
  }

  lemma AppendDiffers<T>(a: seq<T>, b: seq<T>, x: T, y: T)
    requires |a| == |b|
    ensures a + [x] == b + [y] <==> a == b && x == y
  {
    if a + [x] == b + [y] {
      assert a == (a + [x])[..|a|] && b == (b + [y])[..|b|];
      assert x == (a + [x])[|a|] && y == (b + [y])[|b|];
    }
  }
}
