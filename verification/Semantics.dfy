/** What a TACKY function does: a machine-independent step semantics.

    The meaning of operators, conversions, field access, outside memory and callees is a
    parameter (`Machine`), so every theorem about a pass holds for all of them. */
module Semantics {
  import opened Tacky

  /** `Ptr` is the address of (a byte inside) a variable of this function; every other
      address is a plain number. `Agg` is the content of an aggregate. */
  datatype Value =
    | Num(n: int)
    | Dbl(pattern: int)
    | Ptr(base: Name, off: int)
    | Agg(parts: seq<Value>)

  type Env = map<Name, Value>
  type Mem = map<int, Value>

  function Read(env: Env, x: Name): Value {
    if x in env then env[x] else Num(0)
  }

  datatype Callee = Direct(name: Name) | Through(address: Value)

  /** A call as its environment sees it: the target, the arguments with the class of
      their types, and everything the callee can reach. */
  datatype Event = Called(callee: Callee, args: seq<(Class, Value)>, visible: Env, outside: Mem)

  datatype Reply = Reply(result: Value, written: Env, outside: Mem)

  datatype Machine = Machine(
    unary: (UnaryOp, CType, Value) -> Value,
    binary: (BinaryOp, Class, Class, CType, Value, Value) -> Value,
    convert: (Conversion, Class, CType, Value) -> Value,
    copy: (Class, CType, Value) -> Value,
    addPtr: (Value, Value, int) -> Value,
    getField: (Value, int, CType) -> Value,
    setField: (Value, int, Class, Value) -> Value,
    loadCell: (Mem, Value, CType) -> Value,
    storeCell: (Mem, Value, Class, Value) -> Mem,
    isZero: Value -> bool,
    call: seq<Event> -> Reply)

  /** The function a body belongs to: variable types, the variables other code can reach
      through an address or by name, and the statics observed at exit. */
  datatype Ctx = Ctx(machine: Machine, types: Types, aliased: set<Name>, statics: set<Name>)

  datatype Data = Data(env: Env, mem: Mem, trace: seq<Event>)

  function EvalVal(v: Val, env: Env): Value {
    match v
    case Constant(i) => Num(i)
    case Int128Constant(i) => Num(i)
    case UInt128Constant(i) => Num(i)
    case DoubleConstant(bits) => Dbl(bits)
    case Var(x) => Read(env, x)
  }

  function ValClass(types: Types, v: Val): Class {
    ClassOf(ValType(types, v))
  }

  function LoadAt(c: Ctx, d: Data, p: Value, ty: CType): Value {
    if p.Ptr? then c.machine.getField(Read(d.env, p.base), p.off, ty)
    else c.machine.loadCell(d.mem, p, ty)
  }

  function StoreAt(c: Ctx, d: Data, p: Value, k: Class, v: Value): Data {
    if p.Ptr? then d.(env := d.env[p.base := c.machine.setField(Read(d.env, p.base), p.off, k, v)])
    else d.(mem := c.machine.storeCell(d.mem, p, k, v))
  }

  function Visible(c: Ctx, env: Env): Env {
    map x | x in c.aliased :: Read(env, x)
  }

  function ArgValues(c: Ctx, args: seq<Val>, env: Env): seq<(Class, Value)> {
    seq(|args|, k requires 0 <= k < |args| => (ValClass(c.types, args[k]), EvalVal(args[k], env)))
  }

  function CallEvent(c: Ctx, i: Instr, d: Data): Event
    requires i.FunCall?
  {
    Called(if i.indirect then Through(Read(d.env, i.callee)) else Direct(i.callee),
           ArgValues(c, i.args, d.env), Visible(c, d.env), d.mem)
  }

  function AfterCall(c: Ctx, i: Instr, d: Data): Data
    requires i.FunCall?
  {
    var trace := d.trace + [CallEvent(c, i, d)];
    var r := c.machine.call(trace);
    var written := map x | x in c.aliased && x in r.written :: r.written[x];
    Data((d.env + written)[i.dst := r.result], r.outside, trace)
  }

  /** The value an instruction that only computes puts in its destination. */
  function Result(c: Ctx, i: Instr, d: Data): Value
    requires Computes(i)
  {
    var m := c.machine;
    match i
    case Unary(op, v, x) => m.unary(op, TypeOf(c.types, x), EvalVal(v, d.env))
    case Binary(op, v, w, x) =>
      m.binary(op, ValClass(c.types, v), ValClass(c.types, w), TypeOf(c.types, x),
               EvalVal(v, d.env), EvalVal(w, d.env))
    case Copy(v, x) => m.copy(ValClass(c.types, v), TypeOf(c.types, x), EvalVal(v, d.env))
    case Convert(kind, v, x) =>
      m.convert(kind, ValClass(c.types, v), TypeOf(c.types, x), EvalVal(v, d.env))
    case GetAddress(y, x) => Ptr(y, 0)
    case Load(p, x) => LoadAt(c, d, EvalVal(p, d.env), TypeOf(c.types, x))
    case CopyToOffset(v, x, offset) =>
      m.setField(Read(d.env, x), offset, ValClass(c.types, v), EvalVal(v, d.env))
    case CopyFromOffset(y, offset, x) => m.getField(Read(d.env, y), offset, TypeOf(c.types, x))
    case AddPtr(v, w, scale, x) => m.addPtr(EvalVal(v, d.env), EvalVal(w, d.env), scale)
  }

  /** Instructions whose only effect is to assign `DefinedVar`. */
  predicate Computes(i: Instr) {
    i.Unary? || i.Binary? || i.Copy? || i.Convert? || i.GetAddress? || i.Load?
    || i.CopyToOffset? || i.CopyFromOffset? || i.AddPtr?
  }

  /** The effect of an instruction on data; jumps, labels and Nop have none. */
  function Exec(c: Ctx, i: Instr, d: Data): Data {
    if Computes(i) then d.(env := d.env[DefinedVar(i).value := Result(c, i, d)])
    else match i
      case Store(v, p) => StoreAt(c, d, EvalVal(p, d.env), ValClass(c.types, v), EvalVal(v, d.env))
      case FunCall(_, _, _, _) => AfterCall(c, i, d)
      case _ => d
  }

  /** A body is a list of blocks; a plain instruction list `body` is the code `[body]`. */
  type Code = seq<seq<Instr>>

  datatype Outcome = Returned(v: Value) | FellOff

  /** `rest` is what remains of block `blk`. A halted run keeps exactly what the rest of
      the program can observe; a run into undefined behaviour keeps only its calls. */
  datatype Config =
    | Running(blk: nat, rest: seq<Instr>, data: Data)
    | Halted(outcome: Outcome, statics: Env, mem: Mem, trace: seq<Event>)
    | Trapped(trace: seq<Event>)

  function Halt(c: Ctx, o: Outcome, d: Data): Config {
    Halted(o, map x | x in c.statics :: Read(d.env, x), d.mem, d.trace)
  }

  /** The first position of `Label(l)` in `instrs`, or its length. */
  function LabelIndex(instrs: seq<Instr>, l: Name): (k: nat)
    ensures k <= |instrs|
    ensures k < |instrs| ==> instrs[k] == Label(l)
    ensures forall j :: 0 <= j < k ==> instrs[j] != Label(l)
  {
    if instrs == [] || instrs[0] == Label(l) then 0 else 1 + LabelIndex(instrs[1..], l)
  }

  /** The first block at or after `b` that holds `Label(l)`, or the number of blocks. */
  function LabelBlock(code: Code, l: Name, b: nat): (t: nat)
    requires b <= |code|
    ensures b <= t <= |code|
    ensures t < |code| ==> Label(l) in code[t]
    ensures forall j :: b <= j < t ==> Label(l) !in code[j]
    decreases |code| - b
  {
    if b == |code| || Label(l) in code[b] then b else LabelBlock(code, l, b + 1)
  }

  function Goto(code: Code, l: Name, d: Data): Config {
    var t := LabelBlock(code, l, 0);
    if t == |code| then Trapped(d.trace)
    else Running(t, code[t][LabelIndex(code[t], l)..], d)
  }

  function Enter(c: Ctx, code: Code, b: nat, d: Data): Config {
    if b < |code| then Running(b, code[b], d) else Halt(c, FellOff, d)
  }

  predicate IsJump(i: Instr) {
    i.Jump? || i.JumpIfZero? || i.JumpIfNotZero?
  }

  predicate Taken(c: Ctx, i: Instr, env: Env)
    requires IsJump(i)
  {
    match i
    case Jump(_) => true
    case JumpIfZero(v, _) => c.machine.isZero(EvalVal(v, env))
    case JumpIfNotZero(v, _) => !c.machine.isZero(EvalVal(v, env))
  }

  function Step(c: Ctx, code: Code, s: Config): Config {
    if !s.Running? then s
    else if s.rest == [] then Enter(c, code, s.blk + 1, s.data)
    else
      var i, next := s.rest[0], Running(s.blk, s.rest[1..], s.data);
      if i.Return? then Halt(c, Returned(EvalVal(i.val, s.data.env)), s.data)
      else if i.Unreachable? then Trapped(s.data.trace)
      else if IsJump(i) then (if Taken(c, i, s.data.env) then Goto(code, i.target, s.data) else next)
      else next.(data := Exec(c, i, s.data))
  }

  function Run(c: Ctx, code: Code, s: Config, n: nat): Config
    decreases n
  {
    if n == 0 then s else Run(c, code, Step(c, code, s), n - 1)
  }

  function Start(code: Code, d: Data): Config {
    Running(0, if code == [] then [] else code[0], d)
  }
}
