// The compiler's SSA form and what running it means. The instruction set is the
// part of ir.rs whose effect stays inside values, named variables and calls.
module Dmir {
  import opened Text

  type ValueId = nat
  type BlockId = nat

  datatype Inst =
    | ConstInt(dest: ValueId, n: int)
    | ConstStr(dest: ValueId, s: string)
    | ConstBool(dest: ValueId, b: bool)
    | LoadVar(dest: ValueId, name: string)
    | AssignVar(name: string, value: ValueId)
    | BinOp(dest: ValueId, op: string, left: ValueId, right: ValueId)
    | UnOp(dest: ValueId, op: string, operand: ValueId)
    | Cast(dest: ValueId, value: ValueId, fromTy: string, toTy: string)
    | Call(dest: ValueId, func: string, args: seq<ValueId>)
    | Select(dest: ValueId, cond: ValueId, thenVal: ValueId, elseVal: ValueId)
    | Out(value: ValueId)
    | Return(result: Option<ValueId>)

  datatype Terminator =
    | Branch(target: BlockId, args: seq<ValueId>)
    | CondBranch(cond: ValueId, thenBlock: BlockId, thenArgs: seq<ValueId>, elseBlock: BlockId, elseArgs: seq<ValueId>)
    | Exit(result: Option<ValueId>)
    | Unreachable

  datatype Block = Block(id: BlockId, params: seq<ValueId>, insts: seq<Inst>, term: Terminator)

  datatype Function = Function(params: seq<ValueId>, entry: BlockId, blocks: seq<Block>)

  type Module = map<string, Function>

  // Ids an instruction defines and reads

  function Def(inst: Inst): Option<ValueId> {
    match inst
    case AssignVar(_, _) => None
    case Out(_) => None
    case Return(_) => None
    case _ => Some(inst.dest)
  }

  function OptIds(v: Option<ValueId>): seq<ValueId> { if v.Some? then [v.value] else [] }

  function Uses(inst: Inst): seq<ValueId> {
    match inst
    case AssignVar(_, v) => [v]
    case BinOp(_, _, l, r) => [l, r]
    case UnOp(_, _, v) => [v]
    case Cast(_, v, _, _) => [v]
    case Call(_, _, args) => args
    case Select(_, c, t, e) => [c, t, e]
    case Out(v) => [v]
    case Return(v) => OptIds(v)
    case _ => []
  }

  function TermUses(t: Terminator): seq<ValueId> {
    match t
    case Branch(_, args) => args
    case CondBranch(c, _, ta, _, ea) => [c] + ta + ea
    case Exit(v) => OptIds(v)
    case Unreachable => []
  }

  // Running

  datatype Val = Num(n: int) | Str(s: string) | Flag(b: bool) | Unit

  // A conditional branch is taken on any value but zero and false; a string is
  // a pointer, and never null.
  predicate Truthy(v: Val) { v != Num(0) && v != Flag(false) && v != Unit }

  // Calls that leave the module and printed values are visible outside; the
  // other events record the functions called, the blocks entered, the branches
  // taken with the value they were taken on, and the blocks returned from.
  datatype Event =
    | Extern(func: string, args: seq<Val>)
    | Printed(v: Val)
    | Called(func: string)
    | Enter(func: string, block: BlockId)
    | Branched(func: string, block: BlockId, cond: Val)
    | Exited(func: string, block: BlockId)

  type Trace = seq<Event>

  // The operators and the outside world. A foreign function answers from what
  // it was given and from what the outside has seen so far.
  datatype Machine = Machine(
    bin: (string, Val, Val) -> Val,
    un: (string, Val) -> Val,
    cast: (string, string, Val) -> Val,
    foreign: (string, seq<Val>, Trace) -> Val)

  const HIT_FUNC := "datara_rt_pgo_hit_func"
  const HIT_BRANCH := "datara_rt_pgo_hit_branch"
  const SET_OUTPUT := "datara_rt_pgo_set_output_file"
  const FLUSH := "datara_rt_pgo_flush"

  predicate IsRuntime(func: string) {
    func == HIT_FUNC || func == HIT_BRANCH || func == SET_OUTPUT || func == FLUSH
  }

  // The trace without the calls into the profile runtime.
  function Erase(t: Trace): Trace {
    if t == [] then [] else
    var last := t[|t| - 1];
    var front := Erase(t[..|t| - 1]);
    if last.Extern? && IsRuntime(last.func) then front else front + [last]
  }

  // What the outside world sees of a trace.
  function Outside(t: Trace): Trace {
    if t == [] then [] else
    var last := t[|t| - 1];
    var front := Outside(t[..|t| - 1]);
    if last.Extern? || last.Printed? then front + [last] else front
  }

  type Env = map<ValueId, Val>
  type Vars = map<string, Val>

  datatype Result =
    | Returned(value: Val, trace: Trace)
    | Stuck(trace: Trace)
    | OutOfFuel(trace: Trace)

  datatype Flow = Next(env: Env, vars: Vars, trace: Trace) | Stop(result: Result)

  function TraceOf(s: Flow): Trace { if s.Next? then s.trace else s.result.trace }

  function Reads(env: Env, ids: seq<ValueId>): (r: Option<seq<Val>>)
    ensures r.Some? <==> forall k :: 0 <= k < |ids| ==> ids[k] in env
    ensures r.Some? ==> |r.value| == |ids| && forall k :: 0 <= k < |ids| ==> r.value[k] == env[ids[k]]
  {
    if forall k :: 0 <= k < |ids| ==> ids[k] in env
    then Some(seq(|ids|, k requires 0 <= k < |ids| && ids[k] in env => env[ids[k]]))
    else None
  }

  function Bind(env: Env, ids: seq<ValueId>, vals: seq<Val>): Env
    requires |ids| == |vals|
    decreases |ids|
  {
    if ids == [] then env
    else Bind(env, ids[..|ids| - 1], vals[..|ids| - 1])[ids[|ids| - 1] := vals[|ids| - 1]]
  }

  // The index of the first block with this id, or the number of blocks.
  function IndexOf(blocks: seq<Block>, id: BlockId): (k: nat)
    ensures k <= |blocks|
    ensures k < |blocks| ==> blocks[k].id == id
    ensures forall j :: 0 <= j < k ==> blocks[j].id != id
  {
    if blocks == [] || blocks[0].id == id then 0 else 1 + IndexOf(blocks[1..], id)
  }

  function FindBlock(blocks: seq<Block>, id: BlockId): Option<Block> {
    var k := IndexOf(blocks, id);
    if k < |blocks| then Some(blocks[k]) else None
  }

  // The value an instruction gives its destination, from the values it reads.
  // Calls into the module and returns are not among these.
  function Compute(m: Machine, inst: Inst, vals: seq<Val>, vars: Vars): Option<Val>
    requires |vals| == |Uses(inst)|
  {
    match inst
    case ConstInt(_, n) => Some(Num(n))
    case ConstStr(_, s) => Some(Str(s))
    case ConstBool(_, b) => Some(Flag(b))
    case LoadVar(_, name) => if name in vars then Some(vars[name]) else None
    case BinOp(_, op, _, _) => Some(m.bin(op, vals[0], vals[1]))
    case UnOp(_, op, _) => Some(m.un(op, vals[0]))
    case Cast(_, _, f, t) => Some(m.cast(f, t, vals[0]))
    case Select(_, _, _, _) => Some(if Truthy(vals[0]) then vals[1] else vals[2])
    case _ => None
  }

  // One instruction. Fuel is spent on entering blocks and functions only.
  function Step(m: Machine, fs: Module, inst: Inst, env: Env, vars: Vars, t: Trace, fuel: nat): Flow
    decreases fuel, 0
  {
    var got := Reads(env, Uses(inst));
    if got.None? then Stop(Stuck(t)) else
    var vals := got.value;
    match inst
    case AssignVar(name, _) => Next(env, vars[name := vals[0]], t)
    case Out(_) => Next(env, vars, t + [Printed(vals[0])])
    case Return(v) => Stop(Returned(if v.Some? then vals[0] else Unit, t))
    case Call(dest, func, _) =>
      if func !in fs then
        Next(env[dest := m.foreign(func, vals, Outside(Erase(t)))], vars, t + [Extern(func, vals)])
      else if fuel == 0 then Stop(OutOfFuel(t))
      else
        var r := RunFunction(m, fs, func, vals, t, fuel - 1);
        if r.Returned? then Next(env[dest := r.value], vars, r.trace) else Stop(r)
    case _ =>
      var v := Compute(m, inst, vals, vars);
      if v.None? then Stop(Stuck(t)) else Next(env[inst.dest := v.value], vars, t)
  }

  function Exec(m: Machine, fs: Module, insts: seq<Inst>, env: Env, vars: Vars, t: Trace, fuel: nat): Flow
    decreases fuel, 1, |insts|
  {
    if insts == [] then Next(env, vars, t) else
    var s := Step(m, fs, insts[0], env, vars, t, fuel);
    if s.Stop? then s else Exec(m, fs, insts[1..], s.env, s.vars, s.trace, fuel)
  }

  function Jump(m: Machine, fs: Module, name: string, target: BlockId, args: seq<ValueId>,
                env: Env, vars: Vars, t: Trace, fuel: nat): Result
    requires name in fs
    decreases fuel, 2
  {
    var b := FindBlock(fs[name].blocks, target);
    var vals := Reads(env, args);
    if b.None? || vals.None? || |b.value.params| != |args| then Stuck(t)
    else if fuel == 0 then OutOfFuel(t)
    else RunBlock(m, fs, name, b.value, Bind(env, b.value.params, vals.value), vars, t, fuel - 1)
  }

  function Leave(m: Machine, fs: Module, name: string, b: Block, env: Env, vars: Vars, t: Trace, fuel: nat): Result
    requires name in fs
    decreases fuel, 3
  {
    match b.term
    case Branch(target, args) => Jump(m, fs, name, target, args, env, vars, t, fuel)
    case CondBranch(c, thenBlock, thenArgs, elseBlock, elseArgs) =>
      if c !in env then Stuck(t)
      else
        var t' := t + [Branched(name, b.id, env[c])];
        if Truthy(env[c]) then Jump(m, fs, name, thenBlock, thenArgs, env, vars, t', fuel)
        else Jump(m, fs, name, elseBlock, elseArgs, env, vars, t', fuel)
    case Exit(v) =>
      var t' := t + [Exited(name, b.id)];
      if v.None? then Returned(Unit, t') else if v.value in env then Returned(env[v.value], t') else Stuck(t')
    case Unreachable => Stuck(t)
  }

  function RunBlock(m: Machine, fs: Module, name: string, b: Block, env: Env, vars: Vars, t: Trace, fuel: nat): Result
    requires name in fs
    decreases fuel, 4
  {
    var s := Exec(m, fs, b.insts, env, vars, t + [Enter(name, b.id)], fuel);
    if s.Stop? then s.result else Leave(m, fs, name, b, s.env, s.vars, s.trace, fuel)
  }

  // The entry block's parameters mirror the function's, so binding the latter
  // is enough.
  function RunFunction(m: Machine, fs: Module, name: string, args: seq<Val>, t: Trace, fuel: nat): Result
    requires name in fs
    decreases fuel, 5
  {
    var f := fs[name];
    var b := FindBlock(f.blocks, f.entry);
    if b.None? || |f.params| != |args| then Stuck(t)
    else RunBlock(m, fs, name, b.value, Bind(map[], f.params, args), map[], t + [Called(name)], fuel)
  }

  // Two modules whose functions hold the same block under every id run alike.

  ghost predicate SameCode(f: Function, g: Function) {
    f.params == g.params && f.entry == g.entry
    && forall id :: FindBlock(f.blocks, id) == FindBlock(g.blocks, id)
  }

  ghost predicate SameModule(fs: Module, gs: Module) {
    fs.Keys == gs.Keys && forall name :: name in fs ==> SameCode(fs[name], gs[name])
  }
}
