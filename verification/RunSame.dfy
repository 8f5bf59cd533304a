// Running depends on a function's blocks only through the block found under
// each id.
module RunSame {
  import opened Dmir

  lemma {:induction false} StepSame(m: Machine, fs: Module, gs: Module, inst: Inst, env: Env, vars: Vars, t: Trace,
                                    fuel: nat)
    requires SameModule(fs, gs)
    ensures Step(m, gs, inst, env, vars, t, fuel) == Step(m, fs, inst, env, vars, t, fuel)
    decreases fuel, 0
  {
    hide RunFunction, SameCode, Erase, Outside;
    var got := Reads(env, Uses(inst));
    if got.Some? && inst.Call? && inst.func in fs && fuel > 0 {
      FunctionSame(m, fs, gs, inst.func, got.value, t, fuel - 1);
    }
  }

  lemma {:induction false} ExecSame(m: Machine, fs: Module, gs: Module, insts: seq<Inst>, env: Env, vars: Vars,
                                    t: Trace, fuel: nat)
    requires SameModule(fs, gs)
    ensures Exec(m, gs, insts, env, vars, t, fuel) == Exec(m, fs, insts, env, vars, t, fuel)
    decreases fuel, 1, |insts|
  {
    hide Step, SameModule;
    if insts != [] {
      StepSame(m, fs, gs, insts[0], env, vars, t, fuel);
      var s := Step(m, fs, insts[0], env, vars, t, fuel);
      if s.Next? {
        ExecSame(m, fs, gs, insts[1..], s.env, s.vars, s.trace, fuel);
      }
    }
  }

  lemma {:induction false} JumpSame(m: Machine, fs: Module, gs: Module, name: string, target: BlockId,
                                    args: seq<ValueId>, env: Env, vars: Vars, t: Trace, fuel: nat)
    requires SameModule(fs, gs) && name in fs
    ensures Jump(m, gs, name, target, args, env, vars, t, fuel) == Jump(m, fs, name, target, args, env, vars, t, fuel)
    decreases fuel, 2
  {
    hide RunBlock, FindBlock;
    var b, vals := FindBlock(fs[name].blocks, target), Reads(env, args);
    assert SameCode(fs[name], gs[name]);
    if b.Some? && vals.Some? && |b.value.params| == |args| && fuel > 0 {
      BlockSame(m, fs, gs, name, b.value, Bind(env, b.value.params, vals.value), vars, t, fuel - 1);
    }
  }

  lemma {:induction false} BlockSame(m: Machine, fs: Module, gs: Module, name: string, b: Block, env: Env, vars: Vars,
                                     t: Trace, fuel: nat)
    requires SameModule(fs, gs) && name in fs
    ensures RunBlock(m, gs, name, b, env, vars, t, fuel) == RunBlock(m, fs, name, b, env, vars, t, fuel)
    decreases fuel, 4
  {
    hide Exec, Jump, SameCode;
    ExecSame(m, fs, gs, b.insts, env, vars, t + [Enter(name, b.id)], fuel);
    var s := Exec(m, fs, b.insts, env, vars, t + [Enter(name, b.id)], fuel);
    if s.Next? {
      match b.term {
        case Branch(target, args) => JumpSame(m, fs, gs, name, target, args, s.env, s.vars, s.trace, fuel);
        case CondBranch(c, thenBlock, thenArgs, elseBlock, elseArgs) =>
          if c in s.env {
            var u := s.trace + [Branched(name, b.id, s.env[c])];
            JumpSame(m, fs, gs, name, thenBlock, thenArgs, s.env, s.vars, u, fuel);
            JumpSame(m, fs, gs, name, elseBlock, elseArgs, s.env, s.vars, u, fuel);
          }
        case _ =>
      }
    }
  }

  lemma {:induction false} FunctionSame(m: Machine, fs: Module, gs: Module, name: string, args: seq<Val>, t: Trace,
                                        fuel: nat)
    requires SameModule(fs, gs) && name in fs
    ensures RunFunction(m, gs, name, args, t, fuel) == RunFunction(m, fs, name, args, t, fuel)
    decreases fuel, 5
  {
    hide RunBlock, FindBlock;
    assert SameCode(fs[name], gs[name]);
    var f := fs[name];
    var b := FindBlock(f.blocks, f.entry);
    if b.Some? && |f.params| == |args| {
      BlockSame(m, fs, gs, name, b.value, Bind(map[], f.params, args), map[], t + [Called(name)], fuel);
    }
  }
}
