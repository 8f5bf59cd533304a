// A function's counter is the number of its calls and of the jumps back to its
// entry block.
module ProfileCalls {
  import opened Text
  import opened Dmir
  import opened Instrument
  import opened Profile

  function CallsIn(t: Trace, name: string): nat {
    if t == [] then 0 else CallsIn(t[..|t| - 1], name) + if t[|t| - 1] == Called(name) then 1 else 0
  }

  predicate Targets(term: Terminator, id: BlockId) {
    match term
    case Branch(target, _) => target == id
    case CondBranch(_, thenBlock, _, elseBlock, _) => thenBlock == id || elseBlock == id
    case _ => false
  }

  // No block of the function branches to its entry.
  ghost predicate NoWayBack(f: Function) {
    forall k :: 0 <= k < |f.blocks| ==> !Targets(f.blocks[k].term, f.entry)
  }

  predicate JustCalled(t: Trace, name: string) { t != [] && t[|t| - 1] == Called(name) }

  // Entries that no call leads to: those of branches taken back to the entry.
  function JumpsBack(t: Trace, name: string, entry: BlockId): nat {
    if t == [] then 0 else
    var n := |t| - 1;
    JumpsBack(t[..n], name, entry) + if t[n] == Enter(name, entry) && !JustCalled(t[..n], name) then 1 else 0
  }

  // Calls of a function that have not yet entered it.
  function Open(fs: Module, name: string, t: Trace): int
    requires name in fs
  {
    var entry := fs[name].entry;
    CallsIn(t, name) + JumpsBack(t, name, entry) - Entries(t, name, entry)
  }

  lemma Push(fs: Module, name: string, t: Trace, e: Event)
    requires name in fs
    ensures JustCalled(t + [e], name) <==> e == Called(name)
    ensures Open(fs, name, t + [e])
         == Open(fs, name, t) + (if e == Called(name) then 1 else 0)
            - (if Enters(fs, e, name) && JustCalled(t, name) then 1 else 0)
    ensures JumpsBack(t + [e], name, fs[name].entry)
         == JumpsBack(t, name, fs[name].entry) + if Enters(fs, e, name) && !JustCalled(t, name) then 1 else 0
  {
    assert (t + [e])[..|t|] == t;
  }

  // Every call has entered the function.
  ghost predicate Settled(fs: Module, name: string, t: Trace)
    requires name in fs
  {
    Open(fs, name, t) == 0 && !JustCalled(t, name)
    && (NoWayBack(fs[name]) ==> JumpsBack(t, name, fs[name].entry) == 0)
  }

  // The call just made has not.
  ghost predicate Pending(fs: Module, name: string, t: Trace)
    requires name in fs
  {
    Open(fs, name, t) == 1 && JustCalled(t, name)
    && (NoWayBack(fs[name]) ==> JumpsBack(t, name, fs[name].entry) == 0)
  }

  lemma SettledPush(fs: Module, name: string, t: Trace, e: Event)
    requires name in fs && Settled(fs, name, t)
    requires e == Enter(name, fs[name].entry) ==> !NoWayBack(fs[name])
    ensures if e == Called(name) then Pending(fs, name, t + [e]) else Settled(fs, name, t + [e])
  {
    hide Open, JumpsBack, JustCalled, NoWayBack;
    Push(fs, name, t, e);
  }

  lemma PendingEnters(fs: Module, name: string, t: Trace)
    requires name in fs && Pending(fs, name, t)
    ensures Settled(fs, name, t + [Enter(name, fs[name].entry)])
  {
    hide Open, JumpsBack, JustCalled, NoWayBack;
    Push(fs, name, t, Enter(name, fs[name].entry));
  }

  lemma {:induction false} StepOpens(m: Machine, fs: Module, name: string, inst: Inst, env: Env, vars: Vars, t: Trace,
                                     fuel: nat)
    requires name in fs && Settled(fs, name, t)
    ensures Settled(fs, name, TraceOf(Step(m, fs, inst, env, vars, t, fuel)))
    decreases fuel, 0
  {
    hide RunFunction, Settled, Erase, Outside;
    var got := Reads(env, Uses(inst));
    if got.Some? {
      if inst.Out? {
        SettledPush(fs, name, t, Printed(got.value[0]));
      } else if inst.Call? && inst.func !in fs {
        SettledPush(fs, name, t, Extern(inst.func, got.value));
      } else if inst.Call? && fuel > 0 {
        FunctionOpens(m, fs, name, inst.func, got.value, t, fuel - 1);
      }
    }
  }

  lemma {:induction false} ExecOpens(m: Machine, fs: Module, name: string, insts: seq<Inst>, env: Env, vars: Vars,
                                     t: Trace, fuel: nat)
    requires name in fs && Settled(fs, name, t)
    ensures Settled(fs, name, TraceOf(Exec(m, fs, insts, env, vars, t, fuel)))
    decreases fuel, 1, |insts|
  {
    hide Step, NoWayBack, Settled, Pending;
    if insts != [] {
      StepOpens(m, fs, name, insts[0], env, vars, t, fuel);
      var s := Step(m, fs, insts[0], env, vars, t, fuel);
      if s.Next? {
        ExecOpens(m, fs, name, insts[1..], s.env, s.vars, s.trace, fuel);
      }
    }
  }

  lemma {:induction false} JumpOpens(m: Machine, fs: Module, name: string, func: string, target: BlockId,
                                     args: seq<ValueId>, env: Env, vars: Vars, t: Trace, fuel: nat)
    requires name in fs && func in fs && Settled(fs, name, t)
    requires func == name && target == fs[name].entry ==> !NoWayBack(fs[name])
    ensures Settled(fs, name, Jump(m, fs, func, target, args, env, vars, t, fuel).trace)
    decreases fuel, 2
  {
    hide RunBlock, NoWayBack, Settled, Pending;
    var b, vals := FindBlock(fs[func].blocks, target), Reads(env, args);
    if b.Some? && vals.Some? && |b.value.params| == |args| && fuel > 0 {
      BlockOpens(m, fs, name, func, b.value, Bind(env, b.value.params, vals.value), vars, t, fuel - 1);
    }
  }

  lemma {:induction false} LeaveOpens(m: Machine, fs: Module, name: string, func: string, b: Block, env: Env,
                                      vars: Vars, t: Trace, fuel: nat)
    requires name in fs && func in fs && b in fs[func].blocks && Settled(fs, name, t)
    ensures Settled(fs, name, Leave(m, fs, func, b, env, vars, t, fuel).trace)
    decreases fuel, 3
  {
    assert func == name && NoWayBack(fs[name]) ==> !Targets(b.term, fs[name].entry);
    hide Jump, NoWayBack, Settled, Pending;
    match b.term {
      case Branch(target, args) => JumpOpens(m, fs, name, func, target, args, env, vars, t, fuel);
      case CondBranch(c, thenBlock, thenArgs, elseBlock, elseArgs) =>
        if c in env {
          var u := t + [Branched(func, b.id, env[c])];
          SettledPush(fs, name, t, Branched(func, b.id, env[c]));
          if Truthy(env[c]) {
            JumpOpens(m, fs, name, func, thenBlock, thenArgs, env, vars, u, fuel);
          } else {
            JumpOpens(m, fs, name, func, elseBlock, elseArgs, env, vars, u, fuel);
          }
        }
      case Exit(_) => SettledPush(fs, name, t, Exited(func, b.id));
      case Unreachable =>
    }
  }

  lemma {:induction false} BlockOpens(m: Machine, fs: Module, name: string, func: string, b: Block, env: Env,
                                      vars: Vars, t: Trace, fuel: nat)
    requires name in fs && func in fs && b in fs[func].blocks
    requires (Settled(fs, name, t) && (func == name && b.id == fs[name].entry ==> !NoWayBack(fs[name])))
             || (Pending(fs, name, t) && func == name && b.id == fs[name].entry)
    ensures Settled(fs, name, RunBlock(m, fs, func, b, env, vars, t, fuel).trace)
    decreases fuel, 4
  {
    hide Exec, Leave, NoWayBack, Settled, Pending;
    var u := t + [Enter(func, b.id)];
    if Settled(fs, name, t) && (func == name && b.id == fs[name].entry ==> !NoWayBack(fs[name])) {
      SettledPush(fs, name, t, Enter(func, b.id));
    } else {
      PendingEnters(fs, name, t);
    }
    ExecOpens(m, fs, name, b.insts, env, vars, u, fuel);
    var s := Exec(m, fs, b.insts, env, vars, u, fuel);
    if s.Next? {
      LeaveOpens(m, fs, name, func, b, s.env, s.vars, s.trace, fuel);
    }
  }

  lemma {:induction false} FunctionOpens(m: Machine, fs: Module, name: string, func: string, args: seq<Val>, t: Trace,
                                         fuel: nat)
    requires name in fs && func in fs && Settled(fs, name, t)
    ensures Settled(fs, name, RunFunction(m, fs, func, args, t, fuel).trace)
    decreases fuel, 5
  {
    hide RunBlock, NoWayBack, Settled, Pending;
    var f := fs[func];
    var b := FindBlock(f.blocks, f.entry);
    if b.Some? && |f.params| == |args| {
      SettledPush(fs, name, t, Called(func));
      BlockOpens(m, fs, name, func, b.value, Bind(map[], f.params, args), map[], t + [Called(func)], fuel);
    }
  }

  // After any instrumented run the counter of a function is the number of its
  // calls in the original run and of the jumps back to its entry block there,
  // on top of what the original counts by its own calls. Where no branch leads
  // back to the entry there are no such jumps.
  lemma CallsAreExact(m: Machine, fs: Module, out: Option<string>, main: string, args: seq<Val>, fuel: nat,
                      name: string)
    requires Instrumentable(fs, out) && main in fs && name in fs && !Skipped(name)
    ensures var t := RunFunction(m, fs, main, args, [], fuel).trace;
            var p := Collect(NONE, RunFunction(m, InstrumentAll(fs, out), main, args, [], fuel).trace);
            Calls(p, name) == CallsIn(t, name) + JumpsBack(t, name, fs[name].entry) + Calls(Collect(NONE, t), name)
    ensures NoWayBack(fs[name]) ==>
      JumpsBack(RunFunction(m, fs, main, args, [], fuel).trace, name, fs[name].entry) == 0
  {
    assert Settled(fs, name, []);
    hide RunFunction, Instrumentable, NoWayBack, Collect, Skipped, BranchName, Branches, Entries, CallsIn, JumpsBack;
    FunctionOpens(m, fs, name, main, args, [], fuel);
    CountsAreExact(m, fs, out, main, args, fuel, name, 0);
  }
}
