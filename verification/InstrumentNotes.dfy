// Every profile call that an instrumented run makes: which, with what arguments,
// and when.
module InstrumentNotes {
  import opened Text
  import opened Dmir
  import opened Instrument
  import opened InstrumentSound
  import opened InstrumentRun
  import R = Radix

  // The profile runtime's own functions, which are not instrumented.
  predicate OfRuntime(name: string) { "datara_rt_pgo_" <= name }

  lemma SkippedExactly(fs: Module, out: Option<string>, name: string)
    requires name in fs
    ensures Skipped(name) <==> OfRuntime(name)
    ensures InstrumentAll(fs, out)[name] == if OfRuntime(name) then fs[name] else Instrumented(name, fs[name], out)
  {
    hide Instrumented;
  }

  predicate SetsFile(name: string, out: Option<string>) { name == "main" && out.Some? && |out.value| > 0 }

  predicate IsEvent(t: Trace, k: int, e: Event) { 0 <= k < |t| && t[k] == e }

  // What stands around an event of an instrumented run. A function's entry is
  // followed by its hit, in main after setting the profile's file when there is
  // one; a branch comes after its hit with the value it is taken on; main is left
  // after a flush.
  ghost predicate NotedAt(fs: Module, out: Option<string>, t: Trace, k: nat)
    requires k < |t|
  {
    match t[k]
    case Enter(name, b) =>
      name in fs && b == fs[name].entry && !OfRuntime(name) ==>
        if SetsFile(name, out) then
          IsEvent(t, k + 1, Extern("datara_rt_pgo_set_output_file", [Str(out.value)]))
          && IsEvent(t, k + 2, Extern("datara_rt_pgo_hit_func", [Str(name)]))
        else IsEvent(t, k + 1, Extern("datara_rt_pgo_hit_func", [Str(name)]))
    case Branched(name, b, c) =>
      !OfRuntime(name) ==> IsEvent(t, k - 1, Extern("datara_rt_pgo_hit_branch", [Str(name + "_" + R.Dec(b)), c]))
    case Exited(name, b) => name == "main" ==> IsEvent(t, k - 1, Extern("datara_rt_pgo_flush", [Str("")]))
    case _ => true
  }

  ghost predicate AllNoted(fs: Module, out: Option<string>, t: Trace) {
    forall k :: 0 <= k < |t| ==> NotedAt(fs, out, t, k)
  }

  // How many calls of a foreign function a trace has.
  function Occurs(t: Trace, func: string): nat {
    if t == [] then 0
    else Occurs(t[..|t| - 1], func) + if t[|t| - 1].Extern? && t[|t| - 1].func == func then 1 else 0
  }

  // How many of them an event of the original run brings with it.
  function Brings(fs: Module, out: Option<string>, e: Event, func: string): nat {
    match e
    case Enter(name, b) =>
      if name in fs && b == fs[name].entry && !OfRuntime(name)
         && (func == "datara_rt_pgo_hit_func" || (func == "datara_rt_pgo_set_output_file" && SetsFile(name, out)))
      then 1 else 0
    case Branched(name, _, _) => if func == "datara_rt_pgo_hit_branch" && !OfRuntime(name) then 1 else 0
    case Exited(name, _) => if func == "datara_rt_pgo_flush" && name == "main" then 1 else 0
    case _ => 0
  }

  function Brought(fs: Module, out: Option<string>, t: Trace, func: string): nat {
    if t == [] then 0
    else Brought(fs, out, t[..|t| - 1], func) + Brings(fs, out, t[|t| - 1], func)
  }

  lemma NoteNoted(fs: Module, out: Option<string>, e: Event)
    ensures AllNoted(fs, out, Note(fs, out, e))
  {
    hide R.Dec;
    assert e.Branched? ==> e.func + ['_'] + R.Dec(e.block) == e.func + "_" + R.Dec(e.block);
  }

  lemma NotedJoin(fs: Module, out: Option<string>, a: Trace, b: Trace)
    requires AllNoted(fs, out, a) && AllNoted(fs, out, b)
    ensures AllNoted(fs, out, a + b)
  {
    hide OfRuntime, SetsFile;
    var c := a + b;
    forall k | 0 <= k < |c| ensures NotedAt(fs, out, c, k) {
      if k < |a| {
        assert NotedAt(fs, out, a, k) && c[k] == a[k];
      } else {
        assert NotedAt(fs, out, b, k - |a|) && c[k] == b[k - |a|];
      }
    }
  }

  lemma OccursPush(t: Trace, e: Event, func: string)
    ensures Occurs(t + [e], func) == Occurs(t, func) + if e.Extern? && e.func == func then 1 else 0
  {
    assert (t + [e])[..|t|] == t;
  }

  lemma NoteOccurs(fs: Module, out: Option<string>, t: Trace, e: Event, func: string)
    ensures Occurs(t + Note(fs, out, e), func)
         == Occurs(t, func) + (if e.Extern? && e.func == func then 1 else 0) + Brings(fs, out, e, func)
  {
    hide Occurs, R.Dec, BranchName;
    var n := Note(fs, out, e);
    OccursPush(t, n[0], func);
    if |n| == 2 {
      OccursPush(t + [n[0]], n[1], func);
      assert t + n == t + [n[0]] + [n[1]];
    } else if |n| == 3 {
      OccursPush(t + [n[0]], n[1], func);
      OccursPush(t + [n[0]] + [n[1]], n[2], func);
      assert t + n == t + [n[0]] + [n[1]] + [n[2]];
    }
  }

  lemma {:induction false} AnnotatedNotes(fs: Module, out: Option<string>, t: Trace, func: string)
    ensures AllNoted(fs, out, Annotate(fs, out, t))
    ensures Occurs(Annotate(fs, out, t), func) == Occurs(t, func) + Brought(fs, out, t, func)
  {
    hide AllNoted, Note, Brings;
    if t == [] {
      NothingNoted(fs, out, func);
    } else {
      var n := |t| - 1;
      AnnotatedNotes(fs, out, t[..n], func);
      NoteNoted(fs, out, t[n]);
      NotedJoin(fs, out, Annotate(fs, out, t[..n]), Note(fs, out, t[n]));
      NoteOccurs(fs, out, Annotate(fs, out, t[..n]), t[n], func);
    }
  }

  lemma NothingNoted(fs: Module, out: Option<string>, func: string)
    ensures AllNoted(fs, out, []) && Occurs([], func) == 0
  {
  }

  // In every instrumented run the profile calls stand exactly there, and no
  // others are added.
  lemma RunNotes(m: Machine, fs: Module, out: Option<string>, name: string, args: seq<Val>, fuel: nat, func: string)
    requires Instrumentable(fs, out) && name in fs
    ensures var t := RunFunction(m, fs, name, args, [], fuel).trace;
            var t' := RunFunction(m, InstrumentAll(fs, out), name, args, [], fuel).trace;
            AllNoted(fs, out, t') && Occurs(t', func) == Occurs(t, func) + Brought(fs, out, t, func)
  {
    hide RunFunction, Instrumentable, Instrumented, AllNoted, Brought, Occurs;
    assert Annotate(fs, out, []) == [];
    FunctionAgrees(m, fs, out, name, args, [], fuel);
    AnnotatedNotes(fs, out, RunFunction(m, fs, name, args, [], fuel).trace, func);
  }

  // Traces only grow

  lemma {:induction false} StepGrows(m: Machine, fs: Module, inst: Inst, env: Env, vars: Vars, t: Trace, fuel: nat)
    ensures t <= TraceOf(Step(m, fs, inst, env, vars, t, fuel))
    decreases fuel, 0
  {
    hide RunFunction, Erase, Outside;
    var got := Reads(env, Uses(inst));
    if got.Some? && inst.Call? && inst.func in fs && fuel > 0 {
      FunctionGrows(m, fs, inst.func, got.value, t, fuel - 1);
    }
  }

  lemma {:induction false} ExecGrows(m: Machine, fs: Module, insts: seq<Inst>, env: Env, vars: Vars, t: Trace,
                                     fuel: nat)
    ensures t <= TraceOf(Exec(m, fs, insts, env, vars, t, fuel))
    decreases fuel, 1, |insts|
  {
    hide Step;
    if insts != [] {
      StepGrows(m, fs, insts[0], env, vars, t, fuel);
      var s := Step(m, fs, insts[0], env, vars, t, fuel);
      if s.Next? {
        ExecGrows(m, fs, insts[1..], s.env, s.vars, s.trace, fuel);
      }
    }
  }

  lemma {:induction false} JumpGrows(m: Machine, fs: Module, name: string, target: BlockId, args: seq<ValueId>,
                                     env: Env, vars: Vars, t: Trace, fuel: nat)
    requires name in fs
    ensures t <= Jump(m, fs, name, target, args, env, vars, t, fuel).trace
    decreases fuel, 2
  {
    hide RunBlock;
    var b, vals := FindBlock(fs[name].blocks, target), Reads(env, args);
    if b.Some? && vals.Some? && |b.value.params| == |args| && fuel > 0 {
      BlockGrows(m, fs, name, b.value, Bind(env, b.value.params, vals.value), vars, t, fuel - 1);
    }
  }

  lemma {:induction false} LeaveGrows(m: Machine, fs: Module, name: string, b: Block, env: Env, vars: Vars, t: Trace,
                                      fuel: nat)
    requires name in fs
    ensures t <= Leave(m, fs, name, b, env, vars, t, fuel).trace
    decreases fuel, 3
  {
    hide Jump;
    match b.term {
      case Branch(target, args) => JumpGrows(m, fs, name, target, args, env, vars, t, fuel);
      case CondBranch(c, thenBlock, thenArgs, elseBlock, elseArgs) =>
        if c in env {
          var u := t + [Branched(name, b.id, env[c])];
          JumpGrows(m, fs, name, thenBlock, thenArgs, env, vars, u, fuel);
          JumpGrows(m, fs, name, elseBlock, elseArgs, env, vars, u, fuel);
        }
      case _ =>
    }
  }

  lemma {:induction false} BlockGrows(m: Machine, fs: Module, name: string, b: Block, env: Env, vars: Vars, t: Trace,
                                      fuel: nat)
    requires name in fs
    ensures t + [Enter(name, b.id)] <= RunBlock(m, fs, name, b, env, vars, t, fuel).trace
    decreases fuel, 4
  {
    hide Exec, Leave;
    var u := t + [Enter(name, b.id)];
    ExecGrows(m, fs, b.insts, env, vars, u, fuel);
    var s := Exec(m, fs, b.insts, env, vars, u, fuel);
    if s.Next? {
      LeaveGrows(m, fs, name, b, s.env, s.vars, s.trace, fuel);
    }
  }

  lemma {:induction false} FunctionGrows(m: Machine, fs: Module, name: string, args: seq<Val>, t: Trace, fuel: nat)
    requires name in fs
    ensures t <= RunFunction(m, fs, name, args, t, fuel).trace
    ensures FindBlock(fs[name].blocks, fs[name].entry).Some? && |fs[name].params| == |args| ==>
      t + [Called(name)] + [Enter(name, fs[name].entry)] <= RunFunction(m, fs, name, args, t, fuel).trace
    decreases fuel, 5
  {
    hide RunBlock;
    var f := fs[name];
    var b := FindBlock(f.blocks, f.entry);
    if b.Some? && |f.params| == |args| {
      BlockGrows(m, fs, name, b.value, Bind(map[], f.params, args), map[], t + [Called(name)], fuel);
    }
  }

  // A run of main that starts at all sets the profile's file before anything
  // else, and then counts itself.
  lemma MainStarts(m: Machine, fs: Module, path: string, args: seq<Val>, fuel: nat)
    requires Instrumentable(fs, Some(path)) && "main" in fs && path != ""
    requires FindBlock(fs["main"].blocks, fs["main"].entry).Some? && |fs["main"].params| == |args|
    ensures [Called("main"), Enter("main", fs["main"].entry), Extern("datara_rt_pgo_set_output_file", [Str(path)]),
             Extern("datara_rt_pgo_hit_func", [Str("main")])]
            <= RunFunction(m, InstrumentAll(fs, Some(path)), "main", args, [], fuel).trace
  {
    hide RunFunction, Instrumentable, Instrumented, FindBlock;
    var gs, entry := InstrumentAll(fs, Some(path)), fs["main"].entry;
    var t := RunFunction(m, gs, "main", args, [], fuel).trace;
    var at := FindInserted("main", fs["main"], Some(path), entry);
    SkippedExactly(fs, Some(path), "main");
    RunNotes(m, fs, Some(path), "main", args, fuel, "");
    FunctionGrows(m, gs, "main", args, [], fuel);
    HeadKept("main", fs["main"], path);
    assert gs["main"].params == fs["main"].params && gs["main"].entry == entry;
    assert [] + [Called("main")] + [Enter("main", entry)] == [Called("main"), Enter("main", entry)];
    assert t[1] == Enter("main", entry);
    assert NotedAt(fs, Some(path), t, 1);
  }

  lemma HeadKept(name: string, f: Function, path: string)
    ensures var g := Instrumented(name, f, Some(path)); g.params == f.params && g.entry == f.entry
  {
  }
}
