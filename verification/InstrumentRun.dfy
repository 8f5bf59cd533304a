// The simulation: one lemma for each function of the semantics.
module InstrumentRun {
  import opened Text
  import opened Dmir
  import opened Instrument
  import opened InstrumentSound

  lemma AgreeWrite(env: Env, env': Env, d: ValueId, v: Val, lo: nat, hi: nat)
    requires Agree(env, env', lo, hi)
    ensures Agree(env[d := v], env'[d := v], lo, hi)
  {
  }

  lemma {:induction false} CallAgrees(m: Machine, fs: Module, out: Option<string>, inst: Inst,
                                      env: Env, env': Env, vars: Vars, t: Trace, fuel: nat, lo: nat, hi: nat)
    requires Instrumentable(fs, out) && inst.Call? && Agree(env, env', lo, hi)
    requires Reads(env, inst.args).Some? && Reads(env', inst.args) == Reads(env, inst.args)
    ensures FlowAgrees(fs, out, Step(m, fs, inst, env, vars, t, fuel),
                       Step(m, InstrumentAll(fs, out), inst, env', vars, Annotate(fs, out, t), fuel), lo, hi)
    decreases fuel, 0, 0
  {
    hide RunFunction, Instrumentable, Annotate, Erase, Outside, Agree, Instrumented, Skipped;
    var vals := Reads(env, inst.args).value;
    if inst.func !in fs {
      AgreeWrite(env, env', inst.dest, m.foreign(inst.func, vals, Outside(Erase(t))), lo, hi);
      EraseAnnotate(fs, out, t);
      NoteOutside(fs, out, t, Extern(inst.func, vals));
    } else if fuel > 0 {
      FunctionAgrees(m, fs, out, inst.func, vals, t, fuel - 1);
      var r := RunFunction(m, fs, inst.func, vals, t, fuel - 1);
      if r.Returned? {
        AgreeWrite(env, env', inst.dest, r.value, lo, hi);
      }
    }
  }

  lemma {:induction false} StepAgrees(m: Machine, fs: Module, out: Option<string>, inst: Inst,
                                      env: Env, env': Env, vars: Vars, t: Trace, fuel: nat, lo: nat, hi: nat)
    requires Instrumentable(fs, out) && Apart(Mentions(inst), lo, hi) && Agree(env, env', lo, hi)
    ensures FlowAgrees(fs, out, Step(m, fs, inst, env, vars, t, fuel),
                       Step(m, InstrumentAll(fs, out), inst, env', vars, Annotate(fs, out, t), fuel), lo, hi)
    decreases fuel, 0, 1
  {
    hide RunFunction, Instrumentable, Annotate, Erase, Outside, Agree, InstrumentAll, Apart;
    MentionsApart(inst, lo, hi);
    ReadsAgree(env, env', Uses(inst), lo, hi);
    if Reads(env, Uses(inst)).Some? {
      if inst.Out? {
        NoteOutside(fs, out, t, Printed(Reads(env, Uses(inst)).value[0]));
      } else if inst.Call? {
        CallAgrees(m, fs, out, inst, env, env', vars, t, fuel, lo, hi);
      } else if Def(inst).Some? {
        var v := Compute(m, inst, Reads(env, Uses(inst)).value, vars);
        if v.Some? {
          AgreeWrite(env, env', inst.dest, v.value, lo, hi);
        }
      }
    }
  }

  lemma MentionsApart(inst: Inst, lo: nat, hi: nat)
    requires Apart(Mentions(inst), lo, hi)
    ensures Apart(Uses(inst), lo, hi)
  {
    forall v | v in Uses(inst) ensures v in Mentions(inst) {
    }
  }

  // Events that are not about control flow are noted as they are.
  lemma NoteOutside(fs: Module, out: Option<string>, t: Trace, e: Event)
    requires e.Extern? || e.Printed?
    ensures Annotate(fs, out, t + [e]) == Annotate(fs, out, t) + [e]
  {
  }

  lemma {:induction false} ExecAgrees(m: Machine, fs: Module, out: Option<string>, insts: seq<Inst>,
                                      env: Env, env': Env, vars: Vars, t: Trace, fuel: nat, lo: nat, hi: nat)
    requires Instrumentable(fs, out) && Agree(env, env', lo, hi)
    requires forall k :: 0 <= k < |insts| ==> Apart(Mentions(insts[k]), lo, hi)
    ensures FlowAgrees(fs, out, Exec(m, fs, insts, env, vars, t, fuel),
                       Exec(m, InstrumentAll(fs, out), insts, env', vars, Annotate(fs, out, t), fuel), lo, hi)
    decreases fuel, 1, |insts|
  {
    hide Step, Apart, Agree, Instrumentable, Annotate, AnnotateResult;
    if insts != [] {
      StepAgrees(m, fs, out, insts[0], env, env', vars, t, fuel, lo, hi);
      var s := Step(m, fs, insts[0], env, vars, t, fuel);
      var s' := Step(m, InstrumentAll(fs, out), insts[0], env', vars, Annotate(fs, out, t), fuel);
      if s.Next? {
        ExecAgrees(m, fs, out, insts[1..], s.env, s'.env, s.vars, s.trace, fuel, lo, hi);
      }
    }
  }

  ghost predicate Within(name: string, f: Function, out: Option<string>, b: Block, at: nat) {
    !Skipped(name) ==>
      First(f) + PrologueIds(name, f, out) <= at && at + |Epilogue(name, b, 0)| <= Last(name, f, out)
  }

  // The block that a jump in the instrumented module lands on.
  lemma Landing(fs: Module, out: Option<string>, name: string, target: BlockId) returns (at: nat)
    requires Instrumentable(fs, out) && name in fs
    ensures name in InstrumentAll(fs, out)
    ensures var f := fs[name];
            var b, b' := FindBlock(f.blocks, target), FindBlock(InstrumentAll(fs, out)[name].blocks, target);
            if b.None? then b'.None? else
              && b' == Some(Inserted(name, f, out, b.value, at)) && b'.value.params == b.value.params
              && Within(name, f, out, b.value, at) && BlockApart(b.value, First(f), Last(name, f, out))
              && Apart(b.value.params, First(f), Last(name, f, out)) && FindBlock(f.blocks, b.value.id).Some?
  {
    var f := fs[name];
    assert ClashFree(name, f, out);
    hide Instrumented, PrologueIds, Epilogue, First, Last, Instrumentable, Apart;
    at := FindInserted(name, f, out, target);
  }

  lemma {:induction false} JumpAgrees(m: Machine, fs: Module, out: Option<string>, name: string, target: BlockId,
                                      args: seq<ValueId>, env: Env, env': Env, vars: Vars, t: Trace, fuel: nat)
    requires Instrumentable(fs, out) && name in fs
    requires var lo, hi := First(fs[name]), Last(name, fs[name], out); Agree(env, env', lo, hi) && Apart(args, lo, hi)
    ensures Jump(m, InstrumentAll(fs, out), name, target, args, env', vars, Annotate(fs, out, t), fuel)
         == AnnotateResult(fs, out, Jump(m, fs, name, target, args, env, vars, t, fuel))
    decreases fuel, 2
  {
    hide RunBlock, Apart, Agree, Annotate, First, Last, Instrumentable, InstrumentAll, BlockApart, Within, Inserted;
    hide FindBlock, Reads;
    var at := Landing(fs, out, name, target);
    var f := fs[name];
    var lo, hi := First(f), Last(name, f, out);
    ReadsAgree(env, env', args, lo, hi);
    var b, vals := FindBlock(f.blocks, target), Reads(env, args);
    if b.Some? && vals.Some? && |b.value.params| == |args| && fuel > 0 {
      BindAgree(env, env', b.value.params, vals.value, lo, hi);
      BlockAgrees(m, fs, out, name, b.value, at, Bind(env, b.value.params, vals.value),
                  Bind(env', b.value.params, vals.value), vars, t, fuel - 1);
    }
  }

  lemma {:induction false} LeaveAgrees(m: Machine, fs: Module, out: Option<string>, name: string, b: Block, b': Block,
                                       env: Env, env': Env, vars: Vars, t: Trace, fuel: nat)
    requires Instrumentable(fs, out) && name in fs && b'.id == b.id && b'.term == b.term
    requires var lo, hi := First(fs[name]), Last(name, fs[name], out);
             Agree(env, env', lo, hi) && Apart(TermUses(b.term), lo, hi)
    requires b.term.CondBranch? ==> b.term.cond in env
    ensures Leave(m, InstrumentAll(fs, out), name, b', env', vars,
                  Annotate(fs, out, t) + (if Skipped(name) then [] else LeaveNote(name, b, env)), fuel)
         == AnnotateResult(fs, out, Leave(m, fs, name, b, env, vars, t, fuel))
    decreases fuel, 3, 0
  {
    hide Jump, Annotate, First, Last, Instrumentable, Erase;
    var lo, hi := First(fs[name]), Last(name, fs[name], out);
    assert Annotate(fs, out, t) + [] == Annotate(fs, out, t);
    match b.term {
      case Branch(target, args) => JumpAgrees(m, fs, out, name, target, args, env, env', vars, t, fuel);
      case CondBranch(c, thenBlock, thenArgs, elseBlock, elseArgs) =>
        assert c in TermUses(b.term);
        assert Apart(thenArgs, lo, hi) && Apart(elseArgs, lo, hi) by { TermApart(b.term, lo, hi); }
        var e := Branched(name, b.id, env[c]);
        var t' := t + [e];
        AnnotatePush(fs, out, t, e);
        assert Annotate(fs, out, t')
            == Annotate(fs, out, t) + (if Skipped(name) then [] else LeaveNote(name, b, env)) + [e];
        if Truthy(env[c]) {
          JumpAgrees(m, fs, out, name, thenBlock, thenArgs, env, env', vars, t', fuel);
        } else {
          JumpAgrees(m, fs, out, name, elseBlock, elseArgs, env, env', vars, t', fuel);
        }
      case Exit(v) =>
        var e := Exited(name, b.id);
        AnnotatePush(fs, out, t, e);
        assert Annotate(fs, out, t + [e])
            == Annotate(fs, out, t) + (if Skipped(name) then [] else LeaveNote(name, b, env)) + [e];
        if v.Some? {
          assert v.value in TermUses(b.term);
        }
      case Unreachable =>
    }
  }

  lemma TermApart(t: Terminator, lo: nat, hi: nat)
    requires t.CondBranch? && Apart(TermUses(t), lo, hi)
    ensures Apart(t.thenArgs, lo, hi) && Apart(t.elseArgs, lo, hi)
  {
    forall v | v in t.thenArgs || v in t.elseArgs ensures v in TermUses(t) {
    }
  }

  // Entering a block: its prologue, if it is the entry.
  lemma EnterAgrees(m: Machine, fs: Module, out: Option<string>, name: string, b: Block,
                    env: Env, env': Env, vars: Vars, t: Trace, fuel: nat) returns (env2: Env)
    requires Instrumentable(fs, out) && name in fs && FindBlock(fs[name].blocks, b.id).Some?
    requires var lo, hi := First(fs[name]), Last(name, fs[name], out); Agree(env, env', lo, hi)
    ensures var f := fs[name];
            Agree(env, env2, First(f), Last(name, f, out))
            && Exec(m, InstrumentAll(fs, out),
                    if b.id == f.entry && !Skipped(name) then Prologue(name, out, ScanMax(f)) else [],
                    env', vars, Annotate(fs, out, t) + [Enter(name, b.id)], fuel)
               == Next(env2, vars, Annotate(fs, out, t + [Enter(name, b.id)]))
  {
    hide Annotate, ScanMax, Prologue, EpilogueIds;
    var f, e := fs[name], Enter(name, b.id);
    env2 := env';
    AnnotatePush(fs, out, t, e);
    if b.id == f.entry && !Skipped(name) {
      assert HIT_FUNC !in fs && SET_OUTPUT !in fs;
      env2 := PrologueRuns(m, InstrumentAll(fs, out), name, out, ScanMax(f), env', vars, Annotate(fs, out, t) + [e],
          fuel);
      PairLengths(ScanMax(f), name, out);
      PairLengths(0, name, out);
      NoteEnter(fs, out, t, name, b.id);
    }
  }

  lemma NoteEnter(fs: Module, out: Option<string>, t: Trace, name: string, id: BlockId)
    requires name in fs && !Skipped(name) && id == fs[name].entry
    ensures Annotate(fs, out, t) + Note(fs, out, Enter(name, id))
         == Annotate(fs, out, t) + [Enter(name, id)]
            + (if SetsOutput(name, out) then [Extern(SET_OUTPUT, [Str(out.value)])] else [])
            + [Extern(HIT_FUNC, [Str(name)])]
  {
    hide Annotate;
  }

  // Leaving a block: its epilogue, then its terminator.
  lemma {:induction false} ExitAgrees(m: Machine, fs: Module, out: Option<string>, name: string, b: Block, b': Block,
                                      at: nat, env: Env, env': Env, vars: Vars, t: Trace, fuel: nat)
    requires Instrumentable(fs, out) && name in fs && Within(name, fs[name], out, b, at)
    requires b'.id == b.id && b'.term == b.term
    requires var lo, hi := First(fs[name]), Last(name, fs[name], out);
             Agree(env, env', lo, hi) && Apart(TermUses(b.term), lo, hi)
    ensures
      var post := if Skipped(name) then [] else Epilogue(name, b, at);
      var s := Exec(m, InstrumentAll(fs, out), post, env', vars, Annotate(fs, out, t), fuel);
      (if s.Stop? then s.result else Leave(m, InstrumentAll(fs, out), name, b', s.env, s.vars, s.trace, fuel))
      == AnnotateResult(fs, out, Leave(m, fs, name, b, env, vars, t, fuel))
    decreases fuel, 3, 1
  {
    hide Annotate, ScanMax, PrologueIds, EpilogueIds, Jump;
    var lo, hi := First(fs[name]), Last(name, fs[name], out);
    if b.term.CondBranch? {
      assert b.term.cond in TermUses(b.term);
    }
    assert Annotate(fs, out, t) + [] == Annotate(fs, out, t);
    var env2 := env';
    if !Skipped(name) {
      assert HIT_BRANCH !in fs && FLUSH !in fs;
      EpilogueSame(name, b, b, at);
      EpilogueShort(name, b, at);
      assert Apart(TermUses(b.term), at, at + |Epilogue(name, b, at)|);
      env2 := EpilogueRuns(m, InstrumentAll(fs, out), name, b, at, env', vars, Annotate(fs, out, t), fuel);
    }
    if b.term.CondBranch? && b.term.cond !in env {
    } else {
      LeaveAgrees(m, fs, out, name, b, b', env, env2, vars, t, fuel);
    }
  }

  lemma EpilogueShort(name: string, b: Block, at: nat)
    ensures |Epilogue(name, b, at)| == 2 || Epilogue(name, b, at) == []
  {
  }

  lemma {:induction false} BlockAgrees(m: Machine, fs: Module, out: Option<string>, name: string, b: Block, at: nat,
                                       env: Env, env': Env, vars: Vars, t: Trace, fuel: nat)
    requires Instrumentable(fs, out) && name in fs && Within(name, fs[name], out, b, at)
    requires var lo, hi := First(fs[name]), Last(name, fs[name], out); Agree(env, env', lo, hi) && BlockApart(b, lo, hi)
    requires FindBlock(fs[name].blocks, b.id).Some?
    ensures RunBlock(m, InstrumentAll(fs, out), name, Inserted(name, fs[name], out, b, at), env', vars,
             Annotate(fs, out, t), fuel)
         == AnnotateResult(fs, out, RunBlock(m, fs, name, b, env, vars, t, fuel))
    decreases fuel, 4
  {
    hide Annotate, Leave, Prologue, Epilogue, Agree, Apart, Instrumentable, First, Last;
    var f, gs := fs[name], InstrumentAll(fs, out);
    var lo, hi := First(f), Last(name, f, out);
    var b' := Inserted(name, f, out, b, at);
    var pre := if b.id == f.entry && !Skipped(name) then Prologue(name, out, ScanMax(f)) else [];
    var post := if Skipped(name) then [] else Epilogue(name, b, at);
    assert b'.insts == pre + b.insts + post;
    var u := t + [Enter(name, b.id)];
    var env2 := EnterAgrees(m, fs, out, name, b, env, env', vars, t, fuel);
    ExecConcat(m, gs, pre + b.insts, post, env', vars, Annotate(fs, out, t) + [Enter(name, b.id)], fuel);
    ExecConcat(m, gs, pre, b.insts, env', vars, Annotate(fs, out, t) + [Enter(name, b.id)], fuel);
    ExecAgrees(m, fs, out, b.insts, env, env2, vars, u, fuel, lo, hi);
    var s := Exec(m, fs, b.insts, env, vars, u, fuel);
    var s' := Exec(m, gs, b.insts, env2, vars, Annotate(fs, out, u), fuel);
    if s.Next? {
      ExitAgrees(m, fs, out, name, b, b', at, s.env, s'.env, s.vars, s.trace, fuel);
    }
  }

  lemma {:induction false} FunctionAgrees(m: Machine, fs: Module, out: Option<string>, name: string,
                                          args: seq<Val>, t: Trace, fuel: nat)
    requires Instrumentable(fs, out) && name in fs
    ensures RunFunction(m, InstrumentAll(fs, out), name, args, Annotate(fs, out, t), fuel)
         == AnnotateResult(fs, out, RunFunction(m, fs, name, args, t, fuel))
    decreases fuel, 5
  {
    hide RunBlock, Annotate, Agree;
    var f := fs[name];
    var at := FindInserted(name, f, out, f.entry);
    var b := FindBlock(f.blocks, f.entry);
    if b.Some? && |f.params| == |args| {
      var lo, hi := First(f), Last(name, f, out);
      assert Agree(map[], map[], lo, hi) by { AgreeSelf(map[], lo, hi); }
      BindAgree(map[], map[], f.params, args, lo, hi);
      AnnotatePush(fs, out, t, Called(name));
      BlockAgrees(m, fs, out, name, b.value, at, Bind(map[], f.params, args), Bind(map[], f.params, args), map[],
                  t + [Called(name)], fuel);
    }
  }

  lemma AgreeSelf(env: Env, lo: nat, hi: nat)
    ensures Agree(env, env, lo, hi)
  {
  }
}
