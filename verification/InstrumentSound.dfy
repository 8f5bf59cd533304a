// An instrumented run is the original run with the profile calls noted in its
// trace: same values, same branches, same result, for every fuel.
module InstrumentSound {
  import opened Text
  import opened Dmir
  import opened Instrument

  // Traces

  lemma AnnotatePush(fs: Module, out: Option<string>, t: Trace, e: Event)
    ensures Annotate(fs, out, t + [e]) == Annotate(fs, out, t) + Note(fs, out, e)
  {
  }

  lemma ErasePush(t: Trace, e: Event)
    ensures Erase(t + [e]) == Erase(t) + if e.Extern? && IsRuntime(e.func) then [] else [e]
  {
  }

  lemma {:induction false} EraseConcat(t: Trace, u: Trace)
    ensures Erase(t + u) == Erase(t) + Erase(u)
    decreases |u|
  {
    if u == [] {
      assert t + u == t;
    } else {
      var n := |u| - 1;
      EraseConcat(t, u[..n]);
      assert t + u == (t + u[..n]) + [u[n]];
      ErasePush(t + u[..n], u[n]);
    }
  }

  lemma EraseNote(fs: Module, out: Option<string>, e: Event)
    ensures Erase(Note(fs, out, e)) == Erase([e])
  {
  }

  // Erasing the profile calls from a noted trace leaves the original one.
  lemma {:induction false} EraseAnnotate(fs: Module, out: Option<string>, t: Trace)
    ensures Erase(Annotate(fs, out, t)) == Erase(t)
  {
    if t != [] {
      var n := |t| - 1;
      EraseAnnotate(fs, out, t[..n]);
      EraseConcat(Annotate(fs, out, t[..n]), Note(fs, out, t[n]));
      EraseNote(fs, out, t[n]);
      EraseConcat(t[..n], [t[n]]);
      assert t == t[..n] + [t[n]];
    }
  }

  // Environments that agree on every id outside (lo, hi]

  ghost predicate Agree(env: Env, env': Env, lo: nat, hi: nat) {
    forall v: nat :: v <= lo || v > hi ==> (v in env <==> v in env') && (v in env ==> env[v] == env'[v])
  }

  ghost predicate FlowAgrees(fs: Module, out: Option<string>, s: Flow, s': Flow, lo: nat, hi: nat) {
    match s
    case Next(env, vars, t) =>
      s'.Next? && Agree(env, s'.env, lo, hi) && s'.vars == vars && s'.trace == Annotate(fs, out, t)
    case Stop(r) => s' == Stop(AnnotateResult(fs, out, r))
  }

  lemma ReadsAgree(env: Env, env': Env, ids: seq<ValueId>, lo: nat, hi: nat)
    requires Agree(env, env', lo, hi) && Apart(ids, lo, hi)
    ensures Reads(env, ids) == Reads(env', ids)
  {
    forall k | 0 <= k < |ids|
      ensures (ids[k] in env <==> ids[k] in env') && (ids[k] in env ==> env[ids[k]] == env'[ids[k]])
    {
      assert ids[k] in ids;
    }
    if Reads(env, ids).Some? {
      assert Reads(env', ids).Some?;
      assert Reads(env, ids).value == Reads(env', ids).value;
    }
  }

  lemma {:induction false} BindAgree(env: Env, env': Env, ids: seq<ValueId>, vals: seq<Val>, lo: nat, hi: nat)
    requires |ids| == |vals| && Agree(env, env', lo, hi)
    ensures Agree(Bind(env, ids, vals), Bind(env', ids, vals), lo, hi)
    decreases |ids|
  {
    if ids != [] {
      BindAgree(env, env', ids[..|ids| - 1], vals[..|ids| - 1], lo, hi);
    }
  }

  lemma {:induction false} ExecConcat(m: Machine, fs: Module, a: seq<Inst>, b: seq<Inst>, env: Env, vars: Vars,
                                      t: Trace, fuel: nat)
    ensures Exec(m, fs, a + b, env, vars, t, fuel)
         == var s := Exec(m, fs, a, env, vars, t, fuel);
            if s.Stop? then s else Exec(m, fs, b, s.env, s.vars, s.trace, fuel)
    decreases |a|
  {
    hide Step;
    if a == [] {
      assert a + b == b;
    } else {
      assert (a + b)[1..] == a[1..] + b;
      var s := Step(m, fs, a[0], env, vars, t, fuel);
      if s.Next? {
        ExecConcat(m, fs, a[1..], b, s.env, s.vars, s.trace, fuel);
      }
    }
  }

  // The arguments of an inserted call: the text just defined, and old values.
  lemma PairReads(env: Env, id: nat, text: string, more: seq<ValueId>)
    requires id + 1 !in more && Reads(env, more).Some?
    ensures Reads(env[id + 1 := Str(text)], [id + 1] + more) == Some([Str(text)] + Reads(env, more).value)
  {
    var env1, vals := env[id + 1 := Str(text)], [Str(text)] + Reads(env, more).value;
    assert Reads(env1, [id + 1] + more).Some?;
    assert Reads(env1, [id + 1] + more).value == vals;
  }

  // An inserted pair only writes its own two ids and notes its call.
  lemma PairRuns(m: Machine, fs: Module, id: nat, text: string, func: string, more: seq<ValueId>,
                 env: Env, vars: Vars, t: Trace, fuel: nat) returns (w: Val)
    requires func !in fs && id + 1 !in more && Reads(env, more).Some?
    ensures Exec(m, fs, Pair(id, text, func, more), env, vars, t, fuel)
         == Next(env[id + 1 := Str(text)][id + 2 := w], vars, t + [Extern(func, [Str(text)] + Reads(env, more).value)])
  {
    var env1 := env[id + 1 := Str(text)];
    var vals := [Str(text)] + Reads(env, more).value;
    PairReads(env, id, text, more);
    assert Reads(env, []).value == [];
    hide Reads, Erase, Outside, Exec;
    var call := Call(id + 2, func, [id + 1] + more);
    w := m.foreign(func, vals, Outside(Erase(t)));
    assert Step(m, fs, ConstStr(id + 1, text), env, vars, t, fuel) == Next(env1, vars, t);
    assert Step(m, fs, call, env1, vars, t, fuel) == Next(env1[id + 2 := w], vars, t + [Extern(func, vals)]);
    hide Step;
    ExecOne(m, fs, ConstStr(id + 1, text), env, vars, t, fuel);
    ExecOne(m, fs, call, env1, vars, t, fuel);
    assert Pair(id, text, func, more) == [ConstStr(id + 1, text)] + [call];
    ExecConcat(m, fs, [ConstStr(id + 1, text)], [call], env, vars, t, fuel);
  }

  lemma ExecOne(m: Machine, fs: Module, inst: Inst, env: Env, vars: Vars, t: Trace, fuel: nat)
    ensures Exec(m, fs, [inst], env, vars, t, fuel) == Step(m, fs, inst, env, vars, t, fuel)
  {
    hide Step;
  }

  lemma PrologueRuns(m: Machine, fs: Module, name: string, out: Option<string>, id: nat,
                     env: Env, vars: Vars, t: Trace, fuel: nat) returns (env': Env)
    requires HIT_FUNC !in fs && SET_OUTPUT !in fs
    ensures Exec(m, fs, Prologue(name, out, id), env, vars, t, fuel)
         == Next(env', vars, t + (if SetsOutput(name, out) then [Extern(SET_OUTPUT, [Str(out.value)])] else [])
                               + [Extern(HIT_FUNC, [Str(name)])])
    ensures Agree(env, env', id, id + |Prologue(name, out, id)|)
  {
    hide Exec, Pair;
    assert t + [] == t;
    assert forall e: Env, x: Val :: [x] + Reads(e, []).value == [x];
    var at, e1, t1 := id, env, t;
    if SetsOutput(name, out) {
      var w := PairRuns(m, fs, id, out.value, SET_OUTPUT, [], env, vars, t, fuel);
      at, e1 := id + 2, env[id + 1 := Str(out.value)][id + 2 := w];
      t1 := t + [Extern(SET_OUTPUT, [Str(out.value)])];
      ExecConcat(m, fs, Pair(id, out.value, SET_OUTPUT, []), Pair(id + 2, name, HIT_FUNC, []), env, vars, t, fuel);
    }
    var w := PairRuns(m, fs, at, name, HIT_FUNC, [], e1, vars, t1, fuel);
    env' := e1[at + 1 := Str(name)][at + 2 := w];
    PairLengths(id, name, out);
  }

  lemma PairLengths(id: nat, name: string, out: Option<string>)
    ensures |Prologue(name, out, id)| == if SetsOutput(name, out) then 4 else 2
  {
  }

  // What the epilogue of a block notes before the block is left.
  function LeaveNote(name: string, b: Block, env: Env): Trace {
    match b.term
    case CondBranch(c, _, _, _, _) =>
      if c in env then [Extern(HIT_BRANCH, [Str(BranchName(name, b.id)), env[c]])] else []
    case Exit(_) => if name == "main" then [Extern(FLUSH, [Str("")])] else []
    case _ => []
  }

  lemma EpilogueRuns(m: Machine, fs: Module, name: string, b: Block, id: nat,
                     env: Env, vars: Vars, t: Trace, fuel: nat) returns (env': Env)
    requires HIT_BRANCH !in fs && FLUSH !in fs && Apart(TermUses(b.term), id, id + |Epilogue(name, b, id)|)
    ensures Agree(env, env', id, id + |Epilogue(name, b, id)|)
    ensures Exec(m, fs, Epilogue(name, b, id), env, vars, t, fuel)
         == if b.term.CondBranch? && b.term.cond !in env then Stop(Stuck(t))
            else Next(env', vars, t + LeaveNote(name, b, env))
  {
    env' := env;
    assert t + [] == t;
    match b.term {
      case CondBranch(c, _, _, _, _) =>
        assert c in TermUses(b.term);
        var text := BranchName(name, b.id);
        if c in env {
          assert [Str(text)] + Reads(env, [c]).value == [Str(text), env[c]];
          var w := PairRuns(m, fs, id, text, HIT_BRANCH, [c], env, vars, t, fuel);
          env' := env[id + 1 := Str(text)][id + 2 := w];
        } else {
          BranchSticks(m, fs, text, c, id, env, vars, t, fuel);
        }
      case Exit(_) =>
        if name == "main" {
          assert [Str("")] + Reads(env, []).value == [Str("")];
          var w := PairRuns(m, fs, id, "", FLUSH, [], env, vars, t, fuel);
          env' := env[id + 1 := Str("")][id + 2 := w];
        }
      case _ =>
    }
  }

  lemma BranchSticks(m: Machine, fs: Module, text: string, c: ValueId, id: nat, env: Env, vars: Vars, t: Trace,
                     fuel: nat)
    requires c !in env && c != id + 1
    ensures Exec(m, fs, Pair(id, text, HIT_BRANCH, [c]), env, vars, t, fuel) == Stop(Stuck(t))
  {
    var p := Pair(id, text, HIT_BRANCH, [c]);
    var env1 := env[id + 1 := Str(text)];
    assert Reads(env, []).value == [];
    assert Step(m, fs, p[0], env, vars, t, fuel) == Next(env1, vars, t);
    assert [id + 1] + [c] == [id + 1, c] && [id + 1, c][1] !in env1;
    assert p[1..] == [Call(id + 2, HIT_BRANCH, [id + 1] + [c])];
    ExecOne(m, fs, p[1], env1, vars, t, fuel);
  }

  // Finding a block of the instrumented function

  lemma {:induction false} EpilogueIdsSame(name: string, a: seq<Block>, b: seq<Block>)
    requires |a| == |b| && forall k :: 0 <= k < |a| ==> a[k].id == b[k].id && a[k].term == b[k].term
    ensures EpilogueIds(name, a) == EpilogueIds(name, b)
    decreases |a|
  {
    if a != [] {
      EpilogueIdsSame(name, a[..|a| - 1], b[..|b| - 1]);
    }
  }

  lemma {:induction false} EpilogueIdsUpTo(name: string, blocks: seq<Block>, k: nat)
    requires k < |blocks|
    ensures EpilogueIds(name, blocks[..k]) + |Epilogue(name, blocks[k], 0)| <= EpilogueIds(name, blocks)
    decreases |blocks|
  {
    var n := |blocks| - 1;
    if k < n {
      EpilogueIdsUpTo(name, blocks[..n], k);
      assert blocks[..n][..k] == blocks[..k];
    }
  }

  // The block that an instrumented function holds in the place of `b`: its
  // epilogue takes ids from `at` on.
  function Inserted(name: string, f: Function, out: Option<string>, b: Block, at: nat): Block {
    if Skipped(name) then b
    else
      b.(insts := (if b.id == f.entry then Prologue(name, out, ScanMax(f)) else [])
                  + b.insts + Epilogue(name, b, at))
  }

  function Shape(name: string, f: Function, out: Option<string>): Function {
    if Skipped(name) then f else Instrumented(name, f, out)
  }

  lemma IndexSame(a: seq<Block>, b: seq<Block>, id: BlockId)
    requires |a| == |b| && forall k :: 0 <= k < |a| ==> a[k].id == b[k].id
    ensures IndexOf(a, id) == IndexOf(b, id)
  {
  }

  lemma InsertedAt(name: string, f: Function, out: Option<string>, k: nat) returns (at: nat)
    requires k < |f.blocks| && !Skipped(name) && IndexOf(f.blocks, f.blocks[k].id) == k
    ensures Instrumented(name, f, out).blocks[k] == Inserted(name, f, out, f.blocks[k], at)
    ensures First(f) + PrologueIds(name, f, out) <= at
         && at + |Epilogue(name, f.blocks[k], 0)| <= Last(name, f, out)
  {
    hide Epilogue, Prologue, ScanMax, Skipped, EpilogueIds, PrologueIds;
    var b := f.blocks[k];
    var mid := AddPrologue(f.blocks, f.entry, Prologue(name, out, ScanMax(f)));
    at := ScanMax(f) + PrologueIds(name, f, out) + EpilogueIds(name, mid[..k]);
    EpilogueIdsSame(name, mid[..k], f.blocks[..k]);
    EpilogueIdsUpTo(name, f.blocks, k);
    EpilogueSame(name, mid[k], b, at);
    assert [] + b.insts == b.insts;
  }

  lemma FindInserted(name: string, f: Function, out: Option<string>, id: BlockId) returns (at: nat)
    ensures FindBlock(f.blocks, id).None? <==> FindBlock(Shape(name, f, out).blocks, id).None?
    ensures FindBlock(f.blocks, id).Some? ==>
      var b := FindBlock(f.blocks, id).value;
      && FindBlock(Shape(name, f, out).blocks, id) == Some(Inserted(name, f, out, b, at))
      && (!Skipped(name) ==>
           First(f) + PrologueIds(name, f, out) <= at && at + |Epilogue(name, b, 0)| <= Last(name, f, out))
  {
    at := 0;
    if !Skipped(name) {
      IdsKept(name, f, out);
      IndexSame(f.blocks, Instrumented(name, f, out).blocks, id);
      hide Instrumented, Inserted, Last, Epilogue, PrologueIds, Skipped;
      var k := IndexOf(f.blocks, id);
      if k < |f.blocks| {
        at := InsertedAt(name, f, out, k);
      }
    }
  }

  lemma IdsKept(name: string, f: Function, out: Option<string>)
    ensures var g := Instrumented(name, f, out).blocks;
            |g| == |f.blocks| && forall k :: 0 <= k < |g| ==> g[k].id == f.blocks[k].id
  {
    hide Epilogue, Prologue, EpilogueIds;
  }

  lemma EpilogueSame(name: string, a: Block, b: Block, id: nat)
    requires a.id == b.id && a.term == b.term
    ensures Epilogue(name, a, id) == Epilogue(name, b, id) && |Epilogue(name, b, id)| == |Epilogue(name, b, 0)|
  {
  }
}
