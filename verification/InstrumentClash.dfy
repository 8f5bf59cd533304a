// Where instrumentation goes wrong: a function in SSA form whose casts define
// the ids right after the largest one scanned. The branch counter overwrites
// the id the branch is taken on, and the other block runs.
module InstrumentClash {
  import opened Text
  import opened Dmir
  import opened Instrument
  import opened InstrumentSound
  import opened InstrumentFacts

  const INSTS := [ConstBool(0, false), Cast(1, 0, "Bool", "Int"), Cast(2, 0, "Bool", "Int"), Cast(3, 0, "Bool", "Int")]
  const ENTRY := Block(0, [], INSTS, CondBranch(3, 1, [], 2, []))
  const TAKEN := Block(1, [], [], Exit(None))
  const OTHER := Block(2, [], [], Exit(Some(0)))
  const CASTS := Function([], 0, [ENTRY, TAKEN, OTHER])
  const PLAIN := Machine((op, l, r) => Unit, (op, v) => Unit, (f, t, v) => v, (func, args, t) => Unit)

  function AllFalse(env: Env): Env {
    env[0 := Flag(false)][1 := Flag(false)][2 := Flag(false)][3 := Flag(false)]
  }

  lemma InstsRun(fs: Module, env: Env, t: Trace, fuel: nat)
    ensures Exec(PLAIN, fs, INSTS, env, map[], t, fuel) == Next(AllFalse(env), map[], t)
  {
    var code := INSTS;
    var e0 := env[0 := Flag(false)];
    var e1 := e0[1 := Flag(false)];
    var e2 := e1[2 := Flag(false)];
    assert Step(PLAIN, fs, code[0], env, map[], t, fuel) == Next(e0, map[], t);
    assert Step(PLAIN, fs, code[1], e0, map[], t, fuel) == Next(e1, map[], t);
    assert Step(PLAIN, fs, code[2], e1, map[], t, fuel) == Next(e2, map[], t);
    assert Step(PLAIN, fs, code[3], e2, map[], t, fuel) == Next(AllFalse(env), map[], t);
    hide Step;
    assert code[1..][1..] == code[2..] && code[2..][1..] == code[3..] && code[3..][1..] == [];
    assert Exec(PLAIN, fs, code[3..], e2, map[], t, fuel) == Next(AllFalse(env), map[], t);
    assert Exec(PLAIN, fs, code[2..], e1, map[], t, fuel) == Next(AllFalse(env), map[], t);
  }

  lemma Blocks()
    ensures FindBlock(CASTS.blocks, 0) == Some(ENTRY)
    ensures FindBlock(CASTS.blocks, 1) == Some(TAKEN)
    ensures FindBlock(CASTS.blocks, 2) == Some(OTHER)
  {
    var b := CASTS.blocks;
    assert b[0].id == 0 && b[1].id == 1 && b[2].id == 2;
  }

  // Entering a function without parameters.
  lemma Entered(fs: Module, b: Block, fuel: nat)
    requires "f" in fs && fs["f"].params == [] && FindBlock(fs["f"].blocks, fs["f"].entry) == Some(b)
    ensures RunFunction(PLAIN, fs, "f", [], [], fuel) == RunBlock(PLAIN, fs, "f", b, map[], map[], [Called("f")], fuel)
  {
    hide RunBlock, FindBlock;
    var none: Trace := [];
    assert none + [Called("f")] == [Called("f")];
  }

  // A branch on a value in the environment, to a block without parameters.
  lemma Branches(fs: Module, b: Block, target: Block, env: Env, t: Trace, fuel: nat)
    requires "f" in fs && b.term.CondBranch? && b.term.cond in env && target.params == [] && fuel >= 1
    requires b.term.thenArgs == b.term.elseArgs == []
    requires FindBlock(fs["f"].blocks, if Truthy(env[b.term.cond]) then b.term.thenBlock else b.term.elseBlock)
             == Some(target)
    ensures Leave(PLAIN, fs, "f", b, env, map[], t, fuel)
         == RunBlock(PLAIN, fs, "f", target, env, map[], t + [Branched("f", b.id, env[b.term.cond])], fuel - 1)
  {
    hide RunBlock, FindBlock;
    assert Reads(env, []).value == [];
  }

  lemma Original(fuel: nat)
    requires fuel >= 1
    ensures var r := RunFunction(PLAIN, map["f" := CASTS], "f", [], [], fuel);
            r.Returned? && r.value == Flag(false)
  {
    hide Exec, INSTS, FindBlock, Leave;
    Blocks();
    var fs, env := map["f" := CASTS], AllFalse(map[]);
    var t := [Called("f")] + [Enter("f", 0)];
    Entered(fs, ENTRY, fuel);
    InstsRun(fs, map[], t, fuel);
    Branches(fs, ENTRY, OTHER, env, t, fuel);
    OtherRuns(fs, env, t + [Branched("f", 0, Flag(false))], fuel - 1);
  }

  lemma OtherRuns(fs: Module, env: Env, t: Trace, fuel: nat)
    requires "f" in fs && 0 in env
    ensures var r := RunBlock(PLAIN, fs, "f", OTHER, env, map[], t, fuel); r.Returned? && r.value == env[0]
  {
  }

  // The instrumented entry block.
  const CODE := Prologue("f", None, 0) + INSTS + Pair(2, BranchName("f", 0), HIT_BRANCH, [3])

  lemma Scan()
    ensures ScanMax(CASTS) == 0
  {
    assert INSTS[..4] == INSTS;
    assert InstsMax(INSTS[..1]) == 0 by { assert INSTS[..1][..0] == []; }
    assert InstsMax(INSTS[..2]) == 0 by { assert INSTS[..2][..1] == INSTS[..1]; }
    assert InstsMax(INSTS[..3]) == 0 by { assert INSTS[..3][..2] == INSTS[..2]; }
    var b := CASTS.blocks;
    assert BlocksMax(b[..1]) == 0 by { assert b[..1][..0] == []; }
    assert BlocksMax(b[..2]) == 0 by { assert b[..2][..1] == b[..1]; }
  }

  lemma InstrumentedBlocks()
    ensures var g := Instrumented("f", CASTS, None);
            g.params == [] && g.entry == 0
            && FindBlock(g.blocks, 0) == Some(ENTRY.(insts := CODE))
            && FindBlock(g.blocks, 1) == Some(TAKEN)
  {
    hide INSTS, Prologue, BranchName, HIT_BRANCH, Pair, ScanMax;
    Scan();
    Blocks();
    PairLengths(0, "f", None);
    var g := Instrumented("f", CASTS, None).blocks;
    var mid := AddPrologue(CASTS.blocks, 0, Prologue("f", None, 0));
    assert g[0].id == 0 && g[1].id == 1 && g[2].id == 2;
    assert EpilogueIds("f", mid[..0]) == 0;
    assert TAKEN.insts + [] == TAKEN.insts;
  }

  // The branch counter's string lands in id 3.
  lemma CounterRuns(fs: Module, env: Env, t: Trace, fuel: nat)
    requires HIT_BRANCH !in fs
    ensures var s := Exec(PLAIN, fs, Pair(2, BranchName("f", 0), HIT_BRANCH, [3]), env, map[], t, fuel);
            s.Next? && 3 in s.env && s.env[3].Str? && s.vars == map[]
  {
    hide BranchName;
    var p := Pair(2, BranchName("f", 0), HIT_BRANCH, [3]);
    var e := env[3 := Str(BranchName("f", 0))];
    assert Reads(env, []).value == [];
    assert Step(PLAIN, fs, p[0], env, map[], t, fuel) == Next(e, map[], t);
    assert [3] + [3] == [3, 3];
    var s := Step(PLAIN, fs, p[1], e, map[], t, fuel);
    assert Reads(e, [3, 3]).Some?;
    assert s.Next? && s.env == e[4 := Unit];
    assert p[1..] == [p[1]];
    ExecOne(PLAIN, fs, p[1], e, map[], t, fuel);
  }

  lemma CodeRuns(fs: Module, t: Trace, fuel: nat)
    requires HIT_BRANCH !in fs && HIT_FUNC !in fs && SET_OUTPUT !in fs
    ensures var s := Exec(PLAIN, fs, CODE, map[], map[], t, fuel);
            s.Next? && 3 in s.env && s.env[3].Str? && s.vars == map[]
  {
    hide INSTS, Prologue, Exec, HIT_BRANCH, HIT_FUNC, SET_OUTPUT, BranchName, Pair;
    var pre, post := Prologue("f", None, 0), Pair(2, BranchName("f", 0), HIT_BRANCH, [3]);
    var env := PrologueRuns(PLAIN, fs, "f", None, 0, map[], map[], t, fuel);
    var s := Exec(PLAIN, fs, pre, map[], map[], t, fuel);
    InstsRun(fs, env, s.trace, fuel);
    CounterRuns(fs, AllFalse(env), s.trace, fuel);
    ExecConcat(PLAIN, fs, pre + INSTS, post, map[], map[], t, fuel);
    ExecConcat(PLAIN, fs, pre, INSTS, map[], map[], t, fuel);
  }

  lemma InSsaForm()
    ensures SingleAssignment(CASTS)
  {
    var h, b := Header([], 0), CASTS.blocks;
    forall v: ValueId ensures Defs(CASTS, v) <= 1 {
      OneDef(v);
      assert InstDefs([], v) == 0 && Times([], v) == 0;
      assert b[..1] == [b[0]] && b[..2][..1] == b[..1] && b[..1][..0] == [];
      assert BlocksDefs(h, b[..1], v) == InstDefs(INSTS, v);
      assert BlocksDefs(h, b[..2], v) == InstDefs(INSTS, v);
      assert BlocksDefs(h, b, v) == InstDefs(INSTS, v);
    }
  }

  lemma OneDef(v: ValueId)
    ensures InstDefs(INSTS, v) <= 1
  {
    assert InstDefs(INSTS[..1], v) == if v == 0 then 1 else 0 by { assert INSTS[..1][..0] == []; }
    assert InstDefs(INSTS[..2], v) == if v <= 1 then 1 else 0 by { assert INSTS[..2][..1] == INSTS[..1]; }
    assert InstDefs(INSTS[..3], v) == if v <= 2 then 1 else 0 by { assert INSTS[..3][..2] == INSTS[..2]; }
  }

  lemma HasClash()
    ensures !ClashFree("f", CASTS, None)
  {
    hide INSTS, ScanMax, BranchName, Prologue;
    Scan();
    Blocks();
    PairLengths(0, "f", None);
    var b := CASTS.blocks;
    assert b[..1] == [b[0]] && b[..2][..1] == b[..1] && b[..1][..0] == [];
    assert EpilogueIds("f", b[..1]) == 2 && EpilogueIds("f", b[..2]) == 2 && EpilogueIds("f", b) == 2;
    assert 3 in TermUses(b[0].term);
  }

  // In SSA form, the original returns false, its instrumented form nothing.
  lemma CastsChangeMeaning(fuel: nat)
    requires fuel >= 1
    ensures var fs := map["f" := CASTS];
            var r, s := RunFunction(PLAIN, fs, "f", [], [], fuel),
                RunFunction(PLAIN, InstrumentAll(fs, None), "f", [], [], fuel);
            r.Returned? && r.value == Flag(false) && s.Returned? && s.value == Unit
    ensures SingleAssignment(CASTS) && !ClashFree("f", CASTS, None)
  {
    InSsaForm();
    HasClash();
    hide Exec, CODE, INSTS, FindBlock, Leave, ClashFree, SingleAssignment;
    Original(fuel);
    InstrumentedBlocks();
    var fs := map["f" := CASTS];
    var gs := InstrumentAll(fs, None);
    assert gs == map["f" := Instrumented("f", CASTS, None)];
    InstrumentedRuns(gs, fuel);
  }

  lemma InstrumentedRuns(gs: Module, fuel: nat)
    requires gs == map["f" := Instrumented("f", CASTS, None)] && fuel >= 1
    ensures var s := RunFunction(PLAIN, gs, "f", [], [], fuel); s.Returned? && s.value == Unit
  {
    hide Exec, CODE, INSTS, FindBlock, Leave, Instrumented;
    InstrumentedBlocks();
    var b := ENTRY.(insts := CODE);
    var t := [Called("f")] + [Enter("f", 0)];
    Entered(gs, b, fuel);
    CodeRuns(gs, t, fuel);
    var s := Exec(PLAIN, gs, CODE, map[], map[], t, fuel);
    Branches(gs, b, TAKEN, s.env, s.trace, fuel);
    TakenRuns(gs, s.env, s.trace + [Branched("f", 0, s.env[3])], fuel - 1);
  }

  lemma TakenRuns(fs: Module, env: Env, t: Trace, fuel: nat)
    requires "f" in fs
    ensures var r := RunBlock(PLAIN, fs, "f", TAKEN, env, map[], t, fuel); r.Returned? && r.value == Unit
  {
  }
}
