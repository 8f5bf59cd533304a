// instrument_module as the source runs it: an id counter that only grows, and
// block after block edited in place.
module Instrumenter {
  import opened Text
  import opened Dmir
  import opened Instrument

  method ScanIds(f: Function) returns (maxId: nat)
    ensures maxId == ScanMax(f)
  {
    maxId := 0;
    for i := 0 to |f.params|
      invariant maxId == MaxOf(f.params[..i])
    {
      maxId := Max(maxId, f.params[i]);
      assert f.params[..i + 1][..i] == f.params[..i];
    }
    assert f.params[..|f.params|] == f.params;
    ghost var base := maxId;
    for i := 0 to |f.blocks|
      invariant maxId == Max(base, BlocksMax(f.blocks[..i]))
    {
      var b := f.blocks[i];
      ghost var before := maxId;
      for j := 0 to |b.params|
        invariant maxId == Max(before, MaxOf(b.params[..j]))
      {
        maxId := Max(maxId, b.params[j]);
        assert b.params[..j + 1][..j] == b.params[..j];
      }
      assert b.params[..|b.params|] == b.params;
      for j := 0 to |b.insts|
        invariant maxId == Max(before, Max(MaxOf(b.params), InstsMax(b.insts[..j])))
      {
        maxId := Max(maxId, InstMax(b.insts[j]));
        assert b.insts[..j + 1][..j] == b.insts[..j];
      }
      assert b.insts[..|b.insts|] == b.insts;
      assert f.blocks[..i + 1][..i] == f.blocks[..i];
    }
    assert f.blocks[..|f.blocks|] == f.blocks;
  }

  method BuildPrologue(name: string, out: Option<string>, id: nat) returns (pre: seq<Inst>, maxId: nat)
    ensures pre == Prologue(name, out, id) && maxId == id + |Prologue(name, out, 0)|
  {
    maxId := id;
    pre := [];
    if name == "main" && out.Some? && out.value != "" {
      maxId := maxId + 2;
      pre := [ConstStr(maxId - 1, out.value), Call(maxId, SET_OUTPUT, [maxId - 1])];
    }
    maxId := maxId + 2;
    pre := pre + [ConstStr(maxId - 1, name), Call(maxId, HIT_FUNC, [maxId - 1])];
    PrologueShape(name, out, id, pre);
  }

  method BuildEpilogue(name: string, b: Block, id: nat) returns (more: seq<Inst>, maxId: nat)
    ensures more == Epilogue(name, b, id) && maxId == id + |Epilogue(name, b, 0)|
  {
    hide BranchName;
    maxId := id;
    more := [];
    match b.term {
      case CondBranch(c, _, _, _, _) =>
        maxId := maxId + 2;
        more := [ConstStr(maxId - 1, BranchName(name, b.id)), Call(maxId, HIT_BRANCH, [maxId - 1, c])];
      case Exit(_) =>
        if name == "main" {
          maxId := maxId + 2;
          more := [ConstStr(maxId - 1, ""), Call(maxId, FLUSH, [maxId - 1])];
        }
      case _ =>
    }
    EpilogueShape(name, b, id, more);
  }

  // The loop over the blocks, from the id the prologue left off at.
  method InsertEpilogues(name: string, mid: seq<Block>, base: nat) returns (blocks: seq<Block>)
    ensures blocks == AddEpilogues(name, mid, base)
  {
    hide Epilogue;
    blocks := mid;
    var maxId := base;
    ghost var goal := AddEpilogues(name, mid, base);
    for i := 0 to |blocks|
      invariant |blocks| == |mid|
      invariant maxId == base + EpilogueIds(name, mid[..i])
      invariant forall j :: 0 <= j < i ==> blocks[j] == goal[j]
      invariant forall j :: i <= j < |mid| ==> blocks[j] == mid[j]
    {
      var b := blocks[i];
      var more, next := BuildEpilogue(name, b, maxId);
      blocks := blocks[i := b.(insts := b.insts + more)];
      maxId := next;
      assert mid[..i + 1][..i] == mid[..i];
    }
    assert blocks == goal;
  }

  method InstrumentFunction(name: string, f: Function, out: Option<string>) returns (g: Function)
    ensures g == Instrumented(name, f, out)
  {
    hide ScanMax, Prologue, AddEpilogues;
    var blocks := f.blocks;
    var maxId := ScanIds(f);
    var k := IndexOf(blocks, f.entry);
    if k < |blocks| {
      var pre;
      pre, maxId := BuildPrologue(name, out, maxId);
      blocks := blocks[k := blocks[k].(insts := pre + blocks[k].insts)];
    }
    blocks := InsertEpilogues(name, blocks, maxId);
    g := f.(blocks := blocks);
  }

  lemma PrologueShape(name: string, out: Option<string>, id: nat, pre: seq<Inst>)
    requires pre == if SetsOutput(name, out)
                    then [ConstStr(id + 1, out.value), Call(id + 2, SET_OUTPUT, [id + 1])]
                         + [ConstStr(id + 3, name), Call(id + 4, HIT_FUNC, [id + 3])]
                    else [] + [ConstStr(id + 1, name), Call(id + 2, HIT_FUNC, [id + 1])]
    ensures pre == Prologue(name, out, id) && |pre| == |Prologue(name, out, 0)|
  {
    assert [id + 1] + [] == [id + 1] && [id + 3] + [] == [id + 3];
  }

  lemma EpilogueShape(name: string, b: Block, id: nat, more: seq<Inst>)
    requires match b.term
             case CondBranch(c, _, _, _, _) =>
               more == [ConstStr(id + 1, BranchName(name, b.id)), Call(id + 2, HIT_BRANCH, [id + 1, c])]
             case Exit(_) =>
               more == if name == "main" then [ConstStr(id + 1, ""), Call(id + 2, FLUSH, [id + 1])] else []
             case _ => more == []
    ensures more == Epilogue(name, b, id) && |more| == |Epilogue(name, b, 0)|
  {
    if b.term.CondBranch? {
      assert [id + 1] + [b.term.cond] == [id + 1, b.term.cond];
    }
    assert [id + 1] + [] == [id + 1];
  }

  type Signature = (seq<string>, string)

  const HIT_LOOP := "datara_rt_pgo_hit_loop"

  function WithRuntime(es: map<string, Signature>): map<string, Signature> {
    es[HIT_FUNC := (["Str"], "Unit")][HIT_BRANCH := (["Str", "Int"], "Unit")][HIT_LOOP := (["Str", "Int"], "Unit")]
      [SET_OUTPUT := (["Str"], "Unit")][FLUSH := (["Str"], "Unit")]
  }

  // Every call that instrumenting inserts is declared, with as many parameters as
  // it has arguments.
  lemma InsertedDeclared(name: string, out: Option<string>, b: Block, id: nat, es: map<string, Signature>, inst: Inst)
    requires inst in Prologue(name, out, id) + Epilogue(name, b, id) && inst.Call?
    ensures inst.func in WithRuntime(es) && |WithRuntime(es)[inst.func].0| == |inst.args|
  {
    hide BranchName;
  }

  // The declarations that are added, and no others.
  lemma RuntimeExactly(es: map<string, Signature>, func: string)
    ensures var strings, counts := (["Str"], "Unit"), (["Str", "Int"], "Unit");
            var after := WithRuntime(es);
            if func in {"datara_rt_pgo_hit_func", "datara_rt_pgo_set_output_file", "datara_rt_pgo_flush"}
            then func in after && after[func] == strings
            else if func in {"datara_rt_pgo_hit_branch", "datara_rt_pgo_hit_loop"}
            then func in after && after[func] == counts
            else (func in after <==> func in es) && (func in es ==> after[func] == es[func])
  {
  }

  class IrModule {
    var functions: Module
    var externs: map<string, Signature>

    constructor (fs: Module, es: map<string, Signature>)
      ensures functions == fs && externs == es
    {
      functions := fs;
      externs := es;
    }

    method DeclareRuntime()
      modifies `externs
      ensures externs == WithRuntime(old(externs))
    {
      externs := externs[HIT_FUNC := (["Str"], "Unit")];
      externs := externs[HIT_BRANCH := (["Str", "Int"], "Unit")];
      externs := externs[HIT_LOOP := (["Str", "Int"], "Unit")];
      externs := externs[SET_OUTPUT := (["Str"], "Unit")];
      externs := externs[FLUSH := (["Str"], "Unit")];
    }

    // The functions are visited in the order of their names; any order gives
    // the same module.
    method InstrumentModule(out: Option<string>)
      modifies this
      ensures functions == InstrumentAll(old(functions), out)
      ensures externs == WithRuntime(old(externs))
    {
      hide Instrumented, WithRuntime, Skipped;
      DeclareRuntime();
      var left := functions.Keys;
      while left != {}
        invariant externs == WithRuntime(old(externs))
        invariant functions.Keys == old(functions).Keys
        invariant left <= functions.Keys
        invariant forall name :: name in functions ==>
          functions[name] == if name in left then old(functions)[name] else InstrumentAll(old(functions), out)[name]
        decreases |left|
      {
        var name :| name in left;
        left := left - {name};
        if Skipped(name) {
          continue;
        }
        var g := InstrumentFunction(name, functions[name], out);
        functions := functions[name := g];
      }
    }
  }
}
