// ProfileInstrumenter::instrument_module: every function gets fresh value ids
// and calls into the profile runtime.
module Instrument {
  import opened Text
  import opened Dmir
  import R = Radix

  function MaxOf(ids: seq<ValueId>): nat {
    if ids == [] then 0 else Max(MaxOf(ids[..|ids| - 1]), ids[|ids| - 1])
  }

  // inst_max_vid. Casts and prints fall under its catch-all arm.
  function InstMax(inst: Inst): nat {
    match inst
    case ConstInt(d, _) => d
    case ConstStr(d, _) => d
    case ConstBool(d, _) => d
    case LoadVar(d, _) => d
    case AssignVar(_, v) => v
    case BinOp(d, _, l, r) => Max(Max(d, l), r)
    case UnOp(d, _, v) => Max(d, v)
    case Call(d, _, args) => Max(d, MaxOf(args))
    case Return(v) => if v.Some? then v.value else 0
    case Select(d, c, t, e) => Max(Max(Max(d, c), t), e)
    case _ => 0
  }

  function InstsMax(insts: seq<Inst>): nat {
    if insts == [] then 0 else Max(InstsMax(insts[..|insts| - 1]), InstMax(insts[|insts| - 1]))
  }

  function BlocksMax(blocks: seq<Block>): nat {
    if blocks == [] then 0 else
    var b := blocks[|blocks| - 1];
    Max(BlocksMax(blocks[..|blocks| - 1]), Max(MaxOf(b.params), InstsMax(b.insts)))
  }

  // The largest id the instrumenter sees. Terminators are not looked at.
  function ScanMax(f: Function): nat { Max(MaxOf(f.params), BlocksMax(f.blocks)) }

  // What is inserted

  const PREFIX := "datara_rt_pgo_"

  predicate Skipped(name: string) { |PREFIX| <= |name| && name[..|PREFIX|] == PREFIX }

  function BranchName(name: string, block: BlockId): string { name + ['_'] + R.Dec(block) }

  // A string constant and a runtime call on it, under the next two ids.
  function Pair(id: nat, text: string, func: string, more: seq<ValueId>): seq<Inst> {
    [ConstStr(id + 1, text), Call(id + 2, func, [id + 1] + more)]
  }

  predicate SetsOutput(name: string, out: Option<string>) { name == "main" && out.Some? && out.value != "" }

  function Prologue(name: string, out: Option<string>, id: nat): seq<Inst> {
    if SetsOutput(name, out) then Pair(id, out.value, SET_OUTPUT, []) + Pair(id + 2, name, HIT_FUNC, [])
    else Pair(id, name, HIT_FUNC, [])
  }

  function Epilogue(name: string, b: Block, id: nat): seq<Inst> {
    match b.term
    case CondBranch(c, _, _, _, _) => Pair(id, BranchName(name, b.id), HIT_BRANCH, [c])
    case Exit(_) => if name == "main" then Pair(id, "", FLUSH, []) else []
    case _ => []
  }

  // Puts the prologue in front of the first block with the entry's id.
  function AddPrologue(blocks: seq<Block>, entry: BlockId, pre: seq<Inst>): (r: seq<Block>)
    ensures |r| == |blocks|
  {
    var k := IndexOf(blocks, entry);
    if k < |blocks| then blocks[k := blocks[k].(insts := pre + blocks[k].insts)] else blocks
  }

  // Appends an epilogue to every block; each takes the ids after the last.
  function AddEpilogues(name: string, blocks: seq<Block>, id: nat): seq<Block> {
    seq(|blocks|, k requires 0 <= k < |blocks| =>
      blocks[k].(insts := blocks[k].insts + Epilogue(name, blocks[k], id + EpilogueIds(name, blocks[..k]))))
  }

  // How many ids the epilogues of these blocks take.
  function EpilogueIds(name: string, blocks: seq<Block>): nat {
    if blocks == [] then 0
    else EpilogueIds(name, blocks[..|blocks| - 1]) + |Epilogue(name, blocks[|blocks| - 1], 0)|
  }

  function PrologueIds(name: string, f: Function, out: Option<string>): nat {
    if FindBlock(f.blocks, f.entry).Some? then |Prologue(name, out, 0)| else 0
  }

  function Instrumented(name: string, f: Function, out: Option<string>): Function {
    var id := ScanMax(f);
    f.(blocks := AddEpilogues(name, AddPrologue(f.blocks, f.entry, Prologue(name, out, id)),
                              id + PrologueIds(name, f, out)))
  }

  function InstrumentAll(fs: Module, out: Option<string>): Module {
    map name | name in fs :: if Skipped(name) then fs[name] else Instrumented(name, fs[name], out)
  }

  // The ids inserted into a function are those above First, up to Last.
  function First(f: Function): nat { ScanMax(f) }

  function Last(name: string, f: Function, out: Option<string>): nat {
    if Skipped(name) then ScanMax(f)
    else ScanMax(f) + PrologueIds(name, f, out) + EpilogueIds(name, f.blocks)
  }

  // The trace of an instrumented run, from the trace of the original.
  function Note(fs: Module, out: Option<string>, e: Event): Trace {
    match e
    case Enter(name, b) =>
      if name in fs && !Skipped(name) && b == fs[name].entry then
        [e] + (if SetsOutput(name, out) then [Extern(SET_OUTPUT, [Str(out.value)])] else [])
        + [Extern(HIT_FUNC, [Str(name)])]
      else [e]
    case Branched(name, b, c) =>
      if Skipped(name) then [e] else [Extern(HIT_BRANCH, [Str(BranchName(name, b)), c]), e]
    case Exited(name, _) =>
      if name == "main" then [Extern(FLUSH, [Str("")]), e] else [e]
    case _ => [e]
  }

  function Annotate(fs: Module, out: Option<string>, t: Trace): Trace {
    if t == [] then [] else Annotate(fs, out, t[..|t| - 1]) + Note(fs, out, t[|t| - 1])
  }

  function AnnotateResult(fs: Module, out: Option<string>, r: Result): Result {
    match r
    case Returned(v, t) => Returned(v, Annotate(fs, out, t))
    case Stuck(t) => Stuck(Annotate(fs, out, t))
    case OutOfFuel(t) => OutOfFuel(Annotate(fs, out, t))
  }

  // No id the function mentions is among those inserted into it.

  ghost predicate Apart(ids: seq<ValueId>, lo: nat, hi: nat) {
    forall v :: v in ids ==> v <= lo || v > hi
  }

  function Mentions(inst: Inst): seq<ValueId> { OptIds(Def(inst)) + Uses(inst) }

  ghost predicate BlockApart(b: Block, lo: nat, hi: nat) {
    && Apart(b.params, lo, hi)
    && (forall k :: 0 <= k < |b.insts| ==> Apart(Mentions(b.insts[k]), lo, hi))
    && Apart(TermUses(b.term), lo, hi)
  }

  ghost predicate ClashFree(name: string, f: Function, out: Option<string>) {
    var lo, hi := First(f), Last(name, f, out);
    Apart(f.params, lo, hi) && forall k :: 0 <= k < |f.blocks| ==> BlockApart(f.blocks[k], lo, hi)
  }

  // The runtime's names are not the module's, and no inserted id clashes.
  ghost predicate Instrumentable(fs: Module, out: Option<string>) {
    forall name :: name in fs ==> !IsRuntime(name) && ClashFree(name, fs[name], out)
  }
}
