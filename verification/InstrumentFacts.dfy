// What instrumentation keeps, exactly when it keeps it, and where it fails.
module InstrumentFacts {
  import opened Text
  import opened Dmir
  import opened Instrument
  import opened InstrumentSound
  import opened InstrumentRun

  ghost predicate SameOutcome(r: Result, s: Result) {
    match r
    case Returned(v, t) => s.Returned? && s.value == v && Erase(s.trace) == Erase(t)
    case Stuck(t) => s.Stuck? && Erase(s.trace) == Erase(t)
    case OutOfFuel(t) => s.OutOfFuel? && Erase(s.trace) == Erase(t)
  }

  // With the profile calls erased, a run of the instrumented module is the run
  // of the original: for every function, arguments and fuel.
  lemma MeaningPreserved(m: Machine, fs: Module, out: Option<string>, name: string, args: seq<Val>, fuel: nat)
    requires Instrumentable(fs, out) && name in fs
    ensures SameOutcome(RunFunction(m, fs, name, args, [], fuel),
                        RunFunction(m, InstrumentAll(fs, out), name, args, [], fuel))
  {
    hide RunFunction, Instrumentable;
    assert Annotate(fs, out, []) == [];
    FunctionAgrees(m, fs, out, name, args, [], fuel);
    var r := RunFunction(m, fs, name, args, [], fuel);
    EraseAnnotate(fs, out, r.trace);
  }

  // How often a function defines an id

  function Times(ids: seq<ValueId>, v: ValueId): nat {
    if ids == [] then 0 else Times(ids[..|ids| - 1], v) + if ids[|ids| - 1] == v then 1 else 0
  }

  function InstDefs(insts: seq<Inst>, v: ValueId): nat {
    if insts == [] then 0
    else InstDefs(insts[..|insts| - 1], v) + if Def(insts[|insts| - 1]) == Some(v) then 1 else 0
  }

  // The entry block repeats the function's parameters; that is not a second
  // definition.
  datatype Header = Header(params: seq<ValueId>, entry: BlockId)

  function BlockDefs(h: Header, b: Block, v: ValueId): nat {
    (if b.id == h.entry && v in h.params then 0 else Times(b.params, v)) + InstDefs(b.insts, v)
  }

  function BlocksDefs(h: Header, blocks: seq<Block>, v: ValueId): nat {
    if blocks == [] then 0 else BlocksDefs(h, blocks[..|blocks| - 1], v) + BlockDefs(h, blocks[|blocks| - 1], v)
  }

  function Defs(f: Function, v: ValueId): nat {
    Times(f.params, v) + BlocksDefs(Header(f.params, f.entry), f.blocks, v)
  }

  function In(v: nat, lo: nat, hi: nat): nat { if lo < v <= hi then 1 else 0 }

  lemma {:induction false} InstDefsConcat(a: seq<Inst>, b: seq<Inst>, v: ValueId)
    ensures InstDefs(a + b, v) == InstDefs(a, v) + InstDefs(b, v)
    decreases |b|
  {
    if b == [] {
      assert a + b == a;
    } else {
      var n := |b| - 1;
      InstDefsConcat(a, b[..n], v);
      assert (a + b)[..|a| + n] == a + b[..n];
    }
  }

  lemma PairDefs(id: nat, text: string, func: string, more: seq<ValueId>, v: ValueId)
    ensures InstDefs(Pair(id, text, func, more), v) == In(v, id, id + 2)
  {
    var p := Pair(id, text, func, more);
    assert p[..1] == [p[0]] && [p[0]][..0] == [];
    assert InstDefs([p[0]], v) == if Def(p[0]) == Some(v) then 1 else 0;
  }

  lemma PrologueDefs(name: string, out: Option<string>, id: nat, v: ValueId)
    ensures |Prologue(name, out, id)| == |Prologue(name, out, 0)|
    ensures InstDefs(Prologue(name, out, id), v) == In(v, id, id + |Prologue(name, out, 0)|)
  {
    hide Pair, InstDefs;
    PairLengths(id, name, out);
    PairLengths(0, name, out);
    if SetsOutput(name, out) {
      InstDefsConcat(Pair(id, out.value, SET_OUTPUT, []), Pair(id + 2, name, HIT_FUNC, []), v);
      PairDefs(id, out.value, SET_OUTPUT, [], v);
      PairDefs(id + 2, name, HIT_FUNC, [], v);
    } else {
      PairDefs(id, name, HIT_FUNC, [], v);
    }
  }

  lemma EpilogueDefs(name: string, b: Block, id: nat, v: ValueId)
    ensures InstDefs(Epilogue(name, b, id), v) == In(v, id, id + |Epilogue(name, b, 0)|)
  {
    hide InstDefs;
    assert InstDefs([], v) == 0 by { NoInstDefs(v); }
    match b.term {
      case CondBranch(c, _, _, _, _) => PairDefs(id, BranchName(name, b.id), HIT_BRANCH, [c], v);
      case Exit(_) => PairDefs(id, "", FLUSH, [], v);
      case _ =>
    }
  }

  lemma NoInstDefs(v: ValueId)
    ensures InstDefs([], v) == 0
  {
  }

  // The epilogues define the ids after `id`, each once.
  ghost predicate EpiloguesDefine(h: Header, name: string, blocks: seq<Block>, id: nat, v: ValueId) {
    BlocksDefs(h, AddEpilogues(name, blocks, id), v)
    == BlocksDefs(h, blocks, v) + In(v, id, id + EpilogueIds(name, blocks))
  }

  lemma {:induction false} EpiloguesDefs(h: Header, name: string, blocks: seq<Block>, id: nat, v: ValueId)
    ensures EpiloguesDefine(h, name, blocks, id, v)
    decreases |blocks|
  {
    hide Epilogue, BlockDefs;
    if blocks != [] {
      var n, b := |blocks| - 1, blocks[|blocks| - 1];
      var at := id + EpilogueIds(name, blocks[..n]);
      EpiloguesDefs(h, name, blocks[..n], id, v);
      EpiloguesFront(name, blocks, id);
      EpilogueBlockDefs(h, name, b, at, v);
    }
  }

  lemma EpilogueBlockDefs(h: Header, name: string, b: Block, at: nat, v: ValueId)
    ensures BlockDefs(h, b.(insts := b.insts + Epilogue(name, b, at)), v)
         == BlockDefs(h, b, v) + In(v, at, at + |Epilogue(name, b, 0)|)
  {
    InstDefsConcat(b.insts, Epilogue(name, b, at), v);
    EpilogueDefs(name, b, at, v);
  }

  lemma EpiloguesFront(name: string, blocks: seq<Block>, id: nat)
    requires blocks != []
    ensures AddEpilogues(name, blocks, id)[..|blocks| - 1] == AddEpilogues(name, blocks[..|blocks| - 1], id)
  {
    hide Epilogue;
    var n := |blocks| - 1;
    assert forall k :: 0 <= k < n ==> blocks[..n][..k] == blocks[..k];
  }

  lemma {:induction false} BlocksDefsUpdate(h: Header, blocks: seq<Block>, k: nat, b: Block, v: ValueId)
    requires k < |blocks|
    ensures BlocksDefs(h, blocks[k := b], v) + BlockDefs(h, blocks[k], v)
             == BlocksDefs(h, blocks, v) + BlockDefs(h, b, v)
    decreases |blocks|
  {
    hide BlockDefs;
    var n := |blocks| - 1;
    if k < n {
      BlocksDefsUpdate(h, blocks[..n], k, b, v);
      assert blocks[k := b][..n] == blocks[..n][k := b];
    } else {
      assert blocks[k := b][..n] == blocks[..n];
    }
  }

  // Instrumenting adds exactly one definition for each id it inserts, and those
  // are the ids right after the largest one it scanned.
  lemma InsertedDefs(name: string, f: Function, out: Option<string>, v: ValueId)
    requires !Skipped(name)
    ensures Defs(Instrumented(name, f, out), v) == Defs(f, v) + In(v, First(f), Last(name, f, out))
  {
    hide ScanMax, Prologue, Epilogue, BlocksDefs, InstDefs, Times, EpilogueIds, AddEpilogues;
    var id, h := ScanMax(f), Header(f.params, f.entry);
    var pre := Prologue(name, out, id);
    var mid := AddPrologue(f.blocks, f.entry, pre);
    var k := IndexOf(f.blocks, f.entry);
    if k < |f.blocks| {
      var b := f.blocks[k];
      BlocksDefsUpdate(h, f.blocks, k, b.(insts := pre + b.insts), v);
      InstDefsConcat(pre, b.insts, v);
      PrologueDefs(name, out, id, v);
    }
    EpiloguesDefs(h, name, mid, id + PrologueIds(name, f, out), v);
    EpilogueIdsSame(name, mid, f.blocks);
  }

  ghost predicate SingleAssignment(f: Function) { forall v: ValueId :: Defs(f, v) <= 1 }

  // A function in SSA form stays in SSA form exactly when it defines none of
  // the ids that will be inserted.
  lemma SingleAssignmentKept(name: string, f: Function, out: Option<string>)
    requires !Skipped(name) && SingleAssignment(f)
    ensures SingleAssignment(Instrumented(name, f, out))
       <==> forall v: ValueId :: First(f) < v <= Last(name, f, out) ==> Defs(f, v) == 0
  {
    hide Defs, Instrumented, Last, ScanMax;
    forall v: ValueId
      ensures Defs(Instrumented(name, f, out), v) == Defs(f, v) + In(v, First(f), Last(name, f, out))
    {
      InsertedDefs(name, f, out, v);
    }
    if SingleAssignment(Instrumented(name, f, out)) {
      forall v: ValueId | First(f) < v <= Last(name, f, out) ensures Defs(f, v) == 0 {
        assert Defs(Instrumented(name, f, out), v) <= 1;
      }
    }
  }

  // Which functions are free of clashes

  ghost predicate Mentioned(f: Function, v: ValueId) {
    v in f.params || exists k :: 0 <= k < |f.blocks| && BlockMentions(f.blocks[k], v)
  }

  ghost predicate BlockMentions(b: Block, v: ValueId) {
    v in b.params || v in TermUses(b.term) || exists j :: 0 <= j < |b.insts| && v in Mentions(b.insts[j])
  }

  lemma BlockApartExactly(b: Block, lo: nat, hi: nat)
    ensures BlockApart(b, lo, hi) <==> forall v: ValueId :: BlockMentions(b, v) ==> v <= lo || v > hi
  {
    hide Mentions, TermUses;
    if forall v: ValueId :: BlockMentions(b, v) ==> v <= lo || v > hi {
      forall v | v in b.params || v in TermUses(b.term) ensures v <= lo || v > hi {
        assert BlockMentions(b, v);
      }
      forall j, v | 0 <= j < |b.insts| && v in Mentions(b.insts[j]) ensures v <= lo || v > hi {
        assert BlockMentions(b, v);
      }
    }
  }

  lemma ClashFreeMentions(name: string, f: Function, out: Option<string>)
    ensures ClashFree(name, f, out)
       <==> forall v: ValueId :: Mentioned(f, v) ==> v <= First(f) || v > Last(name, f, out)
  {
    hide Last, ScanMax, BlockApart, BlockMentions;
    var lo, hi := First(f), Last(name, f, out);
    forall k | 0 <= k < |f.blocks|
      ensures BlockApart(f.blocks[k], lo, hi)
         <==> forall v: ValueId :: BlockMentions(f.blocks[k], v) ==> v <= lo || v > hi
    {
      BlockApartExactly(f.blocks[k], lo, hi);
    }
    if forall v: ValueId :: Mentioned(f, v) ==> v <= lo || v > hi {
      assert forall v :: v in f.params ==> Mentioned(f, v);
      forall k | 0 <= k < |f.blocks| ensures BlockApart(f.blocks[k], lo, hi) {
        assert forall v: ValueId :: BlockMentions(f.blocks[k], v) ==> Mentioned(f, v);
      }
    }
  }

  // A function is free of clashes exactly when instrumenting it gives none of
  // the ids it mentions a new definition.
  lemma ClashFreeExactly(name: string, f: Function, out: Option<string>)
    requires !Skipped(name)
    ensures ClashFree(name, f, out)
       <==> forall v: ValueId :: Mentioned(f, v) ==> Defs(Instrumented(name, f, out), v) == Defs(f, v)
  {
    hide Defs, Instrumented, Last, ScanMax, ClashFree, Mentioned;
    forall v: ValueId
      ensures Defs(Instrumented(name, f, out), v) == Defs(f, v) + In(v, First(f), Last(name, f, out))
    {
      InsertedDefs(name, f, out, v);
    }
    ClashFreeMentions(name, f, out);
  }

  lemma {:induction false} MaxOfBounds(ids: seq<ValueId>)
    ensures forall v :: v in ids ==> v <= MaxOf(ids)
  {
    if ids != [] {
      var n := |ids| - 1;
      MaxOfBounds(ids[..n]);
      assert ids == ids[..n] + [ids[n]];
    }
  }

  predicate Counted(inst: Inst) { !inst.Cast? && !inst.Out? }

  lemma InstMaxBounds(inst: Inst)
    requires Counted(inst)
    ensures forall v :: v in Mentions(inst) ==> v <= InstMax(inst)
  {
    if inst.Call? {
      MaxOfBounds(inst.args);
    }
  }

  lemma {:induction false} InstsMaxBounds(insts: seq<Inst>, j: nat)
    requires j < |insts|
    ensures InstMax(insts[j]) <= InstsMax(insts)
    decreases |insts|
  {
    if j < |insts| - 1 {
      InstsMaxBounds(insts[..|insts| - 1], j);
    }
  }

  lemma {:induction false} BlocksMaxBounds(blocks: seq<Block>, k: nat)
    requires k < |blocks|
    ensures MaxOf(blocks[k].params) <= BlocksMax(blocks) && InstsMax(blocks[k].insts) <= BlocksMax(blocks)
    decreases |blocks|
  {
    if k < |blocks| - 1 {
      BlocksMaxBounds(blocks[..|blocks| - 1], k);
    }
  }

  // Parameters and counted instructions mention nothing above the scan.
  ghost predicate Scanned(f: Function, v: ValueId) {
    v in f.params || exists k :: 0 <= k < |f.blocks| && ScannedIn(f.blocks[k], v)
  }

  ghost predicate ScannedIn(b: Block, v: ValueId) {
    v in b.params || exists j :: 0 <= j < |b.insts| && Counted(b.insts[j]) && v in Mentions(b.insts[j])
  }

  lemma ScannedBounds(f: Function, v: ValueId)
    requires Scanned(f, v)
    ensures v <= ScanMax(f)
  {
    hide Mentions;
    MaxOfBounds(f.params);
    if v !in f.params {
      var k :| 0 <= k < |f.blocks| && ScannedIn(f.blocks[k], v);
      var b := f.blocks[k];
      MaxOfBounds(b.params);
      BlocksMaxBounds(f.blocks, k);
      if v !in b.params {
        var j :| 0 <= j < |b.insts| && Counted(b.insts[j]) && v in Mentions(b.insts[j]);
        InstMaxBounds(b.insts[j]);
        InstsMaxBounds(b.insts, j);
      }
    }
  }

  // The scan finds the largest id that parameters and counted instructions
  // mention, 0 without one.
  lemma ScanExactly(f: Function)
    ensures forall v: ValueId :: Scanned(f, v) ==> v <= ScanMax(f)
    ensures ScanMax(f) == 0 || Scanned(f, ScanMax(f))
  {
    hide Scanned, ScanMax;
    forall v: ValueId | Scanned(f, v) ensures v <= ScanMax(f) {
      ScannedBounds(f, v);
    }
    ScanReached(f);
  }

  lemma {:induction false} MaxOfReached(ids: seq<ValueId>)
    ensures MaxOf(ids) == 0 || MaxOf(ids) in ids
  {
    if ids != [] {
      var n := |ids| - 1;
      MaxOfReached(ids[..n]);
      assert ids == ids[..n] + [ids[n]];
    }
  }

  lemma InstMaxReached(inst: Inst)
    ensures InstMax(inst) == 0 || (Counted(inst) && InstMax(inst) in Mentions(inst))
  {
    if inst.Call? {
      MaxOfReached(inst.args);
    }
  }

  lemma {:induction false} InstsMaxReached(insts: seq<Inst>)
    ensures InstsMax(insts) == 0
            || exists j :: 0 <= j < |insts| && Counted(insts[j]) && InstsMax(insts) in Mentions(insts[j])
    decreases |insts|
  {
    hide Mentions, InstMax, Counted;
    if insts != [] {
      var n := |insts| - 1;
      InstsMaxReached(insts[..n]);
      InstMaxReached(insts[n]);
      assert insts == insts[..n] + [insts[n]];
    }
  }

  lemma {:induction false} BlocksMaxReached(blocks: seq<Block>)
    ensures BlocksMax(blocks) == 0 || exists k :: 0 <= k < |blocks| && ScannedIn(blocks[k], BlocksMax(blocks))
    decreases |blocks|
  {
    hide Mentions, Counted, InstsMax;
    if blocks != [] {
      var n := |blocks| - 1;
      BlocksMaxReached(blocks[..n]);
      MaxOfReached(blocks[n].params);
      InstsMaxReached(blocks[n].insts);
      assert blocks == blocks[..n] + [blocks[n]];
    }
  }

  lemma ScanReached(f: Function)
    ensures ScanMax(f) == 0 || Scanned(f, ScanMax(f))
  {
    hide ScannedIn, MaxOf, BlocksMax;
    MaxOfReached(f.params);
    BlocksMaxReached(f.blocks);
  }

  // So a function in which every id is mentioned by a parameter or a counted
  // instruction is free of clashes, whatever is inserted.
  lemma ScannedIsClashFree(name: string, f: Function, out: Option<string>)
    requires forall v: ValueId :: Mentioned(f, v) ==> Scanned(f, v)
    ensures ClashFree(name, f, out)
  {
    hide ScanMax, Last, Mentioned, Scanned, ClashFree;
    forall v: ValueId | Mentioned(f, v) ensures v <= First(f) {
      ScannedBounds(f, v);
    }
    ClashFreeMentions(name, f, out);
  }
}
