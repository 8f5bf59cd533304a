// The block layout stage of ProfileGuidedOptimizer::optimize_module.
module Layout {
  import opened Text
  import opened Dmir
  import opened Instrument
  import opened Profile
  import opened RunSame

  // is_branch_heavily_biased, without the ratio it reports: which side is hot.
  function Bias(p: Counters, id: string): Option<bool> {
    if id !in p.branches || p.branches[id].1 < 10 then None else
    var ratio := p.branches[id].0 as real / p.branches[id].1 as real;
    if ratio >= 0.8 then Some(true) else if ratio <= 0.2 then Some(false) else None
  }

  // The block that should come right after b.
  function Preferred(name: string, b: Block, p: Counters): Option<BlockId> {
    match b.term
    case CondBranch(_, thenBlock, _, elseBlock, _) =>
      if Bias(p, BranchName(name, b.id)) == Some(false) then Some(elseBlock) else Some(thenBlock)
    case Branch(target, _) => Some(target)
    case _ => None
  }

  // The blocks by id; of two blocks with one id the later wins.
  function ById(blocks: seq<Block>): (m: map<BlockId, Block>)
    ensures forall id :: id in m ==> m[id] in blocks && m[id].id == id
    ensures forall k :: 0 <= k < |blocks| ==> blocks[k].id in m
  {
    if blocks == [] then map[]
    else ById(blocks[..|blocks| - 1])[blocks[|blocks| - 1].id := blocks[|blocks| - 1]]
  }

  ghost predicate Distinct(blocks: seq<Block>) {
    forall i, j :: 0 <= i < j < |blocks| ==> blocks[i].id != blocks[j].id
  }

  function Ids(blocks: seq<Block>): set<BlockId> { set b | b in blocks :: b.id }

  ghost predicate IsLeast(id: BlockId, ids: set<BlockId>) { id in ids && forall x :: x in ids ==> id <= x }

  // What follows the blocks placed so far when `left` are the ids not placed.
  ghost predicate ComesNext(name: string, p: Counters, last: Block, left: set<BlockId>, id: BlockId) {
    var s := Preferred(name, last, p);
    if s.Some? && s.value in left then id == s.value else IsLeast(id, left)
  }

  ghost predicate StartsWith(entry: BlockId, ids: set<BlockId>, id: BlockId) {
    if entry in ids then id == entry else IsLeast(id, ids)
  }

  // The id that comes after the blocks in `order`.
  ghost predicate Comes(name: string, p: Counters, entry: BlockId, m: map<BlockId, Block>, order: seq<Block>,
                        id: BlockId) {
    if order == [] then StartsWith(entry, m.Keys, id)
    else ComesNext(name, p, order[|order| - 1], m.Keys - Ids(order), id)
  }

  // Each id at most once, under its block; the entry first; then always the
  // preferred successor if it is still to be placed, else the lowest id left.
  ghost predicate Placing(name: string, p: Counters, entry: BlockId, m: map<BlockId, Block>, order: seq<Block>) {
    && Distinct(order)
    && (forall k :: 0 <= k < |order| ==> order[k].id in m && order[k] == m[order[k].id])
    && forall k :: 0 <= k < |order| ==> Comes(name, p, entry, m, order[..k], order[k].id)
  }

  ghost predicate LaidOut(name: string, p: Counters, entry: BlockId, m: map<BlockId, Block>, order: seq<Block>) {
    Placing(name, p, entry, m, order) && Ids(order) == m.Keys
  }

  lemma PlaceOne(name: string, p: Counters, entry: BlockId, m: map<BlockId, Block>, order: seq<Block>, b: Block)
    requires Placing(name, p, entry, m, order) && b.id in m && m[b.id] == b && b.id !in Ids(order)
    requires Comes(name, p, entry, m, order, b.id)
    ensures Placing(name, p, entry, m, order + [b]) && Ids(order + [b]) == Ids(order) + {b.id}
  {
    hide Comes;
    var after := order + [b];
    forall k | 0 <= k < |after| ensures Comes(name, p, entry, m, after[..k], after[k].id) {
      assert after[..k] == order[..k];
      assert order[..|order|] == order;
    }
  }

  lemma LeastExists(ids: set<BlockId>) returns (least: BlockId)
    requires ids != {}
    ensures IsLeast(least, ids)
  {
    var x :| x in ids;
    least := LeastUpTo(ids, x);
  }

  lemma {:induction false} LeastUpTo(ids: set<BlockId>, x: BlockId) returns (least: BlockId)
    requires x in ids
    ensures IsLeast(least, ids)
    decreases x
  {
    least := x;
    if y :| y in ids && y < x {
      least := LeastUpTo(ids, y);
    }
  }

  method SortIds(ids: set<BlockId>) returns (sorted: seq<BlockId>)
    ensures forall id :: id in sorted <==> id in ids
    ensures forall i, j :: 0 <= i < j < |sorted| ==> sorted[i] < sorted[j]
  {
    sorted := [];
    var left := ids;
    while left != {}
      invariant forall id :: id in sorted || id in left <==> id in ids
      invariant forall id :: id in sorted ==> id !in left
      invariant forall i, j :: 0 <= i < j < |sorted| ==> sorted[i] < sorted[j]
      invariant forall i, x :: 0 <= i < |sorted| && x in left ==> sorted[i] < x
      decreases |left|
    {
      ghost var least := LeastExists(left);
      var id :| id in left && forall x :: x in left ==> id <= x;
      sorted := sorted + [id];
      left := left - {id};
    }
  }

  // The search for where to restart.
  method FirstUnplaced(sorted: seq<BlockId>, ghost ids: set<BlockId>, placed: set<BlockId>) returns (r: Option<BlockId>)
    requires forall id :: id in sorted <==> id in ids
    requires forall i, j :: 0 <= i < j < |sorted| ==> sorted[i] < sorted[j]
    ensures r.None? ==> ids <= placed
    ensures r.Some? ==> r.value in ids && r.value !in placed && IsLeast(r.value, ids - placed)
  {
    for i := 0 to |sorted|
      invariant forall j :: 0 <= j < i ==> sorted[j] in placed
    {
      assert sorted[i] in ids;
      if sorted[i] !in placed {
        return Some(sorted[i]);
      }
    }
    return None;
  }

  lemma EntryComes(name: string, p: Counters, m: map<BlockId, Block>, entry: BlockId)
    requires entry in m
    ensures Comes(name, p, entry, m, [], entry)
  {
  }

  lemma NoEntry(name: string, p: Counters, m: map<BlockId, Block>, entry: BlockId)
    requires entry !in m
    ensures ChainEnds(name, p, entry, m, [])
  {
  }

  lemma PreferredComes(name: string, p: Counters, entry: BlockId, m: map<BlockId, Block>, order: seq<Block>, b: Block,
                       id: BlockId)
    requires Preferred(name, b, p) == Some(id) && id in m && id !in Ids(order + [b])
    ensures Comes(name, p, entry, m, order + [b], id)
  {
    hide Preferred;
  }

  // No preferred block is left to be placed.
  ghost predicate ChainEnds(name: string, p: Counters, entry: BlockId, m: map<BlockId, Block>, order: seq<Block>) {
    if order == [] then entry !in m
    else var s := Preferred(name, order[|order| - 1], p); s.None? || s.value !in m || s.value in Ids(order)
  }

  lemma LeastComes(name: string, p: Counters, entry: BlockId, m: map<BlockId, Block>, order: seq<Block>, id: BlockId)
    requires ChainEnds(name, p, entry, m, order) && IsLeast(id, m.Keys - Ids(order))
    ensures Comes(name, p, entry, m, order, id)
  {
    hide Preferred, IsLeast;
    if order == [] {
      assert m.Keys - Ids(order) == m.Keys;
    }
  }

  lemma ChainEndsAfter(name: string, p: Counters, entry: BlockId, m: map<BlockId, Block>, order: seq<Block>, b: Block)
    requires var s := Preferred(name, b, p); s.None? || s.value !in m || s.value in Ids(order + [b])
    ensures ChainEnds(name, p, entry, m, order + [b])
  {
    hide Preferred;
  }

  method PlaceBlocks(name: string, f: Function, p: Counters) returns (newOrder: seq<Block>)
    ensures LaidOut(name, p, f.entry, ById(f.blocks), newOrder)
  {
    hide Preferred, Placing, Comes, IsLeast, Ids, ChainEnds, ById;
    var original := ById(f.blocks);
    ghost var m := original;
    var origIds := SortIds(original.Keys);
    newOrder := [];
    NothingPlaced(name, p, f.entry, m);
    var placed: set<BlockId> := {};
    var curr := Some(f.entry);
    if f.entry in m {
      EntryComes(name, p, m, f.entry);
    } else {
      NoEntry(name, p, m, f.entry);
    }
    while curr.Some?
      invariant Placing(name, p, f.entry, m, newOrder)
      invariant placed == Ids(newOrder) && original == m - placed
      invariant curr.None? ==> m.Keys <= placed
      invariant curr.Some? && curr.value in m ==>
        curr.value !in placed && Comes(name, p, f.entry, m, newOrder, curr.value)
      invariant curr.Some? && curr.value !in m ==> ChainEnds(name, p, f.entry, m, newOrder) && newOrder == []
      decreases |original|, if curr.None? then 0 else if curr.value in original then 1 else 2
    {
      var id := curr.value;
      if id !in placed && id in original {
        var blk := original[id];
        ghost var before := newOrder;
        PlaceOne(name, p, f.entry, m, before, blk);
        Shrinks(m, placed, id);
        original := original - {id};
        placed := placed + {id};
        var next := Preferred(name, blk, p);
        newOrder := newOrder + [blk];
        if next.Some? && next.value !in placed && next.value in original {
          PreferredComes(name, p, f.entry, m, before, blk, next.value);
          curr := next;
          continue;
        }
        ChainEndsAfter(name, p, f.entry, m, before, blk);
      }
      curr := FirstUnplaced(origIds, m.Keys, placed);
      if curr.Some? {
        LeastComes(name, p, f.entry, m, newOrder, curr.value);
      }
    }
    PlacedKnown(name, p, f.entry, m, newOrder);
  }

  lemma PlacedKnown(name: string, p: Counters, entry: BlockId, m: map<BlockId, Block>, order: seq<Block>)
    requires Placing(name, p, entry, m, order)
    ensures Ids(order) <= m.Keys
  {
    hide Comes;
  }

  lemma Shrinks(m: map<BlockId, Block>, placed: set<BlockId>, id: BlockId)
    requires id in m && id !in placed
    ensures (m - placed) - {id} == m - (placed + {id}) && |m - (placed + {id})| < |m - placed|
  {
  }

  lemma NothingPlaced(name: string, p: Counters, entry: BlockId, m: map<BlockId, Block>)
    ensures Placing(name, p, entry, m, []) && Ids([]) == {}
  {
  }

  // The layout stage for one function: only a measured profile with a biased
  // branch changes the order of the blocks.
  method LayoutFunction(name: string, f: Function, p: Counters, measured: bool) returns (g: Function)
    ensures g.params == f.params && g.entry == f.entry
    ensures if measured && HasBias(name, f.blocks, p) then LaidOut(name, p, f.entry, ById(f.blocks), g.blocks)
            else g == f
  {
    var biased: seq<(BlockId, bool)> := [];
    for i := 0 to |f.blocks|
      invariant biased != [] <==> HasBias(name, f.blocks[..i], p)
    {
      var b := f.blocks[i];
      if b.term.CondBranch? {
        var side := Bias(p, BranchName(name, b.id));
        if side.Some? {
          biased := biased + [(b.id, side.value)];
        }
      }
      assert f.blocks[..i + 1] == f.blocks[..i] + [b];
    }
    assert f.blocks[..|f.blocks|] == f.blocks;
    g := f;
    if measured && biased != [] {
      var order := PlaceBlocks(name, f, p);
      g := f.(blocks := order);
    }
  }

  ghost predicate HasBias(name: string, blocks: seq<Block>, p: Counters) {
    exists b :: b in blocks && b.term.CondBranch? && Bias(p, BranchName(name, b.id)).Some?
  }

  // What the new order keeps

  lemma {:induction false} ByIdSize(blocks: seq<Block>)
    ensures |ById(blocks)| <= |blocks|
    ensures |ById(blocks)| == |blocks| <==> Distinct(blocks)
  {
    hide ById, Distinct;
    ByIdStep(blocks);
    if blocks != [] {
      var n, b := |blocks| - 1, blocks[|blocks| - 1];
      var front := blocks[..n];
      ByIdSize(front);
      IdFound(front, b.id);
      KeysGrow(ById(front), b.id, b);
      assert blocks == front + [b];
      DistinctPush(front, b);
    }
  }

  lemma ByIdStep(blocks: seq<Block>)
    ensures if blocks == [] then ById(blocks) == map[] && Distinct(blocks)
            else ById(blocks) == ById(blocks[..|blocks| - 1])[blocks[|blocks| - 1].id := blocks[|blocks| - 1]]
  {
  }

  lemma DistinctPush(front: seq<Block>, b: Block)
    ensures Distinct(front + [b]) <==> Distinct(front) && !exists k :: 0 <= k < |front| && front[k].id == b.id
  {
    var all := front + [b];
    assert forall k :: 0 <= k < |front| ==> all[k] == front[k];
    if Distinct(all) {
      assert forall k :: 0 <= k < |front| ==> all[k].id != all[|front|].id;
    }
  }

  lemma KeysGrow(m: map<BlockId, Block>, id: BlockId, b: Block)
    ensures |m[id := b]| == |m| + if id in m then 0 else 1
  {
  }

  lemma IdFound(blocks: seq<Block>, id: BlockId)
    ensures id in ById(blocks) <==> exists k :: 0 <= k < |blocks| && blocks[k].id == id
  {
  }

  lemma {:induction false} IdsSize(order: seq<Block>)
    requires Distinct(order)
    ensures |Ids(order)| == |order|
  {
    if order != [] {
      var n := |order| - 1;
      IdsSize(order[..n]);
      assert order == order[..n] + [order[n]];
      assert Ids(order) == Ids(order[..n]) + {order[n].id};
    }
  }

  lemma ByIdDistinct(blocks: seq<Block>, k: nat)
    requires Distinct(blocks) && k < |blocks|
    ensures ById(blocks)[blocks[k].id] == blocks[k]
    decreases |blocks|
  {
  }

  lemma {:induction false} DistinctOnce(blocks: seq<Block>, b: Block)
    requires Distinct(blocks)
    ensures multiset(blocks)[b] == if b in blocks then 1 else 0
    decreases |blocks|
  {
    if blocks != [] {
      var n := |blocks| - 1;
      DistinctOnce(blocks[..n], b);
      assert blocks == blocks[..n] + [blocks[n]];
      assert forall k :: 0 <= k < n ==> blocks[k].id != blocks[n].id;
    }
  }

  lemma SameElements(name: string, p: Counters, entry: BlockId, blocks: seq<Block>, order: seq<Block>, b: Block)
    requires LaidOut(name, p, entry, ById(blocks), order) && Distinct(blocks)
    ensures b in order <==> b in blocks
  {
    hide Comes, ById;
    var m := ById(blocks);
    if b in blocks {
      var k :| 0 <= k < |blocks| && blocks[k] == b;
      ByIdDistinct(blocks, k);
      assert b.id in Ids(order);
    }
  }

  lemma Permutes(name: string, p: Counters, entry: BlockId, blocks: seq<Block>, order: seq<Block>)
    requires LaidOut(name, p, entry, ById(blocks), order) && Distinct(blocks)
    ensures multiset(order) == multiset(blocks)
  {
    hide LaidOut, ById, Distinct;
    PlacingDistinct(name, p, entry, ById(blocks), order);
    forall b: Block ensures multiset(order)[b] == multiset(blocks)[b] {
      DistinctOnce(blocks, b);
      DistinctOnce(order, b);
      SameElements(name, p, entry, blocks, order, b);
    }
  }

  // The new order holds exactly the old blocks, each as often as before, if and
  // only if no two blocks have the same id. (Of two with one id the map of the
  // source keeps the later only.)
  lemma PermutationExactly(name: string, p: Counters, entry: BlockId, blocks: seq<Block>, order: seq<Block>)
    requires LaidOut(name, p, entry, ById(blocks), order)
    ensures multiset(order) == multiset(blocks) <==> Distinct(blocks)
  {
    hide ById, Distinct, Placing;
    PlacingDistinct(name, p, entry, ById(blocks), order);
    IdsSize(order);
    ByIdSize(blocks);
    if Distinct(blocks) {
      Permutes(name, p, entry, blocks, order);
    } else {
      assert |multiset(order)| == |order| && |multiset(blocks)| == |blocks|;
      assert |ById(blocks)| == |ById(blocks).Keys| == |order|;
    }
  }

  lemma PlacingDistinct(name: string, p: Counters, entry: BlockId, m: map<BlockId, Block>, order: seq<Block>)
    requires LaidOut(name, p, entry, m, order)
    ensures Distinct(order)
  {
  }

  // The new order finds under each id the block that the map holds.
  lemma PlacedFinds(name: string, p: Counters, entry: BlockId, blocks: seq<Block>, order: seq<Block>, id: BlockId)
    requires LaidOut(name, p, entry, ById(blocks), order)
    ensures FindBlock(order, id) == if id in ById(blocks) then Some(ById(blocks)[id]) else None
  {
    hide Comes, ById;
    var i := IndexOf(order, id);
    if id in ById(blocks) {
      assert id in Ids(order);
      var b :| b in order && b.id == id;
    }
    if i < |order| {
      assert order[i].id in ById(blocks);
    }
  }

  predicate FirstOfId(blocks: seq<Block>, i: nat) {
    i < |blocks| && forall k :: 0 <= k < i ==> blocks[k].id != blocks[i].id
  }

  predicate LastOfId(blocks: seq<Block>, j: nat) {
    j < |blocks| && forall k :: j < k < |blocks| ==> blocks[k].id != blocks[j].id
  }

  // Of the blocks with one id, the first and the last are the same.
  ghost predicate FirstIsLast(blocks: seq<Block>) {
    forall i: nat, j: nat :: FirstOfId(blocks, i) && LastOfId(blocks, j) && blocks[i].id == blocks[j].id ==>
      blocks[i] == blocks[j]
  }

  lemma DistinctFirstIsLast(blocks: seq<Block>)
    requires Distinct(blocks)
    ensures FirstIsLast(blocks)
  {
    forall i: nat, j: nat | FirstOfId(blocks, i) && LastOfId(blocks, j) && blocks[i].id == blocks[j].id
      ensures i == j
    {
    }
  }

  lemma {:induction false} LastKept(blocks: seq<Block>, id: BlockId) returns (j: nat)
    requires id in ById(blocks)
    ensures j < |blocks| && LastOfId(blocks, j) && blocks[j].id == id && ById(blocks)[id] == blocks[j]
    decreases |blocks|
  {
    hide ById;
    ByIdStep(blocks);
    var n := |blocks| - 1;
    if blocks[n].id == id {
      j := n;
    } else {
      j := LastKept(blocks[..n], id);
    }
  }

  lemma LastIs(blocks: seq<Block>, j: nat)
    requires LastOfId(blocks, j)
    ensures blocks[j].id in ById(blocks) && ById(blocks)[blocks[j].id] == blocks[j]
  {
    hide ById;
    var last := LastKept(blocks, blocks[j].id);
    assert last == j;
  }

  lemma FirstFound(blocks: seq<Block>, i: nat)
    requires FirstOfId(blocks, i)
    ensures FindBlock(blocks, blocks[i].id) == Some(blocks[i])
  {
  }

  lemma FoundFirst(blocks: seq<Block>, id: BlockId)
    ensures FindBlock(blocks, id).Some? <==> id in ById(blocks)
    ensures id in ById(blocks) ==> var i := IndexOf(blocks, id); FirstOfId(blocks, i) && blocks[i].id == id
  {
    hide ById;
    if id in ById(blocks) {
      var b := ById(blocks)[id];
      assert b in blocks && b.id == id;
    }
  }

  // Laying out a function keeps its code if and only if, of the blocks with one
  // id, the first and the last are the same.
  lemma SameCodeExactly(name: string, p: Counters, f: Function, g: Function)
    requires g.params == f.params && g.entry == f.entry && LaidOut(name, p, g.entry, ById(f.blocks), g.blocks)
    ensures SameCode(f, g) <==> FirstIsLast(f.blocks)
  {
    hide LaidOut, ById, FindBlock, FirstIsLast, FirstOfId, LastOfId;
    if FirstIsLast(f.blocks) {
      forall id ensures FindBlock(f.blocks, id) == FindBlock(g.blocks, id) {
        PlacedFinds(name, p, g.entry, f.blocks, g.blocks, id);
        FirstFinds(f.blocks, id);
      }
    }
    if SameCode(f, g) {
      forall id ensures FindBlock(f.blocks, id) == if id in ById(f.blocks) then Some(ById(f.blocks)[id]) else None {
        PlacedFinds(name, p, g.entry, f.blocks, g.blocks, id);
      }
      FindsLast(f.blocks);
    }
  }

  lemma FirstFinds(blocks: seq<Block>, id: BlockId)
    requires FirstIsLast(blocks)
    ensures FindBlock(blocks, id) == if id in ById(blocks) then Some(ById(blocks)[id]) else None
  {
    hide ById, FirstOfId, LastOfId;
    FoundFirst(blocks, id);
    if id in ById(blocks) {
      var j := LastKept(blocks, id);
      assert blocks[IndexOf(blocks, id)] == blocks[j];
    }
  }

  lemma FindsLast(blocks: seq<Block>)
    requires forall id :: FindBlock(blocks, id) == if id in ById(blocks) then Some(ById(blocks)[id]) else None
    ensures FirstIsLast(blocks)
  {
    hide ById, FindBlock;
    forall i: nat, j: nat | FirstOfId(blocks, i) && LastOfId(blocks, j) && blocks[i].id == blocks[j].id
      ensures blocks[i] == blocks[j]
    {
      FirstFound(blocks, i);
      LastIs(blocks, j);
    }
  }

  // Laying out such a function, so one whose block ids are distinct, changes no
  // run of its module, for any function, arguments, fuel and history.
  lemma LayoutKeepsMeaning(m: Machine, fs: Module, name: string, p: Counters, g: Function,
                           main: string, args: seq<Val>, t: Trace, fuel: nat)
    requires name in fs && main in fs && FirstIsLast(fs[name].blocks)
    requires g.params == fs[name].params && g.entry == fs[name].entry
    requires LaidOut(name, p, g.entry, ById(fs[name].blocks), g.blocks)
    ensures RunFunction(m, fs[name := g], main, args, t, fuel) == RunFunction(m, fs, main, args, t, fuel)
  {
    hide RunFunction, LaidOut, ById, FirstIsLast, FindBlock;
    SameCodeExactly(name, p, fs[name], g);
    assert SameModule(fs, fs[name := g]);
    FunctionSame(m, fs, fs[name := g], main, args, t, fuel);
  }

  // Two blocks with one id: control goes to the first, the layout keeps the
  // second.
  const BRANCHING := Block(0, [], [], CondBranch(0, 1, [], 1, []))
  const FIRST := Block(1, [], [], Exit(None))
  const SECOND := Block(1, [], [], Exit(Some(0)))
  const TWICE := Function([0], 0, [BRANCHING, FIRST, SECOND])
  const HOT := Counters(map[], map[BranchName("f", 0) := (10, 10)])

  lemma OnlyParam(v: Val)
    ensures Bind(map[], [0], [v]) == map[0 := v]
  {
    assert [0][..0] == [] && [v][..0] == [];
  }

  lemma Returns(m: Machine, fs: Module, target: Block, v: Val, t: Trace, fuel: nat)
    requires "f" in fs && (target == FIRST || target == SECOND)
    ensures var r := RunBlock(m, fs, "f", target, map[0 := v], map[], t, fuel);
            r.Returned? && r.value == if target == FIRST then Unit else v
  {
  }

  lemma BranchesTo(m: Machine, fs: Module, target: Block, v: Val, t: Trace, fuel: nat)
    requires "f" in fs && FindBlock(fs["f"].blocks, 1) == Some(target) && target.params == [] && fuel >= 1
    ensures RunBlock(m, fs, "f", BRANCHING, map[0 := v], map[], t, fuel)
         == RunBlock(m, fs, "f", target, map[0 := v], map[], t + [Enter("f", 0)] + [Branched("f", 0, v)], fuel - 1)
  {
    hide FindBlock;
    var env, u := map[0 := v], t + [Enter("f", 0)];
    assert Reads(env, []).value == [];
    assert Jump(m, fs, "f", 1, [], env, map[], u + [Branched("f", 0, v)], fuel)
        == RunBlock(m, fs, "f", target, env, map[], u + [Branched("f", 0, v)], fuel - 1);
    hide RunBlock, Jump;
    assert Leave(m, fs, "f", BRANCHING, env, map[], u, fuel)
        == Jump(m, fs, "f", 1, [], env, map[], u + [Branched("f", 0, v)], fuel);
    LeavesOnly(m, fs, v, t, fuel);
  }

  lemma LeavesOnly(m: Machine, fs: Module, v: Val, t: Trace, fuel: nat)
    requires "f" in fs
    ensures RunBlock(m, fs, "f", BRANCHING, map[0 := v], map[], t, fuel)
         == Leave(m, fs, "f", BRANCHING, map[0 := v], map[], t + [Enter("f", 0)], fuel)
  {
    hide Leave;
  }

  lemma RunsInto(m: Machine, fs: Module, target: Block, v: Val, fuel: nat)
    requires "f" in fs && fs["f"].params == [0] && fs["f"].entry == 0 && fuel >= 1
    requires FindBlock(fs["f"].blocks, 0) == Some(BRANCHING) && FindBlock(fs["f"].blocks, 1) == Some(target)
    requires target == FIRST || target == SECOND
    ensures var r := RunFunction(m, fs, "f", [v], [], fuel);
            r.Returned? && r.value == if target == FIRST then Unit else v
  {
    hide FindBlock, RunBlock, Bind;
    var none: Trace := [];
    OnlyParam(v);
    BranchesTo(m, fs, target, v, none + [Called("f")], fuel);
    Returns(m, fs, target, v, none + [Called("f")] + [Enter("f", 0)] + [Branched("f", 0, v)], fuel - 1);
  }

  lemma TwiceFinds()
    ensures FindBlock(TWICE.blocks, 0) == Some(BRANCHING) && FindBlock(TWICE.blocks, 1) == Some(FIRST)
    ensures ById(TWICE.blocks) == map[0 := BRANCHING, 1 := SECOND]
  {
    var b := TWICE.blocks;
    assert IndexOf(b, 0) == 0 && b[1..][0] == FIRST && IndexOf(b, 1) == 1;
    assert b[..2] == [BRANCHING, FIRST] && b[..2][..1] == [BRANCHING] && b[..2][..1][..0] == [];
  }

  lemma TwiceChanged()
    ensures HasBias("f", TWICE.blocks, HOT) && !FirstIsLast(TWICE.blocks)
  {
    hide BranchName;
    var b := TWICE.blocks;
    assert BRANCHING in b && HOT.branches[BranchName("f", 0)] == (10, 10);
    assert FirstOfId(b, 1) && LastOfId(b, 2) && b[1].id == b[2].id && b[1] != b[2];
  }

  // A function that the layout of a measured profile changes: it answered
  // nothing, and answers its argument.
  lemma LayoutChangesMeaning(m: Machine, g: Function, v: Val, fuel: nat)
    requires g.params == TWICE.params && g.entry == TWICE.entry && fuel >= 1
    requires LaidOut("f", HOT, 0, ById(TWICE.blocks), g.blocks)
    ensures HasBias("f", TWICE.blocks, HOT) && !FirstIsLast(TWICE.blocks)
    ensures var r, s := RunFunction(m, map["f" := TWICE], "f", [v], [], fuel),
                RunFunction(m, map["f" := g], "f", [v], [], fuel);
            r.Returned? && r.value == Unit && s.Returned? && s.value == v
  {
    hide RunFunction, LaidOut, ById, FindBlock, HasBias, FirstIsLast, HOT;
    TwiceChanged();
    TwiceFinds();
    PlacedFinds("f", HOT, 0, TWICE.blocks, g.blocks, 0);
    PlacedFinds("f", HOT, 0, TWICE.blocks, g.blocks, 1);
    RunsInto(m, map["f" := TWICE], FIRST, v, fuel);
    RunsInto(m, map["f" := g], SECOND, v, fuel);
  }
}
