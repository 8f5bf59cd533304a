// Which block the layout puts where, from the counters themselves, and from the
// run that they were measured on.
module LayoutOrder {
  import opened Text
  import opened Dmir
  import opened Instrument
  import opened Profile
  import opened Layout
  import R = Radix

  // A branch with ten outcomes or more is biased when four fifths of them went
  // one way.
  predicate MostlyThen(o: (nat, nat)) { o.1 >= 10 && 5 * o.0 >= 4 * o.1 }

  predicate MostlyElse(o: (nat, nat)) { o.1 >= 10 && 5 * o.0 <= o.1 }

  lemma TimesKeeps(a: real, b: real, t: real)
    requires t > 0.0
    ensures a <= b <==> a * t <= b * t
  {
    assert (b - a) * t == b * t - a * t;
    assert a <= b ==> (b - a) * t >= 0.0;
    assert a > b ==> (a - b) * t > 0.0;
  }

  lemma Ratio(n: real, t: real, c: real)
    requires t > 0.0
    ensures n / t >= c <==> n >= c * t
    ensures n / t <= c <==> n <= c * t
  {
    var r := n / t;
    assert r * t == n;
    TimesKeeps(r, c, t);
    TimesKeeps(c, r, t);
  }

  lemma Fifths(taken: nat, total: nat)
    requires total >= 10
    ensures taken as real / total as real >= 0.8 <==> 5 * taken >= 4 * total
    ensures taken as real / total as real <= 0.2 <==> 5 * taken <= total
  {
    Ratio(taken as real, total as real, 0.8);
    Ratio(taken as real, total as real, 0.2);
  }

  lemma BiasExactly(p: Counters, id: string)
    ensures Bias(p, id) == Some(false) <==> MostlyElse(Outcomes(p, id)) && !MostlyThen(Outcomes(p, id))
    ensures Bias(p, id) == Some(true) <==> MostlyThen(Outcomes(p, id))
  {
    var o := Outcomes(p, id);
    if o.1 >= 10 {
      Fifths(o.0, o.1);
    }
  }

  lemma NotBoth(o: (nat, nat))
    ensures !(MostlyThen(o) && MostlyElse(o))
  {
  }

  // The profile's name of a branch.
  function BranchOf(name: string, b: Block): string { name + "_" + R.Dec(b.id) }

  // After the blocks up to the k-th comes the block `id`, if it is there and not
  // placed yet, and the lowest one left otherwise.
  ghost predicate Follows(blocks: seq<Block>, order: seq<Block>, k: nat, id: BlockId) {
    var left := Ids(blocks) - Ids(order[..Min(k + 1, |order|)]);
    if id in left then k + 1 < |order| && order[k + 1].id == id else Restarts(blocks, order, k)
  }

  ghost predicate Restarts(blocks: seq<Block>, order: seq<Block>, k: nat) {
    k + 1 < |order| ==> IsLeast(order[k + 1].id, Ids(blocks) - Ids(order[..k + 1]))
  }

  function Min(a: nat, b: nat): nat { if a < b then a else b }

  lemma KeysAreIds(blocks: seq<Block>)
    ensures ById(blocks).Keys == Ids(blocks)
  {
    hide ById;
    forall id ensures id in ById(blocks).Keys <==> id in Ids(blocks) {
      IdFound(blocks, id);
      if id in Ids(blocks) {
        var b :| b in blocks && b.id == id;
        var k :| 0 <= k < |blocks| && blocks[k] == b;
      }
    }
  }

  // What is left when the loop goes on is placed.
  lemma MoreToCome(name: string, p: Counters, entry: BlockId, m: map<BlockId, Block>, order: seq<Block>, k: nat)
    requires LaidOut(name, p, entry, m, order) && k < |order|
    ensures var left := m.Keys - Ids(order[..k + 1]);
            && (k + 1 < |order| ==> ComesNext(name, p, order[k], left, order[k + 1].id))
            && (left != {} ==> k + 1 < |order|)
  {
    hide ComesNext;
    var left := m.Keys - Ids(order[..k + 1]);
    if k + 1 < |order| {
      assert Comes(name, p, entry, m, order[..k + 1], order[k + 1].id);
      assert order[..k + 1][k] == order[k];
    } else {
      assert order[..k + 1] == order;
    }
  }

  lemma PreferredIs(name: string, b: Block, p: Counters)
    ensures b.term.CondBranch? ==>
      Preferred(name, b, p)
      == Some(if MostlyElse(Outcomes(p, BranchOf(name, b))) then b.term.elseBlock else b.term.thenBlock)
    ensures b.term.Branch? ==> Preferred(name, b, p) == Some(b.term.target)
    ensures !b.term.CondBranch? && !b.term.Branch? ==> Preferred(name, b, p) == None
  {
    hide Bias, MostlyElse, MostlyThen, Outcomes;
    BiasExactly(p, BranchOf(name, b));
    NotBoth(Outcomes(p, BranchOf(name, b)));
  }

  lemma EntryFirst(name: string, p: Counters, entry: BlockId, m: map<BlockId, Block>, order: seq<Block>)
    requires LaidOut(name, p, entry, m, order) && order != []
    ensures if entry in m.Keys then order[0].id == entry else IsLeast(order[0].id, m.Keys)
  {
    hide IsLeast, ComesNext, Ids;
    assert Comes(name, p, entry, m, order[..0], order[0].id);
    assert order[..0] == [];
  }

  lemma NextFollows(name: string, p: Counters, blocks: seq<Block>, order: seq<Block>, k: nat)
    requires k < |order|
    requires var left := Ids(blocks) - Ids(order[..k + 1]);
             && (k + 1 < |order| ==> ComesNext(name, p, order[k], left, order[k + 1].id))
             && (left != {} ==> k + 1 < |order|)
    ensures if Preferred(name, order[k], p).Some? then Follows(blocks, order, k, Preferred(name, order[k], p).value)
            else Restarts(blocks, order, k)
  {
    hide Preferred, Ids, IsLeast;
  }

  // The order that the loop gives, in every case: the entry comes first; after a
  // conditional branch its else block when at least four fifths of ten or more
  // outcomes went there, and its then block in all other cases; after a jump its
  // target; the lowest id left where that is not to be had.
  lemma OrderExactly(name: string, p: Counters, entry: BlockId, blocks: seq<Block>, order: seq<Block>, k: nat)
    requires LaidOut(name, p, entry, ById(blocks), order) && k < |order|
    ensures entry in Ids(blocks) ==> order[0].id == entry
    ensures entry !in Ids(blocks) ==> IsLeast(order[0].id, Ids(blocks))
    ensures order[k].term.CondBranch? ==>
      var o, t := Outcomes(p, BranchOf(name, order[k])), order[k].term;
      Follows(blocks, order, k, if MostlyElse(o) then t.elseBlock else t.thenBlock)
    ensures order[k].term.Branch? ==> Follows(blocks, order, k, order[k].term.target)
    ensures !order[k].term.CondBranch? && !order[k].term.Branch? ==> Restarts(blocks, order, k)
  {
    hide ById, Preferred, Outcomes, MostlyElse, Ids, LaidOut, Follows, Restarts;
    KeysAreIds(blocks);
    EntryFirst(name, p, entry, ById(blocks), order);
    MoreToCome(name, p, entry, ById(blocks), order, k);
    PreferredIs(name, order[k], p);
    NextFollows(name, p, blocks, order, k);
  }

  lemma TwoSides(side: Option<bool>)
    ensures side == None || side == Some(true) || side == Some(false)
  {
    if side.Some? && side.value {
      assert side == Some(true);
    }
  }

  // Only such a branch makes the layout change anything.
  lemma BiasedExactly(name: string, blocks: seq<Block>, p: Counters)
    ensures HasBias(name, blocks, p)
       <==> exists b :: b in blocks && b.term.CondBranch?
                        && var o := Outcomes(p, BranchOf(name, b)); MostlyThen(o) || MostlyElse(o)
  {
    hide Bias, MostlyElse, MostlyThen, Outcomes;
    forall b: Block
      ensures Bias(p, BranchName(name, b.id)).Some?
         <==> var o := Outcomes(p, BranchOf(name, b)); MostlyThen(o) || MostlyElse(o)
    {
      BiasExactly(p, BranchOf(name, b));
      NotBoth(Outcomes(p, BranchOf(name, b)));
      TwoSides(Bias(p, BranchName(name, b.id)));
    }
  }

  // Laid out by the counters of an instrumented run: where a branch of the
  // original run was decided ten times or more, and at least four times out of
  // five in one way, the block it then went to comes next.
  lemma HotFollows(m: Machine, fs: Module, out: Option<string>, main: string, args: seq<Val>, fuel: nat,
                   name: string, order: seq<Block>, k: nat)
    requires Instrumentable(fs, out) && main in fs && name in fs && !Skipped(name) && k < |order|
    requires var p := Collect(NONE, RunFunction(m, InstrumentAll(fs, out), main, args, [], fuel).trace);
             LaidOut(name, p, fs[name].entry, ById(fs[name].blocks), order)
    requires order[k].term.CondBranch?
    requires Outcomes(Collect(NONE, RunFunction(m, fs, main, args, [], fuel).trace), BranchOf(name, order[k])) == (0, 0)
    ensures var went := Branches(RunFunction(m, fs, main, args, [], fuel).trace, name, order[k].id);
            var blocks := fs[name].blocks;
            && (MostlyThen(went) ==> Follows(blocks, order, k, order[k].term.thenBlock))
            && (MostlyElse(went) ==> Follows(blocks, order, k, order[k].term.elseBlock))
  {
    hide RunFunction, Instrumentable, Collect, Skipped, LaidOut, ById, Outcomes, Branches, Follows, Instrumented;
    var p := Collect(NONE, RunFunction(m, InstrumentAll(fs, out), main, args, [], fuel).trace);
    CountsAreExact(m, fs, out, main, args, fuel, name, order[k].id);
    OrderExactly(name, p, fs[name].entry, fs[name].blocks, order, k);
    NotBoth(Outcomes(p, BranchOf(name, order[k])));
  }
}
