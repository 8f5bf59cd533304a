// Profiles: the counters of ProfileData, and what an instrumented run leaves
// in them.
module Profile {
  import opened Text
  import opened Dmir
  import opened Instrument
  import opened InstrumentRun
  import R = Radix

  datatype Counters = Counters(hot: map<string, nat>, branches: map<string, (nat, nat)>)

  function Calls(p: Counters, name: string): nat { if name in p.hot then p.hot[name] else 0 }

  const NONE := Counters(map[], map[])

  // (taken, total)
  function Outcomes(p: Counters, id: string): (nat, nat) { if id in p.branches then p.branches[id] else (0, 0) }

  function Plus(a: (nat, nat), b: (nat, nat)): (nat, nat) { (a.0 + b.0, a.1 + b.1) }

  function CountCall(p: Counters, name: string): Counters { p.(hot := p.hot[name := Calls(p, name) + 1]) }

  function CountBranch(p: Counters, id: string, taken: bool): Counters {
    var o := Outcomes(p, id);
    p.(branches := p.branches[id := (o.0 + (if taken then 1 else 0), o.1 + 1)])
  }

  class ProfileData {
    var source: string
    var hotFunctions: map<string, nat>
    var branchFrequencies: map<string, (nat, nat)>

    constructor ()
      ensures View() == NONE && source == "static"
    {
      source := "static";
      hotFunctions, branchFrequencies := map[], map[];
    }

    function View(): Counters reads this { Counters(hotFunctions, branchFrequencies) }

    method RecordFunctionCall(name: string)
      modifies `hotFunctions
      ensures View() == CountCall(old(View()), name)
    {
      if name !in hotFunctions {
        hotFunctions := hotFunctions[name := 0];
      }
      hotFunctions := hotFunctions[name := hotFunctions[name] + 1];
    }

    method RecordBranch(id: string, taken: bool)
      modifies `branchFrequencies
      ensures View() == CountBranch(old(View()), id, taken)
    {
      if id !in branchFrequencies {
        branchFrequencies := branchFrequencies[id := (0, 0)];
      }
      var entry := branchFrequencies[id];
      if taken {
        entry := (entry.0 + 1, entry.1);
      }
      entry := (entry.0, entry.1 + 1);
      branchFrequencies := branchFrequencies[id := entry];
    }

    // Replays the runtime calls of a trace into this profile.
    method Replay(t: Trace)
      modifies `hotFunctions, `branchFrequencies
      ensures View() == Collect(old(View()), t)
    {
      for i := 0 to |t|
        invariant View() == Collect(old(View()), t[..i])
      {
        assert t[..i + 1][..i] == t[..i];
        if IsFuncHit(t[i]) {
          RecordFunctionCall(t[i].args[0].s);
        } else if IsBranchHit(t[i]) {
          RecordBranch(t[i].args[0].s, Truthy(t[i].args[1]));
        }
      }
      assert t[..|t|] == t;
    }
  }

  predicate IsFuncHit(e: Event) { e.Extern? && e.func == HIT_FUNC && |e.args| == 1 && e.args[0].Str? }

  predicate IsBranchHit(e: Event) { e.Extern? && e.func == HIT_BRANCH && |e.args| == 2 && e.args[0].Str? }

  function CountEvent(p: Counters, e: Event): Counters {
    if IsFuncHit(e) then CountCall(p, e.args[0].s)
    else if IsBranchHit(e) then CountBranch(p, e.args[0].s, Truthy(e.args[1]))
    else p
  }

  // The counters after the runtime calls of a trace.
  function Collect(p: Counters, t: Trace): Counters {
    if t == [] then p else CountEvent(Collect(p, t[..|t| - 1]), t[|t| - 1])
  }

  // What really happened in a run

  function Entries(t: Trace, name: string, block: BlockId): nat {
    if t == [] then 0
    else Entries(t[..|t| - 1], name, block) + if t[|t| - 1] == Enter(name, block) then 1 else 0
  }

  predicate BranchesAt(e: Event, name: string, block: BlockId) {
    e.Branched? && e.func == name && e.block == block
  }

  function Branches(t: Trace, name: string, block: BlockId): (nat, nat) {
    if t == [] then (0, 0) else
    var o, e := Branches(t[..|t| - 1], name, block), t[|t| - 1];
    if BranchesAt(e, name, block) then (o.0 + (if Truthy(e.cond) then 1 else 0), o.1 + 1) else o
  }

  // The id "{function}_{block}" tells every branch of a module from every other.
  lemma BranchNameInjective(f: string, b: BlockId, g: string, c: BlockId)
    requires BranchName(f, b) == BranchName(g, c)
    ensures f == g && b == c
  {
    hide R.Dec;
    R.DecDigits(b);
    R.DecDigits(c);
    SplitOnce(f, R.Dec(b), g, R.Dec(c));
    R.DecInjective(b, c);
  }

  // A text is split at its last underscore in one way.
  lemma SplitOnce(a: string, b: string, c: string, d: string)
    requires a + ['_'] + b == c + ['_'] + d && '_' !in b && '_' !in d
    ensures a == c && b == d
  {
    var s := a + ['_'] + b;
    NoneAfter(a, b);
    NoneAfter(c, d);
    assert s[|a|] == '_' && s[|c|] == '_';
    assert a == s[..|a|] && b == s[|a| + 1..];
    assert c == s[..|c|] && d == s[|c| + 1..];
  }

  lemma NoneAfter(a: string, b: string)
    requires '_' !in b
    ensures forall k :: |a| < k < |a + ['_'] + b| ==> (a + ['_'] + b)[k] != '_'
  {
    var s := a + ['_'] + b;
    assert forall k :: |a| < k < |s| ==> s[k] == b[k - |a| - 1];
  }

  lemma CollectPush(p: Counters, t: Trace, e: Event)
    ensures Collect(p, t + [e]) == CountEvent(Collect(p, t), e)
  {
  }

  // What one event adds to the counters of a function and of a branch.
  predicate HitsFunc(e: Event, name: string) { IsFuncHit(e) && e.args[0].s == name }

  function HitsBranch(e: Event, id: string): (nat, nat) {
    if IsBranchHit(e) && e.args[0].s == id then (if Truthy(e.args[1]) then 1 else 0, 1) else (0, 0)
  }

  lemma EventCounts(p: Counters, t: Trace, e: Event, name: string, id: string)
    ensures var q, q' := Collect(p, t), Collect(p, t + [e]);
            Calls(q', name) == Calls(q, name) + (if HitsFunc(e, name) then 1 else 0)
            && Outcomes(q', id) == Plus(Outcomes(q, id), HitsBranch(e, id))
  {
    hide Collect;
    CollectPush(p, t, e);
  }

  lemma Adds(e: Event, name: string, id: string)
    ensures e.Extern? && e.func == HIT_FUNC && |e.args| == 1 && e.args[0].Str? ==>
              (HitsFunc(e, name) <==> e.args[0].s == name) && HitsBranch(e, id) == (0, 0)
    ensures e.Extern? && e.func == HIT_BRANCH && |e.args| == 2 && e.args[0].Str? && e.args[0].s != id ==>
              !HitsFunc(e, name) && HitsBranch(e, id) == (0, 0)
    ensures e.Extern? && e.func == HIT_BRANCH && |e.args| == 2 && e.args[0].Str? && e.args[0].s == id ==>
              !HitsFunc(e, name) && HitsBranch(e, id) == (if Truthy(e.args[1]) then 1 else 0, 1)
    ensures !e.Extern? || e.func == SET_OUTPUT || e.func == FLUSH ==>
              !HitsFunc(e, name) && HitsBranch(e, id) == (0, 0)
  {
  }

  predicate Enters(fs: Module, e: Event, name: string)
    requires name in fs
  {
    e == Enter(name, fs[name].entry)
  }

  function Taken(e: Event, name: string, block: BlockId): (nat, nat) {
    if BranchesAt(e, name, block) then (if Truthy(e.cond) then 1 else 0, 1) else (0, 0)
  }

  // One noted event moves the counters of a function by its own entries and
  // branches, and by what the event itself counts.
  lemma NoteCounts(fs: Module, out: Option<string>, p: Counters, t: Trace, e: Event, name: string, block: BlockId)
    requires name in fs && !Skipped(name)
    ensures var id, q, q' := BranchName(name, block), Collect(p, t), Collect(p, t + Note(fs, out, e));
            Calls(q', name)
            == Calls(q, name) + (if Enters(fs, e, name) then 1 else 0) + (if HitsFunc(e, name) then 1 else 0)
            && Outcomes(q', id) == Plus(Plus(Outcomes(q, id), Taken(e, name, block)), HitsBranch(e, id))
  {
    hide BranchName, Collect, Skipped, SetsOutput, HitsFunc, HitsBranch, Calls, Outcomes, Truthy;
    hide HIT_FUNC, HIT_BRANCH, SET_OUTPUT, FLUSH;
    var n, id := Note(fs, out, e), BranchName(name, block);
    EventCounts(p, t, n[0], name, id);
    Adds(e, name, id);
    Adds(n[0], name, id);
    if |n| == 2 {
      EventCounts(p, t + [n[0]], n[1], name, id);
      Adds(n[1], name, id);
      assert t + n == t + [n[0]] + [n[1]];
    } else if |n| == 3 {
      EventCounts(p, t + [n[0]], n[1], name, id);
      EventCounts(p, t + [n[0]] + [n[1]], n[2], name, id);
      Adds(n[1], name, id);
      Adds(n[2], name, id);
      assert t + n == t + [n[0]] + [n[1]] + [n[2]];
    }
    if e.Branched? && BranchName(e.func, e.block) == BranchName(name, block) {
      BranchNameInjective(e.func, e.block, name, block);
    }
  }

  lemma EntriesPush(fs: Module, t: Trace, e: Event, name: string, block: BlockId)
    requires name in fs
    ensures Entries(t + [e], name, fs[name].entry)
         == Entries(t, name, fs[name].entry) + if Enters(fs, e, name) then 1 else 0
    ensures Branches(t + [e], name, block) == Plus(Branches(t, name, block), Taken(e, name, block))
  {
    assert (t + [e])[..|t|] == t;
  }

  lemma {:induction false} AnnotatedCounts(fs: Module, out: Option<string>, t: Trace, name: string, block: BlockId)
    requires name in fs && !Skipped(name)
    ensures var p, own, id := Collect(NONE, Annotate(fs, out, t)), Collect(NONE, t), BranchName(name, block);
            Calls(p, name) == Entries(t, name, fs[name].entry) + Calls(own, name)
            && Outcomes(p, id) == Plus(Branches(t, name, block), Outcomes(own, id))
    decreases |t|
  {
    hide BranchName, Skipped, Note, Collect, HitsFunc, HitsBranch, Taken, Enters, Entries, Branches, Calls, Outcomes;
    if t == [] {
      NothingCounted(fs, name, block);
    } else {
      var n := |t| - 1;
      AnnotatedCounts(fs, out, t[..n], name, block);
      NoteCounts(fs, out, NONE, Annotate(fs, out, t[..n]), t[n], name, block);
      EventCounts(NONE, t[..n], t[n], name, BranchName(name, block));
      EntriesPush(fs, t[..n], t[n], name, block);
      assert t == t[..n] + [t[n]];
    }
  }

  lemma NothingCounted(fs: Module, name: string, block: BlockId)
    requires name in fs
    ensures Calls(Collect(NONE, []), name) == Entries([], name, fs[name].entry) == 0
    ensures Outcomes(Collect(NONE, []), BranchName(name, block)) == Branches([], name, block) == (0, 0)
  {
    hide BranchName;
  }

  // After any instrumented run, of any length and outcome, the counter of each
  // function is the number of times the original run enters its entry block,
  // and the counters of each conditional branch are its outcomes in the
  // original run, each on top of what the original counts by its own calls.
  lemma CountsAreExact(m: Machine, fs: Module, out: Option<string>, main: string, args: seq<Val>, fuel: nat,
                       name: string, block: BlockId)
    requires Instrumentable(fs, out) && main in fs && name in fs && !Skipped(name)
    ensures var t := RunFunction(m, fs, main, args, [], fuel).trace;
            var p := Collect(NONE, RunFunction(m, InstrumentAll(fs, out), main, args, [], fuel).trace);
            var own, id := Collect(NONE, t), BranchName(name, block);
            Calls(p, name) == Entries(t, name, fs[name].entry) + Calls(own, name)
            && Outcomes(p, id) == Plus(Branches(t, name, block), Outcomes(own, id))
  {
    hide RunFunction, Instrumentable, Collect, BranchName, Skipped, Entries, Branches;
    assert Annotate(fs, out, []) == [];
    FunctionAgrees(m, fs, out, main, args, [], fuel);
    AnnotatedCounts(fs, out, RunFunction(m, fs, main, args, [], fuel).trace, name, block);
  }
}
