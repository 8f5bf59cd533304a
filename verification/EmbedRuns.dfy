// Whole runs of a process with many wrappers over the one runtime, against the
// ownership that the wrapper promises.
module EmbedRuns {
  import opened Text
  import opened Embed

  datatype System = System(state: Option<Global>, wrappers: map<nat, Wrapper>)

  datatype Step =
    | Construct(id: nat) | Load(id: nat, path: string, compiled: Option<Functions>) | Reset(id: nat)
    | Call(id: nat, name: Option<string>, args: seq<int>)
    | MoveConstruct(id: nat, from: nat) | Assign(id: nat, from: nat) | Destroy(id: nat)

  // What the language lets a program write: constructors make new objects,
  // everything else is done to existing ones.
  predicate Legal(ids: set<nat>, step: Step) {
    && (step.Construct? || step.MoveConstruct? <==> step.id !in ids)
    && (step.MoveConstruct? || step.Assign? ==> step.from in ids)
  }

  function Put(s: System, id: nat, l: Layers): System { System(l.state, s.wrappers[id := l.w]) }

  const UNLOADED := Wrapper("", false)

  function Perform(s: System, step: Step): System
    requires Legal(s.wrappers.Keys, step)
  {
    match step
    case Construct(id) => System(s.state, s.wrappers[id := UNLOADED])
    case Load(id, path, compiled) => Put(s, id, LoadLayers(Layers(s.state, s.wrappers[id]), path, compiled))
    case Reset(id) => Put(s, id, ResetLayers(Layers(s.state, s.wrappers[id])))
    case Call(id, name, args) => s
    case MoveConstruct(id, from) => System(s.state, s.wrappers[id := s.wrappers[from]][from := UNLOADED])
    case Assign(id, from) =>
      if id == from then s else
      System(ResetLayers(Layers(s.state, s.wrappers[id])).state,
             s.wrappers[id := s.wrappers[from]][from := UNLOADED])
    case Destroy(id) => System(ResetLayers(Layers(s.state, s.wrappers[id])).state, s.wrappers - {id})
  }

  // What the caller sees of a step.
  function Seen(s: System, step: Step): seq<Reply>
    requires Legal(s.wrappers.Keys, step)
  {
    if step.Call? then [CallLayers(Layers(s.state, s.wrappers[step.id]), step.name, step.args)] else []
  }

  // Ownership: each wrapper has its own module or none.

  type Owners = map<nat, Option<Functions>>

  function Owned(own: Owners, step: Step): Owners
    requires Legal(own.Keys, step)
  {
    match step
    case Construct(id) => own[id := None]
    case Load(id, path, compiled) => own[id := compiled]
    case Reset(id) => own[id := None]
    case Call(id, name, args) => own
    case MoveConstruct(id, from) => own[id := own[from]][from := None]
    case Assign(id, from) => if id == from then own else own[id := own[from]][from := None]
    case Destroy(id) => own - {id}
  }

  // The module's function is called with these arguments in this order, when
  // there are at most eight.
  function OwnReply(module_: Option<Functions>, name: Option<string>, args: seq<int>): Reply {
    if module_.None? then Failed(NotLoaded)
    else if name.None? then Failed(NullName)
    else if name.value !in module_.value then Failed(NoFunction)
    else if |args| > 8 then Failed(TooManyArgs)
    else
      match module_.value[name.value].run(args)
      case Some(v) => Returned(v)
      case None => Failed(Panicked)
  }

  function Promised(own: Owners, step: Step): seq<Reply>
    requires Legal(own.Keys, step)
  {
    if step.Call? then [OwnReply(own[step.id], step.name, step.args)] else []
  }

  // No load while another wrapper is loaded.
  predicate OneAtATime(own: Owners, step: Step) {
    step.Load? ==> forall j :: j in own && j != step.id ==> own[j].None?
  }

  predicate Allowed(own: Owners, steps: seq<Step>)
    decreases |steps|
  {
    steps == [] || (Legal(own.Keys, steps[0]) && OneAtATime(own, steps[0]) && Allowed(Owned(own, steps[0]), steps[1..]))
  }

  predicate LegalRun(s: System, steps: seq<Step>)
    decreases |steps|
  {
    steps == [] || (Legal(s.wrappers.Keys, steps[0]) && LegalRun(Perform(s, steps[0]), steps[1..]))
  }

  function End(s: System, steps: seq<Step>): System
    requires LegalRun(s, steps)
    decreases |steps|
  {
    if steps == [] then s else End(Perform(s, steps[0]), steps[1..])
  }

  function AllSeen(s: System, steps: seq<Step>): seq<Reply>
    requires LegalRun(s, steps)
    decreases |steps|
  {
    if steps == [] then [] else Seen(s, steps[0]) + AllSeen(Perform(s, steps[0]), steps[1..])
  }

  function AllPromised(own: Owners, steps: seq<Step>): seq<Reply>
    requires Allowed(own, steps)
    decreases |steps|
  {
    if steps == [] then [] else Promised(own, steps[0]) + AllPromised(Owned(own, steps[0]), steps[1..])
  }

  function OwnedAfter(own: Owners, steps: seq<Step>): Owners
    requires Allowed(own, steps)
    decreases |steps|
  {
    if steps == [] then own else OwnedAfter(Owned(own, steps[0]), steps[1..])
  }

  // A loaded wrapper's module is the active one and is in the table.
  ghost predicate Holds(s: System, id: nat, functions: Functions)
    requires id in s.wrappers
  {
    && s.state.Some? && s.state.value.active == Some(UpToNul(s.wrappers[id].path))
    && UpToNul(s.wrappers[id].path) in s.state.value.modules
    && s.state.value.modules[UpToNul(s.wrappers[id].path)] == functions
  }

  // The runtime realises the ownership, and at most one wrapper is loaded.
  ghost predicate Realises(s: System, own: Owners) {
    && s.wrappers.Keys == own.Keys
    && (forall id :: id in own ==> (s.wrappers[id].loaded <==> own[id].Some?))
    && (forall id :: id in own && own[id].Some? ==> Holds(s, id, own[id].value))
    && forall a, b :: a in own && b in own && own[a].Some? && own[b].Some? ==> a == b
  }

  lemma LoadRealises(s: System, own: Owners, step: Step)
    requires Realises(s, own) && Legal(own.Keys, step) && OneAtATime(own, step) && step.Load?
    ensures Realises(Perform(s, step), Owned(own, step))
  {
    hide UpToNul;
  }

  lemma MoveRealises(s: System, own: Owners, step: Step)
    requires Realises(s, own) && Legal(own.Keys, step) && step.MoveConstruct?
    ensures Realises(Perform(s, step), Owned(own, step))
  {
    hide UpToNul;
    assert own[step.from].Some? ==> Holds(s, step.from, own[step.from].value);
  }

  // Moving into a loaded wrapper shuts the runtime down; the other is then unloaded.
  lemma AssignRealises(s: System, own: Owners, step: Step)
    requires Realises(s, own) && Legal(own.Keys, step) && step.Assign?
    ensures Realises(Perform(s, step), Owned(own, step))
  {
    hide UpToNul;
    if step.id != step.from && own[step.from].Some? {
      assert own[step.id].None? && Holds(s, step.from, own[step.from].value);
    }
  }

  lemma OtherRealises(s: System, own: Owners, step: Step)
    requires Realises(s, own) && Legal(own.Keys, step)
             && (step.Construct? || step.Reset? || step.Call? || step.Destroy?)
    ensures Realises(Perform(s, step), Owned(own, step))
  {
    hide UpToNul;
  }

  // Every step keeps this, moves included.
  lemma StepRealises(s: System, own: Owners, step: Step)
    requires Realises(s, own) && Legal(own.Keys, step) && OneAtATime(own, step)
    ensures s.wrappers.Keys == own.Keys && Seen(s, step) == Promised(own, step)
    ensures Realises(Perform(s, step), Owned(own, step))
  {
    hide Realises, Perform, Owned, Seen, Promised;
    if step.Load? {
      LoadRealises(s, own, step);
    } else if step.MoveConstruct? {
      MoveRealises(s, own, step);
    } else if step.Assign? {
      AssignRealises(s, own, step);
    } else {
      OtherRealises(s, own, step);
    }
    SameReplies(s, own, step);
  }

  lemma SameReplies(s: System, own: Owners, step: Step)
    requires Realises(s, own) && Legal(own.Keys, step)
    ensures s.wrappers.Keys == own.Keys && Seen(s, step) == Promised(own, step)
  {
    if step.Call? {
      SeenAsPromised(s, own, step);
    }
  }

  lemma SeenAsPromised(s: System, own: Owners, step: Step)
    requires Realises(s, own) && Legal(own.Keys, step) && step.Call?
    ensures Seen(s, step) == Promised(own, step)
  {
    var n := |step.args|;
    assert n > 0 ==> step.args[..n] == step.args;
    if own[step.id].Some? {
      assert Holds(s, step.id, own[step.id].value);
    }
  }

  // In every run that loads one wrapper at a time, callers see what ownership
  // promises, and each loaded wrapper's module stays active and present.
  lemma {:induction false} RunsAsPromised(s: System, own: Owners, steps: seq<Step>)
    requires Realises(s, own) && Allowed(own, steps)
    ensures LegalRun(s, steps) && AllSeen(s, steps) == AllPromised(own, steps)
    ensures Realises(End(s, steps), OwnedAfter(own, steps))
    decreases |steps|
  {
    hide Realises, Perform, Owned, OneAtATime, Seen, Promised;
    assert s.wrappers.Keys == own.Keys by { SameIds(s, own); }
    if steps != [] {
      StepRealises(s, own, steps[0]);
      RunsAsPromised(Perform(s, steps[0]), Owned(own, steps[0]), steps[1..]);
    }
  }

  lemma SameIds(s: System, own: Owners)
    requires Realises(s, own)
    ensures s.wrappers.Keys == own.Keys
  {
  }

  predicate Plain(r: Reply) {
    r.Failed? ==> r.error in {NotLoaded, NullName, NoFunction, TooManyArgs, Panicked}
  }

  // From a process without wrappers: the runtime's own "not initialized", "no
  // module loaded" and "active module not found" are never seen.
  lemma {:induction false} OnlyPlainReplies(own: Owners, steps: seq<Step>)
    requires Allowed(own, steps)
    ensures forall k :: 0 <= k < |AllPromised(own, steps)| ==> Plain(AllPromised(own, steps)[k])
    decreases |steps|
  {
    hide OneAtATime, Owned;
    if steps != [] {
      OnlyPlainReplies(Owned(own, steps[0]), steps[1..]);
    }
  }

  lemma ProcessRuns(state: Option<Global>, steps: seq<Step>)
    requires Allowed(map[], steps)
    ensures var s := System(state, map[]);
            LegalRun(s, steps) && AllSeen(s, steps) == AllPromised(map[], steps)
            && forall k :: 0 <= k < |AllSeen(s, steps)| ==> Plain(AllSeen(s, steps)[k])
  {
    hide Plain, Allowed, AllSeen, AllPromised, LegalRun, End;
    var s := System(state, map[]);
    assert Realises(s, map[]);
    RunsAsPromised(s, map[], steps);
    OnlyPlainReplies(map[], steps);
  }

  // After a reset, whatever else happens, a wrapper's calls fail until it is
  // loaded or moved into.
  predicate Spares(steps: seq<Step>, id: nat) {
    forall k :: 0 <= k < |steps| ==>
      steps[k].id != id || (!steps[k].Load? && !steps[k].Assign? && !steps[k].Destroy?)
  }

  lemma {:induction false} UnloadedUntilLoad(s: System, id: nat, steps: seq<Step>, name: Option<string>, args: seq<int>)
    requires id in s.wrappers && !s.wrappers[id].loaded && LegalRun(s, steps) && Spares(steps, id)
    ensures var e := End(s, steps);
            id in e.wrappers && !e.wrappers[id].loaded && Seen(e, Call(id, name, args)) == [Failed(NotLoaded)]
    decreases |steps|
  {
    if steps != [] {
      assert steps[0].id != id || (!steps[0].Load? && !steps[0].Assign? && !steps[0].Destroy?);
      assert forall k :: 0 <= k < |steps| - 1 ==> steps[1..][k] == steps[k + 1];
      UnloadedUntilLoad(Perform(s, steps[0]), id, steps[1..], name, args);
    }
  }

  // With several wrappers

  // Every loaded wrapper's module is active and present.
  ghost predicate Consistent(s: System) {
    forall id :: id in s.wrappers && s.wrappers[id].loaded ==>
      && s.state.Some? && s.state.value.active == Some(UpToNul(s.wrappers[id].path))
      && UpToNul(s.wrappers[id].path) in s.state.value.modules
  }

  // Loading keeps that exactly when every other loaded wrapper has the file
  // that was just loaded.
  lemma LoadKeepsExactly(s: System, id: nat, path: string, compiled: Option<Functions>)
    requires id in s.wrappers && Consistent(s)
    ensures Consistent(Perform(s, Load(id, path, compiled))) <==>
            forall j :: j in s.wrappers && j != id && s.wrappers[j].loaded ==>
              compiled.Some? && UpToNul(s.wrappers[j].path) == UpToNul(path)
  {
    hide UpToNul;
    var after := Perform(s, Load(id, path, compiled));
    assert forall j :: j in s.wrappers && j != id ==> after.wrappers[j] == s.wrappers[j];
  }

  // Resetting a loaded wrapper keeps it exactly when no other is loaded.
  lemma ResetKeepsExactly(s: System, id: nat)
    requires id in s.wrappers && Consistent(s)
    ensures Consistent(Perform(s, Reset(id))) <==>
            s.wrappers[id].loaded ==> forall j :: j in s.wrappers && j != id ==> !s.wrappers[j].loaded
  {
    hide UpToNul;
    var after := Perform(s, Reset(id));
    assert forall j :: j in s.wrappers && j != id ==> after.wrappers[j] == s.wrappers[j];
  }

  // So does destroying one, and moving into one.
  lemma DestroyKeepsExactly(s: System, id: nat)
    requires id in s.wrappers && Consistent(s)
    ensures Consistent(Perform(s, Destroy(id))) <==>
            s.wrappers[id].loaded ==> forall j :: j in s.wrappers && j != id ==> !s.wrappers[j].loaded
  {
    hide UpToNul;
    var after := Perform(s, Destroy(id));
    assert forall j :: j in s.wrappers && j != id ==> after.wrappers[j] == s.wrappers[j];
  }

  lemma AssignKeepsExactly(s: System, id: nat, from: nat)
    requires id in s.wrappers && from in s.wrappers && Consistent(s)
    ensures Consistent(Perform(s, Assign(id, from))) <==>
            id != from && s.wrappers[id].loaded ==> forall j :: j in s.wrappers && j != id ==> !s.wrappers[j].loaded
  {
    hide UpToNul;
    var after := Perform(s, Assign(id, from));
    if id != from {
      assert after.wrappers[id] == s.wrappers[from];
      assert forall j :: j in s.wrappers && j != id && j != from ==> after.wrappers[j] == s.wrappers[j];
    }
  }

  // The other steps keep it always.
  lemma OthersKeep(s: System, step: Step)
    requires Consistent(s) && Legal(s.wrappers.Keys, step) && (step.Construct? || step.Call? || step.MoveConstruct?)
    ensures Consistent(Perform(s, step))
  {
    hide UpToNul;
  }

  // With a second wrapper loaded, the first one's calls reach the second's
  // module, and after the second's failed load or reset, none.
  lemma SecondLoadReplaces(s: System, first: nat, id: nat, path: string, compiled: Option<Functions>, call: Step)
    requires first in s.wrappers && id in s.wrappers && first != id && s.wrappers[first].loaded
    requires call.Call? && call.id == first && call.name.Some?
    ensures var loaded := Perform(s, Load(id, path, compiled));
            var reply := if compiled.Some? then OwnReply(compiled, call.name, call.args) else Failed(NoModule);
            Seen(loaded, call) == [reply]
    ensures s.wrappers[id].loaded ==> Seen(Perform(s, Reset(id)), call) == [Failed(NotInitialized)]
  {
    hide UpToNul;
    assert |call.args| > 0 ==> call.args[..|call.args|] == call.args;
  }

  // The C functions by themselves

  // The module loaded last is in the table.
  predicate ActivePresent(state: Option<Global>) {
    state.Some? && state.value.active.Some? && state.value.active.value in state.value.modules
  }

  predicate Reachable(state: Option<Global>, name: string) {
    ActivePresent(state) && name in state.value.modules[state.value.active.value]
  }

  // Every reply of forgen_call_fn, and exactly when it is given. The result is
  // what the function of the active module makes of the first `count` arguments.
  lemma RepliesExactly(state: Option<Global>, name: Option<string>, args: Option<seq<int>>, count: nat, out: bool)
    requires args.Some? ==> count <= |args.value|
    ensures var r := CallReply(state, name, args, count, out);
            var sound := name.Some? && out && (count > 0 ==> args.Some?);
            && (r == Failed(NullName) <==> name.None?)
            && (r == Failed(NullOut) <==> name.Some? && !out)
            && (r == Failed(NullArgs) <==> name.Some? && out && count > 0 && args.None?)
            && (r == Failed(NotInitialized) <==> sound && state.None?)
            && (r == Failed(NoModule) <==> sound && state.Some? && state.value.active.None?)
            && (r == Failed(ActiveMissing) <==>
                sound && state.Some? && state.value.active.Some? && state.value.active.value !in state.value.modules)
            && (r == Failed(NoFunction) <==> sound && ActivePresent(state) && !Reachable(state, name.value))
            && (r == Failed(TooManyArgs) <==> sound && Reachable(state, name.value) && count > 8)
            && (r == Failed(Panicked) <==>
                sound && Reachable(state, name.value) && count <= 8
                && CodeOf(state, name.value).run(FirstOf(args, count)).None?)
            && forall v :: r == Returned(v) <==>
                 sound && Reachable(state, name.value) && count <= 8
                 && CodeOf(state, name.value).run(FirstOf(args, count)) == Some(v)
  {
  }

  function CodeOf(state: Option<Global>, name: string): Code
    requires Reachable(state, name)
  {
    state.value.modules[state.value.active.value][name]
  }

  // As many arguments as were counted, in their order.
  function FirstOf(args: Option<seq<int>>, count: nat): (r: seq<int>)
    requires if args.Some? then count <= |args.value| else count == 0
    ensures |r| == count && forall k :: 0 <= k < count ==> r[k] == args.value[k]
  {
    if args.None? then [] else args.value[..count]
  }

  // Loading keeps the other modules of the process and makes the new one active.
  lemma LoadsOne(state: Option<Global>, path: string, functions: Functions, other: string)
    ensures var after := Activated(state, path, functions);
            && after.Some? && after.value.active == Some(path)
            && (other in after.value.modules <==>
                other == path || (state.Some? && other in state.value.modules))
            && (other in after.value.modules ==>
                after.value.modules[other] == if other == path then functions else state.value.modules[other])
  {
  }

  // A wrapper's load leaves its module alone in the runtime, under the path as C
  // reads it, and a failed one nothing.
  lemma LoadsOnly(s: System, id: nat, path: string, compiled: Option<Functions>)
    requires id in s.wrappers
    ensures var after := Perform(s, Load(id, path, compiled));
            match compiled
            case Some(f) =>
              after.state == Some(Global(map[UpToNul(path) := f], Some(UpToNul(path))))
              && after.wrappers[id] == Wrapper(path, true)
            case None => after.state == Some(Global(map[], None)) && !after.wrappers[id].loaded
  {
    hide UpToNul;
  }

  // C reads a string up to its first NUL, and all of it without one.
  lemma {:induction false} UpToNulExactly(s: string)
    ensures var t := UpToNul(s);
            t <= s && '\0' !in t && (t == s || s[|t|] == '\0')
    decreases |s|
  {
    if s != "" && s[0] != '\0' {
      UpToNulExactly(s[1..]);
    }
  }
}
