// What recording and invalidating modules does to the walk.
module IncrementalRecords {
  import opened Text
  import opened Fnv
  import opened Incremental
  import opened IncrementalSound
  import opened IncrementalPaths
  import opened IncrementalNames

  datatype Record = Record(path: Path, content: seq<Byte>, deps: seq<string>, now: nat)

  // What update_module stores under the key of the path.
  function Stored(r: Record): Fingerprint { Fingerprint(Normalize(r.path), Hash(r.content), r.now, r.deps) }

  function Recorded(fps: map<string, Fingerprint>, rs: seq<Record>): map<string, Fingerprint> {
    if rs == [] then fps else
    var last := rs[|rs| - 1];
    Recorded(fps, rs[..|rs| - 1])[Normalize(last.path) := Stored(last)]
  }

  function AfterRecords(w: World, rs: seq<Record>): World { w.(fps := Recorded(w.fps, rs)) }

  lemma {:induction false} LastRecord(fps: map<string, Fingerprint>, rs: seq<Record>, r: Record)
    requires r in rs
    ensures exists s :: s in rs && Normalize(s.path) == Normalize(r.path)
                        && Normalize(r.path) in Recorded(fps, rs) && Recorded(fps, rs)[Normalize(r.path)] == Stored(s)
  {
    hide Normalize, Hash;
    var n := |rs| - 1;
    if Normalize(rs[n].path) == Normalize(r.path) {
      assert rs[n] in rs;
    } else {
      assert rs == rs[..n] + [rs[n]];
      LastRecord(fps, rs[..n], r);
    }
  }

  // What was recorded last for a module decides: it is fresh with a content of
  // that hash, and depends on what the recorded names stand for.
  lemma RecordedExactly(w: World, rs: seq<Record>, r: Record)
    ensures var w' := AfterRecords(w, rs + [r]);
            && (forall c :: Fresh(w', r.path, c) <==> Hash(c) == Hash(r.content))
            && forall q :: DependsOn(w', r.path, q) <==>
                 exists dep :: dep in r.deps && Resolve(w', r.path, dep) == Some(q)
  {
    hide Hash, Normalize, Resolve;
    assert (rs + [r])[..|rs|] == rs;
  }

  // After every reachable module has been recorded as it is, in any order and
  // however often, the root is transitively fresh.
  lemma RecordedIsFresh(w: World, root: Path, content: seq<Byte>, rs: seq<Record>)
    requires Readable(w, root)
    requires forall r :: r in rs ==> ContentOf(w, root, content, r.path) == Some(r.content)
    requires forall r, s :: r in rs && s in rs && Normalize(r.path) == Normalize(s.path) ==>
      FileOf(w.lib, r.path) == FileOf(w.lib, s.path)
    requires forall p :: Reaches(AfterRecords(w, rs), root, p) ==>
      exists r :: r in rs && FileOf(w.lib, r.path) == FileOf(w.lib, p)
    ensures FreshTransitive(AfterRecords(w, rs), root, content)
  {
    hide Normalize, Hash, Reaches, Recorded, DependsOn, FreshTransitive;
    var w' := AfterRecords(w, rs);
    forall p | Reaches(w', root, p) ensures Unchanged(w', root, content, p) {
      RecordedAsIs(w, root, content, rs, p);
      forall q | DependsOn(w', p, q) ensures Readable(w', q) {
        ReachesNext(w', root, p, q);
        RecordedAsIs(w, root, content, rs, q);
      }
    }
    FreshWhenUnchanged(w', root, content);
  }

  lemma RecordedAsIs(w: World, root: Path, content: seq<Byte>, rs: seq<Record>, p: Path)
    requires forall r :: r in rs ==> ContentOf(w, root, content, r.path) == Some(r.content)
    requires forall r, s :: r in rs && s in rs && Normalize(r.path) == Normalize(s.path) ==>
      FileOf(w.lib, r.path) == FileOf(w.lib, s.path)
    requires exists r :: r in rs && FileOf(w.lib, r.path) == FileOf(w.lib, p)
    ensures var w' := AfterRecords(w, rs);
            ContentOf(w', root, content, p).Some? && Fresh(w', p, ContentOf(w', root, content, p).value)
  {
    hide Hash, Recorded;
    var r :| r in rs && FileOf(w.lib, r.path) == FileOf(w.lib, p);
    assert Normalize(r.path) == Normalize(p);
    hide Normalize;
    LastRecord(w.fps, rs, r);
  }

  // Invalidating

  function Without(w: World, q: Path): World { w.(fps := w.fps - {Normalize(q)}) }

  // No file fits the name.
  predicate NoFile(w: World, from: Path, dep: string) {
    !(w.lib.isAbsolute(dep) && Exists(w, dep)) && FirstExisting(w, Candidates(w, from, dep)).None?
  }

  lemma {:induction false} FirstExistingWithout(w: World, q: Path, cands: seq<Path>)
    ensures FirstExisting(Without(w, q), cands) == FirstExisting(w, cands)
    decreases |cands|
  {
    if cands != [] {
      FirstExistingWithout(w, q, cands[1..]);
    }
  }

  // The name stands for a cache key only because no file fits it.
  ghost predicate ByName(w: World, from: Path, dep: string, key: string) {
    dep != "" && NoFile(w, from, dep) && FirstMatch(w, dep, key)
  }

  predicate Lists(w: World, p: Path, dep: string) { Normalize(p) in w.fps && dep in w.fps[Normalize(p)].deps }

  // No reachable module finds the key by name alone.
  ghost predicate NoneByName(w: World, root: Path, key: string) {
    forall p, dep :: Reaches(w, root, p) && Lists(w, p, dep) ==> !ByName(w, p, dep, key)
  }

  // Where a reachable module does, no second key has the name.
  ghost predicate OnlyName(w: World, root: Path, key: string) {
    forall p, dep :: Reaches(w, root, p) && Lists(w, p, dep) && ByName(w, p, dep, key) ==> NoOther(w, dep, key)
  }

  ghost predicate NoOther(w: World, dep: string, key: string) {
    forall k :: k in w.fps && Named(w.lib, k, dep) ==> k == key
  }

  lemma ResolveWithout(w: World, q: Path, from: Path, dep: string)
    requires ByName(w, from, dep, Normalize(q)) ==> NoOther(w, dep, Normalize(q))
    ensures Resolve(Without(w, q), from, dep)
         == if ByName(w, from, dep, Normalize(q)) then None else Resolve(w, from, dep)
  {
    hide Normalize, Named;
    var w' := Without(w, q);
    FirstExistingWithout(w, q, Candidates(w, from, dep));
    if NoFile(w, from, dep) && !NoMatch(w, dep) && !ByName(w, from, dep, Normalize(q)) && dep != "" {
      MatchWithout(w, q, dep);
      forall a, b | FirstMatch(w, dep, a) && FirstMatch(w, dep, b) ensures a == b {
        FirstMatchUnique(w, dep, a, b);
      }
    }
  }

  // Leaving out a key that does not come first keeps the one that does.
  lemma MatchWithout(w: World, q: Path, dep: string)
    requires !FirstMatch(w, dep, Normalize(q)) && !NoMatch(w, dep)
    ensures !NoMatch(Without(w, q), dep)
    ensures forall key :: FirstMatch(Without(w, q), dep, key) <==> FirstMatch(w, dep, key)
  {
    hide Normalize, Named;
    var first := LeastKey(w, dep, w.fps.Keys);
    forall key ensures FirstMatch(Without(w, q), dep, key) <==> FirstMatch(w, dep, key) {
      if FirstMatch(Without(w, q), dep, key) {
        StrTotal(first, key);
      }
    }
  }

  // A dependency that is not found by name alone under the key.
  ghost predicate Steps(w: World, key: string, p: Path, r: Path) {
    exists dep :: Lists(w, p, dep) && Resolve(w, p, dep) == Some(r) && !ByName(w, p, dep, key)
  }

  ghost predicate IsStepWalk(w: World, key: string, walk: seq<Path>) {
    walk != [] && forall i :: 0 <= i < |walk| - 1 ==> Steps(w, key, walk[i], walk[i + 1])
  }

  ghost predicate StepsTo(w: World, key: string, p: Path, q: Path) {
    exists walk :: IsStepWalk(w, key, walk) && walk[0] == p && walk[|walk| - 1] == q
  }

  lemma EdgesWithout(w: World, root: Path, q: Path, p: Path)
    requires OnlyName(w, root, Normalize(q)) && Reaches(w, root, p)
    ensures forall r :: DependsOn(Without(w, q), p, r) <==> Steps(w, Normalize(q), p, r) && Normalize(p) != Normalize(q)
  {
    hide Normalize, Resolve, ByName, NoOther, Reaches;
    forall dep | Lists(w, p, dep)
      ensures Resolve(Without(w, q), p, dep)
           == if ByName(w, p, dep, Normalize(q)) then None else Resolve(w, p, dep)
    {
      ResolveWithout(w, q, p, dep);
    }
  }

  lemma {:induction false} StepWalkIsWalk(w: World, key: string, walk: seq<Path>)
    requires IsStepWalk(w, key, walk)
    ensures IsWalk(w, walk)
  {
    hide Normalize, Resolve, ByName;
  }

  // A walk without the key takes only such steps.
  lemma {:induction false} WalkWithin(w: World, root: Path, q: Path, walk: seq<Path>)
    requires OnlyName(w, root, Normalize(q)) && IsWalk(Without(w, q), walk) && walk[0] == root
    ensures IsStepWalk(w, Normalize(q), walk)
    decreases |walk|
  {
    hide Normalize, OnlyName, DependsOn, Steps, Reaches;
    var n := |walk| - 1;
    if n > 0 {
      WalkWithin(w, root, q, walk[..n]);
      StepWalkReaches(w, root, Normalize(q), walk[..n]);
      EdgesWithout(w, root, q, walk[n - 1]);
      assert DependsOn(Without(w, q), walk[n - 1], walk[n - 1 + 1]);
    }
  }

  lemma StepWalkReaches(w: World, root: Path, key: string, walk: seq<Path>)
    requires IsStepWalk(w, key, walk) && walk[0] == root
    ensures Reaches(w, root, walk[|walk| - 1])
  {
    hide Steps, DependsOn;
    StepWalkIsWalk(w, key, walk);
  }

  // Up to the first path with the key, such a walk stays a walk.
  lemma {:induction false} WalkWithout(w: World, root: Path, q: Path, walk: seq<Path>)
    requires OnlyName(w, root, Normalize(q)) && IsStepWalk(w, Normalize(q), walk) && walk[0] == root
    ensures Reaches(Without(w, q), root, walk[|walk| - 1])
            || exists p :: Reaches(Without(w, q), root, p) && Normalize(p) == Normalize(q)
    decreases |walk|
  {
    hide Normalize, OnlyName, DependsOn, Steps, Reaches;
    var w', n := Without(w, q), |walk| - 1;
    if n == 0 {
      ReachesSelf(w', root);
    } else {
      WalkWithout(w, root, q, walk[..n]);
      StepWalkReaches(w, root, Normalize(q), walk[..n]);
      EdgesWithout(w, root, q, walk[n - 1]);
      assert Steps(w, Normalize(q), walk[n - 1], walk[n - 1 + 1]);
      if Reaches(w', root, walk[n - 1]) && Normalize(walk[n - 1]) != Normalize(q) {
        ReachesNext(w', root, walk[n - 1], walk[n]);
      }
    }
  }

  lemma ReachesWithin(w: World, root: Path, q: Path, p: Path)
    requires OnlyName(w, root, Normalize(q)) && Reaches(Without(w, q), root, p)
    ensures StepsTo(w, Normalize(q), root, p) && Reaches(w, root, p)
  {
    hide Normalize, OnlyName, DependsOn, Steps;
    var walk :| IsWalk(Without(w, q), walk) && walk[0] == root && walk[|walk| - 1] == p;
    WalkWithin(w, root, q, walk);
    StepWalkReaches(w, root, Normalize(q), walk);
  }

  lemma StillReached(w: World, root: Path, q: Path, p: Path) returns (p': Path)
    requires OnlyName(w, root, Normalize(q)) && StepsTo(w, Normalize(q), root, p) && Normalize(p) == Normalize(q)
    ensures Reaches(Without(w, q), root, p') && Normalize(p') == Normalize(q)
  {
    hide Reaches, Steps, OnlyName, Normalize;
    var walk :| IsStepWalk(w, Normalize(q), walk) && walk[0] == root && walk[|walk| - 1] == p;
    WalkWithout(w, root, q, walk);
    if Reaches(Without(w, q), root, p) {
      p' := p;
    } else {
      p' :| Reaches(Without(w, q), root, p') && Normalize(p') == Normalize(q);
    }
  }

  lemma UnchangedWithout(w: World, root: Path, content: seq<Byte>, q: Path, p: Path)
    requires OnlyName(w, root, Normalize(q)) && Reaches(w, root, p) && Normalize(p) != Normalize(q)
    requires Unchanged(w, root, content, p)
    ensures Unchanged(Without(w, q), root, content, p)
  {
    hide Normalize, OnlyName, Resolve, Reaches, Hash, ByName;
    EdgesWithout(w, root, q, p);
    assert forall r :: Steps(w, Normalize(q), p, r) ==> DependsOn(w, p, r);
    hide Steps, DependsOn;
  }

  // Invalidating a module makes stale exactly the roots that step to its key:
  // dependencies that found it by name alone, when no second key has the name,
  // are passed over from then on.
  lemma LostNamesExactly(w: World, root: Path, content: seq<Byte>, q: Path)
    requires Portable(w.lib) && KeysDistinct(w, root) && AllUnchanged(w, root, content)
    requires OnlyName(w, root, Normalize(q))
    ensures FreshTransitive(Without(w, q), root, content)
       <==> forall p :: StepsTo(w, Normalize(q), root, p) ==> Normalize(p) != Normalize(q)
  {
    hide Normalize, Reaches, StepsTo, FreshTransitive, OnlyName, Unchanged, Portable;
    var w' := Without(w, q);
    forall p | Reaches(w', root, p) ensures StepsTo(w, Normalize(q), root, p) && Reaches(w, root, p) {
      ReachesWithin(w, root, q, p);
    }
    assert KeysDistinct(w', root);
    FreshExactly(w', root, content);
    if forall p :: StepsTo(w, Normalize(q), root, p) ==> Normalize(p) != Normalize(q) {
      forall p | Reaches(w', root, p) ensures Unchanged(w', root, content, p) {
        UnchangedWithout(w, root, content, q, p);
      }
    } else {
      var p :| StepsTo(w, Normalize(q), root, p) && Normalize(p) == Normalize(q);
      var p' := StillReached(w, root, q, p);
      NotUnchanged(w, root, content, q, p');
    }
  }

  lemma NotUnchanged(w: World, root: Path, content: seq<Byte>, q: Path, p: Path)
    requires Normalize(p) == Normalize(q)
    ensures !Unchanged(Without(w, q), root, content, p)
  {
    hide Normalize, DependsOn;
  }

  lemma {:induction false} WalkIsStepWalk(w: World, root: Path, key: string, walk: seq<Path>)
    requires NoneByName(w, root, key) && IsWalk(w, walk) && walk[0] == root
    ensures IsStepWalk(w, key, walk)
  {
    hide Normalize, Resolve, ByName, Reaches;
    forall i | 0 <= i < |walk| - 1 ensures Steps(w, key, walk[i], walk[i + 1]) {
      assert Reaches(w, root, walk[i]) by { PrefixReaches(w, walk, i); }
      assert DependsOn(w, walk[i], walk[i + 1]);
    }
  }

  lemma PrefixReaches(w: World, walk: seq<Path>, i: nat)
    requires IsWalk(w, walk) && i < |walk|
    ensures Reaches(w, walk[0], walk[i])
  {
    hide DependsOn;
    assert IsWalk(w, walk[..i + 1]) && walk[..i + 1][i] == walk[i];
  }

  // When no reachable module finds it by name alone, that is every root that
  // reaches its key.
  lemma InvalidatedExactly(w: World, root: Path, content: seq<Byte>, q: Path)
    requires Portable(w.lib) && KeysDistinct(w, root) && AllUnchanged(w, root, content)
    requires NoneByName(w, root, Normalize(q))
    ensures FreshTransitive(Without(w, q), root, content)
       <==> forall p :: Reaches(w, root, p) ==> Normalize(p) != Normalize(q)
  {
    hide Normalize, FreshTransitive, ByName, AllUnchanged, Portable, KeysDistinct;
    forall p ensures StepsTo(w, Normalize(q), root, p) <==> Reaches(w, root, p) {
      hide NoneByName, IsWalk, IsStepWalk;
      forall walk: seq<Path> | walk != [] && walk[0] == root
        ensures IsStepWalk(w, Normalize(q), walk) <==> IsWalk(w, walk)
      {
        if IsWalk(w, walk) {
          WalkIsStepWalk(w, root, Normalize(q), walk);
        }
        if IsStepWalk(w, Normalize(q), walk) {
          StepWalkIsWalk(w, Normalize(q), walk);
        }
      }
      assert forall walk: seq<Path> :: IsWalk(w, walk) ==> walk != [];
    }
    LostNamesExactly(w, root, content, q);
  }

  // A dependency found by its name alone is lost with its key: the walk passes
  // over the name, and the root stays fresh.
  const BY_NAME := World(
    Lib(false),
    map["r.dtr" := Fingerprint("r.dtr", Hash([]), 0, ["b"]), "lib/b.dtr" := Fingerprint("lib/b.dtr", Hash([0]), 0, [])],
    Disk({"r.dtr", "lib/b.dtr"}, map["r.dtr" := [], "lib/b.dtr" := [0]]))

  lemma FoundByName()
    ensures Resolve(BY_NAME, "r.dtr", "b") == Some("lib/b.dtr")
    ensures Resolve(Without(BY_NAME, "lib/b.dtr"), "r.dtr", "b") == None
  {
    hide Candidates, FirstExisting, FirstMatch, NoMatch, Hash;
    var w, c := BY_NAME, Candidates(BY_NAME, "r.dtr", "b");
    NoFileFits();
    FirstExistingWithout(w, "lib/b.dtr", c);
    OneNameFits();
    var key := Resolve(w, "r.dtr", "b").value;
    FirstMatchUnique(w, "b", key, "lib/b.dtr");
  }

  lemma NoFileFits()
    ensures FirstExisting(BY_NAME, Candidates(BY_NAME, "r.dtr", "b")) == None
    ensures Candidates(Without(BY_NAME, "lib/b.dtr"), "r.dtr", "b") == Candidates(BY_NAME, "r.dtr", "b")
  {
    hide Hash, Join, Parent;
    RootParent();
    var w, c := BY_NAME, Candidates(BY_NAME, "r.dtr", "b");
    assert c == ["b.dtr", "b", "src/b.dtr"] by { Joins(); }
    assert FirstExisting(w, c) == FirstExisting(w, c[1..]) == FirstExisting(w, c[1..][1..]) == None;
  }

  lemma OneNameFits()
    ensures FirstMatch(BY_NAME, "b", "lib/b.dtr") && !NoMatch(BY_NAME, "b")
    ensures NoMatch(Without(BY_NAME, "lib/b.dtr"), "b")
  {
    hide Hash, Named;
    NamesOf();
    assert Normalize("lib/b.dtr") == "lib/b.dtr";
  }

  lemma NamesOf()
    ensures Named(Lib(false), "lib/b.dtr", "b") && !Named(Lib(false), "r.dtr", "b")
  {
    hide Named;
    NamedExactly(false, "lib", '/', "b.dtr", "b");
    assert "lib" + ['/'] + "b.dtr" == "lib/b.dtr" && "b.dtr" == "b" + "." + "dtr";
    NamedExactly(false, "", '/', "r.dtr", "b");
    assert forall ext :: "r.dtr" == "b" + "." + ext ==> "r.dtr"[0] == ("b" + "." + ext)[0];
  }

  lemma Joins()
    ensures Join(false, "", "b" + ".dtr") == "b.dtr" && Join(false, "", "b") == "b"
    ensures Join(false, Join(false, "", "src"), "b" + ".dtr") == "src/b.dtr"
  {
    assert "b" + ".dtr" == "b.dtr" && "src" + "/" + "b.dtr" == "src/b.dtr";
  }

  lemma InvalidatedByName()
    ensures Reaches(BY_NAME, "r.dtr", "lib/b.dtr") && FreshTransitive(BY_NAME, "r.dtr", [])
    ensures FreshTransitive(Without(BY_NAME, "lib/b.dtr"), "r.dtr", [])
  {
    hide Hash, Resolve, Reaches, Lib;
    FoundByName();
    var w, w' := BY_NAME, Without(BY_NAME, "lib/b.dtr");
    assert Normalize("r.dtr") == "r.dtr" && Normalize("lib/b.dtr") == "lib/b.dtr";
    assert !w.lib.backslash by { NoBackslash(); }
    hide Normalize;
    var deps, one := ["b"], {"r.dtr"};
    assert {} + one == one && deps[1..] == [];
    assert VisitDeps(w', "r.dtr", deps, one) == (true, one);
    assert Visit(w, "lib/b.dtr", [0], one) == (true, one + {"lib/b.dtr"});
    assert VisitDeps(w, "r.dtr", deps, one) == (true, one + {"lib/b.dtr"});
    ReachesSelf(w, "r.dtr");
    assert DependsOn(w, "r.dtr", "lib/b.dtr");
    ReachesNext(w, "r.dtr", "r.dtr", "lib/b.dtr");
  }
}
