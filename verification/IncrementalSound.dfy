// The walk against the plain statement: everything reachable is unchanged.
module IncrementalSound {
  import opened Text
  import opened Fnv
  import opened Incremental

  // A recorded dependency of p that resolves to q.
  ghost predicate DependsOn(w: World, p: Path, q: Path) {
    Normalize(p) in w.fps && exists dep :: dep in w.fps[Normalize(p)].deps && Resolve(w, p, dep) == Some(q)
  }

  ghost predicate IsWalk(w: World, walk: seq<Path>) {
    walk != [] && forall i :: 0 <= i < |walk| - 1 ==> DependsOn(w, walk[i], walk[i + 1])
  }

  ghost predicate Reaches(w: World, p: Path, q: Path) {
    exists walk :: IsWalk(w, walk) && walk[0] == p && walk[|walk| - 1] == q
  }

  // The caller passes the root's content; the others are read from disk.
  function ContentOf(w: World, root: Path, content: seq<Byte>, p: Path): Option<seq<Byte>> {
    if FileOf(w.lib, p) == FileOf(w.lib, root) then Some(content) else if Readable(w, p) then Some(Read(w, p)) else None
  }

  ghost predicate Unchanged(w: World, root: Path, content: seq<Byte>, p: Path) {
    ContentOf(w, root, content, p).Some? && Fresh(w, p, ContentOf(w, root, content, p).value)
    && forall q :: DependsOn(w, p, q) ==> Readable(w, q)
  }

  // Every module reachable through recorded dependencies that resolve is
  // recorded, readable and has its recorded hash.
  ghost predicate AllUnchanged(w: World, root: Path, content: seq<Byte>) {
    forall p :: Reaches(w, root, p) ==> Unchanged(w, root, content, p)
  }

  // Reachable paths with one cache key name one file.
  ghost predicate KeysDistinct(w: World, root: Path) {
    forall p, q :: Reaches(w, root, p) && Reaches(w, root, q) && Normalize(p) == Normalize(q) ==>
      FileOf(w.lib, p) == FileOf(w.lib, q)
  }

  // Where both slashes separate, it does not matter which of them a path has.
  ghost predicate Portable(lib: PathLib) {
    lib.backslash ==> forall p, q :: Normalize(p) == Normalize(q) ==> SameParent(lib, p, q) && SameJoin(lib, p, q)
  }

  predicate SameParent(lib: PathLib, p: Path, q: Path) {
    var a, b := lib.parent(p), lib.parent(q);
    if a.None? then b.None? else b.Some? && Normalize(a.value) == Normalize(b.value)
  }

  ghost predicate SameJoin(lib: PathLib, p: Path, q: Path) {
    forall name :: Normalize(lib.join(p, name)) == Normalize(lib.join(q, name))
  }

  lemma ReachesSelf(w: World, p: Path)
    ensures Reaches(w, p, p)
  {
    assert IsWalk(w, [p]);
  }

  lemma ReachesNext(w: World, root: Path, p: Path, q: Path)
    requires Reaches(w, root, p) && DependsOn(w, p, q)
    ensures Reaches(w, root, q)
  {
    hide DependsOn;
    var walk :| IsWalk(w, walk) && walk[0] == root && walk[|walk| - 1] == p;
    assert IsWalk(w, walk + [q]);
  }

  // A key stands for a reachable, unchanged module whose dependencies all have
  // their keys among `keys`.
  ghost predicate Settled(w: World, root: Path, content: seq<Byte>, k: string, keys: set<string>) {
    exists p :: Normalize(p) == k && Reaches(w, root, p) && Unchanged(w, root, content, p)
                && forall q :: DependsOn(w, p, q) ==> Normalize(q) in keys
  }

  lemma SettledMore(w: World, root: Path, content: seq<Byte>, k: string, keys: set<string>, more: set<string>)
    requires Settled(w, root, content, k, keys) && keys <= more
    ensures Settled(w, root, content, k, more)
  {
  }

  // What a successful walk visits, it settles.
  lemma {:induction false} VisitSettles(w: World, root: Path, content: seq<Byte>, path: Path, c: seq<Byte>,
                                        visited: set<string>)
    requires Visit(w, path, c, visited).0 && Reaches(w, root, path)
    requires Normalize(path) !in visited ==> ContentOf(w, root, content, path) == Some(c)
    requires path == root || Normalize(root) in visited
    ensures forall k :: k in Visit(w, path, c, visited).1 && k !in visited ==>
      Settled(w, root, content, k, Visit(w, path, c, visited).1)
    decreases |w.fps.Keys - visited|, 0
  {
    hide Settled, Reaches, Normalize, Resolve, Hash;
    var key := Normalize(path);
    if key !in visited {
      VisitedShrinks(w, key, visited);
      var deps, keys := w.fps[key].deps, Visit(w, path, c, visited).1;
      DepsSettle(w, root, content, path, deps, visited + {key});
      assert Settled(w, root, content, key, keys) by {
        SettlesSelf(w, root, content, path, keys);
      }
    }
  }

  lemma SettlesSelf(w: World, root: Path, content: seq<Byte>, path: Path, keys: set<string>)
    requires Reaches(w, root, path) && Normalize(path) in w.fps
    requires ContentOf(w, root, content, path).Some? && Fresh(w, path, ContentOf(w, root, content, path).value)
    requires forall dep :: dep in w.fps[Normalize(path)].deps && Resolve(w, path, dep).Some? ==>
      var q := Resolve(w, path, dep).value; Readable(w, q) && Normalize(q) in keys
    ensures Settled(w, root, content, Normalize(path), keys)
  {
    hide Reaches, Normalize, Resolve, Hash;
  }

  lemma {:induction false} DepsSettle(w: World, root: Path, content: seq<Byte>, path: Path, deps: seq<string>,
                                      visited: set<string>)
    requires VisitDeps(w, path, deps, visited).0 && Reaches(w, root, path) && Normalize(root) in visited
    requires Normalize(path) in w.fps && forall dep :: dep in deps ==> dep in w.fps[Normalize(path)].deps
    ensures var keys := VisitDeps(w, path, deps, visited).1;
            (forall dep :: dep in deps && Resolve(w, path, dep).Some? ==>
              var q := Resolve(w, path, dep).value; Readable(w, q) && Normalize(q) in keys)
            && forall k :: k in keys && k !in visited ==> Settled(w, root, content, k, keys)
    decreases |w.fps.Keys - visited|, 1, |deps|
  {
    hide Settled, Reaches, Normalize, Resolve, Hash;
    if deps != [] {
      var q := Resolve(w, path, deps[0]);
      if q.None? {
        DepsSettle(w, root, content, path, deps[1..], visited);
      } else {
        ReachesNext(w, root, path, q.value);
        VisitSettles(w, root, content, q.value, Read(w, q.value), visited);
        var mid := Visit(w, q.value, Read(w, q.value), visited).1;
        SubsetSize(w.fps.Keys - mid, w.fps.Keys - visited);
        DepsSettle(w, root, content, path, deps[1..], mid);
        var keys := VisitDeps(w, path, deps[1..], mid).1;
        forall k | k in mid && k !in visited ensures Settled(w, root, content, k, keys) {
          SettledMore(w, root, content, k, mid, keys);
        }
      }
    }
  }

  lemma {:induction false} WalkSettled(w: World, root: Path, content: seq<Byte>, keys: set<string>, walk: seq<Path>)
    requires Portable(w.lib) && KeysDistinct(w, root) && IsWalk(w, walk) && walk[0] == root
    requires Normalize(root) in keys && forall k :: k in keys ==> Settled(w, root, content, k, keys)
    ensures Normalize(walk[|walk| - 1]) in keys && Unchanged(w, root, content, walk[|walk| - 1])
    decreases |walk|
  {
    hide Normalize, DependsOn, Unchanged, Portable, KeysDistinct;
    var n := |walk| - 1;
    if n > 0 {
      assert IsWalk(w, walk[..n]);
      WalkSettled(w, root, content, keys, walk[..n]);
      var last := walk[n - 1];
      assert Reaches(w, root, last) by { assert walk[..n][|walk[..n]| - 1] == last; }
      SettledIsIt(w, root, content, last, keys);
      assert DependsOn(w, last, walk[n]);
    }
    assert Reaches(w, root, walk[n]);
    SettledIsIt(w, root, content, walk[n], keys);
  }

  // Two answers that are none, or paths with one key.
  predicate Alike(a: Option<Path>, b: Option<Path>) {
    if a.None? then b.None? else b.Some? && Normalize(a.value) == Normalize(b.value)
  }

  lemma {:induction false} FirstExistingAlike(w: World, a: seq<Path>, b: seq<Path>)
    requires w.lib.backslash && |a| == |b| && forall k :: 0 <= k < |a| ==> Normalize(a[k]) == Normalize(b[k])
    ensures Alike(FirstExisting(w, a), FirstExisting(w, b))
    decreases |a|
  {
    hide Normalize;
    if a != [] {
      FirstExistingAlike(w, a[1..], b[1..]);
    }
  }

  lemma CandidatesAlike(w: World, p: Path, q: Path, dep: string)
    requires w.lib.backslash && Portable(w.lib) && Normalize(p) == Normalize(q)
    ensures Alike(FirstExisting(w, Candidates(w, p, dep)), FirstExisting(w, Candidates(w, q, dep)))
  {
    hide Normalize;
    var lib, name := w.lib, dep + ".dtr";
    var a := match lib.parent(p) case Some(b) => b case None => ".";
    var b := match lib.parent(q) case Some(b) => b case None => ".";
    assert SameParent(lib, p, q);
    assert SameJoin(lib, a, b);
    assert SameJoin(lib, lib.join(a, "src"), lib.join(b, "src"));
    FirstExistingAlike(w, Candidates(w, p, dep), Candidates(w, q, dep));
  }

  // A name stands for one file, whichever way the path it is seen from is spelt.
  lemma ResolveAlike(w: World, p: Path, q: Path, dep: string)
    requires Portable(w.lib) && FileOf(w.lib, p) == FileOf(w.lib, q)
    ensures Alike(Resolve(w, p, dep), Resolve(w, q, dep))
    ensures Resolve(w, p, dep).Some? ==>
      FileOf(w.lib, Resolve(w, p, dep).value) == FileOf(w.lib, Resolve(w, q, dep).value)
  {
    hide Normalize, Portable, Candidates;
    if w.lib.backslash {
      CandidatesAlike(w, p, q, dep);
    }
  }

  // When keys tell files apart, a settled key settles every path it belongs to.
  lemma SettledIsIt(w: World, root: Path, content: seq<Byte>, p: Path, keys: set<string>)
    requires Portable(w.lib) && KeysDistinct(w, root) && Reaches(w, root, p) && Normalize(p) in keys
    requires forall k :: k in keys ==> Settled(w, root, content, k, keys)
    ensures Unchanged(w, root, content, p)
    ensures forall q :: DependsOn(w, p, q) ==> Normalize(q) in keys
  {
    hide Normalize, Portable, Resolve, Reaches, Fresh;
    assert Settled(w, root, content, Normalize(p), keys);
    var p' :| Normalize(p') == Normalize(p) && Reaches(w, root, p') && Unchanged(w, root, content, p')
              && forall q :: DependsOn(w, p', q) ==> Normalize(q) in keys;
    forall q | DependsOn(w, p, q) ensures Readable(w, q) && Normalize(q) in keys {
      var dep :| dep in w.fps[Normalize(p)].deps && Resolve(w, p, dep) == Some(q);
      ResolveAlike(w, p, p', dep);
      assert DependsOn(w, p', Resolve(w, p', dep).value);
    }
    FreshByKey(w, p, p');
  }

  lemma FreshByKey(w: World, p: Path, q: Path)
    requires Normalize(p) == Normalize(q)
    ensures forall c :: Fresh(w, p, c) <==> Fresh(w, q, c)
  {
  }

  // A walk never fails while everything reachable is unchanged, whatever the
  // keys.
  lemma {:induction false} VisitSucceeds(w: World, root: Path, content: seq<Byte>, path: Path, c: seq<Byte>,
                                         visited: set<string>)
    requires AllUnchanged(w, root, content) && Reaches(w, root, path)
    requires Normalize(path) !in visited ==> ContentOf(w, root, content, path) == Some(c)
    requires path == root || Normalize(root) in visited
    ensures Visit(w, path, c, visited).0
    decreases |w.fps.Keys - visited|, 0
  {
    hide Reaches, Normalize, Resolve, Hash;
    var key := Normalize(path);
    if key !in visited {
      assert Unchanged(w, root, content, path);
      VisitedShrinks(w, key, visited);
      DepsSucceed(w, root, content, path, w.fps[key].deps, visited + {key});
    }
  }

  lemma {:induction false} DepsSucceed(w: World, root: Path, content: seq<Byte>, path: Path, deps: seq<string>,
                                       visited: set<string>)
    requires AllUnchanged(w, root, content) && Reaches(w, root, path) && Normalize(root) in visited
    requires Normalize(path) in w.fps && forall dep :: dep in deps ==> dep in w.fps[Normalize(path)].deps
    ensures VisitDeps(w, path, deps, visited).0
    decreases |w.fps.Keys - visited|, 1, |deps|
  {
    hide Reaches, Normalize, Resolve, Hash;
    if deps != [] {
      var q := Resolve(w, path, deps[0]);
      if q.None? {
        DepsSucceed(w, root, content, path, deps[1..], visited);
      } else {
        assert DependsOn(w, path, q.value);
        assert Unchanged(w, root, content, path);
        ReachesNext(w, root, path, q.value);
        VisitSucceeds(w, root, content, q.value, Read(w, q.value), visited);
        var mid := Visit(w, q.value, Read(w, q.value), visited).1;
        SubsetSize(w.fps.Keys - mid, w.fps.Keys - visited);
        DepsSucceed(w, root, content, path, deps[1..], mid);
      }
    }
  }

  lemma FreshWhenUnchanged(w: World, root: Path, content: seq<Byte>)
    requires AllUnchanged(w, root, content)
    ensures FreshTransitive(w, root, content)
  {
    hide AllUnchanged, Visit, Reaches;
    ReachesSelf(w, root);
    VisitSucceeds(w, root, content, root, content, {});
  }

  // The walk answers "fresh" exactly when everything reachable is unchanged,
  // on any graph, cycles included.
  lemma FreshExactly(w: World, root: Path, content: seq<Byte>)
    requires Portable(w.lib) && KeysDistinct(w, root)
    ensures FreshTransitive(w, root, content) <==> AllUnchanged(w, root, content)
  {
    hide Visit, Unchanged, Settled, KeysDistinct, Portable, Normalize;
    if AllUnchanged(w, root, content) {
      FreshWhenUnchanged(w, root, content);
    }
    if FreshTransitive(w, root, content) {
      ReachesSelf(w, root);
      VisitSettles(w, root, content, root, content, {});
      var keys := Visit(w, root, content, {}).1;
      forall p | Reaches(w, root, p) ensures Unchanged(w, root, content, p) {
        var walk :| IsWalk(w, walk) && walk[0] == root && walk[|walk| - 1] == p;
        WalkSettled(w, root, content, keys, walk);
      }
    }
  }

  // A transitively fresh module is fresh by itself.
  lemma TransitiveIsStronger(w: World, root: Path, content: seq<Byte>)
    requires FreshTransitive(w, root, content)
    ensures Fresh(w, root, content)
  {
    hide VisitDeps, Hash;
  }
}
