// Edits of files against the cache: which of them the walk notices.
module IncrementalEdits {
  import opened Text
  import opened Fnv
  import opened Incremental
  import opened IncrementalSound

  // An edit touches contents only: the cache, the names and which files exist
  // stay the same, and so does the graph.
  ghost predicate SameGraph(w: World, w': World) {
    w'.lib == w.lib && w'.fps == w.fps && w'.disk.exists_ == w.disk.exists_
  }

  lemma ResolveSame(w: World, w': World, from: Path, dep: string)
    requires SameGraph(w, w')
    ensures Resolve(w', from, dep) == Resolve(w, from, dep)
  {
    FirstExistingSame(w, w', Candidates(w, from, dep));
    if !NoMatch(w, dep) {
      assert NoMatch(w', dep) <==> NoMatch(w, dep);
      forall key ensures FirstMatch(w', dep, key) <==> FirstMatch(w, dep, key) {
      }
      forall a, b | FirstMatch(w, dep, a) && FirstMatch(w, dep, b) ensures a == b {
        FirstMatchUnique(w, dep, a, b);
      }
    }
  }

  lemma {:induction false} FirstExistingSame(w: World, w': World, cands: seq<Path>)
    requires SameGraph(w, w')
    ensures FirstExisting(w', cands) == FirstExisting(w, cands)
    decreases |cands|
  {
    if cands != [] {
      FirstExistingSame(w, w', cands[1..]);
    }
  }

  lemma ReachesSame(w: World, w': World, root: Path)
    requires SameGraph(w, w')
    ensures forall p, q :: DependsOn(w', p, q) <==> DependsOn(w, p, q)
    ensures forall q :: Reaches(w', root, q) <==> Reaches(w, root, q)
  {
    hide Resolve, Normalize;
    forall from, dep ensures Resolve(w', from, dep) == Resolve(w, from, dep) {
      ResolveSame(w, w', from, dep);
    }
    assert forall p, q :: DependsOn(w', p, q) <==> DependsOn(w, p, q);
    hide DependsOn;
    assert forall walk :: IsWalk(w', walk) <==> IsWalk(w, walk);
  }

  // Once one byte of any reachable module has been replaced, or the module can no
  // longer be read, a fresh module is fresh no more, whatever else was edited.
  lemma NoMissedEdit(w: World, w': World, root: Path, content: seq<Byte>, content': seq<Byte>, q: Path)
    requires Portable(w.lib) && KeysDistinct(w, root) && FreshTransitive(w, root, content)
    requires SameGraph(w, w') && Reaches(w, root, q) && Edited(w, w', root, content, content', q)
    ensures !FreshTransitive(w', root, content')
  {
    hide Visit, Reaches, DependsOn, Hash, OneByteApart, Normalize, Portable;
    FreshExactly(w, root, content);
    ReachesSame(w, w', root);
    assert KeysDistinct(w', root);
    FreshExactly(w', root, content');
    assert Unchanged(w, root, content, q);
    if FreshTransitive(w', root, content') {
      assert Unchanged(w', root, content', q);
      HashSeparates(ContentOf(w, root, content, q).value, ContentOf(w', root, content', q).value);
    }
  }

  // One byte of a module is replaced, or the module cannot be read any more.
  ghost predicate Edited(w: World, w': World, root: Path, content: seq<Byte>, content': seq<Byte>, q: Path) {
    var old', new' := ContentOf(w, root, content, q), ContentOf(w', root, content', q);
    old'.Some? && new'.Some? ==> OneByteApart(old'.value, new'.value)
  }

  // What the walk reads

  // The files whose contents a walk depends on, beside the content it is given.
  ghost function Reads(w: World, path: Path, content: seq<Byte>, visited: set<string>): set<Path>
    decreases |w.fps.Keys - visited|, 0
  {
    var key := Normalize(path);
    if key in visited || !Fresh(w, path, content) then {} else
    VisitedShrinks(w, key, visited);
    ReadsDeps(w, path, w.fps[key].deps, visited + {key})
  }

  ghost function ReadsDeps(w: World, path: Path, deps: seq<string>, visited: set<string>): set<Path>
    decreases |w.fps.Keys - visited|, 1, |deps|
  {
    if deps == [] then {} else
    var q := Resolve(w, path, deps[0]);
    if q.None? then ReadsDeps(w, path, deps[1..], visited)
    else if !Readable(w, q.value) then {}
    else
      var here := ReadsAt(w, q.value, visited) + Reads(w, q.value, Read(w, q.value), visited);
      var r := Visit(w, q.value, Read(w, q.value), visited);
      if !r.0 then here else
      SubsetSize(w.fps.Keys - r.1, w.fps.Keys - visited);
      here + ReadsDeps(w, path, deps[1..], r.1)
  }

  // The content of a module that is already visited does not matter.
  ghost function ReadsAt(w: World, q: Path, visited: set<string>): set<Path> {
    if Normalize(q) in visited then {} else {FileOf(w.lib, q)}
  }

  // At most one file for each key, and none for the keys visited before.
  ghost predicate OnePerKey(files: set<Path>, before: set<string>, after: set<string>) {
    && (forall f :: f in files ==> Normalize(f) in after && Normalize(f) !in before)
    && forall f, g :: f in files && g in files && Normalize(f) == Normalize(g) ==> f == g
  }

  lemma OneMore(f: Path, files: set<Path>, before: set<string>, after: set<string>)
    requires OnePerKey(files, before + {Normalize(f)}, after) && Normalize(f) in after && Normalize(f) !in before
    ensures OnePerKey(files + {f}, before, after)
  {
    hide Normalize;
  }

  lemma OneThenOther(a: set<Path>, b: set<Path>, before: set<string>, mid: set<string>, after: set<string>)
    requires OnePerKey(a, before, mid) && OnePerKey(b, mid, after) && before <= mid <= after
    ensures OnePerKey(a + b, before, after)
  {
    hide Normalize;
  }

  lemma FileKey(lib: PathLib, p: Path)
    ensures Normalize(FileOf(lib, p)) == Normalize(p)
  {
  }

  lemma {:induction false} ReadsOnce(w: World, path: Path, content: seq<Byte>, visited: set<string>)
    ensures OnePerKey(Reads(w, path, content, visited), visited + {Normalize(path)}, Visit(w, path, content, visited).1)
    decreases |w.fps.Keys - visited|, 0
  {
    hide Normalize, Resolve, Hash;
    var key := Normalize(path);
    if key !in visited && Fresh(w, path, content) {
      VisitedShrinks(w, key, visited);
      DepsReadOnce(w, path, w.fps[key].deps, visited + {key});
    }
  }

  lemma {:induction false} DepsReadOnce(w: World, path: Path, deps: seq<string>, visited: set<string>)
    ensures OnePerKey(ReadsDeps(w, path, deps, visited), visited, VisitDeps(w, path, deps, visited).1)
    decreases |w.fps.Keys - visited|, 1, |deps|
  {
    hide Normalize, Resolve, OnePerKey, Reads, Visit, FileOf;
    if deps == [] {
      NoneRead(visited);
    } else {
      var q := Resolve(w, path, deps[0]);
      if q.None? {
        DepsReadOnce(w, path, deps[1..], visited);
      } else if !Readable(w, q.value) {
        NoneRead(visited);
      } else {
        var c := Read(w, q.value);
        var r := Visit(w, q.value, c, visited);
        ReadsOnce(w, q.value, c, visited);
        HereOnce(w, q.value, c, visited);
        if r.0 {
          SubsetSize(w.fps.Keys - r.1, w.fps.Keys - visited);
          DepsReadOnce(w, path, deps[1..], r.1);
          var here := ReadsAt(w, q.value, visited) + Reads(w, q.value, c, visited);
          OneThenOther(here, ReadsDeps(w, path, deps[1..], r.1), visited, r.1, VisitDeps(w, path, deps[1..], r.1).1);
        }
      }
    }
  }

  lemma NoneRead(visited: set<string>)
    ensures OnePerKey({}, visited, visited)
  {
  }

  lemma HereOnce(w: World, q: Path, c: seq<Byte>, visited: set<string>)
    requires OnePerKey(Reads(w, q, c, visited), visited + {Normalize(q)}, Visit(w, q, c, visited).1)
    ensures OnePerKey(ReadsAt(w, q, visited) + Reads(w, q, c, visited), visited, Visit(w, q, c, visited).1)
  {
    hide Normalize, OnePerKey, FileOf, Visit, Reads;
    var key, rest := Normalize(q), Reads(w, q, c, visited);
    FileKey(w.lib, q);
    if key in visited {
      assert visited + {key} == visited;
      assert {} + rest == rest;
    } else {
      OneMore(FileOf(w.lib, q), rest, visited, Visit(w, q, c, visited).1);
      assert {FileOf(w.lib, q)} + rest == rest + {FileOf(w.lib, q)};
    }
  }

  // Contents that were not read do not matter.

  ghost predicate AgreeOn(w: World, w': World, files: set<Path>) {
    && SameGraph(w, w') && w'.disk.files.Keys == w.disk.files.Keys
    && forall f :: f in files && f in w.disk.files ==> w'.disk.files[f] == w.disk.files[f]
  }

  lemma AgreeOnLess(w: World, w': World, files: set<Path>, less: set<Path>)
    requires AgreeOn(w, w', files) && less <= files
    ensures AgreeOn(w, w', less)
  {
  }

  lemma {:induction false} UnreadVisit(w: World, w': World, path: Path, content: seq<Byte>, visited: set<string>)
    requires AgreeOn(w, w', Reads(w, path, content, visited))
    ensures Visit(w', path, content, visited) == Visit(w, path, content, visited)
    decreases |w.fps.Keys - visited|, 0
  {
    hide Normalize, Resolve, Hash;
    var key := Normalize(path);
    if key !in visited && Fresh(w, path, content) {
      VisitedShrinks(w, key, visited);
      UnreadDeps(w, w', path, w.fps[key].deps, visited + {key});
    }
  }

  lemma {:induction false} UnreadDeps(w: World, w': World, path: Path, deps: seq<string>, visited: set<string>)
    requires AgreeOn(w, w', ReadsDeps(w, path, deps, visited))
    ensures VisitDeps(w', path, deps, visited) == VisitDeps(w, path, deps, visited)
    decreases |w.fps.Keys - visited|, 1, |deps|
  {
    hide Normalize, Resolve, FileOf, Reads, Visit;
    if deps != [] {
      ResolveSame(w, w', path, deps[0]);
      var q := Resolve(w, path, deps[0]);
      if q.None? {
        UnreadDeps(w, w', path, deps[1..], visited);
      } else if Readable(w, q.value) {
        var c := Read(w, q.value);
        var r := Visit(w, q.value, c, visited);
        AgreeOnLess(w, w', ReadsDeps(w, path, deps, visited), Reads(w, q.value, c, visited));
        UnreadVisit(w, w', q.value, c, visited);
        UnreadHere(w, w', q.value, visited);
        if r.0 {
          SubsetSize(w.fps.Keys - r.1, w.fps.Keys - visited);
          AgreeOnLess(w, w', ReadsDeps(w, path, deps, visited), ReadsDeps(w, path, deps[1..], r.1));
          UnreadDeps(w, w', path, deps[1..], r.1);
        }
      }
    }
  }

  // A visited module is not looked at again.
  lemma UnreadHere(w: World, w': World, q: Path, visited: set<string>)
    requires AgreeOn(w, w', ReadsAt(w, q, visited)) && Readable(w, q)
    ensures Readable(w', q) && Visit(w', q, Read(w', q), visited) == Visit(w', q, Read(w, q), visited)
  {
    hide VisitDeps, FileOf, Normalize;
  }

  // Where keys do not tell files apart

  // One of two files with one key is not read.
  lemma SomeUnread(w: World, root: Path, content: seq<Byte>) returns (u: Path)
    requires !KeysDistinct(w, root)
    ensures Reaches(w, root, u) && FileOf(w.lib, u) != FileOf(w.lib, root)
    ensures FileOf(w.lib, u) !in Reads(w, root, content, {})
  {
    hide Normalize, Reaches, FileOf, Reads, Visit;
    var p, q :| Reaches(w, root, p) && Reaches(w, root, q) && Normalize(p) == Normalize(q)
                && FileOf(w.lib, p) != FileOf(w.lib, q);
    ReadsOnce(w, root, content, {});
    FileKey(w.lib, p);
    FileKey(w.lib, q);
    FileKey(w.lib, root);
    var files, f, g := Reads(w, root, content, {}), FileOf(w.lib, p), FileOf(w.lib, q);
    if Normalize(p) == Normalize(root) {
      u := if f == FileOf(w.lib, root) then q else p;
      assert Normalize(FileOf(w.lib, u)) in {} + {Normalize(root)};
    } else {
      u := if f in files then q else p;
    }
  }

  function Rewritten(w: World, file: Path, c: seq<Byte>): World {
    w.(disk := w.disk.(files := w.disk.files[file := c]))
  }

  // A file that is not read may be rewritten, and the walk still answers fresh.
  lemma UnreadEdit(w: World, root: Path, content: seq<Byte>, u: Path, c: seq<Byte>)
    requires AllUnchanged(w, root, content) && Reaches(w, root, u) && FileOf(w.lib, u) != FileOf(w.lib, root)
    requires FileOf(w.lib, u) !in Reads(w, root, content, {})
    ensures var w' := Rewritten(w, FileOf(w.lib, u), c);
            && SameGraph(w, w') && Reaches(w', root, u) && FreshTransitive(w', root, content)
            && ContentOf(w, root, content, u).Some? && ContentOf(w', root, content, u) == Some(c)
    ensures Hash(c) != Hash(ContentOf(w, root, content, u).value) ==>
              !AllUnchanged(Rewritten(w, FileOf(w.lib, u), c), root, content)
  {
    hide Normalize, Reaches, FileOf, Reads, Visit, Hash, DependsOn;
    var w' := Rewritten(w, FileOf(w.lib, u), c);
    assert Unchanged(w, root, content, u);
    FreshWhenUnchanged(w, root, content);
    assert w'.disk.files.Keys == w.disk.files.Keys;
    UnreadVisit(w, w', root, content, {});
    ReachesSame(w, w', root);
    assert ContentOf(w', root, content, u) == Some(c);
    if AllUnchanged(w', root, content) {
      assert Unchanged(w', root, content, u);
    }
  }

  ghost predicate AlwaysRight(w: World, root: Path) {
    forall w', content' :: SameGraph(w, w') ==>
      (FreshTransitive(w', root, content') <==> AllUnchanged(w', root, content'))
  }

  // With everything recorded as it is, the walk answers rightly after every edit
  // of contents if and only if reachable paths with one cache key name one file.
  lemma KeysExactly(w: World, root: Path, content: seq<Byte>)
    requires Portable(w.lib) && AllUnchanged(w, root, content)
    ensures KeysDistinct(w, root) <==> AlwaysRight(w, root)
  {
    hide Normalize, Reaches, FileOf, Reads, Visit, Hash, AllUnchanged, Portable;
    if KeysDistinct(w, root) {
      forall w', content' | SameGraph(w, w')
        ensures FreshTransitive(w', root, content') <==> AllUnchanged(w', root, content')
      {
        DistinctAfter(w, w', root);
        FreshExactly(w', root, content');
      }
    } else {
      var u := SomeUnread(w, root, content);
      UnreadEdit(w, root, content, u, [0]);
      UnreadEdit(w, root, content, u, [1]);
      ZeroOne();
      assert SameGraph(w, Rewritten(w, FileOf(w.lib, u), [0])) && SameGraph(w, Rewritten(w, FileOf(w.lib, u), [1]));
    }
  }

  lemma DistinctAfter(w: World, w': World, root: Path)
    requires KeysDistinct(w, root) && SameGraph(w, w')
    ensures KeysDistinct(w', root)
  {
    hide Normalize, Reaches, FileOf;
    ReachesSame(w, w', root);
  }

  lemma ZeroOne()
    ensures Hash([0]) != Hash([1])
  {
    hide Hash;
    var a: seq<Byte>, b: seq<Byte> := [0], [1];
    assert a[..0] == b[..0] && a[1..] == b[1..];
    HashSeparates(a, b);
  }

  // No edit of one byte, or removal of a file, is missed.
  ghost predicate NoticesEdits(w: World, root: Path, content: seq<Byte>) {
    forall w', content', q ::
      SameGraph(w, w') && Reaches(w, root, q) && Edited(w, w', root, content, content', q) ==>
        !FreshTransitive(w', root, content')
  }

  // The same condition decides whether every edit of one byte is noticed, where
  // no reachable file is empty.
  lemma EditsExactly(w: World, root: Path, content: seq<Byte>)
    requires Portable(w.lib) && AllUnchanged(w, root, content)
    requires forall p :: Reaches(w, root, p) ==> ContentOf(w, root, content, p) != Some([])
    ensures KeysDistinct(w, root) <==> NoticesEdits(w, root, content)
  {
    hide Normalize, Reaches, FileOf, Reads, Visit, Hash, AllUnchanged, Portable, OneByteApart;
    FreshWhenUnchanged(w, root, content);
    if KeysDistinct(w, root) {
      forall w', content', q | SameGraph(w, w') && Reaches(w, root, q) && Edited(w, w', root, content, content', q)
        ensures !FreshTransitive(w', root, content')
      {
        NoMissedEdit(w, w', root, content, content', q);
      }
    } else {
      var u := SomeUnread(w, root, content);
      UnreadEdit(w, root, content, u, []);
      var was := ContentOf(w, root, content, u).value;
      var c := was[0 := 255 - was[0]];
      OneByteChanged(was);
      UnreadEdit(w, root, content, u, c);
      assert Edited(w, Rewritten(w, FileOf(w.lib, u), c), root, content, content, u);
    }
  }

  lemma OneByteChanged(a: seq<Byte>)
    requires a != []
    ensures OneByteApart(a, a[0 := 255 - a[0]])
  {
    var b := a[0 := 255 - a[0]];
    assert a[0] != b[0] && a[..0] == b[..0] && a[1..] == b[1..];
  }
}
