// incremental.rs: the fingerprint cache and the walk that decides whether a
// module and everything it depends on is unchanged.
module Incremental {
  import opened Text
  import opened Fnv

  type Path = string

  datatype Fingerprint = Fingerprint(path: string, hash: string, lastModified: nat, deps: seq<string>)

  // The operations of std::path that the code uses, and whether a backslash
  // separates directories.
  datatype PathLib = PathLib(
    backslash: bool,
    isAbsolute: Path -> bool,
    parent: Path -> Option<Path>,
    join: (Path, string) -> Path,
    stem: Path -> Option<string>,
    fileName: Path -> Option<string>)

  // Which files exist, and what the readable ones hold.
  datatype Disk = Disk(exists_: set<Path>, files: map<Path, seq<Byte>>)

  datatype World = World(lib: PathLib, fps: map<string, Fingerprint>, disk: Disk)

  function Normalize(p: Path): string { seq(|p|, i requires 0 <= i < |p| => if p[i] == '\\' then '/' else p[i]) }

  // The file that a path names: where both slashes separate, either may be used.
  function FileOf(lib: PathLib, p: Path): Path { if lib.backslash then Normalize(p) else p }

  predicate Exists(w: World, p: Path) { FileOf(w.lib, p) in w.disk.exists_ }

  predicate Readable(w: World, p: Path) { FileOf(w.lib, p) in w.disk.files }

  function Read(w: World, p: Path): seq<Byte>
    requires Readable(w, p)
  {
    w.disk.files[FileOf(w.lib, p)]
  }

  // The order of Rust strings.
  predicate StrLess(a: string, b: string) {
    b != "" && (a == "" || a[0] < b[0] || (a[0] == b[0] && StrLess(a[1..], b[1..])))
  }

  lemma {:induction false} StrTotal(a: string, b: string)
    ensures StrLess(a, b) || StrLess(b, a) || a == b
    ensures !(StrLess(a, b) && StrLess(b, a))
    decreases |a|
  {
    if a != "" && b != "" {
      StrTotal(a[1..], b[1..]);
      assert a == [a[0]] + a[1..] && b == [b[0]] + b[1..];
    }
  }

  lemma {:induction false} StrTransitive(a: string, b: string, c: string)
    requires StrLess(a, b) && StrLess(b, c)
    ensures StrLess(a, c)
    decreases |a|
  {
    if a != "" && a[0] == b[0] == c[0] {
      StrTransitive(a[1..], b[1..], c[1..]);
    }
  }

  predicate Named(lib: PathLib, key: string, dep: string) {
    lib.stem(key) == Some(dep) || lib.fileName(key) == Some(dep)
  }

  // The first of the matching cache keys in sorted order.
  ghost predicate FirstMatch(w: World, dep: string, key: string) {
    && key in w.fps && Named(w.lib, key, dep)
    && forall k :: k in w.fps && Named(w.lib, k, dep) ==> k == key || StrLess(key, k)
  }

  ghost predicate NoMatch(w: World, dep: string) { forall k :: k in w.fps ==> !Named(w.lib, k, dep) }

  function Candidates(w: World, from: Path, dep: string): seq<Path> {
    var base := match w.lib.parent(from) case Some(b) => b case None => ".";
    [w.lib.join(base, dep + ".dtr"), w.lib.join(base, dep), w.lib.join(w.lib.join(base, "src"), dep + ".dtr")]
  }

  function FirstExisting(w: World, cands: seq<Path>): Option<Path> {
    if cands == [] then None
    else if Exists(w, cands[0]) then Some(cands[0]) else FirstExisting(w, cands[1..])
  }

  // What a recorded dependency name stands for.
  ghost function Resolve(w: World, from: Path, dep: string): Option<Path> {
    if dep == "" then None
    else if w.lib.isAbsolute(dep) && Exists(w, dep) then Some(dep)
    else if FirstExisting(w, Candidates(w, from, dep)).Some? then FirstExisting(w, Candidates(w, from, dep))
    else if NoMatch(w, dep) then None
    else if key :| FirstMatch(w, dep, key) then Some(key) else None
  }

  lemma FirstMatchUnique(w: World, dep: string, a: string, b: string)
    requires FirstMatch(w, dep, a) && FirstMatch(w, dep, b)
    ensures a == b
  {
    StrTotal(a, b);
  }

  // Freshness

  predicate Fresh(w: World, path: Path, content: seq<Byte>) {
    Normalize(path) in w.fps && w.fps[Normalize(path)].hash == Hash(content)
  }

  // The walk, as a function of the keys visited so far.
  ghost function Visit(w: World, path: Path, content: seq<Byte>, visited: set<string>): (r: (bool, set<string>))
    ensures visited <= r.1 && Normalize(path) in r.1
    decreases |w.fps.Keys - visited|, 0
  {
    var key := Normalize(path);
    if key in visited then (true, visited)
    else if !Fresh(w, path, content) then (false, visited + {key})
    else
      VisitedShrinks(w, key, visited);
      VisitDeps(w, path, w.fps[key].deps, visited + {key})
  }

  ghost function VisitDeps(w: World, path: Path, deps: seq<string>, visited: set<string>): (r: (bool, set<string>))
    ensures visited <= r.1
    decreases |w.fps.Keys - visited|, 1, |deps|
  {
    if deps == [] then (true, visited) else
    var q := Resolve(w, path, deps[0]);
    if q.None? then VisitDeps(w, path, deps[1..], visited)
    else if !Readable(w, q.value) then (false, visited)
    else
      var r := Visit(w, q.value, Read(w, q.value), visited);
      if !r.0 then r else
      SubsetSize(w.fps.Keys - r.1, w.fps.Keys - visited);
      VisitDeps(w, path, deps[1..], r.1)
  }

  lemma VisitedShrinks(w: World, key: string, visited: set<string>)
    requires key in w.fps && key !in visited
    ensures |w.fps.Keys - (visited + {key})| < |w.fps.Keys - visited|
  {
    assert w.fps.Keys - (visited + {key}) == (w.fps.Keys - visited) - {key};
  }

  lemma SubsetSize(a: set<string>, b: set<string>)
    requires a <= b
    ensures |a| <= |b|
  {
    assert b == a + (b - a);
  }

  ghost predicate FreshTransitive(w: World, path: Path, content: seq<Byte>) { Visit(w, path, content, {}).0 }
}
