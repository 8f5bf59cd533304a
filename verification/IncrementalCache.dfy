// The cache object: the walk with its shared set of visited keys, and the
// operations that change the fingerprints.
module IncrementalCache {
  import opened Text
  import opened Fnv
  import opened Incremental
  import opened IncrementalRecords

  class Visited {
    var keys: set<string>

    constructor ()
      ensures keys == {}
    {
      keys := {};
    }
  }

  class Cache {
    var fingerprints: map<string, Fingerprint>

    constructor ()
      ensures fingerprints == map[]
    {
      fingerprints := map[];
    }

    method IsModuleFresh(path: Path, content: seq<Byte>) returns (ok: bool)
      ensures forall lib, disk :: ok <==> Fresh(World(lib, fingerprints, disk), path, content)
    {
      hide Hash;
      var key := Normalize(path);
      if key in fingerprints {
        var hash := CalculateHash(content);
        return fingerprints[key].hash == hash;
      }
      return false;
    }

    // Matching keys are sorted and the first one taken.
    method FirstKey(lib: PathLib, ghost disk: Disk, dep: string) returns (r: Option<string>)
      ensures var w := World(lib, fingerprints, disk);
              if r.Some? then FirstMatch(w, dep, r.value) else NoMatch(w, dep)
    {
      r := None;
      var left := fingerprints.Keys;
      while left != {}
        invariant left <= fingerprints.Keys
        invariant r.Some? ==> r.value in fingerprints && r.value !in left && Named(lib, r.value, dep)
        invariant forall k :: k in fingerprints && k !in left && Named(lib, k, dep) ==>
          r.Some? && (k == r.value || StrLess(r.value, k))
        decreases |left|
      {
        var key :| key in left;
        left := left - {key};
        if Named(lib, key, dep) {
          if r.Some? {
            StrTotal(key, r.value);
            forall k | k in fingerprints && StrLess(key, r.value) && StrLess(r.value, k) ensures StrLess(key, k) {
              StrTransitive(key, r.value, k);
            }
          }
          if r.None? || StrLess(key, r.value) {
            r := Some(key);
          }
        }
      }
    }

    method ResolveDependency(lib: PathLib, disk: Disk, from: Path, dep: string) returns (r: Option<Path>)
      ensures r == Resolve(World(lib, fingerprints, disk), from, dep)
    {
      ghost var w := World(lib, fingerprints, disk);
      if dep == "" {
        return None;
      }
      if lib.isAbsolute(dep) && FileOf(lib, dep) in disk.exists_ {
        return Some(dep);
      }
      var base := match lib.parent(from) case Some(b) => b case None => ".";
      var cands := [lib.join(base, dep + ".dtr"), lib.join(base, dep), lib.join(lib.join(base, "src"), dep + ".dtr")];
      for i := 0 to |cands|
        invariant FirstExisting(w, cands) == FirstExisting(w, cands[i..])
      {
        if FileOf(lib, cands[i]) in disk.exists_ {
          return Some(cands[i]);
        }
      }
      var key := FirstKey(lib, disk, dep);
      if key.Some? {
        forall k | FirstMatch(w, dep, k) ensures k == key.value {
          FirstMatchUnique(w, dep, k, key.value);
        }
      }
      return key;
    }

    method CheckTransitive(lib: PathLib, disk: Disk, path: Path, content: seq<Byte>,
                           visited: Visited) returns (ok: bool)
      modifies visited
      ensures (ok, visited.keys) == Visit(World(lib, fingerprints, disk), path, content, old(visited.keys))
      decreases |fingerprints.Keys - visited.keys|
    {
      hide Hash, Resolve;
      ghost var w := World(lib, fingerprints, disk);
      var key := Normalize(path);
      if key in visited.keys {
        return true;
      }
      visited.keys := visited.keys + {key};
      if key !in fingerprints {
        return false;
      }
      var fp := fingerprints[key];
      var hash := CalculateHash(content);
      if fp.hash != hash {
        return false;
      }
      VisitedShrinks(w, key, old(visited.keys));
      for i := 0 to |fp.deps|
        invariant old(visited.keys) + {key} <= visited.keys
        invariant VisitDeps(w, path, fp.deps[i..], visited.keys) == Visit(w, path, content, old(visited.keys))
      {
        ghost var before := visited.keys;
        SubsetSize(fingerprints.Keys - before, fingerprints.Keys - (old(visited.keys) + {key}));
        var q := ResolveDependency(lib, disk, path, fp.deps[i]);
        if q.None? {
          continue;
        }
        var file := FileOf(lib, q.value);
        if file !in disk.files {
          return false; // it resolves, but cannot be read
        }
        ok := CheckTransitive(lib, disk, q.value, disk.files[file], visited);
        if !ok {
          return false;
        }
      }
      return true;
    }

    method IsModuleFreshTransitive(lib: PathLib, disk: Disk, path: Path, content: seq<Byte>) returns (ok: bool)
      ensures ok <==> FreshTransitive(World(lib, fingerprints, disk), path, content)
    {
      var visited := new Visited();
      ok := CheckTransitive(lib, disk, path, content, visited);
    }

    method UpdateModule(path: Path, content: seq<Byte>, deps: seq<string>, now: nat)
      modifies this
      ensures fingerprints == old(fingerprints)[Normalize(path) := Stored(Record(path, content, deps, now))]
    {
      var key := Normalize(path);
      var hash := CalculateHash(content);
      fingerprints := fingerprints[key := Fingerprint(key, hash, now, deps)];
    }

    method InvalidateModule(path: Path)
      modifies this
      ensures fingerprints == old(fingerprints) - {Normalize(path)}
    {
      fingerprints := fingerprints - {Normalize(path)};
    }
  }
}
