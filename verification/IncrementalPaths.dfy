// The cache over the two kinds of paths: with both slashes as separators keys
// never collide; with one, a backslash in a name is needed, and is enough.
module IncrementalPaths {
  import opened Text
  import opened Fnv
  import opened Incremental
  import opened IncrementalSound
  import opened IncrementalEdits

  // std::path on paths without "." components; for Windows with drive letters as
  // the only prefixes.

  predicate Sep(win: bool, c: char) { c == '/' || (win && c == '\\') }

  function DropSeps(win: bool, p: Path): (r: Path)
    ensures r <= p
  {
    if p != "" && Sep(win, p[|p| - 1]) then DropSeps(win, p[..|p| - 1]) else p
  }

  predicate Letter(c: char) { 'a' <= c <= 'z' || 'A' <= c <= 'Z' }

  predicate HasDrive(win: bool, p: Path) { win && |p| >= 2 && Letter(p[0]) && p[1] == ':' }

  predicate IsDrive(win: bool, p: Path) { HasDrive(win, p) && |p| == 2 }

  function DropName(win: bool, p: Path): (r: Path)
    ensures r <= p
  {
    if p != "" && !Sep(win, p[|p| - 1]) && !IsDrive(win, p) then DropName(win, p[..|p| - 1]) else p
  }

  predicate IsAbsolute(win: bool, p: Path) {
    if win then HasDrive(win, p) && |p| >= 3 && Sep(win, p[2]) else p != "" && p[0] == '/'
  }

  function Parent(win: bool, p: Path): Option<Path> {
    var a := DropSeps(win, p);
    if a == "" || IsDrive(win, a) then None else
    var b := DropName(win, a);
    var c := DropSeps(win, b);
    Some(if |c| < |b| && (c == "" || IsDrive(win, c)) then b[..|c| + 1] else c)
  }

  function Join(win: bool, p: Path, name: string): Path {
    if IsAbsolute(win, name) || HasDrive(win, name) then name
    else if win && name != "" && Sep(win, name[0]) then (if HasDrive(win, p) then p[..2] else "") + name
    else if p == "" || Sep(win, p[|p| - 1]) || IsDrive(win, p) then p + name
    else p + (if win then "\\" else "/") + name
  }

  function FileName(win: bool, p: Path): Option<string> {
    var a := DropSeps(win, p);
    var name := a[|DropName(win, a)|..];
    if name == "" || name == ".." then None else Some(name)
  }

  // Where the last dot of a name stands.
  function LastDot(name: string): Option<nat> {
    if name == "" then None
    else if name[|name| - 1] == '.' then Some(|name| - 1)
    else LastDot(name[..|name| - 1])
  }

  function Stem(win: bool, p: Path): Option<string> {
    var name := FileName(win, p);
    if name.None? then None else
    var dot := LastDot(name.value);
    if dot.None? || dot.value == 0 || dot.value > |name.value| then name else Some(name.value[..dot.value])
  }

  function Lib(win: bool): PathLib {
    PathLib(win, p => IsAbsolute(win, p), p => Parent(win, p), (p, name) => Join(win, p, name),
            p => Stem(win, p), p => FileName(win, p))
  }

  // What is right below a root, or on a drive.
  lemma RootChild(n: string, drive: char, slash: char)
    requires n != "" && n != ".." && (forall k :: 0 <= k < |n| ==> !Sep(true, n[k])) && !HasDrive(true, n)
    requires Letter(drive) && Sep(true, slash)
    ensures Parent(false, "/" + n) == Some("/") && Join(false, "/", n) == "/" + n
    ensures var root := [drive, ':', slash];
            Parent(true, root + n) == Some(root) && Join(true, root, n) == root + n
    ensures Join(true, [drive, ':'], n) == [drive, ':'] + n
    ensures Parent(false, "/") == None && Parent(true, [drive, ':', slash]) == None
  {
    var root, bare := [drive, ':', slash], [drive, ':'];
    DropToRoot(false, "/", n);
    DropToRoot(true, root, n);
    assert ("/" + n)[|n|] == n[|n| - 1] && (root + n)[|n| + 2] == n[|n| - 1];
    assert root[..2] == bare && root[..3] == root && "/"[..0] == "" && "/"[..1] == "/";
    assert DropSeps(true, bare) == bare && DropSeps(true, root) == bare;
    assert DropSeps(false, "") == "" && DropSeps(false, "/") == "";
    assert DropSeps(false, "/" + n) == "/" + n && DropSeps(true, root + n) == root + n;
  }

  lemma {:induction false} DropToRoot(win: bool, root: Path, n: string)
    requires root != "" && Sep(win, root[|root| - 1]) && forall k :: 0 <= k < |n| ==> !Sep(true, n[k])
    ensures DropName(win, root + n) == root
    decreases |n|
  {
    var p := root + n;
    if n == "" {
      assert p == root;
    } else {
      var m := |n| - 1;
      assert p[..|p| - 1] == root + n[..m] && p[|p| - 1] == n[m] && p[|root| - 1] == root[|root| - 1];
      DropToRoot(win, root, n[..m]);
    }
  }

  // Both slashes are alike on Windows

  lemma SameChars(p: Path, q: Path)
    requires Normalize(p) == Normalize(q)
    ensures |p| == |q| && forall k :: 0 <= k < |p| ==> p[k] == q[k] || (Sep(true, p[k]) && Sep(true, q[k]))
  {
    forall k | 0 <= k < |p| ensures p[k] == q[k] || (Sep(true, p[k]) && Sep(true, q[k])) {
      assert Normalize(p)[k] == Normalize(q)[k];
    }
  }

  lemma SamePrefix(p: Path, q: Path, k: nat)
    requires Normalize(p) == Normalize(q) && k <= |p|
    ensures k <= |q| && Normalize(p[..k]) == Normalize(q[..k])
  {
    assert Normalize(p[..k]) == Normalize(p)[..k] && Normalize(q[..k]) == Normalize(q)[..k];
  }

  lemma {:induction false} DropAlike(p: Path, q: Path)
    requires Normalize(p) == Normalize(q)
    ensures |DropSeps(true, p)| == |DropSeps(true, q)| && |DropName(true, p)| == |DropName(true, q)|
    decreases |p|
  {
    SameChars(p, q);
    if p != "" {
      SamePrefix(p, q, |p| - 1);
      DropAlike(p[..|p| - 1], q[..|p| - 1]);
    }
  }

  lemma DropsAlike(p: Path, q: Path)
    requires Normalize(p) == Normalize(q)
    ensures Normalize(DropSeps(true, p)) == Normalize(DropSeps(true, q))
    ensures Normalize(DropName(true, p)) == Normalize(DropName(true, q))
  {
    hide Normalize, DropSeps, DropName;
    DropAlike(p, q);
    var a, b := DropSeps(true, p), DropName(true, p);
    SameChars(p, q);
    SamePrefix(p, q, |a|);
    SamePrefix(p, q, |b|);
    assert a == p[..|a|] && b == p[..|b|];
    assert DropSeps(true, q) == q[..|a|] && DropName(true, q) == q[..|b|];
  }

  lemma ParentAlike(p: Path, q: Path)
    requires Normalize(p) == Normalize(q)
    ensures SameParent(Lib(true), p, q)
  {
    hide Normalize, DropSeps, DropName;
    DropsAlike(p, q);
    var a, a' := DropSeps(true, p), DropSeps(true, q);
    SameChars(a, a');
    DropsAlike(a, a');
    var b, b' := DropName(true, a), DropName(true, a');
    SameChars(b, b');
    DropsAlike(b, b');
    var c, c' := DropSeps(true, b), DropSeps(true, b');
    SameChars(c, c');
    if |c| < |b| {
      SamePrefix(b, b', |c| + 1);
    }
  }

  lemma ConcatAlike(p: Path, q: Path, t: string)
    requires Normalize(p) == Normalize(q)
    ensures Normalize(p + t) == Normalize(q + t)
  {
    assert Normalize(p + t) == Normalize(p) + Normalize(t);
    assert Normalize(q + t) == Normalize(q) + Normalize(t);
  }

  lemma JoinAlike(p: Path, q: Path, name: string)
    requires Normalize(p) == Normalize(q)
    ensures Normalize(Join(true, p, name)) == Normalize(Join(true, q, name))
  {
    hide Normalize;
    SameChars(p, q);
    ConcatAlike(p, q, name);
    ConcatAlike(p, q, "\\");
    ConcatAlike(p + "\\", q + "\\", name);
    if |p| >= 2 {
      SamePrefix(p, q, 2);
      ConcatAlike(p[..2], q[..2], name);
    }
  }

  // Both path libraries meet what the theorems ask of one.
  lemma LibPortable(win: bool)
    ensures Portable(Lib(win))
  {
    hide Normalize, Parent, Join;
    if win {
      forall p, q | Normalize(p) == Normalize(q) ensures SameParent(Lib(true), p, q) && SameJoin(Lib(true), p, q) {
        ParentAlike(p, q);
        forall name ensures Normalize(Lib(true).join(p, name)) == Normalize(Lib(true).join(q, name)) {
          JoinAlike(p, q, name);
        }
      }
    }
  }

  // On Windows the walk is right on every graph, with nothing asked of the keys.
  lemma FreshOnWindows(w: World, root: Path, content: seq<Byte>)
    requires w.lib == Lib(true)
    ensures FreshTransitive(w, root, content) <==> AllUnchanged(w, root, content)
  {
    hide FreshTransitive, AllUnchanged, Normalize, Reaches;
    LibPortable(true);
    hide Portable;
    FreshExactly(w, root, content);
  }

  // Elsewhere it is right when no reachable path has a backslash.
  lemma FreshWithoutBackslash(w: World, root: Path, content: seq<Byte>)
    requires w.lib == Lib(false) && forall p :: Reaches(w, root, p) ==> '\\' !in p
    ensures FreshTransitive(w, root, content) <==> AllUnchanged(w, root, content)
  {
    hide FreshTransitive, AllUnchanged, Reaches;
    LibPortable(false);
    hide Portable;
    forall p | Reaches(w, root, p) ensures Normalize(p) == p {
    }
    FreshExactly(w, root, content);
  }

  // Where a backslash is an ordinary character of a name, a/b.dtr and a\b.dtr are
  // two files with one key. The walk checks the first and takes the second, which
  // has changed, for already checked.
  const TWO_NAMES := World(
    Lib(false),
    map["r.dtr" := Fingerprint("r.dtr", Hash([]), 0, ["a/b", "a\\b"]),
        "a/b.dtr" := Fingerprint("a/b.dtr", Hash([0]), 0, [])],
    Disk({"r.dtr", "a/b.dtr", "a\\b.dtr"}, map["r.dtr" := [], "a/b.dtr" := [0], "a\\b.dtr" := [1]]))

  lemma NamesResolve()
    ensures Resolve(TWO_NAMES, "r.dtr", "a/b") == Some("a/b.dtr")
    ensures Resolve(TWO_NAMES, "r.dtr", "a\\b") == Some("a\\b.dtr")
  {
    hide Hash;
    RootParent();
    var w := TWO_NAMES;
    assert "a/b" + ".dtr" == "a/b.dtr" && "a\\b" + ".dtr" == "a\\b.dtr";
    assert Candidates(w, "r.dtr", "a/b")[0] == "a/b.dtr" && Candidates(w, "r.dtr", "a\\b")[0] == "a\\b.dtr";
  }

  lemma RootParent()
    ensures Parent(false, "r.dtr") == Some("")
  {
    var p := "r.dtr";
    assert p[..4] == "r.dt" && p[..4][..3] == "r.d" && p[..4][..3][..2] == "r." && p[..4][..3][..2][..1] == "r";
    assert DropName(false, "r") == "" by { assert "r"[..0] == ""; }
    assert DropName(false, "r.d") == DropName(false, "r.") == "";
  }

  lemma KeysCollide()
    ensures TWO_NAMES.lib == Lib(false)
    ensures FreshTransitive(TWO_NAMES, "r.dtr", []) && !AllUnchanged(TWO_NAMES, "r.dtr", [])
  {
    hide Hash, Resolve, Reaches, Lib;
    NamesResolve();
    assert Normalize("r.dtr") == "r.dtr" && Normalize("a/b.dtr") == "a/b.dtr" && Normalize("a\\b.dtr") == "a/b.dtr";
    assert !TWO_NAMES.lib.backslash by { NoBackslash(); }
    hide Normalize;
    var w, a, b := TWO_NAMES, "a/b.dtr", "a\\b.dtr";
    var deps, one, two := ["a/b", "a\\b"], {"r.dtr"}, {"r.dtr"} + {a};
    assert Visit(w, a, [0], one) == (true, two);
    assert Visit(w, b, [1], two) == (true, two);
    assert deps[1..] == ["a\\b"] && deps[1..][1..] == [];
    assert VisitDeps(w, "r.dtr", deps[1..], two) == (true, two);
    assert VisitDeps(w, "r.dtr", deps, one) == (true, two);
    assert {} + one == one;
    assert FreshTransitive(w, "r.dtr", []);
    ReachesSelf(w, "r.dtr");
    assert DependsOn(w, "r.dtr", b);
    ReachesNext(w, "r.dtr", "r.dtr", b);
    ZeroOne();
    assert !Unchanged(w, "r.dtr", [], b);
  }

  lemma NoBackslash()
    ensures !Lib(false).backslash
  {
  }
}
