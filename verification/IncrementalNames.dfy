// What a recorded dependency name stands for, in the words of a file system:
// files beside the module, then below src, then recorded modules of that name.
module IncrementalNames {
  import opened Text
  import opened Incremental
  import opened IncrementalPaths

  // A name of one file or directory.
  predicate Part(win: bool, n: string) {
    n != "" && n != ".." && !HasDrive(win, n) && forall k :: 0 <= k < |n| ==> !Sep(win, n[k])
  }

  // A directory that is no root and no drive, or the current one.
  predicate Directory(win: bool, d: Path) { d == "" || (!Sep(win, d[|d| - 1]) && !IsDrive(win, d)) }

  // The path of what is in a directory, with this slash between.
  function Inside(d: Path, slash: string, n: string): Path { if d == "" then n else d + slash + n }

  function Slash(win: bool): string { if win then "\\" else "/" }

  // What stands after the last slash is the name.
  lemma {:induction false} DropNameIs(win: bool, d: Path, slash: char, n: string)
    requires Sep(win, slash) && forall k :: 0 <= k < |n| ==> !Sep(win, n[k])
    ensures DropName(win, d + [slash] + n) == d + [slash]
    decreases |n|
  {
    var p := d + [slash] + n;
    assert p[|d|] == slash;
    if n == "" {
      assert p == d + [slash];
    } else {
      var m := |n| - 1;
      assert p[..|p| - 1] == d + [slash] + n[..m] && p[|p| - 1] == n[m];
      assert !IsDrive(win, p) by { NoDriveWithin(win, p, |d|); }
      DropNameIs(win, d, slash, n[..m]);
    }
  }

  lemma NoDriveWithin(win: bool, p: Path, k: nat)
    requires k < |p| && Sep(win, p[k])
    ensures !IsDrive(win, p)
  {
  }

  lemma DropSepsIs(win: bool, d: Path, slash: char)
    requires Sep(win, slash) && d != "" && !Sep(win, d[|d| - 1])
    ensures DropSeps(win, d) == d && DropSeps(win, d + [slash]) == d
  {
    assert (d + [slash])[..|d|] == d;
  }

  lemma {:induction false} DropAll(win: bool, n: string)
    requires !HasDrive(win, n) && forall k :: 0 <= k < |n| ==> !Sep(win, n[k])
    ensures DropName(win, n) == ""
    decreases |n|
  {
    if n != "" {
      assert !HasDrive(win, n[..|n| - 1]);
      DropAll(win, n[..|n| - 1]);
    }
  }

  lemma ParentIs(win: bool, d: Path, slash: char, n: string)
    requires Sep(win, slash) && Directory(win, d) && Part(win, n)
    ensures Parent(win, Inside(d, [slash], n)) == Some(d)
  {
    hide DropSeps, DropName;
    if d == "" {
      DropSepsIs(win, n, slash);
      DropAll(win, n);
      assert DropSeps(win, "") == "" by { NothingToDrop(win); }
    } else {
      ParentBelow(win, d, slash, n);
    }
  }

  lemma NothingToDrop(win: bool)
    ensures DropSeps(win, "") == ""
  {
  }

  lemma ParentBelow(win: bool, d: Path, slash: char, n: string)
    requires Sep(win, slash) && Directory(win, d) && d != "" && Part(win, n)
    ensures Parent(win, d + [slash] + n) == Some(d)
  {
    hide DropSeps, DropName;
    var p := d + [slash] + n;
    assert p[|p| - 1] == n[|n| - 1] && p[|d|] == slash;
    DropSepsIs(win, p, slash);
    NoDriveWithin(win, p, |d|);
    DropNameIs(win, d, slash, n);
    DropSepsIs(win, d, slash);
  }

  lemma JoinIs(win: bool, d: Path, n: string)
    requires Directory(win, d) && n != "" && !Sep(win, n[0]) && !HasDrive(win, n)
    ensures Join(win, d, n) == Inside(d, Slash(win), n)
  {
  }

  lemma PartLonger(win: bool, n: string)
    requires Part(win, n)
    ensures !HasDrive(win, n + ".dtr") && !Sep(win, (n + ".dtr")[0])
  {
    assert |n| >= 2 ==> (n + ".dtr")[1] == n[1];
    assert (n + ".dtr")[0] == n[0];
  }

  lemma CandidatesAre(w: World, win: bool, d: Path, slash: char, n: string, dep: string)
    requires w.lib == Lib(win) && Sep(win, slash) && Directory(win, d) && Part(win, n) && Part(win, dep)
    ensures var source := Inside(d, Slash(win), "src");
            Candidates(w, Inside(d, [slash], n), dep)
            == [Inside(d, Slash(win), dep + ".dtr"), Inside(d, Slash(win), dep),
                Inside(source, Slash(win), dep + ".dtr")]
  {
    hide Parent, Join, HasDrive;
    ParentIs(win, d, slash, n);
    PartLonger(win, dep);
    JoinIs(win, d, dep + ".dtr");
    JoinIs(win, d, dep);
    SourceIs(win);
    JoinIs(win, d, "src");
    SourceDirectory(win, d);
    JoinIs(win, Inside(d, Slash(win), "src"), dep + ".dtr");
  }

  lemma SourceIs(win: bool)
    ensures !Sep(win, "src"[0]) && !HasDrive(win, "src")
  {
  }

  lemma SourceDirectory(win: bool, d: Path)
    ensures Directory(win, Inside(d, Slash(win), "src"))
  {
    var p := Inside(d, Slash(win), "src");
    assert p[|p| - 1] == 'c' && |p| > 2;
  }

  // Where no file fits: the first of the recorded keys with that name, or none.
  ghost predicate IsFirstNamed(w: World, dep: string, r: Option<Path>) {
    match r
    case None => forall k :: k in w.fps ==> !Named(w.lib, k, dep)
    case Some(key) =>
      && key in w.fps && Named(w.lib, key, dep)
      && forall k :: k in w.fps && Named(w.lib, k, dep) && k != key ==> StrLess(key, k)
  }

  // A plain name seen from a module: the file beside it with the extension, the
  // one without, the one below src, and then the recorded modules.
  lemma BesideFirst(w: World, win: bool, d: Path, slash: char, n: string, dep: string)
    requires w.lib == Lib(win) && Sep(win, slash) && Directory(win, d) && Part(win, n) && Part(win, dep)
    ensures var beside, bare := Inside(d, Slash(win), dep + ".dtr"), Inside(d, Slash(win), dep);
            var source := Inside(Inside(d, Slash(win), "src"), Slash(win), dep + ".dtr");
            var r := Resolve(w, Inside(d, [slash], n), dep);
            if Exists(w, beside) then r == Some(beside)
            else if Exists(w, bare) then r == Some(bare)
            else if Exists(w, source) then r == Some(source)
            else IsFirstNamed(w, dep, r)
  {
    hide Candidates, Named, Directory;
    var c := Candidates(w, Inside(d, [slash], n), dep);
    CandidatesAre(w, win, d, slash, n, dep);
    FirstOfThree(w, c);
    assert !w.lib.isAbsolute(dep) by { NotAbsolute(win, dep); }
    hide FirstExisting;
    if !Exists(w, c[0]) && !Exists(w, c[1]) && !Exists(w, c[2]) && !NoMatch(w, dep) {
      SomeFirst(w, dep);
    }
  }

  lemma NotAbsolute(win: bool, dep: string)
    requires Part(win, dep)
    ensures !Lib(win).isAbsolute(dep)
  {
  }

  lemma FirstOfThree(w: World, c: seq<Path>)
    requires |c| == 3
    ensures FirstExisting(w, c)
         == if Exists(w, c[0]) then Some(c[0]) else if Exists(w, c[1]) then Some(c[1])
            else if Exists(w, c[2]) then Some(c[2]) else None
  {
    var one, two := c[1..], c[1..][1..];
    assert one[0] == c[1] && two[0] == c[2] && two[1..] == [];
    assert FirstExisting(w, two[1..]) == None;
    assert FirstExisting(w, two) == if Exists(w, c[2]) then Some(c[2]) else None;
    assert FirstExisting(w, one) == if Exists(w, c[1]) then Some(c[1]) else FirstExisting(w, two);
  }

  lemma SomeFirst(w: World, dep: string)
    requires !NoMatch(w, dep)
    ensures exists key :: FirstMatch(w, dep, key)
  {
    hide Named;
    var first := LeastKey(w, dep, w.fps.Keys);
    assert FirstMatch(w, dep, first);
  }

  // Among finitely many keys of a name one comes first.
  lemma {:induction false} LeastKey(w: World, dep: string, keys: set<string>) returns (first: string)
    requires keys <= w.fps.Keys && exists k :: k in keys && Named(w.lib, k, dep)
    ensures first in keys && Named(w.lib, first, dep)
    ensures forall k :: k in keys && Named(w.lib, k, dep) ==> k == first || StrLess(first, k)
    decreases |keys|
  {
    first :| first in keys && Named(w.lib, first, dep);
    var rest := keys - {first};
    if exists k :: k in rest && Named(w.lib, k, dep) {
      var least := LeastKey(w, dep, rest);
      StrTotal(first, least);
      if StrLess(least, first) {
        first := least;
      } else {
        forall k | k in keys && Named(w.lib, k, dep) && k != least && k != first ensures StrLess(first, k) {
          StrTransitive(first, least, k);
        }
      }
    }
  }

  // An absolute path to a file stands for that file.
  lemma AbsoluteFirst(w: World, win: bool, from: Path, dep: string)
    requires w.lib == Lib(win) && Exists(w, dep)
    requires if win
             then |dep| >= 3 && ('a' <= dep[0] <= 'z' || 'A' <= dep[0] <= 'Z') && dep[1] == ':'
                  && (dep[2] == '/' || dep[2] == '\\')
             else dep != "" && dep[0] == '/'
    ensures Resolve(w, from, dep) == Some(dep)
  {
  }

  lemma EmptyName(w: World, from: Path)
    ensures Resolve(w, from, "") == None
  {
  }

  // Names of recorded modules

  // The last dot is where the extension starts.
  predicate LastDotAt(n: string, k: nat) { k < |n| && n[k] == '.' && forall j :: k < j < |n| ==> n[j] != '.' }

  lemma {:induction false} LastDotIs(n: string)
    ensures if LastDot(n).Some? then LastDotAt(n, LastDot(n).value) else '.' !in n
    decreases |n|
  {
    if n != "" {
      var m := |n| - 1;
      LastDotIs(n[..m]);
      assert n == n[..m] + [n[m]];
    }
  }

  lemma Extends(n: string, dep: string, ext: string)
    requires n == dep + "." + ext && '.' !in ext
    ensures LastDotAt(n, |dep|) && n[..|dep|] == dep
  {
    assert forall j :: |dep| < j < |n| ==> n[j] == ext[j - |dep| - 1];
  }

  lemma OneLastDot(n: string, a: nat, b: nat)
    requires LastDotAt(n, a) && LastDotAt(n, b)
    ensures a == b
  {
  }

  lemma FileNameIs(win: bool, d: Path, slash: char, n: string)
    requires Sep(win, slash) && Part(win, n)
    ensures FileName(win, Inside(d, [slash], n)) == Some(n)
  {
    hide DropSeps, DropName;
    var p := Inside(d, [slash], n);
    assert p[|p| - 1] == n[|n| - 1];
    DropSepsIs(win, p, slash);
    if d == "" {
      DropAll(win, n);
      assert n[0..] == n;
    } else {
      DropNameIs(win, d, slash, n);
    }
  }

  // A recorded module has the name of its file, and the same without the part
  // after its last dot.
  lemma NamedExactly(win: bool, d: Path, slash: char, n: string, dep: string)
    requires Sep(win, slash) && Part(win, n) && dep != ""
    ensures Named(Lib(win), Inside(d, [slash], n), dep)
       <==> n == dep || exists ext :: n == dep + "." + ext && '.' !in ext
  {
    hide FileName, LastDot;
    FileNameIs(win, d, slash, n);
    LastDotIs(n);
    var dot := LastDot(n);
    if dot.Some? && dot.value > 0 {
      var k := dot.value;
      assert n == n[..k] + "." + n[k + 1..] && '.' !in n[k + 1..];
    }
    forall ext | n == dep + "." + ext && '.' !in ext ensures dot == Some(|dep|) && n[..|dep|] == dep {
      Extends(n, dep, ext);
      OneLastDot(n, |dep|, dot.value);
    }
  }
}
