// Strings and the places where they occur inside other strings, and a few small
// things. Shared by the models that read text by position.
module Text {

  datatype Option<+T> = None | Some(value: T)

  // `t` stands in `s` at position `i`.
  ghost predicate At(s: string, i: nat, t: string) {
    i + |t| <= |s| && forall k :: 0 <= k < |t| ==> s[i + k] == t[k]
  }

  // The same, as a comparison that code makes.
  predicate Stands(s: string, i: nat, t: string) { i + |t| <= |s| && s[i..i + |t|] == t }

  // The leftmost place of t in s, from i on.
  function Find(s: string, t: string, i: nat): (r: Option<nat>)
    ensures r.Some? ==> i <= r.value && Stands(s, r.value, t)
    ensures r.Some? ==> forall k :: i <= k < r.value ==> !Stands(s, k, t)
    ensures r.None? ==> forall k :: i <= k ==> !Stands(s, k, t)
    decreases |s| - i
  {
    if Stands(s, i, t) then Some(i)
    else if i >= |s| then None
    else Find(s, t, i + 1)
  }

  lemma StandsIn(s: string, t: string, i: nat, u: string)
    requires i + |u| <= |s|
    ensures Stands(s + t, i, u) <==> Stands(s, i, u)
  {
  }

  lemma StandsChar(s: string, i: nat, t: string, k: nat)
    requires Stands(s, i, t) && k < |t|
    ensures s[i + k] == t[k]
  {
  }

  lemma FindIs(s: string, t: string, i: nat, at: nat)
    requires i <= at && Stands(s, at, t) && forall k :: i <= k < at ==> !Stands(s, k, t)
    ensures Find(s, t, i) == Some(at)
  {
  }

  predicate IsDigit(c: char) { '0' <= c <= '9' }

  function Max(a: nat, b: nat): nat { if a < b then b else a }

  lemma AtSlice(s: string, i: nat, t: string)
    ensures At(s, i, t) <==> Stands(s, i, t)
  {
  }

  lemma AtConcat(s: string, i: nat, a: string, b: string)
    ensures At(s, i, a + b) <==> At(s, i, a) && At(s, i + |a|, b)
  {
    var c := a + b;
    if At(s, i, c) {
      forall k | 0 <= k < |a| ensures s[i + k] == a[k] {
        assert s[i + k] == c[k];
      }
      forall k | 0 <= k < |b| ensures s[i + |a| + k] == b[k] {
        assert s[i + (|a| + k)] == c[|a| + k];
      }
    }
    if At(s, i, a) && At(s, i + |a|, b) {
      forall k | 0 <= k < |c| ensures s[i + k] == c[k] {
        if k >= |a| {
          assert s[i + |a| + (k - |a|)] == b[k - |a|];
        }
      }
    }
  }

  lemma AtEmpty(s: string, i: nat)
    ensures At(s, i, "") <==> i <= |s|
  {
  }

  lemma SliceAt(s: string, a: nat, b: nat)
    requires a <= b <= |s|
    ensures At(s, a, s[a..b])
  {
  }

  lemma AtIndex(s: string, i: nat, t: string, k: nat)
    requires At(s, i, t) && k < |t|
    ensures i + k < |s| && s[i + k] == t[k]
  {
  }
}
