/**
 * Relative paths inside a folder, as the script sees them after changing into
 * that folder: posix strings whose components are separated by '/'. Python
 * compares strings code point by code point, which is the order `Less` gives;
 * `sorted(...)` of a listing is the unique strictly increasing enumeration of it.
 */
module Paths {

  type Path = string

  const Sep: char := '/'

  /** A well-formed relative path: non-empty components, no leading or trailing separator. */
  predicate ValidPath(p: Path) {
    && p != []
    && p[0] != Sep
    && p[|p| - 1] != Sep
    && forall i :: 0 <= i < |p| - 1 ==> !(p[i] == Sep && p[i + 1] == Sep)
  }

  /** A name directly inside the folder (one component). */
  predicate IsTopLevel(p: Path) {
    p != [] && Sep !in p
  }

  /** Position `i` of `p` is where a component begins. */
  predicate ComponentStart(p: Path, i: int) {
    0 <= i < |p| && (i == 0 || p[i - 1] == Sep)
  }

  /** No component starts with '.', so Python's glob lists the path (hidden entries are skipped). */
  predicate Visible(p: Path)
    ensures Visible(p) <==> p != [] && forall i :: ComponentStart(p, i) ==> p[i] != '.'
  {
    var r := p != [] && p[0] != '.' && forall i :: 0 <= i < |p| - 1 && p[i] == Sep ==> p[i + 1] != '.';
    assert r ==> forall i :: ComponentStart(p, i) ==> p[i] != '.' by {
      if r {
        forall i | ComponentStart(p, i) && i > 0
          ensures p[i] != '.'
        {
          assert p[(i - 1) + 1] == p[i];
        }
      }
    }
    assert p != [] && (forall i :: ComponentStart(p, i) ==> p[i] != '.') ==> r by {
      if p != [] && forall i :: ComponentStart(p, i) ==> p[i] != '.' {
        assert ComponentStart(p, 0);
        forall i | 0 <= i < |p| - 1 && p[i] == Sep
          ensures p[i + 1] != '.'
        {
          assert ComponentStart(p, i + 1);
        }
      }
    }
    r
  }

  /** Everything before the last separator: the folder that holds `p`. */
  function Parent(p: Path): (q: Path)
    requires Sep in p
    ensures |q| < |p| && q == p[..|q|] && p[|q|] == Sep
    ensures Sep !in p[|q| + 1..]
  {
    if p[|p| - 1] == Sep then p[..|p| - 1]
    else
      assert Sep in p[..|p| - 1] by {
        var i :| 0 <= i < |p| && p[i] == Sep;
        assert p[..|p| - 1][i] == Sep;
      }
      Parent(p[..|p| - 1])
  }

  /** The parent of a visible nested path is visible (its components are a subset). */
  lemma ParentVisible(p: Path)
    requires Sep in p && Visible(p) && p[0] != Sep
    ensures Visible(Parent(p))
  {
    var q := Parent(p);
    assert q != [] by { assert p[|q|] == Sep; }
    forall i | 0 <= i < |q| - 1 && q[i] == Sep
      ensures q[i + 1] != '.'
    {
      assert p[i] == Sep && q[i + 1] == p[i + 1];
    }
  }

  /**
   * `b` comes after `a` at position `k`: the two agree before `k`, and there `a` has
   * ended while `b` goes on, or `a` has the smaller code point.
   */
  predicate BelowAt(a: Path, b: Path, k: nat) {
    && k <= |a| && k <= |b| && a[..k] == b[..k]
    && if k == |a| then k < |b| else k < |b| && a[k] < b[k]
  }

  /**
   * Python's `<` on str, computed character by character: it holds exactly when `b`
   * comes after `a` at some position (a proper prefix comes first).
   */
  predicate Less(a: Path, b: Path)
    ensures Less(a, b) <==> exists k :: BelowAt(a, b, k)
    decreases |a|
  {
    if a == [] then
      assert b != [] ==> BelowAt(a, b, 0);
      b != []
    else if b == [] then false
    else if a[0] != b[0] then
      assert a[0] < b[0] ==> BelowAt(a, b, 0);
      assert forall k :: BelowAt(a, b, k) ==> k == 0;
      a[0] < b[0]
    else
      assert (exists k :: BelowAt(a, b, k)) <==> (exists k :: BelowAt(a[1..], b[1..], k)) by {
        forall k: nat | BelowAt(a, b, k)
          ensures k > 0 && BelowAt(a[1..], b[1..], k - 1)
        {
          if k > 0 {
            assert a[1..][..k - 1] == a[..k][1..] && b[1..][..k - 1] == b[..k][1..];
          }
        }
        forall k: nat | BelowAt(a[1..], b[1..], k)
          ensures BelowAt(a, b, k + 1)
        {
          assert a[..k + 1] == [a[0]] + a[1..][..k] && b[..k + 1] == [b[0]] + b[1..][..k];
        }
      }
      Less(a[1..], b[1..])
  }

  lemma {:induction false} LessIrreflexive(a: Path)
    ensures !Less(a, a)
    decreases |a|
  {
    if a != [] {
      LessIrreflexive(a[1..]);
    }
  }

  lemma {:induction false} LessTransitive(a: Path, b: Path, c: Path)
    requires Less(a, b) && Less(b, c)
    ensures Less(a, c)
    decreases |a|
  {
    if a != [] && a[0] == b[0] && b[0] == c[0] {
      LessTransitive(a[1..], b[1..], c[1..]);
    }
  }

  lemma {:induction false} LessTotal(a: Path, b: Path)
    requires a != b
    ensures Less(a, b) || Less(b, a)
    decreases |a|
  {
    if a != [] && b != [] && a[0] == b[0] {
      assert a == [a[0]] + a[1..] && b == [b[0]] + b[1..];
      LessTotal(a[1..], b[1..]);
    }
  }

  lemma LessAsymmetric(a: Path, b: Path)
    ensures Less(a, b) ==> !Less(b, a)
  {
    if Less(a, b) && Less(b, a) {
      LessTransitive(a, b, a);
      LessIrreflexive(a);
    }
  }

  predicate StrictlySorted(r: seq<Path>) {
    forall i, j :: 0 <= i < j < |r| ==> Less(r[i], r[j])
  }

  /** `r` is what `sorted(...)` returns for the listing `s`: increasing, and exactly the elements of `s`. */
  predicate IsSortedListing(r: seq<Path>, s: set<Path>) {
    && StrictlySorted(r)
    && (forall i :: 0 <= i < |r| ==> r[i] in s)
    && (forall x :: x in s ==> x in r)
  }

  /** In a sorted listing the first element is below every other element of the set. */
  lemma HeadIsLeast(r: seq<Path>, s: set<Path>, x: Path)
    requires IsSortedListing(r, s) && x in s
    ensures r != [] && (x == r[0] || Less(r[0], x))
  {
    var j :| 0 <= j < |r| && r[j] == x;
  }

  lemma TailListing(r: seq<Path>, s: set<Path>)
    requires IsSortedListing(r, s) && r != []
    ensures IsSortedListing(r[1..], s - {r[0]})
  {
    forall i | 0 <= i < |r| - 1
      ensures r[1..][i] != r[0]
    {
      LessIrreflexive(r[0]);
      assert Less(r[0], r[i + 1]);
    }
    forall x | x in s - {r[0]}
      ensures x in r[1..]
    {
      var j :| 0 <= j < |r| && r[j] == x;
      assert r[1..][j - 1] == x;
    }
  }

  /** Two sorted listings of the same set are the same sequence: `sorted` is deterministic. */
  lemma {:induction false} SortedListingUnique(r1: seq<Path>, r2: seq<Path>, s: set<Path>)
    requires IsSortedListing(r1, s) && IsSortedListing(r2, s)
    ensures r1 == r2
    decreases |r1|
  {
    assert r1 == [] ==> s == {};
    assert r2 != [] ==> r2[0] in s;
    if r1 != [] {
      HeadIsLeast(r1, s, r2[0]);
      HeadIsLeast(r2, s, r1[0]);
      LessAsymmetric(r1[0], r2[0]);
      TailListing(r1, s);
      TailListing(r2, s);
      SortedListingUnique(r1[1..], r2[1..], s - {r1[0]});
      assert r1 == [r1[0]] + r1[1..] && r2 == [r2[0]] + r2[1..];
    }
  }

  /** Insertion of one element into a sorted sequence. */
  function Insert(x: Path, r: seq<Path>): seq<Path> {
    if r == [] then [x]
    else if Less(x, r[0]) then [x] + r
    else [r[0]] + Insert(x, r[1..])
  }

  lemma ConsSorted(a: Path, r: seq<Path>)
    requires StrictlySorted(r)
    requires forall i :: 0 <= i < |r| ==> Less(a, r[i])
    ensures StrictlySorted([a] + r)
  {
    forall i, j | 0 <= i < j < |r| + 1
      ensures Less(([a] + r)[i], ([a] + r)[j])
    {
      if i > 0 {
        assert ([a] + r)[i] == r[i - 1] && ([a] + r)[j] == r[j - 1];
      }
    }
  }

  lemma {:induction false} InsertListing(x: Path, r: seq<Path>, s: set<Path>)
    requires IsSortedListing(r, s) && x !in s
    ensures IsSortedListing(Insert(x, r), s + {x})
    decreases |r|
  {
    if r == [] {
    } else if Less(x, r[0]) {
      forall i | 0 <= i < |r|
        ensures Less(x, r[i])
      {
        if i > 0 {
          LessTransitive(x, r[0], r[i]);
        }
      }
      ConsSorted(x, r);
    } else {
      LessTotal(x, r[0]);
      TailListing(r, s);
      InsertListing(x, r[1..], s - {r[0]});
      var rest := Insert(x, r[1..]);
      assert IsSortedListing(rest, s - {r[0]} + {x});
      forall i | 0 <= i < |rest|
        ensures Less(r[0], rest[i])
      {
        if rest[i] != x {
          HeadIsLeast(r, s, rest[i]);
        }
      }
      ConsSorted(r[0], rest);
      assert Insert(x, r) == [r[0]] + rest;
      forall y | y in s + {x}
        ensures y in [r[0]] + rest
      {
        if y != r[0] {
          assert y in rest;
        }
      }
    }
  }

  /** The sorted listing of a finite set of paths (the reference for `sorted(glob(...))`). */
  ghost function SortedList(s: set<Path>): (r: seq<Path>)
    ensures IsSortedListing(r, s)
    decreases s
  {
    if s == {} then []
    else
      var x :| x in s;
      InsertListing(x, SortedList(s - {x}), s - {x});
      assert s - {x} + {x} == s;
      Insert(x, SortedList(s - {x}))
  }

  /** `sorted(...)` applied to a listing. */
  method SortPaths(s: set<Path>) returns (r: seq<Path>)
    ensures IsSortedListing(r, s)
  {
    r := [];
    var rest := s;
    while rest != {}
      invariant rest <= s
      invariant IsSortedListing(r, s - rest)
      decreases rest
    {
      var x :| x in rest;
      InsertListing(x, r, s - rest);
      r := Insert(x, r);
      assert s - rest + {x} == s - (rest - {x});
      rest := rest - {x};
    }
    assert s - rest == s;
  }
}
