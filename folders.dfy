/**
 * A folder on disk as a snapshot: a map from relative path to entry. The views
 * below are what the script's directory calls return on such a snapshot.
 */
module Folders {
  import opened Paths

  newtype byte = x: int | 0 <= x < 256

  datatype Entry = File(data: seq<byte>) | Dir

  type Tree = map<Path, Entry>

  /** A real folder: well-formed paths, and every nested entry sits in a directory that is listed too. */
  predicate ValidTree(t: Tree) {
    forall p :: p in t ==> ValidPath(p) && (Sep in p ==> Parent(p) in t && t[Parent(p)].Dir?)
  }

  /**
   * `os.listdir(folder)`: every name directly inside, hidden ones included. What it
   * lists beyond the `*` glob are exactly the names starting with '.'.
   */
  function ListDir(t: Tree): (r: set<Path>)
    ensures GlobStar(t) <= r <= t.Keys
    ensures forall p :: p in r ==> IsTopLevel(p)
    ensures forall p :: p in r && p !in GlobStar(t) ==> p[0] == '.'
  {
    set p | p in t && IsTopLevel(p)
  }

  /** A `*` glob in the folder: the names directly inside that do not start with '.'. */
  function GlobStar(t: Tree): (r: set<Path>)
    ensures r <= GlobRecursive(t)
    ensures forall p :: p in r ==> IsTopLevel(p) && p[0] != '.'
  {
    set p | p in t && IsTopLevel(p) && Visible(p)
  }

  /**
   * A recursive `**` glob run inside the folder: every path with no hidden component.
   * In a real folder, the folder holding a listed path is listed too.
   */
  function GlobRecursive(t: Tree): (r: set<Path>)
    ensures r <= t.Keys
    ensures ValidTree(t) ==> forall p :: p in r && Sep in p ==> Parent(p) in r
  {
    var r := set p | p in t && Visible(p);
    assert ValidTree(t) ==> forall p :: p in r && Sep in p ==> Parent(p) in r by {
      if ValidTree(t) {
        forall p | p in r && Sep in p
          ensures Parent(p) in r
        {
          ParentVisible(p);
        }
      }
    }
    r
  }

  /** A list of names that the OS hands out once each, exactly the names of `s`, in some order. */
  predicate IsEnumeration(order: seq<Path>, s: set<Path>) {
    && (forall i, j :: 0 <= i < j < |order| ==> order[i] != order[j])
    && (forall i :: 0 <= i < |order| ==> order[i] in s)
    && (forall x :: x in s ==> x in order)
  }

  lemma {:induction false} HasTopLevelAncestor(t: Tree, p: Path)
    requires ValidTree(t) && p in t
    ensures ListDir(t) != {}
    decreases |p|
  {
    if Sep in p {
      HasTopLevelAncestor(t, Parent(p));
    } else {
      assert p in ListDir(t);
    }
  }

  /** For a real folder, `os.listdir` is empty exactly when the folder holds nothing at all. */
  lemma EmptyListDir(t: Tree)
    requires ValidTree(t)
    ensures ListDir(t) == {} <==> t == map[]
  {
    if t != map[] {
      var p :| p in t;
      HasTopLevelAncestor(t, p);
    }
  }
}
