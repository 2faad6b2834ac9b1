/**
 * Paths and the local directory tree.
 *
 * A path is the list of its components, as `os.path.relpath` would give it
 * relative to the working directory; `a/b/c` is `["a", "b", "c"]`. The
 * local side of the mirror is an immutable snapshot of the directory tree.
 */
module Paths {
  import opened Wrappers

  type Name = string
  type Path = seq<Name>

  /** `q` names an immediate entry of directory `p`. */
  predicate IsChildOf(q: Path, p: Path) {
    |q| == |p| + 1 && q[..|p|] == p
  }

  function Parent(q: Path): Path
    requires |q| > 0
  {
    q[..|q| - 1]
  }

  /** The last component, what `pathname.split('/')[-1]` gives. */
  function Last(q: Path): Name
    requires |q| > 0
  {
    q[|q| - 1]
  }

  /** A local file is its size; a directory lists its entries in `os.listdir` order. */
  datatype LocalNode = LFile(size: nat) | LDir(entries: seq<Entry>)
  datatype Entry = Entry(name: Name, node: LocalNode)

  /** What the local file system holds at `p` below `root`, if anything. */
  function Lookup(root: LocalNode, p: Path): (r: Option<LocalNode>)
    ensures p == [] ==> r == Some(root)
    ensures |p| > 0 && root.LFile? ==> r.None?
    decreases |p|
  {
    if p == [] then Some(root)
    else match root
      case LFile(_) => None
      case LDir(entries) =>
        match FindEntry(entries, p[0])
        case None => None
        case Some(child) => Lookup(child, p[1..])
  }

  /** The node of the first entry called `n`. */
  function FindEntry(entries: seq<Entry>, n: Name): (r: Option<LocalNode>)
    ensures r.None? <==> forall i :: 0 <= i < |entries| ==> entries[i].name != n
    ensures r.Some? ==> exists i :: 0 <= i < |entries| && entries[i] == Entry(n, r.value)
  {
    if entries == [] then None
    else if entries[0].name == n then Some(entries[0].node)
    else
      var r := FindEntry(entries[1..], n);
      assert r.Some? ==> exists i :: 1 <= i < |entries| && entries[i] == Entry(n, r.value) by {
        if r.Some? {
          var i :| 0 <= i < |entries[1..]| && entries[1..][i] == Entry(n, r.value);
          assert entries[i + 1] == Entry(n, r.value);
        }
      }
      r
  }

  /** No two entries share a name. */
  predicate NamesApart(entries: seq<Entry>) {
    forall i, j :: 0 <= i < j < |entries| ==> entries[i].name != entries[j].name
  }

  /** Every directory lists each name once (a real directory cannot do otherwise). */
  predicate WellFormed(node: LocalNode) {
    match node
    case LFile(_) => true
    case LDir(entries) => NamesApart(entries) && forall e :: e in entries ==> WellFormed(e.node)
  }

  /**
   * Within a well-formed tree, the path of a listed entry leads back to that
   * entry: `upload(pathname + '/' + filename)` finds the node `os.listdir` named.
   */
  lemma {:induction false} LookupChild(root: LocalNode, p: Path, i: nat)
    requires WellFormed(root) && Lookup(root, p).Some? && Lookup(root, p).value.LDir?
    requires i < |Lookup(root, p).value.entries|
    ensures var e := Lookup(root, p).value.entries[i]; Lookup(root, p + [e.name]) == Some(e.node)
    decreases |p|
  {
    var e := Lookup(root, p).value.entries[i];
    if p == [] {
      var es := root.entries;
      FirstEntryIsOnly(es, i);
      assert ([] + [e.name])[1..] == [];
    } else {
      var child := FindEntry(root.entries, p[0]).value;
      var j :| 0 <= j < |root.entries| && root.entries[j] == Entry(p[0], child);
      assert WellFormed(child);
      assert Lookup(child, p[1..]) == Lookup(root, p);
      LookupChild(child, p[1..], i);
      assert (p + [e.name])[0] == p[0] && (p + [e.name])[1..] == p[1..] + [e.name];
    }
  }

  /** With distinct names, the entry found by name is the one at that index. */
  lemma FirstEntryIsOnly(entries: seq<Entry>, i: nat)
    requires i < |entries|
    requires NamesApart(entries)
    ensures FindEntry(entries, entries[i].name) == Some(entries[i].node)
  {
    if i > 0 {
      FirstEntryIsOnly(entries[1..], i - 1);
      assert entries[1..][i - 1] == entries[i];
    }
  }

  /** The parent of a child of `p` is `p`. */
  lemma ParentOfChild(p: Path, n: Name)
    ensures Parent(p + [n]) == p
  {
    assert (p + [n])[..|p|] == p;
  }

  /** A path in the subtree of a child lies strictly below the parent, under that child's name. */
  lemma BelowChild(p: Path, q: Path, x: Path)
    requires IsChildOf(q, p) && q <= x
    ensures p < x && x[|p|] == Last(q)
  {
    assert x[..|p|] == q[..|p|] == p;
  }

  /** The subtrees of two differently named children do not meet. */
  lemma SubtreesApart(p: Path, a: Name, b: Name, x: Path)
    requires a != b && p + [a] <= x
    ensures !(p + [b] <= x)
  {
    BelowChild(p, p + [a], x);
    assert |p + [b]| <= |x| ==> x[..|p + [b]|][|p|] == x[|p|];
  }
}
