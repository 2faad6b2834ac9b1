/**
 * What `Monitor.upload` does to the server, as a function of the server
 * state and the local tree: STOR for a file; for a directory MKD, then the
 * upload of every entry `os.listdir` gives, in that order. An error ends the
 * procedure where it arises, so a failing MKD uploads none of the entries.
 */
module Uploading {
  import opened Wrappers
  import opened Paths
  import opened Server

  /** `upload(p)` for the local node found at `p`. */
  function UploadRun(s: Server, p: Path, node: LocalNode): (r: Run)
    ensures |r.ops| > 0 && r.ops[0] == (if node.LFile? then Stor(p, node.size) else Mkd(p))
    decreases node, 1
  {
    match node
    case LFile(size) =>
      var step := StorStep(s, p, size);
      Run(step.0, [Stor(p, size)], step.1)
    case LDir(entries) =>
      var step := MkdStep(s, p);
      if step.1.Fail? then Run(step.0, [Mkd(p)], step.1)
      else
        var c := EntriesRun(step.0, p, node, |entries|);
        Run(c.server, [Mkd(p)] + c.ops, c.outcome)
  }

  /** The first `k` turns of the loop over the entries of local directory `dir`, uploaded below `p`. */
  function EntriesRun(s0: Server, p: Path, dir: LocalNode, k: nat): (r: Run)
    requires dir.LDir? && k <= |dir.entries|
    ensures k == 0 ==> r == Run(s0, [], Ok)
    decreases dir, 0, k
  {
    if k == 0 then Run(s0, [], Ok)
    else
      var prev := EntriesRun(s0, p, dir, k - 1);
      var e := dir.entries[k - 1];
      if prev.outcome.Fail? then prev
      else
        assert e in dir.entries;
        var t := UploadRun(prev.server, p + [e.name], e.node);
        Run(t.server, prev.ops + t.ops, t.outcome)
  }

  /** One more turn of the loop, when the earlier ones got through. */
  lemma EntriesStep(s0: Server, p: Path, dir: LocalNode, i: nat)
    requires dir.LDir? && i < |dir.entries| && EntriesRun(s0, p, dir, i).outcome.Ok?
    ensures var prev := EntriesRun(s0, p, dir, i);
      var e := dir.entries[i];
      var t := UploadRun(prev.server, p + [e.name], e.node);
      EntriesRun(s0, p, dir, i + 1) == Run(t.server, prev.ops + t.ops, t.outcome)
  {
  }

  /**
   * `upload(p)` against the local tree `root`: a path that is not a local
   * directory is read as a file, and a path that holds nothing makes that
   * read fail before any command is sent.
   */
  function UploadPath(s: Server, root: LocalNode, p: Path): (r: Run)
    ensures Lookup(root, p).None? ==> r == Run(s, [], Fail(LocalIO))
    ensures Lookup(root, p).Some? ==> r == UploadRun(s, p, Lookup(root, p).value)
  {
    match Lookup(root, p)
    case None => Run(s, [], Fail(LocalIO))
    case Some(node) => UploadRun(s, p, node)
  }

  /** Every command in `ops` is on `p` or below it (strictly below if `strict`). */
  ghost predicate Within(ops: seq<Request>, p: Path, strict: bool) {
    forall i :: 0 <= i < |ops| ==> if strict then p < ops[i].path else p <= ops[i].path
  }

  /**
   * `t` is `s` with entries added or overwritten at or below `p` (strictly
   * below if `strict`) and nothing else changed.
   */
  ghost predicate Grows(s: Server, t: Server, p: Path, strict: bool) {
    && s.kinds.Keys <= t.kinds.Keys
    && (forall q :: q in s.kinds && !(if strict then p < q else p <= q) ==> t.kinds[q] == s.kinds[q])
    && (forall q :: q in t.kinds && q !in s.kinds ==> if strict then p < q else p <= q)
    && t.faults == s.faults && t.listsDots == s.listsDots
  }

  /** An error ends the loop: no entry after the one that failed is uploaded. */
  lemma {:induction false} EntriesFailureSticks(s0: Server, p: Path, dir: LocalNode, j: nat, k: nat)
    requires dir.LDir? && j <= k <= |dir.entries|
    requires EntriesRun(s0, p, dir, j).outcome.Fail?
    ensures EntriesRun(s0, p, dir, k) == EntriesRun(s0, p, dir, j)
    decreases k
  {
    if k > j {
      EntriesFailureSticks(s0, p, dir, j, k - 1);
    }
  }

  /** Uploading `p` sends commands only for `p` and its subtree, and changes the server only there. */
  lemma {:induction false} UploadConfined(s: Server, p: Path, node: LocalNode)
    ensures var r := UploadRun(s, p, node); Within(r.ops, p, false) && Grows(s, r.server, p, false)
    decreases node, 1
  {
    if node.LDir? {
      var s1, o := MkdStep(s, p).0, MkdStep(s, p).1;
      if o.Ok? {
        ChildrenConfined(s1, p, node, |node.entries|);
      }
    }
  }

  lemma {:induction false} ChildrenConfined(s0: Server, p: Path, dir: LocalNode, k: nat)
    requires dir.LDir? && k <= |dir.entries|
    ensures var r := EntriesRun(s0, p, dir, k); Within(r.ops, p, true) && Grows(s0, r.server, p, true)
    decreases dir, 0, k
  {
    if k > 0 {
      var prev := EntriesRun(s0, p, dir, k - 1);
      ChildrenConfined(s0, p, dir, k - 1);
      var e := dir.entries[k - 1];
      if prev.outcome.Ok? {
        assert e in dir.entries;
        var q := p + [e.name];
        UploadConfined(prev.server, q, e.node);
        var t := UploadRun(prev.server, q, e.node);
        ConfinedStep(s0, prev.server, t.server, prev.ops, t.ops, p, q);
      }
    }
  }

  /** What happens in the subtree of a child happens strictly below the parent. */
  lemma ConfinedStep(s0: Server, s1: Server, s2: Server, a: seq<Request>, b: seq<Request>, p: Path, q: Path)
    requires IsChildOf(q, p)
    requires Within(a, p, true) && Grows(s0, s1, p, true)
    requires Within(b, q, false) && Grows(s1, s2, q, false)
    ensures Within(a + b, p, true) && Grows(s0, s2, p, true)
  {
    forall x | x in s2.kinds && q <= x ensures p < x {
      BelowChild(p, q, x);
    }
    forall x | x in s0.kinds && q <= x ensures p < x {
      BelowChild(p, q, x);
    }
    forall i | 0 <= i < |a + b| ensures p < (a + b)[i].path {
      if i >= |a| {
        assert (a + b)[i] == b[i - |a|];
        BelowChild(p, q, b[i - |a|].path);
      }
    }
  }

  /**
   * Every command is preceded by the MKD of each directory between the
   * first `from` components of its path and the path itself.
   */
  ghost predicate MkdBefore(ops: seq<Request>, from: nat) {
    forall j, k :: 0 <= j < |ops| && from <= k < |ops[j].path| ==> Mkd(ops[j].path[..k]) in ops[..j]
  }

  lemma MkdBeforeAppend(a: seq<Request>, b: seq<Request>, from: nat)
    requires MkdBefore(a, from) && MkdBefore(b, from)
    ensures MkdBefore(a + b, from)
  {
    var all := a + b;
    forall j, k | 0 <= j < |all| && from <= k < |all[j].path| ensures Mkd(all[j].path[..k]) in all[..j] {
      if j < |a| {
        assert all[j] == a[j] && all[..j] == a[..j];
      } else {
        assert all[j] == b[j - |a|];
        assert all[..j] == a + b[..j - |a|];
        assert Mkd(b[j - |a|].path[..k]) in b[..j - |a|];
      }
    }
  }

  /**
   * MKD of the uploaded directory precedes every command on its contents,
   * and the same holds for every directory below it.
   */
  lemma {:induction false} MkdPrecedesContents(s: Server, p: Path, node: LocalNode)
    ensures MkdBefore(UploadRun(s, p, node).ops, |p|)
    decreases node, 1
  {
    if node.LDir? {
      var s1, o := MkdStep(s, p).0, MkdStep(s, p).1;
      if o.Ok? {
        var c := EntriesRun(s1, p, node, |node.entries|);
        ChildrenMkdBefore(s1, p, node, |node.entries|);
        ChildrenConfined(s1, p, node, |node.entries|);
        var ops := [Mkd(p)] + c.ops;
        forall j, k | 0 <= j < |ops| && |p| <= k < |ops[j].path| ensures Mkd(ops[j].path[..k]) in ops[..j] {
          if j > 0 {
            assert ops[j] == c.ops[j - 1];
            assert ops[..j] == [Mkd(p)] + c.ops[..j - 1];
            if k == |p| {
              assert ops[j].path[..k] == p;
            } else {
              assert Mkd(c.ops[j - 1].path[..k]) in c.ops[..j - 1];
            }
          }
        }
      }
    }
  }

  lemma {:induction false} ChildrenMkdBefore(s0: Server, p: Path, dir: LocalNode, k: nat)
    requires dir.LDir? && k <= |dir.entries|
    ensures MkdBefore(EntriesRun(s0, p, dir, k).ops, |p| + 1)
    decreases dir, 0, k
  {
    if k > 0 {
      var prev := EntriesRun(s0, p, dir, k - 1);
      ChildrenMkdBefore(s0, p, dir, k - 1);
      var e := dir.entries[k - 1];
      if prev.outcome.Ok? {
        assert e in dir.entries;
        MkdPrecedesContents(prev.server, p + [e.name], e.node);
        MkdBeforeAppend(prev.ops, UploadRun(prev.server, p + [e.name], e.node).ops, |p| + 1);
      }
    }
  }

  /** Uploading a file is one STOR; it succeeds exactly when the server lets it. */
  lemma UploadFileIsOneStor(s: Server, p: Path, size: nat)
    ensures UploadRun(s, p, LFile(size)).ops == [Stor(p, size)]
    ensures UploadRun(s, p, LFile(size)).outcome.Ok? <==>
      Stor(p, size) !in s.faults && |p| > 0 && IsDir(s, Parent(p)) && !(p in s.kinds && s.kinds[p] == Dir)
  {
  }

  /** A failing MKD is the last command: its error propagates and no entry of the directory is uploaded. */
  lemma MkdFailureAborts(s: Server, p: Path, entries: seq<Entry>)
    requires MkdStep(s, p).1.Fail?
    ensures UploadRun(s, p, LDir(entries)) == Run(s, [Mkd(p)], MkdStep(s, p).1)
  {
  }

  /** The remote side holds the local node at `p`: the same files with the same sizes, the same directories. */
  ghost predicate Mirrors(s: Server, p: Path, node: LocalNode)
    decreases node
  {
    && p in s.kinds
    && match node
       case LFile(size) => s.kinds[p] == File(size)
       case LDir(entries) =>
         && s.kinds[p] == Dir
         && forall i :: 0 <= i < |entries| ==> Mirrors(s, p + [entries[i].name], entries[i].node)
  }

  /** A mirror survives any change that leaves the subtree at `p` alone. */
  lemma {:induction false} MirrorsFrame(s: Server, t: Server, p: Path, node: LocalNode)
    requires Mirrors(s, p, node)
    requires forall q :: q in s.kinds && p <= q ==> q in t.kinds && t.kinds[q] == s.kinds[q]
    ensures Mirrors(t, p, node)
    decreases node
  {
    if node.LDir? {
      forall i | 0 <= i < |node.entries| ensures Mirrors(t, p + [node.entries[i].name], node.entries[i].node) {
        var c := p + [node.entries[i].name];
        assert node.entries[i] in node.entries;
        forall q | q in s.kinds && c <= q ensures p <= q {
          BelowChild(p, c, q);
        }
        MirrorsFrame(s, t, c, node.entries[i].node);
      }
    }
  }

  /** An upload that reports success leaves the remote side holding the whole local tree at `p`. */
  lemma {:induction false} UploadOkMirrors(s: Server, p: Path, node: LocalNode)
    requires WellFormed(node) && UploadRun(s, p, node).outcome.Ok?
    ensures Mirrors(UploadRun(s, p, node).server, p, node)
    decreases node, 1
  {
    if node.LDir? {
      var s1, o := MkdStep(s, p).0, MkdStep(s, p).1;
      var c := EntriesRun(s1, p, node, |node.entries|);
      ChildrenOkMirror(s1, p, node, |node.entries|);
      ChildrenConfined(s1, p, node, |node.entries|);
      assert p in s1.kinds && s1.kinds[p] == Dir;
    }
  }

  /** The first `k` entries of `dir` are mirrored below `p`. */
  ghost predicate Behind(s: Server, p: Path, dir: LocalNode, k: nat)
    requires dir.LDir?
  {
    forall i :: 0 <= i < k && i < |dir.entries| ==> Mirrors(s, p + [dir.entries[i].name], dir.entries[i].node)
  }

  /** After a successful loop, every entry reached is mirrored. */
  lemma {:induction false} ChildrenOkMirror(s0: Server, p: Path, dir: LocalNode, k: nat)
    requires dir.LDir? && k <= |dir.entries| && WellFormed(dir)
    requires EntriesRun(s0, p, dir, k).outcome.Ok?
    ensures Behind(EntriesRun(s0, p, dir, k).server, p, dir, k)
    decreases dir, 0, k, 1
  {
    if k > 0 {
      TurnMirrors(s0, p, dir, k);
    }
  }

  /** The loop up to turn `k - 1`: the entries before it stay mirrored and entry `k - 1` is added. */
  lemma {:induction false} TurnMirrors(s0: Server, p: Path, dir: LocalNode, k: nat)
    requires dir.LDir? && 0 < k <= |dir.entries| && WellFormed(dir)
    requires EntriesRun(s0, p, dir, k).outcome.Ok?
    ensures Behind(EntriesRun(s0, p, dir, k).server, p, dir, k)
    decreases dir, 0, k, 0
  {
    var prev := EntriesRun(s0, p, dir, k - 1);
    var e := dir.entries[k - 1];
    assert e in dir.entries;
    OkBeforeTurn(s0, p, dir, k);
    ChildrenOkMirror(s0, p, dir, k - 1);
    UploadOkMirrors(prev.server, p + [e.name], e.node);
    MirrorStep(s0, p, dir, k);
  }

  /** Turn `k - 1` of the loop, once its upload left its entry mirrored. */
  lemma MirrorStep(s0: Server, p: Path, dir: LocalNode, k: nat)
    requires dir.LDir? && 0 < k <= |dir.entries| && NamesApart(dir.entries)
    requires EntriesRun(s0, p, dir, k - 1).outcome.Ok? && Behind(EntriesRun(s0, p, dir, k - 1).server, p, dir, k - 1)
    requires var q := p + [dir.entries[k - 1].name];
      Mirrors(UploadRun(EntriesRun(s0, p, dir, k - 1).server, q, dir.entries[k - 1].node).server, q, dir.entries[k - 1].node)
    ensures Behind(EntriesRun(s0, p, dir, k).server, p, dir, k)
  {
    EntriesStep(s0, p, dir, k - 1);
    BehindStep(EntriesRun(s0, p, dir, k - 1).server, p, dir, k);
  }

  /** A loop that got through turn `k - 1` got through the turns before it and that turn's upload. */
  lemma OkBeforeTurn(s0: Server, p: Path, dir: LocalNode, k: nat)
    requires dir.LDir? && 0 < k <= |dir.entries| && EntriesRun(s0, p, dir, k).outcome.Ok?
    ensures var prev := EntriesRun(s0, p, dir, k - 1);
      prev.outcome.Ok? && UploadRun(prev.server, p + [dir.entries[k - 1].name], dir.entries[k - 1].node).outcome.Ok?
  {
  }

  /** Uploading entry `k - 1` keeps the entries before it mirrored. */
  lemma BehindStep(s: Server, p: Path, dir: LocalNode, k: nat)
    requires dir.LDir? && 0 < k <= |dir.entries| && NamesApart(dir.entries)
    requires Behind(s, p, dir, k - 1)
    requires Mirrors(UploadRun(s, p + [dir.entries[k - 1].name], dir.entries[k - 1].node).server, p + [dir.entries[k - 1].name], dir.entries[k - 1].node)
    ensures Behind(UploadRun(s, p + [dir.entries[k - 1].name], dir.entries[k - 1].node).server, p, dir, k)
  {
    var e := dir.entries[k - 1];
    forall i | 0 <= i < k - 1
      ensures Mirrors(UploadRun(s, p + [e.name], e.node).server, p + [dir.entries[i].name], dir.entries[i].node)
    {
      assert dir.entries[i].name != e.name;
      SiblingStaysMirrored(s, p, e.name, dir.entries[i].name, e.node, dir.entries[i].node);
    }
  }

  /** Uploading one child leaves a differently named sibling's mirror alone. */
  lemma SiblingStaysMirrored(s: Server, p: Path, a: Name, b: Name, node: LocalNode, other: LocalNode)
    requires a != b && Mirrors(s, p + [b], other)
    ensures Mirrors(UploadRun(s, p + [a], node).server, p + [b], other)
  {
    var t := UploadRun(s, p + [a], node).server;
    UploadConfined(s, p + [a], node);
    forall x | x in s.kinds && p + [b] <= x ensures x in t.kinds && t.kinds[x] == s.kinds[x] {
      SubtreesApart(p, b, a, x);
    }
    MirrorsFrame(s, t, p + [b], other);
  }

  /** Nothing is stored at `p` or below it (strictly below if `strict`). */
  ghost predicate Vacant(s: Server, p: Path, strict: bool) {
    forall q :: q in s.kinds ==> !(if strict then p < q else p <= q)
  }

  /** The places of the entries of `dir` from the `k`-th on are empty below `p`. */
  ghost predicate Ahead(s: Server, p: Path, dir: LocalNode, k: nat)
    requires dir.LDir?
  {
    forall i :: k <= i < |dir.entries| ==> Vacant(s, p + [dir.entries[i].name], false)
  }

  /**
   * On a server that raises no injected error, uploading a tree with distinct
   * names to a place that holds nothing yet, inside an existing directory,
   * gets through every MKD and STOR.
   */
  lemma {:induction false} UploadCompletes(s: Server, p: Path, node: LocalNode)
    requires s.faults == map[] && |p| > 0 && IsDir(s, Parent(p)) && Vacant(s, p, false)
    requires WellFormed(node)
    ensures UploadRun(s, p, node).outcome.Ok?
    decreases node, 1
  {
    if node.LDir? {
      var s1 := MkdStep(s, p).0;
      assert MkdStep(s, p).1.Ok?;
      forall q | q in s1.kinds ensures !(p < q) {
        if q != p { assert q in s.kinds; }
      }
      ChildrenComplete(s1, p, node, |node.entries|);
    }
  }

  /** Such an upload leaves the server holding the whole local tree at `p`. */
  lemma UploadMirrorsTree(s: Server, p: Path, node: LocalNode)
    requires s.faults == map[] && |p| > 0 && IsDir(s, Parent(p)) && Vacant(s, p, false)
    requires WellFormed(node)
    ensures Mirrors(UploadRun(s, p, node).server, p, node)
  {
    UploadCompletes(s, p, node);
    UploadOkMirrors(s, p, node);
  }

  /**
   * The first `k` turns of the loop get through when the directory exists and
   * nothing is stored below it; the entries still ahead find their places empty.
   */
  lemma {:induction false} ChildrenComplete(s0: Server, p: Path, dir: LocalNode, k: nat)
    requires dir.LDir? && k <= |dir.entries| && WellFormed(dir)
    requires s0.faults == map[] && IsDir(s0, p) && Vacant(s0, p, true)
    ensures EntriesRun(s0, p, dir, k).outcome.Ok?
    ensures Ahead(EntriesRun(s0, p, dir, k).server, p, dir, k)
    decreases dir, 0, k, 1
  {
    if k == 0 {
      LoopStart(s0, p, dir);
    } else {
      TurnCompletes(s0, p, dir, k);
    }
  }

  /** The loop up to turn `k - 1`, which gets through once the turns before it did. */
  lemma {:induction false} TurnCompletes(s0: Server, p: Path, dir: LocalNode, k: nat)
    requires dir.LDir? && 0 < k <= |dir.entries| && WellFormed(dir)
    requires s0.faults == map[] && IsDir(s0, p) && Vacant(s0, p, true)
    ensures EntriesRun(s0, p, dir, k).outcome.Ok?
    ensures Ahead(EntriesRun(s0, p, dir, k).server, p, dir, k)
    decreases dir, 0, k, 0
  {
    assert dir.entries[k - 1] in dir.entries;
    ChildrenComplete(s0, p, dir, k - 1);
    TurnReady(s0, p, dir, k);
    EntryCompletes(EntriesRun(s0, p, dir, k - 1).server, p, dir, k);
    CompleteStep(s0, p, dir, k);
  }

  /** Before turn `k - 1` the directory is still there and the server still injects no fault. */
  lemma TurnReady(s0: Server, p: Path, dir: LocalNode, k: nat)
    requires dir.LDir? && 0 < k <= |dir.entries| && s0.faults == map[] && IsDir(s0, p)
    ensures EntriesRun(s0, p, dir, k - 1).server.faults == map[] && IsDir(EntriesRun(s0, p, dir, k - 1).server, p)
  {
    ChildrenConfined(s0, p, dir, k - 1);
  }

  /** The upload of entry `k - 1` gets through when its place is empty. */
  lemma {:induction false} EntryCompletes(s: Server, p: Path, dir: LocalNode, k: nat)
    requires dir.LDir? && 0 < k <= |dir.entries| && WellFormed(dir)
    requires s.faults == map[] && IsDir(s, p) && Ahead(s, p, dir, k - 1)
    ensures UploadRun(s, p + [dir.entries[k - 1].name], dir.entries[k - 1].node).outcome.Ok?
    decreases dir.entries[k - 1].node, 2
  {
    var e := dir.entries[k - 1];
    assert e in dir.entries;
    ParentOfChild(p, e.name);
    UploadCompletes(s, p + [e.name], e.node);
  }

  /** Turn `k - 1` of the loop, once its upload got through. */
  lemma CompleteStep(s0: Server, p: Path, dir: LocalNode, k: nat)
    requires dir.LDir? && 0 < k <= |dir.entries| && NamesApart(dir.entries)
    requires EntriesRun(s0, p, dir, k - 1).outcome.Ok?
    requires Ahead(EntriesRun(s0, p, dir, k - 1).server, p, dir, k - 1)
    requires UploadRun(EntriesRun(s0, p, dir, k - 1).server, p + [dir.entries[k - 1].name], dir.entries[k - 1].node).outcome.Ok?
    ensures EntriesRun(s0, p, dir, k).outcome.Ok?
    ensures Ahead(EntriesRun(s0, p, dir, k).server, p, dir, k)
  {
    var prev := EntriesRun(s0, p, dir, k - 1).server;
    var t := UploadRun(prev, p + [dir.entries[k - 1].name], dir.entries[k - 1].node);
    EntriesStep(s0, p, dir, k - 1);
    assert EntriesRun(s0, p, dir, k).server == t.server && EntriesRun(s0, p, dir, k).outcome == t.outcome;
    AheadVacant(prev, p, dir, k);
  }

  /** Uploading entry `k - 1` leaves the places of the entries after it empty. */
  lemma AheadVacant(s: Server, p: Path, dir: LocalNode, k: nat)
    requires dir.LDir? && 0 < k <= |dir.entries| && NamesApart(dir.entries)
    requires Ahead(s, p, dir, k - 1)
    ensures Ahead(UploadRun(s, p + [dir.entries[k - 1].name], dir.entries[k - 1].node).server, p, dir, k)
  {
    forall i | k <= i < |dir.entries|
      ensures Vacant(UploadRun(s, p + [dir.entries[k - 1].name], dir.entries[k - 1].node).server, p + [dir.entries[i].name], false)
    {
      assert dir.entries[k - 1].name != dir.entries[i].name;
      SiblingStaysVacant(s, p, dir.entries[k - 1].name, dir.entries[i].name, dir.entries[k - 1].node);
    }
  }

  /** No turn of the loop has failed yet, and the place of every entry is empty. */
  lemma LoopStart(s: Server, p: Path, dir: LocalNode)
    requires dir.LDir? && Vacant(s, p, true)
    ensures EntriesRun(s, p, dir, 0).outcome.Ok? && Ahead(EntriesRun(s, p, dir, 0).server, p, dir, 0)
  {
    forall i | 0 <= i < |dir.entries| ensures Vacant(s, p + [dir.entries[i].name], false) {
      VacantChild(s, p, dir.entries[i].name);
    }
  }

  /** Nothing strictly below `p` means nothing at or below any child of `p`. */
  lemma VacantChild(s: Server, p: Path, n: Name)
    requires Vacant(s, p, true)
    ensures Vacant(s, p + [n], false)
  {
    forall q | q in s.kinds ensures !(p + [n] <= q) {
      if p + [n] <= q { BelowChild(p, p + [n], q); }
    }
  }

  /** Uploading one child leaves the place of a differently named sibling empty. */
  lemma SiblingStaysVacant(s: Server, p: Path, a: Name, b: Name, node: LocalNode)
    requires a != b && Vacant(s, p + [b], false)
    ensures Vacant(UploadRun(s, p + [a], node).server, p + [b], false)
  {
    var t := UploadRun(s, p + [a], node).server;
    UploadConfined(s, p + [a], node);
    forall x | x in t.kinds ensures !(p + [b] <= x) {
      if x !in s.kinds && p + [b] <= x {
        SubtreesApart(p, b, a, x);
      }
    }
  }

  /** Uploading keeps the server a tree. */
  lemma {:induction false} UploadKeepsValid(s: Server, p: Path, node: LocalNode)
    requires Valid(s)
    ensures Valid(UploadRun(s, p, node).server)
    decreases node, 1
  {
    match node
    case LFile(size) => StorKeepsValid(s, p, size);
    case LDir(entries) =>
      MkdKeepsValid(s, p);
      if MkdStep(s, p).1.Ok? {
        ChildrenKeepValid(MkdStep(s, p).0, p, node, |entries|);
      }
  }

  lemma {:induction false} ChildrenKeepValid(s0: Server, p: Path, dir: LocalNode, k: nat)
    requires Valid(s0) && dir.LDir? && k <= |dir.entries|
    ensures Valid(EntriesRun(s0, p, dir, k).server)
    decreases dir, 0, k
  {
    if k > 0 {
      var prev := EntriesRun(s0, p, dir, k - 1);
      ChildrenKeepValid(s0, p, dir, k - 1);
      var e := dir.entries[k - 1];
      if prev.outcome.Ok? {
        assert e in dir.entries;
        UploadKeepsValid(prev.server, p + [e.name], e.node);
      }
    }
  }
}
