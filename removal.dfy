/**
 * What `Monitor.remove` does to the server, as a function of the server
 * state: DELE for a file; for a directory NLST, then for every listed entry
 * other than `.` and `..` a DELE that falls back to removing the entry as a
 * directory when it fails in any way, and at last RMD of the directory.
 * An error that is not caught ends the procedure where it arises.
 */
module Removal {
  import opened Wrappers
  import opened Paths
  import opened Server

  /** The entries strictly below `p`; their number bounds the recursion. */
  ghost function Desc(s: Server, p: Path): set<Path> {
    set q | q in s.kinds && p < q
  }

  /**
   * `t` has no entry that `s` does not have, every entry it kept has the kind
   * it had, and the server's own behaviour (its faults, whether it lists dots)
   * is the same.
   */
  ghost predicate Shrinks(s: Server, t: Server) {
    && t.kinds.Keys <= s.kinds.Keys
    && (forall q :: q in t.kinds ==> t.kinds[q] == s.kinds[q])
    && t.faults == s.faults && t.listsDots == s.listsDots
  }

  /** Every entry of `s` outside the subtree at `p` is still in `t`. */
  ghost predicate KeepsOutside(s: Server, t: Server, p: Path) {
    forall q :: q in s.kinds && !(p <= q) ==> q in t.kinds
  }

  /** Every entry of `s` that is not strictly below `p` is still in `t`. */
  ghost predicate KeepsAllButBelow(s: Server, t: Server, p: Path) {
    forall q :: q in s.kinds && !(p < q) ==> q in t.kinds
  }

  /** Nothing at or below `p` is left. */
  ghost predicate Gone(t: Server, p: Path) {
    forall q :: q in t.kinds ==> !(p <= q)
  }

  /** No component of `x` after the first `|p|` is `.` or `..`. */
  predicate NoDotsBelow(p: Path, x: Path) {
    forall k :: |p| <= k < |x| ==> !IsDot(x[k])
  }

  /** A listed entry other than `.` and `..`: one the loop acts on. */
  predicate Real(q: Path) {
    |q| > 0 && !IsDot(Last(q))
  }

  /** Every listed entry is a child of `p`, and every real one exists in `s`. */
  ghost predicate Listed(s: Server, p: Path, listing: seq<Path>) {
    forall i :: 0 <= i < |listing| ==>
      IsChildOf(listing[i], p) && (Real(listing[i]) ==> listing[i] in s.kinds)
  }

  lemma SubsetCard<T>(a: set<T>, b: set<T>)
    requires a <= b
    ensures |a| <= |b|
  {
    if a != {} {
      var x :| x in a;
      SubsetCard(a - {x}, b - {x});
    }
  }

  /** A listed child has fewer entries below it than its parent had when it was listed. */
  lemma ChildMeasure(s0: Server, t: Server, p: Path, q: Path)
    requires Shrinks(s0, t) && q in s0.kinds && IsChildOf(q, p)
    ensures |Desc(t, q)| < |Desc(s0, p)|
  {
    ShrinkMeasure(s0, t, q);
    assert q == p + [Last(q)];
    forall x | x in Desc(t, q) ensures x in Desc(s0, p) - {q} {
      assert q[..|p|] == p && x[..|q|] == q;
      assert x[..|p|] == p;
    }
    SubsetCard(Desc(t, q), Desc(s0, p) - {q});
  }

  lemma ShrinkMeasure(s: Server, t: Server, q: Path)
    requires Shrinks(s, t)
    ensures |Desc(t, q)| <= |Desc(s, q)|
  {
    SubsetCard(Desc(t, q), Desc(s, q));
  }

  /** An entry that is gone from a valid tree took its subtree with it. */
  lemma AbsentMeansGone(t: Server, p: Path)
    requires Valid(t) && |p| > 0 && p !in t.kinds
    ensures Gone(t, p)
  {
    forall q | q in t.kinds && |p| <= |q| ensures q[..|p|] != p {
      if |p| < |q| {
        assert q[..|p|] in t.kinds;
      } else {
        assert q[..|p|] == q;
      }
    }
  }

  /** `remove(p, is_dir)`. */
  function RemoveRun(s: Server, p: Path, isDir: bool): (r: Run)
    ensures Shrinks(s, r.server)
    decreases |Desc(s, p)|, 1
  {
    if !isDir then
      var step := DeleteStep(s, p);
      Run(step.0, [Delete(p)], step.1)
    else
      match NlstReply(s, p)
      case Failure(e) => Run(s, [Nlst(p)], Fail(e))
      case Success(listing) =>
        var c := ChildrenRun(s, p, listing, |listing|);
        if c.outcome.Fail? then Run(c.server, [Nlst(p)] + c.ops, c.outcome)
        else
          var step := RmdStep(c.server, p);
          Run(step.0, [Nlst(p)] + c.ops + [Rmd(p)], step.1)
  }

  /** What `remove(p, True)` does once the listing is in: the loop, then RMD if it got through. */
  function AfterListing(s: Server, p: Path, listing: seq<Path>): (r: Run)
    requires Listed(s, p, listing)
  {
    var c := ChildrenRun(s, p, listing, |listing|);
    if c.outcome.Fail? then c
    else
      var step := RmdStep(c.server, p);
      Run(step.0, c.ops + [Rmd(p)], step.1)
  }

  /** Removing a directory that can be listed is the NLST followed by the rest. */
  lemma RemoveListed(s: Server, p: Path)
    requires NlstReply(s, p).Success?
    ensures Listed(s, p, NlstReply(s, p).value)
    ensures var a := AfterListing(s, p, NlstReply(s, p).value);
      RemoveRun(s, p, true) == Run(a.server, [Nlst(p)] + a.ops, a.outcome)
  {
    var listing := NlstReply(s, p).value;
    var c := ChildrenRun(s, p, listing, |listing|);
    assert [Nlst(p)] + c.ops + [Rmd(p)] == [Nlst(p)] + (c.ops + [Rmd(p)]);
  }

  /** The first `k` turns of the loop over the listing of directory `p`; dot entries are skipped. */
  function ChildrenRun(s0: Server, p: Path, listing: seq<Path>, k: nat): (r: Run)
    requires Listed(s0, p, listing) && k <= |listing|
    ensures Shrinks(s0, r.server)
    decreases |Desc(s0, p)|, 0, k
  {
    if k == 0 then Run(s0, [], Ok)
    else
      var prev := ChildrenRun(s0, p, listing, k - 1);
      var q := listing[k - 1];
      if prev.outcome.Fail? || !Real(q) then prev
      else
        ChildMeasure(s0, prev.server, p, q);
        var t := TryRemove(prev.server, q);
        Run(t.server, prev.ops + t.ops, t.outcome)
  }

  /** One more turn of the loop, when the earlier ones got through. */
  lemma ChildrenStep(s0: Server, p: Path, listing: seq<Path>, i: nat)
    requires Listed(s0, p, listing) && i < |listing| && ChildrenRun(s0, p, listing, i).outcome.Ok?
    ensures var prev := ChildrenRun(s0, p, listing, i);
      var q := listing[i];
      var t := TryRemove(prev.server, q);
      ChildrenRun(s0, p, listing, i + 1) == if Real(q) then Run(t.server, prev.ops + t.ops, t.outcome) else prev
  {
  }

  /**
   * `try: remove(q, False) except: remove(q, True)`: the bare `except`
   * catches every error of the DELE, whatever its kind.
   */
  function TryRemove(s: Server, q: Path): (r: Run)
    ensures Shrinks(s, r.server)
    ensures |r.ops| > 0 && r.ops[0] == Delete(q)
    decreases |Desc(s, q)|, 2
  {
    var a := RemoveRun(s, q, false);
    if a.outcome.Ok? then a
    else
      ShrinkMeasure(s, a.server, q);
      var b := RemoveRun(a.server, q, true);
      Run(b.server, a.ops + b.ops, b.outcome)
  }

  /** Removing keeps the server a tree. */
  lemma {:induction false} RemoveKeepsValid(s: Server, p: Path, isDir: bool)
    requires Valid(s)
    ensures Valid(RemoveRun(s, p, isDir).server)
    decreases |Desc(s, p)|, 1
  {
    if !isDir {
      DeleteKeepsValid(s, p);
    } else if NlstReply(s, p).Success? {
      var listing := NlstReply(s, p).value;
      ChildrenKeepValid(s, p, listing, |listing|);
      RmdKeepsValid(ChildrenRun(s, p, listing, |listing|).server, p);
    }
  }

  lemma {:induction false} ChildrenKeepValid(s0: Server, p: Path, listing: seq<Path>, k: nat)
    requires Valid(s0) && Listed(s0, p, listing) && k <= |listing|
    ensures Valid(ChildrenRun(s0, p, listing, k).server)
    decreases |Desc(s0, p)|, 0, k
  {
    if k > 0 {
      var prev := ChildrenRun(s0, p, listing, k - 1);
      ChildrenKeepValid(s0, p, listing, k - 1);
      var q := listing[k - 1];
      if prev.outcome.Ok? && Real(q) {
        ChildMeasure(s0, prev.server, p, q);
        TryKeepsValid(prev.server, q);
      }
    }
  }

  lemma {:induction false} TryKeepsValid(s: Server, q: Path)
    requires Valid(s)
    ensures Valid(TryRemove(s, q).server)
    decreases |Desc(s, q)|, 2
  {
    var a := RemoveRun(s, q, false);
    RemoveKeepsValid(s, q, false);
    if a.outcome.Fail? {
      ShrinkMeasure(s, a.server, q);
      RemoveKeepsValid(a.server, q, true);
    }
  }

  /** An error ends the loop: the turns after a failed one change nothing. */
  lemma {:induction false} ChildrenFailureSticks(s0: Server, p: Path, listing: seq<Path>, j: nat, k: nat)
    requires Listed(s0, p, listing) && j <= k <= |listing|
    requires ChildrenRun(s0, p, listing, j).outcome.Fail?
    ensures ChildrenRun(s0, p, listing, k) == ChildrenRun(s0, p, listing, j)
    decreases k
  {
    if k > j {
      ChildrenFailureSticks(s0, p, listing, j, k - 1);
    }
  }

  /** Removing `p` touches nothing outside the subtree at `p` and never enters a dot entry. */
  lemma {:induction false} RemoveConfined(s: Server, p: Path, isDir: bool)
    ensures var r := RemoveRun(s, p, isDir);
      KeepsOutside(s, r.server, p) && AllBelow(r.ops, p, false)
    decreases |Desc(s, p)|, 1
  {
    if isDir {
      match NlstReply(s, p)
      case Failure(e) =>
      case Success(listing) =>
        var c := ChildrenRun(s, p, listing, |listing|);
        ChildrenConfined(s, p, listing, |listing|);
        var r := RemoveRun(s, p, isDir);
        if c.outcome.Fail? {
          assert r == Run(c.server, [Nlst(p)] + c.ops, c.outcome);
        } else {
          assert r.ops == [Nlst(p)] + c.ops + [Rmd(p)];
          assert r.server.kinds.Keys >= c.server.kinds.Keys - {p};
        }
    }
  }

  lemma {:induction false} ChildrenConfined(s0: Server, p: Path, listing: seq<Path>, k: nat)
    requires Listed(s0, p, listing) && k <= |listing|
    ensures var r := ChildrenRun(s0, p, listing, k);
      KeepsAllButBelow(s0, r.server, p) && AllBelow(r.ops, p, true)
    decreases |Desc(s0, p)|, 0, k
  {
    if k > 0 {
      var prev := ChildrenRun(s0, p, listing, k - 1);
      ChildrenConfined(s0, p, listing, k - 1);
      var q := listing[k - 1];
      if !(prev.outcome.Fail? || !Real(q)) {
        ChildMeasure(s0, prev.server, p, q);
        TryConfined(prev.server, q);
        UnderChild(p, q, TryRemove(prev.server, q).ops);
      }
    }
  }

  lemma {:induction false} TryConfined(s: Server, q: Path)
    ensures var r := TryRemove(s, q);
      KeepsOutside(s, r.server, q) && AllBelow(r.ops, q, false)
    decreases |Desc(s, q)|, 2
  {
    var a := RemoveRun(s, q, false);
    RemoveConfined(s, q, false);
    if a.outcome.Fail? {
      ShrinkMeasure(s, a.server, q);
      RemoveConfined(a.server, q, true);
    }
  }

  /** Every command in `ops` is on a path below `p` (strictly below if `strict`), with no dot component past `p`. */
  ghost predicate AllBelow(ops: seq<Request>, p: Path, strict: bool) {
    forall i :: 0 <= i < |ops| ==>
      (if strict then p < ops[i].path else p <= ops[i].path) && NoDotsBelow(p, ops[i].path)
  }

  /** What lies in the subtree of a real child lies strictly below the parent. */
  lemma UnderChild(p: Path, q: Path, ops: seq<Request>)
    requires IsChildOf(q, p) && Real(q) && AllBelow(ops, q, false)
    ensures AllBelow(ops, p, true)
  {
    forall i | 0 <= i < |ops| ensures p < ops[i].path && NoDotsBelow(p, ops[i].path) {
      var x := ops[i].path;
      assert x[..|q|] == q && q[..|p|] == p;
      assert x[..|p|] == p;
      assert x[|p|] == q[|p|];
    }
  }

  /** A removal that reports success leaves nothing at or below `p`. */
  lemma RemoveOkMeansGone(s: Server, p: Path, isDir: bool)
    requires Valid(s) && RemoveRun(s, p, isDir).outcome.Ok?
    ensures Gone(RemoveRun(s, p, isDir).server, p)
  {
    var r := RemoveRun(s, p, isDir);
    if !isDir {
      assert p in s.kinds && r.server.kinds == s.kinds - {p};
    } else {
      var listing := NlstReply(s, p).value;
      var c := ChildrenRun(s, p, listing, |listing|);
      assert p in c.server.kinds && r.server.kinds == c.server.kinds - {p};
    }
    RemoveKeepsValid(s, p, isDir);
    AbsentMeansGone(r.server, p);
  }

  /** The DELE that opens an attempt decides it when it succeeds; when it fails in any way the entry is removed as a directory. */
  lemma TryFallsBack(s: Server, q: Path)
    ensures DeleteStep(s, q).1.Ok? ==> TryRemove(s, q) == Run(DeleteStep(s, q).0, [Delete(q)], Ok)
    ensures DeleteStep(s, q).1.Fail? ==>
      var b := RemoveRun(s, q, true);
      TryRemove(s, q) == Run(b.server, [Delete(q)] + b.ops, b.outcome)
  {
  }

  /** No entry of the server is named `.` or `..`, as on every real file system. */
  ghost predicate RealNames(s: Server) {
    forall q :: q in s.kinds ==> Real(q)
  }

  /**
   * On a server that fails no request, removing a directory gets through:
   * every entry below it is deleted or removed as a directory, then the RMD
   * succeeds.
   */
  lemma {:induction false} RemoveCompletes(s: Server, p: Path)
    requires Valid(s) && s.faults == map[] && RealNames(s) && p in s.kinds && s.kinds[p] == Dir
    ensures RemoveRun(s, p, true).outcome.Ok?
    decreases |Desc(s, p)|, 1
  {
    var listing := NlstReply(s, p).value;
    NlstNamesOnce(s, p);
    NlstListsEveryChild(s, p);
    ChildrenCompletes(s, p, listing, |listing|);
    ChildrenConfined(s, p, listing, |listing|);
    var c := ChildrenRun(s, p, listing, |listing|);
    forall q | q in c.server.kinds ensures !IsChildOf(q, p) {
      assert q in s.kinds && Real(q);
      assert q <= q;
    }
  }

  /**
   * The loop on a server that fails nothing: every turn succeeds, the real
   * entries already visited are gone with their subtrees, and those still
   * ahead are there.
   */
  lemma {:induction false} ChildrenCompletes(s0: Server, p: Path, listing: seq<Path>, k: nat)
    requires Valid(s0) && s0.faults == map[] && RealNames(s0)
    requires Listed(s0, p, listing) && DistinctEntries(listing) && k <= |listing|
    ensures var c := ChildrenRun(s0, p, listing, k);
      && c.outcome.Ok?
      && (forall i :: 0 <= i < k && Real(listing[i]) ==> Gone(c.server, listing[i]))
      && (forall i :: k <= i < |listing| && Real(listing[i]) ==> listing[i] in c.server.kinds)
    decreases |Desc(s0, p)|, 0, k
  {
    if k > 0 {
      ChildrenCompletes(s0, p, listing, k - 1);
      ChildrenKeepValid(s0, p, listing, k - 1);
      ChildrenStep(s0, p, listing, k - 1);
      var prev := ChildrenRun(s0, p, listing, k - 1);
      var q := listing[k - 1];
      if Real(q) {
        ChildMeasure(s0, prev.server, p, q);
        TryCompletes(prev.server, q);
        TryConfined(prev.server, q);
        var t := TryRemove(prev.server, q);
        AheadSurvives(prev.server, t.server, p, listing, k);
        GoneStays(prev.server, t.server, listing, k - 1);
      }
    }
  }

  /** The turn on entry `k - 1` keeps the entries after it, which are its siblings. */
  lemma AheadSurvives(a: Server, b: Server, p: Path, listing: seq<Path>, k: nat)
    requires 0 < k <= |listing| && DistinctEntries(listing) && Real(listing[k - 1])
    requires forall i :: 0 <= i < |listing| ==> IsChildOf(listing[i], p)
    requires KeepsOutside(a, b, listing[k - 1])
    requires forall i :: k <= i < |listing| && Real(listing[i]) ==> listing[i] in a.kinds
    ensures forall i :: k <= i < |listing| && Real(listing[i]) ==> listing[i] in b.kinds
  {
    var q := listing[k - 1];
    forall i | k <= i < |listing| && Real(listing[i]) ensures listing[i] in b.kinds {
      var x := listing[i];
      assert q != x && |q| == |x|;
      assert x[..|x|] == x;
    }
  }

  /** What is gone stays gone on a server that only loses entries. */
  lemma GoneStays(a: Server, b: Server, listing: seq<Path>, k: nat)
    requires k <= |listing| && Shrinks(a, b)
    requires forall i :: 0 <= i < k && Real(listing[i]) ==> Gone(a, listing[i])
    ensures forall i :: 0 <= i < k && Real(listing[i]) ==> Gone(b, listing[i])
  {
  }

  /** An attempt on an entry of a server that fails nothing succeeds and leaves nothing at or below it. */
  lemma {:induction false} TryCompletes(s: Server, q: Path)
    requires Valid(s) && s.faults == map[] && RealNames(s) && q in s.kinds
    ensures TryRemove(s, q).outcome.Ok? && Gone(TryRemove(s, q).server, q)
    decreases |Desc(s, q)|, 2
  {
    if s.kinds[q].File? {
      RemoveOkMeansGone(s, q, false);
    } else {
      RemoveCompletes(s, q);
      RemoveOkMeansGone(s, q, true);
    }
  }

  /** Removing a file is one DELE; it succeeds exactly when the path is a file and the server does not fail it. */
  lemma RemoveFileIsOneDelete(s: Server, p: Path)
    ensures RemoveRun(s, p, false).ops == [Delete(p)]
    ensures RemoveRun(s, p, false).outcome.Ok? <==> p in s.kinds && s.kinds[p].File? && Delete(p) !in s.faults
  {
  }

  /** The real entries of a listing name different paths. */
  ghost predicate DistinctEntries(listing: seq<Path>) {
    forall i, j :: 0 <= i < j < |listing| && Real(listing[i]) ==> listing[i] != listing[j]
  }

  /** A listing that holds only `.` and `..` leaves the loop with nothing to do. */
  lemma {:induction false} DotsOnlyChildren(s0: Server, p: Path, listing: seq<Path>, k: nat)
    requires Listed(s0, p, listing) && k <= |listing|
    requires forall i :: 0 <= i < |listing| ==> !Real(listing[i])
    ensures ChildrenRun(s0, p, listing, k) == Run(s0, [], Ok)
  {
    if k > 0 {
      DotsOnlyChildren(s0, p, listing, k - 1);
    }
  }

  /**
   * Removing a directory whose listing is empty, or holds only `.` and `..`,
   * sends NLST and then RMD and nothing else.
   */
  lemma EmptyListingOnlyRmd(s: Server, p: Path)
    requires NlstReply(s, p).Success?
    requires forall i :: 0 <= i < |NlstReply(s, p).value| ==> !Real(NlstReply(s, p).value[i])
    ensures RemoveRun(s, p, true).ops == [Nlst(p), Rmd(p)]
    ensures RemoveRun(s, p, true).outcome == RmdStep(s, p).1
  {
    var listing := NlstReply(s, p).value;
    DotsOnlyChildren(s, p, listing, |listing|);
  }

  /** Some real entry among the first `k` of the listing has `x` in its subtree. */
  ghost predicate Owned(listing: seq<Path>, k: nat, x: Path)
    requires k <= |listing|
  {
    exists i :: 0 <= i < k && Real(listing[i]) && listing[i] <= x
  }

  ghost predicate AllOwned(ops: seq<Request>, listing: seq<Path>, k: nat)
    requires k <= |listing|
  {
    forall m :: 0 <= m < |ops| ==> Owned(listing, k, ops[m].path)
  }

  /** No command in `ops` touches the subtree at `q`. */
  ghost predicate Untouched(ops: seq<Request>, q: Path) {
    forall m :: 0 <= m < |ops| ==> !(q <= ops[m].path)
  }

  /** `ops` holds a DELE of `q` before any other command on the subtree at `q`. */
  ghost predicate TriedFirstAsFile(ops: seq<Request>, q: Path) {
    exists j :: 0 <= j < |ops| && ops[j] == Delete(q) && Untouched(ops[..j], q)
  }

  lemma TriedFirstExtends(ops: seq<Request>, more: seq<Request>, q: Path)
    requires TriedFirstAsFile(ops, q)
    ensures TriedFirstAsFile(ops + more, q)
  {
    var j :| 0 <= j < |ops| && ops[j] == Delete(q) && Untouched(ops[..j], q);
    assert (ops + more)[..j] == ops[..j];
    assert (ops + more)[j] == Delete(q);
  }

  lemma TriedFirstAfter(ops: seq<Request>, more: seq<Request>, q: Path)
    requires Untouched(ops, q) && |more| > 0 && more[0] == Delete(q)
    ensures TriedFirstAsFile(ops + more, q)
  {
    assert (ops + more)[..|ops|] == ops;
    assert (ops + more)[|ops|] == Delete(q);
  }

  /** Every command the loop sends lies below some real entry it has reached. */
  lemma {:induction false} ChildrenOpsOwned(s0: Server, p: Path, listing: seq<Path>, k: nat)
    requires Listed(s0, p, listing) && k <= |listing|
    ensures AllOwned(ChildrenRun(s0, p, listing, k).ops, listing, k)
    decreases k
  {
    if k > 0 {
      ChildrenOpsOwned(s0, p, listing, k - 1);
      var prev := ChildrenRun(s0, p, listing, k - 1);
      var q := listing[k - 1];
      forall m | 0 <= m < |prev.ops| ensures Owned(listing, k, prev.ops[m].path) {
        assert Owned(listing, k - 1, prev.ops[m].path);
      }
      if !(prev.outcome.Fail? || !Real(q)) {
        var t := TryRemove(prev.server, q);
        TryConfined(prev.server, q);
        var ops := prev.ops + t.ops;
        forall m | 0 <= m < |ops| ensures Owned(listing, k, ops[m].path) {
          if m < |prev.ops| {
            assert ops[m] == prev.ops[m];
          } else {
            assert ops[m] == t.ops[m - |prev.ops|];
            assert listing[k - 1] <= ops[m].path;
          }
        }
      }
    }
  }

  /** Commands owned by earlier real entries of a distinct listing do not touch entry `k - 1`. */
  lemma OthersUntouched(p: Path, listing: seq<Path>, ops: seq<Request>, k: nat)
    requires 0 < k <= |listing| && DistinctEntries(listing) && Real(listing[k - 1])
    requires forall i :: 0 <= i < |listing| ==> IsChildOf(listing[i], p)
    requires AllOwned(ops, listing, k - 1)
    ensures Untouched(ops, listing[k - 1])
  {
    forall m | 0 <= m < |ops| ensures !(listing[k - 1] <= ops[m].path) {
      assert Owned(listing, k - 1, ops[m].path);
      var i :| 0 <= i < k - 1 && Real(listing[i]) && listing[i] <= ops[m].path;
    }
  }

  ghost predicate AllTried(ops: seq<Request>, listing: seq<Path>, k: nat)
    requires k <= |listing|
  {
    forall i :: 0 <= i < k && Real(listing[i]) ==> TriedFirstAsFile(ops, listing[i])
  }

  /**
   * When the loop over the listing runs to its end, every real entry
   * received a removal attempt, and the first command touching the entry's
   * subtree is the DELE of the entry itself.
   */
  lemma {:induction false} EveryChildTriedFirstAsFile(s0: Server, p: Path, listing: seq<Path>, k: nat)
    requires Listed(s0, p, listing) && k <= |listing| && DistinctEntries(listing)
    requires ChildrenRun(s0, p, listing, k).outcome.Ok?
    ensures AllTried(ChildrenRun(s0, p, listing, k).ops, listing, k)
    decreases k
  {
    if k > 0 {
      var prev := ChildrenRun(s0, p, listing, k - 1).ops;
      var ops := ChildrenRun(s0, p, listing, k).ops;
      ChildrenUnfold(s0, p, listing, k);
      EveryChildTriedFirstAsFile(s0, p, listing, k - 1);
      if Real(listing[k - 1]) {
        ChildrenOpsOwned(s0, p, listing, k - 1);
        OthersUntouched(p, listing, prev, k);
        assert ops == prev + ops[|prev|..];
        AllTriedStep(prev, ops[|prev|..], listing, k);
      }
    }
  }

  /** One turn of the loop, for a run that has not failed yet: a real entry adds commands starting with its DELE. */
  lemma ChildrenUnfold(s0: Server, p: Path, listing: seq<Path>, k: nat)
    requires Listed(s0, p, listing) && 0 < k <= |listing|
    requires ChildrenRun(s0, p, listing, k).outcome.Ok?
    ensures ChildrenRun(s0, p, listing, k - 1).outcome.Ok?
    ensures var prev := ChildrenRun(s0, p, listing, k - 1).ops; var ops := ChildrenRun(s0, p, listing, k).ops;
      if Real(listing[k - 1]) then |ops| > |prev| && ops[..|prev|] == prev && ops[|prev|] == Delete(listing[k - 1])
      else ops == prev
  {
  }

  lemma AllTriedStep(ops: seq<Request>, more: seq<Request>, listing: seq<Path>, k: nat)
    requires 0 < k <= |listing| && AllTried(ops, listing, k - 1)
    requires Untouched(ops, listing[k - 1]) && |more| > 0 && more[0] == Delete(listing[k - 1])
    ensures AllTried(ops + more, listing, k)
  {
    TriedFirstAfter(ops, more, listing[k - 1]);
    forall i | 0 <= i < k - 1 && Real(listing[i]) ensures TriedFirstAsFile(ops + more, listing[i]) {
      TriedFirstExtends(ops, more, listing[i]);
    }
  }

  lemma TriedFirstBehindNlst(p: Path, ops: seq<Request>, q: Path)
    requires IsChildOf(q, p) && TriedFirstAsFile(ops, q)
    ensures TriedFirstAsFile([Nlst(p)] + ops, q)
  {
    var j :| 0 <= j < |ops| && ops[j] == Delete(q) && Untouched(ops[..j], q);
    var all := [Nlst(p)] + ops;
    assert all[j + 1] == Delete(q);
    assert all[..j + 1] == [Nlst(p)] + ops[..j];
    assert !(q <= p);
  }

  /**
   * Removing a directory: NLST comes first; RMD of the directory is sent at
   * most once and only as the very last command, and only after every
   * listed real entry was tried, each first with DELE.
   */
  lemma RmdLastAfterEveryChild(s: Server, p: Path)
    requires Valid(s) && NlstReply(s, p).Success?
    ensures var r := RemoveRun(s, p, true); |r.ops| > 0 && r.ops[0] == Nlst(p)
    ensures var r := RemoveRun(s, p, true); Rmd(p) !in r.ops ==> r.outcome.Fail?
    ensures var r := RemoveRun(s, p, true);
      Rmd(p) in r.ops ==> r.ops[|r.ops| - 1] == Rmd(p) && Rmd(p) !in r.ops[..|r.ops| - 1]
    ensures var r := RemoveRun(s, p, true);
      Rmd(p) in r.ops ==> AllTried(r.ops[..|r.ops| - 1], NlstReply(s, p).value, |NlstReply(s, p).value|)
  {
    var r := RemoveRun(s, p, true);
    var listing := NlstReply(s, p).value;
    NlstNamesOnce(s, p);
    var c := ChildrenRun(s, p, listing, |listing|);
    ChildrenSendNoRmd(s, p, listing);
    if c.outcome.Ok? {
      assert r.ops == [Nlst(p)] + c.ops + [Rmd(p)];
      assert r.ops[..|r.ops| - 1] == [Nlst(p)] + c.ops;
      EveryChildTriedFirstAsFile(s, p, listing, |listing|);
      AllTriedBehindNlst(s, p, listing, c.ops);
    } else {
      assert r.ops == [Nlst(p)] + c.ops;
    }
  }

  /** The loop over the listing never sends RMD for the directory itself. */
  lemma ChildrenSendNoRmd(s: Server, p: Path, listing: seq<Path>)
    requires Listed(s, p, listing)
    ensures Rmd(p) !in ChildrenRun(s, p, listing, |listing|).ops
  {
    var c := ChildrenRun(s, p, listing, |listing|);
    ChildrenConfined(s, p, listing, |listing|);
    forall m | 0 <= m < |c.ops| ensures c.ops[m] != Rmd(p) {
      assert p < c.ops[m].path;
    }
  }

  /** Putting the NLST in front keeps every entry's first command its DELE. */
  lemma AllTriedBehindNlst(s: Server, p: Path, listing: seq<Path>, ops: seq<Request>)
    requires Listed(s, p, listing) && AllTried(ops, listing, |listing|)
    ensures AllTried([Nlst(p)] + ops, listing, |listing|)
  {
    forall i | 0 <= i < |listing| && Real(listing[i])
      ensures TriedFirstAsFile([Nlst(p)] + ops, listing[i])
    {
      TriedFirstBehindNlst(p, ops, listing[i]);
    }
  }
}
