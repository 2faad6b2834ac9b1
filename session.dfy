/**
 * The `ftplib.FTP` session as a mutable object: the server's entries, the
 * listing order and the log of every command sent so far. The five
 * commands are its primitive methods; `Remove` and `Upload` are the
 * recursive procedures of `Monitor.remove` and `Monitor.upload`, each proved
 * to do exactly what `Removal.RemoveRun` and `Uploading.UploadRun` describe.
 */
module Session {
  import opened Wrappers
  import opened Paths
  import opened Server
  import Removal
  import Uploading

  class FtpSession {
    var kinds: map<Path, Kind>
    var order: seq<Path>
    const faults: map<Request, Error>
    const listsDots: bool
    /** Every command sent, in order. */
    var log: seq<Request>

    /** The server as the model functions see it. */
    function State(): Server
      reads this
    {
      Server(kinds, order, faults, listsDots)
    }

    constructor (s: Server)
      ensures State() == s && log == []
    {
      kinds := s.kinds;
      order := s.order;
      faults := s.faults;
      listsDots := s.listsDots;
      log := [];
    }

    /** `ftp.nlst(p)`: lists a directory and changes nothing. */
    method Nlst(p: Path) returns (r: Result<seq<Path>, Error>)
      modifies this
      ensures r == NlstReply(old(State()), p)
      ensures State() == old(State()) && log == old(log) + [Request.Nlst(p)]
    {
      r := NlstReply(State(), p);
      log := log + [Request.Nlst(p)];
    }

    /** `ftp.delete(p)`. */
    method Delete(p: Path) returns (o: Outcome)
      modifies this
      ensures State() == DeleteStep(old(State()), p).0 && o == DeleteStep(old(State()), p).1
      ensures log == old(log) + [Request.Delete(p)]
    {
      var step := DeleteStep(State(), p);
      kinds, o := step.0.kinds, step.1;
      log := log + [Request.Delete(p)];
    }

    /** `ftp.rmd(p)`. */
    method Rmd(p: Path) returns (o: Outcome)
      modifies this
      ensures State() == RmdStep(old(State()), p).0 && o == RmdStep(old(State()), p).1
      ensures log == old(log) + [Request.Rmd(p)]
    {
      var step := RmdStep(State(), p);
      kinds, o := step.0.kinds, step.1;
      log := log + [Request.Rmd(p)];
    }

    /** `ftp.mkd(p)`. */
    method Mkd(p: Path) returns (o: Outcome)
      modifies this
      ensures State() == MkdStep(old(State()), p).0 && o == MkdStep(old(State()), p).1
      ensures log == old(log) + [Request.Mkd(p)]
    {
      var step := MkdStep(State(), p);
      kinds, order, o := step.0.kinds, step.0.order, step.1;
      log := log + [Request.Mkd(p)];
    }

    /** `ftp.storbinary('STOR ' + p, fp)` for a file of `size` bytes. */
    method Stor(p: Path, size: nat) returns (o: Outcome)
      modifies this
      ensures State() == StorStep(old(State()), p, size).0 && o == StorStep(old(State()), p, size).1
      ensures log == old(log) + [Request.Stor(p, size)]
    {
      var step := StorStep(State(), p, size);
      kinds, order, o := step.0.kinds, step.0.order, step.1;
      log := log + [Request.Stor(p, size)];
    }

    /** `remove(p, is_dir)`; an uncaught error is returned as the outcome. */
    method Remove(p: Path, isDir: bool) returns (o: Outcome)
      modifies this
      ensures var r := Removal.RemoveRun(old(State()), p, isDir);
        State() == r.server && log == old(log) + r.ops && o == r.outcome
      decreases |Removal.Desc(State(), p)|, 2
    {
      if isDir {
        o := RemoveDirectory(p);
      } else {
        o := Delete(p);
      }
    }

    /** The `is_dir` branch of `remove`: NLST, then the loop over the listing and RMD. */
    method RemoveDirectory(p: Path) returns (o: Outcome)
      modifies this
      ensures var r := Removal.RemoveRun(old(State()), p, true);
        State() == r.server && log == old(log) + r.ops && o == r.outcome
      decreases |Removal.Desc(State(), p)|, 1
    {
      ghost var s0, l0 := State(), log;
      var reply := Nlst(p);
      if reply.Failure? {
        o := Fail(reply.error);
        return;
      }
      Removal.RemoveListed(s0, p);
      o := RemoveListing(p, reply.value);
      ghost var a := Removal.AfterListing(s0, p, reply.value);
      assert log == l0 + ([Request.Nlst(p)] + a.ops);
    }

    /** The loop over the listing of `p`, then `ftp.rmd(p)` if no error escaped it. */
    method RemoveListing(p: Path, listing: seq<Path>) returns (o: Outcome)
      requires Removal.Listed(State(), p, listing)
      modifies this
      ensures var a := Removal.AfterListing(old(State()), p, listing);
        State() == a.server && log == old(log) + a.ops && o == a.outcome
      decreases |Removal.Desc(State(), p)|, 0, 2
    {
      o := RemoveEntries(p, listing);
      if o.Ok? {
        o := Rmd(p);
      }
    }

    /**
     * The loop of `remove` over the listing of directory `p`: `.` and `..`
     * are skipped, and the first error that escapes ends the loop.
     */
    method RemoveEntries(p: Path, listing: seq<Path>) returns (o: Outcome)
      requires Removal.Listed(State(), p, listing)
      modifies this
      ensures var c := Removal.ChildrenRun(old(State()), p, listing, |listing|);
        State() == c.server && log == old(log) + c.ops && o == c.outcome
      decreases |Removal.Desc(State(), p)|, 0, 1
    {
      ghost var s0 := State();
      ghost var log0 := log;
      var i := 0;
      while i < |listing|
        invariant 0 <= i <= |listing|
        invariant var c := Removal.ChildrenRun(s0, p, listing, i);
          c.outcome.Ok? && State() == c.server && log == log0 + c.ops
      {
        o := RemoveEntry(s0, log0, p, listing, i);
        if o.Fail? {
          Removal.ChildrenFailureSticks(s0, p, listing, i + 1, |listing|);
          return;
        }
        i := i + 1;
      }
      o := Ok;
    }

    /** One turn of the loop of `remove`: entry `i` of the listing of `p`, which started on `s0`. */
    method RemoveEntry(ghost s0: Server, ghost log0: seq<Request>, p: Path, listing: seq<Path>, i: nat)
      returns (o: Outcome)
      requires Removal.Listed(s0, p, listing) && i < |listing|
      requires var c := Removal.ChildrenRun(s0, p, listing, i);
        c.outcome.Ok? && State() == c.server && log == log0 + c.ops
      modifies this
      ensures var c := Removal.ChildrenRun(s0, p, listing, i + 1);
        State() == c.server && log == log0 + c.ops && o == c.outcome
      decreases |Removal.Desc(s0, p)|, 0, 0
    {
      var q := listing[i];
      ghost var prev := Removal.ChildrenRun(s0, p, listing, i);
      Removal.ChildrenStep(s0, p, listing, i);
      if !Removal.Real(q) {
        return Ok;
      }
      Removal.ChildMeasure(s0, State(), p, q);
      o := TryRemove(q);
      LogRegroup(log0, prev.ops, Removal.TryRemove(prev.server, q).ops);
    }

    /** `try: remove(q, False) except: remove(q, True)`. */
    method TryRemove(q: Path) returns (o: Outcome)
      modifies this
      ensures var r := Removal.TryRemove(old(State()), q);
        State() == r.server && log == old(log) + r.ops && o == r.outcome
      decreases |Removal.Desc(State(), q)|, 3
    {
      ghost var s, l := State(), log;
      o := Remove(q, false);
      ghost var a := Removal.RemoveRun(s, q, false);
      if o.Fail? {
        Removal.ShrinkMeasure(s, State(), q);
        o := Remove(q, true);
        ghost var b := Removal.RemoveRun(a.server, q, true);
        assert log == l + (a.ops + b.ops);
      }
    }

    /** `upload(p)` for the local node at `p`; an uncaught error is returned as the outcome. */
    method Upload(p: Path, node: LocalNode) returns (o: Outcome)
      modifies this
      ensures var r := Uploading.UploadRun(old(State()), p, node);
        State() == r.server && log == old(log) + r.ops && o == r.outcome
      decreases node, 1
    {
      match node
      case LFile(size) =>
        o := Stor(p, size);
      case LDir(entries) =>
        o := Mkd(p);
        if o.Ok? {
          o := UploadEntries(p, node);
        }
    }

    /** The loop of `upload` over the entries of local directory `dir`; the first error ends it. */
    method UploadEntries(p: Path, dir: LocalNode) returns (o: Outcome)
      requires dir.LDir?
      modifies this
      ensures var c := Uploading.EntriesRun(old(State()), p, dir, |dir.entries|);
        State() == c.server && log == old(log) + c.ops && o == c.outcome
      decreases dir, 0, 1
    {
      ghost var s0 := State();
      ghost var log0 := log;
      var i := 0;
      while i < |dir.entries|
        invariant 0 <= i <= |dir.entries|
        invariant var c := Uploading.EntriesRun(s0, p, dir, i);
          c.outcome.Ok? && State() == c.server && log == log0 + c.ops
      {
        o := UploadEntry(s0, log0, p, dir, i);
        if o.Fail? {
          Uploading.EntriesFailureSticks(s0, p, dir, i + 1, |dir.entries|);
          return;
        }
        i := i + 1;
      }
      o := Ok;
    }

    /** One turn of the loop of `upload`: entry `i` of `dir`, whose upload started on `s0`. */
    method UploadEntry(ghost s0: Server, ghost log0: seq<Request>, p: Path, dir: LocalNode, i: nat)
      returns (o: Outcome)
      requires dir.LDir? && i < |dir.entries|
      requires var c := Uploading.EntriesRun(s0, p, dir, i);
        c.outcome.Ok? && State() == c.server && log == log0 + c.ops
      modifies this
      ensures var c := Uploading.EntriesRun(s0, p, dir, i + 1);
        State() == c.server && log == log0 + c.ops && o == c.outcome
      decreases dir, 0, 0
    {
      var e := dir.entries[i];
      assert e in dir.entries;
      ghost var prev := Uploading.EntriesRun(s0, p, dir, i);
      Uploading.EntriesStep(s0, p, dir, i);
      o := Upload(p + [e.name], e.node);
      LogRegroup(log0, prev.ops, Uploading.UploadRun(prev.server, p + [e.name], e.node).ops);
    }

    /**
     * `upload(p)` against the local tree `root`: a path that holds nothing
     * fails on reading its size, before any command is sent.
     */
    method UploadPath(root: LocalNode, p: Path) returns (o: Outcome)
      modifies this
      ensures var r := Uploading.UploadPath(old(State()), root, p);
        State() == r.server && log == old(log) + r.ops && o == r.outcome
    {
      match Lookup(root, p)
      case None =>
        o := Fail(LocalIO);
      case Some(node) =>
        o := Upload(p, node);
    }
  }
}
