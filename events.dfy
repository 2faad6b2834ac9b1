/**
 * The inotify side of `Monitor`: the ignore list, the five `process_IN_*`
 * handlers and the `event_handler` wrapper around each of them. An event
 * carries its absolute `pathname` (what the ignore patterns are matched
 * against) and its path relative to the working directory (what is sent to
 * the server).
 */
module Events {
  import opened Wrappers
  import opened Paths
  import opened Server
  import Url
  import Removal
  import Uploading
  import Session

  /** The five inotify event kinds the watch is registered for. */
  datatype EventKind = InCreate | InCloseWrite | InDelete | InMovedFrom | InMovedTo

  datatype Event = Event(kind: EventKind, pathname: string, path: Path, dir: bool)

  /** What a handler body sets out to do. */
  datatype Action = NoAction | UploadAction(path: Path) | RemoveAction(path: Path, isDir: bool)

  /**
   * The bodies of `process_IN_CREATE` (directories only), `process_IN_CLOSE_WRITE`
   * (files only), `process_IN_DELETE`, `process_IN_MOVED_FROM` and
   * `process_IN_MOVED_TO`.
   */
  function Dispatch(e: Event): (a: Action)
    ensures a.UploadAction? <==>
      (e.kind == InCreate && e.dir) || (e.kind == InCloseWrite && !e.dir) || e.kind == InMovedTo
    ensures a.RemoveAction? <==> e.kind == InDelete || e.kind == InMovedFrom
    ensures a.UploadAction? ==> a.path == e.path
    ensures a.RemoveAction? ==> a.path == e.path && a.isDir == e.dir
  {
    match e.kind
    case InCreate => if e.dir then UploadAction(e.path) else NoAction
    case InCloseWrite => if e.dir then NoAction else UploadAction(e.path)
    case InDelete => RemoveAction(e.path, e.dir)
    case InMovedFrom => RemoveAction(e.path, e.dir)
    case InMovedTo => UploadAction(e.path)
  }

  /** What carrying out an action does to the server, against the local tree `local`. */
  function ActionRun(s: Server, a: Action, local: LocalNode): Run {
    match a
    case NoAction => Run(s, [], Ok)
    case UploadAction(p) => Uploading.UploadPath(s, local, p)
    case RemoveAction(p, isDir) => Removal.RemoveRun(s, p, isDir)
  }

  /** How a wrapped handler ends. */
  datatype Handled =
    | Suppressed           // an ignore pattern matched; nothing was done
    | Completed            // the handler returned normally
    | Reported(error: Error)  // an `error_perm` was caught and printed
    | Raised(error: Error)    // any other error left the handler

  /** The `try`/`except ftplib.error_perm` of `event_handler`. */
  function Boundary(o: Outcome): (h: Handled)
    ensures h == Completed <==> o.Ok?
    ensures h.Reported? <==> o == Fail(ErrorPerm)
    ensures h.Raised? <==> o.Fail? && o.error != ErrorPerm
    ensures h.Reported? || h.Raised? ==> h.error == o.error
  {
    match o
    case Ok => Completed
    case Fail(err) => if err == ErrorPerm then Reported(err) else Raised(err)
  }

  /** Some pattern of the list matches the pathname. */
  predicate Ignored(patterns: seq<string>, pathname: string, matches: (string, string) -> bool) {
    exists i :: 0 <= i < |patterns| && matches(patterns[i], pathname)
  }

  /** A matcher that, like `re.match`, accepts every string for the empty pattern. */
  ghost predicate EmptyMatchesAll(matches: (string, string) -> bool) {
    forall s :: matches("", s)
  }

  /** `re.match` for a pattern without special characters: a prefix test. */
  function LiteralMatch(pattern: string, s: string): (b: bool)
    ensures b <==> |pattern| <= |s| && s[..|pattern|] == pattern
  {
    pattern <= s
  }

  lemma LiteralMatchesEmpty()
    ensures EmptyMatchesAll(LiteralMatch)
  {
    forall s ensures LiteralMatch("", s) {
      assert s[..0] == "";
    }
  }

  /** A longer list suppresses at least what a shorter one does. */
  lemma IgnoredGrows(patterns: seq<string>, more: seq<string>, pathname: string, matches: (string, string) -> bool)
    requires Ignored(patterns, pathname, matches)
    ensures Ignored(patterns + more, pathname, matches) && Ignored(more + patterns, pathname, matches)
  {
    var i :| 0 <= i < |patterns| && matches(patterns[i], pathname);
    assert (patterns + more)[i] == patterns[i];
    assert (more + patterns)[|more| + i] == patterns[i];
  }

  /** `str.split(',')`: the pieces between the commas, an empty one wherever two meet or at an end. */
  function Split(s: string): (r: seq<string>)
    ensures |r| > 0
    ensures forall i :: 0 <= i < |r| ==> ',' !in r[i]
    decreases |s|
  {
    var cut := Url.Cut(s, ',');
    match cut.1
    case None => [cut.0]
    case Some(rest) => [cut.0] + Split(rest)
  }

  /** `','.join(pieces)`. */
  function Join(pieces: seq<string>): string
    requires |pieces| > 0
  {
    if |pieces| == 1 then pieces[0] else pieces[0] + [','] + Join(pieces[1..])
  }

  /** Joining the pieces gives back the option text. */
  lemma {:induction false} JoinSplit(s: string)
    ensures Join(Split(s)) == s
    decreases |s|
  {
    var cut := Url.Cut(s, ',');
    if cut.1.Some? {
      JoinSplit(cut.1.value);
      assert Split(s)[1..] == Split(cut.1.value);
    }
  }

  /** Pieces without commas are split back apart. */
  lemma {:induction false} SplitJoin(pieces: seq<string>)
    requires |pieces| > 0 && forall i :: 0 <= i < |pieces| ==> ',' !in pieces[i]
    ensures Split(Join(pieces)) == pieces
  {
    if |pieces| == 1 {
      Url.CutNone(pieces[0], ',');
    } else {
      var rest := pieces[1..];
      assert forall i :: 0 <= i < |rest| ==> rest[i] == pieces[i + 1];
      SplitJoin(rest);
      var tail := Join(rest);
      assert Join(pieces) == pieces[0] + [','] + tail;
      Url.CutAt(pieces[0], ',', tail);
      assert Split(Join(pieces)) == [pieces[0]] + rest;
    }
  }

  /** Line 164 as written: `options.ignore.split(',')`. */
  function IgnoreList(option: string): (r: seq<string>)
    ensures |r| > 0 && Join(r) == option
  {
    JoinSplit(option);
    Split(option)
  }

  /** The default `--ignore ''` gives one empty pattern, and it suppresses every event. */
  lemma DefaultIgnoresEverything(pathname: string, matches: (string, string) -> bool)
    requires EmptyMatchesAll(matches)
    ensures IgnoreList("") == [""]
    ensures Ignored(IgnoreList(""), pathname, matches)
  {
    Url.CutNone("", ',');
    assert matches(IgnoreList("")[0], pathname);
  }

  /** The pieces that are not empty, in order. */
  function NonEmpty(pieces: seq<string>): (r: seq<string>)
    ensures forall i :: 0 <= i < |r| ==> r[i] != "" && r[i] in pieces
    ensures forall p :: p in pieces && p != "" ==> p in r
  {
    if pieces == [] then []
    else if pieces[0] == "" then NonEmpty(pieces[1..])
    else [pieces[0]] + NonEmpty(pieces[1..])
  }

  /** Line 164 as intended: the comma-separated patterns, empty pieces dropped. */
  function CorrectedIgnoreList(option: string): (r: seq<string>)
    ensures forall p :: p in r <==> p in Split(option) && p != ""
  {
    NonEmpty(Split(option))
  }

  /** With the default option nothing is ignored; every pattern actually written is kept. */
  lemma CorrectedDefaultIgnoresNothing(pathname: string, matches: (string, string) -> bool)
    ensures CorrectedIgnoreList("") == []
    ensures !Ignored(CorrectedIgnoreList(""), pathname, matches)
  {
    Url.CutNone("", ',');
    assert Split("") == [""];
  }

  /** A written pattern suppresses what it matches under the corrected list too. */
  lemma CorrectedKeepsPatterns(patterns: seq<string>, pathname: string, matches: (string, string) -> bool)
    requires forall i :: 0 <= i < |patterns| ==> patterns[i] != "" && ',' !in patterns[i]
    requires |patterns| > 0
    ensures Ignored(CorrectedIgnoreList(Join(patterns)), pathname, matches) <==> Ignored(patterns, pathname, matches)
  {
    SplitJoin(patterns);
    var r := CorrectedIgnoreList(Join(patterns));
    if Ignored(patterns, pathname, matches) {
      var i :| 0 <= i < |patterns| && matches(patterns[i], pathname);
      assert patterns[i] in r;
      var j :| 0 <= j < |r| && r[j] == patterns[i];
    }
    if Ignored(r, pathname, matches) {
      var j :| 0 <= j < |r| && matches(r[j], pathname);
      assert r[j] in patterns;
      var i :| 0 <= i < |patterns| && patterns[i] == r[j];
    }
  }

  /**
   * `Monitor`: the FTP session it opened, the endpoint the URL gave and the
   * ignore patterns. `matches` stands for `re.match`.
   */
  class Monitor {
    const url: string
    const endpoint: Url.Endpoint
    const ignore: seq<string>
    const matches: (string, string) -> bool
    const ftp: Session.FtpSession

    /**
     * Lines 18-31: the URL gets its trailing `/` and is parsed, and the
     * session starts on `remote`; `prompted` is the answer to the password
     * prompt. `__main__` never passes an empty URL.
     */
    constructor (url: string, prompted: string, remote: Server, ignore: seq<string>, matches: (string, string) -> bool)
      requires url != []
      ensures this.url == Url.NormalizeUrl(url).value
      ensures endpoint == Url.Configure(url, prompted).value
      ensures this.ignore == ignore && this.matches == matches
      ensures fresh(ftp) && ftp.State() == remote && ftp.log == []
    {
      this.url := Url.NormalizeUrl(url).value;
      endpoint := Url.Configure(url, prompted).value;
      this.ignore := ignore;
      this.matches := matches;
      ftp := new Session.FtpSession(remote);
    }

    /** The loop of `event_handler` over the ignore patterns. */
    method IsIgnored(pathname: string) returns (b: bool)
      ensures b <==> Ignored(ignore, pathname, matches)
    {
      var i := 0;
      while i < |ignore|
        invariant 0 <= i <= |ignore|
        invariant forall k :: 0 <= k < i ==> !matches(ignore[k], pathname)
      {
        if matches(ignore[i], pathname) {
          return true;
        }
        i := i + 1;
      }
      return false;
    }

    /** The body of the `process_IN_*` handler for the event's kind. */
    method Process(e: Event, local: LocalNode) returns (o: Outcome)
      modifies ftp
      ensures var r := ActionRun(old(ftp.State()), Dispatch(e), local);
        ftp.State() == r.server && ftp.log == old(ftp.log) + r.ops && o == r.outcome
    {
      match e.kind {
        case InCreate =>
          if !e.dir {
            return Ok;
          }
          o := ftp.UploadPath(local, e.path);
        case InCloseWrite =>
          if e.dir {
            return Ok;
          }
          o := ftp.UploadPath(local, e.path);
        case InDelete =>
          o := ftp.Remove(e.path, e.dir);
        case InMovedFrom =>
          o := ftp.Remove(e.path, e.dir);
        case InMovedTo =>
          o := ftp.UploadPath(local, e.path);
      }
    }

    /**
     * A handler wrapped by `event_handler`: an ignored event sends nothing;
     * otherwise the handler runs and only an `error_perm` is caught.
     */
    method Handle(e: Event, local: LocalNode) returns (h: Handled)
      modifies ftp
      ensures Ignored(ignore, e.pathname, matches) ==>
        h == Suppressed && ftp.State() == old(ftp.State()) && ftp.log == old(ftp.log)
      ensures !Ignored(ignore, e.pathname, matches) ==>
        var r := ActionRun(old(ftp.State()), Dispatch(e), local);
        ftp.State() == r.server && ftp.log == old(ftp.log) + r.ops && h == Boundary(r.outcome)
    {
      var skip := IsIgnored(e.pathname);
      if skip {
        return Suppressed;
      }
      var o := Process(e, local);
      h := Boundary(o);
    }
  }
}
