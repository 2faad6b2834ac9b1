/**
 * The FTP server as seen through `ftplib`: a map from remote paths (relative
 * to the directory the session changed into) to what they hold, and the five
 * commands the mirror issues. Every command either succeeds or raises one of
 * ftplib's errors.
 *
 * The server is deterministic apart from `faults`: a request listed there
 * fails with the given error whatever the state (a busy server answering
 * 4xx, a dropped connection, a 550 for a reason of its own). Every other
 * failure is the 550 reply (`ftplib.error_perm`) a server gives for a
 * missing path, a path of the wrong kind or a non-empty directory.
 */
module Server {
  import opened Wrappers
  import opened Paths

  datatype Kind = File(size: nat) | Dir

  /**
   * ErrorPerm is `ftplib.error_perm` (5xx replies), ErrorTemp is
   * `ftplib.error_temp` (4xx), ErrorConnection stands for the socket and
   * protocol errors, LocalIO for the OSError of reading a local file.
   */
  datatype Error = ErrorPerm | ErrorTemp | ErrorConnection | LocalIO

  /** The commands the mirror sends: NLST, DELE, RMD, MKD and STOR. */
  datatype Request =
    | Nlst(path: Path)
    | Delete(path: Path)
    | Rmd(path: Path)
    | Mkd(path: Path)
    | Stor(path: Path, size: nat)

  datatype Outcome = Ok | Fail(error: Error)

  /**
   * `order` is the order in which the server lists entries (the order they
   * were created in); `listsDots` says whether NLST also returns `.` and `..`.
   */
  datatype Server = Server(
    kinds: map<Path, Kind>,
    order: seq<Path>,
    faults: map<Request, Error>,
    listsDots: bool)

  /** What a recursive procedure did: the new server state, the commands it sent, how it ended. */
  datatype Run = Run(server: Server, ops: seq<Request>, outcome: Outcome)

  lemma LogRegroup(a: seq<Request>, b: seq<Request>, c: seq<Request>)
    ensures a + b + c == a + (b + c)
  {
  }

  /** `p` is a directory; the empty path is the session's working directory. */
  predicate IsDir(s: Server, p: Path) {
    p == [] || (p in s.kinds && s.kinds[p] == Dir)
  }

  predicate HasChild(s: Server, p: Path) {
    exists q :: q in s.kinds && IsChildOf(q, p)
  }

  /** The entries `.` and `..` that some servers include in a listing. */
  predicate IsDot(n: Name) {
    n == "." || n == ".."
  }

  predicate Distinct(order: seq<Path>) {
    forall i, j :: 0 <= i < j < |order| ==> order[i] != order[j]
  }

  /**
   * A server state is a tree: every entry sits in a directory, and the
   * listing order holds every entry once.
   */
  ghost predicate Valid(s: Server) {
    && [] !in s.kinds
    && (forall q, k :: q in s.kinds && 0 < k < |q| ==> q[..k] in s.kinds && s.kinds[q[..k]] == Dir)
    && (forall q :: q in s.kinds ==> q in s.order)
    && Distinct(s.order)
  }

  function AddToOrder(order: seq<Path>, p: Path): (r: seq<Path>)
    ensures Distinct(order) ==> Distinct(r)
    ensures forall q :: q in r <==> q in order || q == p
  {
    if p in order then order else order + [p]
  }

  /** Taking out an entry with no children keeps the tree a tree. */
  lemma RemoveLeafKeepsValid(s: Server, p: Path)
    requires Valid(s) && p in s.kinds && !HasChild(s, p)
    ensures Valid(s.(kinds := s.kinds - {p}))
  {
    forall q, k | q in s.kinds && 0 < k < |q| ensures q[..k] != p {
      var c := q[..k + 1];
      if k + 1 == |q| { assert c == q; }
      assert c in s.kinds && |c| == k + 1 && c[..k] == q[..k];
      assert !IsChildOf(c, p);
    }
  }

  /** A file has no children in a valid tree. */
  lemma FileHasNoChild(s: Server, p: Path)
    requires Valid(s) && p in s.kinds && s.kinds[p].File?
    ensures !HasChild(s, p)
  {
  }

  /** DELE: removes a file. */
  function DeleteStep(s: Server, p: Path): (r: (Server, Outcome))
    ensures r.1.Ok? <==> Delete(p) !in s.faults && p in s.kinds && s.kinds[p].File?
    ensures r.0 == if r.1.Ok? then s.(kinds := s.kinds - {p}) else s
  {
    if Delete(p) in s.faults then (s, Fail(s.faults[Delete(p)]))
    else if p in s.kinds && s.kinds[p].File? then
      (s.(kinds := s.kinds - {p}), Ok)
    else (s, Fail(ErrorPerm))
  }

  /** RMD: removes an empty directory. */
  function RmdStep(s: Server, p: Path): (r: (Server, Outcome))
    ensures r.1.Ok? <==> Rmd(p) !in s.faults && p in s.kinds && s.kinds[p] == Dir && !HasChild(s, p)
    ensures r.0 == if r.1.Ok? then s.(kinds := s.kinds - {p}) else s
  {
    if Rmd(p) in s.faults then (s, Fail(s.faults[Rmd(p)]))
    else if p in s.kinds && s.kinds[p] == Dir && !HasChild(s, p) then
      (s.(kinds := s.kinds - {p}), Ok)
    else (s, Fail(ErrorPerm))
  }

  lemma DeleteKeepsValid(s: Server, p: Path)
    requires Valid(s)
    ensures Valid(DeleteStep(s, p).0)
  {
    if DeleteStep(s, p).1.Ok? {
      FileHasNoChild(s, p);
      RemoveLeafKeepsValid(s, p);
    }
  }

  lemma RmdKeepsValid(s: Server, p: Path)
    requires Valid(s)
    ensures Valid(RmdStep(s, p).0)
  {
    if RmdStep(s, p).1.Ok? {
      RemoveLeafKeepsValid(s, p);
    }
  }

  /** MKD: creates a directory inside an existing one; an existing path is refused. */
  function MkdStep(s: Server, p: Path): (r: (Server, Outcome))
    ensures r.1.Ok? <==> Mkd(p) !in s.faults && |p| > 0 && p !in s.kinds && IsDir(s, Parent(p))
    ensures r.0 == if r.1.Ok? then s.(kinds := s.kinds[p := Dir], order := AddToOrder(s.order, p)) else s
  {
    if Mkd(p) in s.faults then (s, Fail(s.faults[Mkd(p)]))
    else if |p| > 0 && p !in s.kinds && IsDir(s, Parent(p)) then
      (s.(kinds := s.kinds[p := Dir], order := AddToOrder(s.order, p)), Ok)
    else (s, Fail(ErrorPerm))
  }

  /** STOR: creates or overwrites a file inside an existing directory. */
  function StorStep(s: Server, p: Path, size: nat): (r: (Server, Outcome))
    ensures r.1.Ok? <==>
      Stor(p, size) !in s.faults && |p| > 0 && IsDir(s, Parent(p)) && !(p in s.kinds && s.kinds[p] == Dir)
    ensures r.0 == if r.1.Ok? then s.(kinds := s.kinds[p := File(size)], order := AddToOrder(s.order, p)) else s
  {
    if Stor(p, size) in s.faults then (s, Fail(s.faults[Stor(p, size)]))
    else if |p| > 0 && IsDir(s, Parent(p)) && !(p in s.kinds && s.kinds[p] == Dir) then
      (s.(kinds := s.kinds[p := File(size)], order := AddToOrder(s.order, p)), Ok)
    else (s, Fail(ErrorPerm))
  }

  /** Adding an entry inside an existing directory keeps the tree a tree. */
  lemma AddKeepsValid(s: Server, p: Path, kind: Kind)
    requires Valid(s) && |p| > 0 && IsDir(s, Parent(p)) && !(p in s.kinds && s.kinds[p] == Dir)
    ensures Valid(s.(kinds := s.kinds[p := kind], order := AddToOrder(s.order, p)))
  {
    var t := s.(kinds := s.kinds[p := kind], order := AddToOrder(s.order, p));
    forall q, k | q in t.kinds && 0 < k < |q| ensures q[..k] in t.kinds && t.kinds[q[..k]] == Dir {
      if q == p {
        if k < |p| - 1 {
          assert Parent(p)[..k] == q[..k];
        } else {
          assert q[..k] == Parent(p);
        }
      } else {
        assert q in s.kinds;
        if q[..k] == p {
          assert q[..k] in s.kinds && s.kinds[q[..k]] == Dir;
        }
      }
    }
  }

  lemma MkdKeepsValid(s: Server, p: Path)
    requires Valid(s)
    ensures Valid(MkdStep(s, p).0)
  {
    if MkdStep(s, p).1.Ok? {
      AddKeepsValid(s, p, Dir);
    }
  }

  lemma StorKeepsValid(s: Server, p: Path, size: nat)
    requires Valid(s)
    ensures Valid(StorStep(s, p, size).0)
  {
    if StorStep(s, p, size).1.Ok? {
      AddKeepsValid(s, p, File(size));
    }
  }

  /** The entries of `order` that are children of `p` and still exist, in order. */
  function ChildrenInOrder(s: Server, p: Path, order: seq<Path>): (r: seq<Path>)
    ensures forall i :: 0 <= i < |r| ==> IsChildOf(r[i], p) && r[i] in s.kinds && r[i] in order
    ensures forall q :: q in order && q in s.kinds && IsChildOf(q, p) ==> q in r
    ensures Distinct(order) ==> Distinct(r)
  {
    if order == [] then []
    else
      var rest := ChildrenInOrder(s, p, order[1..]);
      if order[0] in s.kinds && IsChildOf(order[0], p) then [order[0]] + rest else rest
  }

  /**
   * NLST: the full paths of the entries of a directory, `.` and `..` first
   * when the server lists them. Listing a non-directory is refused.
   */
  function NlstReply(s: Server, p: Path): (r: Result<seq<Path>, Error>)
    ensures r.Success? <==> Nlst(p) !in s.faults && IsDir(s, p)
    ensures r.Success? ==> forall i :: 0 <= i < |r.value| ==> IsChildOf(r.value[i], p)
    ensures r.Success? ==> forall i :: 0 <= i < |r.value| && |r.value[i]| > 0 && !IsDot(Last(r.value[i])) ==> r.value[i] in s.kinds
  {
    if Nlst(p) in s.faults then Failure(s.faults[Nlst(p)])
    else if IsDir(s, p) then
      Success((if s.listsDots then [p + ["."], p + [".."]] else []) + ChildrenInOrder(s, p, s.order))
    else Failure(ErrorPerm)
  }

  /** In a valid tree a listing names every child of the directory. */
  lemma NlstListsEveryChild(s: Server, p: Path)
    requires Valid(s) && NlstReply(s, p).Success?
    ensures forall q :: q in s.kinds && IsChildOf(q, p) ==> q in NlstReply(s, p).value
  {
    var children := ChildrenInOrder(s, p, s.order);
    assert forall q :: q in children ==> q in NlstReply(s, p).value;
  }

  /** A listing names each entry other than `.` and `..` once. */
  lemma NlstNamesOnce(s: Server, p: Path)
    requires Distinct(s.order) && NlstReply(s, p).Success?
    ensures var names := NlstReply(s, p).value;
      forall i, j :: 0 <= i < j < |names| && |names[i]| > 0 && !IsDot(Last(names[i])) ==> names[i] != names[j]
  {
    var dots: seq<Path> := if s.listsDots then [p + ["."], p + [".."]] else [];
    assert forall i :: 0 <= i < |dots| ==> |dots[i]| > 0 && IsDot(Last(dots[i]));
    OnceAfterDots(dots, ChildrenInOrder(s, p, s.order));
  }

  /** Behind entries that are all dots, distinct entries stay distinct. */
  lemma OnceAfterDots(dots: seq<Path>, children: seq<Path>)
    requires forall i :: 0 <= i < |dots| ==> |dots[i]| > 0 && IsDot(Last(dots[i]))
    requires Distinct(children)
    ensures var names := dots + children;
      forall i, j :: 0 <= i < j < |names| && |names[i]| > 0 && !IsDot(Last(names[i])) ==> names[i] != names[j]
  {
    var names := dots + children;
    forall i, j | 0 <= i < j < |names| && |names[i]| > 0 && !IsDot(Last(names[i])) ensures names[i] != names[j] {
      assert i >= |dots|;
      assert names[i] == children[i - |dots|] && names[j] == children[j - |dots|];
    }
  }
}
