/**
 * `Monitor.remove` against a server whose NLST of a plain file answers with
 * the file itself, as many servers do. The model in `Removal` has NLST refuse
 * a non-directory, which is what bounds its recursion; here the recursion is
 * given a depth budget (`fuel`), and `None` means that the procedure had not
 * come to an end when the budget ran out.
 *
 * `skipSelf` switches between the code as written (`false`) and a corrected
 * loop that passes over a listed entry equal to the path being removed.
 */
module SelfListing {
  import opened Wrappers
  import opened Paths
  import opened Server
  import opened Removal

  /** NLST on a server that lists a file as itself. */
  function ListingOf(s: Server, p: Path): (r: Result<seq<Path>, Error>)
    ensures p in s.kinds && s.kinds[p].File? && Nlst(p) !in s.faults ==> r == Success([p])
    ensures !(p in s.kinds && s.kinds[p].File?) ==> r == NlstReply(s, p)
  {
    if p in s.kinds && s.kinds[p].File? && Nlst(p) !in s.faults then Success([p])
    else NlstReply(s, p)
  }

  /** `remove(p, is_dir)` with at most `fuel` nested attempts. */
  function RemoveFuel(s: Server, p: Path, isDir: bool, skipSelf: bool, fuel: nat): Option<Run>
    decreases fuel, 2
  {
    if fuel == 0 then None
    else if !isDir then
      var step := DeleteStep(s, p);
      Some(Run(step.0, [Delete(p)], step.1))
    else
      match ListingOf(s, p)
      case Failure(e) => Some(Run(s, [Nlst(p)], Fail(e)))
      case Success(listing) =>
        match LoopFuel(s, p, listing, skipSelf, fuel)
        case None => None
        case Some(c) =>
          if c.outcome.Fail? then Some(Run(c.server, [Nlst(p)] + c.ops, c.outcome))
          else
            var step := RmdStep(c.server, p);
            Some(Run(step.0, [Nlst(p)] + c.ops + [Rmd(p)], step.1))
  }

  /** The loop over the rest of the listing of `p`. */
  function LoopFuel(s: Server, p: Path, listing: seq<Path>, skipSelf: bool, fuel: nat): Option<Run>
    decreases fuel, 1, |listing|
  {
    if listing == [] then Some(Run(s, [], Ok))
    else
      var q := listing[0];
      if !Real(q) || (skipSelf && q == p) then LoopFuel(s, p, listing[1..], skipSelf, fuel)
      else
        match TryFuel(s, q, skipSelf, fuel)
        case None => None
        case Some(t) =>
          if t.outcome.Fail? then Some(t)
          else
            match LoopFuel(t.server, p, listing[1..], skipSelf, fuel)
            case None => None
            case Some(c) => Some(Run(c.server, t.ops + c.ops, c.outcome))
  }

  /** `try: remove(q, False) except: remove(q, True)`, one level deeper. */
  function TryFuel(s: Server, q: Path, skipSelf: bool, fuel: nat): Option<Run>
    decreases fuel, 0
  {
    if fuel == 0 then None
    else
      match RemoveFuel(s, q, false, skipSelf, fuel - 1)
      case None => None
      case Some(a) =>
        if a.outcome.Ok? then Some(a)
        else
          match RemoveFuel(a.server, q, true, skipSelf, fuel - 1)
          case None => None
          case Some(b) => Some(Run(b.server, a.ops + b.ops, b.outcome))
  }

  /**
   * As written: a listed file that the server refuses to delete is retried
   * as a directory, whose listing names the file again, and so on; no depth
   * budget is enough for the attempt to end.
   */
  lemma {:induction false} UndeletableFileLoops(s: Server, q: Path, fuel: nat)
    requires q in s.kinds && s.kinds[q].File? && Real(q)
    requires Delete(q) in s.faults && Nlst(q) !in s.faults
    ensures TryFuel(s, q, false, fuel) == None
    decreases fuel
  {
    if fuel > 1 {
      UndeletableFileLoops(s, q, fuel - 1);
      assert ListingOf(s, q) == Success([q]);
      assert LoopFuel(s, q, [q], false, fuel - 1) == None;
    }
  }

  /**
   * Corrected: the same attempt ends after DELE, NLST and RMD, with the
   * `error_perm` of the RMD of a file, which the handler boundary reports.
   */
  lemma UndeletableFileReported(s: Server, q: Path, fuel: nat)
    requires q in s.kinds && s.kinds[q].File? && Real(q)
    requires Delete(q) in s.faults && Nlst(q) !in s.faults && Rmd(q) !in s.faults
    requires fuel >= 2
    ensures TryFuel(s, q, true, fuel) == Some(Run(s, [Delete(q), Nlst(q), Rmd(q)], Fail(ErrorPerm)))
  {
    assert ListingOf(s, q) == Success([q]);
    assert [q][1..] == [];
    assert LoopFuel(s, q, [q], true, fuel - 1) == Some(Run(s, [], Ok));
    assert RmdStep(s, q) == (s, Fail(ErrorPerm));
    assert [Nlst(q)] + [] + [Rmd(q)] == [Nlst(q), Rmd(q)];
    assert RemoveFuel(s, q, true, true, fuel - 1) == Some(Run(s, [Nlst(q), Rmd(q)], Fail(ErrorPerm)));
    assert RemoveFuel(s, q, false, true, fuel - 1) == Some(Run(s, [Delete(q)], Fail(s.faults[Delete(q)])));
    assert [Delete(q)] + [Nlst(q), Rmd(q)] == [Delete(q), Nlst(q), Rmd(q)];
  }

  /** In the main model, where NLST refuses a file, the same attempt ends at once with the `error_perm` of the NLST. */
  lemma RefusedListingEnds(s: Server, q: Path)
    requires q in s.kinds && s.kinds[q].File? && Real(q)
    requires Delete(q) in s.faults && Nlst(q) !in s.faults
    ensures TryRemove(s, q) == Run(s, [Delete(q), Nlst(q)], Fail(ErrorPerm))
  {
    assert [Delete(q)] + [Nlst(q)] == [Delete(q), Nlst(q)];
  }
}
