/**
 * What one period's download yields, as the walks see it, and the two
 * reference notions every walk is measured against: the productive periods
 * among those visited, and the weight of the unproductive run at the end of
 * the visited periods (what the consecutive-empty counter is meant to hold).
 */
module Outcomes {
  import opened Periods

  /**
   * The HTTP exchange for one period: a status code and the number of bytes
   * written to the target file, or an I/O failure (no connection, timeout,
   * interruption, unreadable file size).
   */
  datatype Response = Response(status: int, bodySize: nat) | IoError

  /**
   * The remote archive and local file system as an oracle: the response for
   * each period, and whether deleting that period's file would succeed.
   */
  datatype Archive = Archive(respond: YearMonth -> Response, deletable: YearMonth -> bool)

  /** The result of fetching one period: an exception, or a file of some size on disk. */
  datatype Outcome = Failed | Written(size: nat, deletable: bool)

  /** What a walk did: the periods requested, the periods whose file was kept, and the counter at the end. */
  datatype Walk = Walk(visited: seq<YearMonth>, produced: seq<YearMonth>, counter: int)

  /** A file that is kept: written and not smaller than one byte. */
  predicate Productive(o: Outcome) {
    o.Written? && !(o.size < 1)
  }

  /** The fetch status rule: an I/O failure or a status of 400 or more is thrown as an exception. */
  function Fetch(r: Response, deletable: bool): (o: Outcome)
    ensures o.Failed? <==> r.IoError? || 400 <= r.status
    ensures Productive(o) <==> r.Response? && r.status < 400 && 0 < r.bodySize
    ensures o.Written? ==> o.size == r.bodySize && o.deletable == deletable
  {
    match r
    case IoError => Failed
    case Response(status, bodySize) => if status >= 400 then Failed else Written(bodySize, deletable)
  }

  function OutcomeAt(a: Archive, p: YearMonth): Outcome {
    Fetch(a.respond(p), a.deletable(p))
  }

  /** The productive periods of `ps`, in their order. */
  function Productives(a: Archive, ps: seq<YearMonth>): (r: seq<YearMonth>)
    ensures |r| <= |ps|
  {
    if ps == [] then []
    else (if Productive(OutcomeAt(a, ps[0])) then [ps[0]] else []) + Productives(a, ps[1..])
  }

  lemma ProductivesSingle(a: Archive, p: YearMonth)
    ensures Productives(a, [p]) == if Productive(OutcomeAt(a, p)) then [p] else []
  {
    assert [p][1..] == [];
  }

  /** The first period is kept ahead of what the rest keeps exactly when it is productive. */
  lemma ProductivesCons(a: Archive, p: YearMonth, ps: seq<YearMonth>)
    ensures Productives(a, [p] + ps) == (if Productive(OutcomeAt(a, p)) then [p] else []) + Productives(a, ps)
  {
    assert ([p] + ps)[1..] == ps;
  }

  /** A period is kept exactly when it was visited and is productive. */
  lemma {:induction false} ProductivesMembers(a: Archive, ps: seq<YearMonth>)
    ensures forall p :: p in Productives(a, ps) <==> p in ps && Productive(OutcomeAt(a, p))
    decreases |ps|
  {
    if ps != [] {
      ProductivesMembers(a, ps[1..]);
      assert forall p :: p in ps <==> p == ps[0] || p in ps[1..];
    }
  }

  /** With no productive period visited, nothing is kept. */
  lemma {:induction false} NoProductives(a: Archive, ps: seq<YearMonth>)
    requires forall p :: p in ps ==> !Productive(OutcomeAt(a, p))
    ensures Productives(a, ps) == []
    decreases |ps|
  {
    if ps != [] {
      NoProductives(a, ps[1..]);
    }
  }

  lemma {:induction false} ProductivesAppend(a: Archive, ps: seq<YearMonth>, qs: seq<YearMonth>)
    ensures Productives(a, ps + qs) == Productives(a, ps) + Productives(a, qs)
    decreases |ps|
  {
    if ps != [] {
      assert (ps + qs)[0] == ps[0];
      assert (ps + qs)[1..] == ps[1..] + qs;
      ProductivesAppend(a, ps[1..], qs);
    } else {
      assert ps + qs == qs;
    }
  }

  /** Keeping only the productive periods keeps a descending order. */
  lemma {:induction false} ProductivesDescending(a: Archive, ps: seq<YearMonth>)
    requires Descending(ps)
    ensures Descending(Productives(a, ps))
    decreases |ps|
  {
    if ps != [] {
      var rest := Productives(a, ps[1..]);
      ProductivesDescending(a, ps[1..]);
      ProductivesMembers(a, ps[1..]);
      forall q | q in rest
        ensures IsAfter(ps[0], q)
      {
        var k :| 0 <= k < |ps[1..]| && ps[1..][k] == q;
        assert ps[k + 1] == q;
      }
    }
  }

  /**
   * The counter after the periods `ps`, counted backwards from the end:
   * zero if the last period was productive, otherwise the weight of the last
   * outcome on top of the count before it; `start` if nothing was visited.
   */
  function TrailingRun(weight: Outcome -> nat, a: Archive, start: int, ps: seq<YearMonth>): (r: int)
    ensures start >= 0 ==> r >= 0
    decreases |ps|
  {
    if ps == [] then start
    else
      var o := OutcomeAt(a, ps[|ps| - 1]);
      if Productive(o) then 0 else TrailingRun(weight, a, start, ps[..|ps| - 1]) + weight(o)
  }

  /** One forward step of the counter: reset on a productive outcome, otherwise add the weight. */
  function Tally(weight: Outcome -> nat, o: Outcome, count: int): int {
    if Productive(o) then 0 else count + weight(o)
  }

  /** Counting forwards one period at a time agrees with counting backwards from the end. */
  lemma {:induction false} TrailingRunCons(weight: Outcome -> nat, a: Archive, start: int, p: YearMonth, ps: seq<YearMonth>)
    ensures TrailingRun(weight, a, start, [p] + ps)
         == TrailingRun(weight, a, Tally(weight, OutcomeAt(a, p), start), ps)
    decreases |ps|
  {
    if ps != [] {
      assert ([p] + ps)[..|ps|] == [p] + ps[..|ps| - 1];
      TrailingRunCons(weight, a, start, p, ps[..|ps| - 1]);
    }
  }

  lemma TrailingRunSingle(weight: Outcome -> nat, a: Archive, start: int, p: YearMonth)
    ensures TrailingRun(weight, a, start, [p]) == Tally(weight, OutcomeAt(a, p), start)
  {
    assert [p][..0] == [];
  }

  /** Extending the visited periods by one applies one forward step. */
  lemma TrailingRunSnoc(weight: Outcome -> nat, a: Archive, start: int, ps: seq<YearMonth>, p: YearMonth)
    ensures TrailingRun(weight, a, start, ps + [p])
         == Tally(weight, OutcomeAt(a, p), TrailingRun(weight, a, start, ps))
  {
    assert (ps + [p])[..|ps|] == ps;
  }
}
