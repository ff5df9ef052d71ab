/**
 * The older revision of the archive walk
 * (ApacheMailingListDownloader.downloadAll): bounds default to the current
 * month and 2000-01, an inverted range is rejected before any work starts,
 * failures leave the counter alone, and the loop breaks once five
 * consecutive empty files were seen.
 */
module Downloader {
  import opened Wrappers
  import opened Periods
  import opened Naming
  import opened Outcomes
  import opened Sequences

  const MaxConsecutiveEmptyFiles: int := 5
  const DefaultEarliest: YearMonth := YearMonth(2000, 1)

  /** What is at the output path before the download. */
  datatype OutputDir = Missing | Directory | NotADirectory

  /** The exceptions that end a download as a whole. */
  datatype Error = OutputNotADirectory | InvalidRange | CreateDirectoriesFailed

  /** A failure adds nothing to the counter, an empty file adds one. */
  function Weight(o: Outcome): nat {
    if o.Failed? then 0 else 1
  }

  /**
   * The walk breaks right after `ps` when its last period gave an empty file
   * that was deleted and the counter had reached the threshold. (When the
   * deletion throws, the break test is skipped for that period.)
   */
  predicate BreaksAfter(a: Archive, start: int, ps: seq<YearMonth>) {
    && |ps| > 0
    && OutcomeAt(a, ps[|ps| - 1]) == Written(0, true)
    && TrailingRun(Weight, a, start, ps) >= MaxConsecutiveEmptyFiles
  }

  /** The background loop of downloadAll from `current` down to `end`, with the counter at `count`. */
  function DownloadLoop(a: Archive, end: YearMonth, current: YearMonth, count: int): (w: Walk)
    ensures |w.visited| <= Span(end, current)
    ensures w.visited == Range(end, current)[..|w.visited|]
    ensures w.produced == Productives(a, w.visited)
    decreases Span(end, current)
  {
    if !(IsAfter(current, end) || current == end) then Walk([], [], count)
    else
      RangeStep(end, current);
      ProductivesSingle(a, current);
      var previous := MinusOneMonth(current);
      match OutcomeAt(a, current)
      case Failed =>
        var rest := DownloadLoop(a, end, previous, count);
        RangePrefixStep(end, current, rest.visited);
        ProductivesCons(a, current, rest.visited);
        Walk([current] + rest.visited, rest.produced, rest.counter)
      case Written(size, deletable) =>
        if size == 0 then
          if deletable && count + 1 >= MaxConsecutiveEmptyFiles then Walk([current], [], count + 1)
          else
            var rest := DownloadLoop(a, end, previous, count + 1);
            RangePrefixStep(end, current, rest.visited);
            ProductivesCons(a, current, rest.visited);
            Walk([current] + rest.visited, rest.produced, rest.counter)
        else
          var rest := DownloadLoop(a, end, previous, 0);
          RangePrefixStep(end, current, rest.visited);
          ProductivesCons(a, current, rest.visited);
          Walk([current] + rest.visited, [current] + rest.produced, rest.counter)
  }

  /** One iteration that does not break: the counter moves by one step of the reference tally. */
  lemma DownloadLoopStep(a: Archive, end: YearMonth, current: YearMonth, count: int)
    requires !IsBefore(current, end)
    requires !BreaksAfter(a, count, [current])
    ensures var rest := DownloadLoop(a, end, MinusOneMonth(current), Tally(Weight, OutcomeAt(a, current), count));
            var w := DownloadLoop(a, end, current, count);
      && w.visited == [current] + rest.visited
      && w.counter == rest.counter
  {
    TrailingRunSingle(Weight, a, count, current);
    assert IsAfter(current, end) || current == end;
    var previous := MinusOneMonth(current);
    var w := DownloadLoop(a, end, current, count);
    match OutcomeAt(a, current)
    case Failed =>
      assert Tally(Weight, Failed, count) == count;
      var rest := DownloadLoop(a, end, previous, count);
      assert w == Walk([current] + rest.visited, rest.produced, rest.counter);
    case Written(size, deletable) =>
      if size == 0 {
        assert !(deletable && count + 1 >= MaxConsecutiveEmptyFiles);
        var rest := DownloadLoop(a, end, previous, count + 1);
        assert w == Walk([current] + rest.visited, rest.produced, rest.counter);
      } else {
        var rest := DownloadLoop(a, end, previous, 0);
        assert w == Walk([current] + rest.visited, [current] + rest.produced, rest.counter);
      }
  }

  /** Whether the walk breaks after a period is unchanged by folding the first period into the counter. */
  lemma BreaksAfterCons(a: Archive, count: int, p: YearMonth, ps: seq<YearMonth>)
    requires ps != []
    ensures BreaksAfter(a, count, [p] + ps) <==> BreaksAfter(a, Tally(Weight, OutcomeAt(a, p), count), ps)
  {
    TrailingRunCons(Weight, a, count, p, ps);
    assert ([p] + ps)[|ps|] == ps[|ps| - 1];
  }

  /** The iteration that breaks: the loop ends with this period. */
  lemma DownloadLoopBreak(a: Archive, end: YearMonth, current: YearMonth, count: int)
    requires !IsBefore(current, end)
    requires BreaksAfter(a, count, [current])
    ensures DownloadLoop(a, end, current, count) == Walk([current], [], count + 1)
  {
    TrailingRunSingle(Weight, a, count, current);
    assert IsAfter(current, end) || current == end;
  }

  /** The counter the loop ends with is the trailing run of empty files (failures skipped) of the periods it visited. */
  lemma {:induction false} DownloadLoopRun(a: Archive, end: YearMonth, current: YearMonth, count: int)
    ensures var w := DownloadLoop(a, end, current, count);
      w.counter == TrailingRun(Weight, a, count, w.visited)
    decreases Span(end, current)
  {
    if !IsBefore(current, end) {
      if BreaksAfter(a, count, [current]) {
        DownloadLoopBreak(a, end, current, count);
        TrailingRunSingle(Weight, a, count, current);
      } else {
        RangeStep(end, current);
        var next := Tally(Weight, OutcomeAt(a, current), count);
        var rest := DownloadLoop(a, end, MinusOneMonth(current), next);
        DownloadLoopStep(a, end, current, count);
        DownloadLoopRun(a, end, MinusOneMonth(current), next);
        TrailingRunCons(Weight, a, count, current, rest.visited);
      }
    }
  }

  /** The loop does not break after any period but its last one. */
  lemma {:induction false} DownloadLoopNoEarlyBreak(a: Archive, end: YearMonth, current: YearMonth, count: int)
    ensures var w := DownloadLoop(a, end, current, count);
      forall j :: 0 < j < |w.visited| ==> !BreaksAfter(a, count, w.visited[..j])
    decreases Span(end, current)
  {
    var w := DownloadLoop(a, end, current, count);
    if !IsBefore(current, end) {
      if BreaksAfter(a, count, [current]) {
        DownloadLoopBreak(a, end, current, count);
      } else {
        RangeStep(end, current);
        var next := Tally(Weight, OutcomeAt(a, current), count);
        var rest := DownloadLoop(a, end, MinusOneMonth(current), next);
        DownloadLoopStep(a, end, current, count);
        DownloadLoopNoEarlyBreak(a, end, MinusOneMonth(current), next);
        forall j | 0 < j < |w.visited|
          ensures !BreaksAfter(a, count, w.visited[..j])
        {
          if j > 1 {
            assert w.visited[..j] == [current] + rest.visited[..j - 1];
            BreaksAfterCons(a, count, current, rest.visited[..j - 1]);
          } else {
            assert w.visited[..j] == [current];
          }
        }
      }
    }
  }

  /** The loop ends after a period at which the break test holds, or at the end of the range. */
  lemma {:induction false} DownloadLoopEnds(a: Archive, end: YearMonth, current: YearMonth, count: int)
    ensures var w := DownloadLoop(a, end, current, count);
      |w.visited| == Span(end, current) || BreaksAfter(a, count, w.visited)
    decreases Span(end, current)
  {
    if !IsBefore(current, end) {
      if BreaksAfter(a, count, [current]) {
        DownloadLoopBreak(a, end, current, count);
      } else {
        RangeStep(end, current);
        var next := Tally(Weight, OutcomeAt(a, current), count);
        var rest := DownloadLoop(a, end, MinusOneMonth(current), next);
        DownloadLoopStep(a, end, current, count);
        DownloadLoopEnds(a, end, MinusOneMonth(current), next);
        if rest.visited != [] {
          BreaksAfterCons(a, count, current, rest.visited);
        }
      }
    }
  }

  /**
   * The counter of the loop is the trailing run of empty files (failures
   * skipped); the loop breaks after the first period at which the break
   * test holds, and otherwise covers the whole range.
   */
  lemma DownloadLoopCounter(a: Archive, end: YearMonth, current: YearMonth, count: int)
    ensures var w := DownloadLoop(a, end, current, count);
      && w.counter == TrailingRun(Weight, a, count, w.visited)
      && (forall j :: 0 < j < |w.visited| ==> !BreaksAfter(a, count, w.visited[..j]))
      && (|w.visited| == Span(end, current) || BreaksAfter(a, count, w.visited))
  {
    DownloadLoopRun(a, end, current, count);
    DownloadLoopNoEarlyBreak(a, end, current, count);
    DownloadLoopEnds(a, end, current, count);
  }

  /** The bounds after defaults, latest first: `untilDate` or the current month, `fromDate` or 2000-01. */
  function Bounds(fromDate: Option<YearMonth>, untilDate: Option<YearMonth>, now: YearMonth): (r: (YearMonth, YearMonth))
    ensures untilDate.None? ==> r.0 == now
    ensures untilDate.Some? ==> r.0 == untilDate.value
    ensures fromDate.None? ==> r.1 == YearMonth(2000, 1)
    ensures fromDate.Some? ==> r.1 == fromDate.value
  {
    (untilDate.GetOr(now), fromDate.GetOr(DefaultEarliest))
  }

  /** The walk of one downloadAll call. */
  function DownloadWalk(fromDate: Option<YearMonth>, untilDate: Option<YearMonth>, now: YearMonth, a: Archive): Walk {
    var (startPeriod, endPeriod) := Bounds(fromDate, untilDate, now);
    DownloadLoop(a, endPeriod, startPeriod, 0)
  }

  /**
   * downloadAll: rejects an output path that is not a directory first, then
   * an inverted range (earliest bound after the latest), before any work
   * starts; a failure to create the output directories fails the returned
   * future; otherwise it completes with the kept files.
   */
  function DownloadAll(a: Archive, outputDir: OutputDir, createsDirectories: bool,
                       fromDate: Option<YearMonth>, untilDate: Option<YearMonth>, now: YearMonth,
                       dir: Path, domain: string, listName: string): (r: Result<seq<Path>, Error>)
    ensures var latest := if untilDate.Some? then untilDate.value else now;
            var earliest := if fromDate.Some? then fromDate.value else YearMonth(2000, 1);
      && (outputDir == NotADirectory ==> r == Failure(OutputNotADirectory))
      && (outputDir != NotADirectory && Index(latest) < Index(earliest) ==> r == Failure(InvalidRange))
      && (r.Success? <==> outputDir != NotADirectory && Index(earliest) <= Index(latest) && createsDirectories)
  {
    if outputDir == NotADirectory then Failure(OutputNotADirectory)
    else
      var (startPeriod, endPeriod) := Bounds(fromDate, untilDate, now);
      if IsAfter(endPeriod, startPeriod) then Failure(InvalidRange)
      else if !createsDirectories then Failure(CreateDirectoriesFailed)
      else Success(FilePaths(dir, domain, listName, DownloadWalk(fromDate, untilDate, now, a).produced))
  }

  /**
   * The periods requested run from the latest bound down towards the
   * earliest, one month per step, never past it.
   */
  lemma DownloadVisitsDescending(a: Archive, fromDate: Option<YearMonth>, untilDate: Option<YearMonth>, now: YearMonth)
    ensures var (latest, earliest) := Bounds(fromDate, untilDate, now);
            var w := DownloadWalk(fromDate, untilDate, now, a);
      && w.visited == Range(earliest, latest)[..|w.visited|]
      && Descending(w.visited)
      && (forall i :: 0 <= i < |w.visited| - 1 ==> w.visited[i + 1] == MinusOneMonth(w.visited[i]))
      && (forall p :: p in w.visited ==> Within(p, earliest, latest))
  {
    var (latest, earliest) := Bounds(fromDate, untilDate, now);
    var w := DownloadWalk(fromDate, untilDate, now, a);
    RangeShape(earliest, latest);
    RangePrefix(earliest, latest, |w.visited|);
  }

  /**
   * Once the range is valid the latest bound (the current month by default)
   * is always requested first, and with no earliest bound nothing before
   * 2000-01 is requested.
   */
  lemma DownloadStartsAtLatest(a: Archive, fromDate: Option<YearMonth>, untilDate: Option<YearMonth>, now: YearMonth)
    ensures var (latest, earliest) := Bounds(fromDate, untilDate, now);
            var w := DownloadWalk(fromDate, untilDate, now, a);
      && (!IsAfter(earliest, latest) ==> 1 <= |w.visited| && w.visited[0] == latest)
      && (!IsAfter(earliest, latest) && untilDate.None? ==> w.visited[0] == now)
      && (fromDate.None? ==> forall p :: p in w.visited ==> !IsBefore(p, YearMonth(2000, 1)))
  {
    var (latest, earliest) := Bounds(fromDate, untilDate, now);
    var w := DownloadWalk(fromDate, untilDate, now, a);
    DownloadVisitsDescending(a, fromDate, untilDate, now);
    RangeShape(earliest, latest);
  }

  /**
   * The break rule against the reference counter: the walk goes on after
   * every period at which the break test fails, and ends after the first
   * period at which it holds, or when the range is exhausted.
   */
  lemma DownloadStopRule(a: Archive, fromDate: Option<YearMonth>, untilDate: Option<YearMonth>, now: YearMonth)
    ensures var (latest, earliest) := Bounds(fromDate, untilDate, now);
            var w := DownloadWalk(fromDate, untilDate, now, a);
            var r := Range(earliest, latest);
      && |w.visited| <= |r|
      && w.counter == TrailingRun(Weight, a, 0, w.visited)
      && (forall j :: 0 < j < |w.visited| ==> !BreaksAfter(a, 0, r[..j]))
      && (|w.visited| == |r| || BreaksAfter(a, 0, r[..|w.visited|]))
  {
    var (latest, earliest) := Bounds(fromDate, untilDate, now);
    var w := DownloadLoop(a, earliest, latest, 0);
    var r := Range(earliest, latest);
    DownloadLoopRun(a, earliest, latest, 0);
    DownloadLoopNoEarlyBreak(a, earliest, latest, 0);
    DownloadLoopEnds(a, earliest, latest, 0);
    NoBreakOnPrefix(a, r, w.visited);
  }

  /** What holds of the prefixes of the visited periods holds of the same prefixes of the range. */
  lemma NoBreakOnPrefix(a: Archive, r: seq<YearMonth>, v: seq<YearMonth>)
    requires |v| <= |r| && v == r[..|v|]
    requires forall j :: 0 < j < |v| ==> !BreaksAfter(a, 0, v[..j])
    ensures forall j :: 0 < j < |v| ==> !BreaksAfter(a, 0, r[..j])
  {
    PrefixesOfPrefix(r, v);
  }

  /**
   * A completed download returns the files of exactly the requested periods
   * whose request succeeded with a non-empty body, newest first, named after
   * their period, with no file twice.
   */
  lemma DownloadAllContents(a: Archive, outputDir: OutputDir, createsDirectories: bool,
                            fromDate: Option<YearMonth>, untilDate: Option<YearMonth>, now: YearMonth,
                            dir: Path, domain: string, listName: string)
    ensures var w := DownloadWalk(fromDate, untilDate, now, a);
            var r := DownloadAll(a, outputDir, createsDirectories, fromDate, untilDate, now, dir, domain, listName);
      r.Success? ==>
        && |r.value| == |w.produced|
        && (forall i :: 0 <= i < |r.value| ==> r.value[i] == FilePath(dir, domain, listName, w.produced[i]))
        && (forall p :: p in w.produced <==>
              p in w.visited && a.respond(p).Response? && a.respond(p).status < 400 && a.respond(p).bodySize > 0)
        && Descending(w.produced)
        && (forall i, j :: 0 <= i < j < |r.value| ==> r.value[i] != r.value[j])
  {
    var w := DownloadWalk(fromDate, untilDate, now, a);
    DownloadVisitsDescending(a, fromDate, untilDate, now);
    ProductivesDescending(a, w.visited);
    ProductivesMembers(a, w.visited);
    FilePathsDistinct(dir, domain, listName, w.produced);
  }

  /**
   * Failures never stop this revision: when every request fails, the whole
   * range is requested and no file is returned.
   */
  lemma DownloadAllFailing(a: Archive, outputDir: OutputDir, createsDirectories: bool,
                           fromDate: Option<YearMonth>, untilDate: Option<YearMonth>, now: YearMonth,
                           dir: Path, domain: string, listName: string)
    requires forall p :: OutcomeAt(a, p) == Failed
    ensures var (latest, earliest) := Bounds(fromDate, untilDate, now);
            var r := DownloadAll(a, outputDir, createsDirectories, fromDate, untilDate, now, dir, domain, listName);
      && DownloadWalk(fromDate, untilDate, now, a).visited == Range(earliest, latest)
      && (r.Success? ==> r.value == [])
  {
    var (latest, earliest) := Bounds(fromDate, untilDate, now);
    var w := DownloadWalk(fromDate, untilDate, now, a);
    var r := Range(earliest, latest);
    DownloadStopRule(a, fromDate, untilDate, now);
    assert !BreaksAfter(a, 0, r[..|w.visited|]);
    NoProductives(a, w.visited);
  }
}
