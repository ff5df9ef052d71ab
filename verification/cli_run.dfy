/**
 * The oldest revision of the archive walk (ApacheEmailDownloader.run, the
 * command itself): the same loop as downloadAll, but it only counts the
 * files it keeps, and its options are named the other way round: `--from`
 * is the latest period (default: the current month) and `--until` the
 * earliest (default: 2000-01).
 */
module CommandRun {
  import opened Wrappers
  import opened Periods
  import opened Outcomes
  import Downloader
  import Naming

  /** Periods requested, files kept so far, and the consecutive-empty counter at the end. */
  datatype Progress = Progress(visited: seq<YearMonth>, fileCount: nat, counter: int)

  /** The loop of run from `current` down to `end`, having kept `fileCount` files, counter at `count`. */
  function RunLoop(a: Archive, end: YearMonth, current: YearMonth, fileCount: nat, count: int): (r: Progress)
    ensures |r.visited| <= Span(end, current)
    ensures fileCount <= r.fileCount <= fileCount + |r.visited|
    decreases Span(end, current)
  {
    if !(IsAfter(current, end) || current == end) then Progress([], fileCount, count)
    else
      RangeStep(end, current);
      var previous := MinusOneMonth(current);
      match OutcomeAt(a, current)
      case Failed =>
        var rest := RunLoop(a, end, previous, fileCount, count);
        Progress([current] + rest.visited, rest.fileCount, rest.counter)
      case Written(size, deletable) =>
        if size == 0 then
          if deletable && count + 1 >= Downloader.MaxConsecutiveEmptyFiles then Progress([current], fileCount, count + 1)
          else
            var rest := RunLoop(a, end, previous, fileCount, count + 1);
            Progress([current] + rest.visited, rest.fileCount, rest.counter)
        else
          var rest := RunLoop(a, end, previous, fileCount + 1, 0);
          Progress([current] + rest.visited, rest.fileCount, rest.counter)
  }

  /**
   * The two older loops walk alike: run requests the same periods as
   * downloadAll and ends with the same counter, and the number of files it
   * counts is the number downloadAll keeps.
   */
  lemma {:induction false} RunLoopMatchesDownloadLoop(a: Archive, end: YearMonth, current: YearMonth, fileCount: nat, count: int)
    ensures var p := RunLoop(a, end, current, fileCount, count);
            var w := Downloader.DownloadLoop(a, end, current, count);
      && p.visited == w.visited
      && p.fileCount == fileCount + |w.produced|
      && p.counter == w.counter
    decreases Span(end, current)
  {
    if IsAfter(current, end) || current == end {
      RangeStep(end, current);
      var previous := MinusOneMonth(current);
      match OutcomeAt(a, current)
      case Failed =>
        RunLoopMatchesDownloadLoop(a, end, previous, fileCount, count);
      case Written(size, deletable) =>
        if size == 0 {
          if !(deletable && count + 1 >= Downloader.MaxConsecutiveEmptyFiles) {
            RunLoopMatchesDownloadLoop(a, end, previous, fileCount, count + 1);
          }
        } else {
          RunLoopMatchesDownloadLoop(a, end, previous, fileCount + 1, 0);
        }
    }
  }

  /** The bounds after defaults, latest first: `--from` or the current month, `--until` or 2000-01. */
  function Bounds(fromDate: Option<YearMonth>, untilDate: Option<YearMonth>, now: YearMonth): (r: (YearMonth, YearMonth))
    ensures r == Downloader.Bounds(untilDate, fromDate, now)
  {
    (fromDate.GetOr(now), untilDate.GetOr(Downloader.DefaultEarliest))
  }

  /**
   * run: the same up-front checks as downloadAll, then the loop; the result
   * is the number of files reported at the end. A failure to create the
   * output directories is caught and logged by run rather than thrown; it
   * is reported here as that error.
   */
  function Run(a: Archive, outputDir: Downloader.OutputDir, createsDirectories: bool,
               fromDate: Option<YearMonth>, untilDate: Option<YearMonth>, now: YearMonth): (r: Result<nat, Downloader.Error>)
    ensures var latest := if fromDate.Some? then fromDate.value else now;
            var earliest := if untilDate.Some? then untilDate.value else YearMonth(2000, 1);
      && (outputDir == Downloader.NotADirectory ==> r == Failure(Downloader.OutputNotADirectory))
      && (outputDir != Downloader.NotADirectory && Index(latest) < Index(earliest) ==> r == Failure(Downloader.InvalidRange))
      && (r.Success? <==> outputDir != Downloader.NotADirectory && Index(earliest) <= Index(latest) && createsDirectories)
      && (r.Success? ==> r.value <= Span(earliest, latest))
  {
    if outputDir == Downloader.NotADirectory then Failure(Downloader.OutputNotADirectory)
    else
      var (currentPeriod, endPeriod) := Bounds(fromDate, untilDate, now);
      if IsAfter(endPeriod, currentPeriod) then Failure(Downloader.InvalidRange)
      else if !createsDirectories then Failure(Downloader.CreateDirectoriesFailed)
      else Success(RunLoop(a, endPeriod, currentPeriod, 0, 0).fileCount)
  }

  /**
   * run with `--from X --until Y` behaves as downloadAll with `until = X`
   * and `from = Y`: the same errors, and a file count equal to the number of
   * files downloadAll returns, which is the number of requested periods
   * whose request succeeded with a non-empty body.
   */
  lemma RunIsSwappedDownloadAll(a: Archive, outputDir: Downloader.OutputDir, createsDirectories: bool,
                                fromDate: Option<YearMonth>, untilDate: Option<YearMonth>, now: YearMonth,
                                dir: Naming.Path, domain: string, listName: string)
    ensures var r := Run(a, outputDir, createsDirectories, fromDate, untilDate, now);
            var d := Downloader.DownloadAll(a, outputDir, createsDirectories, untilDate, fromDate, now, dir, domain, listName);
            var w := Downloader.DownloadWalk(untilDate, fromDate, now, a);
      && r.Failure? == d.Failure?
      && (r.Failure? ==> r.error == d.error)
      && (r.Success? ==> r.value == |d.value| == |Productives(a, w.visited)|)
  {
    var (latest, earliest) := Bounds(fromDate, untilDate, now);
    RunLoopMatchesDownloadLoop(a, earliest, latest, 0, 0);
  }
}
