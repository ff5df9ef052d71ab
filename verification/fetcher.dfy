/**
 * The newest revision of the archive walk (ApacheMailingListFetcher.fetchAll
 * in package nl.andrewl.emaildownloader): from the latest period back to the
 * earliest, one request per month, stopping early once the consecutive
 * unproductive counter reaches the threshold. Failures count as unproductive,
 * and an inverted range simply yields nothing.
 */
module Fetcher {
  import opened Periods
  import opened Naming
  import opened Outcomes
  import opened Wrappers
  import opened RateGate
  import opened Sequences

  const ApiUrl: string := "https://lists.apache.org/api/mbox.lua"
  const MaxConsecutiveEmptyFiles: int := 10
  const RequestInterval: int := 1000

  /** The fetcher's settings: early-stop threshold, pacing interval in milliseconds, API address. */
  datatype Config = Config(maxConsecutiveEmptyFiles: int, requestInterval: int, apiUrl: string)

  const Defaults: Config := Config(MaxConsecutiveEmptyFiles, RequestInterval, ApiUrl)

  /**
   * How much an unproductive period adds to the counter. An empty file whose
   * deletion throws adds two: one in the empty branch, one more in the
   * handler that catches the deletion's exception.
   */
  function Weight(o: Outcome): nat {
    match o
    case Failed => 1
    case Written(_, deletable) => if deletable then 1 else 2
  }

  /** The fetchAll loop from `current` on, with the counter at `count`. */
  function FetchLoop(a: Archive, threshold: int, first: YearMonth, current: YearMonth, count: int): (w: Walk)
    ensures |w.visited| <= Span(first, current)
    ensures w.visited == Range(first, current)[..|w.visited|]
    ensures w.produced == Productives(a, w.visited)
    decreases Span(first, current)
  {
    if IsBefore(current, first) || !(count < threshold) then Walk([], [], count)
    else
      var o := OutcomeAt(a, current);
      var next := match o
        case Failed => count + 1
        case Written(size, deletable) =>
          if size < 1 then (if deletable then count + 1 else count + 2) else 0;
      var rest := FetchLoop(a, threshold, first, MinusOneMonth(current), next);
      RangePrefixStep(first, current, rest.visited);
      ProductivesCons(a, current, rest.visited);
      Walk([current] + rest.visited, (if Productive(o) then [current] else []) + rest.produced, rest.counter)
  }

  /** One iteration: the counter moves by one forward step of the reference tally. */
  lemma FetchLoopStep(a: Archive, threshold: int, first: YearMonth, current: YearMonth, count: int)
    requires !IsBefore(current, first) && count < threshold
    ensures var rest := FetchLoop(a, threshold, first, MinusOneMonth(current), Tally(Weight, OutcomeAt(a, current), count));
            var w := FetchLoop(a, threshold, first, current, count);
      && w.visited == [current] + rest.visited
      && w.produced == Productives(a, [current]) + rest.produced
      && w.counter == rest.counter
  {
    ProductivesSingle(a, current);
  }

  /** The counter the loop ends with is the trailing unproductive run of the periods it visited. */
  lemma {:induction false} FetchLoopRun(a: Archive, threshold: int, first: YearMonth, current: YearMonth, count: int)
    ensures var w := FetchLoop(a, threshold, first, current, count);
      w.counter == TrailingRun(Weight, a, count, w.visited)
    decreases Span(first, current)
  {
    if !IsBefore(current, first) && count < threshold {
      var next := Tally(Weight, OutcomeAt(a, current), count);
      var rest := FetchLoop(a, threshold, first, MinusOneMonth(current), next);
      FetchLoopStep(a, threshold, first, current, count);
      RangeStep(first, current);
      FetchLoopRun(a, threshold, first, MinusOneMonth(current), next);
      TrailingRunCons(Weight, a, count, current, rest.visited);
    }
  }

  /** Before each visited period the running counter was still below the threshold. */
  lemma {:induction false} FetchLoopBelow(a: Archive, threshold: int, first: YearMonth, current: YearMonth, count: int)
    ensures var w := FetchLoop(a, threshold, first, current, count);
      forall j :: 0 <= j < |w.visited| ==> TrailingRun(Weight, a, count, w.visited[..j]) < threshold
    decreases Span(first, current)
  {
    var w := FetchLoop(a, threshold, first, current, count);
    if !IsBefore(current, first) && count < threshold {
      var next := Tally(Weight, OutcomeAt(a, current), count);
      var rest := FetchLoop(a, threshold, first, MinusOneMonth(current), next);
      FetchLoopStep(a, threshold, first, current, count);
      RangeStep(first, current);
      FetchLoopBelow(a, threshold, first, MinusOneMonth(current), next);
      forall j | 0 <= j < |w.visited|
        ensures TrailingRun(Weight, a, count, w.visited[..j]) < threshold
      {
        if j > 0 {
          assert w.visited[..j] == [current] + rest.visited[..j - 1];
          TrailingRunCons(Weight, a, count, current, rest.visited[..j - 1]);
        }
      }
    }
  }

  /** The loop only stops early because the counter reached the threshold. */
  lemma {:induction false} FetchLoopStops(a: Archive, threshold: int, first: YearMonth, current: YearMonth, count: int)
    ensures var w := FetchLoop(a, threshold, first, current, count);
      |w.visited| == Span(first, current) || w.counter >= threshold
    decreases Span(first, current)
  {
    if !IsBefore(current, first) && count < threshold {
      var next := Tally(Weight, OutcomeAt(a, current), count);
      FetchLoopStep(a, threshold, first, current, count);
      RangeStep(first, current);
      FetchLoopStops(a, threshold, first, MinusOneMonth(current), next);
    }
  }

  /** The counter of the loop is the trailing unproductive run; the loop goes on while it is below the threshold. */
  lemma FetchLoopCounter(a: Archive, threshold: int, first: YearMonth, current: YearMonth, count: int)
    ensures var w := FetchLoop(a, threshold, first, current, count);
      && w.counter == TrailingRun(Weight, a, count, w.visited)
      && (forall j :: 0 <= j < |w.visited| ==> TrailingRun(Weight, a, count, w.visited[..j]) < threshold)
      && (|w.visited| == Span(first, current) || w.counter >= threshold)
  {
    FetchLoopRun(a, threshold, first, current, count);
    FetchLoopBelow(a, threshold, first, current, count);
    FetchLoopStops(a, threshold, first, current, count);
  }

  /** The walk of one fetchAll call: counter starts at zero at `lastPeriod`. */
  function FetchWalk(a: Archive, cfg: Config, firstPeriod: YearMonth, lastPeriod: YearMonth): Walk {
    FetchLoop(a, cfg.maxConsecutiveEmptyFiles, firstPeriod, lastPeriod, 0)
  }

  /** fetchAll: the files kept, in the order they were downloaded. */
  function FetchAll(a: Archive, cfg: Config, firstPeriod: YearMonth, lastPeriod: YearMonth,
                    dir: Path, domain: string, listName: string): (files: seq<Path>)
    ensures |files| <= Span(firstPeriod, lastPeriod)
    ensures IsBefore(lastPeriod, firstPeriod) ==> files == []
  {
    FilePaths(dir, domain, listName, FetchWalk(a, cfg, firstPeriod, lastPeriod).produced)
  }

  /**
   * Periods are requested from `lastPeriod` downwards, one month per step,
   * never before `firstPeriod`; an inverted range requests nothing and
   * returns no files; otherwise, with a positive threshold, `lastPeriod` is
   * requested first.
   */
  lemma FetchVisitsDescending(a: Archive, cfg: Config, firstPeriod: YearMonth, lastPeriod: YearMonth,
                              dir: Path, domain: string, listName: string)
    ensures var w := FetchWalk(a, cfg, firstPeriod, lastPeriod);
      && w.visited == Range(firstPeriod, lastPeriod)[..|w.visited|]
      && |w.visited| <= Span(firstPeriod, lastPeriod)
      && Descending(w.visited)
      && (forall p :: p in w.visited ==> Within(p, firstPeriod, lastPeriod))
      && (forall i :: 0 <= i < |w.visited| - 1 ==> w.visited[i + 1] == MinusOneMonth(w.visited[i]))
      && (IsBefore(lastPeriod, firstPeriod) ==> w.visited == [] && FetchAll(a, cfg, firstPeriod, lastPeriod, dir, domain, listName) == [])
      && (!IsBefore(lastPeriod, firstPeriod) && 0 < cfg.maxConsecutiveEmptyFiles ==> w.visited[0] == lastPeriod)
  {
    var w := FetchWalk(a, cfg, firstPeriod, lastPeriod);
    RangeShape(firstPeriod, lastPeriod);
    RangePrefix(firstPeriod, lastPeriod, |w.visited|);
  }

  /**
   * The early-stop rule against the reference counter: every period visited
   * was reached with the run of unproductive periods before it below the
   * threshold, and the walk ends when the range is exhausted or the run has
   * reached the threshold.
   */
  lemma FetchStopRule(a: Archive, cfg: Config, firstPeriod: YearMonth, lastPeriod: YearMonth)
    ensures var w := FetchWalk(a, cfg, firstPeriod, lastPeriod);
            var r := Range(firstPeriod, lastPeriod);
      && |w.visited| <= |r|
      && w.counter == TrailingRun(Weight, a, 0, w.visited)
      && (forall j :: 0 <= j < |w.visited| ==> TrailingRun(Weight, a, 0, r[..j]) < cfg.maxConsecutiveEmptyFiles)
      && (|w.visited| == |r| || TrailingRun(Weight, a, 0, r[..|w.visited|]) >= cfg.maxConsecutiveEmptyFiles)
  {
    var t := cfg.maxConsecutiveEmptyFiles;
    var w := FetchLoop(a, t, firstPeriod, lastPeriod, 0);
    var r := Range(firstPeriod, lastPeriod);
    FetchLoopRun(a, t, firstPeriod, lastPeriod, 0);
    FetchLoopBelow(a, t, firstPeriod, lastPeriod, 0);
    FetchLoopStops(a, t, firstPeriod, lastPeriod, 0);
    BelowOnPrefix(a, t, r, w.visited);
  }

  /** What holds of the prefixes of the visited periods holds of the same prefixes of the range. */
  lemma BelowOnPrefix(a: Archive, threshold: int, r: seq<YearMonth>, v: seq<YearMonth>)
    requires |v| <= |r| && v == r[..|v|]
    requires forall j :: 0 <= j < |v| ==> TrailingRun(Weight, a, 0, v[..j]) < threshold
    ensures forall j :: 0 <= j < |v| ==> TrailingRun(Weight, a, 0, r[..j]) < threshold
  {
    PrefixesOfPrefix(r, v);
  }

  /** A run that was below the threshold before its last step ends at most one past it, or at it if that step deleted its file. */
  lemma RunBound(a: Archive, threshold: int, ps: seq<YearMonth>)
    requires 0 <= threshold
    requires forall j :: 0 <= j < |ps| ==> TrailingRun(Weight, a, 0, ps[..j]) < threshold
    ensures 0 <= TrailingRun(Weight, a, 0, ps) <= threshold + 1
    ensures (forall p :: p in ps ==> a.deletable(p)) ==> TrailingRun(Weight, a, 0, ps) <= threshold
  {
    if ps != [] {
      var n := |ps|;
      var before := ps[..n - 1];
      assert ps == before + [ps[n - 1]];
      assert TrailingRun(Weight, a, 0, before) < threshold;
      TrailingRunSnoc(Weight, a, 0, before, ps[n - 1]);
      assert ps[n - 1] in ps;
    }
  }

  /**
   * The counter never exceeds the threshold by more than one, and ends at
   * most at the threshold when every empty file could be deleted, so that an
   * early stop then leaves it exactly at the threshold.
   */
  lemma FetchCounterBounds(a: Archive, cfg: Config, firstPeriod: YearMonth, lastPeriod: YearMonth)
    requires 0 <= cfg.maxConsecutiveEmptyFiles
    ensures var w := FetchWalk(a, cfg, firstPeriod, lastPeriod);
      && 0 <= w.counter <= cfg.maxConsecutiveEmptyFiles + 1
      && ((forall p :: p in w.visited ==> a.deletable(p)) ==> w.counter <= cfg.maxConsecutiveEmptyFiles)
      && ((|w.visited| < Span(firstPeriod, lastPeriod) && (forall p :: p in w.visited ==> a.deletable(p)))
            ==> w.counter == cfg.maxConsecutiveEmptyFiles)
  {
    var threshold := cfg.maxConsecutiveEmptyFiles;
    var w := FetchLoop(a, threshold, firstPeriod, lastPeriod, 0);
    FetchLoopRun(a, threshold, firstPeriod, lastPeriod, 0);
    FetchLoopBelow(a, threshold, firstPeriod, lastPeriod, 0);
    FetchLoopStops(a, threshold, firstPeriod, lastPeriod, 0);
    RunBound(a, threshold, w.visited);
  }

  /**
   * The files are those of exactly the visited periods whose request
   * succeeded with a non-empty body, newest first, each named after its
   * period, with no file twice.
   */
  lemma FetchAllContents(a: Archive, cfg: Config, firstPeriod: YearMonth, lastPeriod: YearMonth,
                         dir: Path, domain: string, listName: string)
    ensures var w := FetchWalk(a, cfg, firstPeriod, lastPeriod);
            var files := FetchAll(a, cfg, firstPeriod, lastPeriod, dir, domain, listName);
      && |files| == |w.produced|
      && (forall i :: 0 <= i < |files| ==> files[i] == FilePath(dir, domain, listName, w.produced[i]))
      && (forall p :: p in w.produced <==>
            p in w.visited && a.respond(p).Response? && a.respond(p).status < 400 && a.respond(p).bodySize > 0)
      && Descending(w.produced)
      && (forall i, j :: 0 <= i < j < |files| ==> files[i] != files[j])
  {
    var w := FetchWalk(a, cfg, firstPeriod, lastPeriod);
    FetchVisitsDescending(a, cfg, firstPeriod, lastPeriod, dir, domain, listName);
    ProductivesDescending(a, w.visited);
    ProductivesMembers(a, w.visited);
    FilePathsDistinct(dir, domain, listName, w.produced);
  }

  lemma {:induction false} AllFailedRun(a: Archive, ps: seq<YearMonth>)
    requires forall p :: OutcomeAt(a, p) == Failed
    ensures TrailingRun(Weight, a, 0, ps) == |ps|
    decreases |ps|
  {
    if ps != [] {
      AllFailedRun(a, ps[..|ps| - 1]);
    }
  }

  /**
   * When every request fails, the walk gives up after as many periods as the
   * threshold (or when the range runs out), and returns no files.
   */
  lemma FetchAllFailing(a: Archive, cfg: Config, firstPeriod: YearMonth, lastPeriod: YearMonth,
                        dir: Path, domain: string, listName: string)
    requires forall p :: OutcomeAt(a, p) == Failed
    ensures var n := |FetchWalk(a, cfg, firstPeriod, lastPeriod).visited|;
            var t := cfg.maxConsecutiveEmptyFiles;
      && n == (if t < 0 then 0 else if t < Span(firstPeriod, lastPeriod) then t else Span(firstPeriod, lastPeriod))
      && FetchAll(a, cfg, firstPeriod, lastPeriod, dir, domain, listName) == []
  {
    var w := FetchWalk(a, cfg, firstPeriod, lastPeriod);
    var r := Range(firstPeriod, lastPeriod);
    var n := |w.visited|;
    var t := cfg.maxConsecutiveEmptyFiles;
    FetchStopRule(a, cfg, firstPeriod, lastPeriod);
    assert r[..0] == [];
    AllFailedRun(a, r[..n]);
    if n > 0 {
      AllFailedRun(a, r[..n - 1]);
    }
    NoProductives(a, w.visited);
  }

  /** The loop's view of one iteration: what was kept so far plus what the rest of the walk keeps is unchanged. */
  lemma FetchAllLoopStep(a: Archive, threshold: int, first: YearMonth, current: YearMonth, count: int,
                         kept: seq<YearMonth>, total: seq<YearMonth>)
    requires !IsBefore(current, first) && count < threshold
    requires total == kept + FetchLoop(a, threshold, first, current, count).produced
    ensures total == (kept + Productives(a, [current]))
                     + FetchLoop(a, threshold, first, MinusOneMonth(current), Tally(Weight, OutcomeAt(a, current), count)).produced
  {
    FetchLoopStep(a, threshold, first, current, count);
    var rest := FetchLoop(a, threshold, first, MinusOneMonth(current), Tally(Weight, OutcomeAt(a, current), count));
    var here := Productives(a, [current]);
    assert total == kept + (here + rest.produced);
    ConcatAssoc(kept, here, rest.produced);
  }

  /** The files of the kept periods after one more period: one more file exactly when that period was productive. */
  lemma KeptFilesStep(a: Archive, dir: Path, domain: string, listName: string, kept: seq<YearMonth>, p: YearMonth)
    ensures FilePaths(dir, domain, listName, kept + Productives(a, [p]))
         == FilePaths(dir, domain, listName, kept)
            + (if Productive(OutcomeAt(a, p)) then [FilePath(dir, domain, listName, p)] else [])
  {
    ProductivesSingle(a, p);
    FilePathsAppend(dir, domain, listName, kept, Productives(a, [p]));
  }

  /**
   * fetchAll as the while loop it is written as: stop when the current period
   * is before the first one or the counter reached the threshold; count up on
   * a failure or an empty file (twice when the empty file cannot be deleted),
   * reset and keep the file otherwise; step back one month.
   */
  method FetchAllLoop(a: Archive, cfg: Config, firstPeriod: YearMonth, lastPeriod: YearMonth,
                      dir: Path, domain: string, listName: string) returns (files: seq<Path>)
    ensures files == FilePaths(dir, domain, listName, FetchWalk(a, cfg, firstPeriod, lastPeriod).produced)
  {
    var threshold := cfg.maxConsecutiveEmptyFiles;
    var currentPeriod := lastPeriod;
    var emptyFileCount := 0;
    ghost var kept: seq<YearMonth> := [];
    ghost var total := FetchLoop(a, threshold, firstPeriod, lastPeriod, 0).produced;
    files := [];
    while !IsBefore(currentPeriod, firstPeriod) && emptyFileCount < threshold
      invariant total == kept + FetchLoop(a, threshold, firstPeriod, currentPeriod, emptyFileCount).produced
      invariant files == FilePaths(dir, domain, listName, kept)
      decreases Span(firstPeriod, currentPeriod)
    {
      FetchAllLoopStep(a, threshold, firstPeriod, currentPeriod, emptyFileCount, kept, total);
      RangeStep(firstPeriod, currentPeriod);
      KeptFilesStep(a, dir, domain, listName, kept, currentPeriod);
      ghost var before := emptyFileCount;
      var outcome := OutcomeAt(a, currentPeriod);
      if outcome.Failed? {
        emptyFileCount := emptyFileCount + 1;
      } else if outcome.size < 1 {
        emptyFileCount := emptyFileCount + 1;
        if !outcome.deletable {
          emptyFileCount := emptyFileCount + 1;
        }
      } else {
        emptyFileCount := 0;
        files := files + [FilePath(dir, domain, listName, currentPeriod)];
      }
      assert emptyFileCount == Tally(Weight, outcome, before);
      kept := kept + Productives(a, [currentPeriod]);
      currentPeriod := MinusOneMonth(currentPeriod);
    }
  }

  /** One request of a walk: the time its timestamp was taken and the URL asked for. */
  datatype Request = Request(time: int, url: string)

  /**
   * The requests of one fetchAll call, paced by the configured interval and
   * addressed to the configured API, given the time of the first request
   * and the timing of each later one.
   */
  function FetchRequests(a: Archive, cfg: Config, firstPeriod: YearMonth, lastPeriod: YearMonth,
                         domain: string, listName: string, start: int, gaps: seq<Gap>): (rs: seq<Request>)
    requires |FetchWalk(a, cfg, firstPeriod, lastPeriod).visited| <= |gaps| + 1
    ensures |rs| == |FetchWalk(a, cfg, firstPeriod, lastPeriod).visited|
    ensures forall i :: 0 <= i < |rs| - 1 ==>
              rs[i + 1].time - rs[i].time == Max(cfg.requestInterval, gaps[i].work) + gaps[i].callback
  {
    var w := FetchWalk(a, cfg, firstPeriod, lastPeriod);
    var ts := Timestamps(start, gaps, cfg.requestInterval);
    seq(|w.visited|, i requires 0 <= i < |w.visited| =>
      Request(ts[i], Url(cfg.apiUrl, domain, listName, w.visited[i])))
  }

  /**
   * Each request is addressed to the configured API and names the period it
   * fetches in its URL, in the order the periods are visited.
   */
  lemma FetchRequestsNamePeriods(a: Archive, cfg: Config, firstPeriod: YearMonth, lastPeriod: YearMonth,
                                 domain: string, listName: string, start: int, gaps: seq<Gap>)
    requires |FetchWalk(a, cfg, firstPeriod, lastPeriod).visited| <= |gaps| + 1
    ensures var rs := FetchRequests(a, cfg, firstPeriod, lastPeriod, domain, listName, start, gaps);
            var w := FetchWalk(a, cfg, firstPeriod, lastPeriod);
      && (forall i :: 0 <= i < |rs| ==> rs[i].url == Url(cfg.apiUrl, domain, listName, w.visited[i]))
      && (forall i :: 0 <= i < |rs| ==> QueryPeriod(rs[i].url) == Some(w.visited[i]))
  {
    var rs := FetchRequests(a, cfg, firstPeriod, lastPeriod, domain, listName, start, gaps);
    var w := FetchWalk(a, cfg, firstPeriod, lastPeriod);
    UrlsNamePeriods(cfg.apiUrl, domain, listName, w.visited);
    assert forall i :: 0 <= i < |rs| ==> rs[i].url == Url(cfg.apiUrl, domain, listName, w.visited[i]);
  }

  /** Consecutive requests are at least the configured interval apart. */
  lemma FetchRequestsPaced(a: Archive, cfg: Config, firstPeriod: YearMonth, lastPeriod: YearMonth,
                           domain: string, listName: string, start: int, gaps: seq<Gap>)
    requires |FetchWalk(a, cfg, firstPeriod, lastPeriod).visited| <= |gaps| + 1
    ensures var rs := FetchRequests(a, cfg, firstPeriod, lastPeriod, domain, listName, start, gaps);
      forall i :: 0 <= i < |rs| - 1 ==> rs[i + 1].time - rs[i].time >= cfg.requestInterval
  {
    var rs := FetchRequests(a, cfg, firstPeriod, lastPeriod, domain, listName, start, gaps);
    forall i | 0 <= i < |rs| - 1
      ensures rs[i + 1].time - rs[i].time >= cfg.requestInterval
    {
      assert rs[i + 1].time - rs[i].time == Max(cfg.requestInterval, gaps[i].work) + gaps[i].callback;
    }
  }

  /**
   * With the class's constants, a list whose every request fails is given
   * up after ten periods, or fewer when the range is shorter.
   */
  lemma DefaultsGiveUpAfterTen(a: Archive, firstPeriod: YearMonth, lastPeriod: YearMonth,
                               dir: Path, domain: string, listName: string)
    requires forall p :: OutcomeAt(a, p) == Failed
    ensures var n := |FetchWalk(a, Defaults, firstPeriod, lastPeriod).visited|;
      && (10 <= Span(firstPeriod, lastPeriod) ==> n == 10)
      && (Span(firstPeriod, lastPeriod) < 10 ==> n == Span(firstPeriod, lastPeriod))
      && FetchAll(a, Defaults, firstPeriod, lastPeriod, dir, domain, listName) == []
  {
    FetchAllFailing(a, Defaults, firstPeriod, lastPeriod, dir, domain, listName);
  }
}
