# Month-by-month mailing-list archive walk, modelled in Dafny

The EmailDownloader tool fetches Apache mailing-list archives one calendar
month at a time. It asks `mbox.lua?domain=<d>&list=<l>&d=<yyyy-MM>` for each
month, writes the answer to `<dir>/<domain>_<list>_<yyyy-MM>.mbox`, and walks
backwards from the latest month. It gives up after a run of unproductive
months. The walk exists in three near-duplicate revisions, and this project
models all three:

- `fetchAll` in `nl.andrewl.emaildownloader.ApacheMailingListFetcher` is the newest.
  - A failed request counts as unproductive, just like an empty file.
  - The threshold (10), the request interval (1000 ms) and the API address are constants of the class, and settings in the three-argument constructor that the command calls.
  - An inverted range yields no files and no error.
- `downloadAll` in `nl.andrewl.apache_email_downloader.ApacheMailingListDownloader` is older.
  - The latest bound defaults to the current month; the earliest to 2000-01.
  - An inverted range is rejected before any work starts.
  - A failure leaves the counter alone.
  - The loop breaks once 5 consecutive empty files were seen.
- `run` in `ApacheEmailDownloader` is the command.
  - It runs the same loop as `downloadAll`, but only counts the files it keeps.
  - Its `--from` option is the *latest* month; `--until` is the earliest.

Modules, one per concept:

- `Periods` holds `YearMonth`, its ordering, "one month earlier", and the inclusive range.
- `Decimal` and `PeriodText` render the `yyyy-MM` text and read it back.
- `Naming` builds file paths and request URLs.
- `Outcomes` holds the per-month oracle, the fetch status rule, and the two reference notions.
  - The kept periods among those visited.
  - The trailing unproductive run that the counter is meant to hold.
- `RateGate` holds the pacing arithmetic. The time of a request is read after the progress message, so the gap between two requests is the paced gap plus that message's duration.
- `Fetcher`, `Downloader` and `CommandRun` hold the three revisions.

The network and the file system form an oracle, `Archive`. For each month it
gives the server's answer: a status code and the bytes written, or an I/O
failure. It also says whether deleting that month's file would succeed.
The clock is an abstract millisecond counter, and "now" is a parameter.

Each walk is written as a recursive function that mirrors the source loop
branch for branch. It is then proved equal to an independent description.
The requested months are a prefix of the descending range, and the kept
files are exactly the productive months of that prefix. The prefix ends at
the first month where the backward-counted unproductive run meets the stop
rule, or at the end of the range. The newest revision is also written as the
while loop it is in the source, and proved to return the same files.

Three details of the code differ from what a quick reading suggests. All three
are modelled as written:

- In `fetchAll`, an empty file whose `Files.deleteIfExists` throws is counted twice.
  - The empty branch increments the counter once.
  - The exception handler increments it again.
  - So on an early stop the counter is the threshold, or the threshold plus one.
  - It is exactly the threshold when every empty file could be deleted.
- In the older revisions, an empty file whose `Files.delete` throws skips the `>= 5` break test for that month.
- The computed sleep is `interval - elapsed`.
  - With a monotonic clock it lies in `[0, interval]`; an elapsed time of 0 gives the full interval.
  - With a clock that goes backwards, as `Instant.now()` may, it can exceed the interval.

Three behaviours of the code are easy to miss:

- Failures count toward the threshold only in `fetchAll`.
- `fetchAll` returns nothing, rather than an error, for an inverted range.
- A file written with a status of 400 or more is not removed.

## Model

| member | source | states |
|---|---|---|
| `Periods.CompareTo` | src/main/java/nl/andrewl/emaildownloader/ApacheMailingListFetcher.java:78 | the year-then-month comparison is negative, zero or positive exactly when the first month is earlier than, equal to or later than the second |
| `Periods.MinusOneMonth` | src/main/java/nl/andrewl/emaildownloader/ApacheMailingListFetcher.java:104 | stepping back one month (January to December of the previous year) lands exactly one month earlier |
| `Periods.Range` | src/main/java/nl/andrewl/emaildownloader/ApacheMailingListFetcher.java:74-104 | stepping back from the latest month while it is not before the earliest yields months-between-plus-one months, the i-th being i months before the latest |
| `Periods.RangeShape` | src/main/java/nl/andrewl/emaildownloader/ApacheMailingListFetcher.java:74-104 | the range is empty exactly when the bounds are inverted; otherwise it starts at the latest month, ends at the earliest, steps back one month at a time and is strictly descending |
| `Periods.RangeContents` | src/main/java/nl/andrewl/emaildownloader/ApacheMailingListFetcher.java:78 | a month is in the range exactly when it lies between the two bounds |
| `PeriodText.ParseFormat` | src/main/java/nl/andrewl/emaildownloader/ApacheMailingListFetcher.java:120-126 | the `yyyy-MM` text used in file names and URLs reads back to the same month |
| `PeriodText.FormatInjective` | src/main/java/nl/andrewl/emaildownloader/ApacheMailingListFetcher.java:121 | two months have the same text exactly when they are the same month |
| `PeriodText.Format` | src/main/java/nl/andrewl/emaildownloader/ApacheMailingListFetcher.java:120-126 | the month text used in file names and URLs is at least seven characters of digits and '-' (it is read back by `ParseFormat`) |
| `Naming.FilePathInjective` | src/main/java/nl/andrewl/emaildownloader/ApacheMailingListFetcher.java:120-122 | in one directory, for one domain and list, `<domain>_<list>_<yyyy-MM>.mbox` names each month's file uniquely |
| `Naming.FilePathsDistinct` | src/main/java/nl/andrewl/emaildownloader/ApacheMailingListFetcher.java:97 | the files of a descending list of months are pairwise distinct |
| `Naming.FilePath` | src/main/java/nl/andrewl/emaildownloader/ApacheMailingListFetcher.java:120-122 | the archive file of a month lies directly inside the given directory, one name element below it |
| `Naming.FileNameNamesPeriod` | src/main/java/nl/andrewl/emaildownloader/ApacheMailingListFetcher.java:120-122 | the month can be read back from `<domain>_<list>_<yyyy-MM>.mbox` (the text between the last '_' and `.mbox`), whatever the domain and list names contain |
| `Naming.UrlNamesPeriod` | src/main/java/nl/andrewl/emaildownloader/ApacheMailingListFetcher.java:124-126 | the URL `api?domain=..&list=..&d=<yyyy-MM>` names its month in its last query value, which reads back to that month |
| `Naming.UrlsNamePeriods` | src/main/java/nl/andrewl/emaildownloader/ApacheMailingListFetcher.java:124-126 | every URL built for a sequence of months reads back to its own month |
| `Outcomes.Fetch` | src/main/java/nl/andrewl/emaildownloader/ApacheMailingListFetcher.java:109-118 | an I/O failure or a status of 400 or more is a failure; otherwise the file has the body's size, and it is kept exactly when the status is below 400 and the body is non-empty |
| `Outcomes.TrailingRunCons` | src/main/java/nl/andrewl/emaildownloader/ApacheMailingListFetcher.java:90-103 | updating the counter month by month (reset on a kept file, otherwise add the outcome's weight) gives the unproductive run counted backwards from the last month |
| `RateGate.Sleep` | src/main/java/nl/andrewl/emaildownloader/ApacheMailingListFetcher.java:80-85 | the first request never waits; otherwise the wait is the least non-negative one that puts the interval between two requests, and with a monotonic clock it is at most the interval |
| `RateGate.Timestamps` | src/main/java/nl/andrewl/emaildownloader/ApacheMailingListFetcher.java:76-87 | with the clock read before the progress message to size the sleep and again after it for the timestamp, consecutive requests are exactly max(interval, time spent since the previous request) plus that message's duration apart |
| `Fetcher.FetchLoop` | src/main/java/nl/andrewl/emaildownloader/ApacheMailingListFetcher.java:74-106 | the months requested are a prefix of the descending range from the current month, and the kept months are exactly the productive ones among them, in order |
| `Fetcher.FetchLoopCounter` | src/main/java/nl/andrewl/emaildownloader/ApacheMailingListFetcher.java:78-103 | the counter equals the trailing unproductive run; every month was requested with the run before it below the threshold; the loop ends with the range exhausted or the run at the threshold |
| `Fetcher.FetchVisitsDescending` | src/main/java/nl/andrewl/emaildownloader/ApacheMailingListFetcher.java:74-106 | months are requested from the latest bound down, one month per step, never before the earliest bound; an inverted range requests nothing and returns no files; with a positive threshold the latest month comes first |
| `Fetcher.FetchStopRule` | src/main/java/nl/andrewl/emaildownloader/ApacheMailingListFetcher.java:78-103 | the walk stops at the first prefix of the range whose unproductive run (failures and empty files, an undeletable empty file twice) reaches the threshold, or at the end of the range |
| `Fetcher.FetchCounterBounds` | src/main/java/nl/andrewl/emaildownloader/ApacheMailingListFetcher.java:90-103 | the final counter is at most the threshold plus one, and at most the threshold when every empty file could be deleted, so an early stop then leaves it exactly at the threshold |
| `Fetcher.FetchAllContents` | src/main/java/nl/andrewl/emaildownloader/ApacheMailingListFetcher.java:88-98 | the files returned are those of exactly the requested months whose request succeeded with a non-empty body, newest first, each named after its month, with no file twice |
| `Fetcher.FetchAllFailing` | src/main/java/nl/andrewl/emaildownloader/ApacheMailingListFetcher.java:99-103 | when every request fails, the walk requests threshold-many months (or the whole shorter range) and returns no files |
| `Fetcher.FetchAllLoop` | src/main/java/nl/andrewl/emaildownloader/ApacheMailingListFetcher.java:74-106 | the while loop with its counter, early stop and file list returns the same files as the recursive walk |
| `Fetcher.FetchAll` | src/main/java/nl/andrewl/emaildownloader/ApacheMailingListFetcher.java:66-107 | fetchAll returns at most one file per month of the range, and none for an inverted range |
| `Fetcher.FetchRequests` | src/main/java/nl/andrewl/emaildownloader/ApacheMailingListFetcher.java:76-88 | one request per visited month, consecutive requests max(configured interval, work) plus the progress message's duration apart; the address of each request is stated by `Fetcher.FetchRequestsNamePeriods` |
| `Fetcher.FetchRequestsNamePeriods` | src/main/java/nl/andrewl/emaildownloader/ApacheMailingListFetcher.java:109-126 | the i-th request's URL is the configured API address followed by the query for the i-th visited month, and it reads back to that month |
| `Fetcher.FetchRequestsPaced` | src/main/java/nl/andrewl/emaildownloader/ApacheMailingListFetcher.java:80-87 | consecutive requests of a walk are at least the configured interval apart |
| `Fetcher.DefaultsGiveUpAfterTen` | src/main/java/nl/andrewl/emaildownloader/ApacheMailingListFetcher.java:78-103 | with the class constant `MAX_CONSECUTIVE_EMPTY_FILES` of 10, a list whose every request fails is given up after ten months, or the whole range when it is shorter, with no file |
| `Downloader.DownloadLoop` | src/main/java/nl/andrewl/apache_email_downloader/ApacheMailingListDownloader.java:56-83 | the months requested are a prefix of the descending range from the latest bound, and the kept months are exactly the productive ones among them |
| `Downloader.DownloadLoopCounter` | src/main/java/nl/andrewl/apache_email_downloader/ApacheMailingListDownloader.java:57-81 | the counter equals the trailing run of empty files, with failures adding nothing; the loop breaks after the first month that passes the break test, or covers the whole range |
| `Downloader.Bounds` | src/main/java/nl/andrewl/apache_email_downloader/ApacheMailingListDownloader.java:48-49 | the latest month is `untilDate`, or the current month when it is absent; the earliest is `fromDate`, or 2000-01 when it is absent |
| `Downloader.DownloadAll` | src/main/java/nl/andrewl/apache_email_downloader/ApacheMailingListDownloader.java:43-90 | a non-directory output path is rejected first, then a range whose earliest bound (default 2000-01) is after its latest (default now); only when both checks pass and the directories can be created does it complete |
| `Downloader.DownloadVisitsDescending` | src/main/java/nl/andrewl/apache_email_downloader/ApacheMailingListDownloader.java:56-81 | months are requested from the latest bound down towards the earliest, one month per step, each within the bounds, as a prefix of the descending range |
| `Downloader.DownloadStartsAtLatest` | src/main/java/nl/andrewl/apache_email_downloader/ApacheMailingListDownloader.java:48-61 | once the range is valid the latest bound (by default the current month) is requested first, and with no earliest bound nothing before 2000-01 is requested |
| `Downloader.DownloadStopRule` | src/main/java/nl/andrewl/apache_email_downloader/ApacheMailingListDownloader.java:66-76 | the walk goes on after every month at which the break test (an empty file, deleted, run of at least 5) fails, and ends after the first month at which it holds or at the end of the range |
| `Downloader.DownloadAllContents` | src/main/java/nl/andrewl/apache_email_downloader/ApacheMailingListDownloader.java:62-74 | a completed download returns the files of exactly the requested months with a successful non-empty answer, newest first, named after their month, with no file twice |
| `Downloader.DownloadAllFailing` | src/main/java/nl/andrewl/apache_email_downloader/ApacheMailingListDownloader.java:77-81 | failures never stop this revision: when every request fails, the whole range is requested and no file is returned |
| `CommandRun.RunLoopMatchesDownloadLoop` | src/main/java/nl/andrewl/apache_email_downloader/ApacheEmailDownloader.java:42-69 | the command's loop requests the same months as downloadAll's and ends with the same counter, and its file count grows by exactly the number of files downloadAll keeps |
| `CommandRun.RunLoop` | src/main/java/nl/andrewl/apache_email_downloader/ApacheEmailDownloader.java:46-69 | the command's loop requests at most the months of the range and counts at most one file per requested month, never fewer than it started with |
| `CommandRun.Bounds` | src/main/java/nl/andrewl/apache_email_downloader/ApacheEmailDownloader.java:39-40 | the command's bounds are downloadAll's with the two options swapped: `--from` (default now) is the latest month, `--until` (default 2000-01) the earliest |
| `CommandRun.Run` | src/main/java/nl/andrewl/apache_email_downloader/ApacheEmailDownloader.java:32-75 | a non-directory output path fails first, then an inverted range, then a failure to create the directories; otherwise the file count is at most the number of months in the range |
| `CommandRun.RunIsSwappedDownloadAll` | src/main/java/nl/andrewl/apache_email_downloader/ApacheEmailDownloader.java:32-75 | the command with `--from X --until Y` fails exactly as downloadAll with until X and from Y, and otherwise reports as many files as downloadAll returns, one per requested month with a successful non-empty answer |

## Left out

- The HTTP transport (`HttpClient.send`, the 5-second timeout, `BodyHandlers.ofFile`) is an oracle: each month's answer is a status and a size, or an I/O failure.
- `Downloader.java` and `MboxDownloader.java` are not separately modelled: their only logic, "status 400 or more throws", is `Outcomes.Fetch`.
- File-system effects (`Files.size`, `delete`, `deleteIfExists`, `createDirectories`, `exists`, `isDirectory`) become oracle flags and parameters.
  - A deleted file is modelled only as "not in the result".
  - A file left behind after a status of 400 or more is not modelled.
- Threads and futures (`ForkJoinPool`, `CompletableFuture`) are not modelled: each revision is a function of its inputs, and a failed future is an error value.
- `Thread.sleep` and `Instant.now` become an abstract integer clock.
  - The sleep is taken as exact.
  - Sub-millisecond truncation by `Duration.toMillis` is not modelled.
  - An interrupted sleep is that month's failure.
- RateGate.Timestamps and Fetcher.FetchRequestsPaced: the clock is assumed never to go backwards or jump, and to measure the time actually slept.
  - The source paces on `Instant.now()`, a wall clock.
  - If that clock is set forward between a request's timestamp and the next reading, no sleep happens and the next request can follow at once.
  - If it is set back during the progress message, two recorded timestamps can be less than the interval apart.
- Pacing is modelled beside the walk, by `Fetcher.FetchRequests`, not inside it, because time never changes which months are requested.
- Years are unbounded: `YearMonth`'s limit of plus or minus 999,999,999 is not modelled, nor the `DateTimeException` of `minusMonths` at that limit.
- A path is a list of name elements, and `resolve` appends one. A '/' inside a domain or list name, which would split the name, is not modelled.
- Progress messages, `printStackTrace` and the `run` command's console output are left out.
  - The file count that `run` prints is the result of `CommandRun.Run`.
- `CommandRun.Run` reports a failure to create the output directories as an error value. The command catches and logs that exception rather than throwing it.
- The command classes are left out: the picocli classes, the conversions between `ZonedDateTime` and `YearMonth`, and the `MailingListFetcher` default overloads that read the current time.
- `apache_email_downloader/ApacheMailingListFetcher.java` is an unfinished concurrent variant that cannot compile: its loop never advances and nothing is returned. It is not part of this model.
- `Fetcher.FetchAll` takes its threshold and interval from a `Config`, which the three-argument constructor in `EmailDownloaderCommand.java` implies. `Fetcher.Defaults` holds the class's constants: 10, 1000 and the API URL.
- Fetcher.FetchAll: domain and list names are assumed to be valid in a URI and in a path.
  - Otherwise `URI.create` (ApacheMailingListFetcher.java:125) or `Path.resolve` (:121) throws an unchecked exception that the `IOException | InterruptedException` handler does not catch.
  - `fetchAll` then ends with that exception on its first request, and the future of `download` is never completed.
- Downloader.DownloadAll and CommandRun.Run: the same names are assumed valid.
  - In these revisions an invalid URI counts as a failed month, because the handler catches every exception.
  - An invalid file name fails `resolve` outside that handler and ends the whole download; that is not modelled.
- Java `int` overflow of the counters is not modelled.
  - In `fetchAll` the counter never exceeds the threshold plus one.
  - In the older revisions, overflow would take more than two billion consecutive undeletable empty files.
