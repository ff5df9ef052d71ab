/**
 * Where each period's archive goes and where it is requested from:
 * `<dir>/<domain>_<list>_<yyyy-MM>.mbox` and
 * `<api>?domain=<domain>&list=<list>&d=<yyyy-MM>`.
 */
module Naming {
  import opened Wrappers
  import opened Periods
  import opened PeriodText
  import opened Decimal

  /** A file-system path as a root flag and a sequence of name elements. */
  datatype Path = Path(absolute: bool, names: seq<string>)

  /** Path.resolve with a relative name: the name becomes the last element. */
  function Resolve(dir: Path, name: string): Path {
    Path(dir.absolute, dir.names + [name])
  }

  /** The archive file name of one period of one list. */
  function FileName(domain: string, listName: string, p: YearMonth): string {
    domain + "_" + listName + "_" + Format(p) + ".mbox"
  }

  /** buildFilePath: the archive file of one period, directly inside `dir`. */
  function FilePath(dir: Path, domain: string, listName: string, p: YearMonth): (f: Path)
    ensures f.absolute == dir.absolute
    ensures |f.names| == |dir.names| + 1 && f.names[..|dir.names|] == dir.names
  {
    Resolve(dir, FileName(domain, listName, p))
  }

  /** The files of a sequence of periods, in the same order. */
  function FilePaths(dir: Path, domain: string, listName: string, ps: seq<YearMonth>): (r: seq<Path>)
    ensures |r| == |ps|
    ensures forall i :: 0 <= i < |ps| ==> r[i] == FilePath(dir, domain, listName, ps[i])
  {
    seq(|ps|, i requires 0 <= i < |ps| => FilePath(dir, domain, listName, ps[i]))
  }

  lemma FilePathsAppend(dir: Path, domain: string, listName: string, ps: seq<YearMonth>, qs: seq<YearMonth>)
    ensures FilePaths(dir, domain, listName, ps + qs)
         == FilePaths(dir, domain, listName, ps) + FilePaths(dir, domain, listName, qs)
  {
  }

  /** Within one directory, domain and list, the file of each period is its own. */
  lemma FilePathInjective(dir: Path, domain: string, listName: string, p: YearMonth, q: YearMonth)
    ensures FilePath(dir, domain, listName, p) == FilePath(dir, domain, listName, q) <==> p == q
  {
    if FilePath(dir, domain, listName, p) == FilePath(dir, domain, listName, q) {
      var prefix := domain + "_" + listName + "_";
      var a, b := FileName(domain, listName, p), FileName(domain, listName, q);
      assert a == FilePath(dir, domain, listName, p).names[|dir.names|];
      assert b == FilePath(dir, domain, listName, q).names[|dir.names|];
      assert a == prefix + Format(p) + ".mbox";
      assert b == prefix + Format(q) + ".mbox";
      assert |Format(p)| == |Format(q)|;
      assert Format(p) == a[|prefix|..|a| - 5];
      assert Format(q) == b[|prefix|..|b| - 5];
      FormatInjective(p, q);
    }
  }

  /** Files of distinct periods are distinct, so a run's files have no duplicates. */
  lemma FilePathsDistinct(dir: Path, domain: string, listName: string, ps: seq<YearMonth>)
    requires Descending(ps)
    ensures forall i, j :: 0 <= i < j < |ps| ==>
              FilePaths(dir, domain, listName, ps)[i] != FilePaths(dir, domain, listName, ps)[j]
  {
    forall i, j | 0 <= i < j < |ps|
      ensures FilePaths(dir, domain, listName, ps)[i] != FilePaths(dir, domain, listName, ps)[j]
    {
      FilePathInjective(dir, domain, listName, ps[i], ps[j]);
    }
  }

  /** The request URL of one period. */
  function Url(api: string, domain: string, listName: string, p: YearMonth): string {
    api + "?domain=" + domain + "&list=" + listName + "&d=" + Format(p)
  }

  /** The text after the last occurrence of `c` (all of `s` if there is none). */
  function AfterLast(s: string, c: char): (r: string)
    ensures c !in r
    decreases |s|
  {
    if s == [] then []
    else if s[|s| - 1] == c then []
    else AfterLast(s[..|s| - 1], c) + [s[|s| - 1]]
  }

  lemma {:induction false} AfterLastSuffix(s: string, c: char, t: string)
    requires c !in t
    ensures AfterLast(s + [c] + t, c) == t
    decreases |t|
  {
    var u := s + [c] + t;
    if t != [] {
      assert u[..|u| - 1] == s + [c] + t[..|t| - 1];
      AfterLastSuffix(s, c, t[..|t| - 1]);
    }
  }

  /** The period named by a URL's last query value. */
  function QueryPeriod(url: string): Option<YearMonth> {
    Parse(AfterLast(url, '='))
  }

  /** The period a URL was built for can be read back from it. */
  lemma UrlNamesPeriod(api: string, domain: string, listName: string, p: YearMonth)
    ensures QueryPeriod(Url(api, domain, listName, p)) == Some(p)
  {
    var head := api + "?domain=" + domain + "&list=" + listName + "&d";
    assert Url(api, domain, listName, p) == head + ['='] + Format(p);
    AfterLastSuffix(head, '=', Format(p));
    ParseFormat(p);
  }

  /** Every URL of a sequence of periods reads back to its own period. */
  lemma UrlsNamePeriods(api: string, domain: string, listName: string, ps: seq<YearMonth>)
    ensures forall i :: 0 <= i < |ps| ==> QueryPeriod(Url(api, domain, listName, ps[i])) == Some(ps[i])
  {
    forall i | 0 <= i < |ps|
      ensures QueryPeriod(Url(api, domain, listName, ps[i])) == Some(ps[i])
    {
      UrlNamesPeriod(api, domain, listName, ps[i]);
    }
  }

  /** The period an archive file name was built for: the text between its last '_' and the ".mbox" suffix. */
  function FileNamePeriod(name: string): Option<YearMonth> {
    if |name| < 5 || name[|name| - 5..] != ".mbox" then None
    else Parse(AfterLast(name[..|name| - 5], '_'))
  }

  /** The period can be read back from its file name, whatever the domain and list names contain. */
  lemma FileNameNamesPeriod(domain: string, listName: string, p: YearMonth)
    ensures FileNamePeriod(FileName(domain, listName, p)) == Some(p)
  {
    var head := domain + "_" + listName;
    var name := FileName(domain, listName, p);
    assert name == head + ['_'] + Format(p) + ".mbox";
    assert name[..|name| - 5] == head + ['_'] + Format(p);
    assert '_' !in Format(p) by {
      forall i | 0 <= i < |Format(p)|
        ensures Format(p)[i] != '_'
      {
        assert IsDigit(Format(p)[i]) || Format(p)[i] == '-';
      }
    }
    AfterLastSuffix(head, '_', Format(p));
    ParseFormat(p);
  }
}
