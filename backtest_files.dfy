/**
  Classification of a backtest run's files into the seven categories that the
  dashboard reads: `find_backtest_files_s3` (`src/s3_utils.py`, over the full
  listing of a prefix) and `find_backtest_files` (`src/utils.py`, over the
  `*.json` and `*.txt` glob results of a folder).

  Each category is its own list comprehension over the input, so the
  categories are NOT a partition: one path can sit in several of them.  The
  one exclusion is that `main` leaves out whatever is a summary, an
  order-events file or a monitor report.  The listing itself (the S3
  paginator, `glob.glob`) is an input here.
 */
module BacktestFiles {
  import opened PyStrings

  /** The seven keys of the dictionary both classifiers return. */
  datatype Category =
    | Main | Summary | OrderEvents | MonitorReport
    | Log | FailedDataRequests | SucceededDataRequests

  /** The dictionary key of each category. */
  function Key(c: Category): string {
    match c
    case Main => "main"
    case Summary => "summary"
    case OrderEvents => "order_events"
    case MonitorReport => "monitor_report"
    case Log => "log"
    case FailedDataRequests => "failed_data_requests"
    case SucceededDataRequests => "succeeded_data_requests"
  }

  /** The seven keys are distinct, so the returned dictionary has exactly seven entries. */
  lemma KeysDistinct()
    ensures forall c, d :: Key(c) == Key(d) ==> c == d
  {
  }

  const ALL_CATEGORIES: set<Category> :=
    {Main, Summary, OrderEvents, MonitorReport, Log, FailedDataRequests, SucceededDataRequests}

  /** Whether `find_backtest_files` fills category `c` from the `*.json` glob (otherwise from the `*.txt` glob). */
  predicate FromJsonGlob(c: Category) {
    c.Main? || c.Summary? || c.OrderEvents? || c.MonitorReport?
  }

  /** The list comprehension `[x for x in xs if keep(x)]`. */
  function Filter(xs: seq<string>, keep: string -> bool): (r: seq<string>)
    ensures |r| <= |xs|
    ensures forall x :: x in r <==> x in xs && keep(x)
  {
    if xs == [] then []
    else if keep(xs[0]) then [xs[0]] + Filter(xs[1..], keep)
    else Filter(xs[1..], keep)
  }

  /** A comprehension over a concatenation is the concatenation of the comprehensions. */
  lemma {:induction false} FilterAppend(xs: seq<string>, ys: seq<string>, keep: string -> bool)
    ensures Filter(xs + ys, keep) == Filter(xs, keep) + Filter(ys, keep)
  {
    if xs != [] {
      assert (xs + ys)[0] == xs[0];
      assert (xs + ys)[1..] == xs[1..] + ys;
      FilterAppend(xs[1..], ys, keep);
      if keep(xs[0]) {
        assert Filter(xs + ys, keep) == [xs[0]] + Filter(xs[1..] + ys, keep);
      } else {
        assert Filter(xs + ys, keep) == Filter(xs[1..] + ys, keep);
      }
    } else {
      assert xs + ys == ys;
    }
  }

  // The tests of the comprehensions, as the source writes them.

  predicate IsSummary(f: string) { EndsWith(f, "-summary.json") }
  predicate IsOrderEvents(f: string) { EndsWith(f, "-order-events.json") }
  predicate IsMonitorReport(f: string) { StartsWith(Basename(f), "data-monitor-report") }
  predicate IsLog(f: string) { EndsWith(f, "-log.txt") }
  predicate IsFailedDataRequests(f: string) { StartsWith(Basename(f), "failed-data-requests") }
  predicate IsSucceededDataRequests(f: string) { StartsWith(Basename(f), "succeeded-data-requests") }

  /** The `main` test of `find_backtest_files`, whose list holds only `*.json` files already. */
  predicate IsMainJson(f: string) { !(IsSummary(f) || IsOrderEvents(f) || IsMonitorReport(f)) }

  /** The `main` test of `find_backtest_files_s3`, whose list holds every key. */
  predicate IsMainS3(f: string) { EndsWith(f, ".json") && IsMainJson(f) }

  /** Whether `find_backtest_files_s3` puts the path `f` in the list of category `c`. */
  predicate InCategoryS3(c: Category, f: string) {
    match c
    case Main => IsMainS3(f)
    case Summary => IsSummary(f)
    case OrderEvents => IsOrderEvents(f)
    case MonitorReport => IsMonitorReport(f)
    case Log => IsLog(f)
    case FailedDataRequests => IsFailedDataRequests(f)
    case SucceededDataRequests => IsSucceededDataRequests(f)
  }

  /**
    Whether `find_backtest_files` puts the path `f` in the list of category
    `c`, given that `f` came from the glob that feeds `c`.
   */
  predicate InCategoryLocal(c: Category, f: string) {
    match c
    case Main => IsMainJson(f)
    case _ => InCategoryS3(c, f)
  }

  /** The categorisation part of `find_backtest_files_s3`, given the full paths of all keys under the prefix. */
  function FindBacktestFilesS3(allFiles: seq<string>): (r: map<Category, seq<string>>)
    ensures r.Keys == ALL_CATEGORIES
    ensures forall c, f :: c in r ==> (f in r[c] <==> f in allFiles && InCategoryS3(c, f))
    ensures forall c :: c in r ==> |r[c]| <= |allFiles|
    ensures forall f :: f in r[Main] ==> f !in r[Summary] && f !in r[OrderEvents] && f !in r[MonitorReport]
    ensures forall f :: f in allFiles && EndsWith(f, ".json") ==>
      f in r[Main] || f in r[Summary] || f in r[OrderEvents] || f in r[MonitorReport]
  {
    map c | c in ALL_CATEGORIES :: Filter(allFiles, f => InCategoryS3(c, f))
  }

  /** `find_backtest_files`, given the results of the `*.json` and `*.txt` globs of the folder. */
  function FindBacktestFiles(allJson: seq<string>, allTxt: seq<string>): (r: map<Category, seq<string>>)
    ensures r.Keys == ALL_CATEGORIES
    ensures forall c, f :: c in r ==>
      (f in r[c] <==> f in (if FromJsonGlob(c) then allJson else allTxt) && InCategoryLocal(c, f))
    ensures forall c :: c in r ==> |r[c]| <= |if FromJsonGlob(c) then allJson else allTxt|
  {
    map c | c in ALL_CATEGORIES ::
      Filter(if FromJsonGlob(c) then allJson else allTxt, f => InCategoryLocal(c, f))
  }

  /**
    Each S3 category is computed path by path, in input order: classifying a
    concatenated listing gives the concatenation of the two classifications.
   */
  lemma FindBacktestFilesS3Append(xs: seq<string>, ys: seq<string>)
    ensures forall c :: c in ALL_CATEGORIES ==>
      FindBacktestFilesS3(xs + ys)[c] == FindBacktestFilesS3(xs)[c] + FindBacktestFilesS3(ys)[c]
  {
    forall c | c in ALL_CATEGORIES
      ensures FindBacktestFilesS3(xs + ys)[c] == FindBacktestFilesS3(xs)[c] + FindBacktestFilesS3(ys)[c]
    {
      FilterAppend(xs, ys, f => InCategoryS3(c, f));
    }
  }

  /** A single path is kept by exactly the categories whose test it passes. */
  lemma FindBacktestFilesS3Single(f: string)
    ensures forall c :: c in ALL_CATEGORIES ==>
      FindBacktestFilesS3([f])[c] == if InCategoryS3(c, f) then [f] else []
  {
    forall c | c in ALL_CATEGORIES
      ensures FindBacktestFilesS3([f])[c] == if InCategoryS3(c, f) then [f] else []
    {
      assert [f][1..] == [];
    }
  }

  /** An empty listing gives all seven categories, each empty. */
  lemma EmptyListingS3()
    ensures FindBacktestFilesS3([]).Keys == ALL_CATEGORIES
    ensures forall c :: c in ALL_CATEGORIES ==> FindBacktestFilesS3([])[c] == []
  {
  }

  /** A path `dir/name` ends with whatever `name` ends with. */
  lemma ChildEndsWith(dir: string, name: string, suffix: string)
    requires EndsWith(name, suffix)
    ensures EndsWith(dir + "/" + name, suffix)
  {
    var p := dir + "/" + name;
    assert p[|p| - |suffix|..] == name[|name| - |suffix|..];
  }

  /**
    The categories overlap: a monitor report whose name ends like a summary
    is in both lists, and not in `main`.
   */
  lemma MonitorReportSummaryOverlap(dir: string, name: string)
    requires '/' !in name
    requires StartsWith(name, "data-monitor-report") && EndsWith(name, "-summary.json")
    ensures var p := dir + "/" + name;
      var r := FindBacktestFilesS3([p]);
      r[Summary] == [p] && r[MonitorReport] == [p] && r[Main] == []
  {
    BasenameOfChild(dir, name);
    ChildEndsWith(dir, name, "-summary.json");
    FindBacktestFilesS3Single(dir + "/" + name);
  }

  /**
    The categories overlap: a failed-requests file whose name ends like a log
    is in both lists.
   */
  lemma FailedRequestsLogOverlap(dir: string, name: string)
    requires '/' !in name
    requires StartsWith(name, "failed-data-requests") && EndsWith(name, "-log.txt")
    ensures var p := dir + "/" + name;
      var r := FindBacktestFilesS3([p]);
      r[Log] == [p] && r[FailedDataRequests] == [p] && r[Main] == []
  {
    var p := dir + "/" + name;
    BasenameOfChild(dir, name);
    ChildEndsWith(dir, name, "-log.txt");
    assert p[|p| - 1] == 't';
    FindBacktestFilesS3Single(p);
  }

  /** The two overlaps, on the file names `data-monitor-report-x-summary.json` and `failed-data-requests-log.txt`. */
  lemma OverlapExamples(dir: string)
    ensures var p := dir + "/" + "data-monitor-report-x-summary.json";
      var r := FindBacktestFilesS3([p]);
      r[Summary] == [p] && r[MonitorReport] == [p] && r[Main] == []
    ensures var p := dir + "/" + "failed-data-requests-log.txt";
      var r := FindBacktestFilesS3([p]);
      r[Log] == [p] && r[FailedDataRequests] == [p] && r[Main] == []
  {
    MonitorReportExampleName();
    FailedRequestsExampleName();
    MonitorReportSummaryOverlap(dir, "data-monitor-report-x-summary.json");
    FailedRequestsLogOverlap(dir, "failed-data-requests-log.txt");
  }

  lemma MonitorReportExampleName()
    ensures var m := "data-monitor-report-x-summary.json";
      '/' !in m && StartsWith(m, "data-monitor-report") && EndsWith(m, "-summary.json")
  {
    var m := "data-monitor-report-x-summary.json";
    assert m[..19] == "data-monitor-report";
    assert m[|m| - 13..] == "-summary.json";
  }

  lemma FailedRequestsExampleName()
    ensures var f := "failed-data-requests-log.txt";
      '/' !in f && StartsWith(f, "failed-data-requests") && EndsWith(f, "-log.txt")
  {
    var f := "failed-data-requests-log.txt";
    assert f[..20] == "failed-data-requests";
    assert f[|f| - 8..] == "-log.txt";
  }

  /**
    Each local category is computed path by path over its glob list, in input
    order: concatenating the glob lists concatenates the categories.
   */
  lemma FindBacktestFilesAppend(json1: seq<string>, txt1: seq<string>, json2: seq<string>, txt2: seq<string>)
    ensures forall c :: c in ALL_CATEGORIES ==>
      FindBacktestFiles(json1 + json2, txt1 + txt2)[c] == FindBacktestFiles(json1, txt1)[c] + FindBacktestFiles(json2, txt2)[c]
  {
    forall c | c in ALL_CATEGORIES
      ensures FindBacktestFiles(json1 + json2, txt1 + txt2)[c] == FindBacktestFiles(json1, txt1)[c] + FindBacktestFiles(json2, txt2)[c]
    {
      if FromJsonGlob(c) {
        FilterAppend(json1, json2, f => InCategoryLocal(c, f));
      } else {
        FilterAppend(txt1, txt2, f => InCategoryLocal(c, f));
      }
    }
  }

  /**
    With at most one path per glob, a category keeps its glob's path exactly
    once when that path passes its test, and holds nothing otherwise.
   */
  lemma FindBacktestFilesSingle(allJson: seq<string>, allTxt: seq<string>)
    requires |allJson| <= 1 && |allTxt| <= 1
    ensures forall c :: c in ALL_CATEGORIES ==>
      var glob := if FromJsonGlob(c) then allJson else allTxt;
      FindBacktestFiles(allJson, allTxt)[c] == if glob != [] && InCategoryLocal(c, glob[0]) then glob else []
  {
    forall c | c in ALL_CATEGORIES
      ensures var glob := if FromJsonGlob(c) then allJson else allTxt;
        FindBacktestFiles(allJson, allTxt)[c] == if glob != [] && InCategoryLocal(c, glob[0]) then glob else []
    {
      var glob := if FromJsonGlob(c) then allJson else allTxt;
      if glob != [] {
        assert glob[1..] == [];
      }
    }
  }

  /**
    Every path of the `*.json` glob lands in `main` or in at least one of
    `summary`, `order_events`, `monitor_report`, and `main` shares no path
    with those three.
   */
  lemma JsonFilesAreCovered(allJson: seq<string>, allTxt: seq<string>)
    ensures var r := FindBacktestFiles(allJson, allTxt);
      && (forall f :: f in allJson <==> f in r[Main] || f in r[Summary] || f in r[OrderEvents] || f in r[MonitorReport])
      && (forall f :: f in r[Main] ==> f !in r[Summary] && f !in r[OrderEvents] && f !in r[MonitorReport])
  {
  }

  /** Two empty glob results give all seven categories, each empty. */
  lemma EmptyFolder()
    ensures FindBacktestFiles([], []).Keys == ALL_CATEGORIES
    ensures forall c :: c in ALL_CATEGORIES ==> FindBacktestFiles([], [])[c] == []
  {
  }
}
