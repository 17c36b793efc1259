/**
  Log compaction: the grouping loop of `parse_log_file_s3`
  (`src/s3_utils.py`) and of `parse_log_file` (`src/utils.py`).

  Each line is split by the pattern
  `^(\d{4}-\d{2}-\d{2} \d{2}:\d{2}:\d{2})\s+(.*)$` into a timestamp (or `""`
  when the line does not match) and an event text.  Consecutive lines with
  equal event text form one run, reported as one entry whose `datetime` is
  `"start ... end"` when the run's first timestamp and its last non-empty
  timestamp are both non-empty and differ, and the first timestamp otherwise.

  The specification is `Compacted`, which cuts the parsed lines into maximal
  runs from the front.  The method `GroupEvents` is the source's loop over
  `last_event`, `last_start` and `last_end`, and is proved to compute it.
  Reading the object or file and splitting it into lines happen before this
  model: the lines are inputs and hold no line feed.
 */
module LogCompactor {
  import opened PyStrings

  /** One `{"datetime": ..., "event": ...}` dictionary of the result. */
  datatype LogEntry = LogEntry(datetime: string, event: string)

  /** The timestamp (`""` if none) and event text of one line. */
  datatype ParsedLine = ParsedLine(dt: string, event: string)

  /** `last_event`, which starts as `None`. */
  datatype Option<T> = None | Some(value: T)

  const TIMESTAMP_LENGTH := 19

  /** `\d`, narrowed to ASCII. */
  predicate IsDigit(c: char) {
    '0' <= c <= '9'
  }

  /**
    What `\d{4}-\d{2}-\d{2} \d{2}:\d{2}:\d{2}` demands of the character at
    position `k` of the timestamp: `-` after the year and the month, a space
    after the day, `:` after the hour and the minute, a digit elsewhere.
   */
  predicate FitsAt(c: char, k: int) {
    if k == 4 || k == 7 then c == '-'
    else if k == 10 then c == ' '
    else if k == 13 || k == 16 then c == ':'
    else IsDigit(c)
  }

  /** Every character of `s` from position `k` on fits its position. */
  predicate FitsFrom(s: string, k: nat)
    requires k <= |s|
    decreases |s| - k
  {
    k == |s| || (FitsAt(s[k], k) && FitsFrom(s, k + 1))
  }

  /** `s` is matched by `\d{4}-\d{2}-\d{2} \d{2}:\d{2}:\d{2}`, as `2024-01-31 09:30:00` is. */
  predicate IsTimestamp(s: string) {
    |s| == TIMESTAMP_LENGTH && FitsFrom(s, 0)
  }

  /** The line matches the pattern: a timestamp, then at least one whitespace character. */
  predicate MatchesLinePattern(line: string) {
    |line| > TIMESTAMP_LENGTH && IsTimestamp(line[..TIMESTAMP_LENGTH]) && IsSpace(line[TIMESTAMP_LENGTH])
  }

  /** The number of whitespace characters `s` starts with (what the greedy `\s+` consumes). */
  function LeadingSpaces(s: string): (n: nat)
    ensures n <= |s|
    ensures forall i :: 0 <= i < n ==> IsSpace(s[i])
    ensures n < |s| ==> !IsSpace(s[n])
  {
    if s != [] && IsSpace(s[0]) then 1 + LeadingSpaces(s[1..]) else 0
  }

  /**
    `re.match` of the line pattern: on a match, the timestamp group and the
    text after the whitespace; otherwise no timestamp and the whole line.
   */
  function ParseLine(line: string): (p: ParsedLine)
    requires '\n' !in line
    ensures p.dt != "" <==> MatchesLinePattern(line)
    ensures p.dt == "" ==> p.event == line
    ensures p.dt != "" ==>
      && IsTimestamp(p.dt)
      && StartsWith(line, p.dt)
      && EndsWith(line, p.event)
      && |p.dt| < |line| - |p.event|
      && (forall i :: |p.dt| <= i < |line| - |p.event| ==> IsSpace(line[i]))
      && (p.event == [] || !IsSpace(p.event[0]))
  {
    if MatchesLinePattern(line) then
      var rest := line[TIMESTAMP_LENGTH..];
      var n := LeadingSpaces(rest);
      assert line[TIMESTAMP_LENGTH + n..] == rest[n..];
      ParsedLine(line[..TIMESTAMP_LENGTH], rest[n..])
    else ParsedLine("", line)
  }

  /** No line holds a line feed (they come from `splitlines` or are right-stripped). */
  predicate SingleLines(lines: seq<string>) {
    forall i :: 0 <= i < |lines| ==> '\n' !in lines[i]
  }

  /** The lines parsed one by one. */
  function ParseLines(lines: seq<string>): (ps: seq<ParsedLine>)
    requires SingleLines(lines)
    ensures |ps| == |lines|
  {
    if lines == [] then [] else [ParseLine(lines[0])] + ParseLines(lines[1..])
  }

  lemma {:induction false} ParseLinesAt(lines: seq<string>, k: nat)
    requires SingleLines(lines)
    requires k < |lines|
    ensures ParseLines(lines)[k] == ParseLine(lines[k])
  {
    if k > 0 {
      ParseLinesAt(lines[1..], k - 1);
    }
  }

  /** The `datetime` of a run from its first timestamp and its last non-empty one. */
  function DatetimeRange(start: string, end: string): string {
    if start != "" && end != "" && start != end then start + " ... " + end else start
  }

  /**
    A run that starts without a timestamp reports none, and the range
    `"start ... end"` appears exactly when the two are present and differ;
    otherwise the run reports its first timestamp.
   */
  lemma DatetimeRangeCases(start: string, end: string)
    ensures var d := DatetimeRange(start, end);
      && (start == "" ==> d == "")
      && (d == start <==> !(start != "" && end != "" && start != end))
      && (d != start ==> d == start + " ... " + end)
  {
  }

  /**
    `last_end` at the end of the run `ps[s..i]`: the last non-empty timestamp
    among those lines, or `""` if they have none.
   */
  function LastStamp(ps: seq<ParsedLine>, s: nat, i: nat): string
    requires s <= i <= |ps|
    decreases i
  {
    if i == s then ""
    else if ps[i - 1].dt != "" then ps[i - 1].dt
    else LastStamp(ps, s, i - 1)
  }

  /** Every line of `ps[s..i]` carries event text `e`. */
  predicate SameEvent(ps: seq<ParsedLine>, s: nat, i: nat, e: string)
    requires s <= i <= |ps|
    decreases i - s
  {
    s == i || (ps[s].event == e && SameEvent(ps, s + 1, i, e))
  }

  /** The end of the run of event text `e` that goes on from line `j`: the first line from `j` on with another event text. */
  function RunEnd(ps: seq<ParsedLine>, j: nat, e: string): (k: nat)
    requires j <= |ps|
    ensures j <= k <= |ps|
    ensures SameEvent(ps, j, k, e)
    ensures k < |ps| ==> ps[k].event != e
    decreases |ps| - j
  {
    if j < |ps| && ps[j].event == e then RunEnd(ps, j + 1, e) else j
  }

  /** The entry the run `ps[s..k]` is reported as. */
  function RunEntry(ps: seq<ParsedLine>, s: nat, k: nat): LogEntry
    requires s < k <= |ps|
  {
    LogEntry(DatetimeRange(ps[s].dt, LastStamp(ps, s, k)), ps[s].event)
  }

  /**
    The compacted log of the lines from `s` on: cut into maximal runs of equal
    event text, one entry per run, in order.
   */
  function CompactedFrom(ps: seq<ParsedLine>, s: nat): seq<LogEntry>
    requires s <= |ps|
    decreases |ps| - s
  {
    if s == |ps| then []
    else
      var k := RunEnd(ps, s + 1, ps[s].event);
      [RunEntry(ps, s, k)] + CompactedFrom(ps, k)
  }

  /**
    What the grouping loop returns for the parsed lines `ps`: at most one entry
    per line, none only for no lines, and the first entry opened by the first line.
   */
  function Compacted(ps: seq<ParsedLine>): (r: seq<LogEntry>)
    ensures |r| <= |ps|
    ensures r == [] <==> ps == []
    ensures r != [] ==> r[0].event == ps[0].event
  {
    CompactedFromShape(ps, 0);
    CompactedFrom(ps, 0)
  }

  /** `lines[:n]` */
  function Take(lines: seq<string>, n: nat): (r: seq<string>)
    ensures |r| == if n < |lines| then n else |lines|
    ensures r == lines[..|r|]
  {
    if n < |lines| then lines[..n] else lines
  }

  /**
    What `parse_log_file_s3` returns for the lines of the object and `n_lines`.
    It looks at the first `n_lines` lines only, and gives one entry or more
    exactly when it has a line to look at.
   */
  function LogSummaryS3(lines: seq<string>, nLines: nat): (r: seq<LogEntry>)
    requires SingleLines(lines)
    ensures |r| <= nLines && |r| <= |lines|
    ensures r == [] <==> nLines == 0 || lines == []
  {
    Compacted(ParseLines(Take(lines, nLines)))
  }

  /** Every line of `f.readlines()` holds a line feed at most as its last character. */
  predicate ReadLines(rawLines: seq<string>) {
    forall i :: 0 <= i < |rawLines| ==> rawLines[i] == [] || '\n' !in rawLines[i][..|rawLines[i]| - 1]
  }

  /** `[line.rstrip() for line in lines]` */
  function StripLines(rawLines: seq<string>): (lines: seq<string>)
    requires ReadLines(rawLines)
    ensures |lines| == |rawLines|
    ensures forall i :: 0 <= i < |lines| ==> lines[i] == RStrip(rawLines[i])
    ensures SingleLines(lines)
  {
    seq(|rawLines|, i requires 0 <= i < |rawLines| => RStripOneLine(rawLines[i]))
  }

  function RStripOneLine(raw: string): (line: string)
    requires raw == [] || '\n' !in raw[..|raw| - 1]
    ensures line == RStrip(raw)
    ensures '\n' !in line
  {
    var line := RStrip(raw);
    assert |line| < |raw| ==> line == raw[..|raw| - 1][..|line|];
    line
  }

  /** What `parse_log_file` returns for the lines of the file and `n_lines`, with the same bounds. */
  function LogSummary(rawLines: seq<string>, nLines: nat): (r: seq<LogEntry>)
    requires ReadLines(rawLines)
    ensures |r| <= nLines && |r| <= |rawLines|
    ensures r == [] <==> nLines == 0 || rawLines == []
  {
    Compacted(ParseLines(StripLines(Take(rawLines, nLines))))
  }

  /** A run ending where the next line changes event text is exactly the run `RunEnd` finds. */
  lemma {:induction false} RunEndIs(ps: seq<ParsedLine>, j: nat, m: nat, e: string)
    requires j <= m <= |ps|
    requires SameEvent(ps, j, m, e)
    requires m < |ps| ==> ps[m].event != e
    ensures RunEnd(ps, j, e) == m
    decreases m - j
  {
    if j < m {
      RunEndIs(ps, j + 1, m, e);
    }
  }

  /** Extending the run `ps[s..i]` by line `i`. */
  lemma {:induction false} SameEventSnoc(ps: seq<ParsedLine>, s: nat, i: nat, e: string)
    requires s <= i < |ps|
    ensures SameEvent(ps, s, i + 1, e) <==> SameEvent(ps, s, i, e) && ps[i].event == e
    decreases i - s
  {
    if s < i {
      SameEventSnoc(ps, s + 1, i, e);
    }
  }

  /**
    Closing the open run `ps[s..i]`, which line `i` (if any) does not continue:
    its entry joins the entries already emitted.
   */
  lemma {:induction false} CloseRun(ps: seq<ParsedLine>, entries: seq<LogEntry>, s: nat, i: nat)
    requires s < i <= |ps|
    requires entries + CompactedFrom(ps, s) == Compacted(ps)
    requires SameEvent(ps, s + 1, i, ps[s].event)
    requires i < |ps| ==> ps[i].event != ps[s].event
    ensures (entries + [RunEntry(ps, s, i)]) + CompactedFrom(ps, i) == Compacted(ps)
    ensures i == |ps| ==> entries + [RunEntry(ps, s, i)] == Compacted(ps)
  {
    var rest := CompactedFrom(ps, i);
    FirstRun(ps, s, i);
    assert (entries + [RunEntry(ps, s, i)]) + rest == entries + ([RunEntry(ps, s, i)] + rest);
    assert i == |ps| ==> rest == [];
  }

  /** The lines from `s` on start with the run `ps[s..i]` when line `i` (if any) does not continue it. */
  lemma {:induction false} FirstRun(ps: seq<ParsedLine>, s: nat, i: nat)
    requires s < i <= |ps|
    requires SameEvent(ps, s + 1, i, ps[s].event)
    requires i < |ps| ==> ps[i].event != ps[s].event
    ensures CompactedFrom(ps, s) == [RunEntry(ps, s, i)] + CompactedFrom(ps, i)
  {
    RunEndIs(ps, s + 1, i, ps[s].event);
  }

  /** The grouping loop of both log parsers, over lines already split and trimmed. */
  method GroupEvents(lines: seq<string>) returns (entries: seq<LogEntry>)
    requires SingleLines(lines)
    ensures entries == Compacted(ParseLines(lines))
  {
    ghost var ps := ParseLines(lines);
    entries := [];
    var lastEvent: Option<string> := None;
    var lastStart, lastEnd := "", "";
    // ps[runStart..i] is the run still open; the entries of the runs before it are in `entries`
    ghost var runStart := 0;
    for i := 0 to |lines|
      invariant 0 <= runStart <= i
      invariant lastEvent.None? ==> i == 0 && runStart == 0 && entries == []
      invariant entries + CompactedFrom(ps, runStart) == Compacted(ps)
      invariant lastEvent.Some? ==>
        && runStart < i
        && lastEvent.value == ps[runStart].event
        && SameEvent(ps, runStart + 1, i, lastEvent.value)
        && lastStart == ps[runStart].dt
        && lastEnd == LastStamp(ps, runStart, i)
    {
      var p := ParseLine(lines[i]);
      assert p == ps[i] by {
        ParseLinesAt(lines, i);
      }
      if Some(p.event) == lastEvent {
        SameEventSnoc(ps, runStart + 1, i, p.event);
        lastEnd := if p.dt != "" then p.dt else lastEnd;
      } else {
        if lastEvent.Some? {
          var entry := LogEntry(DatetimeRange(lastStart, lastEnd), lastEvent.value);
          CloseRun(ps, entries, runStart, i);
          entries := entries + [entry];
          runStart := i;
        }
        lastEvent := Some(p.event);
        lastStart := p.dt;
        lastEnd := p.dt;
      }
    }
    if lastEvent.Some? {
      var entry := LogEntry(DatetimeRange(lastStart, lastEnd), lastEvent.value);
      CloseRun(ps, entries, runStart, |ps|);
      entries := entries + [entry];
    }
  }

  /** `parse_log_file_s3`, from the lines of the object on. */
  method ParseLogFileS3(lines: seq<string>, nLines: nat) returns (entries: seq<LogEntry>)
    requires SingleLines(lines)
    ensures entries == LogSummaryS3(lines, nLines)
  {
    entries := GroupEvents(Take(lines, nLines));
  }

  /** `parse_log_file`, from the lines `readlines` gives on. */
  method ParseLogFile(rawLines: seq<string>, nLines: nat) returns (entries: seq<LogEntry>)
    requires ReadLines(rawLines)
    ensures entries == LogSummary(rawLines, nLines)
  {
    var lines := StripLines(Take(rawLines, nLines));
    entries := GroupEvents(lines);
  }

  // Properties of the compacted log.

  /** Each run yields one entry: there are at most as many entries as lines, and none only for no lines. */
  lemma {:induction false} CompactedFromShape(ps: seq<ParsedLine>, s: nat)
    requires s <= |ps|
    ensures var r := CompactedFrom(ps, s);
      && |r| <= |ps| - s
      && (r == [] <==> s == |ps|)
      && (r != [] ==> r[0].event == ps[s].event)
    decreases |ps| - s
  {
    if s < |ps| {
      CompactedFromShape(ps, RunEnd(ps, s + 1, ps[s].event));
    }
  }

  lemma {:induction false} SameEventAll(ps: seq<ParsedLine>, s: nat, i: nat, e: string)
    requires s <= i <= |ps|
    requires SameEvent(ps, s, i, e)
    ensures forall j :: s <= j < i ==> ps[j].event == e
    decreases i - s
  {
    if s < i {
      SameEventAll(ps, s + 1, i, e);
    }
  }

  /** No two adjacent entries carry the same event text. */
  lemma {:induction false} CompactedFromNoAdjacentRepeats(ps: seq<ParsedLine>, s: nat)
    requires s <= |ps|
    ensures var r := CompactedFrom(ps, s);
      forall n :: 0 <= n < |r| - 1 ==> r[n].event != r[n + 1].event
    decreases |ps| - s
  {
    if s < |ps| {
      var k := RunEnd(ps, s + 1, ps[s].event);
      var rest := CompactedFrom(ps, k);
      CompactedFromNoAdjacentRepeats(ps, k);
      CompactedFromShape(ps, k);
      var r := CompactedFrom(ps, s);
      assert r == [RunEntry(ps, s, k)] + rest;
      forall n | 0 <= n < |r| - 1
        ensures r[n].event != r[n + 1].event
      {
        if n == 0 {
          assert r[1] == rest[0];
        } else {
          assert r[n] == rest[n - 1] && r[n + 1] == rest[n];
        }
      }
    }
  }

  lemma CompactedNoAdjacentRepeats(ps: seq<ParsedLine>)
    ensures var r := Compacted(ps);
      forall n :: 0 <= n < |r| - 1 ==> r[n].event != r[n + 1].event
  {
    CompactedFromNoAdjacentRepeats(ps, 0);
    assert Compacted(ps) == CompactedFrom(ps, 0);
  }

  /** The event texts of the lines, in order. */
  function LineEvents(ps: seq<ParsedLine>): (es: seq<string>)
    ensures |es| == |ps|
    ensures forall j :: 0 <= j < |ps| ==> es[j] == ps[j].event
  {
    seq(|ps|, j requires 0 <= j < |ps| => ps[j].event)
  }

  /** The `event` column of a list of entries. */
  function EventColumn(entries: seq<LogEntry>): seq<string> {
    if entries == [] then [] else [entries[0].event] + EventColumn(entries[1..])
  }

  /** `xs` with every run of consecutive equal elements replaced by one element. */
  function Destutter(xs: seq<string>): seq<string> {
    if |xs| <= 1 then xs
    else if xs[0] == xs[1] then Destutter(xs[1..])
    else [xs[0]] + Destutter(xs[1..])
  }

  /** A leading run of `m` copies of `e` that `xs[m]` (if any) does not continue destutters to one `e`. */
  lemma {:induction false} DestutterRun(xs: seq<string>, m: nat, e: string)
    requires 1 <= m <= |xs|
    requires forall j :: 0 <= j < m ==> xs[j] == e
    requires m < |xs| ==> xs[m] != e
    ensures Destutter(xs) == [e] + Destutter(xs[m..])
  {
    if m == 1 {
      if |xs| == 1 {
        assert xs[1..] == [];
      }
    } else {
      DestutterRun(xs[1..], m - 1, e);
      assert xs[1..][m - 1..] == xs[m..];
    }
  }

  lemma {:induction false} EventColumnFrom(ps: seq<ParsedLine>, s: nat)
    requires s <= |ps|
    ensures EventColumn(CompactedFrom(ps, s)) == Destutter(LineEvents(ps)[s..])
    decreases |ps| - s
  {
    var es := LineEvents(ps);
    if s == |ps| {
      assert es[s..] == [];
    } else {
      var e := ps[s].event;
      var k := RunEnd(ps, s + 1, e);
      var rest := CompactedFrom(ps, k);
      EventColumnFrom(ps, k);
      SameEventAll(ps, s + 1, k, e);
      DestutterRun(es[s..], k - s, e);
      assert es[s..][k - s..] == es[k..];
      assert ([RunEntry(ps, s, k)] + rest)[1..] == rest;
    }
  }

  /**
    The `event` column of the compacted log is the event texts of the lines
    with consecutive repeats collapsed: grouping is by adjacency only.
   */
  lemma EventColumnIsDestutter(ps: seq<ParsedLine>)
    ensures EventColumn(Compacted(ps)) == Destutter(LineEvents(ps))
  {
    EventColumnFrom(ps, 0);
    assert LineEvents(ps)[0..] == LineEvents(ps);
  }

  /**
    `last_end` is the timestamp of the last line of the run that has one:
    lines without a timestamp never erase it.
   */
  lemma {:induction false} LastStampIsLastNonEmpty(ps: seq<ParsedLine>, s: nat, i: nat)
    requires s <= i <= |ps|
    ensures var t := LastStamp(ps, s, i);
      && (t == "" <==> forall j :: s <= j < i ==> ps[j].dt == "")
      && (t != "" ==> exists j :: s <= j < i && ps[j].dt == t && forall j' :: j < j' < i ==> ps[j'].dt == "")
    decreases i
  {
    if s < i {
      var t := LastStamp(ps, s, i);
      if ps[i - 1].dt == "" {
        LastStampIsLastNonEmpty(ps, s, i - 1);
        assert t == LastStamp(ps, s, i - 1);
        if t != "" {
          var j :| s <= j < i - 1 && ps[j].dt == t && forall j' :: j < j' < i - 1 ==> ps[j'].dt == "";
          assert forall j' :: j < j' < i ==> ps[j'].dt == "";
        }
      } else {
        assert t == ps[i - 1].dt != "";
        assert s <= i - 1 < i && ps[i - 1].dt == t;
      }
    }
  }

  /**
    The `datetime` of a run's entry: empty when the run's first line has no
    timestamp (even if later lines have one); the first timestamp when every
    timestamp of the run equals it; and `"first ... last"` when the first
    timestamp and the run's last timestamp are both present and differ.
   */
  lemma RunEntryDatetime(ps: seq<ParsedLine>, s: nat, k: nat)
    requires s < k <= |ps|
    ensures var d := RunEntry(ps, s, k).datetime;
      && (ps[s].dt == "" ==> d == "")
      && ((forall j :: s <= j < k && ps[j].dt != "" ==> ps[j].dt == ps[s].dt) ==> d == ps[s].dt)
      && (d == ps[s].dt ||
          exists j :: s < j < k && ps[j].dt != "" && ps[j].dt != ps[s].dt
            && d == ps[s].dt + " ... " + ps[j].dt
            && forall j' :: j < j' < k ==> ps[j'].dt == "")
      && (forall j ::
            (s < j < k && ps[s].dt != "" && ps[j].dt != "" && ps[j].dt != ps[s].dt
             && (forall j' :: j < j' < k ==> ps[j'].dt == ""))
            ==> d == ps[s].dt + " ... " + ps[j].dt)
  {
    LastStampIsLastNonEmpty(ps, s, k);
    forall j | s < j < k && ps[j].dt != "" && (forall j' :: j < j' < k ==> ps[j'].dt == "")
      ensures LastStamp(ps, s, k) == ps[j].dt
    {
      LastAt(ps, s, j, k);
    }
  }

  /** The last line of `ps[s..i]` with a timestamp gives `last_end`. */
  lemma {:induction false} LastAt(ps: seq<ParsedLine>, s: nat, j: nat, i: nat)
    requires s <= j < i <= |ps|
    requires ps[j].dt != ""
    requires forall j' :: j < j' < i ==> ps[j'].dt == ""
    ensures LastStamp(ps, s, i) == ps[j].dt
    decreases i
  {
    if j < i - 1 {
      LastAt(ps, s, j, i - 1);
    }
  }

  /**
    The first line always opens an entry, whatever its event text (even
    `""`): `last_event` starts as `None`, which equals no string.
   */
  lemma FirstLineOpensEntry(lines: seq<string>, nLines: nat)
    requires SingleLines(lines) && nLines > 0 && lines != []
    ensures var r := LogSummaryS3(lines, nLines);
      r != [] && r[0].event == ParseLine(lines[0]).event
  {
    var taken := Take(lines, nLines);
    CompactedFromShape(ParseLines(taken), 0);
    ParseLinesAt(taken, 0);
  }

  /** `parse_log_file` is `parse_log_file_s3` applied to the right-stripped lines. */
  lemma LogSummaryIsS3OfStripped(rawLines: seq<string>, nLines: nat)
    requires ReadLines(rawLines)
    ensures LogSummary(rawLines, nLines) == LogSummaryS3(StripLines(rawLines), nLines)
  {
    assert StripLines(Take(rawLines, nLines)) == Take(StripLines(rawLines), nLines);
  }

  // The line pattern, and worked examples.

  /** A line matches exactly when it starts with a timestamp whose following `\s+` consumes at least one character. */
  lemma MatchesLinePatternIff(line: string)
    ensures MatchesLinePattern(line) <==>
      |line| > TIMESTAMP_LENGTH && IsTimestamp(line[..TIMESTAMP_LENGTH]) && LeadingSpaces(line[TIMESTAMP_LENGTH..]) > 0
  {
  }

  lemma {:induction false} LeadingSpacesOf(ws: string, ev: string)
    requires forall j :: 0 <= j < |ws| ==> IsSpace(ws[j])
    requires ev == [] || !IsSpace(ev[0])
    ensures LeadingSpaces(ws + ev) == |ws|
  {
    assert forall j :: 0 <= j < |ws| ==> (ws + ev)[j] == ws[j];
    assert |ws| < |ws + ev| ==> (ws + ev)[|ws|] == ev[0];
  }

  /**
    A line written as a timestamp, some whitespace and an event text that does
    not start with whitespace is parsed back into that timestamp and text.
   */
  lemma ParseFormattedLine(ts: string, ws: string, ev: string)
    requires IsTimestamp(ts)
    requires ws != [] && forall j :: 0 <= j < |ws| ==> IsSpace(ws[j]) && ws[j] != '\n'
    requires '\n' !in ev && (ev == [] || !IsSpace(ev[0]))
    ensures '\n' !in ts + ws + ev
    ensures ParseLine(ts + ws + ev) == ParsedLine(ts, ev)
  {
    var line := ts + ws + ev;
    assert line[..TIMESTAMP_LENGTH] == ts;
    assert line[TIMESTAMP_LENGTH] == ws[0];
    assert line[TIMESTAMP_LENGTH..] == ws + ev;
    LeadingSpacesOf(ws, ev);
    assert (ws + ev)[|ws|..] == ev;
    assert '\n' !in ts by {
      FitsFromNoLineFeed(ts, 0);
    }
  }

  lemma {:induction false} FitsFromNoLineFeed(s: string, k: nat)
    requires k <= |s| && FitsFrom(s, k)
    ensures forall j :: k <= j < |s| ==> s[j] != '\n'
    decreases |s| - k
  {
    if k < |s| {
      FitsFromNoLineFeed(s, k + 1);
    }
  }

  /** Three parsed lines make the list `ParseLines` returns for three lines that parse to them. */
  lemma {:induction false} ParseThreeLines(lines: seq<string>, ps: seq<ParsedLine>)
    requires |lines| == 3 && |ps| == 3 && SingleLines(lines)
    requires ParseLine(lines[0]) == ps[0] && ParseLine(lines[1]) == ps[1] && ParseLine(lines[2]) == ps[2]
    ensures LogSummaryS3(lines, 3) == Compacted(ps)
  {
    assert Take(lines, 3) == lines;
    ParseLinesAt(lines, 0);
    ParseLinesAt(lines, 1);
    ParseLinesAt(lines, 2);
    assert ParseLines(lines) == ps;
  }

  /**
    Two timestamped lines with the same event text and different timestamps
    merge into one entry `"first ... last"`; the next line, with other event
    text, opens a new entry that keeps its own timestamp.
   */
  lemma {:induction false} ConsecutiveLinesMerge(t0: string, t1: string, t2: string, a: string, b: string)
    requires IsTimestamp(t0) && IsTimestamp(t1) && IsTimestamp(t2) && t0 != t1
    requires a != b && '\n' !in a && '\n' !in b
    requires (a == [] || !IsSpace(a[0])) && (b == [] || !IsSpace(b[0]))
    ensures var lines := [t0 + " " + a, t1 + " " + a, t2 + " " + b];
      && SingleLines(lines)
      && LogSummaryS3(lines, 3) == [LogEntry(t0 + " ... " + t1, a), LogEntry(t2, b)]
  {
    ParseFormattedLine(t0, " ", a);
    ParseFormattedLine(t1, " ", a);
    ParseFormattedLine(t2, " ", b);
    var ps := [ParsedLine(t0, a), ParsedLine(t1, a), ParsedLine(t2, b)];
    ParseThreeLines([t0 + " " + a, t1 + " " + a, t2 + " " + b], ps);
    FirstRun(ps, 0, 2);
    FirstRun(ps, 2, 3);
  }

  /** A text of the form `dddd-dd-dd dd:dd:dd`, written position by position, is a timestamp. */
  lemma TimestampByPosition(s: string)
    requires |s| == TIMESTAMP_LENGTH
    requires IsDigit(s[0]) && IsDigit(s[1]) && IsDigit(s[2]) && IsDigit(s[3]) && s[4] == '-'
    requires IsDigit(s[5]) && IsDigit(s[6]) && s[7] == '-' && IsDigit(s[8]) && IsDigit(s[9]) && s[10] == ' '
    requires IsDigit(s[11]) && IsDigit(s[12]) && s[13] == ':' && IsDigit(s[14]) && IsDigit(s[15]) && s[16] == ':'
    requires IsDigit(s[17]) && IsDigit(s[18])
    ensures IsTimestamp(s)
  {
    assert FitsFrom(s, 19);
    assert FitsFrom(s, 18);
    assert FitsFrom(s, 17);
    assert FitsFrom(s, 16);
    assert FitsFrom(s, 15);
    assert FitsFrom(s, 14);
    assert FitsFrom(s, 13);
    assert FitsFrom(s, 12);
    assert FitsFrom(s, 11);
    assert FitsFrom(s, 10);
    assert FitsFrom(s, 9);
    assert FitsFrom(s, 8);
    assert FitsFrom(s, 7);
    assert FitsFrom(s, 6);
    assert FitsFrom(s, 5);
    assert FitsFrom(s, 4);
    assert FitsFrom(s, 3);
    assert FitsFrom(s, 2);
    assert FitsFrom(s, 1);
    assert FitsFrom(s, 0);
  }

  /** The timestamps of the worked example are well formed and distinct. */
  lemma {:induction false} ExampleTimestamps()
    ensures IsTimestamp("2024-01-01 00:00:00")
    ensures IsTimestamp("2024-01-01 00:00:01")
    ensures IsTimestamp("2024-01-01 00:00:05")
    ensures "2024-01-01 00:00:00" != "2024-01-01 00:00:01"
  {
    TimestampByPosition("2024-01-01 00:00:00");
    TimestampByPosition("2024-01-01 00:00:01");
    TimestampByPosition("2024-01-01 00:00:05");
    assert "2024-01-01 00:00:00"[18] != "2024-01-01 00:00:01"[18];
  }

  /** The worked example: two `A` lines merge into a range, the `B` line keeps its own timestamp. */
  lemma ConsecutiveMergeExample()
    ensures var lines := ["2024-01-01 00:00:00 A", "2024-01-01 00:00:01 A", "2024-01-01 00:00:05 B"];
      && SingleLines(lines)
      && LogSummaryS3(lines, 3) == [
        LogEntry("2024-01-01 00:00:00 ... 2024-01-01 00:00:01", "A"),
        LogEntry("2024-01-01 00:00:05", "B")]
  {
    var t0, t1, t5 := "2024-01-01 00:00:00", "2024-01-01 00:00:01", "2024-01-01 00:00:05";
    ExampleTimestamps();
    ConsecutiveLinesMerge(t0, t1, t5, "A", "B");
    ExampleTexts();
  }

  /**
    The lines and the range of the worked example, spelled out. Kept apart
    from `ConsecutiveMergeExample`, whose other facts make these literal
    comparisons expensive.
   */
  lemma ExampleTexts()
    ensures "2024-01-01 00:00:00" + " " + "A" == "2024-01-01 00:00:00 A"
    ensures "2024-01-01 00:00:01" + " " + "A" == "2024-01-01 00:00:01 A"
    ensures "2024-01-01 00:00:05" + " " + "B" == "2024-01-01 00:00:05 B"
    ensures "2024-01-01 00:00:00" + " ... " + "2024-01-01 00:00:01" == "2024-01-01 00:00:00 ... 2024-01-01 00:00:01"
  {
  }

  /**
    Lines without a timestamp are never merged across a different line: the
    events `A`, `B`, `A` give three entries with an empty `datetime`.
   */
  lemma {:induction false} NonAdjacentRepeatsStaySeparate(a: string, b: string)
    requires a != b && '\n' !in a && '\n' !in b
    requires !MatchesLinePattern(a) && !MatchesLinePattern(b)
    ensures SingleLines([a, b, a])
    ensures LogSummaryS3([a, b, a], 3) == [LogEntry("", a), LogEntry("", b), LogEntry("", a)]
  {
    var ps := [ParsedLine("", a), ParsedLine("", b), ParsedLine("", a)];
    ParseThreeLines([a, b, a], ps);
    FirstRun(ps, 0, 1);
    FirstRun(ps, 1, 2);
    FirstRun(ps, 2, 3);
  }

  /**
    A run that starts on a line without a timestamp reports `""` as its
    `datetime`, even when a later line of the run has a timestamp.
   */
  lemma {:induction false} UntimedStartHidesLaterStamp(a: string, t: string)
    requires '\n' !in a && !MatchesLinePattern(a) && (a == [] || !IsSpace(a[0]))
    requires IsTimestamp(t)
    ensures SingleLines([a, t + " " + a])
    ensures LogSummaryS3([a, t + " " + a], 2) == [LogEntry("", a)]
  {
    ParseFormattedLine(t, " ", a);
    var lines := [a, t + " " + a];
    var ps := [ParsedLine("", a), ParsedLine(t, a)];
    assert Take(lines, 2) == lines;
    assert lines[1..][1..] == [];
    ParseLinesAt(lines, 0);
    ParseLinesAt(lines, 1);
    assert ParseLines(lines) == ps;
    FirstRun(ps, 0, 2);
  }

  /** A line without a timestamp is reported whole, with an empty `datetime`. */
  lemma {:induction false} PlainLineKeptWhole(line: string)
    requires '\n' !in line && !MatchesLinePattern(line)
    ensures SingleLines([line])
    ensures LogSummaryS3([line], 1) == [LogEntry("", line)]
  {
    var ps := [ParsedLine("", line)];
    assert Take([line], 1) == [line];
    ParseLinesAt([line], 0);
    assert ParseLines([line]) == ps;
    FirstRun(ps, 0, 1);
  }

  /** `parse_log_file` reports a line without a timestamp right-stripped, with an empty `datetime`. */
  lemma {:induction false} PlainRawLineStripped(raw: string)
    requires raw == [] || '\n' !in raw[..|raw| - 1]
    requires !MatchesLinePattern(RStrip(raw))
    ensures ReadLines([raw])
    ensures LogSummary([raw], 1) == [LogEntry("", RStrip(raw))]
  {
    LogSummaryIsS3OfStripped([raw], 1);
    assert StripLines([raw]) == [RStripOneLine(raw)];
    PlainLineKeptWhole(RStripOneLine(raw));
  }

  /**
    The sole line `plain message` is reported whole by both parsers, and an
    empty first line still opens an entry of its own.
   */
  lemma PlainMessageExample()
    ensures LogSummaryS3(["plain message"], 1) == [LogEntry("", "plain message")]
    ensures ReadLines(["plain message"]) && LogSummary(["plain message"], 1) == [LogEntry("", "plain message")]
    ensures LogSummaryS3([""], 1) == [LogEntry("", "")]
  {
    PlainLineKeptWhole("plain message");
    PlainRawLineStripped("plain message");
    PlainLineKeptWhole("");
  }
}
