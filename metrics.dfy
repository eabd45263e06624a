/**
 * The metrics extractor: it folds the decoded events of each agent session into counters,
 * groups the sessions by day, keeps the latest finished cron runs with readable job names,
 * and lays the daily counters out over a fixed 30-day window ending yesterday.
 *
 * File reading and JSON decoding are outside the model: a session file is a sequence of
 * already classified lines, and so is a cron file. The clock and the time zone are
 * parameters: `today` is a day number, `toDate` stands for the conversion of a session
 * timestamp to its `%Y-%m-%d` date, and `toLocal` for the conversion of a cron timestamp
 * in milliseconds to its two local-time strings.
 */
module Metrics {
  import opened Wrappers
  import opened Text
  import opened Order
  import opened Calendar

  // ---- One session file ----

  /** The `usage` record of a message; `input` and `output` are 0 when absent. */
  datatype Usage = Usage(input: int, output: int)

  /**
   * A decoded session event. `kind` is its `type` field. `timestamp` is None when the key is
   * absent and Some(None) when it holds null. `usage` is None when the event has no message,
   * the message has no usage, or the usage is empty.
   */
  datatype Event = Event(kind: Option<string>, timestamp: Option<Option<string>>, usage: Option<Usage>)

  /**
   * A line of a session file: one that is skipped (blank, or not JSON), a decoded event, or
   * one on which reading raises (a JSON value that is not an object, a usage that is not a
   * record of numbers), which abandons the whole file.
   */
  datatype Line = Skipped | Decoded(event: Event) | Broken

  /** What one session file contributes; the cost is not modelled. */
  datatype Session = Session(date: string, inputTokens: int, outputTokens: int, totalTokens: int, messages: int)

  /** A message event with a non-empty usage: the only kind of line that is counted. */
  predicate Counted(l: Line) {
    l.Decoded? && l.event.kind == Some("message") && l.event.usage.Some?
  }

  /** A session event carrying a `timestamp` key: it sets the session timestamp, to null too. */
  predicate Stamps(l: Line) {
    l.Decoded? && l.event.kind == Some("session") && l.event.timestamp.Some?
  }

  function InputOf(l: Line): int {
    if Counted(l) then l.event.usage.value.input else 0
  }

  function OutputOf(l: Line): int {
    if Counted(l) then l.event.usage.value.output else 0
  }

  /** The counters after the loop has read `lines`, one function per counter. */
  function InputTotal(lines: seq<Line>): int
    decreases |lines|
  {
    if lines == [] then 0 else InputTotal(lines[..|lines| - 1]) + InputOf(lines[|lines| - 1])
  }

  function OutputTotal(lines: seq<Line>): int
    decreases |lines|
  {
    if lines == [] then 0 else OutputTotal(lines[..|lines| - 1]) + OutputOf(lines[|lines| - 1])
  }

  function MessageCount(lines: seq<Line>): nat
    decreases |lines|
  {
    if lines == [] then 0 else MessageCount(lines[..|lines| - 1]) + (if Counted(lines[|lines| - 1]) then 1 else 0)
  }

  /** The session timestamp after the loop has read `lines`. */
  function LastStamp(lines: seq<Line>): Option<string>
    decreases |lines|
  {
    if lines == [] then None
    else if Stamps(lines[|lines| - 1]) then lines[|lines| - 1].event.timestamp.value
    else LastStamp(lines[..|lines| - 1])
  }

  /** `parse_session_file` on a file whose lines are `lines`. */
  function SessionOf(lines: seq<Line>, toDate: string -> Option<string>): (r: Option<Session>)
    ensures r.Some? ==> r.value.totalTokens == r.value.inputTokens + r.value.outputTokens
    ensures r.Some? ==> r.value.messages <= |lines|
  {
    MessageCountBound(lines);
    if Line.Broken in lines then None
    else match LastStamp(lines)
      case None => None
      case Some(ts) =>
        match toDate(ts)
        case None => None
        case Some(date) =>
          var input, output := InputTotal(lines), OutputTotal(lines);
          Some(Session(date, input, output, input + output, MessageCount(lines)))
  }

  lemma {:induction false} MessageCountBound(lines: seq<Line>)
    ensures MessageCount(lines) <= |lines|
    decreases |lines|
  {
    if lines != [] {
      MessageCountBound(lines[..|lines| - 1]);
    }
  }

  /** The indices of the counted lines. */
  function CountedAt(lines: seq<Line>): set<int> {
    set i | 0 <= i < |lines| && Counted(lines[i])
  }

  /** `messages` is the number of message events with a non-empty usage, and nothing else. */
  lemma {:induction false} MessageCountIsCount(lines: seq<Line>)
    ensures MessageCount(lines) == |CountedAt(lines)|
    decreases |lines|
  {
    if lines != [] {
      var init := lines[..|lines| - 1];
      MessageCountIsCount(init);
      var last := |lines| - 1;
      assert CountedAt(lines) == CountedAt(init) + (if Counted(lines[last]) then {last} else {}) by {
        forall i | 0 <= i < last ensures lines[i] == init[i] {}
      }
      assert last !in CountedAt(init);
    } else {
      assert CountedAt(lines) == {};
    }
  }

  /** Without a session event carrying a timestamp, there is no session timestamp. */
  lemma {:induction false} LastStampNone(lines: seq<Line>)
    requires forall i :: 0 <= i < |lines| ==> !Stamps(lines[i])
    ensures LastStamp(lines) == None
    decreases |lines|
  {
    if lines != [] {
      var init := lines[..|lines| - 1];
      assert forall i :: 0 <= i < |init| ==> init[i] == lines[i];
      LastStampNone(init);
    }
  }

  /** Otherwise the last such event decides: its timestamp, or None when that one is null. */
  lemma {:induction false} LastStampAt(lines: seq<Line>, i: int)
    requires 0 <= i < |lines| && Stamps(lines[i])
    requires forall j :: i < j < |lines| ==> !Stamps(lines[j])
    ensures LastStamp(lines) == lines[i].event.timestamp.value
    decreases |lines|
  {
    if i < |lines| - 1 {
      var init := lines[..|lines| - 1];
      assert forall j :: 0 <= j < |init| ==> init[j] == lines[j];
      LastStampAt(init, i);
    }
  }

  /** The counters add up over consecutive stretches of a file. */
  lemma {:induction false} TotalsAppend(a: seq<Line>, b: seq<Line>)
    ensures InputTotal(a + b) == InputTotal(a) + InputTotal(b)
    ensures OutputTotal(a + b) == OutputTotal(a) + OutputTotal(b)
    ensures MessageCount(a + b) == MessageCount(a) + MessageCount(b)
    decreases |b|
  {
    if b == [] {
      assert a + b == a;
    } else {
      var b' := b[..|b| - 1];
      assert (a + b)[..|a + b| - 1] == a + b';
      assert (a + b)[|a + b| - 1] == b[|b| - 1];
      TotalsAppend(a, b');
    }
  }

  /** `parse_session_file`: one pass over the lines, giving up on the first line that raises. */
  method ParseSession(lines: seq<Line>, toDate: string -> Option<string>) returns (r: Option<Session>)
    ensures r == SessionOf(lines, toDate)
  {
    var totalInput, totalOutput, messageCount := 0, 0, 0;
    var stamp: Option<string> := None;
    var i := 0;
    while i < |lines|
      invariant 0 <= i <= |lines|
      invariant Line.Broken !in lines[..i]
      invariant totalInput == InputTotal(lines[..i])
      invariant totalOutput == OutputTotal(lines[..i])
      invariant messageCount == MessageCount(lines[..i])
      invariant stamp == LastStamp(lines[..i])
    {
      var line := lines[i];
      assert lines[..i + 1][..i] == lines[..i];
      assert lines[..i + 1][i] == line;
      if line.Broken? {
        assert line in lines;
        return None;
      }
      if line.Decoded? {
        var event := line.event;
        if event.kind == Some("session") && event.timestamp.Some? {
          stamp := event.timestamp.value;
        }
        if event.kind == Some("message") && event.usage.Some? {
          totalInput := totalInput + event.usage.value.input;
          totalOutput := totalOutput + event.usage.value.output;
          messageCount := messageCount + 1;
        }
      }
      i := i + 1;
    }
    assert lines[..i] == lines;
    if stamp.None? {
      return None;
    }
    var date := toDate(stamp.value);
    if date.None? {
      return None;
    }
    r := Some(Session(date.value, totalInput, totalOutput, totalInput + totalOutput, messageCount));
  }

  // ---- Grouping by day ----

  /** The counters of one day. */
  datatype DayTotals = DayTotals(sessions: int, inputTokens: int, outputTokens: int, totalTokens: int, messages: int)

  /** The counters of a day without sessions. */
  const NoActivity := DayTotals(0, 0, 0, 0, 0)

  /** A day's counters after one more session. */
  function Add(t: DayTotals, s: Session): DayTotals {
    DayTotals(t.sessions + 1, t.inputTokens + s.inputTokens, t.outputTokens + s.outputTokens,
              t.totalTokens + s.totalTokens, t.messages + s.messages)
  }

  function Plus(a: DayTotals, b: DayTotals): DayTotals {
    DayTotals(a.sessions + b.sessions, a.inputTokens + b.inputTokens, a.outputTokens + b.outputTokens,
              a.totalTokens + b.totalTokens, a.messages + b.messages)
  }

  /** The dates of the sessions that are present. */
  function Dates(ss: seq<Option<Session>>): set<string> {
    set i | 0 <= i < |ss| && ss[i].Some? :: ss[i].value.date
  }

  /** The counters of day `d`: the sessions present with that date, summed. */
  function DayTotal(ss: seq<Option<Session>>, d: string): DayTotals
    decreases |ss|
  {
    if ss == [] then NoActivity
    else
      var t := DayTotal(ss[..|ss| - 1], d);
      var s := ss[|ss| - 1];
      if s.Some? && s.value.date == d then Add(t, s.value) else t
  }

  /** All sessions present, summed regardless of their date. */
  function Grand(ss: seq<Option<Session>>): DayTotals
    decreases |ss|
  {
    if ss == [] then NoActivity
    else
      var s := ss[|ss| - 1];
      if s.Some? then Add(Grand(ss[..|ss| - 1]), s.value) else Grand(ss[..|ss| - 1])
  }

  lemma DatesSnoc(ss: seq<Option<Session>>, x: Option<Session>)
    ensures Dates(ss + [x]) == Dates(ss) + (if x.Some? then {x.value.date} else {})
  {
    var t := ss + [x];
    forall d | d in Dates(t) ensures d in Dates(ss) + (if x.Some? then {x.value.date} else {}) {
      var i :| 0 <= i < |t| && t[i].Some? && t[i].value.date == d;
      if i < |ss| {
        assert t[i] == ss[i];
      }
    }
    forall d | d in Dates(ss) ensures d in Dates(t) {
      var i :| 0 <= i < |ss| && ss[i].Some? && ss[i].value.date == d;
      assert t[i] == ss[i];
    }
    if x.Some? {
      assert t[|ss|] == x;
    }
  }

  /** A date without sessions has all-zero counters. */
  lemma {:induction false} DayTotalOutside(ss: seq<Option<Session>>, d: string)
    requires d !in Dates(ss)
    ensures DayTotal(ss, d) == NoActivity
    decreases |ss|
  {
    if ss != [] {
      var init := ss[..|ss| - 1];
      assert ss == init + [ss[|ss| - 1]];
      DatesSnoc(init, ss[|ss| - 1]);
      DayTotalOutside(init, d);
    }
  }

  /** The sessions present with date `d`, by position. */
  function SessionsOn(ss: seq<Option<Session>>, d: string): set<int> {
    set i | 0 <= i < |ss| && ss[i].Some? && ss[i].value.date == d
  }

  lemma SessionsOnSnoc(ss: seq<Option<Session>>, x: Option<Session>, d: string)
    ensures SessionsOn(ss + [x], d)
         == SessionsOn(ss, d) + (if x.Some? && x.value.date == d then {|ss|} else {})
    ensures |ss| !in SessionsOn(ss, d)
  {
    var t := ss + [x];
    assert forall i :: 0 <= i < |ss| ==> t[i] == ss[i];
    assert t[|ss|] == x;
  }

  /** A day's `sessions` counter is the number of sessions present with that date. */
  lemma {:induction false} DaySessionsCount(ss: seq<Option<Session>>, d: string)
    ensures DayTotal(ss, d).sessions == |SessionsOn(ss, d)|
    decreases |ss|
  {
    if ss != [] {
      var init := ss[..|ss| - 1];
      var x := ss[|ss| - 1];
      assert ss == init + [x];
      DaySessionsCount(init, d);
      SessionsOnSnoc(init, x, d);
    } else {
      assert SessionsOn(ss, d) == {};
    }
  }

  /** `aggregate_by_day`: one map update per session present, skipping the absent ones. */
  method AggregateByDay(ss: seq<Option<Session>>) returns (daily: map<string, DayTotals>)
    ensures daily.Keys == Dates(ss)
    ensures forall d :: d in daily ==> daily[d] == DayTotal(ss, d)
  {
    daily := map[];
    var i := 0;
    while i < |ss|
      invariant 0 <= i <= |ss|
      invariant daily.Keys == Dates(ss[..i])
      invariant forall d :: d in daily ==> daily[d] == DayTotal(ss[..i], d)
    {
      var session := ss[i];
      assert ss[..i + 1] == ss[..i] + [session];
      assert ss[..i + 1][..i] == ss[..i];
      DatesSnoc(ss[..i], session);
      if session.Some? {
        var date := session.value.date;
        var current := if date in daily then daily[date] else NoActivity;
        if date !in daily {
          DayTotalOutside(ss[..i], date);
        }
        daily := daily[date := Add(current, session.value)];
      }
      i := i + 1;
    }
    assert ss[..i] == ss;
  }

  /** No date twice. */
  predicate NoDuplicates(ds: seq<string>) {
    forall i, j :: 0 <= i < j < |ds| ==> ds[i] != ds[j]
  }

  /** The counters of the days `ds`, summed. */
  function SumDays(ss: seq<Option<Session>>, ds: seq<string>): DayTotals
    decreases |ds|
  {
    if ds == [] then NoActivity else Plus(DayTotal(ss, ds[0]), SumDays(ss, ds[1..]))
  }

  lemma {:induction false} SumDaysSame(a: seq<Option<Session>>, b: seq<Option<Session>>, ds: seq<string>)
    requires forall k :: 0 <= k < |ds| ==> DayTotal(a, ds[k]) == DayTotal(b, ds[k])
    ensures SumDays(a, ds) == SumDays(b, ds)
    decreases |ds|
  {
    if ds != [] {
      assert DayTotal(a, ds[0]) == DayTotal(b, ds[0]);
      SumDaysSame(a, b, ds[1..]);
    }
  }

  lemma {:induction false} SumDaysStep(ss: seq<Option<Session>>, s: Session, ds: seq<string>)
    requires NoDuplicates(ds)
    ensures SumDays(ss + [Some(s)], ds) == if s.date in ds then Add(SumDays(ss, ds), s) else SumDays(ss, ds)
    decreases |ds|
  {
    var t := ss + [Some(s)];
    assert t[..|t| - 1] == ss;
    if ds != [] {
      var rest := ds[1..];
      assert NoDuplicates(rest) by {
        forall i, j | 0 <= i < j < |rest| ensures rest[i] != rest[j] {
          assert rest[i] == ds[i + 1] && rest[j] == ds[j + 1];
        }
      }
      SumDaysStep(ss, s, rest);
      if ds[0] == s.date {
        assert s.date !in rest by {
          forall k | 0 <= k < |rest| ensures rest[k] != s.date {
            assert rest[k] == ds[k + 1];
          }
        }
      } else {
        assert s.date in ds <==> s.date in rest by {
          assert ds == [ds[0]] + rest;
        }
      }
    }
  }

  /**
   * Summed over any list of distinct dates that covers every session's date, the daily
   * counters give the counters of all sessions together: no session is lost or counted twice.
   */
  lemma {:induction false} AllDaysSum(ss: seq<Option<Session>>, ds: seq<string>)
    requires NoDuplicates(ds)
    requires forall d :: d in Dates(ss) ==> d in ds
    ensures SumDays(ss, ds) == Grand(ss)
    decreases |ss|
  {
    if ss == [] {
      SumDaysZero(ss, ds);
    } else {
      var init := ss[..|ss| - 1];
      var x := ss[|ss| - 1];
      assert ss == init + [x];
      DatesSnoc(init, x);
      AllDaysSum(init, ds);
      if x.Some? {
        SumDaysStep(init, x.value, ds);
      } else {
        forall k | 0 <= k < |ds| ensures DayTotal(ss, ds[k]) == DayTotal(init, ds[k]) {}
        SumDaysSame(ss, init, ds);
      }
    }
  }

  lemma {:induction false} SumDaysZero(ss: seq<Option<Session>>, ds: seq<string>)
    requires ss == []
    ensures SumDays(ss, ds) == NoActivity
    decreases |ds|
  {
    if ds != [] {
      SumDaysZero(ss, ds[1..]);
    }
  }

  // ---- Cron runs ----

  /** A decoded cron log record; every field may be absent. */
  datatype CronEvent = CronEvent(action: Option<string>, jobId: Option<string>, status: Option<string>,
                                 summary: Option<string>, durationMs: Option<int>, ts: Option<int>)

  /** A line of a cron file: skipped (blank or not JSON), a decoded record, or one on which reading raises. */
  datatype CronLine = Skip | Logged(event: CronEvent) | Broken

  /** A finished run as the dashboard lists it; `jobName` is filled in last. */
  datatype CronRun = CronRun(jobId: string, status: string, summary: string, durationMs: int,
                             timestamp: string, timestampIso: string, jobName: Option<string>)

  function OrElse<T>(o: Option<T>, default: T): T {
    if o.Some? then o.value else default
  }

  predicate Finished(e: CronEvent) {
    e.action == Some("finished")
  }

  /** The run of a finished record whose timestamp converts to `local` (the `%Y-%m-%d %H:%M:%S` and ISO forms). */
  function RunOf(e: CronEvent, local: (string, string)): CronRun {
    CronRun(OrElse(e.jobId, "unknown"), OrElse(e.status, "unknown"), OrElse(e.summary, ""),
            OrElse(e.durationMs, 0), local.0, local.1, None)
  }

  /**
   * The runs one cron file contributes. A line that raises, or a timestamp that does not
   * convert, ends the file; the runs read before it stay.
   */
  function FileRuns(lines: seq<CronLine>, toLocal: int -> Option<(string, string)>): seq<CronRun>
    decreases |lines|
  {
    if lines == [] then []
    else match lines[0]
      case Skip => FileRuns(lines[1..], toLocal)
      case Broken => []
      case Logged(e) =>
        if !Finished(e) then FileRuns(lines[1..], toLocal)
        else match toLocal(OrElse(e.ts, 0))
          case None => []
          case Some(local) => [RunOf(e, local)] + FileRuns(lines[1..], toLocal)
  }

  /** `x` is the run recorded by line `l`. */
  predicate RecordedBy(l: CronLine, x: CronRun, toLocal: int -> Option<(string, string)>) {
    l.Logged? && Finished(l.event) && toLocal(OrElse(l.event.ts, 0)).Some?
    && x == RunOf(l.event, toLocal(OrElse(l.event.ts, 0)).value)
  }

  /** Every run of a file is recorded by one of its finished lines. */
  lemma {:induction false} FileRunsRecorded(lines: seq<CronLine>, toLocal: int -> Option<(string, string)>, x: CronRun)
    requires x in FileRuns(lines, toLocal)
    ensures exists i :: 0 <= i < |lines| && RecordedBy(lines[i], x, toLocal)
    decreases |lines|
  {
    var rest := FileRuns(lines[1..], toLocal);
    if x in rest {
      FileRunsRecorded(lines[1..], toLocal, x);
      var i :| 0 <= i < |lines[1..]| && RecordedBy(lines[1..][i], x, toLocal);
      assert RecordedBy(lines[i + 1], x, toLocal);
    } else {
      assert RecordedBy(lines[0], x, toLocal);
    }
  }

  /** The method reading one cron file, one line at a time. */
  method ReadCronFile(lines: seq<CronLine>, toLocal: int -> Option<(string, string)>) returns (runs: seq<CronRun>)
    ensures runs == FileRuns(lines, toLocal)
  {
    runs := [];
    var i := 0;
    while i < |lines|
      invariant 0 <= i <= |lines|
      invariant runs + FileRuns(lines[i..], toLocal) == FileRuns(lines, toLocal)
    {
      var line := lines[i];
      assert lines[i..][1..] == lines[i + 1..];
      if line.Broken? {
        assert runs + [] == runs;
        return;
      }
      if line.Logged? && Finished(line.event) {
        var local := toLocal(OrElse(line.event.ts, 0));
        if local.None? {
          assert runs + [] == runs;
          return;
        }
        runs := runs + [RunOf(line.event, local.value)];
      }
      i := i + 1;
    }
    assert runs + [] == runs;
  }

  /** The runs of all files, in file order. */
  function Collected(files: seq<seq<CronLine>>, toLocal: int -> Option<(string, string)>): seq<CronRun>
    decreases |files|
  {
    if files == [] then [] else Collected(files[..|files| - 1], toLocal) + FileRuns(files[|files| - 1], toLocal)
  }

  lemma {:induction false} CollectedRecorded(files: seq<seq<CronLine>>, toLocal: int -> Option<(string, string)>, x: CronRun)
    requires x in Collected(files, toLocal)
    ensures exists f, i :: 0 <= f < |files| && 0 <= i < |files[f]| && RecordedBy(files[f][i], x, toLocal)
    decreases |files|
  {
    var init := files[..|files| - 1];
    var last := |files| - 1;
    if x in Collected(init, toLocal) {
      CollectedRecorded(init, toLocal, x);
      var f, i :| 0 <= f < |init| && 0 <= i < |init[f]| && RecordedBy(init[f][i], x, toLocal);
      assert files[f] == init[f];
    } else {
      FileRunsRecorded(files[last], toLocal, x);
    }
  }

  /** The sort key: the ISO timestamp string. */
  function IsoKey(r: CronRun): string {
    r.timestampIso
  }

  /** The number of cron runs the dashboard keeps. */
  const KeptRuns := 20

  /** `parse_cron_runs`: every file's finished runs, newest first by ISO timestamp, the first 20. */
  function CronRuns(files: seq<seq<CronLine>>, toLocal: int -> Option<(string, string)>): seq<CronRun> {
    Prefix(SortDesc(Collected(files, toLocal), IsoKey), KeptRuns)
  }

  method ParseCronRuns(files: seq<seq<CronLine>>, toLocal: int -> Option<(string, string)>) returns (runs: seq<CronRun>)
    ensures runs == CronRuns(files, toLocal)
  {
    var all: seq<CronRun> := [];
    var f := 0;
    while f < |files|
      invariant 0 <= f <= |files|
      invariant all == Collected(files[..f], toLocal)
    {
      var fileRuns := ReadCronFile(files[f], toLocal);
      assert files[..f + 1][..f] == files[..f];
      all := all + fileRuns;
      f := f + 1;
    }
    assert files[..f] == files;
    runs := Prefix(SortDesc(all, IsoKey), KeptRuns);
  }

  /**
   * At most 20 runs, min(20, all runs) exactly, newest first; none left out is newer than
   * one kept; each is a run some file recorded as finished.
   */
  lemma CronRunsProperties(files: seq<seq<CronLine>>, toLocal: int -> Option<(string, string)>)
    ensures var all := Collected(files, toLocal);
      |CronRuns(files, toLocal)| == if |all| < KeptRuns then |all| else KeptRuns
    ensures SortedDesc(CronRuns(files, toLocal), IsoKey)
    ensures |SortDesc(Collected(files, toLocal), IsoKey)| == |Collected(files, toLocal)|
    ensures multiset(CronRuns(files, toLocal)) <= multiset(Collected(files, toLocal))
    ensures forall i, j :: 0 <= i < |CronRuns(files, toLocal)| <= j < |Collected(files, toLocal)| ==>
      !Before(CronRuns(files, toLocal)[i].timestampIso, SortDesc(Collected(files, toLocal), IsoKey)[j].timestampIso)
    ensures forall x :: x in CronRuns(files, toLocal) ==>
      exists f, i :: 0 <= f < |files| && 0 <= i < |files[f]| && RecordedBy(files[f][i], x, toLocal)
  {
    var all := Collected(files, toLocal);
    TopOfSorted(all, IsoKey, KeptRuns);
    var kept := CronRuns(files, toLocal);
    forall x | x in kept
      ensures exists f, i :: 0 <= f < |files| && 0 <= i < |files[f]| && RecordedBy(files[f][i], x, toLocal)
    {
      assert x in multiset(kept);
      assert x in multiset(all);
      CollectedRecorded(files, toLocal, x);
    }
  }

  // ---- Job names ----

  /** `get_job_names`: the three known jobs. */
  function JobNames(): map<string, string> {
    map["82f03d0e-3a34-40b3-a42c-d0f0b69432d1" := "Daily AI Report",
        "bec3a0af-b326-46dd-b6a9-a43d37beb886" := "Config Backup",
        "10addaa3-b3ad-4849-8dbe-e298358e913d" := "Website Watch"]
  }

  /** The name shown for a job: its known name, else the first eight characters of its id. */
  function JobName(id: string): string {
    if id in JobNames() then JobNames()[id] else Prefix(id, 8)
  }

  /** The three known ids get their names from the table; any other id gets its first eight characters. */
  lemma JobNameCases(id: string)
    ensures JobName("82f03d0e-3a34-40b3-a42c-d0f0b69432d1") == "Daily AI Report"
    ensures JobName("bec3a0af-b326-46dd-b6a9-a43d37beb886") == "Config Backup"
    ensures JobName("10addaa3-b3ad-4849-8dbe-e298358e913d") == "Website Watch"
    ensures id in JobNames() <==> id in {"82f03d0e-3a34-40b3-a42c-d0f0b69432d1",
      "bec3a0af-b326-46dd-b6a9-a43d37beb886", "10addaa3-b3ad-4849-8dbe-e298358e913d"}
    ensures id !in JobNames() ==>
      |JobName(id)| == (if |id| < 8 then |id| else 8) && JobName(id) == id[..|JobName(id)|]
  {
  }

  /** The run with its job name filled in. */
  function Named(r: CronRun): CronRun {
    r.(jobName := Some(JobName(r.jobId)))
  }

  /** The loop that gives every kept run, in place, its job name. */
  method AddJobNames(runs: array<CronRun>)
    modifies runs
    ensures forall i :: 0 <= i < runs.Length ==> runs[i] == Named(old(runs[i]))
  {
    var i := 0;
    while i < runs.Length
      invariant 0 <= i <= runs.Length
      invariant forall j :: 0 <= j < i ==> runs[j] == Named(old(runs[j]))
      invariant forall j :: i <= j < runs.Length ==> runs[j] == old(runs[j])
    {
      runs[i] := Named(runs[i]);
      i := i + 1;
    }
  }

  // ---- The daily window and the summary ----

  /** How many days of history the window shows. */
  const HistoryDays := 30

  /** The date of entry `i` of the window: `i` days after the day 30 days before `today`. */
  function WindowDate(today: int, i: int): string
    requires HistoryDays < today <= MaxOrdinal && 0 <= i < HistoryDays
  {
    OrdinalOfFromOrdinal(today - HistoryDays + i);
    IsoString(FromOrdinal(today - HistoryDays + i))
  }

  /** The counters of a day in the aggregate, zeros for a day that is missing. */
  function Lookup(daily: map<string, DayTotals>, d: string): DayTotals {
    if d in daily then daily[d] else NoActivity
  }

  datatype DayEntry = DayEntry(date: string, totals: DayTotals)

  /** The counted loop building `daily_activity`. */
  method DailyWindow(daily: map<string, DayTotals>, today: int) returns (window: seq<DayEntry>)
    requires HistoryDays < today <= MaxOrdinal
    ensures |window| == HistoryDays
    ensures forall i :: 0 <= i < HistoryDays ==>
      window[i] == DayEntry(WindowDate(today, i), Lookup(daily, WindowDate(today, i)))
  {
    window := [];
    var i := 0;
    while i < HistoryDays
      invariant 0 <= i <= HistoryDays
      invariant |window| == i
      invariant forall j :: 0 <= j < i ==> window[j] == DayEntry(WindowDate(today, j), Lookup(daily, WindowDate(today, j)))
    {
      var date := WindowDate(today, i);
      var data := if date in daily then daily[date] else NoActivity;
      window := window + [DayEntry(date, data)];
      i := i + 1;
    }
  }

  /** Entry `i` names the day `30 - i` days before today: the window runs from today-30 to yesterday. */
  lemma WindowDays(today: int, i: int)
    requires HistoryDays < today <= MaxOrdinal && 0 <= i < HistoryDays
    ensures ParseIso(WindowDate(today, i)).Some?
    ensures Ordinal(ParseIso(WindowDate(today, i)).value) == today - HistoryDays + i
  {
    var n := today - HistoryDays + i;
    OrdinalOfFromOrdinal(n);
    IsoRoundTrip(FromOrdinal(n));
  }

  /** The dates of the window are distinct, and today is not among them. */
  lemma WindowDistinct(today: int, i: int, j: int)
    requires HistoryDays < today <= MaxOrdinal && 0 <= i < HistoryDays && 0 <= j < HistoryDays
    ensures i != j ==> WindowDate(today, i) != WindowDate(today, j)
    ensures WindowDate(today, i) != TodayDate(today)
  {
    WindowDays(today, i);
    WindowDays(today, j);
    OrdinalOfFromOrdinal(today);
    IsoRoundTrip(FromOrdinal(today));
  }

  /** `today.strftime('%Y-%m-%d')`. */
  function TodayDate(today: int): string
    requires 1 <= today <= MaxOrdinal
  {
    OrdinalOfFromOrdinal(today);
    IsoString(FromOrdinal(today))
  }

  /** The sessions that parsed, in file order: what `main` feeds to the grouping. */
  function Parsed(files: seq<seq<Line>>, toDate: string -> Option<string>): seq<Session>
    decreases |files|
  {
    if files == [] then []
    else
      var init := Parsed(files[..|files| - 1], toDate);
      match SessionOf(files[|files| - 1], toDate)
      case None => init
      case Some(s) => init + [s]
  }

  function Present(ps: seq<Session>): (r: seq<Option<Session>>)
    ensures |r| == |ps| && forall i :: 0 <= i < |ps| ==> r[i] == Some(ps[i])
  {
    seq(|ps|, i requires 0 <= i < |ps| => Some(ps[i]))
  }

  /** `sum(s['total_tokens'] for s in session_metrics)`. */
  function TokenSum(ps: seq<Session>): int
    decreases |ps|
  {
    if ps == [] then 0 else TokenSum(ps[..|ps| - 1]) + ps[|ps| - 1].totalTokens
  }

  /** All present sessions together count every session once and every token once. */
  lemma {:induction false} GrandOfPresent(ps: seq<Session>)
    ensures Grand(Present(ps)).sessions == |ps|
    ensures Grand(Present(ps)).totalTokens == TokenSum(ps)
    decreases |ps|
  {
    if ps != [] {
      var init := ps[..|ps| - 1];
      assert Present(ps)[..|ps| - 1] == Present(init);
      GrandOfPresent(init);
    }
  }

  datatype Summary = Summary(totalSessions: int, totalTokens: int, todaySessions: int, todayTokens: int)

  datatype Report = Report(summary: Summary, dailyActivity: seq<DayEntry>, cronRuns: seq<CronRun>)

  /** Parsing one more file appends its session, if it has one. */
  lemma ParsedStep(files: seq<seq<Line>>, toDate: string -> Option<string>, k: nat)
    requires k < |files|
    ensures Parsed(files[..k + 1], toDate)
         == Parsed(files[..k], toDate) + (if SessionOf(files[k], toDate).Some? then [SessionOf(files[k], toDate).value] else [])
  {
    assert files[..k + 1][..k] == files[..k];
  }

  lemma TokenSumSnoc(ps: seq<Session>, s: Session)
    ensures TokenSum(ps + [s]) == TokenSum(ps) + s.totalTokens
  {
    assert (ps + [s])[..|ps|] == ps;
  }

  /** The loop of `main` over the session files, with the running token total. */
  method ReadSessions(sessionFiles: seq<seq<Line>>, toDate: string -> Option<string>)
    returns (sessions: seq<Session>, totalTokens: int)
    ensures sessions == Parsed(sessionFiles, toDate)
    ensures totalTokens == TokenSum(sessions)
  {
    sessions, totalTokens := [], 0;
    var k := 0;
    while k < |sessionFiles|
      invariant 0 <= k <= |sessionFiles|
      invariant sessions == Parsed(sessionFiles[..k], toDate)
      invariant totalTokens == TokenSum(sessions)
    {
      var metrics := ParseSession(sessionFiles[k], toDate);
      ParsedStep(sessionFiles, toDate, k);
      if metrics.Some? {
        TokenSumSnoc(sessions, metrics.value);
        sessions := sessions + [metrics.value];
        totalTokens := totalTokens + metrics.value.totalTokens;
      } else {
        assert sessions + [] == sessions;
      }
      k := k + 1;
    }
    assert sessionFiles[..k] == sessionFiles;
  }

  /** The computation of `main`, from the decoded files to the record it writes out. */
  method ExtractMetrics(sessionFiles: seq<seq<Line>>, toDate: string -> Option<string>,
                        cronFiles: seq<seq<CronLine>>, toLocal: int -> Option<(string, string)>,
                        today: int) returns (report: Report)
    requires HistoryDays < today <= MaxOrdinal
    ensures var ps := Parsed(sessionFiles, toDate);
      var day := DayTotal(Present(ps), TodayDate(today));
      report.summary == Summary(|ps|, TokenSum(ps), day.sessions, day.totalTokens)
    ensures |report.dailyActivity| == HistoryDays
    ensures forall i :: 0 <= i < HistoryDays ==>
      report.dailyActivity[i] == DayEntry(WindowDate(today, i), DayTotal(Present(Parsed(sessionFiles, toDate)), WindowDate(today, i)))
    ensures |report.cronRuns| == |CronRuns(cronFiles, toLocal)|
    ensures forall i :: 0 <= i < |report.cronRuns| ==> report.cronRuns[i] == Named(CronRuns(cronFiles, toLocal)[i])
  {
    var sessions, totalTokens := ReadSessions(sessionFiles, toDate);
    var present := Present(sessions);
    var daily := AggregateByDay(present);
    var window := DailyWindow(daily, today);
    forall i | 0 <= i < HistoryDays ensures Lookup(daily, WindowDate(today, i)) == DayTotal(present, WindowDate(today, i)) {
      if WindowDate(today, i) !in daily {
        DayTotalOutside(present, WindowDate(today, i));
      }
    }
    var todayStr := TodayDate(today);
    var todayData := if todayStr in daily then daily[todayStr] else NoActivity;
    if todayStr !in daily {
      DayTotalOutside(present, todayStr);
    }
    var runs := ParseCronRuns(cronFiles, toLocal);
    var named := new CronRun[|runs|](i requires 0 <= i < |runs| => runs[i]);
    AddJobNames(named);
    report := Report(Summary(|sessions|, totalTokens, todayData.sessions, todayData.totalTokens), window, named[..]);
  }

  /**
   * The daily counters, summed over the distinct session dates, give the summary's totals:
   * every parsed session and every token falls on exactly one day.
   */
  lemma DaysAddUp(ps: seq<Session>, ds: seq<string>)
    requires NoDuplicates(ds)
    requires forall d :: d in Dates(Present(ps)) ==> d in ds
    ensures SumDays(Present(ps), ds).sessions == |ps|
    ensures SumDays(Present(ps), ds).totalTokens == TokenSum(ps)
  {
    AllDaysSum(Present(ps), ds);
    GrandOfPresent(ps);
  }
}
