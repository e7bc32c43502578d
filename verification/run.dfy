/** `process_entries`: every backup entry in turn, a disabled one recorded as `IGNORED`
    without being processed, an enabled one processed by `process_entry` and recorded
    as `SUCCESS` or `FAILURE`; then the summary message, and the notification when the
    global section names a notification module and its options. The host name is a
    parameter, and so is each entry's backup directory and bucket as they stand when
    its turn comes. */
module Run {

  import opened Wrappers
  import opened Text
  import opened Dates
  import opened Scheduling
  import opened Values
  import opened BackupGeneric
  import opened RemoteS3
  import opened Core

  datatype Status = Ignored | Success | Failure

  function StatusText(s: Status): string
  {
    match s
    case Ignored => "IGNORED"
    case Success => "SUCCESS"
    case Failure => "FAILURE"
  }

  /** One entry of `$entries` with what `process_entry` works on: its settings, the
      answers of its collaborators, its backup directory and its bucket. */
  datatype Entry = Entry(name: string, cfg: EntryConfig, oracle: Oracle,
                         entries: seq<DirEntry>, objects: seq<S3Object>, reachable: bool)

  /** The result recorded for one entry. */
  function EntryStatus(e: Entry, today: Date, anchors: Anchors): (s: Status)
    requires ValidDate(today)
    ensures s == Ignored <==> !e.cfg.enabled
    ensures s == Success <==> e.cfg.enabled && EntryRun(e.cfg, e.oracle, today, anchors, e.reachable, e.entries, e.objects).errors == 0
  {
    if !e.cfg.enabled then Ignored
    else if EntryRun(e.cfg, e.oracle, today, anchors, e.reachable, e.entries, e.objects).errors == 0 then Success
    else Failure
  }

  /** The `results` hash: one pair per entry, in the order of `$entries`. */
  function Results(es: seq<Entry>, today: Date, anchors: Anchors): (r: seq<(string, Status)>)
    requires ValidDate(today)
    ensures |r| == |es|
    ensures forall i | 0 <= i < |es| :: r[i] == (es[i].name, EntryStatus(es[i], today, anchors))
    decreases |es|
  {
    if es == [] then []
    else Results(es[..|es| - 1], today, anchors) + [(es[|es| - 1].name, EntryStatus(es[|es| - 1], today, anchors))]
  }

  /** `errcount`: the entries that failed. */
  function Failures(results: seq<(string, Status)>): nat
    decreases |results|
  {
    if results == [] then 0
    else Failures(results[..|results| - 1]) + (if results[|results| - 1].1 == Failure then 1 else 0)
  }

  function ResultLines(results: seq<(string, Status)>): string
    decreases |results|
  {
    if results == [] then ""
    else ResultLines(results[..|results| - 1]) + "- " + results[|results| - 1].0 + " : " + StatusText(results[|results| - 1].1) + "\n"
  }

  /** The summary message. */
  function Summary(results: seq<(string, Status)>): string
  {
    "In total " + NatToString(|results|) + " backup entries have been processed with "
      + NatToString(Failures(results)) + " errors:\n" + ResultLines(results)
  }

  /** The subject for a run on the day written `day`. */
  function Subject(host: string, day: string, failures: nat): string
  {
    host + ": rubackup results for " + day + " [" + StatusText(if failures == 0 then Success else Failure) + "]"
  }

  /** The call `notify_module.message(notify_args, subject, message)`; the module is
      represented by its type name. */
  datatype Notification = Notification(kind: Value, args: Value, subject: string, message: string)

  /** What `process_entries` returns and reports. */
  datatype Report = Report(ok: bool, results: seq<(string, Status)>, message: string, notification: Option<Notification>)

  function NotificationFor(globcfg: seq<(string, Value)>, host: string, today: Date, results: seq<(string, Status)>)
    : Option<Notification>
  {
    var kind := FetchOrNil(globcfg, "notify_type");
    var args := FetchOrNil(globcfg, "notify_opts");
    if Truthy(kind) && Truthy(args) then Some(Notification(kind, args, Subject(host, IsoText(today), Failures(results)), Summary(results)))
    else None
  }

  function RunReport(es: seq<Entry>, today: Date, anchors: Anchors, globcfg: seq<(string, Value)>, host: string): Report
    requires ValidDate(today)
  {
    var results := Results(es, today, anchors);
    Report(Failures(results) == 0, results, Summary(results), NotificationFor(globcfg, host, today, results))
  }

  /** `process_entries`. Each enabled entry is processed on its own backup directory
      and bucket. */
  method ProcessEntries(es: seq<Entry>, today: Date, anchors: Anchors, globcfg: seq<(string, Value)>, host: string)
    returns (r: Report)
    requires ValidDate(today)
    ensures r == RunReport(es, today, anchors, globcfg, host)
  {
    var results: seq<(string, Status)> := [];
    var errcount := 0;
    var i := 0;
    while i < |es|
      invariant 0 <= i <= |es|
      invariant results == Results(es[..i], today, anchors)
      invariant errcount == Failures(results)
    {
      var e := es[i];
      assert es[..i + 1][..i] == es[..i];
      var status;
      if !e.cfg.enabled {
        status := Ignored;
      } else {
        var local := new LocalDir(e.entries);
        var remote := new Bucket(e.objects, e.reachable);
        var entryres := ProcessEntry(e.cfg, e.oracle, local, remote, today, anchors);
        if !entryres {
          errcount := errcount + 1;
        }
        status := if entryres then Success else Failure;
      }
      results := results + [(e.name, status)];
      assert results[..|results| - 1] == Results(es[..i], today, anchors);
      i := i + 1;
    }
    assert es[..i] == es;
    var message := Summary(results);
    var notification := None;
    var kind := FetchOrNil(globcfg, "notify_type");
    var args := FetchOrNil(globcfg, "notify_opts");
    if Truthy(kind) && Truthy(args) {
      var status := if errcount == 0 then Success else Failure;
      var subject := host + ": rubackup results for " + IsoText(today) + " [" + StatusText(status) + "]";
      notification := Some(Notification(kind, args, subject, message));
    }
    return Report(errcount == 0, results, message, notification);
  }

  // ---------------------------------------------------------------------------
  // Properties

  /** No failure is counted exactly when no result is `FAILURE`. */
  lemma {:induction false} FailuresZero(results: seq<(string, Status)>)
    ensures Failures(results) == 0 <==> forall i | 0 <= i < |results| :: results[i].1 != Failure
    decreases |results|
  {
    if results != [] {
      var n := |results| - 1;
      FailuresZero(results[..n]);
      assert forall i | 0 <= i < n :: results[..n][i] == results[i];
    }
  }

  /** The run succeeds exactly when every enabled entry succeeds; a disabled entry is
      `IGNORED` and never counts as an error. */
  lemma RunSucceedsIffNoFailure(es: seq<Entry>, today: Date, anchors: Anchors, globcfg: seq<(string, Value)>, host: string)
    requires ValidDate(today)
    ensures var r := RunReport(es, today, anchors, globcfg, host);
      && (r.ok <==> forall i | 0 <= i < |es| :: es[i].cfg.enabled ==>
                      EntryRun(es[i].cfg, es[i].oracle, today, anchors, es[i].reachable, es[i].entries, es[i].objects).errors == 0)
      && |r.results| == |es|
      && forall i | 0 <= i < |es| :: r.results[i].0 == es[i].name && (r.results[i].1 == Ignored <==> !es[i].cfg.enabled)
  {
    var results := Results(es, today, anchors);
    FailuresZero(results);
  }

  /** The failures counted are the `FAILURE` results. */
  lemma {:induction false} FailuresCount(results: seq<(string, Status)>)
    ensures Failures(results) == |set i | 0 <= i < |results| && results[i].1 == Failure|
    decreases |results|
  {
    if results != [] {
      var n := |results| - 1;
      FailuresCount(results[..n]);
      var before := set i | 0 <= i < n && results[..n][i].1 == Failure;
      var after := set i | 0 <= i < |results| && results[i].1 == Failure;
      if results[n].1 == Failure {
        assert after == before + {n};
      } else {
        assert after == before;
      }
    }
  }

  /** A notification goes out only when the global section names both a notification
      type and its options, and it carries the summary. */
  lemma NotificationFacts(globcfg: seq<(string, Value)>, host: string, today: Date, results: seq<(string, Status)>)
    ensures var n := NotificationFor(globcfg, host, today, results);
      && (n.Some? <==> Truthy(FetchOrNil(globcfg, "notify_type")) && Truthy(FetchOrNil(globcfg, "notify_opts")))
      && (n.Some? ==> n.value.message == Summary(results) && n.value.subject == Subject(host, IsoText(today), Failures(results)))
  {
  }

  /** The subject names the host and ends in `[SUCCESS]` exactly when no entry failed. */
  lemma SubjectFacts(host: string, day: string, failures: nat)
    ensures var s := Subject(host, day, failures);
      && (EndsWith(s, "[SUCCESS]") <==> failures == 0)
      && StartsWith(s, host + ": rubackup results for ")
  {
    var s := Subject(host, day, failures);
    var head := host + ": rubackup results for " + day + " ";
    var tail := "[" + StatusText(if failures == 0 then Success else Failure) + "]";
    assert s == head + tail;
    assert |tail| == 9;
    assert s[|s| - 9..] == tail;
    if failures != 0 {
      assert tail == "[FAILURE]";
      assert tail[1] != "[SUCCESS]"[1];
    }
    assert s[..|host + ": rubackup results for "|] == host + ": rubackup results for ";
  }
}
