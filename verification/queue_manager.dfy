/** The download-job bookkeeping of backend/queue_manager.py: the progress
    store (`downloads`, one record per URL), its field-wise update, the
    admission check, the bulk clear of finished entries, and the two worker
    bodies that drive an entry through its statuses. The thread pools become
    two job lists run one job at a time, and `time.time()` becomes a logical
    clock that every update advances. */
module QueueManager {
  import opened Wrappers
  import opened Text
  import opened PosixPath
  import Downloader
  import Converter

  // ---------------------------------------------------------------------
  // Records and patches
  // ---------------------------------------------------------------------

  /** A progress entry. Each field is a key the Python dict may or may not
      hold: `status`, `progress_percentage`, `download_speed`, `eta`,
      `error_message`, `output_path`, `message`, `conversion_percentage` and
      `timestamp`. */
  datatype Record = Record(
    status: Option<string> := None,
    progress: Option<real> := None,
    speed: Option<string> := None,
    eta: Option<string> := None,
    error: Option<string> := None,
    outputPath: Option<string> := None,
    message: Option<string> := None,
    conversion: Option<real> := None,
    timestamp: Option<nat> := None)

  /** The keyword arguments of `update_download_progress`; `None` is an
      argument left at its default. */
  datatype Patch = Patch(
    status: Option<string> := None,
    progress: Option<real> := None,
    speed: Option<string> := None,
    eta: Option<string> := None,
    error: Option<string> := None,
    outputPath: Option<string> := None,
    message: Option<string> := None,
    conversion: Option<real> := None)

  /** The value a field ends with: the argument when one was given. */
  function Over<T>(was: Option<T>, given: Option<T>): Option<T> {
    if given.Some? then given else was
  }

  /** The record after an update at time `t`. */
  function Merged(r: Record, p: Patch, t: nat): Record {
    Record(Over(r.status, p.status), Over(r.progress, p.progress), Over(r.speed, p.speed),
           Over(r.eta, p.eta), Over(r.error, p.error), Over(r.outputPath, p.outputPath),
           Over(r.message, p.message), Over(r.conversion, p.conversion), Some(t))
  }

  /** The single patch with the effect of `p` followed by `q`. */
  function Then(p: Patch, q: Patch): Patch {
    Patch(Over(p.status, q.status), Over(p.progress, q.progress), Over(p.speed, q.speed),
          Over(p.eta, q.eta), Over(p.error, q.error), Over(p.outputPath, q.outputPath),
          Over(p.message, q.message), Over(p.conversion, q.conversion))
  }

  /** An update writes exactly the fields it was given, keeps every other
      field, and always refreshes the timestamp. */
  lemma MergeFieldwise(r: Record, p: Patch, t: nat)
    ensures var m := Merged(r, p, t);
      && (p.status.Some? ==> m.status == p.status) && (p.status.None? ==> m.status == r.status)
      && (p.progress.Some? ==> m.progress == p.progress) && (p.progress.None? ==> m.progress == r.progress)
      && (p.speed.Some? ==> m.speed == p.speed) && (p.speed.None? ==> m.speed == r.speed)
      && (p.eta.Some? ==> m.eta == p.eta) && (p.eta.None? ==> m.eta == r.eta)
      && (p.error.Some? ==> m.error == p.error) && (p.error.None? ==> m.error == r.error)
      && (p.outputPath.Some? ==> m.outputPath == p.outputPath) && (p.outputPath.None? ==> m.outputPath == r.outputPath)
      && (p.message.Some? ==> m.message == p.message) && (p.message.None? ==> m.message == r.message)
      && (p.conversion.Some? ==> m.conversion == p.conversion) && (p.conversion.None? ==> m.conversion == r.conversion)
      && m.timestamp == Some(t)
  {
  }

  /** An update without arguments only refreshes the timestamp. */
  lemma EmptyPatchStamps(r: Record, t: nat)
    ensures Merged(r, Patch(), t) == r.(timestamp := Some(t))
  {
  }

  /** Two updates in a row act as one update with the later arguments
      winning; in particular repeating an update changes nothing but the
      timestamp. */
  lemma MergeTwice(r: Record, p: Patch, q: Patch, t: nat, u: nat)
    ensures Merged(Merged(r, p, t), q, u) == Merged(r, Then(p, q), u)
    ensures Merged(Merged(r, p, t), p, u) == Merged(r, p, u)
  {
  }

  /** The record after the patches in order, the first at time `t`, the next
      at `t + 1`, and so on. */
  function Applied(r: Record, ps: seq<Patch>, t: nat): Record {
    if ps == [] then r else Merged(Applied(r, ps[..|ps| - 1], t), ps[|ps| - 1], t + |ps| - 1)
  }

  lemma {:induction false} AppliedAppend(r: Record, a: seq<Patch>, b: seq<Patch>, t: nat)
    ensures Applied(r, a + b, t) == Applied(Applied(r, a, t), b, t + |a|)
  {
    if b != [] {
      assert (a + b)[..|a + b| - 1] == a + b[..|b| - 1];
      AppliedAppend(r, a, b[..|b| - 1], t);
    } else {
      assert a + b == a;
    }
  }

  /** After one or more updates the timestamp is the time of the last one. */
  lemma AppliedStamp(r: Record, ps: seq<Patch>, t: nat)
    requires ps != []
    ensures Applied(r, ps, t).timestamp == Some(t + |ps| - 1)
  {
  }

  lemma AppliedSnoc(r: Record, ps: seq<Patch>, p: Patch, t: nat)
    ensures Applied(r, ps + [p], t) == Merged(Applied(r, ps, t), p, t + |ps|)
  {
    assert (ps + [p])[..|ps|] == ps;
  }

  /** The record after a worker's updates: a first one at time `t`, one per
      progress report, and a last one. */
  function TaskRecord(start: Record, first: Patch, reports: seq<Patch>, last: Patch, t: nat): Record {
    Merged(Applied(Merged(start, first, t), reports, t + 1), last, t + 1 + |reports|)
  }

  // ---------------------------------------------------------------------
  // The store as a map
  // ---------------------------------------------------------------------

  /** `downloads.get(url, {})`. */
  function EntryIn(m: map<string, Record>, url: string): Record {
    if url in m then m[url] else Record()
  }

  /** The map after `update_download_progress(url, ...)` at time `t`. */
  function Updated(m: map<string, Record>, url: string, p: Patch, t: nat): map<string, Record> {
    m[url := Merged(EntryIn(m, url), p, t)]
  }

  /** An update tracks its URL afterwards, and leaves every other entry as
      it was; an untracked URL starts from an empty record. */
  lemma UpdateTouchesOneEntry(m: map<string, Record>, url: string, p: Patch, t: nat)
    ensures url in Updated(m, url, p, t)
    ensures url !in m ==> Updated(m, url, p, t)[url] == Merged(Record(), p, t)
    ensures url in m ==> Updated(m, url, p, t)[url] == Merged(m[url], p, t)
    ensures forall u :: u != url ==> (u in Updated(m, url, p, t) <==> u in m)
    ensures forall u :: u != url && u in m ==> Updated(m, url, p, t)[u] == m[u]
  {
  }

  const FinishedStatuses: set<string> := {"completed", "converted", "failed", "skipped"}

  /** The statuses with which a URL may be submitted again. */
  const ResubmittableStatuses: set<string> := {"failed", "converted", "skipped"}

  /** Whether an entry is removed by the clear. */
  predicate Finished(r: Record) {
    r.status.Some? && r.status.value in FinishedStatuses
  }

  function FinishedUrls(m: map<string, Record>): (urls: set<string>)
    ensures urls <= m.Keys
  {
    set u | u in m && Finished(m[u])
  }

  /** The map after the clear. */
  function Cleared(m: map<string, Record>): map<string, Record> {
    m - FinishedUrls(m)
  }

  /** The clear keeps exactly the entries that are not finished, and keeps
      them unchanged. */
  lemma ClearKeepsUnfinished(m: map<string, Record>)
    ensures forall u :: u in Cleared(m) <==> u in m && !Finished(m[u])
    ensures forall u :: u in Cleared(m) ==> Cleared(m)[u] == m[u]
  {
  }

  /** A second clear finds nothing to remove. */
  lemma ClearTwice(m: map<string, Record>)
    ensures FinishedUrls(Cleared(m)) == {}
    ensures Cleared(Cleared(m)) == Cleared(m)
  {
    var c := Cleared(m);
    assert forall u :: u in c ==> !Finished(c[u]);
    assert FinishedUrls(c) == {};
    assert c - {} == c;
  }

  /** Whether `add_download_job` turns the URL away: it is tracked and its
      status (possibly absent) is not one that allows a resubmission. */
  predicate InFlight(m: map<string, Record>, url: string) {
    url in m && !(m[url].status.Some? && m[url].status.value in ResubmittableStatuses)
  }

  /** The entry `add_download_job` writes, replacing any earlier one. */
  const QueuedEntry: Record := Record(status := Some("queued"), progress := Some(0.0),
                                      message := Some("Download queued."))

  /** A `completed` download is still in flight for admission, yet it is
      removed by the clear; an entry without a status is in flight too. */
  lemma CompletedQuirk(m: map<string, Record>, url: string)
    requires url in m
    ensures m[url].status == Some("completed") ==> InFlight(m, url) && url !in Cleared(m)
    ensures m[url].status.None? ==> InFlight(m, url) && url in Cleared(m)
  {
  }

  // ---------------------------------------------------------------------
  // The worker bodies, as the updates they make
  // ---------------------------------------------------------------------

  const DownloadStartPatch: Patch := Patch(status := Some("queued"), message := Some("Download queued..."))

  /** The callback passed to `download_video`. */
  function EventPatch(e: Downloader.ProgressEvent): Patch {
    Patch(status := Some("downloading"), progress := Some(e.percentage), speed := Some(e.speed), eta := e.eta)
  }

  function EventPatches(events: seq<Downloader.ProgressEvent>): (ps: seq<Patch>)
    ensures |ps| == |events|
  {
    seq(|events|, i requires 0 <= i < |events| => EventPatch(events[i]))
  }

  function DownloadFailedText(url: string, e: string): string {
    "Download failed for " + url + ": " + e
  }

  /** The last update of a download: `completed` with the file's path, or
      `failed` with the text of the exception. */
  function DownloadEndPatch(url: string, outcome: Result<string, string>): Patch {
    match outcome
    case Success(path) =>
      Patch(status := Some("completed"), outputPath := Some(path),
            message := Some("Download completed. Queueing for conversion..."))
    case Failure(e) =>
      var text := DownloadFailedText(url, e);
      Patch(status := Some("failed"), error := Some(text), message := Some(text))
  }

  /** The entry after `_download_task`, from `start` at time `t`: the queued
      update, one update per progress report, and the final update. */
  function DownloadRecord(start: Record, url: string, events: seq<Downloader.ProgressEvent>,
                          outcome: Result<string, string>, t: nat): Record
  {
    TaskRecord(start, DownloadStartPatch, EventPatches(events), DownloadEndPatch(url, outcome), t)
  }

  /** A download ends `completed` with the returned path as `output_path`, or
      `failed` with the error naming the URL; one `downloading` update is made
      per progress report in between. */
  lemma DownloadEnds(r: Record, url: string, events: seq<Downloader.ProgressEvent>,
                     outcome: Result<string, string>, t: nat)
    ensures var e := DownloadRecord(r, url, events, outcome, t);
      && (outcome.Success? ==> e.status == Some("completed") && e.outputPath == Some(outcome.value))
      && (outcome.Failure? ==>
            e.status == Some("failed") && e.error == Some(DownloadFailedText(url, outcome.error))
            && e.message == e.error)
      && e.timestamp == Some(t + 1 + |events|)
  {
  }

  /** While the download runs, the entry is `downloading` with the latest
      report's share, once there has been a report. */
  lemma DownloadingWhileReporting(r: Record, events: seq<Downloader.ProgressEvent>, t: nat)
    requires events != []
    ensures var e := Applied(Merged(r, DownloadStartPatch, t), EventPatches(events), t + 1);
      && e.status == Some("downloading")
      && e.progress == Some(events[|events| - 1].percentage)
      && e.speed == Some(events[|events| - 1].speed)
  {
    var ps := EventPatches(events);
    assert ps[|ps| - 1] == EventPatch(events[|events| - 1]);
  }

  const ConversionStartPatch: Patch := Patch(status := Some("converting"), message := Some("Starting conversion..."))

  /** The callback passed to `convert_video`. */
  function ReportPatch(p: real): Patch {
    Patch(status := Some("converting"), conversion := Some(p), message := Some("Converting: " + FixedTwo(p) + "%"))
  }

  function ReportPatches(reports: seq<real>): (ps: seq<Patch>)
    ensures |ps| == |reports|
  {
    seq(|reports|, i requires 0 <= i < |reports| => ReportPatch(reports[i]))
  }

  /** The error text of the task's handler for a `KeyError`, whose text is
      the key in quotes. */
  function MissingKeyText(filepath: string, key: string): string {
    "Conversion failed for " + filepath + " due to an unexpected error: '" + key + "'"
  }

  function MissingKeyPatch(filepath: string, key: string): Patch {
    var text := MissingKeyText(filepath, key);
    Patch(status := Some("failed"), error := Some(text), message := Some(text))
  }

  /** The last update of a conversion, read from the result dictionary. The
      keys are looked up in the order the call's arguments are evaluated; a
      missing one raises `KeyError`, which ends the task `failed`. */
  function ConversionEndPatch(filepath: string, result: Converter.ResultDict): Patch {
    if "status" !in result then MissingKeyPatch(filepath, "status")
    else if result["status"] == "success" then
      if "message" !in result then MissingKeyPatch(filepath, "message")
      else if "output_file" !in result then MissingKeyPatch(filepath, "output_file")
      else Patch(status := Some("converted"), message := Some(result["message"]),
                 outputPath := Some(result["output_file"]), conversion := Some(100.0))
    else if result["status"] == "skipped" then
      if "message" !in result then MissingKeyPatch(filepath, "message")
      else Patch(status := Some("converted"), message := Some(result["message"]), conversion := Some(100.0))
    else if "error" !in result then MissingKeyPatch(filepath, "error")
    else if "message" !in result then MissingKeyPatch(filepath, "message")
    else Patch(status := Some("failed"), error := Some(result["error"]), message := Some(result["message"]))
  }

  /** The paths `_convert_task` hands to `convert_video`. */
  function ConversionPaths(filepath: string): Converter.Paths {
    Converter.PathsOf(Split(filepath).0, Split(filepath).1)
  }

  /** The reports and the result of `convert_video` on the task's file. */
  function ConversionOf(filepath: string, files: set<string>, tools: Converter.Tools): (seq<real>, Converter.ResultDict) {
    Converter.Conversion(ConversionPaths(filepath), files, tools, true)
  }

  /** The entry after `_convert_task`, from `start` at time `t`: the start
      update, one update per progress report, and the final update. */
  function ConversionRecord(start: Record, filepath: string, reports: seq<real>,
                            result: Converter.ResultDict, t: nat): Record
  {
    TaskRecord(start, ConversionStartPatch, ReportPatches(reports), ConversionEndPatch(filepath, result), t)
  }

  /** A `success` result gives `converted` with the new output path and 100;
      a `skipped` result gives `converted` with 100 and keeps the previous
      output path. */
  lemma ConversionSucceeds(before: Record, filepath: string, result: Converter.ResultDict, t: nat)
    requires "status" in result && "message" in result
    requires result["status"] == "success" ==> "output_file" in result
    ensures var e := Merged(before, ConversionEndPatch(filepath, result), t);
      && (result["status"] == "success" ==>
            e.status == Some("converted") && e.outputPath == Some(result["output_file"])
            && e.conversion == Some(100.0) && e.message == Some(result["message"]))
      && (result["status"] == "skipped" ==>
            e.status == Some("converted") && e.outputPath == before.outputPath
            && e.conversion == Some(100.0))
  {
  }

  /** Any other status ends `failed`; a result without an `error` key (such
      as the `converted` result for an MP4 input) fails on the lookup, with
      the key named in the error. */
  lemma ConversionFails(before: Record, filepath: string, result: Converter.ResultDict, t: nat)
    requires "status" in result && result["status"] != "success" && result["status"] != "skipped"
    ensures Merged(before, ConversionEndPatch(filepath, result), t).status == Some("failed")
    ensures "error" !in result ==>
      Merged(before, ConversionEndPatch(filepath, result), t).error
      == Some(MissingKeyText(filepath, "error"))
    ensures "error" in result && "message" in result ==>
      Merged(before, ConversionEndPatch(filepath, result), t).error == Some(result["error"])
  {
  }

  /** The MP4 quirk end to end: when the pre-flight says `converted`, the
      conversion task ends `failed`. */
  lemma Mp4InputEndsFailed(filepath: string, files: set<string>, tools: Converter.Tools, before: Record, t: nat)
    requires Converter.Preflight(ConversionPaths(filepath), files).Some?
    requires Converter.Preflight(ConversionPaths(filepath), files).value["status"] == "converted"
    ensures var (_, result) := Converter.Conversion(ConversionPaths(filepath), files, tools, true);
      Merged(before, ConversionEndPatch(filepath, result), t).error == Some(MissingKeyText(filepath, "error"))
  {
    ConvertedResultFails(ConversionPaths(filepath), files, tools, filepath, before, t);
  }

  lemma ConvertedResultFails(ps: Converter.Paths, files: set<string>, tools: Converter.Tools,
                             filepath: string, before: Record, t: nat)
    requires Converter.Preflight(ps, files).Some?
    requires Converter.Preflight(ps, files).value["status"] == "converted"
    ensures Merged(before, ConversionEndPatch(filepath, Converter.Conversion(ps, files, tools, true).1), t).error
         == Some(MissingKeyText(filepath, "error"))
  {
    ConvertedHasNoError(ps, files);
    var r := Converter.Preflight(ps, files).value;
    assert Converter.Conversion(ps, files, tools, true).1 == r;
    ConvertedIsNoSuccess(r["status"]);
    ConversionFails(before, filepath, r, t);
  }

  lemma ConvertedIsNoSuccess(status: string)
    requires status == "converted"
    ensures status != "success" && status != "skipped"
  {
    assert status[1] == 'o';
  }

  lemma ConvertedHasNoError(ps: Converter.Paths, files: set<string>)
    requires Converter.Preflight(ps, files).Some?
    requires Converter.Preflight(ps, files).value["status"] == "converted"
    ensures "error" !in Converter.Preflight(ps, files).value
  {
  }

  lemma MapUpdateTwice(m: map<string, Record>, url: string, a: Record, b: Record)
    ensures m[url := a][url := b] == m[url := b]
  {
  }

  /** The map after a worker's first update and the rest of its updates. */
  lemma TaskAssembled(m: map<string, Record>, url: string, first: Patch, reports: seq<Patch>, last: Patch, t: nat)
    ensures var m1 := m[url := Merged(EntryIn(m, url), first, t)];
      m1[url := Merged(Applied(EntryIn(m1, url), reports, t + 1), last, t + 1 + |reports|)]
      == m[url := TaskRecord(EntryIn(m, url), first, reports, last, t)]
  {
    var m1 := m[url := Merged(EntryIn(m, url), first, t)];
    assert EntryIn(m1, url) == Merged(EntryIn(m, url), first, t);
    MapUpdateTwice(m, url, Merged(EntryIn(m, url), first, t), TaskRecord(EntryIn(m, url), first, reports, last, t));
  }

  /** Every timestamp in `m` is earlier than `now`. */
  predicate StampedBefore(m: map<string, Record>, now: nat) {
    forall u :: u in m && m[u].timestamp.Some? ==> m[u].timestamp.value < now
  }

  lemma StampedAfterRemoval(m: map<string, Record>, gone: set<string>, now: nat)
    requires StampedBefore(m, now)
    ensures StampedBefore(m - gone, now)
  {
  }

  /** An update made while every stamp is earlier than `now` makes its entry
      the newest: it is stamped `now`, every other entry keeps an earlier
      stamp, and all stamps stay earlier than the next tick. */
  lemma UpdateStampsNewest(m: map<string, Record>, url: string, p: Patch, now: nat)
    requires StampedBefore(m, now)
    ensures var m' := Updated(m, url, p, now);
      && m'[url].timestamp == Some(now)
      && (forall u :: u in m' && u != url && m'[u].timestamp.Some? ==> m'[u].timestamp.value < now)
      && StampedBefore(m', now + 1)
  {
  }

  /** Deleting one more of the URLs still to go. */
  lemma RemoveOneMore(m: map<string, Record>, all: set<string>, left: set<string>, u: string)
    requires u in left && left <= all
    ensures (m - (all - left)) - {u} == m - (all - (left - {u}))
  {
    assert all - (left - {u}) == (all - left) + {u};
  }

  // ---------------------------------------------------------------------
  // The store
  // ---------------------------------------------------------------------

  /** The module-level `downloads` dict, the clock standing for `time.time()`,
      and the jobs submitted to the two executors, oldest first. */
  class ProgressStore {
    var downloads: map<string, Record>
    var clock: nat
    var downloadJobs: seq<(string, string)>
    var conversionJobs: seq<(string, string)>

    /** Every timestamp was taken before the present reading of the clock,
        so the entry an update writes is stamped later than every other
        (`UpdateStampsNewest`). */
    predicate Valid()
      reads this
    {
      StampedBefore(downloads, clock)
    }

    constructor ()
      ensures Valid()
      ensures downloads == map[] && downloadJobs == [] && conversionJobs == []
    {
      downloads := map[];
      clock := 0;
      downloadJobs := [];
      conversionJobs := [];
    }

    /** `update_download_progress`. */
    method Update(url: string, p: Patch)
      requires Valid()
      modifies this
      ensures Valid()
      ensures downloads == Updated(old(downloads), url, p, old(clock))
      ensures clock == old(clock) + 1
      ensures downloadJobs == old(downloadJobs) && conversionJobs == old(conversionJobs)
    {
      var current := if url in downloads then downloads[url] else Record();
      current := Merged(current, p, clock);
      downloads := downloads[url := current];
      clock := clock + 1;
    }

    /** Several updates of one URL in a row. */
    method UpdateAll(url: string, ps: seq<Patch>)
      requires Valid()
      modifies this
      ensures Valid()
      ensures ps != [] ==> downloads == old(downloads)[url := Applied(EntryIn(old(downloads), url), ps, old(clock))]
      ensures ps == [] ==> downloads == old(downloads)
      ensures clock == old(clock) + |ps|
      ensures downloadJobs == old(downloadJobs) && conversionJobs == old(conversionJobs)
    {
      ghost var start := EntryIn(downloads, url);
      for i := 0 to |ps|
        invariant Valid()
        invariant clock == old(clock) + i
        invariant i > 0 ==> downloads == old(downloads)[url := Applied(start, ps[..i], old(clock))]
        invariant i == 0 ==> downloads == old(downloads)
        invariant downloadJobs == old(downloadJobs) && conversionJobs == old(conversionJobs)
      {
        Update(url, ps[i]);
        assert ps[..i + 1][..i] == ps[..i];
      }
      assert ps[..|ps|] == ps;
    }

    /** The updates a worker makes after its first one: one per progress
        report, then the final one. */
    method UpdateThenFinish(url: string, reports: seq<Patch>, last: Patch)
      requires Valid()
      modifies this
      ensures Valid()
      ensures downloads == old(downloads)[url := Merged(Applied(EntryIn(old(downloads), url), reports, old(clock)),
                                                        last, old(clock) + |reports|)]
      ensures clock == old(clock) + |reports| + 1
      ensures downloadJobs == old(downloadJobs) && conversionJobs == old(conversionJobs)
    {
      ghost var m0, t := downloads, clock;
      UpdateAll(url, reports);
      ghost var r := Applied(EntryIn(m0, url), reports, t);
      assert EntryIn(downloads, url) == r;
      Update(url, last);
      MapUpdateTwice(m0, url, r, Merged(r, last, t + |reports|));
    }

    /** The rest of a task once its opening update is made: the progress
        reports, then the closing update; together with the opening update
        they make the entry `TaskRecord` describes. */
    method FinishTask(url: string, ghost m: map<string, Record>, ghost t: nat, ghost first: Patch,
                      reports: seq<Patch>, last: Patch)
      requires Valid()
      requires downloads == Updated(m, url, first, t) && clock == t + 1
      modifies this
      ensures Valid()
      ensures downloads == m[url := TaskRecord(EntryIn(m, url), first, reports, last, t)]
      ensures clock == t + 2 + |reports|
      ensures downloadJobs == old(downloadJobs) && conversionJobs == old(conversionJobs)
    {
      UpdateThenFinish(url, reports, last);
      TaskAssembled(m, url, first, reports, last, t);
    }

    /** `clear_finished_progress_from_backend`: removes the finished entries
        and returns how many there were. */
    method ClearFinished() returns (count: nat)
      requires Valid()
      modifies this
      ensures Valid()
      ensures downloads == Cleared(old(downloads))
      ensures count == |FinishedUrls(old(downloads))|
      ensures clock == old(clock)
      ensures downloadJobs == old(downloadJobs) && conversionJobs == old(conversionJobs)
    {
      var toRemove := set u | u in downloads && Finished(downloads[u]);
      count := |toRemove|;
      var left := toRemove;
      while left != {}
        invariant left <= toRemove
        invariant downloads == old(downloads) - (toRemove - left)
        invariant clock == old(clock)
        invariant downloadJobs == old(downloadJobs) && conversionJobs == old(conversionJobs)
        decreases |left|
      {
        var u :| u in left;
        RemoveOneMore(old(downloads), toRemove, left, u);
        downloads := downloads - {u};
        left := left - {u};
      }
      assert toRemove - {} == toRemove;
      assert toRemove == FinishedUrls(old(downloads));
      StampedAfterRemoval(old(downloads), toRemove, clock);
    }

    /** `add_download_job`: turns away a URL in flight and changes nothing;
        otherwise writes a fresh queued entry and submits the job. */
    method AddDownloadJob(url: string, path: string) returns (accepted: bool)
      requires Valid()
      modifies this
      ensures Valid()
      ensures accepted <==> !InFlight(old(downloads), url)
      ensures !accepted ==> downloads == old(downloads) && downloadJobs == old(downloadJobs)
      ensures accepted ==> downloads == old(downloads)[url := QueuedEntry]
                           && downloadJobs == old(downloadJobs) + [(url, path)]
      ensures clock == old(clock) && conversionJobs == old(conversionJobs)
    {
      if url in downloads && !(downloads[url].status.Some? && downloads[url].status.value in ResubmittableStatuses) {
        return false;
      }
      downloads := downloads[url := QueuedEntry];
      downloadJobs := downloadJobs + [(url, path)];
      accepted := true;
    }

    /** `_download_task`, with the server's behaviour as `response`. */
    method DownloadTask(url: string, path: string, response: Downloader.Response)
      requires Valid()
      modifies this
      ensures Valid()
      ensures downloads == old(downloads)[url := DownloadRecord(EntryIn(old(downloads), url), url,
        Downloader.Events(response.chunks, response.totalSize, true), Downloader.Outcome(url, path, response), old(clock))]
      ensures clock == old(clock) + 2 + |Downloader.Events(response.chunks, response.totalSize, true)|
      ensures downloadJobs == old(downloadJobs)
      ensures conversionJobs == old(conversionJobs) +
        (match Downloader.Outcome(url, path, response)
         case Success(file) => [(url, file)]
         case Failure(_) => [])
    {
      ghost var m0, t := downloads, clock;
      Update(url, DownloadStartPatch);
      var events, file, outcome := Downloader.DownloadVideo(url, path, response, true);
      FinishTask(url, m0, t, DownloadStartPatch, EventPatches(events), DownloadEndPatch(url, outcome));
      if outcome.Success? {
        conversionJobs := conversionJobs + [(url, outcome.value)];
      }
    }

    /** The conversion `_convert_task` runs on the folder and name of the
        downloaded file. */
    static method ConvertFile(filepath: string, files: set<string>, tools: Converter.Tools)
      returns (made: seq<real>, returned: Converter.ResultDict)
      ensures (made, returned) == ConversionOf(filepath, files, tools)
    {
      var parts := Split(filepath);
      made, returned := Converter.ConvertVideo(parts.0, parts.1, files, tools, true);
    }

    /** `_convert_task`, with the files that exist and the tools' behaviour
        as inputs. */
    method ConvertTask(url: string, filepath: string, files: set<string>, tools: Converter.Tools)
      returns (ghost reports: seq<real>, ghost result: Converter.ResultDict)
      requires Valid()
      modifies this
      ensures Valid()
      ensures (reports, result) == ConversionOf(filepath, files, tools)
      ensures downloads == old(downloads)[url := ConversionRecord(EntryIn(old(downloads), url), filepath,
                                                                  reports, result, old(clock))]
      ensures clock == old(clock) + 2 + |reports|
      ensures downloadJobs == old(downloadJobs) && conversionJobs == old(conversionJobs)
    {
      ghost var m0, t := downloads, clock;
      Update(url, ConversionStartPatch);
      var made, returned := ConvertFile(filepath, files, tools);
      reports, result := made, returned;
      FinishTask(url, m0, t, ConversionStartPatch, ReportPatches(made), ConversionEndPatch(filepath, returned));
    }

    /** The download executor takes the oldest submitted job. */
    method RunNextDownload(response: Downloader.Response)
      requires Valid() && downloadJobs != []
      modifies this
      ensures Valid()
      ensures var (url, path) := old(downloadJobs[0]);
        downloads == old(downloads)[url := DownloadRecord(EntryIn(old(downloads), url), url,
          Downloader.Events(response.chunks, response.totalSize, true), Downloader.Outcome(url, path, response), old(clock))]
      ensures clock == old(clock) + 2 + |Downloader.Events(response.chunks, response.totalSize, true)|
      ensures downloadJobs == old(downloadJobs[1..])
      ensures var (url, path) := old(downloadJobs[0]);
        conversionJobs == old(conversionJobs) +
          (match Downloader.Outcome(url, path, response)
           case Success(file) => [(url, file)]
           case Failure(_) => [])
    {
      var (url, path) := downloadJobs[0];
      downloadJobs := downloadJobs[1..];
      DownloadTask(url, path, response);
    }

    /** A conversion executor takes the oldest submitted job. */
    method RunNextConversion(files: set<string>, tools: Converter.Tools)
      returns (ghost reports: seq<real>, ghost result: Converter.ResultDict)
      requires Valid() && conversionJobs != []
      modifies this
      ensures Valid()
      ensures (reports, result) == ConversionOf(old(conversionJobs[0].1), files, tools)
      ensures var (url, filepath) := old(conversionJobs[0]);
        downloads == old(downloads)[url := ConversionRecord(EntryIn(old(downloads), url), filepath,
                                                            reports, result, old(clock))]
      ensures clock == old(clock) + 2 + |reports|
      ensures conversionJobs == old(conversionJobs[1..]) && downloadJobs == old(downloadJobs)
    {
      var (url, filepath) := conversionJobs[0];
      conversionJobs := conversionJobs[1..];
      reports, result := ConvertTask(url, filepath, files, tools);
    }
  }
}
