/** The download routes of the HTTP API (backend/api/download.py): the
    admission sequence of `download`, the progress snapshot, the clear
    endpoint and the queue statistics. The file system is an input: whether
    creating the target directory fails, and the set of paths that exist. */
module DownloadApi {
  import opened Wrappers
  import opened Text
  import opened PosixPath
  import opened Sanitize
  import opened PathGuard
  import opened QueueManager
  import Downloader

  /** `DownloadRequest`. */
  datatype Request = Request(url: string, path: string, title: string)

  /** The dictionary a successful `download` returns. */
  datatype Reply = Reply(status: string, message: string)

  function QueuedMessage(url: string): string {
    "Download for " + url + " queued. Conversion will start automatically after download."
  }

  const InProgress: HttpError := HttpError(409, "Download already in progress for this URL.")

  function DirectoryFailed(e: string): HttpError {
    HttpError(500, "Server could not create target directory: " + e)
  }

  function AlreadyExists(name: string): HttpError {
    HttpError(409, "File '" + name + "' already exists at the chosen location.")
  }

  // ---------------------------------------------------------------------
  // download
  // ---------------------------------------------------------------------

  /** The name the downloader is expected to save under: the sanitiser
      applied to the last segment of the title. */
  function ExpectedFilename(title: string): (name: string)
    ensures NoForbidden(name) && '/' !in name
  {
    var name := SanitizeAndStrip(Basename(title));
    assert '/' !in name by {
      assert forall c :: c in name ==> !Forbidden(c);
    }
    name
  }

  /** `(directory / name).exists()`, once the directory exists: an empty name
      or `.` names the directory itself and `..` its parent, which exist. */
  predicate TargetExists(dir: seq<string>, name: string, files: set<string>) {
    name == "" || name == "." || name == ".." || PathText(dir + [name]) in files
  }

  /** What `download` answers, given the directory creation's error, if any,
      the existing paths and the progress map when the request arrives. */
  function DownloadResponse(base: seq<string>, req: Request, mkdirError: Option<string>,
                            files: set<string>, downloads: map<string, Record>): Result<Reply, HttpError>
    requires AllNames(base)
  {
    match ResolveAndValidate(base, req.path)
    case Failure(e) => Failure(e)
    case Success(dir) =>
      if mkdirError.Some? then Failure(DirectoryFailed(mkdirError.value))
      else if TargetExists(dir, ExpectedFilename(req.title), files) then
        Failure(AlreadyExists(ExpectedFilename(req.title)))
      else if InFlight(downloads, req.url) then Failure(InProgress)
      else Success(Reply("queued", QueuedMessage(req.url)))
  }

  /** The directory a request names, as the text handed to the queue. */
  function TargetDirText(base: seq<string>, req: Request): string
    requires AllNames(base)
  {
    match ResolveAndValidate(base, req.path)
    case Success(dir) => PathText(dir)
    case Failure(_) => ""
  }

  /** `download`: the store changes only when the request is queued. */
  method Download(store: ProgressStore, base: seq<string>, req: Request,
                  mkdirError: Option<string>, files: set<string>)
    returns (r: Result<Reply, HttpError>)
    requires store.Valid() && AllNames(base)
    modifies store
    ensures store.Valid()
    ensures r == DownloadResponse(base, req, mkdirError, files, old(store.downloads))
    ensures r.Success? ==> store.downloads == old(store.downloads)[req.url := QueuedEntry]
                           && store.downloadJobs == old(store.downloadJobs) + [(req.url, TargetDirText(base, req))]
    ensures r.Failure? ==> store.downloads == old(store.downloads) && store.downloadJobs == old(store.downloadJobs)
    ensures store.clock == old(store.clock) && store.conversionJobs == old(store.conversionJobs)
  {
    var resolved := ResolveAndValidate(base, req.path);
    if resolved.Failure? {
      return Failure(resolved.error);
    }
    var dir := resolved.value;
    if mkdirError.Some? {
      return Failure(DirectoryFailed(mkdirError.value));
    }
    var name := ExpectedFilename(req.title);
    if TargetExists(dir, name, files) {
      return Failure(AlreadyExists(name));
    }
    var accepted := store.AddDownloadJob(req.url, PathText(dir));
    if !accepted {
      return Failure(InProgress);
    }
    r := Success(Reply("queued", QueuedMessage(req.url)));
  }

  /** Each refusal has its own status code, and they come in this order: the
      path, the directory, the existing file, the job already in flight. */
  lemma DownloadRefusals(base: seq<string>, req: Request, mkdirError: Option<string>,
                         files: set<string>, downloads: map<string, Record>)
    requires AllNames(base)
    ensures var r := DownloadResponse(base, req, mkdirError, files, downloads);
      var resolved := ResolveAndValidate(base, req.path);
      && (resolved.Failure? ==> r == Failure(TraversalDenied))
      && (resolved.Success? && mkdirError.Some? ==> r.Failure? && r.error.status == 500)
      && ((resolved.Success? && mkdirError.None? && TargetExists(resolved.value, ExpectedFilename(req.title), files))
          ==> r == Failure(AlreadyExists(ExpectedFilename(req.title))))
      && (r.Success? <==>
            && resolved.Success? && mkdirError.None?
            && !TargetExists(resolved.value, ExpectedFilename(req.title), files)
            && !InFlight(downloads, req.url))
      && (r.Failure? ==> r.error.status in {403, 409, 500})
  {
  }

  /** An existing file is reported whatever the progress map holds, so the
      store is never consulted for it. */
  lemma ExistingFileIgnoresStore(base: seq<string>, req: Request, files: set<string>,
                                 d1: map<string, Record>, d2: map<string, Record>)
    requires AllNames(base)
    requires ResolveAndValidate(base, req.path).Success?
    requires TargetExists(ResolveAndValidate(base, req.path).value, ExpectedFilename(req.title), files)
    ensures DownloadResponse(base, req, None, files, d1) == DownloadResponse(base, req, None, files, d2)
    ensures DownloadResponse(base, req, None, files, d1).Failure?
  {
  }

  /** For a URL without `?`, a title whose last segment is the URL's last
      segment names the file the downloader saves. */
  lemma SameNameAsDownloader(title: string, dir: string, seg: string)
    requires Basename(title) == seg
    requires '/' !in seg && '?' !in seg && '?' !in dir
    ensures ExpectedFilename(title) == Downloader.FilenameFromUrl(dir + "/" + seg)
  {
    Downloader.LastSegmentNamed(dir, seg);
  }

  /** A queued request goes to the directory that passed the containment test. */
  lemma QueuedUnderBase(base: seq<string>, req: Request, mkdirError: Option<string>,
                        files: set<string>, downloads: map<string, Record>)
    requires AllNames(base)
    requires DownloadResponse(base, req, mkdirError, files, downloads).Success?
    ensures ResolveAndValidate(base, req.path).Success?
    ensures var dir := ResolveAndValidate(base, req.path).value;
      base <= dir && TargetDirText(base, req) == PathText(dir)
  {
  }

  // ---------------------------------------------------------------------
  // get_progress and clear_progress
  // ---------------------------------------------------------------------

  /** `get_progress`: the progress map as it is. */
  method GetProgress(store: ProgressStore) returns (snapshot: map<string, Record>)
    ensures snapshot == store.downloads
  {
    snapshot := store.downloads;
  }

  function ClearedMessage(count: nat): string {
    "Cleared " + NatText(count) + " finished entries from progress list."
  }

  /** The message gives back the count it was made from. */
  lemma ClearedMessageCount(a: nat, b: nat)
    requires ClearedMessage(a) == ClearedMessage(b)
    ensures a == b
  {
    var pre, post := "Cleared ", " finished entries from progress list.";
    var m := ClearedMessage(a);
    assert m == pre + NatText(a) + post;
    assert m == pre + NatText(b) + post;
    assert |NatText(a)| == |NatText(b)|;
    assert NatText(a) == m[|pre|..|m| - |post|];
    assert NatText(b) == m[|pre|..|m| - |post|];
    NatTextRoundTrip(a);
    NatTextRoundTrip(b);
  }

  /** `clear_progress_endpoint`: clears and reports the number removed. */
  method ClearProgress(store: ProgressStore) returns (message: string)
    requires store.Valid()
    modifies store
    ensures store.Valid()
    ensures store.downloads == Cleared(old(store.downloads))
    ensures message == ClearedMessage(|FinishedUrls(old(store.downloads))|)
    ensures store.clock == old(store.clock)
    ensures store.downloadJobs == old(store.downloadJobs) && store.conversionJobs == old(store.conversionJobs)
  {
    var count := store.ClearFinished();
    message := ClearedMessage(count);
  }

  // ---------------------------------------------------------------------
  // get_queue_stats
  // ---------------------------------------------------------------------

  datatype Stats = Stats(totalJobs: nat, byStatus: map<string, nat>)

  /** An entry without a status makes `progress["status"]` raise, which the
      framework turns into a 500. */
  const MissingStatus: HttpError := HttpError(500, "Internal Server Error")

  /** The entries among `keys` whose status is `s`. */
  ghost function Holders(m: map<string, Record>, keys: set<string>, s: string): set<string> {
    set u | u in keys && u in m && m[u].status == Some(s)
  }

  /** `h` counts the statuses of the entries among `keys`: exactly the
      statuses that occur are keys, each with the number of its entries. */
  ghost predicate IsHistogram(m: map<string, Record>, keys: set<string>, h: map<string, nat>) {
    && (forall s :: s in h <==> Holders(m, keys, s) != {})
    && (forall s :: s in h ==> h[s] == |Holders(m, keys, s)|)
  }

  /** The sum of the counts. */
  ghost function Total(h: map<string, nat>): nat
    decreases |h|
  {
    if h == map[] then 0
    else
      var k :| k in h;
      assert |h - {k}| < |h| by {
        assert (h - {k}).Keys == h.Keys - {k};
      }
      h[k] + Total(h - {k})
  }

  /** Any key can be taken out first. */
  lemma {:induction false} TotalRemove(h: map<string, nat>, k: string)
    requires k in h
    ensures Total(h) == h[k] + Total(h - {k})
    decreases |h|
  {
    var j :| j in h && Total(h) == h[j] + Total(h - {j});
    if j != k {
      assert (h - {j}).Keys == h.Keys - {j};
      assert (h - {k}).Keys == h.Keys - {k};
      TotalRemove(h - {j}, k);
      TotalRemove(h - {k}, j);
      assert (h - {j}) - {k} == (h - {k}) - {j};
    }
  }

  /** Counting one more entry adds one to the sum. */
  lemma TotalIncrement(h: map<string, nat>, s: string)
    ensures Total(h[s := (if s in h then h[s] else 0) + 1]) == Total(h) + 1
  {
    var h' := h[s := (if s in h then h[s] else 0) + 1];
    TotalRemove(h', s);
    if s in h {
      TotalRemove(h, s);
      assert h' - {s} == h - {s};
    } else {
      assert h' - {s} == h;
    }
  }

  /** The holders of a status once `u` is counted too. */
  lemma HoldersStep(m: map<string, Record>, keys: set<string>, u: string, t: string)
    requires u in m
    ensures Holders(m, keys + {u}, t) == Holders(m, keys, t) + (if m[u].status == Some(t) then {u} else {})
  {
  }

  /** The statuses the entries among `keys` have. */
  ghost function StatusesIn(m: map<string, Record>, keys: set<string>): set<string> {
    set u | u in keys && u in m && m[u].status.Some? :: m[u].status.value
  }

  /** The histogram of the statuses of the entries among `keys`. */
  ghost function Histogram(m: map<string, Record>, keys: set<string>): map<string, nat> {
    map s | s in StatusesIn(m, keys) :: |Holders(m, keys, s)|
  }

  /** `Histogram` counts, for each status that occurs and only for those, the
      entries that have it. */
  lemma HistogramCounts(m: map<string, Record>, keys: set<string>)
    ensures IsHistogram(m, keys, Histogram(m, keys))
  {
    forall s {
      StatusHeld(m, keys, s);
    }
  }

  /** A status occurs exactly when some entry has it. */
  lemma StatusHeld(m: map<string, Record>, keys: set<string>, s: string)
    ensures s in StatusesIn(m, keys) <==> Holders(m, keys, s) != {}
  {
    if s in StatusesIn(m, keys) {
      var u :| u in keys && u in m && m[u].status.Some? && m[u].status.value == s;
      assert u in Holders(m, keys, s);
    }
    if Holders(m, keys, s) != {} {
      var u :| u in Holders(m, keys, s);
      assert m[u].status.value == s;
    }
  }

  /** `h[s] = h.get(s, 0) + 1`. */
  function Counted(h: map<string, nat>, s: string): map<string, nat> {
    h[s := (if s in h then h[s] else 0) + 1]
  }

  /** Counting the entry `u` adds its status to those that occur. */
  lemma StatusesAdd(m: map<string, Record>, keys: set<string>, u: string)
    requires u in m && m[u].status.Some?
    ensures StatusesIn(m, keys + {u}) == StatusesIn(m, keys) + {m[u].status.value}
  {
  }

  /** Counting the entry `u` adds one holder to its status only. */
  lemma HoldersAdd(m: map<string, Record>, keys: set<string>, u: string, t: string)
    requires u in m && u !in keys
    ensures |Holders(m, keys + {u}, t)| == |Holders(m, keys, t)| + (if m[u].status == Some(t) then 1 else 0)
  {
    HoldersStep(m, keys, u, t);
    assert u !in Holders(m, keys, t);
  }

  /** Counting the entry `u` adds one to the count of its status. */
  lemma HistogramAdd(m: map<string, Record>, keys: set<string>, u: string)
    requires u in m && u !in keys && m[u].status.Some?
    ensures Histogram(m, keys + {u}) == Counted(Histogram(m, keys), m[u].status.value)
  {
    var s := m[u].status.value;
    var before, after := Histogram(m, keys), Histogram(m, keys + {u});
    StatusesAdd(m, keys, u);
    assert after.Keys == Counted(before, s).Keys;
    forall t | t in after
      ensures after[t] == Counted(before, s)[t]
    {
      HoldersAdd(m, keys, u, t);
      if t == s {
        StatusHeld(m, keys, t);
      }
    }
  }

  /** When every entry has a status, the counts add up to the number of
      entries. */
  lemma {:induction false} HistogramTotal(m: map<string, Record>, keys: set<string>)
    requires forall u :: u in keys ==> u in m && m[u].status.Some?
    ensures Total(Histogram(m, keys)) == |keys|
    decreases |keys|
  {
    if keys == {} {
      assert Histogram(m, keys) == map[];
    } else {
      var u :| u in keys;
      var rest := keys - {u};
      HistogramTotal(m, rest);
      HistogramAdd(m, rest, u);
      TotalIncrement(Histogram(m, rest), m[u].status.value);
      assert rest + {u} == keys;
    }
  }

  /** The loop of `get_queue_stats`: `missing` when it meets an entry without
      a status; otherwise the histogram of all the statuses. */
  method CountStatuses(progress: map<string, Record>) returns (h: map<string, nat>, missing: bool)
    ensures missing <==> exists u :: u in progress && progress[u].status.None?
    ensures !missing ==> h == Histogram(progress, progress.Keys)
  {
    h := map[];
    var left := progress.Keys;
    ghost var done: set<string> := {};
    assert Histogram(progress, done) == map[];
    while left != {}
      invariant left <= progress.Keys && done == progress.Keys - left
      invariant h == Histogram(progress, done)
      invariant forall u :: u in done ==> progress[u].status.Some?
      decreases |left|
    {
      var u :| u in left;
      var status := progress[u].status;
      if status.None? {
        return h, true;
      }
      HistogramAdd(progress, done, u);
      h := Counted(h, status.value);
      left := left - {u};
      done := done + {u};
    }
    assert done == progress.Keys;
    missing := false;
  }

  /** `get_queue_stats`: the number of entries and the histogram of their
      statuses, whose counts add up to the number of entries. */
  method QueueStats(progress: map<string, Record>) returns (r: Result<Stats, HttpError>)
    ensures r.Failure? <==> exists u :: u in progress && progress[u].status.None?
    ensures r.Failure? ==> r.error == MissingStatus
    ensures r.Success? ==>
      && r.value.totalJobs == |progress|
      && r.value.byStatus == Histogram(progress, progress.Keys)
      && Total(r.value.byStatus) == r.value.totalJobs
  {
    var byStatus, missing := CountStatuses(progress);
    if missing {
      r := Failure(MissingStatus);
    } else {
      HistogramTotal(progress, progress.Keys);
      r := Success(Stats(|progress|, byStatus));
    }
  }
}
