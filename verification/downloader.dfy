/** `download_video` (backend/downloader.py): the file name derived from the
    URL, the chunk loop that writes the body and accumulates the byte count,
    and the progress reports with their speed and ETA texts. The HTTP
    response is an input: the chunks in order, each with the elapsed time at
    which it was handled, and the exception, if any, raised after them. */
module Downloader {
  import opened Wrappers
  import opened Text
  import opened PosixPath
  import opened Sanitize

  // ---------------------------------------------------------------------
  // File name
  // ---------------------------------------------------------------------

  /** `s.split(c)[0]`: the text before the first `c`. */
  function BeforeFirst(s: string, c: char): (r: string)
    ensures c !in r && StartsWith(s, r)
    ensures |r| < |s| ==> s[|r|] == c
  {
    if s == [] || s[0] == c then []
    else
      var rest := BeforeFirst(s[1..], c);
      assert s[..1 + |rest|] == [s[0]] + s[1..][..|rest|];
      [s[0]] + rest
  }

  /** `url.split('?')[0].split('/')[-1]`: the last path segment of the URL
      without its query. */
  function UrlSegment(url: string): (seg: string)
    ensures '/' !in seg && '?' !in seg
    ensures EndsWith(BeforeFirst(url, '?'), seg)
  {
    var path := BeforeFirst(url, '?');
    var seg := Basename(path);
    AbsentFromSuffix(path, seg, '?');
    seg
  }

  lemma AbsentFromSuffix(s: string, t: string, c: char)
    requires EndsWith(s, t) && c !in s
    ensures c !in t
  {
    forall k | 0 <= k < |t|
      ensures t[k] != c
    {
      assert t[k] == s[|s| - |t| + k] && s[|s| - |t| + k] in s;
    }
  }

  /** A URL without a query is its own path. */
  lemma NoQueryKept(s: string)
    requires '?' !in s
    ensures BeforeFirst(s, '?') == s
  {
    var r := BeforeFirst(s, '?');
    assert forall j :: 0 <= j < |s| ==> s[j] in s;
    assert s[..|r|] == s;
  }

  /** The name the downloaded file is saved under. */
  function FilenameFromUrl(url: string): (name: string)
    ensures NoForbidden(name)
  {
    SanitizeAndStrip(UrlSegment(url))
  }

  /** The query does not contribute to the segment. */
  lemma QueryIgnored(path: string, query: string)
    requires '?' !in path
    ensures UrlSegment(path + "?" + query) == UrlSegment(path)
  {
    var url := path + "?" + query;
    var b := BeforeFirst(url, '?');
    assert url[|path|] == '?';
    assert forall k :: 0 <= k < |path| ==> url[k] == path[k] && path[k] != '?';
    assert |b| == |path|;
    assert b == path;
    assert BeforeFirst(path, '?') == path by {
      var p := BeforeFirst(path, '?');
      assert |p| == |path|;
    }
  }

  /** The directories before the last `/` do not contribute either: the name
      is the sanitised last segment. */
  lemma LastSegmentNamed(dir: string, seg: string)
    requires '/' !in seg && '?' !in seg && '?' !in dir
    ensures FilenameFromUrl(dir + "/" + seg) == SanitizeAndStrip(seg)
  {
    SegmentAfterLastSlash(dir, seg);
  }

  lemma SegmentAfterLastSlash(dir: string, seg: string)
    requires '/' !in seg && '?' !in seg && '?' !in dir
    ensures UrlSegment(dir + "/" + seg) == seg
  {
    var url := dir + "/" + seg;
    assert '?' !in url by {
      forall k | 0 <= k < |url|
        ensures url[k] != '?'
      {
        if k < |dir| {
          assert url[k] == dir[k] && dir[k] in dir;
        } else if k > |dir| {
          assert url[k] == seg[k - |dir| - 1] && seg[k - |dir| - 1] in seg;
        }
      }
    }
    NoQueryKept(url);
    BasenameAfterSlash(dir, seg);
  }

  // ---------------------------------------------------------------------
  // Speed and ETA texts
  // ---------------------------------------------------------------------

  /** `int(x // 60)` and `int(x % 60)`: whole minutes, and the whole seconds
      left over, which are below 60. */
  function EtaParts(x: real): (parts: (int, int))
    ensures 0 <= parts.1 < 60
    ensures (parts.0 * 60 + parts.1) as real <= x < (parts.0 * 60 + parts.1 + 1) as real
  {
    var m := (x / 60.0).Floor;
    var rest := x - 60.0 * m as real;
    (m, rest.Floor)
  }

  /** `f"{m}m {s}s"` for an ETA of `x` seconds. */
  function EtaText(x: real): (t: string)
    ensures EndsWith(t, "s")
  {
    var (m, s) := EtaParts(x);
    IntText(m) + "m " + IntText(s) + "s"
  }

  /** On whole seconds the ETA is the quotient and the remainder by 60. */
  lemma EtaOfWholeSeconds(n: nat)
    ensures EtaParts(n as real) == (n / 60, n % 60)
    ensures EtaText(n as real) == NatText(n / 60) + "m " + NatText(n % 60) + "s"
  {
    var (m, s) := EtaParts(n as real);
    assert m * 60 + s == n;
  }

  /** The ETA is given only when the speed is positive. */
  function Eta(totalSize: int, bytesDone: nat, speed: real): (eta: Option<string>)
    ensures eta.Some? <==> speed > 0.0
  {
    if speed > 0.0 then Some(EtaText((totalSize - bytesDone) as real / speed)) else None
  }

  /** Bytes per second so far; zero before any time has elapsed. */
  function Speed(bytesDone: nat, elapsed: real): (speed: real)
    ensures speed > 0.0 <==> elapsed > 0.0 && bytesDone > 0
  {
    if elapsed > 0.0 then
      RatioPositive(bytesDone as real, elapsed);
      bytesDone as real / elapsed
    else 0.0
  }

  lemma RatioPositive(a: real, b: real)
    requires a >= 0.0 && b > 0.0
    ensures a / b > 0.0 <==> a > 0.0
  {
    assert a / b * b == a;
  }

  /** One call of the progress callback. */
  datatype ProgressEvent = ProgressEvent(percentage: real, speed: string, eta: Option<string>)

  /** The callback's arguments after `bytesDone` bytes, `elapsed` seconds in. */
  function EventAt(bytesDone: nat, totalSize: int, elapsed: real): (e: ProgressEvent)
    requires totalSize > 0
    ensures e.percentage == bytesDone as real / totalSize as real * 100.0
    ensures EndsWith(e.speed, " MB/s")
    ensures e.eta.Some? <==> elapsed > 0.0 && bytesDone > 0
  {
    var speed := Speed(bytesDone, elapsed);
    ProgressEvent(bytesDone as real / totalSize as real * 100.0,
                  FixedTwo(speed / (1024.0 * 1024.0)) + " MB/s",
                  Eta(totalSize, bytesDone, speed))
  }

  // ---------------------------------------------------------------------
  // The chunk loop
  // ---------------------------------------------------------------------

  /** A chunk of the body and the elapsed time when it was handled. */
  datatype Chunk = Chunk(data: seq<bv8>, elapsed: real)

  /** The bytes of the chunks, in order. */
  function Content(chunks: seq<Chunk>): seq<bv8> {
    if chunks == [] then [] else Content(chunks[..|chunks| - 1]) + chunks[|chunks| - 1].data
  }

  /** The sum of the chunk lengths. */
  function TotalBytes(chunks: seq<Chunk>): nat {
    if chunks == [] then 0 else TotalBytes(chunks[..|chunks| - 1]) + |chunks[|chunks| - 1].data|
  }

  /** The number of non-empty chunks. */
  function NonEmptyCount(chunks: seq<Chunk>): nat {
    if chunks == [] then 0
    else NonEmptyCount(chunks[..|chunks| - 1]) + (if chunks[|chunks| - 1].data != [] then 1 else 0)
  }

  /** The progress reports: one per non-empty chunk, when a callback is given
      and the size is known. */
  function Events(chunks: seq<Chunk>, totalSize: int, notify: bool): seq<ProgressEvent> {
    if chunks == [] then []
    else
      var last := chunks[|chunks| - 1];
      Events(chunks[..|chunks| - 1], totalSize, notify)
      + (if last.data != [] && notify && totalSize > 0
         then [EventAt(|Content(chunks)|, totalSize, last.elapsed)] else [])
  }

  /** Writes the chunks in order, counting the bytes and reporting progress. */
  method StreamToFile(chunks: seq<Chunk>, totalSize: int, notify: bool)
    returns (file: seq<bv8>, bytesDownloaded: nat, events: seq<ProgressEvent>)
    ensures file == Content(chunks)
    ensures bytesDownloaded == TotalBytes(chunks)
    ensures events == Events(chunks, totalSize, notify)
  {
    file, bytesDownloaded, events := [], 0, [];
    for i := 0 to |chunks|
      invariant file == Content(chunks[..i])
      invariant bytesDownloaded == TotalBytes(chunks[..i])
      invariant events == Events(chunks[..i], totalSize, notify)
    {
      var chunk := chunks[i];
      assert chunks[..i + 1][..i] == chunks[..i];
      if chunk.data != [] {
        file := file + chunk.data;
        bytesDownloaded := bytesDownloaded + |chunk.data|;
        if notify && totalSize > 0 {
          ContentLength(chunks[..i + 1]);
          events := events + [EventAt(bytesDownloaded, totalSize, chunk.elapsed)];
        }
      }
    }
    assert chunks[..|chunks|] == chunks;
  }

  /** The byte count is the length of what was written. */
  lemma {:induction false} ContentLength(chunks: seq<Chunk>)
    ensures |Content(chunks)| == TotalBytes(chunks)
  {
    if chunks != [] {
      ContentLength(chunks[..|chunks| - 1]);
    }
  }

  /** The callback fires once per non-empty chunk when a callback is given
      and the size is known, and never otherwise. */
  lemma {:induction false} EventCount(chunks: seq<Chunk>, totalSize: int, notify: bool)
    ensures |Events(chunks, totalSize, notify)| ==
      (if notify && totalSize > 0 then NonEmptyCount(chunks) else 0)
  {
    if chunks != [] {
      EventCount(chunks[..|chunks| - 1], totalSize, notify);
    }
  }

  /** Every reported percentage is at most the share of the bytes written so
      far. */
  lemma {:induction false} EventsBounded(chunks: seq<Chunk>, totalSize: int, notify: bool)
    requires totalSize > 0
    ensures forall k :: 0 <= k < |Events(chunks, totalSize, notify)| ==>
      Events(chunks, totalSize, notify)[k].percentage
        <= |Content(chunks)| as real / totalSize as real * 100.0
  {
    if chunks != [] {
      var init := chunks[..|chunks| - 1];
      EventsBounded(init, totalSize, notify);
      ShareGrows(|Content(init)|, |Content(chunks)|, totalSize);
    }
  }

  lemma ShareGrows(a: nat, b: nat, totalSize: int)
    requires a <= b && totalSize > 0
    ensures a as real / totalSize as real * 100.0 <= b as real / totalSize as real * 100.0
  {
    var t := totalSize as real;
    assert a as real / t <= b as real / t;
  }

  /** The reports never go down. */
  lemma {:induction false} EventsNondecreasing(chunks: seq<Chunk>, totalSize: int, notify: bool)
    requires totalSize > 0
    ensures forall j, k :: 0 <= j < k < |Events(chunks, totalSize, notify)| ==>
      Events(chunks, totalSize, notify)[j].percentage <= Events(chunks, totalSize, notify)[k].percentage
  {
    if chunks != [] {
      var init := chunks[..|chunks| - 1];
      var last := chunks[|chunks| - 1];
      var before := Events(init, totalSize, notify);
      EventsNondecreasing(init, totalSize, notify);
      EventsBounded(init, totalSize, notify);
      if last.data != [] && notify {
        var p := |Content(chunks)| as real / totalSize as real * 100.0;
        var e := EventAt(|Content(chunks)|, totalSize, last.elapsed);
        assert e.percentage == p;
        ShareGrows(|Content(init)|, |Content(chunks)|, totalSize);
        NewEventLargest(before, e);
      } else {
        assert Events(chunks, totalSize, notify) == before;
      }
    }
  }

  lemma NewEventLargest(before: seq<ProgressEvent>, e: ProgressEvent)
    requires forall j, k :: 0 <= j < k < |before| ==> before[j].percentage <= before[k].percentage
    requires forall k :: 0 <= k < |before| ==> before[k].percentage <= e.percentage
    ensures forall j, k :: 0 <= j < k < |before + [e]| ==> (before + [e])[j].percentage <= (before + [e])[k].percentage
  {
  }

  lemma FullShare(n: int)
    requires n > 0
    ensures n as real / n as real * 100.0 == 100.0
  {
  }

  /** When the whole announced size arrives, the last report says 100%. */
  lemma LastEventComplete(chunks: seq<Chunk>, totalSize: int)
    requires totalSize > 0 && chunks != [] && chunks[|chunks| - 1].data != []
    requires |Content(chunks)| == totalSize
    ensures Events(chunks, totalSize, true) != []
    ensures Events(chunks, totalSize, true)[|Events(chunks, totalSize, true)| - 1].percentage == 100.0
  {
    var last := chunks[|chunks| - 1];
    var e := EventAt(totalSize, totalSize, last.elapsed);
    FullShare(totalSize);
    assert Events(chunks, totalSize, true) == Events(chunks[..|chunks| - 1], totalSize, true) + [e];
  }

  // ---------------------------------------------------------------------
  // download_video
  // ---------------------------------------------------------------------

  /** What the server and the disk do: the announced size, the chunks in
      order, and the exception (as its text) raised after them, if any. The
      failure is given, not derived from the file name: an empty name (a URL
      ending in `/`) makes `open` raise `IsADirectoryError`, which such a
      response must record. */
  datatype Response = Response(totalSize: int, chunks: seq<Chunk>, failure: Option<string>)

  /** What `download_video` returns for this response: the path of the file,
      or the text of the exception it re-raises. */
  function Outcome(url: string, savePath: string, response: Response): Result<string, string> {
    match response.failure
    case None => Success(Join(savePath, FilenameFromUrl(url)))
    case Some(e) => Failure(e)
  }

  /** A download that does not fail returns the sanitised name taken from the
      URL, inside the target directory. */
  lemma OutcomeNamed(url: string, savePath: string, response: Response)
    ensures Outcome(url, savePath, response).Success? <==> response.failure.None?
    ensures Outcome(url, savePath, response).Success? ==>
      EndsWith(Outcome(url, savePath, response).value, FilenameFromUrl(url))
    ensures Outcome(url, savePath, response).Failure? ==>
      Outcome(url, savePath, response).error == response.failure.value
  {
  }

  /** The callback reports made, the bytes written, and either the path of the
      file or the text of the exception `download_video` re-raises. */
  method DownloadVideo(url: string, savePath: string, response: Response, notify: bool)
    returns (events: seq<ProgressEvent>, file: seq<bv8>, result: Result<string, string>)
    ensures file == Content(response.chunks)
    ensures events == Events(response.chunks, response.totalSize, notify)
    ensures result == Outcome(url, savePath, response)
  {
    var filename := FilenameFromUrl(url);
    var filepath := Join(savePath, filename);
    var bytesDownloaded;
    file, bytesDownloaded, events := StreamToFile(response.chunks, response.totalSize, notify);
    match response.failure
    case Some(e) => result := Failure(e);
    case None => result := Success(filepath);
  }
}
