/** `convert_video` (backend/converter.py): the pre-flight decisions, the
    parse of FFmpeg's progress file, the progress reporter and the mapping of
    the outcome to a result dictionary. The file system is the set of paths
    that exist; the two tools are inputs that say how they behave. */
module Converter {
  import opened Wrappers
  import opened Text
  import opened PosixPath
  import opened Sanitize

  /** A result dictionary: string keys to string values. */
  type ResultDict = map<string, string>

  // ---------------------------------------------------------------------
  // Pre-flight
  // ---------------------------------------------------------------------

  /** `s.lower()` on ASCII letters. */
  function LowerText(s: string): (r: string)
    ensures |r| == |s| && forall i :: 0 <= i < |s| ==> r[i] == LowerAscii(s[i])
  {
    seq(|s|, i requires 0 <= i < |s| => LowerAscii(s[i]))
  }

  /** The paths `convert_video` works with: the input
      (`os.path.join(folder, video_path_in_folder)`), the extension of its
      base name, and the output, which is that base name with the extension
      replaced by `.mp4`, in `folder`. */
  datatype Paths = Paths(input: string, ext: string, output: string)

  function PathsOf(folder: string, name: string): Paths {
    var input := Join(folder, name);
    var (stem, ext) := SplitExt(Basename(input));
    Paths(input, ext, Join(folder, stem + ".mp4"))
  }

  /** The joined name of a file without separators is its base name. */
  lemma BasenameOfJoin(folder: string, file: string)
    requires file != [] && '/' !in file
    ensures Basename(Join(folder, file)) == file
    ensures EndsWith(Join(folder, file), file)
  {
    assert !StartsWith(file, "/") by { assert file[0] != '/'; }
    if folder == [] {
      assert Join(folder, file) == file;
      BasenameAfterSlash([], file);
    } else if EndsWith(folder, "/") {
      assert Join(folder, file) == folder + file;
      assert folder == folder[..|folder| - 1] + "/";
      BasenameAfterSlash(folder[..|folder| - 1], file);
    } else {
      BasenameAfterSlash(folder, file);
    }
  }

  /** The stem of a name without separators has none either. */
  lemma StemHasNoSlash(b: string)
    requires '/' !in b
    ensures '/' !in SplitExt(b).0
  {
    var stem := SplitExt(b).0;
    assert stem == b[..|stem|];
    assert forall i :: 0 <= i < |stem| ==> stem[i] == b[i];
  }

  /** The output's base name is the input's stem followed by `.mp4`, and the
      output sits in the folder the input was joined onto. */
  lemma OutputNamed(folder: string, name: string)
    ensures var ps := PathsOf(folder, name);
      && Basename(ps.output) == SplitExt(Basename(ps.input)).0 + ".mp4"
      && ps.output == Join(folder, Basename(ps.output))
      && EndsWith(ps.output, ".mp4")
  {
    var ps := PathsOf(folder, name);
    var b := Basename(ps.input);
    var stem := SplitExt(b).0;
    StemHasNoSlash(b);
    var file := stem + ".mp4";
    assert ps.output == Join(folder, file);
    Mp4NameHasNoSlash(stem);
    BasenameOfJoin(folder, file);
    EndsWithPart(ps.output, stem, ".mp4");
  }

  lemma Mp4NameHasNoSlash(stem: string)
    requires '/' !in stem
    ensures '/' !in stem + ".mp4"
  {
    var f := stem + ".mp4";
    forall i | 0 <= i < |f|
      ensures f[i] != '/'
    {
      if i < |stem| {
        assert f[i] == stem[i] && stem[i] in stem;
      } else {
        assert f[i] == ".mp4"[i - |stem|];
      }
    }
  }

  lemma EndsWithPart(s: string, x: string, y: string)
    requires EndsWith(s, x + y)
    ensures EndsWith(s, y)
  {
    assert s[|s| - |y|..] == (x + y)[|x|..];
  }

  /** An input whose extension is `.MP4` is not its own output. */
  lemma UpperCaseMp4NotOwnOutput(folder: string, name: string)
    requires PathsOf(folder, name).ext == ".MP4"
    ensures PathsOf(folder, name).input != PathsOf(folder, name).output
  {
    var ps := PathsOf(folder, name);
    OutputNamed(folder, name);
    var b := Basename(ps.input);
    var stem := SplitExt(b).0;
    assert b == stem + ".MP4";
    assert b[|b| - 2] == 'P';
    SecondLastOf(ps.input, b);
    SecondLastOf(ps.output, ".mp4");
  }

  lemma SecondLastOf(s: string, y: string)
    requires EndsWith(s, y) && |y| >= 2
    ensures s[|s| - 2] == y[|y| - 2]
  {
    assert s[|s| - |y|..][|y| - 2] == s[|s| - 2];
  }

  const NotFoundError: string := "file_not_found"

  /** The decisions taken before any tool runs: a missing input fails, an MP4
      input is never re-encoded, and an existing output is not overwritten.
      `None` means the conversion goes ahead. */
  function Preflight(ps: Paths, files: set<string>): (r: Option<ResultDict>)
    ensures r.Some? ==> "status" in r.value && "message" in r.value
  {
    if ps.input !in files then
      Some(map["status" := "failed", "error" := NotFoundError,
               "message" := "File not found for conversion: " + ps.input])
    else if LowerText(ps.ext) == ".mp4" then
      if ps.input == ps.output && ps.output in files then
        Some(map["status" := "skipped", "message" := "File is already an MP4!", "output_file" := ps.output])
      else
        Some(map["status" := "converted", "message" := "Already MP4, no re-conversion needed.",
                 "output_file" := ps.input])
    else if ps.output in files then
      Some(map["status" := "skipped", "message" := "Output file already exists: " + ps.output])
    else
      None
  }

  /** A missing input fails with `file_not_found`, and nothing else happens. */
  lemma MissingInputFails(ps: Paths, files: set<string>)
    requires ps.input !in files
    ensures Preflight(ps, files).Some?
    ensures Preflight(ps, files).value["status"] == "failed"
    ensures Preflight(ps, files).value["error"] == NotFoundError
    ensures "output_file" !in Preflight(ps, files).value
  {
  }

  /** An MP4 input is skipped when it already is its own output, and is
      otherwise reported as `converted` with its own path as the output. */
  lemma Mp4InputNotReencoded(ps: Paths, files: set<string>)
    requires ps.input in files
    requires LowerText(ps.ext) == ".mp4"
    ensures Preflight(ps, files).Some?
    ensures var r := Preflight(ps, files).value;
      && (r["status"] == "skipped" <==> ps.input == ps.output)
      && (r["status"] == "skipped" || r["status"] == "converted")
      && r["output_file"] == ps.input
  {
  }

  lemma UpperCaseMp4Lowered()
    ensures LowerText(".MP4") == ".mp4"
  {
  }

  /** An input with an upper-case `.MP4` extension is reported as
      `converted`. */
  lemma UpperCaseMp4Converted(folder: string, name: string, files: set<string>)
    requires PathsOf(folder, name).input in files
    requires PathsOf(folder, name).ext == ".MP4"
    ensures var r := Preflight(PathsOf(folder, name), files);
      && r.Some? && "output_file" in r.value
      && r.value["status"] == "converted"
      && r.value["output_file"] == PathsOf(folder, name).input
  {
    var ps := PathsOf(folder, name);
    UpperCaseMp4NotOwnOutput(folder, name);
    UpperCaseMp4Lowered();
    Mp4InputNotReencoded(ps, files);
  }

  /** A non-MP4 input whose output exists is skipped, with no output file. */
  lemma ExistingOutputSkipped(ps: Paths, files: set<string>)
    requires ps.input in files
    requires LowerText(ps.ext) != ".mp4"
    requires ps.output in files
    ensures Preflight(ps, files).Some?
    ensures Preflight(ps, files).value["status"] == "skipped"
    ensures "output_file" !in Preflight(ps, files).value
  {
  }

  // ---------------------------------------------------------------------
  // The progress file
  // ---------------------------------------------------------------------

  /** The length of the run of ASCII digits at the start of `s` (`\d+` is
      greedy). */
  function DigitRun(s: string): (n: nat)
    ensures n <= |s| && AllDigits(s[..n])
    ensures n == |s| || !IsDigit(s[n])
  {
    if s == [] || !IsDigit(s[0]) then 0
    else
      var n := 1 + DigitRun(s[1..]);
      assert s[..n] == [s[0]] + s[1..][..n - 1];
      n
  }

  const OutTimeKey: string := "out_time_ms="

  /** A match of `out_time_ms=(\d+)` at position `i`: the microseconds. */
  function OutTimeMsAt(line: string, i: nat): Option<nat>
    requires i <= |line|
  {
    var rest := line[i..];
    if StartsWith(rest, OutTimeKey) && DigitRun(rest[|OutTimeKey|..]) > 0 then
      var digits := rest[|OutTimeKey|..];
      Some(DecimalValue(digits[..DigitRun(digits)]))
    else None
  }

  /** `re.search` for `out_time_ms=(\d+)`: the leftmost match from `from` on,
      as its position and value. */
  function FindOutTimeMs(line: string, from: nat): (r: Option<(nat, nat)>)
    requires from <= |line|
    ensures r.Some? ==> from <= r.value.0 <= |line| && OutTimeMsAt(line, r.value.0) == Some(r.value.1)
    decreases |line| - from
  {
    var here := OutTimeMsAt(line, from);
    if here.Some? then Some((from, here.value))
    else if from == |line| then None
    else FindOutTimeMs(line, from + 1)
  }

  /** The match found is the leftmost one, and no match is found only when
      there is none. */
  lemma FindOutTimeMsLeftmost(line: string, from: nat)
    requires from <= |line|
    ensures FindOutTimeMs(line, from).Some? ==>
      forall j :: from <= j < FindOutTimeMs(line, from).value.0 ==> OutTimeMsAt(line, j).None?
    ensures FindOutTimeMs(line, from).None? ==>
      forall j :: from <= j <= |line| ==> OutTimeMsAt(line, j).None?
  {
    forall j | from <= j <= |line| && (FindOutTimeMs(line, from).Some? ==> j < FindOutTimeMs(line, from).value.0)
      ensures OutTimeMsAt(line, j).None?
    {
      NoMatchBefore(line, from, j);
    }
  }

  /** A position the search passes over holds no match. */
  lemma {:induction false} NoMatchBefore(line: string, from: nat, j: nat)
    requires from <= j <= |line|
    requires FindOutTimeMs(line, from).Some? ==> j < FindOutTimeMs(line, from).value.0
    ensures OutTimeMsAt(line, j).None?
    decreases j - from
  {
    if j > from {
      assert OutTimeMsAt(line, from).None?;
      NoMatchBefore(line, from + 1, j);
    }
  }


  function Pow10(n: nat): (p: nat)
    ensures p >= 1
  {
    if n == 0 then 1 else 10 * Pow10(n - 1)
  }

  /** The value of a two-digit field. */
  function TwoDigits(a: char, b: char): nat
    requires IsDigit(a) && IsDigit(b)
  {
    10 * DigitValue(a) + DigitValue(b)
  }

  /** Whether `s` starts with `HH:MM:SS.` followed by at least one digit. */
  predicate IsClockText(s: string) {
    |s| >= 10 && IsDigit(s[0]) && IsDigit(s[1]) && s[2] == ':' && IsDigit(s[3]) && IsDigit(s[4])
    && s[5] == ':' && IsDigit(s[6]) && IsDigit(s[7]) && s[8] == '.' && IsDigit(s[9])
  }

  /** `h * 3600 + m * 60 + s` for `HH:MM:SS.f+`, on exact values. */
  function ClockSeconds(s: string): real
    requires IsClockText(s)
  {
    var frac := s[9..][..DigitRun(s[9..])];
    (TwoDigits(s[0], s[1]) * 3600 + TwoDigits(s[3], s[4]) * 60 + TwoDigits(s[6], s[7])) as real
      + DecimalValue(frac) as real / Pow10(|frac|) as real
  }

  const TimeKey: string := "time="

  /** A match of `time=(\d{2}:\d{2}:\d{2}\.\d+)` at position `i`: the seconds. */
  function TimeAt(line: string, i: nat): Option<real>
    requires i <= |line|
  {
    var rest := line[i..];
    if StartsWith(rest, TimeKey) && IsClockText(rest[|TimeKey|..]) then Some(ClockSeconds(rest[|TimeKey|..]))
    else None
  }

  /** `re.search` for the fallback pattern: the leftmost match from `from` on. */
  function FindTime(line: string, from: nat): (r: Option<real>)
    requires from <= |line|
    ensures r.None? ==> forall j :: from <= j <= |line| ==> TimeAt(line, j).None?
    decreases |line| - from
  {
    match TimeAt(line, from)
    case Some(v) => Some(v)
    case None => if from == |line| then None else FindTime(line, from + 1)
  }

  /** The value found is that of the leftmost match of the fallback pattern. */
  lemma {:induction false} FindTimeLeftmost(line: string, from: nat) returns (j: nat)
    requires from <= |line| && FindTime(line, from).Some?
    ensures from <= j <= |line| && TimeAt(line, j) == FindTime(line, from)
    ensures forall i :: from <= i < j ==> TimeAt(line, i).None?
    decreases |line| - from
  {
    if TimeAt(line, from).Some? {
      j := from;
    } else {
      j := FindTimeLeftmost(line, from + 1);
    }
  }

  /** The time a progress line reports, in seconds: `out_time_ms` first,
      then the clock text. */
  function ParseLine(line: string): Option<real> {
    match FindOutTimeMs(line, 0)
    case Some((_, micros)) => Some(micros as real / 1000000.0)
    case None => FindTime(line, 0)
  }

  /** The line FFmpeg writes is read back as the value written. */
  lemma OutTimeLineRead(micros: nat)
    ensures ParseLine(OutTimeKey + NatText(micros)) == Some(micros as real / 1000000.0)
  {
    var line := OutTimeKey + NatText(micros);
    assert line[0..] == line;
    assert line[..|OutTimeKey|] == OutTimeKey;
    var digits := line[|OutTimeKey|..];
    assert digits == NatText(micros);
    assert DigitRun(digits) == |digits| by {
      var n := DigitRun(digits);
      assert AllDigits(digits);
    }
    assert digits[..|digits|] == digits;
    NatTextRoundTrip(micros);
  }

  /** The time in a list of lines: the value of the last line that has one,
      and 0 when none has. */
  function CurrentTime(lines: seq<string>): real {
    if lines == [] then 0.0
    else match ParseLine(lines[|lines| - 1])
      case Some(t) => t
      case None => CurrentTime(lines[..|lines| - 1])
  }

  /** Lines after the last one with a time do not matter. */
  lemma {:induction false} LastTimedLineWins(before: seq<string>, line: string, after: seq<string>)
    requires ParseLine(line).Some?
    requires forall k :: 0 <= k < |after| ==> ParseLine(after[k]).None?
    ensures CurrentTime(before + [line] + after) == ParseLine(line).value
  {
    if after == [] {
      assert (before + [line])[..|before|] == before;
    } else {
      var all := before + [line] + after;
      assert all[..|all| - 1] == before + [line] + after[..|after| - 1];
      LastTimedLineWins(before, line, after[..|after| - 1]);
    }
  }

  /** `for line in reversed(lines)`, stopping at the first line with a time. */
  method ScanProgressFile(lines: seq<string>) returns (t: real)
    ensures t == CurrentTime(lines)
  {
    t := 0.0;
    var i := |lines|;
    assert lines[..i] == lines;
    while i > 0
      invariant 0 <= i <= |lines|
      invariant CurrentTime(lines) == CurrentTime(lines[..i])
    {
      assert lines[..i][..i - 1] == lines[..i - 1];
      var parsed := ParseLine(lines[i - 1]);
      if parsed.Some? {
        t := parsed.value;
        return;
      }
      i := i - 1;
    }
  }

  // ---------------------------------------------------------------------
  // The progress reporter
  // ---------------------------------------------------------------------

  /** `min(100, max(0, p))`. */
  function Clamp(p: real): (c: real)
    ensures 0.0 <= c <= 100.0
    ensures 0.0 <= p <= 100.0 ==> c == p
  {
    if p > 100.0 then 100.0 else if p < 0.0 then 0.0 else p
  }

  /** The time found in one poll of the progress file; a missing file reads
      as no time. */
  function PollTime(poll: Option<seq<string>>): real {
    match poll
    case None => 0.0
    case Some(lines) => CurrentTime(lines)
  }

  /** What one poll reports, after `last` was reported: the clamped share of
      the duration, when its whole part is larger than that of `last`. */
  function ReportStep(last: real, current: real, duration: real): (r: Option<real>)
    ensures r.Some? ==> 0.0 <= r.value <= 100.0 && r.value.Floor > last.Floor
  {
    if duration > 0.0 && current > 0.0 then
      var p := Clamp(current / duration * 100.0);
      if p.Floor > last.Floor then Some(p) else None
    else None
  }

  /** The reports made over the polls, starting from `last`. */
  function Reports(polls: seq<Option<seq<string>>>, duration: real, last: real, notify: bool): seq<real>
  {
    if polls == [] || !notify then []
    else match ReportStep(last, PollTime(polls[0]), duration)
      case Some(p) => [p] + Reports(polls[1..], duration, p, notify)
      case None => Reports(polls[1..], duration, last, notify)
  }

  lemma ReportsUnfold(rest: seq<Option<seq<string>>>, duration: real, last: real, notify: bool)
    requires rest != [] && notify
    ensures var step := ReportStep(last, PollTime(rest[0]), duration);
      Reports(rest, duration, last, notify)
      == if step.Some? then [step.value] + Reports(rest[1..], duration, step.value, notify)
         else Reports(rest[1..], duration, last, notify)
  {
  }

  /** The polling loop, while FFmpeg runs. */
  method ReportProgress(polls: seq<Option<seq<string>>>, duration: real, notify: bool)
    returns (reports: seq<real>)
    ensures reports == Reports(polls, duration, 0.0, notify)
  {
    reports := [];
    var last := 0.0;
    var i := 0;
    while i < |polls|
      invariant 0 <= i <= |polls|
      invariant reports + Reports(polls[i..], duration, last, notify) == Reports(polls, duration, 0.0, notify)
    {
      var current := 0.0;
      if polls[i].Some? {
        current := ScanProgressFile(polls[i].value);
      }
      assert current == PollTime(polls[i]);
      if notify {
        ReportsUnfold(polls[i..], duration, last, notify);
      }
      assert polls[i..][1..] == polls[i + 1..];
      var step := ReportStep(last, current, duration);
      if notify && step.Some? {
        reports := reports + [step.value];
        last := step.value;
      }
      i := i + 1;
    }
  }

  /** Every report is within [0, 100], and each one's whole part is larger
      than the previous one's (and than that of the starting value). */
  lemma {:induction false} ReportsRise(polls: seq<Option<seq<string>>>, duration: real, last: real, notify: bool)
    ensures forall k :: 0 <= k < |Reports(polls, duration, last, notify)| ==>
      0.0 <= Reports(polls, duration, last, notify)[k] <= 100.0
    ensures forall k :: 0 <= k < |Reports(polls, duration, last, notify)| ==>
      Reports(polls, duration, last, notify)[k].Floor > last.Floor
    ensures forall j, k :: 0 <= j < k < |Reports(polls, duration, last, notify)| ==>
      Reports(polls, duration, last, notify)[j].Floor < Reports(polls, duration, last, notify)[k].Floor
  {
    if polls != [] && notify {
      match ReportStep(last, PollTime(polls[0]), duration)
      case Some(p) =>
        ReportsRise(polls[1..], duration, p, notify);
      case None =>
        ReportsRise(polls[1..], duration, last, notify);
    }
  }

  /** Hence at most 100 reports from a start of 0. */
  lemma {:induction false} ReportsBounded(polls: seq<Option<seq<string>>>, duration: real, last: real, notify: bool)
    requires 0.0 <= last <= 100.0
    ensures |Reports(polls, duration, last, notify)| <= 100 - last.Floor
  {
    if polls != [] && notify {
      match ReportStep(last, PollTime(polls[0]), duration)
      case Some(p) =>
        ReportsBounded(polls[1..], duration, p, notify);
        assert p.Floor <= 100;
      case None =>
        ReportsBounded(polls[1..], duration, last, notify);
    }
  }

  // ---------------------------------------------------------------------
  // The conversion
  // ---------------------------------------------------------------------

  /** What `ffprobe` does: it is missing, exits with an error, prints a
      duration (an empty output reads as 0), or prints something that is not
      a number (the text of the exception raised). */
  datatype Probe = ProbeMissing | ProbeExit | Duration(seconds: real) | ProbeUnreadable(error: string)

  /** What `ffmpeg` does: it is missing; or it runs while the progress file
      is polled (each poll reads its lines, or finds no file) and then exits;
      or, after some polls, starting it or collecting its output raises some
      other exception (a `PermissionError`, a `UnicodeDecodeError` on its
      standard error), whose text is given. */
  datatype Ffmpeg =
    | FfmpegMissing
    | Ran(polls: seq<Option<seq<string>>>, exitCode: int, stderr: string)
    | FfmpegRaised(polls: seq<Option<seq<string>>>, error: string)

  datatype Tools = Tools(probe: Probe, ffmpeg: Ffmpeg)

  const ToolsMissingMessage: string :=
    "FFmpeg or FFprobe command not found. Ensure both are installed and in your system's PATH."

  function ToolsMissing(): ResultDict {
    map["status" := "failed", "error" := "ffmpeg_ffprobe_not_found", "message" := ToolsMissingMessage]
  }

  /** `CalledProcessError`: the message quotes the captured standard error
      (`None` when it was not captured, as for `ffprobe`). */
  function ProcessFailed(filepath: string, stderr: string): ResultDict {
    var message := "Conversion failed for " + filepath + ". FFmpeg error: " + stderr;
    map["status" := "failed", "error" := "conversion_error", "message" := message, "details" := stderr]
  }

  function Unexpected(e: string): ResultDict {
    map["status" := "failed", "error" := "unexpected_error",
        "message" := "An unexpected error occurred during conversion: " + e]
  }

  function Converted(output: string): ResultDict {
    map["status" := "success", "output_file" := output, "message" := "Converted!"]
  }

  /** The progress reports and the result of a conversion, as a function of
      the inputs. */
  function Conversion(ps: Paths, files: set<string>, tools: Tools, notify: bool)
    : (outcome: (seq<real>, ResultDict))
  {
    match Preflight(ps, files)
    case Some(r) => ([], r)
    case None => RunTools(ps, tools, notify)
  }

  /** The part after the pre-flight: probing, encoding and reporting. */
  function RunTools(ps: Paths, tools: Tools, notify: bool): (seq<real>, ResultDict) {
    match tools.probe
    case ProbeMissing => ([], ToolsMissing())
    case ProbeExit => ([], ProcessFailed(ps.input, "None"))
    case ProbeUnreadable(e) => ([], Unexpected(e))
    case Duration(d) =>
      match tools.ffmpeg
      case FfmpegMissing => ([], ToolsMissing())
      case Ran(polls, code, stderr) =>
        var reports := Reports(polls, d, 0.0, notify);
        if code != 0 then (reports, ProcessFailed(ps.input, stderr))
        else (reports + (if notify then [100.0] else []), Converted(ps.output))
      case FfmpegRaised(polls, e) => (Reports(polls, d, 0.0, notify), Unexpected(e))
  }

  /** `convert_video`: the callback reports made and the result returned. */
  method ConvertVideo(folder: string, name: string, files: set<string>, tools: Tools, notify: bool)
    returns (reports: seq<real>, result: ResultDict)
    ensures (reports, result) == Conversion(PathsOf(folder, name), files, tools, notify)
  {
    var ps := PathsOf(folder, name);
    var early := Preflight(ps, files);
    if early.Some? {
      reports, result := [], early.value;
    } else {
      reports, result := ConvertWithTools(ps, tools, notify);
    }
  }

  /** Probing, encoding and reporting, once the pre-flight let the
      conversion go ahead. */
  method ConvertWithTools(ps: Paths, tools: Tools, notify: bool) returns (reports: seq<real>, result: ResultDict)
    ensures (reports, result) == RunTools(ps, tools, notify)
  {
    reports := [];
    match tools.probe {
      case ProbeMissing => result := ToolsMissing();
      case ProbeExit => result := ProcessFailed(ps.input, "None");
      case ProbeUnreadable(e) => result := Unexpected(e);
      case Duration(d) =>
        match tools.ffmpeg {
          case FfmpegMissing => result := ToolsMissing();
          case Ran(polls, code, stderr) =>
            reports := ReportProgress(polls, d, notify);
            if code != 0 {
              result := ProcessFailed(ps.input, stderr);
            } else {
              if notify {
                reports := reports + [100.0];
              } else {
                assert reports + [] == reports;
              }
              result := Converted(ps.output);
            }
          case FfmpegRaised(polls, e) =>
            reports := ReportProgress(polls, d, notify);
            result := Unexpected(e);
        }
    }
  }

  /** Every result names its status and carries a message. */
  lemma ConversionResultShape(ps: Paths, files: set<string>, tools: Tools, notify: bool)
    ensures "status" in Conversion(ps, files, tools, notify).1
    ensures "message" in Conversion(ps, files, tools, notify).1
  {
  }

  /** A clean exit gives `success` with the output path, and the last report
      is 100. */
  lemma CleanExitSucceeds(ps: Paths, files: set<string>, d: real,
                          polls: seq<Option<seq<string>>>, stderr: string)
    requires Preflight(ps, files).None?
    ensures var (reports, r) := Conversion(ps, files, Tools(Duration(d), Ran(polls, 0, stderr)), true);
      && r["status"] == "success" && r["output_file"] == ps.output
      && reports != [] && reports[|reports| - 1] == 100.0
  {
  }

  /** A non-zero exit gives `conversion_error`, with the standard error in
      the message. */
  lemma FailedExitReported(ps: Paths, files: set<string>, d: real,
                           polls: seq<Option<seq<string>>>, code: int, stderr: string, notify: bool)
    requires Preflight(ps, files).None? && code != 0
    ensures var (_, r) := Conversion(ps, files, Tools(Duration(d), Ran(polls, code, stderr)), notify);
      && r["status"] == "failed" && r["error"] == "conversion_error"
      && EndsWith(r["message"], stderr) && "output_file" !in r
  {
  }

  /** An exception other than a missing program, raised once `ffmpeg` has
      started, gives `unexpected_error` with its text, after the reports the
      polls already made. */
  lemma FfmpegErrorReported(ps: Paths, files: set<string>, d: real,
                            polls: seq<Option<seq<string>>>, e: string, notify: bool)
    requires Preflight(ps, files).None?
    ensures var (reports, r) := Conversion(ps, files, Tools(Duration(d), FfmpegRaised(polls, e)), notify);
      && r["status"] == "failed" && r["error"] == "unexpected_error"
      && EndsWith(r["message"], e) && "output_file" !in r
      && reports == Reports(polls, d, 0.0, notify)
  {
  }

  /** Every report lies within [0, 100], whatever happens. */
  lemma ConversionReportsInRange(ps: Paths, files: set<string>, tools: Tools, notify: bool)
    ensures forall k :: 0 <= k < |Conversion(ps, files, tools, notify).0| ==>
      0.0 <= Conversion(ps, files, tools, notify).0[k] <= 100.0
  {
    if Preflight(ps, files).None? && tools.probe.Duration? && !tools.ffmpeg.FfmpegMissing? {
      ReportsRise(tools.ffmpeg.polls, tools.probe.seconds, 0.0, notify);
    }
  }
}
