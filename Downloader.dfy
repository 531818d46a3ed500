/** The YouTube front end: the video-id extractor, the extension probe after the yt-dlp CLI
    and the fallback chain of download strategies. Each strategy other than the CLI probe is
    an abstract result; the file system is a set of existing paths. */
module Downloader {
  import opened Wrappers
  import opened Text

  // ---------------------------------------------------------------- extract_youtube_video_id

  const IdLength: nat := 11

  /** `[0-9A-Za-z_-]`. */
  predicate IsIdChar(c: char) {
    ('0' <= c <= '9') || ('A' <= c <= 'Z') || ('a' <= c <= 'z') || c == '_' || c == '-'
  }

  /** Eleven id characters start at `p`. */
  predicate IdRunAt(url: string, p: nat) {
    p + IdLength <= |url| && forall i :: p <= i < p + IdLength ==> IsIdChar(url[i])
  }

  /** Where the captured id starts for a match of `(?:v=|/)` at `p`: after `v=` or after `/`. */
  function IdStart(url: string, p: nat): nat {
    if p + 1 < |url| && url[p] == 'v' && url[p + 1] == '=' then p + 2 else p + 1
  }

  /** `(?:v=|\/)([0-9A-Za-z_-]{11}).*` matches at `p`. At one position at most one of the
      two alternatives can start, since one begins with `v` and the other with `/`. */
  predicate MatchAt(url: string, p: nat) {
    p < |url| &&
    ((p + 1 < |url| && url[p] == 'v' && url[p + 1] == '=' && IdRunAt(url, p + 2))
     || (url[p] == '/' && IdRunAt(url, p + 1)))
  }

  /** The leftmost match position at or after `from`, or `|url|`. */
  function LeftmostMatch(url: string, from: nat): (p: nat)
    requires from <= |url|
    ensures from <= p <= |url|
    ensures p < |url| ==> MatchAt(url, p)
    ensures forall q :: from <= q < p ==> !MatchAt(url, q)
    decreases |url| - from
  {
    if from == |url| || MatchAt(url, from) then from else LeftmostMatch(url, from + 1)
  }

  /** `extract_youtube_video_id(url)`: `re.search` takes the leftmost match, and group 1 is
      the eleven characters after `v=` or `/`. */
  function ExtractVideoId(url: string): (r: Option<string>)
    ensures r.Some? ==> |r.value| == IdLength && forall i :: 0 <= i < |r.value| ==> IsIdChar(r.value[i])
    ensures r.None? <==> forall p :: 0 <= p < |url| ==> !MatchAt(url, p)
  {
    var p := LeftmostMatch(url, 0);
    if p == |url| then None
    else
      var s := IdStart(url, p);
      assert IdRunAt(url, s);
      var id := url[s..s + IdLength];
      assert forall i :: 0 <= i < |id| ==> id[i] == url[s + i];
      Some(id)
  }

  /** The id comes from the leftmost match: every earlier position fails. */
  lemma ExtractVideoIdLeftmost(url: string)
    requires ExtractVideoId(url).Some?
    ensures exists p :: (0 <= p < |url| && MatchAt(url, p) && (forall q :: 0 <= q < p ==> !MatchAt(url, q))
                         && ExtractVideoId(url).value == url[IdStart(url, p)..IdStart(url, p) + IdLength])
  {
    var p := LeftmostMatch(url, 0);
    assert MatchAt(url, p);
  }

  /** Nothing is checked after the eleven characters, and any `/` can start a match: a
      twelve-character run after a `/` gives its first eleven. */
  lemma LongerRunGivesPrefix()
    ensures ExtractVideoId("/abcdefghijkl") == Some("abcdefghijk")
  {
    var url := "/abcdefghijkl";
    assert url[0] == '/' && |url| == 13;
    assert forall i :: 1 <= i < 12 ==> IsIdChar(url[i]);
    assert IdRunAt(url, 1);
    assert MatchAt(url, 0);
    assert LeftmostMatch(url, 0) == 0;
    assert IdStart(url, 0) == 1;
    assert url[1..12] == "abcdefghijk";
  }

  // ---------------------------------------------------------------- download_audio_using_ytdlp

  /** The extensions probed after the mp3 check, in order. */
  const ProbedExtensions: seq<string> := ["mp3", "m4a", "opus", "webm", "wav"]

  const ExtPlaceholder: string := "%(ext)s"

  /** The paths the probe checks, in order: the mp3 path and then one per extension. */
  function Candidates(outputPath: string): (cs: seq<string>)
    ensures |cs| == 1 + |ProbedExtensions|
  {
    [ReplaceAll(outputPath, ExtPlaceholder, "mp3")]
      + seq(|ProbedExtensions|, i requires 0 <= i < |ProbedExtensions| => ReplaceAll(outputPath, ExtPlaceholder, ProbedExtensions[i]))
  }

  /** The first of `paths` that exists, if any. */
  function FirstExisting(paths: seq<string>, existing: set<string>): (r: Option<string>)
    ensures r.Some? ==> r.value in existing && r.value in paths
    ensures r.None? <==> forall i :: 0 <= i < |paths| ==> paths[i] !in existing
  {
    if paths == [] then None
    else if paths[0] in existing then Some(paths[0])
    else FirstExisting(paths[1..], existing)
  }

  /** Every path before the one returned is missing. */
  lemma {:induction false} FirstExistingIsFirst(paths: seq<string>, existing: set<string>)
    requires FirstExisting(paths, existing).Some?
    ensures exists k :: (0 <= k < |paths| && paths[k] == FirstExisting(paths, existing).value
                         && forall j :: 0 <= j < k ==> paths[j] !in existing)
  {
    if paths[0] !in existing {
      FirstExistingIsFirst(paths[1..], existing);
      var k :| 0 <= k < |paths[1..]| && paths[1..][k] == FirstExisting(paths[1..], existing).value
        && forall j :: 0 <= j < k ==> paths[1..][j] !in existing;
      assert paths[k + 1] == FirstExisting(paths, existing).value;
      assert forall j :: 1 <= j < k + 1 ==> paths[j] == paths[1..][j - 1];
    } else {
      assert paths[0] == FirstExisting(paths, existing).value;
    }
  }

  /** A missing path at the head of the rest changes nothing. */
  lemma SkipMissing(paths: seq<string>, i: nat, existing: set<string>)
    requires i < |paths| && paths[i] !in existing
    ensures FirstExisting(paths[i..], existing) == FirstExisting(paths[i + 1..], existing)
  {
    assert paths[i..][1..] == paths[i + 1..];
  }

  /** The probe of `download_audio_using_ytdlp` once yt-dlp has succeeded: the mp3 path
      first, then one path per extension, stopping at the first that exists. `probed` lists
      the paths checked, in order. */
  method ProbeOutput(outputPath: string, existing: set<string>)
    returns (r: Option<string>, ghost probed: seq<string>)
    ensures r == FirstExisting(Candidates(outputPath), existing)
    ensures probed <= Candidates(outputPath)
    ensures r.Some? ==> probed != [] && probed[|probed| - 1] == r.value
    ensures r.None? ==> probed == Candidates(outputPath)
  {
    ghost var cs := Candidates(outputPath);
    var mp3Path := ReplaceAll(outputPath, ExtPlaceholder, "mp3");
    probed := [mp3Path];
    assert probed == cs[..1];
    if mp3Path in existing {
      TakeIsPrefix(cs, 1);
      return Some(mp3Path), probed;
    }
    for i := 0 to |ProbedExtensions|
      invariant probed == cs[..i + 1]
      invariant FirstExisting(cs, existing) == FirstExisting(cs[i + 1..], existing)
    {
      var possiblePath := ReplaceAll(outputPath, ExtPlaceholder, ProbedExtensions[i]);
      assert possiblePath == cs[i + 1];
      TakeSnoc(cs, i + 1);
      probed := probed + [possiblePath];
      if possiblePath in existing {
        TakeIsPrefix(cs, i + 2);
        return Some(possiblePath), probed;
      }
      SkipMissing(cs, i + 1, existing);
    }
    TakeAll(cs);
    r := None;
  }

  /** `download_audio_using_ytdlp(youtube_url, output_path)` after the subprocess: `exitCode`
      is yt-dlp's return code and `existing` the files on disk. `probed` lists the paths
      checked, in order. */
  method DownloadAudioUsingYtdlp(outputPath: string, exitCode: int, existing: set<string>)
    returns (r: Option<string>, ghost probed: seq<string>)
    ensures exitCode != 0 ==> r == None && probed == []
    ensures exitCode == 0 ==> r == FirstExisting(Candidates(outputPath), existing)
    ensures exitCode == 0 ==> probed <= Candidates(outputPath)
    ensures exitCode == 0 && r.Some? ==> probed != [] && probed[|probed| - 1] == r.value
    ensures exitCode == 0 && r.None? ==> probed == Candidates(outputPath)
  {
    if exitCode != 0 {
      return None, [];
    }
    r, probed := ProbeOutput(outputPath, existing);
  }

  /** `os.path.join(directory, name)` for a relative `name`. */
  function PathJoin(directory: string, name: string): string {
    if directory == "" || directory[|directory| - 1] == '/' then directory + name
    else directory + "/" + name
  }

  /** The placeholder alone becomes the extension. */
  lemma PlaceholderAlone(ext: string)
    ensures ReplaceAll(ExtPlaceholder, ExtPlaceholder, ext) == ext
  {
    assert ExtPlaceholder[..|ExtPlaceholder|] == ExtPlaceholder;
    assert ExtPlaceholder[|ExtPlaceholder|..] == [];
    assert ReplaceAll([], ExtPlaceholder, ext) == [];
  }

  /** `<dir>/<id>.` holds no `%` when the directory holds none. */
  lemma StemHasNoPercent(directory: string, videoId: string)
    requires forall i :: 0 <= i < |directory| ==> directory[i] != '%'
    requires forall i :: 0 <= i < |videoId| ==> IsIdChar(videoId[i])
    ensures forall i :: 0 <= i < |PathJoin(directory, videoId + ".")| ==> PathJoin(directory, videoId + ".")[i] != '%'
  {
    var sep := if directory == "" || directory[|directory| - 1] == '/' then "" else "/";
    var stem := directory + sep + (videoId + ".");
    assert PathJoin(directory, videoId + ".") == stem;
    forall i | 0 <= i < |stem| ensures stem[i] != '%' {
      if i < |directory| {
        assert stem[i] == directory[i];
      } else if i < |directory| + |sep| {
        assert stem[i] == '/';
      } else if i < |directory| + |sep| + |videoId| {
        assert stem[i] == videoId[i - |directory| - |sep|];
      } else {
        assert stem[i] == '.';
      }
    }
  }

  lemma RegroupTail(head: string, name: string, tail: string)
    ensures head + (name + "." + tail) == head + (name + ".") + tail
  {
  }

  /** For an output template `<dir>/<id>.%(ext)s`, whose directory has no `%`, each probed
      path is `<dir>/<id>.<ext>`. */
  lemma TemplateSubstitution(directory: string, videoId: string, ext: string)
    requires forall i :: 0 <= i < |directory| ==> directory[i] != '%'
    requires forall i :: 0 <= i < |videoId| ==> IsIdChar(videoId[i])
    ensures ReplaceAll(PathJoin(directory, videoId + "." + ExtPlaceholder), ExtPlaceholder, ext)
         == PathJoin(directory, videoId + "." + ext)
  {
    var stem := PathJoin(directory, videoId + ".");
    var sep := if directory == "" || directory[|directory| - 1] == '/' then "" else "/";
    assert stem == directory + sep + (videoId + ".");
    assert PathJoin(directory, videoId + "." + ExtPlaceholder) == directory + sep + (videoId + "." + ExtPlaceholder);
    assert PathJoin(directory, videoId + "." + ext) == directory + sep + (videoId + "." + ext);
    RegroupTail(directory + sep, videoId, ExtPlaceholder);
    RegroupTail(directory + sep, videoId, ext);
    StemHasNoPercent(directory, videoId);
    assert ExtPlaceholder[0] == '%';
    ReplaceAllSkipsPrefix(stem, ExtPlaceholder, ExtPlaceholder, ext);
    PlaceholderAlone(ext);
  }

  // ---------------------------------------------------------------- download_youtube_video

  /** The download strategies, and the test audio that stands in when all fail. */
  datatype Strategy = YtdlpDirect | YtdlpCli | Pytube | MoviePy | TestAudio

  /** The four strategies in the order they are tried. */
  const StrategyOrder: seq<Strategy> := [YtdlpDirect, YtdlpCli, Pytube, MoviePy]

  /** `audio_path` is truthy: a path that is not "". */
  predicate Truthy(path: Option<string>) {
    path.Some? && path.value != ""
  }

  /** The JSON object `download_youtube_video` prints; `success` is `Downloaded?`. */
  datatype DownloadResult =
    | Downloaded(audioPath: string, videoId: string, isTestAudio: bool)
    | DownloadFailed(error: string)

  /** What one strategy gives: the CLI strategy is the probe above on the output template,
      the others are `run`. */
  function Outcome(s: Strategy, outputPath: string, cliExitCode: int, existing: set<string>,
                   run: Strategy -> Option<string>): Option<string>
  {
    if s == YtdlpCli then (if cliExitCode != 0 then None else FirstExisting(Candidates(outputPath), existing))
    else run(s)
  }

  /** The index in `StrategyOrder` of the first strategy from `i` on that yields a truthy
      path, or 4 when none does. */
  function Winner(outputPath: string, cliExitCode: int, existing: set<string>,
                  run: Strategy -> Option<string>, i: nat): (w: nat)
    requires i <= |StrategyOrder|
    ensures i <= w <= |StrategyOrder|
    ensures w < |StrategyOrder| ==> Truthy(Outcome(StrategyOrder[w], outputPath, cliExitCode, existing, run))
    ensures forall j :: i <= j < w ==> !Truthy(Outcome(StrategyOrder[j], outputPath, cliExitCode, existing, run))
    decreases |StrategyOrder| - i
  {
    if i == |StrategyOrder| then i
    else if Truthy(Outcome(StrategyOrder[i], outputPath, cliExitCode, existing, run)) then i
    else Winner(outputPath, cliExitCode, existing, run, i + 1)
  }

  /** The four strategies of `download_youtube_video`, each tried only while no earlier one
      has given a truthy path. */
  method TryStrategies(outputPath: string, cliExitCode: int, existing: set<string>,
                       run: Strategy -> Option<string>)
    returns (audioPath: Option<string>, attempted: seq<Strategy>)
    ensures var w := Winner(outputPath, cliExitCode, existing, run, 0);
      && (w < |StrategyOrder| ==>
            attempted == StrategyOrder[..w + 1] && Truthy(audioPath)
            && audioPath == Outcome(StrategyOrder[w], outputPath, cliExitCode, existing, run))
      && (w == |StrategyOrder| ==> attempted == StrategyOrder && !Truthy(audioPath))
  {
    attempted := [];
    audioPath := None;
    if !Truthy(audioPath) {
      audioPath := run(YtdlpDirect);
      attempted := attempted + [YtdlpDirect];
    }
    if !Truthy(audioPath) {
      var probedPath, probed := DownloadAudioUsingYtdlp(outputPath, cliExitCode, existing);
      audioPath := probedPath;
      attempted := attempted + [YtdlpCli];
    }
    if !Truthy(audioPath) {
      audioPath := run(Pytube);
      attempted := attempted + [Pytube];
    }
    if !Truthy(audioPath) {
      audioPath := run(MoviePy);
      attempted := attempted + [MoviePy];
    }
  }

  /** `download_youtube_video(url, output_dir)`: `cliExitCode` and `existing` feed the CLI
      probe, `run` gives the other strategies' results, and `attempted` lists the
      strategies invoked, in order. */
  method DownloadYoutubeVideo(url: string, outputDir: string, cliExitCode: int, existing: set<string>,
                              run: Strategy -> Option<string>)
    returns (out: DownloadResult, attempted: seq<Strategy>)
    ensures ExtractVideoId(url).None? ==>
      out == DownloadFailed("Could not extract video ID from URL: " + url) && attempted == []
    ensures ExtractVideoId(url).Some? ==>
      var videoId := ExtractVideoId(url).value;
      var outputPath := PathJoin(outputDir, videoId + "." + ExtPlaceholder);
      var w := Winner(outputPath, cliExitCode, existing, run, 0);
      && (w < |StrategyOrder| ==>
            attempted == StrategyOrder[..w + 1]
            && out == Downloaded(Outcome(StrategyOrder[w], outputPath, cliExitCode, existing, run).value, videoId, false))
      && (w == |StrategyOrder| ==>
            attempted == StrategyOrder + [TestAudio]
            && out == (if Truthy(run(TestAudio)) then Downloaded(run(TestAudio).value, videoId, true)
                       else DownloadFailed("Failed to create test audio file")))
  {
    var videoIdMatch := ExtractVideoId(url);
    if videoIdMatch.None? || videoIdMatch.value == "" {
      return DownloadFailed("Could not extract video ID from URL: " + url), [];
    }
    var videoId := videoIdMatch.value;
    var outputPath := PathJoin(outputDir, videoId + "." + ExtPlaceholder);
    var audioPath;
    audioPath, attempted := TryStrategies(outputPath, cliExitCode, existing, run);
    if !Truthy(audioPath) {
      audioPath := run(TestAudio);
      attempted := attempted + [TestAudio];
      if Truthy(audioPath) {
        return Downloaded(audioPath.value, videoId, true), attempted;
      } else {
        return DownloadFailed("Failed to create test audio file"), attempted;
      }
    }
    out := Downloaded(audioPath.value, videoId, false);
  }
}
