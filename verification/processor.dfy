/** The `VideoProcessor` of video_processor.py and of utils/video_processor.py.
    The two share their shape: look up the title, create the working
    directory and its `Images` child, fetch the video with yt-dlp (whole, or
    trimmed to a time window), then hand the file to ffmpeg. They differ in
    what names the working directory in `download_video`, in what the title
    lookup returns, in the yt-dlp and ffmpeg flags, and in the `fps=` value;
    `Variant` selects. The external tools are oracles: their results are
    parameters, and the outcome records the command the processor would run. */
module Processor {
  import opened Wrappers
  import Helpers
  import Decimal
  import Paths
  import VideoId
  import DownloadFormat

  /** `Root` is video_processor.py, `Utils` is utils/video_processor.py. */
  datatype Variant = Root | Utils

  const UserAgent: string :=
    "Mozilla/5.0 (Windows NT 10.0; Win64; x64) AppleWebKit/537.36 "
    + "(KHTML, Like Gecko) Chrome/48.0.2564.82 Safari/537.36 Edge/14.14316"

  const ImagesDirName: string := "Images"
  const NotInitializedMessage: string := "Error: Image directory not properly initialized."
  const NoVideoFilesMessage: string := "Error: No video files found in the video directory."

  /** The processor's attributes; the filesystem travels with them. */
  datatype State = State(
    videoDir: Paths.Path,
    imagesDir: Option<Paths.Path>,
    videoFilename: Option<string>,
    fs: Paths.FileSystem)

  /** `VideoProcessor()`: a uuid-named directory, not created, and no images
      directory, so extracting from a fresh processor stops at the first guard. */
  function Init(parentDir: Paths.Path, uuid: string, fs: Paths.FileSystem): (st: State)
    ensures st.videoDir == parentDir + [uuid] && st.fs == fs
    ensures forall v, rate, listing :: ExtractImages(v, st, rate, listing) == EarlyReturn(NotInitializedMessage)
  {
    State(parentDir + [uuid], None, None, fs)
  }

  /** What yt-dlp's metadata lookup did: found a title, found no title, raised
      `DownloadError`, or was interrupted. */
  datatype TitleLookup = Found(title: string) | Missing | LookupDownloadError | LookupInterrupted

  /** What the yt-dlp download did; on success, the file name yt-dlp prepared. */
  datatype Fetch = Fetched(filename: string) | FetchDownloadError | FetchInterrupted

  /** An uncaught exception. */
  datatype Failure = TitleUnpackError | MkdirFailed(error: Paths.FsError)

  /** How a call ends: `sys.exit(code)`, an uncaught exception, a guard in
      `extract_images` returning after its message, or the ffmpeg command run. */
  datatype Outcome =
    | Exit(code: int)
    | Crash(failure: Failure)
    | EarlyReturn(message: string)
    | Extract(command: seq<string>)

  /** What was asked of yt-dlp, if anything. */
  datatype Request =
    | NoRequest
    | Options(format: string, outtmpl: string, restrictFilenames: bool)
    | Command(argv: seq<string>)

  datatype Run = Run(state: State, request: Request, outcome: Outcome)

  /** `get_video_title` as its callers see it. Both variants sanitise a found
      title and `sys.exit()` (status 0) on a lookup error. Without a title the
      root variant uses `"video"`; the utils variant returns the bare string
      `"video"`, which its callers cannot unpack into a pair. */
  function VideoTitle(v: Variant, lookup: TitleLookup): (r: Result<string, Outcome>)
    ensures lookup.Found? ==> r == Ok(Helpers.RestrictToAscii(lookup.title))
    ensures lookup.Missing? ==> r == (if v == Root then Ok("video") else Err(Crash(TitleUnpackError)))
    ensures lookup.LookupDownloadError? || lookup.LookupInterrupted? ==> r == Err(Exit(0))
    ensures r.Ok? ==> Helpers.IsSafeTitle(r.value)
  {
    match lookup
    case Found(title) => Ok(Helpers.RestrictToAscii(title))
    case Missing => if v == Root then Ok("video") else Err(Crash(TitleUnpackError))
    case LookupDownloadError => Err(Exit(0))
    case LookupInterrupted => Err(Exit(0))
  }

  /** `video_title or str(uuid.uuid4())`: the title, or the uuid when the title is empty. */
  function DirName(title: string, uuid: string): (name: string)
    ensures name == title || name == uuid
    ensures name == "" <==> title == "" && uuid == ""
    ensures title != "" ==> name == title
  {
    if title != "" then title else uuid
  }

  /** `create_directories`: point both attributes at the new directories and
      create them, parents included, tolerating their existence. */
  function CreateDirectories(st: State, parentDir: Paths.Path, title: string, uuid: string): (r: Result<State, Outcome>)
    ensures r.Ok? <==> Paths.Ancestry(parentDir + [DirName(title, uuid), ImagesDirName]) !! st.fs.files
    ensures r.Ok? ==>
              && r.value.videoDir == parentDir + [DirName(title, uuid)]
              && r.value.imagesDir == Some(r.value.videoDir + [ImagesDirName])
              && r.value.videoFilename == st.videoFilename
              && r.value.fs.dirs == st.fs.dirs + Paths.Ancestry(r.value.videoDir + [ImagesDirName])
              && r.value.fs.files == st.fs.files
              && r.value.videoDir in r.value.fs.dirs && r.value.imagesDir.value in r.value.fs.dirs
    ensures r.Err? ==> r.error.Crash?
  {
    var videoDir := parentDir + [DirName(title, uuid)];
    var imagesDir := videoDir + [ImagesDirName];
    Paths.AncestryChild(videoDir, ImagesDirName);
    assert videoDir + [ImagesDirName] == parentDir + [DirName(title, uuid), ImagesDirName];
    match Paths.MakeDirs(st.fs, videoDir)
    case Err(e) => Err(Crash(MkdirFailed(e)))
    case Ok(fs1) =>
      match Paths.MakeDirs(fs1, imagesDir)
      case Err(e) => Err(Crash(MkdirFailed(e)))
      case Ok(fs2) => Ok(State(videoDir, Some(imagesDir), st.videoFilename, fs2))
  }

  /** Creating the directories again, with the same non-empty title, succeeds
      and changes nothing. */
  lemma CreateDirectoriesIdempotent(st: State, parentDir: Paths.Path, title: string, uuid: string)
    requires title != ""
    requires CreateDirectories(st, parentDir, title, uuid).Ok?
    ensures CreateDirectories(CreateDirectories(st, parentDir, title, uuid).value, parentDir, title, uuid)
            == CreateDirectories(st, parentDir, title, uuid)
  {
  }

  /** With an empty title every call draws a fresh uuid: a second call makes
      another directory, beside the first one, which stays. */
  lemma CreateDirectoriesFreshUuid(st: State, parentDir: Paths.Path, u1: string, u2: string)
    requires u1 != u2
    requires CreateDirectories(st, parentDir, "", u1).Ok?
    ensures var st1 := CreateDirectories(st, parentDir, "", u1).value;
            var r := CreateDirectories(st1, parentDir, "", u2);
            && (r.Ok? <==> Paths.Ancestry(parentDir + [u2, ImagesDirName]) !! st.fs.files)
            && (r.Ok? ==> && r.value.videoDir == parentDir + [u2]
                          && r.value.videoDir != st1.videoDir
                          && st1.videoDir in r.value.fs.dirs && st1.imagesDir.value in r.value.fs.dirs
                          && r.value.videoDir in r.value.fs.dirs)
  {
    var st1 := CreateDirectories(st, parentDir, "", u1).value;
    assert st1.videoDir[|parentDir|] == u1;
  }

  /** The value after `fps=`: the integer as given in the utils variant; in the
      root variant the text of the float `1.0 / fps if fps else 1.0`, which
      is supplied because floating point is not modelled. */
  function FpsText(v: Variant, fps: int, floatRate: string): (text: string)
    ensures v == Utils ==> Decimal.IsIntText(text) && Decimal.ParseInt(text) == fps
    ensures v == Root ==> text == floatRate
  {
    Decimal.ParseIntToString(fps);
    if v == Utils then Decimal.IntToString(fps) else floatRate
  }

  /** `flag` is immediately followed by `value` somewhere in the argument list. */
  predicate HasOption(argv: seq<string>, flag: string, value: string) {
    exists i :: 0 <= i < |argv| - 1 && argv[i] == flag && argv[i + 1] == value
  }

  lemma OptionAt(argv: seq<string>, i: nat, flag: string, value: string)
    requires i < |argv| - 1 && argv[i] == flag && argv[i + 1] == value
    ensures HasOption(argv, flag, value)
  {
  }

  /** An option found in the middle part of an argument list is in the whole list. */
  lemma OptionInContext(a: seq<string>, core: seq<string>, c: seq<string>, i: nat, flag: string, value: string)
    requires i < |core| - 1 && core[i] == flag && core[i + 1] == value
    ensures HasOption(a + core + c, flag, value)
  {
    var w := a + core + c;
    assert w[|a| + i] == flag && w[|a| + i + 1] == value;
    OptionAt(w, |a| + i, flag, value);
  }

  /** The ffmpeg command line of `extract_images`. */
  function FfmpegCommand(v: Variant, vidfile: string, fpsText: string, pattern: string): (cmd: seq<string>)
    ensures |cmd| > 0 && cmd[0] == "ffmpeg" && cmd[|cmd| - 1] == pattern
    ensures HasOption(cmd, "-i", vidfile)
    ensures HasOption(cmd, "-vf", "fps=" + fpsText)
  {
    if v == Root then
      var cmd := ["ffmpeg", "-i", vidfile, "-vf", "fps=" + fpsText, pattern];
      OptionAt(cmd, 1, "-i", vidfile);
      OptionAt(cmd, 3, "-vf", "fps=" + fpsText);
      cmd
    else
      var cmd := ["ffmpeg", "-y", "-i", vidfile, "-vf", "fps=" + fpsText, "-loglevel", "error", pattern];
      OptionAt(cmd, 2, "-i", vidfile);
      OptionAt(cmd, 4, "-vf", "fps=" + fpsText);
      cmd
  }

  /** `extract_images`: return early when the images directory was never set
      or when the concatenated paths of the files in the working directory are
      empty; otherwise run ffmpeg on that concatenation, writing
      `Images/frame_%d.png`. `listing` is what `iterdir` finds there. */
  function ExtractImages(v: Variant, st: State, fpsText: string, listing: seq<string>): (o: Outcome)
    ensures st.imagesDir.None? <==> o == EarlyReturn(NotInitializedMessage)
    ensures st.imagesDir.Some? && |listing| == 0 <==> o == EarlyReturn(NoVideoFilesMessage)
    ensures st.imagesDir.Some? && |listing| > 0 <==> o.Extract?
    ensures o.Extract? ==> o.command == FfmpegCommand(v, Paths.ConcatFilePaths(st.videoDir, listing), fpsText,
                                                      Paths.ToStr(st.imagesDir.value + ["frame_%d.png"]))
  {
    if st.imagesDir.None? then EarlyReturn(NotInitializedMessage)
    else
      var vidfile := Paths.ConcatFilePaths(st.videoDir, listing);
      if vidfile == "" then EarlyReturn(NoVideoFilesMessage)
      else Extract(FfmpegCommand(v, vidfile, fpsText, Paths.ToStr(st.imagesDir.value + ["frame_%d.png"])))
  }

  /** With exactly one file in the working directory, ffmpeg reads that file. */
  lemma ExtractImagesSingleFile(v: Variant, st: State, fpsText: string, name: string)
    requires st.imagesDir.Some?
    ensures ExtractImages(v, st, fpsText, [name]).Extract?
    ensures HasOption(ExtractImages(v, st, fpsText, [name]).command, "-i", Paths.ToStr(st.videoDir + [name]))
  {
    Paths.ConcatFilePathsSingle(st.videoDir, name);
  }

  /** With two or more files, the path handed to ffmpeg is none of them. */
  lemma ExtractImagesSeveralFiles(v: Variant, st: State, fpsText: string, listing: seq<string>, k: nat)
    requires st.imagesDir.Some? && |listing| >= 2 && k < |listing|
    ensures ExtractImages(v, st, fpsText, listing).Extract?
    ensures Paths.ConcatFilePaths(st.videoDir, listing) != Paths.ToStr(st.videoDir + [listing[k]])
  {
    Paths.ConcatFilePathsSeveral(st.videoDir, listing, k);
  }

  /** What names the working directory in `download_video`: the sanitised
      title in the root variant, the video id in the utils variant (after the
      title lookup, whose result it then ignores). A URL without an id makes
      `get_video_id` exit with status 0. */
  function DownloadDirName(v: Variant, url: string, lookup: TitleLookup): (r: Result<string, Outcome>)
    ensures v == Root ==> r == VideoTitle(Root, lookup)
    ensures v == Utils && VideoTitle(Utils, lookup).Err? ==> r == VideoTitle(Utils, lookup)
    ensures v == Utils && VideoTitle(Utils, lookup).Ok? ==>
              r == (if VideoId.GetVideoId(url).Some? then Ok(VideoId.GetVideoId(url).value) else Err(Exit(0)))
    ensures r.Ok? ==> r.value != "" || v == Root
  {
    match VideoTitle(v, lookup)
    case Err(o) => Err(o)
    case Ok(title) =>
      if v == Root then Ok(title)
      else match VideoId.GetVideoId(url)
        case None => Err(Exit(0))
        case Some(id) => Ok(id)
  }

  /** `download_video`: name and create the directories, download the whole
      video with the requested quality, and extract only if yt-dlp raised
      nothing; `DownloadError` and an interrupt exit with status 1. */
  function DownloadVideo(v: Variant, st: State, parentDir: Paths.Path, url: string, small: bool,
                         fps: int, floatRate: string, lookup: TitleLookup, uuid: string,
                         fetch: Fetch, listing: seq<string>): (r: Run)
    ensures r.request.Options? ==>
              && r.request.format == (if small then "worst" else "best")
              && r.request.outtmpl == Paths.ToStr(r.state.videoDir) + "/%(title)s.%(ext)s"
              && r.request.restrictFilenames
              && DownloadDirName(v, url, lookup).Ok?
              && r.state.videoDir == parentDir + [DirName(DownloadDirName(v, url, lookup).value, uuid)]
              && r.state.imagesDir == Some(r.state.videoDir + [ImagesDirName])
              && r.state.videoDir in r.state.fs.dirs && r.state.imagesDir.value in r.state.fs.dirs
    ensures v == Utils && r.request.Options? ==>
              VideoId.GetVideoId(url).Some? && r.state.videoDir == parentDir + [VideoId.GetVideoId(url).value]
    ensures r.request.NoRequest? ==> r.state == st && (r.outcome.Exit? || r.outcome.Crash?)
    ensures r.request.Options? && !fetch.Fetched? ==> r.outcome == Exit(1)
    ensures r.request.Options? && fetch.Fetched? ==>
              && r.state.videoFilename == Some(fetch.filename)
              && r.outcome == ExtractImages(v, r.state, FpsText(v, fps, floatRate), listing)
    ensures r.outcome.Extract? ==> r.request.Options? && fetch.Fetched?
    ensures r.outcome != EarlyReturn(NotInitializedMessage)
    ensures r.request.Command? == false
  {
    match DownloadDirName(v, url, lookup)
    case Err(o) => Run(st, NoRequest, o)
    case Ok(name) =>
      match CreateDirectories(st, parentDir, name, uuid)
      case Err(o) => Run(st, NoRequest, o)
      case Ok(st1) =>
        var request := Options(DownloadFormat.Format(small), Paths.ToStr(st1.videoDir) + "/%(title)s.%(ext)s", true);
        match fetch
        case Fetched(filename) =>
          var st2 := st1.(videoFilename := Some(filename));
          Run(st2, request, ExtractImages(v, st2, FpsText(v, fps, floatRate), listing))
        case FetchDownloadError => Run(st1, request, Exit(1))
        case FetchInterrupted => Run(st1, request, Exit(1))
  }

  /** The yt-dlp arguments for cutting `-ss start -to end`, with the user agent quoted. */
  function DownloaderArgs(start: string, end: string): string {
    "-ss " + start + " -to " + end + " -user_agent \"" + UserAgent + "\""
  }

  /** The flags only the utils variant passes, right after the program name. */
  function QuietFlags(v: Variant): seq<string> {
    if v == Utils then ["-q", "-4", "--no-warnings", "-noprogress", "--no-playlist"] else []
  }

  /** The part of the trimmed-download arguments both variants share. */
  function TimeframeCore(videoDir: Paths.Path, title: string, start: string, end: string, url: string): seq<string> {
    ["-f", "18", "--downloader", "ffmpeg",
     "--external-downloader-args", "ffmpeg_i:" + DownloaderArgs(start, end),
     "--restrict-filenames", "--output", Paths.ToStr(videoDir + [title + ".%(ext)s"]), url]
  }

  /** The argument list of `video_timeframe_downloader`: the program name,
      the utils variant's quiet flags, the shared part ending in the URL, then
      the extra arguments. */
  function TimeframeArgs(v: Variant, videoDir: Paths.Path, title: string, start: string, end: string,
                         url: string, extra: seq<string>): (argv: seq<string>)
    ensures |argv| > |extra| + 1 && argv[0] == "yt-dlp"
    ensures argv[|argv| - |extra| - 1] == url && argv[|argv| - |extra|..] == extra
  {
    var argv := ["yt-dlp"] + QuietFlags(v) + TimeframeCore(videoDir, title, start, end, url) + extra;
    assert argv[|argv| - |extra|..] == extra;
    argv
  }

  /** The trimmed download asks for format 18, uses ffmpeg as downloader with
      the cut and the user agent as its input arguments, restricts file names,
      and writes `<title>.<ext>` into the working directory. */
  lemma TimeframeArgsOptions(v: Variant, videoDir: Paths.Path, title: string, start: string, end: string,
                             url: string, extra: seq<string>)
    ensures var argv := TimeframeArgs(v, videoDir, title, start, end, url, extra);
            && HasOption(argv, "-f", "18")
            && HasOption(argv, "--downloader", "ffmpeg")
            && HasOption(argv, "--external-downloader-args", "ffmpeg_i:" + DownloaderArgs(start, end))
            && HasOption(argv, "--output", Paths.ToStr(videoDir + [title + ".%(ext)s"]))
            && "--restrict-filenames" in argv
  {
    var lead, core := ["yt-dlp"] + QuietFlags(v), TimeframeCore(videoDir, title, start, end, url);
    var argv := lead + core + extra;
    assert argv == TimeframeArgs(v, videoDir, title, start, end, url, extra);
    OptionInContext(lead, core, extra, 0, "-f", "18");
    OptionInContext(lead, core, extra, 2, "--downloader", "ffmpeg");
    OptionInContext(lead, core, extra, 4, "--external-downloader-args", "ffmpeg_i:" + DownloaderArgs(start, end));
    OptionInContext(lead, core, extra, 7, "--output", Paths.ToStr(videoDir + [title + ".%(ext)s"]));
    assert argv[|lead| + 6] == core[6];
  }

  /** The utils variant keeps yt-dlp quiet, IPv4-only and off playlists, with
      its five flags right after the program name; the root variant passes the
      format there. */
  lemma TimeframeArgsQuietFlags(v: Variant, videoDir: Paths.Path, title: string, start: string, end: string,
                                url: string, extra: seq<string>)
    ensures var argv := TimeframeArgs(v, videoDir, title, start, end, url, extra);
            && (v == Utils ==> |argv| > 6 && argv[1..6] == ["-q", "-4", "--no-warnings", "-noprogress", "--no-playlist"]
                               && argv[6] == "-f")
            && (v == Root ==> |argv| > 1 && argv[1] == "-f")
  {
    var lead, core := ["yt-dlp"] + QuietFlags(v), TimeframeCore(videoDir, title, start, end, url);
    var argv := lead + core + extra;
    assert argv == TimeframeArgs(v, videoDir, title, start, end, url, extra);
    assert argv[|lead|] == core[0];
    if v == Utils {
      assert argv[1..6] == lead[1..6];
    }
  }

  /** `video_timeframe_downloader`: name the directory by the sanitised title,
      run yt-dlp with the cut; a non-zero exit status exits with status 1,
      status 0 records `<title>.mp4` as the video file and extracts. */
  function TimeframeDownloader(v: Variant, st: State, parentDir: Paths.Path, url: string,
                               start: string, end: string, fps: int, floatRate: string,
                               extra: seq<string>, lookup: TitleLookup, uuid: string,
                               exitCode: int, listing: seq<string>): (r: Run)
    ensures r.request.Command? ==>
              && VideoTitle(v, lookup).Ok?
              && r.state.videoDir == parentDir + [DirName(VideoTitle(v, lookup).value, uuid)]
              && r.state.imagesDir == Some(r.state.videoDir + [ImagesDirName])
              && r.state.videoDir in r.state.fs.dirs && r.state.imagesDir.value in r.state.fs.dirs
              && r.request.argv == TimeframeArgs(v, r.state.videoDir, VideoTitle(v, lookup).value, start, end, url, extra)
    ensures r.request.NoRequest? ==> r.state == st && (r.outcome.Exit? || r.outcome.Crash?)
    ensures r.request.Command? && exitCode != 0 ==> r.outcome == Exit(1) && r.state.videoFilename == st.videoFilename
    ensures r.request.Command? && exitCode == 0 ==>
              && r.state.videoFilename == Some(Paths.ToStr(r.state.videoDir + [VideoTitle(v, lookup).value + ".mp4"]))
              && r.outcome == ExtractImages(v, r.state, FpsText(v, fps, floatRate), listing)
    ensures r.outcome.Extract? ==> r.request.Command? && exitCode == 0
    ensures r.outcome != EarlyReturn(NotInitializedMessage)
    ensures r.request.Options? == false
  {
    match VideoTitle(v, lookup)
    case Err(o) => Run(st, NoRequest, o)
    case Ok(title) =>
      match CreateDirectories(st, parentDir, title, uuid)
      case Err(o) => Run(st, NoRequest, o)
      case Ok(st1) =>
        var request := Command(TimeframeArgs(v, st1.videoDir, title, start, end, url, extra));
        if exitCode != 0 then Run(st1, request, Exit(1))
        else
          var st2 := st1.(videoFilename := Some(Paths.ToStr(st1.videoDir + [title + ".mp4"])));
          Run(st2, request, ExtractImages(v, st2, FpsText(v, fps, floatRate), listing))
  }

  /** When the trimmed download leaves exactly `<title>.mp4` in the working
      directory, ffmpeg reads the file recorded as `video_filename`, although
      `extract_images` finds it by scanning the directory. */
  lemma TimeframeExtractsRecordedFile(v: Variant, st: State, parentDir: Paths.Path, url: string,
                                      start: string, end: string, fps: int, floatRate: string,
                                      extra: seq<string>, lookup: TitleLookup, uuid: string)
    requires VideoTitle(v, lookup).Ok?
    requires CreateDirectories(st, parentDir, VideoTitle(v, lookup).value, uuid).Ok?
    ensures var r := TimeframeDownloader(v, st, parentDir, url, start, end, fps, floatRate, extra, lookup, uuid,
                                         0, [VideoTitle(v, lookup).value + ".mp4"]);
            && r.outcome.Extract?
            && r.state.videoFilename.Some?
            && HasOption(r.outcome.command, "-i", r.state.videoFilename.value)
  {
    var title := VideoTitle(v, lookup).value;
    var st1 := CreateDirectories(st, parentDir, title, uuid).value;
    var st2 := st1.(videoFilename := Some(Paths.ToStr(st1.videoDir + [title + ".mp4"])));
    ExtractImagesSingleFile(v, st2, FpsText(v, fps, floatRate), title + ".mp4");
  }
}
