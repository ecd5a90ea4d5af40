/** ytdl_img_extractor.py: the processor that downloads with yt-dlp and then
    samples frames itself (see Sampler), and its argument check. */
module YtdlExtractor {
  import opened Wrappers
  import Helpers
  import Paths
  import Sampler
  import DownloadFormat

  /** `argparse.ArgumentTypeError` and the message `check_value` gives it. */
  datatype ArgError = ArgumentTypeError(message: string)

  const NotPositiveMessage: string := "argument must be a positive integer value"

  /** The module-level `check_value`, on the integer `int(arg)` produced. */
  function CheckValue(num: int): (r: Result<int, ArgError>)
    ensures r.Ok? <==> num > 0
    ensures r.Ok? ==> r.value == num
    ensures r.Err? ==> r.error == ArgumentTypeError(NotPositiveMessage)
  {
    Helpers.CheckPositive(num, ArgumentTypeError(NotPositiveMessage))
  }

  /** The processor: a working directory named by a fresh uuid when it is
      constructed, and its `Images` child. */
  datatype Processor = Processor(video: Paths.Path, images: Paths.Path)

  /** `VideoProcessor()`; `uuid` stands for `str(uuid.uuid1())`. */
  function NewProcessor(parentDir: Paths.Path, uuid: string): (p: Processor)
    ensures p.video == parentDir + [uuid] && p.images == p.video + ["Images"]
  {
    Processor(parentDir + [uuid], parentDir + [uuid, "Images"])
  }

  /** The yt-dlp options `download_video` passes. */
  datatype Options = Options(format: string, outtmpl: string)

  /** What the yt-dlp download did: finished, raised `DownloadError`, or was interrupted. */
  datatype Fetch = Fetched | DownloadError | Interrupted

  /** How `download_video` ends: `sys.exit()` (status 0), an uncaught `mkdir`
      error, or a finished sampling run over the resolved video file. */
  datatype Outcome<F> =
    | Exit(code: int)
    | Crash(error: Paths.FsError)
    | Completed(vidfile: string, images: seq<Sampler.Image<F>>)

  datatype Run<F> = Run(options: Options, fs: Paths.FileSystem, outcome: Outcome<F>)

  /** `download_video`. The download comes first; only after it succeeded are
      the two directories created, and then the frames are sampled. `listing`
      is what `iterdir` finds in the working directory afterwards, and
      `decode` the frames the decoder reads from a path. */
  method DownloadVideo<F>(p: Processor, small: bool, fps: nat, fs: Paths.FileSystem, fetch: Fetch,
                          listing: seq<string>, decode: string -> seq<F>)
    returns (run: Run<F>)
    requires fps > 0
    requires |p.video| > 0 && p.images == p.video + ["Images"]
    ensures run.options.format == (if small then "worst" else "best")
    ensures run.options.outtmpl == Paths.ToStr(p.video) + "/%(title)s.%(ext)s"
    ensures !fetch.Fetched? ==> run.outcome == Exit(0) && run.fs == fs
    ensures fetch.Fetched? ==> (run.outcome.Completed? <==> Paths.Ancestry(p.images) !! fs.files)
    ensures run.outcome.Completed? ==>
              && fetch.Fetched?
              && p.video in run.fs.dirs && p.images in run.fs.dirs
              && run.outcome.vidfile == Paths.ConcatFilePaths(p.video, listing)
              && run.outcome.images == Sampler.Sample(decode(run.outcome.vidfile), fps)
  {
    var options := Options(DownloadFormat.Format(small), Paths.ToStr(p.video) + "/%(title)s.%(ext)s");
    if !fetch.Fetched? {
      return Run(options, fs, Exit(0));
    }
    Paths.AncestryChild(p.video, "Images");
    var made := Paths.MakeDirs(fs, p.video);
    if made.Err? {
      return Run(options, fs, Crash(made.error));
    }
    var made' := Paths.MakeDirs(made.value, p.images);
    if made'.Err? {
      return Run(options, made.value, Crash(made'.error));
    }
    var vidfile := Paths.ConcatFilePaths(p.video, listing);
    var images, _ := Sampler.ExtractImages(decode(vidfile), fps);
    return Run(options, made'.value, Completed(vidfile, images));
  }
}
