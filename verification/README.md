# YouTube frame extractor, modelled in Dafny

The program downloads a YouTube video with yt-dlp and turns it into a folder of
still images. The repository has three front ends:

- `ytdl_img_extractor.py` downloads the whole video into a uuid-named
  directory. It then samples the frames itself: it decodes every frame and
  writes the ones whose index is a multiple of `fps` as `frame_<index>.jpg`.
- `video_processor.py` (the root variant) names the working directory after
  the sanitised video title. It can download a whole video or a time window.
  It hands the file to ffmpeg with the filter `fps=1.0/fps`.
- `utils/video_processor.py` (the utils variant) has the same shape with
  these differences:
  - in `download_video`, the directory is named after the video id that a
    regular expression extracts from the URL;
  - it passes more yt-dlp flags;
  - it passes `fps=<fps>` to ffmpeg.

The helpers in `utils/helpers.py` sanitise titles (`restrict_to_ascii`) and
validate the sampling value (`check_value`).

The model is split into these modules:

| module | models |
|---|---|
| `Helpers` | the sanitiser and the value check |
| `Decimal` | `str(int)`, with a parser proved to invert it |
| `Paths` | absolute paths, `str(path)`, and `mkdir(parents=True, exist_ok=True)` over a filesystem of directories and files |
| `Paths` | the scan that joins the paths of the files in a directory into one "video file" string |
| `Sampler` | the frame-sampling loop of `ytdl_img_extractor.py`, over an abstract sequence of decoded frames |
| `YtdlExtractor` | `ytdl_img_extractor.py`: its processor, `download_video` and `check_value` |
| `VideoId` | `get_video_id`: `re.search` with its pattern, following the regex engine's leftmost-first, greedy order |
| `Processor` | both `VideoProcessor` classes, with a `Variant` selecting root or utils |
| `DownloadFormat` | the `worst`/`best` format choice all three front ends share |

yt-dlp, ffmpeg and OpenCV are oracles. What they report is a parameter:

- the title lookup;
- whether the download succeeded;
- the yt-dlp exit status;
- the directory listing;
- the decoded frames.

The model returns the request or command line the processor would issue,
and how the call ends. The random uuid is a parameter too.

Where the code's behaviour may not be what its authors meant, the model
follows the code:

- `sys.exit()` without an argument ends with status 0. The code uses it in
  these cases, so each ends with status 0 even though it is an error:
  - the title lookup fails or is interrupted;
  - `get_video_id` finds no id;
  - the download in `ytdl_img_extractor.py` fails or is interrupted.
- The utils `get_video_title` returns the bare string `"video"` when yt-dlp
  reports no title. Both utils callers unpack its result into a pair, so this
  case ends in an uncaught `ValueError` (`Crash(TitleUnpackError)`).
- The "video file" is built by joining the paths of all files in the working
  directory with no separator:
  - with one file, it is that file's path;
  - with two or more, it is proved to be the path of none of them.

## Model

| member | source | states |
|---|---|---|
| Helpers.RestrictToAscii | utils/helpers.py:37-39 | The result has the title's length and holds only ASCII non-space characters. Each kept character is copied and every other one becomes `_`. |
| Helpers.RestrictToAsciiIdempotent | utils/helpers.py:37-39 | Sanitising twice gives the same result as sanitising once. |
| Helpers.RestrictToAsciiFixpoint | utils/helpers.py:37-39 | The sanitiser leaves a title unchanged exactly when the title already holds only kept characters (ASCII, no space). |
| Helpers.RestrictToAsciiNothingKept | utils/helpers.py:37-39 | A title of only spaces and non-ASCII characters becomes a row of underscores of the same length. |
| Helpers.RestrictToAsciiAppend | utils/helpers.py:37-39 | Sanitising works character by character: it commutes with concatenation. |
| Helpers.CheckPositive | utils/helpers.py:31-34 | The check succeeds exactly for positive values and then returns the value. Otherwise it gives the supplied error. |
| Helpers.CheckValue | utils/helpers.py:25-34 | It rejects exactly the values `<= 0`, with `InvalidFPSValueError`. An accepted value is returned unchanged and is positive. |
| YtdlExtractor.CheckValue | ytdl_img_extractor.py:78-90 | It accepts exactly the positive values and returns them unchanged. Anything else raises `ArgumentTypeError` with the message "argument must be a positive integer value". |
| YtdlExtractor.NewProcessor | ytdl_img_extractor.py:17-20 | The working directory is the parent joined with the uuid, and the image directory is its `Images` child. |
| YtdlExtractor.DownloadVideo | ytdl_img_extractor.py:22-47 | The format is `worst`/`best` by `small`, and the output template is `<video dir>/%(title)s.%(ext)s`. A failed or interrupted download exits with status 0 and creates nothing. After a successful download, sampling happens exactly when both directories can be created. The sampled file is the concatenated listing, and the images are the reference sample of its frames. |
| Sampler.Read | ytdl_img_extractor.py:62-64 | A read returns the next frame and advances by one. At the end it returns nothing and leaves the decoder as it is. |
| Sampler.FrameFileName | ytdl_img_extractor.py:67 | `frame_<count>.jpg` has the fixed prefix and suffix with only digits between, and those digits read back as the count. |
| Sampler.FrameFileNameInjective | ytdl_img_extractor.py:67 | Distinct frame indices give distinct `frame_<n>.jpg` names. |
| Sampler.NumImagesStep | ytdl_img_extractor.py:66-70 | Decoding one more frame adds an image exactly when its index is a multiple of `fps`. That index is then `fps` times the number of images so far. |
| Sampler.NumImagesBound | ytdl_img_extractor.py:60-70 | Image k of a run over `length` frames is frame `k * fps`, which lies below `length`. |
| Sampler.WrittenAllIsSample | ytdl_img_extractor.py:60-73 | What the loop has written once every frame is read is the reference sample. |
| Sampler.ExtractImages | ytdl_img_extractor.py:49-75 | Every frame is decoded, and the count ends at the frame total. The images written are the reference sample: image k is frame `k * fps`, named after its index. There are ceil(frames / fps) of them. Their indices are exactly the multiples of `fps` below the total, in strictly increasing order. |
| Sampler.SampleAt | ytdl_img_extractor.py:66-68 | Image k of the sample is the frame at `k * fps`, written as `frame_<k*fps>.jpg`. |
| Sampler.SampleCoversKept | ytdl_img_extractor.py:66-70 | Every index that `count % fps == 0` keeps is written. |
| Sampler.SampleWithinKept | ytdl_img_extractor.py:66-70 | Every index written is one that `count % fps == 0` keeps. |
| Sampler.SampleIndices | ytdl_img_extractor.py:60-70 | The indices written are exactly the multiples of `fps` below the frame count. |
| Sampler.SampleNamesDistinct | ytdl_img_extractor.py:66-68 | No two images share a file name, so no write overwrites another. |
| Sampler.SampleEveryFrame | ytdl_img_extractor.py:66-70 | With `fps == 1`, every frame is written under its own index. |
| Decimal.NatToString | ytdl_img_extractor.py:67 | `str(count)` is a non-empty digit string. It starts with `0` only for zero, which is spelled `"0"`. |
| Decimal.ParseNatToString | ytdl_img_extractor.py:67 | Parsing the decimal spelling gives back the number. |
| Decimal.NatToStringInjective | ytdl_img_extractor.py:67 | Distinct counts have distinct spellings. |
| Decimal.IntToString | utils/video_processor.py:181 | `str(fps)` is non-empty decimal text. It starts with `-` exactly when the value is negative, and a non-negative value is spelled with digits only. |
| Decimal.ParseIntToString | utils/video_processor.py:181 | Reading `str(i)` back gives `i` for every integer, negative ones included. |
| Decimal.IntToStringInjective | utils/video_processor.py:181 | Distinct integers have distinct spellings. |
| Paths.Render | utils/video_processor.py:174 | A non-empty path renders as a string that begins with `/`. |
| Paths.ToStr | utils/video_processor.py:174 | `str(path)` is never empty and always begins with `/`. |
| Paths.ToStrChild | utils/video_processor.py:147 | `str(dir.joinpath(name))` is `str(dir)`, then `/`, then the name. |
| Paths.Ancestry | video_processor.py:31-32 | The directories that `mkdir(parents=True)` ensures are exactly the non-empty prefixes of the path, the path itself included. |
| Paths.AncestryChild | video_processor.py:29-32 | A child's ancestry is its parent's ancestry plus the child. |
| Paths.MakeDirs | video_processor.py:31-32 | `mkdir(parents=True, exist_ok=True)` succeeds exactly when no prefix of the path is a file. It then adds every prefix as a directory and leaves the files unchanged. |
| Paths.MakeDirsIdempotent | video_processor.py:31-32 | Creating the same directories again succeeds and changes nothing, as `exist_ok=True` promises. |
| Paths.ConcatFilePaths | utils/video_processor.py:167-172 | The joined listing is empty exactly when the directory holds no file, which is the case the `if not vidfile` guard catches. |
| Paths.ConcatFilePathsLength | utils/video_processor.py:167-169 | The joined listing is at least as long as any listed path plus one character for each other file. |
| Paths.ConcatFilePathsAtLeast | utils/video_processor.py:167-169 | The joined listing has at least one character per file. |
| Paths.ConcatFilePathsSingle | video_processor.py:118 | With one file, the joined listing is that file's full path. |
| Paths.ConcatFilePathsSeveral | video_processor.py:118 | With two or more files, the joined listing is the path of none of them. |
| VideoId.RunEnd | utils/video_processor.py:70 | `[\w-]+` takes the longest run of id characters. |
| VideoId.TryAtIsMatch | utils/video_processor.py:69-72 | Whatever the pattern matches at a position consists of:<br>• an optional `http(s)://` and `www.`;<br>• a marker;<br>• the maximal run of id characters, which starts right after the marker and is non-empty. |
| VideoId.MarkerMatchesAt | utils/video_processor.py:70-72 | Wherever `youtube.com/watch?v=` or `youtu.be/` is followed by an id character, trying the pattern at the marker's position finds a match, whatever alternatives the engine tries first. |
| VideoId.Search | utils/video_processor.py:72 | `re.search` returns the match at the leftmost position where the pattern matches. Nothing matches before that position. With no match, nothing matches at any position. |
| VideoId.TryAtFindsBare | utils/video_processor.py:70 | A marker followed by an id character always matches at the marker, whatever alternatives the engine tries first. |
| VideoId.MatchBeforeIdStart | utils/video_processor.py:70-72 | Wherever an id can start, the pattern matches at the start of its marker. |
| VideoId.SearchFailsOnlyWithoutId | utils/video_processor.py:72-77 | The search finds nothing only when no marker in the URL is followed by an id character. |
| VideoId.WhereYCanBe | utils/video_processor.py:70 | No optional prefix contains `y`, and a marker contains one only at its first character. |
| VideoId.ShortIsNotPrefixOfWatch | utils/video_processor.py:70 | `youtu.be/` and `youtube.com/watch?v=` cannot both start at the same position. |
| VideoId.NoMarkerInsideMatch | utils/video_processor.py:70-72 | No marker starts inside a match and ends before the match's group. |
| VideoId.SearchFindsFirstIdStart | utils/video_processor.py:72-75 | The first match's group starts at the leftmost place where an id can start. |
| VideoId.SearchGroupIsFirstRun | utils/video_processor.py:72-75 | Group 1 of the first match is the whole id run at the leftmost id start. |
| VideoId.GetVideoId | utils/video_processor.py:65-84 | An id is returned exactly when some `youtube.com/watch?v=` or `youtu.be/` in the URL is followed by an id character. The id is then the whole `[\w-]` run after the leftmost such marker, so it is non-empty and made of id characters only. |
| Processor.Init | video_processor.py:18-25 | A fresh processor points at `<parent>/<uuid>` and creates nothing. Its image directory is unset, so `extract_images` on it always stops at the "not properly initialized" guard, whatever the variant, rate or listing. |
| Processor.VideoTitle | utils/video_processor.py:42-63 | A found title is sanitised, and a failed or interrupted lookup exits with status 0. A missing title gives `"video"` in the root variant and an unpacking crash in the utils variant. Any title returned holds only kept characters. |
| Processor.CreateDirectories | video_processor.py:27-32 | The directory is named by the title, or by the uuid when the title is empty. Creation succeeds exactly when no prefix of `<dir>/Images` is a file. Both attributes then point at the new directories, both directories exist, and no file changes. |
| Processor.DirName | video_processor.py:29 | The directory name is the title when it is non-empty, else the uuid. It is empty only when both are. |
| Processor.CreateDirectoriesIdempotent | video_processor.py:27-32 | Creating the directories again with the same non-empty title succeeds and changes nothing. |
| Processor.CreateDirectoriesFreshUuid | video_processor.py:27-32 | With an empty title each call draws a new uuid. A second call succeeds exactly when no prefix of the new `<uuid>/Images` is a file. It then points at a different directory and leaves the first pair of directories in place. |
| Processor.FpsText | utils/video_processor.py:181 | In the utils variant the `fps=` value is decimal text that reads back as `fps`. In the root variant it is the supplied text of the float rate. |
| Processor.FfmpegCommand | utils/video_processor.py:174-185 | The command runs `ffmpeg` on the video file with `-vf fps=<rate>` and ends with the output pattern. |
| Processor.ExtractImages | utils/video_processor.py:161-190 | It returns early with the "not properly initialized" message exactly when no image directory was set. It returns early with the "No video files" message exactly when the directory is set but the listing is empty. In every other case it runs ffmpeg on the joined listing, writing `Images/frame_%d.png`. |
| Processor.ExtractImagesSingleFile | video_processor.py:118-125 | With one file in the working directory, ffmpeg reads exactly that file. |
| Processor.ExtractImagesSeveralFiles | video_processor.py:118-125 | With several files, ffmpeg is run on a path that is none of them. |
| DownloadFormat.Format | ytdl_img_extractor.py:32-35 | The format is `worst` exactly when a small video is asked for, and `best` otherwise. Every front end uses the same choice. |
| Processor.DownloadDirName | utils/video_processor.py:90-92 | The root variant names the directory after the title. The utils variant first looks up the title, with the same failures, and then uses the video id. A URL without an id exits with status 0. |
| Processor.DownloadVideo | video_processor.py:50-73 | A download is requested only after the directories were named and created. The request has format `worst`/`best`, the template `<video dir>/%(title)s.%(ext)s` and restricted file names. In the utils variant the directory is the video id. A failed or interrupted download exits with status 1. A successful one records yt-dlp's file name and extracts. The image-directory guard never fires. |
| Processor.TimeframeArgs | utils/video_processor.py:132-150 | The argument list starts with `yt-dlp` and ends with the URL followed by the extra arguments. |
| Processor.TimeframeArgsOptions | video_processor.py:87-102 | The list passes all of these:<br>• `-f 18`;<br>• `--downloader ffmpeg`;<br>• the cut `-ss … -to …` with the quoted user agent as ffmpeg input arguments;<br>• `--restrict-filenames`;<br>• `--output <dir>/<title>.%(ext)s`. |
| Processor.TimeframeArgsQuietFlags | utils/video_processor.py:132-140 | In the utils variant the five flags `-q -4 --no-warnings -noprogress --no-playlist` come right after `yt-dlp`, followed by `-f`. The root variant passes `-f` right after `yt-dlp`. |
| Processor.TimeframeDownloader | utils/video_processor.py:116-159 | The directory is named by the sanitised title, and yt-dlp is invoked only after it exists. A non-zero exit status exits with status 1 and records nothing. Status 0 records `<dir>/<title>.mp4` as the video file and extracts. |
| Processor.TimeframeExtractsRecordedFile | video_processor.py:109-125 | When the trimmed download leaves exactly `<title>.mp4` in the directory, ffmpeg reads the recorded video file. |

## Left out

- yt-dlp, ffmpeg, OpenCV and `subprocess` are not modelled. Their results are parameters:
  - the title lookup;
  - whether the download succeeded and the file name yt-dlp prepared;
  - the exit status;
  - the directory listing;
  - the frames a file decodes to.
- The random uuid (`uuid1`/`uuid4`) and the module-level `parent` directory are parameters.
- Console output (`print`, `rich` status spinners, progress lines) is not modelled. Neither is the class-body `print("\n[completed]")` of `video_processor.py`.
- `int(arg)` parsing in both `check_value` functions is not modelled: the model starts from the integer. A string that is not a number raises `ValueError` before the check.
- `Sampler.ExtractImages`: `fps` is required to be positive, which the command-line check guarantees. With `-f` given but no value, argparse supplies `None`, and `count % None` raises `TypeError`; that path is not modelled.
- `YtdlExtractor.DownloadVideo`: `fps` is required to be positive, as for `Sampler.ExtractImages`. With `-f` given but no value, argparse supplies `None` and the sampling loop raises `TypeError`; that path is not modelled.
- `Sampler.ExtractImages`: an interrupt during the sampling loop (release and `sys.exit()`) is not modelled.
- `Sampler.ExtractImages`: the frame count read from `CAP_PROP_FRAME_COUNT` only feeds the progress line, so it is left out.
- `Processor.ExtractImages`: the ffmpeg output and the utils variant's error printing are not modelled. So is its attempt to delete `<video dir>/<video_title>.mp4`, because that is I/O whose failure is caught and printed.
- `Processor.FpsText`: the utils variant renders an integer, but its command-line front end does not convert `-f` (its `type=check_value` is commented out). So ffmpeg receives `fps=` followed by the text as typed; `007` stays `007`. The model takes the integer.
- `Processor.FpsText`: the root variant's ffmpeg rate is the text of the float `1.0 / fps` (or `1.0` when `fps` is 0). Floating point is not modelled, so the text is a parameter.
- `Processor.DownloadVideo`: the utils variant also stores the unsanitised title in `video_title`. That value is only used by the deletion above, so it is not modelled.
- `VideoId.IsWordChar`: Python's `\w` is Unicode-aware. The model takes only its ASCII part: letters, digits and underscore.
- `Paths.ToStr`: titles are treated as one path component. A title containing `/`, or an absolute title (which `joinpath` would use as the whole path), is not split the way pathlib would split it. A `.` component is kept, although pathlib drops it (`parent.joinpath(".")` is `parent`), while the model renders `<parent>/.`.
- `Paths.MakeDirs`: permission errors and races are not modelled. The only failure is a path prefix that is a file.
- `is_ffmpeg_installed` and the command-line front end `yt_image_extractor.py` are not part of this model. Neither are the `main` functions and argument parsing.
- The `get_video_title` lookup itself is an oracle. The model keeps what the callers do with its four possible results.
- The `KeyboardInterrupt` handlers are modelled only where an interrupt is one of an oracle's results: the title lookup and the yt-dlp download.
