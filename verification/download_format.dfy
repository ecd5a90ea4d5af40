/** The yt-dlp format every front end asks for in `download_video`. */
module DownloadFormat {

  /** `"worst"` when `small` is truthy, otherwise `"best"`. */
  function Format(small: bool): (r: string)
    ensures r == "worst" <==> small
    ensures r == "best" <==> !small
  {
    if small then "worst" else "best"
  }
}
