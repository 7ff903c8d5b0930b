/**
 * code_download.py: how `download_pinterest` turns a pin ID or URL into a page
 * URL, a file name and a target path, and how the fallback extractor
 * `download_pinterest_media` picks the media URL among its four candidates.
 *
 * The network is a parameter: a resolver from page URL to `MediaResult` and a
 * fetcher from (media URL, target path) to success.
 */
module Download {
  import opened Options
  import opened Text

  const PinPrefix := "https://www.pinterest.com/pin/"

  /** The canonical page URL of a pin. */
  function CanonicalUrl(pinId: string): string
  {
    PinPrefix + pinId + "/"
  }

  /** `pin_url`: bare IDs become the canonical URL, anything starting with
      "http" is used as given. */
  function PinUrl(pinId: string): (url: string)
    ensures StartsWith(url, "http")
    ensures StartsWith(pinId, "http") ==> url == pinId
    ensures !StartsWith(pinId, "http") ==> url == CanonicalUrl(pinId)
  {
    if !StartsWith(pinId, "http") then CanonicalUrl(pinId) else pinId
  }

  /** Normalising twice is normalising once. */
  lemma PinUrlIdempotent(pinId: string)
    ensures PinUrl(PinUrl(pinId)) == PinUrl(pinId)
  {
  }

  /** File extension by media kind: only "video" gives ".mp4". */
  function Extension(mediaType: Option<string>): (ext: string)
    ensures ext == ".mp4" || ext == ".jpg"
    ensures ext == ".mp4" <==> mediaType == Some("video")
  {
    if mediaType == Some("video") then ".mp4" else ".jpg"
  }

  /** The default name: "pin_" and the second-to-last '/'-piece of the input
      when it has a '/', "pin_" and the input otherwise. */
  function DefaultFilename(pinId: string): (name: string)
    ensures StartsWith(name, "pin_")
    ensures '/' !in name
  {
    SplitPieces(pinId);
    var parts := Split(pinId);
    var stem := if '/' in pinId then parts[|parts| - 2] else pinId;
    "pin_" + stem
  }

  /** The last two '/'-pieces of "p/a/b" are a and b. */
  lemma SplitLastTwo(p: string, a: string, b: string)
    requires '/' !in a && '/' !in b
    ensures var parts := Split(p + "/" + a + "/" + b);
      |parts| >= 3 && parts[|parts| - 2] == a && parts[|parts| - 1] == b
  {
    SplitSnoc(p, a);
    SplitSnoc(p + "/" + a, b);
  }

  /** With one '/', the stem is the piece before it. */
  lemma DefaultFilenameOfOneSlash(a: string, b: string)
    requires '/' !in a && '/' !in b
    ensures DefaultFilename(a + "/" + b) == "pin_" + a
  {
    assert (a + "/" + b)[|a|] == '/';
    SplitSnoc(a, b);
    SplitWhole(a);
  }

  /** With two or more '/', the stem is the second-to-last piece. */
  lemma DefaultFilenameOfPath(p: string, a: string, b: string)
    requires '/' !in a && '/' !in b
    ensures DefaultFilename(p + "/" + a + "/" + b) == "pin_" + a
  {
    assert (p + "/" + a + "/" + b)[|p|] == '/';
    SplitLastTwo(p, a, b);
  }

  /** A bare ID and its canonical URL name the same file, "pin_<id>". */
  lemma DefaultFilenameOfCanonical(pinId: string)
    requires '/' !in pinId
    ensures DefaultFilename(CanonicalUrl(pinId)) == "pin_" + pinId
    ensures DefaultFilename(pinId) == "pin_" + pinId
  {
    var url := CanonicalUrl(pinId);
    assert url == "https://www.pinterest.com/pin" + "/" + pinId + "/" + "";
    assert url[6] == '/';
    SplitLastTwo("https://www.pinterest.com/pin", pinId, "");
  }

  /** A URL without the trailing '/' yields the piece before the ID, so every
      such pin is named "pin_pin". */
  lemma DefaultFilenameWithoutSlash(pinId: string)
    requires '/' !in pinId
    ensures DefaultFilename(PinPrefix + pinId) == "pin_pin"
  {
    var url := PinPrefix + pinId;
    assert url == "https://www.pinterest.com" + "/" + "pin" + "/" + pinId;
    assert url[6] == '/';
    assert '/' !in "pin" by {
      assert forall i :: 0 <= i < 3 ==> "pin"[i] != '/';
    }
    SplitLastTwo("https://www.pinterest.com", "pin", pinId);
  }

  /** `os.path.join(save_location, name)`, read as "dir/name". */
  function JoinPath(dir: string, name: string): string
  {
    dir + "/" + name
  }

  /** The target path: an explicit name is kept verbatim, the default one is
      derived from the input; the extension follows the media kind. */
  function TargetPath(pinId: string, saveLocation: string, filename: Option<string>, mediaType: Option<string>): (path: string)
    ensures var ext := Extension(mediaType);
      var name := if filename.Some? then filename.value else DefaultFilename(pinId);
      path == saveLocation + "/" + name + ext
  {
    var stem := match filename
      case Some(f) => f
      case None => DefaultFilename(pinId);
    JoinPath(saveLocation, stem + Extension(mediaType))
  }

  /** What a resolver reports for a page URL. */
  datatype MediaResult = MediaResult(success: bool, url: Option<string>, mediaType: Option<string>)

  /** The dict download_pinterest returns. */
  datatype DownloadResult = DownloadResult(success: bool, filepath: Option<string>, mediaType: Option<string>)

  /** download_pinterest: resolve the page, derive the path, fetch the file.  A
      resolver failure returns at once; a resolver success with no URL cannot be
      fetched. */
  function DownloadPinterest(
    pinId: string, saveLocation: string, filename: Option<string>,
    resolve: string -> MediaResult, fetch: (string, string) -> bool): (r: DownloadResult)
    ensures r.filepath.Some? <==> r.success
    ensures !resolve(PinUrl(pinId)).success ==> r == DownloadResult(false, None, None)
    ensures resolve(PinUrl(pinId)).success ==> r.mediaType == resolve(PinUrl(pinId)).mediaType
    ensures r.success ==> r.filepath == Some(TargetPath(pinId, saveLocation, filename, r.mediaType))
    ensures r.success ==> var media := resolve(PinUrl(pinId));
      media.url.Some? && fetch(media.url.value, r.filepath.value)
    ensures var media := resolve(PinUrl(pinId));
      media.success ==>
        (r.success <==> media.url.Some? && fetch(media.url.value, TargetPath(pinId, saveLocation, filename, media.mediaType)))
  {
    var media := resolve(PinUrl(pinId));
    if !media.success then DownloadResult(false, None, None)
    else
      var path := TargetPath(pinId, saveLocation, filename, media.mediaType);
      var ok := media.url.Some? && fetch(media.url.value, path);
      DownloadResult(ok, if ok then Some(path) else None, media.mediaType)
  }

  /** When the resolver fails the fetcher is never consulted. */
  lemma NoFetchAfterResolverFailure(
    pinId: string, saveLocation: string, filename: Option<string>,
    resolve: string -> MediaResult, fetch1: (string, string) -> bool, fetch2: (string, string) -> bool)
    requires !resolve(PinUrl(pinId)).success
    ensures DownloadPinterest(pinId, saveLocation, filename, resolve, fetch1)
         == DownloadPinterest(pinId, saveLocation, filename, resolve, fetch2)
  {
  }

  /** A resolved pin whose fetch succeeds is saved under "<dir>/pin_<id>.<ext>"
      whether it was given as a bare ID or as its canonical URL. */
  lemma DownloadByIdOrUrl(pinId: string, saveLocation: string, resolve: string -> MediaResult, fetch: (string, string) -> bool)
    requires '/' !in pinId && !StartsWith(pinId, "http")
    ensures var byId := DownloadPinterest(pinId, saveLocation, None, resolve, fetch);
      var byUrl := DownloadPinterest(CanonicalUrl(pinId), saveLocation, None, resolve, fetch);
      var path := saveLocation + "/pin_" + pinId + Extension(resolve(CanonicalUrl(pinId)).mediaType);
      && (byId.success ==> byId.filepath == Some(path))
      && (byUrl.success ==> byUrl.filepath == Some(path))
      && byId == byUrl
  {
    DefaultFilenameOfCanonical(pinId);
    assert StartsWith(CanonicalUrl(pinId), "http");
    var ext := Extension(resolve(CanonicalUrl(pinId)).mediaType);
    assert saveLocation + "/" + ("pin_" + pinId) + ext == saveLocation + "/pin_" + pinId + ext;
  }

  // ---------------------------------------------------- fallback extractor

  /** The four match results of the extractor's patterns on the page body. */
  datatype Candidates = Candidates(
    ogVideo: Option<string>,
    contentUrlMp4: Option<string>,
    ogImage: Option<string>,
    imagesOrigUrl: Option<string>)

  /** The outcome of the page GET: an exception, or a status and the matches on
      its body. */
  datatype Page = Unreachable | Response(status: int, candidates: Candidates)

  /** Python truthiness of a captured group: present and non-empty. */
  predicate Present(o: Option<string>)
  {
    o.Some? && o.value != ""
  }

  /** download_pinterest_media's if-chain. */
  function ExtractMedia(page: Page): (r: MediaResult)
    ensures r.success <==>
      (&& page.Response? && page.status == 200
       && (|| Present(page.candidates.ogVideo) || Present(page.candidates.contentUrlMp4)
           || Present(page.candidates.ogImage) || Present(page.candidates.imagesOrigUrl)))
    ensures !r.success ==> r == MediaResult(false, None, None)
    ensures r.success ==> Present(r.url) && (r.mediaType == Some("video") || r.mediaType == Some("image"))
  {
    if page.Unreachable? || page.status != 200 then MediaResult(false, None, None)
    else
      var c := page.candidates;
      var vid := if Present(c.ogVideo) then c.ogVideo else c.contentUrlMp4;
      if Present(vid) then MediaResult(true, vid, Some("video"))
      else
        var img := if Present(c.ogImage) then c.ogImage else c.imagesOrigUrl;
        if Present(img) then MediaResult(true, img, Some("image"))
        else MediaResult(false, None, None)
  }

  /** The candidates in order of priority, each with the kind it stands for. */
  function Ranked(c: Candidates): seq<(Option<string>, string)>
  {
    [(c.ogVideo, "video"), (c.contentUrlMp4, "video"), (c.ogImage, "image"), (c.imagesOrigUrl, "image")]
  }

  /** Reference reading of the priority: the first present candidate of a list. */
  function FirstPresent(cs: seq<(Option<string>, string)>): (r: MediaResult)
    ensures r.success <==> exists i :: 0 <= i < |cs| && Present(cs[i].0)
    ensures !r.success ==> r == MediaResult(false, None, None)
    ensures r.success ==> exists i :: (
      && 0 <= i < |cs| && Present(cs[i].0)
      && (forall j :: 0 <= j < i ==> !Present(cs[j].0))
      && r == MediaResult(true, cs[i].0, Some(cs[i].1)))
  {
    if cs == [] then MediaResult(false, None, None)
    else if Present(cs[0].0) then MediaResult(true, cs[0].0, Some(cs[0].1))
    else
      assert forall i :: 1 <= i < |cs| ==> cs[i] == cs[1..][i - 1];
      FirstPresent(cs[1..])
  }

  /** The if-chain is exactly "first present candidate in the fixed order". */
  lemma ExtractMediaIsFirstPresent(status: int, c: Candidates)
    ensures ExtractMedia(Response(status, c)) ==
      if status == 200 then FirstPresent(Ranked(c)) else MediaResult(false, None, None)
  {
    var cs := Ranked(c);
    assert cs[0] == (c.ogVideo, "video");
    assert cs[1..][0] == (c.contentUrlMp4, "video");
    assert cs[1..][1..][0] == (c.ogImage, "image");
    assert cs[1..][1..][1..][0] == (c.imagesOrigUrl, "image");
    assert cs[1..][1..][1..][1..] == [];
    assert FirstPresent(cs[1..][1..][1..][1..]) == MediaResult(false, None, None);
    assert FirstPresent(cs[1..][1..][1..]) ==
      if Present(c.imagesOrigUrl) then MediaResult(true, c.imagesOrigUrl, Some("image")) else MediaResult(false, None, None);
    assert FirstPresent(cs[1..][1..]) ==
      if Present(c.ogImage) then MediaResult(true, c.ogImage, Some("image")) else FirstPresent(cs[1..][1..][1..]);
    assert FirstPresent(cs[1..]) ==
      if Present(c.contentUrlMp4) then MediaResult(true, c.contentUrlMp4, Some("video")) else FirstPresent(cs[1..][1..]);
  }

  /** A video candidate always beats an image candidate, wherever they stand in
      the page. */
  lemma VideoBeatsImage(c: Candidates)
    requires Present(c.ogVideo) || Present(c.contentUrlMp4)
    ensures ExtractMedia(Response(200, c)).mediaType == Some("video")
    ensures ExtractMedia(Response(200, c)).url ==
      if Present(c.ogVideo) then c.ogVideo else c.contentUrlMp4
  {
  }

  /** Downloading through the fallback extractor: a page with a video
      candidate is saved with ".mp4", a page with only image candidates with
      ".jpg", and a non-200 page is a failure whatever it contains. */
  lemma DownloadWithExtractor(pinId: string, saveLocation: string, pages: string -> Page, fetch: (string, string) -> bool)
    ensures var r := DownloadPinterest(pinId, saveLocation, None, url => ExtractMedia(pages(url)), fetch);
      var page := pages(PinUrl(pinId));
      && (page.Unreachable? || page.status != 200 ==> r == DownloadResult(false, None, None))
      && (page.Response? && page.status == 200 && (Present(page.candidates.ogVideo) || Present(page.candidates.contentUrlMp4))
          ==> r.mediaType == Some("video") && (r.success ==> r.filepath == Some(TargetPath(pinId, saveLocation, None, Some("video")))))
      && (page.Response? && page.status == 200
          && !Present(page.candidates.ogVideo) && !Present(page.candidates.contentUrlMp4)
          && (Present(page.candidates.ogImage) || Present(page.candidates.imagesOrigUrl))
          ==> r.mediaType == Some("image") && (r.success ==> r.filepath == Some(TargetPath(pinId, saveLocation, None, Some("image")))))
      && (r.success ==> r.mediaType == Some("video") || r.mediaType == Some("image"))
  {
  }

  /** The end-to-end scenario: a video pin given by ID lands at
      "/tmp/out/pin_12345.mp4". */
  lemma DownloadScenario(fetch: (string, string) -> bool)
    requires fetch("https://x/a.mp4", "/tmp/out/pin_12345.mp4")
    ensures DownloadPinterest("12345", "/tmp/out", None,
              _ => MediaResult(true, Some("https://x/a.mp4"), Some("video")), fetch)
         == DownloadResult(true, Some("/tmp/out/pin_12345.mp4"), Some("video"))
  {
    var path := ScenarioPath();
    var resolve := (_: string) => MediaResult(true, Some("https://x/a.mp4"), Some("video"));
    var r := DownloadPinterest("12345", "/tmp/out", None, resolve, fetch);
    assert resolve(PinUrl("12345")).success;
    assert r.success;
  }

  /** The target path of the scenario. */
  lemma ScenarioPath() returns (path: string)
    ensures path == TargetPath("12345", "/tmp/out", None, Some("video"))
    ensures path == "/tmp/out/pin_12345.mp4"
  {
    assert '/' !in "12345" by {
      assert forall i :: 0 <= i < 5 ==> "12345"[i] != '/';
    }
    DefaultFilenameOfCanonical("12345");
    path := TargetPath("12345", "/tmp/out", None, Some("video"));
    assert path == "/tmp/out" + "/" + "pin_12345" + ".mp4";
  }

}
