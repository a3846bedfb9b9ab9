/** Pure helpers of the streaming router: the verdict normalisation that the
    photo endpoint, the URL-stream detection task and the WebSocket loop each
    repeat, the classification of source URLs, and MJPEG part framing. */
module StreamHelpers {
  import opened Wrappers
  import opened Text

  /** Lower-cased "Yes" and "No" are the two words the normalisation looks for. */
  lemma {:induction false} ReplyWordsLower()
    ensures Lower("Yes") == "yes" && Lower("No") == "no"
    ensures Contains("yes", "yes") && Contains("no", "no")
  {
    var y := Lower("Yes");
    assert y[0] == 'y' && y[1] == 'e' && y[2] == 's';
    var n := Lower("No");
    assert n[0] == 'n' && n[1] == 'o';
    assert StartsWith("yes", "yes") && StartsWith("no", "no");
  }

  /** The classifier's raw reply reduced to a verdict. */
  function NormaliseVerdict(raw: string): string {
    var low := Lower(Strip(raw));
    if Contains(low, "yes") then "Yes"
    else if Contains(low, "no") then "No"
    else Strip(raw)
  }

  /** The normalised verdict is "Yes" exactly when the stripped, lower-cased
      reply contains "yes"; "No" exactly when it contains "no" but not
      "yes"; otherwise it is the stripped reply itself, which is then neither
      "Yes" nor "No". "yes" wins when both words occur. */
  lemma NormaliseVerdictMeaning(raw: string)
    ensures NormaliseVerdict(raw) == "Yes" <==> Contains(Lower(Strip(raw)), "yes")
    ensures NormaliseVerdict(raw) == "No" <==>
              !Contains(Lower(Strip(raw)), "yes") && Contains(Lower(Strip(raw)), "no")
    ensures NormaliseVerdict(raw) != "Yes" && NormaliseVerdict(raw) != "No" ==>
              NormaliseVerdict(raw) == Strip(raw)
  {
    ReplyWordsLower();
  }

  /** File endings that mark a URL as a direct media URL. */
  const MediaSuffixes: seq<string> := [".m3u8", ".ts", ".mp4", ".avi", ".mov"]

  predicate HasMediaSuffix(url: string) {
    exists i :: 0 <= i < |MediaSuffixes| && EndsWith(url, MediaSuffixes[i])
  }

  /** A `blob:` URL, or an http(s) URL not ending in a media suffix, is taken
      for a web page that has to be searched for its HLS URL. */
  predicate NeedsPageResolution(url: string) {
    StartsWith(url, "blob:") || (StartsWith(url, "http") && !HasMediaSuffix(url))
  }

  /** The page address handed to the resolver: `url.replace('blob:', '')` for
      a `blob:` URL, which removes every occurrence and not only the prefix. */
  function PageUrl(url: string): (page: string)
    ensures !StartsWith(url, "blob:") ==> page == url
    ensures |page| < |url| <==> StartsWith(url, "blob:")
  {
    if StartsWith(url, "blob:") then
      assert url == url[..5] + url[5..];
      RemoveAll(url, "blob:")
    else url
  }

  /** The URL the capture is opened on. A URL that needs resolving has its
      page address `PageUrl(url)` handed to the page resolver `resolve`
      (`extract_hls_url_from_page`), and a non-empty answer replaces the URL;
      otherwise the URL is opened as given. */
  function ActualUrl(url: string, resolve: string -> Option<string>): (actual: string)
    ensures !NeedsPageResolution(url) ==> actual == url
    ensures actual != url ==> NeedsPageResolution(url) && resolve(PageUrl(url)) == Some(actual)
    ensures NeedsPageResolution(url) && resolve(PageUrl(url)).Some? && resolve(PageUrl(url)).value != [] ==>
              actual == resolve(PageUrl(url)).value
  {
    if NeedsPageResolution(url) then
      var answer := resolve(PageUrl(url));
      if answer.Some? && answer.value != [] then answer.value else url
    else url
  }

  /** A `blob:` prefix in front of an address that does not mention `blob:`
      again is simply dropped. */
  lemma {:induction false} BlobPrefixDropped(rest: string)
    requires !Contains(rest, "blob:")
    ensures PageUrl("blob:" + rest) == rest
  {
    var url := "blob:" + rest;
    assert url[..5] == "blob:" && url[5..] == rest;
    RemoveAllAbsent(rest, "blob:");
  }

  /** `replace` removes every `blob:`, not only the scheme: a `blob:` URL
      that mentions `blob:` once more, after an address `a` in which no
      occurrence starts, loses both. */
  lemma EveryBlobDropped(a: string, b: string)
    requires forall j :: 0 <= j < |a| ==> !OccursAt(a + "blob:" + b, "blob:", j)
    requires !Contains(b, "blob:")
    ensures PageUrl("blob:" + a + "blob:" + b) == a + b
  {
    var rest := a + "blob:" + b;
    var url := "blob:" + a + "blob:" + b;
    assert url == "blob:" + rest && url[..5] == "blob:" && url[5..] == rest;
    assert rest[|a|..|a| + 5] == "blob:" && rest[..|a|] == a && rest[|a| + 5..] == b;
    RemoveAllLeftmost(rest, "blob:", |a|);
    RemoveAllAbsent(b, "blob:");
  }

  /** An rtsp address, or any address that is neither `blob:` nor http(s), is
      opened as given, whatever the resolver would say. */
  lemma OtherSchemesOpenedAsGiven(url: string, resolve: string -> Option<string>)
    requires !StartsWith(url, "blob:") && !StartsWith(url, "http")
    ensures ActualUrl(url, resolve) == url
  {
  }

  /** For `blob:` in front of an address that does not mention `blob:`
      again, the resolver is asked about that address, and its non-empty
      answer is opened. */
  lemma BlobAddressResolved(rest: string, resolve: string -> Option<string>)
    requires !Contains(rest, "blob:")
    ensures var answer := resolve(rest);
            ActualUrl("blob:" + rest, resolve)
            == if answer.Some? && answer.value != [] then answer.value else "blob:" + rest
  {
    var url := "blob:" + rest;
    assert url[..5] == "blob:";
    BlobPrefixDropped(rest);
  }

  newtype byte = x: int | 0 <= x < 256

  /** The multipart boundary declared in the response's media type. */
  const Boundary: string := "frame"

  /** `--frame` and a CRLF, in ASCII. */
  const BoundaryLine: seq<byte> := [45, 45, 102, 114, 97, 109, 101, 13, 10]

  /** `Content-Type: image/jpeg`, a CRLF and an empty line, in ASCII. */
  const ContentTypeLines: seq<byte> :=
    [67, 111, 110, 116, 101, 110, 116, 45, 84, 121, 112, 101, 58, 32,
     105, 109, 97, 103, 101, 47, 106, 112, 101, 103, 13, 10, 13, 10]

  const CrLf: seq<byte> := [13, 10]

  const PartHeader: seq<byte> := BoundaryLine + ContentTypeLines

  /** The boundary line is `--`, the declared boundary and a CRLF. */
  lemma BoundaryLineSpellsBoundary()
    ensures |BoundaryLine| == |"--" + Boundary + "\r\n"|
    ensures forall i :: 0 <= i < |BoundaryLine| ==> BoundaryLine[i] as int == ("--" + Boundary + "\r\n")[i] as int
  {
  }

  /** One part of the `multipart/x-mixed-replace` MJPEG stream. */
  function MjpegPart(jpeg: seq<byte>): (part: seq<byte>)
    ensures |part| == |PartHeader| + |jpeg| + 2
  {
    PartHeader + jpeg + CrLf
  }

  /** Reads one part back: the bytes between the part header and the closing
      CRLF. */
  function ParseMjpegPart(part: seq<byte>): (jpeg: Option<seq<byte>>)
  {
    if |part| >= |PartHeader| + |CrLf| && part[..|PartHeader|] == PartHeader
       && part[|part| - |CrLf|..] == CrLf
    then Some(part[|PartHeader|..|part| - |CrLf|])
    else None
  }

  /** Every frame survives framing unchanged. */
  lemma MjpegRoundTrip(jpeg: seq<byte>)
    ensures ParseMjpegPart(MjpegPart(jpeg)) == Some(jpeg)
  {
    var part := MjpegPart(jpeg);
    assert part[..|PartHeader|] == PartHeader;
    assert part[|part| - |CrLf|..] == CrLf;
    assert part[|PartHeader|..|part| - |CrLf|] == jpeg;
  }

  /** Every part opens with the boundary line. */
  lemma PartOpensWithBoundary(jpeg: seq<byte>)
    ensures MjpegPart(jpeg)[..|BoundaryLine|] == BoundaryLine
  {
    assert MjpegPart(jpeg) == BoundaryLine + (ContentTypeLines + jpeg + CrLf);
  }
}
