/**
 * The small rules of playback: the end-of-track test of the progress
 * poll, the URI a playbin is given, and the wrap-around of the previous and
 * next controls over the rendered result list.
 */
module Playback {
  import opened Text

  /** `Gst.MSECOND`: one millisecond in GStreamer's nanoseconds. */
  const MSECOND: int := 1_000_000

  /**
   * The poll's end-of-track test: both queries succeeded, the duration is
   * known and the position is within 200 ms of it.
   */
  predicate AtTrackEnd(okPos: bool, pos: int, okDur: bool, dur: int) {
    okPos && okDur && dur > 0 && pos >= dur - MSECOND * 200
  }

  const FILE_SCHEME := "file://"

  /** The playbin URI: an `http…` URL as it is, anything else as a file path. */
  function PlaybackUri(url: string): (uri: string)
    ensures StartsWith(url, "http") <==> uri == url
    ensures !StartsWith(url, "http") ==> StartsWith(uri, FILE_SCHEME)
    ensures |url| <= |uri| && uri[|uri| - |url|..] == url
  {
    if StartsWith(url, "http") then url else FILE_SCHEME + url
  }

  /** The URL a playbin URI came from: the URI with a leading "file://" cut off. */
  function UrlOfUri(uri: string): string {
    if StartsWith(uri, FILE_SCHEME) then uri[|FILE_SCHEME|..] else uri
  }

  /** No two URLs share a playbin URI: the URL is recovered from the URI. */
  lemma PlaybackUriRoundTrip(url: string)
    ensures UrlOfUri(PlaybackUri(url)) == url
  {
    if StartsWith(url, "http") {
      assert url[0] == 'h';
      assert !StartsWith(url, FILE_SCHEME);
    } else {
      var uri := FILE_SCHEME + url;
      assert uri[|FILE_SCHEME|..] == url;
    }
  }

  /**
   * The index the next control moves to: one on, back to 0 past the end.
   * From any index from -1 (nothing played yet) to `length - 1` this is
   * `(current + 1) mod length`.
   */
  function NextIndex(current: int, length: nat): (r: int)
    requires length > 0
    ensures -1 <= current < length ==> 0 <= r < length && r == (current + 1) % length
    ensures current >= length - 1 ==> r == 0
  {
    if current + 1 >= length then 0 else current + 1
  }

  /**
   * The index the previous control moves to: one back, to the last row
   * below 0. From 0 to `length` this is `(current - 1) mod length`; from a
   * stale index beyond that it is out of range.
   */
  function PrevIndex(current: int, length: nat): (r: int)
    requires length > 0
    ensures 0 <= current <= length ==> 0 <= r < length && r == (current - 1) % length
    ensures current <= 0 ==> r == length - 1
    ensures current > length ==> r >= length
  {
    if current - 1 < 0 then length - 1 else current - 1
  }

  /** Next and previous undo each other on every valid index. */
  lemma NextPrevInverse(current: int, length: nat)
    requires 0 <= current < length
    ensures PrevIndex(NextIndex(current, length), length) == current
    ensures NextIndex(PrevIndex(current, length), length) == current
  {
  }
}
