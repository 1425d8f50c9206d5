/**
 * Songs as the catalog's search endpoint returns them, and the lookups the
 * indicator makes on one: the first link of a given quality, the playable
 * audio link, the small cover art, the artist text.
 */
module Catalog {
  import opened Wrappers

  type SongId = string

  /** One entry of a song's `image` or `downloadUrl` list. */
  datatype Link = Link(quality: string, link: string)

  /**
   * A search hit. A missing `primaryArtists` is the empty string, a missing
   * `duration` is 0 and a missing `image` or `downloadUrl` list is empty.
   */
  datatype Song = Song(
    id: SongId,
    name: string,
    primaryArtists: string,
    duration: nat,
    image: seq<Link>,
    downloadUrl: seq<Link>)

  const SMALL_ARTWORK := "150x150"
  const AUDIO_QUALITY := "320kbps"

  /** JavaScript's `?.` truthiness of an optional string: present and non-empty. */
  predicate Truthy(o: Option<string>) {
    o.Some? && o.value != ""
  }

  /**
   * `links.find(l => l.quality === quality)?.link`: the link of the FIRST
   * entry with that quality, none when no entry has it.
   */
  function FindLink(links: seq<Link>, quality: string): (r: Option<string>)
    ensures r.None? <==> forall k :: 0 <= k < |links| ==> links[k].quality != quality
  {
    if links == [] then None
    else if links[0].quality == quality then Some(links[0].link)
    else
      var r := FindLink(links[1..], quality);
      assert forall k :: 1 <= k < |links| ==> links[k] == links[1..][k - 1];
      r
  }

  /** What `find` returns is the link of the first entry with that quality. */
  lemma {:induction false} FindLinkFirst(links: seq<Link>, quality: string, k: nat)
    requires k < |links| && links[k].quality == quality
    requires forall j :: 0 <= j < k ==> links[j].quality != quality
    ensures FindLink(links, quality) == Some(links[k].link)
  {
    if k > 0 {
      assert links[1..][k - 1] == links[k];
      FindLinkFirst(links[1..], quality, k - 1);
    }
  }

  /** The link a click plays: the 320kbps download, when there is a non-empty one. */
  function AudioUrl(song: Song): (r: Option<string>)
    ensures Truthy(r) == Truthy(FindLink(song.downloadUrl, AUDIO_QUALITY))
    ensures r.Some? ==> r == FindLink(song.downloadUrl, AUDIO_QUALITY) && r.value != ""
  {
    var u := FindLink(song.downloadUrl, AUDIO_QUALITY);
    if Truthy(u) then u else None
  }

  /** The cover art a row lazily loads: the first 150x150 image. */
  function SmallArtwork(song: Song): Option<string> {
    FindLink(song.image, SMALL_ARTWORK)
  }

  /** `r.primaryArtists || "Unknown Artist"`. */
  function ArtistText(song: Song): (r: string)
    ensures r != ""
    ensures song.primaryArtists != "" ==> r == song.primaryArtists
    ensures song.primaryArtists == "" ==> r == "Unknown Artist"
  {
    if song.primaryArtists == "" then "Unknown Artist" else song.primaryArtists
  }
}
