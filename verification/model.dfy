/** The older entity model of the library crate: lyric titles are optional,
    and a playlist post carries its members as base58 text that is turned
    back into identifiers when the playlist is built. The base58 encoding and
    the text-to-identifier conversion are not part of this model; they are
    passed in as functions. */
module Model {
  import opened Uuids
  import opened Wrappers
  import opened Seqs

  datatype Lyric = Lyric(id: Uuid, title: Option<string>, parts: seq<seq<string>>)

  datatype LyricPost = LyricPost(title: Option<string>, parts: seq<seq<string>>)

  datatype Summary = Summary(id: Uuid, title: Option<string>)

  /** Members as base58 text. */
  datatype PlaylistPost = PlaylistPost(title: string, members: seq<string>)

  datatype Playlist = Playlist(id: Uuid, title: string, members: seq<Uuid>)

  /** `Lyric::from(LyricPost)`: the payload under the fresh identifier
      (`Uuid::new_v4`). */
  function LyricFromPost(lp: LyricPost, freshId: Uuid): (l: Lyric)
    ensures l.id == freshId
    ensures l.title == lp.title && l.parts == lp.parts
  {
    Lyric(freshId, lp.title, lp.parts)
  }

  /** `PlaylistPost::from((String, Vec<Uuid>))`: one base58 string per
      identifier, in the same order. */
  function PlaylistPostFromUuids(title: string, uuids: seq<Uuid>, toBase58: Uuid -> string): (pp: PlaylistPost)
    ensures pp.title == title
    ensures |pp.members| == |uuids|
    ensures forall i :: 0 <= i < |uuids| ==> pp.members[i] == toBase58(uuids[i])
  {
    PlaylistPost(title, MapEach(uuids, toBase58))
  }

  /** `Playlist::from(PlaylistPost)`: the payload under the fresh identifier,
      each member text converted to an identifier. */
  function PlaylistFromPost(pp: PlaylistPost, freshId: Uuid, toUuid: string -> Uuid): (p: Playlist)
    ensures p.id == freshId && p.title == pp.title
    ensures |p.members| == |pp.members|
    ensures forall i :: 0 <= i < |pp.members| ==> p.members[i] == toUuid(pp.members[i])
  {
    Playlist(freshId, pp.title, MapEach(pp.members, toUuid))
  }

  /** `Playlist::from((Uuid, PlaylistPost))`: the same, under a given identifier. */
  function PlaylistFromIdAndPost(id: Uuid, pp: PlaylistPost, toUuid: string -> Uuid): (p: Playlist)
    ensures p.id == id && p.title == pp.title
    ensures |p.members| == |pp.members|
    ensures forall i :: 0 <= i < |pp.members| ==> p.members[i] == toUuid(pp.members[i])
  {
    Playlist(id, pp.title, MapEach(pp.members, toUuid))
  }

  /** Building from a post under a fresh identifier is building under that
      identifier. */
  lemma FreshAndGivenIdAgree(pp: PlaylistPost, freshId: Uuid, toUuid: string -> Uuid)
    ensures PlaylistFromPost(pp, freshId, toUuid) == PlaylistFromIdAndPost(freshId, pp, toUuid)
  {
  }

  /** Encoding the members and decoding them again gives the playlist
      back whenever decoding inverts encoding on its members. */
  lemma {:induction false} PlaylistPostRoundTrip(p: Playlist, toBase58: Uuid -> string, toUuid: string -> Uuid)
    requires forall u :: u in p.members ==> toUuid(toBase58(u)) == u
    ensures PlaylistFromIdAndPost(p.id, PlaylistPostFromUuids(p.title, p.members, toBase58), toUuid) == p
  {
    var r := PlaylistFromIdAndPost(p.id, PlaylistPostFromUuids(p.title, p.members, toBase58), toUuid);
    forall i | 0 <= i < |p.members|
      ensures r.members[i] == p.members[i]
    {
      assert p.members[i] in p.members;
    }
  }

  /** `HasId for Lyric`. */
  function LyricId(l: Lyric): (id: Uuid)
    ensures id == l.id
  {
    l.id
  }

  /** `HasId for Playlist`. */
  function PlaylistId(p: Playlist): (id: Uuid)
    ensures id == p.id
  {
    p.id
  }

  /** `HasSummary for Lyric`: the optional title is copied as is. */
  function LyricToSummary(l: Lyric): (s: Summary)
    ensures s.id == LyricId(l) && s.title == l.title
  {
    Summary(l.id, l.title)
  }

  /** `Playlist::to_summary` and `HasSummary for Playlist`: a playlist always
      has a title, so the summary's is present. */
  function PlaylistToSummary(p: Playlist): (s: Summary)
    ensures s.id == PlaylistId(p) && s.title == Some(p.title)
  {
    Summary(p.id, Some(p.title))
  }
}
