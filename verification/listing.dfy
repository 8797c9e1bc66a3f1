/** Directory listings handed to the aggregators: `os.listdir` order and
    each file's read result are inputs of the model. */
module Listing {

  import opened Wrappers
  import opened Text

  /** One directory entry and the result of reading it: `None` when
      opening or reading it raises (a directory, a decoding error, ...). */
  datatype DirEntry = DirEntry(name: string, content: Option<string>)

  /** `fn.endswith(".m3u")` */
  predicate IsPlaylistName(name: string) {
    EndsWith(name, ".m3u")
  }

  /** Some `.m3u` entry of the listing cannot be read. */
  predicate SomePlaylistUnreadable(entries: seq<DirEntry>) {
    exists k | 0 <= k < |entries| :: IsPlaylistName(entries[k].name) && entries[k].content.None?
  }

  /** A listing has an unreadable `.m3u` entry exactly when its first
      entry is one or the rest of the listing has one. */
  lemma UnreadableCons(entries: seq<DirEntry>)
    requires |entries| > 0
    ensures SomePlaylistUnreadable(entries) <==>
      (IsPlaylistName(entries[0].name) && entries[0].content.None?) || SomePlaylistUnreadable(entries[1..])
  {
    var e := entries[0];
    if SomePlaylistUnreadable(entries[1..]) {
      var k :| 0 <= k < |entries[1..]| && IsPlaylistName(entries[1..][k].name) && entries[1..][k].content.None?;
      assert entries[k + 1] == entries[1..][k];
    }
    if SomePlaylistUnreadable(entries) && !(IsPlaylistName(e.name) && e.content.None?) {
      var k :| 0 <= k < |entries| && IsPlaylistName(entries[k].name) && entries[k].content.None?;
      assert k > 0 && entries[1..][k - 1] == entries[k];
    }
  }

  /** The `.m3u` entries, in listing order. */
  function Playlists(entries: seq<DirEntry>): (r: seq<DirEntry>)
    ensures forall k :: 0 <= k < |r| ==> r[k] in entries && IsPlaylistName(r[k].name)
    decreases |entries|
  {
    if |entries| == 0 then []
    else (if IsPlaylistName(entries[0].name) then [entries[0]] else []) + Playlists(entries[1..])
  }

  /** `texts` holds, in order, the stripped contents of the readable
      entries `ps`. */
  predicate StrippedOf(ps: seq<DirEntry>, texts: seq<string>) {
    && |texts| == |ps|
    && forall k :: 0 <= k < |ps| ==> ps[k].content.Some? && texts[k] == Strip(ps[k].content.value)
  }

  lemma StrippedOfCons(e: DirEntry, ps: seq<DirEntry>, texts: seq<string>)
    requires e.content.Some? && StrippedOf(ps, texts)
    ensures StrippedOf([e] + ps, [Strip(e.content.value)] + texts)
  {
    var qs := [e] + ps;
    var ts := [Strip(e.content.value)] + texts;
    forall k | 0 <= k < |qs|
      ensures qs[k].content.Some? && ts[k] == Strip(qs[k].content.value)
    {
      if k > 0 {
        assert qs[k] == ps[k - 1] && ts[k] == texts[k - 1];
      }
    }
  }

  /** `[open(fn).read().strip() for fn in listing if fn.endswith(".m3u")]`:
      one stripped text per `.m3u` entry, in listing order, or `None` when
      a read raises. */
  function StrippedPlaylists(entries: seq<DirEntry>): (r: Option<seq<string>>)
    ensures r.None? <==> SomePlaylistUnreadable(entries)
    ensures r.Some? ==> StrippedOf(Playlists(entries), r.value)
    decreases |entries|
  {
    if |entries| == 0 then Some([])
    else
      var e := entries[0];
      var rest := StrippedPlaylists(entries[1..]);
      if !IsPlaylistName(e.name) then
        UnreadableCons(entries);
        assert Playlists(entries) == Playlists(entries[1..]);
        rest
      else if e.content.None? || rest.None? then
        UnreadableCons(entries);
        None
      else
        UnreadableCons(entries);
        assert Playlists(entries) == [e] + Playlists(entries[1..]);
        StrippedOfCons(e, Playlists(entries[1..]), rest.value);
        Some([Strip(e.content.value)] + rest.value)
  }

  /** A readable `.m3u` entry in front of a listing contributes its
      stripped text in front of the others. */
  lemma StrippedPlaylistsCons(e: DirEntry, rest: seq<DirEntry>)
    requires IsPlaylistName(e.name) && e.content.Some? && StrippedPlaylists(rest).Some?
    ensures StrippedPlaylists([e] + rest) == Some([Strip(e.content.value)] + StrippedPlaylists(rest).value)
  {
    assert ([e] + rest)[1..] == rest;
  }
}
