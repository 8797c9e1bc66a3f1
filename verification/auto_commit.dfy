/** `auto_commit.py`: each channel file holds the first `.m3u8` manifest
    the page requested, and the master `all.m3u` concatenates every `.m3u`
    file of the output directory. */
module AutoCommit {

  import opened Wrappers
  import opened Text
  import opened Lines
  import opened Seqs
  import opened M3u
  import opened Capture
  import opened Listing

  /** `r.response and ".m3u8" in r.url`; there is no advertisement filter
      in this script. */
  predicate IsCandidate(r: Request) {
    r.hasResponse && Contains(r.url, ".m3u8")
  }

  function Urls(reqs: seq<Request>): (r: seq<string>)
    ensures |r| == |reqs|
    ensures forall i :: 0 <= i < |reqs| ==> r[i] == reqs[i].url
  {
    seq(|reqs|, i requires 0 <= i < |reqs| => reqs[i].url)
  }

  /** `candidates`: the URLs of the candidate requests, in the order the
      requests were observed. */
  function Candidates(reqs: seq<Request>): (r: seq<string>)
    ensures forall u :: u in r <==> exists k | 0 <= k < |reqs| :: IsCandidate(reqs[k]) && reqs[k].url == u
  {
    var kept := Filter(reqs, IsCandidate);
    forall u | u in Urls(kept)
      ensures exists k | 0 <= k < |reqs| :: IsCandidate(reqs[k]) && reqs[k].url == u
    {
      var i :| 0 <= i < |kept| && Urls(kept)[i] == u;
      assert kept[i] in kept;
    }
    forall u | exists k | 0 <= k < |reqs| :: IsCandidate(reqs[k]) && reqs[k].url == u
      ensures u in Urls(kept)
    {
      var k :| 0 <= k < |reqs| && IsCandidate(reqs[k]) && reqs[k].url == u;
      assert reqs[k] in kept;
      var i :| 0 <= i < |kept| && kept[i] == reqs[k];
      assert Urls(kept)[i] == u;
    }
    Urls(kept)
  }

  /** `fetch_stream` after the page has loaded: with no candidate nothing
      is written and `None` is returned; otherwise the first candidate, in
      observation order, is written as a one-entry playlist. */
  function FetchStream(name: string, reqs: seq<Request>): (r: Option<ChannelFile>)
    ensures r.None? <==> forall k :: 0 <= k < |reqs| ==> !IsCandidate(reqs[k])
    ensures r.Some? ==>
      exists k :: 0 <= k < |reqs| && IsCandidate(reqs[k]) && r.value.url == reqs[k].url
                  && forall j :: 0 <= j < k ==> !IsCandidate(reqs[j])
  {
    var candidates := Candidates(reqs);
    if |candidates| == 0 then None
    else
      var url := candidates[0];
      FilterHead(reqs, IsCandidate);
      Some(ChannelFile(url, "#EXTM3U\n#EXTINF:-1," + name + "\n" + url + "\n"))
  }

  /** The written file reads back as exactly one entry, titled with the
      channel name and pointing at the chosen URL. */
  lemma {:induction false} FetchStreamFileReadsBack(name: string, reqs: seq<Request>)
    requires FetchStream(name, reqs).Some?
    requires '\n' !in name && ',' !in name
    requires forall k :: 0 <= k < |reqs| ==> '\n' !in reqs[k].url
    ensures var f := FetchStream(name, reqs).value;
      ReadEntries(Split(f.text, '\n')) == [(name, f.url)]
  {
    var f := FetchStream(name, reqs).value;
    assert '\n' !in f.url by {
      assert f.url in Candidates(reqs);
    }
    PlainEntryFile(name, f.url);
  }

  /* ---------------------------------------------------------------- */
  /* The master playlist                                               */
  /* ---------------------------------------------------------------- */

  /** The master's own file name, inside the directory it aggregates. */
  const MasterName: string := "all.m3u"

  /** The first part of the master. */
  const MasterHead: string := "#EXTM3U\n"

  /** `"\n".join(lines)` for the stripped file contents: the header, then
      the files, and exactly the `#EXTINF:` tags the files hold. */
  function MasterText(contents: seq<string>): (r: string)
    ensures StartsWith(r, MasterHead)
    ensures Count(r, ExtInfTag) == CountAll(contents, ExtInfTag)
  {
    var parts := [MasterHead] + contents;
    var text := Join(parts, "\n");
    assert text == MasterHead + text[|MasterHead|..] by {
      if |contents| > 0 {
        JoinEnds(parts, "\n");
      }
    }
    CountJoin(parts, '\n', ExtInfTag);
    assert parts[1..] == contents;
    HeadCountsNothing();
    text
  }

  /** `generate_master_playlist` as written: every `.m3u` file of the
      listing, `all.m3u` included, stripped and joined after the header;
      `None` when a read raises (the script has no handler, so the run
      stops). */
  function GenerateMasterPlaylistAsWritten(listing: seq<DirEntry>): (r: Option<string>)
    ensures r.None? <==> SomePlaylistUnreadable(listing)
    ensures r.Some? ==> StartsWith(r.value, MasterHead)
    ensures r.Some? ==> Count(r.value, ExtInfTag) == CountAll(StrippedPlaylists(listing).value, ExtInfTag)
  {
    match StrippedPlaylists(listing)
    case None => None
    case Some(contents) => Some(MasterText(contents))
  }

  /** A listed file other than the master itself. */
  predicate IsChannelFile(e: DirEntry) {
    e.name != MasterName
  }

  /** `generate_master_playlist` as intended: the master aggregates the
      channel files and leaves out the copy of itself from the previous
      run. */
  function GenerateMasterPlaylist(listing: seq<DirEntry>): (r: Option<string>)
    ensures r.None? <==> SomePlaylistUnreadable(Filter(listing, IsChannelFile))
    ensures r.Some? ==> StartsWith(r.value, MasterHead)
    ensures r.Some? ==>
      Count(r.value, ExtInfTag) == CountAll(StrippedPlaylists(Filter(listing, IsChannelFile)).value, ExtInfTag)
  {
    GenerateMasterPlaylistAsWritten(Filter(listing, IsChannelFile))
  }

  /** Wherever the previous master sits in the listing, and whatever it
      holds, the new master does not depend on it. */
  lemma MasterIgnoresPreviousMaster(before: seq<DirEntry>, after: seq<DirEntry>, previous: Option<string>)
    ensures GenerateMasterPlaylist(before + [DirEntry(MasterName, previous)] + after)
         == GenerateMasterPlaylist(before + after)
  {
    var m := [DirEntry(MasterName, previous)];
    FilterConcat(before + m, after, IsChannelFile);
    FilterConcat(before, m, IsChannelFile);
    FilterConcat(before, after, IsChannelFile);
    assert Filter(m, IsChannelFile) == [];
    assert Filter(before, IsChannelFile) + [] == Filter(before, IsChannelFile);
  }

  /** Regenerating the master right after it was written gives the same
      text: the aggregation is stable from run to run. */
  lemma MasterIsStable(listing: seq<DirEntry>)
    ensures GenerateMasterPlaylist(listing + [DirEntry(MasterName, GenerateMasterPlaylist(listing))])
         == GenerateMasterPlaylist(listing)
  {
    MasterIgnoresPreviousMaster(listing, [], GenerateMasterPlaylist(listing));
    assert listing + [DirEntry(MasterName, GenerateMasterPlaylist(listing))] + []
        == listing + [DirEntry(MasterName, GenerateMasterPlaylist(listing))];
    assert listing + [] == listing;
  }

  lemma HeadCountsNothing()
    ensures Count(MasterHead, ExtInfTag) == 0
  {
    assert MasterHead[1..] == "EXTM3U\n";
    assert MasterHead[..|ExtInfTag|][4] != ExtInfTag[4];
    CountWithoutLead("EXTM3U\n", ExtInfTag);
  }

  /** Two readable playlist files, in listing order. */
  lemma StrippedPair(a: DirEntry, b: DirEntry)
    requires IsPlaylistName(a.name) && a.content.Some?
    requires IsPlaylistName(b.name) && b.content.Some?
    ensures StrippedPlaylists([a]) == Some([Strip(a.content.value)])
    ensures StrippedPlaylists([a, b]) == Some([Strip(a.content.value), Strip(b.content.value)])
  {
    StrippedSingle(a);
    StrippedSingle(b);
    StrippedPlaylistsCons(a, [b]);
    assert [a] + [b] == [a, b];
    assert [Strip(a.content.value)] + [Strip(b.content.value)] == [Strip(a.content.value), Strip(b.content.value)];
  }

  /** One readable playlist file. */
  lemma StrippedSingle(a: DirEntry)
    requires IsPlaylistName(a.name) && a.content.Some?
    ensures StrippedPlaylists([a]) == Some([Strip(a.content.value)])
  {
    var none: seq<DirEntry> := [];
    assert StrippedPlaylists(none) == Some([]);
    StrippedPlaylistsCons(a, none);
    assert [a] + none == [a];
    assert [Strip(a.content.value)] + [] == [Strip(a.content.value)];
  }

  /** A master over one non-empty stripped text is its own strip. */
  lemma MasterOfOneStripsToItself(c: string)
    requires |c| > 0 && !IsSpace(c[|c| - 1])
    ensures Strip(MasterText([c])) == MasterText([c])
  {
    var m := MasterText([c]);
    JoinEnds([MasterHead, c], "\n");
    assert m == MasterHead + "\n" + c;
    assert m[0] == '#';
    assert m[|m| - 1] == c[|c| - 1];
    StripTrailingSpace(m, "");
    assert m + "" == m;
  }

  /** The master the first run writes for a directory holding the one
      file `name`. */
  function FirstMaster(raw: string): string {
    MasterText([Strip(raw)])
  }

  /** The listing the second run sees: the file and the first master. */
  function SecondListing(name: string, raw: string): seq<DirEntry> {
    [DirEntry(name, Some(raw)), DirEntry(MasterName, Some(FirstMaster(raw)))]
  }

  /** The first run writes a master with the entries of the one file. */
  lemma FirstRun(name: string, raw: string)
    requires IsPlaylistName(name)
    ensures GenerateMasterPlaylistAsWritten([DirEntry(name, Some(raw))]) == Some(FirstMaster(raw))
    ensures Count(FirstMaster(raw), ExtInfTag) == Count(Strip(raw), ExtInfTag)
  {
    var one: seq<string> := [Strip(raw)];
    StrippedPair(DirEntry(name, Some(raw)), DirEntry(name, Some(raw)));
    assert one[1..] == [];
    assert CountAll(one, ExtInfTag) == Count(Strip(raw), ExtInfTag) + CountAll([], ExtInfTag);
  }

  /** As written, the next run reads the master of the previous run back
      in: a directory with one channel file whose stripped text holds
      `n > 0` entries yields a master with those `n` entries (`FirstRun`),
      and the run after it a master with `2 * n`, one more copy each
      further run.  `MasterIsStable` states the corrected behaviour. */
  lemma {:induction false} MasterIncludesItself(name: string, raw: string)
    requires IsPlaylistName(name) && name != MasterName
    requires Count(Strip(raw), ExtInfTag) > 0
    ensures GenerateMasterPlaylistAsWritten(SecondListing(name, raw)).Some?
    ensures Count(GenerateMasterPlaylistAsWritten(SecondListing(name, raw)).value, ExtInfTag)
         == 2 * Count(Strip(raw), ExtInfTag)
  {
    var c := Strip(raw);
    var m1 := FirstMaster(raw);
    var listing := SecondListing(name, raw);
    assert StrippedPlaylists(listing) == Some([c, m1]) by {
      assert IsPlaylistName(MasterName);
      assert |c| > 0 by {
        CountPositiveIffContains(c, ExtInfTag);
      }
      StrippedPair(DirEntry(name, Some(raw)), DirEntry(MasterName, Some(m1)));
      MasterOfOneStripsToItself(c);
    }
    CountAllPair(c, m1, ExtInfTag);
    FirstRun(name, raw);
  }

  /** One channel file holding one entry. */
  const ChannelText: string := "#EXTM3U\n#EXTINF:-1,A\nhttp://a/x.m3u8\n"

  lemma TagLineCountsOne()
    ensures Count("#EXTINF:-1,A", ExtInfTag) == 1
  {
    var tag := "#EXTINF:-1,A";
    assert tag[..|ExtInfTag|] == ExtInfTag && tag[|ExtInfTag|..] == "-1,A";
  }

  lemma UrlCountsNothing()
    ensures Count("http://a/x.m3u8", ExtInfTag) == 0
  {
    var url := "http://a/x.m3u8";
    assert forall i | 0 <= i < |url| :: url[i] != '#';
    CountWithoutLead(url, ExtInfTag);
  }

  lemma HeaderCountsNothing()
    ensures Count(Header, ExtInfTag) == 0
  {
  }

  /** The example file without its final newline holds one entry. */
  lemma ChannelBodyCount()
    ensures Count(ChannelText[..|ChannelText| - 1], ExtInfTag) == 1
  {
    var tag := "#EXTINF:-1,A";
    var url := "http://a/x.m3u8";
    assert ChannelText[..|ChannelText| - 1] == Header + ['\n'] + (tag + ['\n'] + url);
    CountSplitAt(Header, '\n', tag + ['\n'] + url, ExtInfTag);
    CountSplitAt(tag, '\n', url, ExtInfTag);
    HeaderCountsNothing();
    TagLineCountsOne();
    UrlCountsNothing();
  }

  /** Stripping the example file drops its final newline only. */
  lemma ChannelTextCount()
    ensures Count(Strip(ChannelText), ExtInfTag) == 1
  {
    var body := ChannelText[..|ChannelText| - 1];
    ChannelBodyCount();
    assert ChannelText == body + "\n";
    assert body[0] == ChannelText[0] == '#';
    assert body[|body| - 1] == ChannelText[|ChannelText| - 2] == '8';
    StripTrailingSpace(body, "\n");
  }

  /** The finding on a concrete directory: `A.m3u` with one entry. */
  lemma MasterIncludesItselfExample()
    ensures GenerateMasterPlaylistAsWritten([DirEntry("A.m3u", Some(ChannelText))]) == Some(FirstMaster(ChannelText))
    ensures Count(FirstMaster(ChannelText), ExtInfTag) == 1
    ensures GenerateMasterPlaylistAsWritten(SecondListing("A.m3u", ChannelText)).Some?
    ensures Count(GenerateMasterPlaylistAsWritten(SecondListing("A.m3u", ChannelText)).value, ExtInfTag) == 2
  {
    ChannelTextCount();
    assert IsPlaylistName("A.m3u");
    FirstRun("A.m3u", ChannelText);
    MasterIncludesItself("A.m3u", ChannelText);
  }
}
