/** The playlist writers of LITV_TWTV_AutoUpdate.py: `save_stream` (one
    file per channel), `generate_index_files` (all.m3u and taiwan.m3u) and
    `merge_twtv` (strip the managed entries out of the downloaded master,
    then append the channel files under a delimiter block).

    Writes are returned as values; directory listings, file contents, the
    download result and the timestamp are inputs. */
module TwtvAutoUpdate {

  import opened Wrappers
  import opened Text
  import opened Lines
  import opened M3u
  import opened Listing
  import opened ManagedSection

  /* ---------------------------------------------------------------- */
  /* save_stream                                                       */
  /* ---------------------------------------------------------------- */

  /** The label of the stream at position `idx`: the first is the
      preferred high-quality stream, every later one a fallback. */
  function Label(idx: nat): string {
    if idx == 0 then "高清優先" else "備用"
  }

  /** The attribute text ` group-title="<group>" tvg-name="<name>"`. */
  function StreamAttrs(group: string, name: string): string {
    " group-title=\"" + group + "\" tvg-name=\"" + name + "\""
  }

  lemma StreamAttrsNoComma(group: string, name: string)
    requires ',' !in group && ',' !in name
    ensures ',' !in StreamAttrs(group, name)
  {
    assert StreamAttrs(group, name) == " group-title=\"" + group + "\" tvg-name=\"" + name + "\"";
  }

  /** The entry for stream `k` of a channel: `<name> (<label>)`. */
  function StreamEntries(group: string, name: string, streams: seq<string>): seq<Entry> {
    seq(|streams|, k requires 0 <= k < |streams| => Entry(StreamAttrs(group, name), name + " (" + Label(k) + ")", streams[k]))
  }

  /** The closing comment line with the save time. */
  function UpdateLine(stamp: string): string {
    "# 更新：" + stamp
  }

  lemma UpdateLineIsNoTag(stamp: string)
    ensures !StartsWith(UpdateLine(stamp), ExtInfTag)
  {
    CommentIsNoTag(UpdateLine(stamp));
  }

  /** The text `save_stream` writes to `<group>/<name>.m3u`: the header
      line first and the update comment last, each line ended by "\n". */
  function SaveStreamText(group: string, name: string, streams: seq<string>, stamp: string): (r: string)
    ensures StartsWith(r, Header + "\n")
    ensures EndsWith(r, "\n" + UpdateLine(stamp) + "\n")
  {
    var ls := FramedLines(StreamEntries(group, name, streams), UpdateLine(stamp));
    UnlinesJoin(ls);
    JoinEnds(ls, "\n");
    var text := Unlines(ls);
    var last := "\n" + UpdateLine(stamp) + "\n";
    assert text == Header + "\n" + Join(ls[1..], "\n") + "\n";
    assert text == Join(ls[..|ls| - 1], "\n") + last;
    assert text[..|Header| + 1] == Header + "\n";
    assert text[|text| - |last|..] == last;
    text
  }

  /** The caller-supplied fields hold no line break, so each written line
      stays one line. */
  predicate OneLineFields(group: string, name: string, streams: seq<string>, stamp: string) {
    '\n' !in group && '\n' !in name && '\n' !in stamp && NoneContains(streams, '\n')
  }

  lemma LabelOneLine(k: nat)
    ensures '\n' !in " (" + Label(k) + ")"
  {
  }

  lemma StreamAttrsOneLine(group: string, name: string)
    requires '\n' !in group && '\n' !in name
    ensures '\n' !in StreamAttrs(group, name)
  {
    assert '\n' !in " group-title=\"" && '\n' !in "\" tvg-name=\"" && '\n' !in "\"";
  }

  lemma StreamEntrySingleLine(group: string, name: string, streams: seq<string>, k: nat)
    requires '\n' !in group && '\n' !in name && NoneContains(streams, '\n') && k < |streams|
    ensures SingleLine(StreamEntries(group, name, streams)[k])
    ensures '\n' !in ExtInfLine(StreamEntries(group, name, streams)[k])
  {
    var e := StreamEntries(group, name, streams)[k];
    assert e == Entry(StreamAttrs(group, name), name + (" (" + Label(k) + ")"), streams[k]);
    LabelOneLine(k);
    StreamAttrsOneLine(group, name);
    ExtInfLineSingle(e);
  }

  lemma StreamEntriesSingleLine(group: string, name: string, streams: seq<string>, stamp: string)
    requires OneLineFields(group, name, streams, stamp)
    ensures NoneContains(FramedLines(StreamEntries(group, name, streams), UpdateLine(stamp)), '\n')
  {
    var es := StreamEntries(group, name, streams);
    forall k | 0 <= k < |es|
      ensures SingleLine(es[k])
    {
      StreamEntrySingleLine(group, name, streams, k);
    }
    assert '\n' !in UpdateLine(stamp) by {
      assert '\n' !in "# 更新：";
    }
    FramedLinesSingle(es, UpdateLine(stamp));
  }

  /** The file read as lines: `#EXTM3U`, then for stream `k` the line
      `#EXTINF:-1 group-title="<group>" tvg-name="<name>",<name> (<label>)`
      and the stream URL, in the order given, then the update comment; the
      final newline leaves one empty piece.  So `n` streams give `2n + 2`
      lines. */
  lemma SaveStreamLayout(group: string, name: string, streams: seq<string>, stamp: string)
    requires OneLineFields(group, name, streams, stamp)
    ensures var ls := Split(SaveStreamText(group, name, streams, stamp), '\n');
      && |ls| == 2 * |streams| + 3
      && ls[0] == "#EXTM3U"
      && (forall k :: 0 <= k < |streams| ==>
            && ls[2 * k + 1] == "#EXTINF:-1 group-title=\"" + group + "\" tvg-name=\"" + name + "\"," + name + " (" + Label(k) + ")"
            && ls[2 * k + 2] == streams[k])
      && ls[2 * |streams| + 1] == "# 更新：" + stamp
      && ls[2 * |streams| + 2] == ""
  {
    var es := StreamEntries(group, name, streams);
    var ls := FramedLines(es, UpdateLine(stamp));
    StreamEntriesSingleLine(group, name, streams, stamp);
    SplitUnlines(ls);
    forall k | 0 <= k < |streams|
      ensures ls[2 * k + 1] == "#EXTINF:-1 group-title=\"" + group + "\" tvg-name=\"" + name + "\"," + name + " (" + Label(k) + ")"
      ensures ls[2 * k + 2] == streams[k]
    {
      assert ls[2 * k + 1] == EntryLines(es)[2 * k];
      assert ls[2 * k + 2] == EntryLines(es)[2 * k + 1];
      StreamTagLine(group, name, streams, k);
    }
  }

  /** The tag line of an entry with the stream attributes, over arbitrary
      strings so that the constant pieces stay folded. */
  lemma StreamTagText(group: string, name: string, title: string)
    ensures ExtInfLine(Entry(StreamAttrs(group, name), title, ""))
      == "#EXTINF:-1 group-title=\"" + group + "\" tvg-name=\"" + name + "\"," + title
  {
    var p1 := " group-title=\"";
    var p2 := "\" tvg-name=\"";
    calc {
      ExtInfLine(Entry(StreamAttrs(group, name), title, ""));
      ExtInfTag + "-1" + (p1 + group + p2 + name + "\"") + "," + title;
      (ExtInfTag + "-1" + p1) + group + p2 + name + ("\"" + ",") + title;
      { assert ExtInfTag + "-1" + p1 == "#EXTINF:-1 group-title=\"";
        assert "\"" + "," == "\","; }
      "#EXTINF:-1 group-title=\"" + group + p2 + name + "\"," + title;
    }
  }

  lemma StreamTagLine(group: string, name: string, streams: seq<string>, k: nat)
    requires k < |streams|
    ensures ExtInfLine(StreamEntries(group, name, streams)[k])
      == "#EXTINF:-1 group-title=\"" + group + "\" tvg-name=\"" + name + "\"," + name + " (" + Label(k) + ")"
  {
    var title := name + " (" + Label(k) + ")";
    var e := StreamEntries(group, name, streams)[k];
    assert e == Entry(StreamAttrs(group, name), title, streams[k]);
    assert ExtInfLine(e) == ExtInfLine(Entry(StreamAttrs(group, name), title, ""));
    StreamTagText(group, name, title);
    var head := "#EXTINF:-1 group-title=\"" + group + "\" tvg-name=\"" + name + "\",";
    assert head + title == head + name + " (" + Label(k) + ")";
  }

  /** Only the first stream is labelled as the preferred one. */
  lemma OnlyFirstIsPreferred(k: nat)
    ensures Label(k) == "高清優先" <==> k == 0
  {
    if k > 0 {
      assert Label(k)[0] != "高清優先"[0];
    }
  }

  /** The file reads back as the entries it was written from. */
  lemma SaveStreamReadsEntries(group: string, name: string, streams: seq<string>, stamp: string)
    requires OneLineFields(group, name, streams, stamp)
    requires ',' !in group && ',' !in name
    ensures ReadEntries(Split(SaveStreamText(group, name, streams, stamp), '\n')) == Pairs(StreamEntries(group, name, streams))
  {
    var es := StreamEntries(group, name, streams);
    forall k | 0 <= k < |es|
      ensures SingleLine(es[k]) && ',' !in es[k].attrs
    {
      StreamEntrySingleLine(group, name, streams, k);
      StreamAttrsNoComma(group, name);
    }
    ReadFramedFile(es, UpdateLine(stamp));
  }

  /** A reader recovers every stream, in order, with its labelled title,
      provided group and name hold no comma. */
  lemma SaveStreamReadBack(group: string, name: string, streams: seq<string>, stamp: string)
    requires OneLineFields(group, name, streams, stamp)
    requires ',' !in group && ',' !in name
    ensures var ps := ReadEntries(Split(SaveStreamText(group, name, streams, stamp), '\n'));
      && |ps| == |streams|
      && forall k :: 0 <= k < |streams| ==> ps[k] == (name + " (" + Label(k) + ")", streams[k])
  {
    SaveStreamReadsEntries(group, name, streams, stamp);
  }

  /* ---------------------------------------------------------------- */
  /* generate_index_files                                              */
  /* ---------------------------------------------------------------- */

  /** The two index files, all.m3u and taiwan.m3u, as written. */
  datatype IndexFiles = IndexFiles(all: string, taiwan: string)

  /** The header element followed by the stripped channel files, joined
      with "\n". */
  function IndexText(contents: seq<string>): (r: string)
    ensures StartsWith(r, Header)
    ensures |contents| == 0 ==> r == Header
    ensures |contents| > 0 ==> EndsWith(r, "\n" + contents[|contents| - 1])
  {
    var parts := [Header] + contents;
    var text := Join(parts, "\n");
    assert |contents| > 0 ==> EndsWith(text, "\n" + contents[|contents| - 1]) && StartsWith(text, Header) by {
      if |contents| > 0 {
        JoinEnds(parts, "\n");
        var last := "\n" + contents[|contents| - 1];
        assert text == Join(parts[..|parts| - 1], "\n") + last;
        assert text[|text| - |last|..] == last;
        assert text == Header + "\n" + Join(parts[1..], "\n");
        assert text[..|Header|] == Header;
      }
    }
    text
  }

  /** The index holds exactly the `#EXTINF:` tags of the channel files. */
  lemma IndexTextCount(contents: seq<string>)
    ensures Count(IndexText(contents), ExtInfTag) == CountAll(contents, ExtInfTag)
  {
    var parts := [Header] + contents;
    assert IndexText(contents) == Join(parts, "\n");
    CountJoin(parts, '\n', ExtInfTag);
    assert parts[1..] == contents;
    HeaderCountsNoTag();
  }

  lemma HeaderCountsNoTag()
    ensures Count(Header, ExtInfTag) == 0
  {
    assert |Header| < |ExtInfTag|;
  }

  /** `generate_index_files`.  `groupDir` is the listing of the managed
      group's directory, `None` when the directory does not exist; a
      `None` result means a read raised before either file was written. */
  function GenerateIndexFiles(groupDir: Option<seq<DirEntry>>): (r: Option<IndexFiles>)
    ensures r.None? <==> groupDir.Some? && SomePlaylistUnreadable(groupDir.value)
    ensures r.Some? ==> r.value.all == r.value.taiwan
    ensures groupDir.None? ==> r == Some(IndexFiles(Header, Header))
  {
    if groupDir.None? then Some(IndexFiles(IndexText([]), IndexText([])))
    else
      match StrippedPlaylists(groupDir.value)
      case None => None
      case Some(contents) => Some(IndexFiles(IndexText(contents), IndexText(contents)))
  }

  /** Read as lines, an index is the header line followed by the lines of
      every channel file (`pieces[i]` are the lines of file `i`) in listing
      order. */
  lemma IndexTextLines(contents: seq<string>, pieces: seq<seq<string>>)
    requires |pieces| == |contents|
    requires forall i :: 0 <= i < |contents| ==> pieces[i] == Split(contents[i], '\n')
    ensures Split(IndexText(contents), '\n') == [Header] + Flatten(pieces)
  {
    assert IndexText(contents) == Join([Header] + contents, "\n");
    HeaderThenLines(contents, pieces);
  }

  /** The same, stated over the join itself. */
  lemma HeaderThenLines(contents: seq<string>, pieces: seq<seq<string>>)
    requires |pieces| == |contents|
    requires forall i :: 0 <= i < |contents| ==> pieces[i] == Split(contents[i], '\n')
    ensures Split(Join([Header] + contents, "\n"), '\n') == [Header] + Flatten(pieces)
  {
    var parts := [Header] + contents;
    var all := [[Header]] + pieces;
    PiecesWithHeader(contents, pieces);
    calc {
      Split(Join(parts, "\n"), '\n');
      { SplitJoin(parts, '\n', all); }
      Flatten(all);
      { assert all[1..] == pieces; }
      [Header] + Flatten(pieces);
    }
  }

  lemma PiecesWithHeader(contents: seq<string>, pieces: seq<seq<string>>)
    requires |pieces| == |contents|
    requires forall i :: 0 <= i < |contents| ==> pieces[i] == Split(contents[i], '\n')
    ensures forall i :: 0 <= i < |contents| + 1 ==> ([[Header]] + pieces)[i] == Split(([Header] + contents)[i], '\n')
  {
    var parts := [Header] + contents;
    var all := [[Header]] + pieces;
    forall i | 0 <= i < |parts|
      ensures all[i] == Split(parts[i], '\n')
    {
      if i == 0 {
        SplitWithoutDelimiter(Header, '\n');
      } else {
        assert parts[i] == contents[i - 1] && all[i] == pieces[i - 1];
      }
    }
  }

  /** The save time ends in a visible character (as any formatted date
      does), so stripping a channel file removes only its final newline. */
  predicate StampEndsVisibly(stamp: string) {
    |stamp| == 0 || !IsSpace(stamp[|stamp| - 1])
  }

  /** A stripped channel file, read as lines, is its header, its entries
      and its update comment, with nothing after. */
  lemma StrippedSaveStreamLines(group: string, name: string, streams: seq<string>, stamp: string)
    requires OneLineFields(group, name, streams, stamp) && StampEndsVisibly(stamp)
    ensures Split(Strip(SaveStreamText(group, name, streams, stamp)), '\n')
      == FramedLines(StreamEntries(group, name, streams), UpdateLine(stamp))
  {
    var ls := FramedLines(StreamEntries(group, name, streams), UpdateLine(stamp));
    var body := Join(ls, "\n");
    UnlinesJoin(ls);
    JoinEnds(ls, "\n");
    var u := UpdateLine(stamp);
    assert body[0] == '#';
    assert body[|body| - 1] == u[|u| - 1];
    assert !IsSpace(u[|u| - 1]);
    StripTrailingSpace(body, "\n");
    StreamEntriesSingleLine(group, name, streams, stamp);
    SplitJoinInverse(ls, '\n');
  }

  /** One channel file `save_stream` wrote into the group directory. */
  datatype SavedChannel = SavedChannel(name: string, streams: seq<string>, stamp: string)

  /** The channel's fields are one line each, the name holds no comma and
      the save time ends visibly. */
  predicate PlainChannel(group: string, c: SavedChannel) {
    OneLineFields(group, c.name, c.streams, c.stamp) && ',' !in c.name && StampEndsVisibly(c.stamp)
  }

  /** Channel files written by `save_stream` and gathered into an index
      (`contents[i]` is file `i` read and stripped) read back from the
      index as all their entries, file by file in listing order. */
  lemma {:induction false} IndexReadsBackChannels(group: string, chans: seq<SavedChannel>, contents: seq<string>, ess: seq<seq<Entry>>)
    requires ',' !in group
    requires |contents| == |ess| == |chans|
    requires forall i :: 0 <= i < |chans| ==> PlainChannel(group, chans[i])
    requires forall i :: 0 <= i < |chans| ==>
      contents[i] == Strip(SaveStreamText(group, chans[i].name, chans[i].streams, chans[i].stamp))
    requires forall i :: 0 <= i < |chans| ==> ess[i] == StreamEntries(group, chans[i].name, chans[i].streams)
    ensures ReadEntries(Split(IndexText(contents), '\n')) == PairsOfAll(ess)
  {
    var pieces, trailers := SavedPiecesFramed(group, chans, contents, ess);
    SavedEntriesCommaFree(group, chans, ess);
    IndexTextLines(contents, pieces);
    ReadFramedFiles(pieces, ess, trailers);
    ReadSkipsOtherLine(Header, Flatten(pieces));
  }

  /** Each stripped channel file, read as lines, is its framed entries
      with its own update comment as trailer. */
  lemma SavedPiecesFramed(group: string, chans: seq<SavedChannel>, contents: seq<string>, ess: seq<seq<Entry>>)
    returns (pieces: seq<seq<string>>, trailers: seq<string>)
    requires |contents| == |ess| == |chans|
    requires forall i :: 0 <= i < |chans| ==> PlainChannel(group, chans[i])
    requires forall i :: 0 <= i < |chans| ==>
      contents[i] == Strip(SaveStreamText(group, chans[i].name, chans[i].streams, chans[i].stamp))
    requires forall i :: 0 <= i < |chans| ==> ess[i] == StreamEntries(group, chans[i].name, chans[i].streams)
    ensures |pieces| == |trailers| == |chans|
    ensures forall i :: 0 <= i < |chans| ==> pieces[i] == Split(contents[i], '\n')
    ensures forall i :: 0 <= i < |chans| ==> pieces[i] == FramedLines(ess[i], trailers[i])
    ensures forall i :: 0 <= i < |chans| ==> !StartsWith(trailers[i], ExtInfTag)
  {
    var n := |chans|;
    trailers := seq(n, i requires 0 <= i < n => UpdateLine(chans[i].stamp));
    pieces := seq(n, i requires 0 <= i < n => Split(contents[i], '\n'));
    forall i | 0 <= i < n
      ensures pieces[i] == FramedLines(ess[i], trailers[i])
      ensures !StartsWith(trailers[i], ExtInfTag)
    {
      StrippedSaveStreamLines(group, chans[i].name, chans[i].streams, chans[i].stamp);
      UpdateLineIsNoTag(chans[i].stamp);
    }
  }

  /** No entry `save_stream` writes has a comma in its attributes. */
  lemma SavedEntriesCommaFree(group: string, chans: seq<SavedChannel>, ess: seq<seq<Entry>>)
    requires ',' !in group && |ess| == |chans|
    requires forall i :: 0 <= i < |chans| ==> PlainChannel(group, chans[i])
    requires forall i :: 0 <= i < |chans| ==> ess[i] == StreamEntries(group, chans[i].name, chans[i].streams)
    ensures forall i, k :: 0 <= i < |ess| && 0 <= k < |ess[i]| ==> ',' !in ess[i][k].attrs
  {
    forall i, k | 0 <= i < |ess| && 0 <= k < |ess[i]|
      ensures ',' !in ess[i][k].attrs
    {
      assert ess[i][k].attrs == StreamAttrs(group, chans[i].name);
      StreamAttrsNoComma(group, chans[i].name);
    }
  }

  /* ---------------------------------------------------------------- */
  /* merge_twtv                                                        */
  /* ---------------------------------------------------------------- */

  /** The delimiter line: "# " and 32 "=". */
  const Rule: string := "# ================================"
  const BlockTitle: string := "# 台灣頻道（自動更新）"

  /** Where a merged block starts: the line break that ends the blank
      line before it, the rule and the title. */
  const BlockMark: string := "\n" + Rule + "\n" + BlockTitle

  function MergeStampLine(stamp: string): string {
    "# 更新時間：" + stamp
  }

  /** What `merge_twtv` ends with: no write because the download failed
      or was empty, an exception while listing or reading the channel
      files, or the merged master text written to TWTV.m3u. */
  datatype MergeOutcome = DownloadFailed | Raised | Merged(text: string)

  /** The downloaded master with the managed entries stripped and
      trailing whitespace removed: the part of the result kept from the
      download. */
  function KeptMaster(download: string): string {
    RStrip(RemoveOldTw(download))
  }

  /** A merged master: the part `kept` from the download, a blank line,
      the delimiter block, the channel files joined by "\n" and the
      merge-time line. */
  function Assembled(kept: string, contents: seq<string>, stamp: string): (r: string)
    ensures StartsWith(r, kept + "\n" + BlockMark)
    ensures EndsWith(r, "\n" + MergeStampLine(stamp) + "\n")
  {
    var body := Join(contents, "\n");
    BlockBounds(kept, Rule, BlockTitle, body, MergeStampLine(stamp));
    BlockStarts(kept, Rule, BlockTitle, body, MergeStampLine(stamp));
    kept + "\n\n" + Rule + "\n" + BlockTitle + "\n" + Rule + "\n" + body + "\n" + MergeStampLine(stamp) + "\n"
  }

  /** The text `merge_twtv` writes: the kept part of the download and,
      after it, the new block ending in the merge-time line. */
  function MergedText(download: string, contents: seq<string>, stamp: string): (r: string)
    ensures StartsWith(r, KeptMaster(download) + "\n" + BlockMark)
    ensures EndsWith(r, "\n" + MergeStampLine(stamp) + "\n")
  {
    Assembled(KeptMaster(download), contents, stamp)
  }

  /** `merge_twtv`.  `download` is the result of `download_twtv` (`None`
      when it raised); `groupDir` is the listing of the managed group's
      directory (`None` when it does not exist, so that listing raises). */
  function MergeTwtv(download: Option<string>, groupDir: Option<seq<DirEntry>>, stamp: string): (r: MergeOutcome)
    ensures r.DownloadFailed? <==> download.None? || download.value == ""
    ensures r.Raised? <==>
      (download.Some? && download.value != "" && (groupDir.None? || SomePlaylistUnreadable(groupDir.value)))
    ensures r.Merged? ==> StartsWith(r.text, KeptMaster(download.value) + "\n" + BlockMark)
    ensures r.Merged? ==> EndsWith(r.text, "\n" + MergeStampLine(stamp) + "\n")
  {
    if download.None? || download.value == "" then DownloadFailed
    else if groupDir.None? then Raised
    else
      match StrippedPlaylists(groupDir.value)
      case None => Raised
      case Some(contents) => Merged(MergedText(download.value, contents, stamp))
  }

  /** Neither delimiter line contains a line break. */
  lemma DelimitersOneLine()
    ensures '\n' !in Rule && '\n' !in BlockTitle
  {
  }

  /** Neither delimiter line, nor the blank line before them, is a
      managed tag. */
  lemma DelimitersAreNoTags()
    ensures !IsManagedTag("") && !IsManagedTag(Rule) && !IsManagedTag(BlockTitle)
  {
    assert Rule[1] != ExtInfTag[1] && BlockTitle[1] != ExtInfTag[1];
  }

  /** Read as lines, the merged master is the kept master, an empty line,
      the three-line delimiter block, the lines of the channel files
      joined by "\n", and the merge-time line. */
  lemma MergedTextLines(download: string, contents: seq<string>, stamp: string)
    requires '\n' !in stamp
    ensures Split(MergedText(download, contents, stamp), '\n')
      == Split(KeptMaster(download), '\n') + ["", Rule, BlockTitle, Rule]
         + Split(Join(contents, "\n"), '\n') + [MergeStampLine(stamp), ""]
  {
    DelimitersOneLine();
    assert '\n' !in MergeStampLine(stamp);
    BlockLines(KeptMaster(download), Rule, BlockTitle, Join(contents, "\n"), MergeStampLine(stamp));
  }

  /** No line kept from the download is a managed tag: stripping and the
      final `rstrip` leave none behind, so the only managed entries in the
      merged master are those of the appended channel files. */
  lemma KeptMasterHasNoManagedTag(download: string)
    ensures forall line :: line in Split(KeptMaster(download), '\n') ==> !IsManagedTag(line)
  {
    PrefixKeepsNoManagedTag(RemoveOldTw(download), KeptMaster(download));
  }

  /** The scanner keeps a merged block's delimiter lines: stripping a
      merged master whose kept part has no managed tag removes only
      managed entries of the channel files, and leaves the kept part
      followed by the blank line, the rule and the title. */
  lemma {:induction false} RemoveOldTwKeepsBlockMark(kept: string, contents: seq<string>, stamp: string)
    requires forall line :: line in Split(kept, '\n') ==> !IsManagedTag(line)
    ensures StartsWith(RemoveOldTw(Assembled(kept, contents, stamp)), kept + "\n" + BlockMark)
  {
    var body := Join(contents, "\n");
    var text := Assembled(kept, contents, stamp);
    var head := Split(kept, '\n') + ["", Rule, BlockTitle];
    var rest := Split(Rule + "\n" + (body + "\n" + (MergeStampLine(stamp) + "\n")), '\n');
    DelimitersOneLine();
    BlockHeadLines(kept, Rule, BlockTitle, body, MergeStampLine(stamp));
    assert Split(text, '\n') == head + rest;
    DelimitersAreNoTags();
    assert forall i :: 0 <= i < |head| ==> !IsManagedTag(head[i]) by {
      forall i | 0 <= i < |head|
        ensures !IsManagedTag(head[i])
      {
        if i < |Split(kept, '\n')| {
          assert head[i] in Split(kept, '\n');
        }
      }
    }
    ScanCleanPrefix(head, rest);
    var z := Scan(rest, false);
    JoinBlockHead(kept, Rule, BlockTitle);
    if |z| > 0 {
      JoinAppend(head, z, "\n");
    } else {
      assert head + z == head;
    }
  }

  /** As written, merging again is not idempotent: the kept part of a
      merged master still holds that merge's delimiter lines, so every
      re-merge of the master a merge wrote stacks one more block. */
  lemma RemergeKeepsOldBlock(download: string, contents: seq<string>, stamp1: string, stamp2: string)
    ensures StartsWith(KeptMaster(MergedText(download, contents, stamp1)), KeptMaster(download) + "\n" + BlockMark)
    ensures |MergedText(MergedText(download, contents, stamp1), contents, stamp2)|
          > |MergedText(download, contents, stamp2)|
  {
    var k := KeptMaster(download);
    var p := k + "\n" + BlockMark;
    KeptMasterHasNoManagedTag(download);
    RemoveOldTwKeepsBlockMark(k, contents, stamp1);
    assert p[|p| - 1] == BlockTitle[|BlockTitle| - 1] == '）';
    RStripKeepsPrefix(RemoveOldTw(Assembled(k, contents, stamp1)), p);
  }

  /** The block mark starts with a line break, ends with a visible
      character and holds no two line breaks in a row. */
  lemma BlockMarkShape()
    ensures LineMarker(BlockMark)
  {
    var m := BlockMark;
    var n := |Rule|;
    DelimitersOneLine();
    assert m[|m| - 1] == BlockTitle[|BlockTitle| - 1];
    forall t | 0 <= t < |m| - 1
      ensures !(m[t] == '\n' && m[t + 1] == '\n')
    {
      if t == 0 {
        assert m[1] == Rule[0];
      } else if t <= n {
        assert m[t] == Rule[t - 1];
      } else if t == n + 1 {
        assert m[t + 1] == BlockTitle[0];
      } else {
        assert m[t] == BlockTitle[t - n - 2];
      }
    }
  }

  /** `merge_twtv`'s kept part as intended: besides the managed entries,
      everything from an earlier merge's delimiter block on is cut off, so
      that a merge replaces the block instead of stacking another one.
      Lines an upstream master holds after such a block are cut with it. */
  function KeptMasterCorrected(download: string): (r: string)
    ensures !Contains(r, BlockMark)
    ensures forall line :: line in Split(r, '\n') ==> !IsManagedTag(line)
    ensures |r| == 0 || !IsSpace(r[|r| - 1])
    ensures !Contains(RemoveOldTw(download), BlockMark) ==> r == KeptMaster(download)
  {
    var stripped := RemoveOldTw(download);
    var before := Before(stripped, BlockMark);
    var k := RStrip(before);
    BeforeHasNoSep(stripped, BlockMark);
    ContainsExtends(k, before, BlockMark);
    assert stripped[..|k|] == before[..|k|];
    PrefixKeepsNoManagedTag(stripped, k);
    k
  }

  /** The merged text as intended: the corrected kept part and the new
      block. */
  function MergedTextCorrected(download: string, contents: seq<string>, stamp: string): (r: string)
    ensures StartsWith(r, KeptMasterCorrected(download) + "\n" + BlockMark)
    ensures EndsWith(r, "\n" + MergeStampLine(stamp) + "\n")
  {
    Assembled(KeptMasterCorrected(download), contents, stamp)
  }

  /** The corrected kept part is the stripped text up to the first block
      mark, without trailing whitespace. */
  lemma KeptMasterCorrectedUnfold(download: string)
    ensures KeptMasterCorrected(download) == RStrip(Before(RemoveOldTw(download), BlockMark))
  {
  }

  /** In a stripped merge of a kept part free of the block mark, the text
      before the first block mark is that kept part and its line break. */
  lemma MarkedPartBeforeBlock(k: string, contents: seq<string>, stamp: string)
    requires !Contains(k, BlockMark)
    requires forall line :: line in Split(k, '\n') ==> !IsManagedTag(line)
    ensures Before(RemoveOldTw(Assembled(k, contents, stamp)), BlockMark) == k + "\n"
  {
    var s := RemoveOldTw(Assembled(k, contents, stamp));
    assert StartsWith(s, k + "\n" + BlockMark) by {
      RemoveOldTwKeepsBlockMark(k, contents, stamp);
    }
    BlockMarkShape();
    FirstOccurrenceAfterBreak(k, BlockMark, s);
  }

  /** Stripping a corrected merge's output recovers exactly the part that
      merge kept: the first block mark in it is the one the merge wrote. */
  lemma KeptPartSurvivesRemerge(download: string, contents: seq<string>, stamp: string)
    ensures KeptMasterCorrected(MergedTextCorrected(download, contents, stamp)) == KeptMasterCorrected(download)
  {
    var k := KeptMasterCorrected(download);
    var merged := MergedTextCorrected(download, contents, stamp);
    assert merged == Assembled(k, contents, stamp);
    KeptMasterCorrectedUnfold(merged);
    MarkedPartBeforeBlock(k, contents, stamp);
    RStripDropsBreak(k);
  }

  /** The corrected merge is idempotent: merging the master it wrote again
      with the same channel files gives exactly what merging the original
      download gives, up to the merge time. */
  lemma CorrectedMergeIsIdempotent(download: string, contents: seq<string>, stamp1: string, stamp2: string)
    ensures MergedTextCorrected(MergedTextCorrected(download, contents, stamp1), contents, stamp2)
         == MergedTextCorrected(download, contents, stamp2)
  {
    KeptPartSurvivesRemerge(download, contents, stamp1);
  }
}
