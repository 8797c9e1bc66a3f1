/** The configured-channel updater: every configured stream URL that
    passes the validity check gets its own one-entry playlist, and the
    channels that passed are listed again in a master `all.m3u`.

    The HEAD request behind the validity check is the oracle `isValid`.
    The clock is read once per written file: `now[i]` is the reading taken
    while channel `i`'s file is built. */
module UpdateAll {

  import opened Wrappers
  import opened Text
  import opened Lines
  import opened M3u

  /** One configured channel: its display name and the code configured
      for it (a stream URL). */
  datatype Channel = Channel(name: string, code: string)

  /** A file the run writes: its path and its text. */
  datatype SavedFile = SavedFile(path: string, text: string)

  /** What one run produces: the channel files in the order they are
      written, the names of the channels that passed, and the text of
      `m3u-files/all.m3u`. */
  datatype Run = Run(files: seq<SavedFile>, valid: seq<string>, master: string)

  /** The configuration is a dictionary: no name is configured twice. */
  predicate DistinctNames(channels: seq<Channel>) {
    forall i, j :: 0 <= i < j < |channels| ==> channels[i].name != channels[j].name
  }

  const OfiiiHost: string := "https://cdi.ofiii.com"
  const PlaylistPath: string := "/ocean/video/playlist/"
  const VideoRendition: string := "/litv-longturn03-avc1_2936000=4"
  const AudioRendition: string := "-mp4a_114000=2.m3u8"

  /** The configured stream of one video: its 2936000 bit/s rendition. */
  function OfiiiUrl(id: string): string {
    OfiiiHost + PlaylistPath + id + VideoRendition + AudioRendition
  }

  /** The two channels configured in the script, in dictionary order. */
  const Configured: seq<Channel> := [
    Channel("LITV電影", OfiiiUrl("ynpCU-j6j94")),
    Channel("龍華電影", OfiiiUrl("5B_0z92_TBE"))
  ]

  const HttpScheme: string := "http"

  /** `fetch_url`: the code itself when it starts with `http` and the
      stream check accepts it; no check is made for any other code. */
  function FetchUrl(code: string, isValid: string -> bool): (r: Option<string>)
    ensures r.Some? <==> StartsWith(code, HttpScheme) && isValid(code)
    ensures r.Some? ==> r.value == code && |r.value| >= |HttpScheme|
  {
    if StartsWith(code, HttpScheme) && isValid(code) then Some(code) else None
  }

  predicate Fetched(c: Channel, isValid: string -> bool) {
    FetchUrl(c.code, isValid).Some?
  }

  /** The channels whose URL is fetched, in configuration order. */
  function ValidChannels(channels: seq<Channel>, isValid: string -> bool): (r: seq<Channel>)
    ensures |r| <= |channels|
    ensures forall c :: c in r <==> c in channels && Fetched(c, isValid)
    decreases |channels|
  {
    if |channels| == 0 then []
    else
      var init := channels[..|channels| - 1];
      var last := channels[|channels| - 1];
      assert channels == init + [last];
      var kept := ValidChannels(init, isValid);
      if Fetched(last, isValid) then kept + [last] else kept
  }

  function NamesOf(cs: seq<Channel>): (r: seq<string>)
    ensures |r| == |cs|
    ensures forall k :: 0 <= k < |cs| ==> r[k] == cs[k].name
  {
    seq(|cs|, k requires 0 <= k < |cs| => cs[k].name)
  }

  lemma NamesOfAppend(cs: seq<Channel>, c: Channel)
    ensures NamesOf(cs + [c]) == NamesOf(cs) + [c.name]
  {
  }

  /** `m3u-files/<name>.m3u` */
  function ChannelPath(name: string): string {
    "m3u-files/" + name + ".m3u"
  }

  const FileAttrs: string := " group-title=\"自定义频道\""

  function UpdateTimeLine(stamp: string): string {
    "# 更新时间：" + stamp
  }

  /** The text written to a channel's file: the header line first, the
      update-time comment last, each line ended by "\n". */
  function ChannelContent(name: string, url: string, stamp: string): (r: string)
    ensures StartsWith(r, Header + "\n")
    ensures EndsWith(r, "\n" + UpdateTimeLine(stamp) + "\n")
  {
    ChannelTextBounds(FileAttrs, name, url, UpdateTimeLine(stamp));
    "#EXTM3U\n#EXTINF:-1" + FileAttrs + "," + name + "\n" + url + "\n" + UpdateTimeLine(stamp) + "\n"
  }

  lemma ChannelTextBounds(attrs: string, name: string, url: string, last: string)
    ensures var text := "#EXTM3U\n#EXTINF:-1" + attrs + "," + name + "\n" + url + "\n" + last + "\n";
      StartsWith(text, Header + "\n") && EndsWith(text, "\n" + last + "\n")
  {
    var text := "#EXTM3U\n#EXTINF:-1" + attrs + "," + name + "\n" + url + "\n" + last + "\n";
    var head := "#EXTM3U\n";
    var middle := "#EXTINF:-1" + attrs + "," + name + "\n" + url;
    var tail := "\n" + last + "\n";
    assert "#EXTM3U\n#EXTINF:-1" == head + "#EXTINF:-1";
    assert text == head + middle + tail;
    assert text[..|head|] == head;
    assert text[|text| - |tail|..] == tail;
  }

  lemma FileAttrsOneField()
    ensures '\n' !in FileAttrs && ',' !in FileAttrs
  {
  }

  lemma UpdateTimeLineIsComment(stamp: string)
    requires '\n' !in stamp
    ensures var t := UpdateTimeLine(stamp); '\n' !in t && |t| >= 2 && t[0] == '#' && t[1] == ' '
  {
    var head := "# 更新时间：";
    assert '\n' !in head;
    assert UpdateTimeLine(stamp) == head + stamp;
  }

  /** A channel file reads back as exactly its one channel: the update-time
      line is a comment and no tag. */
  lemma ChannelFileReadsBack(name: string, url: string, stamp: string)
    requires '\n' !in name && '\n' !in url && '\n' !in stamp
    ensures ReadEntries(Split(ChannelContent(name, url, stamp), '\n')) == [(name, url)]
  {
    FileAttrsOneField();
    UpdateTimeLineIsComment(stamp);
    EntryFileReadsBack(FileAttrs, name, url, UpdateTimeLine(stamp));
  }

  /** The name is configured. */
  predicate IsConfigured(channels: seq<Channel>, n: string) {
    exists k :: 0 <= k < |channels| && channels[k].name == n
  }

  /** `CHANNELS[n]`: the code configured for `n` (the first, should a name
      appear twice). */
  function UrlOf(channels: seq<Channel>, n: string): (r: string)
    requires IsConfigured(channels, n)
    ensures Channel(n, r) in channels
    decreases |channels|
  {
    if channels[0].name == n then channels[0].code
    else
      assert IsConfigured(channels[1..], n) by {
        var k :| 0 <= k < |channels| && channels[k].name == n;
        assert k > 0 && channels[1..][k - 1] == channels[k];
      }
      UrlOf(channels[1..], n)
  }

  /** With distinct names, looking a configured channel up by name gives
      its own code. */
  lemma UrlOfMember(channels: seq<Channel>, c: Channel)
    requires DistinctNames(channels) && c in channels
    ensures IsConfigured(channels, c.name) && UrlOf(channels, c.name) == c.code
  {
    var k :| 0 <= k < |channels| && channels[k] == c;
    var r := UrlOf(channels, c.name);
    var j :| 0 <= j < |channels| && channels[j] == Channel(c.name, r);
    assert j == k;
  }

  const MasterAttrs: string := " group-title='自定义频道'"

  /** The master's entry for each listed name, with its configured URL. */
  function MasterEntries(channels: seq<Channel>, names: seq<string>): (r: seq<Entry>)
    requires forall n :: n in names ==> IsConfigured(channels, n)
    ensures |r| == |names|
    ensures forall k :: 0 <= k < |names| ==> r[k] == Entry(MasterAttrs, names[k], UrlOf(channels, names[k]))
  {
    seq(|names|, k requires 0 <= k < |names| => Entry(MasterAttrs, names[k], UrlOf(channels, names[k])))
  }

  /** The tag line and the URL line with its own "\n" of every entry. */
  function EntryParts(es: seq<Entry>): seq<string>
    decreases |es|
  {
    if |es| == 0 then []
    else [ExtInfLine(es[0]), es[0].url + "\n"] + EntryParts(es[1..])
  }

  const MasterHead: string := "#EXTM3U\n"

  /** `generate_master_playlist`: the header and each entry's two parts,
      joined with "\n". */
  function MasterText(channels: seq<Channel>, names: seq<string>): (r: string)
    requires forall n :: n in names ==> IsConfigured(channels, n)
    ensures StartsWith(r, MasterHead)
    ensures |names| == 0 ==> r == MasterHead
    ensures EndsWith(r, "\n")
  {
    var es := MasterEntries(channels, names);
    var parts := [MasterHead] + EntryParts(es);
    if |es| == 0 then
      assert parts == [MasterHead];
      Join(parts, "\n")
    else
      JoinEntryHead(MasterHead, es);
      var text := Join(parts, "\n");
      assert text == MasterHead + text[|MasterHead|..];
      MasterEndsWithBreak(es);
      JoinEnds(parts, "\n");
      assert parts[|parts| - 1] == EntryParts(es)[|EntryParts(es)| - 1];
      text
  }

  /** The last part of a non-empty entry list is a URL with its "\n". */
  lemma {:induction false} MasterEndsWithBreak(es: seq<Entry>)
    requires |es| > 0
    ensures |EntryParts(es)| >= 2 && EndsWith(EntryParts(es)[|EntryParts(es)| - 1], "\n")
    decreases |es|
  {
    if |es| > 1 {
      MasterEndsWithBreak(es[1..]);
      var ps := EntryParts(es);
      assert ps == [ExtInfLine(es[0]), es[0].url + "\n"] + EntryParts(es[1..]);
      assert ps[|ps| - 1] == EntryParts(es[1..])[|EntryParts(es[1..])| - 1];
    } else {
      assert EntryParts(es) == [ExtInfLine(es[0]), es[0].url + "\n"] + EntryParts([]);
    }
  }

  /** The file the run writes for a fetched channel, stamped with the
      clock reading taken while building it. */
  function SavedFor(c: Channel, stamp: string): SavedFile {
    SavedFile(ChannelPath(c.name), ChannelContent(c.name, c.code, stamp))
  }

  /** The positions of the fetched channels, in configuration order. */
  function FetchedIndices(channels: seq<Channel>, isValid: string -> bool): (r: seq<nat>)
    ensures |r| == |ValidChannels(channels, isValid)|
    ensures forall k :: 0 <= k < |r| ==> r[k] < |channels|
    decreases |channels|
  {
    if |channels| == 0 then []
    else
      var init := channels[..|channels| - 1];
      var last := channels[|channels| - 1];
      assert channels == init + [last];
      var kept := FetchedIndices(init, isValid);
      if Fetched(last, isValid) then kept + [|channels| - 1] else kept
  }

  /** The fetched positions are increasing, hold exactly the fetched
      channels, and pick out the fetched channels in order. */
  lemma {:induction false} FetchedIndicesPick(channels: seq<Channel>, isValid: string -> bool)
    ensures var r := FetchedIndices(channels, isValid);
      && (forall k :: 0 <= k < |r| ==> ValidChannels(channels, isValid)[k] == channels[r[k]])
      && (forall k, l :: 0 <= k < l < |r| ==> r[k] < r[l])
      && (forall i :: 0 <= i < |channels| ==> (i in r <==> Fetched(channels[i], isValid)))
    decreases |channels|
  {
    if |channels| > 0 {
      var n := |channels| - 1;
      var init := channels[..n];
      assert channels == init + [channels[n]];
      FetchedIndicesPick(init, isValid);
      var kept := FetchedIndices(init, isValid);
      var vk := ValidChannels(init, isValid);
      var r := FetchedIndices(channels, isValid);
      assert r == kept + (if Fetched(channels[n], isValid) then [n] else []);
      assert ValidChannels(channels, isValid) == vk + (if Fetched(channels[n], isValid) then [channels[n]] else []);
      forall i | 0 <= i < |channels|
        ensures i in r <==> Fetched(channels[i], isValid)
      {
        if i < n {
          assert init[i] == channels[i];
          assert i != n;
        }
      }
    }
  }

  /** The files written for the channels at the given positions, each
      stamped with the clock reading taken at its own position. */
  function SavedAt(channels: seq<Channel>, now: seq<string>, idx: seq<nat>): (r: seq<SavedFile>)
    requires |now| == |channels|
    requires forall k :: 0 <= k < |idx| ==> idx[k] < |channels|
    ensures |r| == |idx|
    ensures forall k :: 0 <= k < |idx| ==> r[k] == SavedFor(channels[idx[k]], now[idx[k]])
  {
    seq(|idx|, k requires 0 <= k < |idx| => SavedFor(channels[idx[k]], now[idx[k]]))
  }

  /** The files of a whole run: one per fetched channel, in configuration
      order, each with its own clock reading. */
  function SavedFiles(channels: seq<Channel>, now: seq<string>, isValid: string -> bool): (r: seq<SavedFile>)
    requires |now| == |channels|
    ensures |r| == |ValidChannels(channels, isValid)|
    ensures forall k :: 0 <= k < |r| ==>
              r[k] == SavedFor(ValidChannels(channels, isValid)[k], now[FetchedIndices(channels, isValid)[k]])
  {
    FetchedIndicesPick(channels, isValid);
    SavedAt(channels, now, FetchedIndices(channels, isValid))
  }

  /** One more configured channel adds its own position to the fetched
      ones exactly when it is fetched. */
  lemma SavedAtAppend(channels: seq<Channel>, now: seq<string>, idx: seq<nat>, i: nat)
    requires |now| == |channels| && i < |channels|
    requires forall k :: 0 <= k < |idx| ==> idx[k] < |channels|
    ensures SavedAt(channels, now, idx + [i]) == SavedAt(channels, now, idx) + [SavedFor(channels[i], now[i])]
  {
  }

  lemma FetchedIndicesStep(channels: seq<Channel>, i: nat, isValid: string -> bool)
    requires i < |channels|
    ensures FetchedIndices(channels[..i + 1], isValid)
            == FetchedIndices(channels[..i], isValid) + (if Fetched(channels[i], isValid) then [i] else [])
  {
    assert channels[..i + 1][..i] == channels[..i];
  }

  /** One more configured channel adds itself to the fetched ones exactly
      when it is fetched. */
  lemma ValidChannelsStep(channels: seq<Channel>, i: nat, isValid: string -> bool)
    requires i < |channels|
    ensures ValidChannels(channels[..i + 1], isValid)
            == ValidChannels(channels[..i], isValid) + (if Fetched(channels[i], isValid) then [channels[i]] else [])
  {
    assert channels[..i + 1][..i] == channels[..i];
  }

  /** Every fetched channel's name is configured. */
  lemma ValidNamesConfigured(channels: seq<Channel>, isValid: string -> bool)
    ensures forall n :: n in NamesOf(ValidChannels(channels, isValid)) ==> IsConfigured(channels, n)
  {
    var vc := ValidChannels(channels, isValid);
    forall n | n in NamesOf(vc)
      ensures IsConfigured(channels, n)
    {
      var k :| 0 <= k < |vc| && NamesOf(vc)[k] == n;
      assert vc[k] in vc;
      var j :| 0 <= j < |channels| && channels[j] == vc[k];
    }
  }

  /** The loop of `update_all`: fetch every configured channel in order
      and write the file of each one fetched. */
  method SaveChannels(channels: seq<Channel>, isValid: string -> bool, now: seq<string>)
    returns (files: seq<SavedFile>, valid: seq<string>)
    requires |now| == |channels|
    ensures valid == NamesOf(ValidChannels(channels, isValid))
    ensures files == SavedFiles(channels, now, isValid)
  {
    files := [];
    valid := [];
    ghost var kept: seq<Channel> := [];
    for i := 0 to |channels|
      invariant kept == ValidChannels(channels[..i], isValid)
      invariant valid == NamesOf(kept)
      invariant files == SavedAt(channels, now, FetchedIndices(channels[..i], isValid))
    {
      ValidChannelsStep(channels, i, isValid);
      FetchedIndicesStep(channels, i, isValid);
      var name := channels[i].name;
      var url := FetchUrl(channels[i].code, isValid);
      if url.None? || url.value == "" {
        continue;
      }
      // the fetched URL is the configured code, so this is the file
      // `<name>.m3u` with that URL in it and the current clock reading
      assert url.value == channels[i].code;
      var saved := SavedFor(channels[i], now[i]);
      SavedAtAppend(channels, now, FetchedIndices(channels[..i], isValid), i);
      files := files + [saved];
      NamesOfAppend(kept, channels[i]);
      valid := valid + [name];
      kept := kept + [channels[i]];
    }
    assert channels[..|channels|] == channels;
  }

  /** `update_all`: save every channel that is fetched, then write the
      master for those. */
  method UpdateAll(channels: seq<Channel>, isValid: string -> bool, now: seq<string>) returns (run: Run)
    requires |now| == |channels|
    ensures run.valid == NamesOf(ValidChannels(channels, isValid))
    ensures run.files == SavedFiles(channels, now, isValid)
    ensures forall n :: n in run.valid ==> IsConfigured(channels, n)
    ensures run.master == MasterText(channels, run.valid)
  {
    var files, valid := SaveChannels(channels, isValid, now);
    ValidNamesConfigured(channels, isValid);
    run := Run(files, valid, MasterText(channels, valid));
  }

  /** The entries' lines as the master lays them out: tag, URL, and the
      empty line the separator after the URL's own "\n" leaves. */
  function SpacedLines(es: seq<Entry>): seq<string>
    decreases |es|
  {
    if |es| == 0 then []
    else [ExtInfLine(es[0]), es[0].url, ""] + SpacedLines(es[1..])
  }

  /** Joining with a part that ends in the separator moves that separator
      out of the part. */
  lemma JoinFirstPart(a: string, rest: seq<string>, sep: string)
    ensures Join([a + sep] + rest, sep) == a + sep + Join([""] + rest, sep)
  {
    if |rest| == 0 {
      assert Join([a + sep], sep) == a + sep;
    } else {
      assert ([a + sep] + rest)[1..] == rest && ([""] + rest)[1..] == rest;
    }
  }

  /** Three newline-free lines, each followed by "\n", in front of a text. */
  lemma SplitThreeLines(a: string, b: string, c: string, tail: string)
    requires '\n' !in a && '\n' !in b && '\n' !in c
    ensures Split(a + "\n" + (b + "\n" + (c + "\n" + tail)), '\n') == [a, b, c] + Split(tail, '\n')
  {
    var t2 := c + "\n" + tail;
    var t1 := b + "\n" + t2;
    assert c + "\n" + tail == c + ['\n'] + tail;
    assert b + "\n" + t2 == b + ['\n'] + t2;
    assert a + "\n" + t1 == a + ['\n'] + t1;
    SplitConcat(c, '\n', tail);
    SplitConcat(b, '\n', t2);
    SplitConcat(a, '\n', t1);
    SplitWithoutDelimiter(a, '\n');
    SplitWithoutDelimiter(b, '\n');
    SplitWithoutDelimiter(c, '\n');
  }

  /** A join whose second and third parts are taken out, the third
      ending in the separator. */
  lemma JoinThreeParts(h: string, a: string, b: string, rest: seq<string>, sep: string)
    ensures Join([h, a, b + sep] + rest, sep) == h + sep + (a + sep + (b + sep + Join([""] + rest, sep)))
  {
    var ps := [h, a, b + sep] + rest;
    assert ps[1..] == [a, b + sep] + rest;
    assert ps[1..][1..] == [b + sep] + rest;
    JoinFirstPart(b, rest, sep);
  }

  /** The join of a first part and some entries' parts, with the first
      entry's two lines taken out. */
  lemma JoinEntryHead(h: string, es: seq<Entry>)
    requires |es| > 0
    ensures Join([h] + EntryParts(es), "\n")
            == h + "\n" + (ExtInfLine(es[0]) + "\n" + (es[0].url + "\n" + Join([""] + EntryParts(es[1..]), "\n")))
  {
    assert [h] + EntryParts(es) == [h, ExtInfLine(es[0]), es[0].url + "\n"] + EntryParts(es[1..]);
    JoinThreeParts(h, ExtInfLine(es[0]), es[0].url, EntryParts(es[1..]), "\n");
  }

  /** The lines of a join of a newline-free first part and some entries'
      parts. */
  lemma {:induction false} SplitEntryParts(h: string, es: seq<Entry>)
    requires '\n' !in h
    requires forall k :: 0 <= k < |es| ==> SingleLine(es[k])
    ensures Split(Join([h] + EntryParts(es), "\n"), '\n') == [h] + SpacedLines(es)
    decreases |es|
  {
    if |es| == 0 {
      assert [h] + EntryParts(es) == [h];
      SplitWithoutDelimiter(h, '\n');
    } else {
      var e := es[0];
      ExtInfLineSingle(e);
      JoinEntryHead(h, es);
      SplitEntryParts("", es[1..]);
      SplitThreeLines(h, ExtInfLine(e), e.url, Join([""] + EntryParts(es[1..]), "\n"));
      assert SpacedLines(es) == [ExtInfLine(e), e.url, ""] + SpacedLines(es[1..]);
    }
  }

  /** The spaced entry lines read back as the entries, provided no
      attribute text holds a comma. */
  lemma {:induction false} ReadSpacedLines(es: seq<Entry>)
    requires forall k :: 0 <= k < |es| ==> ',' !in es[k].attrs
    ensures ReadEntries(SpacedLines(es)) == Pairs(es)
    decreases |es|
  {
    if |es| > 0 {
      var rest := SpacedLines(es[1..]);
      var ls := SpacedLines(es);
      assert ls == [ExtInfLine(es[0]), es[0].url] + ([""] + rest);
      ExtInfLineIsTag(es[0]);
      TitleOfExtInf(es[0]);
      assert ls[2..] == [""] + rest;
      ReadSkipsOtherLine("", rest);
      ReadSpacedLines(es[1..]);
    }
  }

  /** The master's entries are single lines with comma-free attributes,
      provided the names and the configured codes are single lines. */
  lemma MasterEntriesWellFormed(channels: seq<Channel>, names: seq<string>)
    requires forall n :: n in names ==> IsConfigured(channels, n)
    requires forall k :: 0 <= k < |names| ==> '\n' !in names[k]
    requires forall k :: 0 <= k < |channels| ==> '\n' !in channels[k].code
    ensures forall k :: 0 <= k < |names| ==>
              SingleLine(MasterEntries(channels, names)[k]) && ',' !in MasterEntries(channels, names)[k].attrs
  {
    var es := MasterEntries(channels, names);
    assert '\n' !in MasterAttrs && ',' !in MasterAttrs;
    forall k | 0 <= k < |es|
      ensures SingleLine(es[k]) && ',' !in es[k].attrs
    {
      assert names[k] in names;
      var u := UrlOf(channels, names[k]);
      var j :| 0 <= j < |channels| && channels[j] == Channel(names[k], u);
    }
  }

  /** A newline-terminated first part adds itself and an empty line in
      front of the lines the rest gives after an empty first part. */
  lemma SplitHeadLine(h: string, parts: seq<string>, rest: seq<string>)
    requires '\n' !in h
    requires Split(Join([""] + parts, "\n"), '\n') == [""] + rest
    ensures Split(Join([h + "\n"] + parts, "\n"), '\n') == [h, ""] + rest
  {
    var tail := Join([""] + parts, "\n");
    assert Join([h + "\n"] + parts, "\n") == h + ['\n'] + tail by {
      JoinFirstPart(h, parts, "\n");
    }
    assert Split(h + ['\n'] + tail, '\n') == [h] + Split(tail, '\n') by {
      SplitConcat(h, '\n', tail);
      SplitWithoutDelimiter(h, '\n');
    }
  }

  /** The lines of a join of a newline-terminated header line and some
      entries' parts: the header, the empty line its own "\n" leaves, and
      the spaced entry lines. */
  lemma SplitAfterHead(h: string, es: seq<Entry>)
    requires '\n' !in h
    requires forall k :: 0 <= k < |es| ==> SingleLine(es[k])
    ensures Split(Join([h + "\n"] + EntryParts(es), "\n"), '\n') == [h, ""] + SpacedLines(es)
  {
    SplitEntryParts("", es);
    SplitHeadLine(h, EntryParts(es), SpacedLines(es));
  }

  /** The header and the empty line are no tags. */
  lemma ReadMasterLines(es: seq<Entry>)
    requires forall k :: 0 <= k < |es| ==> ',' !in es[k].attrs
    ensures ReadEntries([Header, ""] + SpacedLines(es)) == Pairs(es)
  {
    ReadSkipsOtherLine(Header, [""] + SpacedLines(es));
    ReadSkipsOtherLine("", SpacedLines(es));
    ReadSpacedLines(es);
  }

  /** Each listed name with its configured URL. */
  function ConfiguredPairs(channels: seq<Channel>, names: seq<string>): (r: seq<(string, string)>)
    requires forall n :: n in names ==> IsConfigured(channels, n)
    ensures |r| == |names|
    ensures forall k :: 0 <= k < |names| ==> r[k] == (names[k], UrlOf(channels, names[k]))
  {
    seq(|names|, k requires 0 <= k < |names| => (names[k], UrlOf(channels, names[k])))
  }

  /** The master reads back as the listed names with their configured
      URLs, in order. */
  lemma MasterReadsBack(channels: seq<Channel>, names: seq<string>)
    requires forall n :: n in names ==> IsConfigured(channels, n)
    requires forall k :: 0 <= k < |names| ==> '\n' !in names[k]
    requires forall k :: 0 <= k < |channels| ==> '\n' !in channels[k].code
    ensures ReadEntries(Split(MasterText(channels, names), '\n')) == ConfiguredPairs(channels, names)
  {
    var es := MasterEntries(channels, names);
    MasterEntriesWellFormed(channels, names);
    assert Split(MasterText(channels, names), '\n') == [Header, ""] + SpacedLines(es) by {
      assert MasterHead == Header + "\n";
      SplitAfterHead(Header, es);
    }
    assert ReadEntries([Header, ""] + SpacedLines(es)) == Pairs(es) by {
      ReadMasterLines(es);
    }
  }

  /** What the channel files of a run read back as, one after another. */
  function FilePairs(cs: seq<Channel>): (r: seq<(string, string)>)
    ensures |r| == |cs|
    ensures forall k :: 0 <= k < |cs| ==> r[k] == (cs[k].name, cs[k].code)
  {
    seq(|cs|, k requires 0 <= k < |cs| => (cs[k].name, cs[k].code))
  }

  /** The master and the channel files agree: with a dictionary
      configuration, the master lists the fetched channels in the order
      their files are written, each with the URL its own file holds. */
  lemma {:induction false} MasterAgreesWithFiles(channels: seq<Channel>, isValid: string -> bool, now: seq<string>)
    requires DistinctNames(channels)
    requires forall k :: 0 <= k < |channels| ==> '\n' !in channels[k].name && '\n' !in channels[k].code
    requires |now| == |channels| && forall k :: 0 <= k < |now| ==> '\n' !in now[k]
    ensures var vc := ValidChannels(channels, isValid);
            var files := SavedFiles(channels, now, isValid);
            (forall n :: n in NamesOf(vc) ==> IsConfigured(channels, n))
            && ReadEntries(Split(MasterText(channels, NamesOf(vc)), '\n')) == FilePairs(vc)
            && forall k :: 0 <= k < |files| ==>
                 ReadEntries(Split(files[k].text, '\n')) == [FilePairs(vc)[k]]
  {
    var vc := ValidChannels(channels, isValid);
    var names := NamesOf(vc);
    forall k | 0 <= k < |vc|
      ensures IsConfigured(channels, vc[k].name) && UrlOf(channels, vc[k].name) == vc[k].code
      ensures '\n' !in vc[k].name && '\n' !in vc[k].code
    {
      assert vc[k] in vc;
      UrlOfMember(channels, vc[k]);
      var j :| 0 <= j < |channels| && channels[j] == vc[k];
    }
    MasterReadsBack(channels, names);
    var files := SavedFiles(channels, now, isValid);
    var idx := FetchedIndices(channels, isValid);
    forall k | 0 <= k < |files|
      ensures ReadEntries(Split(files[k].text, '\n')) == [FilePairs(vc)[k]]
    {
      assert files[k].text == ChannelContent(vc[k].name, vc[k].code, now[idx[k]]);
      ChannelFileReadsBack(vc[k].name, vc[k].code, now[idx[k]]);
    }
  }

  /** A configured stream URL is an `http` URL on one line. */
  lemma OfiiiUrlWellFormed(id: string)
    requires '\n' !in id
    ensures StartsWith(OfiiiUrl(id), HttpScheme) && '\n' !in OfiiiUrl(id)
  {
    HostIsHttp();
    HostAndPathOneLine();
    RenditionsOneLine();
    UrlPartsWellFormed(OfiiiHost, PlaylistPath + id + VideoRendition + AudioRendition);
    assert OfiiiUrl(id) == OfiiiHost + (PlaylistPath + id + VideoRendition + AudioRendition);
  }

  lemma HostIsHttp()
    ensures StartsWith(OfiiiHost, HttpScheme)
  {
    assert OfiiiHost[..4] == HttpScheme;
  }

  lemma HostAndPathOneLine()
    ensures '\n' !in OfiiiHost && '\n' !in PlaylistPath
  {
  }

  lemma RenditionsOneLine()
    ensures '\n' !in VideoRendition && '\n' !in AudioRendition
  {
  }

  lemma UrlPartsWellFormed(host: string, rest: string)
    requires StartsWith(host, HttpScheme) && '\n' !in host && '\n' !in rest
    ensures StartsWith(host + rest, HttpScheme) && '\n' !in host + rest
  {
    assert (host + rest)[..|HttpScheme|] == host[..|HttpScheme|];
  }

  /** The script's own configuration: two channels under different names,
      both `http` URLs on one line. */
  lemma ConfiguredIsWellFormed()
    ensures DistinctNames(Configured)
    ensures forall k :: 0 <= k < |Configured| ==>
              StartsWith(Configured[k].code, HttpScheme)
              && '\n' !in Configured[k].name && '\n' !in Configured[k].code
  {
    assert Configured[0].name[0] != Configured[1].name[0];
    OfiiiUrlWellFormed("ynpCU-j6j94");
    OfiiiUrlWellFormed("5B_0z92_TBE");
    assert '\n' !in Configured[0].name && '\n' !in Configured[1].name;
  }

  /** With the script's configuration, a channel is written exactly when
      the stream check accepts its URL. */
  lemma ConfiguredChannelsFollowCheck(isValid: string -> bool)
    ensures forall c :: c in ValidChannels(Configured, isValid) <==> c in Configured && isValid(c.code)
  {
    ConfiguredIsWellFormed();
    forall c | c in Configured
      ensures Fetched(c, isValid) == isValid(c.code)
    {
      var k :| 0 <= k < |Configured| && Configured[k] == c;
    }
  }
}
