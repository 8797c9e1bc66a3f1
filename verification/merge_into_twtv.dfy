/** `merge_into_twtv.py`: gathers the channel files of the source
    directory into one section that announces how many `#EXTINF` entries it
    carries, and appends that section, under a delimiter block, to the end
    of the master list without altering what came before it. */
module MergeIntoTwtv {

  import opened Wrappers
  import opened Text
  import opened Lines
  import opened Seqs
  import opened Listing

  /** The text `collect_taiwan_streams` searches for and counts (no colon). */
  const InfTag: string := "#EXTINF"

  /** The first part of the collected section. */
  const SectionHead: string := "#EXTM3U\n"

  /** `"#" + "=" * 50` */
  const AppendRule: string := "#" + Repeat('=', 50)
  const AppendTitle: string := "# 自動新增台灣頻道"

  function CollectStampLine(stamp: string): string {
    "# 台灣頻道更新時間：" + stamp
  }

  function AddedCountLine(n: nat): string {
    "# 本次新增頻道數：" + ShowNat(n) + " 個"
  }

  function MergeTimeLine(stamp: string): string {
    "# 合併時間：" + stamp
  }

  /** `"#EXTINF" in data` */
  predicate HasChannels(data: string) {
    Contains(data, InfTag)
  }

  /** The parts holding `#EXTINF`: only they are collected. */
  function WithChannels(contents: seq<string>): (r: seq<string>)
    ensures forall x :: x in r <==> x in contents && HasChannels(x)
  {
    Filter(contents, HasChannels)
  }

  /** Leaving out the parts without `#EXTINF` does not change the total
      count: the announced count is that of every readable channel file. */
  lemma {:induction false} WithChannelsKeepsCount(contents: seq<string>)
    ensures CountAll(WithChannels(contents), InfTag) == CountAll(contents, InfTag)
    decreases |contents|
  {
    if |contents| > 0 {
      WithChannelsKeepsCount(contents[1..]);
      CountPositiveIffContains(contents[0], InfTag);
      var rest := WithChannels(contents[1..]);
      if HasChannels(contents[0]) {
        assert WithChannels(contents) == [contents[0]] + rest;
        assert ([contents[0]] + rest)[1..] == rest;
      } else {
        assert WithChannels(contents) == rest;
      }
    }
  }

  /** The parts `"\n".join` is applied to: the header, the channel files
      holding `#EXTINF`, the collection time and the announced count, the
      last two each with its own trailing newline. */
  function SectionParts(contents: seq<string>, stamp: string): seq<string> {
    var kept := WithChannels(contents);
    [SectionHead] + kept
      + [CollectStampLine(stamp) + "\n", AddedCountLine(CountAll(kept, InfTag)) + "\n"]
  }

  /** A joined text starts with its first part and ends with the separator
      and its last part. */
  lemma {:induction false} JoinBounds(parts: seq<string>, sep: string)
    requires |parts| >= 2
    ensures StartsWith(Join(parts, sep), parts[0])
    ensures EndsWith(Join(parts, sep), sep + parts[|parts| - 1])
  {
    JoinEnds(parts, sep);
    var init := Join(parts[..|parts| - 1], sep);
    var last := parts[|parts| - 1];
    assert Join(parts, sep) == init + (sep + last);
  }

  /** The section starts with the header and ends with the announced
      count, on a line of its own followed by a newline. */
  lemma {:induction false} SectionShape(contents: seq<string>, stamp: string)
    ensures StartsWith(Join(SectionParts(contents, stamp), "\n"), SectionHead)
    ensures EndsWith(Join(SectionParts(contents, stamp), "\n"),
                     "\n" + AddedCountLine(CountAll(contents, InfTag)) + "\n")
  {
    var parts := SectionParts(contents, stamp);
    WithChannelsKeepsCount(contents);
    JoinBounds(parts, "\n");
    assert parts[0] == SectionHead;
    assert parts[|parts| - 1] == AddedCountLine(CountAll(contents, InfTag)) + "\n";
    assert "\n" + parts[|parts| - 1] == "\n" + AddedCountLine(CountAll(contents, InfTag)) + "\n";
  }

  /** `collect_taiwan_streams`: `None` when reading a `.m3u` file of the
      source directory raises; otherwise the section text. */
  function CollectTaiwanStreams(sourceDir: seq<DirEntry>, stamp: string): (r: Option<string>)
    ensures r.None? <==> SomePlaylistUnreadable(sourceDir)
    ensures r.Some? ==> StartsWith(r.value, SectionHead)
    ensures r.Some? ==> EndsWith(r.value, "\n" + AddedCountLine(CountAll(StrippedPlaylists(sourceDir).value, InfTag)) + "\n")
  {
    match StrippedPlaylists(sourceDir)
    case None => None
    case Some(contents) =>
      SectionShape(contents, stamp);
      Some(Join(SectionParts(contents, stamp), "\n"))
  }

  /** A line `"#" + body` whose body has no `#` and does not go on with
      the tag holds no occurrence of `#EXTINF`. */
  lemma CommentCountsNothing(body: string)
    requires |body| > 0 && body[0] != InfTag[1] && '#' !in body
    ensures Count("#" + body, InfTag) == 0
  {
    var s := "#" + body;
    assert s[1..] == body;
    CountWithoutLead(body, InfTag);
    if |s| >= |InfTag| {
      assert s[..|InfTag|][1] == body[0];
    }
  }

  lemma HeadCountsNothing()
    ensures Count(SectionHead, InfTag) == 0
  {
    assert SectionHead[..|InfTag|][4] != InfTag[4];
    assert SectionHead[1..] == "EXTM3U\n";
    CountWithoutLead("EXTM3U\n", InfTag);
  }

  lemma StampLineCountsNothing(stamp: string)
    requires '#' !in stamp
    ensures Count(CollectStampLine(stamp) + "\n", InfTag) == 0
  {
    var body := " 台灣頻道更新時間：" + stamp + "\n";
    assert '#' !in body;
    assert CollectStampLine(stamp) + "\n" == "#" + body;
    CommentCountsNothing(body);
  }

  lemma CountLineCountsNothing(n: nat)
    ensures Count(AddedCountLine(n) + "\n", InfTag) == 0
  {
    var digits := ShowNat(n);
    var body := " 本次新增頻道數：" + digits + " 個\n";
    assert '#' !in digits;
    assert '#' !in body;
    assert AddedCountLine(n) + "\n" == "#" + body;
    CommentCountsNothing(body);
  }

  /** The announced count is the number of `#EXTINF` occurrences in the
      section itself, provided the timestamp carries no `#`. */
  lemma {:induction false} SectionCountsItsChannels(contents: seq<string>, stamp: string)
    requires '#' !in stamp
    ensures Count(Join(SectionParts(contents, stamp), "\n"), InfTag) == CountAll(contents, InfTag)
  {
    var kept := WithChannels(contents);
    var n := CountAll(kept, InfTag);
    var stampLine := CollectStampLine(stamp) + "\n";
    var countLine := AddedCountLine(n) + "\n";
    var tail := [stampLine, countLine];
    CountJoin(SectionParts(contents, stamp), '\n', InfTag);
    assert SectionParts(contents, stamp) == ([SectionHead] + kept) + tail;
    CountAllAppend([SectionHead] + kept, tail, InfTag);
    CountAllAppend([SectionHead], kept, InfTag);
    HeadCountsNothing();
    StampLineCountsNothing(stamp);
    CountLineCountsNothing(n);
    assert CountAll([SectionHead], InfTag) == 0;
    assert CountAll(tail, InfTag) == 0 by {
      assert tail[1..] == [countLine] && [countLine][1..] == [];
      assert CountAll([countLine], InfTag) == Count(countLine, InfTag);
      assert CountAll(tail, InfTag) == Count(stampLine, InfTag) + CountAll([countLine], InfTag);
    }
    WithChannelsKeepsCount(contents);
  }

  /** The master list `append_taiwan_to_twtv` reads: `download_twtv`
      overwrites the local file with the downloaded text when the request
      succeeds, and the file is then read back in text mode, which turns
      "\r\n" and "\r" into "\n".  `local` is what the local file holds
      before the run. */
  function CurrentMaster(local: Option<string>, download: Option<string>): (r: Option<string>)
    ensures r.Some? <==> download.Some? || local.Some?
    ensures r.Some? ==> '\r' !in r.value
    ensures download.Some? && '\r' !in download.value ==> r == download
    ensures download.None? && local.Some? && '\r' !in local.value ==> r == local
  {
    if download.Some? then Some(UniversalNewlines(download.value))
    else if local.Some? then Some(UniversalNewlines(local.value))
    else None
  }

  datatype AppendOutcome =
    | Unreadable       // reading the master list raised
    | NothingToAppend  // `collect_taiwan_streams` returned `None`
    | WriteFailed      // writing the new master list raised
    | Appended(text: string)

  /** The new master list: the stripped old one, a blank line, the
      delimiter block, the stripped section and the merge time. */
  function AppendedText(original: string, section: string, stamp: string): (r: string)
    ensures StartsWith(r, Strip(original))
    ensures EndsWith(r, "\n" + MergeTimeLine(stamp) + "\n")
    ensures '#' !in stamp ==> Count(r, InfTag) == Count(Strip(original), InfTag) + Count(Strip(section), InfTag)
  {
    var text := Strip(original) + "\n\n" + AppendRule + "\n" + AppendTitle + "\n" + AppendRule + "\n"
      + Strip(section) + "\n" + MergeTimeLine(stamp) + "\n";
    BlockBounds(Strip(original), AppendRule, AppendTitle, Strip(section), MergeTimeLine(stamp));
    CountBlock(Strip(original), AppendRule, AppendTitle, Strip(section), MergeTimeLine(stamp), InfTag);
    RuleCountsNothing();
    TitleCountsNothing();
    MergeLineCountsNothing(stamp);
    text
  }

  /** `append_taiwan_to_twtv`. `local` is the text the local master list
      file holds before the run (`None` when it is missing or unreadable),
      `download` the downloaded one (`None` when the request fails) and `writeOk` whether
      writing the result succeeds. The section is never empty, so the
      `if not new_section` test only catches a failed collection. */
  function AppendTaiwanToTwtv(local: Option<string>, download: Option<string>, sourceDir: seq<DirEntry>,
                              collectStamp: string, mergeStamp: string, writeOk: bool): (r: AppendOutcome)
    ensures r == Unreadable <==> download.None? && local.None?
    ensures r == NothingToAppend <==> (download.Some? || local.Some?) && SomePlaylistUnreadable(sourceDir)
    ensures r == WriteFailed
      <==> (download.Some? || local.Some?) && !SomePlaylistUnreadable(sourceDir) && !writeOk
    ensures r.Appended? ==> StartsWith(r.text, Strip(CurrentMaster(local, download).value))
    ensures r.Appended? ==> EndsWith(r.text, "\n" + MergeTimeLine(mergeStamp) + "\n")
  {
    match CurrentMaster(local, download)
    case None => Unreadable
    case Some(original) =>
      match CollectTaiwanStreams(sourceDir, collectStamp)
      case None => NothingToAppend
      case Some(section) =>
        if !writeOk then WriteFailed
        else Appended(AppendedText(original, section, mergeStamp))
  }

  /** The new master list, read as lines: the old one, a blank line, the
      delimiter block, the section and the merge-time line. */
  lemma AppendedLines(original: string, section: string, stamp: string)
    requires '\n' !in stamp
    ensures Split(AppendedText(original, section, stamp), '\n')
      == Split(Strip(original), '\n') + ["", AppendRule, AppendTitle, AppendRule]
         + Split(Strip(section), '\n') + [MergeTimeLine(stamp), ""]
  {
    assert '\n' !in AppendRule && '\n' !in AppendTitle;
    assert '\n' !in MergeTimeLine(stamp);
    BlockLines(Strip(original), AppendRule, AppendTitle, Strip(section), MergeTimeLine(stamp));
  }

  /** In a text shaped like the new master list, the occurrences of a
      pattern without line breaks are those of its pieces. */
  lemma CountBlock(k: string, rule: string, title: string, body: string, last: string, p: string)
    requires |p| > 0 && '\n' !in p
    ensures Count(k + "\n\n" + rule + "\n" + title + "\n" + rule + "\n" + body + "\n" + last + "\n", p)
      == Count(k, p) + 2 * Count(rule, p) + Count(title, p) + Count(body, p) + Count(last, p)
  {
    var t6 := last + ['\n'] + "";
    var t5 := body + ['\n'] + t6;
    var t4 := rule + ['\n'] + t5;
    var t3 := title + ['\n'] + t4;
    var t2 := rule + ['\n'] + t3;
    var t1 := "" + ['\n'] + t2;
    assert k + "\n\n" + rule + "\n" + title + "\n" + rule + "\n" + body + "\n" + last + "\n" == k + ['\n'] + t1;
    CountSplitAt(last, '\n', "", p);
    CountSplitAt(body, '\n', t6, p);
    CountSplitAt(rule, '\n', t5, p);
    CountSplitAt(title, '\n', t4, p);
    CountSplitAt(rule, '\n', t3, p);
    CountSplitAt("", '\n', t2, p);
    CountSplitAt(k, '\n', t1, p);
  }

  /** The tag holds no whitespace, so stripping never changes its count. */
  lemma InfTagHasNoSpace()
    ensures |InfTag| > 0 && NoSpaceIn(InfTag)
  {
    assert InfTag == ['#', 'E', 'X', 'T', 'I', 'N', 'F'];
  }

  /** Stripping the section keeps its channel count. */
  lemma StripSectionKeepsCount(contents: seq<string>, stamp: string)
    ensures Count(Strip(Join(SectionParts(contents, stamp), "\n")), InfTag)
      == Count(Join(SectionParts(contents, stamp), "\n"), InfTag)
  {
    InfTagHasNoSpace();
    StripKeepsCount(Join(SectionParts(contents, stamp), "\n"), InfTag);
  }

  /** A successful run adds to the master list exactly the number of
      `#EXTINF` entries it announces: those of the readable channel files. */
  lemma AppendAddsAnnouncedChannels(local: Option<string>, download: Option<string>, sourceDir: seq<DirEntry>,
                                    collectStamp: string, mergeStamp: string, writeOk: bool)
    requires '#' !in collectStamp && '#' !in mergeStamp
    ensures var r := AppendTaiwanToTwtv(local, download, sourceDir, collectStamp, mergeStamp, writeOk);
      r.Appended? ==>
        Count(r.text, InfTag)
          == Count(Strip(CurrentMaster(local, download).value), InfTag)
             + CountAll(StrippedPlaylists(sourceDir).value, InfTag)
  {
    var r := AppendTaiwanToTwtv(local, download, sourceDir, collectStamp, mergeStamp, writeOk);
    if r.Appended? {
      var original := CurrentMaster(local, download).value;
      var contents := StrippedPlaylists(sourceDir).value;
      var section := Join(SectionParts(contents, collectStamp), "\n");
      assert r.text == AppendedText(original, section, mergeStamp);
      SectionCountsItsChannels(contents, collectStamp);
      StripSectionKeepsCount(contents, collectStamp);
    }
  }

  /** Appending is not idempotent: a second run over the master the first
      one wrote (with the download failing, so the written file is read
      back) keeps all of it and adds the channel entries once more. */
  lemma AppendAgainAddsAgain(local: Option<string>, download: Option<string>, sourceDir: seq<DirEntry>,
                             collect1: string, merge1: string, collect2: string, merge2: string)
    requires '#' !in collect1 && '#' !in merge1 && '#' !in collect2 && '#' !in merge2
    requires AppendTaiwanToTwtv(local, download, sourceDir, collect1, merge1, true).Appended?
    ensures var first := AppendTaiwanToTwtv(local, download, sourceDir, collect1, merge1, true).text;
      var second := AppendTaiwanToTwtv(Some(first), None, sourceDir, collect2, merge2, true);
      && second.Appended?
      && StartsWith(second.text, Strip(UniversalNewlines(first)))
      && Count(second.text, InfTag) == Count(first, InfTag) + CountAll(StrippedPlaylists(sourceDir).value, InfTag)
  {
    var first := AppendTaiwanToTwtv(local, download, sourceDir, collect1, merge1, true).text;
    AppendAddsAnnouncedChannels(Some(first), None, sourceDir, collect2, merge2, true);
    InfTagHasNoSpace();
    StripKeepsCount(UniversalNewlines(first), InfTag);
    assert Count(UniversalNewlines(first), InfTag) == Count(first, InfTag) by {
      assert InfTag[0] == '#' && InfTag[6] == 'F';
      CountUniversalNewlines(first, InfTag);
    }
  }

  lemma RuleCountsNothing()
    ensures Count(AppendRule, InfTag) == 0
  {
    var body := Repeat('=', 50);
    assert AppendRule == "#" + body;
    assert body[0] == '=';
    CommentCountsNothing(body);
  }

  lemma TitleCountsNothing()
    ensures Count(AppendTitle, InfTag) == 0
  {
    var body := " 自動新增台灣頻道";
    assert AppendTitle == "#" + body;
    CommentCountsNothing(body);
  }

  lemma MergeLineCountsNothing(stamp: string)
    ensures '#' !in stamp ==> Count(MergeTimeLine(stamp), InfTag) == 0
  {
    if '#' !in stamp {
      var body := " 合併時間：" + stamp;
      assert '#' !in body;
      assert MergeTimeLine(stamp) == "#" + body;
      CommentCountsNothing(body);
    }
  }
}
