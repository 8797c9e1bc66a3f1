/** The extended-M3U lines the scripts write: the `#EXTM3U` header
    (section 4.3.1.1 of RFC 8216) and `#EXTINF:<duration>,<title>` tags
    (section 4.3.2.1 of RFC 8216), each followed by its URL line.  The
    `group-title`/`tvg-name` attributes are opaque text here.

    `ReadEntries` is a reader for this format; it is the inverse the
    writers are checked against. */
module M3u {

  import opened Text
  import opened Lines

  const Header: string := "#EXTM3U"
  const ExtInfTag: string := "#EXTINF:"

  /** One playlist entry: the attribute text between `-1` and the comma,
      the display title after the comma, and the URL line. */
  datatype Entry = Entry(attrs: string, title: string, url: string)

  /** `#EXTINF:-1<attrs>,<title>`, with the live-stream duration -1. */
  function ExtInfLine(e: Entry): string {
    ExtInfTag + "-1" + e.attrs + "," + e.title
  }

  /** The tag line and the URL line of every entry, in order. */
  function EntryLines(es: seq<Entry>): (r: seq<string>)
    ensures |r| == 2 * |es|
    ensures forall k :: 0 <= k < |es| ==> r[2 * k] == ExtInfLine(es[k]) && r[2 * k + 1] == es[k].url
    decreases |es|
  {
    if |es| == 0 then []
    else [ExtInfLine(es[0]), es[0].url] + EntryLines(es[1..])
  }

  /** The title of a tag line: everything after its first comma. */
  function TitleOf(line: string): string {
    if Contains(line, ",") then After(line, ",") else ""
  }

  /** Reads `(title, url)` pairs back: every `#EXTINF:` line together with
      the line after it; any other line is skipped. */
  function ReadEntries(lines: seq<string>): seq<(string, string)>
    decreases |lines|
  {
    if |lines| < 2 then []
    else if StartsWith(lines[0], ExtInfTag) then [(TitleOf(lines[0]), lines[1])] + ReadEntries(lines[2..])
    else ReadEntries(lines[1..])
  }

  /** What a single-stream fetch saves: the chosen URL and the text of
      the one-entry file it writes for the channel. */
  datatype ChannelFile = ChannelFile(url: string, text: string)

  /** What a reader should recover from a list of entries. */
  function Pairs(es: seq<Entry>): (r: seq<(string, string)>)
    ensures |r| == |es|
    ensures forall k :: 0 <= k < |es| ==> r[k] == (es[k].title, es[k].url)
    decreases |es|
  {
    if |es| == 0 then [] else [(es[0].title, es[0].url)] + Pairs(es[1..])
  }

  lemma ExtInfLineIsTag(e: Entry)
    ensures StartsWith(ExtInfLine(e), ExtInfTag)
  {
    assert ExtInfLine(e)[..|ExtInfTag|] == ExtInfTag;
  }

  /** The title after the first comma is the entry's title, provided the
      attributes hold no comma. */
  lemma {:induction false} TitleOfExtInf(e: Entry)
    requires ',' !in e.attrs
    ensures TitleOf(ExtInfLine(e)) == e.title
  {
    var head := ExtInfTag + "-1" + e.attrs;
    assert ExtInfLine(e) == head + [','] + e.title;
    assert ',' !in ExtInfTag + "-1";
    AfterFirstChar(head, ',', e.title);
  }

  /** No field of the entry holds a line break. */
  predicate SingleLine(e: Entry) {
    '\n' !in e.attrs && '\n' !in e.title && '\n' !in e.url
  }

  /** A tag line built from newline-free parts is a single line. */
  lemma ExtInfLineSingle(e: Entry)
    requires SingleLine(e)
    ensures '\n' !in ExtInfLine(e)
  {
    assert '\n' !in ExtInfTag + "-1" + ",";
    assert ExtInfLine(e) == (ExtInfTag + "-1") + e.attrs + "," + e.title;
  }

  /** Reading the lines written for some entries, followed by any other
      lines, recovers the entries' titles and URLs first. */
  lemma {:induction false} ReadEntryLines(es: seq<Entry>, tail: seq<string>)
    requires forall k :: 0 <= k < |es| ==> ',' !in es[k].attrs
    ensures ReadEntries(EntryLines(es) + tail) == Pairs(es) + ReadEntries(tail)
    decreases |es|
  {
    if |es| > 0 {
      var rest := EntryLines(es[1..]) + tail;
      var ls := [ExtInfLine(es[0]), es[0].url] + rest;
      assert EntryLines(es) + tail == ls;
      ExtInfLineIsTag(es[0]);
      TitleOfExtInf(es[0]);
      assert ls[2..] == rest;
      ReadEntryLines(es[1..], tail);
    } else {
      assert EntryLines(es) + tail == tail;
    }
  }

  /** A line that is not a tag is skipped by the reader. */
  lemma ReadSkipsOtherLine(line: string, rest: seq<string>)
    requires !StartsWith(line, ExtInfTag)
    ensures ReadEntries([line] + rest) == ReadEntries(rest)
  {
    if |rest| >= 1 {
      assert ([line] + rest)[1..] == rest;
    } else {
      assert ReadEntries(rest) == [];
    }
  }

  /** The text of a one-entry file `#EXTM3U\n#EXTINF:-1<attrs>,<title>\n<url>\n`
      has these three lines, and reads back as that single entry. */
  lemma {:induction false} SingleEntryFile(e: Entry, trailer: seq<string>)
    requires ',' !in e.attrs
    requires SingleLine(e) && NoneContains(trailer, '\n')
    requires forall k :: 0 <= k < |trailer| ==> !StartsWith(trailer[k], ExtInfTag)
    ensures Split(Unlines([Header] + EntryLines([e]) + trailer), '\n') == [Header, ExtInfLine(e), e.url] + trailer + [""]
    ensures ReadEntries(Split(Unlines([Header] + EntryLines([e]) + trailer), '\n')) == [(e.title, e.url)]
  {
    var ls := [Header] + EntryLines([e]) + trailer;
    assert EntryLines([e]) == [ExtInfLine(e), e.url];
    ExtInfLineSingle(e);
    forall i | 0 <= i < |ls|
      ensures '\n' !in ls[i]
    {
      if i >= 3 {
        assert ls[i] == trailer[i - 3];
      }
    }
    SplitUnlines(ls);
    assert ls + [""] == [Header] + (EntryLines([e]) + (trailer + [""]));
    ReadSkipsOtherLine(Header, EntryLines([e]) + (trailer + [""]));
    ReadEntryLines([e], trailer + [""]);
    ReadSkipsOthers(trailer + [""]);
  }

  /** Lines none of which is a tag read back as nothing. */
  lemma {:induction false} ReadSkipsOthers(ls: seq<string>)
    requires forall k :: 0 <= k < |ls| ==> !StartsWith(ls[k], ExtInfTag)
    ensures ReadEntries(ls) == []
    decreases |ls|
  {
    if |ls| >= 2 {
      ReadSkipsOthers(ls[1..]);
    }
  }

  /** A whole playlist file as lines: the header, the entries, and one
      closing comment line. */
  function FramedLines(es: seq<Entry>, trailer: string): seq<string> {
    [Header] + EntryLines(es) + [trailer]
  }

  /** The titles and URLs of several entry lists, one list after another. */
  function PairsOfAll(ess: seq<seq<Entry>>): seq<(string, string)>
    decreases |ess|
  {
    if |ess| == 0 then [] else Pairs(ess[0]) + PairsOfAll(ess[1..])
  }

  /** Framed playlists laid one after another read back as all their
      entries, file by file: neither a header nor a closing comment is
      mistaken for a tag, and no file's last entry runs into the next. */
  lemma {:induction false} ReadFramedFiles(chunks: seq<seq<string>>, ess: seq<seq<Entry>>, trailers: seq<string>)
    requires |chunks| == |ess| == |trailers|
    requires forall i :: 0 <= i < |chunks| ==> chunks[i] == FramedLines(ess[i], trailers[i])
    requires forall i, k :: 0 <= i < |ess| && 0 <= k < |ess[i]| ==> ',' !in ess[i][k].attrs
    requires forall i :: 0 <= i < |trailers| ==> !StartsWith(trailers[i], ExtInfTag)
    ensures ReadEntries(Flatten(chunks)) == PairsOfAll(ess)
    decreases |chunks|
  {
    if |chunks| > 0 {
      var rest := Flatten(chunks[1..]);
      ReadFramedFiles(chunks[1..], ess[1..], trailers[1..]);
      assert Flatten(chunks) == [Header] + (EntryLines(ess[0]) + ([trailers[0]] + rest));
      ReadSkipsOtherLine(Header, EntryLines(ess[0]) + ([trailers[0]] + rest));
      ReadEntryLines(ess[0], [trailers[0]] + rest);
      ReadSkipsOtherLine(trailers[0], rest);
    }
  }

  /** A comment line `# ...` is never taken for a tag. */
  lemma CommentIsNoTag(line: string)
    requires |line| >= 2 && line[0] == '#' && line[1] == ' '
    ensures !StartsWith(line, ExtInfTag)
  {
    if |line| >= |ExtInfTag| {
      assert line[..|ExtInfTag|][1] == ' ';
    }
  }

  lemma FramedRegroup(es: seq<Entry>, trailer: string)
    ensures FramedLines(es, trailer) + [""] == [Header] + (EntryLines(es) + [trailer, ""])
  {
  }

  /** A framed playlist whose fields are single lines has no line break
      inside a line. */
  lemma FramedLinesSingle(es: seq<Entry>, trailer: string)
    requires forall k :: 0 <= k < |es| ==> SingleLine(es[k])
    requires '\n' !in trailer
    ensures NoneContains(FramedLines(es, trailer), '\n')
  {
    var ls := FramedLines(es, trailer);
    forall i | 0 <= i < |ls|
      ensures '\n' !in ls[i]
    {
      if 1 <= i <= 2 * |es| {
        var k := (i - 1) / 2;
        assert ls[i] == EntryLines(es)[i - 1];
        ExtInfLineSingle(es[k]);
      }
    }
  }

  /** A framed playlist file, written line by line, splits back into its
      lines and one empty piece after the final newline. */
  lemma SplitFramedFile(es: seq<Entry>, trailer: string)
    requires forall k :: 0 <= k < |es| ==> SingleLine(es[k])
    requires '\n' !in trailer
    ensures Split(Unlines(FramedLines(es, trailer)), '\n') == [Header] + (EntryLines(es) + [trailer, ""])
  {
    var ls := FramedLines(es, trailer);
    FramedLinesSingle(es, trailer);
    SplitUnlines(ls);
    FramedRegroup(es, trailer);
  }

  /** The lines of a framed playlist and the empty piece after its final
      newline read back as its entries. */
  lemma {:induction false} ReadFramedLines(es: seq<Entry>, trailer: string)
    requires forall k :: 0 <= k < |es| ==> ',' !in es[k].attrs
    requires |trailer| >= 2 && trailer[0] == '#' && trailer[1] == ' '
    ensures ReadEntries([Header] + (EntryLines(es) + [trailer, ""])) == Pairs(es)
  {
    var tail := [trailer, ""];
    ReadSkipsOtherLine(Header, EntryLines(es) + tail);
    ReadEntryLines(es, tail);
    CommentIsNoTag(trailer);
    ReadSkipsOthers(tail);
  }

  /** A framed playlist file, written line by line, reads back as its
      entries, provided every field is one line, no attribute text holds a
      comma and the closing line is a comment. */
  lemma ReadFramedFile(es: seq<Entry>, trailer: string)
    requires forall k :: 0 <= k < |es| ==> SingleLine(es[k])
    requires forall k :: 0 <= k < |es| ==> ',' !in es[k].attrs
    requires '\n' !in trailer && |trailer| >= 2 && trailer[0] == '#' && trailer[1] == ' '
    ensures ReadEntries(Split(Unlines(FramedLines(es, trailer)), '\n')) == Pairs(es)
  {
    SplitFramedFile(es, trailer);
    ReadFramedLines(es, trailer);
  }

  /** The one-entry file `#EXTM3U\n#EXTINF:-1,<title>\n<url>\n` written
      by the single-stream scripts is the header and one entry without
      attributes, each line followed by a newline. */
  lemma PlainEntryText(title: string, url: string)
    ensures "#EXTM3U\n#EXTINF:-1," + title + "\n" + url + "\n" == Unlines([Header] + EntryLines([Entry("", title, url)]) + [])
  {
    var e := Entry("", title, url);
    var ls := [Header, ExtInfLine(e), url];
    assert EntryLines([e]) == [ExtInfLine(e), url];
    assert [Header] + EntryLines([e]) + [] == ls;
    assert ls[1..][1..] == [url] && [url][1..] == [];
    assert Unlines([url]) == url + "\n";
    assert Unlines(ls[1..]) == ExtInfLine(e) + "\n" + (url + "\n");
    assert Unlines(ls) == Header + "\n" + (ExtInfLine(e) + "\n" + (url + "\n"));
    assert ExtInfLine(e) == "#EXTINF:-1," + title;
  }

  /** That file reads back as exactly its one entry. */
  lemma PlainEntryFile(title: string, url: string)
    requires '\n' !in title && ',' !in title && '\n' !in url
    ensures ReadEntries(Split("#EXTM3U\n#EXTINF:-1," + title + "\n" + url + "\n", '\n')) == [(title, url)]
  {
    PlainEntryText(title, url);
    SingleEntryFile(Entry("", title, url), []);
  }

  /** The one-entry file `#EXTM3U\n#EXTINF:-1<attrs>,<title>\n<url>\n<trailer>\n`
      is the header, one entry and a closing line, each followed by a
      newline. */
  lemma EntryFileText(attrs: string, title: string, url: string, trailer: string)
    ensures "#EXTM3U\n#EXTINF:-1" + attrs + "," + title + "\n" + url + "\n" + trailer + "\n"
            == Unlines([Header] + EntryLines([Entry(attrs, title, url)]) + [trailer])
  {
    var e := Entry(attrs, title, url);
    assert [Header] + EntryLines([e]) + [trailer] == [Header, ExtInfLine(e), url, trailer] by {
      assert EntryLines([e]) == [ExtInfLine(e), url];
    }
    UnlinesFour(Header, ExtInfLine(e), url, trailer);
    HeaderTagText();
    var tail := url + "\n" + (trailer + "\n");
    calc {
      "#EXTM3U\n#EXTINF:-1" + attrs + "," + title + "\n" + url + "\n" + trailer + "\n";
      Header + "\n" + ExtInfTag + "-1" + attrs + "," + title + "\n" + url + "\n" + trailer + "\n";
      Header + "\n" + (ExtInfLine(e) + "\n" + tail);
    }
  }

  /** The header line and the opening of a tag line. */
  lemma HeaderTagText()
    ensures "#EXTM3U\n#EXTINF:-1" == Header + "\n" + ExtInfTag + "-1"
  {
  }

  /** Four lines, each closed by a newline. */
  lemma UnlinesFour(a: string, b: string, c: string, d: string)
    ensures Unlines([a, b, c, d]) == a + "\n" + (b + "\n" + (c + "\n" + (d + "\n")))
  {
    assert Unlines([d]) == d + "\n" by {
      assert [d][1..] == [];
    }
    assert Unlines([c, d]) == c + "\n" + Unlines([d]) by {
      assert [c, d][1..] == [d];
    }
    assert Unlines([b, c, d]) == b + "\n" + Unlines([c, d]) by {
      assert [b, c, d][1..] == [c, d];
    }
    assert Unlines([a, b, c, d]) == a + "\n" + Unlines([b, c, d]) by {
      assert [a, b, c, d][1..] == [b, c, d];
    }
  }

  /** A one-entry file with a closing comment line reads back as exactly
      its one entry. */
  lemma EntryFileReadsBack(attrs: string, title: string, url: string, trailer: string)
    requires SingleLine(Entry(attrs, title, url)) && ',' !in attrs
    requires '\n' !in trailer && |trailer| >= 2 && trailer[0] == '#' && trailer[1] == ' '
    ensures ReadEntries(Split("#EXTM3U\n#EXTINF:-1" + attrs + "," + title + "\n" + url + "\n" + trailer + "\n", '\n'))
            == [(title, url)]
  {
    EntryFileText(attrs, title, url, trailer);
    CommentIsNoTag(trailer);
    SingleEntryFile(Entry(attrs, title, url), [trailer]);
  }
}
