/** `remove_old_tw` (LITV_TWTV_AutoUpdate.py): the one-flag line scanner
    that clears the managed Taiwan-channel entries out of the master
    playlist before fresh ones are appended.

    A managed tag is an `#EXTINF:` line naming the group `台灣頻道`.  The
    scanner drops it and raises `skip`; while `skip` is up, lines starting
    with `http` are dropped too; any other line lowers `skip` and is kept. */
module ManagedSection {

  import opened Text
  import opened Lines
  import opened M3u

  const ManagedGroup: string := "台灣頻道"

  /** An `#EXTINF:` line that names the managed group. */
  predicate IsManagedTag(line: string) {
    StartsWith(line, ExtInfTag) && Contains(line, ManagedGroup)
  }

  /** A URL line, as the scanner recognises it. */
  predicate IsUrlLine(line: string) {
    StartsWith(line, "http")
  }

  /** The scanner over `lines` entered with flag `skip`. */
  function Scan(lines: seq<string>, skip: bool): (r: seq<string>)
    ensures |r| <= |lines|
    ensures forall i :: 0 <= i < |r| ==> r[i] in lines && !IsManagedTag(r[i])
    decreases |lines|
  {
    if |lines| == 0 then []
    else if IsManagedTag(lines[0]) then Scan(lines[1..], true)
    else if skip && IsUrlLine(lines[0]) then Scan(lines[1..], true)
    else [lines[0]] + Scan(lines[1..], false)
  }

  /** `remove_old_tw(content)`: split on "\n", scan, join with "\n".  No
      line of the result is a managed tag, and it has no more lines than
      the input. */
  function RemoveOldTw(content: string): (r: string)
    ensures forall line :: line in Split(r, '\n') ==> !IsManagedTag(line)
    ensures |Split(r, '\n')| <= |Split(content, '\n')|
  {
    var lines := Split(content, '\n');
    var kept := Scan(lines, false);
    if |kept| == 0 then
      assert !IsManagedTag("");
      ""
    else
      assert NoneContains(kept, '\n') by {
        forall i | 0 <= i < |kept|
          ensures '\n' !in kept[i]
        {
          assert kept[i] in lines;
        }
      }
      SplitJoinInverse(kept, '\n');
      Join(kept, "\n")
  }

  /* ---------------------------------------------------------------- */
  /* The declarative reading of the scanner                            */
  /* ---------------------------------------------------------------- */

  /** The value of `skip` just before line `i` is examined. */
  function SkipBefore(lines: seq<string>, i: nat): bool
    requires i <= |lines|
    decreases i
  {
    if i == 0 then false
    else IsManagedTag(lines[i - 1]) || (SkipBefore(lines, i - 1) && IsUrlLine(lines[i - 1]))
  }

  /** Line `i` is dropped: it is a managed tag, or a URL line met while
      `skip` is up. */
  predicate Dropped(lines: seq<string>, i: nat)
    requires i < |lines|
  {
    IsManagedTag(lines[i]) || (IsUrlLine(lines[i]) && SkipBefore(lines, i))
  }

  /** The lines from index `i` on that are not dropped, in their order. */
  function SurvivorsFrom(lines: seq<string>, i: nat): seq<string>
    requires i <= |lines|
    decreases |lines| - i
  {
    if i == |lines| then []
    else (if Dropped(lines, i) then [] else [lines[i]]) + SurvivorsFrom(lines, i + 1)
  }

  /** Every line that is not dropped, in order: an order-preserving
      selection of the input lines. */
  function Survivors(lines: seq<string>): seq<string> {
    SurvivorsFrom(lines, 0)
  }

  /** The nearest line before `i` that is not a URL line is a managed tag:
      some managed tag at `j < i` is followed only by URL lines up to `i`. */
  ghost predicate InManagedRun(lines: seq<string>, i: nat)
    requires i <= |lines|
  {
    exists j :: 0 <= j < i && IsManagedTag(lines[j]) && forall k :: j < k < i ==> IsUrlLine(lines[k])
  }

  /** The flag is up before line `i` exactly when line `i` sits in the URL
      run after a managed tag. */
  lemma {:induction false} SkipBeforeIffInManagedRun(lines: seq<string>, i: nat)
    requires i <= |lines|
    ensures SkipBefore(lines, i) <==> InManagedRun(lines, i)
    decreases i
  {
    if i > 0 {
      SkipBeforeIffInManagedRun(lines, i - 1);
      if SkipBefore(lines, i) {
        if !IsManagedTag(lines[i - 1]) {
          var j :| 0 <= j < i - 1 && IsManagedTag(lines[j]) && forall k :: j < k < i - 1 ==> IsUrlLine(lines[k]);
          assert forall k :: j < k < i ==> IsUrlLine(lines[k]);
        }
      }
      if InManagedRun(lines, i) {
        var j :| 0 <= j < i && IsManagedTag(lines[j]) && forall k :: j < k < i ==> IsUrlLine(lines[k]);
        if j < i - 1 {
          assert IsUrlLine(lines[i - 1]);
          assert InManagedRun(lines, i - 1);
        }
      }
    }
  }

  /** A URL line is dropped exactly when the nearest line before it that is
      not a URL line is a managed tag; so a blank or comment line between
      a managed tag and a URL keeps that URL. */
  lemma UrlLineDroppedIff(lines: seq<string>, i: nat)
    requires i < |lines| && IsUrlLine(lines[i])
    ensures Dropped(lines, i) <==> InManagedRun(lines, i)
  {
    SkipBeforeIffInManagedRun(lines, i);
    assert !IsManagedTag(lines[i]) by {
      assert lines[i][0] == 'h';
    }
  }

  /** The scanner from line `i`, entered with the flag value it has there,
      keeps exactly the surviving lines from `i` on. */
  lemma {:induction false} ScanKeepsSurvivorsFrom(lines: seq<string>, i: nat)
    requires i <= |lines|
    ensures Scan(lines[i..], SkipBefore(lines, i)) == SurvivorsFrom(lines, i)
    decreases |lines| - i
  {
    if i < |lines| {
      assert lines[i..][0] == lines[i];
      assert lines[i..][1..] == lines[i + 1..];
      ScanKeepsSurvivorsFrom(lines, i + 1);
    }
  }

  /** remove_old_tw keeps exactly the lines that are neither managed tags
      nor URL lines in a managed tag's run, in their original order. */
  lemma ScanKeepsSurvivors(lines: seq<string>)
    ensures Scan(lines, false) == Survivors(lines)
  {
    ScanKeepsSurvivorsFrom(lines, 0);
    assert lines[0..] == lines;
  }

  /** Without a managed tag the scanner keeps every line. */
  lemma {:induction false} ScanWithoutManaged(lines: seq<string>)
    requires forall i :: 0 <= i < |lines| ==> !IsManagedTag(lines[i])
    ensures Scan(lines, false) == lines
    decreases |lines|
  {
    if |lines| > 0 {
      ScanWithoutManaged(lines[1..]);
      assert lines == [lines[0]] + lines[1..];
    }
  }

  /** Lines that are not managed tags pass the scanner unchanged and
      leave the flag down for what follows. */
  lemma {:induction false} ScanCleanPrefix(clean: seq<string>, rest: seq<string>)
    requires forall i :: 0 <= i < |clean| ==> !IsManagedTag(clean[i])
    ensures Scan(clean + rest, false) == clean + Scan(rest, false)
    decreases |clean|
  {
    if |clean| > 0 {
      var all := clean + rest;
      assert all[0] == clean[0] && all[1..] == clean[1..] + rest;
      calc {
        Scan(all, false);
        [clean[0]] + Scan(clean[1..] + rest, false);
        { ScanCleanPrefix(clean[1..], rest); }
        [clean[0]] + (clean[1..] + Scan(rest, false));
        { assert clean == [clean[0]] + clean[1..]; }
        clean + Scan(rest, false);
      }
    } else {
      assert clean + rest == rest;
    }
  }

  /* ---------------------------------------------------------------- */
  /* Properties of remove_old_tw on text                               */
  /* ---------------------------------------------------------------- */

  /** The lines of the result are the surviving lines of the input. */
  lemma RemoveOldTwLines(content: string)
    ensures var kept := Survivors(Split(content, '\n'));
      Split(RemoveOldTw(content), '\n') == (if |kept| == 0 then [""] else kept)
  {
    var lines := Split(content, '\n');
    ScanKeepsSurvivors(lines);
    var kept := Scan(lines, false);
    if |kept| > 0 {
      assert NoneContains(kept, '\n') by {
        forall i | 0 <= i < |kept|
          ensures '\n' !in kept[i]
        {
          assert kept[i] in lines;
        }
      }
      SplitJoinInverse(kept, '\n');
    }
  }

  /** Text without a managed tag is returned unchanged. */
  lemma RemoveOldTwIdentity(content: string)
    requires forall line :: line in Split(content, '\n') ==> !IsManagedTag(line)
    ensures RemoveOldTw(content) == content
  {
    ScanWithoutManaged(Split(content, '\n'));
    JoinSplit(content, '\n');
  }

  /** A prefix of a text without managed tag lines has none either: a
      line of the prefix is the start of a line of the text, and text
      appended to a managed tag leaves it one. */
  lemma PrefixKeepsNoManagedTag(text: string, k: string)
    requires StartsWith(text, k)
    requires forall line :: line in Split(text, '\n') ==> !IsManagedTag(line)
    ensures forall line :: line in Split(k, '\n') ==> !IsManagedTag(line)
  {
    var w := text[|k|..];
    assert text == k + w;
    forall line | line in Split(k, '\n')
      ensures !IsManagedTag(line)
    {
      var ext := PrefixLineExtends(k, w, line);
      if IsManagedTag(line) {
        ManagedTagExtends(line, ext);
      }
    }
  }

  /** Stripping twice strips nothing more. */
  lemma RemoveOldTwIdempotent(content: string)
    ensures RemoveOldTw(RemoveOldTw(content)) == RemoveOldTw(content)
  {
    RemoveOldTwIdentity(RemoveOldTw(content));
  }

  /** The loop of `remove_old_tw` as written, over the split lines: one
      pass with the `skip` flag, collecting the kept lines. */
  method StripManagedLines(lines: seq<string>) returns (result: seq<string>)
    ensures result == Survivors(lines)
  {
    result := [];
    var skip := false;
    var i := 0;
    while i < |lines|
      invariant 0 <= i <= |lines|
      invariant skip == SkipBefore(lines, i)
      invariant result + SurvivorsFrom(lines, i) == Survivors(lines)
    {
      var line := lines[i];
      ghost var tail := SurvivorsFrom(lines, i + 1);
      if IsManagedTag(line) {
        skip := true;
      } else if skip && IsUrlLine(line) {
      } else {
        skip := false;
        assert SurvivorsFrom(lines, i) == [line] + tail;
        assert (result + [line]) + tail == result + ([line] + tail);
        result := result + [line];
      }
      i := i + 1;
    }
  }

  /** `remove_old_tw` as written: split, the flagged loop, join. */
  method RemoveOldTwLoop(content: string) returns (r: string)
    ensures r == Join(Survivors(Split(content, '\n')), "\n")
    ensures r == RemoveOldTw(content)
  {
    var lines := Split(content, '\n');
    var kept := StripManagedLines(lines);
    ScanKeepsSurvivors(lines);
    r := Join(kept, "\n");
  }

  /* ---------------------------------------------------------------- */
  /* Entry pairing                                                     */
  /* ---------------------------------------------------------------- */

  /** An entry the scanner treats as managed. */
  predicate IsManagedEntry(e: Entry) {
    Contains(ExtInfLine(e), ManagedGroup)
  }

  /** The entries that are not managed, in order. */
  function ForeignEntries(es: seq<Entry>): (r: seq<Entry>)
    ensures forall k :: 0 <= k < |r| ==> r[k] in es && !IsManagedEntry(r[k])
    decreases |es|
  {
    if |es| == 0 then []
    else if IsManagedEntry(es[0]) then ForeignEntries(es[1..])
    else [es[0]] + ForeignEntries(es[1..])
  }

  /** The scanner on one entry's two lines followed by more lines. */
  lemma ScanEntryHead(e: Entry, rest: seq<string>, skip: bool)
    requires IsManagedEntry(e) ==> IsUrlLine(e.url)
    requires !IsManagedTag(e.url)
    ensures Scan([ExtInfLine(e), e.url] + rest, skip)
      == if IsManagedEntry(e) then Scan(rest, true) else [ExtInfLine(e), e.url] + Scan(rest, false)
  {
    var ls := [ExtInfLine(e), e.url] + rest;
    assert ls[1..] == [e.url] + rest;
    assert ls[1..][1..] == rest;
    ExtInfLineIsTag(e);
    assert !IsUrlLine(ExtInfLine(e)) by {
      assert ExtInfLine(e)[0] == '#';
    }
  }

  /** Pairing: on a playlist body made of whole entries, where every
      managed entry's URL is an `http` line and no URL line is itself a
      managed tag, the scanner removes each managed entry as a pair (tag
      and URL) and keeps each foreign entry whole, in order. */
  lemma {:induction false} ScanRemovesManagedPairs(es: seq<Entry>, skip: bool)
    requires forall k :: 0 <= k < |es| ==> (IsManagedEntry(es[k]) ==> IsUrlLine(es[k].url))
    requires forall k :: 0 <= k < |es| ==> !IsManagedTag(es[k].url)
    ensures Scan(EntryLines(es), skip) == EntryLines(ForeignEntries(es))
    decreases |es|
  {
    if |es| > 0 {
      var e := es[0];
      var rest := EntryLines(es[1..]);
      assert EntryLines(es) == [ExtInfLine(e), e.url] + rest;
      ScanEntryHead(e, rest, skip);
      ScanRemovesManagedPairs(es[1..], true);
      ScanRemovesManagedPairs(es[1..], false);
      if !IsManagedEntry(e) {
        assert ForeignEntries(es) == [e] + ForeignEntries(es[1..]);
        assert EntryLines([e] + ForeignEntries(es[1..])) == [ExtInfLine(e), e.url] + EntryLines(ForeignEntries(es[1..]));
      }
    }
  }

  /** A managed tag whose URL line does not start with `http` loses only
      its tag: the URL line stays behind. */
  lemma NonHttpUrlAfterManagedTagSurvives(tag: string, url: string)
    requires IsManagedTag(tag) && !IsManagedTag(url) && !IsUrlLine(url)
    ensures Scan([tag, url], false) == [url]
  {
    assert [tag, url][1..] == [url];
    assert [url][1..] == [];
  }

  /** Text appended to a managed tag leaves it a managed tag. */
  lemma ManagedTagExtends(line: string, more: string)
    requires IsManagedTag(line)
    ensures IsManagedTag(line + more)
  {
    var i :| 0 <= i <= |line| - |ManagedGroup| && OccursAt(line, ManagedGroup, i);
    assert (line + more)[i..i + |ManagedGroup|] == line[i..i + |ManagedGroup|];
    assert OccursAt(line + more, ManagedGroup, i);
    assert (line + more)[..|ExtInfTag|] == line[..|ExtInfTag|];
  }
}
