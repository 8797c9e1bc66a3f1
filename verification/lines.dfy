/** Python's `text.split(d)` on a one-character separator, `sep.join(parts)`
    and the "each line followed by a newline" rendering used by every
    playlist writer, with the facts that relate them. */
module Lines {

  import opened Text

  /** `s.split(d)`: the pieces between occurrences of `d`; there is always
      one more piece than there are separators. */
  function Split(s: string, d: char): (r: seq<string>)
    ensures |r| >= 1
    ensures forall i :: 0 <= i < |r| ==> d !in r[i]
    decreases |s|
  {
    if |s| == 0 then [""]
    else
      var rest := Split(s[1..], d);
      if s[0] == d then [""] + rest
      else [[s[0]] + rest[0]] + rest[1..]
  }

  /** `sep.join(parts)` */
  function Join(parts: seq<string>, sep: string): string
    decreases |parts|
  {
    if |parts| == 0 then ""
    else if |parts| == 1 then parts[0]
    else parts[0] + sep + Join(parts[1..], sep)
  }

  /** Writing every line followed by "\n", as the playlist writers do. */
  function Unlines(ls: seq<string>): string
    decreases |ls|
  {
    if |ls| == 0 then "" else ls[0] + "\n" + Unlines(ls[1..])
  }

  /** The concatenation of a sequence of sequences. */
  function Flatten(xss: seq<seq<string>>): seq<string>
    decreases |xss|
  {
    if |xss| == 0 then [] else xss[0] + Flatten(xss[1..])
  }

  /** No piece contains the separator. */
  predicate NoneContains(ls: seq<string>, d: char) {
    forall i :: 0 <= i < |ls| ==> d !in ls[i]
  }

  /** Splitting a separator-free string gives that string alone. */
  lemma {:induction false} SplitWithoutDelimiter(s: string, d: char)
    requires d !in s
    ensures Split(s, d) == [s]
    decreases |s|
  {
    if |s| > 0 {
      SplitWithoutDelimiter(s[1..], d);
      assert s == [s[0]] + s[1..];
    }
  }

  /** Splitting distributes over a separator: the separator ends the last
      piece of `a` and starts the first piece of `b`. */
  lemma {:induction false} SplitConcat(a: string, d: char, b: string)
    ensures Split(a + [d] + b, d) == Split(a, d) + Split(b, d)
    decreases |a|
  {
    var s := a + [d] + b;
    if |a| == 0 {
      assert s[1..] == b;
    } else {
      SplitConcat(a[1..], d, b);
      assert s[0] == a[0] && s[1..] == a[1..] + [d] + b;
      SplitSameHead(s, a, d, Split(b, d));
    }
  }

  /** Two texts with the same first character whose remainders split
      alike up to a trailing run of pieces split alike up to that run. */
  lemma SplitSameHead(s: string, a: string, d: char, rb: seq<string>)
    requires |s| > 0 && |a| > 0 && s[0] == a[0]
    requires Split(s[1..], d) == Split(a[1..], d) + rb
    ensures Split(s, d) == Split(a, d) + rb
  {
    var ra := Split(a[1..], d);
    if a[0] != d {
      SplitUnfold(s, d);
      SplitUnfold(a, d);
      ReplaceHead([a[0]], ra, rb);
    } else {
      SplitUnfoldSeparator(s, d);
      SplitUnfoldSeparator(a, d);
      assert [""] + (ra + rb) == ([""] + ra) + rb;
    }
  }

  /** One step of `Split` on a text that starts with the separator. */
  lemma SplitUnfoldSeparator(s: string, d: char)
    requires |s| > 0 && s[0] == d
    ensures Split(s, d) == [""] + Split(s[1..], d)
  {
  }

  /** One step of `Split` on a text whose first character is not the
      separator. */
  lemma SplitUnfold(s: string, d: char)
    requires |s| > 0 && s[0] != d
    ensures Split(s, d) == [[s[0]] + Split(s[1..], d)[0]] + Split(s[1..], d)[1..]
  {
  }

  /** Prefixing the first piece commutes with appending more pieces. */
  lemma ReplaceHead(c: string, ra: seq<string>, rb: seq<string>)
    requires |ra| > 0
    ensures [c + (ra + rb)[0]] + (ra + rb)[1..] == ([c + ra[0]] + ra[1..]) + rb
  {
    assert (ra + rb)[1..] == ra[1..] + rb;
  }

  /** Joining the pieces of a split rebuilds the text. */
  lemma {:induction false} JoinSplit(s: string, d: char)
    ensures Join(Split(s, d), [d]) == s
    decreases |s|
  {
    if |s| > 0 {
      var rest := Split(s[1..], d);
      JoinSplit(s[1..], d);
      if s[0] == d {
        assert Split(s, d) == [""] + rest;
        assert ([""] + rest)[1..] == rest;
      } else {
        JoinHead(s[0], rest, [d]);
      }
    }
  }

  /** Prepending a character to the first part prepends it to the join. */
  lemma JoinHead(c: char, parts: seq<string>, sep: string)
    requires |parts| >= 1
    ensures Join([[c] + parts[0]] + parts[1..], sep) == [c] + Join(parts, sep)
  {
    var q := [[c] + parts[0]] + parts[1..];
    assert q[1..] == parts[1..];
  }

  /** Joining distributes over concatenation of non-empty part lists. */
  lemma {:induction false} JoinAppend(xs: seq<string>, ys: seq<string>, sep: string)
    requires |xs| >= 1 && |ys| >= 1
    ensures Join(xs + ys, sep) == Join(xs, sep) + sep + Join(ys, sep)
    decreases |xs|
  {
    if |xs| > 1 {
      assert (xs + ys)[1..] == xs[1..] + ys;
      JoinAppend(xs[1..], ys, sep);
    } else {
      assert (xs + ys)[1..] == ys;
    }
  }

  /** Splitting a join gives the pieces of every part, in order. */
  lemma {:induction false} SplitJoin(parts: seq<string>, d: char, pieces: seq<seq<string>>)
    requires |parts| >= 1 && |pieces| == |parts|
    requires forall i :: 0 <= i < |parts| ==> pieces[i] == Split(parts[i], d)
    ensures Split(Join(parts, [d]), d) == Flatten(pieces)
    decreases |parts|
  {
    if |parts| == 1 {
      assert Flatten(pieces) == pieces[0] + Flatten([]);
    } else {
      SplitJoin(parts[1..], d, pieces[1..]);
      SplitConcat(parts[0], d, Join(parts[1..], [d]));
    }
  }

  /** The pieces of a split are exactly the parts that were joined, when
      none of them contains the separator. */
  lemma {:induction false} SplitJoinInverse(parts: seq<string>, d: char)
    requires |parts| >= 1 && NoneContains(parts, d)
    ensures Split(Join(parts, [d]), d) == parts
    decreases |parts|
  {
    SplitWithoutDelimiter(parts[0], d);
    if |parts| > 1 {
      SplitJoinInverse(parts[1..], d);
      SplitConcat(parts[0], d, Join(parts[1..], [d]));
      assert parts == [parts[0]] + parts[1..];
    }
  }

  /** Newline-terminated lines read back as the lines plus one empty
      piece after the final newline. */
  lemma {:induction false} SplitUnlines(ls: seq<string>)
    requires NoneContains(ls, '\n')
    ensures Split(Unlines(ls), '\n') == ls + [""]
    decreases |ls|
  {
    if |ls| > 0 {
      SplitUnlines(ls[1..]);
      SplitWithoutDelimiter(ls[0], '\n');
      SplitConcat(ls[0], '\n', Unlines(ls[1..]));
      assert ls == [ls[0]] + ls[1..];
    }
  }

  /** The concatenation of two flattened lists is the flattening of both. */
  lemma {:induction false} FlattenAppend(xss: seq<seq<string>>, yss: seq<seq<string>>)
    ensures Flatten(xss + yss) == Flatten(xss) + Flatten(yss)
    decreases |xss|
  {
    if |xss| > 0 {
      assert (xss + yss)[1..] == xss[1..] + yss;
      FlattenAppend(xss[1..], yss);
    } else {
      assert xss + yss == yss;
    }
  }

  /** Appending text to `s` extends its last piece and adds the remaining
      pieces of the appended text: every piece of `s` except the last is a
      piece of `s + t`, and the last is a prefix of one. */
  lemma {:induction false} SplitAppend(s: string, t: string, d: char)
    ensures |Split(s + t, d)| == |Split(s, d)| + |Split(t, d)| - 1
    ensures forall i :: 0 <= i < |Split(s, d)| - 1 ==> Split(s + t, d)[i] == Split(s, d)[i]
    ensures Split(s + t, d)[|Split(s, d)| - 1] == Split(s, d)[|Split(s, d)| - 1] + Split(t, d)[0]
    decreases |s|
  {
    var ps := Split(s, d);
    var ts := Split(t, d);
    if |s| == 0 {
      assert s + t == t;
    } else {
      var rest := Split(s[1..], d);
      assert (s + t)[1..] == s[1..] + t;
      SplitAppend(s[1..], t, d);
      var q := Split(s[1..] + t, d);
      if s[0] == d {
        assert Split(s + t, d) == [""] + q;
        assert ps == [""] + rest;
      } else {
        assert Split(s + t, d) == [[s[0]] + q[0]] + q[1..];
        assert ps == [[s[0]] + rest[0]] + rest[1..];
      }
    }
  }

  /** Each line of a prefix `k` of a text is, with some continuation,
      a line of the whole text: only the last one can run on. */
  lemma PrefixLineExtends(k: string, w: string, line: string) returns (ext: string)
    requires line in Split(k, '\n')
    ensures line + ext in Split(k + w, '\n')
  {
    SplitAppend(k, w, '\n');
    var ks := Split(k, '\n');
    var i :| 0 <= i < |ks| && ks[i] == line;
    if i < |ks| - 1 {
      ext := "";
      assert line + ext == Split(k + w, '\n')[i];
    } else {
      ext := Split(w, '\n')[0];
      assert line + ext == Split(k + w, '\n')[i];
    }
  }

  /** Writing lines each followed by "\n" is joining them with "\n" and
      adding one final "\n". */
  lemma {:induction false} UnlinesJoin(ls: seq<string>)
    requires |ls| >= 1
    ensures Unlines(ls) == Join(ls, "\n") + "\n"
    decreases |ls|
  {
    if |ls| > 1 {
      UnlinesJoin(ls[1..]);
    }
  }

  /** A join of at least two parts is the first part, the separator, the
      middle, the separator and the last part. */
  lemma JoinEnds(ls: seq<string>, sep: string)
    requires |ls| >= 2
    ensures Join(ls, sep) == ls[0] + sep + Join(ls[1..], sep)
    ensures Join(ls, sep) == Join(ls[..|ls| - 1], sep) + sep + ls[|ls| - 1]
  {
    var init, last := ls[..|ls| - 1], [ls[|ls| - 1]];
    assert init + last == ls;
    JoinAppend(init, last, sep);
    assert Join(last, sep) == ls[|ls| - 1];
  }

  /** The text after the first line break of an appended block: an empty
      line, the three-line delimiter block, `body` and a closing line,
      each followed by "\n". */
  function BlockTail(rule: string, title: string, body: string, last: string): string {
    "\n" + (rule + "\n" + (title + "\n" + (rule + "\n" + (body + "\n" + (last + "\n")))))
  }

  /** A newline-free line and its line break in front of a text. */
  lemma SplitLineThen(a: string, rest: string)
    requires '\n' !in a
    ensures Split(a + "\n" + rest, '\n') == [a] + Split(rest, '\n')
  {
    SplitConcat(a, '\n', rest);
    SplitWithoutDelimiter(a, '\n');
  }

  lemma RegroupBlock(a: string, b: string, c: string, d: string, xs: seq<string>, ys: seq<string>)
    ensures [a] + ([b] + ([c] + ([d] + (xs + ys)))) == [a, b, c, d] + xs + ys
  {
  }

  lemma {:induction false} BlockTailLines(rule: string, title: string, body: string, last: string)
    requires '\n' !in rule && '\n' !in title && '\n' !in last
    ensures Split(BlockTail(rule, title, body, last), '\n') == ["", rule, title, rule] + Split(body, '\n') + [last, ""]
  {
    var t5 := body + "\n" + (last + "\n");
    var t4 := rule + "\n" + t5;
    var t3 := title + "\n" + t4;
    var t2 := rule + "\n" + t3;
    assert Split(t5, '\n') == Split(body, '\n') + [last, ""] by {
      SplitConcat(body, '\n', last + "\n");
      assert last + "\n" == last + "\n" + "";
      SplitLineThen(last, "");
      SplitWithoutDelimiter("", '\n');
    }
    SplitLineThen(rule, t5);
    SplitLineThen(title, t4);
    SplitLineThen(rule, t3);
    SplitLineThen("", t2);
    assert BlockTail(rule, title, body, last) == "" + "\n" + t2;
    RegroupBlock("", rule, title, rule, Split(body, '\n'), [last, ""]);
  }

  /** A text built as `k`, a blank line, a three-line delimiter block,
      `body` and a closing line, each followed by "\n", is `k`, a line
      break and the block's tail. */
  lemma BlockRegroup(k: string, rule: string, title: string, body: string, last: string)
    ensures k + "\n\n" + rule + "\n" + title + "\n" + rule + "\n" + body + "\n" + last + "\n"
      == k + ['\n'] + BlockTail(rule, title, body, last)
  {
    calc {
      k + "\n\n" + rule + "\n" + title + "\n" + rule + "\n" + body + "\n" + last + "\n";
      k + "\n\n" + rule + "\n" + title + "\n" + rule + "\n" + body + "\n" + (last + "\n");
      k + "\n\n" + rule + "\n" + title + "\n" + rule + "\n" + (body + "\n" + (last + "\n"));
      k + "\n\n" + rule + "\n" + title + "\n" + (rule + "\n" + (body + "\n" + (last + "\n")));
      k + "\n\n" + rule + "\n" + (title + "\n" + (rule + "\n" + (body + "\n" + (last + "\n"))));
      k + "\n" + ("\n" + (rule + "\n" + (title + "\n" + (rule + "\n" + (body + "\n" + (last + "\n"))))));
      k + ['\n'] + BlockTail(rule, title, body, last);
    }
  }

  /** The lines of a text built as `k`, a blank line, a three-line
      delimiter block, `body` and a closing line, each followed by "\n":
      the shape in which both master-merging scripts append their block. */
  lemma {:induction false} BlockLines(k: string, rule: string, title: string, body: string, last: string)
    requires '\n' !in rule && '\n' !in title && '\n' !in last
    ensures Split(k + "\n\n" + rule + "\n" + title + "\n" + rule + "\n" + body + "\n" + last + "\n", '\n')
      == Split(k, '\n') + ["", rule, title, rule] + Split(body, '\n') + [last, ""]
  {
    var tail := BlockTail(rule, title, body, last);
    BlockRegroup(k, rule, title, body, last);
    assert Split(k + ['\n'] + tail, '\n') == Split(k, '\n') + Split(tail, '\n') by {
      SplitConcat(k, '\n', tail);
    }
    BlockTailLines(rule, title, body, last);
  }

  /** The first lines of such a text: those of `k`, the blank line, the
      rule and the title, whatever `body` and the closing line hold. */
  lemma {:induction false} BlockHeadLines(k: string, rule: string, title: string, body: string, last: string)
    requires '\n' !in rule && '\n' !in title
    ensures Split(k + "\n\n" + rule + "\n" + title + "\n" + rule + "\n" + body + "\n" + last + "\n", '\n')
      == Split(k, '\n') + ["", rule, title] + Split(rule + "\n" + (body + "\n" + (last + "\n")), '\n')
  {
    var rest := rule + "\n" + (body + "\n" + (last + "\n"));
    var tail := BlockTail(rule, title, body, last);
    BlockTailHeadLines(rule, title, body, last);
    calc {
      Split(k + "\n\n" + rule + "\n" + title + "\n" + rule + "\n" + body + "\n" + last + "\n", '\n');
      { BlockRegroup(k, rule, title, body, last); }
      Split(k + ['\n'] + tail, '\n');
      { SplitConcat(k, '\n', tail); }
      Split(k, '\n') + Split(tail, '\n');
      Split(k, '\n') + ["", rule, title] + Split(rest, '\n');
    }
  }

  /** The first lines of the delimiter block and what follows it. */
  lemma BlockTailHeadLines(rule: string, title: string, body: string, last: string)
    requires '\n' !in rule && '\n' !in title
    ensures Split(BlockTail(rule, title, body, last), '\n')
      == ["", rule, title] + Split(rule + "\n" + (body + "\n" + (last + "\n")), '\n')
  {
    var rest := rule + "\n" + (body + "\n" + (last + "\n"));
    var t3 := title + "\n" + rest;
    var t2 := rule + "\n" + t3;
    assert BlockTail(rule, title, body, last) == "" + "\n" + t2;
    SplitLineThen("", t2);
    SplitLineThen(rule, t3);
    SplitLineThen(title, rest);
  }

  /** Such a text starts with `k`, a line break, and the blank line, rule
      and title joined by line breaks. */
  lemma BlockStarts(k: string, rule: string, title: string, body: string, last: string)
    ensures StartsWith(k + "\n\n" + rule + "\n" + title + "\n" + rule + "\n" + body + "\n" + last + "\n",
                       k + "\n" + ("\n" + rule + "\n" + title))
  {
    var q := k + "\n\n" + rule + "\n" + title;
    var text := k + "\n\n" + rule + "\n" + title + "\n" + rule + "\n" + body + "\n" + last + "\n";
    assert text == q + ("\n" + rule + "\n" + body + "\n" + last + "\n");
    assert text[..|q|] == q;
    assert q == k + "\n" + ("\n" + rule + "\n" + title);
  }

  /** Joining three parts. */
  lemma JoinThree(a: string, b: string, c: string, sep: string)
    ensures Join([a, b, c], sep) == a + sep + (b + sep + c)
  {
    var three := [a, b, c];
    assert three[1..] == [b, c] && three[1..][1..] == [c];
    assert Join([c], sep) == c;
    assert Join([b, c], sep) == b + sep + c;
  }

  /** Joining the lines of `k` and then a blank line, a rule and a title
      gives `k` followed by those lines. */
  lemma JoinBlockHead(k: string, rule: string, title: string)
    ensures Join(Split(k, '\n') + ["", rule, title], "\n") == k + "\n" + ("\n" + rule + "\n" + title)
  {
    JoinThree("", rule, title, "\n");
    JoinAppend(Split(k, '\n'), ["", rule, title], "\n");
    JoinSplit(k, '\n');
    assert "" + "\n" + (rule + "\n" + title) == "\n" + rule + "\n" + title;
  }

  /** A text shaped like an appended block starts with `k` and ends with
      the closing line. */
  lemma BlockBounds(k: string, rule: string, title: string, body: string, last: string)
    ensures StartsWith(k + "\n\n" + rule + "\n" + title + "\n" + rule + "\n" + body + "\n" + last + "\n", k)
    ensures EndsWith(k + "\n\n" + rule + "\n" + title + "\n" + rule + "\n" + body + "\n" + last + "\n",
                     "\n" + last + "\n")
  {
    var mid := "\n\n" + rule + "\n" + title + "\n" + rule + "\n" + body;
    var text := k + "\n\n" + rule + "\n" + title + "\n" + rule + "\n" + body + "\n" + last + "\n";
    assert text == k + mid + ("\n" + last + "\n");
    assert text[..|k|] == k;
  }

  /** The number of occurrences of `p` summed over `parts`. */
  function CountAll(parts: seq<string>, p: string): nat
    requires |p| > 0
    decreases |parts|
  {
    if |parts| == 0 then 0 else Count(parts[0], p) + CountAll(parts[1..], p)
  }

  lemma {:induction false} CountAllAppend(a: seq<string>, b: seq<string>, p: string)
    requires |p| > 0
    ensures CountAll(a + b, p) == CountAll(a, p) + CountAll(b, p)
    decreases |a|
  {
    if |a| == 0 {
      assert a + b == b;
    } else {
      assert (a + b)[1..] == a[1..] + b;
      CountAllAppend(a[1..], b, p);
    }
  }

  lemma CountAllPair(a: string, b: string, p: string)
    requires |p| > 0
    ensures CountAll([a, b], p) == Count(a, p) + Count(b, p)
  {
    var two := [a, b];
    assert two[1..] == [b] && [b][1..] == [];
    assert CountAll([b], p) == Count(b, p) + CountAll([], p);
    assert CountAll(two, p) == Count(a, p) + CountAll([b], p);
  }

  /** Joining with a separator that `p` lacks creates no occurrence of `p`:
      the occurrences in the joined text are those of the parts. */
  lemma {:induction false} CountJoin(parts: seq<string>, c: char, p: string)
    requires |p| > 0 && c !in p
    ensures Count(Join(parts, [c]), p) == CountAll(parts, p)
    decreases |parts|
  {
    if |parts| == 1 {
      assert CountAll(parts, p) == Count(parts[0], p) + CountAll([], p);
    } else if |parts| > 1 {
      CountSplitAt(parts[0], c, Join(parts[1..], [c]), p);
      CountJoin(parts[1..], c, p);
    }
  }
}
