/** The Python `str` operations the playlist scripts rely on, stated over
    `string` (a sequence of Unicode scalar values, as Python's `str` is a
    sequence of code points). */
module Text {

  import opened Wrappers

  /* ---------------------------------------------------------------- */
  /* Prefixes, suffixes and substrings                                 */
  /* ---------------------------------------------------------------- */

  /** `s.startswith(p)` */
  predicate StartsWith(s: string, p: string) {
    |p| <= |s| && s[..|p|] == p
  }

  /** `c * n` for a one-character string `c` */
  function Repeat(c: char, n: nat): (r: string)
    ensures |r| == n
    ensures forall i :: 0 <= i < n ==> r[i] == c
    decreases n
  {
    if n == 0 then "" else [c] + Repeat(c, n - 1)
  }

  /** `s.endswith(p)` */
  predicate EndsWith(s: string, p: string) {
    |p| <= |s| && s[|s| - |p|..] == p
  }

  /** `p` occurs in `s` starting at index `i`. */
  predicate OccursAt(s: string, p: string, i: int) {
    0 <= i && i + |p| <= |s| && s[i..i + |p|] == p
  }

  /** `p in s` */
  predicate Contains(s: string, p: string) {
    exists i | 0 <= i <= |s| - |p| :: OccursAt(s, p, i)
  }

  /** The index of the first occurrence of `p` in `s` at or after `k`, as
      Python's `s.find(p, k)` finds it. */
  function FindFrom(s: string, p: string, k: nat): (r: Option<nat>)
    ensures r.Some? ==> k <= r.value && OccursAt(s, p, r.value)
    ensures r.Some? ==> forall j :: k <= j < r.value ==> !OccursAt(s, p, j)
    ensures r.None? ==> forall j :: k <= j ==> !OccursAt(s, p, j)
    decreases |s| - k
  {
    if k + |p| > |s| then None
    else if OccursAt(s, p, k) then Some(k)
    else FindFrom(s, p, k + 1)
  }

  /** The first occurrence of `p` in `s`; it exists exactly when `p in s`. */
  function Find(s: string, p: string): (r: Option<nat>)
    ensures r.Some? <==> Contains(s, p)
    ensures r.Some? ==> OccursAt(s, p, r.value)
    ensures r.Some? ==> forall j :: 0 <= j < r.value ==> !OccursAt(s, p, j)
  {
    FindFrom(s, p, 0)
  }

  /** `s.split(sep)[0]`: the text before the first occurrence of `sep`, or
      all of `s` when `sep` does not occur. */
  function Before(s: string, sep: string): (r: string)
    ensures StartsWith(s, r)
    ensures !Contains(s, sep) ==> r == s
  {
    match Find(s, sep)
    case None => s
    case Some(i) => s[..i]
  }

  /** The text after the first occurrence of `sep`; with `Before` this gives
      `s.split(sep)[1] == Before(After(s, sep), sep)`. */
  function After(s: string, sep: string): (r: string)
    requires Contains(s, sep)
    ensures EndsWith(s, r) && |r| + |sep| <= |s|
  {
    var i := Find(s, sep).value;
    s[i + |sep|..]
  }

  /** The text before the first occurrence of a non-empty `sep` holds no
      occurrence of it. */
  lemma BeforeHasNoSep(s: string, sep: string)
    requires |sep| > 0
    ensures !Contains(Before(s, sep), sep)
  {
    var r := Before(s, sep);
    if Contains(r, sep) {
      var j :| 0 <= j <= |r| - |sep| && OccursAt(r, sep, j);
      assert s[j..j + |sep|] == r[j..j + |sep|];
      assert OccursAt(s, sep, j);
    }
  }

  /** An occurrence in a prefix is an occurrence in the whole text. */
  lemma ContainsExtends(p: string, s: string, sep: string)
    requires StartsWith(s, p)
    ensures Contains(p, sep) ==> Contains(s, sep)
  {
    if Contains(p, sep) {
      var j :| 0 <= j <= |p| - |sep| && OccursAt(p, sep, j);
      assert s[j..j + |sep|] == p[j..j + |sep|];
      assert OccursAt(s, sep, j);
    }
  }

  /** A one-character separator absent from `h` is first found right after
      `h`: the text after it is `t`. */
  lemma AfterFirstChar(h: string, c: char, t: string)
    ensures Contains(h + [c] + t, [c])
    ensures c !in h ==> After(h + [c] + t, [c]) == t
  {
    var line := h + [c] + t;
    var k := |h|;
    assert line[k..k + 1] == [c];
    assert OccursAt(line, [c], k);
    if c !in h {
      forall j | 0 <= j < k
        ensures !OccursAt(line, [c], j)
      {
        assert line[j..j + 1] == [h[j]];
      }
      assert Find(line, [c]).value == k;
      assert line[k + 1..] == t;
    }
  }

  /** A marker that starts with a line break, holds no two line breaks in
      a row and does not end with one. */
  predicate LineMarker(m: string) {
    && |m| >= 2 && m[0] == '\n' && m[|m| - 1] != '\n'
    && forall t :: 0 <= t < |m| - 1 ==> !(m[t] == '\n' && m[t + 1] == '\n')
  }

  /** A line marker is first found right after the line break that follows
      `k` at the start of `s`, when `k` itself does not contain it: no
      occurrence can reach from `k` across that line break. */
  lemma FirstOccurrenceAfterBreak(k: string, m: string, s: string)
    requires LineMarker(m)
    requires !Contains(k, m)
    requires StartsWith(s, k + "\n" + m)
    ensures Find(s, m) == Some(|k| + 1)
    ensures Before(s, m) == k + "\n"
  {
    var q := k + "\n" + m;
    assert s[..|q|] == q;
    assert s[|k| + 1..|k| + 1 + |m|] == q[|k| + 1..] == m;
    assert OccursAt(s, m, |k| + 1);
    forall j | 0 <= j <= |k|
      ensures !OccursAt(s, m, j)
    {
      if j + |m| <= |k| {
        assert s[j..j + |m|] == k[j..j + |m|];
        assert !OccursAt(k, m, j);
      } else {
        var t := |k| - j;
        assert s[j + t] == q[|k|] == '\n';
        assert t + 1 < |m| ==> s[j + t + 1] == q[|k| + 1] == '\n';
      }
    }
    assert s[..|k| + 1] == k + "\n";
  }

  /* ---------------------------------------------------------------- */
  /* Case and whitespace                                               */
  /* ---------------------------------------------------------------- */

  /** ASCII lower-casing of one character. */
  function LowerChar(c: char): char {
    if 'A' <= c <= 'Z' then (c as int + 32) as char else c
  }

  /** `s.lower()` on the ASCII letters (see README for what is left out). */
  function Lower(s: string): (r: string)
    ensures |r| == |s|
  {
    seq(|s|, i requires 0 <= i < |s| => LowerChar(s[i]))
  }

  /** Python's `str.isspace()` for one character: the characters that
      `str.strip()` and `str.rstrip()` remove when given no argument. */
  predicate IsSpace(c: char) {
    || '\U{0009}' <= c <= '\U{000D}'
    || '\U{001C}' <= c <= '\U{0020}'
    || c == '\U{0085}' || c == '\U{00A0}' || c == '\U{1680}'
    || '\U{2000}' <= c <= '\U{200A}'
    || c == '\U{2028}' || c == '\U{2029}' || c == '\U{202F}'
    || c == '\U{205F}' || c == '\U{3000}'
  }

  /** `s.rstrip()`: the longest prefix of `s` that does not end in
      whitespace; everything cut off is whitespace. */
  function RStrip(s: string): (r: string)
    ensures StartsWith(s, r)
    ensures |r| == 0 || !IsSpace(r[|r| - 1])
    ensures forall i :: |r| <= i < |s| ==> IsSpace(s[i])
    decreases |s|
  {
    if |s| > 0 && IsSpace(s[|s| - 1]) then RStrip(s[..|s| - 1]) else s
  }

  /** `s.lstrip()`: the longest suffix of `s` that does not start with
      whitespace; everything cut off is whitespace. */
  function LStrip(s: string): (r: string)
    ensures EndsWith(s, r)
    ensures |r| == 0 || !IsSpace(r[0])
    ensures forall i :: 0 <= i < |s| - |r| ==> IsSpace(s[i])
    decreases |s|
  {
    if |s| > 0 && IsSpace(s[0]) then LStrip(s[1..]) else s
  }

  /** `s.strip()`: a slice `s[a..b]` with only whitespace outside it and no
      whitespace at either of its ends. */
  function Strip(s: string): (r: string)
    ensures exists a, b :: 0 <= a <= b <= |s| && r == s[a..b]
    ensures |r| == 0 || (!IsSpace(r[0]) && !IsSpace(r[|r| - 1]))
  {
    var t := RStrip(s);
    var r := LStrip(t);
    assert r == s[|t| - |r|..|t|];
    r
  }

  /** Stripping a text that starts and ends with a non-space character,
      followed by whitespace only, gives back that text. */
  lemma StripTrailingSpace(x: string, ws: string)
    requires |x| > 0 && !IsSpace(x[0]) && !IsSpace(x[|x| - 1])
    requires forall i :: 0 <= i < |ws| ==> IsSpace(ws[i])
    ensures RStrip(x + ws) == x
    ensures Strip(x + ws) == x
  {
    var s := x + ws;
    var t := RStrip(s);
    assert s[|x| - 1] == x[|x| - 1];
    assert |t| == |x|;
    assert t == s[..|x|] == x;
  }

  /** `rstrip` keeps any prefix that ends in a visible character. */
  lemma RStripKeepsPrefix(s: string, p: string)
    requires StartsWith(s, p) && |p| > 0 && !IsSpace(p[|p| - 1])
    ensures StartsWith(RStrip(s), p)
  {
    var r := RStrip(s);
    assert s[|p| - 1] == p[|p| - 1];
    assert |r| >= |p|;
    assert r[..|p|] == s[..|p|];
  }

  /** Stripping a line break after a text that ends in a visible character
      gives that text back. */
  lemma RStripDropsBreak(x: string)
    requires |x| == 0 || !IsSpace(x[|x| - 1])
    ensures RStrip(x + "\n") == x
  {
    RStripDropsSpaces(x, "\n");
  }

  /** `rstrip` of a text that ends visibly (or is empty), followed by
      whitespace only, gives back that text. */
  lemma RStripDropsSpaces(x: string, ws: string)
    requires |x| == 0 || !IsSpace(x[|x| - 1])
    requires forall i :: 0 <= i < |ws| ==> IsSpace(ws[i])
    ensures RStrip(x + ws) == x
  {
    var s := x + ws;
    var r := RStrip(s);
    if |x| > 0 {
      RStripKeepsPrefix(s, x);
    }
    assert |r| == |x|;
    assert r == s[..|x|] == x;
  }

  /* ---------------------------------------------------------------- */
  /* Line endings                                                      */
  /* ---------------------------------------------------------------- */

  /** What a text-mode read returns for a file holding `s`: Python's
      universal-newlines mode turns each "\r\n" and each lone "\r" into
      "\n". */
  function UniversalNewlines(s: string): (r: string)
    ensures '\r' !in r
    ensures '\r' !in s ==> r == s
    ensures |r| <= |s|
    decreases |s|
  {
    if |s| == 0 then ""
    else if s[0] == '\r' then
      "\n" + UniversalNewlines(if |s| > 1 && s[1] == '\n' then s[2..] else s[1..])
    else
      assert '\r' !in s ==> s == [s[0]] + s[1..];
      [s[0]] + UniversalNewlines(s[1..])
  }

  /* ---------------------------------------------------------------- */
  /* Counting occurrences                                              */
  /* ---------------------------------------------------------------- */

  /** `s.count(p)`: non-overlapping occurrences, scanning left to right. */
  function Count(s: string, p: string): nat
    requires |p| > 0
    decreases |s|
  {
    if |s| < |p| then 0
    else if s[..|p|] == p then 1 + Count(s[|p|..], p)
    else Count(s[1..], p)
  }

  /** `s.count(p)` is positive exactly when `p in s`. */
  lemma {:induction false} CountPositiveIffContains(s: string, p: string)
    requires |p| > 0
    ensures Count(s, p) > 0 <==> Contains(s, p)
    decreases |s|
  {
    if |s| < |p| {
      assert !Contains(s, p);
    } else if s[..|p|] == p {
      assert OccursAt(s, p, 0);
    } else {
      CountPositiveIffContains(s[1..], p);
      if Contains(s, p) {
        var i :| 0 <= i <= |s| - |p| && OccursAt(s, p, i);
        assert i != 0;
        assert s[1..][i - 1..i - 1 + |p|] == s[i..i + |p|];
        assert OccursAt(s[1..], p, i - 1);
      }
      if Contains(s[1..], p) {
        var i :| 0 <= i <= |s[1..]| - |p| && OccursAt(s[1..], p, i);
        assert s[i + 1..i + 1 + |p|] == s[1..][i..i + |p|];
        assert OccursAt(s, p, i + 1);
      }
    }
  }

  /** A string without the first character of `p` holds no occurrence. */
  lemma {:induction false} CountWithoutLead(s: string, p: string)
    requires |p| > 0 && p[0] !in s
    ensures Count(s, p) == 0
    decreases |s|
  {
    if |s| >= |p| {
      assert s[..|p|][0] == s[0];
      CountWithoutLead(s[1..], p);
    }
  }

  /** An occurrence never spans a character that `p` does not contain, so
      the count splits there. */
  lemma {:induction false} CountSplitAt(a: string, c: char, b: string, p: string)
    requires |p| > 0 && c !in p
    ensures Count(a + [c] + b, p) == Count(a, p) + Count(b, p)
    decreases |a|
  {
    var s := a + [c] + b;
    if |s| < |p| {
    } else if |a| < |p| {
      // the window at 0 covers `c`, which `p` lacks
      assert s[..|p|][|a|] == c && p[|a|] != c;
      if |a| == 0 {
        assert s[1..] == b;
      } else {
        assert s[1..] == a[1..] + [c] + b;
        CountSplitAt(a[1..], c, b, p);
      }
    } else if a[..|p|] == p {
      assert s[..|p|] == p;
      assert s[|p|..] == a[|p|..] + [c] + b;
      CountSplitAt(a[|p|..], c, b, p);
    } else {
      assert s[..|p|] == a[..|p|];
      assert s[1..] == a[1..] + [c] + b;
      CountSplitAt(a[1..], c, b, p);
    }
  }

  /** The first position of `c` in `s`. */
  lemma {:induction false} FirstIndexOf(s: string, c: char) returns (i: nat)
    requires c in s
    ensures i < |s| && s[i] == c && c !in s[..i]
    decreases |s|
  {
    if s[0] == c {
      i := 0;
    } else {
      assert c in s[1..];
      var j := FirstIndexOf(s[1..], c);
      i := j + 1;
      assert s[..i] == [s[0]] + s[1..][..j];
    }
  }

  /** Text without "\r" in front passes a text-mode read unchanged. */
  lemma {:induction false} UniversalNewlinesPrefix(x: string, rest: string)
    requires '\r' !in x
    ensures UniversalNewlines(x + rest) == x + UniversalNewlines(rest)
    decreases |x|
  {
    if |x| > 0 {
      assert (x + rest)[0] == x[0];
      assert (x + rest)[1..] == x[1..] + rest;
      UniversalNewlinesPrefix(x[1..], rest);
      assert x == [x[0]] + x[1..];
    } else {
      assert x + rest == rest;
    }
  }

  /** Reading in text mode changes no count of a pattern free of line
      breaks: occurrences never span a "\r" or a "\n". */
  lemma {:induction false} CountUniversalNewlines(s: string, p: string)
    requires |p| > 0 && '\r' !in p && '\n' !in p
    ensures Count(UniversalNewlines(s), p) == Count(s, p)
    decreases |s|
  {
    if '\r' in s {
      var x, rest, b := SplitAtFirstReturn(s);
      var u := UniversalNewlines(b);
      calc {
        Count(UniversalNewlines(s), p);
        Count(x + ['\n'] + u, p);
        { CountUniversalNewlines(b, p);
          CountLineEnd(x, u, rest, b, p); }
        Count(x + ['\r'] + rest, p);
        Count(s, p);
      }
    }
  }

  /** A text holding "\r" is the text `x` before the first one, that
      "\r" and `rest`; the line ending is the "\r" with the "\n" that
      may follow it, and the read continues with `b`. */
  lemma SplitAtFirstReturn(s: string) returns (x: string, rest: string, b: string)
    requires '\r' in s
    ensures '\r' !in x && s == x + ['\r'] + rest
    ensures rest == b || rest == ['\n'] + b
    ensures |b| < |s|
    ensures UniversalNewlines(s) == x + ['\n'] + UniversalNewlines(b)
  {
    var i := FirstIndexOf(s, '\r');
    x := s[..i];
    rest := s[i + 1..];
    b := if |rest| > 0 && rest[0] == '\n' then rest[1..] else rest;
    assert s == x + ['\r'] + rest;
    ReadAtReturn(x, rest, b);
  }

  /** Reading "\r" or "\r\n" after text without "\r" gives "\n". */
  lemma ReadAtReturn(x: string, rest: string, b: string)
    requires '\r' !in x
    requires b == if |rest| > 0 && rest[0] == '\n' then rest[1..] else rest
    ensures UniversalNewlines(x + ['\r'] + rest) == x + ['\n'] + UniversalNewlines(b)
  {
    var tail := ['\r'] + rest;
    var u := UniversalNewlines(b);
    assert UniversalNewlines(tail) == ['\n'] + u by {
      assert tail[0] == '\r';
      if |rest| > 0 && rest[0] == '\n' {
        assert tail[1] == '\n' && tail[2..] == b;
      } else {
        assert tail[1..] == b;
      }
    }
    calc {
      UniversalNewlines(x + ['\r'] + rest);
      { assert x + ['\r'] + rest == x + tail; }
      UniversalNewlines(x + tail);
      { UniversalNewlinesPrefix(x, tail); }
      x + UniversalNewlines(tail);
      x + (['\n'] + u);
      x + ['\n'] + u;
    }
  }

  /** The step of `CountUniversalNewlines` at a line ending: "\r" or
      "\r\n" before `b` counts as "\n" before a text `u` that counts as
      `b` does. */
  lemma CountLineEnd(a: string, u: string, rest: string, b: string, p: string)
    requires |p| > 0 && '\r' !in p && '\n' !in p
    requires Count(u, p) == Count(b, p)
    requires rest == b || rest == ['\n'] + b
    ensures Count(a + ['\n'] + u, p) == Count(a + ['\r'] + rest, p)
  {
    CountSplitAt(a, '\n', u, p);
    CountSplitAt(a, '\r', rest, p);
    if rest != b {
      assert rest == "" + ['\n'] + b;
      CountSplitAt("", '\n', b, p);
    }
  }

  /** No character of `p` is whitespace. */
  predicate NoSpaceIn(p: string) {
    forall i :: 0 <= i < |p| ==> !IsSpace(p[i])
  }

  /** Leading whitespace holds no occurrence of a pattern that does not
      start with whitespace. */
  lemma {:induction false} CountLeadingSpaces(ws: string, r: string, p: string)
    requires |p| > 0 && !IsSpace(p[0])
    requires forall i :: 0 <= i < |ws| ==> IsSpace(ws[i])
    ensures Count(ws + r, p) == Count(r, p)
    decreases |ws|
  {
    var s := ws + r;
    if |ws| > 0 && |s| >= |p| {
      assert s[..|p|][0] == ws[0];
      assert s[1..] == ws[1..] + r;
      CountLeadingSpaces(ws[1..], r, p);
    } else if |ws| == 0 {
      assert s == r;
    }
  }

  /** Trailing whitespace holds no occurrence of a whitespace-free
      pattern and no occurrence reaches into it. */
  lemma CountTrailingSpaces(r: string, ws: string, p: string)
    requires |p| > 0 && NoSpaceIn(p)
    requires forall i :: 0 <= i < |ws| ==> IsSpace(ws[i])
    ensures Count(r + ws, p) == Count(r, p)
  {
    if |ws| == 0 {
      assert r + ws == r;
    } else {
      assert ws[0] !in p;
      assert r + ws == r + [ws[0]] + ws[1..];
      CountSplitAt(r, ws[0], ws[1..], p);
      CountWithoutLead(ws[1..], p);
    }
  }

  /** `s.strip().count(p) == s.count(p)` for a whitespace-free `p`. */
  lemma StripKeepsCount(s: string, p: string)
    requires |p| > 0 && NoSpaceIn(p)
    ensures Count(Strip(s), p) == Count(s, p)
  {
    var t := RStrip(s);
    var r := LStrip(t);
    assert s == t + s[|t|..];
    CountTrailingSpaces(t, s[|t|..], p);
    assert t == t[..|t| - |r|] + r;
    CountLeadingSpaces(t[..|t| - |r|], r, p);
  }

  /* ---------------------------------------------------------------- */
  /* Decimal numerals                                                  */
  /* ---------------------------------------------------------------- */

  predicate IsDigit(c: char) {
    '0' <= c <= '9'
  }

  predicate AllDigits(s: string) {
    forall i :: 0 <= i < |s| ==> IsDigit(s[i])
  }

  /** The value of a string of decimal digits, most significant first. */
  function DigitsValue(s: string): nat
    requires AllDigits(s)
    decreases |s|
  {
    if |s| == 0 then 0
    else 10 * DigitsValue(s[..|s| - 1]) + (s[|s| - 1] as int - '0' as int)
  }

  /** `int(s)` restricted to non-empty ASCII digit strings; any other text
      is rejected, as `int()` raises on it. */
  function ParseDecimal(s: string): (r: Option<nat>)
    ensures r.Some? <==> |s| > 0 && AllDigits(s)
  {
    if |s| > 0 && AllDigits(s) then Some(DigitsValue(s)) else None
  }

  /** `str(n)`, the decimal rendering used in f-strings. */
  function ShowNat(n: nat): (r: string)
    ensures |r| > 0 && AllDigits(r)
    decreases n
  {
    var d := [('0' as int + n % 10) as char];
    if n < 10 then d else ShowNat(n / 10) + d
  }

  /** Reading back a rendered number gives the number. */
  lemma {:induction false} ParseShowNat(n: nat)
    ensures ParseDecimal(ShowNat(n)) == Some(n)
    decreases n
  {
    var s := ShowNat(n);
    var d := [('0' as int + n % 10) as char];
    if n >= 10 {
      ParseShowNat(n / 10);
      assert s == ShowNat(n / 10) + d;
      assert s[..|s| - 1] == ShowNat(n / 10);
      assert DigitsValue(s) == 10 * (n / 10) + n % 10;
    } else {
      assert s == d && s[..0] == [];
      assert DigitsValue(s) == n;
    }
  }

  /* ---------------------------------------------------------------- */
  /* Ordering                                                          */
  /* ---------------------------------------------------------------- */

  /** Python's `a < b` on strings: lexicographic by code point, a proper
      prefix first. */
  predicate StrLess(a: string, b: string)
    decreases |a|
  {
    if |a| == 0 then |b| > 0
    else if |b| == 0 then false
    else if a[0] != b[0] then a[0] < b[0]
    else StrLess(a[1..], b[1..])
  }

  lemma {:induction false} StrLessIrreflexive(a: string)
    ensures !StrLess(a, a)
    decreases |a|
  {
    if |a| > 0 {
      StrLessIrreflexive(a[1..]);
    }
  }

  lemma {:induction false} StrLessTrichotomy(a: string, b: string)
    ensures StrLess(a, b) || a == b || StrLess(b, a)
    ensures !(StrLess(a, b) && StrLess(b, a))
    decreases |a|
  {
    if |a| > 0 && |b| > 0 && a[0] == b[0] {
      StrLessTrichotomy(a[1..], b[1..]);
      if a[1..] == b[1..] {
        assert a == [a[0]] + a[1..] && b == [b[0]] + b[1..];
      }
    }
  }

  lemma {:induction false} StrLessTransitive(a: string, b: string, c: string)
    requires StrLess(a, b) && StrLess(b, c)
    ensures StrLess(a, c)
    decreases |a|
  {
    if |a| > 0 && a[0] == b[0] && b[0] == c[0] {
      StrLessTransitive(a[1..], b[1..], c[1..]);
    }
  }
}
