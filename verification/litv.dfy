/** `LITV.py`: among the intercepted `avc1_` renditions of a channel, the
    one with the highest bitrate (ties going to the greatest URL) is saved
    as a one-entry playlist. */
module Litv {

  import opened Wrappers
  import opened Text
  import opened Lines
  import opened M3u
  import opened Capture

  const AvcMarker: string := "avc1_"

  /** `r.response and ".m3u8" in r.url and "avc1_" in r.url` */
  predicate IsAvcRequest(r: Request) {
    r.hasResponse && Contains(r.url, ".m3u8") && Contains(r.url, AvcMarker)
  }

  /** `url.split("avc1_")[1].split("=")[0]`: the text after the first
      `avc1_`, up to the next `avc1_` and then up to the first `=`. */
  function BitrateToken(url: string): (r: string)
    requires Contains(url, AvcMarker)
    ensures StartsWith(After(url, AvcMarker), r)
    ensures !Contains(r, AvcMarker) && !Contains(r, "=")
    ensures !Contains(After(url, AvcMarker), AvcMarker) && !Contains(After(url, AvcMarker), "=")
            ==> r == After(url, AvcMarker)
  {
    var rest := After(url, AvcMarker);
    var piece := Before(rest, AvcMarker);
    var token := Before(piece, "=");
    BeforeHasNoSep(rest, AvcMarker);
    BeforeHasNoSep(piece, "=");
    ContainsExtends(token, piece, AvcMarker);
    assert rest[..|token|] == piece[..|token|];
    token
  }

  /** `int(token)`, or `None` where `int` raises. */
  function Bitrate(url: string): Option<nat>
    requires Contains(url, AvcMarker)
  {
    ParseDecimal(BitrateToken(url))
  }

  /** The request is kept as a candidate: the `try` around the parse does
      not skip it. */
  predicate Parses(r: Request) {
    IsAvcRequest(r) && Bitrate(r.url).Some?
  }

  /** The candidate tuple of a request that parses. */
  function Tuple(r: Request): (int, string)
    requires Parses(r)
  {
    (Bitrate(r.url).value, r.url)
  }

  /** Some request that parses has tuple `c`. */
  predicate CandidateIn(reqs: seq<Request>, c: (int, string)) {
    exists k | 0 <= k < |reqs| :: Parses(reqs[k]) && c == Tuple(reqs[k])
  }

  /** `candidates`: `(bitrate, url)` for every request that parses, in
      observation order. */
  function Candidates(reqs: seq<Request>): (r: seq<(int, string)>)
    ensures forall c :: c in r <==> CandidateIn(reqs, c)
    decreases |reqs|
  {
    if |reqs| == 0 then []
    else
      var rest := Candidates(reqs[1..]);
      assert forall c :: CandidateIn(reqs, c) <==>
        (Parses(reqs[0]) && c == Tuple(reqs[0])) || CandidateIn(reqs[1..], c) by {
        forall c
          ensures CandidateIn(reqs, c) <==> (Parses(reqs[0]) && c == Tuple(reqs[0])) || CandidateIn(reqs[1..], c)
        {
          if CandidateIn(reqs[1..], c) {
            var k :| 0 <= k < |reqs[1..]| && Parses(reqs[1..][k]) && c == Tuple(reqs[1..][k]);
            assert reqs[k + 1] == reqs[1..][k];
          }
          if CandidateIn(reqs, c) {
            var k :| 0 <= k < |reqs| && Parses(reqs[k]) && c == Tuple(reqs[k]);
            if k > 0 {
              assert reqs[1..][k - 1] == reqs[k];
            }
          }
        }
      }
      (if Parses(reqs[0]) then [Tuple(reqs[0])] else []) + rest
  }

  /** Python's tuple order on `(bitrate, url)`. */
  predicate TupleLess(a: (int, string), b: (int, string)) {
    a.0 < b.0 || (a.0 == b.0 && StrLess(a.1, b.1))
  }

  lemma TupleLessTrichotomy(a: (int, string), b: (int, string))
    ensures TupleLess(a, b) || a == b || TupleLess(b, a)
    ensures !(TupleLess(a, b) && TupleLess(b, a))
  {
    StrLessTrichotomy(a.1, b.1);
  }

  lemma TupleLessTransitive(a: (int, string), b: (int, string), c: (int, string))
    requires TupleLess(a, b) && TupleLess(b, c)
    ensures TupleLess(a, c)
  {
    if a.0 == b.0 && b.0 == c.0 {
      StrLessTransitive(a.1, b.1, c.1);
    }
  }

  /** `x` is a greatest element of `cs`. */
  predicate IsGreatest(cs: seq<(int, string)>, x: (int, string)) {
    x in cs && forall c :: c in cs ==> c == x || TupleLess(c, x)
  }

  /** `candidates.sort(reverse=True)` followed by `candidates[0]`: the
      greatest tuple. */
  function Greatest(cs: seq<(int, string)>): (r: (int, string))
    requires |cs| > 0
    ensures IsGreatest(cs, r)
    decreases |cs|
  {
    if |cs| == 1 then cs[0]
    else
      var rest := Greatest(cs[1..]);
      assert cs == [cs[0]] + cs[1..];
      TupleLessTrichotomy(cs[0], rest);
      if TupleLess(cs[0], rest) then rest
      else
        assert forall c :: c in cs[1..] ==> c == cs[0] || TupleLess(c, cs[0]) by {
          forall c | c in cs[1..]
            ensures c == cs[0] || TupleLess(c, cs[0])
          {
            if c != rest && rest != cs[0] {
              TupleLessTransitive(c, rest, cs[0]);
            }
          }
        }
        cs[0]
  }

  /** The greatest tuple is unique, so the choice does not depend on the
      sort's treatment of equal elements. */
  lemma GreatestIsUnique(cs: seq<(int, string)>, x: (int, string))
    requires IsGreatest(cs, x)
    ensures |cs| > 0 && x == Greatest(cs)
  {
    var g := Greatest(cs);
    TupleLessTrichotomy(x, g);
  }

  /** The title written for the channel. */
  function HdTitle(name: string): string {
    name + "（高清）"
  }

  /** `fetch_hd_stream` after the page has loaded: nothing is written
      when no request parses; otherwise the URL of greatest bitrate, ties
      going to the greatest URL, is written as a one-entry playlist. */
  function FetchHdStream(name: string, reqs: seq<Request>): (r: Option<ChannelFile>)
    ensures r.None? <==> forall k :: 0 <= k < |reqs| ==> !Parses(reqs[k])
    ensures r.Some? ==>
      exists k :: 0 <= k < |reqs| && Parses(reqs[k]) && reqs[k].url == r.value.url
        && forall j :: 0 <= j < |reqs| && Parses(reqs[j]) ==>
             Tuple(reqs[j]) == Tuple(reqs[k]) || TupleLess(Tuple(reqs[j]), Tuple(reqs[k]))
  {
    var candidates := Candidates(reqs);
    NoCandidates(reqs);
    if |candidates| == 0 then None
    else
      var best := Greatest(candidates);
      BestRequest(reqs, best);
      Some(ChannelFile(best.1, "#EXTM3U\n#EXTINF:-1," + HdTitle(name) + "\n" + best.1 + "\n"))
  }

  /** There are no candidates exactly when no request parses. */
  lemma NoCandidates(reqs: seq<Request>)
    ensures |Candidates(reqs)| == 0 <==> forall k :: 0 <= k < |reqs| ==> !Parses(reqs[k])
  {
    if |Candidates(reqs)| == 0 {
      forall k | 0 <= k < |reqs| && Parses(reqs[k])
        ensures false
      {
        assert CandidateIn(reqs, Tuple(reqs[k]));
      }
    } else {
      assert CandidateIn(reqs, Candidates(reqs)[0]);
    }
  }

  /** The greatest candidate comes from a parsing request whose tuple is at
      least that of every other parsing request. */
  lemma BestRequest(reqs: seq<Request>, best: (int, string))
    requires IsGreatest(Candidates(reqs), best)
    ensures exists k :: (0 <= k < |reqs| && Parses(reqs[k]) && reqs[k].url == best.1
        && forall j :: 0 <= j < |reqs| && Parses(reqs[j]) ==>
             Tuple(reqs[j]) == Tuple(reqs[k]) || TupleLess(Tuple(reqs[j]), Tuple(reqs[k])))
  {
    var cs := Candidates(reqs);
    assert CandidateIn(reqs, best);
    var k :| 0 <= k < |reqs| && Parses(reqs[k]) && best == Tuple(reqs[k]);
    forall j | 0 <= j < |reqs| && Parses(reqs[j])
      ensures Tuple(reqs[j]) == best || TupleLess(Tuple(reqs[j]), best)
    {
      var c := Tuple(reqs[j]);
      assert CandidateIn(reqs, c);
      assert c in cs;
    }
    assert reqs[k].url == best.1;
  }

  /** The written file reads back as one entry, titled with the channel
      name and `（高清）`, pointing at the chosen URL. */
  lemma {:induction false} FetchHdStreamFileReadsBack(name: string, reqs: seq<Request>)
    requires FetchHdStream(name, reqs).Some?
    requires '\n' !in name && ',' !in name
    requires forall k :: 0 <= k < |reqs| ==> '\n' !in reqs[k].url
    ensures var f := FetchHdStream(name, reqs).value;
      ReadEntries(Split(f.text, '\n')) == [(HdTitle(name), f.url)]
  {
    var f := FetchHdStream(name, reqs).value;
    assert '\n' !in f.url by {
      var k :| 0 <= k < |reqs| && Parses(reqs[k]) && reqs[k].url == f.url;
    }
    assert f.text == "#EXTM3U\n#EXTINF:-1," + HdTitle(name) + "\n" + f.url + "\n" by {
      var best := Greatest(Candidates(reqs));
      assert f == ChannelFile(best.1, "#EXTM3U\n#EXTINF:-1," + HdTitle(name) + "\n" + best.1 + "\n");
    }
    PlainEntryFile(HdTitle(name), f.url);
  }

  /** When `pre` has no `avc1_`, the first `avc1_` of
      `pre + "avc1_" + rest` is the one after `pre`: an occurrence that
      began inside `pre` and reached past it would need a `_` among the
      first four characters of `avc1_`. */
  lemma {:induction false} AfterFirstMarker(pre: string, rest: string)
    requires !Contains(pre, AvcMarker)
    ensures Contains(pre + AvcMarker + rest, AvcMarker)
    ensures After(pre + AvcMarker + rest, AvcMarker) == rest
  {
    var url := pre + AvcMarker + rest;
    assert url[|pre|..|pre| + |AvcMarker|] == AvcMarker;
    assert OccursAt(url, AvcMarker, |pre|);
    forall j | 0 <= j < |pre|
      ensures !OccursAt(url, AvcMarker, j)
    {
      if j + |AvcMarker| <= |url| {
        if j + |AvcMarker| <= |pre| {
          assert !OccursAt(pre, AvcMarker, j);
          assert url[j..j + |AvcMarker|] == pre[j..j + |AvcMarker|];
        } else {
          assert url[j..j + |AvcMarker|][4] == url[j + 4];
          assert url[j + 4] == AvcMarker[j + 4 - |pre|];
        }
      }
    }
    assert Find(url, AvcMarker) == Some(|pre|);
  }

  /** The token of `<digits>=<post>` is the digits. */
  lemma {:induction false} TokenOfDigits(digits: string, post: string)
    requires AllDigits(digits)
    ensures Before(Before(digits + "=" + post, AvcMarker), "=") == digits
  {
    var rest := digits + "=" + post;
    var x := Before(rest, AvcMarker);
    assert StartsWith(x, digits + "=") by {
      forall j | 0 <= j <= |digits| && j + |AvcMarker| <= |rest|
        ensures !OccursAt(rest, AvcMarker, j)
      {
        assert rest[j..j + |AvcMarker|][0] == rest[j];
        if j < |digits| {
          assert rest[j] == digits[j] && IsDigit(digits[j]);
        } else {
          assert rest[j] == '=';
        }
      }
      match Find(rest, AvcMarker)
      case None =>
      case Some(i) =>
        assert i > |digits|;
        assert x == rest[..i];
        assert rest[..|digits| + 1] == digits + "=";
    }
    assert x[..|digits|] == digits && x[|digits|] == '=' by {
      assert x[..|digits| + 1] == digits + "=";
    }
    forall j | 0 <= j < |digits|
      ensures !OccursAt(x, "=", j)
    {
      assert x[j..j + 1][0] == x[j] == digits[j];
    }
    assert OccursAt(x, "=", |digits|);
    assert Find(x, "=") == Some(|digits|);
  }

  /** A rendition URL `<pre>avc1_<n>=<post>` has bitrate `n`, provided
      the `avc1_` shown is the first one. */
  lemma BitrateOfRendition(pre: string, n: nat, post: string)
    requires !Contains(pre, AvcMarker)
    ensures Contains(pre + AvcMarker + ShowNat(n) + "=" + post, AvcMarker)
    ensures Bitrate(pre + AvcMarker + ShowNat(n) + "=" + post) == Some(n)
  {
    var rest := ShowNat(n) + "=" + post;
    assert pre + AvcMarker + ShowNat(n) + "=" + post == pre + AvcMarker + rest;
    AfterFirstMarker(pre, rest);
    TokenOfDigits(ShowNat(n), post);
    ParseShowNat(n);
  }
}
