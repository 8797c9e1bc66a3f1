/** `fetch_stream` of LITV_TWTV_AutoUpdate.py: the candidate filter, the
    de-duplication through a `set`, the quality-key sort, and the loop of
    at most three capture attempts that ends at the first saved stream
    list.  Each attempt's capture is an input of the model. */
module TwtvFetch {

  import opened Text
  import opened Seqs
  import opened Capture

  /* ---------------------------------------------------------------- */
  /* Filter, de-duplication and ranking                                */
  /* ---------------------------------------------------------------- */

  /** The advertisement test: "ad" or "ads" in the lower-cased URL. */
  predicate IsAdUrl(url: string) {
    Contains(Lower(url), "ad") || Contains(Lower(url), "ads")
  }

  /** A request whose URL may be saved: it had a response, names an
      `.m3u8` manifest and is not an advertisement. */
  predicate Admissible(r: Request) {
    r.hasResponse && Contains(r.url, ".m3u8") && !IsAdUrl(r.url)
  }

  /** Some admissible request has URL `u`. */
  predicate AdmittedIn(reqs: seq<Request>, u: string) {
    exists k | 0 <= k < |reqs| :: reqs[k].url == u && Admissible(reqs[k])
  }

  /** The `streams` list comprehension: admissible URLs in observation
      order, duplicates included. */
  function AdmittedUrls(reqs: seq<Request>): (r: seq<string>)
    ensures forall u :: u in r <==> AdmittedIn(reqs, u)
    decreases |reqs|
  {
    if |reqs| == 0 then []
    else
      var rest := AdmittedUrls(reqs[1..]);
      assert forall u :: AdmittedIn(reqs, u) <==>
        (reqs[0].url == u && Admissible(reqs[0])) || AdmittedIn(reqs[1..], u) by {
        forall u
          ensures AdmittedIn(reqs, u) <==> (reqs[0].url == u && Admissible(reqs[0])) || AdmittedIn(reqs[1..], u)
        {
          if AdmittedIn(reqs[1..], u) {
            var k :| 0 <= k < |reqs[1..]| && reqs[1..][k].url == u && Admissible(reqs[1..][k]);
            assert reqs[k + 1] == reqs[1..][k];
          }
          if AdmittedIn(reqs, u) && !(reqs[0].url == u && Admissible(reqs[0])) {
            var k :| 0 <= k < |reqs| && reqs[k].url == u && Admissible(reqs[k]);
            assert k > 0 && reqs[1..][k - 1] == reqs[k];
          }
        }
      }
      (if Admissible(reqs[0]) then [reqs[0].url] else []) + rest
  }

  /** The sort key: the URL names a 4 Mb/s or 3 Mb/s rendition or carries
      a (case-sensitive) "hd". */
  predicate IsQualityUrl(u: string) {
    Contains(u, "4000000") || Contains(u, "3000000") || Contains(u, "hd")
  }

  /** `sorted(pool, key=IsQualityUrl, reverse=True)`: Python's sort is
      stable also when reversed, so the quality URLs come first and each
      group keeps the order it had in `pool`. */
  function RankByQuality(pool: seq<string>): (r: seq<string>)
    ensures multiset(r) == multiset(pool)
    ensures forall i, j :: 0 <= i < j < |r| && IsQualityUrl(r[j]) ==> IsQualityUrl(r[i])
  {
    var hi := Filter(pool, IsQualityUrl);
    var lo := Filter(pool, u => !IsQualityUrl(u));
    FilterSplitsMultiset(pool, IsQualityUrl, u => !IsQualityUrl(u));
    GroupsOrdered(hi, lo);
    hi + lo
  }

  /** A quality group followed by an other group puts every quality URL
      first. */
  lemma GroupsOrdered(hi: seq<string>, lo: seq<string>)
    requires forall u :: u in hi ==> IsQualityUrl(u)
    requires forall u :: u in lo ==> !IsQualityUrl(u)
    ensures forall i, j :: 0 <= i < j < |hi + lo| && IsQualityUrl((hi + lo)[j]) ==> IsQualityUrl((hi + lo)[i])
  {
    var r := hi + lo;
    forall i, j | 0 <= i < j < |r| && IsQualityUrl(r[j])
      ensures IsQualityUrl(r[i])
    {
      if j < |hi| {
        assert r[i] == hi[i] && r[i] in hi;
      }
    }
  }

  /** Two duplicate-free sequences with no element in common concatenate
      to a duplicate-free sequence. */
  lemma DisjointConcatNoDuplicates(hi: seq<string>, lo: seq<string>)
    requires NoDuplicates(hi) && NoDuplicates(lo)
    requires forall u :: u in hi ==> u !in lo
    ensures NoDuplicates(hi + lo)
  {
    var r := hi + lo;
    forall i, j | 0 <= i < j < |r|
      ensures r[i] != r[j]
    {
      if j < |hi| {
        assert r[i] == hi[i] && r[j] == hi[j];
      } else if i >= |hi| {
        assert r[i] == lo[i - |hi|] && r[j] == lo[j - |hi|];
      } else {
        assert r[i] == hi[i] && r[i] in hi;
        assert r[j] == lo[j - |hi|] && r[j] in lo;
      }
    }
  }

  /** The ranking keeps a duplicate-free pool duplicate-free. */
  lemma RankByQualityKeepsDistinct(pool: seq<string>)
    ensures NoDuplicates(pool) ==> NoDuplicates(RankByQuality(pool))
  {
    var hi := Filter(pool, IsQualityUrl);
    var lo := Filter(pool, u => !IsQualityUrl(u));
    assert RankByQuality(pool) == hi + lo;
    if NoDuplicates(pool) {
      FilterNoDuplicates(pool, IsQualityUrl);
      FilterNoDuplicates(pool, u => !IsQualityUrl(u));
      DisjointConcatNoDuplicates(hi, lo);
    }
  }

  /** The sort is stable: restricted to either key value, the ranking
      lists the URLs in their pool order. */
  lemma RankByQualityIsStable(pool: seq<string>)
    ensures Filter(RankByQuality(pool), IsQualityUrl) == Filter(pool, IsQualityUrl)
    ensures Filter(RankByQuality(pool), u => !IsQualityUrl(u)) == Filter(pool, u => !IsQualityUrl(u))
  {
    var hi := Filter(pool, IsQualityUrl);
    var lo := Filter(pool, u => !IsQualityUrl(u));
    assert RankByQuality(pool) == hi + lo;
    FilterConcat(hi, lo, IsQualityUrl);
    FilterConcat(hi, lo, u => !IsQualityUrl(u));
    FilterKeepsAll(hi, IsQualityUrl);
    FilterKeepsNone(lo, IsQualityUrl);
    FilterKeepsNone(hi, u => !IsQualityUrl(u));
    FilterKeepsAll(lo, u => !IsQualityUrl(u));
  }

  /** The saved list: `sorted(set(streams), ...)`, where `setOrder` is the
      order in which the `set` happens to be iterated.  Every saved URL had
      a response, names an `.m3u8` and is no advertisement; every such URL
      is saved, once; quality URLs come first. */
  function SelectStreams(reqs: seq<Request>, setOrder: seq<string>): (r: seq<string>)
    requires Enumerates(setOrder, AdmittedUrls(reqs))
    ensures forall u :: u in r <==> AdmittedIn(reqs, u)
    ensures NoDuplicates(r)
    ensures multiset(r) == multiset(setOrder)
    ensures forall i, j :: 0 <= i < j < |r| && IsQualityUrl(r[j]) ==> IsQualityUrl(r[i])
    ensures |r| == 0 <==> |AdmittedUrls(reqs)| == 0
  {
    RankByQualityKeepsDistinct(setOrder);
    var r := RankByQuality(setOrder);
    assert forall u :: u in r <==> u in multiset(setOrder);
    assert |AdmittedUrls(reqs)| > 0 ==> AdmittedUrls(reqs)[0] in setOrder;
    r
  }

  /** One deterministic choice of `setOrder` (first occurrences) meets the
      precondition, so every capture has a selection. */
  lemma FirstOccurrenceOrderIsASetOrder(reqs: seq<Request>)
    ensures Enumerates(Dedupe(AdmittedUrls(reqs)), AdmittedUrls(reqs))
  {
  }

  /** The `"ads"` test adds nothing to the `"ad"` test. */
  lemma AdsImpliesAd(s: string)
    requires Contains(s, "ads")
    ensures Contains(s, "ad")
  {
    var i :| 0 <= i <= |s| - 3 && OccursAt(s, "ads", i);
    assert s[i..i + 2] == s[i..i + 3][..2];
    assert OccursAt(s, "ad", i);
  }

  /* ---------------------------------------------------------------- */
  /* The retry loop                                                    */
  /* ---------------------------------------------------------------- */

  const MaxAttempts: nat := 3

  /** What one pass of the loop body meets: an exception before anything
      is saved, or a capture together with the set order it produces and
      whether `save_stream` raises when it is called. */
  datatype Attempt =
    | Raised
    | Captured(requests: seq<Request>, setOrder: seq<string>, saveRaises: bool)

  /** The set order of a capture enumerates its admitted URLs. */
  predicate WellFormed(a: Attempt) {
    a.Captured? ==> Enumerates(a.setOrder, AdmittedUrls(a.requests))
  }

  predicate AllWellFormed(attempts: seq<Attempt>) {
    forall k :: 0 <= k < |attempts| ==> WellFormed(attempts[k])
  }

  /** What the loop body makes of an attempt: no `save_stream` call (the
      capture raised or selected nothing), or a call with the selected
      stream list, together with whether that call raises. */
  datatype Pass = NoSave | Save(streams: seq<string>, raises: bool)

  /** The pass an attempt makes: it saves exactly when the capture went
      through and admitted some URL, and it saves the selection. */
  function PassOf(a: Attempt): (p: Pass)
    requires WellFormed(a)
    ensures p.Save? <==> a.Captured? && |AdmittedUrls(a.requests)| > 0
    ensures p.Save? ==> p.streams == SelectStreams(a.requests, a.setOrder) && |p.streams| > 0
    ensures p.Save? ==> p.raises == a.saveRaises
  {
    if a.Raised? then NoSave
    else
      var streams := SelectStreams(a.requests, a.setOrder);
      if |streams| > 0 then Save(streams, a.saveRaises) else NoSave
  }

  /** The passes of a run of attempts, in order. */
  function Passes(attempts: seq<Attempt>): (r: seq<Pass>)
    requires AllWellFormed(attempts)
    ensures |r| == |attempts|
    ensures forall k :: 0 <= k < |attempts| ==> r[k] == PassOf(attempts[k])
  {
    seq(|attempts|, k requires 0 <= k < |attempts| => PassOf(attempts[k]))
  }

  /** The pass returns True: it saves, and the save does not raise. */
  predicate Succeeds(p: Pass) {
    p.Save? && !p.raises
  }

  /** The arguments of the `save_stream` calls made by some passes, in
      order. */
  function SaveLog(passes: seq<Pass>): seq<seq<string>>
    decreases |passes|
  {
    if |passes| == 0 then []
    else
      var last := passes[|passes| - 1];
      SaveLog(passes[..|passes| - 1]) + (if last.Save? then [last.streams] else [])
  }

  /** No `save_stream` call raises. */
  predicate NeverRaises(passes: seq<Pass>) {
    forall k :: 0 <= k < |passes| ==> !(passes[k].Save? && passes[k].raises)
  }

  /** One more pass adds its save, if it makes one, to the log. */
  lemma SaveLogStep(passes: seq<Pass>, n: nat)
    requires n < |passes|
    ensures SaveLog(passes[..n + 1]) == SaveLog(passes[..n]) + (if passes[n].Save? then [passes[n].streams] else [])
  {
    assert passes[..n + 1][..n] == passes[..n];
    assert passes[..n + 1][n] == passes[n];
  }

  /** None of the first `n` passes succeeds. */
  predicate NoneSucceeds(passes: seq<Pass>, n: nat)
    requires n <= |passes|
  {
    forall k :: 0 <= k < n ==> !Succeeds(passes[k])
  }

  /** The loop of `fetch_stream` over the passes of its attempts: at most
      three; it returns True at the first pass whose save goes through,
      having called `save_stream` once per pass that saves; when no save
      raises, that is exactly one call on success and none on failure. */
  method FetchStream(passes: seq<Pass>) returns (ok: bool, made: nat, saves: seq<seq<string>>)
    requires |passes| >= MaxAttempts
    ensures 1 <= made <= MaxAttempts
    ensures ok <==> exists k :: 0 <= k < MaxAttempts && Succeeds(passes[k])
    ensures ok ==> Succeeds(passes[made - 1])
    ensures NoneSucceeds(passes, made - 1)
    ensures !ok ==> made == MaxAttempts
    ensures saves == SaveLog(passes[..made])
    ensures NeverRaises(passes) ==> |saves| == (if ok then 1 else 0)
  {
    ghost var neverRaises := NeverRaises(passes);
    ok := false;
    made := 0;
    saves := [];
    while made < MaxAttempts && !ok
      invariant 0 <= made <= MaxAttempts
      invariant !ok ==> NoneSucceeds(passes, made)
      invariant ok ==> 1 <= made && Succeeds(passes[made - 1]) && NoneSucceeds(passes, made - 1)
      invariant saves == SaveLog(passes[..made])
      invariant neverRaises ==> |saves| == (if ok then 1 else 0)
    {
      var p := passes[made];
      SaveLogStep(passes, made);
      if p.Save? {
        saves := saves + [p.streams];
        ok := !p.raises;
      }
      made := made + 1;
    }
  }
}
