/** Properties of finished `get_leadearboard` calls (`Hackerrank.IsRun`):
    what an empty first `total` gives, why pages below `total` must be
    non-empty, what a well-behaved leaderboard yields and how many requests
    it takes, and how whole pages can overshoot `total`. */
module LeaderboardFacts {
  import opened Wrappers
  import Templates
  import opened Hackerrank

  function Min(a: int, b: int): int {
    if a <= b then a else b
  }

  /** `ceil(n / d)` for a non-negative `n` and a positive `d`. */
  function CeilDiv(n: nat, d: nat): nat
    requires d > 0
  {
    (n + d - 1) / d
  }

  /** A first `total` of zero (or less) gives an empty list after the single
      initial request. */
  lemma NoTotalNoHackers(pages: int -> Response,
                         requested: seq<int>, r: Result<seq<Hacker>, KeyError>)
    requires FirstTotal(pages) <= 0
    requires IsRun(pages, requested, r)
    ensures requested == [0]
    ensures r == Success([])
  {
    OffsetAt(pages, requested, 0);
    assert requested[..0] == [];
    assert |requested| == 1;
    assert requested[..|requested| - 1] == [];
  }

  /** From an empty page on, every later request repeats the same offset. */
  lemma {:induction false} Stalls(pages: int -> Response,
                                  requested: seq<int>, k: nat, j: nat)
    requires OffsetsFollowPages(pages, requested)
    requires k <= j < |requested|
    requires |PageAt(pages, requested[k])| == 0
    ensures requested[j] == requested[k]
    decreases j - k
  {
    if j > k {
      Stalls(pages, requested, k, j - 1);
      var before := requested[..j];
      OffsetAt(pages, requested, j);
      OffsetAt(pages, requested, j - 1);
      assert before[..j - 1] == requested[..j - 1];
      assert before[j - 1] == requested[j - 1];
      assert Fetched(pages, before)
          == Fetched(pages, before[..j - 1]) + PageAt(pages, before[j - 1]);
    }
  }

  /** A run whose k-th page is empty ends at that same offset, and its last
      page adds nothing. */
  lemma StalledRun(pages: int -> Response,
                   requested: seq<int>, r: Result<seq<Hacker>, KeyError>, k: nat)
    requires IsRun(pages, requested, r)
    requires k < |requested|
    requires |PageAt(pages, requested[k])| == 0
    ensures requested[|requested| - 1] == requested[k]
    ensures Fetched(pages, requested) == Fetched(pages, requested[..|requested| - 1])
  {
    var n := |requested|;
    Stalls(pages, requested, k, n - 1);
    FetchedLast(pages, requested);
    assert PageAt(pages, requested[n - 1]) == [];
  }

  /** No finished call ever consumed an empty page: an empty page below
      `total` makes no progress, so the loop would request it forever. */
  lemma UsedPagesNonEmpty(pages: int -> Response,
                          requested: seq<int>, r: Result<seq<Hacker>, KeyError>)
    requires IsRun(pages, requested, r)
    ensures forall k :: 0 <= k < |requested| - 1 ==> |PageAt(pages, requested[k])| > 0
    ensures r.Failure? ==> |PageAt(pages, requested[|requested| - 1])| > 0
  {
    var n := |requested|;
    var last: nat := n - 1;
    forall k | 0 <= k < n - 1
      ensures |PageAt(pages, requested[k])| > 0
    {
      if |PageAt(pages, requested[k])| == 0 {
        StalledRun(pages, requested, r, k);
        assert false;
      }
    }
    if r.Failure? && |PageAt(pages, requested[last])| == 0 {
      StalledRun(pages, requested, r, last);
      assert false;
    }
  }

  // ---------------------------------------------------------------------
  // A well-behaved leaderboard
  // ---------------------------------------------------------------------

  /** What a well-behaved leaderboard serves for `(offset, limit)`: the
      entries of `corpus` from `offset` on, at most `limit` of them. */
  function Slice(corpus: seq<RawHacker>, offset: int, limit: int): seq<RawHacker>
  {
    if offset < 0 || limit <= 0 || offset >= |corpus| then [] else corpus[offset..Min(offset + limit, |corpus|)]
  }

  /** `pages` behaves like a leaderboard that holds exactly `corpus` and does
      not change between requests: `total` is `|corpus|` and every offset
      inside the corpus gets its slice. */
  ghost predicate ServesCorpus(pages: int -> Response, limit: int, corpus: seq<RawHacker>)
  {
    && FirstTotal(pages) == |corpus|
    && forall offset :: 0 <= offset < |corpus| ==> ServesSlice(pages, limit, corpus, offset)
  }

  /** The page at `offset` is the corpus slice there. */
  ghost predicate ServesSlice(pages: int -> Response, limit: int, corpus: seq<RawHacker>, offset: int)
  {
    PageAt(pages, offset) == Slice(corpus, offset, limit)
  }

  /** One link-reading oracle for such a leaderboard: it reads the offset
      and the limit back from the link and serves that slice. */
  function CorpusServer(contest: string, corpus: seq<RawHacker>): string -> Response
  {
    (link: string) => ServeLink(contest, corpus, link)
  }

  function ServeLink(contest: string, corpus: seq<RawHacker>, link: string): Response
  {
    match Templates.ParseLeaderboardLink(contest, link)
    case Some(p) => Response(|corpus|, Slice(corpus, p.0, p.1))
    case None => Response(|corpus|, [])
  }

  lemma ServedPage(contest: string, corpus: seq<RawHacker>, limit: int, offset: int)
    ensures Pages(CorpusServer(contest, corpus), contest, limit)(offset) == Response(|corpus|, Slice(corpus, offset, limit))
  {
    Templates.LeaderboardLinkRoundTrip(contest, offset, limit);
  }

  /** The link-reading oracle serves its corpus through the rendered links,
      and with a positive page size it meets the precondition of
      `GetLeaderboard`. */
  lemma CorpusServerServes(contest: string, corpus: seq<RawHacker>, limit: int)
    requires limit > 0
    ensures ServesCorpus(Pages(CorpusServer(contest, corpus), contest, limit), limit, corpus)
    ensures PagesNonEmpty(Pages(CorpusServer(contest, corpus), contest, limit))
  {
    var pages := Pages(CorpusServer(contest, corpus), contest, limit);
    ServedPage(contest, corpus, limit, 0);
    forall offset | 0 <= offset < |corpus|
      ensures ServesSlice(pages, limit, corpus, offset)
      ensures |PageAt(pages, offset)| > 0
    {
      ServedPage(contest, corpus, limit, offset);
    }
  }

  /** One page further: when the pages before the last offset `o` (inside
      the corpus) are the corpus up to `o`, the pages up to and including it
      are the corpus up to `min(o + limit, |corpus|)`. */
  lemma FairStep(pages: int -> Response, corpus: seq<RawHacker>, limit: int, offsets: seq<int>)
    requires limit > 0
    requires |offsets| >= 1
    requires 0 <= offsets[|offsets| - 1] < |corpus|
    requires ServesSlice(pages, limit, corpus, offsets[|offsets| - 1])
    requires Fetched(pages, offsets[..|offsets| - 1]) == corpus[..offsets[|offsets| - 1]]
    ensures Fetched(pages, offsets) == corpus[..Min(offsets[|offsets| - 1] + limit, |corpus|)]
  {
    var o := offsets[|offsets| - 1];
    var j := Min(o + limit, |corpus|);
    assert Fetched(pages, offsets) == corpus[..o] + corpus[o..j];
    assert corpus[..o] + corpus[o..j] == corpus[..j];
  }

  /** The k-th request of a run against a well-behaved leaderboard asks for
      offset `min(k * limit, |corpus|)`, and the pages before it are exactly
      the corpus up to that offset. */
  lemma {:induction false} FairPrefix(pages: int -> Response, corpus: seq<RawHacker>, limit: int,
                                      requested: seq<int>, k: nat)
    requires limit > 0
    requires ServesCorpus(pages, limit, corpus)
    requires OffsetsFollowPages(pages, requested)
    requires forall i :: 0 <= i < |requested| - 1 ==> requested[i] < |corpus|
    requires k < |requested|
    ensures requested[k] == Min(k * limit, |corpus|)
    ensures Fetched(pages, requested[..k]) == corpus[..requested[k]]
    decreases k
  {
    if k == 0 {
      OffsetAt(pages, requested, 0);
      assert requested[..0] == [];
      assert corpus[..0] == [];
    } else {
      var o := requested[k - 1];
      assert o == Min((k - 1) * limit, |corpus|)
          && Fetched(pages, requested[..k - 1]) == corpus[..o] by {
        FairPrefix(pages, corpus, limit, requested, k - 1);
      }
      assert o < |corpus|;
      assert ServesSlice(pages, limit, corpus, o);
      assert Fetched(pages, requested[..k]) == corpus[..Min(o + limit, |corpus|)] by {
        assert requested[..k][..k - 1] == requested[..k - 1];
        assert requested[..k][k - 1] == o;
        FairStep(pages, corpus, limit, requested[..k]);
      }
      assert requested[k] == |Fetched(pages, requested[..k])| by {
        OffsetAt(pages, requested, k);
      }
      NextMultiple(k, limit, o, |corpus|);
    }
  }

  lemma NextMultiple(k: nat, limit: int, o: int, n: int)
    requires k > 0
    requires o == Min((k - 1) * limit, n) && o < n
    ensures Min(o + limit, n) == Min(k * limit, n)
  {
    assert k * limit == (k - 1) * limit + limit;
  }

  lemma MulMonotone(a: int, b: int, d: nat)
    requires a <= b
    ensures a * d <= b * d
  {
    assert b * d - a * d == (b - a) * d;
  }

  /** `m` is the ceiling of `n / d` when it is the least multiplier reaching `n`. */
  lemma CeilDivUnique(n: nat, d: nat, m: nat)
    requires d > 0
    requires (m - 1) * d < n <= m * d
    ensures m == CeilDiv(n, d)
  {
    var q := CeilDiv(n, d);
    var rem := (n + d - 1) % d;
    assert q * d + rem == n + d - 1;
    assert (q - 1) * d == q * d - d;
    assert (m - 1) * d == m * d - d;
    if m < q {
      MulMonotone(m, q - 1, d);
      assert false;
    } else if m > q {
      MulMonotone(q, m - 1, d);
      assert false;
    }
  }

  /** Against a leaderboard that holds `corpus` and does not change, the
      call returns the corpus projected entry by entry, in order, with no
      entry lost or repeated (or the `KeyError` that projecting the whole
      corpus raises). */
  lemma FairCorpusRun(pages: int -> Response, corpus: seq<RawHacker>, limit: int,
                      requested: seq<int>, r: Result<seq<Hacker>, KeyError>)
    requires limit > 0
    requires ServesCorpus(pages, limit, corpus)
    requires IsRun(pages, requested, r)
    ensures r == ParseNewHackers(corpus)
  {
    var n := |corpus|;
    var m := |requested| - 1;
    assert Fetched(pages, requested[..m]) == corpus[..requested[m]] by {
      FairPrefix(pages, corpus, limit, requested, m);
    }
    if r.Success? {
      FairRunOffsets(pages, corpus, limit, requested, r);
      FairRequestCount(n, limit, requested);
      assert corpus[..n] == corpus;
    } else {
      FairFailure(pages, corpus, limit, requested);
    }
  }

  /** Against such a leaderboard the k-th request asks for offset
      `min(k * limit, |corpus|)`. */
  lemma FairRunOffsets(pages: int -> Response, corpus: seq<RawHacker>, limit: int,
                       requested: seq<int>, r: Result<seq<Hacker>, KeyError>)
    requires limit > 0
    requires ServesCorpus(pages, limit, corpus)
    requires IsRun(pages, requested, r)
    ensures forall k :: 0 <= k < |requested| ==> requested[k] == Min(k * limit, |corpus|)
  {
    forall k | 0 <= k < |requested|
      ensures requested[k] == Min(k * limit, |corpus|)
    {
      FairPrefix(pages, corpus, limit, requested, k);
    }
  }

  /** Against such a leaderboard a successful call issues
      `1 + ceil(|corpus| / limit)` requests, the last one (unused) at the
      end of the corpus. */
  lemma FairRunRequests(pages: int -> Response, corpus: seq<RawHacker>, limit: int,
                        requested: seq<int>, r: Result<seq<Hacker>, KeyError>)
    requires limit > 0
    requires ServesCorpus(pages, limit, corpus)
    requires IsRun(pages, requested, r)
    requires r.Success?
    ensures requested[|requested| - 1] == |corpus| && |requested| == 1 + CeilDiv(|corpus|, limit)
  {
    FairRunOffsets(pages, corpus, limit, requested, r);
    FairRequestCount(|corpus|, limit, requested);
  }

  /** `get_leadearboard` against a server that reads the offset and limit
      from each link and serves slices of `corpus`: the whole corpus is
      collected in order, request k asks for `min(k * limit, |corpus|)`, and
      a successful call issues `1 + ceil(|corpus| / limit)` requests. */
  method CollectCorpus(api: HackerrankApi, corpus: seq<RawHacker>, limit: int)
    returns (r: Result<seq<Hacker>, KeyError>, requested: seq<int>)
    requires limit > 0
    ensures r == ParseNewHackers(corpus)
    ensures forall k :: 0 <= k < |requested| ==> requested[k] == Min(k * limit, |corpus|)
    ensures r.Success? ==> |requested| == 1 + CeilDiv(|corpus|, limit)
  {
    var fetch := CorpusServer(api.contest, corpus);
    ghost var pages := Pages(fetch, api.contest, limit);
    CorpusServerServes(api.contest, corpus, limit);
    r, requested := GetLeaderboard(api, fetch, limit);
    FairCorpusRun(pages, corpus, limit, requested, r);
    FairRunOffsets(pages, corpus, limit, requested, r);
    if r.Success? {
      FairRunRequests(pages, corpus, limit, requested, r);
    }
  }

  /** With offsets `min(k * limit, n)` and every offset but the last below
      `n`, the last one reaching `n`: that is `1 + ceil(n / limit)` offsets. */
  lemma FairRequestCount(n: nat, limit: int, requested: seq<int>)
    requires limit > 0
    requires |requested| >= 1
    requires forall k :: 0 <= k < |requested| ==> requested[k] == Min(k * limit, n)
    requires forall k :: 0 <= k < |requested| - 1 ==> requested[k] < n
    requires n <= requested[|requested| - 1]
    ensures requested[|requested| - 1] == n
    ensures |requested| == 1 + CeilDiv(n, limit)
  {
    var m := |requested| - 1;
    if m == 0 {
      assert requested[0] == 0;
    } else {
      assert requested[m - 1] < n;
      CeilDivUnique(n, limit, m);
    }
  }

  /** When the last page of a run against a well-behaved leaderboard raises,
      the error is the one parsing the whole corpus raises. */
  lemma FairFailure(pages: int -> Response, corpus: seq<RawHacker>, limit: int,
                    requested: seq<int>)
    requires limit > 0
    requires ServesCorpus(pages, limit, corpus)
    requires |requested| >= 1
    requires 0 <= requested[|requested| - 1] < |corpus|
    requires Fetched(pages, requested[..|requested| - 1]) == corpus[..requested[|requested| - 1]]
    requires ParseNewHackers(Fetched(pages, requested)).Failure?
    ensures ParseNewHackers(Fetched(pages, requested)) == ParseNewHackers(corpus)
  {
    var o := requested[|requested| - 1];
    var j := Min(o + limit, |corpus|);
    assert Fetched(pages, requested) == corpus[..o] + corpus[o..j] by {
      FetchedLast(pages, requested);
      assert ServesSlice(pages, limit, corpus, o);
    }
    assert corpus[..o] + corpus[o..j] == corpus[..j];
    ParseNewHackersAppend(corpus[..j], corpus[j..]);
    assert corpus[..j] + corpus[j..] == corpus;
  }

  // ---------------------------------------------------------------------
  // Whole pages are appended
  // ---------------------------------------------------------------------

  /** The result is not cut at `total`: when the first response announces a
      `total` of 1 but its page holds two entries, the whole page is kept
      and the second (unused) request asks for offset 2. */
  lemma Overshoot(pages: int -> Response, hacker: RawHacker,
                  requested: seq<int>, r: Result<seq<Hacker>, KeyError>)
    requires FirstTotal(pages) == 1
    requires PageAt(pages, 0) == [hacker, hacker]
    requires FilterKeys(hacker).Success?
    requires IsRun(pages, requested, r)
    ensures requested == [0, 2]
    ensures r == Success([FilterKeys(hacker).value, FilterKeys(hacker).value])
    ensures |r.value| > FirstTotal(pages)
  {
    TwoEntries(hacker);
    FirstRequests(pages, requested);
    if |requested| == 1 {
      assert false;
    }
    if |requested| > 2 {
      assert false;
    }
    assert requested == [0, 2];
  }

  /** Parsing a page of two copies of a valid entry gives two copies of its
      projection. */
  lemma TwoEntries(hacker: RawHacker)
    requires FilterKeys(hacker).Success?
    ensures ParseNewHackers([hacker, hacker]) == Success([FilterKeys(hacker).value, FilterKeys(hacker).value])
  {
    var h := FilterKeys(hacker).value;
    assert ParseNewHackers([hacker]) == Success([h]) by {
      assert [hacker][1..] == [];
      assert [h] + [] == [h];
    }
    assert [hacker, hacker][1..] == [hacker];
    assert [hacker, hacker][0] == hacker;
    assert ParseNewHackers([hacker, hacker]) == Success([h] + [h]);
    assert [h] + [h] == [h, h];
  }

  /** Every run starts at offset 0, and its second request (if any) asks for
      the size of the first page. */
  lemma FirstRequests(pages: int -> Response, requested: seq<int>)
    requires OffsetsFollowPages(pages, requested)
    requires |requested| >= 1
    ensures requested[0] == 0
    ensures Fetched(pages, requested[..1]) == PageAt(pages, 0)
    ensures |requested| >= 2 ==> requested[1] == |PageAt(pages, 0)|
  {
    OffsetAt(pages, requested, 0);
    assert requested[..0] == [];
    assert requested[..1][..0] == [];
    if |requested| >= 2 {
      OffsetAt(pages, requested, 1);
    }
  }
}
