/** The HackerRank leaderboard client of `services/hackerrank.py`: the time
    window test, the key projection of each leaderboard entry, and the
    pagination loop. HTTP is an oracle `fetch` from a rendered link to the
    already-decoded JSON response; with the contest and the page size fixed,
    the loop's reasoning sees it as a function from offsets to responses
    (`Pages`). */
module Hackerrank {
  import opened Wrappers
  import opened Json
  import Templates

  /** A leaderboard entry as the API returns it (a JSON object). */
  type RawHacker = map<string, Value>
  /** A leaderboard entry after `filter_keys`. */
  type Hacker = map<string, Value>

  /** Python's `KeyError(key)`. */
  datatype KeyError = KeyError(key: string)

  /** A decoded leaderboard response: `{"total": ..., "models": [...]}`. */
  datatype Response = Response(total: int, models: seq<RawHacker>)

  /** An instance of `HackerrankAPI`: the contest and an optional inclusive
      window at each end. Timestamps are integers. */
  datatype HackerrankApi = HackerrankApi(contest: string, limitStart: Option<int>, limitEnd: Option<int>)

  /** `HackerrankAPI.TARGET_KEYS`, in declaration order. */
  const TargetKeys: seq<string> := ["hacker", "score", "timestamp"]

  /** `render_link`: the leaderboard link of the instance's contest. */
  function RenderLink(api: HackerrankApi, offset: int, limit: int): (link: string)
    ensures Templates.ParseLeaderboardLink(api.contest, link) == Some((offset, limit))
  {
    Templates.LeaderboardLinkRoundTrip(api.contest, offset, limit);
    Templates.LeaderboardLink(api.contest, offset, limit)
  }

  /** `on_time`: each end of the window is checked only when it is set, and
      both ends are inclusive. (A `datetime` is always truthy, so "set" is
      exactly "not None".) */
  function OnTime(api: HackerrankApi, actual: int): (r: bool)
    ensures api.limitStart.None? && api.limitEnd.None? ==> r
    ensures api.limitStart.Some? && actual < api.limitStart.value ==> !r
    ensures api.limitEnd.Some? && api.limitEnd.value < actual ==> !r
    ensures ((api.limitStart.None? || api.limitStart.value <= actual)
             && (api.limitEnd.None? || actual <= api.limitEnd.value)) ==> r
  {
    var bottomLimit := if api.limitStart.Some? then api.limitStart.value <= actual else true;
    var topLimit := if api.limitEnd.Some? then actual <= api.limitEnd.value else true;
    bottomLimit && topLimit
  }

  /** The timestamps `on_time` accepts form an interval: anything between
      two accepted timestamps is accepted too. */
  lemma OnTimeInterval(api: HackerrankApi, early: int, middle: int, late: int)
    requires early <= middle <= late
    requires OnTime(api, early) && OnTime(api, late)
    ensures OnTime(api, middle)
  {
  }

  /** Builds `{K: hacker[K] for K in keys}`, raising `KeyError` at the first
      key (in order) that the entry lacks. */
  function Pick(hacker: RawHacker, keys: seq<string>): (r: Result<Hacker, KeyError>)
    ensures r.Success? <==> forall i :: 0 <= i < |keys| ==> keys[i] in hacker
    ensures r.Success? ==> r.value.Keys == (set k | k in keys)
    ensures r.Success? ==> forall k :: k in r.value ==> k in hacker && r.value[k] == hacker[k]
    ensures r.Failure? ==> exists i :: 0 <= i < |keys| && keys[i] == r.error.key && keys[i] !in hacker
                                     && forall j :: 0 <= j < i ==> keys[j] in hacker
  {
    if |keys| == 0 then Success(map[])
    else if keys[0] !in hacker then Failure(KeyError(keys[0]))
    else
      match Pick(hacker, keys[1..])
      case Failure(e) =>
        assert forall j :: 1 <= j < |keys| ==> keys[j] == keys[1..][j - 1];
        Failure(e)
      case Success(m) =>
        assert (set k | k in keys) == {keys[0]} + (set k | k in keys[1..]) by {
          assert keys == [keys[0]] + keys[1..];
        }
        Success(m[keys[0] := hacker[keys[0]]])
  }

  /** `filter_keys`: `{K: hacker[K] for K in TARGET_KEYS}`, the comprehension
      walking `TARGET_KEYS` in order and raising `KeyError` at the first key
      the entry lacks. */
  function FilterKeys(hacker: RawHacker): Result<Hacker, KeyError>
  {
    if "hacker" !in hacker then Failure(KeyError("hacker"))
    else if "score" !in hacker then Failure(KeyError("score"))
    else if "timestamp" !in hacker then Failure(KeyError("timestamp"))
    else Success(map["hacker" := hacker["hacker"], "score" := hacker["score"], "timestamp" := hacker["timestamp"]])
  }

  /** `filter_keys` keeps exactly the target keys of an entry, values
      unchanged; an entry lacking one of them raises `KeyError` for the
      first missing key in `TARGET_KEYS` order. */
  lemma FilterKeysMeaning(hacker: RawHacker)
    ensures var r := FilterKeys(hacker);
            && (r.Success? <==> "hacker" in hacker && "score" in hacker && "timestamp" in hacker)
            && (r.Success? ==> r.value.Keys == {"hacker", "score", "timestamp"})
            && (r.Success? ==> forall k :: k in r.value ==> r.value[k] == hacker[k])
            && (r.Failure? ==> r.error.key !in hacker)
            && (r.Failure? ==>
                  || r.error.key == "hacker"
                  || (r.error.key == "score" && "hacker" in hacker)
                  || (r.error.key == "timestamp" && "hacker" in hacker && "score" in hacker))
  {
  }

  /** `filter_keys` is the general key projection over `TARGET_KEYS`. */
  lemma FilterKeysIsPick(hacker: RawHacker)
    ensures FilterKeys(hacker) == Pick(hacker, TargetKeys)
  {
    if "hacker" in hacker && "score" in hacker && "timestamp" in hacker {
      PickAllTargets(hacker);
    } else {
      PickMissingTarget(hacker);
    }
  }

  lemma PickAllTargets(hacker: RawHacker)
    requires "hacker" in hacker && "score" in hacker && "timestamp" in hacker
    ensures Pick(hacker, TargetKeys) == FilterKeys(hacker)
  {
    var k2: seq<string> := ["timestamp"];
    var k1: seq<string> := ["score", "timestamp"];
    assert TargetKeys[1..] == k1 && k1[1..] == k2 && k2[1..] == [];
    var t := hacker["timestamp"];
    assert Pick(hacker, k2) == Success(map[][k2[0] := t]);
    assert Pick(hacker, k1) == Success(map[][k2[0] := t][k1[0] := hacker["score"]]);
    var picked := map[][k2[0] := t][k1[0] := hacker["score"]][TargetKeys[0] := hacker["hacker"]];
    var filtered := FilterKeys(hacker).value;
    assert picked == filtered by {
      assert picked.Keys == filtered.Keys;
    }
  }

  lemma PickMissingTarget(hacker: RawHacker)
    requires !("hacker" in hacker && "score" in hacker && "timestamp" in hacker)
    ensures Pick(hacker, TargetKeys) == FilterKeys(hacker)
  {
    var k2: seq<string> := ["timestamp"];
    var k1: seq<string> := ["score", "timestamp"];
    assert TargetKeys[1..] == k1 && k1[1..] == k2;
    if "hacker" !in hacker {
      assert Pick(hacker, TargetKeys) == Failure(KeyError("hacker"));
    } else if "score" !in hacker {
      assert Pick(hacker, k1) == Failure(KeyError("score"));
    } else {
      assert Pick(hacker, k2) == Failure(KeyError("timestamp"));
      assert Pick(hacker, k1) == Failure(KeyError("timestamp"));
    }
  }

  /** `list(parse_new_hackers(response))` on the decoded `models` list.
      `parse_new_hackers` itself only returns a lazy `map`; `filter_keys`
      runs on every entry, in order, when `all_hackers.extend` consumes that
      map, and the first failing entry's `KeyError` then propagates
      (`ParseNewHackersSucceeds`, `ParseNewHackersValues` and
      `ParseNewHackersFirstFailure` state this entry by entry). */
  function ParseNewHackers(models: seq<RawHacker>): (r: Result<seq<Hacker>, KeyError>)
    ensures r.Success? ==> |r.value| == |models|
  {
    if |models| == 0 then Success([])
    else
      match FilterKeys(models[0])
      case Failure(e) => Failure(e)
      case Success(h) =>
        match ParseNewHackers(models[1..])
        case Failure(e) => Failure(e)
        case Success(hs) => Success([h] + hs)
  }

  /** Parsing succeeds exactly when every entry carries the target keys. */
  lemma {:induction false} ParseNewHackersSucceeds(models: seq<RawHacker>)
    ensures ParseNewHackers(models).Success? <==> forall i :: 0 <= i < |models| ==> FilterKeys(models[i]).Success?
  {
    if |models| > 0 {
      ParseNewHackersSucceeds(models[1..]);
      assert forall j :: 1 <= j < |models| ==> models[j] == models[1..][j - 1];
    }
  }

  /** A successful parse projects every entry in place. */
  lemma {:induction false} ParseNewHackersValues(models: seq<RawHacker>)
    requires ParseNewHackers(models).Success?
    ensures forall i :: 0 <= i < |models| ==>
              FilterKeys(models[i]).Success? && ParseNewHackers(models).value[i] == FilterKeys(models[i]).value
  {
    if |models| > 0 {
      ParseNewHackersValues(models[1..]);
      assert forall j :: 1 <= j < |models| ==> models[j] == models[1..][j - 1];
    }
  }

  /** A failed parse reports the first entry (in list order) that lacks a
      target key. */
  lemma {:induction false} ParseNewHackersFirstFailure(models: seq<RawHacker>)
    requires ParseNewHackers(models).Failure?
    ensures exists i :: 0 <= i < |models| && FilterKeys(models[i]) == Failure(ParseNewHackers(models).error)
                       && forall j :: 0 <= j < i ==> FilterKeys(models[j]).Success?
  {
    var e := ParseNewHackers(models).error;
    if FilterKeys(models[0]).Failure? {
      assert FilterKeys(models[0]) == Failure(e);
    } else {
      ParseNewHackersFirstFailure(models[1..]);
      var i :| 0 <= i < |models[1..]| && FilterKeys(models[1..][i]) == Failure(e)
               && forall j :: 0 <= j < i ==> FilterKeys(models[1..][j]).Success?;
      assert forall j :: 1 <= j < i + 1 ==> models[j] == models[1..][j - 1];
      assert FilterKeys(models[i + 1]) == Failure(e);
    }
  }

  /** The result of parsing one list of models and then another: the first
      failure wins, otherwise the parsed lists concatenate. */
  function ThenParse(x: Result<seq<Hacker>, KeyError>, y: Result<seq<Hacker>, KeyError>): Result<seq<Hacker>, KeyError>
  {
    if x.Failure? then x else if y.Failure? then y else Success(x.value + y.value)
  }

  /** Parsing two lists of models one after the other is parsing their
      concatenation. */
  lemma {:induction false} ParseNewHackersAppend(a: seq<RawHacker>, b: seq<RawHacker>)
    ensures ParseNewHackers(a + b) == ThenParse(ParseNewHackers(a), ParseNewHackers(b))
  {
    if |a| == 0 {
      assert a + b == b;
      assert ParseNewHackers(a) == Success([]);
      if ParseNewHackers(b).Success? {
        assert [] + ParseNewHackers(b).value == ParseNewHackers(b).value;
      }
    } else {
      assert (a + b)[0] == a[0];
      assert (a + b)[1..] == a[1..] + b;
      ParseNewHackersAppend(a[1..], b);
      var head := FilterKeys(a[0]);
      if head.Success? {
        var tail := ParseNewHackers(a[1..]);
        if tail.Success? && ParseNewHackers(b).Success? {
          var y := ParseNewHackers(b).value;
          assert [head.value] + (tail.value + y) == ([head.value] + tail.value) + y;
        }
      }
    }
  }

  // ---------------------------------------------------------------------
  // Pagination over a page oracle
  // ---------------------------------------------------------------------

  /** The leaderboard of one contest, at a fixed page size, as a function of
      the offset: the response served for the leaderboard link at that
      offset. */
  function Pages(fetch: string -> Response, contest: string, limit: int): int -> Response
  {
    (offset: int) => fetch(Templates.LeaderboardLink(contest, offset, limit))
  }

  /** The models of the page served at `offset`. */
  function PageAt(pages: int -> Response, offset: int): seq<RawHacker>
  {
    pages(offset).models
  }

  /** The `total` of the first response (offset 0), the only one ever read. */
  function FirstTotal(pages: int -> Response): int
  {
    pages(0).total
  }

  /** The raw models of the pages at `offsets`, concatenated in request order. */
  function Fetched(pages: int -> Response, offsets: seq<int>): seq<RawHacker>
  {
    if |offsets| == 0 then []
    else Fetched(pages, offsets[..|offsets| - 1]) + PageAt(pages, offsets[|offsets| - 1])
  }

  /** Every page served below the first response's `total` is non-empty:
      the condition under which the loop of `get_leadearboard` makes progress
      on every iteration. */
  ghost predicate PagesNonEmpty(pages: int -> Response)
  {
    forall offset :: 0 <= offset < FirstTotal(pages) ==> |PageAt(pages, offset)| > 0
  }

  /** Every request's offset is the number of models fetched before it
      (stated request by request, from the last one back). */
  ghost predicate OffsetsFollowPages(pages: int -> Response, requested: seq<int>)
  {
    || |requested| == 0
    || (&& OffsetsFollowPages(pages, requested[..|requested| - 1])
        && requested[|requested| - 1] == |Fetched(pages, requested[..|requested| - 1])|)
  }

  /** The offset of request `k` is the number of models its predecessors fetched. */
  lemma {:induction false} OffsetAt(pages: int -> Response, requested: seq<int>, k: nat)
    requires OffsetsFollowPages(pages, requested)
    requires k < |requested|
    ensures requested[k] == |Fetched(pages, requested[..k])|
    decreases |requested|
  {
    if k < |requested| - 1 {
      var shorter := requested[..|requested| - 1];
      OffsetAt(pages, shorter, k);
      assert shorter[..k] == requested[..k];
    }
  }

  /** The observable behaviour of one finished call of `get_leadearboard`:
      `requested` lists the offsets of the HTTP requests in order and `r` is
      the returned list or the raised `KeyError`.
      - every request's offset is the number of hackers collected before it;
      - every response but the last was consumed while fewer than `total`
        (from the first response) hackers were collected;
      - on return, the collected count reached `total` and the last
        response is never used; on `KeyError`, consuming the last
        response's page raised it. */
  ghost predicate IsRun(pages: int -> Response,
                       requested: seq<int>, r: Result<seq<Hacker>, KeyError>)
  {
    var total := FirstTotal(pages);
    var n := |requested|;
    && n >= 1
    && OffsetsFollowPages(pages, requested)
    && (forall k :: 0 <= k < n - 1 ==> requested[k] < total)
    && ParseNewHackers(Fetched(pages, requested[..n - 1])).Success?
    && (r.Success? ==> total <= requested[n - 1]
                       && r == ParseNewHackers(Fetched(pages, requested[..n - 1])))
    && (r.Failure? ==> requested[n - 1] < total
                       && r == ParseNewHackers(Fetched(pages, requested)))
  }

  /** Appending the offset of the next request keeps every request's offset
      equal to the number of models fetched before it. */
  lemma NextRequest(pages: int -> Response, requested: seq<int>)
    requires OffsetsFollowPages(pages, requested)
    ensures OffsetsFollowPages(pages, requested + [|Fetched(pages, requested)|])
  {
    var next := requested + [|Fetched(pages, requested)|];
    assert next[..|next| - 1] == requested;
  }

  /** The pages up to and including the last request are the pages before
      it followed by its own page. */
  lemma FetchedLast(pages: int -> Response, requested: seq<int>)
    requires |requested| >= 1
    ensures Fetched(pages, requested)
         == Fetched(pages, requested[..|requested| - 1]) + PageAt(pages, requested[|requested| - 1])
  {
  }

  /** The loop invariant of `get_leadearboard`, after `requested` requests
      and with `allHackers` collected. */
  ghost predicate LoopInvariant(pages: int -> Response, total: int,
                                requested: seq<int>, allHackers: seq<Hacker>)
  {
    && |requested| >= 1 && requested[|requested| - 1] == |allHackers|
    && OffsetsFollowPages(pages, requested)
    && (forall k :: 0 <= k < |requested| - 1 ==> requested[k] < total)
    && ParseNewHackers(Fetched(pages, requested[..|requested| - 1])) == Success(allHackers)
  }

  /** One iteration that consumes a parsable page keeps the invariant. */
  lemma LoopStep(pages: int -> Response, total: int,
                 requested: seq<int>, allHackers: seq<Hacker>)
    requires LoopInvariant(pages, total, requested, allHackers)
    requires |allHackers| < total
    requires ParseNewHackers(PageAt(pages, |allHackers|)).Success?
    ensures var collected := allHackers + ParseNewHackers(PageAt(pages, |allHackers|)).value;
            LoopInvariant(pages, total, requested + [|collected|], collected)
  {
    var page := PageAt(pages, |allHackers|);
    var collected := allHackers + ParseNewHackers(page).value;
    var next := requested + [|collected|];
    assert next[..|next| - 1] == requested;
    assert ParseNewHackers(Fetched(pages, requested)) == Success(collected) by {
      FetchedLast(pages, requested);
      ParseNewHackersAppend(Fetched(pages, requested[..|requested| - 1]), page);
    }
    assert OffsetsFollowPages(pages, next) by {
      NextRequest(pages, requested);
    }
    assert forall k :: 0 <= k < |next| - 1 ==> next[k] < total;
  }

  /** Before the loop: one request, at offset 0, and nothing collected. */
  lemma LoopStarts(pages: int -> Response)
    ensures LoopInvariant(pages, FirstTotal(pages), [0], [])
  {
    assert [0][..0] == [];
  }

  /** Leaving the loop with the collected count at `total` is a finished run. */
  lemma LoopDone(pages: int -> Response, requested: seq<int>, allHackers: seq<Hacker>)
    requires LoopInvariant(pages, FirstTotal(pages), requested, allHackers)
    requires FirstTotal(pages) <= |allHackers|
    ensures IsRun(pages, requested, Success(allHackers))
  {
  }

  /** An iteration whose page raises while `extend` consumes it ends the
      call with a finished run. */
  lemma LoopFails(pages: int -> Response,
                  requested: seq<int>, allHackers: seq<Hacker>)
    requires LoopInvariant(pages, FirstTotal(pages), requested, allHackers)
    requires |allHackers| < FirstTotal(pages)
    requires ParseNewHackers(PageAt(pages, |allHackers|)).Failure?
    ensures IsRun(pages, requested,
                  Failure(ParseNewHackers(PageAt(pages, |allHackers|)).error))
  {
    var page := PageAt(pages, |allHackers|);
    FetchedLast(pages, requested);
    ParseNewHackersAppend(Fetched(pages, requested[..|requested| - 1]), page);
  }

  /** The response to the link `render_link` builds is the leaderboard's
      page at that offset. */
  lemma RenderedPage(api: HackerrankApi, fetch: string -> Response, limit: int, offset: int)
    ensures fetch(RenderLink(api, offset, limit)) == Pages(fetch, api.contest, limit)(offset)
  {
  }

  /** `get_leadearboard`. The loop ends only when the collected count reaches
      the first response's `total`; an empty page below `total` would repeat
      the same request forever, so the leaderboard must serve non-empty pages
      there (`PagesNonEmpty`). */
  method GetLeaderboard(api: HackerrankApi, fetch: string -> Response, limit: int)
    returns (r: Result<seq<Hacker>, KeyError>, requested: seq<int>)
    requires PagesNonEmpty(Pages(fetch, api.contest, limit))
    ensures IsRun(Pages(fetch, api.contest, limit), requested, r)
  {
    ghost var pages := Pages(fetch, api.contest, limit);
    var allHackers: seq<Hacker> := [];
    var offset := 0;
    var response := fetch(RenderLink(api, offset, limit));
    assert response == pages(offset) by {
      RenderedPage(api, fetch, limit, offset);
    }
    requested := [offset];
    var total := response.total;
    LoopStarts(pages);
    while |allHackers| < total
      invariant total == FirstTotal(pages)
      invariant response == pages(|allHackers|)
      invariant LoopInvariant(pages, total, requested, allHackers)
      decreases total - |allHackers|
    {
      var newHackers := ParseNewHackers(response.models);
      if newHackers.Failure? {
        LoopFails(pages, requested, allHackers);
        r := Failure(newHackers.error);
        return;
      }
      LoopStep(pages, total, requested, allHackers);
      assert |newHackers.value| > 0 by {
        assert |response.models| > 0;
      }
      allHackers := allHackers + newHackers.value;
      offset := |allHackers|;
      response := fetch(RenderLink(api, offset, limit));
      assert response == pages(offset) by {
        RenderedPage(api, fetch, limit, offset);
      }
      requested := requested + [offset];
    }
    r := Success(allHackers);
    LoopDone(pages, requested, allHackers);
  }
}
