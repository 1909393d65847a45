/** The HackerRank REST link templates of `services/constants/templates.py`,
    rendered as plain string concatenation, and a reader for leaderboard
    links that recovers the offset and limit from a link. */
module Templates {
  import opened Wrappers
  import opened Decimal

  /** Fixed head of every contest link. */
  const ContestBase: string := "https://www.hackerrank.com/rest/contests/"
  /** Text between the contest name and the offset of a leaderboard link. */
  const OffsetKey: string := "/leaderboard?offset="
  /** Text between the offset and the limit. */
  const LimitKey: string := "&limit="
  /** The fixed cache-busting query parameter that ends every leaderboard link. */
  const CacheBuster: string := "&_=1489594857572"

  /** `HACKERRANK_CONTEST_LINK.substitute(contest_name=contestName)`:
      the contest name is inserted verbatim, with no escaping and no
      trailing slash. */
  function ContestLink(contestName: string): string
  {
    ContestBase + contestName
  }

  /** The contest name is inserted verbatim after the fixed head, with
      nothing after it, so distinct contest names give distinct contest
      links. */
  lemma ContestLinkInjective(name1: string, name2: string)
    ensures ContestLink(name1) == ContestLink(name2) ==> name1 == name2
  {
    StripPrefixOf(ContestBase, name1);
    StripPrefixOf(ContestBase, name2);
  }

  /** `HACKERRANK_LEADERBOARD_LINK.substitute(...)`, with the numbers rendered
      by Python's `str`. */
  function LeaderboardLink(contestName: string, offset: int, limit: int): string
  {
    ContestLink(contestName) + OffsetKey + IntToString(offset) + LimitKey + IntToString(limit) + CacheBuster
  }

  /** The contest link is a strict prefix of every leaderboard link of the
      same contest, and the cache-busting parameter always ends it. */
  lemma LeaderboardLinkShape(contestName: string, offset: int, limit: int)
    ensures ContestLink(contestName) < LeaderboardLink(contestName, offset, limit)
    ensures var link := LeaderboardLink(contestName, offset, limit);
            |link| >= |CacheBuster| && link[|link| - |CacheBuster|..] == CacheBuster
  {
    var link := LeaderboardLink(contestName, offset, limit);
    var o, l := IntToString(offset), IntToString(limit);
    var rest := OffsetKey + (o + LimitKey + (l + CacheBuster));
    LeaderboardLinkParts(contestName, offset, limit);
    AppendAssoc(ContestLink(contestName), OffsetKey, o + LimitKey + (l + CacheBuster));
    assert |rest| > 0 && link == ContestLink(contestName) + rest;
    var front := ContestLink(contestName) + OffsetKey + o + LimitKey + l;
    assert link == front + CacheBuster;
    assert link[|front|..] == CacheBuster;
  }

  /** `s` without its leading `prefix`, if it starts with it. */
  function StripPrefix(prefix: string, s: string): (r: Option<string>)
    ensures r.Some? ==> s == prefix + r.value
  {
    if prefix <= s then
      assert s == prefix + s[|prefix|..];
      Some(s[|prefix|..])
    else None
  }

  lemma StripPrefixOf(prefix: string, s: string)
    ensures StripPrefix(prefix, prefix + s) == Some(s)
  {
    assert prefix <= prefix + s;
    assert (prefix + s)[|prefix|..] == s;
  }

  /** Splits `s` into its longest numeral-character prefix and the rest. */
  function SplitNumeral(s: string): (r: (string, string))
    ensures r.0 + r.1 == s
    ensures forall i :: 0 <= i < |r.0| ==> IsNumeralChar(r.0[i])
  {
    if |s| == 0 || !IsNumeralChar(s[0]) then ([], s)
    else
      var (tok, rest) := SplitNumeral(s[1..]);
      assert [s[0]] + tok + rest == s;
      ([s[0]] + tok, rest)
  }

  lemma {:induction false} SplitNumeralOf(a: string, b: string)
    requires forall i :: 0 <= i < |a| ==> IsNumeralChar(a[i])
    requires |b| > 0 && !IsNumeralChar(b[0])
    ensures SplitNumeral(a + b) == (a, b)
  {
    if |a| > 0 {
      assert (a + b)[0] == a[0];
      assert (a + b)[1..] == a[1..] + b;
      SplitNumeralOf(a[1..], b);
      assert [a[0]] + a[1..] == a;
    } else {
      assert a + b == b;
    }
  }

  /** A numeral in canonical form: exactly what `str` would print for its value. */
  predicate IsCanonical(tok: string) {
    IsNumeral(tok) && IntToString(ParseInt(tok)) == tok
  }

  /** Reads a canonical numeral followed by `after` and the end of the text. */
  function ReadNumber(s: string, after: string): (r: Option<(int, string)>)
  {
    var (tok, rest) := SplitNumeral(s);
    if IsCanonical(tok) && after <= rest then Some((ParseInt(tok), rest[|after|..])) else None
  }

  lemma ReadNumberSound(s: string, after: string)
    ensures ReadNumber(s, after).Some? ==>
              s == IntToString(ReadNumber(s, after).value.0) + after + ReadNumber(s, after).value.1
  {
    var (tok, rest) := SplitNumeral(s);
    if IsCanonical(tok) && after <= rest {
      assert rest == after + rest[|after|..];
    }
  }

  lemma ReadNumberOf(i: int, after: string, tail: string)
    requires |after| > 0 && !IsNumeralChar(after[0])
    ensures ReadNumber(IntToString(i) + after + tail, after) == Some((i, tail))
  {
    var s := IntToString(i);
    IntToStringShape(i);
    assert s + after + tail == s + (after + tail);
    SplitNumeralOf(s, after + tail);
    IntToStringRoundTrip(i);
    StripPrefixOf(after, tail);
  }

  /** Reads `(offset, limit)` back from a leaderboard link of the given
      contest; `None` when the text is not such a link. Whatever it accepts
      is exactly the rendering of what it returns. */
  function ParseLeaderboardLink(contestName: string, link: string): (r: Option<(int, int)>)
    ensures r.Some? ==> link == LeaderboardLink(contestName, r.value.0, r.value.1)
  {
    match StripPrefix(ContestLink(contestName) + OffsetKey, link)
    case None => None
    case Some(rest) =>
      match ReadNumber(rest, LimitKey)
      case None => None
      case Some((offset, limitPart)) =>
        match ReadNumber(limitPart, CacheBuster)
        case None => None
        case Some((limit, tail)) =>
          if tail == [] then
            ParsedLink(contestName, link, rest, limitPart, offset, limit);
            Some((offset, limit))
          else None
  }

  /** Every rendered leaderboard link reads back to the offset and limit
      it was rendered with. */
  lemma LeaderboardLinkRoundTrip(contestName: string, offset: int, limit: int)
    ensures ParseLeaderboardLink(contestName, LeaderboardLink(contestName, offset, limit)) == Some((offset, limit))
  {
    var head := ContestLink(contestName) + OffsetKey;
    var o := IntToString(offset);
    var l := IntToString(limit);
    var limitPart := l + CacheBuster;
    var rest := o + LimitKey + limitPart;
    assert LeaderboardLink(contestName, offset, limit) == head + rest;
    StripPrefixOf(head, rest);
    ReadNumberOf(offset, LimitKey, limitPart);
    assert l + CacheBuster + [] == limitPart;
    ReadNumberOf(limit, CacheBuster, []);
  }

  /** A leaderboard link split at the three places the reader cuts it. */
  lemma LeaderboardLinkParts(contestName: string, offset: int, limit: int)
    ensures LeaderboardLink(contestName, offset, limit)
         == (ContestLink(contestName) + OffsetKey) + (IntToString(offset) + LimitKey + (IntToString(limit) + CacheBuster))
  {
    var a, o, l := ContestLink(contestName) + OffsetKey, IntToString(offset), IntToString(limit);
    calc {
      LeaderboardLink(contestName, offset, limit);
      a + o + LimitKey + l + CacheBuster;
      { AppendAssoc(a + o + LimitKey, l, CacheBuster); }
      a + o + LimitKey + (l + CacheBuster);
      { AppendAssoc(a + o, LimitKey, l + CacheBuster); }
      a + o + (LimitKey + (l + CacheBuster));
      { AppendAssoc(a, o, LimitKey + (l + CacheBuster)); }
      a + (o + (LimitKey + (l + CacheBuster)));
      { AppendAssoc(o, LimitKey, l + CacheBuster); }
      a + (o + LimitKey + (l + CacheBuster));
    }
  }

  lemma AppendAssoc(x: string, y: string, z: string)
    ensures x + y + z == x + (y + z)
  {
  }

  /** The three pieces the reader accepted reassemble into the link. */
  lemma ParsedLink(contestName: string, link: string, rest: string, limitPart: string, offset: int, limit: int)
    requires StripPrefix(ContestLink(contestName) + OffsetKey, link) == Some(rest)
    requires ReadNumber(rest, LimitKey) == Some((offset, limitPart))
    requires ReadNumber(limitPart, CacheBuster) == Some((limit, []))
    ensures link == LeaderboardLink(contestName, offset, limit)
  {
    var head := ContestLink(contestName) + OffsetKey;
    assert rest == IntToString(offset) + LimitKey + limitPart by {
      ReadNumberSound(rest, LimitKey);
    }
    assert limitPart == IntToString(limit) + CacheBuster by {
      ReadNumberSound(limitPart, CacheBuster);
      assert IntToString(limit) + CacheBuster + [] == IntToString(limit) + CacheBuster;
    }
    assert link == head + rest;
    LeaderboardLinkParts(contestName, offset, limit);
  }

  /** With the contest fixed, a leaderboard link determines its offset and
      its limit: distinct offsets (or limits) never render to the same link. */
  lemma LeaderboardLinkInjective(contestName: string, offset1: int, limit1: int, offset2: int, limit2: int)
    ensures (LeaderboardLink(contestName, offset1, limit1) == LeaderboardLink(contestName, offset2, limit2))
              ==> offset1 == offset2 && limit1 == limit2
  {
    LeaderboardLinkRoundTrip(contestName, offset1, limit1);
    LeaderboardLinkRoundTrip(contestName, offset2, limit2);
  }
}
