/** `src/utils/scraper.class.ts`: a scraper bound to one team page of one
    game. It reads the match tables of the team's wiki page and keeps the
    matches with a time on today's date, whoever plays in them. */
module Scraper {
  import opened Wrappers
  import opened Strings
  import opened Markup
  import opened Extraction
  import MatchUtils

  class LiquipediaScraper {
    /** The three fields are set once, by the constructor or their
        initialiser, and never reassigned. */
    const baseUrl: string := "https://liquipedia.net"
    const team: string
    const game: string

    constructor (team: string, game: string)
      ensures this.team == team && this.game == game
      ensures baseUrl == BASE_URL
    {
      this.team := team;
      this.game := game;
    }

    /** The team page: `<baseUrl>/<game>/<team>`. */
    function GetLiquipediaUrl(): (url: string)
      ensures url == baseUrl + "/" + game + "/" + team
    {
      baseUrl + "/" + game + "/" + team
    }

    function ExtractTeamData(table: MatchBlock, side: Side): (t: Team)
      ensures t.name != [] && IsTrimmed(t.name)
      ensures TeamLink(table, side).Some? && !IsBlank(TeamLink(table, side).value.textContent)
              ==> t.name == Trim(TeamLink(table, side).value.textContent)
      ensures TeamLink(table, side).None? || IsBlank(TeamLink(table, side).value.textContent)
              ==> t.name == UNKNOWN_TEAM
      ensures t.icon.Some? <==> TeamIcon(table, side).Some?
      ensures t.icon.Some? ==> t.icon.value == Resolve(baseUrl, TeamIcon(table, side).value, "src")
    {
      Team(
        MatchUtils.TrimmedTextOr(TeamLink(table, side), UNKNOWN_TEAM),
        match TeamIcon(table, side) case None => None case Some(img) => Some(Resolve(baseUrl, img, "src")))
    }

    /** The tournament anchor is the one of `.tournament-text-flex a`. */
    function ExtractTournamentData(table: MatchBlock): (t: Tournament)
      ensures t.name != [] && IsTrimmed(t.name)
      ensures table.tournament.Some? && !IsBlank(table.tournament.value.textContent)
              ==> t.name == Trim(table.tournament.value.textContent)
      ensures table.tournament.None? || IsBlank(table.tournament.value.textContent)
              ==> t.name == UNKNOWN_TOURNAMENT
      ensures t.link.Some? <==> table.tournament.Some?
      ensures t.link.Some? ==> t.link.value == Resolve(baseUrl, table.tournament.value, "href")
    {
      Tournament(
        MatchUtils.TrimmedTextOr(table.tournament, UNKNOWN_TOURNAMENT),
        match table.tournament case None => None case Some(a) => Some(Resolve(baseUrl, a, "href")))
    }

    /** The time rule of `match.utils.ts`. */
    function ExtractDateTime(table: MatchBlock): (r: Result<Option<int>, Error>)
      ensures r == MatchUtils.ExtractDateTime(table)
    {
      match Timestamp(table)
      case None => Ok(None)
      case Some(ts) =>
        if ts == [] then Ok(None)
        else match InstantOf(ts) case Err(e) => Err(e) case Ok(ms) => Ok(Some(ms))
    }

    /** The format rule of `match.utils.ts`. */
    function ExtractMatchFormat(table: MatchBlock): (r: Option<string>)
      ensures r == MatchUtils.ExtractMatchFormat(table)
    {
      match table.formatAbbr
      case None => None
      case Some(abbr) =>
        var f := ToUpper(Trim(abbr.textContent));
        if f != [] then Some(f) else None
    }

    /** False without a time; otherwise whether the local year, month and
        day of the match are those of now. */
    predicate IsMatchToday(dateTime: Option<int>, clock: Clock): (r: bool)
      ensures dateTime.None? ==> !r
      ensures dateTime.Some? ==> (r <==> clock.localDate(dateTime.value) == clock.localDate(clock.now))
    {
      match dateTime
      case None => false
      case Some(t) =>
        var day, today := clock.localDate(t), clock.localDate(clock.now);
        day.day == today.day && day.month == today.month && day.year == today.year
    }

    /** The record of one match table. */
    function ExtractMatch(table: MatchBlock): (r: Result<Match, Error>)
      ensures r.Err? <==> MatchUtils.ExtractDateTime(table).Err?
      ensures r.Ok? ==> r.value.game == game && r.value.dateTime == MatchUtils.ExtractDateTime(table).value
    {
      match ExtractDateTime(table)
      case Err(e) => Err(e)
      case Ok(dateTime) =>
        Ok(Match(ExtractTeamData(table, Left), ExtractTeamData(table, Right), ExtractTournamentData(table),
                 dateTime, ExtractMatchFormat(table), game))
    }

    function MatchBuilder(): MatchBlock -> Result<Match, Error> {
      (table: MatchBlock) => ExtractMatch(table)
    }

    /** The only filter: a time, on today's date. */
    function TodayFilter(clock: Clock): Match -> bool {
      (m: Match) => m.dateTime.Some? && IsMatchToday(m.dateTime, clock)
    }

    /** What `extractMatchesFromHtml` computes for the match tables of a page. */
    function ExtractedMatches(tables: seq<MatchBlock>, clock: Clock): Result<seq<Match>, Error> {
      Collect(tables, MatchBuilder(), TodayFilter(clock))
    }

    method ExtractMatchesFromHtml(tables: seq<MatchBlock>, clock: Clock) returns (r: Result<seq<Match>, Error>)
      ensures r == ExtractedMatches(tables, clock)
      ensures r.Err? <==> exists i :: 0 <= i < |tables| && MatchUtils.ExtractDateTime(tables[i]).Err?
      ensures r.Ok? ==> forall m :: m in r.value ==>
        m.dateTime.Some? && clock.localDate(m.dateTime.value) == clock.localDate(clock.now) && m.game == game
    {
      var build, keep := MatchBuilder(), TodayFilter(clock);
      var matches: seq<Match> := [];
      var i := 0;
      while i < |tables|
        invariant 0 <= i <= |tables|
        invariant Collect(tables[..i], build, keep) == Ok(matches)
        invariant forall m :: m in matches ==> m.dateTime.Some? && IsMatchToday(m.dateTime, clock) && m.game == game
      {
        assert tables[..i + 1][..i] == tables[..i];
        match ExtractMatch(tables[i])
        case Err(e) =>
          CollectErrPersists(tables, i + 1, build, keep);
          CollectFails(tables, build, keep);
          return Err(e);
        case Ok(m) =>
          if m.dateTime.Some? && IsMatchToday(m.dateTime, clock) {
            matches := matches + [m];
          }
        i := i + 1;
      }
      assert tables[..i] == tables;
      CollectFails(tables, build, keep);
      r := Ok(matches);
    }

    /** `getUpcomingMatches`, with `fetchHtmlContent` given by `fetch` (the
        outcome for a URL) and JSDOM's match-table query by `dom`: never
        throws; any failure yields no matches, success yields the
        extraction unchanged. */
    method GetUpcomingMatches(fetch: string -> Fetched<string>, dom: string -> seq<MatchBlock>, clock: Clock)
      returns (r: seq<Match>)
      ensures r == match fetch(GetLiquipediaUrl())
                   case Failed => []
                   case Received(html) =>
                     match ExtractedMatches(dom(html), clock) case Ok(ms) => ms case Err(_) => []
      ensures forall m :: m in r ==>
        m.dateTime.Some? && clock.localDate(m.dateTime.value) == clock.localDate(clock.now) && m.game == game
    {
      var response := fetch(GetLiquipediaUrl());
      if response.Failed? {
        return [];
      }
      var extracted := ExtractMatchesFromHtml(dom(response.body), clock);
      if extracted.Err? {
        return [];
      }
      r := extracted.value;
    }
  }

  /** Two scrapers of games without '/' read the same page exactly when
      they are for the same game and team. */
  lemma {:induction false} UrlIdentifiesPage(a: LiquipediaScraper, b: LiquipediaScraper)
    requires a.baseUrl == b.baseUrl
    requires '/' !in a.game && '/' !in b.game
    requires a.GetLiquipediaUrl() == b.GetLiquipediaUrl()
    ensures a.game == b.game && a.team == b.team
  {
    PathSplitsUniquely(a.baseUrl + "/", a.game, a.team, b.game, b.team);
  }

  /** The first '/' after the prefix ends the game segment. */
  lemma {:induction false} PathSplitsUniquely(p: string, g1: string, t1: string, g2: string, t2: string)
    requires '/' !in g1 && '/' !in g2
    requires p + g1 + "/" + t1 == p + g2 + "/" + t2
    ensures g1 == g2 && t1 == t2
  {
    var u, v := p + g1 + "/" + t1, p + g2 + "/" + t2;
    if |g1| < |g2| {
      SlashEndsSegment(p, g1, t1, g2, t2);
      assert false;
    } else if |g2| < |g1| {
      SlashEndsSegment(p, g2, t2, g1, t1);
      assert false;
    } else {
      assert g1 == u[|p|..|p| + |g1|];
      assert g2 == v[|p|..|p| + |g2|];
      assert t1 == u[|p| + |g1| + 1..];
      assert t2 == v[|p| + |g2| + 1..];
    }
  }

  /** With a shorter '/'-free first segment, the two paths differ where
      the shorter one has its '/'. */
  lemma SlashEndsSegment(p: string, g1: string, t1: string, g2: string, t2: string)
    requires '/' !in g2 && |g1| < |g2|
    ensures (p + g1 + "/" + t1)[|p| + |g1|] == '/'
    ensures (p + g2 + "/" + t2)[|p| + |g1|] != '/'
  {
    assert (p + g2 + "/" + t2)[|p| + |g1|] == g2[|g1|];
  }

  /** The scraper lists today's matches in table order: each comes from a
      table, later tables come later, and no table of today is dropped. */
  lemma ExtractedInTableOrder(s: LiquipediaScraper, tables: seq<MatchBlock>, clock: Clock) returns (idx: seq<int>)
    requires s.ExtractedMatches(tables, clock).Ok?
    ensures var ms := s.ExtractedMatches(tables, clock).value;
      && |idx| == |ms|
      && (forall k :: 0 <= k < |idx| ==> 0 <= idx[k] < |tables| && s.ExtractMatch(tables[idx[k]]) == Ok(ms[k]))
      && (forall k, l :: 0 <= k < l < |idx| ==> idx[k] < idx[l])
      && (forall j ::
            (0 <= j < |tables| && s.ExtractMatch(tables[j]).Ok? &&
             s.IsMatchToday(s.ExtractMatch(tables[j]).value.dateTime, clock)) ==> j in idx)
  {
    idx := CollectInOrder(tables, s.MatchBuilder(), s.TodayFilter(clock));
  }

  /** Given the same sub-element lookups (the tournament anchor being the
      one each variant selects), the scraper builds the same team and
      tournament records as `match.utils.ts`: its base URL is the same. */
  lemma SameRecordsAsMatchUtils(s: LiquipediaScraper, table: MatchBlock, side: Side)
    requires s.baseUrl == BASE_URL
    ensures s.ExtractTeamData(table, side) == MatchUtils.ExtractTeamData(table, side)
    ensures s.ExtractTournamentData(table) == MatchUtils.ExtractTournamentData(table)
  {
  }

  /** No team filter: a table for today's date is kept whoever plays,
      even when neither team name could be read. */
  lemma AnyTeamKept(s: LiquipediaScraper, table: MatchBlock, clock: Clock)
    requires table.leftName.None? && table.rightName.None?
    requires s.ExtractMatch(table).Ok? && s.IsMatchToday(s.ExtractMatch(table).value.dateTime, clock)
    ensures s.ExtractedMatches([table], clock) == Ok([s.ExtractMatch(table).value])
    ensures s.ExtractMatch(table).value.teamLeft.name == UNKNOWN_TEAM
    ensures s.ExtractMatch(table).value.teamRight.name == UNKNOWN_TEAM
  {
    var m := s.ExtractMatch(table).value;
    assert [table][..0] == [];
    assert s.TodayFilter(clock)(m);
    assert Collect([table][..0], s.MatchBuilder(), s.TodayFilter(clock)) == Ok([]);
    assert [] + [m] == [m];
  }

  /** The scraper's date test and the one of match.utils.ts agree. */
  lemma TodayAsMatchUtils(s: LiquipediaScraper, dateTime: Option<int>, clock: Clock)
    ensures s.IsMatchToday(dateTime, clock) == MatchUtils.IsMatchToday(dateTime, clock)
  {
  }
}
