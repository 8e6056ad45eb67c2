/** `src/services/liquipedia.service.ts`: the variant that reads the
    upcoming-matches pages of several games, keeps every match in which a
    name of `WATCHED_TEAMS` occurs as a substring of either team name (with
    no date filter and no trimming of names), and sorts by descending time. */
module LiquipediaService {
  import opened Wrappers
  import opened Strings
  import opened Markup
  import opened StableSort
  import opened Extraction
  import MatchUtils

  /** The watch list of `src/config/liquipedia.config.ts`. */
  const WATCHED_TEAMS: seq<string> := ["M8"]

  /** One entry of `GAMES`. */
  datatype GameSource = GameSource(game: string, url: string)

  /** The envelope check of this file; its rule is the one of
      `MatchUtils.ValidateApiResponse`. */
  function ValidateApiResponse(data: Value): (r: Result<Value, Error>)
    ensures r == MatchUtils.ValidateApiResponse(data)
  {
    var parse := Get(data, "parse");
    if !Truthy(parse) || !Truthy(Get(parse, "text")) || !Truthy(Get(Get(parse, "text"), "*")) then
      Err(InvalidResponse)
    else
      Ok(Get(Get(parse, "text"), "*"))
  }

  /** `element ? element.textContent || fallback : fallback`: the raw text,
      white space included. */
  function TextOr(e: Option<Element>, fallback: string): string {
    match e
    case None => fallback
    case Some(el) => if el.textContent != [] then el.textContent else fallback
  }

  function ExtractTeamData(b: MatchBlock, side: Side): (t: Team)
    ensures t.name != []
    ensures TeamLink(b, side).Some? && TeamLink(b, side).value.textContent != []
            ==> t.name == TeamLink(b, side).value.textContent
    ensures TeamLink(b, side).None? || TeamLink(b, side).value.textContent == [] ==> t.name == UNKNOWN_TEAM
    ensures t.icon.Some? <==> TeamIcon(b, side).Some?
    ensures t.icon.Some? ==> t.icon.value == Resolve(BASE_URL, TeamIcon(b, side).value, "src")
  {
    Team(
      TextOr(TeamLink(b, side), UNKNOWN_TEAM),
      match TeamIcon(b, side) case None => None case Some(img) => Some(Resolve(BASE_URL, img, "src")))
  }

  /** The trimmed names of `match.utils.ts` are this file's raw names,
      trimmed, with a blank name replaced by the default; the icons agree. */
  lemma TrimmedNameOfRawName(b: MatchBlock, side: Side)
    ensures var raw := ExtractTeamData(b, side).name;
      MatchUtils.ExtractTeamData(b, side).name == if IsBlank(raw) then UNKNOWN_TEAM else Trim(raw)
    ensures MatchUtils.ExtractTeamData(b, side).icon == ExtractTeamData(b, side).icon
  {
    var raw := ExtractTeamData(b, side).name;
    if raw == UNKNOWN_TEAM {
      TrimOfFramed([], UNKNOWN_TEAM, []);
      assert [] + UNKNOWN_TEAM + [] == UNKNOWN_TEAM;
      assert !IsWhitespace(UNKNOWN_TEAM[0]);
    }
  }

  /** A link whose text is only white space keeps that text as the team
      name here, where `match.utils.ts` falls back to "Unknown Team". */
  lemma BlankNameKept(b: MatchBlock, side: Side)
    requires TeamLink(b, side).Some?
    requires var text := TeamLink(b, side).value.textContent; text != [] && IsBlank(text)
    ensures ExtractTeamData(b, side).name == TeamLink(b, side).value.textContent
    ensures MatchUtils.ExtractTeamData(b, side).name == UNKNOWN_TEAM
  {
  }

  function ExtractTournamentData(b: MatchBlock): (t: Tournament)
    ensures t.name != []
    ensures b.tournament.Some? && b.tournament.value.textContent != []
            ==> t.name == b.tournament.value.textContent
    ensures b.tournament.None? || b.tournament.value.textContent == [] ==> t.name == UNKNOWN_TOURNAMENT
    ensures t.link.Some? <==> b.tournament.Some?
    ensures t.link.Some? ==> t.link.value == Resolve(BASE_URL, b.tournament.value, "href")
  {
    Tournament(
      TextOr(b.tournament, UNKNOWN_TOURNAMENT),
      match b.tournament case None => None case Some(a) => Some(Resolve(BASE_URL, a, "href")))
  }

  /** The same time rule as `match.utils.ts`, written with a conditional. */
  function ExtractDateTime(b: MatchBlock): (r: Result<Option<int>, Error>)
    ensures r == MatchUtils.ExtractDateTime(b)
  {
    var timestamp := if b.timer.Some? then GetAttribute(b.timer.value, "data-timestamp") else None;
    if timestamp.None? || timestamp.value == [] then Ok(None)
    else match InstantOf(timestamp.value) case Err(e) => Err(e) case Ok(ms) => Ok(Some(ms))
  }

  /** The same format rule as `match.utils.ts`, written with a conditional. */
  function ExtractMatchFormat(b: MatchBlock): (r: Option<string>)
    ensures r == MatchUtils.ExtractMatchFormat(b)
  {
    if b.formatAbbr.Some? then
      var f := ToUpper(Trim(b.formatAbbr.value.textContent));
      if f != [] then Some(f) else None
    else None
  }

  /** `WATCHED_TEAMS.some(name => left.includes(name) || right.includes(name))`. */
  function IsTeamInMatch(teamLeftName: string, teamRightName: string, watchedTeams: seq<string>): (r: bool)
    ensures r <==> exists i :: 0 <= i < |watchedTeams| &&
                              (Includes(teamLeftName, watchedTeams[i]) || Includes(teamRightName, watchedTeams[i]))
  {
    if watchedTeams == [] then false
    else
      (Includes(teamLeftName, watchedTeams[0]) || Includes(teamRightName, watchedTeams[0]))
      || IsTeamInMatch(teamLeftName, teamRightName, watchedTeams[1..])
  }

  /** The substring test accepts every match the exact test accepts. */
  lemma ExactImpliesSubstring(teamLeftName: string, teamRightName: string, watchedTeam: string)
    requires MatchUtils.IsTeamInMatch(teamLeftName, teamRightName, watchedTeam)
    ensures IsTeamInMatch(teamLeftName, teamRightName, [watchedTeam])
  {
    IncludesSelf(watchedTeam);
    assert [watchedTeam][0] == watchedTeam;
  }

  /** And more: "KC" is found in "Karmine Corp KC Blue", which the exact
      test rejects. */
  lemma SubstringIsLooser()
    ensures IsTeamInMatch("Karmine Corp KC Blue", "G2 Esports", ["KC"])
    ensures !MatchUtils.IsTeamInMatch("Karmine Corp KC Blue", "G2 Esports", "KC")
  {
    assert OccursAt("Karmine Corp KC Blue", "KC", 13);
  }

  /** The record of one `.match` block. */
  function ExtractMatch(b: MatchBlock, gameName: string): (r: Result<Match, Error>)
    ensures r.Err? <==> MatchUtils.ExtractDateTime(b).Err?
    ensures r.Ok? ==> r.value.game == gameName && r.value.dateTime == MatchUtils.ExtractDateTime(b).value
  {
    match ExtractDateTime(b)
    case Err(e) => Err(e)
    case Ok(dateTime) =>
      Ok(Match(ExtractTeamData(b, Left), ExtractTeamData(b, Right), ExtractTournamentData(b),
               dateTime, ExtractMatchFormat(b), gameName))
  }

  function MatchBuilder(gameName: string): MatchBlock -> Result<Match, Error> {
    b => ExtractMatch(b, gameName)
  }

  /** The only filter of `extractMatches`: the team test, no date test. */
  predicate Watched(m: Match) {
    IsTeamInMatch(m.teamLeft.name, m.teamRight.name, WATCHED_TEAMS)
  }

  function WatchedFilter(): Match -> bool {
    m => Watched(m)
  }

  /** What `extractMatches` computes for the `.match` blocks of a page. */
  function ExtractedMatches(blocks: seq<MatchBlock>, gameName: string): Result<seq<Match>, Error> {
    Collect(blocks, MatchBuilder(gameName), WatchedFilter())
  }

  method ExtractMatches(blocks: seq<MatchBlock>, gameName: string) returns (r: Result<seq<Match>, Error>)
    ensures r == ExtractedMatches(blocks, gameName)
    ensures r.Err? <==> exists i :: 0 <= i < |blocks| && MatchUtils.ExtractDateTime(blocks[i]).Err?
    ensures r.Ok? ==> forall m :: m in r.value ==>
      IsTeamInMatch(m.teamLeft.name, m.teamRight.name, WATCHED_TEAMS) && m.game == gameName
  {
    var build, keep := MatchBuilder(gameName), WatchedFilter();
    var matches: seq<Match> := [];
    var i := 0;
    while i < |blocks|
      invariant 0 <= i <= |blocks|
      invariant Collect(blocks[..i], build, keep) == Ok(matches)
      invariant forall m :: m in matches ==> Watched(m) && m.game == gameName
    {
      assert blocks[..i + 1][..i] == blocks[..i];
      match ExtractMatch(blocks[i], gameName)
      case Err(e) =>
        CollectErrPersists(blocks, i + 1, build, keep);
        CollectFails(blocks, build, keep);
        return Err(e);
      case Ok(m) =>
        if Watched(m) {
          matches := matches + [m];
        }
      i := i + 1;
    }
    assert blocks[..i] == blocks;
    CollectFails(blocks, build, keep);
    r := Ok(matches);
  }

  /** No date filter: a watched match without a timer is kept, with no
      time. */
  lemma UntimedMatchKept(b: MatchBlock, gameName: string)
    requires b.timer.None?
    requires IsTeamInMatch(ExtractTeamData(b, Left).name, ExtractTeamData(b, Right).name, WATCHED_TEAMS)
    ensures ExtractMatch(b, gameName).Ok? && ExtractMatch(b, gameName).value.dateTime.None?
    ensures ExtractedMatches([b], gameName) == Ok([ExtractMatch(b, gameName).value])
  {
    assert [b][..0] == [];
    var m := ExtractMatch(b, gameName).value;
    assert Watched(m);
    assert Collect([b][..0], MatchBuilder(gameName), WatchedFilter()) == Ok([]);
    assert [] + [m] == [m];
  }

  /** The list is kept in document order, as `match.utils.ts` keeps it. */
  lemma ExtractedInDocumentOrder(blocks: seq<MatchBlock>, gameName: string) returns (idx: seq<int>)
    requires ExtractedMatches(blocks, gameName).Ok?
    ensures var ms := ExtractedMatches(blocks, gameName).value;
      && |idx| == |ms|
      && (forall k :: 0 <= k < |idx| ==> 0 <= idx[k] < |blocks| && ExtractMatch(blocks[idx[k]], gameName) == Ok(ms[k]))
      && (forall k, l :: 0 <= k < l < |idx| ==> idx[k] < idx[l])
      && (forall j ::
            (0 <= j < |blocks| && ExtractMatch(blocks[j], gameName).Ok? &&
             Watched(ExtractMatch(blocks[j], gameName).value)) ==> j in idx)
  {
    idx := CollectInOrder(blocks, MatchBuilder(gameName), WatchedFilter());
  }

  /** The final sort of `fetchAllMatches`: descending by time, a missing
      time counting as 0, equal times in their original order. */
  function SortByDateDescending(matches: seq<Match>): (r: seq<Match>)
    ensures forall i, j :: 0 <= i < j < |r| ==> DateKey(r[i]) >= DateKey(r[j])
    ensures multiset(r) == multiset(matches)
  {
    var r := SortBy(matches, NegatedDateKey);
    assert forall i, j :: 0 <= i < j < |r| ==> NegatedDateKey(r[i]) <= NegatedDateKey(r[j]);
    r
  }

  /** Stability of the descending sort. */
  lemma SortByDateDescendingStable(matches: seq<Match>, t: int)
    ensures WithKey(SortByDateDescending(matches), NegatedDateKey, -t) == WithKey(matches, NegatedDateKey, -t)
  {
    SortByStable(matches, NegatedDateKey, -t);
  }

  /** A match without a time comes after every match after the epoch. */
  lemma UntimedLast(matches: seq<Match>, i: int, j: int)
    requires 0 <= i < |SortByDateDescending(matches)| && 0 <= j < |SortByDateDescending(matches)|
    requires SortByDateDescending(matches)[i].dateTime.None?
    requires SortByDateDescending(matches)[j].dateTime.Some? && SortByDateDescending(matches)[j].dateTime.value > 0
    ensures j < i
  {
  }

  /** One source inside the `try`. */
  function SourceMatches(source: GameSource, fetch: string -> Fetched<Value>, dom: Value -> seq<MatchBlock>)
    : Result<seq<Match>, Error>
  {
    match fetch(source.url)
    case Failed => Err(FetchFailed)
    case Received(data) =>
      match ValidateApiResponse(data)
      case Err(e) => Err(e)
      case Ok(html) => ExtractedMatches(dom(html), source.game)
  }

  lemma SourceSucceeded(source: GameSource, fetch: string -> Fetched<Value>, dom: Value -> seq<MatchBlock>)
    returns (html: Value)
    requires SourceMatches(source, fetch, dom).Ok?
    ensures fetch(source.url).Received? && ValidateApiResponse(fetch(source.url).body) == Ok(html)
    ensures SourceMatches(source, fetch, dom) == ExtractedMatches(dom(html), source.game)
  {
    html := ValidateApiResponse(fetch(source.url).body).value;
  }

  function SourcePass(fetch: string -> Fetched<Value>, dom: Value -> seq<MatchBlock>)
    : GameSource -> Result<seq<Match>, Error>
  {
    source => SourceMatches(source, fetch, dom)
  }

  /** `fetchAllMatches` of this file over the `GAMES` entries. */
  method FetchAllMatches(games: seq<GameSource>, fetch: string -> Fetched<Value>, dom: Value -> seq<MatchBlock>)
    returns (r: seq<Match>)
    ensures r == SortByDateDescending(Gather(games, SourcePass(fetch, dom)))
  {
    var pass := SourcePass(fetch, dom);
    var matches: seq<Match> := [];
    var i := 0;
    while i < |games|
      invariant 0 <= i <= |games|
      invariant matches == Gather(games[..i], pass)
    {
      var source := games[i];
      assert games[..i + 1][..i] == games[..i];
      var response := fetch(source.url);
      if response.Received? {
        var valid := ValidateApiResponse(response.body);
        if valid.Ok? {
          var extracted := ExtractMatches(dom(valid.value), source.game);
          if extracted.Ok? {
            matches := matches + extracted.value;
          }
        }
      }
      i := i + 1;
    }
    assert games[..i] == games;
    r := SortByDateDescending(matches);
  }

  /** Every extracted match is watched and carries the page's game. */
  lemma ExtractedWatched(blocks: seq<MatchBlock>, gameName: string, m: Match)
    requires ExtractedMatches(blocks, gameName).Ok?
    requires m in ExtractedMatches(blocks, gameName).value
    ensures Watched(m) && m.game == gameName
  {
    var ms := ExtractedMatches(blocks, gameName).value;
    var idx := CollectInOrder(blocks, MatchBuilder(gameName), WatchedFilter());
    var k :| 0 <= k < |ms| && ms[k] == m;
    assert WatchedFilter()(ms[k]);
  }

  /** Every match returned is watched and comes from one of the games. */
  lemma FetchedMatchesWatched(games: seq<GameSource>, fetch: string -> Fetched<Value>,
                              dom: Value -> seq<MatchBlock>, m: Match)
    requires m in SortByDateDescending(Gather(games, SourcePass(fetch, dom)))
    ensures Watched(m)
    ensures exists i :: 0 <= i < |games| && m.game == games[i].game
  {
    var pass := SourcePass(fetch, dom);
    assert m in multiset(Gather(games, pass));
    GatherFrom(games, pass, m);
    var i :| 0 <= i < |games| && pass(games[i]).Ok? && m in pass(games[i]).value;
    var html := SourceSucceeded(games[i], fetch, dom);
    ExtractedWatched(dom(html), games[i].game, m);
  }

  /** A failing URL contributes nothing and does not disturb the others. */
  lemma FailingSourceIsolated(before: seq<GameSource>, source: GameSource, after: seq<GameSource>,
                              fetch: string -> Fetched<Value>, dom: Value -> seq<MatchBlock>)
    requires SourceMatches(source, fetch, dom).Err?
    ensures var pass := SourcePass(fetch, dom);
      Gather(before + [source] + after, pass) == Gather(before, pass) + Gather(after, pass)
  {
    FailureIsolated(before, source, after, SourcePass(fetch, dom));
  }
}
