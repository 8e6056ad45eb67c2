/** `src/utils/match.utils.ts`: fetch one wiki API page per watched
    (game, team) entry, keep the matches where that team plays under
    exactly that name today, and sort everything by ascending time. */
module MatchUtils {
  import opened Wrappers
  import opened Strings
  import opened Markup
  import opened StableSort
  import opened Extraction

  /** One entry of `WATCHED_GAMES`. */
  datatype WatchedGame = WatchedGame(name: string, team: string, apiUrl: string)

  /** The envelope check: the body must hold a truthy
      `parse.text["*"]`, which is the HTML to read; its parents then are
      objects. An empty HTML string is rejected like a missing one. */
  function ValidateApiResponse(data: Value): (r: Result<Value, Error>)
    ensures r.Ok? <==> Get(data, "parse").Obj? && Get(Get(data, "parse"), "text").Obj?
                       && Truthy(Get(Get(Get(data, "parse"), "text"), "*"))
    ensures r.Ok? ==> r.value == Get(Get(Get(data, "parse"), "text"), "*")
    ensures r.Err? ==> r.error == InvalidResponse
  {
    var parse := Get(data, "parse");
    if !Truthy(parse) || !Truthy(Get(parse, "text")) || !Truthy(Get(Get(parse, "text"), "*")) then
      Err(InvalidResponse)
    else
      Ok(Get(Get(parse, "text"), "*"))
  }

  /** The well-formed envelope passes with its HTML exactly when that HTML
      is truthy; in particular `""` is refused. */
  lemma ValidateEnvelope(html: Value)
    ensures ValidateApiResponse(Envelope(html)) == if Truthy(html) then Ok(html) else Err(InvalidResponse)
    ensures ValidateApiResponse(Envelope(Str(""))).Err?
  {
  }

  /** `element?.textContent?.trim() || fallback`. */
  function TrimmedTextOr(e: Option<Element>, fallback: string): string {
    match e
    case None => fallback
    case Some(el) => if Trim(el.textContent) != [] then Trim(el.textContent) else fallback
  }

  function ExtractTeamData(b: MatchBlock, side: Side): (t: Team)
    ensures t.name != [] && IsTrimmed(t.name)
    ensures TeamLink(b, side).Some? && !IsBlank(TeamLink(b, side).value.textContent)
            ==> t.name == Trim(TeamLink(b, side).value.textContent)
    ensures TeamLink(b, side).None? || IsBlank(TeamLink(b, side).value.textContent) ==> t.name == UNKNOWN_TEAM
    ensures t.icon.Some? <==> TeamIcon(b, side).Some?
    ensures t.icon.Some? ==> t.icon.value == Resolve(BASE_URL, TeamIcon(b, side).value, "src")
  {
    Team(
      TrimmedTextOr(TeamLink(b, side), UNKNOWN_TEAM),
      match TeamIcon(b, side) case None => None case Some(img) => Some(Resolve(BASE_URL, img, "src")))
  }

  function ExtractTournamentData(b: MatchBlock): (t: Tournament)
    ensures t.name != [] && IsTrimmed(t.name)
    ensures b.tournament.Some? && !IsBlank(b.tournament.value.textContent)
            ==> t.name == Trim(b.tournament.value.textContent)
    ensures b.tournament.None? || IsBlank(b.tournament.value.textContent) ==> t.name == UNKNOWN_TOURNAMENT
    ensures t.link.Some? <==> b.tournament.Some?
    ensures t.link.Some? ==> t.link.value == Resolve(BASE_URL, b.tournament.value, "href")
  {
    Tournament(
      TrimmedTextOr(b.tournament, UNKNOWN_TOURNAMENT),
      match b.tournament case None => None case Some(a) => Some(Resolve(BASE_URL, a, "href")))
  }

  /** No time when the timer or its `data-timestamp` is missing or empty;
      otherwise the timestamp in seconds, times 1000, or the RangeError of
      a timestamp that is not a valid time. */
  function ExtractDateTime(b: MatchBlock): (r: Result<Option<int>, Error>)
    ensures r == Ok(None) <==> Timestamp(b).None? || Timestamp(b).value == []
    ensures r.Ok? && r.value.Some? ==>
      && ToNumber(Timestamp(b).value).Some?
      && r.value.value == ToNumber(Timestamp(b).value).value * 1000
      && -MAX_TIME_MS <= r.value.value <= MAX_TIME_MS
    ensures r.Err? <==> Timestamp(b).Some? && Timestamp(b).value != [] && InstantOf(Timestamp(b).value).Err?
  {
    match Timestamp(b)
    case None => Ok(None)
    case Some(ts) =>
      if ts == [] then Ok(None)
      else match InstantOf(ts) case Err(e) => Err(e) case Ok(ms) => Ok(Some(ms))
  }

  /** The format is the trimmed, upper-cased abbreviation, or null when it
      is missing or blank; so it is never empty. */
  function ExtractMatchFormat(b: MatchBlock): (r: Option<string>)
    ensures r.None? <==> b.formatAbbr.None? || IsBlank(b.formatAbbr.value.textContent)
    ensures r.Some? ==> r.value == ToUpper(Trim(b.formatAbbr.value.textContent))
    ensures r.Some? ==> r.value != [] && IsTrimmed(r.value)
  {
    match b.formatAbbr
    case None => None
    case Some(abbr) =>
      var f := ToUpper(Trim(abbr.textContent));
      UpperKeepsTrimmed(Trim(abbr.textContent));
      if f != [] then Some(f) else None
  }

  /** The exact team test: the watched name is one of the two names. A
      match passing it also passes the looser substring test. */
  predicate IsTeamInMatch(teamLeftName: string, teamRightName: string, watchedTeam: string): (r: bool)
    ensures r <==> watchedTeam in [teamLeftName, teamRightName]
    ensures r ==> Includes(teamLeftName, watchedTeam) || Includes(teamRightName, watchedTeam)
  {
    IncludesSelf(watchedTeam);
    teamLeftName == watchedTeam || teamRightName == watchedTeam
  }

  /** Never for a match without a time; otherwise the local day, month and
      year of the match are those of now, that is, the same local date. */
  predicate IsMatchToday(dateTime: Option<int>, clock: Clock): (r: bool)
    ensures dateTime.None? ==> !r
    ensures dateTime.Some? ==> (r <==> clock.localDate(dateTime.value) == clock.localDate(clock.now))
  {
    match dateTime
    case None => false
    case Some(t) =>
      var matchDate, today := clock.localDate(t), clock.localDate(clock.now);
      matchDate.day == today.day && matchDate.month == today.month && matchDate.year == today.year
  }

  /** The record of one `.match` block: every field is extracted before the
      filter is applied, so a bad timestamp throws for any block. */
  function ExtractMatch(b: MatchBlock, gameName: string): (r: Result<Match, Error>)
    ensures r.Err? <==> ExtractDateTime(b).Err?
    ensures r.Ok? ==> r.value.game == gameName && r.value.dateTime == ExtractDateTime(b).value
  {
    match ExtractDateTime(b)
    case Err(e) => Err(e)
    case Ok(dateTime) =>
      Ok(Match(ExtractTeamData(b, Left), ExtractTeamData(b, Right), ExtractTournamentData(b),
               dateTime, ExtractMatchFormat(b), gameName))
  }

  function MatchBuilder(gameName: string): MatchBlock -> Result<Match, Error> {
    b => ExtractMatch(b, gameName)
  }

  /** The filter of `extractMatchesFromHtml`. */
  predicate Relevant(m: Match, watchedTeam: string, clock: Clock) {
    IsTeamInMatch(m.teamLeft.name, m.teamRight.name, watchedTeam) && IsMatchToday(m.dateTime, clock)
  }

  function RelevanceFilter(watchedTeam: string, clock: Clock): Match -> bool {
    m => Relevant(m, watchedTeam, clock)
  }

  /** What `extractMatchesFromHtml` computes for the `.match` blocks of a page. */
  function ExtractedMatches(blocks: seq<MatchBlock>, gameName: string, watchedTeam: string, clock: Clock): Result<seq<Match>, Error> {
    Collect(blocks, MatchBuilder(gameName), RelevanceFilter(watchedTeam, clock))
  }

  method ExtractMatchesFromHtml(blocks: seq<MatchBlock>, gameName: string, watchedTeam: string, clock: Clock)
    returns (r: Result<seq<Match>, Error>)
    ensures r == ExtractedMatches(blocks, gameName, watchedTeam, clock)
    ensures r.Err? <==> exists i :: 0 <= i < |blocks| && ExtractDateTime(blocks[i]).Err?
    ensures r.Ok? ==> forall m :: m in r.value ==>
      && (m.teamLeft.name == watchedTeam || m.teamRight.name == watchedTeam)
      && m.dateTime.Some? && clock.localDate(m.dateTime.value) == clock.localDate(clock.now)
      && m.game == gameName
  {
    var build, keep := MatchBuilder(gameName), RelevanceFilter(watchedTeam, clock);
    var matches: seq<Match> := [];
    var i := 0;
    while i < |blocks|
      invariant 0 <= i <= |blocks|
      invariant Collect(blocks[..i], build, keep) == Ok(matches)
      invariant forall m :: m in matches ==> Relevant(m, watchedTeam, clock) && m.game == gameName
    {
      assert blocks[..i + 1][..i] == blocks[..i];
      match ExtractMatch(blocks[i], gameName)
      case Err(e) =>
        CollectErrPersists(blocks, i + 1, build, keep);
        CollectFails(blocks, build, keep);
        return Err(e);
      case Ok(m) =>
        if Relevant(m, watchedTeam, clock) {
          matches := matches + [m];
        }
      i := i + 1;
    }
    assert blocks[..i] == blocks;
    CollectFails(blocks, build, keep);
    r := Ok(matches);
  }

  /** The result lists the relevant matches in document order: each comes
      from a block, later blocks come later, and no relevant block is
      dropped. */
  lemma ExtractedInDocumentOrder(blocks: seq<MatchBlock>, gameName: string, watchedTeam: string, clock: Clock)
    returns (idx: seq<int>)
    requires ExtractedMatches(blocks, gameName, watchedTeam, clock).Ok?
    ensures var ms := ExtractedMatches(blocks, gameName, watchedTeam, clock).value;
      && |idx| == |ms|
      && (forall k :: 0 <= k < |idx| ==> 0 <= idx[k] < |blocks| && ExtractMatch(blocks[idx[k]], gameName) == Ok(ms[k]))
      && (forall k, l :: 0 <= k < l < |idx| ==> idx[k] < idx[l])
      && (forall j ::
            (0 <= j < |blocks| && ExtractMatch(blocks[j], gameName).Ok? &&
             Relevant(ExtractMatch(blocks[j], gameName).value, watchedTeam, clock)) ==> j in idx)
  {
    idx := CollectInOrder(blocks, MatchBuilder(gameName), RelevanceFilter(watchedTeam, clock));
  }

  /** `sortMatchesByDate`: ascending by time, a missing time counting as 0,
      equal times in their original order. */
  function SortMatchesByDate(matches: seq<Match>): (r: seq<Match>)
    ensures forall i, j :: 0 <= i < j < |r| ==> DateKey(r[i]) <= DateKey(r[j])
    ensures multiset(r) == multiset(matches)
  {
    SortBy(matches, DateKey)
  }

  /** Stability: matches at the same time keep their order. */
  lemma SortMatchesByDateStable(matches: seq<Match>, t: int)
    ensures WithKey(SortMatchesByDate(matches), DateKey, t) == WithKey(matches, DateKey, t)
  {
    SortByStable(matches, DateKey, t);
  }

  /** A match without a time sorts before every match after the epoch. */
  lemma UntimedFirst(matches: seq<Match>, i: int, j: int)
    requires 0 <= i < |SortMatchesByDate(matches)| && 0 <= j < |SortMatchesByDate(matches)|
    requires SortMatchesByDate(matches)[i].dateTime.None?
    requires SortMatchesByDate(matches)[j].dateTime.Some? && SortMatchesByDate(matches)[j].dateTime.value > 0
    ensures i < j
  {
  }

  /** The passes of one source inside the `try`: a failed fetch, a bad
      envelope and a throwing extraction all end in an error. */
  function SourceMatches(source: WatchedGame, fetch: string -> Fetched<Value>,
                         dom: Value -> seq<MatchBlock>, clock: Clock): Result<seq<Match>, Error>
  {
    match fetch(source.apiUrl)
    case Failed => Err(FetchFailed)
    case Received(data) =>
      match ValidateApiResponse(data)
      case Err(e) => Err(e)
      case Ok(html) => ExtractedMatches(dom(html), source.name, source.team, clock)
  }

  /** A source succeeds only through a received body, a valid envelope and
      a successful extraction of its HTML. */
  lemma SourceSucceeded(source: WatchedGame, fetch: string -> Fetched<Value>,
                        dom: Value -> seq<MatchBlock>, clock: Clock) returns (html: Value)
    requires SourceMatches(source, fetch, dom, clock).Ok?
    ensures fetch(source.apiUrl).Received? && ValidateApiResponse(fetch(source.apiUrl).body) == Ok(html)
    ensures SourceMatches(source, fetch, dom, clock) == ExtractedMatches(dom(html), source.name, source.team, clock)
  {
    html := ValidateApiResponse(fetch(source.apiUrl).body).value;
  }

  function SourcePass(fetch: string -> Fetched<Value>, dom: Value -> seq<MatchBlock>, clock: Clock)
    : WatchedGame -> Result<seq<Match>, Error>
  {
    source => SourceMatches(source, fetch, dom, clock)
  }

  /** `fetchAllMatches`, with each `fetch` given by `fetch` (the outcome for
      an API URL) and JSDOM's `.match` query by `dom`. */
  method FetchAllMatches(watchedGames: seq<WatchedGame>, fetch: string -> Fetched<Value>,
                         dom: Value -> seq<MatchBlock>, clock: Clock)
    returns (r: seq<Match>)
    ensures r == SortMatchesByDate(Gather(watchedGames, SourcePass(fetch, dom, clock)))
  {
    var pass := SourcePass(fetch, dom, clock);
    var matches: seq<Match> := [];
    var i := 0;
    while i < |watchedGames|
      invariant 0 <= i <= |watchedGames|
      invariant matches == Gather(watchedGames[..i], pass)
    {
      var game := watchedGames[i];
      assert watchedGames[..i + 1][..i] == watchedGames[..i];
      var response := fetch(game.apiUrl);
      if response.Received? {
        var valid := ValidateApiResponse(response.body);
        if valid.Ok? {
          var extracted := ExtractMatchesFromHtml(dom(valid.value), game.name, game.team, clock);
          if extracted.Ok? {
            matches := matches + extracted.value;
          }
        }
      }
      i := i + 1;
    }
    assert watchedGames[..i] == watchedGames;
    r := SortMatchesByDate(matches);
  }

  /** Every extracted match is relevant and carries the page's game. */
  lemma ExtractedRelevant(blocks: seq<MatchBlock>, gameName: string, watchedTeam: string, clock: Clock, m: Match)
    requires ExtractedMatches(blocks, gameName, watchedTeam, clock).Ok?
    requires m in ExtractedMatches(blocks, gameName, watchedTeam, clock).value
    ensures Relevant(m, watchedTeam, clock) && m.game == gameName
  {
    var ms := ExtractedMatches(blocks, gameName, watchedTeam, clock).value;
    var idx := ExtractedInDocumentOrder(blocks, gameName, watchedTeam, clock);
    var k :| 0 <= k < |ms| && ms[k] == m;
    var build, keep := MatchBuilder(gameName), RelevanceFilter(watchedTeam, clock);
    var _ := CollectInOrder(blocks, build, keep);
    assert keep(ms[k]);
  }

  /** Every match `fetchAllMatches` returns comes from a watched entry whose
      team plays in it under exactly that name, today, in that game. */
  lemma FetchedMatchesRelevant(watchedGames: seq<WatchedGame>, fetch: string -> Fetched<Value>,
                               dom: Value -> seq<MatchBlock>, clock: Clock, m: Match)
    requires m in SortMatchesByDate(Gather(watchedGames, SourcePass(fetch, dom, clock)))
    ensures exists i :: 0 <= i < |watchedGames| && m.game == watchedGames[i].name &&
                        (m.teamLeft.name == watchedGames[i].team || m.teamRight.name == watchedGames[i].team)
    ensures IsMatchToday(m.dateTime, clock)
  {
    var pass := SourcePass(fetch, dom, clock);
    var all := Gather(watchedGames, pass);
    assert m in multiset(all);
    GatherFrom(watchedGames, pass, m);
    var i :| 0 <= i < |watchedGames| && pass(watchedGames[i]).Ok? && m in pass(watchedGames[i]).value;
    var g := watchedGames[i];
    var html := SourceSucceeded(g, fetch, dom, clock);
    ExtractedRelevant(dom(html), g.name, g.team, clock, m);
  }

  /** A source that fails, at any step, leaves the others' matches as they
      would be without it. */
  lemma FailingSourceIsolated(before: seq<WatchedGame>, source: WatchedGame, after: seq<WatchedGame>,
                              fetch: string -> Fetched<Value>, dom: Value -> seq<MatchBlock>, clock: Clock)
    requires SourceMatches(source, fetch, dom, clock).Err?
    ensures var pass := SourcePass(fetch, dom, clock);
      Gather(before + [source] + after, pass) == Gather(before, pass) + Gather(after, pass)
  {
    FailureIsolated(before, source, after, SourcePass(fetch, dom, clock));
  }
}
