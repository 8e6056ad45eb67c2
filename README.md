# daily-kcorp-matches: match extraction, filtering and sorting

This project models the part of daily-kcorp-matches that turns Liquipedia
pages into the day's match list. The pipeline has three steps:

1. Extraction. A page's match blocks become `Match` records, with fixed
   defaults for missing parts: "Unknown Team", "Unknown Tournament", and
   null for a missing icon, link, time or format.
2. Filter. Some matches are kept and the rest dropped.
3. Sort. The kept matches of every source are concatenated and sorted.

The repository writes this pipeline three times, with different rules.
Each is a separate module:

- `MatchUtils` (`src/utils/match.utils.ts`):
  - one wiki API page per watched (game, team) entry;
  - trimmed names;
  - keeps a match only when the watched team is exactly one of the two names and the match is today;
  - ascending sort by time.
- `LiquipediaService` (`src/services/liquipedia.service.ts`):
  - raw, untrimmed names;
  - keeps a match when some name of `WATCHED_TEAMS` is a substring of either team name;
  - no date filter;
  - descending sort by time.
- `Scraper` (`src/utils/scraper.class.ts`):
  - the class `LiquipediaScraper`, bound to one team page of one game;
  - keeps every match timed today, whoever plays;
  - any failure becomes an empty list.

Shared modules:

- `Strings`: JavaScript's `trim`, ASCII `toUpperCase`, `includes`, and `Number` on decimal strings.
- `Markup`: the JSON envelope, the abstract DOM, the records, the clock and the errors.
- `StableSort`: `Array.prototype.sort` as a stable sort by an integer key.
- `Extraction`: the two loops every variant has.
  - `Collect` is the `forEach`/`push` over blocks, aborted by the first throw.
  - `Gather` is the per-source `try`/`catch` loop.

How the environment is represented:

- **DOM.** A match block is the list of elements its CSS sub-selectors find. Each element is its `textContent` and its attributes. JSDOM's block query is a function parameter `dom`.
- **Network.** A fetch is a function from URL to outcome: failed, or the decoded body.
- **Time.** Instants are integer milliseconds since the epoch. The clock gives "now" and an uninterpreted local calendar date of any instant.

Facts about the code that the model keeps:

- `liquipedia.service.ts` sorts its matches by time descending; `match.utils.ts` sorts ascending.
- A missing `src` or `href` attribute on an element that exists gives a URL ending in the text "null".
- A match where neither team name could be read is still kept when it passes the filter.
- No store remembers the matches already found: each run returns all of them again.

`src/config.ts` at this revision exports neither `BASE_URL` nor `WATCHED_GAMES`, although `match.utils.ts` imports both. The model uses the `BASE_URL` of `src/config/liquipedia.config.ts`, which equals the scraper's own base URL. The watched games are a parameter.

## Model

| member | source | states |
|---|---|---|
| Strings.Trim | src/utils/match.utils.ts:109 | `trim` removes leading and trailing white space only: the result is the input with a blank prefix and a blank suffix cut off, and it starts and ends with non-space. It is empty exactly when the input is blank. |
| Strings.TrimOfFramed | src/utils/match.utils.ts:109 | Trimming white space around already-trimmed text gives back exactly that text. |
| Strings.TrimIdempotent | src/utils/match.utils.ts:109 | Trimming twice is trimming once. |
| Strings.ToUpper | src/utils/match.utils.ts:149 | `toUpperCase` keeps the length, maps each character on its own, and leaves no lower-case ASCII letter. |
| Strings.UpperKeepsTrimmed | src/utils/match.utils.ts:149 | Upper-casing trimmed text keeps it trimmed, and keeps it non-empty when it was non-empty. |
| Strings.Includes | src/services/liquipedia.service.ts:115 | `includes` is true exactly when the pattern occurs at some position of the text. |
| Strings.IncludesSelf | src/services/liquipedia.service.ts:115 | Every name includes itself. |
| Strings.ToNumber | src/utils/match.utils.ts:139 | `Number` of a blank string is 0. |
| Strings.DecimalValue | src/utils/match.utils.ts:139 | The decimal digits of n denote n. |
| Strings.NumberOfDecimal | src/utils/match.utils.ts:139 | `Number` of a decimal numeral with surrounding white space is its value. |
| Strings.NumberOfSignedDigits | src/utils/match.utils.ts:139 | `Number` of a minus sign and a run of digits, with surrounding white space, is minus the value of the digits. |
| StableSort.Insert | src/utils/match.utils.ts:191-195 | Inserting one element adds exactly that element and keeps a sorted list sorted. |
| StableSort.SortBy | src/utils/match.utils.ts:191-195 | The sort returns a permutation of its input, ordered by the key. |
| StableSort.SortByStable | src/utils/match.utils.ts:191-195 | Elements with equal keys keep their relative order. |
| StableSort.SortedStableUnique | src/utils/match.utils.ts:191-195 | Two ordered lists with the same elements per key, in the same order, are equal. |
| StableSort.SortByIsTheStableSort | src/utils/match.utils.ts:191-195 | Any ordered, order-preserving rearrangement of the input is the result of `SortBy`. |
| StableSort.WithKeyAppend | src/utils/match.utils.ts:191-195 | The group of a key in a concatenation is the concatenation of the groups. |
| Extraction.CollectErrPersists | src/utils/match.utils.ts:69-89 | Once a block throws, the later blocks change nothing: the whole extraction throws that error. |
| Extraction.CollectFails | src/utils/match.utils.ts:69-89 | Extraction throws exactly when building some block's record throws. |
| Extraction.CollectInOrder | src/utils/match.utils.ts:69-91 | The output is the kept records of the blocks, in block order, and no kept block is missing. |
| Extraction.GatherAppend | src/utils/match.utils.ts:12-36 | The matches of two runs of sources are the matches of each run, concatenated. |
| Extraction.FailureIsolated | src/utils/match.utils.ts:13-35 | A failing source adds nothing and does not change the others' matches. |
| Extraction.GatherFrom | src/utils/match.utils.ts:12-36 | Every gathered match comes from a source whose pass succeeded. |
| Markup.InstantOf | src/utils/match.utils.ts:139 | `new Date(Number(ts) * 1000).toISOString()` succeeds exactly when `Number(ts)` is a number whose milliseconds are within the 8.64e15 range of `Date`. It then denotes that number times 1000 ms. Otherwise it is a RangeError. |
| MatchUtils.ValidateApiResponse | src/utils/match.utils.ts:46-50 | The envelope passes exactly when `parse`, `parse.text` and `parse.text["*"]` are truthy, and it yields that HTML. Otherwise it fails with the invalid-response error. |
| MatchUtils.ValidateEnvelope | src/utils/match.utils.ts:46-50 | A well-formed envelope passes exactly when its HTML is truthy, so an empty HTML string is refused. |
| MatchUtils.ExtractTeamData | src/utils/match.utils.ts:100-112 | The name is the trimmed link text, or "Unknown Team" when the link is absent or blank; it is never empty. The icon is present exactly when the img is, and is `BASE_URL` plus its `src`. |
| MatchUtils.ExtractTournamentData | src/utils/match.utils.ts:119-128 | The name is the trimmed anchor text, or "Unknown Tournament". The link is null exactly when the anchor is absent, and is otherwise `BASE_URL` plus its `href`. |
| MatchUtils.ExtractDateTime | src/utils/match.utils.ts:135-140 | There is no time exactly when the timer or its `data-timestamp` is absent or empty. Otherwise the time is the timestamp times 1000 ms, or the RangeError of a timestamp that is not a valid time. |
| MatchUtils.ExtractMatchFormat | src/utils/match.utils.ts:147-150 | The format is null exactly when the abbr is absent or blank. Otherwise it is the trimmed text upper-cased, and is non-empty and trimmed. |
| MatchUtils.IsTeamInMatch | src/utils/match.utils.ts:159-165 | True exactly when the watched team equals the left or the right name. Such a match also passes the substring test. |
| MatchUtils.IsMatchToday | src/utils/match.utils.ts:172-183 | False without a time. Otherwise true exactly when the local date of the match is that of now. |
| MatchUtils.ExtractMatch | src/utils/match.utils.ts:70-87 | The record of a block fails exactly when its time fails. It carries the page's game and the extracted time. |
| MatchUtils.ExtractMatchesFromHtml | src/utils/match.utils.ts:59-92 | The loop computes `Collect` with the exact-team and today filter. It throws exactly when some block's time throws. Every output has the watched team as one of its two names, a time on today's local date, and the page's game. |
| MatchUtils.ExtractedInDocumentOrder | src/utils/match.utils.ts:59-92 | The output lists the relevant blocks' records in document order, none missing. |
| MatchUtils.ExtractedRelevant | src/utils/match.utils.ts:76-87 | Each extracted match passes `isTeamInMatch` and `isMatchToday` and carries the page's game. |
| MatchUtils.SortMatchesByDate | src/utils/match.utils.ts:190-196 | The result is a permutation of the input in ascending time, a missing time counting as 0. |
| MatchUtils.SortMatchesByDateStable | src/utils/match.utils.ts:190-196 | Matches at the same time keep their order. |
| MatchUtils.UntimedFirst | src/utils/match.utils.ts:192-194 | A match without a time sorts before any match timed after the epoch. |
| MatchUtils.SourceSucceeded | src/utils/match.utils.ts:14-29 | A source contributes only through a received body, a valid envelope and a successful extraction of that HTML. |
| MatchUtils.FetchAllMatches | src/utils/match.utils.ts:9-39 | The loop returns the ascending sort of the concatenated matches of the sources that succeeded. |
| MatchUtils.FetchedMatchesRelevant | src/utils/match.utils.ts:9-39 | Every returned match is today's. It has the team and game of some watched entry, the team as an exact name. |
| MatchUtils.FailingSourceIsolated | src/utils/match.utils.ts:13-35 | A source failing at any step leaves the result as if it were not in the list. |
| LiquipediaService.ValidateApiResponse | src/services/liquipedia.service.ts:33-37 | The envelope rule is the same as in `match.utils.ts`. |
| LiquipediaService.ExtractTeamData | src/services/liquipedia.service.ts:67-79 | The name is the raw link text, or "Unknown Team" when the link is absent or its text is empty. The icon is present exactly when the img is, and is `BASE_URL` plus its `src`. |
| LiquipediaService.TrimmedNameOfRawName | src/services/liquipedia.service.ts:74-76 | The trimmed-name variant's name is this variant's raw name trimmed, or the default when that is blank. The icons agree. |
| LiquipediaService.BlankNameKept | src/services/liquipedia.service.ts:74-76 | A white-space-only link text is kept as the name, where the trimmed variant falls back to "Unknown Team". |
| LiquipediaService.ExtractTournamentData | src/services/liquipedia.service.ts:81-92 | The name is the raw anchor text, or "Unknown Tournament" when the anchor is absent or its text is empty. The link is null exactly when the anchor is absent. |
| LiquipediaService.ExtractDateTime | src/services/liquipedia.service.ts:94-101 | The time rule is that of `match.utils.ts`. |
| LiquipediaService.ExtractMatchFormat | src/services/liquipedia.service.ts:103-108 | The format rule is that of `match.utils.ts`: null when the abbr is absent or blank, else the trimmed text upper-cased. |
| LiquipediaService.IsTeamInMatch | src/services/liquipedia.service.ts:110-117 | True exactly when some watched name is a substring of the left or the right name, hence false for an empty list. |
| LiquipediaService.ExactImpliesSubstring | src/services/liquipedia.service.ts:110-117 | An exact name match is also a substring match. |
| LiquipediaService.SubstringIsLooser | src/services/liquipedia.service.ts:110-117 | "KC" passes the substring test for "Karmine Corp KC Blue" but not the exact one. |
| LiquipediaService.ExtractMatch | src/services/liquipedia.service.ts:46-60 | The record of a block fails exactly when its time fails. It carries the page's game. |
| LiquipediaService.ExtractMatches | src/services/liquipedia.service.ts:39-65 | The loop computes `Collect` with the team filter only. It throws exactly when some block's time throws. Every output passes `isTeamInMatch` over `WATCHED_TEAMS` and carries the page's game. |
| LiquipediaService.UntimedMatchKept | src/services/liquipedia.service.ts:52-61 | A watched match without a timer is kept, with no time. |
| LiquipediaService.ExtractedInDocumentOrder | src/services/liquipedia.service.ts:39-65 | The output lists the watched blocks' records in document order, none missing. |
| LiquipediaService.ExtractedWatched | src/services/liquipedia.service.ts:52-61 | Each extracted match is watched and carries the page's game. |
| LiquipediaService.SortByDateDescending | src/services/liquipedia.service.ts:26-30 | The result is a permutation of the input in descending time, a missing time counting as 0. |
| LiquipediaService.SortByDateDescendingStable | src/services/liquipedia.service.ts:26-30 | Matches at the same time keep their order. |
| LiquipediaService.UntimedLast | src/services/liquipedia.service.ts:26-30 | A match without a time sorts after any match timed after the epoch. |
| LiquipediaService.SourceSucceeded | src/services/liquipedia.service.ts:10-20 | A source contributes only through a received body, a valid envelope and a successful extraction. |
| LiquipediaService.FetchAllMatches | src/services/liquipedia.service.ts:5-31 | The loop returns the descending sort of the concatenated matches of the sources that succeeded. |
| LiquipediaService.FetchedMatchesWatched | src/services/liquipedia.service.ts:5-31 | Every returned match is watched and has the game of some source. |
| LiquipediaService.FailingSourceIsolated | src/services/liquipedia.service.ts:9-23 | A failing source leaves the result as if it were not in the list. |
| Scraper.LiquipediaScraper.constructor | src/utils/scraper.class.ts:5-12 | The constructor sets team and game. The base URL is "https://liquipedia.net". The three fields are constants. |
| Scraper.LiquipediaScraper.GetLiquipediaUrl | src/utils/scraper.class.ts:14-16 | The page URL is the base URL, "/", the game, "/" and the team. That this URL identifies the page is `Scraper.UrlIdentifiesPage`. |
| Scraper.UrlIdentifiesPage | src/utils/scraper.class.ts:14-16 | For games without "/", two scrapers with the same base read the same URL only when they have the same game and team. |
| Scraper.PathSplitsUniquely | src/utils/scraper.class.ts:15 | A "/"-free first segment splits a path uniquely. |
| Scraper.LiquipediaScraper.ExtractTeamData | src/utils/scraper.class.ts:66-81 | The name is the trimmed link text, or "Unknown Team". The icon is present exactly when the img is, and is the base URL plus its `src`. |
| Scraper.LiquipediaScraper.ExtractTournamentData | src/utils/scraper.class.ts:83-96 | The name is the trimmed anchor text, or "Unknown Tournament". The link is null exactly when the anchor is absent, and is otherwise the base URL plus its `href`. |
| Scraper.LiquipediaScraper.ExtractDateTime | src/utils/scraper.class.ts:98-103 | The time rule is that of `match.utils.ts`. |
| Scraper.LiquipediaScraper.ExtractMatchFormat | src/utils/scraper.class.ts:105-108 | The format rule is that of `match.utils.ts`. |
| Scraper.LiquipediaScraper.IsMatchToday | src/utils/scraper.class.ts:110-121 | False without a time. Otherwise true exactly when the local year, month and day of the match are those of now. |
| Scraper.LiquipediaScraper.ExtractMatch | src/utils/scraper.class.ts:45-59 | The record of a table fails exactly when its time fails. It carries the scraper's game. |
| Scraper.LiquipediaScraper.ExtractMatchesFromHtml | src/utils/scraper.class.ts:33-64 | The loop computes `Collect` with the today filter only. It throws exactly when some table's time throws. Every output is timed today and carries the scraper's game. |
| Scraper.ExtractedInTableOrder | src/utils/scraper.class.ts:44-61 | The output lists today's tables' records in table order, none missing. |
| Scraper.AnyTeamKept | src/utils/scraper.class.ts:51-60 | There is no team filter: a table of today is kept even when neither team name could be read. |
| Scraper.LiquipediaScraper.GetUpcomingMatches | src/utils/scraper.class.ts:123-132 | It never fails. A failed fetch or a throwing extraction gives the empty list; otherwise it returns the extraction unchanged, all timed today and of the scraper's game. |
| Scraper.SameRecordsAsMatchUtils | src/utils/scraper.class.ts:66-96 | With the same base URL, the team and tournament records equal those of `match.utils.ts`. |
| Scraper.TodayAsMatchUtils | src/utils/scraper.class.ts:110-121 | The scraper's date test gives the same answer as the one of `match.utils.ts`. |

## Left out

- HTTP: `fetch`, `response.ok`, `response.json()`, `response.text()`, and the scraper's `fetchHtmlContent`. Each is a function from URL to outcome, assumed to answer the same URL the same way within one run.
- JSDOM and the selector strings: a block is the list of elements its sub-selectors find. For the scraper, the tournament element is the one `.tournament-text-flex a` selects.
- ISO-8601 formatting: a time is kept as the instant the ISO string denotes.
- `Date` local-time getters: the local calendar date is an uninterpreted function of the clock. `new Date()` is read once per run, not once per match.
- Strings.ToNumber: only optional white space around an optionally signed run of decimal digits, and blank text, are numbers. Fractions, exponents, hexadecimal, binary, octal and "Infinity" are treated as NaN, so `MatchUtils.ExtractDateTime` and the other time extractors give a RangeError where `Number` would accept such a timestamp.
- Strings.ToUpper: only ASCII letters are upper-cased, not the rest of Unicode.
- MatchUtils.SortMatchesByDate: the sort is modelled on values, not in place on the array. `LiquipediaService.SortByDateDescending` is modelled the same way.
- `console.error` logging.
- `src/main.ts` and the Discord files (`src/utils/discord.class.ts`, `src/utils/discord.utils.ts`, `src/services/discord.service.ts`, `src/utils/utils.ts`): they construct the scrapers and send embeds, with no extraction logic of their own.
- The `isMatchToday` of `liquipedia.service.ts`: no code in that file calls it. It is the scraper's rule, modelled there.
- Configuration and `dotenv`: `WATCHED_TEAMS` is a constant. The watched games and the service's sources are parameters.
- The deduplication store and the daily pruning of sent matches: no such code exists in the repository.
