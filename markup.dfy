/** The data the three extractors share: the JSON envelope of the wiki API,
    the match blocks of a parsed page (what the CSS sub-selectors find in
    one block), the extracted records, and the clock. */
module Markup {
  import opened Wrappers
  import opened Strings

  const BASE_URL: string := "https://liquipedia.net"
  const UNKNOWN_TEAM: string := "Unknown Team"
  const UNKNOWN_TOURNAMENT: string := "Unknown Tournament"

  /** The largest distance from the epoch, in milliseconds, that a `Date`
      can hold (8.64e15); beyond it the time value is NaN. */
  const MAX_TIME_MS: int := 8_640_000_000_000_000

  /** A value decoded by `response.json()`, with `Undefined` for a property
      that is not there. */
  datatype Value =
    | Undefined
    | Null
    | Bool(b: bool)
    | Num(n: real)
    | Str(s: string)
    | Arr(items: seq<Value>)
    | Obj(fields: map<string, Value>)

  /** JavaScript truthiness: `undefined`, `null`, `false`, `0` and `""` are
      falsy, everything else (objects and arrays included) is truthy. */
  predicate Truthy(v: Value) {
    match v
    case Undefined => false
    case Null => false
    case Bool(b) => b
    case Num(n) => n != 0.0
    case Str(s) => s != []
    case Arr(_) => true
    case Obj(_) => true
  }

  /** Property access `v[key]`: `undefined` unless `v` is an object holding
      `key`. (On `null` JavaScript throws a TypeError instead; the code
      treats that throw like any other failure.) */
  function Get(v: Value, key: string): Value {
    if v.Obj? && key in v.fields then v.fields[key] else Undefined
  }

  /** The well-formed envelope `{ parse: { text: { "*": html } } }`. */
  function Envelope(html: Value): Value {
    Obj(map["parse" := Obj(map["text" := Obj(map["*" := html])])])
  }

  /** A DOM element as the extractors use it: its `textContent` and its
      attributes. */
  datatype Element = Element(textContent: string, attributes: map<string, string>)

  /** `element.getAttribute(name)`, None standing for `null`. */
  function GetAttribute(e: Element, name: string): Option<string> {
    if name in e.attributes then Some(e.attributes[name]) else None
  }

  /** `base + element.getAttribute(name)`: JavaScript spells a `null`
      attribute as the text "null" when concatenating. */
  function Resolve(base: string, e: Element, name: string): string {
    base + match GetAttribute(e, name) case Some(v) => v case None => "null"
  }

  datatype Side = Left | Right

  /** One match block of a page and the first element each sub-selector of
      the extractor finds in it (None where `querySelector` returns null). */
  datatype MatchBlock = MatchBlock(
    leftName: Option<Element>,    // `.team-left .team-template-text a`
    leftIcon: Option<Element>,    // `.team-left .team-template-image-icon img`
    rightName: Option<Element>,   // `.team-right .team-template-text a`
    rightIcon: Option<Element>,   // `.team-right .team-template-image-icon img`
    tournament: Option<Element>,  // the tournament anchor of the variant's selector
    timer: Option<Element>,       // `.timer-object`
    formatAbbr: Option<Element>)  // `.versus-lower abbr`

  /** The team link of the `.team-left` or `.team-right` half of a block. */
  function TeamLink(b: MatchBlock, side: Side): Option<Element> {
    match side case Left => b.leftName case Right => b.rightName
  }

  /** The icon image of the `.team-left` or `.team-right` half of a block. */
  function TeamIcon(b: MatchBlock, side: Side): Option<Element> {
    match side case Left => b.leftIcon case Right => b.rightIcon
  }

  /** The `data-timestamp` attribute of the timer, when both exist. */
  function Timestamp(b: MatchBlock): Option<string> {
    match b.timer case None => None case Some(e) => GetAttribute(e, "data-timestamp")
  }

  datatype Team = Team(name: string, icon: Option<string>)

  datatype Tournament = Tournament(name: string, link: Option<string>)

  /** A match record. `dateTime` is the instant, in milliseconds since the
      epoch, that the ISO-8601 string of the source denotes. */
  datatype Match = Match(
    teamLeft: Team,
    teamRight: Team,
    tournament: Tournament,
    dateTime: Option<int>,
    format: Option<string>,
    game: string)

  /** The sort key `new Date(m.dateTime || 0).getTime()`: the instant, or 0
      for a match without one. */
  function DateKey(m: Match): int {
    match m.dateTime case Some(t) => t case None => 0
  }

  /** The reverse order, for the descending sort. */
  function NegatedDateKey(m: Match): int {
    -DateKey(m)
  }

  datatype CalendarDate = CalendarDate(year: int, month: int, day: int)

  /** The environment's clock: the instant `new Date()` reads and the local
      calendar date (`getFullYear`, `getMonth`, `getDate` in the process
      time zone) of any instant. */
  datatype Clock = Clock(now: int, localDate: int -> CalendarDate)

  datatype Error =
    | FetchFailed      // fetch rejected, `!response.ok`, or a body that is not JSON
    | InvalidResponse  // the envelope check threw
    | InvalidTime      // `toISOString` threw a RangeError

  /** How a `fetch` of one source ends: with one of the failures above, or
      with the decoded body. */
  datatype Fetched<T> = Failed | Received(body: T)

  /** `new Date(Number(ts) * 1000)` followed by `toISOString()`: the instant
      in milliseconds, or the RangeError `toISOString` throws when the time
      value is NaN (not a number, or out of the range of `Date`). */
  function InstantOf(ts: string): (r: Result<int, Error>)
    ensures r.Ok? <==> ToNumber(ts).Some? && -MAX_TIME_MS <= ToNumber(ts).value * 1000 <= MAX_TIME_MS
    ensures r.Ok? ==> r.value == ToNumber(ts).value * 1000
    ensures r.Err? ==> r.error == InvalidTime
  {
    match ToNumber(ts)
    case None => Err(InvalidTime)
    case Some(seconds) =>
      var ms := seconds * 1000;
      if -MAX_TIME_MS <= ms <= MAX_TIME_MS then Ok(ms) else Err(InvalidTime)
  }
}
