/**
  The redirect resolver of the redirect page: a shortcode is looked up in the
  table of stored short URLs, rejected when unknown or expired, and otherwise
  charged one click (counter and click log) before its long URL is returned.
  Time is the integer `now` (milliseconds); the referrer is a parameter.
*/
module RedirectPage {
  import opened Wrappers

  /** Source recorded for a visit that came without a referrer. */
  const DirectSource: string := "Direct"
  /** Location recorded for every visit: there is no geolocation. */
  const UnknownLocation: string := "Unknown"

  datatype ClickEvent = ClickEvent(timestamp: int, source: string, location: string)

  /**
    A stored short URL. Persisted data may lack `clicks` and `clickDetails`;
    the resolver reads a missing counter as 0 and a missing log as empty.
  */
  datatype UrlRecord = UrlRecord(
    shortcode: string,
    longUrl: string,
    createdAt: int,
    expiresAt: int,
    clicks: Option<int>,
    clickDetails: Option<seq<ClickEvent>>)

  /** The table of all stored short URLs, keyed by shortcode. */
  type Table = map<string, UrlRecord>

  datatype Outcome = InvalidShortUrl | NotFound | Expired | Success(longUrl: string)

  /** The click counter as the resolver reads it (missing counts as 0). */
  function Clicks(r: UrlRecord): int {
    if r.clicks.Some? then r.clicks.value else 0
  }

  /** The click log as the resolver reads it (missing counts as empty). */
  function Details(r: UrlRecord): seq<ClickEvent> {
    if r.clickDetails.Some? then r.clickDetails.value else []
  }

  /** The record invariant: one logged event per counted click. */
  predicate CountsAgree(r: UrlRecord) {
    Clicks(r) == |Details(r)|
  }

  predicate TableCountsAgree(t: Table) {
    forall code :: code in t ==> CountsAgree(t[code])
  }

  /** Expiry is strict: a record still resolves at `now == expiresAt`. */
  predicate IsExpired(r: UrlRecord, now: int) {
    now > r.expiresAt
  }

  predicate IsPresent(shortcode: Option<string>) {
    shortcode.Some? && shortcode.value != ""
  }

  /** The event logged for a visit at `now` coming from `referrer`. */
  function ClickAt(now: int, referrer: string): ClickEvent {
    ClickEvent(now, if referrer != "" then referrer else DirectSource, UnknownLocation)
  }

  /** A record charged with one more click, logged as `e`. */
  function RecordClick(r: UrlRecord, e: ClickEvent): (r': UrlRecord)
    ensures Clicks(r') == Clicks(r) + 1
    ensures Details(r') == Details(r) + [e]
    ensures r'.shortcode == r.shortcode && r'.longUrl == r.longUrl
    ensures r'.createdAt == r.createdAt && r'.expiresAt == r.expiresAt
    ensures CountsAgree(r) ==> CountsAgree(r')
  {
    r.(clicks := Some(Clicks(r) + 1), clickDetails := Some(Details(r) + [e]))
  }

  /**
    Specification of one redirect: the outcome and the table written back.
  */
  function Resolve(table: Table, shortcode: Option<string>, now: int, referrer: string): (res: (Outcome, Table))
    // a missing or empty shortcode is rejected before the table is consulted
    ensures !IsPresent(shortcode) ==> res == (InvalidShortUrl, table)
    // an unknown shortcode is not found and nothing is written
    ensures IsPresent(shortcode) && shortcode.value !in table ==> res == (NotFound, table)
    // an expired record is refused and records no click
    ensures IsPresent(shortcode) && shortcode.value in table && IsExpired(table[shortcode.value], now) ==>
      res == (Expired, table)
    ensures res.0.Success? <==>
      IsPresent(shortcode) && shortcode.value in table && !IsExpired(table[shortcode.value], now)
    // on success: the stored long URL is the target, and the record gains exactly one click
    ensures res.0.Success? ==>
      var code := shortcode.value;
      var before := table[code];
      && code in res.1
      && res.0.longUrl == before.longUrl
      && Clicks(res.1[code]) == Clicks(before) + 1
      && Details(res.1[code]) == Details(before) + [
           ClickEvent(now, if referrer == "" then DirectSource else referrer, UnknownLocation)]
      && res.1[code].longUrl == before.longUrl
      && res.1[code].expiresAt == before.expiresAt
      && res.1[code].createdAt == before.createdAt
      && res.1[code].shortcode == before.shortcode
    // no key is added or removed, and only the resolved entry may change
    ensures res.1.Keys == table.Keys
    ensures forall code :: code in table && (!IsPresent(shortcode) || code != shortcode.value) ==>
      res.1[code] == table[code]
  {
    if !IsPresent(shortcode) then (InvalidShortUrl, table)
    else
      var code := shortcode.value;
      if code !in table then (NotFound, table)
      else if IsExpired(table[code], now) then (Expired, table)
      else
        var updated := RecordClick(table[code], ClickAt(now, referrer));
        (Success(updated.longUrl), table[code := updated])
  }

  /** A redirect keeps the table-wide click invariant. */
  lemma ResolveKeepsCountsAgree(table: Table, shortcode: Option<string>, now: int, referrer: string)
    requires TableCountsAgree(table)
    ensures TableCountsAgree(Resolve(table, shortcode, now, referrer).1)
  {
  }

  /** Once a record has expired, every later redirect to it is refused and changes nothing. */
  lemma ExpiryIsFinal(table: Table, code: string, now: int, later: int, referrer: string)
    requires code != "" && code in table && IsExpired(table[code], now)
    requires now <= later
    ensures Resolve(table, Some(code), later, referrer) == (Expired, table)
  {
  }

  /** One visit to the redirect page. */
  datatype Visit = Visit(time: int, referrer: string)

  /** The table after a sequence of visits to `code`, one after another. */
  function Replay(table: Table, code: string, visits: seq<Visit>): Table
    decreases |visits|
  {
    if visits == [] then table
    else Replay(Resolve(table, Some(code), visits[0].time, visits[0].referrer).1, code, visits[1..])
  }

  /** The events logged for a sequence of visits. */
  function EventsOf(visits: seq<Visit>): seq<ClickEvent>
    decreases |visits|
  {
    if visits == [] then [] else [ClickAt(visits[0].time, visits[0].referrer)] + EventsOf(visits[1..])
  }

  /**
    Click accounting: N visits to a live shortcode, one after another, add
    exactly N to its counter and append their N events in visit order; no
    click is lost, and no other record changes.
  */
  lemma {:induction false} ReplayCountsEveryVisit(table: Table, code: string, visits: seq<Visit>)
    requires code != "" && code in table
    requires forall i :: 0 <= i < |visits| ==> visits[i].time <= table[code].expiresAt
    ensures Replay(table, code, visits).Keys == table.Keys
    ensures Clicks(Replay(table, code, visits)[code]) == Clicks(table[code]) + |visits|
    ensures Details(Replay(table, code, visits)[code]) == Details(table[code]) + EventsOf(visits)
    ensures Replay(table, code, visits)[code].expiresAt == table[code].expiresAt
    ensures forall other :: other in table && other != code ==> Replay(table, code, visits)[other] == table[other]
    decreases |visits|
  {
    if visits != [] {
      var next := Resolve(table, Some(code), visits[0].time, visits[0].referrer).1;
      assert next[code].expiresAt == table[code].expiresAt;
      forall i | 0 <= i < |visits[1..]|
        ensures visits[1..][i].time <= next[code].expiresAt
      {
        assert visits[1..][i] == visits[i + 1];
      }
      ReplayCountsEveryVisit(next, code, visits[1..]);
      assert Details(next[code]) == Details(table[code]) + [ClickAt(visits[0].time, visits[0].referrer)];
      assert EventsOf(visits) == [ClickAt(visits[0].time, visits[0].referrer)] + EventsOf(visits[1..]);
    }
  }

  /**
    The stored table of short URLs as the redirect page sees it, with the
    read-modify-write of one redirect.
  */
  class UrlStore {
    var table: Table

    constructor (stored: Table)
      ensures table == stored
    {
      table := stored;
    }

    /** Handles one visit to the redirect page for `shortcode`. */
    method HandleRedirect(shortcode: Option<string>, now: int, referrer: string) returns (outcome: Outcome)
      modifies this
      ensures (outcome, table) == Resolve(old(table), shortcode, now, referrer)
      ensures TableCountsAgree(old(table)) ==> TableCountsAgree(table)
    {
      if shortcode.None? || shortcode.value == "" {
        return InvalidShortUrl;
      }
      var code := shortcode.value;
      var mappings := table;
      if code in mappings {
        var urlData := mappings[code];
        if now > urlData.expiresAt {
          return Expired;
        }
        urlData := urlData.(clicks := Some(Clicks(urlData) + 1));
        var source := if referrer != "" then referrer else DirectSource;
        urlData := urlData.(clickDetails := Some(Details(urlData) + [ClickEvent(now, source, UnknownLocation)]));
        mappings := mappings[code := urlData];
        table := mappings;
        outcome := Success(urlData.longUrl);
      } else {
        outcome := NotFound;
      }
      if TableCountsAgree(old(table)) {
        ResolveKeepsCountsAgree(old(table), shortcode, now, referrer);
      }
    }
  }
}
