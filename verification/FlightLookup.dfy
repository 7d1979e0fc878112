/** Flight enrichment (server/src/flight/mod.rs:124-215): a cache and a set of
    addresses being fetched, each behind its own lock, shared by concurrent
    callers. Upstream answers and the clock are inputs. */
module FlightLookup {
  import opened Wrappers
  import opened Octets
  import opened Utf8Text

  /** Seconds. */
  const HIT_TTL := 86400
  const SOFT_TTL := 3600
  const FAIL_TTL := 30
  const CACHE_CAP := 4096

  datatype Reason = Disabled | Offline | Unknown | Pending

  datatype Info = Info(available: bool, reason: Option<Reason>, aircraft: Aircraft, airline: Option<Text>,
                       route: Option<Route>)

  datatype Aircraft = Aircraft(registration: Option<Text>, aircraftType: Option<Text>, icaoType: Option<Text>,
                               manufacturer: Option<Text>, owner: Option<Text>, ownerCountry: Option<Text>,
                               photo: Option<Text>)

  datatype Airport = Airport(name: Option<Text>, city: Option<Text>, iata: Option<Text>, icao: Option<Text>)

  datatype Route = Route(origin: Airport, destination: Airport)

  /** What the two upstream services say of an aircraft and of a callsign. */
  datatype Flight = Flight(airline: Option<Text>, origin: Option<Airport>, destination: Option<Airport>)

  /** An upstream reply: parsed, turned down, or failed on the way. */
  datatype Reply<T> = Got(value: T) | Refused | Failed

  /** The callsign as the cache compares it. */
  datatype Key = Key(icao: Text, callsign: Option<Text>)

  datatype Entry = Entry(fetched: nat, ttl: nat, callsign: Option<Text>, info: Info)

  const NO_AIRCRAFT := Aircraft(None, None, None, None, None, None, None)

  function NoInfo(reason: Reason): Info {
    Info(false, Some(reason), NO_AIRCRAFT, None, None)
  }

  function Lower(c: octet): octet {
    if 0x41 <= c <= 0x5A then c + 0x20 else c
  }

  function Lowercased(s: Text): (r: Text)
    ensures |r| == |s| && forall k | 0 <= k < |s| :: r[k] == Lower(s[k])
  {
    seq(|s|, k requires 0 <= k < |s| => Lower(s[k]))
  }

  function Normalised(icao: Text, callsign: Option<Text>): Key {
    Key(Lowercased(icao),
        match callsign
        case None => None
        case Some(c) =>
          var cs := Uppercased(Trim(c));
          if cs == [] then None else Some(cs))
  }

  // ----- The upstream answer -----

  /** "unknown" and "https://" */
  const UNKNOWN: Text := [0x75, 0x6E, 0x6B, 0x6E, 0x6F, 0x77, 0x6E]
  const HTTPS: Text := [0x68, 0x74, 0x74, 0x70, 0x73, 0x3A, 0x2F, 0x2F]

  predicate SaysSomething(t: Text) {
    t != [] && Lowercased(t) != UNKNOWN
  }

  function Clean(s: Option<Text>): Option<Text> {
    if s.Some? && SaysSomething(Trim(s.value)) then Some(Trim(s.value)) else None
  }

  function Secure(url: Option<Text>): Option<Text> {
    if url.Some? && HTTPS <= url.value then url else None
  }

  function CleanAircraft(a: Aircraft): Aircraft {
    Aircraft(Clean(a.registration), Clean(a.aircraftType), Clean(a.icaoType), Clean(a.manufacturer), Clean(a.owner),
             Clean(a.ownerCountry), Secure(Clean(a.photo)))
  }

  function CleanAirport(a: Airport): Airport {
    Airport(Clean(a.name), Clean(a.city), Clean(a.iata), Clean(a.icao))
  }

  /** The result of the two upstream requests; without a callsign there is only one. */
  function FetchInfo(callsign: Option<Text>, ac: Reply<Aircraft>, rt: Reply<Flight>): Info {
    var aircraft := if ac.Got? then CleanAircraft(ac.value) else NO_AIRCRAFT;
    var flown := callsign.Some? && rt.Got?;
    var airline := if flown then Clean(rt.value.airline) else None;
    var route :=
      if flown && rt.value.origin.Some? && rt.value.destination.Some?
      then Some(Route(CleanAirport(rt.value.origin.value), CleanAirport(rt.value.destination.value)))
      else None;
    var available := aircraft.registration.Some? || aircraft.aircraftType.Some? || route.Some?;
    Info(available, if available then None else Some(if ac.Failed? then Offline else Unknown), aircraft, airline, route)
  }

  method Fetch(callsign: Option<Text>, ac: Reply<Aircraft>, rt: Reply<Flight>) returns (info: Info)
    ensures info == FetchInfo(callsign, ac, rt)
  {
    hide Clean;
    info := Info(false, None, NO_AIRCRAFT, None, None);
    var netErr := false;
    match ac {
      case Got(a) => info := info.(aircraft := CleanAircraft(a));
      case Refused =>
      case Failed => netErr := true;
    }
    if callsign.Some? && rt.Got? {
      info := info.(airline := Clean(rt.value.airline));
      if rt.value.origin.Some? && rt.value.destination.Some? {
        info := info.(route := Some(Route(CleanAirport(rt.value.origin.value),
                                          CleanAirport(rt.value.destination.value))));
      }
    }
    info := info.(available :=
      info.aircraft.registration.Some? || info.aircraft.aircraftType.Some? || info.route.Some?);
    if !info.available {
      info := info.(reason := Some(if netErr then Offline else Unknown));
    }
  }

  /** What an answer for this callsign can be. */
  ghost predicate IsAnswer(callsign: Option<Text>, info: Info) {
    exists ac, rt :: info == FetchInfo(callsign, ac, rt)
  }

  /** Cleaned text is trimmed and says something. */
  predicate IsClean(t: Option<Text>) {
    t.Some? ==> Trim(t.value) == t.value && SaysSomething(t.value)
  }

  lemma CleanIsClean(t: Option<Text>)
    ensures IsClean(Clean(t)) && Clean(Clean(t)) == Clean(t)
  {
    hide SaysSomething, Trim;
    if t.Some? {
      TrimTwice(t.value);
    }
  }

  /** Every answer: what makes it available, why it is not, and clean text throughout. */
  lemma AnswerMeans(callsign: Option<Text>, info: Info)
    requires IsAnswer(callsign, info)
    ensures info.available
        <==> info.aircraft.registration.Some? || info.aircraft.aircraftType.Some? || info.route.Some?
    ensures info.available <==> info.reason == None
    ensures !info.available ==> info.reason == Some(Offline) || info.reason == Some(Unknown)
    ensures info.reason == Some(Offline) ==> info.aircraft == NO_AIRCRAFT && info.route == None
    ensures callsign == None ==> info.airline == None && info.route == None
    ensures var a := info.aircraft;
            && IsClean(a.registration) && IsClean(a.aircraftType) && IsClean(a.icaoType) && IsClean(a.manufacturer)
            && IsClean(a.owner) && IsClean(a.ownerCountry) && IsClean(a.photo) && IsClean(info.airline)
            && (a.photo.Some? ==> HTTPS <= a.photo.value)
  {
    hide Clean, IsClean;
    var ac, rt :| info == FetchInfo(callsign, ac, rt);
    NoneIsClean();
    if ac.Got? {
      CleanIsClean(ac.value.registration);
      CleanIsClean(ac.value.aircraftType);
      CleanIsClean(ac.value.icaoType);
      CleanIsClean(ac.value.manufacturer);
      CleanIsClean(ac.value.owner);
      CleanIsClean(ac.value.ownerCountry);
      CleanIsClean(ac.value.photo);
    }
    if rt.Got? {
      CleanIsClean(rt.value.airline);
    }
  }

  /** "unknown" in letters of either case. */
  predicate IsUnknown(t: Text) {
    |t| == 7 && t[0] in {0x75, 0x55} && t[1] in {0x6E, 0x4E} && t[2] in {0x6B, 0x4B} && t[3] in {0x6E, 0x4E}
    && t[4] in {0x6F, 0x4F} && t[5] in {0x77, 0x57} && t[6] in {0x6E, 0x4E}
  }

  /** What is shown for a text upstream gave: the text trimmed, if it says anything. */
  predicate ShowsText(shown: Option<Text>, given: Option<Text>) {
    shown == if given.Some? && Trim(given.value) != [] && !IsUnknown(Trim(given.value)) then Some(Trim(given.value))
             else None
  }

  /** A link is shown only if it starts with "https://". */
  predicate ShowsLink(shown: Option<Text>, given: Option<Text>) {
    shown == if given.Some? && [0x68, 0x74, 0x74, 0x70, 0x73, 0x3A, 0x2F, 0x2F] <= Trim(given.value)
             then Some(Trim(given.value)) else None
  }

  predicate ShowsAirport(shown: Airport, given: Airport) {
    ShowsText(shown.name, given.name) && ShowsText(shown.city, given.city)
    && ShowsText(shown.iata, given.iata) && ShowsText(shown.icao, given.icao)
  }

  lemma UnknownLetter(c: octet)
    ensures Lower(c) == 0x75 <==> c in {0x75, 0x55}
    ensures Lower(c) == 0x6E <==> c in {0x6E, 0x4E}
    ensures Lower(c) == 0x6B <==> c in {0x6B, 0x4B}
    ensures Lower(c) == 0x6F <==> c in {0x6F, 0x4F}
    ensures Lower(c) == 0x77 <==> c in {0x77, 0x57}
  {}

  lemma SaysUnlessUnknown(t: Text)
    ensures SaysSomething(t) <==> t != [] && !IsUnknown(t)
  {
    hide Lower;
    forall k | 0 <= k < |t|
      ensures Lower(t[k]) == 0x75 <==> t[k] in {0x75, 0x55}
      ensures Lower(t[k]) == 0x6E <==> t[k] in {0x6E, 0x4E}
      ensures Lower(t[k]) == 0x6B <==> t[k] in {0x6B, 0x4B}
      ensures Lower(t[k]) == 0x6F <==> t[k] in {0x6F, 0x4F}
      ensures Lower(t[k]) == 0x77 <==> t[k] in {0x77, 0x57}
    {
      UnknownLetter(t[k]);
    }
    if |t| == 7 {
      var l := Lowercased(t);
      assert l == [l[0], l[1], l[2], l[3], l[4], l[5], l[6]];
    }
  }

  lemma CleanShows(given: Option<Text>)
    ensures ShowsText(Clean(given), given) && ShowsLink(Secure(Clean(given)), given)
  {
    hide SaysSomething, IsUnknown, Trim;
    if given.Some? {
      SaysUnlessUnknown(Trim(given.value));
      LinkIsKnown(Trim(given.value));
    }
  }

  lemma LinkIsKnown(t: Text)
    ensures HTTPS <= t ==> t != [] && !IsUnknown(t)
  {
    if HTTPS <= t {
      assert t[0] == HTTPS[0];
    }
  }

  lemma AirportShows(given: Airport)
    ensures ShowsAirport(CleanAirport(given), given)
  {
    hide Clean, ShowsText, ShowsLink;
    CleanShows(given.name);
    CleanShows(given.city);
    CleanShows(given.iata);
    CleanShows(given.icao);
  }

  lemma AircraftShows(given: Aircraft)
    ensures var a := CleanAircraft(given);
            && ShowsText(a.registration, given.registration) && ShowsText(a.aircraftType, given.aircraftType)
            && ShowsText(a.icaoType, given.icaoType) && ShowsText(a.manufacturer, given.manufacturer)
            && ShowsText(a.owner, given.owner) && ShowsText(a.ownerCountry, given.ownerCountry)
            && ShowsLink(a.photo, given.photo)
  {
    hide Clean, Secure, ShowsText, ShowsLink;
    CleanShows(given.registration);
    CleanShows(given.aircraftType);
    CleanShows(given.icaoType);
    CleanShows(given.manufacturer);
    CleanShows(given.owner);
    CleanShows(given.ownerCountry);
    CleanShows(given.photo);
  }

  /** The answer to two replies, field by field: each shows its own upstream field;
      there is a route exactly when a callsign was given and both its ends came; the
      reason is the network only when the aircraft request failed on the way. */
  lemma AnswerShows(callsign: Option<Text>, ac: Reply<Aircraft>, rt: Reply<Flight>)
    ensures var info := FetchInfo(callsign, ac, rt);
            var a := info.aircraft;
            && (ac.Got? ==>
                  && ShowsText(a.registration, ac.value.registration)
                  && ShowsText(a.aircraftType, ac.value.aircraftType)
                  && ShowsText(a.icaoType, ac.value.icaoType) && ShowsText(a.manufacturer, ac.value.manufacturer)
                  && ShowsText(a.owner, ac.value.owner) && ShowsText(a.ownerCountry, ac.value.ownerCountry)
                  && ShowsLink(a.photo, ac.value.photo))
            && (!ac.Got? ==> a == Aircraft(None, None, None, None, None, None, None))
            && (if callsign.Some? && rt.Got? then ShowsText(info.airline, rt.value.airline) else info.airline == None)
            && (info.route.Some? <==>
                  callsign.Some? && rt.Got? && rt.value.origin.Some? && rt.value.destination.Some?)
            && (info.route.Some? ==>
                  && ShowsAirport(info.route.value.origin, rt.value.origin.value)
                  && ShowsAirport(info.route.value.destination, rt.value.destination.value))
            && (info.available <==> a.registration.Some? || a.aircraftType.Some? || info.route.Some?)
            && info.reason == if info.available then None else if ac.Failed? then Some(Offline) else Some(Unknown)
  {
    hide Clean, CleanAircraft, CleanAirport, ShowsText, ShowsLink, ShowsAirport;
    if ac.Got? {
      AircraftShows(ac.value);
    }
    if rt.Got? {
      CleanShows(rt.value.airline);
      if rt.value.origin.Some? && rt.value.destination.Some? {
        AirportShows(rt.value.origin.value);
        AirportShows(rt.value.destination.value);
      }
    }
  }

  lemma NoneIsClean()
    ensures IsClean(None)
  {}

  // ----- The cache -----

  function Ttl(info: Info): nat {
    if info.reason == Some(Offline) then FAIL_TTL
    else if info.available && info.route.Some? then HIT_TTL
    else SOFT_TTL
  }

  type Cache = map<Text, Entry>

  function Hit(cache: Cache, key: Key, now: nat): Option<Info> {
    if key.icao in cache
       && now - cache[key.icao].fetched < cache[key.icao].ttl
       && cache[key.icao].callsign == key.callsign
    then Some(cache[key.icao].info) else None
  }

  function Stored(cache: Cache, key: Key, info: Info, now: nat): Cache {
    (if |cache| >= CACHE_CAP then map[] else cache)[key.icao := Entry(now, Ttl(info), key.callsign, info)]
  }

  /** A full cache is emptied first; otherwise every other entry stays. */
  lemma StoredMeans(cache: Cache, key: Key, info: Info, now: nat)
    ensures var after := Stored(cache, key, info, now);
            && key.icao in after
            && (forall k | k in after && k != key.icao :: |cache| < 4096 && k in cache && after[k] == cache[k])
            && (|cache| < 4096 ==> forall k | k in cache :: k in after)
            && after[key.icao] == Entry(now,
                 if info.reason == Some(Offline) then 30
                 else if info.available && info.route.Some? then 24 * 60 * 60 else 60 * 60, key.callsign, info)
  {}

  /** Two octets are equal or one ASCII letter in both cases. */
  predicate SameLetter(a: octet, b: octet) {
    a == b || (a ^ b == 0x20 && 0x61 <= (a | 0x20) <= 0x7A)
  }

  predicate SameLetters(a: Text, b: Text) {
    |a| == |b| && forall k | 0 <= k < |a| :: SameLetter(a[k], b[k])
  }

  lemma CaseFolds(a: octet, b: octet)
    ensures Lower(a) == Lower(b) <==> SameLetter(a, b)
    ensures Upper(a) == Upper(b) <==> SameLetter(a, b)
  {}

  lemma TextFolds(a: Text, b: Text)
    ensures Lowercased(a) == Lowercased(b) <==> SameLetters(a, b)
    ensures Uppercased(a) == Uppercased(b) <==> SameLetters(a, b)
  {
    hide Lower, Upper, SameLetter;
    if |a| == |b| {
      forall k | 0 <= k < |a|
        ensures Lowercased(a)[k] == Lowercased(b)[k] <==> SameLetter(a[k], b[k])
        ensures Uppercased(a)[k] == Uppercased(b)[k] <==> SameLetter(a[k], b[k])
      {
        CaseFolds(a[k], b[k]);
      }
    }
  }

  lemma CasesKept(icao: Text, callsign: Text)
    ensures forall c | c in Lowercased(icao) :: !(0x41 <= c <= 0x5A)
    ensures forall c | c in Uppercased(callsign) :: !(0x61 <= c <= 0x7A)
  {}

  /** A callsign of white space only is none. */
  function Meant(callsign: Option<Text>): Text {
    if callsign.Some? then Trim(callsign.value) else []
  }

  /** Two lookups share cache and claim exactly when addresses and trimmed callsigns
      differ at most in the case of letters, no callsign and a blank one alike. */
  lemma SameKey(icao: Text, callsign: Option<Text>, icao': Text, callsign': Option<Text>)
    ensures Normalised(icao, callsign) == Normalised(icao', callsign')
            <==> SameLetters(icao, icao') && SameLetters(Meant(callsign), Meant(callsign'))
    ensures var key := Normalised(icao, callsign);
            (forall c | c in key.icao :: !(0x41 <= c <= 0x5A))
            && (key.callsign.Some? ==> forall c | c in key.callsign.value :: !(0x61 <= c <= 0x7A))
  {
    CasesKept(icao, Meant(callsign));
    hide Lowercased, Uppercased, Trim, SameLetter;
    hide Lower, Upper;
    TextFolds(icao, icao');
    TextFolds(Meant(callsign), Meant(callsign'));
    TextFolds(Meant(callsign), []);
    TextFolds(Meant(callsign'), []);
  }

  /** The locked operations; each is one atomic step. */
  class Shared {
    const enabled: bool
    var cache: Cache
    var inflight: set<Text>

    constructor (enabled: bool)
      ensures this.enabled == enabled && cache == map[] && inflight == {}
    {
      this.enabled := enabled;
      cache := map[];
      inflight := {};
    }

    method Cached(key: Key, now: nat) returns (r: Option<Info>)
      ensures r == Hit(cache, key, now)
    {
      if key.icao !in cache {
        return None;
      }
      var e := cache[key.icao];
      return if now - e.fetched < e.ttl && e.callsign == key.callsign then Some(e.info) else None;
    }

    method Claim(icao: Text) returns (first: bool)
      modifies `inflight
      ensures first == (icao !in old(inflight)) && inflight == old(inflight) + {icao}
    {
      first := icao !in inflight;
      inflight := inflight + {icao};
    }

    method Release(icao: Text)
      modifies `inflight
      ensures inflight == old(inflight) - {icao}
    {
      inflight := inflight - {icao};
    }

    method Store(key: Key, info: Info, now: nat)
      modifies `cache
      ensures cache == Stored(old(cache), key, info, now)
    {
      var ttl :=
        if info.reason == Some(Offline) then FAIL_TTL
        else if info.available && info.route.Some? then HIT_TTL
        else SOFT_TTL;
      if |cache| >= CACHE_CAP {
        cache := map[];
      }
      cache := cache[key.icao := Entry(now, ttl, key.callsign, info)];
    }

    /** One lookup with no other caller in between: what it answers, and that it
        gives back its claim. */
    method Lookup(icao: Text, callsign: Option<Text>, ac: Reply<Aircraft>, rt: Reply<Flight>, asked: nat, answered: nat)
      returns (info: Info)
      modifies `cache, `inflight
      ensures var key := Normalised(icao, callsign);
              info == if !enabled then NoInfo(Disabled)
                      else if Hit(old(cache), key, asked).Some? then Hit(old(cache), key, asked).value
                      else if key.icao in old(inflight) then NoInfo(Pending)
                      else FetchInfo(key.callsign, ac, rt)
      ensures inflight == old(inflight)
      ensures var key := Normalised(icao, callsign);
              cache == if !enabled || Hit(old(cache), key, asked).Some? || key.icao in old(inflight)
                       then old(cache) else Stored(old(cache), key, FetchInfo(key.callsign, ac, rt), answered)
    {
      hide Normalised, Ttl, FetchInfo;
      if !enabled {
        return NoInfo(Disabled);
      }
      var key := Normalised(icao, callsign);
      var hit := Cached(key, asked);
      if hit.Some? {
        return hit.value;
      }
      var first := Claim(key.icao);
      if !first {
        return NoInfo(Pending);
      }
      info := Fetch(key.callsign, ac, rt);
      Release(key.icao);
      Store(key, info, answered);
    }
  }

  // ----- Interleaved callers -----

  /** Where an answer came from. */
  datatype Source = SwitchedOff | FromCache(entry: Entry, at: nat) | Busy | FromUpstream

  datatype Phase =
    | Checking(key: Key)
    | Claiming(key: Key)
    | Fetching(key: Key)
    | Releasing(key: Key, info: Info)
    | Storing(key: Key, info: Info)
    | Answered(key: Key, info: Info, source: Source)

  /** `answers` are the upstream answers received so far and `abandoned` the
      addresses whose fetch was cancelled. */
  datatype System = System(enabled: bool, now: nat, cache: Cache, inflight: set<Text>, callers: map<nat, Phase>,
                           answers: set<(Key, Info)>, abandoned: set<Text>)

  /** A future can be dropped only where it awaits, so only a fetch can be cancelled. */
  datatype Event =
    | Arrive(id: nat, icao: Text, callsign: Option<Text>)
    | Check(id: nat)
    | Claim(id: nat)
    | Finish(id: nat, ac: Reply<Aircraft>, rt: Reply<Flight>)
    | Release(id: nat)
    | Store(id: nat)
    | Cancel(id: nat)
    | Tick(seconds: nat)

  function To(s: System, id: nat, p: Phase): System {
    s.(callers := s.callers[id := p])
  }

  function Arrived(s: System, id: nat, key: Key): System {
    if id in s.callers then s
    else if !s.enabled then To(s, id, Answered(key, NoInfo(Disabled), SwitchedOff))
    else To(s, id, Checking(key))
  }

  function Checked(s: System, id: nat, key: Key): System {
    if Hit(s.cache, key, s.now).Some?
    then To(s, id, Answered(key, s.cache[key.icao].info, FromCache(s.cache[key.icao], s.now)))
    else To(s, id, Claiming(key))
  }

  function Claimed(s: System, id: nat, key: Key): System {
    if key.icao in s.inflight
    then To(s, id, Answered(key, NoInfo(Pending), Busy))
    else To(s.(inflight := s.inflight + {key.icao}), id, Fetching(key))
  }

  function Finished(s: System, id: nat, key: Key, info: Info): System {
    To(s.(answers := s.answers + {(key, info)}), id, Releasing(key, info))
  }

  function Released(s: System, id: nat, key: Key, info: Info): System {
    To(s.(inflight := s.inflight - {key.icao}), id, Storing(key, info))
  }

  function Kept(s: System, id: nat, key: Key, info: Info): System {
    To(s.(cache := Stored(s.cache, key, info, s.now)), id, Answered(key, info, FromUpstream))
  }

  function Cancelled(s: System, id: nat, key: Key): System {
    s.(callers := s.callers - {id}, abandoned := s.abandoned + {key.icao})
  }

  function Step(s: System, e: Event): System {
    if e.Tick? then s.(now := s.now + e.seconds)
    else if e.Arrive? then Arrived(s, e.id, Normalised(e.icao, e.callsign))
    else if e.id !in s.callers then s
    else
      var p := s.callers[e.id];
      if e.Check? && p.Checking? then Checked(s, e.id, p.key)
      else if e.Claim? && p.Claiming? then Claimed(s, e.id, p.key)
      else if e.Finish? && p.Fetching? then Finished(s, e.id, p.key, FetchInfo(p.key.callsign, e.ac, e.rt))
      else if e.Release? && p.Releasing? then Released(s, e.id, p.key, p.info)
      else if e.Store? && p.Storing? then Kept(s, e.id, p.key, p.info)
      else if e.Cancel? && p.Fetching? then Cancelled(s, e.id, p.key)
      else s
  }

  function Run(s: System, events: seq<Event>): System
    decreases |events|
  {
    if events == [] then s else Run(Step(s, events[0]), events[1..])
  }

  function Start(enabled: bool): System {
    System(enabled, 0, map[], {}, map[], {}, {})
  }

  // ----- What every run keeps -----

  /** This caller has the claim on the address. */
  predicate Holds(p: Phase, icao: Text) {
    (p.Fetching? || p.Releasing?) && p.key.icao == icao
  }

  ghost predicate Claims(s: System) {
    && (forall id | id in s.callers && (s.callers[id].Fetching? || s.callers[id].Releasing?) ::
          s.callers[id].key.icao in s.inflight && s.callers[id].key.icao !in s.abandoned)
    && (forall icao | icao in s.inflight ::
          icao in s.abandoned || exists id :: id in s.callers && Holds(s.callers[id], icao))
    && s.abandoned <= s.inflight
    && (forall i, j, icao |
          i in s.callers && j in s.callers && Holds(s.callers[i], icao) && Holds(s.callers[j], icao) :: i == j)
  }

  ghost predicate Genuine(s: System, key: Key, info: Info) {
    IsAnswer(key.callsign, info) && (key, info) in s.answers
  }

  ghost predicate CacheSound(s: System) {
    forall icao | icao in s.cache ::
      && Genuine(s, Key(icao, s.cache[icao].callsign), s.cache[icao].info)
      && s.cache[icao].ttl == Ttl(s.cache[icao].info)
      && s.cache[icao].fetched <= s.now
  }

  ghost predicate Provenance(s: System) {
    CacheSound(s) && forall id | id in s.callers :: Sound(s, s.callers[id])
  }

  ghost predicate Sound(s: System, p: Phase) {
    match p
    case Releasing(key, info) => Genuine(s, key, info)
    case Storing(key, info) => Genuine(s, key, info)
    case Answered(key, info, source) => SoundAnswer(s, key, info, source)
    case _ => true
  }

  /** Either nothing is known, with the reason why, or the answer is one upstream
      gave for this very address and callsign, and from the cache only in time. */
  ghost predicate SoundAnswer(s: System, key: Key, info: Info, source: Source) {
    match source
    case SwitchedOff => !s.enabled && info == NoInfo(Disabled)
    case Busy => info == NoInfo(Pending)
    case FromUpstream => Genuine(s, key, info)
    case FromCache(e, at) =>
      && Genuine(s, key, info) && e.info == info && e.callsign == key.callsign
      && e.fetched <= at <= s.now && at - e.fetched < Ttl(info)
  }

  ghost predicate Safe(s: System) {
    Claims(s) && Provenance(s) && |s.cache| <= CACHE_CAP
  }

  /** A caller that does not hold a claim, before or after, may go anywhere. */
  lemma MoveClaims(s: System, s': System, id: nat)
    requires Claims(s)
    requires s'.inflight == s.inflight && s'.abandoned == s.abandoned
    requires id in s'.callers && s'.callers == s.callers[id := s'.callers[id]]
    requires !s'.callers[id].Fetching? && !s'.callers[id].Releasing?
    requires id in s.callers ==> !s.callers[id].Fetching? && !s.callers[id].Releasing?
    ensures Claims(s')
  {
    forall icao | icao in s'.inflight && icao !in s'.abandoned
      ensures exists k :: k in s'.callers && Holds(s'.callers[k], icao)
    {
      var k :| k in s.callers && Holds(s.callers[k], icao);
      assert k in s'.callers && Holds(s'.callers[k], icao);
    }
  }

  lemma ClaimClaims(s: System, id: nat)
    requires Claims(s) && id in s.callers && s.callers[id].Claiming? && s.callers[id].key.icao !in s.inflight
    ensures Claims(Claimed(s, id, s.callers[id].key))
  {
    var s' := Claimed(s, id, s.callers[id].key);
    forall icao | icao in s'.inflight && icao !in s'.abandoned
      ensures exists k :: k in s'.callers && Holds(s'.callers[k], icao)
    {
      if icao in s.inflight {
        var k :| k in s.callers && Holds(s.callers[k], icao);
        assert k in s'.callers && Holds(s'.callers[k], icao);
      } else {
        assert Holds(s'.callers[id], icao);
      }
    }
  }

  lemma FinishClaims(s: System, id: nat, info: Info)
    requires Claims(s) && id in s.callers && s.callers[id].Fetching?
    ensures Claims(Finished(s, id, s.callers[id].key, info))
  {
    var s' := Finished(s, id, s.callers[id].key, info);
    forall icao | icao in s'.inflight && icao !in s'.abandoned
      ensures exists k :: k in s'.callers && Holds(s'.callers[k], icao)
    {
      var k :| k in s.callers && Holds(s.callers[k], icao);
      assert k in s'.callers && Holds(s'.callers[k], icao);
    }
    forall i, j, icao | i in s'.callers && j in s'.callers && Holds(s'.callers[i], icao) && Holds(s'.callers[j], icao)
      ensures i == j
    {
      assert Holds(s.callers[i], icao) && Holds(s.callers[j], icao);
    }
  }

  /** The claim ends with its holder, released or abandoned. */
  lemma EndClaims(s: System, s': System, id: nat)
    requires Claims(s) && id in s.callers && (s.callers[id].Fetching? || s.callers[id].Releasing?)
    requires s'.callers - {id} == s.callers - {id}
    requires id in s'.callers ==> !s'.callers[id].Fetching? && !s'.callers[id].Releasing?
    requires var icao := s.callers[id].key.icao;
             || (s'.inflight == s.inflight - {icao} && s'.abandoned == s.abandoned)
             || (s'.inflight == s.inflight && s'.abandoned == s.abandoned + {icao})
    ensures Claims(s')
  {
    var mine := s.callers[id].key.icao;
    assert Holds(s.callers[id], mine);
    forall k | k in s'.callers && (s'.callers[k].Fetching? || s'.callers[k].Releasing?)
      ensures k in s.callers && s'.callers[k] == s.callers[k] && s'.callers[k].key.icao != mine
    {
      assert k in s'.callers - {id};
      assert k in s.callers - {id} && (s.callers - {id})[k] == (s'.callers - {id})[k];
      assert Holds(s.callers[k], s.callers[k].key.icao);
    }
    forall icao | icao in s'.inflight && icao !in s'.abandoned
      ensures exists k :: k in s'.callers && Holds(s'.callers[k], icao)
    {
      var k :| k in s.callers && Holds(s.callers[k], icao);
      assert k in s.callers - {id};
      assert k in s'.callers - {id} && (s.callers - {id})[k] == (s'.callers - {id})[k];
      assert k in s'.callers && Holds(s'.callers[k], icao);
    }
  }

  lemma StepClaims(s: System, e: Event)
    requires Claims(s)
    ensures Claims(Step(s, e))
  {
    hide Claims, Normalised, Stored, Hit, FetchInfo;
    var s' := Step(s, e);
    if e.Tick? {
      NowClaims(s, s'.now);
    } else if s' != s {
      if e.id !in s.callers {
        MoveClaims(s, s', e.id);
      } else if e.Claim? && s.callers[e.id].key.icao !in s.inflight {
        ClaimClaims(s, e.id);
      } else if e.Finish? {
        FinishClaims(s, e.id, FetchInfo(s.callers[e.id].key.callsign, e.ac, e.rt));
      } else if e.Release? || e.Cancel? {
        EndClaims(s, s', e.id);
      } else {
        MoveClaims(s, s', e.id);
      }
    }
  }

  lemma NowClaims(s: System, now: nat)
    requires Claims(s)
    ensures Claims(s.(now := now))
  {}

  lemma StoredBound(cache: Cache, key: Key, info: Info, now: nat)
    requires |cache| <= CACHE_CAP
    ensures |Stored(cache, key, info, now)| <= CACHE_CAP
  {
    var kept: Cache := if |cache| >= CACHE_CAP then map[] else cache;
    var after := Stored(cache, key, info, now);
    assert after.Keys == kept.Keys + {key.icao};
    if key.icao in kept {
      assert after.Keys == kept.Keys;
    }
  }

  /** More answers and a later clock keep what was sound. */
  lemma SoundLater(s: System, s': System, p: Phase)
    requires Sound(s, p) && s.answers <= s'.answers && s.now <= s'.now && s.enabled == s'.enabled
    ensures Sound(s', p)
  {}

  lemma SoundMove(s: System, s': System, id: nat)
    requires Provenance(s) && s.answers <= s'.answers && s.now <= s'.now && s.enabled == s'.enabled
    requires s'.callers - {id} == s.callers - {id}
    requires id in s'.callers ==> Sound(s', s'.callers[id])
    requires CacheSound(s')
    ensures Provenance(s')
  {
    forall k | k in s'.callers
      ensures Sound(s', s'.callers[k])
    {
      if k != id {
        assert k in s'.callers - {id};
        assert k in s.callers - {id} && (s.callers - {id})[k] == (s'.callers - {id})[k];
        SoundLater(s, s', s.callers[k]);
      }
    }
  }

  lemma StoreSound(s: System, id: nat)
    requires Provenance(s) && id in s.callers && s.callers[id].Storing?
    ensures CacheSound(Kept(s, id, s.callers[id].key, s.callers[id].info))
  {
    var p := s.callers[id];
    assert Genuine(s, p.key, p.info) by {
      assert Sound(s, p);
    }
    assert p.key == Key(p.key.icao, p.key.callsign);
  }

  lemma StepCache(s: System, e: Event)
    requires Provenance(s) && |s.cache| <= CACHE_CAP
    ensures CacheSound(Step(s, e)) && |Step(s, e).cache| <= CACHE_CAP
  {
    hide Normalised, Stored, IsAnswer, FetchInfo, Sound, Ttl;
    if !e.Tick? && e.id in s.callers && e.Store? && s.callers[e.id].Storing? {
      var p := s.callers[e.id];
      StoreSound(s, e.id);
      StoredBound(s.cache, p.key, p.info, s.now);
    }
  }

  lemma StepProvenance(s: System, e: Event)
    requires Provenance(s) && CacheSound(Step(s, e))
    ensures Provenance(Step(s, e))
  {
    hide CacheSound, Sound, Normalised, Stored, IsAnswer, FetchInfo, Hit;
    var s' := Step(s, e);
    if e.Tick? {
      forall id | id in s.callers
        ensures Sound(s', s.callers[id])
      {
        SoundLater(s, s', s.callers[id]);
      }
    } else {
      SoundMoved(s, e);
      SoundMove(s, s', e.id);
    }
  }

  /** The caller that moved is sound where it stands. */
  lemma SoundMoved(s: System, e: Event)
    requires Provenance(s) && !e.Tick?
    ensures var s' := Step(s, e); e.id in s'.callers ==> Sound(s', s'.callers[e.id])
  {
    hide Normalised, Stored, Ttl, FetchInfo;
    if e.id in s.callers {
      assert Sound(s, s.callers[e.id]);
      if e.Finish? && s.callers[e.id].Fetching? {
        var key := s.callers[e.id].key;
        assert IsAnswer(key.callsign, FetchInfo(key.callsign, e.ac, e.rt));
      }
    }
  }

  lemma StepSafe(s: System, e: Event)
    requires Safe(s)
    ensures Safe(Step(s, e))
  {
    hide Step, Claims, Provenance;
    StepClaims(s, e);
    StepCache(s, e);
    StepProvenance(s, e);
  }

  lemma {:induction false} RunSafe(s: System, events: seq<Event>)
    requires Safe(s)
    ensures Safe(Run(s, events))
    decreases |events|
  {
    hide Step, Safe;
    if events == [] {
    } else {
      StepSafe(s, events[0]);
      RunSafe(Step(s, events[0]), events[1..]);
    }
  }

  /** The addresses some caller is fetching or about to release. */
  ghost function Fetched(s: System): set<Text> {
    set id | id in s.callers && (s.callers[id].Fetching? || s.callers[id].Releasing?) :: s.callers[id].key.icao
  }

  /** Under every interleaving: at most one fetch per address is outstanding; the
      in-flight set is the addresses being fetched and those whose fetch was
      cancelled, without overlap; and the cache is bounded. */
  lemma OneFetchPerAddress(enabled: bool, events: seq<Event>)
    ensures var s := Run(Start(enabled), events);
            && (forall i, j | i in s.callers && j in s.callers && s.callers[i].Fetching? && s.callers[j].Fetching?
                              && s.callers[i].key.icao == s.callers[j].key.icao :: i == j)
            && s.inflight == Fetched(s) + s.abandoned
            && Fetched(s) !! s.abandoned
            && |s.cache| <= 4096
  {
    RunSafe(Start(enabled), events);
    var s := Run(Start(enabled), events);
    forall i, j | i in s.callers && j in s.callers && s.callers[i].Fetching? && s.callers[j].Fetching?
                  && s.callers[i].key.icao == s.callers[j].key.icao
      ensures i == j
    {
      var icao := s.callers[i].key.icao;
      assert Holds(s.callers[i], icao) && Holds(s.callers[j], icao);
    }
  }

  /** Without cancellation the in-flight set is exactly the addresses being fetched. */
  lemma {:induction false} Uncancelled(s: System, events: seq<Event>)
    requires s.abandoned == {} && forall k | 0 <= k < |events| :: !events[k].Cancel?
    ensures Run(s, events).abandoned == {}
    decreases |events|
  {
    if events == [] {
    } else {
      assert forall k | 0 <= k < |events[1..]| :: events[1..][k] == events[k + 1];
      assert !events[0].Cancel?;
      Uncancelled(Step(s, events[0]), events[1..]);
    }
  }

  lemma InFlightIsFetching(enabled: bool, events: seq<Event>)
    requires forall k | 0 <= k < |events| :: !events[k].Cancel?
    ensures var s := Run(Start(enabled), events); s.inflight == Fetched(s)
  {
    OneFetchPerAddress(enabled, events);
    Uncancelled(Start(enabled), events);
  }

  /** Every answer of every run is sound: a cached one is at most a day old, at
      most thirty seconds when the network failed, at most an hour when the route
      is missing, and was fetched for the caller's own address and callsign. */
  lemma AnswersSound(enabled: bool, events: seq<Event>, id: nat)
    requires var s := Run(Start(enabled), events); id in s.callers && s.callers[id].Answered?
    ensures var s := Run(Start(enabled), events);
            var p := s.callers[id];
            && SoundAnswer(s, p.key, p.info, p.source)
            && (p.source.FromCache? ==>
                  && p.source.at - p.source.entry.fetched < 24 * 60 * 60
                  && (p.info.reason == Some(Offline) ==> p.source.at - p.source.entry.fetched < 30)
                  && (p.info.route == None ==> p.source.at - p.source.entry.fetched < 60 * 60))
            && (p.source.SwitchedOff? || p.source.Busy? ==>
                  && !p.info.available && p.info.route == None && p.info.airline == None
                  && p.info.aircraft == Aircraft(None, None, None, None, None, None, None)
                  && p.info.reason == Some(if p.source.Busy? then Pending else Disabled))
  {
    RunSafe(Start(enabled), events);
    var s := Run(Start(enabled), events);
    assert Sound(s, s.callers[id]);
  }

  /** In every run a lookup is answered from the cache exactly while an entry for
      its address and callsign is younger than half a minute after a network
      failure, a day with a route, an hour otherwise. */
  lemma CachedUntilExpiry(enabled: bool, events: seq<Event>, id: nat)
    requires var s := Run(Start(enabled), events); id in s.callers && s.callers[id].Checking?
    ensures var s := Run(Start(enabled), events);
            var key := s.callers[id].key;
            var p := Step(s, Check(id)).callers[id];
            (p.Answered? && p.source.FromCache?)
            <==> (key.icao in s.cache
                  && var e := s.cache[key.icao];
                     e.callsign == key.callsign
                     && s.now - e.fetched < (if e.info.reason == Some(Offline) then 30
                                             else if e.info.route.Some? then 24 * 60 * 60 else 60 * 60))
  {
    RunSafe(Start(enabled), events);
    var s := Run(Start(enabled), events);
    var key := s.callers[id].key;
    if key.icao in s.cache {
      var e := s.cache[key.icao];
      assert IsAnswer(e.callsign, e.info) && e.ttl == Ttl(e.info);
      AnswerMeans(e.callsign, e.info);
    }
  }

  // ----- A cancelled fetch -----

  lemma {:induction false} AbandonedForever(s: System, events: seq<Event>, icao: Text)
    requires icao in s.abandoned
    ensures icao in Run(s, events).abandoned
    decreases |events|
  {
    if events == [] {
    } else {
      AbandonedForever(Step(s, events[0]), events[1..], icao);
    }
  }

  lemma {:induction false} RunConcat(s: System, a: seq<Event>, b: seq<Event>)
    ensures Run(s, a + b) == Run(Run(s, a), b)
    decreases |a|
  {
    if a == [] {
      assert a + b == b;
    } else {
      assert (a + b)[1..] == a[1..] + b;
      RunConcat(Step(s, a[0]), a[1..], b);
    }
  }

  /** Cancelling a fetch never frees its address (the removal comes after the
      await, server/src/flight/mod.rs:143-144): whatever happens afterwards, nobody
      fetches it again, and a lookup the cache cannot answer gets "pending". */
  lemma CancelledNeverFetchedAgain(enabled: bool, before: seq<Event>, id: nat, after: seq<Event>, other: nat)
    requires var s := Run(Start(enabled), before); id in s.callers && s.callers[id].Fetching?
    ensures var icao := Run(Start(enabled), before).callers[id].key.icao;
            var s := Run(Start(enabled), before + [Cancel(id)] + after);
            && icao in s.inflight
            && (other in s.callers ==> !Holds(s.callers[other], icao))
            && (other in s.callers && s.callers[other].Claiming? && s.callers[other].key.icao == icao ==>
                  Step(s, Claim(other)).callers[other]
                  == Answered(s.callers[other].key, NoInfo(Pending), Busy))
  {
    var s0 := Run(Start(enabled), before);
    var s1 := Step(s0, Cancel(id));
    RunConcat(Start(enabled), before, [Cancel(id)]);
    assert Run(s0, [Cancel(id)]) == Run(s1, []);
    RunConcat(Start(enabled), before + [Cancel(id)], after);
    AbandonedForever(s1, after, s0.callers[id].key.icao);
    RunSafe(Start(enabled), before + [Cancel(id)] + after);
  }
}
