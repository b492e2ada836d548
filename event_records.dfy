/**
 * The redirect event record of the events controller and how it is built
 * from the data a redirect supplies, including the geolocation enrichment.
 *
 * The GeoIP database lookup and IP parsing are foreign calls: whether the IP
 * address parses and what the lookup returned are inputs here, and the
 * freshly generated event id is a parameter.
 */
module EventRecords {
  import opened Optional

  /** Go's uint64. */
  type Uint64 = x: int | 0 <= x < 0x1_0000_0000_0000_0000

  /** A 128-bit UUID. */
  type Uuid = s: seq<bv8> | |s| == 16 witness seq(16, _ => 0 as bv8)

  /** What a redirect hands to the events controller (EventRedirectData). */
  datatype RedirectData = RedirectData(
    shortUrlId: Uint64,
    urlGroupId: Uint64,
    shortUrl: string,
    creatorId: Uint64,
    ipAddress: string,
    userAgent: string,
    referer: string)

  /** One stored redirect event; an empty location string means "not known". */
  datatype EventRedirect = EventRedirect(
    id: Uuid,
    shortUrl: string,
    shortUrlId: Uint64,
    urlGroupId: Uint64,
    creatorId: Uint64,
    userAgent: string,
    ipAddress: string,
    referer: string,
    locationCountry: string,
    locationRegion: string,
    locationCity: string)

  /** A country or subdivision of a GeoIP city record: localised names and an ISO code. */
  datatype Place = Place(names: map<string, string>, isoCode: string)

  /** A city of a GeoIP city record: localised names only. */
  datatype City = City(names: map<string, string>)

  /** The part of a GeoIP city record the enrichment reads. */
  datatype CityRecord = CityRecord(city: City, country: Place, subdivisions: seq<Place>)

  /** The outcome of a GeoIP city lookup. */
  datatype LookupResult = Found(record: CityRecord) | LookupFailed

  /** A Go map lookup of the English name: a missing key reads as "". */
  function EnglishName(names: map<string, string>): (n: string)
    ensures "en" in names ==> n == names["en"]
    ensures "en" !in names ==> n == ""
  {
    if "en" in names then names["en"] else ""
  }

  /** The "%s (%s)" rendering of a place name and its ISO code. */
  function Label(name: string, isoCode: string): string {
    name + " (" + isoCode + ")"
  }

  /**
   * The text a country or region field receives: the label when the English
   * name is non-empty, and nothing otherwise (the ISO code alone never shows).
   */
  function PlaceField(p: Place): (s: string)
    ensures s == "" <==> EnglishName(p.names) == ""
    ensures s != "" ==> s == Label(EnglishName(p.names), p.isoCode)
  {
    var name := EnglishName(p.names);
    if name != "" then Label(name, p.isoCode) else ""
  }

  /** The last position of c in s, if any. */
  function LastIndexOf(s: string, c: char): (r: Option<nat>)
    ensures r.Some? ==> r.value < |s| && s[r.value] == c
    ensures r.Some? ==> forall j :: r.value < j < |s| ==> s[j] != c
    ensures r.None? ==> c !in s
    decreases |s|
  {
    if s == [] then None
    else if s[|s| - 1] == c then Some(|s| - 1)
    else LastIndexOf(s[..|s| - 1], c)
  }

  /** Splits "name (iso)" back into name and ISO code, at the last opening parenthesis. */
  function ParseLabel(s: string): Option<(string, string)> {
    if |s| >= 1 && s[|s| - 1] == ')' then
      match LastIndexOf(s[..|s| - 1], '(')
      case Some(k) =>
        if k >= 1 && s[k - 1] == ' ' then Some((s[..k - 1], s[k + 1..|s| - 1])) else None
      case None => None
    else None
  }

  /**
   * A label keeps both of its parts: for an ISO code without '(' (ISO 3166
   * codes are letters and digits) the name and the code are read back unchanged.
   */
  lemma LabelRoundTrip(name: string, isoCode: string)
    requires '(' !in isoCode
    ensures ParseLabel(Label(name, isoCode)) == Some((name, isoCode))
  {
    var s := Label(name, isoCode);
    var body := s[..|s| - 1];
    assert body == name + " (" + isoCode;
    assert body[|name| + 1] == '(';
    assert forall j :: |name| + 1 < j < |body| ==> body[j] == isoCode[j - |name| - 2];
    var k := LastIndexOf(body, '(');
    assert k == Some(|name| + 1);
    assert s[..|name|] == name;
    assert s[|name| + 2..|s| - 1] == isoCode;
  }

  /** The event fields not touched by the enrichment are copied from the redirect data. */
  predicate CopiesRedirect(e: EventRedirect, data: RedirectData, id: Uuid) {
    && e.id == id
    && e.shortUrl == data.shortUrl
    && e.shortUrlId == data.shortUrlId
    && e.urlGroupId == data.urlGroupId
    && e.creatorId == data.creatorId
    && e.userAgent == data.userAgent
    && e.ipAddress == data.ipAddress
    && e.referer == data.referer
  }

  /** The enrichment runs only when the IP address parses and the lookup succeeds. */
  predicate Enriches(ipParses: bool, lookup: LookupResult) {
    ipParses && lookup.Found?
  }

  /**
   * The location fields an event receives. Without enrichment all three stay
   * empty; with it the country and the first subdivision each get their label
   * when their English name is non-empty, and the city gets its bare English
   * name. A record without subdivisions leaves the region empty.
   */
  predicate LocationFrom(e: EventRedirect, ipParses: bool, lookup: LookupResult) {
    if Enriches(ipParses, lookup) then
      var rec := lookup.record;
      && e.locationCountry == PlaceField(rec.country)
      && e.locationRegion == (if |rec.subdivisions| == 0 then "" else PlaceField(rec.subdivisions[0]))
      && e.locationCity == EnglishName(rec.city.names)
    else
      e.locationCountry == "" && e.locationRegion == "" && e.locationCity == ""
  }

  /** Building an event either yields the record or panics on the unguarded subdivision index. */
  datatype BuildOutcome = Built(event: EventRedirect) | IndexOutOfRange

  /**
   * The record construction and enrichment as the source writes it: the
   * first subdivision is read without checking that there is one, so a
   * record with no subdivisions stops the construction with an index panic.
   */
  method BuildEventAsWritten(data: RedirectData, id: Uuid, ipParses: bool, lookup: LookupResult)
    returns (out: BuildOutcome)
    ensures out.IndexOutOfRange? <==> Enriches(ipParses, lookup) && |lookup.record.subdivisions| == 0
    ensures out.Built? ==> CopiesRedirect(out.event, data, id) && LocationFrom(out.event, ipParses, lookup)
  {
    var event := EventRedirect(id, data.shortUrl, data.shortUrlId, data.urlGroupId, data.creatorId,
                               data.userAgent, data.ipAddress, data.referer, "", "", "");
    if ipParses {
      match lookup
      case Found(city) =>
        if EnglishName(city.country.names) != "" {
          event := event.(locationCountry := Label(EnglishName(city.country.names), city.country.isoCode));
        }
        if |city.subdivisions| == 0 {
          return IndexOutOfRange;
        }
        if EnglishName(city.subdivisions[0].names) != "" {
          event := event.(locationRegion := Label(EnglishName(city.subdivisions[0].names),
                                                  city.subdivisions[0].isoCode));
        }
        if EnglishName(city.city.names) != "" {
          event := event.(locationCity := EnglishName(city.city.names));
        }
      case LookupFailed =>
    }
    return Built(event);
  }

  /** A city record that resolves only to a country: no subdivision, no city. */
  function CountryOnlyRecord(): CityRecord {
    CityRecord(City(map[]), Place(map["en" := "Singapore"], "SG"), [])
  }

  /** The construction as written panics on a country-only record although the IP parsed and the lookup succeeded. */
  method CountryOnlyRecordPanics(data: RedirectData, id: Uuid) returns (out: BuildOutcome)
    ensures out == IndexOutOfRange
  {
    out := BuildEventAsWritten(data, id, true, Found(CountryOnlyRecord()));
  }

  /**
   * The record construction and enrichment with the subdivision index
   * guarded: it never fails, and agrees with the construction as written on
   * every input on which that one does not panic.
   */
  method BuildEvent(data: RedirectData, id: Uuid, ipParses: bool, lookup: LookupResult)
    returns (event: EventRedirect)
    ensures CopiesRedirect(event, data, id)
    ensures LocationFrom(event, ipParses, lookup)
  {
    event := EventRedirect(id, data.shortUrl, data.shortUrlId, data.urlGroupId, data.creatorId,
                           data.userAgent, data.ipAddress, data.referer, "", "", "");
    if ipParses {
      match lookup
      case Found(city) =>
        if EnglishName(city.country.names) != "" {
          event := event.(locationCountry := Label(EnglishName(city.country.names), city.country.isoCode));
        }
        if |city.subdivisions| > 0 && EnglishName(city.subdivisions[0].names) != "" {
          event := event.(locationRegion := Label(EnglishName(city.subdivisions[0].names),
                                                  city.subdivisions[0].isoCode));
        }
        if EnglishName(city.city.names) != "" {
          event := event.(locationCity := EnglishName(city.city.names));
        }
      case LookupFailed =>
    }
  }

  /** The contract of an event build determines the event completely. */
  lemma BuildSpecDeterministic(e1: EventRedirect, e2: EventRedirect, data: RedirectData, id: Uuid,
                               ipParses: bool, lookup: LookupResult)
    requires CopiesRedirect(e1, data, id) && LocationFrom(e1, ipParses, lookup)
    requires CopiesRedirect(e2, data, id) && LocationFrom(e2, ipParses, lookup)
    ensures e1 == e2
  {
  }

  /** An IP that does not parse, or a failed lookup, leaves every location field empty. */
  lemma NoLocationWithoutLookup(e: EventRedirect, ipParses: bool, lookup: LookupResult)
    requires LocationFrom(e, ipParses, lookup)
    requires !ipParses || lookup.LookupFailed?
    ensures e.locationCountry == "" && e.locationRegion == "" && e.locationCity == ""
  {
  }

  /**
   * With a successful lookup the country field is set exactly when the English
   * country name is non-empty, and then it reads back as that name and the ISO
   * code, even when the ISO code is empty.
   */
  lemma CountryFieldRule(e: EventRedirect, ipParses: bool, lookup: LookupResult)
    requires LocationFrom(e, ipParses, lookup) && Enriches(ipParses, lookup)
    ensures e.locationCountry != "" <==> EnglishName(lookup.record.country.names) != ""
    ensures e.locationCountry != "" && '(' !in lookup.record.country.isoCode ==>
      ParseLabel(e.locationCountry) == Some((EnglishName(lookup.record.country.names), lookup.record.country.isoCode))
  {
    if e.locationCountry != "" && '(' !in lookup.record.country.isoCode {
      LabelRoundTrip(EnglishName(lookup.record.country.names), lookup.record.country.isoCode);
    }
  }

  /** The same rule for the region, read from the first subdivision. */
  lemma RegionFieldRule(e: EventRedirect, ipParses: bool, lookup: LookupResult)
    requires LocationFrom(e, ipParses, lookup) && Enriches(ipParses, lookup)
    requires |lookup.record.subdivisions| > 0
    ensures e.locationRegion != "" <==> EnglishName(lookup.record.subdivisions[0].names) != ""
    ensures e.locationRegion != "" && '(' !in lookup.record.subdivisions[0].isoCode ==>
      ParseLabel(e.locationRegion) ==
        Some((EnglishName(lookup.record.subdivisions[0].names), lookup.record.subdivisions[0].isoCode))
  {
    if e.locationRegion != "" && '(' !in lookup.record.subdivisions[0].isoCode {
      LabelRoundTrip(EnglishName(lookup.record.subdivisions[0].names), lookup.record.subdivisions[0].isoCode);
    }
  }
}
