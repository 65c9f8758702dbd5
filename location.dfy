/**
 * The geo-gate: a fixed denylist of country names and the admission test applied
 * at registration. The lookup of a country for an IP address (an HTTP call to a
 * geolocation service) is not modelled here; callers receive it as an oracle
 * `string -> Option<string>` whose `None` stands for every failed lookup.
 */
module Location {
  import opened Results

  /** The restricted countries, in the order the source lists them. */
  const BlockedCountries: seq<string> := ["Syria", "Afghanistan", "Iran"]

  /** A country is blocked when it is present and is one of the listed countries. */
  function IsBlockedCountry(country: Option<string>): (blocked: bool)
    ensures blocked <==> country == Some("Syria") || country == Some("Afghanistan") || country == Some("Iran")
  {
    country.Some? && country.value in BlockedCountries
  }

  /** A failed lookup comes back as null, and null is never blocked: the gate fails open. */
  lemma FailedLookupIsAdmitted()
    ensures !IsBlockedCountry(None)
  {
  }

  /** Matching is exact and case-sensitive. */
  lemma MatchingIsCaseSensitive()
    ensures !IsBlockedCountry(Some("syria")) && !IsBlockedCountry(Some("IRAN"))
    ensures !IsBlockedCountry(Some("Iran ")) && !IsBlockedCountry(Some(""))
  {
  }
}
