/** Endpoints, their health, and the checks on identifiers. */
module EgressTypes {
  import Text

  /** Nanoseconds since Go's zero Time, which is instant 0. */
  type Instant = int

  const MAX_DURATION := 0x7FFF_FFFF_FFFF_FFFF
  const MIN_DURATION := -0x8000_0000_0000_0000

  type uint32 = x: int | 0 <= x < 0x1_0000_0000

  /** Time.Sub saturates at the limits of a 64-bit Duration. */
  function Sub(a: Instant, b: Instant): int {
    if a - b > MAX_DURATION then MAX_DURATION
    else if a - b < MIN_DURATION then MIN_DURATION
    else a - b
  }

  predicate LowerOrDigit(c: char) {
    'a' <= c <= 'z' || '0' <= c <= '9'
  }

  predicate ValidEndpointID(id: string) {
    && 3 <= |id| <= 64
    && LowerOrDigit(id[0])
    && forall i :: 1 <= i < |id| ==> LowerOrDigit(id[i]) || id[i] == '-'
  }

  predicate Alphanumeric(c: char) {
    LowerOrDigit(c) || 'A' <= c <= 'Z'
  }

  predicate ValidJobID(id: string) {
    && 8 <= |id| <= 128
    && Alphanumeric(id[0])
    && forall i :: 1 <= i < |id| ==> Alphanumeric(id[i]) || id[i] == '_' || id[i] == '-'
  }

  predicate ValidCountry(code: string) {
    |code| == 2 && 'A' <= code[0] <= 'Z' && 'A' <= code[1] <= 'Z'
  }

  const PLATFORM_X := "x"
  const PLATFORM_NOSTR := "nostr"

  predicate ValidPlatform(p: string) {
    p == PLATFORM_X || p == PLATFORM_NOSTR
  }

  datatype Endpoint = Endpoint(id: string, countryCode: string, provider: string, region: string) {
    predicate Valid() {
      && ValidEndpointID(id)
      && ValidCountry(countryCode)
      && (provider == "aws" || provider == "gcp")
      && !Text.Blank(Text.Of(region))
      && Text.ByteLength(Text.Of(region)) <= 64
    }
  }

  datatype Health = Health(healthy: bool, quarantined: bool, checkedAt: Instant, failures: uint32) {
    predicate Eligible(now: Instant, maxAge: int) {
      && healthy && !quarantined && checkedAt != 0
      && maxAge > 0
      && 0 <= Sub(now, checkedAt) <= maxAge
    }
  }

  const FRESH := Health(false, false, 0, 0)

  datatype Record = Record(endpoint: Endpoint, health: Health)

  type Records = map<string, Record>

  /** Every record is stored under its own endpoint ID. */
  ghost predicate WellKeyed(records: Records) {
    forall id :: id in records ==> records[id].endpoint.id == id
  }

  ghost predicate WellFormed(records: Records) {
    WellKeyed(records) && forall id :: id in records ==> records[id].endpoint.Valid()
  }

  datatype EgressError =
    | BadEndpoint
    | DuplicateEndpoint(id: string)
    | EmptyRegistry
    | UnknownEndpoint
    | MissingTimestamp
    | BadPolicy
    | BadJobID
    | BadPlatform
    | BadPreviousCountry
    | PreviousCountryNotAllowed
    | InsufficientCountries(got: nat, required: int)
    | NoEligibleAlternate
    | StableEndpointNotInFrance
    | EndpointNotHealthy
    | EntropyFailure
}
