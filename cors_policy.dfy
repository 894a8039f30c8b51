/**
 * The server's cross-origin acceptance rule: a request with no origin is
 * accepted, so is any origin ending in ".vercel.app", and so is an origin
 * that equals one of three listed origins exactly; every other origin is
 * refused.
 */
module CorsPolicy {
  import opened Wrappers

  /** The origins accepted by exact match. */
  const AllowedOrigins: seq<string> := [
    "http://localhost:5173",
    "http://localhost:3000",
    "https://hotel-booking-nine-tawny.vercel.app"
  ]

  /** Every deployment on this domain is accepted. */
  const VercelSuffix: string := ".vercel.app"

  /** `s` ends with `suffix`. */
  predicate EndsWith(s: string, suffix: string)
  {
    |suffix| <= |s| && s[|s| - |suffix|..] == suffix
  }

  /** The origin header is absent or empty (a falsy origin). */
  predicate Absent(origin: Option<string>)
  {
    origin.None? || origin.value == ""
  }

  /** Whether a request from `origin` is allowed, checked in the server's order. */
  function OriginAllowed(origin: Option<string>): (allowed: bool)
    ensures Absent(origin) ==> allowed
  {
    if Absent(origin) then true
    else if EndsWith(origin.value, VercelSuffix) then true
    else origin.value in AllowedOrigins
  }

  /** Ending with a suffix is the same as being some prefix followed by it. */
  lemma EndsWithIffSplit(s: string, suffix: string)
    ensures EndsWith(s, suffix) <==> exists prefix :: s == prefix + suffix
  {
    if EndsWith(s, suffix) {
      var prefix := s[..|s| - |suffix|];
      assert s == prefix + suffix;
    }
    if exists prefix :: s == prefix + suffix {
      var prefix :| s == prefix + suffix;
      assert s[|s| - |suffix|..] == suffix;
    }
  }

  /** Any prefix followed by ".vercel.app" is accepted. */
  lemma VercelDeploymentsAllowed(prefix: string)
    ensures OriginAllowed(Some(prefix + VercelSuffix))
  {
    EndsWithIffSplit(prefix + VercelSuffix, VercelSuffix);
  }

  /**
   * Acceptance is exactly the disjunction of the three checks: absent, some
   * prefix followed by ".vercel.app", or one of the listed origins.
   */
  lemma AllowedIff(origin: Option<string>)
    ensures OriginAllowed(origin) <==>
              || Absent(origin)
              || (exists prefix :: origin.value == prefix + VercelSuffix)
              || origin.value in AllowedOrigins
  {
    if !Absent(origin) {
      EndsWithIffSplit(origin.value, VercelSuffix);
    }
  }

  /** Matching is exact: a trailing slash or another port is refused. */
  lemma ExactMatchOnly()
    ensures OriginAllowed(Some("http://localhost:5173"))
    ensures !OriginAllowed(Some("http://localhost:5173/"))
    ensures !OriginAllowed(Some("http://localhost:5174"))
    ensures !OriginAllowed(Some("https://localhost:3000"))
  {
    assert !EndsWith("http://localhost:5173/", VercelSuffix) by {
      assert "http://localhost:5173/"[21] != VercelSuffix[10];
    }
    assert !EndsWith("http://localhost:5174", VercelSuffix) by {
      assert "http://localhost:5174"[20] != VercelSuffix[10];
    }
    assert !EndsWith("https://localhost:3000", VercelSuffix) by {
      assert "https://localhost:3000"[21] != VercelSuffix[10];
    }
  }
}
