/** The authorizer a replicator consults before logging in to a site with
    Persona: it finds the assertion registered for its user and that site,
    re-parses it, applies the expiration policy and hands out the login
    parameters. */
module PersonaAuth {
  import opened Wrappers
  import opened Foreign
  import opened AssertionParser
  import opened AssertionRegistry
  import opened JavaStrings

  /** The key of the login parameter that carries the assertion. */
  const LoginParameterAssertion := "assertion"
  /** The URL query parameter under which an assertion may arrive. */
  const QueryParameter := "personaAssertion"

  class PersonaAuthorizer {
    const emailAddress: string
    /** The process-wide table, shared by every authorizer. */
    const registry: Registry
    /** When set, assertions are never considered expired (a testing aid). */
    var skipAssertionExpirationCheck: bool

    constructor (emailAddress: string, registry: Registry)
      ensures this.emailAddress == emailAddress && this.registry == registry
      ensures !skipAssertionExpirationCheck
    {
      this.emailAddress := emailAddress;
      this.registry := registry;
      skipAssertionExpirationCheck := false;
    }

    method SetSkipAssertionExpirationCheck(skip: bool)
      modifies this
      ensures skipAssertionExpirationCheck == skip
    {
      skipAssertionExpirationCheck := skip;
    }

    /** isAssertionExpired at time `now` (milliseconds since the epoch): never while
        the check is skipped, otherwise exactly when the expiry lies strictly before
        `now`, so an assertion expiring at `now` is still valid. */
    function IsAssertionExpired(claims: Claims, now: int): (expired: bool)
      reads this
      ensures skipAssertionExpirationCheck ==> !expired
      ensures !skipAssertionExpirationCheck ==> (expired <==> claims.expiration < now)
    {
      if skipAssertionExpirationCheck then false else claims.expiration < now
    }

    /** assertionForSite: nothing when no assertion is stored for this user at the
        site or when the stored one has expired; otherwise the stored string itself.
        A lookup before any registration and a stored assertion that no longer parses
        are errors. It only reads the table. */
    function AssertionForSite(lib: Platform, site: Url, now: int): (r: Result<Option<string>, Error>)
      reads this, registry
      ensures registry.Lookup(emailAddress, site).Failure? ==> r == Failure(NoRegistry)
      ensures registry.Lookup(emailAddress, site) == Success(None) ==> r == Success(None)
      ensures forall a :: registry.Lookup(emailAddress, site) == Success(Some(a)) ==>
        match ParseAssertion(lib, a)
        case Failure(e) => r == Failure(e)
        case Success(claims) =>
          r == if IsAssertionExpired(claims, now) then Success(None) else Success(Some(a))
      ensures r.Success? && r.value.Some? ==> registry.Lookup(emailAddress, site) == Success(r.value)
    {
      match registry.Lookup(emailAddress, site)
      case Failure(e) => Failure(e)
      case Success(None) => Success(None)
      case Success(Some(assertion)) =>
        match ParseAssertion(lib, assertion)
        case Failure(e) => Failure(e)
        case Success(claims) =>
          if IsAssertionExpired(claims, now) then Success(None) else Success(Some(assertion))
    }

    /** loginParametersForSite: nothing exactly when assertionForSite gives nothing,
        otherwise the one-entry map from "assertion" to that assertion; errors
        propagate. */
    method LoginParametersForSite(lib: Platform, site: Url, now: int)
      returns (r: Result<Option<map<string, string>>, Error>)
      ensures AssertionForSite(lib, site, now).Failure? ==>
        r == Failure(AssertionForSite(lib, site, now).error)
      ensures r.Success? <==> AssertionForSite(lib, site, now).Success?
      ensures r.Success? ==> (r.value.None? <==> AssertionForSite(lib, site, now).value.None?)
      ensures r.Success? && r.value.Some? ==>
        r.value.value.Keys == {LoginParameterAssertion} &&
        r.value.value[LoginParameterAssertion] == AssertionForSite(lib, site, now).value.value
    {
      var loginParameters: map<string, string> := map[];
      var assertion := AssertionForSite(lib, site, now);
      match assertion
      case Failure(e) =>
        r := Failure(e);
      case Success(Some(a)) =>
        loginParameters := loginParameters[LoginParameterAssertion := a];
        r := Success(Some(loginParameters));
      case Success(None) =>
        r := Success(None);
    }

    /** Logging in posts the parameters to "/_persona", whatever the site. */
    function LoginPathForSite(site: Url): (path: string)
      ensures path == "/_persona"
    {
      "/_persona"
    }

    /** A successful login yields a session cookie. */
    function UsesCookieBasedLogin(): (cookie: bool)
      ensures cookie
    {
      true
    }
  }

  // ----- properties of the expiration policy and the site adapter -----

  /** Expiry is terminal: an assertion expired at one time is expired at every
      later time. */
  lemma ExpiredStaysExpired(auth: PersonaAuthorizer, claims: Claims, now: int, later: int)
    requires now <= later
    requires auth.IsAssertionExpired(claims, now)
    ensures auth.IsAssertionExpired(claims, later)
  {
  }

  /** With the check in force, an assertion one millisecond past its expiry yields
      nothing, and one expiring this millisecond or later is handed out. */
  lemma ExpiryBoundary(auth: PersonaAuthorizer, lib: Platform, site: Url, a: string, claims: Claims)
    requires !auth.skipAssertionExpirationCheck
    requires auth.registry.Lookup(auth.emailAddress, site) == Success(Some(a))
    requires ParseAssertion(lib, a) == Success(claims)
    ensures auth.AssertionForSite(lib, site, claims.expiration + 1) == Success(None)
    ensures auth.AssertionForSite(lib, site, claims.expiration) == Success(Some(a))
    ensures auth.AssertionForSite(lib, site, claims.expiration - 1) == Success(Some(a))
  {
  }

  /** With the check skipped, a stored assertion that parses is handed out however
      long ago it expired. */
  lemma SkipIgnoresExpiry(auth: PersonaAuthorizer, lib: Platform, site: Url, a: string, now: int)
    requires auth.skipAssertionExpirationCheck
    requires auth.registry.Lookup(auth.emailAddress, site) == Success(Some(a))
    requires ParseAssertion(lib, a).Success?
    ensures auth.AssertionForSite(lib, site, now) == Success(Some(a))
  {
  }

  /** End to end: an assertion whose own claims name this authorizer's user and
      which sits in the table under the key registration derives from it is handed
      out at that origin, in any letter case, until it expires; a site with no
      entry gets nothing. */
  lemma RegisteredAssertionIsHandedOut(auth: PersonaAuthorizer, lib: Platform, a: string,
                                        site: Url, other: Url, now: int)
    requires RegistrationKey(lib, a).Success?
    requires RegistrationKey(lib, a).value.0 == auth.emailAddress
    requires auth.registry.assertions.Some?
    requires RegistrationKey(lib, a).value in auth.registry.assertions.value
    requires auth.registry.assertions.value[RegistrationKey(lib, a).value] == a
    requires ToLower(site.externalForm) == RegistrationKey(lib, a).value.1
    requires (auth.emailAddress, ToLower(other.externalForm)) !in auth.registry.assertions.value
    requires now <= ParseAssertion(lib, a).value.expiration
    ensures auth.AssertionForSite(lib, site, now) == Success(Some(a))
    ensures auth.AssertionForSite(lib, other, now) == Success(None)
  {
  }
}
