/** The process-wide table from the key [email, origin] to the raw assertion
    most recently registered for it. The Java class keeps it in a static field
    that stays null until the first registration; here it is a `Registry` object
    that the authorizers are handed. */
module AssertionRegistry {
  import opened Wrappers
  import opened Foreign
  import opened JavaStrings
  import opened AssertionParser

  /** The key `[email, origin]`. */
  type Key = (string, string)

  type Table = map<Key, string>

  /** The origin as it appears in keys: the URL's external form, lowercased. */
  function NormalizeOrigin(url: Url): (origin: string)
    ensures ToLower(origin) == origin
  {
    ToLowerIdempotent(url.externalForm);
    ToLower(url.externalForm)
  }

  /** The key registerAssertion(assertion) stores under, or the reason it throws.
      Parse failures propagate; the email claim must be a string (the cast at the
      call site, a null email counted as a failure too); the origin claim must be a
      string the URL constructor accepts, and a missing origin is the constructor's
      MalformedURLException. The key holds the email claim and the normalized
      origin, so its origin is already lowercase. */
  function RegistrationKey(lib: Platform, assertion: string): (r: Result<Key, Error>)
    ensures ParseAssertion(lib, assertion).Failure? ==> r == Failure(ParseAssertion(lib, assertion).error)
    ensures r.Success? <==>
      && ParseAssertion(lib, assertion).Success?
      && ParseAssertion(lib, assertion).value.email.JString?
      && ParseAssertion(lib, assertion).value.origin.JString?
      && lib.newUrl(ParseAssertion(lib, assertion).value.origin.s).Some?
    ensures r.Success? ==>
      var c := ParseAssertion(lib, assertion).value;
      r.value == (c.email.s, ToLower(lib.newUrl(c.origin.s).value.externalForm))
    ensures r.Success? ==> ToLower(r.value.1) == r.value.1
    ensures ParseAssertion(lib, assertion).Success? && ParseAssertion(lib, assertion).value.email.JString? ==>
      var origin := ParseAssertion(lib, assertion).value.origin;
      (origin == JNull || (origin.JString? && lib.newUrl(origin.s).None?)) <==> r == Failure(InvalidOriginUrl)
    ensures ParseAssertion(lib, assertion).Success? ==>
      var c := ParseAssertion(lib, assertion).value;
      (!c.email.JString? || !(c.origin.JString? || c.origin.JNull?)) ==> r == Failure(InvalidAssertionEncoding)
  {
    match ParseAssertion(lib, assertion)
    case Failure(e) => Failure(e)
    case Success(claims) =>
      if !claims.email.JString? then Failure(InvalidAssertionEncoding)
      else
        match claims.origin
        case JNull => Failure(InvalidOriginUrl)
        case JString(origin) =>
          (match lib.newUrl(origin)
           case None => Failure(InvalidOriginUrl)
           case Some(url) => Success((claims.email.s, NormalizeOrigin(url))))
        case _ => Failure(InvalidAssertionEncoding)
  }

  /** The entry a lookup of `email` at `site` reads. */
  function Find(table: Table, email: string, site: Url): (r: Option<string>)
    ensures r.Some? <==> (email, ToLower(site.externalForm)) in table
    ensures r.Some? ==> r.value == table[(email, ToLower(site.externalForm))]
  {
    var key := (email, NormalizeOrigin(site));
    if key in table then Some(table[key]) else None
  }

  class Registry {
    /** The table; None while the Java static field is still null. */
    var assertions: Option<Table>

    constructor ()
      ensures assertions == None
    {
      assertions := None;
    }

    /** The entries, none while the table is unallocated. */
    function Stored(): Table
      reads this
    {
      if assertions.Some? then assertions.value else map[]
    }

    /** registerAssertion(assertion, email, origin): allocates the table on first
        use, stores `assertion` under [email, origin] exactly as given (the origin
        is not normalized here), overwriting any earlier value, leaves every other
        entry alone and returns the email. */
    method RegisterWithKey(assertion: string, email: string, origin: string) returns (r: string)
      modifies this
      ensures r == email
      ensures assertions == Some(old(Stored())[(email, origin) := assertion])
      ensures forall k :: k != (email, origin) ==>
        (k in Stored() <==> k in old(Stored())) && (k in Stored() ==> Stored()[k] == old(Stored())[k])
    {
      var table := Stored();
      assertions := Some(table[(email, origin) := assertion]);
      r := email;
    }

    /** registerAssertion(assertion): stores the assertion under the key derived from
        its own claims and returns the email; when the key cannot be derived it fails
        with that error and stores nothing. Afterwards a lookup of the email at any
        site whose external form lowercases to the stored origin finds the assertion. */
    method Register(lib: Platform, assertion: string) returns (r: Result<string, Error>)
      modifies this
      ensures RegistrationKey(lib, assertion).Failure? ==>
        r == Failure(RegistrationKey(lib, assertion).error) && assertions == old(assertions)
      ensures RegistrationKey(lib, assertion).Success? ==>
        var key := RegistrationKey(lib, assertion).value;
        r == Success(key.0) && assertions == Some(old(Stored())[key := assertion])
      ensures r.Success? ==> forall site :: NormalizeOrigin(site) == RegistrationKey(lib, assertion).value.1 ==>
        Lookup(r.value, site) == Success(Some(assertion))
    {
      match RegistrationKey(lib, assertion)
      case Failure(e) =>
        r := Failure(e);
      case Success(key) =>
        var email := RegisterWithKey(assertion, key.0, key.1);
        r := Success(email);
    }

    /** assertionForEmailAndSite: the assertion stored for `email` at the site's
        normalized origin, if any; a lookup before any registration dereferences
        the null table and fails. */
    function Lookup(email: string, site: Url): (r: Result<Option<string>, Error>)
      reads this
      ensures assertions.None? <==> r == Failure(NoRegistry)
      ensures assertions.Some? ==> r.Success?
      ensures r.Success? ==>
        (r.value.Some? <==> (email, ToLower(site.externalForm)) in assertions.value)
      ensures r.Success? && r.value.Some? ==>
        r.value.value == assertions.value[(email, ToLower(site.externalForm))]
    {
      match assertions
      case None => Failure(NoRegistry)
      case Some(table) => Success(Find(table, email, site))
    }
  }

  // ----- properties of the table -----

  /** Sites whose external forms differ only in the case of ASCII letters reach
      the same entry. */
  lemma LookupIgnoresCase(registry: Registry, email: string, site1: Url, site2: Url)
    requires SameUpToAsciiCase(site1.externalForm, site2.externalForm)
    ensures registry.Lookup(email, site1) == registry.Lookup(email, site2)
  {
    ToLowerEqualIff(site1.externalForm, site2.externalForm);
  }

  /** Registering two assertions in turn under one key: a lookup of that email at
      any site normalizing to the key's origin finds only the second. */
  method ReregisterOverwrites(registry: Registry, first: string, second: string,
                              email: string, site: Url)
    modifies registry
    ensures registry.Lookup(email, site) == Success(Some(second))
    ensures registry.Stored() == old(registry.Stored())[(email, NormalizeOrigin(site)) := second]
  {
    var _ := registry.RegisterWithKey(first, email, NormalizeOrigin(site));
    var _ := registry.RegisterWithKey(second, email, NormalizeOrigin(site));
  }

  /** A key whose origin is not lowercase, as only the three-argument registration
      can store, is never read by a lookup: a lookup's origin is always lowercase. */
  lemma UnnormalizedKeyUnreachable(table: Table, email: string, origin: string, assertion: string,
                                   anyEmail: string, site: Url)
    requires ToLower(origin) != origin
    ensures Find(table[(email, origin) := assertion], anyEmail, site) == Find(table, anyEmail, site)
  {
    assert NormalizeOrigin(site) != origin;
  }

  /** "HTTP://Example.com" and "http://example.com" are one origin. */
  lemma OriginCaseExample()
    ensures NormalizeOrigin(Url("HTTP://Example.com")) == NormalizeOrigin(Url("http://example.com"))
    ensures NormalizeOrigin(Url("HTTP://Example.com")) == "http://example.com"
  {
  }
}
