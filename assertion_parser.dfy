/** Reading the claims out of a BrowserID assertion: a string of four or more
    components separated by '.', in the compact serialisation of
    draft-jones-json-web-token-04. Component 1 is the identity certificate,
    whose `principal.email` names the user; component 3 is the assertion
    proper, whose `aud` is the origin and whose `exp` is the expiry time in
    milliseconds since the epoch. */
module AssertionParser {
  import opened Wrappers
  import opened Foreign
  import opened JavaStrings

  /** The claims of an assertion. `email` and `origin` are whatever JSON value the
      payload holds there (JNull when absent), since parsing does not cast them;
      `expiration` is in milliseconds since the epoch. */
  datatype Claims = Claims(email: Json, origin: Json, expiration: int)

  /** `Map.get`: an absent key reads as null. */
  function Get(fields: map<string, Json>, key: string): (v: Json)
    ensures Holds(fields, key, v)
  {
    if key in fields then fields[key] else JNull
  }

  /** The value under `key`, JNull when there is none: the reference reading of a
      claim, stated without `Get`. */
  ghost predicate Holds(fields: map<string, Json>, key: string, v: Json)
  {
    (key in fields && fields[key] == v) || (key !in fields && v == JNull)
  }

  /** `c` is what the decoded payloads of components 1 and 3 say: component 1 is an
      object whose `principal` is an object with `email`; component 3 is an object
      with `aud` and an `exp` the mapper boxed as a Long. */
  ghost predicate Encodes(payload1: Option<Json>, payload3: Option<Json>, c: Claims)
  {
    && payload1.Some? && payload1.value.JObject?
    && "principal" in payload1.value.fields
    && payload1.value.fields["principal"].JObject?
    && Holds(payload1.value.fields["principal"].fields, "email", c.email)
    && payload3.Some? && payload3.value.JObject?
    && Holds(payload3.value.fields, "aud", c.origin)
    && "exp" in payload3.value.fields
    && payload3.value.fields["exp"].JLong?
    && c.expiration == payload3.value.fields["exp"].l as int
  }

  /** parseAssertion. Fails with MalformedAssertion, carrying the count, exactly when
      the split has fewer than four components; otherwise succeeds exactly when the
      decoded components 1 and 3 encode some claims, and then returns those. Every
      other failure (undecodable component, JSON that is not an object, a missing or
      mistyped `principal` or `exp`) is InvalidAssertionEncoding. */
  function ParseAssertion(lib: Platform, assertion: string): (r: Result<Claims, Error>)
    ensures var components := Split(assertion, '.');
      |components| < 4 <==> r == Failure(MalformedAssertion(|components|))
    ensures var components := Split(assertion, '.');
      r.Success? ==>
        |components| >= 4 &&
        Encodes(lib.decodeSegment(components[1]), lib.decodeSegment(components[3]), r.value)
    ensures var components := Split(assertion, '.');
      forall c :: (|components| >= 4 &&
        Encodes(lib.decodeSegment(components[1]), lib.decodeSegment(components[3]), c)) ==>
        r == Success(c)
    ensures var components := Split(assertion, '.');
      |components| >= 4 && r.Failure? ==> r.error == InvalidAssertionEncoding
  {
    var components := Split(assertion, '.');
    if |components| < 4 then Failure(MalformedAssertion(|components|))
    else
      match (lib.decodeSegment(components[1]), lib.decodeSegment(components[3]))
      case (Some(JObject(component1)), Some(JObject(component3))) =>
        var principal := Get(component1, "principal");
        var exp := Get(component3, "exp");
        if principal.JObject? && exp.JLong? then
          Success(Claims(Get(principal.fields, "email"), Get(component3, "aud"), exp.l as int))
        else
          Failure(InvalidAssertionEncoding)
      case _ => Failure(InvalidAssertionEncoding)
  }

  /** The claims depend on components 1 and 3 alone: two assertions that agree
      there parse alike, whatever components 0 and 2 and any further ones hold. */
  lemma ParseDependsOnComponentsOneAndThree(lib: Platform, a: string, b: string)
    requires |Split(a, '.')| >= 4 && |Split(b, '.')| >= 4
    requires Split(a, '.')[1] == Split(b, '.')[1] && Split(a, '.')[3] == Split(b, '.')[3]
    ensures ParseAssertion(lib, a) == ParseAssertion(lib, b)
  {
  }

  /** An assertion assembled from four components without '.', the last one not
      empty, splits back into them; so it parses to what its components 1 and 3
      encode and fails only on their encoding. */
  lemma ParseOfFourComponents(lib: Platform, header: string, certificate: string,
                              signature: string, payload: string, c: Claims)
    requires '.' !in header && '.' !in certificate && '.' !in signature && '.' !in payload
    requires payload != ""
    ensures ParseAssertion(lib, Join([header, certificate, signature, payload], '.')).Success?
        ==> Encodes(lib.decodeSegment(certificate), lib.decodeSegment(payload),
                    ParseAssertion(lib, Join([header, certificate, signature, payload], '.')).value)
    ensures Encodes(lib.decodeSegment(certificate), lib.decodeSegment(payload), c) ==>
        ParseAssertion(lib, Join([header, certificate, signature, payload], '.')) == Success(c)
    ensures ParseAssertion(lib, Join([header, certificate, signature, payload], '.')).Failure? ==>
        ParseAssertion(lib, Join([header, certificate, signature, payload], '.')).error
          == InvalidAssertionEncoding
  {
    var parts := [header, certificate, signature, payload];
    SplitOfJoin(parts, '.');
  }

  /** Trailing empty components are dropped before counting: "a.b.c." has three
      components, "..." none and the empty string one, so each of them fails. */
  lemma ShortAssertionsAreMalformed(lib: Platform)
    ensures ParseAssertion(lib, "a.b.c.") == Failure(MalformedAssertion(3))
    ensures ParseAssertion(lib, "...") == Failure(MalformedAssertion(0))
    ensures ParseAssertion(lib, "") == Failure(MalformedAssertion(1))
  {
    SplitDropsTrailingExample("a.b.c.");
    SplitSeparatorsOnlyExample();
    SplitEmptyExample();
  }
}
