# Persona authorizer, modelled in Dafny

A model of `PersonaAuthorizer`, the Couchbase Lite component that lets a
replicator log in to a Sync Gateway with a Mozilla Persona (BrowserID)
assertion. It has four parts:

- **Assertion parser** (`AssertionParser`). It splits the assertion on `.` with
  Java's `String.split` semantics (`JavaStrings.Split`). It rejects fewer than four
  components. It reads `principal.email` from component 1, and `aud` and `exp`
  from component 3.
- **Expiration policy** (`PersonaAuthorizer.IsAssertionExpired`). An assertion
  is expired when its `exp` lies strictly before the current time, unless the
  skip flag is set.
- **Assertion registry** (`AssertionRegistry.Registry`). A table from
  `[email, origin]` to the raw assertion string. The last write wins. The table
  is allocated on the first registration. Origins are lowercased at
  registration and at lookup.
- **Site login adapter** (`PersonaAuthorizer.AssertionForSite`,
  `LoginParametersForSite`, `LoginPathForSite`, `UsesCookieBasedLogin`). It
  composes lookup, re-parse and the expiry check into the one-entry login
  parameter map `{"assertion": a}`, or into nothing.

The libraries the component calls are not modelled. They are passed in as a
`Foreign.Platform` value holding two functions:

- `decodeSegment`: Base64 decoding, conversion to a String and Jackson JSON
  parsing of one component. It returns `None` when any of these throws.
- `newUrl`: the `java.net.URL` constructor. It returns `None` on
  `MalformedURLException`.

A constructed URL is represented by its `toExternalForm()` string. The wall
clock is the parameter `now`, in milliseconds since the epoch.

The Java registry is a static field. Here it is a `Registry` object that every
authorizer holds. Its field `assertions` is `None` while the Java field is still
null. A lookup in that state is the error `NoRegistry`; in Java it is a
`NullPointerException` at line 195 of the source. Every exception the Java code
throws becomes a `Failure` with one of four `Wrappers.Error` values.

Three behaviours of the code that the model keeps:

- The three-argument `registerAssertion` stores the origin exactly as given. It
  does not normalize it. `UnnormalizedKeyUnreachable` shows that such a key is
  never found by a lookup.
- Parsing is a function of the string alone, so a stored assertion either always
  parses or never does. Only the three-argument registration can store one that
  does not parse. For such an entry `assertionForSite` throws; here that is an
  error result, not "nothing".
- `parseAssertion` does not check the type of `aud` or `principal.email`. The
  casts to String happen in `registerAssertion`. So `Claims` keeps them as JSON
  values.

The constants of the class are `PersonaAuth.LoginParameterAssertion` (`"assertion"`,
line 23 of the source), the key `LoginParametersForSite` puts the assertion under,
and `PersonaAuth.QueryParameter` (`"personaAssertion"`, line 29), the name of the URL
query parameter an assertion may arrive in. That parameter is read by code outside
this model, so nothing here uses it.

## Model

| member | source | states |
|---|---|---|
| JavaStrings.Pieces | src/main/java/com/couchbase/lite/auth/PersonaAuthorizer.java:158 | splitting on the separator gives one more piece than there are separators, and no piece contains the separator |
| JavaStrings.DropTrailingEmpty | src/main/java/com/couchbase/lite/auth/PersonaAuthorizer.java:158 | the result is a prefix of the pieces, its last element is non-empty, and every dropped piece is empty |
| JavaStrings.Split | src/main/java/com/couchbase/lite/auth/PersonaAuthorizer.java:158 | `split` on '.': without a separator the string is its one component; otherwise the pieces minus only the trailing empty ones; components contain no separator and number at most one more than the separators |
| JavaStrings.JoinPieces | src/main/java/com/couchbase/lite/auth/PersonaAuthorizer.java:158 | joining the pieces with the separator gives the original string back |
| JavaStrings.PiecesCons | src/main/java/com/couchbase/lite/auth/PersonaAuthorizer.java:158 | a separator-free prefix followed by a separator comes off as exactly one piece |
| JavaStrings.PiecesNoSep | src/main/java/com/couchbase/lite/auth/PersonaAuthorizer.java:158 | a string without a separator is a single piece |
| JavaStrings.PiecesOfJoin | src/main/java/com/couchbase/lite/auth/PersonaAuthorizer.java:158 | splitting a join of separator-free pieces returns those pieces |
| JavaStrings.SplitOfJoin | src/main/java/com/couchbase/lite/auth/PersonaAuthorizer.java:158 | `split` of a join of separator-free components with a non-empty last one returns exactly those components |
| JavaStrings.SplitOfJoinTrailingEmpty | src/main/java/com/couchbase/lite/auth/PersonaAuthorizer.java:158 | `split` of a join of separator-free components ending in one empty component returns all of them but that last one |
| JavaStrings.SplitDropsTrailingExample | src/main/java/com/couchbase/lite/auth/PersonaAuthorizer.java:158 | `"a.b.c."` splits into `["a","b","c"]`: trailing empties are dropped |
| JavaStrings.SplitKeepsLeadingExample | src/main/java/com/couchbase/lite/auth/PersonaAuthorizer.java:158 | `".a..b"` splits into `["","a","","b"]`: leading and inner empties are kept |
| JavaStrings.SplitSeparatorsOnlyExample | src/main/java/com/couchbase/lite/auth/PersonaAuthorizer.java:158 | `"..."` splits into no components at all |
| JavaStrings.SplitEmptyExample | src/main/java/com/couchbase/lite/auth/PersonaAuthorizer.java:158 | the empty string splits into one empty component |
| JavaStrings.ToLower | src/main/java/com/couchbase/lite/auth/PersonaAuthorizer.java:193 | lowercasing keeps the length, maps each character to its ASCII lower-case form, and leaves no upper-case ASCII letter |
| JavaStrings.ToLowerEqualIff | src/main/java/com/couchbase/lite/auth/PersonaAuthorizer.java:193 | two strings lowercase alike exactly when they differ at most in the case of ASCII letters |
| JavaStrings.ToLowerIdempotent | src/main/java/com/couchbase/lite/auth/PersonaAuthorizer.java:120 | lowercasing a lowercased string changes nothing |
| AssertionParser.Get | src/main/java/com/couchbase/lite/auth/PersonaAuthorizer.java:170-177 | `Map.get` yields the value stored under the key, and null when the key is absent |
| AssertionParser.ParseAssertion | src/main/java/com/couchbase/lite/auth/PersonaAuthorizer.java:151-188 | fails with MalformedAssertion(n) exactly when the split has n < 4 components; otherwise succeeds exactly when decoded components 1 and 3 encode claims (`principal.email`, `aud`, a Long `exp`) and returns those claims; every other failure is InvalidAssertionEncoding |
| AssertionParser.ParseDependsOnComponentsOneAndThree | src/main/java/com/couchbase/lite/auth/PersonaAuthorizer.java:163-178 | two assertions that agree on components 1 and 3 parse alike; components 0, 2 and beyond 3 are ignored |
| AssertionParser.ParseOfFourComponents | src/main/java/com/couchbase/lite/auth/PersonaAuthorizer.java:158-178 | a four-component assertion with a non-empty last component parses to exactly what its components 1 and 3 encode, and fails only on their encoding |
| AssertionParser.ShortAssertionsAreMalformed | src/main/java/com/couchbase/lite/auth/PersonaAuthorizer.java:158-160 | `"a.b.c."` (3 components), `"..."` (0) and `""` (1) are all rejected as malformed, with their counts |
| AssertionRegistry.NormalizeOrigin | src/main/java/com/couchbase/lite/auth/PersonaAuthorizer.java:120 | a normalized origin is already lowercase |
| AssertionRegistry.RegistrationKey | src/main/java/com/couchbase/lite/auth/PersonaAuthorizer.java:107-127 | parse failures propagate; the key is derived exactly when the email and origin claims are strings and the origin is a URL; a null or unparseable origin is InvalidOriginUrl; a non-string email, or an origin that is neither a string nor null, is InvalidAssertionEncoding; the key is (email, lowercased external form), and its origin is lowercase |
| AssertionRegistry.Find | src/main/java/com/couchbase/lite/auth/PersonaAuthorizer.java:191-195 | finds an entry exactly when [email, lowercased external form of the site] is a key, and returns its value |
| AssertionRegistry.Registry.constructor | src/main/java/com/couchbase/lite/auth/PersonaAuthorizer.java:25 | the table starts unallocated |
| AssertionRegistry.Registry.RegisterWithKey | src/main/java/com/couchbase/lite/auth/PersonaAuthorizer.java:135-149 | returns the email; the table (allocated if needed) maps [email, origin] to the assertion, overwriting; every other key is unchanged |
| AssertionRegistry.Registry.Register | src/main/java/com/couchbase/lite/auth/PersonaAuthorizer.java:107-129 | on failure returns the error and stores nothing; on success returns the email, stores under the derived key, and a lookup at any site normalizing to that origin then finds the assertion |
| AssertionRegistry.Registry.Lookup | src/main/java/com/couchbase/lite/auth/PersonaAuthorizer.java:190-196 | fails exactly when the table is unallocated; otherwise finds an entry exactly when [email, lowercased site] is a key, and returns its value |
| AssertionRegistry.LookupIgnoresCase | src/main/java/com/couchbase/lite/auth/PersonaAuthorizer.java:193 | sites whose external forms differ only in the case of ASCII letters reach the same entry |
| AssertionRegistry.ReregisterOverwrites | src/main/java/com/couchbase/lite/auth/PersonaAuthorizer.java:145 | registering two assertions in turn under one key leaves a table in which the lookup finds only the second |
| AssertionRegistry.UnnormalizedKeyUnreachable | src/main/java/com/couchbase/lite/auth/PersonaAuthorizer.java:135-145 | an entry stored under an origin that is not lowercase never changes what any lookup returns |
| AssertionRegistry.OriginCaseExample | src/main/java/com/couchbase/lite/auth/PersonaAuthorizer.java:120 | `HTTP://Example.com` and `http://example.com` normalize to the same origin, `http://example.com` |
| PersonaAuth.PersonaAuthorizer.constructor | src/main/java/com/couchbase/lite/auth/PersonaAuthorizer.java:37-39 | records the email and the registry; the expiry check starts enabled |
| PersonaAuth.PersonaAuthorizer.SetSkipAssertionExpirationCheck | src/main/java/com/couchbase/lite/auth/PersonaAuthorizer.java:41-43 | sets the skip flag |
| PersonaAuth.PersonaAuthorizer.IsAssertionExpired | src/main/java/com/couchbase/lite/auth/PersonaAuthorizer.java:53-69 | never expired while skipped; otherwise expired exactly when exp < now |
| PersonaAuth.PersonaAuthorizer.AssertionForSite | src/main/java/com/couchbase/lite/auth/PersonaAuthorizer.java:71-84 | nothing for a missing entry or an expired one; a parse error of the stored entry or a missing table propagates; otherwise the stored string unchanged |
| PersonaAuth.PersonaAuthorizer.LoginParametersForSite | src/main/java/com/couchbase/lite/auth/PersonaAuthorizer.java:90-101 | nothing exactly when assertionForSite gives nothing; otherwise a map whose only key is "assertion", bound to that assertion; errors propagate |
| PersonaAuth.PersonaAuthorizer.LoginPathForSite | src/main/java/com/couchbase/lite/auth/PersonaAuthorizer.java:103-105 | the login path is "/_persona" for every site |
| PersonaAuth.PersonaAuthorizer.UsesCookieBasedLogin | src/main/java/com/couchbase/lite/auth/PersonaAuthorizer.java:86-88 | login is cookie based |
| PersonaAuth.ExpiredStaysExpired | src/main/java/com/couchbase/lite/auth/PersonaAuthorizer.java:62 | once expired, an assertion stays expired at every later time |
| PersonaAuth.ExpiryBoundary | src/main/java/com/couchbase/lite/auth/PersonaAuthorizer.java:55-67 | with the check on, one millisecond past exp yields nothing; at exp and one millisecond before, the assertion is handed out |
| PersonaAuth.SkipIgnoresExpiry | src/main/java/com/couchbase/lite/auth/PersonaAuthorizer.java:55-57 | with the check skipped, a stored parseable assertion is handed out at any time |
| PersonaAuth.RegisteredAssertionIsHandedOut | src/main/java/com/couchbase/lite/auth/PersonaAuthorizer.java:71-84 | an assertion stored under its own registration key is handed out at any case variant of its origin until it expires; a site with no entry gets nothing |

## Left out

- Base64 decoding, byte-to-String conversion and Jackson parsing (lines 163-176). These are foreign library calls, modelled only as the `decodeSegment` parameter. Which boxed type Jackson gives a JSON integer is the parameter's choice. By default Jackson boxes 32-bit values as Integer, and the `(Long)` cast at line 176 then rejects them.
- `java.net.URL` construction and `toExternalForm` (lines 116, 120, 193). These are foreign; the `newUrl` parameter and `Url.externalForm` stand for them.
- JavaStrings.ToLower: lowercases only ASCII letters. `String.toLowerCase()` also maps other Unicode letters and depends on the default locale, which the model does not represent.
- AssertionRegistry.RegistrationKey: treats a null email (no `email` inside `principal`) as InvalidAssertionEncoding. Java would store such an assertion under the key [null, origin].
- ClassCastException and NullPointerException (lines 111-112, 170-177) are folded into the one error InvalidAssertionEncoding.
- The null check at lines 117-119 is left out. It can never fire, because the URL constructor has already thrown for a null origin; the model reports that case as InvalidOriginUrl.
- `synchronized` on the registration methods. The registry is modelled sequentially; concurrency is not represented.
- Logging (lines 63, 74, 123, 144, 183, 194). It is output only and does not affect behaviour.
- The wall clock (`new Date()`, line 61). It is the parameter `now` instead.
- The getters `isSkipAssertionExpirationCheck` and `getEmailAddress` (lines 45-51) are plain field reads in Dafny.
- The `Authorizer` superclass and the HTTP exchange that posts the parameters are not part of this model.
- The constants for the keys of the Java result map (lines 26-28) are not declared: that map is the datatype `Claims`, whose fields play their part.
