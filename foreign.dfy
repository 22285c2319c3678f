/** The values handed over by the libraries the component calls but does not
    implement: a Base64 decoder, a JSON object mapper and java.net.URL. */
module Foreign {
  import opened Wrappers

  newtype int32 = x: int | -0x8000_0000 <= x < 0x8000_0000
  newtype int64 = x: int | -0x8000_0000_0000_0000 <= x < 0x8000_0000_0000_0000

  /** A JSON value as the object mapper hands it back: numbers keep the boxed
      Java type the mapper chose for them, so that a cast to `Long` can fail. */
  datatype Json =
    | JNull
    | JBool(b: bool)
    | JInteger(i: int32)
    | JLong(l: int64)
    | JBigInteger(n: int)
    | JDouble(d: real)
    | JString(s: string)
    | JArray(items: seq<Json>)
    | JObject(fields: map<string, Json>)

  /** A constructed java.net.URL, known by its canonical external form. */
  datatype Url = Url(externalForm: string)

  /** The library calls, as functions of their input:
      `decodeSegment` is Base64 decoding, conversion to a String and JSON parsing of
      one assertion component (None when any of the three throws);
      `newUrl` is the URL constructor (None when it throws MalformedURLException). */
  datatype Platform = Platform(decodeSegment: string -> Option<Json>, newUrl: string -> Option<Url>)
}
