/** The server's CORS origin check (server/server.js): the `origin` callback handed to the cors
    middleware, deciding from the request's Origin header against a fixed allow-list. */
module Server {
  import opened Wrappers
  import opened JsArrays

  /** The origins the server accepts, compared as exact strings. */
  const AllowedOrigins: seq<string> := [
    "http://localhost:5173",
    "https://jxcorp.github.io",
    "http://localhost:5173/bio-knowledge-engine",
    "https://jxcorp.github.io/bio-knowledge-engine/"
  ]

  const CorsMessage := "The CORS policy for this site does not allow access from the specified Origin."

  /** The arguments the callback is called with: an error (its message) and the allow flag. */
  datatype CorsDecision = CorsDecision(error: Option<string>, allow: bool)

  /** The `origin` callback. A missing or empty Origin is allowed; otherwise the origin must be
      found in the list by `indexOf`. */
  function OriginCallback(origin: Option<string>): (d: CorsDecision)
    ensures d.allow <==> d.error.None?
    ensures d.error.Some? ==> d.error.value == CorsMessage
  {
    if origin.None? || origin.value == "" then CorsDecision(None, true)
    else if IndexOfElement(AllowedOrigins, origin.value).None? then CorsDecision(Some(CorsMessage), false)
    else CorsDecision(None, true)
  }

  /** A request with an Origin is allowed exactly when that origin is one of the listed strings. */
  lemma AllowedIffListed(origin: string)
    requires origin != ""
    ensures OriginCallback(Some(origin)).allow <==> origin in AllowedOrigins
    ensures !OriginCallback(Some(origin)).allow ==> OriginCallback(Some(origin)) == CorsDecision(Some(CorsMessage), false)
  {
  }

  /** Requests without an Origin header (curl, mobile apps) are allowed. */
  lemma NoOriginAllowed()
    ensures OriginCallback(None) == CorsDecision(None, true)
  {
  }

  /** There is no normalisation: the GitHub Pages origin with a trailing slash, and the local
      origin with one, are refused although their slash-free forms are listed. */
  lemma NoTrailingSlashNormalisation()
    ensures !OriginCallback(Some("https://jxcorp.github.io/")).allow
    ensures !OriginCallback(Some("http://localhost:5173/")).allow
    ensures OriginCallback(Some("https://jxcorp.github.io")).allow
  {
    assert "https://jxcorp.github.io/" !in AllowedOrigins by {
      assert "https://jxcorp.github.io/" != AllowedOrigins[1];
      assert |"https://jxcorp.github.io/"| != |AllowedOrigins[0]|;
      assert |"https://jxcorp.github.io/"| != |AllowedOrigins[2]|;
      assert |"https://jxcorp.github.io/"| != |AllowedOrigins[3]|;
    }
    assert "http://localhost:5173/" !in AllowedOrigins by {
      assert "http://localhost:5173/" != AllowedOrigins[0];
      assert |"http://localhost:5173/"| != |AllowedOrigins[1]|;
      assert |"http://localhost:5173/"| != |AllowedOrigins[2]|;
      assert |"http://localhost:5173/"| != |AllowedOrigins[3]|;
    }
    assert AllowedOrigins[1] == "https://jxcorp.github.io";
  }
}
