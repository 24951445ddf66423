/**
 * UnsecureConstantCredentialsExtractor: a credentials extractor for
 * development set-ups that does not look at the request at all. It is
 * configured once with either a bare WebID string or full credentials and
 * answers every request with that same identity claim.
 */
module Credentials {
  import opened Wrappers

  /** An identity claim for one request; every part is optional. */
  datatype Credentials = Credentials(webId: Option<string>, clientId: Option<string>, issuer: Option<string>)

  /** What the extractor is configured with: a bare WebID string or full credentials. */
  datatype Agent = WebIdString(id: string) | Full(credentials: Credentials)

  /**
   * The part of an HTTP request an extractor could inspect. This extractor
   * reads none of it: `RequestIndependent` compares requests that differ in
   * any of these fields.
   */
  datatype HttpRequest = HttpRequest(httpMethod: string, url: string, headers: map<string, string>)

  /** The extractor; its one field is fixed when it is created and never changes. */
  datatype UnsecureConstantCredentialsExtractor = Extractor(agent: Credentials)
  {
    /**
     * `handle()`: the configured credentials, whatever the request. There is
     * no error path.
     */
    function Handle(request: HttpRequest): (c: Credentials)
      ensures c == agent
    {
      agent
    }
  }

  /** Credentials that name only a WebID. */
  function WebIdOnly(id: string): (c: Credentials)
    ensures c.webId == Some(id) && c.clientId == None && c.issuer == None
  {
    Credentials(Some(id), None, None)
  }

  /**
   * The constructor: a bare string becomes credentials holding just that
   * WebID; full credentials are kept as given.
   */
  function New(agent: Agent): (e: UnsecureConstantCredentialsExtractor)
    ensures agent.WebIdString? ==> e.agent == WebIdOnly(agent.id)
    ensures agent.Full? ==> e.agent == agent.credentials
  {
    match agent
    case WebIdString(id) => Extractor(WebIdOnly(id))
    case Full(c) => Extractor(c)
  }

  /** Configuring with the string `s` claims the WebID `s` and nothing else. */
  lemma StringClaimsWebId(s: string, request: HttpRequest)
    ensures New(WebIdString(s)).Handle(request).webId == Some(s)
    ensures New(WebIdString(s)).Handle(request).clientId == None
    ensures New(WebIdString(s)).Handle(request).issuer == None
  {
  }

  /** A bare string and credentials holding only that WebID configure the same extractor. */
  lemma StringSameAsWebIdOnly(s: string)
    ensures New(WebIdString(s)) == New(Full(WebIdOnly(s)))
  {
  }

  /** Full credentials come back unchanged. */
  lemma FullRoundTrip(c: Credentials, request: HttpRequest)
    ensures New(Full(c)).Handle(request) == c
  {
  }

  /** The answer does not depend on the request. */
  lemma RequestIndependent(e: UnsecureConstantCredentialsExtractor, r1: HttpRequest, r2: HttpRequest)
    ensures e.Handle(r1) == e.Handle(r2)
  {
  }
}
