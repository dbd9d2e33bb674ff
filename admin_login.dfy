/** The admin login endpoint (api/admin/login.js): the request body is
    gathered chunk by chunk, parsed as JSON, and its `password` compared with
    the configured ADMIN_PASSWORD. */
module AdminLogin {
  import opened Common

  const MethodNotAllowed: int := 405
  const BadRequest: int := 400
  const NotConfigured: int := 500
  const Success: int := 200
  const Unauthorized: int := 401

  /** What JSON.parse gives: `null`, or a value whose `password` property
      is a string (Some) or anything else (None). */
  datatype Json = Null | Value(password: Option<string>)

  /** JSON.parse: None where it throws. */
  type Parser = string -> Option<Json>

  /** The `data` handler: `body += chunk` for each chunk, in order. */
  method ReadBody(chunks: seq<string>) returns (body: string)
    ensures body == Flatten(chunks)
  {
    body := "";
    for i := 0 to |chunks|
      invariant body == Flatten(chunks[..i])
    {
      body := body + chunks[i];
      assert chunks[..i + 1][..i] == chunks[..i];
    }
    TakeAll(chunks);
  }

  /** A password is configured when ADMIN_PASSWORD is set and not empty. */
  predicate Configured(adminPassword: Option<string>)
  {
    adminPassword.Some? && adminPassword.value != ""
  }

  /** The `end` handler and the method check: the status of the one
      response written. */
  method Login(httpMethod: string, chunks: seq<string>, parse: Parser, adminPassword: Option<string>)
    returns (written: seq<int>)
    ensures |written| == 1
    ensures written[0] == LoginStatus(httpMethod, Flatten(chunks), parse, adminPassword)
  {
    written := [];
    if httpMethod != "POST" {
      written := written + [MethodNotAllowed];
      return;
    }
    var body := ReadBody(chunks);
    var json := parse(body);
    if json.None? || json.value.Null? {
      written := written + [BadRequest];
      return;
    }
    if !Configured(adminPassword) {
      written := written + [NotConfigured];
      return;
    }
    if json.value.password == adminPassword {
      written := written + [Success];
      return;
    }
    written := written + [Unauthorized];
  }

  /** The status of a request: any method but POST gets 405; a body that
      does not parse (or parses to null) 400; an unset or empty
      ADMIN_PASSWORD 500, whatever the password; then 200 exactly when the
      password matches, else 401. */
  function LoginStatus(httpMethod: string, body: string, parse: Parser, adminPassword: Option<string>): (s: int)
    ensures s == MethodNotAllowed <==> httpMethod != "POST"
    ensures s == BadRequest <==> httpMethod == "POST" && !Parsed(body, parse)
    ensures s == NotConfigured <==> httpMethod == "POST" && Parsed(body, parse) && !Configured(adminPassword)
    ensures s == Success <==>
      (httpMethod == "POST" && Parsed(body, parse) && Configured(adminPassword) &&
       parse(body).value.password == Some(adminPassword.value))
    ensures s == Unauthorized <==>
      (httpMethod == "POST" && Parsed(body, parse) && Configured(adminPassword) &&
       parse(body).value.password != Some(adminPassword.value))
  {
    if httpMethod != "POST" then MethodNotAllowed
    else if !Parsed(body, parse) then BadRequest
    else if !Configured(adminPassword) then NotConfigured
    else if parse(body).value.password == adminPassword then Success
    else Unauthorized
  }

  /** The body parses to a value that can be destructured. */
  predicate Parsed(body: string, parse: Parser)
  {
    parse(body).Some? && parse(body).value.Value?
  }
}
