/** The admin session on the client (src/context/AuthContext.jsx): the saved
    token is checked against the login endpoint at startup, login saves it,
    logout forgets it. The endpoint's answer to each request is a parameter. */
module AuthContext {
  import opened Common
  import AdminLogin

  const TokenKey: string := "admin_token"

  /** How a request to the login endpoint settles. */
  datatype Reply = Ok | NotOk | Threw

  /** The session's state and the local storage holding the token. */
  class Auth {
    var authenticated: bool
    var loading: bool
    var storage: map<string, string>

    /** A session is authenticated only while a token is saved. */
    ghost predicate Valid()
      reads this
    {
      authenticated ==> TokenKey in storage
    }

    constructor(stored: map<string, string>)
      ensures Valid() && !authenticated && loading && storage == stored
    {
      authenticated := false;
      loading := true;
      storage := stored;
    }

    /** The saved token, if there is a non-empty one. */
    function Saved(): Option<string>
      reads this
    {
      if TokenKey in storage && storage[TokenKey] != "" then Some(storage[TokenKey]) else None
    }

    /** The startup effect: with no saved token no request is made; with
        one, the session becomes authenticated exactly when the endpoint
        answers ok, and the token is removed when it does not or the request
        fails. Loading ends in every case. */
    method Startup(reply: Reply) returns (requested: bool)
      requires Valid() && !authenticated
      modifies this
      ensures Valid() && !loading
      ensures requested <==> old(Saved()).Some?
      ensures authenticated <==> requested && reply == Ok
      ensures storage == if requested && reply != Ok then old(storage) - {TokenKey} else old(storage)
    {
      requested := Saved().Some?;
      if !requested {
        loading := false;
        return;
      }
      if reply == Ok {
        authenticated := true;
      } else {
        storage := storage - {TokenKey};
      }
      loading := false;
    }

    /** login: on an ok answer the password is saved as the token and the
        session authenticated; otherwise nothing changes. A request that
        fails rejects the returned promise (None). */
    method Login(password: string, reply: Reply) returns (result: Option<bool>)
      requires Valid()
      modifies this
      ensures Valid()
      ensures result == (if reply == Threw then None else Some(reply == Ok))
      ensures reply == Ok ==> authenticated && storage == old(storage)[TokenKey := password]
      ensures reply != Ok ==> authenticated == old(authenticated) && storage == old(storage)
      ensures loading == old(loading)
    {
      if reply == Threw {
        return None;
      }
      if reply == Ok {
        storage := storage[TokenKey := password];
        authenticated := true;
        return Some(true);
      }
      return Some(false);
    }

    /** logout */
    method Logout()
      requires Valid()
      modifies this
      ensures Valid() && !authenticated && storage == old(storage) - {TokenKey}
      ensures loading == old(loading)
    {
      storage := storage - {TokenKey};
      authenticated := false;
    }

    /** getToken: the stored token, as localStorage.getItem gives it. */
    method GetToken() returns (token: Option<string>)
      ensures token.Some? <==> TokenKey in storage
      ensures token.Some? ==> token.value == storage[TokenKey]
    {
      token := if TokenKey in storage then Some(storage[TokenKey]) else None;
    }
  }

  /** The endpoint's reply to a login with `password`, when it parses the
      posted body back to that password. */
  function ReplyOf(body: string, parse: AdminLogin.Parser, adminPassword: Option<string>): Reply
  {
    if AdminLogin.LoginStatus("POST", body, parse, adminPassword) == AdminLogin.Success then Ok else NotOk
  }

  /** Logging in against the endpoint authenticates exactly when the
      password is the configured, non-empty ADMIN_PASSWORD, and a session
      that was not authenticated stays so otherwise. */
  method LoginAgainstEndpoint(auth: Auth, password: string, body: string, parse: AdminLogin.Parser,
                              adminPassword: Option<string>) returns (result: Option<bool>)
    requires auth.Valid() && !auth.authenticated
    requires parse(body) == Some(AdminLogin.Value(Some(password)))
    modifies auth
    ensures auth.Valid()
    ensures result == Some(auth.authenticated)
    ensures auth.authenticated <==> AdminLogin.Configured(adminPassword) && password == adminPassword.value
  {
    result := auth.Login(password, ReplyOf(body, parse, adminPassword));
  }

  /** After logout the token is gone, so the next startup makes no request
      and leaves the session signed out. */
  method LogoutThenRestart(auth: Auth, reply: Reply) returns (restarted: Auth, requested: bool)
    requires auth.Valid()
    modifies auth
    ensures fresh(restarted) && !requested
    ensures !restarted.authenticated && !restarted.loading
  {
    auth.Logout();
    restarted := new Auth(auth.storage);
    requested := restarted.Startup(reply);
  }
}
