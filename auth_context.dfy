/**
 * frontend/src/contexts/AuthContext.tsx: the session state of the app. The
 * API calls of `authApi` are recorded in `sent` and their settled outcome is
 * an input; a rejected `login`, `register` or `logout` call is passed on to the
 * caller as `Rejected`.
 */
module AuthContext {
  import opened Records
  import opened ApiClient

  datatype AuthCall = GetUserCall | LoginCall | RegisterCall | LogoutCall

  /** `!!token && !!user` */
  predicate Authenticated(token: Option<string>, user: Option<User>) {
    Truthy(token) && user.Some?
  }

  class AuthProvider {
    const storage: Storage
    var user: Option<User>
    var token: Option<string>
    var isLoading: bool
    /** The `authApi` calls made so far, oldest first. */
    var sent: seq<AuthCall>

    function IsAuthenticated(): (b: bool)
      reads this
      ensures b <==> token.Some? && token.value != "" && user.Some?
    {
      Authenticated(token, user)
    }

    /** The first render: the token comes from storage, no user yet, loading. */
    constructor (storage: Storage)
      ensures this.storage == storage
      ensures user.None? && token == storage.token && isLoading && sent == []
      ensures !IsAuthenticated()
    {
      this.storage := storage;
      user := None;
      token := storage.token;
      isLoading := true;
      sent := [];
    }

    /**
     * `initAuth`: with a truthy stored token, fetch the user; if that fails
     * forget the session. Loading ends in every case.
     */
    method InitAuth(getUser: Outcome<User>)
      modifies this, storage
      ensures !isLoading
      ensures !Truthy(old(storage.token)) ==>
        sent == old(sent) && user == old(user) && token == old(token)
        && storage.token == old(storage.token) && storage.user == old(storage.user)
      ensures Truthy(old(storage.token)) && getUser.Resolved? ==>
        sent == old(sent) + [GetUserCall] && user == Some(getUser.value) && token == old(token)
        && storage.token == old(storage.token) && storage.user == old(storage.user)
      ensures Truthy(old(storage.token)) && getUser.Rejected? ==>
        sent == old(sent) + [GetUserCall] && user == old(user) && token.None?
        && storage.token.None? && storage.user.None?
    {
      if storage.token.Some? && storage.token.value != "" {
        sent := sent + [GetUserCall];
        match getUser
        case Resolved(u) =>
          user := Some(u);
        case Rejected =>
          storage.Clear();
          token := None;
      }
      isLoading := false;
    }

    /** The tail of `login` and `register` once the API call resolved. */
    method StoreSession(response: AuthResponse)
      modifies this, storage
      ensures storage.token == Some(response.token) && storage.user == Some(response.user)
      ensures token == Some(response.token) && user == Some(response.user)
      ensures isLoading == old(isLoading) && sent == old(sent)
    {
      storage.token := Some(response.token);
      storage.user := Some(response.user);
      token := Some(response.token);
      user := Some(response.user);
    }

    /** `login`: a rejected call changes neither storage nor state. */
    method Login(response: Outcome<AuthResponse>) returns (r: Outcome<()>)
      modifies this, storage
      ensures sent == old(sent) + [LoginCall] && isLoading == old(isLoading)
      ensures r.Resolved? <==> response.Resolved?
      ensures response.Resolved? ==>
        storage.token == Some(response.value.token) && storage.user == Some(response.value.user)
        && token == Some(response.value.token) && user == Some(response.value.user)
      ensures response.Rejected? ==>
        storage.token == old(storage.token) && storage.user == old(storage.user)
        && token == old(token) && user == old(user)
    {
      sent := sent + [LoginCall];
      if response.Rejected? {
        return Rejected;
      }
      StoreSession(response.value);
      r := Resolved(());
    }

    /** `register`: as `login`, through the register endpoint. */
    method Register(response: Outcome<AuthResponse>) returns (r: Outcome<()>)
      modifies this, storage
      ensures sent == old(sent) + [RegisterCall] && isLoading == old(isLoading)
      ensures r.Resolved? <==> response.Resolved?
      ensures response.Resolved? ==>
        storage.token == Some(response.value.token) && storage.user == Some(response.value.user)
        && token == Some(response.value.token) && user == Some(response.value.user)
      ensures response.Rejected? ==>
        storage.token == old(storage.token) && storage.user == old(storage.user)
        && token == old(token) && user == old(user)
    {
      sent := sent + [RegisterCall];
      if response.Rejected? {
        return Rejected;
      }
      StoreSession(response.value);
      r := Resolved(());
    }

    /** `logout`: the session is forgotten whether or not the call succeeded; a failure is passed on. */
    method Logout(response: Outcome<()>) returns (r: Outcome<()>)
      modifies this, storage
      ensures r == response
      ensures sent == old(sent) + [LogoutCall] && isLoading == old(isLoading)
      ensures storage.token.None? && storage.user.None? && token.None? && user.None?
      ensures !IsAuthenticated()
    {
      sent := sent + [LogoutCall];
      storage.Clear();
      token := None;
      user := None;
      r := response;
    }
  }

  /** A successful login is authenticated exactly when the server sent a non-empty token. */
  lemma LoginAuthenticatesIffToken(response: AuthResponse)
    ensures Authenticated(Some(response.token), Some(response.user)) <==> response.token != ""
  {
  }

  /** `useAuth`: the provider's value, or a throw outside any provider. */
  function UseAuth<C>(context: Option<C>): (r: Outcome<C>)
    ensures r.Rejected? <==> context.None?
    ensures r.Resolved? ==> r.value == context.value
  {
    if context.Some? then Resolved(context.value) else Rejected
  }
}
