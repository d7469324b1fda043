/**
 * The client's token storage, PisciApp/src/app/core/services/auth.service.ts.
 *
 * The access token lives under the key "accessToken" in either
 * localStorage (remembered) or sessionStorage; each storage is an optional
 * string, `None` standing for `getItem`'s null. The current user is derived
 * from whichever token `getToken` returns, decoded without verification by
 * `jwtDecode`, here a function parameter that gives `None` where it throws.
 * HTTP requests are replaced by their outcome: `None` for a failed request
 * (the error path writes nothing), or the response body.
 */
module AuthClient {
  import opened Wrappers

  /** The decoded payload; every field may be missing. */
  datatype Payload = Payload(
    id: Option<int>, nombre: Option<string>, correo: Option<string>, telefono: Option<string>,
    rol: Option<string>, exp: Option<int>, twofaEnabled: Option<bool>, notiEmail: Option<bool>,
    notiAlertas: Option<bool>, tema: Option<string>, idioma: Option<string>)

  /** The `User` built by `loadUserFromToken`. */
  datatype User = User(
    id: Option<int>, nombre: Option<string>, correo: Option<string>, telefono: Option<string>,
    rol: Option<string>, twofaEnabled: bool, notiEmail: bool, notiAlertas: bool,
    tema: Option<string>, idioma: Option<string>)

  /** A response body carrying an optional token; `requires2FA` is JavaScript truthiness of that field. */
  datatype TokenResponse = TokenResponse(requires2FA: bool, accessToken: Option<string>)

  predicate Truthy(s: Option<string>) { s.Some? && s.value != "" }

  /** `localStorage.getItem(k) || sessionStorage.getItem(k)`. */
  function TokenOf(local: Option<string>, session: Option<string>): (t: Option<string>)
    ensures Truthy(local) ==> t == local
    ensures !Truthy(local) ==> t == session
  {
    if Truthy(local) then local else session
  }

  /** The user with `loadUserFromToken`'s defaults: flags false, phone, theme and language null. */
  function UserOf(p: Payload): (u: User)
    ensures u.twofaEnabled == (p.twofaEnabled == Some(true))
    ensures u.notiEmail == (p.notiEmail == Some(true))
    ensures u.notiAlertas == (p.notiAlertas == Some(true))
    ensures u.id == p.id && u.correo == p.correo && u.rol == p.rol && u.telefono == p.telefono
  {
    User(p.id, p.nombre, p.correo, p.telefono, p.rol,
         p.twofaEnabled.GetOr(false), p.notiEmail.GetOr(false), p.notiAlertas.GetOr(false),
         p.tema, p.idioma)
  }

  /** `loadUserFromToken`'s result: no user without a token or when decoding fails. */
  function LoadedUser(token: Option<string>, jwtDecode: string -> Option<Payload>): (u: Option<User>)
    ensures u.Some? <==> Truthy(token) && jwtDecode(token.value).Some?
    ensures u.Some? ==> u.value == UserOf(jwtDecode(token.value).value)
  {
    if !Truthy(token) then None
    else
      var decoded := jwtDecode(token.value);
      if decoded.None? then None else Some(UserOf(decoded.value))
  }

  class AuthService {
    var local: Option<string>
    var session: Option<string>
    var currentUser: Option<User>
    const jwtDecode: string -> Option<Payload>

    /** The current user always reflects the token `getToken` returns. */
    ghost predicate Valid()
      reads this
    {
      currentUser == LoadedUser(TokenOf(local, session), jwtDecode)
    }

    /** The service starts from whatever the two storages hold and loads the user from it. */
    constructor (local: Option<string>, session: Option<string>, jwtDecode: string -> Option<Payload>)
      ensures this.local == local && this.session == session && this.jwtDecode == jwtDecode
      ensures Valid()
    {
      this.local := local;
      this.session := session;
      this.jwtDecode := jwtDecode;
      currentUser := LoadedUser(TokenOf(local, session), jwtDecode);
    }

    /** `getToken`: localStorage first. */
    function GetToken(): (t: Option<string>)
      reads this
      ensures Truthy(local) ==> t == local
      ensures !Truthy(local) ==> t == session
    {
      TokenOf(local, session)
    }

    /** `isLoggedIn`: some storage holds a non-empty token. */
    function IsLoggedIn(): (b: bool)
      reads this
      ensures b <==> Truthy(GetToken())
      ensures b <==> Truthy(local) || Truthy(session)
    {
      Truthy(local) || Truthy(session)
    }

    /** `loadUserFromToken`. */
    method LoadUserFromToken()
      modifies this
      ensures local == old(local) && session == old(session)
      ensures currentUser == LoadedUser(TokenOf(local, session), jwtDecode)
      ensures Valid()
    {
      var token := GetToken();
      if !Truthy(token) {
        currentUser := None;
        return;
      }
      var decoded := jwtDecode(token.value);
      if decoded.None? {
        currentUser := None;
        return;
      }
      currentUser := Some(UserOf(decoded.value));
    }

    /**
     * `login`: a token is stored only when the response asks for no second
     * factor and carries one; `rememberMe` picks localStorage, otherwise sessionStorage.
     */
    method Login(response: Option<TokenResponse>, rememberMe: bool)
      requires Valid()
      modifies this
      ensures Valid()
      ensures response.None? || response.value.requires2FA || !Truthy(response.value.accessToken) ==>
        local == old(local) && session == old(session) && currentUser == old(currentUser)
      ensures response.Some? && !response.value.requires2FA && Truthy(response.value.accessToken) ==>
        if rememberMe then local == response.value.accessToken && session == old(session)
        else session == response.value.accessToken && local == old(local)
    {
      if response.None? {
        return;
      }
      if !response.value.requires2FA && Truthy(response.value.accessToken) {
        if rememberMe {
          local := response.value.accessToken;
        } else {
          session := response.value.accessToken;
        }
        LoadUserFromToken();
      }
    }

    /** `register` and `loginWithGoogle`: a returned token always goes to localStorage. */
    method StoreReturnedToken(response: Option<TokenResponse>)
      requires Valid()
      modifies this
      ensures Valid() && session == old(session)
      ensures response.Some? && Truthy(response.value.accessToken) ==> local == response.value.accessToken
      ensures response.None? || !Truthy(response.value.accessToken) ==> local == old(local) && currentUser == old(currentUser)
    {
      if response.Some? && Truthy(response.value.accessToken) {
        local := response.value.accessToken;
        LoadUserFromToken();
      }
    }

    /**
     * `refreshAccessToken`: the new token replaces the one in sessionStorage when
     * that storage holds one, else it goes to localStorage; the token is returned.
     */
    method RefreshAccessToken(response: Option<string>) returns (token: Option<string>)
      requires Valid()
      modifies this
      ensures Valid() && token == response
      ensures response.None? ==> local == old(local) && session == old(session) && currentUser == old(currentUser)
      ensures response.Some? && Truthy(old(session)) ==> session == response && local == old(local)
      ensures response.Some? && !Truthy(old(session)) ==> local == response && session == old(session)
    {
      if response.None? {
        return None;
      }
      if Truthy(session) {
        session := response;
      } else {
        local := response;
      }
      LoadUserFromToken();
      token := response;
    }

    /** `logout`: both storages are cleared and the user dropped before the request is sent. */
    method Logout()
      modifies this
      ensures local == None && session == None && currentUser == None
      ensures Valid() && !IsLoggedIn()
    {
      local := None;
      session := None;
      currentUser := None;
    }
  }

  /**
   * A login without "remember me" while localStorage still holds an older token:
   * the new token goes to sessionStorage but `getToken` keeps returning the old one.
   */
  lemma SessionLoginShadowedByRememberedToken(local: Option<string>, session: Option<string>, newer: string)
    requires Truthy(local) && newer != ""
    ensures TokenOf(local, Some(newer)) == local
  {
  }

  /** A remembered login makes its token the one `getToken` returns, and its user the current one. */
  lemma RememberedLoginIsCurrent(session: Option<string>, token: string, jwtDecode: string -> Option<Payload>)
    requires token != "" && jwtDecode(token).Some?
    ensures TokenOf(Some(token), session) == Some(token)
    ensures LoadedUser(TokenOf(Some(token), session), jwtDecode) == Some(UserOf(jwtDecode(token).value))
  {
  }

  /** A payload without the optional fields yields a user with every flag false and no phone, theme or language. */
  lemma MissingFieldsDefault(id: int, correo: string, rol: string)
    ensures var u := UserOf(Payload(Some(id), None, Some(correo), None, Some(rol), None, None, None, None, None, None));
      !u.twofaEnabled && !u.notiEmail && !u.notiAlertas && u.telefono.None? && u.tema.None? && u.idioma.None?
  {
  }
}
