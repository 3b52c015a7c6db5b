/**
 * SessionsHelper: logging in and out over the per-request state of a
 * controller — the session hash, the cookie jar, the user table and the
 * memoised `@current_user`.
 */
module SessionsHelper {
  import opened Wrappers
  import opened Strings
  import opened Digests
  import opened Users

  /** The keys the helper uses in the session hash and in the cookie jar. */
  datatype Key = UserId | ForwardingUrl | RememberToken

  /** A stored value: a user id, or a URL or token. */
  datatype Value = Id(id: int) | Text(text: string)

  /** What an exception raised by the helper would be. */
  datatype RubyError = ArgumentError(given: nat, expected: nat) | NoMethodError(name: string)

  /** Ids under `UserId`, text under the other keys. */
  predicate WellTyped(m: map<Key, Value>) {
    && (UserId in m ==> m[UserId].Id?)
    && (ForwardingUrl in m ==> m[ForwardingUrl].Text?)
    && (RememberToken in m ==> m[RememberToken].Text?)
  }

  /** Where `redirect_back_or(default)` sends the browser: the saved URL if there is one, else `default`. */
  function ForwardTarget(session: map<Key, Value>, default: string): (target: string)
    requires WellTyped(session)
    ensures ForwardingUrl !in session ==> target == default
    ensures ForwardingUrl in session ==> Text(target) == session[ForwardingUrl]
  {
    if ForwardingUrl in session then session[ForwardingUrl].text else default
  }

  class RequestContext {
    /** The digest scheme of the process, chosen once at start-up. */
    const scheme: DigestScheme
    var users: map<int, User>
    var session: map<Key, Value>
    var cookies: map<Key, Value>
    /** `@current_user`. */
    var cache: User?

    ghost predicate Valid()
      reads this, users.Values
    {
      && Sound(scheme)
      && TableInvariant(users)
      && WellTyped(session)
      && WellTyped(cookies)
      && (cache != null ==> Persisted(cache))
    }

    /** `user` is the row stored under its id. */
    predicate Persisted(user: User)
      reads this
    {
      user.id in users && users[user.id] == user
    }

    /** A new request: the browser's session and cookies, and no current user resolved yet. */
    constructor (scheme: DigestScheme, users: map<int, User>, session: map<Key, Value>, cookies: map<Key, Value>)
      requires Sound(scheme) && TableInvariant(users) && WellTyped(session) && WellTyped(cookies)
      ensures Valid()
      ensures this.scheme == scheme && this.users == users
      ensures this.session == session && this.cookies == cookies && cache == null
    {
      this.scheme := scheme;
      this.users := users;
      this.session := session;
      this.cookies := cookies;
      this.cache := null;
    }

    /** `cookies[:remember_token]`; an absent cookie is nil, which bcrypt hashes as `nil.to_s`, the empty string. */
    function RememberTokenCookie(): (token: string)
      requires WellTyped(cookies)
      reads this
    {
      if RememberToken in cookies then cookies[RememberToken].text else ""
    }

    /**
     * The user `current_user` returns in this state. The session id wins and
     * is trusted without a digest check (the memoised user first); with no
     * session id, the signed cookie id counts only when its remember token
     * verifies against that user's remember digest.
     */
    function Resolve(): (r: User?)
      requires Valid()
      reads this, users.Values
      ensures r != null ==> Persisted(r)
      ensures UserId in session && cache != null ==> r == cache
      ensures UserId in session && cache == null ==> r == FindById(users, session[UserId].id)
      ensures UserId !in session && r != null ==>
        && UserId in cookies && cookies[UserId] == Id(r.id)
        && r.Authenticated(scheme, RememberTokenCookie())
      ensures UserId !in session && UserId !in cookies ==> r == null
    {
      if UserId in session then
        if cache != null then cache else FindById(users, session[UserId].id)
      else if UserId in cookies then
        var user := FindById(users, cookies[UserId].id);
        if user != null && user.Authenticated(scheme, RememberTokenCookie()) then user else null
      else
        null
    }

    /** Calling `authenticated?` on `user`; User defines it with exactly one parameter, the token. */
    function CallAuthenticated(user: User, args: seq<string>): (r: Result<bool, RubyError>)
      reads user
      ensures |args| != 1 ==> r == Failure(ArgumentError(|args|, 1))
      ensures r == Success(true) ==> user.rememberDigest.Some?
    {
      if |args| != 1 then Failure(ArgumentError(|args|, 1)) else Success(user.Authenticated(scheme, args[0]))
    }

    /**
     * `current_user` as the helper is written: the cookie branch calls
     * `authenticated?(:remember, token)`, two arguments against the one the
     * model defines. Outside that call it agrees with Resolve.
     */
    function ResolveAsWritten(): (r: Result<User?, RubyError>)
      requires Valid()
      reads this, users.Values
      ensures UserId in session || UserId !in cookies ==> r == Success(Resolve())
    {
      if UserId in session then
        Success(if cache != null then cache else FindById(users, session[UserId].id))
      else if UserId in cookies then
        var user := FindById(users, cookies[UserId].id);
        if user == null then Success(null)
        else
          match CallAuthenticated(user, ["remember", RememberTokenCookie()])
          case Failure(e) => Failure(e)
          case Success(ok) => Success(if ok then user else null)
      else
        Success(null)
    }

    /**
     * A returning visitor, with no session id but a signed cookie naming an
     * existing user, makes the as-written `current_user` raise, while the
     * one-argument check logs that user in whenever the token verifies.
     */
    lemma RememberedVisitRaisesAsWritten()
      requires Valid()
      requires UserId !in session && UserId in cookies && cookies[UserId].id in users
      ensures ResolveAsWritten() == Failure(ArgumentError(2, 1))
      ensures var user := users[cookies[UserId].id];
        user.Authenticated(scheme, RememberTokenCookie()) ==> Resolve() == user
    {
    }

    /** What `current_user` did to the session and the memo on its way to returning `u`. */
    twostate predicate ResolvedTo(u: User?)
      reads this
    {
      && cookies == old(cookies)
      && users == old(users)
      && (UserId in old(session) ==> session == old(session) && cache == u)
      && (UserId !in old(session) && u != null ==> session == old(session)[UserId := Id(u.id)] && cache == u)
      && (UserId !in old(session) && u == null ==> session == old(session) && cache == old(cache))
    }

    /** `log_in(user)`: remember the user's id in the session, and nothing else. */
    method LogIn(user: User)
      requires Valid()
      modifies this`session
      ensures Valid()
      ensures session == old(session)[UserId := Id(user.id)]
    {
      session := session[UserId := Id(user.id)];
    }

    /**
     * `remember(user)`: store the digest of the fresh `token` on the user and
     * put the user's id and the token itself into cookies, so that the two
     * cookies verify against the stored digest.
     */
    method Remember(user: User, token: string)
      requires Valid() && Persisted(user)
      modifies this`cookies, user`rememberToken, user`rememberDigest, user`email
      ensures Valid()
      ensures user.rememberToken == Some(token)
      ensures user.rememberDigest == Some(scheme.digest(token))
      ensures user.email == old(user.email)
      ensures cookies == old(cookies)[UserId := Id(user.id)][RememberToken := Text(token)]
      ensures user.Authenticated(scheme, RememberTokenCookie())
    {
      DowncaseIdempotent(user.email);
      user.Remember(scheme, token);
      cookies := cookies[UserId := Id(user.id)];
      cookies := cookies[RememberToken := Text(token)];
    }

    /** `forget(user)`: drop the user's remember digest and both remember cookies; the session is left alone. */
    method Forget(user: User)
      requires Valid() && Persisted(user)
      modifies this`cookies, user`rememberDigest, user`email
      ensures Valid()
      ensures user.rememberDigest == None
      ensures user.email == old(user.email)
      ensures cookies == old(cookies) - {UserId, RememberToken}
    {
      DowncaseIdempotent(user.email);
      user.Forget();
      assert TableInvariant(users);
      cookies := cookies - {UserId, RememberToken};
    }

    /**
     * `current_user`. With a session id: `@current_user ||= User.find_by(id:)`.
     * Otherwise, with a cookie id whose token verifies: log that user in and
     * memoise it. A second call in the same request returns the same user.
     */
    method CurrentUser() returns (u: User?)
      requires Valid()
      modifies this`session, this`cache
      ensures Valid()
      ensures u == old(Resolve())
      ensures ResolvedTo(u)
      ensures Resolve() == u
    {
      if UserId in session {
        if cache == null {
          cache := FindById(users, session[UserId].id);
        }
        u := cache;
      } else if UserId in cookies {
        var user := FindById(users, cookies[UserId].id);
        if user != null && user.Authenticated(scheme, RememberTokenCookie()) {
          LogIn(user);
          cache := user;
          u := user;
        } else {
          u := null;
        }
      } else {
        u := null;
      }
    }

    /** `logged_in?`: whether `current_user` is non-nil. */
    method LoggedIn() returns (b: bool)
      requires Valid()
      modifies this`session, this`cache
      ensures Valid()
      ensures b == (old(Resolve()) != null)
      ensures ResolvedTo(old(Resolve()))
      ensures Resolve() == old(Resolve())
    {
      var u := CurrentUser();
      b := u != null;
    }

    /**
     * `current_user?(user)`: Active Record equality, the same id; nil equals
     * only nil, so with nobody logged in `current_user?(nil)` holds.
     */
    method IsCurrentUser(user: User?) returns (b: bool)
      requires Valid()
      modifies this`session, this`cache
      ensures Valid()
      ensures var cu := old(Resolve());
        b == if user == null then cu == null else cu != null && cu.id == user.id
      ensures ResolvedTo(old(Resolve()))
    {
      var cu := CurrentUser();
      b := if user == null then cu == null else cu != null && cu.id == user.id;
    }

    /**
     * `log_out`: forget the current user, drop the session id and the memo.
     * `forget(current_user)` with nobody logged in calls `forget` on nil and
     * raises before anything has changed.
     */
    method LogOut() returns (r: Result<(), RubyError>)
      requires Valid()
      modifies this`session, this`cache, this`cookies, users.Values`rememberDigest, users.Values`email
      ensures Valid()
      ensures r.Failure? <==> old(Resolve()) == null
      ensures r.Failure? ==> r.error == NoMethodError("forget")
      ensures r.Failure? ==> session == old(session) && cookies == old(cookies) && cache == old(cache)
      ensures r.Success? ==>
        && session == old(session) - {UserId}
        && cache == null
        && cookies == old(cookies) - {UserId, RememberToken}
        && old(Resolve()).rememberDigest == None
      ensures users == old(users)
      ensures forall k :: k in users ==>
        && users[k].email == old(users[k].email)
        && (users[k] != old(Resolve()) ==> users[k].rememberDigest == old(users[k].rememberDigest))
      ensures Resolve() == null
    {
      var u := CurrentUser();
      if u == null {
        return Failure(NoMethodError("forget"));
      }
      ghost var before := users;
      Forget(u);
      session := session - {UserId};
      cache := null;
      assert users == before && TableInvariant(users);
      r := Success(());
    }

    /** `store_location`: on a GET request, save its URL for one later redirect, replacing any earlier one. */
    method StoreLocation(isGet: bool, url: string)
      requires Valid()
      modifies this`session
      ensures Valid()
      ensures session == if isGet then old(session)[ForwardingUrl := Text(url)] else old(session)
    {
      if isGet {
        session := session[ForwardingUrl := Text(url)];
      }
    }

    /** `redirect_back_or(default)`: use up the saved URL, or fall back to `default`; the slot is always cleared. */
    method RedirectBackOr(default: string) returns (target: string)
      requires Valid()
      modifies this`session
      ensures Valid()
      ensures target == ForwardTarget(old(session), default)
      ensures session == old(session) - {ForwardingUrl}
      ensures forall d :: ForwardTarget(session, d) == d
    {
      target := ForwardTarget(session, default);
      session := session - {ForwardingUrl};
    }
  }
}
