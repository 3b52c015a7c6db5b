/**
 * SessionsController: `create` (log in from the login form) and `destroy`
 * (log out), as transitions of the request state, each answering with a
 * redirect or a re-rendered form.
 */
module SessionsController {
  import opened Wrappers
  import opened Strings
  import opened Users
  import opened SessionsHelper

  /** Where a redirect goes: a user's own page, or the root URL. */
  datatype Target = UserPage(id: int) | RootUrl

  /** The answer to the browser: a redirect, or a template rendered with an optional danger flash. */
  datatype Response = Redirect(target: Target) | Render(template: string, flashDanger: Option<string>)

  const InvalidCombination := "Invalid email/ password combination"

  /** The one answer to a failed login, whichever check failed. */
  const Rejected := Render("new", Some(InvalidCombination))

  /** Some row holds the downcased `email`, and `password` verifies against that row's password digest. */
  predicate Accepts(ctx: RequestContext, email: string, password: string)
    reads ctx, ctx.users.Values
  {
    exists k :: k in ctx.users && ctx.users[k].email == Downcase(email) && ctx.users[k].Authenticate(ctx.scheme, password)
  }

  /** Logins whose emails differ only in case are accepted or refused alike. */
  lemma AcceptsIgnoresEmailCase(ctx: RequestContext, email: string, email': string, password: string)
    requires EqualIgnoringCase(email, email')
    ensures Accepts(ctx, email, password) == Accepts(ctx, email', password)
  {
    CaseVariantsDowncaseAlike(email, email');
  }

  /** Any casing of a stored email downcases to that stored email, so the lookup reaches its row. */
  lemma AnyCasingFindsStoredEmail(ctx: RequestContext, k: int, email: string)
    requires ctx.Valid() && k in ctx.users
    requires EqualIgnoringCase(email, ctx.users[k].email)
    ensures Downcase(email) == ctx.users[k].email
  {
    assert EqualIgnoringCase(ctx.users[k].email, email);
    DowncaseUnique(email, ctx.users[k].email);
  }

  /** A login attempt left the session, the cookies and every row's remember fields as they were. */
  twostate predicate Untouched(ctx: RequestContext)
    reads ctx, ctx.users.Values
  {
    && ctx.users == old(ctx.users)
    && ctx.session == old(ctx.session)
    && ctx.cookies == old(ctx.cookies)
    && forall k :: k in ctx.users ==>
         && ctx.users[k].rememberDigest == old(ctx.users[k].rememberDigest)
         && ctx.users[k].rememberToken == old(ctx.users[k].rememberToken)
  }

  /**
   * `create`: look the user up by the downcased email and check the password.
   * On success log in, then `remember` when `remember_me` is exactly "1" and
   * `forget` otherwise, and redirect to the user's page; on failure re-render
   * the form with the generic error and change nothing. A post without an
   * email field calls `downcase` on nil, which raises before anything
   * changes. `token` stands for the fresh random remember token.
   */
  method Create(ctx: RequestContext, email: Option<string>, password: string, rememberMe: Option<string>, token: string)
    returns (r: Result<Response, RubyError>)
    requires ctx.Valid()
    modifies ctx`session, ctx`cookies
    modifies ctx.users.Values`rememberToken, ctx.users.Values`rememberDigest, ctx.users.Values`email
    ensures ctx.Valid()
    ensures ctx.users == old(ctx.users) && ctx.cache == old(ctx.cache)
    ensures forall k :: k in ctx.users ==> ctx.users[k].email == old(ctx.users[k].email)
    ensures email.None? ==> r == Failure(NoMethodError("downcase")) && Untouched(ctx)
    ensures email.Some? ==> r.Success?
    ensures email.Some? ==> (r.value.Redirect? <==> old(Accepts(ctx, email.value, password)))
    ensures email.Some? && !r.value.Redirect? ==> r.value == Rejected && Untouched(ctx)
    ensures email.Some? && r.value.Redirect? ==>
      && r.value.target.UserPage?
      && var id := r.value.target.id;
      && id in ctx.users
      && ctx.users[id].email == Downcase(email.value)
      && ctx.users[id].Authenticate(ctx.scheme, password)
      && ctx.session == old(ctx.session)[UserId := Id(id)]
      && (rememberMe == Some("1") ==>
            && ctx.cookies == old(ctx.cookies)[UserId := Id(id)][RememberToken := Text(token)]
            && ctx.users[id].rememberToken == Some(token)
            && ctx.users[id].rememberDigest == Some(ctx.scheme.digest(token))
            && ctx.users[id].Authenticated(ctx.scheme, ctx.RememberTokenCookie()))
      && (rememberMe != Some("1") ==>
            && ctx.cookies == old(ctx.cookies) - {UserId, RememberToken}
            && ctx.users[id].rememberToken == old(ctx.users[id].rememberToken)
            && ctx.users[id].rememberDigest == None)
      && forall k :: k in ctx.users && k != id ==>
           ctx.users[k].rememberDigest == old(ctx.users[k].rememberDigest)
           && ctx.users[k].rememberToken == old(ctx.users[k].rememberToken)
  {
    if email.None? {
      return Failure(NoMethodError("downcase"));
    }
    var user := FindByEmail(ctx.users, Downcase(email.value));
    if user != null && user.Authenticate(ctx.scheme, password) {
      ctx.LogIn(user);
      RememberOrForget(ctx, user, rememberMe, token);
      r := Success(Redirect(UserPage(user.id)));
    } else {
      r := Success(Rejected);
    }
  }

  /**
   * The `remember_me` choice of `create`: `remember` when the box was ticked
   * (exactly "1"), `forget` otherwise, which also clears remember cookies
   * and a digest left over from an earlier login on this browser.
   */
  method RememberOrForget(ctx: RequestContext, user: User, rememberMe: Option<string>, token: string)
    requires ctx.Valid() && ctx.Persisted(user)
    modifies ctx`cookies, user`rememberToken, user`rememberDigest, user`email
    ensures ctx.Valid()
    ensures user.email == old(user.email)
    ensures rememberMe == Some("1") ==>
      && ctx.cookies == old(ctx.cookies)[UserId := Id(user.id)][RememberToken := Text(token)]
      && user.rememberToken == Some(token)
      && user.rememberDigest == Some(ctx.scheme.digest(token))
      && user.Authenticated(ctx.scheme, ctx.RememberTokenCookie())
    ensures rememberMe != Some("1") ==>
      && ctx.cookies == old(ctx.cookies) - {UserId, RememberToken}
      && user.rememberDigest == None
      && user.rememberToken == old(user.rememberToken)
  {
    if rememberMe == Some("1") {
      ctx.Remember(user, token);
    } else {
      ctx.Forget(user);
    }
  }

  /** `destroy`: log out only when somebody is logged in, and always redirect to the root URL. */
  method Destroy(ctx: RequestContext) returns (response: Response)
    requires ctx.Valid()
    modifies ctx`session, ctx`cache, ctx`cookies, ctx.users.Values`rememberDigest, ctx.users.Values`email
    ensures ctx.Valid()
    ensures response == Redirect(RootUrl)
    ensures old(ctx.Resolve()) == null ==>
      ctx.session == old(ctx.session) && ctx.cookies == old(ctx.cookies) && ctx.cache == old(ctx.cache)
    ensures old(ctx.Resolve()) != null ==>
      && ctx.session == old(ctx.session) - {UserId}
      && ctx.cache == null
      && ctx.cookies == old(ctx.cookies) - {UserId, RememberToken}
      && old(ctx.Resolve()).rememberDigest == None
    ensures ctx.users == old(ctx.users)
    ensures forall k :: k in ctx.users ==>
      && ctx.users[k].email == old(ctx.users[k].email)
      && (ctx.users[k] != old(ctx.Resolve()) ==> ctx.users[k].rememberDigest == old(ctx.users[k].rememberDigest))
    ensures ctx.Resolve() == null
  {
    var loggedIn := ctx.LoggedIn();
    if loggedIn {
      var _ := ctx.LogOut();
    }
    response := Redirect(RootUrl);
  }
}
