/**
 * The User model: its attribute validations, the `before_save` downcasing of
 * the email, and the remember-digest lifecycle (`remember`, `forget`,
 * `authenticated?`). The user table is a map from id to record; a record is
 * one object shared by every reference to that row.
 */
module Users {
  import opened Wrappers
  import opened Strings
  import opened Digests
  import EmailFormat

  const MaxNameLength := 50
  const MaxEmailLength := 255
  const MinPasswordLength := 6

  /** The validation failures of the model, in the order the validations are declared. */
  datatype ValidationError =
    | NameBlank | NameTooLong
    | EmailBlank | EmailTooLong | EmailInvalid | EmailTaken
    | PasswordBlank | PasswordTooShort

  class User {
    const id: int
    var name: string
    var email: string
    /** The plaintext `password` attribute of `has_secure_password`: nil unless one was just assigned. */
    var password: Option<string>
    /** `password_digest`: nil until a non-empty password has been assigned. */
    var passwordDigest: Option<string>
    /** `attr_accessor :remember_token`: held in memory only, never stored. */
    var rememberToken: Option<string>
    var rememberDigest: Option<string>

    /**
     * A new record with `password` assigned through the setter of
     * `has_secure_password`, which stores the digest of a non-empty password
     * and ignores an empty one, leaving both attributes nil.
     */
    constructor (id: int, name: string, email: string, password: string, scheme: DigestScheme)
      ensures this.id == id && this.name == name && this.email == email
      ensures password != "" ==> this.password == Some(password) && passwordDigest == Some(scheme.digest(password))
      ensures password == "" ==> this.password == None && passwordDigest == None
      ensures rememberToken == None && rememberDigest == None
    {
      this.id := id;
      this.name := name;
      this.email := email;
      if password == "" {
        this.password := None;
        this.passwordDigest := None;
      } else {
        this.password := Some(password);
        this.passwordDigest := Some(scheme.digest(password));
      }
      this.rememberToken := None;
      this.rememberDigest := None;
    }

    /** `authenticated?`: does `token` verify against the remember digest? Never with no digest. */
    function Authenticated(scheme: DigestScheme, token: string): (r: bool)
      reads this
      ensures rememberDigest.None? ==> !r
      ensures Sound(scheme) && rememberDigest == Some(scheme.digest(token)) ==> r
    {
      match rememberDigest
      case None => false
      case Some(d) => scheme.verify(token, d)
    }

    /** `authenticate` of `has_secure_password`: does `password` verify against the password digest? Never with no digest. */
    function Authenticate(scheme: DigestScheme, password: string): (r: bool)
      reads this
      ensures passwordDigest.None? ==> !r
      ensures Sound(scheme) && passwordDigest == Some(scheme.digest(password)) ==> r
    {
      match passwordDigest
      case None => false
      case Some(d) => scheme.verify(password, d)
    }

    /**
     * `remember`: keep the fresh `token` in memory and store its digest.
     * `update_attribute` saves through the `before_save` callback, so the
     * email is downcased again.
     */
    method Remember(scheme: DigestScheme, token: string)
      modifies this`rememberToken, this`rememberDigest, this`email
      ensures rememberToken == Some(token)
      ensures rememberDigest == Some(scheme.digest(token))
      ensures email == Downcase(old(email))
      ensures Sound(scheme) ==> Authenticated(scheme, token)
    {
      rememberToken := Some(token);
      rememberDigest := Some(scheme.digest(token));
      email := Downcase(email);
    }

    /** `forget`: drop the remember digest, after which no token authenticates. */
    method Forget()
      modifies this`rememberDigest, this`email
      ensures rememberDigest == None
      ensures email == Downcase(old(email))
      ensures forall scheme, token :: !Authenticated(scheme, token)
    {
      rememberDigest := None;
      email := Downcase(email);
    }
  }

  /** `User.find_by(id:)`: the row stored under `id`, or nil when there is none. */
  function FindById(table: map<int, User>, id: int): (u: User?)
    ensures u == null <==> id !in table
    ensures u != null ==> u in table.Values
    ensures TableInvariant(table) && u != null ==> u.id == id
  {
    if id in table then table[id] else null
  }

  /** `User.find_by(email:)`: a row whose stored email is `email`, or nil when there is none. */
  method FindByEmail(table: map<int, User>, email: string) returns (u: User?)
    ensures u != null ==> u in table.Values && u.email == email
    ensures u == null ==> forall k :: k in table ==> table[k].email != email
    ensures TableInvariant(table) && u != null ==> u.id in table && table[u.id] == u
    ensures TableInvariant(table) && u != null ==> forall k :: k in table && table[k].email == email ==> table[k] == u
  {
    if k :| k in table && table[k].email == email {
      u := table[k];
    } else {
      u := null;
    }
  }

  /** Rows are stored under their own id, stored emails are lower case and no two are equal ignoring case. */
  ghost predicate TableInvariant(table: map<int, User>)
    reads table.Values
  {
    && (forall k :: k in table ==> table[k].id == k)
    && (forall k :: k in table ==> IsLowercase(table[k].email))
    && (forall j, k :: j in table && k in table && j != k ==> Downcase(table[j].email) != Downcase(table[k].email))
  }

  /**
   * `uniqueness: { case_sensitive: false }`: another row's email downcases to
   * the same string, that is, the two differ at most in case.
   */
  function EmailTakenIn(table: map<int, User>, u: User): (taken: bool)
    reads u, table.Values
    ensures taken <==> exists k :: k in table && k != u.id && EqualIgnoringCase(table[k].email, u.email)
  {
    SameDowncaseIffCaseVariants(u.email);
    exists k :: k in table && k != u.id && Downcase(table[k].email) == Downcase(u.email)
  }

  /** Where each failure stands in the declaration order of the validations. */
  function Rank(e: ValidationError): nat {
    match e
    case NameBlank => 0
    case NameTooLong => 1
    case EmailBlank => 2
    case EmailTooLong => 3
    case EmailInvalid => 4
    case EmailTaken => 5
    case PasswordBlank => 6
    case PasswordTooShort => 7
  }

  /** The rules, in the order the validations are declared. */
  const DeclarationOrder: seq<ValidationError> :=
    [NameBlank, NameTooLong, EmailBlank, EmailTooLong, EmailInvalid, EmailTaken, PasswordBlank, PasswordTooShort]

  predicate InRankOrder(errs: seq<ValidationError>) {
    forall i, j :: 0 <= i < j < |errs| ==> Rank(errs[i]) < Rank(errs[j])
  }

  lemma DeclarationOrderRanked()
    ensures InRankOrder(DeclarationOrder)
  {
    forall i | 0 <= i < |DeclarationOrder|
      ensures Rank(DeclarationOrder[i]) == i
    {
    }
  }

  /** The tail of a ranked list is ranked, and every rule in it ranks after the head. */
  lemma RankedTail(rules: seq<ValidationError>)
    requires rules != []
    ensures InRankOrder(rules) ==> InRankOrder(rules[1..])
    ensures InRankOrder(rules) ==> forall e :: e in rules[1..] ==> Rank(rules[0]) < Rank(e)
  {
    if InRankOrder(rules) {
      forall e | e in rules[1..]
        ensures Rank(rules[0]) < Rank(e)
      {
        var m :| 0 <= m < |rules| - 1 && rules[1..][m] == e;
        assert rules[m + 1] == e;
      }
    }
  }

  /** Whether the rule behind `e` rejects `u`. `allow_nil` exempts a nil password from both password rules. */
  predicate Fails(table: map<int, User>, u: User, e: ValidationError)
    reads u, table.Values
  {
    match e
    case NameBlank => Blank(u.name)
    case NameTooLong => |u.name| > MaxNameLength
    case EmailBlank => Blank(u.email)
    case EmailTooLong => |u.email| > MaxEmailLength
    case EmailInvalid => !EmailFormat.IsValidEmail(u.email)
    case EmailTaken => EmailTakenIn(table, u)
    case PasswordBlank => u.password.Some? && Blank(u.password.value)
    case PasswordTooShort => u.password.Some? && |u.password.value| < MinPasswordLength
  }

  /** The rules of `rules` that reject `u`, in the order given. */
  function Failing(table: map<int, User>, u: User, rules: seq<ValidationError>): (errs: seq<ValidationError>)
    reads u, table.Values
    ensures forall e :: e in errs <==> e in rules && Fails(table, u, e)
    ensures InRankOrder(rules) ==> InRankOrder(errs)
  {
    if rules == [] then []
    else
      var rest := Failing(table, u, rules[1..]);
      RankedTail(rules);
      if Fails(table, u, rules[0]) then [rules[0]] + rest else rest
  }

  /**
   * The errors `valid?` collects: exactly the failing rules, each once, in
   * declaration order.
   */
  function Errors(table: map<int, User>, u: User): (errs: seq<ValidationError>)
    reads u, table.Values
    ensures forall e :: e in errs <==> Fails(table, u, e)
    ensures InRankOrder(errs)
    ensures u.password.None? ==> PasswordBlank !in errs && PasswordTooShort !in errs
  {
    DeclarationOrderRanked();
    Failing(table, u, DeclarationOrder)
  }

  /**
   * Every declared rule holds, with `formatOk` standing for the format rule
   * of the email, so that the regex and its executable check share one
   * statement of the other rules.
   */
  predicate RulesHoldGiven(table: map<int, User>, u: User, formatOk: bool)
    reads u, table.Values
  {
    && !Blank(u.name) && |u.name| <= MaxNameLength
    && !Blank(u.email) && |u.email| <= MaxEmailLength && formatOk
    && !EmailTakenIn(table, u)
    && (u.password.Some? ==> !Blank(u.password.value) && |u.password.value| >= MinPasswordLength)
  }

  /** Every declared rule holds, the email format read as the regex itself. */
  ghost predicate RulesHold(table: map<int, User>, u: User)
    reads u, table.Values
  {
    RulesHoldGiven(table, u, EmailFormat.MatchesPattern(u.email))
  }

  /** Proof step for NoErrorsIffRulesHold, not a property of the model: a sequence with no members is empty. */
  lemma EmptyWithoutMembers(errs: seq<ValidationError>)
    ensures (forall e :: e !in errs) ==> errs == []
  {
    if errs != [] {
      assert errs[0] in errs;
    }
  }

  /** When every rule holds, none of them fails. */
  lemma NoRuleFails(table: map<int, User>, u: User)
    requires RulesHoldGiven(table, u, EmailFormat.IsValidEmail(u.email))
    ensures forall e :: !Fails(table, u, e)
  {
    forall e
      ensures !Fails(table, u, e)
    {
      match e
      case NameBlank =>
      case NameTooLong =>
      case EmailBlank =>
      case EmailTooLong =>
      case EmailInvalid =>
      case EmailTaken =>
      case PasswordBlank =>
      case PasswordTooShort =>
    }
  }

  /** No error is collected exactly when every rule holds, the format rule read by the executable check. */
  lemma NoErrorsIffRulesHold(table: map<int, User>, u: User)
    ensures Errors(table, u) == [] <==> RulesHoldGiven(table, u, EmailFormat.IsValidEmail(u.email))
  {
    var errs := Errors(table, u);
    EmptyWithoutMembers(errs);
    if RulesHoldGiven(table, u, EmailFormat.IsValidEmail(u.email)) {
      NoRuleFails(table, u);
    }
    if errs == [] {
      assert !Fails(table, u, NameBlank) && !Fails(table, u, NameTooLong);
      assert !Fails(table, u, EmailBlank) && !Fails(table, u, EmailTooLong);
      assert !Fails(table, u, EmailInvalid) && !Fails(table, u, EmailTaken);
      assert !Fails(table, u, PasswordBlank) && !Fails(table, u, PasswordTooShort);
    }
  }

  /**
   * `valid?`: no validation fails, so a record is valid exactly when every
   * declared rule holds, the email rule read as the regex itself.
   */
  function IsValid(table: map<int, User>, u: User): (ok: bool)
    reads u, table.Values
    ensures ok <==> RulesHold(table, u)
  {
    NoErrorsIffRulesHold(table, u);
    EmailFormat.FormatMatchesPattern(u.email);
    Errors(table, u) == []
  }

  /**
   * `save`: run the validations against the other rows; when they pass, the
   * `before_save` callback downcases the email and the row is written.
   */
  method Save(table: map<int, User>, u: User) returns (saved: bool, table': map<int, User>)
    requires u.id in table ==> table[u.id] == u
    modifies u`email
    ensures saved == old(IsValid(table, u))
    ensures saved ==> u.email == Downcase(old(u.email)) && table' == table[u.id := u]
    ensures !saved ==> u.email == old(u.email) && table' == table
    ensures old(TableInvariant(table)) ==> TableInvariant(table')
  {
    saved := Errors(table, u) == [];
    if saved {
      ghost var before := u.email;
      u.email := Downcase(u.email);
      DowncaseIdempotent(before);
      table' := table[u.id := u];
    } else {
      table' := table;
    }
  }
}
