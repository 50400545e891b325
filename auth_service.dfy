/** Accounts and bearer tokens: registration, login, logout, the current
    user and the push-notification token. */
module AuthService {
  import opened Wrappers
  import opened Http
  import opened Validation

  datatype Role = Student | Admin

  /** A row of `users`. `passwordHash` holds the hash, never the password. */
  datatype User = User(
    id: nat,
    name: string,
    email: string,
    passwordHash: string,
    role: Role,
    fcmToken: Option<string>)

  predicate IsAdmin(u: User) {
    u.role == Admin
  }

  datatype RegisterRequest = RegisterRequest(
    name: Option<string>,
    email: Option<string>,
    password: Option<string>,
    passwordConfirmation: Option<string>)

  /** A successful register or login: the user and the id of the token issued. */
  datatype Session = Session(user: User, token: nat)

  /** `User::where('email', e)->first()`: the first row, in table order, with that email. */
  function FindByEmail(users: seq<User>, email: string): (r: Option<nat>)
    ensures r.Some? ==> r.value < |users| && users[r.value].email == email
    ensures r.Some? ==> forall k :: 0 <= k < r.value ==> users[k].email != email
    ensures r.None? <==> forall k :: 0 <= k < |users| ==> users[k].email != email
  {
    if users == [] then None
    else if users[0].email == email then Some(0)
    else
      match FindByEmail(users[1..], email)
      case None => None
      case Some(k) => Some(k + 1)
  }

  /** The row whose primary key is `id`. */
  function FindById(users: seq<User>, id: nat): (r: Option<nat>)
    ensures r.Some? ==> r.value < |users| && users[r.value].id == id
    ensures r.None? <==> forall k :: 0 <= k < |users| ==> users[k].id != id
  {
    if users == [] then None
    else if users[0].id == id then Some(0)
    else
      match FindById(users[1..], id)
      case None => None
      case Some(k) => Some(k + 1)
  }

  /** Lookup by key sees only the keys: two tables with the same ids in the
      same positions answer alike. */
  lemma {:induction false} FindByIdSameKeys(a: seq<User>, b: seq<User>, id: nat)
    requires |a| == |b| && forall k :: 0 <= k < |a| ==> a[k].id == b[k].id
    ensures FindById(a, id) == FindById(b, id)
  {
    if a != [] && a[0].id != id {
      FindByIdSameKeys(a[1..], b[1..], id);
    }
  }

  predicate EmailsUnique(users: seq<User>) {
    forall i, j :: 0 <= i < j < |users| ==> users[i].email != users[j].email
  }

  /** Changing a column other than the key and the email keeps emails unique
      and every lookup by key where it was. */
  lemma SameKeysSameLookups(a: seq<User>, b: seq<User>)
    requires |a| == |b| && forall k :: 0 <= k < |a| ==> a[k].id == b[k].id && a[k].email == b[k].email
    ensures EmailsUnique(a) ==> EmailsUnique(b)
    ensures forall id: nat :: FindById(a, id) == FindById(b, id)
  {
    forall id: nat ensures FindById(a, id) == FindById(b, id) {
      FindByIdSameKeys(a, b, id);
    }
  }

  /** The fields `register` refuses: name `required|string|max:255`, email
      `required|string|email|unique:users`, password `required|string|min:6|confirmed`. */
  function RegisterErrors(users: seq<User>, req: RegisterRequest): (errs: set<string>)
    ensures errs <= {"name", "email", "password"}
    ensures "name" !in errs <==> RequiredAtMost(req.name, 255)
    ensures "email" !in errs <==>
      Required(req.email) && WellFormedEmail(req.email.value) &&
      forall k :: 0 <= k < |users| ==> users[k].email != req.email.value
    ensures "password" !in errs <==>
      Required(req.password) && |req.password.value| >= 6 && req.passwordConfirmation == req.password
  {
    var nameOk := RequiredAtMost(req.name, 255);
    var emailOk := Required(req.email) && WellFormedEmail(req.email.value)
                   && FindByEmail(users, req.email.value).None?;
    var passwordOk := Required(req.password) && |req.password.value| >= 6
                      && req.passwordConfirmation == req.password;
    (if nameOk then {} else {"name"}) + (if emailOk then {} else {"email"})
      + (if passwordOk then {} else {"password"})
  }

  /** The fields `login` refuses: email `required|string|email`, password `required|string`. */
  function LoginErrors(email: Option<string>, password: Option<string>): (errs: set<string>)
    ensures errs <= {"email", "password"}
    ensures errs == {} <==> Required(email) && WellFormedEmail(email.value) && Required(password)
  {
    (if Required(email) && WellFormedEmail(email.value) then {} else {"email"})
      + (if Required(password) then {} else {"password"})
  }

  /** The credential check of `login`: the first user with that email, whose
      stored hash matches. An unknown email and a wrong password give the same error. */
  function Authenticate(users: seq<User>, hash: string -> string, email: string, password: string): (r: Result<User>)
    ensures r.Err? ==> r.error == InvalidCredentials
    ensures r.Ok? ==> r.value in users && r.value.email == email && r.value.passwordHash == hash(password)
    ensures EmailsUnique(users) ==>
      (r.Ok? <==> exists k :: 0 <= k < |users| && users[k].email == email && users[k].passwordHash == hash(password))
  {
    match FindByEmail(users, email)
    case None => Err(InvalidCredentials)
    case Some(k) =>
      if users[k].passwordHash == hash(password) then Ok(users[k]) else Err(InvalidCredentials)
  }

  /** The `users` table and the personal access tokens. A token is known by
      its id and maps to the user it was issued to; its random secret is not
      modelled. `hash` stands for the one-way password hash. */
  class UserStore {
    var users: seq<User>
    var tokens: map<nat, nat>
    var nextUserId: nat
    var nextTokenId: nat
    const hash: string -> string

    ghost predicate Valid()
      reads this
    {
      && (forall i :: 0 <= i < |users| ==> users[i].id < nextUserId)
      && (forall i, j :: 0 <= i < j < |users| ==> users[i].id < users[j].id)
      && EmailsUnique(users)
      && (forall t :: t in tokens ==> t < nextTokenId && FindById(users, tokens[t]).Some?)
    }

    /** The tokens currently valid for user `uid`. */
    function TokensOf(uid: nat): set<nat>
      reads this
    {
      set t | t in tokens && tokens[t] == uid
    }

    constructor (hash: string -> string)
      ensures Valid()
      ensures users == [] && tokens == map[] && this.hash == hash
    {
      users := [];
      tokens := map[];
      nextUserId := 1;
      nextTokenId := 1;
      this.hash := hash;
    }

    /** POST /register. */
    method Register(req: RegisterRequest) returns (r: Result<Session>)
      requires Valid()
      modifies this
      ensures Valid()
      ensures RegisterErrors(old(users), req) != {} ==>
        r == Err(Invalid(RegisterErrors(old(users), req))) && unchanged(this)
      ensures RegisterErrors(old(users), req) == {} ==>
        && r.Ok?
        && r.value.user == User(old(nextUserId), req.name.value, req.email.value,
                                hash(req.password.value), Student, None)
        && users == old(users) + [r.value.user]
        && r.value.token == old(nextTokenId)
        && tokens == old(tokens)[r.value.token := r.value.user.id]
        && nextUserId == old(nextUserId) + 1 && nextTokenId == old(nextTokenId) + 1
    {
      var errs := RegisterErrors(users, req);
      if errs != {} {
        return Err(Invalid(errs));
      }
      var u := User(nextUserId, req.name.value, req.email.value, hash(req.password.value), Student, None);
      assert forall k :: 0 <= k < |users| ==> users[k].email != u.email;
      users := users + [u];
      nextUserId := nextUserId + 1;
      tokens := tokens[nextTokenId := u.id];
      r := Ok(Session(u, nextTokenId));
      nextTokenId := nextTokenId + 1;
      forall t | t in tokens ensures FindById(users, tokens[t]).Some? {
        if tokens[t] != u.id {
          var k := FindById(old(users), tokens[t]).value;
          assert users[k] == old(users)[k];
        } else {
          assert users[|users| - 1].id == u.id;
        }
      }
    }

    /** POST /login. The user's existing tokens stay valid; one is added. */
    method Login(email: Option<string>, password: Option<string>) returns (r: Result<Session>)
      requires Valid()
      modifies this
      ensures Valid() && users == old(users) && nextUserId == old(nextUserId)
      ensures LoginErrors(email, password) != {} ==>
        r == Err(Invalid(LoginErrors(email, password))) && unchanged(this)
      ensures LoginErrors(email, password) == {} ==>
        match Authenticate(users, hash, email.value, password.value)
        case Err(e) => r == Err(e) && unchanged(this)
        case Ok(u) =>
          r == Ok(Session(u, old(nextTokenId)))
          && tokens == old(tokens)[old(nextTokenId) := u.id]
          && TokensOf(u.id) == old(TokensOf(u.id)) + {old(nextTokenId)}
          && nextTokenId == old(nextTokenId) + 1
    {
      var errs := LoginErrors(email, password);
      if errs != {} {
        return Err(Invalid(errs));
      }
      var found := FindByEmail(users, email.value);
      if found.None? || users[found.value].passwordHash != hash(password.value) {
        return Err(InvalidCredentials);
      }
      var u := users[found.value];
      assert FindById(users, u.id).Some?;
      tokens := tokens[nextTokenId := u.id];
      r := Ok(Session(u, nextTokenId));
      nextTokenId := nextTokenId + 1;
      assert TokensOf(u.id) == old(TokensOf(u.id)) + {old(nextTokenId)};
    }

    /** POST /logout: revokes only the token the request was made with. */
    method Logout(current: nat)
      requires Valid() && current in tokens
      modifies this
      ensures Valid() && users == old(users)
      ensures nextUserId == old(nextUserId) && nextTokenId == old(nextTokenId)
      ensures tokens == old(tokens) - {current}
      ensures TokensOf(old(tokens)[current]) == old(TokensOf(tokens[current])) - {current}
    {
      tokens := tokens - {current};
    }

    /** GET /user: the user the request's token belongs to. */
    function CurrentUser(current: nat): (u: User)
      requires Valid() && current in tokens
      reads this
      ensures u in users && u.id == tokens[current]
    {
      users[FindById(users, tokens[current]).value]
    }

    /** POST /update-fcm: `fcm_token` is `required|string`; only the caller's
        `fcmToken` changes. */
    method UpdateFcmToken(current: nat, fcmToken: Option<string>) returns (r: Result<()>)
      requires Valid() && current in tokens
      modifies this
      ensures Valid() && tokens == old(tokens)
      ensures nextUserId == old(nextUserId) && nextTokenId == old(nextTokenId)
      ensures !Required(fcmToken) ==> r == Err(Invalid({"fcm_token"})) && users == old(users)
      ensures Required(fcmToken) ==>
        && r == Ok(())
        && var k := FindById(old(users), old(tokens)[current]).value;
           users == old(users)[k := old(users)[k].(fcmToken := fcmToken)]
    {
      if !Required(fcmToken) {
        return Err(Invalid({"fcm_token"}));
      }
      var k := FindById(users, tokens[current]).value;
      ghost var before := users;
      users := users[k := users[k].(fcmToken := fcmToken)];
      assert Valid() by {
        SameKeysSameLookups(before, users);
      }
      r := Ok(());
    }
  }
}
