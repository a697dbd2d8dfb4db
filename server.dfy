/** The request handlers of server.js: register, login, the `authenticateToken`
    middleware and the three routes behind it (profile, chat, sessions), acting
    on the user and session collections. */
module Server {
  import opened Wrappers
  import opened Text
  import opened Credentials
  import opened Store
  import Reply

  /** The JSON body fields the handlers read. An absent field is the empty
      string: both are falsy, and the handlers treat them alike. */
  datatype Body = Body(name: string, email: string, password: string, message: string)

  /** What a handler sends: a JSON body with status 200, or `{error}` with a
      status code. */
  datatype Response =
    | Authenticated(user: Claims, token: string)
    | ProfileBody(profile: Option<Profile>)
    | Replied(reply: string, id: nat)
    | SessionList(sessions: seq<Session>)
    | Failure(status: nat, error: string)

  const MissingFields := Failure(400, "Missing fields")
  const EmailTaken := Failure(400, "Email already registered")
  const InvalidCredentials := Failure(400, "Invalid credentials")
  const MissingToken := Failure(401, "Missing token")
  const InvalidToken := Failure(403, "Invalid token")
  const NoMessage := Failure(400, "No message")

  /** An incoming request: its `Authorization` header, its body, and `req.user`,
      which the middleware sets once the token is verified. */
  class Request {
    const authorization: Option<string>
    const body: Body
    var user: Option<Claims>

    constructor (authorization: Option<string>, body: Body)
      ensures this.authorization == authorization && this.body == body && user == None
    {
      this.authorization := authorization;
      this.body := body;
      user := None;
    }
  }

  /** Sessions in the log were created one after another. */
  ghost predicate Chronological(log: seq<Session>) {
    forall i, j :: 0 <= i < j < |log| ==> log[i].createdAt < log[j].createdAt
  }

  /** The backend process: the configured hasher and token service, the two
      collections, and `clock`, the next value handed out as document id and
      creation time. */
  class Backend {
    const hasher: Hasher
    const tokens: TokenService
    var users: seq<User>
    var sessions: seq<Session>
    var clock: nat

    /** The stores' invariant: one user per normalized e-mail, and ids and
        creation times below the clock, the sessions in creation order. */
    ghost predicate Valid()
      reads this
    {
      && HasherSound(hasher) && TokenSound(tokens)
      && DistinctEmails(users) && DistinctIds(users)
      && (forall u :: u in users ==> IsKey(u.email) && u.id < clock)
      && Chronological(sessions)
      && (forall s :: s in sessions ==> s.id < clock && s.createdAt < clock)
    }

    constructor (hasher: Hasher, tokens: TokenService)
      requires HasherSound(hasher) && TokenSound(tokens)
      ensures Valid() && this.hasher == hasher && this.tokens == tokens
      ensures users == [] && sessions == [] && clock == 0
    {
      this.hasher := hasher;
      this.tokens := tokens;
      users := [];
      sessions := [];
      clock := 0;
    }

    /** POST /api/register (server.js lines 54-69). */
    method Register(body: Body, salt: Salt) returns (res: Response)
      requires Valid()
      modifies this
      ensures Valid() && sessions == old(sessions)
      ensures body.name == [] || body.email == [] || body.password == [] ==>
        res == MissingFields && users == old(users) && clock == old(clock)
      ensures body.name != [] && body.email != [] && body.password != [] ==>
        var key := NormalizeEmail(body.email);
        if exists u :: u in old(users) && u.email == key then
          res == EmailTaken && users == old(users) && clock == old(clock)
        else
          var u := User(old(clock), body.name, key, hasher.hash(body.password, salt), old(clock));
          && users == old(users) + [u] && clock == old(clock) + 1
          && res == Authenticated(PublicView(u), tokens.sign(PublicView(u)))
      ensures res == EmailTaken || res.Authenticated? ==>
        CountEmail(users, NormalizeEmail(body.email)) == 1
    {
      if body.name == [] || body.email == [] || body.password == [] {
        return MissingFields;
      }
      var hashed := hasher.hash(body.password, salt);
      var user := User(clock, body.name, NormalizeEmail(body.email), hashed, clock);
      // user.save(): the unique index refuses a second user with this e-mail
      if FindByEmail(users, user.email).Some? {
        CountUnderUniqueIndex(users, user.email);
        return EmailTaken;
      }
      NormalizedIsKey(body.email);
      AppendNewUser(users, user);
      users := users + [user];
      clock := clock + 1;
      var payload := PublicView(user);
      res := Authenticated(payload, tokens.sign(payload));
    }

    /** POST /api/login (server.js lines 72-87). An unknown e-mail and a wrong
        password give the same answer. */
    function Login(body: Body): (res: Response)
      reads this
      requires Valid()
      ensures body.email == [] || body.password == [] ==> res == MissingFields
      ensures body.email != [] && body.password != [] ==>
        var key := NormalizeEmail(body.email);
        && ((forall u :: u in users && u.email == key ==> !hasher.compare(body.password, u.passwordHash))
              ==> res == InvalidCredentials)
        && (forall u :: (u in users && u.email == key && hasher.compare(body.password, u.passwordHash))
              ==> res == Authenticated(PublicView(u), tokens.sign(PublicView(u))))
    {
      if body.email == [] || body.password == [] then MissingFields
      else
        UniqueEmails(users);
        match FindByEmail(users, NormalizeEmail(body.email))
        case None => InvalidCredentials
        case Some(u) =>
          if !hasher.compare(body.password, u.passwordHash) then InvalidCredentials
          else
            var payload := PublicView(u);
            Authenticated(payload, tokens.sign(payload))
    }

    /** The caller a header identifies: its token verified to these claims. */
    ghost function Caller(header: Option<string>): (caller: Option<Claims>)
      ensures BearerToken(header).None? ==> caller.None?
      ensures caller.Some? <==>
        BearerToken(header).Some? && tokens.verify(BearerToken(header).value).Verified?
      ensures caller.Some? ==> tokens.verify(BearerToken(header).value) == Verified(caller.value)
    {
      match BearerToken(header)
      case None => None
      case Some(token) =>
        match tokens.verify(token)
        case Verified(c) => Some(c)
        case Rejected(_) => None
    }

    /** `authenticateToken` (server.js lines 42-51): `denied` is the response
        it sends instead of calling the handler. */
    method AuthenticateToken(req: Request) returns (denied: Option<Response>)
      modifies req
      ensures BearerToken(req.authorization).None? ==>
        denied == Some(MissingToken) && req.user == old(req.user)
      ensures BearerToken(req.authorization).Some? && Caller(req.authorization).None? ==>
        denied == Some(InvalidToken) && req.user == old(req.user)
      ensures Caller(req.authorization).Some? ==>
        denied == None && req.user == Caller(req.authorization)
    {
      var token := BearerToken(req.authorization);
      if token.None? {
        return Some(MissingToken);
      }
      match tokens.verify(token.value)
      case Rejected(_) =>
        denied := Some(InvalidToken);
      case Verified(claims) =>
        req.user := Some(claims);
        denied := None;
    }

    /** The handler of GET /api/profile (server.js lines 90-97): the caller's
        user document without its password, or `null` if there is none. */
    function GetProfile(req: Request): (res: Response)
      reads this, req
      requires Valid() && req.user.Some?
      ensures res.ProfileBody?
      ensures forall u :: u in users && u.id == req.user.value.id ==> res.profile == Some(ProfileOf(u))
      ensures (forall u :: u in users ==> u.id != req.user.value.id) ==> res.profile == None
    {
      UniqueIds(users);
      match FindById(users, req.user.value.id)
      case None => ProfileBody(None)
      case Some(u) => ProfileBody(Some(ProfileOf(u)))
    }

    /** The handler of POST /api/chat (server.js lines 124-136); `pick` is the
        random choice of opening. */
    method Chat(req: Request, pick: nat) returns (res: Response)
      requires Valid() && req.user.Some? && pick < |Reply.Empathy|
      modifies this
      ensures Valid() && users == old(users)
      ensures req.body.message == [] ==>
        res == NoMessage && sessions == old(sessions) && clock == old(clock)
      ensures req.body.message != [] ==>
        var reply := Reply.Empathy[pick] + Reply.Advice(Reply.Classify(req.body.message)) + Reply.Closing;
        && sessions == old(sessions) + [Session(old(clock), req.user.value.id, req.body.message, reply, old(clock))]
        && clock == old(clock) + 1
        && res == Replied(reply, old(clock))
    {
      var message := req.body.message;
      if message == [] {
        return NoMessage;
      }
      var reply := Reply.GenerateReply(message, pick);
      var session := Session(clock, req.user.value.id, message, reply, clock);
      sessions := sessions + [session];
      clock := clock + 1;
      res := Replied(reply, session.id);
    }

    /** The handler of GET /api/sessions (server.js lines 138-146): the
        caller's most recent sessions, newest first, at most 100. */
    function ListSessions(req: Request): (res: Response)
      reads this, req
      requires Valid() && req.user.Some?
      ensures res.SessionList?
      ensures var listed := res.sessions; var id := req.user.value.id;
        && (forall s :: s in listed ==> s in sessions && s.userId == id)
        && StrictlyNewestFirst(listed)
        && |listed| == (if |Owned(sessions, id)| <= HistoryLimit then |Owned(sessions, id)| else HistoryLimit)
        && (|Owned(sessions, id)| <= HistoryLimit ==>
              forall s :: s in sessions && s.userId == id ==> s in listed)
        && (forall s, t :: s in sessions && s.userId == id && s !in listed && t in listed ==>
              s.createdAt < t.createdAt)
    {
      var id := req.user.value.id;
      HistorySpec(sessions, id, HistoryLimit);
      ChronologicalDistinct(sessions);
      HistoryStrict(sessions, id, HistoryLimit);
      SessionList(History(sessions, id, HistoryLimit))
    }

    /** A stored user whose hash was made from `password` logs in with that
        password and any non-empty address that normalizes to the stored one. */
    lemma StoredUserLogsIn(u: User, password: string, salt: Salt, email: string)
      requires Valid() && u in users && u.passwordHash == hasher.hash(password, salt)
      requires password != [] && email != [] && NormalizeEmail(email) == u.email
      ensures Login(Body([], email, password, [])) == Authenticated(PublicView(u), tokens.sign(PublicView(u)))
    {
      assert hasher.compare(password, u.passwordHash);
    }

    /** A token this backend issued, sent after any one-word scheme, passes
        the middleware with the claims it was issued for. */
    lemma IssuedTokenAccepted(claims: Claims, scheme: string)
      requires Valid() && ' ' !in scheme
      ensures Caller(Some(scheme + [' '] + tokens.sign(claims))) == Some(claims)
    {
      var token := tokens.sign(claims);
      BearerTokenOf(scheme, token, []);
      assert scheme + [' '] + token + [] == scheme + [' '] + token;
    }

    /** The converse: a request is served as a caller only when its header
        carries the token issued for that caller's claims. */
    lemma OnlyIssuedTokensPass(header: Option<string>, claims: Claims)
      requires Valid()
      ensures Caller(header) == Some(claims) <==> BearerToken(header) == Some(tokens.sign(claims))
    {
    }

    /** Login looks at the e-mail only through its normalized form: a variant
        in other letter case and with surrounding white space logs in (or is
        refused) exactly as the address itself. */
    lemma LoginIgnoresCaseAndPadding(email: string, variant: string, before: string, after: string, password: string)
      requires Valid() && email != []
      requires AllSpace(before) && AllSpace(after)
      requires |variant| == |email|
      requires forall k :: 0 <= k < |email| ==> LowerChar(variant[k]) == LowerChar(email[k])
      ensures Login(Body([], before + variant + after, password, [])) == Login(Body([], email, password, []))
    {
      var padded := before + variant + after;
      assert |padded| >= |variant|;
      NormalizeIgnoresCaseAndPadding(email, variant, before, after);
      LoginBySameKey(padded, email, password);
    }

    /** Two non-empty addresses with the same normalized form log in alike. */
    lemma LoginBySameKey(e1: string, e2: string, password: string)
      requires Valid() && e1 != [] && e2 != []
      requires NormalizeEmail(e1) == NormalizeEmail(e2)
      ensures Login(Body([], e1, password, [])) == Login(Body([], e2, password, []))
    {
    }

    /** GET /api/profile: the middleware, then the handler. */
    method ProfileRoute(req: Request) returns (res: Response)
      requires Valid()
      modifies req
      ensures BearerToken(req.authorization).None? ==> res == MissingToken
      ensures BearerToken(req.authorization).Some? && Caller(req.authorization).None? ==>
        res == InvalidToken
      ensures Caller(req.authorization).Some? ==>
        req.user == Caller(req.authorization) && res == GetProfile(req)
    {
      var denied := AuthenticateToken(req);
      if denied.Some? {
        return denied.value;
      }
      res := GetProfile(req);
    }

    /** POST /api/chat: the middleware, then the handler. A request that is
        turned away leaves the stores as they were. */
    method ChatRoute(req: Request, pick: nat) returns (res: Response)
      requires Valid() && pick < |Reply.Empathy|
      modifies this, req
      ensures Valid() && users == old(users)
      ensures Caller(req.authorization).None? ==>
        sessions == old(sessions) && clock == old(clock)
      ensures BearerToken(req.authorization).None? ==> res == MissingToken
      ensures BearerToken(req.authorization).Some? && Caller(req.authorization).None? ==>
        res == InvalidToken
      ensures Caller(req.authorization).Some? ==> req.user == Caller(req.authorization)
      ensures Caller(req.authorization).Some? && req.body.message == [] ==>
        res == NoMessage && sessions == old(sessions) && clock == old(clock)
      ensures Caller(req.authorization).Some? && req.body.message != [] ==>
        var reply := Reply.Empathy[pick] + Reply.Advice(Reply.Classify(req.body.message)) + Reply.Closing;
        && sessions == old(sessions) + [Session(old(clock), Caller(req.authorization).value.id, req.body.message, reply, old(clock))]
        && clock == old(clock) + 1
        && res == Replied(reply, old(clock))
    {
      var denied := AuthenticateToken(req);
      if denied.Some? {
        return denied.value;
      }
      res := Chat(req, pick);
    }

    /** GET /api/sessions: the middleware, then the handler. */
    method SessionsRoute(req: Request) returns (res: Response)
      requires Valid()
      modifies req
      ensures BearerToken(req.authorization).None? ==> res == MissingToken
      ensures BearerToken(req.authorization).Some? && Caller(req.authorization).None? ==>
        res == InvalidToken
      ensures Caller(req.authorization).Some? ==>
        req.user == Caller(req.authorization) && res == ListSessions(req)
    {
      var denied := AuthenticateToken(req);
      if denied.Some? {
        return denied.value;
      }
      res := ListSessions(req);
    }
  }

  /** A fresh backend on which one client has registered. */
  method NewAccount(hasher: Hasher, tokens: TokenService, salt: Salt,
                    name: string, email: string, password: string)
    returns (backend: Backend, registered: Response)
    requires HasherSound(hasher) && TokenSound(tokens)
    requires name != [] && email != [] && password != []
    ensures fresh(backend) && backend.Valid()
    ensures backend.hasher == hasher && backend.tokens == tokens
    ensures backend.users == [User(0, name, NormalizeEmail(email), hasher.hash(password, salt), 0)]
    ensures backend.sessions == [] && backend.clock == 1
    ensures var claims := Claims(0, name, NormalizeEmail(email));
      registered == Authenticated(claims, tokens.sign(claims))
  {
    backend := new Backend(hasher, tokens);
    registered := backend.Register(Body(name, email, password, []), salt);
  }

  /** A client's first visit: register, then send one chat message with the
      returned token; the session is stored under the new user's id. */
  method FirstVisit(hasher: Hasher, tokens: TokenService, salt: Salt, pick: nat,
                    name: string, email: string, password: string, message: string)
    returns (registered: Response, chat: Response)
    requires HasherSound(hasher) && TokenSound(tokens) && pick < |Reply.Empathy|
    requires name != [] && email != [] && password != [] && message != []
    ensures var claims := Claims(0, name, NormalizeEmail(email));
      registered == Authenticated(claims, tokens.sign(claims))
    ensures chat == Replied(Reply.Empathy[pick] + Reply.Advice(Reply.Classify(message)) + Reply.Closing, 1)
  {
    var backend;
    backend, registered := NewAccount(hasher, tokens, salt, name, email, password);
    var claims := Claims(0, name, NormalizeEmail(email));
    var header := "Bearer" + [' '] + tokens.sign(claims);
    backend.IssuedTokenAccepted(claims, "Bearer");
    var chatRequest := new Request(Some(header), Body([], [], [], message));
    chat := backend.ChatRoute(chatRequest, pick);
  }

  /** A holder of an issued token sends one chat message to a fresh backend. */
  method FirstChat(hasher: Hasher, tokens: TokenService, pick: nat, claims: Claims, message: string)
    returns (backend: Backend, header: string, chat: Response)
    requires HasherSound(hasher) && TokenSound(tokens) && pick < |Reply.Empathy|
    requires message != []
    ensures fresh(backend) && backend.Valid() && backend.tokens == tokens
    ensures backend.Caller(Some(header)) == Some(claims)
    ensures chat == Replied(Reply.Empathy[pick] + Reply.Advice(Reply.Classify(message)) + Reply.Closing, 0)
    ensures backend.sessions == [Session(0, claims.id, message, chat.reply, 0)]
  {
    backend := new Backend(hasher, tokens);
    header := "Bearer" + [' '] + tokens.sign(claims);
    backend.IssuedTokenAccepted(claims, "Bearer");
    var chatRequest := new Request(Some(header), Body([], [], [], message));
    chat := backend.ChatRoute(chatRequest, pick);
  }

  /** ... and then lists the sessions, which hold exactly that exchange. */
  method ChatThenList(hasher: Hasher, tokens: TokenService, pick: nat, claims: Claims, message: string)
    returns (chat: Response, listed: Response)
    requires HasherSound(hasher) && TokenSound(tokens) && pick < |Reply.Empathy|
    requires message != []
    ensures chat.Replied? && chat.id == 0
    ensures listed == SessionList([Session(0, claims.id, message, chat.reply, 0)])
  {
    var backend, header;
    backend, header, chat := FirstChat(hasher, tokens, pick, claims, message);
    var listRequest := new Request(Some(header), Body([], [], [], []));
    listed := backend.SessionsRoute(listRequest);
    HistoryOfOne(Session(0, claims.id, message, chat.reply, 0), HistoryLimit);
  }

  /** Registering again with the same address in another letter case and
      with surrounding white space is refused, and logging in with such a
      variant and the first password gives the first registration's answer. */
  method SecondRegistration(hasher: Hasher, tokens: TokenService, salt1: Salt, salt2: Salt,
                            email: string, variant: string, before: string, after: string,
                            password1: string, password2: string)
    returns (first: Response, second: Response, login: Response)
    requires HasherSound(hasher) && TokenSound(tokens)
    requires email != [] && password1 != [] && password2 != []
    requires AllSpace(before) && AllSpace(after) && |variant| == |email|
    requires forall k :: 0 <= k < |email| ==> LowerChar(variant[k]) == LowerChar(email[k])
    ensures first.Authenticated? && first.user == Claims(0, "A", NormalizeEmail(email))
    ensures second == EmailTaken
    ensures login.Authenticated? && login.user == first.user
    // The same token, but only because the model's tokens carry no issue time.
    ensures login.token == first.token
  {
    var padded := before + variant + after;
    assert |padded| >= |variant|;
    NormalizeIgnoresCaseAndPadding(email, variant, before, after);
    var backend := new Backend(hasher, tokens);
    first := backend.Register(Body("A", email, password1, []), salt1);
    var stored := User(0, "A", NormalizeEmail(email), hasher.hash(password1, salt1), 0);
    second := backend.Register(Body("B", padded, password2, []), salt2);
    backend.StoredUserLogsIn(stored, password1, salt1, padded);
    login := backend.Login(Body([], padded, password1, []));
  }

  lemma UniqueEmails(users: seq<User>)
    requires DistinctEmails(users)
    ensures forall u, v :: u in users && v in users && u.email == v.email ==> u == v
  {
    forall u, v | u in users && v in users && u.email == v.email ensures u == v {
      EmailDeterminesUser(users, u, v);
    }
  }

  lemma UniqueIds(users: seq<User>)
    requires DistinctIds(users)
    ensures forall u, v :: u in users && v in users && u.id == v.id ==> u == v
  {
    forall u, v | u in users && v in users && u.id == v.id ensures u == v {
      IdDeterminesUser(users, u, v);
    }
  }

  /** In a chronological log a creation time identifies a session. */
  lemma ChronologicalDistinct(log: seq<Session>)
    requires Chronological(log)
    ensures DistinctStamps(log)
    ensures forall s, t :: s in log && t in log && s.createdAt == t.createdAt ==> s == t
  {
    forall s, t | s in log && t in log && s.createdAt == t.createdAt ensures s == t {
      var i :| 0 <= i < |log| && log[i] == s;
      var j :| 0 <= j < |log| && log[j] == t;
      assert i == j;
    }
  }
}
