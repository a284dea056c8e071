/**
 * The authentication middleware (backend/middlewares/authMiddleware.js):
 * it reads the bearer token from the `Authorization` header, asks the
 * identity provider whose token it is, looks up that account's profile, and
 * either answers 401/403 itself or copies the account, the profile's shop and
 * the profile's role onto the request and hands it on.
 *
 * The identity provider's token check and the profile lookup are the
 * `sessions`, `authUsers` and `usuarios` maps.
 */
module AuthMiddleware {
  import opened Wrappers
  import opened Tables

  // ---------------------------------------------------------------------
  // Extracting the token
  // ---------------------------------------------------------------------

  /** The fields of `s` between single spaces, as JavaScript's `split(' ')` returns them. */
  function Split(s: string): (r: seq<string>)
    ensures |r| >= 1
    ensures forall i :: 0 <= i < |r| ==> ' ' !in r[i]
    decreases |s|
  {
    if s == [] then [""]
    else if s[0] == ' ' then [""] + Split(s[1..])
    else
      var t := Split(s[1..]);
      [[s[0]] + t[0]] + t[1..]
  }

  /** The fields joined back with single spaces. */
  function Join(parts: seq<string>): string
    requires |parts| >= 1
    decreases |parts|
  {
    if |parts| == 1 then parts[0] else parts[0] + " " + Join(parts[1..])
  }

  /** Splitting loses nothing: joining the fields gives the header back. */
  lemma {:induction false} JoinSplit(s: string)
    ensures Join(Split(s)) == s
    decreases |s|
  {
    if s == [] {
    } else if s[0] == ' ' {
      JoinSplit(s[1..]);
      assert Split(s)[1..] == Split(s[1..]);
      assert s == [' '] + s[1..];
    } else {
      var t := Split(s[1..]);
      JoinSplit(s[1..]);
      if |t| == 1 {
        assert Split(s) == [[s[0]] + t[0]];
      } else {
        assert Split(s)[1..] == t[1..];
        assert Join(t) == t[0] + " " + Join(t[1..]);
        assert Join(Split(s)) == ([s[0]] + t[0]) + " " + Join(t[1..]);
      }
      assert s == [s[0]] + s[1..];
    }
  }

  /** A string without spaces is a single field. */
  lemma {:induction false} SplitOfSpaceless(s: string)
    requires ' ' !in s
    ensures Split(s) == [s]
    decreases |s|
  {
    if s != [] {
      assert ' ' !in s[1..] by { assert forall i :: 0 <= i < |s[1..]| ==> s[1..][i] == s[i + 1]; }
      SplitOfSpaceless(s[1..]);
      assert s == [s[0]] + s[1..];
    }
  }

  /** A word followed by a space contributes its own field and nothing else. */
  lemma {:induction false} SplitAfterWord(w: string, t: string)
    requires ' ' !in w
    ensures Split(w + " " + t) == [w] + Split(t)
    decreases |w|
  {
    if w == [] {
      assert w + " " + t == [' '] + t;
      assert (w + " " + t)[1..] == t;
    } else {
      assert ' ' !in w[1..] by { assert forall i :: 0 <= i < |w[1..]| ==> w[1..][i] == w[i + 1]; }
      SplitAfterWord(w[1..], t);
      assert (w + " " + t)[1..] == w[1..] + " " + t;
      assert (w + " " + t)[0] == w[0];
      assert [w[0]] + w[1..] == w;
    }
  }

  /** A header has a second field exactly when it contains a space. */
  lemma {:induction false} SecondFieldIffSpace(s: string)
    ensures |Split(s)| >= 2 <==> ' ' in s
    decreases |s|
  {
    if s != [] && s[0] != ' ' {
      SecondFieldIffSpace(s[1..]);
      assert ' ' in s <==> ' ' in s[1..] by {
        assert s == [s[0]] + s[1..];
      }
    }
  }

  /** The token: the header's second space-separated field, when there is one. */
  function TokenOf(header: string): (t: Option<string>)
    ensures t.Some? <==> ' ' in header
    ensures t.Some? ==> ' ' !in t.value
  {
    var fields := Split(header);
    SecondFieldIffSpace(header);
    if |fields| >= 2 then Some(fields[1]) else None
  }

  /** `Bearer <token>` yields the token, whatever scheme word precedes it. */
  lemma BearerTokenIsFound(scheme: string, token: string)
    requires ' ' !in scheme && ' ' !in token
    ensures TokenOf(scheme + " " + token) == Some(token)
  {
    SplitAfterWord(scheme, token);
    SplitOfSpaceless(token);
  }

  // ---------------------------------------------------------------------
  // The decision
  // ---------------------------------------------------------------------

  /** What the middleware does with a request: let it through as `caller`, or answer it. */
  datatype Decision = Admit(caller: Caller) | Reject(code: nat, error: string)

  /** The account the identity provider says a token belongs to, if any. */
  function VerifiedUser(sessions: map<string, Id>, authUsers: map<Id, AuthUser>, token: Option<string>)
    : (u: Option<AuthUser>)
    ensures u.Some? <==> token.Some? && token.value in sessions && sessions[token.value] in authUsers
    ensures u.Some? ==> u.value == authUsers[sessions[token.value]]
  {
    if token.Some? && token.value in sessions && sessions[token.value] in authUsers then
      Some(authUsers[sessions[token.value]])
    else None
  }

  /**
   * 401 `Token ausente` without a header; 401 `Não autorizado` when the
   * token is missing or the provider does not recognise it; 403 when the
   * account has no profile row; otherwise the caller, with the shop and role
   * of the account's profile.
   */
  function Decide(
    header: Option<string>, sessions: map<string, Id>, authUsers: map<Id, AuthUser>, usuarios: map<Id, Usuario>)
    : (d: Decision)
    ensures !Present(header) ==> d == Reject(401, "Token ausente")
    ensures Present(header) && VerifiedUser(sessions, authUsers, TokenOf(header.value)).None? ==>
      d == Reject(401, "Não autorizado")
    ensures d.Reject? ==> d.code in {401, 403}
    ensures d.Admit? <==>
      Present(header)
      && VerifiedUser(sessions, authUsers, TokenOf(header.value)).Some?
      && VerifiedUser(sessions, authUsers, TokenOf(header.value)).value.id in usuarios
    ensures d.Admit? ==>
      var user := VerifiedUser(sessions, authUsers, TokenOf(header.value)).value;
      d.caller == Caller(user, usuarios[user.id].barbeariaId, usuarios[user.id].tipo)
  {
    if !Present(header) then Reject(401, "Token ausente")
    else
      var user := VerifiedUser(sessions, authUsers, TokenOf(header.value));
      if user.None? then Reject(401, "Não autorizado")
      else if user.value.id !in usuarios then Reject(403, "Perfil de usuário não encontrado no sistema.")
      else Admit(Caller(user.value, usuarios[user.value.id].barbeariaId, usuarios[user.value.id].tipo))
  }

  /** A request with a live session for an account that has a profile is let through as that account. */
  lemma LiveSessionIsAdmitted(
    sessions: map<string, Id>, authUsers: map<Id, AuthUser>, usuarios: map<Id, Usuario>, token: string)
    requires token != "" && ' ' !in token && token in sessions && sessions[token] in authUsers
    requires authUsers[sessions[token]].id in usuarios
    ensures Decide(Some("Bearer " + token), sessions, authUsers, usuarios).Admit?
    ensures Decide(Some("Bearer " + token), sessions, authUsers, usuarios).caller.user == authUsers[sessions[token]]
  {
    assert "Bearer " + token == "Bearer" + " " + token;
    BearerTokenIsFound("Bearer", token);
  }

  // ---------------------------------------------------------------------
  // The middleware as written
  // ---------------------------------------------------------------------

  /**
   * The middleware as its first line has it: it imports the configuration
   * module itself rather than the client the module exports, so the token
   * check calls a method of an undefined property, throws, and every request
   * that carries a header ends in the catch-all 401.
   */
  function DecideAsWritten(header: Option<string>): (d: Decision)
    ensures d.Reject? && d.code == 401
    ensures !Present(header) ==> d.error == "Token ausente"
  {
    if !Present(header) then Reject(401, "Token ausente") else Reject(401, "Não autorizado")
  }

  /**
   * As written, a request carrying a live session of an account that has a
   * profile is turned away with 401, where the intended check lets it through.
   */
  lemma AsWrittenRejectsLiveSession(
    sessions: map<string, Id>, authUsers: map<Id, AuthUser>, usuarios: map<Id, Usuario>, token: string)
    requires token != "" && ' ' !in token && token in sessions && sessions[token] in authUsers
    requires authUsers[sessions[token]].id in usuarios
    ensures Decide(Some("Bearer " + token), sessions, authUsers, usuarios).Admit?
    ensures DecideAsWritten(Some("Bearer " + token)) == Reject(401, "Não autorizado")
  {
    LiveSessionIsAdmitted(sessions, authUsers, usuarios, token);
  }

  // ---------------------------------------------------------------------
  // The request it decorates
  // ---------------------------------------------------------------------

  /** The parts of an incoming request the middleware reads and writes. */
  class Request {
    var authorization: Option<string>
    var user: Option<AuthUser>
    var barbeariaId: Option<Id>
    var userType: Option<string>

    constructor (authorization: Option<string>)
      ensures this.authorization == authorization
      ensures user.None? && barbeariaId.None? && userType.None?
    {
      this.authorization := authorization;
      user, barbeariaId, userType := None, None, None;
    }
  }

  /** Whether the request goes on to the handler (`next()`), or the middleware has answered it. */
  datatype Outcome = Next | Respond(code: nat, error: string)

  /**
   * `authMiddleware` with its first line importing the client it means to
   * (as written, `DecideAsWritten` applies instead): answers a rejected
   * request without touching it; on success sets `user`, `barbeariaId` and
   * `userType` from the account and its profile and calls the next handler once.
   */
  method Authenticate(req: Request, db: Db) returns (o: Outcome)
    modifies req`user, req`barbeariaId, req`userType
    ensures var d := Decide(req.authorization, db.sessions, db.authUsers, db.usuarios);
      && (d.Reject? ==> o == Respond(d.code, d.error) && unchanged(req))
      && (d.Admit? ==>
            && o == Next
            && req.user == Some(d.caller.user)
            && req.barbeariaId == d.caller.barbeariaId
            && req.userType == Some(d.caller.userType))
  {
    var header := req.authorization;
    if !Present(header) {
      return Respond(401, "Token ausente");
    }
    var token := TokenOf(header.value);
    var user := VerifiedUser(db.sessions, db.authUsers, token);
    if user.None? {
      return Respond(401, "Não autorizado");
    }
    if user.value.id !in db.usuarios {
      return Respond(403, "Perfil de usuário não encontrado no sistema.");
    }
    var profile := db.usuarios[user.value.id];
    req.user := user;
    req.barbeariaId := profile.barbeariaId;
    req.userType := Some(profile.tipo);
    return Next;
  }
}
