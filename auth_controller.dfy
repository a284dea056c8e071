/**
 * Sign-up and tenant provisioning (backend/controllers/authController.js).
 * `register` validates the role, resolves a barber's shop by slug, creates
 * the account at the identity provider (or recovers the existing one), and
 * for an owner creates the shop with a slug derived from its name and seeds
 * two services, deleting a just-created account again when the shop cannot
 * be created. It ends by inserting the profile row.
 *
 * The identity provider's answer to the account creation is the parameter
 * `signup`; the keys the database would generate are parameters too.
 */
module AuthController {
  import opened Wrappers
  import opened Tables
  import Slug
  import PublicController

  // ---------------------------------------------------------------------
  // Validation
  // ---------------------------------------------------------------------

  /** The three roles a profile can have. */
  predicate ValidTipo(tipo: string) {
    tipo in {"dono", "barbeiro", "cliente"}
  }

  /**
   * The checks made before anything is written: the role must be one of the
   * three, an owner must name the shop, and a barber must give its slug.
   */
  function ValidationError(tipo: string, nomeBarbearia: Option<string>, slugBarbearia: Option<string>)
    : (e: Option<(nat, string)>)
    ensures e.Some? ==> e.value.0 == 400
    ensures !ValidTipo(tipo) ==> e == Some((400, "Tipo de perfil inválido."))
    ensures e.None? <==>
      ValidTipo(tipo)
      && (tipo == "dono" ==> Present(nomeBarbearia))
      && (tipo == "barbeiro" ==> Present(slugBarbearia))
  {
    if !ValidTipo(tipo) then Some((400, "Tipo de perfil inválido."))
    else if tipo == "dono" && !Present(nomeBarbearia) then
      Some((400, "Nome da barbearia é obrigatório para donos."))
    else if tipo == "barbeiro" && !Present(slugBarbearia) then
      Some((400, "Slug da barbearia é obrigatório para barbeiros."))
    else None
  }

  // ---------------------------------------------------------------------
  // The identity provider
  // ---------------------------------------------------------------------

  /** The provider's answer to creating an account: the new account's id, or an error. */
  datatype SignupOutcome = Created(id: Id) | Refused(message: string, status: int)

  /** `sub` occurs in `s` at index `i`. */
  predicate OccursAt(s: string, sub: string, i: int) {
    0 <= i <= |s| - |sub| && s[i..i + |sub|] == sub
  }

  /** `sub` occurs somewhere in `s`. */
  predicate Contains(s: string, sub: string) {
    exists i :: 0 <= i <= |s| && OccursAt(s, sub, i)
  }

  /** The errors that mean the email already has an account, which is then reused. */
  predicate AlreadyRegistered(message: string, status: int) {
    Contains(message, "already registered") || status == 422
  }

  // ---------------------------------------------------------------------
  // The owner's shop
  // ---------------------------------------------------------------------

  /** The first four characters of the account id, or all of them when it is shorter. */
  function Code(userId: Id): (c: string)
    ensures |c| == if |userId| < 4 then |userId| else 4
    ensures c == userId[..|c|]
  {
    if |userId| < 4 then userId else userId[..4]
  }

  /** The new shop's slug: the slug of its name, a hyphen, and the account id's first four characters. */
  function ShopSlug(nomeBarbearia: string, userId: Id): (s: string)
    ensures |s| == |Slug.CriarSlug(nomeBarbearia)| + 1 + |Code(userId)|
    ensures s[..|Slug.CriarSlug(nomeBarbearia)|] == Slug.CriarSlug(nomeBarbearia)
    ensures s[|Slug.CriarSlug(nomeBarbearia)|] == '-'
    ensures s[|Slug.CriarSlug(nomeBarbearia)| + 1..] == Code(userId)
  {
    var base, code := Slug.CriarSlug(nomeBarbearia), Code(userId);
    var s := base + "-" + code;
    assert s[..|base|] == base && s[|base| + 1..] == code;
    s
  }

  /**
   * A name without any slug character (only punctuation, say) gives the
   * shop a slug that starts with a hyphen: it is not a slug, and the slug
   * builder would change it.
   */
  lemma EmptyNameSlugStartsWithHyphen(nomeBarbearia: string, userId: Id)
    requires Slug.CriarSlug(nomeBarbearia) == []
    ensures ShopSlug(nomeBarbearia, userId) == "-" + Code(userId)
    ensures !Slug.IsSlug(ShopSlug(nomeBarbearia, userId))
    ensures Slug.CriarSlug(ShopSlug(nomeBarbearia, userId)) != ShopSlug(nomeBarbearia, userId)
  {
    var s := ShopSlug(nomeBarbearia, userId);
    assert s[0] == '-';
  }

  /**
   * When the name has a non-empty slug and the id starts with letters,
   * digits or underscores (a UUID starts with hex digits), the shop's slug
   * is itself a slug, which the slug builder leaves unchanged.
   */
  lemma ShopSlugIsSlug(nomeBarbearia: string, userId: Id)
    requires Slug.CriarSlug(nomeBarbearia) != []
    requires |userId| >= 1
    requires forall i :: 0 <= i < |Code(userId)| ==> Slug.IsWordChar(userId[i]) && !('A' <= userId[i] <= 'Z')
    ensures Slug.IsSlug(ShopSlug(nomeBarbearia, userId))
    ensures Slug.CriarSlug(ShopSlug(nomeBarbearia, userId)) == ShopSlug(nomeBarbearia, userId)
  {
    var base := Slug.CriarSlug(nomeBarbearia);
    var code := Code(userId);
    Slug.HyphenJoinIsSlug(base, code);
    assert ShopSlug(nomeBarbearia, userId) == base + "-" + code;
    Slug.SlugIsFixedPoint(base + "-" + code);
  }

  /** Two owners whose ids share their first four characters and whose shops share a name get the same slug. */
  lemma SlugsCollideOnSharedPrefix(nomeBarbearia: string, u1: Id, u2: Id)
    requires |u1| >= 4 && |u2| >= 4 && u1[..4] == u2[..4] && u1 != u2
    ensures ShopSlug(nomeBarbearia, u1) == ShopSlug(nomeBarbearia, u2)
  {
  }

  /** The shop insert fails when its key is taken or another shop already has the slug (slugs are unique). */
  predicate ShopInsertFails(barbearias: map<Id, Barbearia>, newShopId: Id, slug: string) {
    newShopId in barbearias || PublicController.ShopsWithSlug(barbearias, slug) != {}
  }

  /** A new owner's shop: the given name, the derived slug, the free plan, active. */
  function NewShop(nomeBarbearia: string, slug: string, now: int): (b: Barbearia)
    ensures b.nome == nomeBarbearia && b.slug == slug && b.plano == "free" && b.status == "ativo"
  {
    Barbearia(nomeBarbearia, slug, "free", "ativo", now)
  }

  /** The two services every new shop starts with. */
  function Corte(shopId: Id): Servico { Servico(Some(shopId), Some("Corte"), Some(30), Some(30)) }
  function Barba(shopId: Id): Servico { Servico(Some(shopId), Some("Barba"), Some(25), Some(30)) }

  /**
   * The two default services, inserted together: both are added when both
   * keys are free and distinct; otherwise the batch fails and nothing is added.
   */
  function SeedDefaults(servicos: map<Id, Servico>, shopId: Id, corteId: Id, barbaId: Id): (r: map<Id, Servico>)
    ensures corteId != barbaId && corteId !in servicos && barbaId !in servicos ==>
      r == servicos[corteId := Corte(shopId)][barbaId := Barba(shopId)]
    ensures !(corteId != barbaId && corteId !in servicos && barbaId !in servicos) ==> r == servicos
    ensures forall k :: k in servicos ==> k in r && r[k] == servicos[k]
  {
    if corteId != barbaId && corteId !in servicos && barbaId !in servicos then
      servicos[corteId := Corte(shopId)][barbaId := Barba(shopId)]
    else servicos
  }

  /** A brand-new shop's catalogue is exactly `Corte` at 30 for 30 minutes and `Barba` at 25 for 30 minutes. */
  lemma NewShopCatalogue(servicos: map<Id, Servico>, shopId: Id, corteId: Id, barbaId: Id)
    requires corteId != barbaId && corteId !in servicos && barbaId !in servicos
    requires forall k :: k in servicos ==> !SqlEq(servicos[k].barbeariaId, Some(shopId))
    ensures PublicController.ServicesOf(SeedDefaults(servicos, shopId, corteId, barbaId), shopId)
         == map[corteId := Corte(shopId), barbaId := Barba(shopId)]
  {
    var r := PublicController.ServicesOf(SeedDefaults(servicos, shopId, corteId, barbaId), shopId);
    assert r.Keys == {corteId, barbaId};
  }

  /**
   * Because the insert refuses a slug that is already taken, the slug handed
   * back to a new owner finds exactly the new shop and its catalogue.
   */
  lemma NewShopIsFoundBySlug(
    barbearias: map<Id, Barbearia>, servicos: map<Id, Servico>, newShopId: Id, nomeBarbearia: string, slug: string, now: int)
    requires !ShopInsertFails(barbearias, newShopId, slug)
    ensures PublicController.GetBarbeariaBySlug(barbearias[newShopId := NewShop(nomeBarbearia, slug, now)], servicos, slug)
         == Ok(200, PublicController.PublicShop(newShopId, nomeBarbearia, slug, PublicController.ServicesOf(servicos, newShopId)))
  {
    var after := barbearias[newShopId := NewShop(nomeBarbearia, slug, now)];
    assert forall k :: k in barbearias ==> barbearias[k].slug != slug by {
      forall k | k in barbearias ensures barbearias[k].slug != slug {
        assert k !in PublicController.ShopsWithSlug(barbearias, slug);
      }
    }
    PublicController.UniqueSlugIsFound(after, servicos, newShopId);
  }

  // ---------------------------------------------------------------------
  // The profile
  // ---------------------------------------------------------------------

  /** The profile insert, whose failure is ignored: a row that already exists for the account stays as it is. */
  function InsertProfile(usuarios: map<Id, Usuario>, id: Id, profile: Usuario): (r: map<Id, Usuario>)
    ensures id in r && r[id] == (if id in usuarios then usuarios[id] else profile)
    ensures r.Keys == usuarios.Keys + {id}
    ensures forall k :: k in usuarios && k != id ==> r[k] == usuarios[k]
  {
    if id in usuarios then usuarios else usuarios[id := profile]
  }

  // ---------------------------------------------------------------------
  // register
  // ---------------------------------------------------------------------

  /** `users[i]` is the first account of `users` with this email. */
  predicate FirstWithEmail(users: seq<AuthUser>, email: string, i: int) {
    0 <= i < |users| && users[i].email == email && forall j :: 0 <= j < i ==> users[j].email != email
  }

  /** The index of the first account of `users` with this email, or `|users|` when there is none. */
  function FirstIndexWithEmail(users: seq<AuthUser>, email: string): (i: nat)
    ensures i <= |users|
    ensures forall j :: 0 <= j < i ==> users[j].email != email
    ensures i < |users| ==> users[i].email == email
    decreases |users|
  {
    if users == [] || users[0].email == email then 0
    else
      var k := FirstIndexWithEmail(users[1..], email);
      assert forall j :: 1 <= j < k + 1 ==> users[j] == users[1..][j - 1];
      k + 1
  }

  /** `users.find(u => u.email === email)`: the first listed account with the email, if any. */
  function FindByEmail(users: seq<AuthUser>, email: string): (r: Option<AuthUser>)
    ensures r.None? <==> forall i :: 0 <= i < |users| ==> users[i].email != email
    ensures r.Some? ==> exists i :: FirstWithEmail(users, email, i) && users[i] == r.value
  {
    var i := FirstIndexWithEmail(users, email);
    if i < |users| then
      assert FirstWithEmail(users, email, i);
      Some(users[i])
    else None
  }

  /**
   * The account the account step ends with: the one created here, carrying
   * the name and role in its metadata; after an "already registered" refusal,
   * the first account of the `listUsers` page with the email; none otherwise.
   */
  function AccountOf(signup: SignupOutcome, listed: seq<AuthUser>, nome: Option<string>, email: string, tipo: string)
    : (a: Option<AuthUser>)
    ensures signup.Created? ==> a == Some(AuthUser(signup.id, email, None, nome, tipo))
    ensures signup.Refused? && !AlreadyRegistered(signup.message, signup.status) ==> a.None?
    ensures signup.Refused? && AlreadyRegistered(signup.message, signup.status) ==>
      && (a.Some? <==> exists i :: 0 <= i < |listed| && listed[i].email == email)
      && (a.Some? ==> a.value.email == email && a.value in listed)
  {
    match signup
    case Created(id) => Some(AuthUser(id, email, None, nome, tipo))
    case Refused(message, status) => if AlreadyRegistered(message, status) then FindByEmail(listed, email) else None
  }

  /**
   * The account step: a created account is stored; a refusal meaning
   * "already registered" falls back to the first account with the same email
   * on the page `listed` that `listUsers` returns; any other refusal, or no
   * such account on that page, is the error that ends the call.
   */
  method ObtainAccount(
    db: Db, nome: Option<string>, email: string, tipo: string, signup: SignupOutcome, listed: seq<AuthUser>)
    returns (account: Option<AuthUser>, err: Option<string>, createdHere: bool)
    modifies db`authUsers
    ensures account == AccountOf(signup, listed, nome, email, tipo)
    ensures account.Some? <==> err.None?
    ensures createdHere <==> signup.Created?
    ensures signup.Created? ==> db.authUsers == old(db.authUsers)[signup.id := account.value]
    ensures signup.Refused? ==> db.authUsers == old(db.authUsers)
    ensures signup.Refused? && !AlreadyRegistered(signup.message, signup.status) ==> err == Some(signup.message)
    ensures signup.Refused? && AlreadyRegistered(signup.message, signup.status) && account.None? ==>
      err == Some("User exists but could not be found via listUsers")
  {
    match signup {
      case Created(id) =>
        var user := AuthUser(id, email, None, nome, tipo);
        db.authUsers := db.authUsers[id := user];
        return Some(user), None, true;
      case Refused(message, status) =>
        if !AlreadyRegistered(message, status) {
          return None, Some(message), false;
        }
        var found := FindByEmail(listed, email);
        if found.None? {
          return None, Some("User exists but could not be found via listUsers"), false;
        }
        return found, None, false;
    }
  }

  /**
   * The owner's shop step: inserts the shop under its derived slug, seeds
   * the two default services and then inserts the owner's `profile`; when the
   * shop insert fails, deletes the account if this call created it, and
   * writes nothing else.
   */
  method CreateShop(
    db: Db, user: AuthUser, createdHere: bool, nomeBarbearia: string,
    newShopId: Id, corteId: Id, barbaId: Id, now: int, profile: Usuario)
    returns (slug: Option<string>)
    modifies db`authUsers, db`barbearias, db`servicos, db`usuarios
    ensures var s := ShopSlug(nomeBarbearia, user.id);
      && (ShopInsertFails(old(db.barbearias), newShopId, s) ==>
            && slug.None?
            && db.barbearias == old(db.barbearias) && db.servicos == old(db.servicos)
            && db.usuarios == old(db.usuarios)
            && db.authUsers == (if createdHere then old(db.authUsers) - {user.id} else old(db.authUsers)))
      && (!ShopInsertFails(old(db.barbearias), newShopId, s) ==>
            && slug == Some(s)
            && db.barbearias == old(db.barbearias)[newShopId := NewShop(nomeBarbearia, s, now)]
            && db.servicos == SeedDefaults(old(db.servicos), newShopId, corteId, barbaId)
            && db.usuarios == InsertProfile(old(db.usuarios), user.id, profile)
            && db.authUsers == old(db.authUsers))
  {
    var s := ShopSlug(nomeBarbearia, user.id);
    if ShopInsertFails(db.barbearias, newShopId, s) {
      if createdHere {
        db.authUsers := db.authUsers - {user.id};
      }
      return None;
    }
    db.barbearias := db.barbearias[newShopId := NewShop(nomeBarbearia, s, now)];
    db.servicos := SeedDefaults(db.servicos, newShopId, corteId, barbaId);
    db.usuarios := InsertProfile(db.usuarios, user.id, profile);
    return Some(s);
  }

  /**
   * What `register` does once it holds `user`: for an owner, the shop step
   * (answering 400 when the shop insert fails); then the profile row, which
   * belongs to the new shop for an owner and to `barberShop` otherwise.
   */
  method Provision(
    db: Db, user: AuthUser, createdHere: bool, nome: Option<string>, email: string, tipo: string,
    nomeBarbearia: string, barberShop: Option<Id>, newShopId: Id, corteId: Id, barbaId: Id, now: int)
    returns (r: Reply<Option<string>>)
    modifies db`authUsers, db`barbearias, db`servicos, db`usuarios
    ensures r.Ok? <==> (tipo == "dono" ==> !ShopInsertFails(old(db.barbearias), newShopId, ShopSlug(nomeBarbearia, user.id)))
    ensures r.Fail? ==>
      && r == Fail(400, DuplicateKey)
      && db.barbearias == old(db.barbearias) && db.servicos == old(db.servicos) && db.usuarios == old(db.usuarios)
      && db.authUsers == (if createdHere then old(db.authUsers) - {user.id} else old(db.authUsers))
    ensures r.Ok? ==> db.authUsers == old(db.authUsers) && r.code == 201 && (r.value.Some? <==> tipo == "dono")
    ensures r.Ok? && tipo == "dono" ==>
      var slug := ShopSlug(nomeBarbearia, user.id);
      && r.value == Some(slug)
      && db.barbearias == old(db.barbearias)[newShopId := NewShop(nomeBarbearia, slug, now)]
      && db.servicos == SeedDefaults(old(db.servicos), newShopId, corteId, barbaId)
      && db.usuarios == InsertProfile(old(db.usuarios), user.id, Usuario(Some(newShopId), nome, email, tipo))
    ensures r.Ok? && tipo != "dono" ==>
      && db.barbearias == old(db.barbearias) && db.servicos == old(db.servicos)
      && db.usuarios == InsertProfile(old(db.usuarios), user.id, Usuario(barberShop, nome, email, tipo))
  {
    if tipo == "dono" {
      var slug := CreateShop(db, user, createdHere, nomeBarbearia, newShopId, corteId, barbaId, now,
                             Usuario(Some(newShopId), nome, email, tipo));
      if slug.None? {
        return Fail(400, DuplicateKey);
      }
      return Ok(201, slug);
    }
    db.usuarios := InsertProfile(db.usuarios, user.id, Usuario(barberShop, nome, email, tipo));
    return Ok(201, None);
  }

  /** Deleting an account just stored leaves the accounts as they were before, less that key. */
  lemma RemoveAfterInsert(m: map<Id, AuthUser>, k: Id, v: AuthUser)
    ensures m[k := v] - {k} == m - {k}
  {
  }

  /**
   * The part of `register` after validation and the barber's shop lookup:
   * the account step, the owner's shop step, and the profile row, which
   * belongs to `barberShop` unless the caller is an owner.
   */
  method Enrol(
    db: Db, nome: Option<string>, email: string, tipo: string, nomeBarbearia: string,
    barberShop: Option<Id>, signup: SignupOutcome, listed: seq<AuthUser>,
    newShopId: Id, corteId: Id, barbaId: Id, now: int)
    returns (r: Reply<Option<string>>, account: Option<AuthUser>)
    modifies db`authUsers, db`barbearias, db`servicos, db`usuarios
    ensures account == AccountOf(signup, listed, nome, email, tipo)
    // Success exactly when there is an account and, for an owner, the shop insert goes through.
    ensures r.Ok? <==>
      account.Some? && (tipo == "dono" ==> !ShopInsertFails(old(db.barbearias), newShopId, ShopSlug(nomeBarbearia, account.value.id)))
    ensures account.None? ==> r.Fail? && r.code == 400 && unchanged(db)
    // When the owner's shop cannot be created, an account made here is deleted again.
    ensures account.Some? && tipo == "dono" && ShopInsertFails(old(db.barbearias), newShopId, ShopSlug(nomeBarbearia, account.value.id)) ==>
      && r == Fail(400, DuplicateKey)
      && db.authUsers == (if signup.Created? then old(db.authUsers) - {signup.id} else old(db.authUsers))
    ensures signup.Refused? ==> db.authUsers == old(db.authUsers)
    ensures signup.Created? && r.Ok? ==> db.authUsers == old(db.authUsers)[signup.id := account.value]
    ensures r.Fail? ==>
      db.barbearias == old(db.barbearias) && db.servicos == old(db.servicos) && db.usuarios == old(db.usuarios)
    ensures r.Ok? ==> r.code == 201 && (r.value.Some? <==> tipo == "dono")
    ensures r.Ok? && tipo == "dono" ==>
      var slug := ShopSlug(nomeBarbearia, account.value.id);
      && r.value == Some(slug)
      && db.barbearias == old(db.barbearias)[newShopId := NewShop(nomeBarbearia, slug, now)]
      && db.servicos == SeedDefaults(old(db.servicos), newShopId, corteId, barbaId)
      && db.usuarios == InsertProfile(old(db.usuarios), account.value.id, Usuario(Some(newShopId), nome, email, tipo))
    ensures r.Ok? && tipo != "dono" ==>
      && db.barbearias == old(db.barbearias) && db.servicos == old(db.servicos)
      && db.usuarios == InsertProfile(old(db.usuarios), account.value.id, Usuario(barberShop, nome, email, tipo))
  {
    var err, createdHere;
    account, err, createdHere := ObtainAccount(db, nome, email, tipo, signup, listed);
    if account.None? {
      return Fail(400, err.value), None;
    }
    assert db.barbearias == old(db.barbearias) && db.servicos == old(db.servicos) && db.usuarios == old(db.usuarios);
    assert db.authUsers == if createdHere then old(db.authUsers)[signup.id := account.value] else old(db.authUsers);
    assert createdHere ==> account.value.id == signup.id;
    if createdHere {
      RemoveAfterInsert(old(db.authUsers), signup.id, account.value);
    }
    r := Provision(db, account.value, createdHere, nome, email, tipo, nomeBarbearia, barberShop,
                   newShopId, corteId, barbaId, now);
  }

  /**
   * The request gets past the checks made before any account exists: the
   * fields its role needs, and for a barber a slug that names exactly one shop.
   */
  predicate Proceeds(
    barbearias: map<Id, Barbearia>, tipo: string, nomeBarbearia: Option<string>, slugBarbearia: Option<string>)
  {
    ValidationError(tipo, nomeBarbearia, slugBarbearia).None?
    && (tipo == "barbeiro" ==> |PublicController.ShopsWithSlug(barbearias, slugBarbearia.value)| == 1)
  }

  /**
   * `register`. Besides the response, it yields the identity-provider
   * account the call reached (created here, or the existing one with this
   * email), which the profile row is keyed by; none when it stopped earlier.
   * `listed` is the page of accounts `listUsers` returns.
   */
  method Register(
    db: Db, nome: Option<string>, email: string, tipo: string,
    nomeBarbearia: Option<string>, slugBarbearia: Option<string>,
    signup: SignupOutcome, listed: seq<AuthUser>, newShopId: Id, corteId: Id, barbaId: Id, now: int)
    returns (r: Reply<Option<string>>, account: Option<AuthUser>)
    modifies db`authUsers, db`barbearias, db`servicos, db`usuarios
    // Validation failures write nothing.
    ensures ValidationError(tipo, nomeBarbearia, slugBarbearia).Some? ==>
      && r == Fail(400, ValidationError(tipo, nomeBarbearia, slugBarbearia).value.1)
      && unchanged(db)
    // A barber's slug must name exactly one shop, checked before any account exists.
    ensures (ValidationError(tipo, nomeBarbearia, slugBarbearia).None? && tipo == "barbeiro"
             && |PublicController.ShopsWithSlug(old(db.barbearias), slugBarbearia.value)| != 1) ==>
      r == Fail(404, "Barbearia não encontrada com este slug.") && unchanged(db)
    ensures !Proceeds(old(db.barbearias), tipo, nomeBarbearia, slugBarbearia) ==> account.None?
    ensures Proceeds(old(db.barbearias), tipo, nomeBarbearia, slugBarbearia) ==>
      account == AccountOf(signup, listed, nome, email, tipo)
    // Success exactly when the checks pass, an account is obtained and, for an owner, the shop insert goes through.
    ensures r.Ok? <==>
      && Proceeds(old(db.barbearias), tipo, nomeBarbearia, slugBarbearia)
      && AccountOf(signup, listed, nome, email, tipo).Some?
      && (tipo == "dono" ==>
            !ShopInsertFails(old(db.barbearias), newShopId,
                             ShopSlug(nomeBarbearia.value, AccountOf(signup, listed, nome, email, tipo).value.id)))
    // No account: a refusal other than "already registered", or no account with the email on the page.
    ensures Proceeds(old(db.barbearias), tipo, nomeBarbearia, slugBarbearia)
            && AccountOf(signup, listed, nome, email, tipo).None? ==>
      r.Fail? && r.code == 400 && unchanged(db)
    // When the owner's shop cannot be created, an account made here is deleted again.
    ensures (Proceeds(old(db.barbearias), tipo, nomeBarbearia, slugBarbearia) && tipo == "dono"
             && AccountOf(signup, listed, nome, email, tipo).Some?
             && ShopInsertFails(old(db.barbearias), newShopId,
                                ShopSlug(nomeBarbearia.value, AccountOf(signup, listed, nome, email, tipo).value.id))) ==>
      && r == Fail(400, DuplicateKey)
      && db.authUsers == (if signup.Created? then old(db.authUsers) - {signup.id} else old(db.authUsers))
    // An existing account is reused and never deleted.
    ensures signup.Refused? ==> db.authUsers == old(db.authUsers)
    ensures signup.Created? && r.Ok? ==> db.authUsers == old(db.authUsers)[signup.id := account.value]
    ensures r.Fail? ==> db.barbearias == old(db.barbearias) && db.servicos == old(db.servicos)
    ensures r.Fail? ==> db.usuarios == old(db.usuarios)
    // Success.
    ensures r.Ok? ==> r.code == 201 && account.Some? && (r.value.Some? <==> tipo == "dono")
    ensures r.Ok? && tipo == "dono" ==>
      var slug := ShopSlug(nomeBarbearia.value, account.value.id);
      && r.value == Some(slug)
      && db.barbearias == old(db.barbearias)[newShopId := NewShop(nomeBarbearia.value, slug, now)]
      && db.servicos == SeedDefaults(old(db.servicos), newShopId, corteId, barbaId)
      && db.usuarios == InsertProfile(old(db.usuarios), account.value.id, Usuario(Some(newShopId), nome, email, tipo))
    ensures r.Ok? && tipo == "cliente" ==>
      && db.barbearias == old(db.barbearias) && db.servicos == old(db.servicos)
      && db.usuarios == InsertProfile(old(db.usuarios), account.value.id, Usuario(None, nome, email, tipo))
    ensures r.Ok? && tipo == "barbeiro" ==>
      && db.barbearias == old(db.barbearias) && db.servicos == old(db.servicos)
      && exists shop :: shop in PublicController.ShopsWithSlug(old(db.barbearias), slugBarbearia.value)
           && db.usuarios == InsertProfile(old(db.usuarios), account.value.id, Usuario(Some(shop), nome, email, tipo))
  {
    var invalid := ValidationError(tipo, nomeBarbearia, slugBarbearia);
    if invalid.Some? {
      return Fail(400, invalid.value.1), None;
    }

    var barberShop: Option<Id> := None;
    if tipo == "barbeiro" {
      var ids := PublicController.ShopsWithSlug(db.barbearias, slugBarbearia.value);
      if |ids| != 1 {
        return Fail(404, "Barbearia não encontrada com este slug."), None;
      }
      var id :| id in ids;
      barberShop := Some(id);
    }

    var owned := if tipo == "dono" then nomeBarbearia.value else "";
    r, account := Enrol(db, nome, email, tipo, owned, barberShop, signup, listed, newShopId, corteId, barbaId, now);
  }
}
