/**
 * The service catalogue handlers (backend/controllers/servicoController.js).
 * Every query is filtered by the caller's shop, which the authentication
 * middleware attached to the request.
 */
module ServicoController {
  import opened Wrappers
  import opened Tables
  import PublicController

  /** The row a tenant-scoped write may touch: the given id, in the given shop. */
  predicate InScope(rows: map<Id, Servico>, k: Id, id: Id, barbeariaId: Option<Id>)
    requires k in rows
  {
    k == id && SqlEq(rows[k].barbeariaId, barbeariaId)
  }

  /**
   * `list`: exactly the services of the caller's shop, the catalogue the
   * public shop page shows; a caller without a shop matches none.
   */
  function List(rows: map<Id, Servico>, barbeariaId: Option<Id>): (r: map<Id, Servico>)
    ensures forall k :: k in r <==> k in rows && SqlEq(rows[k].barbeariaId, barbeariaId)
    ensures forall k :: k in r ==> r[k] == rows[k]
  {
    if barbeariaId.None? then map[] else PublicController.ServicesOf(rows, barbeariaId.value)
  }

  /** The duration a new service gets: the one requested, or 30 minutes when it is missing or zero. */
  function DefaultDuration(duracaoMinutos: Option<int>): (d: int)
    ensures PresentInt(duracaoMinutos) ==> d == duracaoMinutos.value
    ensures !PresentInt(duracaoMinutos) ==> d == 30
    ensures d != 0
  {
    if PresentInt(duracaoMinutos) then duracaoMinutos.value else 30
  }

  /**
   * `create`: one row for the caller's shop under the new key, with the
   * requested name and price and the defaulted duration; 400 when the key is
   * already taken.
   */
  method Create(db: Db, caller: Caller, nome: Option<string>, preco: Option<int>, duracaoMinutos: Option<int>, newId: Id)
    returns (r: Reply<Servico>)
    modifies db`servicos
    ensures newId in old(db.servicos) ==> r == Fail(400, "Erro ao criar serviço") && db.servicos == old(db.servicos)
    ensures newId !in old(db.servicos) ==>
      && r == Ok(201, Servico(caller.barbeariaId, nome, preco, Some(DefaultDuration(duracaoMinutos))))
      && db.servicos == old(db.servicos)[newId := r.value]
  {
    if newId in db.servicos {
      return Fail(400, "Erro ao criar serviço");
    }
    var row := Servico(caller.barbeariaId, nome, preco, Some(DefaultDuration(duracaoMinutos)));
    db.servicos := db.servicos[newId := row];
    return Ok(201, row);
  }

  /** Deletes at most the service with this id in this shop; every other row stays. */
  function DeleteScoped(rows: map<Id, Servico>, id: Id, barbeariaId: Option<Id>): (r: map<Id, Servico>)
    ensures forall k :: k in r <==> k in rows && !InScope(rows, k, id, barbeariaId)
    ensures forall k :: k in r ==> r[k] == rows[k]
  {
    map k | k in rows && !InScope(rows, k, id, barbeariaId) :: rows[k]
  }

  /** `delete`: removes the service only when both its id and the caller's shop match; always 204. */
  method Delete(db: Db, caller: Caller, id: Id) returns (r: Reply<NoContent>)
    modifies db`servicos
    ensures r == Ok(204, NoContent)
    ensures db.servicos == DeleteScoped(old(db.servicos), id, caller.barbeariaId)
  {
    db.servicos := DeleteScoped(db.servicos, id, caller.barbeariaId);
    return Ok(204, NoContent);
  }

  /** The fields an update request may carry; `None` is a field the request left out. */
  datatype ServicoPatch = ServicoPatch(nome: Option<string>, preco: Option<int>, duracaoMinutos: Option<int>)

  /**
   * The row after an update: each field the request carries replaces the
   * column as given (no 30-minute default here); the shop never changes.
   */
  function ApplyPatch(row: Servico, p: ServicoPatch): (r: Servico)
    ensures r.barbeariaId == row.barbeariaId
    ensures r.nome == (if p.nome.Some? then p.nome else row.nome)
    ensures r.preco == (if p.preco.Some? then p.preco else row.preco)
    ensures r.duracaoMinutos == (if p.duracaoMinutos.Some? then p.duracaoMinutos else row.duracaoMinutos)
  {
    Servico(
      row.barbeariaId,
      if p.nome.Some? then p.nome else row.nome,
      if p.preco.Some? then p.preco else row.preco,
      if p.duracaoMinutos.Some? then p.duracaoMinutos else row.duracaoMinutos)
  }

  /** Updates at most the service with this id in this shop; every other row stays. */
  function UpdateScoped(rows: map<Id, Servico>, id: Id, barbeariaId: Option<Id>, p: ServicoPatch): (r: map<Id, Servico>)
    ensures r.Keys == rows.Keys
    ensures forall k :: k in rows && !InScope(rows, k, id, barbeariaId) ==> r[k] == rows[k]
    ensures id in rows && InScope(rows, id, id, barbeariaId) ==> r[id] == ApplyPatch(rows[id], p)
  {
    if id in rows && SqlEq(rows[id].barbeariaId, barbeariaId) then rows[id := ApplyPatch(rows[id], p)]
    else rows
  }

  /** `update`: 200 with the updated service, or with no body when no service of the caller's shop has the id. */
  method Update(db: Db, caller: Caller, id: Id, p: ServicoPatch) returns (r: Reply<Option<Servico>>)
    modifies db`servicos
    ensures db.servicos == UpdateScoped(old(db.servicos), id, caller.barbeariaId, p)
    ensures id in old(db.servicos) && InScope(old(db.servicos), id, id, caller.barbeariaId) ==>
      r == Ok(200, Some(ApplyPatch(old(db.servicos)[id], p)))
    ensures !(id in old(db.servicos) && InScope(old(db.servicos), id, id, caller.barbeariaId)) ==>
      r == Ok(200, None)
  {
    if id in db.servicos && SqlEq(db.servicos[id].barbeariaId, caller.barbeariaId) {
      var row := ApplyPatch(db.servicos[id], p);
      db.servicos := db.servicos[id := row];
      return Ok(200, Some(row));
    }
    return Ok(200, None);
  }

  /** A create, delete or update by one shop leaves every other shop's catalogue as it was. */
  lemma WritesInvisibleToOtherShops(
    rows: map<Id, Servico>, id: Id, newId: Id, row: Servico, p: ServicoPatch, mine: Option<Id>, other: Option<Id>)
    requires other != mine && row.barbeariaId == mine && newId !in rows
    ensures List(rows[newId := row], other) == List(rows, other)
    ensures List(DeleteScoped(rows, id, mine), other) == List(rows, other)
    ensures List(UpdateScoped(rows, id, mine, p), other) == List(rows, other)
  {
    assert List(rows[newId := row], other).Keys == List(rows, other).Keys;
    assert List(DeleteScoped(rows, id, mine), other).Keys == List(rows, other).Keys;
    assert List(UpdateScoped(rows, id, mine, p), other).Keys == List(rows, other).Keys;
  }
}
