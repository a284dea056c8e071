/**
 * The authenticated appointment handlers (backend/controllers/agendamentoController.js).
 * Each receives the `Caller` the authentication middleware attached to the
 * request. The list, create, update, delete and slot handlers filter
 * explicitly by the caller's shop or by the caller's own id; `Reservar`
 * fetches and updates the slot by id alone.
 */
module AgendamentoController {
  import opened Wrappers
  import opened Tables
  import PublicController

  // ---------------------------------------------------------------------
  // list
  // ---------------------------------------------------------------------

  /**
   * The extra filter for a customer: rows whose `cliente_id` is the caller,
   * or, when the caller's record carries a name, rows booked under that name.
   */
  predicate CustomerMatch(row: Agendamento, user: AuthUser) {
    if Present(user.nome) then SqlEq(row.clienteId, Some(user.id)) || row.clienteNome == user.nome.value
    else SqlEq(row.clienteId, Some(user.id))
  }

  /** The rows a caller's listing selects. */
  predicate VisibleTo(row: Agendamento, caller: Caller) {
    SqlEq(row.barbeariaId, caller.barbeariaId)
    && (caller.userType == "cliente" ==> CustomerMatch(row, caller.user))
  }

  /**
   * `list`: the caller's shop's appointments and, for a customer, only the
   * customer's own (by id, or by name when the caller has one).
   */
  function List(rows: map<Id, Agendamento>, caller: Caller): (r: map<Id, Agendamento>)
    ensures forall k :: k in r ==> k in rows && r[k] == rows[k]
    ensures forall k :: k in r ==> SqlEq(r[k].barbeariaId, caller.barbeariaId)
    ensures caller.userType == "cliente" ==> forall k :: k in r ==>
      SqlEq(r[k].clienteId, Some(caller.user.id))
      || (Present(caller.user.nome) && r[k].clienteNome == caller.user.nome.value)
    ensures forall k :: k in rows && VisibleTo(rows[k], caller) ==> k in r
  {
    map k | k in rows && VisibleTo(rows[k], caller) :: rows[k]
  }

  /** A caller whose profile has no shop (a customer) gets an empty listing. */
  lemma CallerWithoutShopSeesNothing(rows: map<Id, Agendamento>, caller: Caller)
    requires caller.barbeariaId.None?
    ensures List(rows, caller) == map[]
  {
    assert List(rows, caller).Keys == {};
  }

  /**
   * The name-based match lets two different customers with the same name
   * see each other's name-matched bookings.
   */
  lemma SameNameCustomersShareBookings(rows: map<Id, Agendamento>, k: Id, a: Caller, b: Caller)
    requires k in rows && SqlEq(rows[k].barbeariaId, a.barbeariaId) && a.barbeariaId == b.barbeariaId
    requires a.userType == b.userType == "cliente" && a.user.id != b.user.id
    requires Present(a.user.nome) && a.user.nome == b.user.nome && rows[k].clienteNome == a.user.nome.value
    ensures k in List(rows, a) && k in List(rows, b)
  {
  }

  // ---------------------------------------------------------------------
  // create
  // ---------------------------------------------------------------------

  /**
   * `create`: 400 without inserting when the customer name, the time or the
   * service is missing; otherwise one `pendente` row for the caller's shop,
   * assigned to the caller, under the new key.
   */
  method Create(
    db: Db, caller: Caller, clienteNome: Option<string>, dataHora: Option<int>, servicoId: Option<Id>, newId: Id)
    returns (r: Reply<Agendamento>)
    modifies db`agendamentos
    ensures !BookingComplete(clienteNome, dataHora, servicoId) ==>
      r == Fail(400, "Todos os campos são obrigatórios") && db.agendamentos == old(db.agendamentos)
    ensures BookingComplete(clienteNome, dataHora, servicoId) && newId in old(db.agendamentos) ==>
      r == Fail(400, "Erro ao criar agendamento") && db.agendamentos == old(db.agendamentos)
    ensures r.Ok? <==> BookingComplete(clienteNome, dataHora, servicoId) && newId !in old(db.agendamentos)
    ensures r.Ok? ==>
      && r == Ok(201, Agendamento(caller.barbeariaId, caller.user.id, clienteNome.value, None,
                                  dataHora.value, servicoId, Pendente))
      && db.agendamentos == old(db.agendamentos)[newId := r.value]
  {
    if !Present(clienteNome) || dataHora.None? || !Present(servicoId) {
      return Fail(400, "Todos os campos são obrigatórios");
    }
    if newId in db.agendamentos {
      return Fail(400, "Erro ao criar agendamento");
    }
    var row := Agendamento(caller.barbeariaId, caller.user.id, clienteNome.value, None,
                           dataHora.value, servicoId, Pendente);
    db.agendamentos := db.agendamentos[newId := row];
    return Ok(201, row);
  }

  // ---------------------------------------------------------------------
  // delete
  // ---------------------------------------------------------------------

  /** The row a tenant-scoped write may touch: the given id, in the given shop. */
  predicate InScope(rows: map<Id, Agendamento>, k: Id, id: Id, barbeariaId: Option<Id>)
    requires k in rows
  {
    k == id && SqlEq(rows[k].barbeariaId, barbeariaId)
  }

  /** Deletes at most the row with this id in this shop; every other row stays. */
  function DeleteScoped(rows: map<Id, Agendamento>, id: Id, barbeariaId: Option<Id>): (r: map<Id, Agendamento>)
    ensures forall k :: k in r <==> k in rows && !InScope(rows, k, id, barbeariaId)
    ensures forall k :: k in r ==> r[k] == rows[k]
  {
    map k | k in rows && !InScope(rows, k, id, barbeariaId) :: rows[k]
  }

  /** `delete`: removes the row only when both its id and the caller's shop match; always 204. */
  method Delete(db: Db, caller: Caller, id: Id) returns (r: Reply<NoContent>)
    modifies db`agendamentos
    ensures r == Ok(204, NoContent)
    ensures db.agendamentos == DeleteScoped(old(db.agendamentos), id, caller.barbeariaId)
  {
    db.agendamentos := DeleteScoped(db.agendamentos, id, caller.barbeariaId);
    return Ok(204, NoContent);
  }

  /** Whatever id a caller deletes, no other shop's listing changes. */
  lemma DeleteInvisibleToOtherShops(rows: map<Id, Agendamento>, id: Id, caller: Caller, other: Caller)
    requires other.barbeariaId != caller.barbeariaId
    ensures List(DeleteScoped(rows, id, caller.barbeariaId), other) == List(rows, other)
  {
    var after := DeleteScoped(rows, id, caller.barbeariaId);
    assert List(after, other).Keys == List(rows, other).Keys;
  }

  // ---------------------------------------------------------------------
  // update
  // ---------------------------------------------------------------------

  /** The fields an update request may carry; `None` is a field the request left out. */
  datatype AgendamentoPatch = AgendamentoPatch(
    clienteNome: Option<string>,
    dataHora: Option<int>,
    servicoId: Option<Id>,
    status: Option<Status>,
    barbeiroId: Option<Id>)

  /**
   * The row after an update: each field the request carries replaces the
   * column, except `barbeiro_id`, which is replaced only by a non-empty id;
   * the shop and the customer id never change.
   */
  function ApplyPatch(row: Agendamento, p: AgendamentoPatch): (r: Agendamento)
    ensures r.barbeariaId == row.barbeariaId && r.clienteId == row.clienteId
    ensures r.clienteNome == p.clienteNome.GetOr(row.clienteNome)
    ensures r.dataHora == p.dataHora.GetOr(row.dataHora)
    ensures r.servicoId == (if p.servicoId.Some? then p.servicoId else row.servicoId)
    ensures r.status == p.status.GetOr(row.status)
    ensures Present(p.barbeiroId) ==> r.barbeiroId == p.barbeiroId.value
    ensures !Present(p.barbeiroId) ==> r.barbeiroId == row.barbeiroId
  {
    Agendamento(
      row.barbeariaId,
      if Present(p.barbeiroId) then p.barbeiroId.value else row.barbeiroId,
      p.clienteNome.GetOr(row.clienteNome),
      row.clienteId,
      p.dataHora.GetOr(row.dataHora),
      if p.servicoId.Some? then p.servicoId else row.servicoId,
      p.status.GetOr(row.status))
  }

  /** Updates at most the row with this id in this shop; every other row stays. */
  function UpdateScoped(rows: map<Id, Agendamento>, id: Id, barbeariaId: Option<Id>, p: AgendamentoPatch)
    : (r: map<Id, Agendamento>)
    ensures r.Keys == rows.Keys
    ensures forall k :: k in rows && !InScope(rows, k, id, barbeariaId) ==> r[k] == rows[k]
    ensures id in rows && InScope(rows, id, id, barbeariaId) ==> r[id] == ApplyPatch(rows[id], p)
  {
    if id in rows && SqlEq(rows[id].barbeariaId, barbeariaId) then rows[id := ApplyPatch(rows[id], p)]
    else rows
  }

  /** `update`: 200 with the updated row, or with no body when no row of the caller's shop has the id. */
  method Update(db: Db, caller: Caller, id: Id, p: AgendamentoPatch) returns (r: Reply<Option<Agendamento>>)
    modifies db`agendamentos
    ensures db.agendamentos == UpdateScoped(old(db.agendamentos), id, caller.barbeariaId, p)
    ensures id in old(db.agendamentos) && InScope(old(db.agendamentos), id, id, caller.barbeariaId) ==>
      r == Ok(200, Some(ApplyPatch(old(db.agendamentos)[id], p)))
    ensures !(id in old(db.agendamentos) && InScope(old(db.agendamentos), id, id, caller.barbeariaId)) ==>
      r == Ok(200, None)
  {
    if id in db.agendamentos && SqlEq(db.agendamentos[id].barbeariaId, caller.barbeariaId) {
      var row := ApplyPatch(db.agendamentos[id], p);
      db.agendamentos := db.agendamentos[id := row];
      return Ok(200, Some(row));
    }
    return Ok(200, None);
  }

  /** Whatever a caller updates, no other shop's listing changes. */
  lemma UpdateInvisibleToOtherShops(
    rows: map<Id, Agendamento>, id: Id, p: AgendamentoPatch, caller: Caller, other: Caller)
    requires other.barbeariaId != caller.barbeariaId
    ensures List(UpdateScoped(rows, id, caller.barbeariaId, p), other) == List(rows, other)
  {
    var after := UpdateScoped(rows, id, caller.barbeariaId, p);
    assert List(after, other).Keys == List(rows, other).Keys;
  }

  // ---------------------------------------------------------------------
  // reservar
  // ---------------------------------------------------------------------

  /**
   * The slot after an authenticated reservation: `pendente`, the caller as
   * customer id, the caller's name when the caller's record has one, and the
   * requested service when the request names one.
   */
  function ReservedBy(slot: Agendamento, user: AuthUser, servicoId: Option<Id>): (b: Agendamento)
    ensures b.status == Pendente && b.clienteId == Some(user.id)
    ensures b.clienteNome == user.nome.GetOr(slot.clienteNome)
    ensures b.servicoId == (if servicoId.Some? then servicoId else slot.servicoId)
    ensures b.barbeariaId == slot.barbeariaId && b.barbeiroId == slot.barbeiroId && b.dataHora == slot.dataHora
  {
    slot.(clienteNome := user.nome.GetOr(slot.clienteNome),
          servicoId := if servicoId.Some? then servicoId else slot.servicoId,
          status := Pendente,
          clienteId := Some(user.id))
  }

  /** `reservar`: 404 for a missing slot, 409 for one that is not open; otherwise the slot is booked. */
  method Reservar(db: Db, caller: Caller, id: Id, servicoId: Option<Id>) returns (r: Reply<Agendamento>)
    modifies db`agendamentos
    ensures CheckSlot(old(db.agendamentos), id).SlotRejected? ==>
      && r == Fail(CheckSlot(old(db.agendamentos), id).code, CheckSlot(old(db.agendamentos), id).error)
      && db.agendamentos == old(db.agendamentos)
    ensures r.Ok? <==> CheckSlot(old(db.agendamentos), id).SlotFree?
    ensures r.Ok? ==>
      && r == Ok(200, ReservedBy(old(db.agendamentos)[id], caller.user, servicoId))
      && db.agendamentos == old(db.agendamentos)[id := r.value]
  {
    var check := CheckSlot(db.agendamentos, id);
    if check.SlotRejected? {
      return Fail(check.code, check.error);
    }
    var row := ReservedBy(db.agendamentos[id], caller.user, servicoId);
    db.agendamentos := db.agendamentos[id := row];
    return Ok(200, row);
  }

  /** A slot reserved here is no longer open: reserving it again answers 409. */
  lemma ReservedSlotIsTaken(rows: map<Id, Agendamento>, id: Id, user: AuthUser, servicoId: Option<Id>)
    requires CheckSlot(rows, id).SlotFree?
    ensures CheckSlot(rows[id := ReservedBy(rows[id], user, servicoId)], id) == SlotRejected(409, "Horário já reservado")
  {
    assert ReservedBy(rows[id], user, servicoId).status == Pendente;
  }

  /**
   * The identity provider's user record keeps the sign-up name in its
   * metadata, not in a top-level `nome`, so a reservation by such an account
   * leaves the slot's placeholder customer name `Livre` in place.
   */
  lemma ReservationKeepsPlaceholderName(caller: Caller, dataHora: int, user: AuthUser, servicoId: Option<Id>)
    requires user.nome.None?
    ensures ReservedBy(OpenSlotRow(caller, dataHora), user, servicoId).clienteNome == "Livre"
  {
  }

  // ---------------------------------------------------------------------
  // createDisponibilidade
  // ---------------------------------------------------------------------

  /** The open slot a barber offers: placeholder customer `Livre`, no service, no customer id. */
  function OpenSlotRow(caller: Caller, dataHora: int): (s: Agendamento)
    ensures s.status == Disponivel && s.servicoId.None? && s.clienteId.None? && s.clienteNome == "Livre"
    ensures s.barbeariaId == caller.barbeariaId && s.barbeiroId == caller.user.id && s.dataHora == dataHora
  {
    Agendamento(caller.barbeariaId, caller.user.id, "Livre", None, dataHora, None, Disponivel)
  }

  /**
   * `createDisponibilidade`: 400 without inserting when the time is missing
   * or earlier than `now`; otherwise one open slot under the new key.
   */
  method CreateDisponibilidade(db: Db, caller: Caller, dataHora: Option<int>, now: int, newId: Id)
    returns (r: Reply<Agendamento>)
    modifies db`agendamentos
    ensures dataHora.None? ==>
      r == Fail(400, "Data e hora são obrigatórios") && db.agendamentos == old(db.agendamentos)
    ensures dataHora.Some? && dataHora.value < now ==>
      && r == Fail(400, "Não é possível disponibilizar horários no passado.")
      && db.agendamentos == old(db.agendamentos)
    ensures r.Fail? ==> r.code == 400 && db.agendamentos == old(db.agendamentos)
    ensures r.Ok? <==> dataHora.Some? && dataHora.value >= now && newId !in old(db.agendamentos)
    ensures r.Ok? ==>
      r == Ok(201, OpenSlotRow(caller, dataHora.value)) && db.agendamentos == old(db.agendamentos)[newId := r.value]
  {
    if dataHora.None? {
      return Fail(400, "Data e hora são obrigatórios");
    }
    if dataHora.value < now {
      return Fail(400, "Não é possível disponibilizar horários no passado.");
    }
    if newId in db.agendamentos {
      return Fail(400, "Erro ao criar horário");
    }
    var row := OpenSlotRow(caller, dataHora.value);
    db.agendamentos := db.agendamentos[newId := row];
    return Ok(201, row);
  }

  /**
   * A slot offered for a time after the listing's clock shows up in the
   * shop's public availability listing; one offered for exactly the
   * creation time is accepted but is never listed at that time.
   */
  lemma OfferedSlotIsListed(
    rows: map<Id, Agendamento>, usuarios: map<Id, Usuario>, caller: Caller, shop: Id,
    newId: Id, dataHora: int, now: int)
    requires caller.barbeariaId == Some(shop)
    ensures dataHora > now ==>
      newId in PublicController.GetDisponibilidade(rows[newId := OpenSlotRow(caller, dataHora)], usuarios, shop, now)
    ensures dataHora == now ==>
      newId !in PublicController.GetDisponibilidade(rows[newId := OpenSlotRow(caller, dataHora)], usuarios, shop, now)
  {
  }

  // ---------------------------------------------------------------------
  // deleteDisponibilidade
  // ---------------------------------------------------------------------

  /** Deletes the row only when it is an open slot of this barber; bookings and other barbers' slots stay. */
  function DeleteOwnOpenSlot(rows: map<Id, Agendamento>, id: Id, barbeiroId: Id): (r: map<Id, Agendamento>)
    ensures forall k :: k in r ==> k in rows && r[k] == rows[k]
    ensures forall k :: k in rows && k != id ==> k in r
    ensures id in rows ==> (id in r <==> rows[id].barbeiroId != barbeiroId || rows[id].status != Disponivel)
  {
    map k | k in rows && !(k == id && rows[k].barbeiroId == barbeiroId && rows[k].status == Disponivel) :: rows[k]
  }

  /** `deleteDisponibilidade`: removes the caller's own open slot with this id, if any; always 204. */
  method DeleteDisponibilidade(db: Db, caller: Caller, id: Id) returns (r: Reply<NoContent>)
    modifies db`agendamentos
    ensures r == Ok(204, NoContent)
    ensures db.agendamentos == DeleteOwnOpenSlot(old(db.agendamentos), id, caller.user.id)
  {
    db.agendamentos := DeleteOwnOpenSlot(db.agendamentos, id, caller.user.id);
    return Ok(204, NoContent);
  }
}
