/**
 * The unauthenticated booking surface (backend/controllers/publicController.js):
 * looking a shop up by slug, listing its open slots, booking directly, and
 * reserving an open slot, which also deletes the same barber's open slots
 * that the new booking overlaps. These handlers use the service credentials,
 * so no tenant filter is applied beyond the ones written in the queries.
 */
module PublicController {
  import opened Wrappers
  import opened Tables

  // ---------------------------------------------------------------------
  // getBarbeariaBySlug
  // ---------------------------------------------------------------------

  /** The public view of a shop: its id, name, slug and service catalogue. */
  datatype PublicShop = PublicShop(id: Id, nome: string, slug: string, servicos: map<Id, Servico>)

  function ShopsWithSlug(barbearias: map<Id, Barbearia>, slug: string): set<Id> {
    set k | k in barbearias && barbearias[k].slug == slug
  }

  /** The services whose `barbearia_id` is the given shop. */
  function ServicesOf(servicos: map<Id, Servico>, shopId: Id): (r: map<Id, Servico>)
    ensures forall k :: k in r <==> k in servicos && SqlEq(servicos[k].barbeariaId, Some(shopId))
    ensures forall k :: k in r ==> r[k] == servicos[k]
  {
    map k | k in servicos && SqlEq(servicos[k].barbeariaId, Some(shopId)) :: servicos[k]
  }

  lemma SingletonUnique<T>(s: set<T>)
    requires |s| == 1
    ensures forall a, b :: a in s && b in s ==> a == b
  {
    var x :| x in s;
    assert |s - {x}| == 0;
    assert s == {x};
  }

  /**
   * A single-row lookup by slug: it answers 200 with the shop and its
   * services when exactly one shop has the slug, and 404 otherwise (no shop,
   * or several, which the single-row lookup also refuses).
   */
  function GetBarbeariaBySlug(barbearias: map<Id, Barbearia>, servicos: map<Id, Servico>, slug: string)
    : (r: Reply<PublicShop>)
    ensures r.Ok? <==> |ShopsWithSlug(barbearias, slug)| == 1
    ensures r.Fail? ==> r.code == 404
    ensures r.Ok? ==>
      && r.code == 200
      && r.value.id in barbearias
      && r.value.slug == slug == barbearias[r.value.id].slug
      && r.value.nome == barbearias[r.value.id].nome
      && r.value.servicos == ServicesOf(servicos, r.value.id)
  {
    var ids := ShopsWithSlug(barbearias, slug);
    if |ids| != 1 then Fail(404, "Barbearia não encontrada")
    else
      SingletonUnique(ids);
      var id :| id in ids;
      Ok(200, PublicShop(id, barbearias[id].nome, slug, ServicesOf(servicos, id)))
  }

  /** A shop whose slug no other shop shares is always found by it. */
  lemma UniqueSlugIsFound(barbearias: map<Id, Barbearia>, servicos: map<Id, Servico>, id: Id)
    requires id in barbearias
    requires forall k :: k in barbearias && k != id ==> barbearias[k].slug != barbearias[id].slug
    ensures GetBarbeariaBySlug(barbearias, servicos, barbearias[id].slug).Ok?
    ensures GetBarbeariaBySlug(barbearias, servicos, barbearias[id].slug).value.id == id
  {
    assert ShopsWithSlug(barbearias, barbearias[id].slug) == {id};
  }

  // ---------------------------------------------------------------------
  // createAgendamento: direct booking without an open slot
  // ---------------------------------------------------------------------

  /** A profile that belongs to the shop with role `dono` or `barbeiro`. */
  predicate IsStaffOf(usuarios: map<Id, Usuario>, uid: Id, barbeariaId: Option<Id>) {
    uid in usuarios && SqlEq(usuarios[uid].barbeariaId, barbeariaId)
    && usuarios[uid].tipo in {"dono", "barbeiro"}
  }

  /** Some profile of the shop is staff. */
  ghost predicate HasStaff(usuarios: map<Id, Usuario>, barbeariaId: Option<Id>) {
    exists u :: IsStaffOf(usuarios, u, barbeariaId)
  }

  /**
   * Books directly: refuses a request missing the customer name, the time or
   * the service (400), or a shop with no staff member (400); otherwise
   * inserts one `pendente` booking under the new key, assigned to some staff
   * member of the shop (which one the database picks is not specified).
   */
  method CreateAgendamento(
    db: Db, barbeariaId: Option<Id>, clienteNome: Option<string>, dataHora: Option<int>,
    servicoId: Option<Id>, newId: Id)
    returns (r: Reply<string>)
    modifies db`agendamentos
    ensures !BookingComplete(clienteNome, dataHora, servicoId) ==>
      r == Fail(400, "Dados incompletos") && db.agendamentos == old(db.agendamentos)
    ensures BookingComplete(clienteNome, dataHora, servicoId) && !HasStaff(db.usuarios, barbeariaId) ==>
      r == Fail(400, "Nenhum barbeiro disponível nesta unidade.") && db.agendamentos == old(db.agendamentos)
    ensures r.Fail? ==> r.code == 400 && db.agendamentos == old(db.agendamentos)
    ensures r.Ok? <==>
      BookingComplete(clienteNome, dataHora, servicoId) && HasStaff(db.usuarios, barbeariaId)
      && newId !in old(db.agendamentos)
    ensures r.Ok? ==>
      && r == Ok(201, "Agendado com sucesso!")
      && newId in db.agendamentos
      && db.agendamentos == old(db.agendamentos)[newId := db.agendamentos[newId]]
      && IsStaffOf(db.usuarios, db.agendamentos[newId].barbeiroId, barbeariaId)
      && db.agendamentos[newId] == Agendamento(barbeariaId, db.agendamentos[newId].barbeiroId,
           clienteNome.value, None, dataHora.value, servicoId, Pendente)
  {
    if !Present(clienteNome) || dataHora.None? || !Present(servicoId) {
      return Fail(400, "Dados incompletos");
    }
    var staff := set u | u in db.usuarios && IsStaffOf(db.usuarios, u, barbeariaId);
    if staff == {} {
      assert !HasStaff(db.usuarios, barbeariaId) by {
        forall u | IsStaffOf(db.usuarios, u, barbeariaId) ensures u in staff { }
      }
      return Fail(400, "Nenhum barbeiro disponível nesta unidade.");
    }
    var barbeiro :| barbeiro in staff;
    if newId in db.agendamentos {
      return Fail(400, "Erro ao agendar.");
    }
    db.agendamentos := db.agendamentos[newId :=
      Agendamento(barbeariaId, barbeiro, clienteNome.value, None, dataHora.value, servicoId, Pendente)];
    return Ok(201, "Agendado com sucesso!");
  }

  // ---------------------------------------------------------------------
  // getDisponibilidade
  // ---------------------------------------------------------------------

  /** One open slot as the listing shows it, joined with the barber's profile name. */
  datatype OpenSlot = OpenSlot(dataHora: int, barbeiroId: Id, barbeiroNome: Option<string>)

  /** The rows the listing selects: the shop's open slots that start strictly after `now`. */
  predicate IsListedSlot(row: Agendamento, barbeariaId: Id, now: int) {
    SqlEq(row.barbeariaId, Some(barbeariaId)) && row.status == Disponivel && row.dataHora > now
  }

  function BarberName(usuarios: map<Id, Usuario>, barbeiroId: Id): Option<string> {
    if barbeiroId in usuarios then usuarios[barbeiroId].nome else None
  }

  /** The open slots of a shop that start after `now`, keyed by slot id. */
  function GetDisponibilidade(rows: map<Id, Agendamento>, usuarios: map<Id, Usuario>, barbeariaId: Id, now: int)
    : (r: map<Id, OpenSlot>)
    ensures forall k :: k in r <==> k in rows && IsListedSlot(rows[k], barbeariaId, now)
    ensures forall k :: k in r ==>
      && r[k].dataHora == rows[k].dataHora > now
      && r[k].barbeiroId == rows[k].barbeiroId
      && r[k].barbeiroNome == BarberName(usuarios, rows[k].barbeiroId)
  {
    map k | k in rows && IsListedSlot(rows[k], barbeariaId, now) ::
      OpenSlot(rows[k].dataHora, rows[k].barbeiroId, BarberName(usuarios, rows[k].barbeiroId))
  }

  // ---------------------------------------------------------------------
  // reservarAgendamento: reserve an open slot, then delete overlapping open slots
  // ---------------------------------------------------------------------

  /** The service's duration in minutes, or 30 when it is null or zero. */
  function EffectiveDuration(duracaoMinutos: Option<int>): (m: int)
    ensures PresentInt(duracaoMinutos) ==> m == duracaoMinutos.value
    ensures !PresentInt(duracaoMinutos) ==> m == 30
  {
    if PresentInt(duracaoMinutos) then duracaoMinutos.value else 30
  }

  /** The slot after the reservation's update: customer name, service and `pendente`. */
  function Booked(slot: Agendamento, clienteNome: Option<string>, servicoId: Id): (b: Agendamento)
    ensures b.status == Pendente && b.servicoId == Some(servicoId)
    ensures clienteNome.Some? ==> b.clienteNome == clienteNome.value
    ensures clienteNome.None? ==> b.clienteNome == slot.clienteNome
    ensures b.barbeariaId == slot.barbeariaId && b.barbeiroId == slot.barbeiroId
    ensures b.dataHora == slot.dataHora && b.clienteId == slot.clienteId
  {
    slot.(clienteNome := clienteNome.GetOr(slot.clienteNome), servicoId := Some(servicoId), status := Pendente)
  }

  /**
   * The rows the clean-up deletes: open slots of the same shop and the same
   * barber that start between one second after the reserved slot and the
   * end of the booked service, the end excluded.
   */
  predicate InConflictWindow(row: Agendamento, slot: Agendamento, duracao: int) {
    && SqlEq(row.barbeariaId, slot.barbeariaId)
    && row.barbeiroId == slot.barbeiroId
    && row.status == Disponivel
    && slot.dataHora + 1000 <= row.dataHora < slot.dataHora + duracao * 60000
  }

  /** The bulk delete: no row of the window is left, and every other row stays as it was. */
  function DeleteConflicts(rows: map<Id, Agendamento>, slot: Agendamento, duracao: int)
    : (r: map<Id, Agendamento>)
    ensures forall k :: k in r ==> k in rows && r[k] == rows[k]
    ensures forall k :: k in r ==> !InConflictWindow(r[k], slot, duracao)
    ensures forall k :: k in rows && !InConflictWindow(rows[k], slot, duracao) ==> k in r
  {
    map k | k in rows && !InConflictWindow(rows[k], slot, duracao) :: rows[k]
  }

  /**
   * Reserves the open slot `id` for `clienteNome` and `servicoId`: 404 when
   * the slot is missing, 409 when it is not open, 400 when the service does
   * not exist; all three leave the table as it was. Otherwise the slot is
   * booked with the service's duration (30 minutes by default), and the same
   * barber's open slots inside the booked interval are deleted.
   */
  method ReservarAgendamento(db: Db, id: Id, clienteNome: Option<string>, servicoId: Option<Id>)
    returns (r: Reply<Agendamento>)
    modifies db`agendamentos
    ensures CheckSlot(old(db.agendamentos), id).SlotRejected? ==>
      && r == Fail(CheckSlot(old(db.agendamentos), id).code, CheckSlot(old(db.agendamentos), id).error)
      && db.agendamentos == old(db.agendamentos)
    ensures CheckSlot(old(db.agendamentos), id).SlotFree? && !(servicoId.Some? && servicoId.value in db.servicos) ==>
      r == Fail(400, "Serviço inválido") && db.agendamentos == old(db.agendamentos)
    ensures r.Ok? <==>
      CheckSlot(old(db.agendamentos), id).SlotFree? && servicoId.Some? && servicoId.value in db.servicos
    ensures r.Ok? ==>
      var slot := old(db.agendamentos)[id];
      var duracao := EffectiveDuration(db.servicos[servicoId.value].duracaoMinutos);
      && r.code == 200
      && r.value == Booked(slot, clienteNome, servicoId.value)
      && db.agendamentos == DeleteConflicts(old(db.agendamentos)[id := r.value], slot, duracao)
      && id in db.agendamentos && db.agendamentos[id] == r.value
  {
    var check := CheckSlot(db.agendamentos, id);
    if check.SlotRejected? {
      return Fail(check.code, check.error);
    }
    var slot := db.agendamentos[id];
    if servicoId.None? || servicoId.value !in db.servicos {
      return Fail(400, "Serviço inválido");
    }
    var duracao := EffectiveDuration(db.servicos[servicoId.value].duracaoMinutos);
    var booked := Booked(slot, clienteNome, servicoId.value);
    db.agendamentos := db.agendamentos[id := booked];
    db.agendamentos := DeleteConflicts(db.agendamentos, slot, duracao);
    r := Ok(200, booked);
  }

  /** A reserved slot is no longer open: a second reservation of it answers 409. */
  lemma SecondReservationConflicts(
    rows: map<Id, Agendamento>, id: Id, clienteNome: Option<string>, servicoId: Id, duracao: int)
    requires CheckSlot(rows, id).SlotFree?
    ensures CheckSlot(DeleteConflicts(rows[id := Booked(rows[id], clienteNome, servicoId)], rows[id], duracao), id)
      == SlotRejected(409, "Horário já reservado")
  {
    var booked := Booked(rows[id], clienteNome, servicoId);
    assert !InConflictWindow(booked, rows[id], duracao);
  }

  /**
   * The window starts one second after the reserved slot, so another open
   * slot of the same barber at the very same instant is not deleted, and
   * neither is one that starts earlier and runs into the booking.
   */
  lemma WindowSparesSameAndEarlierStarts(row: Agendamento, slot: Agendamento, duracao: int)
    requires row.dataHora <= slot.dataHora
    ensures !InConflictWindow(row, slot, duracao)
  {
  }

  /**
   * What a reservation does to the public listing of the slot's shop: the
   * reserved slot and the open slots of its conflict window disappear, and
   * every other listed slot is still listed, unchanged.
   */
  lemma ReservationUpdatesListing(
    rows: map<Id, Agendamento>, usuarios: map<Id, Usuario>, id: Id, clienteNome: Option<string>,
    servicoId: Id, duracao: int, barbeariaId: Id, now: int)
    requires CheckSlot(rows, id).SlotFree?
    ensures var after := DeleteConflicts(rows[id := Booked(rows[id], clienteNome, servicoId)], rows[id], duracao);
      var before := GetDisponibilidade(rows, usuarios, barbeariaId, now);
      var listed := GetDisponibilidade(after, usuarios, barbeariaId, now);
      && id !in listed
      && (forall k :: k in listed <==> k in before && k != id && !InConflictWindow(rows[k], rows[id], duracao))
      && (forall k :: k in listed ==> listed[k] == before[k])
  {
  }
}
