/**
 * The hosted database that every controller talks to, as in-memory tables,
 * together with the identity provider's accounts and sessions. A table is a
 * map from primary key to row; the row types follow the columns the
 * controllers read and write.
 */
module Tables {
  import opened Wrappers

  /** Primary keys and user ids are strings (the identity provider issues UUIDs). */
  type Id = string

  /** `status` of an appointment row: an open slot, a booking, or any other text. */
  datatype Status = Disponivel | Pendente | OtherStatus(text: string)

  /** A row of `agendamentos`: an open slot (`Disponivel`) or a booking. */
  datatype Agendamento = Agendamento(
    barbeariaId: Option<Id>,
    barbeiroId: Id,
    clienteNome: string,
    clienteId: Option<Id>,
    dataHora: int,             // start time, milliseconds since the epoch
    servicoId: Option<Id>,
    status: Status)

  /** A row of `servicos`; columns the request left out are null. */
  datatype Servico = Servico(
    barbeariaId: Option<Id>,
    nome: Option<string>,
    preco: Option<int>,
    duracaoMinutos: Option<int>)

  /** A row of `barbearias` (a tenant). */
  datatype Barbearia = Barbearia(
    nome: string,
    slug: string,
    plano: string,
    status: string,
    createdAt: int)

  /** A row of `usuarios`: the profile that links an account to a shop and a role. */
  datatype Usuario = Usuario(
    barbeariaId: Option<Id>,
    nome: Option<string>,
    email: string,
    tipo: string)

  /**
   * An account of the identity provider, as its user record is handed to the
   * handlers. The provider keeps the name and role given at sign-up in the
   * account's metadata; `nome` is the record's own top-level `nome`
   * property, which is what the handlers read.
   */
  datatype AuthUser = AuthUser(
    id: Id,
    email: string,
    nome: Option<string>,
    metadataNome: Option<string>,
    metadataTipo: string)

  /** What the authentication middleware attaches to a request it lets through. */
  datatype Caller = Caller(user: AuthUser, barbeariaId: Option<Id>, userType: string)

  /** An HTTP response: a status code with a JSON body, or a status code with an error message. */
  datatype Reply<T> = Ok(code: nat, value: T) | Fail(code: nat, error: string)

  /** The unit body of a `204 No Content` response. */
  datatype NoContent = NoContent

  /** The error message a failing insert reports when its key is already taken. */
  const DuplicateKey := "duplicate key value violates unique constraint"

  /** SQL equality as the `.eq` filter applies it: a null on either side matches nothing. */
  predicate SqlEq<T(==)>(column: Option<T>, value: Option<T>) {
    column.Some? && value.Some? && column.value == value.value
  }

  /** JavaScript truthiness of an optional string taken from a request. */
  predicate Present(s: Option<string>) {
    s.Some? && s.value != ""
  }

  /** JavaScript truthiness of an optional number taken from a request. */
  predicate PresentInt(n: Option<int>) {
    n.Some? && n.value != 0
  }

  /** A booking request names a customer, a time and a service (all three truthy). */
  predicate BookingComplete(clienteNome: Option<string>, dataHora: Option<int>, servicoId: Option<Id>) {
    Present(clienteNome) && dataHora.Some? && Present(servicoId)
  }

  /** The outcome of fetching a slot before a reservation. */
  datatype SlotCheck = SlotFree | SlotRejected(code: nat, error: string)

  /**
   * Both reservation paths fetch the row by id and refuse it with 404 when it
   * is missing and with 409 when it is no longer an open slot.
   */
  function CheckSlot(rows: map<Id, Agendamento>, id: Id): (v: SlotCheck)
    ensures v.SlotFree? <==> id in rows && rows[id].status == Disponivel
    ensures v.SlotRejected? ==> v.code in {404, 409}
    ensures v.SlotRejected? && v.code == 404 <==> id !in rows
  {
    if id !in rows then SlotRejected(404, "Horário não encontrado")
    else if rows[id].status != Disponivel then SlotRejected(409, "Horário já reservado")
    else SlotFree
  }

  /** The hosted database and the identity provider, as the handlers see them. */
  class Db {
    var agendamentos: map<Id, Agendamento>
    var servicos: map<Id, Servico>
    var barbearias: map<Id, Barbearia>
    var usuarios: map<Id, Usuario>
    /** Identity provider: the accounts, by id. */
    var authUsers: map<Id, AuthUser>
    /** Identity provider: the account id each valid bearer token stands for. */
    var sessions: map<string, Id>

    constructor ()
      ensures agendamentos == map[] && servicos == map[] && barbearias == map[]
      ensures usuarios == map[] && authUsers == map[] && sessions == map[]
    {
      agendamentos, servicos, barbearias := map[], map[], map[];
      usuarios, authUsers, sessions := map[], map[], map[];
    }
  }
}
