# Barbershop booking backend — a verified model

This project models the back end of a multi-tenant barbershop booking
service. Each shop (a *barbearia*) is a tenant with a unique slug, its own
service catalogue (*serviços*) and its own staff profiles (*usuarios*).

Barbers offer open slots. A slot is an *agendamento* row with status
`disponivel`. Customers book a slot, either anonymously through the public
pages or while signed in; a booked row has status `pendente`. A booking can
also be made without an open slot.

The hosted database is a set of in-memory tables held by one class,
`Tables.Db`:

- each table is a map from primary key to row;
- the identity provider's accounts and live bearer tokens are two more maps.

Each HTTP handler becomes one of these:

- a Dafny method that updates the tables it writes and returns a `Reply`, an HTTP status with a body or an error message;
- a function, when the handler only reads.

Every filter the handlers apply to a query becomes a predicate:

- `.eq` is SQL equality, where a null never matches;
- `.gte`/`.lt`/`.gt` are integer comparisons on millisecond timestamps;
- the customer `.or` filter is a disjunction.

Modules follow the source files:

| module | source |
|---|---|
| `Slug` | `backend/utils/slug.js` |
| `PublicController` | `backend/controllers/publicController.js` |
| `AgendamentoController` | `backend/controllers/agendamentoController.js` |
| `AuthController` | `backend/controllers/authController.js` |
| `AuthMiddleware` | `backend/middlewares/authMiddleware.js` |
| `ServicoController` | `backend/controllers/servicoController.js` |
| `BarbeariaController` | `backend/controllers/barbeariaController.js` |
| `UserController` | `backend/controllers/userController.js` |
| `Tables` | the shared row types, the `Db` class, and the slot check both reservation paths make |
| `Wrappers` | `Option` |

Modelling conventions:

- A request field is an `Option`. `None` stands for a field the request left out. Such a field is dropped when the body is serialised, so an update leaves that column unchanged.
- JavaScript truthiness of a string or number is `Present`/`PresentInt`.
- The database generates keys; here they are parameters. An insert whose key is already taken fails the way a database error does, which is how the handlers' error branches are reached.
- The wall clock is a parameter `now`.
- The identity provider's answer to creating an account is a parameter, and so is the page of accounts `listUsers` returns.

Behaviour of the code worth knowing when reading the model:

- **No tenant suspension.** The middleware does not look at a shop's `status`: a caller of a suspended shop is admitted like any other.
- **Conflict window.** The public reservation deletes the open slots of the same barber that start at least 1000 ms after the booked slot and before its end (start + duration × 60000 ms). The model uses this window (`PublicController.InConflictWindow`).
- **Open slots.** An open slot carries the placeholder customer name `Livre` (`AgendamentoController.OpenSlotRow`).
- **Authenticated reservation.** The handler copies `req.user.nome`, which the identity provider's user record does not carry at the top level (the sign-up name is kept in the account metadata). That update field is therefore dropped and the name stays `Livre`, as `AgendamentoController.ReservationKeepsPlaceholderName` states. The customer id is set.
- **Default services.** Sign-up seeds the two default services right after the owner's shop was created.
- **No tenant-scoped data handle.** The middleware never sets `req.supabase`, so the model uses the same tables and relies on the explicit tenant filters the handlers write.
- **Customer listing.** For a customer with a name, the listing also matches bookings by that name. Two customers with the same name therefore see each other's name-matched bookings (`AgendamentoController.SameNameCustomersShareBookings`).

## Model

| member | source | states |
|---|---|---|
| Slug.ToLower | backend/utils/slug.js:5 | lower-cases every ASCII and Latin-1 capital; the length is kept and no capital remains |
| Slug.Nfd | backend/utils/slug.js:6 | canonical decomposition of already lower-cased text introduces no capital |
| Slug.StripMarks | backend/utils/slug.js:6 | no combining mark of U+0300..U+036F is left, and nothing is added |
| Slug.AccentsKeepBaseLetter | backend/utils/slug.js:6 | decomposing and then dropping the marks maps each accented letter to its base letter, position by position |
| Slug.Hyphenate | backend/utils/slug.js:7 | the result contains no whitespace character |
| Slug.SpaceRunBecomesHyphen | backend/utils/slug.js:7 | a run of whitespace between two space-free parts becomes exactly one hyphen |
| Slug.KeepSlugChars | backend/utils/slug.js:8 | only word characters and hyphens remain; on lower-case input only slug characters |
| Slug.KeepSlugCharsAppend | backend/utils/slug.js:8 | the filter works piecewise: each part keeps its own word characters and hyphens, in order (with `KeepOfSlugChars`, every kept character survives) |
| Slug.CollapseHyphens | backend/utils/slug.js:9 | no two hyphens are adjacent in the result |
| Slug.CollapseKeepsNonHyphens | backend/utils/slug.js:9 | every character other than `-` is kept, in order |
| Slug.HyphenRunBecomesOne | backend/utils/slug.js:9 | a run of hyphens after a hyphen-free part becomes exactly one hyphen, and what follows is kept |
| Slug.TrimLeading | backend/utils/slug.js:10 | the result is a suffix of the input that does not start with a hyphen, and everything dropped is a hyphen |
| Slug.TrimTrailing | backend/utils/slug.js:11 | the result is a prefix of the input that does not end with a hyphen, and everything dropped is a hyphen |
| Slug.CriarSlug | backend/utils/slug.js:1-13 | an empty name gives the empty slug; every result has only lower-case ASCII letters, digits, `_` and `-`, no doubled hyphen and no hyphen at either end |
| Slug.SlugIsFixedPoint | backend/utils/slug.js:3-11 | a string that is already a slug is returned unchanged |
| Slug.CriarSlugIdempotent | backend/utils/slug.js:3-11 | applying the builder to its own output changes nothing |
| Slug.HyphenJoinIsSlug | backend/utils/slug.js:8-11 | a non-empty slug, a hyphen and a non-empty run of lower-case word characters together form a slug |
| Tables.CheckSlot | backend/controllers/publicController.js:90-97 | a slot passes exactly when it exists and is `disponivel`; 404 exactly when it is missing, 409 when it is not open |
| PublicController.ServicesOf | backend/controllers/publicController.js:9-13 | exactly the services whose shop is the given one, with their rows |
| PublicController.GetBarbeariaBySlug | backend/controllers/publicController.js:3-22 | 200 exactly when one shop has the slug, with that shop's id, name, slug and its catalogue; 404 otherwise |
| PublicController.UniqueSlugIsFound | backend/controllers/publicController.js:13-18 | a shop whose slug no other shop shares is found by it |
| PublicController.CreateAgendamento | backend/controllers/publicController.js:24-60 | 400 with no insert when name, time or service is missing or the shop has no staff; otherwise one `pendente` row for that shop, assigned to a `dono`/`barbeiro` of the shop, with no customer id |
| PublicController.GetDisponibilidade | backend/controllers/publicController.js:62-83 | exactly the shop's `disponivel` rows that start strictly after now, each with its time, barber and the barber's name |
| PublicController.EffectiveDuration | backend/controllers/publicController.js:107 | the service's duration, or 30 when it is null or zero |
| PublicController.Booked | backend/controllers/publicController.js:112-120 | the slot becomes `pendente` with the given service and customer name; shop, barber, time and customer id are unchanged |
| PublicController.DeleteConflicts | backend/controllers/publicController.js:124-134 | no row of the conflict window remains, and every row outside it stays, unchanged |
| PublicController.ReservarAgendamento | backend/controllers/publicController.js:85-141 | 404/409 from the slot check and 400 for an unknown service, all without writing; otherwise the slot is booked and the barber's open slots in [start+1000 ms, start+duration) are deleted |
| PublicController.SecondReservationConflicts | backend/controllers/publicController.js:97-134 | after a reservation the same slot is refused with 409 |
| PublicController.WindowSparesSameAndEarlierStarts | backend/controllers/publicController.js:124-134 | an open slot starting at or before the reserved one is never deleted by the clean-up |
| PublicController.ReservationUpdatesListing | backend/controllers/publicController.js:72-74 | after a reservation the public listing loses the reserved slot and the window's slots, and keeps every other listed slot unchanged |
| AgendamentoController.List | backend/controllers/agendamentoController.js:3-23 | only rows of the caller's shop; for a customer only rows with the caller's id or, when the caller has a name, that name; and every such row |
| AgendamentoController.CallerWithoutShopSeesNothing | backend/controllers/agendamentoController.js:7 | a caller whose profile has no shop gets an empty listing |
| AgendamentoController.SameNameCustomersShareBookings | backend/controllers/agendamentoController.js:9-16 | two different customers with the same name both see a booking made under that name |
| AgendamentoController.Create | backend/controllers/agendamentoController.js:25-54 | 400 with no insert when a field is missing or the key is taken; otherwise exactly one `pendente` row for the caller's shop with the caller as barber |
| AgendamentoController.DeleteScoped | backend/controllers/agendamentoController.js:60-64 | removes exactly the row with the id when it belongs to the shop; every other row is kept unchanged |
| AgendamentoController.Delete | backend/controllers/agendamentoController.js:56-72 | answers 204 and leaves the table as `DeleteScoped` describes |
| AgendamentoController.DeleteInvisibleToOtherShops | backend/controllers/agendamentoController.js:60-64 | whatever id a caller deletes, the listing of every other shop is unchanged |
| AgendamentoController.ApplyPatch | backend/controllers/agendamentoController.js:77-87 | fields the request carries replace the columns; the barber changes only for a non-empty id; shop and customer id never change |
| AgendamentoController.UpdateScoped | backend/controllers/agendamentoController.js:79-90 | only the row with the id in the caller's shop changes; the key set is kept |
| AgendamentoController.Update | backend/controllers/agendamentoController.js:74-97 | answers 200 with the updated row, or with no body when no row of the shop has the id |
| AgendamentoController.UpdateInvisibleToOtherShops | backend/controllers/agendamentoController.js:88-89 | whatever a caller updates, the listing of every other shop is unchanged |
| AgendamentoController.ReservedBy | backend/controllers/agendamentoController.js:112-121 | the slot becomes `pendente` with the caller as customer id, the caller's name when present and the service when given; shop, barber and time are kept |
| AgendamentoController.Reservar | backend/controllers/agendamentoController.js:99-131 | 404/409 from the slot check without writing; otherwise exactly the slot is updated as `ReservedBy` describes |
| AgendamentoController.ReservedSlotIsTaken | backend/controllers/agendamentoController.js:109-118 | after a reservation the same slot is refused with 409 |
| AgendamentoController.ReservationKeepsPlaceholderName | backend/controllers/agendamentoController.js:115 | an account without a top-level name leaves the open slot's customer name `Livre` |
| AgendamentoController.OpenSlotRow | backend/controllers/agendamentoController.js:145-152 | an open slot: `disponivel`, customer `Livre`, no service, no customer id, the caller's shop, the caller as barber |
| AgendamentoController.CreateDisponibilidade | backend/controllers/agendamentoController.js:134-161 | 400 with no insert for a missing time, a time earlier than now or a taken key; otherwise exactly one open slot |
| AgendamentoController.OfferedSlotIsListed | backend/controllers/agendamentoController.js:139-152 | a slot offered for a later time appears in the shop's public listing; one offered for exactly now is accepted but not listed |
| AgendamentoController.DeleteOwnOpenSlot | backend/controllers/agendamentoController.js:166-171 | only the caller's own open slot with the id is removed; every other row, booked rows included, stays unchanged |
| AgendamentoController.DeleteDisponibilidade | backend/controllers/agendamentoController.js:163-178 | answers 204 and leaves the table as `DeleteOwnOpenSlot` describes |
| ServicoController.List | backend/controllers/servicoController.js:1-12 | exactly the services of the caller's shop, the same catalogue the public shop page shows; none for a caller without a shop |
| ServicoController.DefaultDuration | backend/controllers/servicoController.js:24 | the requested duration, or 30 when it is missing or zero |
| ServicoController.Create | backend/controllers/servicoController.js:14-33 | one row for the caller's shop with the requested name and price and the defaulted duration; 400 and no insert when the key is taken |
| ServicoController.DeleteScoped | backend/controllers/servicoController.js:39-43 | removes exactly the service with the id in the shop; every other row stays |
| ServicoController.Delete | backend/controllers/servicoController.js:35-50 | answers 204 and leaves the table as `DeleteScoped` describes |
| ServicoController.ApplyPatch | backend/controllers/servicoController.js:55-59 | the fields the request carries replace the columns as given, with no 30-minute default; the shop never changes |
| ServicoController.UpdateScoped | backend/controllers/servicoController.js:57-62 | only the service with the id in the shop changes; the key set is kept |
| ServicoController.Update | backend/controllers/servicoController.js:52-69 | answers 200 with the updated service, or with no body when the shop has no service with the id |
| ServicoController.WritesInvisibleToOtherShops | backend/controllers/servicoController.js:18-62 | a create, delete or update by one shop leaves every other shop's catalogue unchanged |
| BarbeariaController.NewestExists | backend/controllers/barbeariaController.js:5 | a non-empty table has a shop at least as recent as all others |
| BarbeariaController.PrependNewest | backend/controllers/barbeariaController.js:5 | a newest shop followed by a newest-first listing of the rest lists the whole table newest first |
| BarbeariaController.List | backend/controllers/barbeariaController.js:1-12 | every shop exactly once with its own row, ordered by `created_at` descending |
| BarbeariaController.ListStartsWithNewest | backend/controllers/barbeariaController.js:5 | the first shop listed is at least as recent as any shop |
| BarbeariaController.ApplyUpdate | backend/controllers/barbeariaController.js:18-21 | status and plan are replaced when given; name, slug and creation time never change |
| BarbeariaController.UpdateById | backend/controllers/barbeariaController.js:20-23 | only the shop with the id changes; every other shop is unchanged |
| BarbeariaController.Update | backend/controllers/barbeariaController.js:14-30 | answers 200 with the updated shop, or with no body when no shop has the id |
| BarbeariaController.UpdateKeepsSlugs | backend/controllers/barbeariaController.js:21 | the shops carrying any given slug are the same before and after an update |
| UserController.JoinedShop | backend/controllers/userController.js:5-7 | the slug and name of the shop the profile's shop id joins to, or none |
| UserController.GetMe | backend/controllers/userController.js:1-22 | 500 exactly when the caller has no profile; otherwise the profile's columns unchanged, the joined shop, and its slug and name at the top level, absent without a joined shop |
| UserController.ReportedSlugFindsOwnShop | backend/controllers/userController.js:16-17 | the slug a profile reports leads the public lookup back to the caller's own shop when the slug is unique |
| AuthMiddleware.Split | backend/middlewares/authMiddleware.js:10 | at least one field, none containing a space |
| AuthMiddleware.JoinSplit | backend/middlewares/authMiddleware.js:10 | joining the fields with single spaces gives the header back |
| AuthMiddleware.SecondFieldIffSpace | backend/middlewares/authMiddleware.js:10 | a header has a second field exactly when it contains a space |
| AuthMiddleware.TokenOf | backend/middlewares/authMiddleware.js:10 | a token exists exactly when the header has a space, and it contains none |
| AuthMiddleware.BearerTokenIsFound | backend/middlewares/authMiddleware.js:10 | `<scheme> <token>` yields the token |
| AuthMiddleware.VerifiedUser | backend/middlewares/authMiddleware.js:13-17 | the account exactly when the token is live and its account exists |
| AuthMiddleware.Decide | backend/middlewares/authMiddleware.js:4-38 | 401 without a header or without a verified account, 403 without a profile, otherwise admits the account with its profile's shop and role |
| AuthMiddleware.LiveSessionIsAdmitted | backend/middlewares/authMiddleware.js:10-34 | `Bearer <live token>` of an account with a profile is admitted as that account |
| AuthMiddleware.DecideAsWritten | backend/middlewares/authMiddleware.js:1-38 | as written, every request is answered with 401 |
| AuthMiddleware.AsWrittenRejectsLiveSession | backend/middlewares/authMiddleware.js:1-36 | a live session with a profile is admitted by the intended check and refused by the code as written |
| AuthMiddleware.Authenticate | backend/middlewares/authMiddleware.js:4-38 | the middleware with its import fixed (see Findings): a rejected request is answered and left untouched; an admitted one gets `user`, `barbeariaId` and `userType` set and goes on once |
| AuthController.ValidationError | backend/controllers/authController.js:9-20 | 400 for a role outside the three, for an owner without a shop name, for a barber without a slug; none exactly otherwise |
| AuthController.Code | backend/controllers/authController.js:58 | the first four characters of the id, or the whole id when shorter |
| AuthController.ShopSlug | backend/controllers/authController.js:57-60 | the name's slug, then one hyphen, then the code |
| AuthController.EmptyNameSlugStartsWithHyphen | backend/controllers/authController.js:57-60 | a shop name with no slug character gives a slug that starts with a hyphen, which is not a slug and which the builder would change |
| AuthController.ShopSlugIsSlug | backend/controllers/authController.js:57-60 | with a non-empty name slug and an id starting with lower-case word characters, the shop slug is a slug and the builder leaves it unchanged |
| AuthController.SlugsCollideOnSharedPrefix | backend/controllers/authController.js:57-60 | two owners whose ids share the first four characters and whose shops share a name get the same slug |
| AuthController.NewShop | backend/controllers/authController.js:64-69 | the new shop has the given name and slug, plan `free` and status `ativo` |
| AuthController.NewShopIsFoundBySlug | backend/controllers/authController.js:62-71 | since the insert refuses a taken slug, the returned slug finds exactly the new shop |
| AuthController.SeedDefaults | backend/controllers/authController.js:80-83 | both default services are added when both keys are free and distinct, otherwise neither; existing services are kept |
| AuthController.NewShopCatalogue | backend/controllers/authController.js:80-83 | a new shop's catalogue is exactly `Corte` at 30 for 30 minutes and `Barba` at 25 for 30 minutes |
| AuthController.InsertProfile | backend/controllers/authController.js:87-93 | the profile is added under the account id; an existing profile for that id stays as it was |
| AuthController.FirstIndexWithEmail | backend/controllers/authController.js:47 | the position of the first account with the email: no earlier account has it, and it is past the end exactly when none has it |
| AuthController.FindByEmail | backend/controllers/authController.js:47-48 | none exactly when no listed account has the email; otherwise the first listed account with it |
| AuthController.AccountOf | backend/controllers/authController.js:31-53 | the created account with the name and role in its metadata; after an "already registered" refusal the listed account with the email, present exactly when one is listed; none after any other refusal |
| AuthController.ObtainAccount | backend/controllers/authController.js:31-53 | the account is `AccountOf`'s; a created account is stored; a refusal stores nothing; the error is the provider's message, or the "could not be found via listUsers" message when the page has no account with the email |
| AuthController.CreateShop | backend/controllers/authController.js:55-93 | when the shop insert fails, nothing is written except deleting an account created in this call; otherwise the shop, the default services and the owner's profile are inserted |
| AuthController.Provision | backend/controllers/authController.js:55-95 | success exactly when the caller is not an owner or the owner's shop insert goes through; a failed insert answers 400, deletes an account created here and writes nothing else; success answers 201 with the slug only for an owner and inserts the profile |
| AuthController.Enrol | backend/controllers/authController.js:31-95 | the account is `AccountOf`'s; success exactly when there is one and, for an owner, the shop insert goes through; no account answers 400 and writes nothing; a failed shop insert answers 400 and deletes an account created here; a reused account is never deleted |
| AuthController.Register | backend/controllers/authController.js:4-101 | success exactly when the role's fields are present, a barber's slug names one shop, an account is obtained and, for an owner, the shop insert goes through; every failure before the account step writes nothing; a failed shop insert deletes an account created here; success answers 201 with the slug only for an owner and inserts the profile keyed by the account id, with the owner's new shop, the barber's shop or no shop |

## Left out

- Database client construction and its environment-variable fallbacks are not part of this model. The tables stand in for the client.
- Row-level security policies are not in the repository and are not modelled.
- Email sending, Express routing, the single-page front end and the environment dump are not part of this model.
- The identity provider's internals (`createUser`, `listUsers`, `getUser`, `deleteUser`) are not modelled. Their outcomes are the `sessions` and `authUsers` maps, the `SignupOutcome` parameter and the `listed` parameter. A failing `listUsers` is not modelled.
- AuthController.ObtainAccount: the page `listUsers` returns is the parameter `listed`. The call passes no page argument, so in the running system that is only the first page of accounts; the model does not tie `listed` to the `authUsers` map.
- Date parsing and ISO formatting are left out: times are integer milliseconds, and the clock is the parameter `now`.
- The read-then-write race in both reservation paths is not modelled: each handler is atomic.
- Database failures other than a taken primary key (or a taken shop slug) are left out. So are the 400/500 catch-all branches they would reach, and the `error` branch of the appointment listing.
- An explicit JSON `null` in a request body is not distinguished from a missing field.
- Slug.Nfd: canonical decomposition is modelled for the Latin-1 letters U+00C0..U+00FF only; other characters are kept as they are.
- Slug.ToLower: lower-casing is modelled for ASCII and Latin-1 capitals only.
- PublicController.CreateAgendamento: which staff member the single-row query picks is left to the database, so the contract says only that it is a `dono` or `barbeiro` of the shop.
- BarbeariaController.List: among shops created at the same instant the order is the database's, so the model picks one order and the contract states only the ordering by `created_at`.
- AuthController.Register: the password is handed to the identity provider and is not modelled.

## Findings

| source | as written | input that shows it | evidently intended | confidence | as-written member | corrected member |
|---|---|---|---|---|---|---|
| backend/middlewares/authMiddleware.js:1 | The first line imports the configuration module's export object, not the `adminSupabase` client it exports. `supabase.auth` at line 13 is therefore undefined, the call throws, and the catch answers 401 for every request that carries a header. | Header `Bearer t` where `t` is a live token of an account that has a profile (`AuthMiddleware.AsWrittenRejectsLiveSession`). | Import the exported client, so that the token is verified, the profile looked up, and the caller admitted. | high (not executed) | AuthMiddleware.DecideAsWritten | AuthMiddleware.Decide |
