/**
 * The caller's own profile (backend/controllers/userController.js): the
 * profile row with the caller's id, its columns as stored, and the slug and
 * name of the shop the row joins to.
 */
module UserController {
  import opened Wrappers
  import opened Tables
  import PublicController

  /** The joined `barbearias ( slug, nome )` object. */
  datatype ShopRef = ShopRef(slug: string, nome: string)

  /**
   * The response body: the profile's columns, the joined shop (null when the
   * row joins none), and the two flattened shop fields, which JSON leaves
   * out when there is no joined shop.
   */
  datatype MeView = MeView(
    id: Id,
    nome: Option<string>,
    email: string,
    tipo: string,
    barbeariaId: Option<Id>,
    barbearias: Option<ShopRef>,
    barbeariaSlug: Option<string>,
    barbeariaNome: Option<string>)

  /** The error a single-row lookup reports when no row matches. */
  const NoSingleRow := "JSON object requested, multiple (or no) rows returned"

  /** The shop a profile's `barbearia_id` joins to, if any. */
  function JoinedShop(barbearias: map<Id, Barbearia>, profile: Usuario): (s: Option<ShopRef>)
    ensures s.Some? <==> profile.barbeariaId.Some? && profile.barbeariaId.value in barbearias
    ensures s.Some? ==>
      s.value == ShopRef(barbearias[profile.barbeariaId.value].slug, barbearias[profile.barbeariaId.value].nome)
  {
    if profile.barbeariaId.Some? && profile.barbeariaId.value in barbearias then
      var b := barbearias[profile.barbeariaId.value];
      Some(ShopRef(b.slug, b.nome))
    else None
  }

  /**
   * `getMe`: 500 when the caller has no profile row; otherwise 200 with the
   * row's columns unchanged, the joined shop, and its slug and name copied
   * to the top level (absent when nothing is joined).
   */
  function GetMe(usuarios: map<Id, Usuario>, barbearias: map<Id, Barbearia>, userId: Id): (r: Reply<MeView>)
    ensures r.Fail? <==> userId !in usuarios
    ensures r.Fail? ==> r.code == 500
    ensures r.Ok? ==>
      var p := usuarios[userId];
      && r.code == 200
      && r.value.id == userId
      && r.value.nome == p.nome && r.value.email == p.email && r.value.tipo == p.tipo
      && r.value.barbeariaId == p.barbeariaId
      && r.value.barbearias == JoinedShop(barbearias, p)
      && (r.value.barbearias.None? ==> r.value.barbeariaSlug.None? && r.value.barbeariaNome.None?)
      && (r.value.barbearias.Some? ==>
            r.value.barbeariaSlug == Some(r.value.barbearias.value.slug)
            && r.value.barbeariaNome == Some(r.value.barbearias.value.nome))
  {
    if userId !in usuarios then Fail(500, NoSingleRow)
    else
      var p := usuarios[userId];
      var shop := JoinedShop(barbearias, p);
      Ok(200, MeView(userId, p.nome, p.email, p.tipo, p.barbeariaId, shop,
                     if shop.Some? then Some(shop.value.slug) else None,
                     if shop.Some? then Some(shop.value.nome) else None))
  }

  /**
   * The slug a profile reports leads the public lookup back to the caller's
   * own shop whenever no other shop shares that slug.
   */
  lemma ReportedSlugFindsOwnShop(
    usuarios: map<Id, Usuario>, barbearias: map<Id, Barbearia>, servicos: map<Id, Servico>, userId: Id)
    requires userId in usuarios
    requires var b := usuarios[userId].barbeariaId;
      b.Some? && b.value in barbearias
      && forall k :: k in barbearias && k != b.value ==> barbearias[k].slug != barbearias[b.value].slug
    ensures GetMe(usuarios, barbearias, userId).value.barbeariaSlug.Some?
    ensures var slug := GetMe(usuarios, barbearias, userId).value.barbeariaSlug.value;
      PublicController.GetBarbeariaBySlug(barbearias, servicos, slug) ==
        Ok(200, PublicController.PublicShop(
          usuarios[userId].barbeariaId.value,
          barbearias[usuarios[userId].barbeariaId.value].nome,
          slug,
          PublicController.ServicesOf(servicos, usuarios[userId].barbeariaId.value)))
  {
    PublicController.UniqueSlugIsFound(barbearias, servicos, usuarios[userId].barbeariaId.value);
  }
}
