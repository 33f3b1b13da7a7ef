/** Products: the service's operations on the products table and the
    controller's rules around them (owner stamping, the image URL, 404 before
    403). The columns' own limits are part of the table: `name` is a
    non-null `varchar(255)`. */
module Products {
  import opened Wrappers
  import opened Store
  import Dto
  import Upload

  const NotFoundMessage := "Produto não encontrado"
  const NoAccessMessage := "Você não tem acesso a este produto"
  const NoUpdateMessage := "Você não tem permissão para atualizar este produto"
  const NoDeleteMessage := "Você não tem permissão para deletar este produto"
  const MissingAfterUpdate := "Produto não encontrado após atualização"

  /** The `name` column's declared length, in characters. */
  const NameColumnLength := 255
  const NameTooLong := "value too long for type character varying(255)"
  const NameNotNull := "null value in column \"name\" of relation \"products\" violates not-null constraint"

  /** A `varchar(255)` column takes a value whose characters past the 255th
      are all spaces. */
  predicate FitsColumn(name: string) {
    forall i :: NameColumnLength <= i < |name| ==> name[i] == ' '
  }

  function Blanks(n: nat): string {
    seq(n, _ => ' ')
  }

  /** What PostgreSQL stores when `name` is assigned to the `varchar(255)`
      column: a longer value is an error unless its excess is all spaces,
      and then it is cut to 255 characters. */
  function ColumnName(name: string): (r: Result<string>)
    ensures r.Ok? <==> FitsColumn(name)
    ensures r.Err? ==> r.error == Internal(NameTooLong)
    ensures r.Ok? ==> |r.value| <= NameColumnLength && |r.value| <= |name| && name == r.value + Blanks(|name| - |r.value|)
    ensures r.Ok? && |name| <= NameColumnLength ==> r.value == name
  {
    if !FitsColumn(name) then Err(Internal(NameTooLong))
    else if |name| <= NameColumnLength then
      assert name == name + Blanks(0);
      Ok(name)
    else
      var v := name[..NameColumnLength];
      assert name == v + Blanks(|name| - |v|) by {
        forall i | 0 <= i < |name|
          ensures name[i] == (v + Blanks(|name| - |v|))[i]
        {
        }
      }
      Ok(v)
  }

  // ------------------------------------------------------------ service

  /** `value || null`: an absent or empty string is stored as null. */
  function OrNull(s: Option<string>): (r: Option<string>)
    ensures r.Some? <==> s.Some? && s.value != ""
    ensures r.Some? ==> r == s
  {
    if s.Some? && s.value != "" then s else None
  }

  /** `create`: inserts one row with a fresh id, stamped with the clock. */
  function Create(db: Db, name: string, description: Option<string>, imageUrl: Option<string>, ownerId: Id)
    : (r: Result<(Db, Product)>)
    requires Valid(db)
    ensures r.Ok? <==> FitsColumn(name)
    ensures r.Err? ==> r.error == Internal(NameTooLong)
    ensures r.Ok? ==> (
      var (after, p) := r.value;
      && p.name == ColumnName(name).value && p.ownerId == ownerId
      && p.description == OrNull(description) && p.imageUrl == OrNull(imageUrl)
      && (forall q :: q in db.products ==> q.id != p.id)
      && after.products == db.products + [p]
      && after.users == db.users && after.generations == db.generations
      && Valid(after)
      && FindProduct(after, p.id) == Some(p))
  {
    var stored :- ColumnName(name);
    var p := Product(db.nextId, stored, OrNull(description), OrNull(imageUrl), ownerId, db.clock, db.clock);
    AppendKeepsValid(db, p);
    Ok((db.(products := db.products + [p], nextId := db.nextId + 1, clock := db.clock + 1), p))
  }

  /** A row stamped with the counter and the clock extends a valid table. */
  lemma AppendKeepsValid(db: Db, p: Product)
    requires Valid(db) && p.id == db.nextId && p.createdAt == db.clock
    ensures forall q :: q in db.products ==> q.id != p.id
    ensures var after := db.(products := db.products + [p], nextId := db.nextId + 1, clock := db.clock + 1);
      Valid(after) && FindProduct(after, p.id) == Some(p)
  {
    var after := db.(products := db.products + [p], nextId := db.nextId + 1, clock := db.clock + 1);
    AppendProductsValid(db, p, after);
    AppendGenerationsValid(db, p, after);
    assert UsersValid(after);
    FindStoredProduct(after, p);
  }

  lemma AppendProductsValid(db: Db, p: Product, after: Db)
    requires ProductsValid(db) && p.id == db.nextId && p.createdAt == db.clock
    requires after.products == db.products + [p]
    requires after.nextId == db.nextId + 1 && after.clock == db.clock + 1
    ensures ProductsValid(after)
  {
    var s := after.products;
    forall i, j | 0 <= i < j < |s|
      ensures s[i].id < s[j].id && s[i].createdAt < s[j].createdAt
    {
      if j == |s| - 1 {
        assert s[i] in db.products;
      }
    }
  }

  lemma AppendGenerationsValid(db: Db, p: Product, after: Db)
    requires GenerationsValid(db)
    requires after.products == db.products + [p] && after.generations == db.generations
    requires after.nextId == db.nextId + 1 && after.clock == db.clock + 1
    ensures GenerationsValid(after)
  {
    forall g | g in after.generations
      ensures exists q :: q in after.products && q.id == g.productId
    {
      var q :| q in db.products && q.id == g.productId;
      assert q in after.products;
    }
  }

  /** `findAllByOwner`: the owner's products (the order is the subject of
      `ListingNewestFirst`). */
  function FindAllByOwner(db: Db, ownerId: Id): (r: seq<Product>)
    ensures forall p :: p in r <==> p in db.products && p.ownerId == ownerId
  {
    var mine := Filter(db.products, (p: Product) => p.ownerId == ownerId);
    ReverseMembers(mine);
    Reverse(mine)
  }

  /** The listing is newest first. */
  lemma ListingNewestFirst(db: Db, ownerId: Id)
    requires Valid(db)
    ensures Descending(FindAllByOwner(db, ownerId), ProductTime)
  {
    var mine := Filter(db.products, (p: Product) => p.ownerId == ownerId);
    FilterAscending(db.products, (p: Product) => p.ownerId == ownerId, ProductTime);
    ReverseDescending(mine, ProductTime);
  }

  /** One nullable column under a partial update. */
  function Apply(current: Option<string>, patch: Dto.Patch<string>): (r: Option<string>)
    ensures patch.Keep? ==> r == current
    ensures patch.SetNull? ==> r.None?
    ensures patch.SetTo? ==> r == Some(patch.value)
  {
    match patch
    case Keep => current
    case SetNull => None
    case SetTo(v) => Some(v)
  }

  /** The row `update` writes, or the database error it raises. */
  function UpdatedRow(p: Product, data: Dto.UpdateProductRequest, now: nat): (r: Result<Product>)
    ensures r.Ok? <==> data.name.Keep? || (data.name.SetTo? && FitsColumn(data.name.value))
    ensures data.name.SetNull? ==> r == Err(Internal(NameNotNull))
    ensures data.name.SetTo? && !FitsColumn(data.name.value) ==> r == Err(Internal(NameTooLong))
    ensures r.Ok? ==> (
      && r.value.id == p.id && r.value.ownerId == p.ownerId && r.value.createdAt == p.createdAt
      && r.value.name == (if data.name.SetTo? then ColumnName(data.name.value).value else p.name)
      && r.value.description == Apply(p.description, data.description)
      && r.value.imageUrl == Apply(p.imageUrl, data.imageUrl)
      && r.value.updatedAt == now)
  {
    match data.name
    case SetNull => Err(Internal(NameNotNull))
    case SetTo(n) =>
      var stored :- ColumnName(n);
      Ok(p.(name := stored, description := Apply(p.description, data.description),
                 imageUrl := Apply(p.imageUrl, data.imageUrl), updatedAt := now))
    case Keep =>
      Ok(p.(description := Apply(p.description, data.description),
            imageUrl := Apply(p.imageUrl, data.imageUrl), updatedAt := now))
  }

  /** The table with the row whose id is `q`'s replaced by `q`. */
  function Replace(ps: seq<Product>, q: Product): (r: seq<Product>)
    ensures |r| == |ps|
    ensures forall i :: 0 <= i < |ps| ==> r[i] == (if ps[i].id == q.id then q else ps[i])
  {
    seq(|ps|, i requires 0 <= i < |ps| => if ps[i].id == q.id then q else ps[i])
  }

  /** Replacing a row by one with the same id and creation time changes no
      row's id or creation time. */
  lemma ReplaceKeepsKeys(ps: seq<Product>, p: Product, q: Product)
    requires Ascending(ps, ProductId) && p in ps
    requires q.id == p.id && q.createdAt == p.createdAt
    ensures forall i :: 0 <= i < |ps| ==> Replace(ps, q)[i].id == ps[i].id
    ensures forall i :: 0 <= i < |ps| ==> Replace(ps, q)[i].createdAt == ps[i].createdAt
  {
    forall i | 0 <= i < |ps|
      ensures Replace(ps, q)[i].id == ps[i].id && Replace(ps, q)[i].createdAt == ps[i].createdAt
    {
      if ps[i].id == q.id {
        AscendingKeyUnique(ps, ProductId, ps[i], p);
      }
    }
  }

  /** ... so the table stays valid. */
  lemma ReplaceKeepsValid(db: Db, p: Product, q: Product)
    requires Valid(db) && p in db.products
    requires q.id == p.id && q.createdAt == p.createdAt
    ensures Valid(db.(products := Replace(db.products, q), clock := db.clock + 1))
  {
    var ps := db.products;
    var after := db.(products := Replace(ps, q), clock := db.clock + 1);
    ReplaceKeepsKeys(ps, p, q);
    assert Ascending(after.products, ProductId);
    assert Ascending(after.products, ProductTime);
    forall g | g in after.generations
      ensures exists x :: x in after.products && x.id == g.productId
    {
      var x :| x in ps && x.id == g.productId;
      var i :| 0 <= i < |ps| && ps[i] == x;
      assert after.products[i] in after.products;
    }
    forall x | x in after.products
      ensures x.id < after.nextId && x.createdAt < after.clock
    {
      var i :| 0 <= i < |ps| && after.products[i] == x;
      assert ps[i] in ps;
    }
  }

  /** ... the new row is the one found under its id, and every other row is
      still there. */
  lemma ReplaceFinds(db: Db, p: Product, q: Product)
    requires Valid(db) && p in db.products
    requires q.id == p.id && q.createdAt == p.createdAt
    ensures var after := db.(products := Replace(db.products, q), clock := db.clock + 1);
      && FindProduct(after, p.id) == Some(q)
      && (forall x :: x in db.products && x.id != p.id ==> x in after.products)
  {
    var ps := db.products;
    var after := db.(products := Replace(ps, q), clock := db.clock + 1);
    ReplaceKeepsValid(db, p, q);
    forall x | x in ps && x.id != p.id ensures x in after.products {
      var i :| 0 <= i < |ps| && ps[i] == x;
      assert after.products[i] == x;
    }
    var i :| 0 <= i < |ps| && ps[i] == p;
    assert after.products[i] == q;
    FindStoredProduct(after, q);
  }

  /** `update`: writes the supplied columns of the row and returns the row
      read back; a row that is not there afterwards is an error. */
  function Update(db: Db, id: Id, data: Dto.UpdateProductRequest): (r: Result<(Db, Product)>)
    requires Valid(db)
    ensures FindProduct(db, id).None? ==> r == Err(Internal(MissingAfterUpdate))
    ensures FindProduct(db, id).Some? ==> (
      var row := UpdatedRow(FindProduct(db, id).value, data, db.clock);
      && (r.Ok? <==> row.Ok?)
      && (row.Err? ==> r == Err(row.error))
      && (r.Ok? ==> r.value.1 == row.value))
    ensures r.Ok? ==> (
      var (after, q) := r.value;
      && Valid(after)
      && FindProduct(after, id) == Some(q)
      && |after.products| == |db.products|
      && (forall x :: x in db.products && x.id != id ==> x in after.products)
      && after.users == db.users && after.generations == db.generations)
  {
    match FindProduct(db, id)
    case None => Err(Internal(MissingAfterUpdate))
    case Some(p) =>
      var q :- UpdatedRow(p, data, db.clock);
      ReplaceKeepsValid(db, p, q);
      ReplaceFinds(db, p, q);
      Ok((db.(products := Replace(db.products, q), clock := db.clock + 1), q))
  }

  /** `remove`: deletes the row; its generations go with it (the foreign
      key cascades). Deleting an absent id changes nothing. */
  function Remove(db: Db, id: Id): (r: Db)
    ensures FindProduct(r, id).None?
    ensures forall p :: p in r.products <==> p in db.products && p.id != id
    ensures forall g :: g in r.generations <==> g in db.generations && g.productId != id
    ensures r.users == db.users
    ensures Valid(db) ==> Valid(r)
  {
    RemoveKeepsValid(db, id);
    db.(products := Filter(db.products, OtherProduct(id)),
        generations := Filter(db.generations, OtherProductsGeneration(id)))
  }

  function OtherProduct(id: Id): Product -> bool {
    (p: Product) => p.id != id
  }

  function OtherProductsGeneration(id: Id): Generation -> bool {
    (g: Generation) => g.productId != id
  }

  lemma RemoveKeepsValid(db: Db, id: Id)
    ensures var r := db.(products := Filter(db.products, OtherProduct(id)),
                         generations := Filter(db.generations, OtherProductsGeneration(id)));
      Valid(db) ==> Valid(r)
  {
    var r := db.(products := Filter(db.products, OtherProduct(id)),
                 generations := Filter(db.generations, OtherProductsGeneration(id)));
    if Valid(db) {
      FilterAscending(db.products, OtherProduct(id), ProductId);
      FilterAscending(db.products, OtherProduct(id), ProductTime);
      FilterAscending(db.generations, OtherProductsGeneration(id), GenerationId);
      FilterAscending(db.generations, OtherProductsGeneration(id), GenerationTime);
      forall g | g in r.generations
        ensures exists p :: p in r.products && p.id == g.productId
      {
        var p :| p in db.products && p.id == g.productId;
        assert p in r.products;
      }
    }
  }

  // ------------------------------------------------------------ controller

  /** The environment the image URL is built from. */
  datatype Env = Env(appUrl: Option<string>, port: Option<string>)

  /** `APP_URL || http://localhost:${PORT || 3001}`: unset and empty
      variables both fall through. */
  function BaseUrl(env: Env): (r: string)
    ensures env.appUrl.Some? && env.appUrl.value != "" ==> r == env.appUrl.value
    ensures (env.appUrl.None? || env.appUrl.value == "") && env.port.Some? && env.port.value != ""
        ==> r == "http://localhost:" + env.port.value
    ensures (env.appUrl.None? || env.appUrl.value == "") && (env.port.None? || env.port.value == "")
        ==> r == "http://localhost:3001"
  {
    if env.appUrl.Some? && env.appUrl.value != "" then env.appUrl.value
    else "http://localhost:" + (if env.port.Some? && env.port.value != "" then env.port.value else "3001")
  }

  function ImageUrl(env: Env, filename: string): string {
    BaseUrl(env) + "/uploads/products/" + filename
  }

  /** The image URL ends in the stored file name, so two uploads under one
      configuration never share a URL, and it is never empty, so the
      service stores it as it is. */
  lemma ImageUrlNamesTheFile(env: Env, f: string, g: string)
    ensures f != g ==> ImageUrl(env, f) != ImageUrl(env, g)
    ensures OrNull(Some(ImageUrl(env, f))) == Some(ImageUrl(env, f))
  {
    var pre := BaseUrl(env) + "/uploads/products/";
    assert ImageUrl(env, f) == pre + f && ImageUrl(env, g) == pre + g;
    if ImageUrl(env, f) == ImageUrl(env, g) {
      assert f == (pre + f)[|pre|..];
      assert g == (pre + g)[|pre|..];
    }
    assert |ImageUrl(env, f)| >= |"/uploads/products/"|;
  }

  /** What `Update` receives from the controller: the body's fields, with
      the image URL of a new upload in place of any `imageUrl` sent. */
  function UpdateData(req: Dto.UpdateProductRequest, file: Option<Upload.StoredFile>, env: Env)
    : (r: Dto.UpdateProductRequest)
    ensures r.name == req.name && r.description == req.description
    ensures file.None? ==> r == req
    ensures file.Some? ==> r.imageUrl == Dto.SetTo(ImageUrl(env, file.value.filename))
  {
    if file.Some? then req.(imageUrl := Dto.SetTo(ImageUrl(env, file.value.filename))) else req
  }

  /** The lookup shared by get, update and delete: a missing id is 404
      whoever asks; an existing product of someone else is 403 with the
      route's message. */
  function Authorize(db: Db, user: AuthUser, id: Id, denied: string): (r: Result<Product>)
    ensures r.Ok? <==> FindProduct(db, id).Some? && FindProduct(db, id).value.ownerId == user.id
    ensures r.Ok? ==> r.value == FindProduct(db, id).value
    ensures FindProduct(db, id).None? ==> r == Err(NotFound(NotFoundMessage))
    ensures FindProduct(db, id).Some? && FindProduct(db, id).value.ownerId != user.id
        ==> r == Err(Forbidden(denied))
  {
    match FindProduct(db, id)
    case None => Err(NotFound(NotFoundMessage))
    case Some(p) => if p.ownerId != user.id then Err(Forbidden(denied)) else Ok(p)
  }

  /** POST /products: the caller becomes the owner; the image URL points at
      the uploaded file, or is null without one. */
  function CreateAction(db: Db, user: AuthUser, req: Dto.CreateProductRequest,
                        file: Option<Upload.StoredFile>, env: Env): (r: Result<(Db, Product)>)
    requires Valid(db)
    ensures r.Ok? <==> FitsColumn(req.name)
    ensures r.Ok? ==> (
      var p := r.value.1;
      && p.ownerId == user.id && p.name == ColumnName(req.name).value
      && p.description == OrNull(req.description)
      && p.imageUrl == (if file.Some? then Some(ImageUrl(env, file.value.filename)) else None)
      && r.value.0.products == db.products + [p])
  {
    match file
    case None => Create(db, req.name, req.description, None, user.id)
    case Some(f) =>
      ImageUrlNamesTheFile(env, f.filename, f.filename);
      Create(db, req.name, req.description, Some(ImageUrl(env, f.filename)), user.id)
  }

  /** GET /products: the caller's products. */
  function ListAction(db: Db, user: AuthUser): (r: seq<Product>)
    ensures forall p :: p in r <==> p in db.products && p.ownerId == user.id
  {
    FindAllByOwner(db, user.id)
  }

  /** GET /products/:id. */
  function GetAction(db: Db, user: AuthUser, id: Id): (r: Result<Product>)
    ensures r.Ok? <==> FindProduct(db, id).Some? && FindProduct(db, id).value.ownerId == user.id
    ensures r.Ok? ==> r.value in db.products && r.value.id == id
    ensures FindProduct(db, id).None? ==> r == Err(NotFound(NotFoundMessage))
    ensures FindProduct(db, id).Some? && FindProduct(db, id).value.ownerId != user.id
        ==> r == Err(Forbidden(NoAccessMessage))
  {
    Authorize(db, user, id, NoAccessMessage)
  }

  /** PATCH /products/:id: checks first, then the update with the body's
      fields and, when a file came with the request, its URL. */
  function UpdateAction(db: Db, user: AuthUser, id: Id, req: Dto.UpdateProductRequest,
                        file: Option<Upload.StoredFile>, env: Env): (r: Result<(Db, Product)>)
    requires Valid(db)
    ensures FindProduct(db, id).None? ==> r == Err(NotFound(NotFoundMessage))
    ensures FindProduct(db, id).Some? && FindProduct(db, id).value.ownerId != user.id
        ==> r == Err(Forbidden(NoUpdateMessage))
    ensures FindProduct(db, id).Some? && FindProduct(db, id).value.ownerId == user.id
        ==> r == Update(db, id, UpdateData(req, file, env))
    ensures r.Ok? ==> r.value.1.ownerId == user.id && r.value.1.id == id
  {
    var p :- Authorize(db, user, id, NoUpdateMessage);
    Update(db, id, UpdateData(req, file, env))
  }

  /** DELETE /products/:id: answers 204 with no body once the row is gone. */
  function DeleteAction(db: Db, user: AuthUser, id: Id): (r: Result<Db>)
    ensures r.Ok? <==> FindProduct(db, id).Some? && FindProduct(db, id).value.ownerId == user.id
    ensures r.Ok? ==> r.value == Remove(db, id)
    ensures FindProduct(db, id).None? ==> r == Err(NotFound(NotFoundMessage))
    ensures FindProduct(db, id).Some? && FindProduct(db, id).value.ownerId != user.id
        ==> r == Err(Forbidden(NoDeleteMessage))
  {
    var p :- Authorize(db, user, id, NoDeleteMessage);
    Ok(Remove(db, id))
  }

  // ------------------------------------------------------------ routes

  /** No file was sent, or the sent one passes the upload filter and size
      limit. */
  predicate UploadPasses(upload: Option<Upload.IncomingFile>, uuid: string) {
    upload.None? || Upload.Accept(upload.value, uuid).Ok?
  }

  /** The stored file the handler receives, when the upload passed. */
  function StoredUpload(upload: Option<Upload.IncomingFile>, uuid: string): Option<Upload.StoredFile>
    requires UploadPasses(upload, uuid)
  {
    if upload.Some? then Some(Upload.Accept(upload.value, uuid).value) else None
  }

  /** The request as the framework handles it: the JWT guard, then the
      upload interceptor (which stores the file), then body validation,
      then the handler. `uuid` is the name the upload would be given. */
  function PostRoute(db: Db, caller: Option<AuthUser>, body: Dto.Body,
                     upload: Option<Upload.IncomingFile>, uuid: string, env: Env): (r: Result<(Db, Product)>)
    requires Valid(db)
    ensures caller.None? ==> r == Err(Unauthorized("Unauthorized"))
    ensures caller.Some? && upload.Some? && Upload.Accept(upload.value, uuid).Err?
        ==> r == Err(Upload.Accept(upload.value, uuid).error)
    ensures caller.Some? && UploadPasses(upload, uuid) && Dto.ParseCreateProduct(body).Err?
        ==> r == Err(Dto.ParseCreateProduct(body).error) && r.error.BadRequest?
    ensures caller.Some? && UploadPasses(upload, uuid) && Dto.ParseCreateProduct(body).Ok?
        ==> r == CreateAction(db, caller.value, Dto.ParseCreateProduct(body).value, StoredUpload(upload, uuid), env)
    ensures r.Ok? ==> (
      && caller.Some? && Dto.CreateProductValid(body)
      && r.value.1.ownerId == caller.value.id
      && (r.value.1.imageUrl.Some? <==> upload.Some?))
  {
    var user :- RequireUser(caller);
    var file :- if upload.Some? then
        var stored :- Upload.Accept(upload.value, uuid); Ok(Some(stored))
      else Ok(None);
    var req :- Dto.ParseCreateProduct(body);
    CreateAction(db, user, req, file, env)
  }

  function PatchRoute(db: Db, caller: Option<AuthUser>, id: Id, body: Dto.Body,
                      upload: Option<Upload.IncomingFile>, uuid: string, env: Env): (r: Result<(Db, Product)>)
    requires Valid(db)
    ensures caller.None? ==> r == Err(Unauthorized("Unauthorized"))
    ensures caller.Some? && upload.Some? && Upload.Accept(upload.value, uuid).Err?
        ==> r == Err(Upload.Accept(upload.value, uuid).error)
    ensures caller.Some? && UploadPasses(upload, uuid) && Dto.ParseUpdateProduct(body).Err?
        ==> r == Err(Dto.ParseUpdateProduct(body).error) && r.error.BadRequest?
    ensures caller.Some? && UploadPasses(upload, uuid) && Dto.ParseUpdateProduct(body).Ok?
        ==> r == UpdateAction(db, caller.value, id, Dto.ParseUpdateProduct(body).value, StoredUpload(upload, uuid), env)
    ensures r.Ok? ==> caller.Some? && Dto.UpdateProductValid(body) && r.value.1.ownerId == caller.value.id
  {
    var user :- RequireUser(caller);
    var file :- if upload.Some? then
        var stored :- Upload.Accept(upload.value, uuid); Ok(Some(stored))
      else Ok(None);
    var req :- Dto.ParseUpdateProduct(body);
    UpdateAction(db, user, id, req, file, env)
  }

  function ListRoute(db: Db, caller: Option<AuthUser>): (r: Result<seq<Product>>)
    ensures r.Ok? <==> caller.Some?
    ensures caller.None? ==> r == Err(Unauthorized("Unauthorized"))
    ensures caller.Some? ==> r == Ok(ListAction(db, caller.value))
  {
    var user :- RequireUser(caller);
    Ok(ListAction(db, user))
  }

  function GetRoute(db: Db, caller: Option<AuthUser>, id: Id): (r: Result<Product>)
    ensures caller.None? ==> r == Err(Unauthorized("Unauthorized"))
    ensures caller.Some? ==> r == GetAction(db, caller.value, id)
  {
    var user :- RequireUser(caller);
    GetAction(db, user, id)
  }

  function DeleteRoute(db: Db, caller: Option<AuthUser>, id: Id): (r: Result<Db>)
    ensures caller.None? ==> r == Err(Unauthorized("Unauthorized"))
    ensures caller.Some? ==> r == DeleteAction(db, caller.value, id)
  {
    var user :- RequireUser(caller);
    DeleteAction(db, user, id)
  }

  // ------------------------------------------------------------ properties

  /** A missing id is 404 on get, update and delete, for any caller and
      any body: the existence check comes before the ownership check. */
  lemma MissingIsNotFound(db: Db, user: AuthUser, id: Id, req: Dto.UpdateProductRequest,
                          file: Option<Upload.StoredFile>, env: Env)
    requires Valid(db) && forall p :: p in db.products ==> p.id != id
    ensures GetAction(db, user, id) == Err(NotFound(NotFoundMessage))
    ensures UpdateAction(db, user, id, req, file, env) == Err(NotFound(NotFoundMessage))
    ensures DeleteAction(db, user, id) == Err(NotFound(NotFoundMessage))
  {
  }

  /** Someone else's product: get, update and delete are each refused with
      403 and their own message, so the table is left as it was. */
  lemma ForeignProductRefused(db: Db, user: AuthUser, p: Product, req: Dto.UpdateProductRequest,
                              file: Option<Upload.StoredFile>, env: Env)
    requires Valid(db) && p in db.products && p.ownerId != user.id
    ensures GetAction(db, user, p.id) == Err(Forbidden(NoAccessMessage))
    ensures UpdateAction(db, user, p.id, req, file, env) == Err(Forbidden(NoUpdateMessage))
    ensures DeleteAction(db, user, p.id) == Err(Forbidden(NoDeleteMessage))
  {
    FindStoredProduct(db, p);
  }

  /** The owner gets the stored row back unchanged. */
  lemma OwnerReadsOwnProduct(db: Db, p: Product)
    requires Valid(db) && p in db.products
    ensures GetAction(db, AuthUser(p.ownerId, ""), p.id) == Ok(p)
  {
    FindStoredProduct(db, p);
  }

  /** A created product is the caller's: it shows up in the caller's list,
      and another user can neither list nor read it. */
  lemma CreatedProductIsPrivate(db: Db, user: AuthUser, other: AuthUser, req: Dto.CreateProductRequest,
                                file: Option<Upload.StoredFile>, env: Env)
    requires Valid(db) && other.id != user.id
    requires CreateAction(db, user, req, file, env).Ok?
    ensures var (after, p) := CreateAction(db, user, req, file, env).value;
      && p in ListAction(after, user)
      && p !in ListAction(after, other)
      && GetAction(after, other, p.id) == Err(Forbidden(NoAccessMessage))
  {
  }

  /** Update without a file writes exactly what the body says: supplied
      columns change, the others keep their values. */
  lemma UpdateWithoutFile(db: Db, user: AuthUser, p: Product, req: Dto.UpdateProductRequest, env: Env)
    requires Valid(db) && p in db.products && p.ownerId == user.id
    requires !req.name.SetNull? && !(req.name.SetTo? && !FitsColumn(req.name.value))
    ensures var r := UpdateAction(db, user, p.id, req, None, env);
      && r.Ok?
      && r.value.1.description == Apply(p.description, req.description)
      && r.value.1.imageUrl == Apply(p.imageUrl, req.imageUrl)
      && (req.name.Keep? ==> r.value.1.name == p.name)
      && r.value.1.createdAt == p.createdAt
  {
    FindStoredProduct(db, p);
  }

  /** With a file, the image URL is the upload's, whatever the body said. */
  lemma UpdateWithFile(db: Db, user: AuthUser, p: Product, req: Dto.UpdateProductRequest,
                       file: Upload.StoredFile, env: Env)
    requires Valid(db) && p in db.products && p.ownerId == user.id
    requires !req.name.SetNull? && !(req.name.SetTo? && !FitsColumn(req.name.value))
    ensures var r := UpdateAction(db, user, p.id, req, Some(file), env);
      r.Ok? && r.value.1.imageUrl == Some(ImageUrl(env, file.filename))
  {
    FindStoredProduct(db, p);
  }

  /** After the owner deletes a product it is gone, for everyone, along with
      its generations; every other product is still there. */
  lemma DeleteRemovesOnlyThatProduct(db: Db, user: AuthUser, p: Product)
    requires Valid(db) && p in db.products && p.ownerId == user.id
    ensures var r := DeleteAction(db, user, p.id);
      && r.Ok?
      && GetAction(r.value, user, p.id) == Err(NotFound(NotFoundMessage))
      && (forall q :: q in db.products && q.id != p.id ==> q in r.value.products)
      && (forall g :: g in r.value.generations ==> g.productId != p.id)
  {
    FindStoredProduct(db, p);
  }

  /** Validation counts a name's length without the variation selectors
      U+FE0E and U+FE0F, the column counts every character: a name of 255
      letters and one selector passes validation and is then refused by the
      database, with status 500 instead of 400. */
  lemma SelectorNameOverflowsColumn(db: Db, user: AuthUser, env: Env)
    requires Valid(db)
    ensures var name := seq(255, _ => 'a') + ['\U{FE0F}'];
      && Dto.CreateProductValid(map["name" := Dto.JStr(name)])
      && PostRoute(db, Some(user), map["name" := Dto.JStr(name)], None, "", env) == Err(Internal(NameTooLong))
  {
    var letters := seq(255, _ => 'a');
    var name := letters + ['\U{FE0F}'];
    SelectorCount(letters);
    assert name[1..] == letters[1..] + ['\U{FE0F}'];
    CountAppendSelector(letters);
    assert Dto.CheckedLength(name) == 255;
    assert name[255] != ' ';
  }

  /** A name whose only character past the 255th is a space passes
      validation the same way and is stored cut to its first 255
      characters. */
  lemma SpacePaddedNameStored(db: Db, user: AuthUser, env: Env)
    requires Valid(db)
    ensures var name := seq(254, _ => 'a') + ['\U{FE0F}', ' '];
      var r := PostRoute(db, Some(user), map["name" := Dto.JStr(name)], None, "", env);
      && Dto.CreateProductValid(map["name" := Dto.JStr(name)])
      && r.Ok? && r.value.1.name == name[..255] && r.value.1.ownerId == user.id
  {
    var letters := seq(254, _ => 'a');
    var withSelector := letters + ['\U{FE0F}'];
    var name := withSelector + [' '];
    assert name == letters + ['\U{FE0F}', ' '];
    SelectorCount(letters);
    CountAppendSelector(letters);
    CountAppendSpace(withSelector);
    assert Dto.CheckedLength(name) == 255;
    assert FitsColumn(name);
  }

  /** An update to 255 letters and a trailing space stores the 255 letters. */
  lemma SpacePaddedRenameStored(p: Product, now: nat)
    ensures var letters := seq(255, _ => 'a');
      var r := UpdatedRow(p, Dto.UpdateProductRequest(Dto.SetTo(letters + [' ']), Dto.Keep, Dto.Keep), now);
      r.Ok? && r.value.name == letters
  {
    var letters := seq(255, _ => 'a');
    assert (letters + [' '])[..255] == letters;
  }

  lemma {:induction false} CountAppendSpace(s: string)
    ensures Dto.CountSelectors(s + [' ']) == Dto.CountSelectors(s)
  {
    if |s| > 0 {
      assert (s + [' '])[1..] == s[1..] + [' '];
      CountAppendSpace(s[1..]);
    }
  }

  lemma {:induction false} SelectorCount(s: string)
    requires forall i :: 0 <= i < |s| ==> s[i] == 'a'
    ensures Dto.CountSelectors(s) == 0
  {
    if |s| > 0 {
      SelectorCount(s[1..]);
    }
  }

  lemma {:induction false} CountAppendSelector(s: string)
    ensures Dto.CountSelectors(s + ['\U{FE0F}']) == Dto.CountSelectors(s) + 1
  {
    if |s| > 0 {
      assert (s + ['\U{FE0F}'])[1..] == s[1..] + ['\U{FE0F}'];
      CountAppendSelector(s[1..]);
    }
  }
}
