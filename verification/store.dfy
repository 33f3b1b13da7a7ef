/** The database behind the backend: the users, products and generations
    tables, a counter that hands out fresh ids and a clock that stamps rows.
    Each table keeps its rows in insertion order; since every write ticks the
    clock, "ordered by createdAt descending" is the reverse of that order. */
module Store {
  import opened Wrappers

  /** Row ids. The database generates UUIDs; a fresh natural number plays
      that part here. */
  type Id = nat

  datatype User = User(id: Id, email: string, name: Option<string>, passwordHash: string)

  datatype Product = Product(
    id: Id,
    name: string,
    description: Option<string>,
    imageUrl: Option<string>,
    ownerId: Id,
    createdAt: nat,
    updatedAt: nat)

  datatype Generation = Generation(
    id: Id,
    productId: Id,
    title: string,
    longDescription: string,
    tags: string,
    socialInstagram: string,
    socialTikTok: string,
    socialFacebook: string,
    socialPinterest: string,
    createdAt: nat)

  datatype Db = Db(
    users: seq<User>,
    products: seq<Product>,
    generations: seq<Generation>,
    nextId: Id,
    clock: nat)

  /** The caller as the JWT strategy puts it on the request. */
  datatype AuthUser = AuthUser(id: Id, email: string)

  const EmptyDb := Db([], [], [], 0, 0)

  // ------------------------------------------------------------ sequences

  function Filter<T(!new)>(s: seq<T>, keep: T -> bool): (r: seq<T>)
    ensures |r| <= |s|
    ensures forall x :: x in r <==> x in s && keep(x)
  {
    if s == [] then []
    else
      assert forall x :: x in s <==> x == s[0] || x in s[1..];
      (if keep(s[0]) then [s[0]] else []) + Filter(s[1..], keep)
  }

  function Reverse<T>(s: seq<T>): (r: seq<T>)
    ensures |r| == |s|
    ensures forall i :: 0 <= i < |s| ==> r[i] == s[|s| - 1 - i]
  {
    if s == [] then [] else Reverse(s[1..]) + [s[0]]
  }

  lemma ReverseMembers<T(!new)>(s: seq<T>)
    ensures forall x :: x in Reverse(s) <==> x in s
  {
    var r := Reverse(s);
    forall x | x in s ensures x in r {
      var i :| 0 <= i < |s| && s[i] == x;
      assert r[|s| - 1 - i] == x;
    }
  }

  /** The first element that satisfies `hit`, if any. */
  function Find<T(!new)>(s: seq<T>, hit: T -> bool): (r: Option<T>)
    ensures r.Some? ==> r.value in s && hit(r.value)
    ensures r.None? <==> forall x :: x in s ==> !hit(x)
  {
    if s == [] then None
    else if hit(s[0]) then Some(s[0])
    else
      assert forall x :: x in s ==> x == s[0] || x in s[1..];
      Find(s[1..], hit)
  }

  predicate Ascending<T>(s: seq<T>, key: T -> int) {
    forall i, j :: 0 <= i < j < |s| ==> key(s[i]) < key(s[j])
  }

  predicate Descending<T>(s: seq<T>, key: T -> int) {
    forall i, j :: 0 <= i < j < |s| ==> key(s[i]) > key(s[j])
  }

  /** Keeping some elements of an ascending sequence keeps it ascending. */
  lemma {:induction false} FilterAscending<T(!new)>(s: seq<T>, keep: T -> bool, key: T -> int)
    requires Ascending(s, key)
    ensures Ascending(Filter(s, keep), key)
  {
    if s != [] {
      var t := Filter(s[1..], keep);
      FilterAscending(s[1..], keep, key);
      if keep(s[0]) {
        var r := [s[0]] + t;
        forall i, j | 0 <= i < j < |r| ensures key(r[i]) < key(r[j]) {
          if i == 0 {
            assert r[j] in s[1..];
            var k :| 0 <= k < |s[1..]| && s[1..][k] == r[j];
            assert s[k + 1] == r[j];
          } else {
            assert r[i] == t[i - 1] && r[j] == t[j - 1];
          }
        }
      }
    }
  }

  /** Newest first: the reverse of an ascending sequence descends. */
  lemma ReverseDescending<T>(s: seq<T>, key: T -> int)
    requires Ascending(s, key)
    ensures Descending(Reverse(s), key)
  {
  }

  /** In an ascending sequence two elements with the same key are the same
      element. */
  lemma AscendingKeyUnique<T>(s: seq<T>, key: T -> int, x: T, y: T)
    requires Ascending(s, key) && x in s && y in s && key(x) == key(y)
    ensures x == y
  {
    var i :| 0 <= i < |s| && s[i] == x;
    var j :| 0 <= j < |s| && s[j] == y;
    assert !(i < j) && !(j < i);
  }

  // ------------------------------------------------------------ keys

  function UserId(u: User): int { u.id }
  function ProductId(p: Product): int { p.id }
  function ProductTime(p: Product): int { p.createdAt }
  function GenerationId(g: Generation): int { g.id }
  function GenerationTime(g: Generation): int { g.createdAt }

  // ------------------------------------------------------------ invariant

  /** Users: ids issued in order and below the counter; emails unique. */
  predicate UsersValid(db: Db) {
    && Ascending(db.users, UserId)
    && (forall u :: u in db.users ==> u.id < db.nextId)
    && (forall i, j :: 0 <= i < j < |db.users| ==> db.users[i].email != db.users[j].email)
  }

  /** Products: ids and creation times issued in order, both below the
      counter and the clock. */
  predicate ProductsValid(db: Db) {
    && Ascending(db.products, ProductId)
    && Ascending(db.products, ProductTime)
    && (forall p :: p in db.products ==> p.id < db.nextId && p.createdAt < db.clock)
  }

  /** Generations: like products, and each belongs to a stored product. */
  predicate GenerationsValid(db: Db) {
    && Ascending(db.generations, GenerationId)
    && Ascending(db.generations, GenerationTime)
    && (forall g :: g in db.generations ==> g.id < db.nextId && g.createdAt < db.clock)
    && (forall g :: g in db.generations ==> exists p :: p in db.products && p.id == g.productId)
  }

  predicate Valid(db: Db) {
    UsersValid(db) && ProductsValid(db) && GenerationsValid(db)
  }

  lemma EmptyDbValid()
    ensures Valid(EmptyDb)
  {
  }

  // ------------------------------------------------------------ lookups

  function FindProduct(db: Db, id: Id): (r: Option<Product>)
    ensures r.Some? ==> r.value in db.products && r.value.id == id
    ensures r.None? <==> forall p :: p in db.products ==> p.id != id
  {
    Find(db.products, (p: Product) => p.id == id)
  }

  /** In a valid store the lookup finds the one product with that id. */
  lemma FindStoredProduct(db: Db, p: Product)
    requires Valid(db) && p in db.products
    ensures FindProduct(db, p.id) == Some(p)
  {
    var r := FindProduct(db, p.id);
    AscendingKeyUnique(db.products, ProductId, r.value, p);
  }

  function FindGeneration(db: Db, id: Id): (r: Option<Generation>)
    ensures r.Some? ==> r.value in db.generations && r.value.id == id
    ensures r.None? <==> forall g :: g in db.generations ==> g.id != id
  {
    Find(db.generations, (g: Generation) => g.id == id)
  }

  /** `findOne({ where: { email } })`: the exact-match lookup. */
  function FindUserByEmail(db: Db, email: string): (r: Option<User>)
    ensures r.Some? ==> r.value in db.users && r.value.email == email
    ensures r.None? <==> forall u :: u in db.users ==> u.email != email
  {
    Find(db.users, (u: User) => u.email == email)
  }

  /** The guard in front of every protected route: no valid token, 401. */
  function RequireUser(caller: Option<AuthUser>): (r: Result<AuthUser>)
    ensures r.Ok? <==> caller.Some?
    ensures r.Ok? ==> r.value == caller.value
    ensures r.Err? ==> r.error == Unauthorized("Unauthorized")
  {
    match caller
    case None => Err(Unauthorized("Unauthorized"))
    case Some(u) => Ok(u)
  }
}
