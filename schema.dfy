/** The four tables of the persisted schema (`users`, `products`, `purchases`,
    `purchase_items`), their rows, and the database object every store works
    on. A table is a sequence of rows in insertion order; `id` comes from the
    table's serial sequence and `created_at` from the clock read by `NOW()`. */
module Schema {
  import opened Sql

  datatype Product = Product(
    id: int, name: string, description: string, price: int, stock: int,
    category: string, imageUrl: Option<string>, createdAt: int)

  /** `password` holds the stored bcrypt digest, never a plaintext. */
  datatype User = User(
    id: int, username: string, email: string, password: string,
    fullName: Option<string>, address: Option<string>, createdAt: int)

  datatype Purchase = Purchase(
    id: int, userId: int, totalAmount: int, status: string, createdAt: int)

  /** A line item: quantity and the unit price captured when it was bought. */
  datatype PurchaseItem = PurchaseItem(
    id: int, purchaseId: int, productId: int, quantity: int, price: int)

  function ProductId(p: Product): int { p.id }
  function ProductCreated(p: Product): int { p.createdAt }
  function UserId(u: User): int { u.id }
  function UserCreated(u: User): int { u.createdAt }
  function PurchaseId(p: Purchase): int { p.id }
  function PurchaseCreated(p: Purchase): int { p.createdAt }
  function ItemId(it: PurchaseItem): int { it.id }

  function ProductIds(ps: seq<Product>): set<int> { set p | p in ps :: p.id }
  function UserIds(us: seq<User>): set<int> { set u | u in us :: u.id }
  function PurchaseIds(ps: seq<Purchase>): set<int> { set p | p in ps :: p.id }

  /** A serial primary key: strictly ascending in table order, and below the
      next value the sequence will hand out. */
  predicate Keyed<T>(rows: seq<T>, id: T -> int, next: int) {
    Ascending(rows, id) && forall i :: 0 <= i < |rows| ==> id(rows[i]) < next
  }

  /** `created_at` set by `NOW()` at insertion: ascending in table order and
      earlier than the current clock. */
  predicate Timed<T>(rows: seq<T>, created: T -> int, clock: int) {
    Ascending(rows, created) && forall i :: 0 <= i < |rows| ==> created(rows[i]) < clock
  }

  /** The UNIQUE constraints on `users.email` and `users.username`. */
  predicate UniqueLogins(users: seq<User>) {
    forall i, j :: 0 <= i < j < |users| ==>
      users[i].email != users[j].email && users[i].username != users[j].username
  }

  /** The foreign keys `purchases.user_id -> users.id`,
      `purchase_items.purchase_id -> purchases.id` and
      `purchase_items.product_id -> products.id`. */
  predicate References(products: seq<Product>, users: seq<User>,
                       purchases: seq<Purchase>, items: seq<PurchaseItem>) {
    && (forall p :: p in purchases ==> p.userId in UserIds(users))
    && (forall it :: it in items ==> it.purchaseId in PurchaseIds(purchases))
    && (forall it :: it in items ==> it.productId in ProductIds(products))
  }

  /** Every constraint the tables are assumed to have, over one snapshot of
      the tables, sequences and clock. */
  predicate Consistent(products: seq<Product>, users: seq<User>, purchases: seq<Purchase>,
                       items: seq<PurchaseItem>, nextProduct: int, nextUser: int,
                       nextPurchase: int, nextItem: int, clock: int) {
    && Keyed(products, ProductId, nextProduct)
    && Keyed(users, UserId, nextUser)
    && Keyed(purchases, PurchaseId, nextPurchase)
    && Keyed(items, ItemId, nextItem)
    && Timed(products, ProductCreated, clock)
    && Timed(users, UserCreated, clock)
    && Timed(purchases, PurchaseCreated, clock)
    && UniqueLogins(users)
    && References(products, users, purchases, items)
  }

  /** Advancing sequences and the clock never breaks consistency: this is why
      a rollback may leave the sequences where the failed statements put
      them. */
  lemma ConsistentLater(products: seq<Product>, users: seq<User>, purchases: seq<Purchase>,
                        items: seq<PurchaseItem>, np: int, nu: int, npu: int, ni: int, clock: int,
                        np': int, nu': int, npu': int, ni': int, clock': int)
    requires Consistent(products, users, purchases, items, np, nu, npu, ni, clock)
    requires np <= np' && nu <= nu' && npu <= npu' && ni <= ni' && clock <= clock'
    ensures Consistent(products, users, purchases, items, np', nu', npu', ni', clock')
  {
  }

  /** The database: the four tables, the four serial sequences and the clock.
      Sequences are not transactional: a rolled-back insert still consumes
      its id, so a counter may run ahead of the largest id in its table. */
  class Db {
    var products: seq<Product>
    var users: seq<User>
    var purchases: seq<Purchase>
    var purchaseItems: seq<PurchaseItem>
    var nextProductId: int
    var nextUserId: int
    var nextPurchaseId: int
    var nextItemId: int
    var clock: int

    predicate Valid()
      reads this
    {
      Consistent(products, users, purchases, purchaseItems,
                 nextProductId, nextUserId, nextPurchaseId, nextItemId, clock)
    }

    /** An empty database whose sequences start at 1. */
    constructor ()
      ensures Valid()
      ensures products == [] && users == [] && purchases == [] && purchaseItems == []
    {
      products, users, purchases, purchaseItems := [], [], [], [];
      nextProductId, nextUserId, nextPurchaseId, nextItemId := 1, 1, 1, 1;
      clock := 0;
    }
  }

  /** Appending a row whose key and timestamp are the counters' current values
      keeps a table keyed and timed once both counters move past them. */
  lemma AppendKeyed<T>(rows: seq<T>, row: T, id: T -> int, next: int)
    requires Keyed(rows, id, next) && id(row) == next
    ensures Keyed(rows + [row], id, next + 1)
  {
  }

  lemma AppendTimed<T>(rows: seq<T>, row: T, created: T -> int, clock: int)
    requires Timed(rows, created, clock) && created(row) == clock
    ensures Timed(rows + [row], created, clock + 1)
  {
  }

  /** A key present in a keyed table belongs to exactly one row. */
  lemma KeyedUnique<T>(rows: seq<T>, id: T -> int, next: int, i: int, j: int)
    requires Keyed(rows, id, next)
    requires 0 <= i < |rows| && 0 <= j < |rows| && id(rows[i]) == id(rows[j])
    ensures i == j
  {
  }

  /** Deleting rows keeps a table keyed and timed. */
  lemma WhereKeyed<T>(rows: seq<T>, p: T -> bool, id: T -> int, next: int)
    requires Keyed(rows, id, next)
    ensures Keyed(Where(rows, p), id, next)
  {
    WhereAscending(rows, p, id);
  }

  lemma WhereTimed<T>(rows: seq<T>, p: T -> bool, created: T -> int, clock: int)
    requires Timed(rows, created, clock)
    ensures Timed(Where(rows, p), created, clock)
  {
    WhereAscending(rows, p, created);
  }

  /** Time only moves forward. */
  lemma TimedLater<T>(rows: seq<T>, created: T -> int, clock: int, later: int)
    requires Timed(rows, created, clock) && clock <= later
    ensures Timed(rows, created, later)
  {
  }
}
