/** The purchase store (`backend/models/Purchase.js`). `Create` and `Delete`
    each run as one BEGIN/COMMIT unit: the statements change the tables one
    after another, and on any error ROLLBACK restores the tables and the
    error is passed on. A failure the model cannot predict (a lost
    connection) is the parameter `fault`: the index of the statement that
    throws. */
module PurchaseModel {
  import opened Sql
  import opened Schema
  import ProductModel
  import UserModel

  /** One entry of the request's `items`: `{product_id, quantity, price}`. */
  datatype LineInput = LineInput(productId: int, quantity: int, price: int)

  /** A purchase joined with its owner: `p.*, u.username, u.full_name`. */
  datatype PurchaseView = PurchaseView(purchase: Purchase, username: string, fullName: Option<string>)

  /** A line item joined with its product: `pi.*, p.name, p.image_url`. */
  datatype ItemView = ItemView(item: PurchaseItem, productName: string, imageUrl: Option<string>)

  /** `RETURNING id, status` of a status update. */
  datatype StatusRow = StatusRow(id: int, status: string)

  const Completed: string := "completed"

  // ---------------------------------------------------------------------------
  // What a committed purchase writes.

  /** The `purchase_items` rows for purchase `pid`, one per line, in order,
      with ids drawn from the sequence starting at `firstId`. */
  function LineItems(pid: int, firstId: int, lines: seq<LineInput>): (r: seq<PurchaseItem>)
    ensures |r| == |lines|
    ensures forall k :: 0 <= k < |lines| ==>
      r[k] == PurchaseItem(firstId + k, pid, lines[k].productId, lines[k].quantity, lines[k].price)
  {
    if lines == [] then []
    else
      var n := |lines| - 1;
      LineItems(pid, firstId, lines[..n]) +
        [PurchaseItem(firstId + n, pid, lines[n].productId, lines[n].quantity, lines[n].price)]
  }

  /** The products table after each line's stock UPDATE, in line order. */
  function ApplyOrder(products: seq<Product>, lines: seq<LineInput>): (r: seq<Product>)
    ensures |r| == |products|
  {
    if lines == [] then products
    else
      var n := |lines| - 1;
      ProductModel.Decrement(ApplyOrder(products, lines[..n]), lines[n].productId, lines[n].quantity)
  }

  /** Total quantity the lines order of one product. */
  function OrderedQuantity(lines: seq<LineInput>, productId: int): int {
    if lines == [] then 0
    else
      var n := |lines| - 1;
      OrderedQuantity(lines[..n], productId) + (if lines[n].productId == productId then lines[n].quantity else 0)
  }

  /** Exact stock arithmetic: each product loses the sum of the quantities of
      the lines naming it (repeated lines accumulate), nothing else about any
      row changes, and no floor is applied. */
  lemma {:induction false} ApplyOrderStock(products: seq<Product>, lines: seq<LineInput>, i: int)
    requires 0 <= i < |products|
    ensures ApplyOrder(products, lines)[i] ==
      products[i].(stock := products[i].stock - OrderedQuantity(lines, products[i].id))
  {
    if lines != [] {
      ApplyOrderStock(products, lines[..|lines| - 1], i);
    }
  }

  /** Nothing stops an order from taking more than is in stock: two lines of
      six against a stock of ten leave it at -2. */
  lemma OversellGoesNegative()
    ensures ApplyOrder([Product(1, "Lamp", "Desk lamp", 25, 10, "home", None, 0)],
                       [LineInput(1, 6, 25), LineInput(1, 6, 25)])[0].stock == -2
  {
    var ps := [Product(1, "Lamp", "Desk lamp", 25, 10, "home", None, 0)];
    var lines := [LineInput(1, 6, 25), LineInput(1, 6, 25)];
    ApplyOrderStock(ps, lines, 0);
    assert lines[..1][..0] == [];
    assert OrderedQuantity(lines[..1], 1) == 6;
  }

  /** Stock updates keep the table keyed and timed and keep its ids. */
  lemma {:induction false} ApplyOrderKeepsKeys(products: seq<Product>, lines: seq<LineInput>, next: int, clock: int)
    requires Keyed(products, ProductId, next) && Timed(products, ProductCreated, clock)
    ensures Keyed(ApplyOrder(products, lines), ProductId, next)
    ensures Timed(ApplyOrder(products, lines), ProductCreated, clock)
    ensures ProductIds(ApplyOrder(products, lines)) == ProductIds(products)
  {
    if lines != [] {
      var n := |lines| - 1;
      ApplyOrderKeepsKeys(products, lines[..n], next, clock);
      ProductModel.DecrementKeepsKeys(ApplyOrder(products, lines[..n]), lines[n].productId,
                                      lines[n].quantity, next, clock);
    }
  }

  /** Every line names an existing product. */
  predicate LinesResolve(products: seq<Product>, lines: seq<LineInput>) {
    forall k :: 0 <= k < |lines| ==> lines[k].productId in ProductIds(products)
  }

  /** The statements of `Create`, numbered from 0: the purchase INSERT (0),
      for line k its INSERT (2k+1) and its stock UPDATE (2k+2), then COMMIT
      (2n+1). The unit commits when the owner exists (foreign key
      `purchases.user_id`), every line's product exists (foreign key
      `purchase_items.product_id`) and no statement fails from outside. */
  predicate OrderCanCommit(users: seq<User>, products: seq<Product>, userId: int,
                           lines: seq<LineInput>, fault: Option<nat>) {
    && userId in UserIds(users)
    && LinesResolve(products, lines)
    && (fault.None? || fault.value > 2 * |lines| + 1)
  }

  // ---------------------------------------------------------------------------
  // Purchase.create

  /** The working copy of the two tables a purchase writes line by line,
      the item sequence's next value, and the error that stopped the unit
      if one did. */
  datatype Work = Work(products: seq<Product>, items: seq<PurchaseItem>, nextItemId: int,
                       error: Option<DbError>)

  /** The fault, if any, hits none of the statements numbered `lo` to `hi`. */
  predicate Misses(fault: Option<nat>, lo: int, hi: int) {
    fault.None? || fault.value < lo || fault.value > hi
  }

  /** The loop's tables after one more line. */
  lemma PrefixStep(pid: int, firstId: int, products: seq<Product>, lines: seq<LineInput>, k: int)
    requires 0 <= k < |lines|
    ensures LineItems(pid, firstId, lines[..k + 1]) ==
      LineItems(pid, firstId, lines[..k]) +
      [PurchaseItem(firstId + k, pid, lines[k].productId, lines[k].quantity, lines[k].price)]
    ensures ApplyOrder(products, lines[..k + 1]) ==
      ProductModel.Decrement(ApplyOrder(products, lines[..k]), lines[k].productId, lines[k].quantity)
  {
    assert lines[..k + 1][..k] == lines[..k];
  }

  /** The `for (const item of items)` loop of `Purchase.create`: for line k,
      statement 2k+1 inserts its line item (a foreign-key error when the
      product does not exist) and statement 2k+2 lowers that product's
      stock. The loop stops at the first error. Without error the working
      copy holds every line item and every stock update; the item sequence
      advances once per INSERT that ran, failed or not. */
  method InsertLines(products: seq<Product>, items: seq<PurchaseItem>, pid: int, firstItemId: int,
                     lines: seq<LineInput>, fault: Option<nat>) returns (w: Work)
    ensures w.error.None? <==> LinesResolve(products, lines) && Misses(fault, 1, 2 * |lines|)
    ensures w.error.None? ==>
      && w.products == ApplyOrder(products, lines)
      && w.items == items + LineItems(pid, firstItemId, lines)
      && w.nextItemId == firstItemId + |lines|
    ensures w.error.Some? && fault.None? ==> w.error.value == ForeignKeyViolation
    ensures firstItemId <= w.nextItemId
  {
    var ps, its, next := products, items, firstItemId;
    ApplyOrderKeepsIds(products, []);
    var k := 0;
    while k < |lines|
      invariant 0 <= k <= |lines|
      invariant ps == ApplyOrder(products, lines[..k])
      invariant its == items + LineItems(pid, firstItemId, lines[..k])
      invariant next == firstItemId + k
      invariant LinesResolve(products, lines[..k])
      invariant Misses(fault, 1, 2 * k)
    {
      var line := lines[k];
      PrefixStep(pid, firstItemId, products, lines, k);
      ApplyOrderKeepsIds(products, lines[..k]);
      // INSERT INTO purchase_items (purchase_id, product_id, quantity, price)
      if fault == Some(2 * k + 1) {
        return Work(ps, its, next, Some(ConnectionLost));
      }
      var row := PurchaseItem(next, pid, line.productId, line.quantity, line.price);
      next := next + 1;
      if line.productId !in ProductIds(ps) {
        return Work(ps, its, next, Some(ForeignKeyViolation));
      }
      its := its + [row];
      // UPDATE products SET stock = stock - $1 WHERE id = $2
      if fault == Some(2 * k + 2) {
        return Work(ps, its, next, Some(ConnectionLost));
      }
      ps := ProductModel.Decrement(ps, line.productId, line.quantity);
      k := k + 1;
    }
    assert lines[..k] == lines;
    w := Work(ps, its, next, None);
  }

  /** The tables a committed purchase leaves behind satisfy every schema
      constraint. */
  lemma CommitConsistent(products: seq<Product>, users: seq<User>, purchases: seq<Purchase>,
                         items: seq<PurchaseItem>, np: int, nu: int, npu: int, ni: int, clock: int,
                         purchase: Purchase, lines: seq<LineInput>, ni': int)
    requires Consistent(products, users, purchases, items, np, nu, npu, ni, clock)
    requires purchase.id == npu && purchase.createdAt == clock && purchase.userId in UserIds(users)
    requires LinesResolve(products, lines) && ni <= ni'
    ensures purchase.id !in PurchaseIds(purchases)
    ensures Consistent(ApplyOrder(products, lines), users, purchases + [purchase],
                       items + LineItems(purchase.id, ni', lines), np, nu, npu + 1, ni' + |lines|, clock + 1)
  {
    var ps := purchases + [purchase];
    var fresh_ := LineItems(purchase.id, ni', lines);
    var its := items + fresh_;
    AppendKeyed(purchases, purchase, PurchaseId, npu);
    AppendTimed(purchases, purchase, PurchaseCreated, clock);
    TimedLater(users, UserCreated, clock, clock + 1);
    ApplyOrderKeepsKeys(products, lines, np, clock + 1);
    assert PurchaseIds(purchases) <= PurchaseIds(ps);
    assert purchase.id in PurchaseIds(ps);
    assert Ascending(its, ItemId) by {
      forall i, j | 0 <= i < j < |its| ensures its[i].id < its[j].id {
        if j < |items| {
        } else if i < |items| {
          assert its[i] == items[i];
        }
      }
    }
    forall it | it in its
      ensures it.purchaseId in PurchaseIds(ps) && it.productId in ProductIds(products)
    {
      var i :| 0 <= i < |its| && its[i] == it;
      if i >= |items| {
        assert it == fresh_[i - |items|];
      } else {
        assert it == items[i];
      }
    }
  }

  /** The unit commits exactly when every statement in turn succeeds. */
  lemma CommitSteps(users: seq<User>, products: seq<Product>, userId: int,
                    lines: seq<LineInput>, fault: Option<nat>)
    ensures OrderCanCommit(users, products, userId, lines, fault) <==>
      && fault != Some(0)
      && userId in UserIds(users)
      && LinesResolve(products, lines) && Misses(fault, 1, 2 * |lines|)
      && fault != Some(2 * |lines| + 1)
  {
  }

  /** The statements between BEGIN and COMMIT or ROLLBACK, over the tables'
      values: `pid`, `ni` and `now` are what the purchase sequence, the item
      sequence and `NOW()` hand out next. Returns the outcome, the three
      tables as the unit leaves them and the sequences' next values. */
  method Transact(products: seq<Product>, users: seq<User>, purchases: seq<Purchase>,
                  items: seq<PurchaseItem>, ghost np: int, ghost nu: int, pid: int, ni: int, now: int,
                  userId: int, totalAmount: int, lines: seq<LineInput>, fault: Option<nat>)
    returns (r: Result<Purchase>, products': seq<Product>, purchases': seq<Purchase>,
             items': seq<PurchaseItem>, nextPurchase: int, nextItem: int)
    requires Consistent(products, users, purchases, items, np, nu, pid, ni, now)
    ensures Consistent(products', users, purchases', items', np, nu, nextPurchase, nextItem, now + 1)
    ensures pid <= nextPurchase && ni <= nextItem
    ensures r.Ok? <==> OrderCanCommit(users, products, userId, lines, fault)
    ensures r.Ok? ==>
      && r.value == Purchase(pid, userId, totalAmount, Completed, now)
      && r.value.id !in PurchaseIds(purchases)
      && purchases' == purchases + [r.value]
      && items' == items + LineItems(r.value.id, ni, lines)
      && products' == ApplyOrder(products, lines)
    ensures r.Err? ==> products' == products && purchases' == purchases && items' == items
    ensures r.Err? && fault.None? ==> r.error == ForeignKeyViolation
  {
    CommitSteps(users, products, userId, lines, fault);
    products', purchases', items', nextPurchase, nextItem := products, purchases, items, pid, ni;
    // INSERT INTO purchases (user_id, total_amount, status) ... RETURNING *
    if fault == Some(0) {
      ConsistentLater(products, users, purchases, items, np, nu, pid, ni, now, np, nu, pid, ni, now + 1);
      return Err(ConnectionLost), products', purchases', items', nextPurchase, nextItem;
    }
    nextPurchase := pid + 1;
    if userId !in UserIds(users) {
      ConsistentLater(products, users, purchases, items, np, nu, pid, ni, now, np, nu, pid + 1, ni, now + 1);
      return Err(ForeignKeyViolation), products', purchases', items', nextPurchase, nextItem;
    }
    var purchase := Purchase(pid, userId, totalAmount, Completed, now);
    var w := InsertLines(products, items, pid, ni, lines, fault);
    nextItem := w.nextItemId;
    if w.error.Some? || fault == Some(2 * |lines| + 1) {
      // ROLLBACK: the tables are untouched, the sequences stay advanced.
      ConsistentLater(products, users, purchases, items, np, nu, pid, ni, now,
                      np, nu, pid + 1, w.nextItemId, now + 1);
      r := Err(if w.error.Some? then w.error.value else ConnectionLost);
      return;
    }
    // COMMIT
    CommitConsistent(products, users, purchases, items, np, nu, pid, ni, now, purchase, lines, ni);
    r := Ok(purchase);
    products', purchases', items' := w.products, purchases + [purchase], w.items;
  }

  /** `Purchase.create({user_id, total_amount, items})`. On success the
      purchase is stored with the given owner and total (never recomputed
      from the lines) and status 'completed', one line item per input line
      follows it, and each product's stock drops by what the lines order.
      On failure products, purchases and line items are exactly as before;
      the sequences and the clock advance either way. */
  method Create(db: Db, userId: int, totalAmount: int, lines: seq<LineInput>, fault: Option<nat>)
    returns (r: Result<Purchase>)
    requires db.Valid()
    modifies db`products, db`purchases, db`purchaseItems, db`nextPurchaseId, db`nextItemId, db`clock
    ensures db.Valid()
    ensures r.Ok? <==> OrderCanCommit(old(db.users), old(db.products), userId, lines, fault)
    ensures r.Ok? ==>
      && r.value == Purchase(old(db.nextPurchaseId), userId, totalAmount, Completed, old(db.clock))
      && r.value.id !in PurchaseIds(old(db.purchases))
      && db.purchases == old(db.purchases) + [r.value]
      && db.purchaseItems == old(db.purchaseItems) + LineItems(r.value.id, old(db.nextItemId), lines)
      && db.products == ApplyOrder(old(db.products), lines)
    ensures r.Err? ==>
      && db.products == old(db.products)
      && db.purchases == old(db.purchases)
      && db.purchaseItems == old(db.purchaseItems)
    ensures r.Err? && fault.None? ==> r.error == ForeignKeyViolation
  {
    // BEGIN
    var users, np, nu, now := db.users, db.nextProductId, db.nextUserId, db.clock;
    var products, purchases, items, nextPurchase, nextItem;
    r, products, purchases, items, nextPurchase, nextItem :=
      Transact(db.products, users, db.purchases, db.purchaseItems, np, nu,
               db.nextPurchaseId, db.nextItemId, now, userId, totalAmount, lines, fault);
    db.products, db.purchases, db.purchaseItems := products, purchases, items;
    db.nextPurchaseId, db.nextItemId, db.clock := nextPurchase, nextItem, now + 1;
    assert db.users == users && db.nextProductId == np && db.nextUserId == nu;
  }

  // ---------------------------------------------------------------------------
  // Reads.

  function FindRow(purchases: seq<Purchase>, id: int): (r: Option<Purchase>)
    ensures r.Some? ==> r.value in purchases && r.value.id == id
    ensures r.None? <==> id !in PurchaseIds(purchases)
  {
    if purchases == [] then None
    else if purchases[0].id == id then Some(purchases[0])
    else
      assert forall p :: p in purchases ==> p == purchases[0] || p in purchases[1..];
      FindRow(purchases[1..], id)
  }

  /** The view's `username` and `full_name` are those of a user whose id is
      the purchase's `user_id`. */
  ghost predicate Owner(v: PurchaseView, users: seq<User>) {
    exists u :: u in users && u.id == v.purchase.userId &&
      v.username == u.username && v.fullName == u.fullName
  }

  /** `JOIN users u ON p.user_id = u.id` for one purchase. */
  function JoinUser(p: Purchase, users: seq<User>): (r: Option<PurchaseView>)
    ensures r.Some? <==> p.userId in UserIds(users)
    ensures r.Some? ==> r.value.purchase == p && Owner(r.value, users)
  {
    match UserModel.FindRow(users, p.userId)
    case Some(u) => Some(PurchaseView(p, u.username, u.fullName))
    case None => None
  }

  /** The inner join of purchases with their owners, in table order. */
  function JoinUsers(purchases: seq<Purchase>, users: seq<User>): (r: seq<PurchaseView>)
    ensures |r| <= |purchases|
    ensures forall v :: v in r ==> v.purchase in purchases && Owner(v, users)
    ensures (forall p :: p in purchases ==> p.userId in UserIds(users)) ==>
      |r| == |purchases| && forall i :: 0 <= i < |r| ==> r[i].purchase == purchases[i]
  {
    if purchases == [] then []
    else
      var rest := JoinUsers(purchases[1..], users);
      assert forall p :: p in purchases[1..] ==> p in purchases;
      match JoinUser(purchases[0], users)
      case Some(v) => [v] + rest
      case None => rest
  }

  function ViewCreated(v: PurchaseView): int { v.purchase.createdAt }

  /** `SELECT p.*, u.username, u.full_name FROM purchases p JOIN users u
      ON p.user_id = u.id WHERE p.id = $1`. */
  function FindById(purchases: seq<Purchase>, users: seq<User>, id: int): (r: Option<PurchaseView>)
    ensures r.Some? ==> r.value.purchase in purchases && r.value.purchase.id == id && Owner(r.value, users)
    ensures id !in PurchaseIds(purchases) ==> r.None?
  {
    match FindRow(purchases, id)
    case Some(p) => JoinUser(p, users)
    case None => None
  }

  /** Under the foreign key on `purchases.user_id` the join loses nothing:
      the lookup finds a purchase exactly when the id is in the table, and
      in a keyed table it is the row carrying that id. */
  lemma FindByIdExact(purchases: seq<Purchase>, users: seq<User>, next: int, id: int)
    requires Keyed(purchases, PurchaseId, next)
    requires forall p :: p in purchases ==> p.userId in UserIds(users)
    ensures FindById(purchases, users, id).Some? <==> id in PurchaseIds(purchases)
    ensures forall i :: 0 <= i < |purchases| && purchases[i].id == id ==>
      FindById(purchases, users, id).value.purchase == purchases[i]
  {
    forall i | 0 <= i < |purchases| && purchases[i].id == id
      ensures FindById(purchases, users, id).value.purchase == purchases[i]
    {
      var p := FindRow(purchases, id).value;
      var j :| 0 <= j < |purchases| && purchases[j] == p;
      KeyedUnique(purchases, PurchaseId, next, i, j);
    }
  }

  function OwnedBy(purchases: seq<Purchase>, userId: int): seq<Purchase> {
    Where(purchases, (p: Purchase) => p.userId == userId)
  }

  /** `... WHERE p.user_id = $1 ORDER BY p.created_at DESC`. */
  function FindByUserId(purchases: seq<Purchase>, users: seq<User>, userId: int): seq<PurchaseView> {
    Reverse(JoinUsers(OwnedBy(purchases, userId), users))
  }

  /** `... ORDER BY p.created_at DESC` over every purchase. */
  function FindAll(purchases: seq<Purchase>, users: seq<User>): seq<PurchaseView> {
    Reverse(JoinUsers(purchases, users))
  }

  /** Joining users onto an ascending table keeps it ascending. */
  lemma JoinUsersAscending(purchases: seq<Purchase>, users: seq<User>)
    requires Ascending(purchases, PurchaseCreated)
    requires forall p :: p in purchases ==> p.userId in UserIds(users)
    ensures Ascending(JoinUsers(purchases, users), ViewCreated)
    ensures forall p :: p in purchases <==> exists v :: v in JoinUsers(purchases, users) && v.purchase == p
  {
    var r := JoinUsers(purchases, users);
    assert |r| == |purchases| && forall i :: 0 <= i < |r| ==> r[i].purchase == purchases[i];
    assert Ascending(r, ViewCreated) by {
      forall i, j | 0 <= i < j < |r| ensures ViewCreated(r[i]) < ViewCreated(r[j]) {
        assert r[i].purchase == purchases[i] && r[j].purchase == purchases[j];
      }
    }
    forall p | p in purchases ensures exists v :: v in r && v.purchase == p {
      var i :| 0 <= i < |purchases| && purchases[i] == p;
      assert r[i] in r;
    }
  }

  /** Every listed view is one of that user's purchases, with the owner's
      name. */
  lemma FindByUserIdOwned(purchases: seq<Purchase>, users: seq<User>, userId: int)
    ensures forall v :: v in FindByUserId(purchases, users, userId) ==>
      v.purchase.userId == userId && v.purchase in purchases && Owner(v, users)
  {
    var mine := OwnedBy(purchases, userId);
    var joined := JoinUsers(mine, users);
    assert forall v :: v in joined ==> v.purchase in mine;
    ReverseMembers(joined);
  }

  /** Exactly that user's purchases, each once, newest first. */
  lemma FindByUserIdExact(purchases: seq<Purchase>, users: seq<User>, userId: int)
    requires Ascending(purchases, PurchaseCreated)
    requires forall p :: p in purchases ==> p.userId in UserIds(users)
    ensures Descending(FindByUserId(purchases, users, userId), ViewCreated)
    ensures forall p :: (p in purchases && p.userId == userId) <==>
      exists v :: v in FindByUserId(purchases, users, userId) && v.purchase == p
  {
    var mine := OwnedBy(purchases, userId);
    WhereAscending(purchases, (p: Purchase) => p.userId == userId, PurchaseCreated);
    forall p | p in purchases && p.userId == userId ensures p in mine {
      var i :| 0 <= i < |purchases| && purchases[i] == p;
    }
    JoinUsersAscending(mine, users);
    ReverseOfAscending(JoinUsers(mine, users), ViewCreated);
  }

  /** Every purchase, each once, newest first. */
  lemma FindAllNewestFirst(purchases: seq<Purchase>, users: seq<User>)
    requires Ascending(purchases, PurchaseCreated)
    requires forall p :: p in purchases ==> p.userId in UserIds(users)
    ensures Descending(FindAll(purchases, users), ViewCreated)
    ensures forall p :: p in purchases <==> exists v :: v in FindAll(purchases, users) && v.purchase == p
  {
    JoinUsersAscending(purchases, users);
    ReverseOfAscending(JoinUsers(purchases, users), ViewCreated);
  }

  /** The view's `product_name` and `image_url` are those of a product whose
      id is the line item's `product_id`. */
  ghost predicate Described(v: ItemView, products: seq<Product>) {
    exists p :: p in products && p.id == v.item.productId &&
      v.productName == p.name && v.imageUrl == p.imageUrl
  }

  /** `JOIN products p ON pi.product_id = p.id` for a list of line items. */
  function JoinProducts(items: seq<PurchaseItem>, products: seq<Product>): (r: seq<ItemView>)
    ensures |r| <= |items|
    ensures (forall it :: it in items ==> it.productId in ProductIds(products)) ==>
      |r| == |items| && forall i :: 0 <= i < |r| ==> r[i].item == items[i]
  {
    if items == [] then []
    else
      var rest := JoinProducts(items[1..], products);
      assert forall it :: it in items[1..] ==> it in items;
      match ProductModel.FindById(products, items[0].productId)
      case Some(p) => [ItemView(items[0], p.name, p.imageUrl)] + rest
      case None => rest
  }

  /** Each joined line item carries the name and image of the product its
      `product_id` names. */
  lemma {:induction false} JoinProductsDescribed(items: seq<PurchaseItem>, products: seq<Product>)
    ensures forall v :: v in JoinProducts(items, products) ==> v.item in items && Described(v, products)
  {
    if items != [] {
      JoinProductsDescribed(items[1..], products);
      assert forall it :: it in items[1..] ==> it in items;
    }
  }

  function ItemsOf(items: seq<PurchaseItem>, purchaseId: int): seq<PurchaseItem> {
    Where(items, (it: PurchaseItem) => it.purchaseId == purchaseId)
  }

  /** `SELECT pi.*, p.name as product_name, p.image_url FROM purchase_items pi
      JOIN products p ON pi.product_id = p.id WHERE pi.purchase_id = $1`,
      in table order (the query has no ORDER BY). */
  function GetPurchaseItems(items: seq<PurchaseItem>, products: seq<Product>, purchaseId: int): seq<ItemView> {
    JoinProducts(ItemsOf(items, purchaseId), products)
  }

  /** A committed purchase reads back with exactly its input lines: one row
      per line, in order, carrying the new purchase id and that line's
      product, quantity and price. */
  lemma CreatedItemsReadBack(purchases: seq<Purchase>, items: seq<PurchaseItem>, products: seq<Product>,
                             pid: int, firstId: int, lines: seq<LineInput>)
    requires Keyed(purchases, PurchaseId, pid)
    requires forall it :: it in items ==> it.purchaseId in PurchaseIds(purchases)
    requires LinesResolve(products, lines)
    ensures var r := GetPurchaseItems(items + LineItems(pid, firstId, lines), ApplyOrder(products, lines), pid);
      && |r| == |lines|
      && forall k :: 0 <= k < |lines| ==>
           r[k].item == PurchaseItem(firstId + k, pid, lines[k].productId, lines[k].quantity, lines[k].price)
  {
    var fresh_ := LineItems(pid, firstId, lines);
    var isMine := (it: PurchaseItem) => it.purchaseId == pid;
    WhereAppend(items, fresh_, isMine);
    forall it | it in items ensures !isMine(it) {
      var p :| p in purchases && p.id == it.purchaseId;
      var i :| 0 <= i < |purchases| && purchases[i] == p;
    }
    WhereNone(items, isMine);
    WhereAll(fresh_, isMine);
    assert ItemsOf(items + fresh_, pid) == fresh_;
    ApplyOrderKeepsIds(products, lines);
  }

  /** The stock updates rewrite rows in place and keep every product id. */
  lemma ApplyOrderKeepsIds(products: seq<Product>, lines: seq<LineInput>)
    ensures ProductIds(ApplyOrder(products, lines)) == ProductIds(products)
  {
    var r := ApplyOrder(products, lines);
    forall i | 0 <= i < |products| ensures r[i].id == products[i].id {
      ApplyOrderStock(products, lines, i);
    }
    forall x | x in ProductIds(products) ensures x in ProductIds(r) {
      var p :| p in products && p.id == x;
      var i :| 0 <= i < |products| && products[i] == p;
      assert r[i] in r;
    }
    forall x | x in ProductIds(r) ensures x in ProductIds(products) {
      var p :| p in r && p.id == x;
      var i :| 0 <= i < |r| && r[i] == p;
      assert products[i] in products;
    }
  }

  // ---------------------------------------------------------------------------
  // Purchase.updateStatus

  /** The table after `UPDATE purchases SET status = $1 WHERE id = $2`. */
  function SetStatus(purchases: seq<Purchase>, id: int, status: string): (r: seq<Purchase>)
    ensures |r| == |purchases|
  {
    seq(|purchases|, i requires 0 <= i < |purchases| =>
      if purchases[i].id == id then purchases[i].(status := status) else purchases[i])
  }

  /** Only the status of the matching purchase changes: its owner, total and
      creation time stay, and every other purchase reads as before. */
  lemma {:induction false} SetStatusOnlyStatus(purchases: seq<Purchase>, id: int, status: string, other: int)
    requires other != id
    ensures FindRow(SetStatus(purchases, id, status), id) ==
      match FindRow(purchases, id)
      case Some(p) => Some(p.(status := status))
      case None => None
    ensures FindRow(SetStatus(purchases, id, status), other) == FindRow(purchases, other)
  {
    if purchases != [] {
      SetStatusOnlyStatus(purchases[1..], id, status, other);
      assert SetStatus(purchases, id, status)[1..] == SetStatus(purchases[1..], id, status);
    }
  }

  lemma SetStatusKeepsKeys(purchases: seq<Purchase>, id: int, status: string, next: int, clock: int)
    requires Keyed(purchases, PurchaseId, next) && Timed(purchases, PurchaseCreated, clock)
    ensures Keyed(SetStatus(purchases, id, status), PurchaseId, next)
    ensures Timed(SetStatus(purchases, id, status), PurchaseCreated, clock)
    ensures PurchaseIds(SetStatus(purchases, id, status)) == PurchaseIds(purchases)
    ensures forall i :: 0 <= i < |purchases| ==>
      SetStatus(purchases, id, status)[i].userId == purchases[i].userId
  {
    var r := SetStatus(purchases, id, status);
    forall x | x in PurchaseIds(purchases) ensures x in PurchaseIds(r) {
      var p :| p in purchases && p.id == x;
      var i :| 0 <= i < |purchases| && purchases[i] == p;
      assert r[i].id == x;
    }
    forall x | x in PurchaseIds(r) ensures x in PurchaseIds(purchases) {
      var p :| p in r && p.id == x;
      var i :| 0 <= i < |r| && r[i] == p;
      assert purchases[i].id == x;
    }
  }

  /** `Purchase.updateStatus(id, status)`: returns nothing when no row
      matches. */
  method UpdateStatus(db: Db, id: int, status: string) returns (r: Option<StatusRow>)
    requires db.Valid()
    modifies db`purchases
    ensures db.Valid()
    ensures db.purchases == SetStatus(old(db.purchases), id, status)
    ensures r.None? <==> id !in PurchaseIds(old(db.purchases))
    ensures r.Some? ==> r.value == StatusRow(id, status)
  {
    SetStatusKeepsKeys(db.purchases, id, status, db.nextPurchaseId, db.clock);
    var found := FindRow(db.purchases, id);
    var updated := SetStatus(db.purchases, id, status);
    forall p | p in updated ensures p.userId in UserIds(db.users) {
      var i :| 0 <= i < |updated| && updated[i] == p;
      assert db.purchases[i] in db.purchases;
    }
    db.purchases := updated;
    r := if found.Some? then Some(StatusRow(id, status)) else None;
  }

  // ---------------------------------------------------------------------------
  // Purchase.delete

  function WithoutItemsOf(items: seq<PurchaseItem>, id: int): seq<PurchaseItem> {
    Where(items, (it: PurchaseItem) => it.purchaseId != id)
  }

  function WithoutPurchase(purchases: seq<Purchase>, id: int): seq<Purchase> {
    Where(purchases, (p: Purchase) => p.id != id)
  }

  /** The cascade: after deleting purchase `id` and its line items, neither
      reads back, and every other purchase keeps exactly its line items. */
  lemma DeleteCascades(purchases: seq<Purchase>, users: seq<User>, items: seq<PurchaseItem>,
                       products: seq<Product>, id: int, other: int)
    requires other != id
    ensures FindById(WithoutPurchase(purchases, id), users, id).None?
    ensures GetPurchaseItems(WithoutItemsOf(items, id), products, id) == []
    ensures GetPurchaseItems(WithoutItemsOf(items, id), products, other) ==
            GetPurchaseItems(items, products, other)
    ensures FindRow(WithoutPurchase(purchases, id), other) == FindRow(purchases, other)
  {
    var keep := (it: PurchaseItem) => it.purchaseId != id;
    var rest := WithoutItemsOf(items, id);
    WhereNone(rest, (it: PurchaseItem) => it.purchaseId == id);
    WhereWhere(items, keep, (it: PurchaseItem) => it.purchaseId == other);
    WithoutPurchaseFind(purchases, id, other);
  }

  lemma {:induction false} WithoutPurchaseFind(purchases: seq<Purchase>, id: int, other: int)
    requires other != id
    ensures FindRow(WithoutPurchase(purchases, id), other) == FindRow(purchases, other)
  {
    if purchases != [] {
      WithoutPurchaseFind(purchases[1..], id, other);
      var w := WithoutPurchase(purchases, id);
      if purchases[0].id == id {
        assert w == WithoutPurchase(purchases[1..], id);
      } else {
        assert w == [purchases[0]] + WithoutPurchase(purchases[1..], id);
        assert w[0] == purchases[0] && w[1..] == WithoutPurchase(purchases[1..], id);
      }
    }
  }

  /** Deleting a purchase together with its line items keeps every schema
      constraint: no line item is left pointing at the deleted purchase. */
  lemma DeleteKeepsInvariants(products: seq<Product>, users: seq<User>, purchases: seq<Purchase>,
                              items: seq<PurchaseItem>, id: int,
                              np: int, nu: int, npu: int, ni: int, clock: int)
    requires Consistent(products, users, purchases, items, np, nu, npu, ni, clock)
    ensures Consistent(products, users, WithoutPurchase(purchases, id), WithoutItemsOf(items, id),
                       np, nu, npu, ni, clock)
  {
    var ps := WithoutPurchase(purchases, id);
    var its := WithoutItemsOf(items, id);
    WhereKeyed(purchases, (p: Purchase) => p.id != id, PurchaseId, npu);
    WhereTimed(purchases, (p: Purchase) => p.id != id, PurchaseCreated, clock);
    WhereKeyed(items, (it: PurchaseItem) => it.purchaseId != id, ItemId, ni);
    forall it | it in its ensures it.purchaseId in PurchaseIds(ps) && it.productId in ProductIds(products) {
      var k :| 0 <= k < |its| && its[k] == it;
      var p :| p in purchases && p.id == it.purchaseId;
      var i :| 0 <= i < |purchases| && purchases[i] == p;
    }
  }

  /** `Purchase.delete(id)`: statement 0 deletes the line items of the
      purchase, statement 1 the purchase (`RETURNING id`), statement 2 is the
      COMMIT. On success every line item of that purchase and then the
      purchase itself are gone and nothing else changes; an absent id
      returns nothing; on failure both tables are as before. */
  method Delete(db: Db, id: int, fault: Option<nat>) returns (r: Result<Option<int>>)
    requires db.Valid()
    modifies db`purchases, db`purchaseItems
    ensures db.Valid()
    ensures r.Err? <==> fault.Some? && fault.value <= 2
    ensures r.Err? ==> db.purchases == old(db.purchases) && db.purchaseItems == old(db.purchaseItems)
    ensures r.Ok? ==>
      && db.purchaseItems == WithoutItemsOf(old(db.purchaseItems), id)
      && db.purchases == WithoutPurchase(old(db.purchases), id)
      && (r.value.None? <==> id !in PurchaseIds(old(db.purchases)))
      && (r.value.Some? ==> r.value.value == id)
  {
    var purchases0, items0 := db.purchases, db.purchaseItems;
    ghost var products, users := db.products, db.users;
    ghost var np, nu, npu, ni, now := db.nextProductId, db.nextUserId, db.nextPurchaseId, db.nextItemId, db.clock;
    var found := FindRow(purchases0, id);
    DeleteKeepsInvariants(products, users, purchases0, items0, id, np, nu, npu, ni, now);
    // BEGIN; DELETE FROM purchase_items WHERE purchase_id = $1. The unit
    // works on its own copy of the tables until COMMIT; a ROLLBACK drops it.
    if fault == Some(0) {
      return Err(ConnectionLost);
    }
    var items := WithoutItemsOf(items0, id);
    // DELETE FROM purchases WHERE id = $1 RETURNING id
    if fault == Some(1) {
      return Err(ConnectionLost);
    }
    var purchases := WithoutPurchase(purchases0, id);
    // COMMIT
    if fault == Some(2) {
      return Err(ConnectionLost);
    }
    db.purchases, db.purchaseItems := purchases, items;
    assert db.products == products && db.users == users;
    assert db.nextProductId == np && db.nextUserId == nu && db.nextPurchaseId == npu;
    assert db.nextItemId == ni && db.clock == now;
    r := if found.Some? then Ok(Some(id)) else Ok(None);
  }
}
