/** The handlers of `backend/routes/purchases.js`. The `auth` and `adminAuth`
    middleware are not part of this model: a handler behind `auth` receives
    the resolved `Principal`, and a handler behind `adminAuth` is modelled
    for a request the middleware has already let through. */
module PurchaseRoutes {
  import opened Sql
  import opened Schema
  import opened Http
  import PurchaseModel

  /** `{ total_amount, items }` of a purchase request. */
  datatype PurchaseBody = PurchaseBody(totalAmount: Option<int>, items: Option<seq<PurchaseModel.LineInput>>)

  /** `{ purchase, items }` of `GET /:id`. */
  datatype PurchaseDetail = PurchaseDetail(purchase: PurchaseModel.PurchaseView, items: seq<PurchaseModel.ItemView>)

  /** `!total_amount || !items || items.length === 0` does not hold. */
  predicate OrderComplete(body: PurchaseBody) {
    TruthyNumber(body.totalAmount) && body.items.Some? && |body.items.value| > 0
  }

  /** `POST /`. The owner is always the caller (`req.user.id`), never a
      field of the body; a missing or zero total or an empty item list is
      refused before the store is touched; any error of the transaction
      becomes a 500 and leaves the tables as they were. */
  method PostPurchase(db: Db, principal: Principal, body: PurchaseBody, fault: Option<nat>)
    returns (res: Response<Purchase>)
    requires db.Valid()
    modifies db`products, db`purchases, db`purchaseItems, db`nextPurchaseId, db`nextItemId, db`clock
    ensures db.Valid()
    ensures !OrderComplete(body) <==> res == Failure(400, "Total amount and items are required.")
    ensures !OrderComplete(body) ==>
      db.products == old(db.products) && db.purchases == old(db.purchases) &&
      db.purchaseItems == old(db.purchaseItems)
    ensures res.status == 201 <==>
      OrderComplete(body) &&
      PurchaseModel.OrderCanCommit(old(db.users), old(db.products), principal.id, body.items.value, fault)
    ensures res.status == 201 ==>
      && res.Success? && res.message == Some("Purchase completed successfully")
      && res.payload.userId == principal.id && res.payload.totalAmount == body.totalAmount.value
      && db.purchases == old(db.purchases) + [res.payload]
      && db.purchaseItems == old(db.purchaseItems) +
           PurchaseModel.LineItems(res.payload.id, old(db.nextItemId), body.items.value)
      && db.products == PurchaseModel.ApplyOrder(old(db.products), body.items.value)
    ensures OrderComplete(body) && res.status != 201 ==>
      && res == Failure(500, "Error creating purchase.")
      && db.products == old(db.products) && db.purchases == old(db.purchases)
      && db.purchaseItems == old(db.purchaseItems)
  {
    if !OrderComplete(body) {
      return Failure(400, "Total amount and items are required.");
    }
    var r := PurchaseModel.Create(db, principal.id, body.totalAmount.value, body.items.value, fault);
    if r.Err? {
      return Failure(500, "Error creating purchase.");
    }
    res := Success(201, Some("Purchase completed successfully"), r.value);
  }

  /** `GET /:id`: 404 for an unknown purchase, 403 when the caller neither
      owns it nor is an admin, otherwise the purchase with its line items. */
  function ShowPurchase(purchases: seq<Purchase>, users: seq<User>, items: seq<PurchaseItem>,
                        products: seq<Product>, principal: Principal, id: int): (res: Response<PurchaseDetail>)
    ensures res.status == 404 <==> PurchaseModel.FindById(purchases, users, id).None?
    ensures res.status == 200 ==>
      res.Success? && res.payload.purchase.purchase.id == id &&
      res.payload.purchase.purchase in purchases &&
      (res.payload.purchase.purchase.userId == principal.id || principal.isAdmin)
    ensures res.status in {200, 403, 404}
  {
    match PurchaseModel.FindById(purchases, users, id)
    case None => Failure(404, "Purchase not found.")
    case Some(view) =>
      if view.purchase.userId != principal.id && !principal.isAdmin then Failure(403, "Access denied.")
      else Success(200, None, PurchaseDetail(view, PurchaseModel.GetPurchaseItems(items, products, id)))
  }

  /** Under the schema's constraints the gate is exact: the caller sees the
      purchase (with exactly its line items) precisely when it exists and
      is theirs or they are an admin, is refused precisely when it exists
      and is someone else's, and gets 404 otherwise. */
  lemma ShowPurchaseAccess(purchases: seq<Purchase>, users: seq<User>, items: seq<PurchaseItem>,
                           products: seq<Product>, next: int, principal: Principal, i: int)
    requires Keyed(purchases, PurchaseId, next)
    requires forall p :: p in purchases ==> p.userId in UserIds(users)
    requires 0 <= i < |purchases|
    ensures var res := ShowPurchase(purchases, users, items, products, principal, purchases[i].id);
      && (res.status == 200 <==> purchases[i].userId == principal.id || principal.isAdmin)
      && (res.status == 403 <==> purchases[i].userId != principal.id && !principal.isAdmin)
      && (res.status == 200 ==>
            res.payload.purchase.purchase == purchases[i] &&
            res.payload.items == PurchaseModel.GetPurchaseItems(items, products, purchases[i].id))
  {
    PurchaseModel.FindByIdExact(purchases, users, next, purchases[i].id);
  }

  /** The schema's guarantees a listing relies on: rows in creation order and
      every purchase's owner present. */
  predicate Stored(purchases: seq<Purchase>, users: seq<User>) {
    Ascending(purchases, PurchaseCreated) && forall p :: p in purchases ==> p.userId in UserIds(users)
  }

  /** `GET /user/me`: the caller's purchases, each with its owner's name;
      over stored tables, all of them, each once, newest first. */
  function MyPurchases(purchases: seq<Purchase>, users: seq<User>, principal: Principal)
    : (res: Response<seq<PurchaseModel.PurchaseView>>)
    ensures res.Success? && res.status == 200
    ensures forall v :: v in res.payload ==>
      v.purchase.userId == principal.id && v.purchase in purchases && PurchaseModel.Owner(v, users)
    ensures Stored(purchases, users) ==>
      && Descending(res.payload, PurchaseModel.ViewCreated)
      && forall p :: (p in purchases && p.userId == principal.id) <==>
           exists v :: v in res.payload && v.purchase == p
  {
    PurchaseModel.FindByUserIdOwned(purchases, users, principal.id);
    assert Stored(purchases, users) ==>
      && Descending(PurchaseModel.FindByUserId(purchases, users, principal.id), PurchaseModel.ViewCreated)
      && forall p :: (p in purchases && p.userId == principal.id) <==>
           exists v :: v in PurchaseModel.FindByUserId(purchases, users, principal.id) && v.purchase == p
    by {
      if Stored(purchases, users) {
        PurchaseModel.FindByUserIdExact(purchases, users, principal.id);
      }
    }
    Success(200, None, PurchaseModel.FindByUserId(purchases, users, principal.id))
  }

  /** `GET /` (admin): every purchase with its owner's name; over stored
      tables, each once, newest first. */
  function AllPurchases(purchases: seq<Purchase>, users: seq<User>): (res: Response<seq<PurchaseModel.PurchaseView>>)
    ensures res.Success? && res.status == 200
    ensures forall k :: 0 <= k < |res.payload| ==>
      res.payload[k].purchase in purchases && PurchaseModel.Owner(res.payload[k], users)
    ensures Stored(purchases, users) ==>
      && Descending(res.payload, PurchaseModel.ViewCreated)
      && forall p :: p in purchases <==> exists v :: v in res.payload && v.purchase == p
  {
    var joined := PurchaseModel.JoinUsers(purchases, users);
    Sql.ReverseMembers(joined);
    assert Stored(purchases, users) ==>
      && Descending(PurchaseModel.FindAll(purchases, users), PurchaseModel.ViewCreated)
      && forall p :: p in purchases <==> exists v :: v in PurchaseModel.FindAll(purchases, users) && v.purchase == p
    by {
      if Stored(purchases, users) {
        PurchaseModel.FindAllNewestFirst(purchases, users);
      }
    }
    Success(200, None, PurchaseModel.FindAll(purchases, users))
  }

  /** `{ status }` of a status update. */
  datatype StatusBody = StatusBody(status: Option<string>)

  /** `PUT /:id/status` (admin). Any non-empty status string is stored
      verbatim: the handler checks presence only, not a set of allowed
      values. */
  method PutStatus(db: Db, id: int, body: StatusBody) returns (res: Response<PurchaseModel.StatusRow>)
    requires db.Valid()
    modifies db`purchases
    ensures db.Valid()
    ensures !TruthyString(body.status) <==> res == Failure(400, "Status is required.")
    ensures !TruthyString(body.status) ==> db.purchases == old(db.purchases)
    ensures TruthyString(body.status) ==>
      db.purchases == PurchaseModel.SetStatus(old(db.purchases), id, body.status.value)
    ensures res.status == 404 <==> TruthyString(body.status) && id !in PurchaseIds(old(db.purchases))
    ensures res.status == 404 ==> res == Failure(404, "Purchase not found.")
    ensures res.status == 200 <==> TruthyString(body.status) && id in PurchaseIds(old(db.purchases))
    ensures res.status == 200 ==>
      res == Success(200, Some("Purchase status updated successfully"),
                     PurchaseModel.StatusRow(id, body.status.value))
  {
    if !TruthyString(body.status) {
      return Failure(400, "Status is required.");
    }
    var r := PurchaseModel.UpdateStatus(db, id, body.status.value);
    if r.None? {
      return Failure(404, "Purchase not found.");
    }
    res := Success(200, Some("Purchase status updated successfully"), r.value);
  }

  /** `DELETE /:id` (admin): the purchase and its line items go together;
      an unknown id is 404 and a failed transaction 500. */
  method DeletePurchase(db: Db, id: int, fault: Option<nat>) returns (res: Response<int>)
    requires db.Valid()
    modifies db`purchases, db`purchaseItems
    ensures db.Valid()
    ensures res.status == 500 <==> fault.Some? && fault.value <= 2
    ensures res.status == 500 ==>
      res == Failure(500, "Error deleting purchase.") &&
      db.purchases == old(db.purchases) && db.purchaseItems == old(db.purchaseItems)
    ensures res.status != 500 ==>
      && db.purchases == PurchaseModel.WithoutPurchase(old(db.purchases), id)
      && db.purchaseItems == PurchaseModel.WithoutItemsOf(old(db.purchaseItems), id)
      && (res.status == 404 <==> id !in PurchaseIds(old(db.purchases)))
      && (res.status == 404 ==> res == Failure(404, "Purchase not found."))
      && (res.status != 404 ==> res == Success(200, Some("Purchase deleted successfully"), id))
  {
    var r := PurchaseModel.Delete(db, id, fault);
    match r
    case Err(_) => res := Failure(500, "Error deleting purchase.");
    case Ok(None) => res := Failure(404, "Purchase not found.");
    case Ok(Some(deleted)) => res := Success(200, Some("Purchase deleted successfully"), deleted);
  }
}
