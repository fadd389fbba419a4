/** The product store (`backend/models/Product.js`): create, read, search,
    update, stock update and delete over the `products` table. Reads are
    functions of the table; writes are methods that reassign it. */
module ProductModel {
  import opened Sql
  import opened Schema

  /** The columns a caller supplies (`productData`). */
  datatype ProductData = ProductData(
    name: string, description: string, price: int, stock: int,
    category: string, imageUrl: Option<string>)

  /** `RETURNING id, stock` of a stock update. */
  datatype StockLevel = StockLevel(id: int, stock: int)

  /** The caller-supplied columns of a stored row. */
  function DataOf(p: Product): ProductData {
    ProductData(p.name, p.description, p.price, p.stock, p.category, p.imageUrl)
  }

  /** `SELECT * FROM products WHERE id = $1`, first row. */
  function FindById(products: seq<Product>, id: int): (r: Option<Product>)
    ensures r.Some? ==> r.value in products && r.value.id == id
    ensures r.None? <==> id !in ProductIds(products)
  {
    if products == [] then None
    else if products[0].id == id then Some(products[0])
    else
      assert forall p :: p in products ==> p == products[0] || p in products[1..];
      FindById(products[1..], id)
  }

  /** In a keyed table the lookup by id returns the one row carrying it. */
  lemma FindByIdKeyed(products: seq<Product>, next: int, i: int)
    requires Keyed(products, ProductId, next) && 0 <= i < |products|
    ensures FindById(products, products[i].id) == Some(products[i])
  {
    var r := FindById(products, products[i].id);
    var j :| 0 <= j < |products| && products[j] == r.value;
    KeyedUnique(products, ProductId, next, i, j);
  }

  /** `SELECT * FROM products ORDER BY created_at DESC`. */
  function FindAll(products: seq<Product>): seq<Product> {
    Reverse(products)
  }

  /** Every product is listed, newest first. */
  lemma FindAllNewestFirst(products: seq<Product>)
    requires Ascending(products, ProductCreated)
    ensures Descending(FindAll(products), ProductCreated)
    ensures forall p :: p in FindAll(products) <==> p in products
  {
    ReverseOfAscending(products, ProductCreated);
  }

  function InCategory(products: seq<Product>, category: string): seq<Product> {
    Where(products, (p: Product) => p.category == category)
  }

  /** `SELECT * FROM products WHERE category = $1 ORDER BY created_at DESC`. */
  function FindByCategory(products: seq<Product>, category: string): seq<Product> {
    Reverse(InCategory(products, category))
  }

  /** Exactly the products whose category equals the argument, newest first. */
  lemma FindByCategoryExact(products: seq<Product>, category: string)
    requires Ascending(products, ProductCreated)
    ensures Descending(FindByCategory(products, category), ProductCreated)
    ensures forall p :: p in FindByCategory(products, category) <==>
                        p in products && p.category == category
  {
    var hits := InCategory(products, category);
    WhereAscending(products, (p: Product) => p.category == category, ProductCreated);
    ReverseOfAscending(hits, ProductCreated);
    forall p | p in products && p.category == category ensures p in hits {
      var i :| 0 <= i < |products| && products[i] == p;
    }
  }

  // ---------------------------------------------------------------------------
  // Search: `name ILIKE $1 OR description ILIKE $1 OR category ILIKE $1`
  // with the pattern `%term%`.

  function LowerChar(c: char): char {
    if 'A' <= c <= 'Z' then (c as int + 32) as char else c
  }

  /** ASCII lower-casing, the case folding ILIKE applies to both sides. */
  function Lower(s: string): (r: string)
    ensures |r| == |s|
  {
    seq(|s|, i requires 0 <= i < |s| => LowerChar(s[i]))
  }

  /** The scan ILIKE performs for `%needle%`: try every start position. */
  function Contains(hay: string, needle: string): bool
    decreases |hay|
  {
    needle <= hay || (hay != [] && Contains(hay[1..], needle))
  }

  /** `needle` sits at offset `i` of `hay`. */
  predicate OccursAt(needle: string, hay: string, i: int) {
    0 <= i <= |hay| - |needle| && hay[i..i + |needle|] == needle
  }

  /** Reference definition: `needle` occurs at some offset of `hay`. */
  ghost predicate Occurs(needle: string, hay: string) {
    exists i :: OccursAt(needle, hay, i)
  }

  /** The scan finds an occurrence exactly when there is one. */
  lemma {:induction false} ContainsOccurs(hay: string, needle: string)
    ensures Contains(hay, needle) <==> Occurs(needle, hay)
    decreases |hay|
  {
    if needle <= hay {
      assert OccursAt(needle, hay, 0);
    } else {
      forall i | OccursAt(needle, hay, i) ensures 0 < i && OccursAt(needle, hay[1..], i - 1) {
        assert i != 0;
        assert hay[1..][i - 1..i - 1 + |needle|] == hay[i..i + |needle|];
      }
      if hay != [] {
        ContainsOccurs(hay[1..], needle);
        forall i | OccursAt(needle, hay[1..], i) ensures OccursAt(needle, hay, i + 1) {
          assert hay[i + 1..i + 1 + |needle|] == hay[1..][i..i + |needle|];
        }
      }
    }
  }

  /** A term with no LIKE wildcard (`%`, `_`) and no escape character. */
  predicate PlainTerm(term: string) {
    forall i :: 0 <= i < |term| ==> term[i] != '%' && term[i] != '_' && term[i] != '\\'
  }

  /** `text ILIKE '%term%'` for a plain term. */
  predicate ILike(text: string, term: string) {
    Contains(Lower(text), Lower(term))
  }

  predicate Matches(p: Product, term: string) {
    ILike(p.name, term) || ILike(p.description, term) || ILike(p.category, term)
  }

  function Matching(products: seq<Product>, term: string): seq<Product> {
    Where(products, (p: Product) => Matches(p, term))
  }

  /** `Product.search(term)`. */
  function Search(products: seq<Product>, term: string): seq<Product>
    requires PlainTerm(term)
  {
    Reverse(Matching(products, term))
  }

  /** Exactly the products where the term, ignoring case, is a substring of
      the name, the description or the category; newest first. */
  lemma SearchExact(products: seq<Product>, term: string)
    requires PlainTerm(term)
    requires Ascending(products, ProductCreated)
    ensures Descending(Search(products, term), ProductCreated)
    ensures forall p :: p in Search(products, term) <==>
      p in products &&
      (Occurs(Lower(term), Lower(p.name)) ||
       Occurs(Lower(term), Lower(p.description)) ||
       Occurs(Lower(term), Lower(p.category)))
  {
    var hits := Matching(products, term);
    WhereAscending(products, (p: Product) => Matches(p, term), ProductCreated);
    ReverseOfAscending(hits, ProductCreated);
    forall p | p in products
      ensures Matches(p, term) <==>
        (Occurs(Lower(term), Lower(p.name)) ||
         Occurs(Lower(term), Lower(p.description)) ||
         Occurs(Lower(term), Lower(p.category)))
    {
      ContainsOccurs(Lower(p.name), Lower(term));
      ContainsOccurs(Lower(p.description), Lower(term));
      ContainsOccurs(Lower(p.category), Lower(term));
    }
    forall p | p in products && Matches(p, term) ensures p in hits {
      var i :| 0 <= i < |products| && products[i] == p;
    }
  }

  /** The empty term (pattern `%%`) matches every product. */
  lemma SearchEmptyTermListsAll(products: seq<Product>)
    ensures Search(products, "") == FindAll(products)
  {
    forall p | p in products ensures Matches(p, "") {
      assert Lower("") <= Lower(p.name);
    }
    WhereAll(products, (p: Product) => Matches(p, ""));
  }

  // ---------------------------------------------------------------------------
  // Writes.

  /** `INSERT INTO products (...) VALUES (...) RETURNING ...`: the new row
      carries a fresh id and exactly the supplied columns. */
  method Create(db: Db, data: ProductData) returns (p: Product)
    requires db.Valid()
    modifies db`products, db`nextProductId, db`clock
    ensures db.Valid()
    ensures DataOf(p) == data
    ensures p.id == old(db.nextProductId) && p.createdAt == old(db.clock)
    ensures p.id !in ProductIds(old(db.products))
    ensures db.products == old(db.products) + [p]
  {
    p := Product(db.nextProductId, data.name, data.description, data.price, data.stock,
                 data.category, data.imageUrl, db.clock);
    AppendKeyed(db.products, p, ProductId, db.nextProductId);
    AppendTimed(db.products, p, ProductCreated, db.clock);
    TimedLater(db.users, UserCreated, db.clock, db.clock + 1);
    TimedLater(db.purchases, PurchaseCreated, db.clock, db.clock + 1);
    assert ProductIds(db.products) <= ProductIds(db.products + [p]);
    db.products := db.products + [p];
    db.nextProductId := db.nextProductId + 1;
    db.clock := db.clock + 1;
  }

  /** The table after `UPDATE products SET <all six columns> WHERE id = $7`. */
  function Overwrite(products: seq<Product>, id: int, data: ProductData): (r: seq<Product>)
    ensures |r| == |products|
  {
    seq(|products|, i requires 0 <= i < |products| =>
      if products[i].id == id
      then products[i].(name := data.name, description := data.description,
                        price := data.price, stock := data.stock,
                        category := data.category, imageUrl := data.imageUrl)
      else products[i])
  }

  /** Rewriting columns other than the key keeps every id where it was. */
  lemma OverwriteKeepsIds(products: seq<Product>, id: int, data: ProductData)
    ensures ProductIds(Overwrite(products, id, data)) == ProductIds(products)
  {
    var r := Overwrite(products, id, data);
    forall x | x in ProductIds(products) ensures x in ProductIds(r) {
      var p :| p in products && p.id == x;
      var i :| 0 <= i < |products| && products[i] == p;
      assert r[i].id == x;
    }
    forall x | x in ProductIds(r) ensures x in ProductIds(products) {
      var p :| p in r && p.id == x;
      var i :| 0 <= i < |r| && r[i] == p;
      assert products[i].id == x;
    }
  }

  /** Rewriting columns other than the key keeps the table keyed and timed. */
  lemma OverwriteKeepsKeys(products: seq<Product>, id: int, data: ProductData, next: int, clock: int)
    requires Keyed(products, ProductId, next) && Timed(products, ProductCreated, clock)
    ensures Keyed(Overwrite(products, id, data), ProductId, next)
    ensures Timed(Overwrite(products, id, data), ProductCreated, clock)
  {
  }

  /** Update then read back: the updated product carries exactly the new
      columns under its old id and creation time; every other product reads
      as before; a missing id changes nothing. */
  lemma UpdateReadBack(products: seq<Product>, next: int, id: int, data: ProductData, other: int)
    requires Keyed(products, ProductId, next)
    requires other != id
    ensures FindById(products, id).None? ==> Overwrite(products, id, data) == products
    ensures FindById(products, id).Some? ==>
      var old_ := FindById(products, id).value;
      FindById(Overwrite(products, id, data), id) ==
        Some(Product(id, data.name, data.description, data.price, data.stock,
                     data.category, data.imageUrl, old_.createdAt))
    ensures FindById(Overwrite(products, id, data), other) == FindById(products, other)
  {
    var r := Overwrite(products, id, data);
    assert Keyed(r, ProductId, next);
    if FindById(products, id).Some? {
      var i :| 0 <= i < |products| && products[i] == FindById(products, id).value;
      FindByIdKeyed(products, next, i);
      FindByIdKeyed(r, next, i);
    } else {
      assert r == products;
    }
    if FindById(products, other).Some? {
      var i :| 0 <= i < |products| && products[i] == FindById(products, other).value;
      FindByIdKeyed(products, next, i);
      FindByIdKeyed(r, next, i);
    } else {
      OverwriteKeepsIds(products, id, data);
    }
  }

  /** `Product.update(id, productData)`. */
  method Update(db: Db, id: int, data: ProductData) returns (r: Option<Product>)
    requires db.Valid()
    modifies db`products
    ensures db.Valid()
    ensures db.products == Overwrite(old(db.products), id, data)
    ensures r.None? <==> id !in ProductIds(old(db.products))
    ensures r.Some? ==> r.value.id == id && DataOf(r.value) == data && r.value in db.products
  {
    OverwriteKeepsIds(db.products, id, data);
    OverwriteKeepsKeys(db.products, id, data, db.nextProductId, db.clock);
    var updated := Overwrite(db.products, id, data);
    db.products := updated;
    r := FindById(db.products, id);
    if r.Some? {
      var i :| 0 <= i < |updated| && updated[i] == r.value;
    }
  }

  /** The table after `UPDATE products SET stock = stock - $1 WHERE id = $2`:
      no lower bound is checked, so stock may go negative. */
  function Decrement(products: seq<Product>, id: int, quantity: int): (r: seq<Product>)
    ensures |r| == |products|
  {
    seq(|products|, i requires 0 <= i < |products| =>
      if products[i].id == id then products[i].(stock := products[i].stock - quantity)
      else products[i])
  }

  /** Changing stock keeps every id and every creation time in place. */
  lemma DecrementKeepsKeys(products: seq<Product>, id: int, quantity: int, next: int, clock: int)
    requires Keyed(products, ProductId, next) && Timed(products, ProductCreated, clock)
    ensures Keyed(Decrement(products, id, quantity), ProductId, next)
    ensures Timed(Decrement(products, id, quantity), ProductCreated, clock)
    ensures ProductIds(Decrement(products, id, quantity)) == ProductIds(products)
  {
    var r := Decrement(products, id, quantity);
    forall x | x in ProductIds(products) ensures x in ProductIds(r) {
      var p :| p in products && p.id == x;
      var i :| 0 <= i < |products| && products[i] == p;
      assert r[i].id == x;
    }
    forall x | x in ProductIds(r) ensures x in ProductIds(products) {
      var p :| p in r && p.id == x;
      var i :| 0 <= i < |r| && r[i] == p;
      assert products[i].id == x;
    }
  }

  /** `Product.updateStock(id, quantity)`: the new stock is the old one minus
      the quantity, with no floor; a missing id returns nothing. */
  method UpdateStock(db: Db, id: int, quantity: int) returns (r: Option<StockLevel>)
    requires db.Valid()
    modifies db`products
    ensures db.Valid()
    ensures db.products == Decrement(old(db.products), id, quantity)
    ensures r.None? <==> id !in ProductIds(old(db.products))
    ensures r.Some? ==>
      r.value.id == id && r.value.stock == FindById(old(db.products), id).value.stock - quantity
  {
    var before := FindById(db.products, id);
    DecrementKeepsKeys(db.products, id, quantity, db.nextProductId, db.clock);
    var updated := Decrement(db.products, id, quantity);
    db.products := updated;
    r := match before
      case Some(p) => Some(StockLevel(id, p.stock - quantity))
      case None => None;
  }

  /** Some line item still refers to the product. */
  predicate Referenced(items: seq<PurchaseItem>, id: int) {
    exists k :: 0 <= k < |items| && items[k].productId == id
  }

  function Without(products: seq<Product>, id: int): seq<Product> {
    Where(products, (p: Product) => p.id != id)
  }

  /** Delete then read back: the product is gone and every other product
      reads as before. */
  lemma {:induction false} DeleteOnlyTarget(products: seq<Product>, id: int, other: int)
    requires other != id
    ensures FindById(Without(products, id), id).None?
    ensures FindById(Without(products, id), other) == FindById(products, other)
  {
    if products != [] {
      DeleteOnlyTarget(products[1..], id, other);
      var w := Without(products, id);
      if products[0].id == id {
        assert w == Without(products[1..], id);
      } else {
        assert w == [products[0]] + Without(products[1..], id);
        assert w[0] == products[0] && w[1..] == Without(products[1..], id);
      }
    }
  }

  lemma WithoutKeepsKeys(products: seq<Product>, id: int, next: int, clock: int)
    requires Keyed(products, ProductId, next) && Timed(products, ProductCreated, clock)
    ensures Keyed(Without(products, id), ProductId, next)
    ensures Timed(Without(products, id), ProductCreated, clock)
  {
    WhereKeyed(products, (p: Product) => p.id != id, ProductId, next);
    WhereTimed(products, (p: Product) => p.id != id, ProductCreated, clock);
  }

  /** Removing a product no line item refers to leaves every line item's
      product in place. */
  lemma WithoutKeepsReferences(products: seq<Product>, items: seq<PurchaseItem>, id: int)
    requires forall it :: it in items ==> it.productId in ProductIds(products)
    requires !Referenced(items, id)
    ensures forall it :: it in items ==> it.productId in ProductIds(Without(products, id))
  {
    forall it | it in items ensures it.productId in ProductIds(Without(products, id)) {
      var p :| p in products && p.id == it.productId;
      var i :| 0 <= i < |products| && products[i] == p;
      var k :| 0 <= k < |items| && items[k] == it;
    }
  }

  /** `DELETE FROM products WHERE id = $1 RETURNING id`. The foreign key from
      `purchase_items` is taken to have no ON DELETE action, so deleting a
      product that a line item still refers to raises an error and changes
      nothing. */
  method Delete(db: Db, id: int) returns (r: Result<Option<int>>)
    requires db.Valid()
    modifies db`products
    ensures db.Valid()
    ensures r.Err? <==> id in ProductIds(old(db.products)) && Referenced(db.purchaseItems, id)
    ensures r.Err? ==> r.error == ForeignKeyViolation && db.products == old(db.products)
    ensures r == Ok(None) <==> id !in ProductIds(old(db.products))
    ensures r == Ok(Some(id)) <==> id in ProductIds(old(db.products)) && !Referenced(db.purchaseItems, id)
    ensures r.Ok? ==> db.products == Without(old(db.products), id)
  {
    var exists_ := FindById(db.products, id).Some?;
    if exists_ && Referenced(db.purchaseItems, id) {
      return Err(ForeignKeyViolation);
    }
    var rest := Without(db.products, id);
    WithoutKeepsKeys(db.products, id, db.nextProductId, db.clock);
    WithoutKeepsReferences(db.products, db.purchaseItems, id);
    if !exists_ {
      WhereAll(db.products, (p: Product) => p.id != id);
    }
    db.products := rest;
    r := if exists_ then Ok(Some(id)) else Ok(None);
  }
}
