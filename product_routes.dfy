/** The handlers of `backend/routes/products.js`. Reads are public; writes
    sit behind `adminAuth`, which is not part of this model, and are
    modelled for a request it has let through. */
module ProductRoutes {
  import opened Sql
  import opened Schema
  import opened Http
  import ProductModel

  /** `{ name, description, price, stock, category, image_url }` of a
      create or update request. */
  datatype ProductBody = ProductBody(
    name: Option<string>, description: Option<string>, price: Option<int>,
    stock: Option<int>, category: Option<string>, imageUrl: Option<string>)

  /** `!name || !description || !price || !stock || !category` does not
      hold: every field is present and truthy, so a price or a stock of 0 is
      refused like a missing one. */
  predicate FieldsGiven(body: ProductBody) {
    && TruthyString(body.name) && TruthyString(body.description)
    && TruthyNumber(body.price) && TruthyNumber(body.stock)
    && TruthyString(body.category)
  }

  /** The `productData` the handler passes to the store. */
  function DataOf(body: ProductBody): (d: ProductModel.ProductData)
    requires FieldsGiven(body)
    ensures d.price != 0 && d.stock != 0 && d.name != "" && d.description != "" && d.category != ""
    ensures d.imageUrl.Some? <==> TruthyString(body.imageUrl)
    ensures d.imageUrl.Some? ==> d.imageUrl == body.imageUrl
  {
    ProductModel.ProductData(body.name.value, body.description.value, body.price.value,
                             body.stock.value, body.category.value, OrNull(body.imageUrl))
  }

  /** A numeric zero stock is refused at the door, so no product with a
      numeric stock is created already out of stock, although a purchase can
      bring one to zero or below afterwards. */
  lemma ZeroStockRefused(body: ProductBody)
    requires body.stock == Some(0)
    ensures !FieldsGiven(body)
  {
  }

  /** `GET /`. */
  function ListProducts(products: seq<Product>): (res: Response<seq<Product>>)
    ensures res.Success? && res.status == 200
    ensures |res.payload| == |products|
    ensures forall p :: p in res.payload <==> p in products
    ensures Ascending(products, ProductCreated) ==> Descending(res.payload, ProductCreated)
  {
    Sql.ReverseMembers(products);
    assert Ascending(products, ProductCreated) ==>
      Descending(ProductModel.FindAll(products), ProductCreated) by {
      if Ascending(products, ProductCreated) {
        ProductModel.FindAllNewestFirst(products);
      }
    }
    Success(200, None, ProductModel.FindAll(products))
  }

  /** `GET /:id`. */
  function ShowProduct(products: seq<Product>, id: int): (res: Response<Product>)
    ensures res.status == 404 <==> id !in ProductIds(products)
    ensures res.status == 404 ==> res == Failure(404, "Product not found.")
    ensures res.status != 404 ==>
      res.Success? && res.status == 200 && res.payload in products && res.payload.id == id
  {
    match ProductModel.FindById(products, id)
    case None => Failure(404, "Product not found.")
    case Some(p) => Success(200, None, p)
  }

  /** `GET /search/:term`. */
  function SearchProducts(products: seq<Product>, term: string): (res: Response<seq<Product>>)
    requires ProductModel.PlainTerm(term)
    ensures res.Success? && res.status == 200
    ensures forall p :: p in res.payload <==> p in products && ProductModel.Matches(p, term)
    ensures Ascending(products, ProductCreated) ==> Descending(res.payload, ProductCreated)
  {
    var hits := ProductModel.Matching(products, term);
    Sql.ReverseMembers(hits);
    assert forall p :: p in hits <==> p in products && ProductModel.Matches(p, term) by {
      forall p | p in products && ProductModel.Matches(p, term) ensures p in hits {
        var i :| 0 <= i < |products| && products[i] == p;
      }
    }
    assert Ascending(products, ProductCreated) ==>
      Descending(ProductModel.Search(products, term), ProductCreated) by {
      if Ascending(products, ProductCreated) {
        ProductModel.SearchExact(products, term);
      }
    }
    Success(200, None, ProductModel.Search(products, term))
  }

  /** `GET /category/:category`. */
  function ProductsInCategory(products: seq<Product>, category: string): (res: Response<seq<Product>>)
    ensures res.Success? && res.status == 200
    ensures forall p :: p in res.payload <==> p in products && p.category == category
    ensures Ascending(products, ProductCreated) ==> Descending(res.payload, ProductCreated)
  {
    var hits := ProductModel.InCategory(products, category);
    Sql.ReverseMembers(hits);
    assert forall p :: p in hits <==> p in products && p.category == category by {
      forall p | p in products && p.category == category ensures p in hits {
        var i :| 0 <= i < |products| && products[i] == p;
      }
    }
    assert Ascending(products, ProductCreated) ==>
      Descending(ProductModel.FindByCategory(products, category), ProductCreated) by {
      if Ascending(products, ProductCreated) {
        ProductModel.FindByCategoryExact(products, category);
      }
    }
    Success(200, None, ProductModel.FindByCategory(products, category))
  }

  /** `POST /` (admin). */
  method PostProduct(db: Db, body: ProductBody) returns (res: Response<Product>)
    requires db.Valid()
    modifies db`products, db`nextProductId, db`clock
    ensures db.Valid()
    ensures !FieldsGiven(body) <==> res == Failure(400, "All fields are required.")
    ensures !FieldsGiven(body) ==> db.products == old(db.products)
    ensures FieldsGiven(body) ==>
      && res.Success? && res.status == 201 && res.message == Some("Product created successfully")
      && ProductModel.DataOf(res.payload) == DataOf(body)
      && res.payload.id !in ProductIds(old(db.products))
      && db.products == old(db.products) + [res.payload]
  {
    if !FieldsGiven(body) {
      return Failure(400, "All fields are required.");
    }
    var p := ProductModel.Create(db, DataOf(body));
    res := Success(201, Some("Product created successfully"), p);
  }

  /** `PUT /:id` (admin): every column is overwritten, including `image_url`,
      which an absent or empty field clears. */
  method PutProduct(db: Db, id: int, body: ProductBody) returns (res: Response<Product>)
    requires db.Valid()
    modifies db`products
    ensures db.Valid()
    ensures !FieldsGiven(body) <==> res == Failure(400, "All fields are required.")
    ensures !FieldsGiven(body) ==> db.products == old(db.products)
    ensures FieldsGiven(body) ==>
      && db.products == ProductModel.Overwrite(old(db.products), id, DataOf(body))
      && (res.status == 404 <==> id !in ProductIds(old(db.products)))
      && (res.status == 404 ==> res == Failure(404, "Product not found."))
      && (res.status != 404 ==>
            res.Success? && res.status == 200 && res.message == Some("Product updated successfully") &&
            res.payload.id == id && ProductModel.DataOf(res.payload) == DataOf(body))
  {
    if !FieldsGiven(body) {
      return Failure(400, "All fields are required.");
    }
    var r := ProductModel.Update(db, id, DataOf(body));
    if r.None? {
      return Failure(404, "Product not found.");
    }
    res := Success(200, Some("Product updated successfully"), r.value);
  }

  /** `DELETE /:id` (admin): a product some line item still names cannot be
      deleted, and the foreign-key error surfaces as a 500. */
  method DeleteProduct(db: Db, id: int) returns (res: Response<int>)
    requires db.Valid()
    modifies db`products
    ensures db.Valid()
    ensures res.status == 500 <==> id in ProductIds(old(db.products)) && ProductModel.Referenced(db.purchaseItems, id)
    ensures res.status == 500 ==> res == Failure(500, "Error deleting product.") && db.products == old(db.products)
    ensures res.status == 404 <==> id !in ProductIds(old(db.products))
    ensures res.status == 404 ==> res == Failure(404, "Product not found.")
    ensures res.status == 200 ==>
      res == Success(200, Some("Product deleted successfully"), id) &&
      db.products == ProductModel.Without(old(db.products), id)
    ensures res.status in {200, 404, 500}
  {
    var r := ProductModel.Delete(db, id);
    match r
    case Err(_) => res := Failure(500, "Error deleting product.");
    case Ok(None) => res := Failure(404, "Product not found.");
    case Ok(Some(deleted)) => res := Success(200, Some("Product deleted successfully"), deleted);
  }
}
