# Shop backend and hash router, modelled in Dafny

This project models the core of a small shop: a REST backend over four
relational tables (`users`, `products`, `purchases`, `purchase_items`) and
the hash-routed single-page front end in `index.js`.

- **Tables.** A table is a sequence of rows in insertion order, held in the
  class `Schema.Db`. `Db` also holds the four serial sequences and the
  clock that `NOW()` reads. The table definitions are not among the
  modelled files. `Db.Valid()` is the set of constraints the tables are
  assumed to have:
  - ids strictly ascending and below their sequence;
  - `created_at` ascending and in the past;
  - UNIQUE `users.email` and `users.username`;
  - the three foreign keys.
- **`ORDER BY created_at DESC`.** This listing is the table read back to
  front. `Sql.DescendingUnique` shows that the listing is well defined.
- **Writes.**
  - Each write of the three stores (`ProductModel`, `UserModel`,
    `PurchaseModel`) is a method. It is proved against a function of the
    old table, keeps `Valid()`, and changes only the fields its `modifies`
    names.
  - The purchase transaction is modelled statement by statement. An
    outside failure is the parameter `fault`: the index of the statement
    that throws.
  - ROLLBACK restores the tables. It does not restore the sequences, as in
    PostgreSQL.
- **Handlers.** The Express handlers are in `PurchaseRoutes`,
  `ProductRoutes` and `AuthRoutes`. Each one keeps the source's status
  codes and messages exactly.
- **Foreign code.** bcrypt's `hash` and `compare` are function parameters.
  A JWT is modelled by its payload.
- **Front end.** The router, the forms and the dashboard of `index.js` are
  pure functions in `HashRouter`.

Three behaviours of the code are worth stating:

- **Stock can go negative.** Nothing checks it, so a purchase can drive
  stock below zero (`PurchaseModel.OversellGoesNegative`).
- **Line items are deleted explicitly.** `Purchase.delete` deletes a
  purchase's line items itself before the purchase. The foreign keys are
  assumed to have no ON DELETE action, so `Product.delete` and
  `User.delete` fail on a referenced row.
- **The total is not recomputed.** The stored total is the one the client
  sends. It is never recomputed from the lines.

## Model

| member | source | states |
|---|---|---|
| Sql.DescendingUnique | backend/models/Product.js:38 | two listings of the same rows, both strictly newest first, are equal, so `ORDER BY created_at DESC` has one answer |
| ProductModel.Create | backend/models/Product.js:5-22 | the new row carries exactly the supplied columns, an id never used before and the current time; it is appended and the database stays consistent |
| ProductModel.FindById | backend/models/Product.js:25-34 | returns a row of the table with that id, and nothing exactly when no row has it |
| ProductModel.FindByIdKeyed | backend/models/Product.js:25-34 | in a table with unique ids, looking up a row's id returns that row |
| ProductModel.FindAllNewestFirst | backend/models/Product.js:37-46 | every row, each once, strictly newest first |
| ProductModel.FindByCategoryExact | backend/models/Product.js:49-58 | exactly the rows of that category, strictly newest first |
| ProductModel.ContainsOccurs | backend/models/Product.js:69 | the substring scan is true exactly when the term occurs at some position, the meaning of `%term%` |
| ProductModel.SearchExact | backend/models/Product.js:61-74 | a row is listed exactly when its name, description or category contains the term ignoring ASCII case; newest first |
| ProductModel.SearchEmptyTermListsAll | backend/models/Product.js:61-74 | the empty term matches every product: the search equals the full listing |
| ProductModel.Update | backend/models/Product.js:77-94 | the table becomes the overwrite of that id with all six columns; nothing comes back exactly when the id is absent; the returned row carries the new columns |
| ProductModel.UpdateReadBack | backend/models/Product.js:77-94 | after an update the id reads back with the new columns and its old creation time, other ids read as before, and an absent id leaves the table unchanged |
| ProductModel.DecrementKeepsKeys | backend/models/Product.js:97-111 | a stock update keeps ids, their order and the timestamps |
| ProductModel.UpdateStock | backend/models/Product.js:97-111 | stock drops by the quantity with no lower bound; nothing comes back exactly when the id is absent; the returned stock is the old one minus the quantity |
| ProductModel.Delete | backend/models/Product.js:114-123 | a product still named by a line item cannot be deleted (foreign-key error, nothing changes); an absent id returns nothing; otherwise exactly that row goes |
| ProductModel.DeleteOnlyTarget | backend/models/Product.js:114-123 | after a delete the id is gone and every other id reads back the same row as before |
| UserModel.Create | backend/models/User.js:5-24 | the row stores `hash(password)`, not the password; the result is the password-free view; a taken email or username is a UNIQUE error that leaves the table unchanged |
| UserModel.FindByEmail | backend/models/User.js:27-36 | returns a row with that email, and nothing exactly when no row has it |
| UserModel.FindByEmailUnique | backend/models/User.js:27-36 | under the UNIQUE email constraint the lookup returns the one row with that email |
| UserModel.FindById | backend/models/User.js:39-48 | returns the password-free view of the row with that id, and nothing exactly when the id is absent |
| UserModel.FindAllNewestFirst | backend/models/User.js:83-92 | every user's view, and only those, strictly newest first |
| UserModel.Update | backend/models/User.js:51-68 | only username, full name and address change; an absent id returns nothing; another user's username is a UNIQUE error that changes nothing |
| UserModel.RewriteKeepsLogins | backend/models/User.js:51-68 | a profile update that takes no other user's username keeps emails and usernames unique |
| UserModel.UpdateKeepsCredentials | backend/models/User.js:51-68 | an update never changes which emails exist, nor any stored email or password digest |
| UserModel.RewriteFind | backend/models/User.js:51-68 | after an update the email lookup and the id lookup see the old row with the three new columns |
| UserModel.Delete | backend/models/User.js:71-80 | a user who still owns purchases cannot be deleted (foreign-key error); an absent id returns nothing; otherwise exactly that row goes |
| UserModel.DeleteOnlyTarget | backend/models/User.js:71-80 | after a delete the id is gone and every other id reads back the same view as before |
| PurchaseModel.LineItems | backend/models/Purchase.js:24-30 | one line item per input line, in order, with consecutive ids, the purchase id and that line's product, quantity and price |
| PurchaseModel.ApplyOrderStock | backend/models/Purchase.js:32-39 | each product's stock drops by the sum of the quantities of the lines naming it, and nothing else about any row changes |
| PurchaseModel.OversellGoesNegative | backend/models/Purchase.js:32-39 | two lines of six against a stock of ten leave a stock of -2 |
| PurchaseModel.ApplyOrderKeepsIds | backend/models/Purchase.js:32-39 | the stock updates keep every product id |
| PurchaseModel.InsertLines | backend/models/Purchase.js:24-40 | the item loop runs to the end exactly when every product exists and no statement fails; it then holds all line items and all stock updates; the first missing product is a foreign-key error |
| PurchaseModel.Transact | backend/models/Purchase.js:5-51 | over the tables' values: the unit commits exactly when the owner and every product exist and no statement fails; a commit yields the purchase with the given total and status `completed`, its line items and the stock updates; any failure yields the three tables unchanged; the result always satisfies every table constraint |
| PurchaseModel.Create | backend/models/Purchase.js:5-51 | the unit commits exactly when the owner and every product exist and no statement fails; a commit stores the purchase with the given total and status `completed`, its line items and the stock updates; any failure leaves all three tables as they were |
| PurchaseModel.FindById | backend/models/Purchase.js:54-68 | returns a purchase of the table with that id, with the username and full name of the user its `user_id` names, and nothing for an absent id |
| PurchaseModel.FindByIdExact | backend/models/Purchase.js:54-68 | under the owner foreign key, a purchase is found exactly when the id exists, and it is the row with that id |
| PurchaseModel.JoinProducts | backend/models/Purchase.js:73-75 | when every line item's product exists, the join keeps every line item, in order |
| PurchaseModel.JoinProductsDescribed | backend/models/Purchase.js:73-75 | each joined line item carries the name and image of the product its `product_id` names |
| PurchaseModel.CreatedItemsReadBack | backend/models/Purchase.js:71-85 | after a committed purchase its items read back as exactly its input lines, in order |
| PurchaseModel.FindByUserIdOwned | backend/models/Purchase.js:88-103 | every listed view is one of that user's purchases, with the owner's username and full name |
| PurchaseModel.FindByUserIdExact | backend/models/Purchase.js:88-103 | exactly that user's purchases, each once, newest first |
| PurchaseModel.FindAllNewestFirst | backend/models/Purchase.js:106-120 | every purchase, each once, newest first |
| PurchaseModel.SetStatusOnlyStatus | backend/models/Purchase.js:123-137 | a status update changes only that purchase's status; every other purchase reads as before |
| PurchaseModel.UpdateStatus | backend/models/Purchase.js:123-137 | the table becomes the status update; nothing comes back exactly when the id is absent; otherwise it returns the id and new status |
| PurchaseModel.DeleteKeepsInvariants | backend/models/Purchase.js:146-150 | deleting the line items first and then the purchase keeps every schema constraint |
| PurchaseModel.Delete | backend/models/Purchase.js:140-161 | a failure at any of the three statements leaves both tables as they were; otherwise the purchase and all its line items are gone and nothing else changes; an absent id returns nothing |
| PurchaseModel.DeleteCascades | backend/models/Purchase.js:140-161 | after a delete neither the purchase nor any item of it reads back, and every other purchase keeps exactly its items |
| Http.OrNull | backend/routes/products.js:69 | `image_url \|\| null` keeps a non-empty string and turns an absent or empty one into null |
| PurchaseRoutes.PostPurchase | backend/routes/purchases.js:8-31 | a missing or zero total or an empty item list is a 400 that writes nothing; the owner is always the caller; 201 exactly when the transaction commits; any transaction error is a 500 that leaves the tables unchanged |
| PurchaseRoutes.ShowPurchase | backend/routes/purchases.js:34-58 | 404 exactly when the purchase is not found; a 200 only ever shows the caller's own purchase or answers an admin |
| PurchaseRoutes.ShowPurchaseAccess | backend/routes/purchases.js:34-58 | for an existing purchase, 200 with exactly its items when it is the caller's or the caller is an admin, and 403 otherwise |
| PurchaseRoutes.MyPurchases | backend/routes/purchases.js:61-69 | 200 listing only the caller's purchases, each with its owner's name; over stored tables, every one of them, newest first |
| PurchaseRoutes.AllPurchases | backend/routes/purchases.js:72-80 | 200 listing purchases of the table with their owners' names; over stored tables, every purchase, newest first |
| PurchaseRoutes.PutStatus | backend/routes/purchases.js:83-106 | a missing or empty status is a 400 that writes nothing; any non-empty status is stored verbatim; 404 exactly when the id is absent |
| PurchaseRoutes.DeletePurchase | backend/routes/purchases.js:109-126 | 500 exactly when the transaction fails, with nothing changed; otherwise the purchase and its items are gone, with 404 exactly when the id was absent |
| ProductRoutes.DataOf | backend/routes/products.js:63-70 | the data passed on has non-empty text, a non-zero price and stock, and an image exactly when a non-empty one was sent |
| ProductRoutes.ListProducts | backend/routes/products.js:8-16 | 200 listing every product and nothing else; newest first when the table is in creation order |
| ProductRoutes.ShowProduct | backend/routes/products.js:19-30 | 404 exactly when the id is absent, otherwise 200 with the product of that id |
| ProductRoutes.SearchProducts | backend/routes/products.js:33-41 | 200 listing exactly the products whose name, description or category contains the term; newest first when the table is in creation order |
| ProductRoutes.ProductsInCategory | backend/routes/products.js:44-52 | 200 listing exactly the products of that category; newest first when the table is in creation order |
| ProductRoutes.PostProduct | backend/routes/products.js:55-81 | any missing, empty or zero field is a 400 that writes nothing; otherwise 201 with a new product carrying the sent fields |
| ProductRoutes.PutProduct | backend/routes/products.js:84-114 | any missing, empty or zero field is a 400 that writes nothing; otherwise every column is overwritten, with 404 exactly when the id is absent |
| ProductRoutes.DeleteProduct | backend/routes/products.js:117-134 | a product still on a line item is a 500 that changes nothing; an absent id is 404; otherwise 200 and the row is gone |
| AuthRoutes.Register | backend/routes/auth.js:9-51 | a taken email is a 400 before anything is written; a taken username is a 500; otherwise 201 with the new account's public fields and a token for its id |
| AuthRoutes.Login | backend/routes/auth.js:54-93 | an unknown email and a wrong password give the same 400; a 200 names an account with that email whose digest the password matches |
| AuthRoutes.LoginSucceedsForMatch | backend/routes/auth.js:54-93 | with unique emails, a password that matches the digest of the account with that email logs in as that account |
| AuthRoutes.RegisteredUserCanLogIn | backend/routes/auth.js:20-26 | an account just created logs in with the same email and password |
| AuthRoutes.Profile | backend/routes/auth.js:96-113 | 500 exactly when the caller's account no longer exists, otherwise 200 with its password-free view |
| AuthRoutes.UpdateProfile | backend/routes/auth.js:116-135 | only username, full name and address change; a taken username is a 500 that changes nothing; a vanished account still gets 200 with no user |
| HashRouter.PathOf | index.js:10 | the hash without its `#`, or `/dashboard` when that is empty; never empty |
| HashRouter.Route | index.js:9-19 | signed out, only `/login` and `/register` have pages; signed in, those two and `/dashboard` show the dashboard; any path outside the table is the not-found page |
| HashRouter.RouteAgrees | index.js:18 | the router as written renders what `Route` chooses, except for a signed-in user on a name inherited from `Object.prototype` |
| HashRouter.InheritedNameRendersNothing | index.js:18 | a signed-in user on `#constructor` gets no view from the router as written, where `Route` shows the not-found page |
| HashRouter.DashboardNeedsUser | index.js:13-16 | the dashboard is never rendered without a stored user |
| HashRouter.LogoutDisplay | index.js:21 | the logout link is shown exactly when a user is stored |
| HashRouter.SubmitLogin | index.js:39-53 | a non-empty reply stores its first user and moves to the dashboard; an empty one raises the alert |
| HashRouter.LoginLeadsToDashboard | index.js:47-49 | after a successful login the router shows the dashboard |
| HashRouter.SubmitRegister | index.js:74-95 | differing passwords raise an alert and post nothing; otherwise name, email, password and role are posted and the page moves to login |
| HashRouter.RegisterLeadsToLogin | index.js:93-94 | after registering, the router shows the login page |
| HashRouter.RunRouter | index.js:8-22 | one run of the router shows the chosen view, and the logout link exactly when a user is stored |
| HashRouter.SetHash | index.js:186 | assigning a new hash re-runs the router; assigning the current hash leaves the screen as it was |
| HashRouter.LogoutAsWritten | index.js:181-184 | logging out removes the stored user and sets the hash to `#/login`; the screen becomes the login page or stays as it was |
| HashRouter.LogoutLeadsToLogin | index.js:181-186 | logging out from any hash other than `#/login` shows the login page and hides the logout link |
| HashRouter.LogoutOnLoginHashKeepsDashboard | index.js:181-186 | a signed-in user on `#/login` sees the dashboard; logging out from there leaves the dashboard and the logout link on screen with no user stored |
| HashRouter.Logout | index.js:181-186 | logging out with the router re-run always shows the login page and hides the logout link |
| HashRouter.LogoutAgrees | index.js:181-186 | the handler as written matches the corrected one exactly when the hash was not `#/login` or the login page was already shown |
| HashRouter.RenderDashboard | index.js:100-156 | only an admin gets the create form and a Delete button on each event; every event gets a card, in order; the empty list shows the no-events message |

## Left out

- The connection pool, `client.release()` and the configuration of the
  database connection are not modelled. A failure of BEGIN or of
  `pool.connect()` is indistinguishable from a failure of the first
  statement.
- Failures other than constraint violations are modelled only inside the
  two transactions, through `fault`. A single-statement query that loses
  its connection, and the resulting 500 responses of the read handlers,
  are not modelled.
- The `updated_at` column is not modelled. The update queries return it
  where the model returns `created_at` or the whole row.
- Prices and totals are integers. PostgreSQL DECIMAL, `parseFloat` and
  `parseInt` are not modelled.
- Request bodies are typed. A JSON field of the wrong type, such as a
  string stock or a non-array `items`, is not modelled. Path parameters
  are taken as already parsed ids.
- The `auth` and `adminAuth` middleware are not part of this model. A
  handler receives the resolved `Principal`, and admin-only handlers are
  modelled for a request already let through.
- `jsonwebtoken` signing, the secret and the expiry are not modelled. A
  token is its payload.
- bcrypt is two function parameters. Its salting and cost are not
  modelled.
- ProductModel.Search: requires a term without `%`, `_` or `\`.
  ILIKE's wildcard meaning of those characters is not modelled, and case
  folding covers ASCII letters only.
- ProductRoutes.SearchProducts: requires the same plain term as
  `ProductModel.Search`.
- The table definitions are not part of this model. The foreign keys are
  taken to have no ON DELETE action, and no CHECK constraint on stock is
  assumed.
- `getPurchaseItems` has no ORDER BY. The model returns line items in
  table order, whereas PostgreSQL may return any order.
- Concurrency between requests is not modelled. Requests are applied one
  at a time.
- The DOM, `fetch`, `localStorage`, `alert` and `confirm` are not
  modelled. Their inputs are parameters, and their effects are returned
  values.
- The markup of the logout link is not part of this model. Any default
  navigation of the link itself, after its click handler, is not modelled.
- The event creation and deletion requests of `index.js` are not
  modelled; only the gating of their controls is.
- The frontend files under `frontend/js/` and `vite.config.js` are not
  part of this model.

## Findings

| source | as written | input that shows it | evidently intended | confidence | as-written member | corrected member |
|---|---|---|---|---|---|---|
| index.js:18 | `routes[path]` also finds names every object inherits from `Object.prototype`, and calls them instead of `renderNotFound` | a signed-in user opens `#constructor`: `Object` is called and no view is rendered (`HashRouter.InheritedNameRendersNothing`) | a path the table does not declare shows the not-found page | medium, not executed | HashRouter.RouteAsWritten | HashRouter.Route |
| index.js:181-184 | the logout handler only assigns `location.hash = "/login"` and relies on `hashchange` to re-render | a signed-in user on `#/login` (shown the dashboard, for instance after pressing Back) clicks logout: the hash does not change, the router does not run, and the dashboard stays with no user stored (`HashRouter.LogoutOnLoginHashKeepsDashboard`) | logging out always shows the login page | low, not executed; the link's own default navigation could re-run the router | HashRouter.LogoutAsWritten | HashRouter.Logout |
