/**
 * The product handlers: two reads, and create, update and delete over the
 * product table. Product images go to an external upload service, a
 * parameter here that answers with the stored file's URL or fails; the
 * handlers also return the upload requests they sent, in order.
 */
module ProductController {
  import opened Common
  import opened Text
  import opened Tables
  import opened Records
  import opened Store
  import opened JsNumber

  const NotFound := Response(404, Failure("Product not found"))

  /** A product request body; an absent attribute is `None`. */
  datatype ProductBody = ProductBody(
    name: Option<string>,
    description: Option<string>,
    active: Option<bool>,
    price: Option<int>,
    thumbnail: Option<string>,
    packshot: Option<string>,
    thumbnail_name: Option<string>,
    thumbnail_base64: Option<string>,
    packshot_name: Option<string>,
    packshot_base64: Option<string>)

  /** One call of `uploadImage(base64, name)`. */
  datatype UploadRequest = UploadRequest(base64: string, name: Option<string>)

  /** The upload service: the URL of the stored file, or `None` when `uploadImage` throws. */
  type Upload = UploadRequest -> Option<string>

  /** `Product.findByPk(param)`. */
  function ById(products: seq<Product>, param: string): (p: Option<Product>)
    ensures p.Some? ==> p.value in products && KeyOf(param) == Some(p.value.id)
    ensures p.None? ==> forall q :: q in products ==> KeyOf(param) != Some(q.id)
  {
    match KeyOf(param)
    case None => None
    case Some(k) => FindOne(products, ProductWithId(k))
  }

  /** GET /api/products: 404 on an empty table, else every row in table order. */
  function GetProducts(products: seq<Product>): (r: Response)
    ensures r.status == 404 <==> products == []
    ensures r.status == 404 ==> r.body == Failure("No products found")
    ensures r.status != 404 ==> r.status == 200 && r.body.ProductList? && r.body.products == products
  {
    if |products| == 0 then Response(404, Failure("No products found"))
    else Response(200, ProductList(products))
  }

  /** GET /api/products/:id: 400 for an id that is not a number, before any lookup; 404 when no row has it. */
  function GetProduct(products: seq<Product>, id: string): (r: Response)
    ensures r.status in {200, 400, 404}
    ensures r.status == 400 <==> IsNaN(id)
    ensures r.status == 400 ==> r.body == Failure("Bad request. No id provided")
    ensures r.status == 404 <==> !IsNaN(id) && forall q :: q in products ==> KeyOf(id) != Some(q.id)
    ensures r.status == 404 ==> r == NotFound
    ensures r.status == 200 ==>
      r.body.OneProduct? && r.body.product in products && KeyOf(id) == Some(r.body.product.id)
  {
    if IsNaN(id) then Response(400, Failure("Bad request. No id provided"))
    else
      match ById(products, id)
      case None => NotFound
      case Some(product) => Response(200, OneProduct(product))
  }

  /**
   * An id that `isNaN` takes for a number but that is not a run of digits
   * ("-5", "1.5", " 7") gets past the 400 check and names no row.
   */
  lemma NumericNonDigitIdNotFound(products: seq<Product>, id: string)
    requires !IsNaN(id) && !IsDecimal(id)
    ensures GetProduct(products, id) == NotFound
  {
  }

  /** A signed id such as "-5" reaches the lookup and names no row. */
  lemma SignedIdNotFound(products: seq<Product>, sign: char, digits: string)
    requires sign in "+-" && IsDecimal(digits)
    ensures GetProduct(products, [sign] + digits) == NotFound
  {
    SignedDigitsAreNumbers(sign, digits);
    assert !IsDigit(([sign] + digits)[0]);
    NumericNonDigitIdNotFound(products, [sign] + digits);
  }

  /** A fractional id such as "1.5" reaches the lookup and names no row. */
  lemma FractionalIdNotFound(products: seq<Product>, a: string, b: string)
    requires AllDigits(a) && AllDigits(b) && (a != [] || b != [])
    ensures GetProduct(products, a + "." + b) == NotFound
  {
    FractionsAreNumbers(a, b);
    assert (a + "." + b)[|a|] == '.';
    NumericNonDigitIdNotFound(products, a + "." + b);
  }

  /** An id padded with white space such as " 7" reaches the lookup and names no row. */
  lemma PaddedIdNotFound(products: seq<Product>, w: char, digits: string)
    requires IsWhiteSpace(w) && IsDecimal(digits)
    ensures GetProduct(products, [w] + digits) == NotFound
  {
    DigitsAreNumbers(digits);
    PaddedNumbers(w, digits);
    assert !IsDigit(([w] + digits)[0]);
    NumericNonDigitIdNotFound(products, [w] + digits);
  }

  /** Any of the six fields creation requires is falsy (so a price of 0 counts as missing). */
  predicate MissingForCreate(body: ProductBody) {
    || !Truthy(body.name) || !TruthyNumber(body.price)
    || !Truthy(body.thumbnail_name) || !Truthy(body.thumbnail_base64)
    || !Truthy(body.packshot_name) || !Truthy(body.packshot_base64)
  }

  function ThumbnailRequest(body: ProductBody): UploadRequest
    requires body.thumbnail_base64.Some?
  {
    UploadRequest(body.thumbnail_base64.value, body.thumbnail_name)
  }

  function PackshotRequest(body: ProductBody): UploadRequest
    requires body.packshot_base64.Some?
  {
    UploadRequest(body.packshot_base64.value, body.packshot_name)
  }

  /** The row `Product.create` inserts: `active` defaults to true, the images are the uploaded files' URLs. */
  function NewProduct(id: nat, body: ProductBody, thumbnail: string, packshot: string): Product
    requires body.name.Some? && body.price.Some?
  {
    Product(id, body.name.value, body.description, body.active.GetOr(true), Some(thumbnail), Some(packshot), body.price.value)
  }

  /**
   * POST /api/products. A falsy required field gives 400 before any upload.
   * Then the thumbnail and the packshot are uploaded, in that order; a failed
   * upload gives 500 and creates nothing. Otherwise one row is created whose
   * images are the two URLs, and the answer is 201.
   */
  method PostProduct(db: Db, body: ProductBody, upload: Upload) returns (r: Response, sent: seq<UploadRequest>)
    requires db.Valid()
    modifies db`products, db`nextProductId
    ensures db.Valid()
    ensures r.status in {201, 400, 500}
    ensures r.status == 400 <==> MissingForCreate(body)
    ensures r.status == 400 ==> r.body == Failure("Name and price are required fields") && sent == []
    ensures r.status != 400 ==>
      && 1 <= |sent| <= 2 && sent[0] == ThumbnailRequest(body)
      && (|sent| == 1 <==> upload(ThumbnailRequest(body)).None?)
      && (|sent| == 2 ==> sent[1] == PackshotRequest(body))
    ensures r.status == 500 <==>
      !MissingForCreate(body) && (upload(ThumbnailRequest(body)).None? || upload(PackshotRequest(body)).None?)
    ensures r.status == 500 ==> r.body == InternalError
    ensures r.status == 201 ==>
      var row := NewProduct(old(db.nextProductId), body,
                            upload(ThumbnailRequest(body)).value, upload(PackshotRequest(body)).value);
      && db.products == old(db.products) + [row]
      && db.nextProductId == old(db.nextProductId) + 1
      && r.body == SavedProduct(row, "Product " + Dec(row.id) + " successfully created")
    ensures r.status != 201 ==> db.products == old(db.products) && db.nextProductId == old(db.nextProductId)
  {
    sent := [];
    if MissingForCreate(body) {
      return Response(400, Failure("Name and price are required fields")), sent;
    }
    var thumbnail: Option<string> := None;
    var packshot: Option<string> := None;
    if Truthy(body.thumbnail_base64) {
      sent := sent + [ThumbnailRequest(body)];
      var url := upload(ThumbnailRequest(body));
      if url.None? {
        return Response(500, InternalError), sent;
      }
      thumbnail := url;
    }
    if Truthy(body.packshot_base64) {
      sent := sent + [PackshotRequest(body)];
      var url := upload(PackshotRequest(body));
      if url.None? {
        return Response(500, InternalError), sent;
      }
      packshot := url;
    }
    var row := NewProduct(db.nextProductId, body, thumbnail.value, packshot.value);
    AppendFresh(db.products, ProductKey, db.nextProductId, row);
    db.products := db.products + [row];
    db.nextProductId := db.nextProductId + 1;
    return Response(201, SavedProduct(row, "Product " + Dec(row.id) + " successfully created")), sent;
  }

  /**
   * The body after the uploads `putProduct` makes before validating anything:
   * each truthy base64 field is uploaded, thumbnail first, and its URL replaces
   * the body's image attribute; a failed upload stops there (`None`).
   * Also returns the requests sent.
   */
  function WithUploads(body: ProductBody, upload: Upload): (result: (Option<ProductBody>, seq<UploadRequest>))
    ensures |result.1| <= 2
    ensures result.1 == (if Truthy(body.thumbnail_base64) then [ThumbnailRequest(body)] else [])
      + (if Truthy(body.packshot_base64) && !(Truthy(body.thumbnail_base64) && upload(ThumbnailRequest(body)).None?)
         then [PackshotRequest(body)] else [])
    ensures result.0.None? <==>
      || (Truthy(body.thumbnail_base64) && upload(ThumbnailRequest(body)).None?)
      || (Truthy(body.packshot_base64) && upload(PackshotRequest(body)).None?
          && !(Truthy(body.thumbnail_base64) && upload(ThumbnailRequest(body)).None?))
    ensures result.0.Some? ==>
      && result.0.value.(thumbnail := body.thumbnail, packshot := body.packshot) == body
      && (Truthy(body.thumbnail_base64) ==> result.0.value.thumbnail == upload(ThumbnailRequest(body)))
      && (!Truthy(body.thumbnail_base64) ==> result.0.value.thumbnail == body.thumbnail)
      && (Truthy(body.packshot_base64) ==> result.0.value.packshot == upload(PackshotRequest(body)))
      && (!Truthy(body.packshot_base64) ==> result.0.value.packshot == body.packshot)
  {
    var thumbSent := if Truthy(body.thumbnail_base64) then [ThumbnailRequest(body)] else [];
    var thumb := if Truthy(body.thumbnail_base64) then upload(ThumbnailRequest(body)) else body.thumbnail;
    if thumb.None? && Truthy(body.thumbnail_base64) then (None, thumbSent)
    else
      var packSent := if Truthy(body.packshot_base64) then [PackshotRequest(body)] else [];
      var pack := if Truthy(body.packshot_base64) then upload(PackshotRequest(body)) else body.packshot;
      if pack.None? && Truthy(body.packshot_base64) then (None, thumbSent + packSent)
      else (Some(body.(thumbnail := thumb, packshot := pack)), thumbSent + packSent)
  }

  /** `existingProduct.update(body)`: every column the body carries replaces the stored value. */
  function Apply(p: Product, body: ProductBody): (q: Product)
    ensures q.id == p.id
  {
    Product(p.id, body.name.GetOr(p.name),
            if body.description.Some? then body.description else p.description,
            body.active.GetOr(p.active),
            if body.thumbnail.Some? then body.thumbnail else p.thumbnail,
            if body.packshot.Some? then body.packshot else p.packshot,
            body.price.GetOr(p.price))
  }

  /** Applying the same body twice leaves the row as applying it once did. */
  lemma ApplyIdempotent(p: Product, body: ProductBody)
    ensures Apply(Apply(p, body), body) == Apply(p, body)
  {
  }

  /** A body carrying no column leaves the row as it was. */
  lemma ApplyNothing(p: Product)
    ensures Apply(p, ProductBody(None, None, None, None, None, None, None, None, None, None)) == p
  {
  }

  /** The 400 condition of an update: an empty id, or a falsy name or price. */
  predicate MissingForUpdate(id: string, body: ProductBody) {
    id == "" || !Truthy(body.name) || !TruthyNumber(body.price)
  }

  /**
   * PUT /api/products/:id. The uploads come first, so a failed one gives 500
   * even when the fields are invalid, and they are sent even when the request
   * is then refused. Then an empty id or a falsy name or price gives 400, an
   * unknown id 404; otherwise that row, and only it, takes the body's columns.
   */
  method PutProduct(db: Db, id: string, body: ProductBody, upload: Upload) returns (r: Response, sent: seq<UploadRequest>)
    requires db.Valid()
    modifies db`products
    ensures db.Valid()
    ensures sent == WithUploads(body, upload).1
    ensures r.status in {200, 400, 404, 500}
    ensures r.status == 500 <==> WithUploads(body, upload).0.None?
    ensures r.status == 500 ==> r.body == InternalError
    ensures r.status == 400 <==> WithUploads(body, upload).0.Some? && MissingForUpdate(id, body)
    ensures r.status == 400 ==> r.body == Failure("Product ID, name, and price are required fields")
    ensures r.status == 404 <==>
      WithUploads(body, upload).0.Some? && !MissingForUpdate(id, body) && ById(old(db.products), id).None?
    ensures r.status == 404 ==> r == NotFound
    ensures r.status != 200 ==> db.products == old(db.products)
    ensures r.status == 200 ==>
      var i := FirstWhere(old(db.products), ProductWithId(KeyOf(id).value));
      && i < |old(db.products)|
      && db.products == old(db.products)[i := Apply(old(db.products)[i], WithUploads(body, upload).0.value)]
      && r.body == SavedProduct(db.products[i], "Product " + id + " has been successfully updated")
  {
    var newProduct := body;
    sent := [];
    if Truthy(body.thumbnail_base64) {
      sent := sent + [ThumbnailRequest(body)];
      var url := upload(ThumbnailRequest(body));
      if url.None? {
        return Response(500, InternalError), sent;
      }
      newProduct := newProduct.(thumbnail := url);
    }
    if Truthy(body.packshot_base64) {
      sent := sent + [PackshotRequest(body)];
      var url := upload(PackshotRequest(body));
      if url.None? {
        return Response(500, InternalError), sent;
      }
      newProduct := newProduct.(packshot := url);
    }
    if MissingForUpdate(id, body) {
      return Response(400, Failure("Product ID, name, and price are required fields")), sent;
    }
    var existing := ById(db.products, id);
    if existing.None? {
      return NotFound, sent;
    }
    var i := FirstWhere(db.products, ProductWithId(KeyOf(id).value));
    var row := Apply(db.products[i], newProduct);
    ReplaceKeepsKeys(db.products, ProductKey, db.nextProductId, i, row);
    db.products := db.products[i := row];
    return Response(200, SavedProduct(row, "Product " + id + " has been successfully updated")), sent;
  }

  /** DELETE /api/products/:id: 400 for an empty id, 404 for an unknown one; else that row goes and every other stays, in order. */
  method DeleteProduct(db: Db, id: string) returns (r: Response)
    requires db.Valid()
    modifies db`products
    ensures db.Valid()
    ensures r.status in {200, 400, 404}
    ensures r.status == 400 <==> id == ""
    ensures r.status == 400 ==> r.body == Failure("Product ID is required")
    ensures r.status == 404 <==> id != "" && ById(old(db.products), id).None?
    ensures r.status == 404 ==> r == NotFound
    ensures r.status != 200 ==> db.products == old(db.products)
    ensures r.status == 200 ==>
      && r.body == Done("Product " + id + " successfully deleted")
      && db.products == RemoveAt(old(db.products), FirstWhere(old(db.products), ProductWithId(KeyOf(id).value)))
      && ById(db.products, id).None?
      && forall p :: p in old(db.products) && Some(p.id) != KeyOf(id) ==> p in db.products
  {
    if id == "" {
      return Response(400, Failure("Product ID is required"));
    }
    var existing := ById(db.products, id);
    if existing.None? {
      return NotFound;
    }
    var k := KeyOf(id).value;
    var i := FirstWhere(db.products, ProductWithId(k));
    ghost var before := db.products;
    RemoveKeepsKeys(db.products, ProductKey, db.nextProductId, i);
    db.products := RemoveAt(db.products, i);
    RemoveKeepsOthers(before, i);
    assert forall q :: q in db.products ==> q.id != k;
    return Response(200, Done("Product " + id + " successfully deleted"));
  }
}
