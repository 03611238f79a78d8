/**
 * Adding a product to a client's wishlist: validate the two ids, check that
 * both rows exist, refuse a pair already present, then insert one item.
 * Each check answers before any later check or write.
 */
module WishlistController {
  import opened Common
  import opened Tables
  import opened Records
  import opened Store

  /** The request body; an absent id is `None`. */
  datatype WishlistBody = WishlistBody(id_client: Option<int>, id_product: Option<int>)

  /** Whether some item already holds this client and product. */
  predicate HasPair(items: seq<WishlistItem>, client: int, product: int) {
    exists j :: 0 <= j < |items| && ItemWithPair(client, product)(items[j])
  }

  /** No two items hold the same client and product. */
  ghost predicate UniquePairs(items: seq<WishlistItem>) {
    forall j, k :: 0 <= j < k < |items| ==>
      (items[j].id_client, items[j].id_product) != (items[k].id_client, items[k].id_product)
  }

  /** An item whose pair is absent keeps the pairs unique. */
  lemma AppendNewPair(items: seq<WishlistItem>, item: WishlistItem)
    requires UniquePairs(items)
    requires !HasPair(items, item.id_client, item.id_product)
    ensures UniquePairs(items + [item])
  {
    forall j | 0 <= j < |items|
      ensures (items[j].id_client, items[j].id_product) != (item.id_client, item.id_product)
    {
      assert !ItemWithPair(item.id_client, item.id_product)(items[j]);
    }
  }

  /**
   * POST a wishlist item. A falsy id gives 400; an unknown client or product
   * 404; a pair already present 400; otherwise one item with that pair is
   * inserted and the answer is 201. Only success writes, so a table whose pairs
   * are unique stays so.
   */
  method AddWishlist(db: Db, body: WishlistBody) returns (r: Response)
    requires db.Valid()
    modifies db`wishlist, db`nextWishlistId
    ensures db.Valid()
    ensures r.status in {201, 400, 404}
    ensures !TruthyNumber(body.id_client) || !TruthyNumber(body.id_product) ==>
      r == Response(400, Failure("id_client and id_product are required fields"))
    ensures TruthyNumber(body.id_client) && TruthyNumber(body.id_product) ==>
      var client, product := body.id_client.value, body.id_product.value;
      && (r.status == 404 <==>
            FindOne(db.users, UserWithId(client)).None? || FindOne(db.products, ProductWithId(product)).None?)
      && (r.status == 404 ==> r.body == Failure("Client or Product not found"))
      && (r.status == 400 <==>
            && FindOne(db.users, UserWithId(client)).Some? && FindOne(db.products, ProductWithId(product)).Some?
            && HasPair(old(db.wishlist), client, product))
      && (r.status == 400 ==> r.body == Failure("Wishlist item already exists"))
    ensures r.status == 201 ==>
      var item := WishlistItem(old(db.nextWishlistId), body.id_client.value as nat, body.id_product.value as nat);
      && body.id_client.value >= 0 && body.id_product.value >= 0
      && db.wishlist == old(db.wishlist) + [item]
      && db.nextWishlistId == old(db.nextWishlistId) + 1
      && r.body == WishlistAdded(item, "Wishlist item added successfully")
    ensures r.status != 201 ==> db.wishlist == old(db.wishlist) && db.nextWishlistId == old(db.nextWishlistId)
    ensures UniquePairs(old(db.wishlist)) ==> UniquePairs(db.wishlist)
  {
    if !TruthyNumber(body.id_client) || !TruthyNumber(body.id_product) {
      return Response(400, Failure("id_client and id_product are required fields"));
    }
    var client, product := body.id_client.value, body.id_product.value;
    var clientExists := FindOne(db.users, UserWithId(client));
    var productExists := FindOne(db.products, ProductWithId(product));
    if clientExists.None? || productExists.None? {
      return Response(404, Failure("Client or Product not found"));
    }
    var existing := FindOne(db.wishlist, ItemWithPair(client, product));
    if existing.Some? {
      return Response(400, Failure("Wishlist item already exists"));
    }
    var item := WishlistItem(db.nextWishlistId, clientExists.value.id, productExists.value.id);
    if UniquePairs(db.wishlist) {
      AppendNewPair(db.wishlist, item);
    }
    AppendFresh(db.wishlist, WishlistKey, db.nextWishlistId, item);
    db.wishlist := db.wishlist + [item];
    db.nextWishlistId := db.nextWishlistId + 1;
    return Response(201, WishlistAdded(item, "Wishlist item added successfully"));
  }
}
