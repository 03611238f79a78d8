/**
 * The database the handlers share, one sequence field per table in
 * insertion order, with the auto-increment counters of the tables rows are
 * created in. Handlers change a table by reassigning its field.
 */
module Store {
  import opened Records
  import opened Tables

  class Db {
    var users: seq<User>
    var products: seq<Product>
    var orders: seq<Order>
    var details: seq<OrderDetail>
    var wishlist: seq<WishlistItem>
    var nextUserId: nat
    var nextProductId: nat
    var nextWishlistId: nat

    /** Every key is unique and below its table's counter, so a created row gets a fresh key. */
    ghost predicate Valid()
      reads this
    {
      && KeysBelow(users, UserKey, nextUserId) && DistinctKeys(users, UserKey)
      && KeysBelow(products, ProductKey, nextProductId) && DistinctKeys(products, ProductKey)
      && KeysBelow(wishlist, WishlistKey, nextWishlistId) && DistinctKeys(wishlist, WishlistKey)
    }

    /** An empty database; serial columns start at 1. */
    constructor ()
      ensures Valid()
      ensures users == [] && products == [] && orders == [] && details == [] && wishlist == []
      ensures nextUserId == nextProductId == nextWishlistId == 1
    {
      users, products, orders, details, wishlist := [], [], [], [], [];
      nextUserId, nextProductId, nextWishlistId := 1, 1, 1;
    }
  }
}
