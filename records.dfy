/**
 * The rows of the five tables (User, Product, Orders, Order_Details,
 * Wishlist) and the HTTP responses the handlers send.
 *
 * Every id is a `nat`: the tables' auto-incremented INTEGER keys, and the
 * foreign keys that point at them (`Orders.user_id` included).
 * DECIMAL and DATE columns are kept as the text the driver hands back.
 */
module Records {
  import opened Common

  /** A row of the User table; `admin` is a nullable boolean. */
  datatype User = User(
    id: nat,
    firstname: string,
    lastname: string,
    email: string,
    password: string,
    address: Option<string>,
    zipcode: Option<int>,
    city: Option<string>,
    phone: Option<string>,
    admin: Option<bool>)

  /** A user as the read handlers send it: every attribute except `password`. */
  datatype PublicUser = PublicUser(
    id: nat,
    firstname: string,
    lastname: string,
    email: string,
    address: Option<string>,
    zipcode: Option<int>,
    city: Option<string>,
    phone: Option<string>,
    admin: Option<bool>)

  /** The row with its password attribute excluded. */
  function Public(u: User): PublicUser {
    PublicUser(u.id, u.firstname, u.lastname, u.email, u.address, u.zipcode, u.city, u.phone, u.admin)
  }

  /** A row of the Product table; `active` defaults to true. */
  datatype Product = Product(
    id: nat,
    name: string,
    description: Option<string>,
    active: bool,
    thumbnail: Option<string>,
    packshot: Option<string>,
    price: int)

  /** A row of the Orders table, Stripe payment columns included. */
  datatype Order = Order(
    id: nat,
    user_id: nat,
    order_date: Option<string>,
    status: Option<string>,
    delivery_mode: Option<string>,
    delivery_address: Option<string>,
    delivery_city: Option<string>,
    delivery_zipcode: Option<int>,
    total_price: Option<int>,
    stripe_payment_id: Option<string>,
    stripe_client_secret: Option<string>)

  /** The eight columns a user's order list shows: no `user_id`, no Stripe columns. */
  datatype OrderSummary = OrderSummary(
    id: nat,
    order_date: Option<string>,
    status: Option<string>,
    delivery_mode: Option<string>,
    delivery_address: Option<string>,
    delivery_city: Option<string>,
    delivery_zipcode: Option<int>,
    total_price: Option<int>)

  function Summary(o: Order): OrderSummary {
    OrderSummary(o.id, o.order_date, o.status, o.delivery_mode, o.delivery_address,
                 o.delivery_city, o.delivery_zipcode, o.total_price)
  }

  /** A row of the Order_Details table; `unit_price` is DECIMAL, kept as its text. */
  datatype OrderDetail = OrderDetail(
    id: nat,
    order_id: nat,
    product_id: nat,
    quantity: Option<int>,
    unit_price: Option<string>)

  /** A row of the Wishlist table: one product a client keeps an eye on. */
  datatype WishlistItem = WishlistItem(id: nat, id_client: nat, id_product: nat)

  // Primary keys, and the `where` conditions the handlers look rows up with.

  function UserKey(u: User): nat { u.id }
  function ProductKey(p: Product): nat { p.id }
  function WishlistKey(w: WishlistItem): nat { w.id }

  function UserWithId(k: int): User -> bool { (u: User) => u.id == k }
  function UserWithEmail(email: string): User -> bool { (u: User) => u.email == email }
  function ProductWithId(k: int): Product -> bool { (p: Product) => p.id == k }
  function OrderWithId(k: int): Order -> bool { (o: Order) => o.id == k }
  function OrderOfUser(k: int): Order -> bool { (o: Order) => o.user_id == k }
  function DetailOfOrder(k: int): OrderDetail -> bool { (d: OrderDetail) => d.order_id == k }
  function ItemWithPair(client: int, product: int): WishlistItem -> bool {
    (w: WishlistItem) => w.id_client == client && w.id_product == product
  }

  /** The JSON bodies the handlers send. */
  datatype Body =
    | Failure(message: string)                    // { success: false, message }
    | Notice(message: string)                     // { message }
    | Done(message: string)                       // { success: true, message }
    | Acknowledged                                // { success: true }
    | Token(token: string)                        // { success: true, token }
    | WithId(id: nat)                             // { id, success: true }
    | UserList(users: seq<PublicUser>)            // { results, success: true }
    | OneUser(user: PublicUser)                   // { results, success: true }
    | ProductList(products: seq<Product>)         // { results, success: true }
    | OneProduct(product: Product)                // { results, success: true }
    | SavedProduct(product: Product, message: string) // { success: true, results, message }
    | OrderList(orders: seq<Order>)               // { results, success: true }
    | SummaryList(summaries: seq<OrderSummary>)   // { results, success: true }
    | DetailList(details: seq<OrderDetail>)       // { results, success: true }
    | WishlistAdded(item: WishlistItem, message: string) // { success: true, wishlistItem, message }
    | InternalError                               // a 500 body carrying the caught error's text

  datatype Response = Response(status: nat, body: Body)
}
