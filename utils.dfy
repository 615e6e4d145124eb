/**
 * javascript/utils.js: the stored cart and wishlist, the navbar badge counts, and the
 * toy user registry (signup, login, logout, current user), over an abstract local store.
 */
module Utils {
  import opened Wrappers
  import opened JsBuiltins
  import opened Data

  // ---------------------------------------------------------------- stored records

  /** What a stored cart line or wishlist item copies from the product when it is created:
      the whole product record (`{...product}` or `push(product)`), or a few picked fields. */
  datatype Snapshot =
    | Whole(product: Product)
    | Picked(name: string, price: int, image: string, stock: Option<int>)

  datatype CartLine = CartLine(id: string, quantity: int, snapshot: Snapshot)

  datatype WishItem = WishItem(id: string, snapshot: Snapshot)

  function LineId(l: CartLine): string { l.id }

  function ItemId(w: WishItem): string { w.id }

  datatype User = User(email: string, username: string, password: string)

  /** A stored key: never written (or removed), holding a parsed value, or holding text that does not parse. */
  datatype Slot<T> = Absent | Holds(value: T) | Corrupt

  /** The user-facing messages (`showCustomAlert` / `alert`), as values. */
  datatype Notice =
    | ProductNotFound
    | OutOfStock
    | StockLimit(stock: int)
    | MaxStockReached
    | AddedToCart
    | MovedFromWishlist
    | AddedToWishlist
    | RemovedFromWishlist
    | QuantityUpdated
    | RemovedFromCart
    | EmailAlreadyRegistered
    | UsernameTaken
    | RegistrationSuccessful
    | Welcome(username: string)
    | InvalidCredentials
    | LoggedOut

  /** The outcome of a handler on one stored list: nothing written, or a new list written back. */
  datatype Change<T> = Unchanged(notices: seq<Notice>) | Saved(value: T, notices: seq<Notice>)
  {
    /** The list after the handler: the new one when it was saved, `prior` otherwise. */
    function After(prior: T): T
    {
      if Saved? then value else prior
    }
  }

  // ---------------------------------------------------------------- the local store

  /** `localStorage` restricted to the four keys the storefront uses. */
  class Store {
    var cartSlot: Option<seq<CartLine>>
    var wishlistSlot: Option<seq<WishItem>>
    var usersSlot: Slot<seq<User>>
    var sessionSlot: Slot<User>

    constructor ()
      ensures cartSlot == None && wishlistSlot == None && usersSlot == Absent && sessionSlot == Absent
    {
      cartSlot, wishlistSlot, usersSlot, sessionSlot := None, None, Absent, Absent;
    }

    /** `getCart()`: the stored cart, or an empty one when nothing is stored. */
    function GetCart(): (r: seq<CartLine>)
      reads this
      ensures cartSlot.None? ==> r == []
      ensures cartSlot.Some? ==> r == cartSlot.value
    {
      if cartSlot.Some? then cartSlot.value else []
    }

    /** `setCart(c)`. */
    method SetCart(c: seq<CartLine>)
      modifies this
      ensures cartSlot == Some(c) && GetCart() == c
      ensures wishlistSlot == old(wishlistSlot) && usersSlot == old(usersSlot) && sessionSlot == old(sessionSlot)
    {
      cartSlot := Some(c);
    }

    /** `getWishlist()`: the stored wishlist, or an empty one when nothing is stored. */
    function GetWishlist(): (r: seq<WishItem>)
      reads this
      ensures wishlistSlot.None? ==> r == []
      ensures wishlistSlot.Some? ==> r == wishlistSlot.value
    {
      if wishlistSlot.Some? then wishlistSlot.value else []
    }

    /** `setWishlist(w)`. */
    method SetWishlist(w: seq<WishItem>)
      modifies this
      ensures wishlistSlot == Some(w) && GetWishlist() == w
      ensures cartSlot == old(cartSlot) && usersSlot == old(usersSlot) && sessionSlot == old(sessionSlot)
    {
      wishlistSlot := Some(w);
    }

    /** `getAllUsers()`: the stored users; an empty list when nothing is stored or the text does not parse. */
    function GetAllUsers(): (r: seq<User>)
      reads this
      ensures usersSlot.Holds? ==> r == usersSlot.value
      ensures !usersSlot.Holds? ==> r == []
    {
      if usersSlot.Holds? then usersSlot.value else []
    }

    /** `saveAllUsers(users)`. */
    method SaveAllUsers(users: seq<User>)
      modifies this
      ensures usersSlot == Holds(users) && GetAllUsers() == users
      ensures cartSlot == old(cartSlot) && wishlistSlot == old(wishlistSlot) && sessionSlot == old(sessionSlot)
    {
      usersSlot := Holds(users);
    }
  }

  // ---------------------------------------------------------------- cart and wishlist lookups

  /** `cart.findIndex(item => item.id === id)`. */
  function LineIndex(cart: seq<CartLine>, id: string): int
  {
    FindIndexById(cart, LineId, id)
  }

  /** The quantity of the line `find` returns for `id`, or 0 when there is none. */
  function QuantityOf(cart: seq<CartLine>, id: string): int
  {
    var i := LineIndex(cart, id);
    if i >= 0 then cart[i].quantity else 0
  }

  /** `cart.filter(item => item.id !== id)`. */
  function RemoveLines(cart: seq<CartLine>, id: string): seq<CartLine>
  {
    WithoutId(cart, LineId, id)
  }

  /** `wishlist.some(item => item.id === id)`. */
  predicate InWishlist(wishlist: seq<WishItem>, id: string)
  {
    HasId(wishlist, ItemId, id)
  }

  /** `wishlist.filter(item => item.id !== id)`. */
  function RemoveItems(wishlist: seq<WishItem>, id: string): seq<WishItem>
  {
    WithoutId(wishlist, ItemId, id)
  }

  /** At most one cart line per product id. */
  ghost predicate OneLinePerId(cart: seq<CartLine>)
  {
    UniqueIds(cart, LineId)
  }

  /** No line asks for more than its product's stock (lines whose product left the catalog are not constrained). */
  ghost predicate WithinStock(cart: seq<CartLine>, catalog: seq<Product>)
  {
    forall i :: 0 <= i < |cart| && Find(catalog, cart[i].id).Some? ==>
      cart[i].quantity <= Find(catalog, cart[i].id).value.stock
  }

  /** Raising the first line of `id` to `q` leaves every other id's quantity alone and makes `id`'s `q`. */
  lemma QuantityOfAfterSet(cart: seq<CartLine>, i: nat, q: int, other: string)
    requires i < |cart| && LineIndex(cart, cart[i].id) == i
    ensures QuantityOf(cart[i := cart[i].(quantity := q)], other) ==
            if other == cart[i].id then q else QuantityOf(cart, other)
  {
    FindIndexAfterReplace(cart, LineId, i, cart[i].(quantity := q), other);
  }

  /** Appending a line for an id not yet in the cart gives it that line's quantity and leaves others alone. */
  lemma QuantityOfAfterAppend(cart: seq<CartLine>, line: CartLine, other: string)
    requires LineIndex(cart, line.id) == -1
    ensures QuantityOf(cart + [line], other) == if other == line.id then line.quantity else QuantityOf(cart, other)
  {
    var t := cart + [line];
    if other == line.id {
      assert forall k :: 0 <= k < |cart| ==> LineId(t[k]) != other;
      assert LineId(t[|cart|]) == other;
      assert LineIndex(t, other) == |cart|;
    } else {
      FindIndexAfterAppend(cart, LineId, line, other);
    }
  }

  // ---------------------------------------------------------------- badges

  /** `cart.reduce((total, item) => total + item.quantity, 0)`. */
  function SumQuantities(cart: seq<CartLine>): int
  {
    if |cart| == 0 then 0 else SumQuantities(cart[..|cart| - 1]) + cart[|cart| - 1].quantity
  }

  /** The navbar badges: the cart's total quantity and the wishlist's length. */
  function Badges(cart: seq<CartLine>, wishlist: seq<WishItem>): (int, nat)
  {
    (SumQuantities(cart), |wishlist|)
  }

  lemma {:induction false} SumQuantitiesConcat(a: seq<CartLine>, b: seq<CartLine>)
    ensures SumQuantities(a + b) == SumQuantities(a) + SumQuantities(b)
    decreases |b|
  {
    if |b| == 0 {
      assert a + b == a;
    } else {
      var ab := a + b;
      assert ab[..|ab| - 1] == a + b[..|b| - 1];
      SumQuantitiesConcat(a, b[..|b| - 1]);
    }
  }

  /** Only the changed line's quantity moves the badge. */
  lemma SumQuantitiesAfterSet(cart: seq<CartLine>, i: nat, q: int)
    requires i < |cart|
    ensures SumQuantities(cart[i := cart[i].(quantity := q)]) == SumQuantities(cart) - cart[i].quantity + q
  {
    var t := cart[i := cart[i].(quantity := q)];
    assert cart == cart[..i] + [cart[i]] + cart[i + 1..];
    assert t == cart[..i] + [t[i]] + cart[i + 1..];
    SumQuantitiesConcat(cart[..i] + [cart[i]], cart[i + 1..]);
    SumQuantitiesConcat(cart[..i], [cart[i]]);
    SumQuantitiesConcat(cart[..i] + [t[i]], cart[i + 1..]);
    SumQuantitiesConcat(cart[..i], [t[i]]);
    assert SumQuantities([t[i]]) == q by { assert [t[i]][..0] == []; }
    assert SumQuantities([cart[i]]) == cart[i].quantity by { assert [cart[i]][..0] == []; }
  }

  /** A store that was never written shows two zero badges. */
  lemma EmptyStoreBadges(store: Store)
    requires store.cartSlot == None && store.wishlistSlot == None
    ensures Badges(store.GetCart(), store.GetWishlist()) == (0, 0)
  {
  }

  // ---------------------------------------------------------------- users

  /** `users.find(user => user.email === identifier || user.username === identifier)`. */
  function FindUser(users: seq<User>, identifier: string): (r: Option<User>)
    ensures r.None? <==> forall i :: 0 <= i < |users| ==> users[i].email != identifier && users[i].username != identifier
    ensures r.Some? ==> exists i :: 0 <= i < |users| && users[i] == r.value
                          && (r.value.email == identifier || r.value.username == identifier)
                          && forall j :: 0 <= j < i ==> users[j].email != identifier && users[j].username != identifier
  {
    if |users| == 0 then None
    else if users[0].email == identifier || users[0].username == identifier then Some(users[0])
    else
      var r := FindUser(users[1..], identifier);
      assert r.Some? ==> exists i :: 1 <= i < |users| && users[i] == r.value
                          && forall j :: 0 <= j < i ==> users[j].email != identifier && users[j].username != identifier by {
        if r.Some? {
          var i :| 0 <= i < |users[1..]| && users[1..][i] == r.value
                   && forall j :: 0 <= j < i ==> users[1..][j].email != identifier && users[1..][j].username != identifier;
          assert users[i + 1] == r.value;
          forall j | 0 <= j < i + 1 ensures users[j].email != identifier && users[j].username != identifier {
            if j > 0 { assert users[j] == users[1..][j - 1]; }
          }
        }
      }
      r
  }

  /** No two registered users share an email, and no two share a username. */
  ghost predicate DistinctAccounts(users: seq<User>)
  {
    forall i, j :: 0 <= i < j < |users| ==> users[i].email != users[j].email && users[i].username != users[j].username
  }

  datatype SignupOutcome = EmailTaken | NameTaken | Registered(users: seq<User>)

  /** The decision `signupUser` takes on the stored users. */
  function Signup(users: seq<User>, email: string, username: string, password: string): SignupOutcome
  {
    if exists i :: 0 <= i < |users| && users[i].email == email then EmailTaken
    else if exists i :: 0 <= i < |users| && users[i].username == username then NameTaken
    else Registered(users + [User(email, username, password)])
  }

  /** Signup either refuses, or appends exactly the new account and keeps emails and usernames distinct. */
  lemma SignupKeepsAccountsDistinct(users: seq<User>, email: string, username: string, password: string)
    requires DistinctAccounts(users)
    ensures Signup(users, email, username, password).Registered? ==>
      var after := Signup(users, email, username, password).users;
      after == users + [User(email, username, password)] && DistinctAccounts(after)
  {
  }

  /** Signup refuses exactly when the email is registered or the username is taken; the email check comes first. */
  lemma SignupRefusals(users: seq<User>, email: string, username: string, password: string)
    ensures Signup(users, email, username, password) == EmailTaken <==>
      exists i :: 0 <= i < |users| && users[i].email == email
    ensures Signup(users, email, username, password) == NameTaken <==>
      (forall i :: 0 <= i < |users| ==> users[i].email != email) &&
      exists i :: 0 <= i < |users| && users[i].username == username
  {
  }

  /** `signupUser(email, username, password)`. */
  method SignupUser(store: Store, email: string, username: string, password: string) returns (ok: bool, notice: Notice)
    modifies store
    ensures var outcome := Signup(old(store.GetAllUsers()), email, username, password);
      ok == outcome.Registered? &&
      (ok ==> store.usersSlot == Holds(outcome.users) && notice == RegistrationSuccessful) &&
      (!ok ==> store.usersSlot == old(store.usersSlot) && notice == (if outcome == EmailTaken then EmailAlreadyRegistered else UsernameTaken))
    ensures store.cartSlot == old(store.cartSlot) && store.wishlistSlot == old(store.wishlistSlot)
    ensures store.sessionSlot == old(store.sessionSlot)
  {
    var users := store.GetAllUsers();
    if exists i :: 0 <= i < |users| && users[i].email == email {
      return false, EmailAlreadyRegistered;
    }
    if exists i :: 0 <= i < |users| && users[i].username == username {
      return false, UsernameTaken;
    }
    users := users + [User(email, username, password)];
    store.SaveAllUsers(users);
    ok, notice := true, RegistrationSuccessful;
  }

  /** The decision `loginUser` takes: the found user when the password matches. */
  function Login(users: seq<User>, identifier: string, password: string): Option<User>
  {
    var u := FindUser(users, identifier);
    if u.Some? && u.value.password == password then u else None
  }

  /** Login succeeds exactly when the first user matching the identifier has that password; a later account
      with the same identifier is never reached. */
  lemma LoginMeaning(users: seq<User>, identifier: string, password: string)
    ensures Login(users, identifier, password).Some? ==>
      var u := Login(users, identifier, password).value;
      u in users && (u.email == identifier || u.username == identifier) && u.password == password
    ensures (forall i :: 0 <= i < |users| ==> users[i].email != identifier && users[i].username != identifier) ==>
      Login(users, identifier, password).None?
    ensures forall i :: 0 <= i < |users| && Matches(users[i], identifier) &&
                        (forall j :: 0 <= j < i ==> !Matches(users[j], identifier)) ==>
      Login(users, identifier, password) == if users[i].password == password then Some(users[i]) else None
  {
    forall i | 0 <= i < |users| && Matches(users[i], identifier) &&
               (forall j :: 0 <= j < i ==> !Matches(users[j], identifier))
      ensures Login(users, identifier, password) == if users[i].password == password then Some(users[i]) else None
    {
      var r := FindUser(users, identifier);
      var i' :| 0 <= i' < |users| && users[i'] == r.value && (r.value.email == identifier || r.value.username == identifier)
                && forall j :: 0 <= j < i' ==> users[j].email != identifier && users[j].username != identifier;
      if i' < i {
        assert Matches(users[i'], identifier);
      }
    }
  }

  /** The identifier is the user's email or username, the test `findUser` makes. */
  predicate Matches(u: User, identifier: string)
  {
    u.email == identifier || u.username == identifier
  }

  /** Signup compares emails only with emails and usernames only with usernames, so one account's email may be
      another's username; logging in with it then reaches whichever account comes first. */
  lemma EmailShadowedByEarlierUsername()
    ensures var first := User("a@x.in", "b@x.in", "p1");
      var users := [first];
      Signup(users, "b@x.in", "bee", "p2") == Registered(users + [User("b@x.in", "bee", "p2")]) &&
      Login(users + [User("b@x.in", "bee", "p2")], "b@x.in", "p2") == None
  {
    var first := User("a@x.in", "b@x.in", "p1");
    var users := [first] + [User("b@x.in", "bee", "p2")];
    assert users[0].username == "b@x.in";
    assert FindUser(users, "b@x.in") == Some(first);
  }

  /** `loginUser(identifier, password)`: stores the current user on success. */
  method LoginUser(store: Store, identifier: string, password: string) returns (user: Option<User>, notice: Notice)
    modifies store
    ensures user == Login(old(store.GetAllUsers()), identifier, password)
    ensures user.Some? ==> store.sessionSlot == Holds(user.value) && notice == Welcome(user.value.username)
    ensures user.None? ==> store.sessionSlot == old(store.sessionSlot) && notice == InvalidCredentials
    ensures store.cartSlot == old(store.cartSlot) && store.wishlistSlot == old(store.wishlistSlot)
    ensures store.usersSlot == old(store.usersSlot)
  {
    var found := FindUser(store.GetAllUsers(), identifier);
    if found.Some? && found.value.password == password {
      store.sessionSlot := Holds(found.value);
      return found, Welcome(found.value.username);
    }
    return None, InvalidCredentials;
  }

  /** `logoutUser()`. */
  method LogoutUser(store: Store) returns (notice: Notice)
    modifies store
    ensures store.sessionSlot == Absent && notice == LoggedOut
    ensures store.cartSlot == old(store.cartSlot) && store.wishlistSlot == old(store.wishlistSlot)
    ensures store.usersSlot == old(store.usersSlot)
  {
    store.sessionSlot := Absent;
    notice := LoggedOut;
  }

  /** `getCurrentUser()`: the stored user, or null; unparsable data is removed. */
  method GetCurrentUser(store: Store) returns (user: Option<User>)
    modifies store
    ensures old(store.sessionSlot).Holds? ==> user == Some(old(store.sessionSlot).value) && store.sessionSlot == old(store.sessionSlot)
    ensures old(store.sessionSlot).Absent? ==> user == None && store.sessionSlot == Absent
    ensures old(store.sessionSlot).Corrupt? ==> user == None && store.sessionSlot == Absent
    ensures store.cartSlot == old(store.cartSlot) && store.wishlistSlot == old(store.wishlistSlot)
    ensures store.usersSlot == old(store.usersSlot)
  {
    match store.sessionSlot {
      case Holds(u) => user := Some(u);
      case Absent => user := None;
      case Corrupt =>
        store.sessionSlot := Absent;
        user := None;
    }
  }
}
