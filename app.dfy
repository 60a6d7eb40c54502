/**
 * The request handlers over an in-memory store.  A Session holds what the
 * Flask session holds (the logged-in user and the cart); the Store holds
 * the tables (menu items, users, orders, system configuration) with their
 * id counters.  Every handler runs its role gate first, and a refused
 * request changes nothing.
 */
module App {
  import opened Common
  import opened Text
  import opened Seqs
  import opened Menu
  import opened Cart
  import opened Config
  import opened Accounts
  import opened Orders

  /** What the cart page shows. */
  datatype CartView = CartView(lines: seq<CartLine>, total: int, fee: int, deliveryActive: bool, addresses: seq<string>)

  /** What the menu page shows. */
  datatype MenuView = MenuView(items: seq<MenuItem>, byCategory: map<string, seq<MenuItem>>, categories: seq<string>, cartCounts: map<int, nat>)

  /** The ids of the available menu items. */
  function AvailableIds(menu: map<int, MenuItem>): set<int> {
    set id | id in menu && menu[id].available
  }

  /**
   * The available items, in the table's row order (the menu query): the
   * item of each available id that the row order keeps, one for one.
   */
  function AvailableItems(ids: seq<int>, menu: map<int, MenuItem>): (items: seq<MenuItem>)
    ensures var kept := Keep(ids, AvailableIds(menu), true);
      && |items| == |kept|
      && forall i :: 0 <= i < |items| ==> kept[i] in menu && items[i] == menu[kept[i]] && items[i].available
  {
    if ids == [] then []
    else
      var rest, id := AvailableItems(ids[..|ids| - 1], menu), ids[|ids| - 1];
      if id in menu && menu[id].available then rest + [menu[id]] else rest
  }

  class Session {
    var user: Option<SessionUser>
    var cart: seq<int>

    /** A fresh session for the given user, with no cart yet. */
    constructor(user: Option<SessionUser>)
      ensures this.user == user && cart == []
    {
      this.user := user;
      cart := [];
    }
  }

  class Store {
    var menu: map<int, MenuItem>
    var itemOrder: seq<int>
    var nextItemId: int
    var users: map<int, User>
    var nextUserId: int
    var orders: map<int, Order>
    var nextOrderId: int
    var config: map<string, string>

    /**
     * Every id lies below its table's counter; itemOrder lists the menu's ids
     * once each; no two users share an e-mail address.
     */
    ghost predicate Valid()
      reads this
    {
      && (forall id :: id in menu ==> id < nextItemId)
      && (forall id :: id in users ==> id < nextUserId)
      && (forall id :: id in orders ==> id < nextOrderId)
      && NoDuplicates(itemOrder)
      && (forall id :: id in itemOrder <==> id in menu)
      && UniqueEmails(users)
    }

    /** Empty tables; ids start at 1. */
    constructor()
      ensures Valid()
      ensures menu == map[] && itemOrder == [] && users == map[] && orders == map[] && config == map[]
      ensures nextItemId == nextUserId == nextOrderId == 1
    {
      menu, itemOrder, nextItemId := map[], [], 1;
      users, nextUserId := map[], 1;
      orders, nextOrderId := map[], 1;
      config := map[];
    }

    /** SystemConfig.set_value: upsert of one row. */
    method SetConfigValue(key: string, value: string)
      modifies this
      ensures config == SetValue(old(config), key, value)
      ensures menu == old(menu) && itemOrder == old(itemOrder) && nextItemId == old(nextItemId)
      ensures users == old(users) && nextUserId == old(nextUserId)
      ensures orders == old(orders) && nextOrderId == old(nextOrderId)
    {
      if key in config {
        config := config[key := value];
      } else {
        config := config + map[key := value];
      }
    }

    /**
     * add_to_cart and increase_cart_quantity: an id on the menu is appended
     * to the cart once; an unknown id changes nothing.
     */
    method AddToCart(session: Session, id: int) returns (r: Option<Error>)
      modifies session
      ensures session.user == old(session.user)
      ensures Gate(session.user, AnyUser).Some? ==> r == Gate(session.user, AnyUser) && session.cart == old(session.cart)
      ensures Gate(session.user, AnyUser).None? && id !in menu ==> r == Some(ItemNotFound) && session.cart == old(session.cart)
      ensures Gate(session.user, AnyUser).None? && id in menu ==> r.None? && session.cart == old(session.cart) + [id]
    {
      r := Gate(session.user, AnyUser);
      if r.Some? {
        return;
      }
      if id !in menu {
        return Some(ItemNotFound);
      }
      session.cart := session.cart + [id];
    }

    /**
     * decrease_cart_quantity: an empty cart is reported; otherwise the first
     * occurrence of the id is removed, or, when there is none, the cart is
     * left as it is and the miss reported.
     */
    method DecreaseQuantity(session: Session, id: int) returns (r: Option<Error>)
      modifies session
      ensures session.user == old(session.user)
      ensures Gate(session.user, AnyUser).Some? ==> r == Gate(session.user, AnyUser) && session.cart == old(session.cart)
      ensures Gate(session.user, AnyUser).None? && old(session.cart) == [] ==> r == Some(CartEmpty) && session.cart == []
      ensures Gate(session.user, AnyUser).None? && old(session.cart) != [] && id !in old(session.cart) ==>
        r == Some(NotInCart) && session.cart == old(session.cart)
      ensures Gate(session.user, AnyUser).None? && id in old(session.cart) ==>
        r.None? && session.cart == RemoveFirst(old(session.cart), id)
    {
      r := Gate(session.user, AnyUser);
      if r.Some? {
        return;
      }
      var cart := session.cart;
      if cart == [] {
        return Some(CartEmpty);
      }
      if id !in cart {
        return Some(NotInCart);
      }
      session.cart := RemoveFirst(cart, id);
    }

    /**
     * The cart page: the cart grouped and resolved against the menu, with
     * its total, the delivery settings and the user's saved addresses (none
     * when the user is gone).
     */
    method ViewCart(session: Session) returns (r: Result<CartView>)
      ensures Gate(session.user, AnyUser).Some? ==> r == Err(Gate(session.user, AnyUser).value)
      ensures Gate(session.user, AnyUser).None? ==> r.Ok?
      ensures r.Ok? ==>
        && r.value.lines == Resolve(Grouped(session.cart), menu)
        && r.value.total == FlatSum(session.cart, PriceIn(menu))
        && r.value.fee == DeliveryFee(config) && r.value.deliveryActive == IsDeliveryActive(config)
        && var id := session.user.value.id;
           r.value.addresses == (if id in users then users[id].addresses else [])
    {
      var g := Gate(session.user, AnyUser);
      if g.Some? {
        return Err(g.value);
      }
      var lines, total := ResolveCart(session.cart, menu);
      var id := session.user.value.id;
      var addresses := if id in users then users[id].addresses else [];
      r := Ok(CartView(lines, total, DeliveryFee(config), IsDeliveryActive(config), addresses));
    }

    /**
     * The menu page: the available items grouped by category, the
     * categories in display order, and the cart's count per item id.
     */
    method ShowMenu(session: Session) returns (r: Result<MenuView>)
      ensures Gate(session.user, AnyUser).Some? ==> r == Err(Gate(session.user, AnyUser).value)
      ensures Gate(session.user, AnyUser).None? ==> r.Ok?
      ensures r.Ok? ==> var items := AvailableItems(itemOrder, menu);
        && r.value.items == items
        && r.value.categories == CategoryOrder(items)
        && (forall c :: c in r.value.byCategory <==> c in CategoriesOf(items))
        && (forall c :: c in r.value.byCategory ==> r.value.byCategory[c] == InCategory(items, c))
        && (forall id :: id in r.value.cartCounts <==> id in session.cart)
        && (forall id :: id in r.value.cartCounts ==> r.value.cartCounts[id] == Count(session.cart, id))
    {
      var g := Gate(session.user, AnyUser);
      if g.Some? {
        return Err(g.value);
      }
      var items := AvailableItems(itemOrder, menu);
      var byCategory, categories := MenuPage(items);
      var counts: map<int, nat> := map[];
      if session.cart != [] {
        var _, c := CountItems(session.cart);
        counts := c;
      }
      r := Ok(MenuView(items, byCategory, categories, counts));
    }

    /**
     * place_order: the decision is PlaceOrderSpec.  A refusal changes
     * nothing; an accepted order is stored under a new id, with nothing else
     * in the store changed, and the cart is emptied.
     */
    method PlaceOrder(session: Session, form: OrderForm, now: int, pickupNumber: nat, format: string -> Option<string>)
      returns (r: Result<int>)
      requires Valid()
      requires 100 <= pickupNumber <= 999
      modifies this, session
      ensures Valid()
      ensures session.user == old(session.user)
      ensures menu == old(menu) && itemOrder == old(itemOrder) && nextItemId == old(nextItemId)
      ensures users == old(users) && nextUserId == old(nextUserId) && config == old(config)
      ensures Gate(session.user, AnyUser).Some? ==>
        r == Err(Gate(session.user, AnyUser).value) && unchanged(this) && session.cart == old(session.cart)
      ensures Gate(session.user, AnyUser).None? ==>
        var spec := PlaceOrderSpec(old(session.cart), menu, config, session.user.value.id, form, now, pickupNumber, format);
        && (spec.Err? ==> r == Err(spec.error) && unchanged(this) && session.cart == old(session.cart))
        && (spec.Ok? ==>
              && r == Ok(old(nextOrderId)) && old(nextOrderId) !in old(orders)
              && orders == old(orders)[old(nextOrderId) := spec.value]
              && nextOrderId == old(nextOrderId) + 1
              && session.cart == [])
    {
      var g := Gate(session.user, AnyUser);
      if g.Some? {
        return Err(g.value);
      }
      var cart := session.cart;
      if cart == [] {
        return Err(CartEmpty);
      }
      var decision := DecideOrder(cart, session.user.value.id, form, now, pickupNumber, format);
      if decision.Err? {
        return Err(decision.error);
      }
      var id := InsertOrder(decision.value);
      session.cart := [];
      r := Ok(id);
    }

    /** Stores an order under the next id. */
    method InsertOrder(order: Order) returns (id: int)
      requires Valid()
      modifies this
      ensures Valid()
      ensures id == old(nextOrderId) && id !in old(orders) && nextOrderId == id + 1
      ensures orders == old(orders)[id := order]
      ensures menu == old(menu) && itemOrder == old(itemOrder) && nextItemId == old(nextItemId)
      ensures users == old(users) && nextUserId == old(nextUserId) && config == old(config)
    {
      id := nextOrderId;
      orders := orders[id := order];
      nextOrderId := nextOrderId + 1;
    }

    /** The checkout of a non-empty cart, resolved against the menu by the counting loop. */
    method DecideOrder(cart: seq<int>, userId: int, form: OrderForm, now: int, pickupNumber: nat,
                       format: string -> Option<string>) returns (decision: Result<Order>)
      requires cart != [] && 100 <= pickupNumber <= 999
      ensures decision == PlaceOrderSpec(cart, menu, config, userId, form, now, pickupNumber, format)
    {
      var lines, subtotal := ResolveCart(cart, menu);
      decision := Checkout(lines, config, userId, form, now, pickupNumber, format);
    }

    /** Assigns a status from the whitelist to an existing order. */
    method SetOrderStatus(id: int, target: string, allowed: seq<string>) returns (r: Option<Error>)
      modifies this
      ensures SetStatus(old(orders), id, target, allowed).Err? ==>
        r == Some(SetStatus(old(orders), id, target, allowed).error) && unchanged(this)
      ensures SetStatus(old(orders), id, target, allowed).Ok? ==>
        r.None? && orders == SetStatus(old(orders), id, target, allowed).value
      ensures menu == old(menu) && itemOrder == old(itemOrder) && nextItemId == old(nextItemId)
      ensures users == old(users) && nextUserId == old(nextUserId)
      ensures nextOrderId == old(nextOrderId) && config == old(config)
    {
      if id !in orders {
        return Some(OrderNotFound);
      }
      if target !in allowed {
        return Some(InvalidStatus);
      }
      orders := orders[id := orders[id].(status := target)];
      r := None;
    }

    /** update_order_status: the admin's whitelist New, Preparing, Ready, Delivered. */
    method UpdateOrderStatus(session: Session, id: int, target: string) returns (r: Option<Error>)
      requires Valid()
      modifies this
      ensures Valid()
      ensures Gate(session.user, AdminOnly).Some? ==> r == Gate(session.user, AdminOnly) && unchanged(this)
      ensures Gate(session.user, AdminOnly).None? ==>
        var s := SetStatus(old(orders), id, target, AdminStatuses);
        && (s.Err? ==> r == Some(s.error) && unchanged(this))
        && (s.Ok? ==> r.None? && orders == s.value)
      ensures menu == old(menu) && itemOrder == old(itemOrder) && nextItemId == old(nextItemId)
      ensures users == old(users) && nextUserId == old(nextUserId)
      ensures nextOrderId == old(nextOrderId) && config == old(config)
    {
      r := Gate(session.user, AdminOnly);
      if r.Some? {
        return;
      }
      r := SetOrderStatus(id, target, AdminStatuses);
    }

    /** driver_update_status: the driver's whitelist Out for Delivery, Delivered. */
    method DriverUpdateStatus(session: Session, id: int, target: string) returns (r: Option<Error>)
      requires Valid()
      modifies this
      ensures Valid()
      ensures Gate(session.user, DriverOnly).Some? ==> r == Gate(session.user, DriverOnly) && unchanged(this)
      ensures Gate(session.user, DriverOnly).None? ==>
        var s := SetStatus(old(orders), id, target, DriverStatuses);
        && (s.Err? ==> r == Some(s.error) && unchanged(this))
        && (s.Ok? ==> r.None? && orders == s.value)
      ensures menu == old(menu) && itemOrder == old(itemOrder) && nextItemId == old(nextItemId)
      ensures users == old(users) && nextUserId == old(nextUserId)
      ensures nextOrderId == old(nextOrderId) && config == old(config)
    {
      r := Gate(session.user, DriverOnly);
      if r.Some? {
        return;
      }
      r := SetOrderStatus(id, target, DriverStatuses);
    }

    /**
     * update_settings and update_delivery_price: a valid fee is stored as
     * str(float), after which the fee reads back as that value.
     */
    method UpdateDeliveryFee(session: Session, raw: string) returns (r: Option<Error>)
      requires Valid()
      modifies this
      ensures Valid()
      ensures Gate(session.user, AdminOnly).Some? ==> r == Gate(session.user, AdminOnly) && unchanged(this)
      ensures Gate(session.user, AdminOnly).None? && ValidateFee(raw).Err? ==> r == Some(InvalidFee) && unchanged(this)
      ensures Gate(session.user, AdminOnly).None? && ValidateFee(raw).Ok? ==>
        && r.None?
        && config == SetValue(old(config), FeeKey, FormatCents(ValidateFee(raw).value))
        && DeliveryFee(config) == ValidateFee(raw).value
      ensures menu == old(menu) && itemOrder == old(itemOrder) && nextItemId == old(nextItemId)
      ensures users == old(users) && nextUserId == old(nextUserId)
      ensures orders == old(orders) && nextOrderId == old(nextOrderId)
    {
      r := Gate(session.user, AdminOnly);
      if r.Some? {
        return;
      }
      var v := ValidateFee(raw);
      if v.Err? {
        return Some(v.error);
      }
      FeeUpdateReadsBack(config, raw);
      SetConfigValue(FeeKey, FormatCents(v.value));
    }

    /** toggle_delivery: stores str(not active), which flips the switch. */
    method ToggleDelivery(session: Session) returns (r: Option<Error>)
      requires Valid()
      modifies this
      ensures Valid()
      ensures Gate(session.user, AdminOnly).Some? ==> r == Gate(session.user, AdminOnly) && unchanged(this)
      ensures Gate(session.user, AdminOnly).None? ==>
        && r.None?
        && config == SetValue(old(config), ActiveKey, BoolText(!IsDeliveryActive(old(config))))
        && IsDeliveryActive(config) == !IsDeliveryActive(old(config))
      ensures menu == old(menu) && itemOrder == old(itemOrder) && nextItemId == old(nextItemId)
      ensures users == old(users) && nextUserId == old(nextUserId)
      ensures orders == old(orders) && nextOrderId == old(nextOrderId)
    {
      r := Gate(session.user, AdminOnly);
      if r.Some? {
        return;
      }
      var active := IsDeliveryActive(config);
      ToggleFlips(config);
      SetConfigValue(ActiveKey, BoolText(!active));
    }

    /** add_menu_item: a valid form is stored as a new, available item. */
    method AddMenuItem(session: Session, form: ItemForm) returns (r: Result<int>)
      requires Valid()
      modifies this
      ensures Valid()
      ensures Gate(session.user, AdminOnly).Some? ==> r == Err(Gate(session.user, AdminOnly).value) && unchanged(this)
      ensures Gate(session.user, AdminOnly).None? && ValidateItemForm(form, true).Err? ==>
        r == Err(ValidateItemForm(form, true).error) && unchanged(this)
      ensures Gate(session.user, AdminOnly).None? && ValidateItemForm(form, true).Ok? ==>
        && r == Ok(old(nextItemId)) && old(nextItemId) !in old(menu)
        && menu == old(menu)[old(nextItemId) := ValidateItemForm(form, true).value]
        && itemOrder == old(itemOrder) + [old(nextItemId)]
        && nextItemId == old(nextItemId) + 1
      ensures users == old(users) && nextUserId == old(nextUserId)
      ensures orders == old(orders) && nextOrderId == old(nextOrderId) && config == old(config)
    {
      var g := Gate(session.user, AdminOnly);
      if g.Some? {
        return Err(g.value);
      }
      var v := ValidateItemForm(form, true);
      if v.Err? {
        return Err(v.error);
      }
      var id := InsertItem(v.value);
      r := Ok(id);
    }

    /** Stores an item under the next id, as the last row of the table. */
    method InsertItem(item: MenuItem) returns (id: int)
      requires Valid()
      modifies this
      ensures Valid()
      ensures id == old(nextItemId) && id !in old(menu) && nextItemId == id + 1
      ensures menu == old(menu)[id := item] && itemOrder == old(itemOrder) + [id]
      ensures users == old(users) && nextUserId == old(nextUserId)
      ensures orders == old(orders) && nextOrderId == old(nextOrderId) && config == old(config)
    {
      id := nextItemId;
      assert id !in itemOrder;
      menu := menu[id := item];
      itemOrder := itemOrder + [id];
      nextItemId := nextItemId + 1;
    }

    /**
     * edit_menu_item: a missing item is reported first; a valid form then
     * replaces the item, available exactly when the checkbox reads "on".
     */
    method EditMenuItem(session: Session, id: int, form: ItemForm, availableBox: Option<string>) returns (r: Option<Error>)
      requires Valid()
      modifies this
      ensures Valid()
      ensures Gate(session.user, AdminOnly).Some? ==> r == Gate(session.user, AdminOnly) && unchanged(this)
      ensures Gate(session.user, AdminOnly).None? && id !in old(menu) ==> r == Some(ItemNotFound) && unchanged(this)
      ensures Gate(session.user, AdminOnly).None? && id in old(menu) ==>
        var v := ValidateItemForm(form, availableBox == Some("on"));
        && (v.Err? ==> r == Some(v.error) && unchanged(this))
        && (v.Ok? ==> r.None? && menu == old(menu)[id := v.value] && itemOrder == old(itemOrder) && nextItemId == old(nextItemId))
      ensures users == old(users) && nextUserId == old(nextUserId)
      ensures orders == old(orders) && nextOrderId == old(nextOrderId) && config == old(config)
    {
      r := Gate(session.user, AdminOnly);
      if r.Some? {
        return;
      }
      if id !in menu {
        return Some(ItemNotFound);
      }
      var v := ValidateItemForm(form, availableBox == Some("on"));
      if v.Err? {
        return Some(v.error);
      }
      ReplaceItem(id, v.value);
    }

    /** Overwrites an existing item in place; its row keeps its position. */
    method ReplaceItem(id: int, item: MenuItem)
      requires Valid() && id in menu
      modifies this
      ensures Valid()
      ensures menu == old(menu)[id := item] && itemOrder == old(itemOrder) && nextItemId == old(nextItemId)
      ensures users == old(users) && nextUserId == old(nextUserId)
      ensures orders == old(orders) && nextOrderId == old(nextOrderId) && config == old(config)
    {
      menu := menu[id := item];
    }

    /** register: a new customer under a new id, unless a check fails. */
    method Register(name: string, email: string, password: string, phone: string) returns (r: Result<int>)
      requires Valid()
      modifies this
      ensures Valid()
      ensures var v := Registration(name, email, password, phone, Emails(old(users)));
        && (v.Err? ==> r == Err(v.error) && unchanged(this))
        && (v.Ok? ==>
              && r == Ok(old(nextUserId)) && old(nextUserId) !in old(users)
              && users == old(users)[old(nextUserId) := v.value]
              && nextUserId == old(nextUserId) + 1)
      ensures menu == old(menu) && itemOrder == old(itemOrder) && nextItemId == old(nextItemId)
      ensures orders == old(orders) && nextOrderId == old(nextOrderId) && config == old(config)
    {
      match Registration(name, email, password, phone, Emails(users))
      case Err(e) =>
        return Err(e);
      case Ok(user) =>
        var id := InsertUser(user);
        r := Ok(id);
    }

    /** Stores a user under the next id. */
    method InsertUser(user: User) returns (id: int)
      requires Valid() && user.email !in Emails(users)
      modifies this
      ensures Valid()
      ensures id == old(nextUserId) && id !in old(users) && nextUserId == id + 1
      ensures users == old(users)[id := user]
      ensures menu == old(menu) && itemOrder == old(itemOrder) && nextItemId == old(nextItemId)
      ensures orders == old(orders) && nextOrderId == old(nextOrderId) && config == old(config)
    {
      id := nextUserId;
      users := users[id := user];
      nextUserId := nextUserId + 1;
    }

    /**
     * reset_password, with its check as written: only a blank password is
     * refused; otherwise a user with that e-mail gets the stripped text.
     */
    method ResetPassword(email: string, raw: string) returns (r: Option<Error>)
      requires Valid()
      modifies this
      ensures Valid()
      ensures PasswordRejectedAsWritten(raw) ==> r == Some(WeakPassword) && unchanged(this)
      ensures !PasswordRejectedAsWritten(raw) && email !in Emails(old(users)) ==> r == Some(UserNotFound) && unchanged(this)
      ensures !PasswordRejectedAsWritten(raw) && email in Emails(old(users)) ==>
        && r.None?
        && exists id :: id in old(users) && old(users)[id].email == email &&
             users == old(users)[id := old(users)[id].(password := Strip(raw))]
      ensures !PasswordRejectedAsWritten(raw) ==>
        forall id :: id in old(users) && old(users)[id].email == email ==>
          users == old(users)[id := old(users)[id].(password := Strip(raw))]
      ensures menu == old(menu) && itemOrder == old(itemOrder) && nextItemId == old(nextItemId)
      ensures nextUserId == old(nextUserId)
      ensures orders == old(orders) && nextOrderId == old(nextOrderId) && config == old(config)
    {
      if PasswordRejectedAsWritten(raw) {
        return Some(WeakPassword);
      }
      if email !in Emails(users) {
        return Some(UserNotFound);
      }
      var id :| id in users && users[id].email == email;
      SoleOwner(users, id);
      UniqueEmailsUpdate(users, id, users[id].(password := Strip(raw)));
      users := users[id := users[id].(password := Strip(raw))];
      r := None;
    }

    /**
     * add_address: a blank address is refused before the user is looked up;
     * otherwise the stripped address is appended to the user's book.
     */
    method AddAddress(session: Session, raw: string) returns (r: Option<Error>)
      requires Valid()
      modifies this
      ensures Valid()
      ensures Gate(session.user, AnyUser).Some? ==> r == Gate(session.user, AnyUser) && unchanged(this)
      ensures Gate(session.user, AnyUser).None? ==>
        var id := session.user.value.id;
        && (IsBlank(raw) ==> r == Some(EmptyAddress) && unchanged(this))
        && (!IsBlank(raw) && id !in old(users) ==> r == Some(UserNotFound) && unchanged(this))
        && (!IsBlank(raw) && id in old(users) ==>
              && r.None?
              && users == old(users)[id := old(users)[id].(addresses := Accounts.AddAddress(old(users)[id].addresses, raw).value)])
      ensures menu == old(menu) && itemOrder == old(itemOrder) && nextItemId == old(nextItemId)
      ensures nextUserId == old(nextUserId)
      ensures orders == old(orders) && nextOrderId == old(nextOrderId) && config == old(config)
    {
      r := Gate(session.user, AnyUser);
      if r.Some? {
        return;
      }
      var id := session.user.value.id;
      if IsBlank(raw) {
        return Some(EmptyAddress);
      }
      if id !in users {
        return Some(UserNotFound);
      }
      var book := Accounts.AddAddress(users[id].addresses, raw).value;
      UniqueEmailsUpdate(users, id, users[id].(addresses := book));
      users := users[id := users[id].(addresses := book)];
    }

    /**
     * delete_address: the user is looked up first; then the entry at index
     * goes if the index is in range.
     */
    method DeleteAddress(session: Session, index: int) returns (r: Option<Error>)
      requires Valid()
      modifies this
      ensures Valid()
      ensures Gate(session.user, AnyUser).Some? ==> r == Gate(session.user, AnyUser) && unchanged(this)
      ensures Gate(session.user, AnyUser).None? ==>
        var id := session.user.value.id;
        && (id !in old(users) ==> r == Some(UserNotFound) && unchanged(this))
        && (id in old(users) && Accounts.DeleteAddress(old(users)[id].addresses, index).Err? ==>
              r == Some(AddressNotFound) && unchanged(this))
        && (id in old(users) && Accounts.DeleteAddress(old(users)[id].addresses, index).Ok? ==>
              && r.None?
              && users == old(users)[id := old(users)[id].(addresses := Accounts.DeleteAddress(old(users)[id].addresses, index).value)])
      ensures menu == old(menu) && itemOrder == old(itemOrder) && nextItemId == old(nextItemId)
      ensures nextUserId == old(nextUserId)
      ensures orders == old(orders) && nextOrderId == old(nextOrderId) && config == old(config)
    {
      r := Gate(session.user, AnyUser);
      if r.Some? {
        return;
      }
      var id := session.user.value.id;
      if id !in users {
        return Some(UserNotFound);
      }
      match Accounts.DeleteAddress(users[id].addresses, index)
      case Err(e) =>
        return Some(e);
      case Ok(book) =>
        UniqueEmailsUpdate(users, id, users[id].(addresses := book));
        users := users[id := users[id].(addresses := book)];
    }
  }
}
