/**
 * Orders: the decision place_order makes from the cart, the form, the
 * configuration, the clock and the random pickup number, and the status
 * whitelists of the admin and driver dashboards.
 */
module Orders {
  import opened Common
  import opened Text
  import opened Seqs
  import opened Menu
  import opened Cart
  import opened Config

  const DeliveryType := "Delivery"
  const TakeawayType := "Takeaway"
  const DineInType := "Dine-in"

  const NewStatus := "New"

  /** Takeaway preparation time: a base plus a fixed amount per item, in minutes. */
  const BaseMinutes := 20
  const MinutesPerItem := 2

  const MinGuests := 1
  const MaxGuests := 20

  /** The admin dashboard's and the driver dashboard's status targets. */
  const AdminStatuses: seq<string> := ["New", "Preparing", "Ready", "Delivered"]
  const DriverStatuses: seq<string> := ["Out for Delivery", "Delivered"]

  /**
   * estimated_pickup_time: a Takeaway order's ready time on the clock (in
   * minutes), or a Dine-in order's formatted reservation.
   */
  datatype Eta = ReadyAt(minute: int) | AtReservation(text: string)

  /** A stored order; money in cents. */
  datatype Order = Order(
    userId: int,
    total: int,
    subtotal: int,
    deliveryFee: int,
    status: string,
    orderType: string,
    address: Option<string>,
    pickupCode: Option<string>,
    eta: Option<Eta>,
    reservation: Option<string>,
    guests: Option<int>,
    items: seq<OrderItem>)

  /** The checkout form; orderType is None when the field is missing, the others read "" then. */
  datatype OrderForm = OrderForm(orderType: Option<string>, address: string, reservation: string, guests: string)

  /** What an accepted Dine-in form yields. */
  datatype Booking = Booking(reservation: string, guests: int, formatted: string)

  /** The order type; a missing field means Delivery.  Any other text is kept as it is. */
  function TypeOf(form: OrderForm): (t: string)
    ensures form.orderType.None? ==> t == DeliveryType
    ensures form.orderType.Some? ==> t == form.orderType.value
  {
    form.orderType.GetOr(DeliveryType)
  }

  /** Minutes until a Takeaway order with the given number of items is ready. */
  function ReadyMinutes(items: int): (minutes: int)
    ensures items >= 0 ==> minutes >= BaseMinutes
    ensures (minutes - BaseMinutes) % MinutesPerItem == 0 && (minutes - BaseMinutes) / MinutesPerItem == items
  {
    BaseMinutes + MinutesPerItem * items
  }

  /** The pickup code "#" followed by the random number. */
  function PickupCode(n: nat): (code: string)
    requires 100 <= n <= 999
    ensures |code| == 4 && code[0] == '#' && AllDigits(code[1..])
    ensures ParseInt(code[1..]) == Some(n)
  {
    NatToStringThreeDigits(n);
    ParseIntOfNatToString(n);
    var code := "#" + NatToString(n);
    assert code[1..] == NatToString(n);
    code
  }

  /**
   * The Dine-in checks, in order: a reservation and a guest count are
   * required after stripping; the count must be an integer from 1 to 20; the
   * reservation must parse (format stands for the strptime/strftime pair,
   * None when the text does not parse).
   */
  function CheckBooking(form: OrderForm, format: string -> Option<string>): (r: Result<Booking>)
    ensures IsBlank(form.reservation) ==> r == Err(MissingReservation)
    ensures !IsBlank(form.reservation) && IsBlank(form.guests) ==> r == Err(MissingGuests)
    ensures !IsBlank(form.reservation) && !IsBlank(form.guests) && ParseInt(Strip(form.guests)).None? ==>
      r == Err(InvalidGuests)
    ensures
      (!IsBlank(form.reservation) && ParseInt(Strip(form.guests)).Some? &&
       !(MinGuests <= ParseInt(Strip(form.guests)).value <= MaxGuests)) ==> r == Err(GuestsOutOfRange)
    ensures
      (&& !IsBlank(form.reservation)
       && ParseInt(Strip(form.guests)).Some?
       && MinGuests <= ParseInt(Strip(form.guests)).value <= MaxGuests
       && format(Strip(form.reservation)).None?) ==> r == Err(InvalidReservation)
    ensures r.Ok? <==>
      && !IsBlank(form.reservation)
      && ParseInt(Strip(form.guests)).Some?
      && MinGuests <= ParseInt(Strip(form.guests)).value <= MaxGuests
      && format(Strip(form.reservation)).Some?
    ensures r.Ok? ==>
      && r.value.reservation == Strip(form.reservation)
      && Some(r.value.guests) == ParseInt(Strip(form.guests))
      && Some(r.value.formatted) == format(Strip(form.reservation))
    ensures r.Err? ==> r.error in {MissingReservation, MissingGuests, InvalidGuests, GuestsOutOfRange, InvalidReservation}
  {
    var reservation, guestsText := Strip(form.reservation), Strip(form.guests);
    if reservation == [] then Err(MissingReservation)
    else if guestsText == [] then Err(MissingGuests)
    else match ParseInt(guestsText)
      case None => Err(InvalidGuests)
      case Some(g) =>
        if g < MinGuests || g > MaxGuests then Err(GuestsOutOfRange)
        else match format(reservation)
          case None => Err(InvalidReservation)
          case Some(text) => Ok(Booking(reservation, g, text))
  }

  /**
   * Everything place_order decides after the cart is grouped and resolved:
   * the address and delivery-switch checks of a Delivery order, the fee,
   * the Takeaway pickup code and ready time, the Dine-in checks, and the
   * order to store.
   */
  function Checkout(lines: seq<CartLine>, cfg: map<string, string>, userId: int, form: OrderForm,
                    now: int, pickupNumber: nat, format: string -> Option<string>): (r: Result<Order>)
    requires 100 <= pickupNumber <= 999
    ensures r.Err? ==> r.error in {MissingAddress, DeliveryUnavailable, MissingReservation, MissingGuests,
                                   InvalidGuests, GuestsOutOfRange, InvalidReservation}
    ensures r.Ok? ==> r.value.status == NewStatus && r.value.subtotal == LinesTotal(lines)
    ensures r.Ok? ==> r.value.total == r.value.subtotal + r.value.deliveryFee
  {
    var orderType, address := TypeOf(form), Strip(form.address);
    if orderType == DeliveryType && address == [] then Err(MissingAddress)
    else if orderType == DeliveryType && !IsDeliveryActive(cfg) then Err(DeliveryUnavailable)
    else
      var subtotal := LinesTotal(lines);
      var fee := if orderType == DeliveryType then DeliveryFee(cfg) else 0;
      var stored := if address != [] then Some(address) else None;
      if orderType == DineInType then
        match CheckBooking(form, format)
        case Err(e) => Err(e)
        case Ok(b) =>
          Ok(Order(userId, subtotal + fee, subtotal, fee, NewStatus, orderType, stored,
            None, Some(AtReservation(b.formatted)), Some(b.reservation), Some(b.guests), Snapshot(lines)))
      else
        var takeaway := orderType == TakeawayType;
        Ok(Order(userId, subtotal + fee, subtotal, fee, NewStatus, orderType, stored,
          if takeaway then Some(PickupCode(pickupNumber)) else None,
          if takeaway then Some(ReadyAt(now + ReadyMinutes(LinesQuantity(lines)))) else None,
          None, None, Snapshot(lines)))
  }

  /** The fields every accepted checkout fills the same way. */
  lemma CheckoutCommon(lines: seq<CartLine>, cfg: map<string, string>, userId: int, form: OrderForm,
                       now: int, pickupNumber: nat, format: string -> Option<string>)
    requires 100 <= pickupNumber <= 999
    requires Checkout(lines, cfg, userId, form, now, pickupNumber, format).Ok?
    ensures var o := Checkout(lines, cfg, userId, form, now, pickupNumber, format).value;
      && o.status == NewStatus && o.userId == userId && o.orderType == TypeOf(form)
      && o.subtotal == LinesTotal(lines)
      && o.deliveryFee == (if TypeOf(form) == DeliveryType then DeliveryFee(cfg) else 0)
      && o.total == o.subtotal + o.deliveryFee
      && o.items == Snapshot(lines)
      && (o.address.Some? <==> !IsBlank(form.address))
      && (o.address.Some? ==> o.address.value == Strip(form.address))
  {
    if TypeOf(form) == DineInType {
      assert CheckBooking(form, format).Ok?;
    }
  }

  /** The type-specific fields of an accepted checkout. */
  lemma CheckoutTyped(lines: seq<CartLine>, cfg: map<string, string>, userId: int, form: OrderForm,
                      now: int, pickupNumber: nat, format: string -> Option<string>)
    requires 100 <= pickupNumber <= 999
    requires Checkout(lines, cfg, userId, form, now, pickupNumber, format).Ok?
    ensures var o := Checkout(lines, cfg, userId, form, now, pickupNumber, format).value;
      && (TypeOf(form) == TakeawayType ==>
            o.pickupCode == Some(PickupCode(pickupNumber)) &&
            o.eta == Some(ReadyAt(now + ReadyMinutes(LinesQuantity(lines)))))
      && (TypeOf(form) != TakeawayType ==> o.pickupCode.None?)
      && (TypeOf(form) == DineInType ==>
            var b := CheckBooking(form, format).value;
            o.reservation == Some(b.reservation) && o.guests == Some(b.guests) && o.eta == Some(AtReservation(b.formatted)))
      && (TypeOf(form) != DineInType ==> o.reservation.None? && o.guests.None?)
      && (TypeOf(form) != TakeawayType && TypeOf(form) != DineInType ==> o.eta.None?)
  {
  }

  /** place_order as a whole: an empty cart is refused, otherwise the resolved cart is checked out. */
  function PlaceOrderSpec(cart: seq<int>, menu: map<int, MenuItem>, cfg: map<string, string>, userId: int,
                          form: OrderForm, now: int, pickupNumber: nat, format: string -> Option<string>): (r: Result<Order>)
    requires 100 <= pickupNumber <= 999
    ensures r == Err(CartEmpty) <==> cart == []
  {
    if cart == [] then Err(CartEmpty)
    else Checkout(Resolve(Grouped(cart), menu), cfg, userId, form, now, pickupNumber, format)
  }

  /**
   * The refusals of place_order, in the order they are checked: empty cart,
   * Delivery without an address (before the delivery switch is looked at),
   * Delivery while switched off, then the Dine-in checks.
   */
  lemma PlaceOrderRefusals(cart: seq<int>, menu: map<int, MenuItem>, cfg: map<string, string>, userId: int,
                           form: OrderForm, now: int, pickupNumber: nat, format: string -> Option<string>)
    requires 100 <= pickupNumber <= 999
    ensures var r := PlaceOrderSpec(cart, menu, cfg, userId, form, now, pickupNumber, format);
      && (cart == [] ==> r == Err(CartEmpty))
      && (cart != [] && TypeOf(form) == DeliveryType && IsBlank(form.address) ==> r == Err(MissingAddress))
      && (cart != [] && TypeOf(form) == DeliveryType && !IsBlank(form.address) && !IsDeliveryActive(cfg) ==>
            r == Err(DeliveryUnavailable))
      && (cart != [] && TypeOf(form) == DineInType && CheckBooking(form, format).Err? ==>
            r == Err(CheckBooking(form, format).error))
  {
  }

  /** place_order succeeds exactly when none of the refusals applies; any other type text is accepted. */
  lemma PlaceOrderAccepts(cart: seq<int>, menu: map<int, MenuItem>, cfg: map<string, string>, userId: int,
                          form: OrderForm, now: int, pickupNumber: nat, format: string -> Option<string>)
    requires 100 <= pickupNumber <= 999
    ensures PlaceOrderSpec(cart, menu, cfg, userId, form, now, pickupNumber, format).Ok? <==>
      && cart != []
      && (TypeOf(form) == DeliveryType ==> !IsBlank(form.address) && IsDeliveryActive(cfg))
      && (TypeOf(form) == DineInType ==> CheckBooking(form, format).Ok?)
  {
  }

  /**
   * An accepted order: status New, the session user, the type text as
   * given; the subtotal is the sum of the prices of the cart's entries
   * still on the menu; the fee is the configured fee for Delivery and 0 for
   * any other type; total = subtotal + fee; the items are the snapshot of
   * the resolved lines; a non-blank address is stored stripped whatever the
   * type, a blank one not at all.
   */
  lemma PlacedOrder(cart: seq<int>, menu: map<int, MenuItem>, cfg: map<string, string>, userId: int,
                    form: OrderForm, now: int, pickupNumber: nat, format: string -> Option<string>)
    requires 100 <= pickupNumber <= 999
    requires PlaceOrderSpec(cart, menu, cfg, userId, form, now, pickupNumber, format).Ok?
    ensures var o := PlaceOrderSpec(cart, menu, cfg, userId, form, now, pickupNumber, format).value;
      && o.status == NewStatus && o.userId == userId && o.orderType == TypeOf(form)
      && o.subtotal == FlatSum(cart, PriceIn(menu))
      && o.deliveryFee == (if TypeOf(form) == DeliveryType then DeliveryFee(cfg) else 0)
      && o.total == o.subtotal + o.deliveryFee
      && o.items == Snapshot(Resolve(Grouped(cart), menu))
      && (o.address.Some? <==> !IsBlank(form.address))
      && (o.address.Some? ==> o.address.value == Strip(form.address))
  {
    CheckoutCommon(Resolve(Grouped(cart), menu), cfg, userId, form, now, pickupNumber, format);
    CartSums(cart, menu);
  }

  /**
   * A Takeaway order carries the pickup code of the random number, and is
   * ready 20 minutes plus 2 per ordered item from now (by CartSums, the
   * number of cart entries still on the menu); no other type gets a pickup
   * code.
   */
  lemma TakeawayOrder(cart: seq<int>, menu: map<int, MenuItem>, cfg: map<string, string>, userId: int,
                      form: OrderForm, now: int, pickupNumber: nat, format: string -> Option<string>)
    requires 100 <= pickupNumber <= 999
    requires PlaceOrderSpec(cart, menu, cfg, userId, form, now, pickupNumber, format).Ok?
    ensures var o := PlaceOrderSpec(cart, menu, cfg, userId, form, now, pickupNumber, format).value;
      && (TypeOf(form) == TakeawayType ==>
            && o.pickupCode == Some(PickupCode(pickupNumber))
            && o.eta.Some? && o.eta.value.ReadyAt? && o.eta.value.minute == now + ReadyMinutes(FlatSum(cart, Known(menu))))
      && (TypeOf(form) != TakeawayType ==> o.pickupCode.None?)
      && (TypeOf(form) != TakeawayType && TypeOf(form) != DineInType ==> o.eta.None?)
  {
    PlaceOrderChecksOut(cart, menu, cfg, userId, form, now, pickupNumber, format);
    CheckoutTyped(Resolve(Grouped(cart), menu), cfg, userId, form, now, pickupNumber, format);
    CartSums(cart, menu);
  }

  /** A non-empty cart is checked out on its resolved lines. */
  lemma PlaceOrderChecksOut(cart: seq<int>, menu: map<int, MenuItem>, cfg: map<string, string>, userId: int,
                            form: OrderForm, now: int, pickupNumber: nat, format: string -> Option<string>)
    requires 100 <= pickupNumber <= 999
    requires PlaceOrderSpec(cart, menu, cfg, userId, form, now, pickupNumber, format).Ok?
    ensures cart != []
    ensures PlaceOrderSpec(cart, menu, cfg, userId, form, now, pickupNumber, format)
         == Checkout(Resolve(Grouped(cart), menu), cfg, userId, form, now, pickupNumber, format)
  {
  }

  /**
   * A Dine-in order keeps the stripped reservation, the guest count (1 to
   * 20) and, as its ready time, the formatted reservation; other types keep
   * neither reservation nor guests.
   */
  lemma DineInOrder(cart: seq<int>, menu: map<int, MenuItem>, cfg: map<string, string>, userId: int,
                    form: OrderForm, now: int, pickupNumber: nat, format: string -> Option<string>)
    requires 100 <= pickupNumber <= 999
    requires PlaceOrderSpec(cart, menu, cfg, userId, form, now, pickupNumber, format).Ok?
    ensures var o := PlaceOrderSpec(cart, menu, cfg, userId, form, now, pickupNumber, format).value;
      && (TypeOf(form) == DineInType ==>
            && o.reservation == Some(Strip(form.reservation))
            && o.guests.Some? && MinGuests <= o.guests.value <= MaxGuests
            && o.eta.Some? && o.eta.value.AtReservation? && Some(o.eta.value.text) == format(Strip(form.reservation)))
      && (TypeOf(form) != DineInType ==> o.reservation.None? && o.guests.None?)
  {
    CheckoutTyped(Resolve(Grouped(cart), menu), cfg, userId, form, now, pickupNumber, format);
  }

  /**
   * Setting an order's status: a missing order is reported first, then a
   * target outside the whitelist; otherwise that order's status, and
   * nothing else, becomes the target.
   */
  function SetStatus(orders: map<int, Order>, id: int, target: string, allowed: seq<string>): (r: Result<map<int, Order>>)
    ensures id !in orders ==> r == Err(OrderNotFound)
    ensures id in orders && target !in allowed ==> r == Err(InvalidStatus)
    ensures r.Ok? <==> id in orders && target in allowed
    ensures r.Ok? ==> r.value.Keys == orders.Keys && r.value[id] == orders[id].(status := target)
    ensures r.Ok? ==> forall k :: k in orders && k != id ==> r.value[k] == orders[k]
  {
    if id !in orders then Err(OrderNotFound)
    else if target !in allowed then Err(InvalidStatus)
    else Ok(orders[id := orders[id].(status := target)])
  }

  /** The current status is never consulted: the outcome is the same whatever it was. */
  lemma StatusNotConsulted(orders: map<int, Order>, id: int, target: string, allowed: seq<string>, current: string)
    requires id in orders
    ensures SetStatus(orders[id := orders[id].(status := current)], id, target, allowed) == SetStatus(orders, id, target, allowed)
  {
    var moved := orders[id := orders[id].(status := current)];
    if target in allowed {
      assert SetStatus(moved, id, target, allowed).value == SetStatus(orders, id, target, allowed).value;
    }
  }

  /**
   * The two whitelists: an admin may send a delivered order back to New and
   * may not set "Out for Delivery"; a driver may set only "Out for Delivery"
   * and "Delivered", so not "Preparing".
   */
  lemma Whitelists(orders: map<int, Order>, id: int)
    requires id in orders && orders[id].status == "Delivered"
    ensures SetStatus(orders, id, "New", AdminStatuses).Ok?
    ensures SetStatus(orders, id, "Out for Delivery", AdminStatuses) == Err(InvalidStatus)
    ensures SetStatus(orders, id, "Preparing", DriverStatuses) == Err(InvalidStatus)
    ensures SetStatus(orders, id, "Out for Delivery", DriverStatuses).Ok?
  {
    assert AdminStatuses[0] == "New";
    assert DriverStatuses[0] == "Out for Delivery";
    assert "Out for Delivery" != "New" && "Out for Delivery" != "Preparing";
    assert "Out for Delivery" != "Ready" && "Out for Delivery" != "Delivered";
    assert "Preparing" != "Delivered";
  }
}
