/** Shared value types: an optional value, a result with the application's error kinds. */
module Common {

  datatype Option<+T> = None | Some(value: T) {
    function GetOr(default: T): T {
      match this
      case Some(v) => v
      case None => default
    }
  }

  /** Every user-facing failure the request handlers report with a flash message. */
  datatype Error =
    | LoginRequired         // no user in the session
    | AccessDenied          // logged in, but without the role the route demands
    | ItemNotFound          // menu item id not in the menu
    | CartEmpty             // cart missing or empty
    | NotInCart             // decrease of an id the cart does not hold
    | MissingAddress        // Delivery order with a blank address
    | DeliveryUnavailable   // Delivery order while the delivery service is switched off
    | MissingReservation    // Dine-in order without a reservation time
    | MissingGuests         // Dine-in order without a guest count
    | InvalidGuests         // guest count that int() rejects
    | GuestsOutOfRange      // guest count outside 1..20
    | InvalidReservation    // reservation time that does not parse
    | OrderNotFound
    | InvalidStatus         // status target outside the role's whitelist
    | InvalidFee            // delivery fee that is not a non-negative number
    | MissingFields         // menu item without name, price or category
    | InvalidPrice          // menu item price that is not a positive number
    | UserNotFound
    | EmptyAddress          // address book entry that is blank after stripping
    | AddressNotFound       // address book index out of range
    | PhoneRequired         // registration without a phone number
    | EmailTaken            // registration with an e-mail that is already registered
    | WeakPassword          // new password shorter than three characters

  datatype Result<+T> = Ok(value: T) | Err(error: Error)
}
