# FlowState ordering core in Dafny

This project models the ordering logic of the FlowState restaurant app (`app.py`). It covers the following:

- **Session cart.** The cart is a flat list of menu item ids. It can be added to, increased and decreased.
- **Cart aggregation.** The cart page and order placement share it. Ids are grouped in order of first occurrence and resolved against the menu; ids no longer on the menu are skipped. A subtotal and an item snapshot are built.
- **`place_order`.** Its checks come in a fixed order. The fee and total, the Takeaway pickup code and ready time, and the Dine-in reservation are derived from the form. One order is stored and the cart is emptied.
- **Order status.** The admin and the driver each have a whitelist of target statuses.
- **System configuration.** A string-to-string table with defaults and upsert. It has two typed readers: the delivery fee and the delivery switch. The fee form and the toggle write to it.
- **Address book.** Addresses can be appended and deleted by index.
- **Menu page.** Items are grouped by category, and the categories are ordered (preferred ones first).
- **Validators.** The menu item form, the registration checks and the reset-password check.
- **Role gates.** `login_required`, `admin_required` and `driver_required`.

Money is in integer cents. `float()` on form and configuration text becomes `Text.ParseFloat`, which is `Text.ParseDecimal` after `Text.Strip`. `str(float)` becomes `Text.FormatCents`, and the two are proved to round-trip. `int()` becomes `Text.ParseInt`.

The modules follow the structure of `app.py`:

- `Common`: Option, Result, error kinds.
- `Text`: strip, lower, integer and decimal parsing and printing.
- `Seqs`: counting, first occurrence, `list.remove`, `list.pop`, dict key order.
- `Menu`: the item form and the menu page.
- `Cart`: grouping and resolving the cart.
- `Config`: `SystemConfig`.
- `Accounts`: gates, registration, password check, address book.
- `Orders`: `place_order` and status whitelists.
- `App`: the routes as methods of a `Store` class (menu, users, orders and configuration tables, with id counters) over a `Session` (user and cart). The store invariant keeps every id below its counter, lists each menu id once in the table order, and keeps users' e-mail addresses unique, as the database column is.

A route's role gate runs first. A refused request changes nothing.

## Model

| member | source | states |
|---|---|---|
| Accounts.Gate | app.py:193-227 | No user gives the login redirect. A user passes exactly when the route needs no role or the user has it; otherwise access is denied. |
| Accounts.GatesNested | app.py:193-227 | Admins and drivers pass the login gate. Nobody passes both role gates. A customer is denied by both. |
| Accounts.Registration | app.py:266-301 | Checks in order: phone required after stripping, then stripped e-mail not yet registered. Ok exactly when both hold. Ok gives a customer whose e-mail, name, phone and password are the stripped inputs, with no addresses. |
| Accounts.PasswordRejectedAsWritten | app.py:334 | The reset check as written: `not p and len(p) < 3` on the stripped text. |
| Accounts.AsWrittenRejectsOnlyBlank | app.py:334 | As written, the check rejects a password exactly when it is blank. |
| Accounts.AsWrittenAcceptsShort | app.py:334-336 | "ab" gets through the check as written, though it is shorter than the three characters the message demands. |
| Accounts.CheckNewPassword | app.py:334-336 | Corrected check, not used by the route: Ok exactly when the stripped password has at least 3 characters; the stripped text is what is set. |
| Accounts.IntendedCheckIsStricter | app.py:334 | Everything the as-written check rejects, the corrected check rejects too; "ab" separates them. |
| Accounts.AddAddress | app.py:648-666 | Blank address gives EmptyAddress. Otherwise the stripped, non-blank address is appended and earlier entries are unchanged. |
| Accounts.DeleteAddress | app.py:686-697 | Ok exactly when 0 <= index < length. The entry at index goes and the others keep their order (index by index and as a multiset). Otherwise AddressNotFound. |
| Accounts.AddThenDeleteLast | app.py:644-699 | Appending an address and then deleting the last index restores the book. |
| Config.GetValue | app.py:157-160 | The stored text when the key has a row, otherwise the default. |
| Config.SetValue | app.py:163-171 | Upsert: the key maps to the new text, the key set gains at most that key, and the other keys are unchanged. |
| Config.ReadAfterWrite | app.py:157-171 | A get after a set reads the written text; other keys read as before. |
| Config.DefaultFeeReads | app.py:176 | The default text "20.0" reads as 2000 cents. |
| Config.DeliveryFee | app.py:174-180 | 20.0 when the key is absent or the text does not parse; otherwise the parsed value. |
| Config.IsDeliveryActive | app.py:183-186 | With a row, on exactly when the stored text spells "true" in some letter case (four characters t/T, r/R, u/U, e/E); with no row, on. |
| Text.ParseFloat | app.py:178 | float() of stored or submitted text (also app.py:745, 785, 850, 881): a blank text never reads as a number, and a negative reading comes only from a text that starts with '-' once stripped. |
| Config.BoolText | app.py:902 | str(bool): the text spells "true" in some letter case exactly when the flag is set, so the switch reads back what was stored. |
| Config.ActiveReading | app.py:183-186 | The switch is on when absent and for "true" in any letter case; off for other texts such as "yes" and " true". |
| Config.ToggleFlips | app.py:896-902 | Storing str(not active) turns the switch to the opposite state. |
| Config.ToggleTwice | app.py:896-902 | Toggling twice restores the switch. |
| Config.ValidateFee | app.py:741-748 | Ok exactly when the stripped text parses as a number >= 0; otherwise InvalidFee. |
| Config.FeeUpdateReadsBack | app.py:750 | A fee accepted by the form and stored as str(float) reads back as the same fee. |
| Text.Strip | app.py:269-272 | str.strip(): the result is the slice of the input between a run of leading and a run of trailing whitespace; it neither begins nor ends with whitespace, and it is empty exactly when the input is blank. |
| Text.Lower | app.py:186 | str.lower(): same length, each character lower-cased on its own. |
| Text.NatToString | app.py:552 | str(int) of a natural number: at least one character, all digits, a leading '0' only for zero, two or more characters from ten on. |
| Text.ParseInt | app.py:580 | int(): a reading exactly for one or more ASCII digits, optionally after one sign; not negative without a minus sign, not positive with one. |
| Text.ParseDecimal | app.py:785 | float() on the modelled decimal forms: a negative reading only for text that starts with '-'. |
| Text.FormatCents | app.py:167-169 | str(float) of an amount in cents: digits and one decimal point. |
| Text.FormatCentsOnePoint | app.py:167-169 | str(float) of an amount in cents holds exactly one decimal point. |
| Text.ParseIntOfNatToString | app.py:580 | int() reads back the decimal text of a non-negative number. |
| Text.FormatCentsRoundTrip | app.py:169 | float() reads back what str(float) writes for an amount in cents. |
| Text.NatToStringThreeDigits | app.py:552 | A number from 100 to 999 prints as three characters. |
| Seqs.CountIsMultiplicity | app.py:509-510 | The occurrence count of a list is the multiset multiplicity. |
| Seqs.Distinct | app.py:508-510 | Dict keys filled in list order have no duplicates, and they are exactly the list's elements. |
| Seqs.DistinctFirstOccurrenceOrder | app.py:508-514 | Distinct lists the elements in order of first occurrence. |
| Seqs.RemoveFirst | app.py:455 | list.remove: an absent element changes nothing; otherwise the length drops by one and the multiset loses one copy. |
| Seqs.RemoveFirstAt | app.py:455 | list.remove cuts the list exactly at the first index of the element. |
| Seqs.RemoveFirstCount | app.py:455 | Removing x lowers x's count by one and leaves every other count alone. |
| Seqs.RemoveAt | app.py:689 | list.pop(i): the entries before i stay, the entries after i shift down by one. |
| Seqs.KeepOrder | app.py:372-383 | Filtering a list without duplicates neither repeats nor reorders elements. |
| Menu.ValidateItemForm | app.py:778-790 | MissingFields exactly when the stripped name, price or category is blank. InvalidPrice exactly when the price does not parse or is <= 0. Ok gives the stripped name and category, the parsed positive price and the availability passed in. The description is the stripped text, or "No description provided" when blank; the image address likewise, with the placeholder image. |
| Menu.OrderCategories | app.py:370-383 | Lists only categories that occur. |
| Menu.OrderCategoriesMembers | app.py:370-383 | The category list holds exactly the categories that occur. |
| Menu.OrderCategoriesDistinct | app.py:370-383 | Each category is listed once. |
| Menu.OrderCategoriesPreferredOrder | app.py:370-377 | Preferred categories come first, in preferred order. |
| Menu.OrderCategoriesFirstSeenOrder | app.py:379-383 | Every other category comes after all preferred ones, in order of first occurrence. |
| Menu.CategoryOrderOfMenu | app.py:370-383 | For the menu page's own list: every category of the items once, Sandwiches, Meals, Drinks, Desserts first in that order, the others after them in first-seen order. |
| Menu.GroupByCategory | app.py:368-372 | Keys come in order of first occurrence; each category's list holds its items in order. |
| Menu.SortCategories | app.py:374-383 | Preferred keys that occur, then every key not listed yet. |
| Menu.PreferredPresent | app.py:374-377 | The first loop: the preferred categories that occur, in preferred order. |
| Menu.AppendOthers | app.py:379-383 | The second loop: every other key is appended in key order. |
| Menu.MenuPage | app.py:361-383 | The categories are the ordered category list, and the map holds exactly the occurring categories with their items. |
| Cart.Grouped | app.py:508-510 | No more groups than cart entries; no groups exactly when the cart is empty. |
| Cart.TallyAt | app.py:508-510 | Each entry of the count table counts its own id in the cart. |
| Cart.GroupedSpec | app.py:508-510 | Each distinct id appears once, with count = its occurrences (>= 1), in first-occurrence order; the counts sum to the cart length. |
| Cart.TallyWeighted | app.py:508-522 | Weighting each distinct id by its count equals weighting the cart entry by entry. |
| Cart.GroupedWeighted | app.py:508-522 | The same for the grouping of a whole cart. |
| Cart.Resolve | app.py:514-522 | Resolved lines come from the menu, each with its group's count; vanished ids are skipped. |
| Cart.Snapshot | app.py:517-521 | One stored line (name, quantity, price) per resolved line. |
| Cart.ResolveSums | app.py:514-522 | The subtotal and the total quantity of the lines equal the weighted sums of the groups. |
| Cart.ResolveIds | app.py:514-516 | The lines name exactly the ids the menu still has, in key order, each with its cart count. |
| Cart.CartLines | app.py:508-522 | One line per distinct id still on the menu, in first-occurrence order, carrying its count. |
| Cart.CartSums | app.py:508-522 | Subtotal = the sum of the menu prices of the cart entries, vanished items counting 0. Line quantities add up to the entries still on the menu. |
| Cart.CountItems | app.py:508-510 | The counting loop: keys in first-occurrence order; a count for exactly the ids in the cart, each equal to its occurrences. |
| Cart.ResolveCart | app.py:512-522 | The resolving loop yields the resolved grouping; its subtotal is the per-entry price sum. |
| Cart.ResolveStep | app.py:512-522 | One more key of the grouping adds exactly that key's line when the menu still has the item, and nothing otherwise. |
| Cart.AddThenDecrease | app.py:416-455 | Adding an id and then decreasing it restores every item's quantity. |
| Orders.PickupCode | app.py:552 | "#" followed by three digits that read back as the random number. |
| Orders.CheckBooking | app.py:567-593 | Dine-in checks in order: reservation required, guests required, guests an integer, 1 to 20, reservation parses; each failing check gives its own error, InvalidReservation when only the reservation fails to parse. Ok exactly when all hold, keeping the stripped reservation, the guest count and the formatted time. |
| Orders.TypeOf | app.py:525 | The order type is the submitted text; a form without one is a Delivery order. |
| Orders.ReadyMinutes | app.py:555-558 | Minutes until a takeaway is ready: 20 plus exactly 2 per item, so never under 20 for a non-negative count. |
| Orders.Checkout | app.py:525-615 | Errors only from the address, delivery-switch and Dine-in checks. Ok gives status New, subtotal = the lines' price total, total = subtotal + fee. |
| Orders.CheckoutCommon | app.py:525-615 | Every accepted checkout: status New, the user, the type text, subtotal, fee (configured for Delivery, 0 otherwise), total = subtotal + fee, snapshot, and the stripped address kept exactly when it is not blank. |
| Orders.CheckoutTyped | app.py:547-593 | Takeaway gets the pickup code and ready time; other types get no code. Dine-in keeps reservation and guests; other types do not. A type that is neither Takeaway nor Dine-in has no ready time. |
| Orders.PlaceOrderSpec | app.py:503-593 | CartEmpty exactly when the cart is empty. |
| Orders.PlaceOrderChecksOut | app.py:503-522 | An accepted order comes from checking out the resolved grouping of a non-empty cart. |
| Orders.PlaceOrderRefusals | app.py:503-593 | Empty cart, then blank Delivery address (before the switch), then Delivery switched off, then the Dine-in errors. |
| Orders.PlaceOrderAccepts | app.py:503-593 | An order is accepted exactly when no refusal applies; any other type text is accepted. |
| Orders.PlacedOrder | app.py:536-609 | Status New, total = subtotal + fee, subtotal = cart price sum, fee only for Delivery, items = snapshot, address stored when not blank whatever the type. |
| Orders.TakeawayOrder | app.py:548-561 | Takeaway: pickup code of the random number; ready at now + 20 + 2 x (number of cart entries still on the menu) minutes. No other type gets a code, and a type that is neither Takeaway nor Dine-in gets no ready time. |
| Orders.DineInOrder | app.py:564-593 | Dine-in: stripped reservation, guests in 1..20, and the formatted reservation as ready time. Other types keep neither. |
| Orders.SetStatus | app.py:718-731 | Missing order first, then target off the whitelist; otherwise only that order's status becomes the target. |
| Orders.StatusNotConsulted | app.py:718-731 | The outcome does not depend on the current status. |
| Orders.Whitelists | app.py:727-731 | An admin may send Delivered back to New but not to "Out for Delivery"; a driver may set "Out for Delivery" but not Preparing. |
| App.AvailableItems | app.py:362 | One item per id that the table order keeps as available, in that order: the menu's item for that id. |
| App.Session.constructor | app.py:411-412 | A session starts with an empty cart. |
| App.Store.SetConfigValue | app.py:163-171 | The configuration becomes SetValue of the old one; nothing else changes. |
| App.Store.AddToCart | app.py:400-441 | Gate first. An unknown id gives ItemNotFound and leaves the cart alone; a known id is appended once. |
| App.Store.DecreaseQuantity | app.py:443-466 | Gate first. An empty cart is reported. An absent id gives NotInCart with the cart unchanged; otherwise the cart becomes RemoveFirst of the old cart. |
| App.Store.ViewCart | app.py:469-497 | Lines = resolved grouping; total = cart price sum; fee, switch, and the user's addresses ([] for a missing user). |
| App.Store.ShowMenu | app.py:359-398 | Available items, their grouping and category order; cart counts for exactly the ids in the cart, each equal to its occurrences. |
| App.Store.PlaceOrder | app.py:499-618 | Follows PlaceOrderSpec. A refusal changes nothing. Acceptance stores the order under a fresh id, empties the cart, and keeps the store invariant. |
| App.Store.DecideOrder | app.py:503-593 | The counting and resolving loops followed by the checks decide exactly as PlaceOrderSpec does for a non-empty cart. |
| App.Store.InsertOrder | app.py:596-612 | The new order gets the next id; nothing else in the store changes, and the store invariant holds. |
| App.Store.SetOrderStatus | app.py:718-731 | The orders table becomes SetStatus's result; an error changes nothing. |
| App.Store.UpdateOrderStatus | app.py:714-735 | Admin gate, then the admin whitelist. Only the orders table can change. |
| App.Store.DriverUpdateStatus | app.py:926-947 | Driver gate, then the driver whitelist. Only the orders table can change. |
| App.Store.UpdateDeliveryFee | app.py:737-756 | Admin gate. An invalid fee changes nothing. A valid fee is stored as str(float) and reads back as the fee. Only the configuration can change. |
| App.Store.ToggleDelivery | app.py:894-907 | Admin gate; stores str(not active) and the switch flips. Only the configuration can change. |
| App.Store.AddMenuItem | app.py:767-806 | Admin gate. A form error changes nothing. A valid form becomes a new available item under a fresh id, appended to the table order. |
| App.Store.InsertItem | app.py:793-803 | The new item gets the next id; the store invariant holds. |
| App.Store.EditMenuItem | app.py:824-871 | Admin gate. A missing item is reported first. A form error changes nothing. Otherwise the item is replaced, available exactly when the box reads "on". |
| App.Store.ReplaceItem | app.py:857-865 | The item is overwritten in place and its row keeps its position. |
| App.Store.Register | app.py:266-301 | Registration's verdict; an accepted form stores the user under a fresh id and advances the user counter. Nothing else changes. |
| App.Store.InsertUser | app.py:285-295 | The new user gets the next id; the store invariant, unique e-mails included, holds for an e-mail not yet registered. |
| Accounts.UniqueEmailsUpdate | app.py:29 | Changing a user's record without touching the e-mail keeps the unique e-mail column unique. |
| Accounts.SoleOwner | app.py:29 | With unique e-mails, an address belongs to one user only. |
| App.Store.ResetPassword | app.py:327-350 | The password check as written (only a blank password is refused), then UserNotFound; otherwise the one user with that e-mail (e-mails are unique) gets the stripped password. Only the users table can change. |
| App.Store.AddAddress | app.py:644-671 | Gate, then EmptyAddress before the user lookup, then UserNotFound; otherwise the user's book becomes AddAddress of the old one. Only the users table can change. |
| App.Store.DeleteAddress | app.py:673-699 | Gate, then UserNotFound, then the index check; otherwise the user's book becomes DeleteAddress of the old one. Only the users table can change. |

## Left out

- Flask routing, templates, `flash` messages and redirects. Each route returns a result (ok or one error kind) and the new state instead.
- SQLAlchemy. The tables are maps in `App.Store`, ids come from counters, and commits are assignments.
- Password hashing and login credential checks. These are foreign calls; the password is kept as the text that was set.
- JSON encoding of the address list and the order items. The lists are kept as sequences.
- The clock. `datetime.now()` becomes the parameter `now` in minutes, and the Takeaway ready time is kept as a minute rather than formatted text.
- `strptime`/`strftime` of the reservation. This is the function parameter `format`, which returns None when the text does not parse.
- `random.randint(100, 999)`. This is the parameter `pickupNumber`, required to lie in that range.
- Floating point:
  - prices and fees are cents;
  - `float()` accepts an optional sign and decimal digits with at most two fraction digits;
  - exponents, `inf`, `nan`, underscores and longer fractions are read as unparsable;
  - `str(float)` is modelled for the amounts this produces, not exponent forms.
- `int()` and `float()` with underscores or non-ASCII (Unicode) decimal digits; both are read as unparsable here. `str.lower()` is modelled on ASCII letters only, which is exact for comparison with "true".
- `delete_menu_item`, login, logout, `forgot_password`, the profile and dashboard listings, `init_db` seeding and the start-up code. They are outside the modelled core.
- Concurrent requests on the same session or table.
- Cart.Tally: its own contract gives only the length; the per-entry counts are in `Cart.TallyAt`, to keep the solver's work small where Tally is unfolded.

## Findings

| source | as written | input that shows it | evidently intended | confidence | as-written member | corrected member |
|---|---|---|---|---|---|---|
| app.py:334 | `if not new_password and len(new_password) < 3` rejects only the empty password | new password "ab": not blank, so it is accepted although the message says at least 3 characters | reject when `len(new_password) < 3` | not executed | Accounts.AsWrittenAcceptsShort | Accounts.CheckNewPassword |

`App.Store.ResetPassword` keeps the behaviour as written, so that the route matches the program; `Accounts.IntendedCheckIsStricter` relates it to the corrected check.
