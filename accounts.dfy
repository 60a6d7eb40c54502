/**
 * Users: the role gates in front of the routes, the registration checks,
 * the new-password check of the reset form, and the address book edits.
 */
module Accounts {
  import opened Common
  import opened Text
  import opened Seqs

  const CustomerRole := "customer"
  const AdminRole := "admin"
  const DriverRole := "driver"

  /** The part of a user kept in the session after login. */
  datatype SessionUser = SessionUser(id: int, role: string)

  /**
   * A stored user.  The password is kept as the text that was set; the
   * hashing around it is not part of this model.
   */
  datatype User = User(
    email: string,
    name: string,
    phone: string,
    password: string,
    role: string,
    addresses: seq<string>)

  /** What a route's decorator demands. */
  datatype Access = AnyUser | AdminOnly | DriverOnly

  /** The role a gate admits, if it restricts the role at all. */
  function RequiredRole(need: Access): Option<string> {
    match need
    case AnyUser => None
    case AdminOnly => Some(AdminRole)
    case DriverOnly => Some(DriverRole)
  }

  /**
   * login_required, admin_required and driver_required: no user means the
   * login page; a user with the wrong role is turned away; otherwise the
   * route runs (None).
   */
  function Gate(user: Option<SessionUser>, need: Access): (r: Option<Error>)
    ensures user.None? ==> r == Some(LoginRequired)
    ensures user.Some? ==> (r.None? <==> RequiredRole(need).None? || RequiredRole(need).value == user.value.role)
    ensures user.Some? && r.Some? ==> r.value == AccessDenied
  {
    if user.None? then Some(LoginRequired)
    else if need == AdminOnly && user.value.role != AdminRole then Some(AccessDenied)
    else if need == DriverOnly && user.value.role != DriverRole then Some(AccessDenied)
    else None
  }

  /**
   * The gates are nested: an admin or a driver passes the plain login gate,
   * nobody passes both role gates, and a customer passes neither.
   */
  lemma GatesNested(user: Option<SessionUser>)
    ensures Gate(user, AdminOnly).None? ==> Gate(user, AnyUser).None?
    ensures Gate(user, DriverOnly).None? ==> Gate(user, AnyUser).None?
    ensures !(Gate(user, AdminOnly).None? && Gate(user, DriverOnly).None?)
    ensures user.Some? && user.value.role == CustomerRole ==>
      Gate(user, AdminOnly) == Gate(user, DriverOnly) == Some(AccessDenied)
  {
  }

  /** The e-mail addresses already registered. */
  function Emails(users: map<int, User>): set<string> {
    set id | id in users :: users[id].email
  }

  /** The e-mail column is unique: no two users share an address. */
  predicate UniqueEmails(users: map<int, User>) {
    forall a, b :: a in users && b in users && users[a].email == users[b].email ==> a == b
  }

  /** Under unique e-mails, a user's address names that user alone. */
  lemma SoleOwner(users: map<int, User>, id: int)
    requires UniqueEmails(users) && id in users
    ensures forall other :: other in users && users[other].email == users[id].email ==> other == id
  {
  }

  /** Changing a user's record but not the address keeps e-mails unique. */
  lemma UniqueEmailsUpdate(users: map<int, User>, id: int, user: User)
    requires UniqueEmails(users) && id in users && user.email == users[id].email
    ensures UniqueEmails(users[id := user])
  {
  }

  /**
   * The registration checks, in order: a phone number is required after
   * stripping, then the stripped e-mail must not be registered yet.  An
   * accepted form gives a customer with stripped fields and no addresses.
   */
  function Registration(name: string, email: string, password: string, phone: string, taken: set<string>): (r: Result<User>)
    ensures IsBlank(phone) ==> r == Err(PhoneRequired)
    ensures !IsBlank(phone) && Strip(email) in taken ==> r == Err(EmailTaken)
    ensures r.Ok? <==> !IsBlank(phone) && Strip(email) !in taken
    ensures r.Ok? ==>
      && r.value.role == CustomerRole && r.value.addresses == []
      && r.value.email == Strip(email) && r.value.phone == Strip(phone) && r.value.phone != []
      && r.value.name == Strip(name) && r.value.password == Strip(password)
  {
    var phoneText := Strip(phone);
    if phoneText == [] then Err(PhoneRequired)
    else if Strip(email) in taken then Err(EmailTaken)
    else Ok(User(Strip(email), Strip(name), phoneText, Strip(password), CustomerRole, []))
  }

  /** The new-password check of the reset form as written: `not p and len(p) < 3`. */
  function PasswordRejectedAsWritten(raw: string): (rejected: bool) {
    var p := Strip(raw);
    p == [] && |p| < 3
  }

  /** As written, the check turns away only a blank password. */
  lemma AsWrittenRejectsOnlyBlank(raw: string)
    ensures PasswordRejectedAsWritten(raw) <==> IsBlank(raw)
  {
  }

  /** A two-letter password gets through the check as written, though the message demands three. */
  lemma AsWrittenAcceptsShort()
    ensures !PasswordRejectedAsWritten("ab") && |Strip("ab")| < 3
  {
    assert !IsSpace('a') && !IsSpace('b');
    StripNoSpace("ab");
    assert Strip("ab") == "ab";
  }

  /** The check the reset form's message describes: at least three characters after stripping. */
  function CheckNewPassword(raw: string): (r: Result<string>)
    ensures r.Ok? <==> |Strip(raw)| >= 3
    ensures r.Ok? ==> r.value == Strip(raw)
    ensures r.Err? ==> r.error == WeakPassword
  {
    var p := Strip(raw);
    if |p| < 3 then Err(WeakPassword) else Ok(p)
  }

  /** Everything the check as written rejects, the intended check rejects too. */
  lemma IntendedCheckIsStricter(raw: string)
    ensures PasswordRejectedAsWritten(raw) ==> CheckNewPassword(raw).Err?
    ensures CheckNewPassword("ab").Err? && !PasswordRejectedAsWritten("ab")
  {
    AsWrittenAcceptsShort();
  }

  /**
   * add_address: the stripped address is appended unless it is blank; the
   * earlier entries stay as they were.
   */
  function AddAddress(addresses: seq<string>, raw: string): (r: Result<seq<string>>)
    ensures r.Err? <==> IsBlank(raw)
    ensures r.Err? ==> r.error == EmptyAddress
    ensures r.Ok? ==> |r.value| == |addresses| + 1 && r.value[..|addresses|] == addresses
    ensures r.Ok? ==> var a := r.value[|addresses|];
      a == Strip(raw) && a != [] && !IsSpace(a[0]) && !IsSpace(a[|a| - 1])
  {
    var a := Strip(raw);
    if a == [] then Err(EmptyAddress)
    else
      var r := addresses + [a];
      assert r[..|addresses|] == addresses && r[|addresses|] == a;
      Ok(r)
  }

  /**
   * delete_address: the entry at index goes when 0 <= index < length, the
   * others keep their order; any other index is an error.
   */
  function DeleteAddress(addresses: seq<string>, index: int): (r: Result<seq<string>>)
    ensures r.Ok? <==> 0 <= index < |addresses|
    ensures r.Err? ==> r.error == AddressNotFound
    ensures r.Ok? ==> |r.value| == |addresses| - 1
    ensures r.Ok? ==> forall k :: 0 <= k < index ==> r.value[k] == addresses[k]
    ensures r.Ok? ==> forall k :: index <= k < |r.value| ==> r.value[k] == addresses[k + 1]
    ensures r.Ok? ==> multiset(r.value) + multiset{addresses[index]} == multiset(addresses)
  {
    if 0 <= index < |addresses| then
      var r := RemoveAt(addresses, index);
      assert addresses == addresses[..index] + [addresses[index]] + addresses[index + 1..];
      Ok(r)
    else Err(AddressNotFound)
  }

  /** Adding an address and then deleting the last index gives the book back. */
  lemma AddThenDeleteLast(addresses: seq<string>, raw: string)
    requires !IsBlank(raw)
    ensures AddAddress(addresses, raw).Ok?
    ensures DeleteAddress(AddAddress(addresses, raw).value, |addresses|) == Ok(addresses)
  {
    var added := AddAddress(addresses, raw).value;
    var r := DeleteAddress(added, |addresses|).value;
    assert r == addresses;
  }
}
