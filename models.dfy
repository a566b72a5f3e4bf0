/**
 * The two tables both services share: `users` and `transactions`, with their
 * column defaults and the key and uniqueness constraints the schema declares.
 */
module Models {
  import opened Results

  /** Column default of `users.balance`. */
  const DefaultBalance: real := 1000.0
  /** Column default of `transactions.status`. */
  const DefaultStatus: string := "pending"

  /** A row of `users`. The balance is an exact decimal. */
  datatype User = User(id: int, username: string, hashedPassword: string, email: string, balance: real)

  /** A row of `transactions`; `createdAt` counts whole seconds. */
  datatype Transaction = Transaction(
    id: int, senderId: int, receiverId: int, amount: real, status: string, createdAt: int)

  /** A `users` row as inserted: a balance left out takes the column default. */
  function NewUser(id: int, username: string, hashedPassword: string, email: string, balance: Option<real>): (u: User)
    ensures u.id == id && u.username == username && u.email == email && u.hashedPassword == hashedPassword
    ensures u.balance == (if balance.Some? then balance.value else DefaultBalance)
  {
    User(id, username, hashedPassword, email, if balance.Some? then balance.value else DefaultBalance)
  }

  /**
   * A `transactions` row as inserted at time `now`: a status left out takes the
   * column default and `created_at` is the insertion time.
   */
  function NewTransaction(id: int, senderId: int, receiverId: int, amount: real, status: Option<string>, now: int): (t: Transaction)
    ensures t.id == id && t.senderId == senderId && t.receiverId == receiverId && t.amount == amount
    ensures t.status == (if status.Some? then status.value else DefaultStatus)
    ensures t.createdAt == now
  {
    Transaction(id, senderId, receiverId, amount, if status.Some? then status.value else DefaultStatus, now)
  }

  /** Primary key of `users`. */
  predicate UniqueIds(users: seq<User>) {
    forall i, j :: 0 <= i < j < |users| ==> users[i].id != users[j].id
  }

  /** `unique=True` on `users.username`. */
  predicate UniqueUsernames(users: seq<User>) {
    forall i, j :: 0 <= i < j < |users| ==> users[i].username != users[j].username
  }

  /** `unique=True` on `users.email`. */
  predicate UniqueEmails(users: seq<User>) {
    forall i, j :: 0 <= i < j < |users| ==> users[i].email != users[j].email
  }

  /** Every constraint the `users` table declares. */
  predicate UserTable(users: seq<User>) {
    UniqueIds(users) && UniqueUsernames(users) && UniqueEmails(users)
  }

  predicate HasUser(users: seq<User>, id: int) {
    exists i :: 0 <= i < |users| && users[i].id == id
  }

  /** Primary key of `transactions`. */
  predicate UniqueTxIds(log: seq<Transaction>) {
    forall i, j :: 0 <= i < j < |log| ==> log[i].id != log[j].id
  }

  /** The non-null foreign keys `sender_id` and `receiver_id` name existing users. */
  predicate ReferencesUsers(log: seq<Transaction>, users: seq<User>) {
    forall k :: 0 <= k < |log| ==> HasUser(users, log[k].senderId) && HasUser(users, log[k].receiverId)
  }

  /** Position of the first row that satisfies `p`: a `filter(...).scalar_one_or_none()` lookup. */
  function IndexWhere<T>(rows: seq<T>, p: T -> bool): (r: Option<nat>)
    ensures r.Some? ==> r.value < |rows| && p(rows[r.value])
    ensures r.Some? ==> forall j :: 0 <= j < r.value ==> !p(rows[j])
    ensures r.None? ==> forall j :: 0 <= j < |rows| ==> !p(rows[j])
  {
    if rows == [] then None
    else if p(rows[0]) then Some(0)
    else match IndexWhere(rows[1..], p)
      case None => None
      case Some(k) => Some(k + 1)
  }

  /** `select(User).filter(User.id == id)`. */
  function FindById(users: seq<User>, id: int): (r: Option<nat>)
    ensures r.Some? ==> r.value < |users| && users[r.value].id == id
    ensures r.None? <==> !HasUser(users, id)
  {
    IndexWhere(users, (u: User) => u.id == id)
  }

  /** `select(User).filter(User.username == name)`. */
  function FindByUsername(users: seq<User>, name: string): (r: Option<nat>)
    ensures r.Some? ==> r.value < |users| && users[r.value].username == name
    ensures r.None? <==> forall i :: 0 <= i < |users| ==> users[i].username != name
  {
    IndexWhere(users, (u: User) => u.username == name)
  }

  /** `select(User).filter(User.email == email)`. */
  function FindByEmail(users: seq<User>, email: string): (r: Option<nat>)
    ensures r.Some? ==> r.value < |users| && users[r.value].email == email
    ensures r.None? <==> forall i :: 0 <= i < |users| ==> users[i].email != email
  {
    IndexWhere(users, (u: User) => u.email == email)
  }

  /** Under the primary key, the lookup by id finds the one row carrying that id. */
  lemma FindByIdUnique(users: seq<User>, i: nat)
    requires UniqueIds(users) && i < |users|
    ensures FindById(users, users[i].id) == Some(i)
  {
  }

  /** Under the uniqueness of usernames, the lookup by username finds the one row carrying it. */
  lemma FindByUsernameUnique(users: seq<User>, i: nat)
    requires UniqueUsernames(users) && i < |users|
    ensures FindByUsername(users, users[i].username) == Some(i)
  {
  }
}
