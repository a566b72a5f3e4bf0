# Transfer ledger and user store: a Dafny model

This project models the core of a two-service backend. The authentication service keeps a `users` table. It registers users with a starting balance of 1000, logs them in, changes passwords and lists users. The ledger service moves money between two users' balances. It appends a record for each completed transfer to the `transactions` table and lists those records with optional filters.

Each request is modelled as one atomic step over the tables:

- `models.dfy` (`Models`): the two table rows, their column defaults, and the key and uniqueness constraints. It also has the `filter(...).scalar_one_or_none()` lookups.
- `paging.dfy` (`Paging`): the `offset(skip).limit(limit)` slice that both listings use.
- `service_schemas.dfy` (`ServiceSchemas`): the transaction status enum, the transfer request and the transaction response.
- `auth_schemas.dfy` (`AuthSchemas`): the request bodies of the authentication service. This covers the `min_length=8` constraints and the `validate_password` validators.
- `auth.dfy` (`Auth`): the class `UserStore` with `Register` and `ChangePassword`, the read-only `Login`, `GetUser` and `GetAllUsers`, and lemmas that link them.
- `ledger.dfy` (`Ledger`): the class `Ledger` with `CreateTransaction`, the transfer function it is proved against, and the money lemmas.
- `transaction_query.dfy` (`TransactionQuery`): the transaction listing, modelled as a filter followed by a page.

Modelling choices:

- Balances and amounts are `real`. The columns are exact decimals and the code only adds, subtracts and compares them.
- Timestamps are whole seconds, and a timestamp's day is `t / 86400`.
- Tables are sequences in storage order. Both listings return rows in that order.
- Row ids come from a counter field in each class, as the database's auto-increment key would assign them.
- The wall clock is a `now` parameter.
- The `None` cases of `NewUser` and `NewTransaction` are the column defaults. No route relies on them: `register` passes the balance explicitly (auth/app/routes/auth.py:53-58) and `create_transaction` passes the status explicitly (service/app/routes/transaction.py:57-62).
- The authenticated caller of a transfer is a user id that exists.
- bcrypt and JWT are the three functions of a `Crypto` value, with no properties assumed. A lemma that needs "a password verifies against its own hash" says so with the hypothesis `Sound`.

Three behaviours of the code that the model keeps as written:

- A transfer amount is never checked to be positive. `TransactionCreate.amount` is an unconstrained decimal, and nothing in `create_transaction` tests its sign. So a negative amount passes the funds check whenever the sender's balance is not negative, and money then flows from the receiver to the sender. The receiver can end up with a negative balance (`Ledger.NegativeAmountOverdrawsReceiver`). As a result, "no balance is ever negative" holds only under the hypothesis `amount >= 0` (`Ledger.TransferKeepsBalancesNonNegative`). Only the sender's balance is always kept non-negative.
- The listing is not scoped to the caller and is not ordered explicitly. The model returns records in log order.
- A refused transfer writes no record, with status `failed` or otherwise.

Two observations about the request schemas:

- Pydantic applies `Field(min_length=8)` before the field validator. So the `validate_password` validators never raise for requests that reach them (`ParseUserCreate` and `ParsePasswordChange` only ever fail with `StringTooShort`).
- For the same reason, the length check at auth/app/routes/auth.py:123 cannot fail for a request that passed schema validation. `ChangePassword` still models that check as written, because the handler is modelled on its own. `Auth.ChangePasswordRequest` composes the two and proves that the check never refuses a parsed body.

## Model

| member | source | states |
|---|---|---|
| `Models.NewUser` | common/models/user.py:13-17 | A new `users` row keeps the given id, username, hash and email. A balance that is not supplied becomes the column default, 1000. |
| `Models.NewTransaction` | common/models/transaction.py:15-20 | A new `transactions` row keeps the given ids and amount. A status that is not supplied becomes `"pending"`, and `created_at` is the insertion time. |
| `Models.FindById` | service/app/routes/transaction.py:45-46 | The lookup by id returns the position of a row with that id. It finds nothing exactly when no user has that id. |
| `Models.FindByUsername` | auth/app/routes/auth.py:33-36 | The lookup by username returns a row with that username. It finds nothing exactly when no row has that username. |
| `Models.FindByEmail` | auth/app/routes/auth.py:42-45 | The lookup by email returns a row with that email. It finds nothing exactly when no row has that email. |
| `Models.FindByIdUnique` | common/models/user.py:13 | Under the primary key, the lookup by the id of row `i` finds row `i` itself. |
| `Models.FindByUsernameUnique` | common/models/user.py:14 | Under unique usernames, the lookup by the username of row `i` finds row `i` itself. |
| `Paging.Page` | auth/app/routes/auth.py:154 | The slice has at most `limit` rows, and row `k` of the slice is row `skip + k` of the input. It is empty when `skip` is past the end. It is exactly `min(limit, rows - skip)` long otherwise. |
| `Paging.AdjacentPages` | service/app/routes/transaction.py:111 | The page at `skip` of size `a` followed by the page at `skip + a` of size `b` equals the page at `skip` of size `a + b`. Paging visits the rows in order without gaps or repeats. |
| `ServiceSchemas.ParseStatus` | service/app/schemas.py:10-16 | A status string reads back as a member exactly when it is one of the three members' values, and then it reads back as that member. |
| `ServiceSchemas.StatusRoundTrip` | service/app/schemas.py:14-16 | Each of `pending`, `completed` and `failed` reads back as itself. The enum has exactly three distinct values. |
| `ServiceSchemas.DefaultStatusIsPending` | common/models/transaction.py:19 | The column default of `status` is the enum's `pending`. |
| `ServiceSchemas.ToResponse` | service/app/schemas.py:25-34 | A row converts to a response exactly when its status is an enum value. The response carries the row's id, sender, receiver, amount, status and creation time. |
| `AuthSchemas.ValidatePassword` | auth/app/schemas.py:15-32 | The validator raises for a value shorter than 8. For a value of length 8 or more it returns the value unchanged. The validator at lines 71-88 is the same. |
| `AuthSchemas.CheckMinLength` | auth/app/schemas.py:13 | `Field(min_length=8)` rejects a value shorter than 8 and accepts any other value unchanged. It is the same constraint at lines 39 and 69. |
| `AuthSchemas.ParseUserCreate` | auth/app/schemas.py:7-32 | A registration body parses exactly when the password has at least 8 characters, and then it parses to the given fields. Any rejection comes from the length constraint. |
| `AuthSchemas.ParseUserLogin` | auth/app/schemas.py:34-39 | A login body parses exactly when the password has at least 8 characters. |
| `AuthSchemas.ParsePasswordChange` | auth/app/schemas.py:63-88 | A password-change body parses exactly when the new password has at least 8 characters. The old password is unconstrained. Any rejection comes from the length constraint. |
| `Auth.AuthenticatesMeans` | auth/app/routes/auth.py:83-87 | Under unique usernames, a credential check passes exactly when some user has that username and the password verifies against that user's hash. |
| `Auth.Login` | auth/app/routes/auth.py:82-94 | Login succeeds exactly when the credentials check. It then returns a token for that username with type `"bearer"`. Otherwise the error is the single bad-credentials (401) error. |
| `Auth.GetUser` | auth/app/routes/auth.py:175-182 | The lookup succeeds exactly when a user has that id, and it returns that user's public view. Otherwise it gives not found (404). |
| `Auth.GetAllUsers` | auth/app/routes/auth.py:154-157 | The listing has at most `limit` users, and entry `k` is the public view of user `skip + k` in table order. When `skip` is inside the table, the listing is the whole window: `min(limit, users - skip)` entries. |
| `Auth.InsertKeepsConstraints` | auth/app/routes/auth.py:33-61 | Suppose a user's username and email are both unused and its id is above every existing id. Then inserting it keeps ids, usernames and emails pairwise distinct. |
| `Auth.LoginAfterRegister` | auth/app/routes/auth.py:51-61 | Suppose a user is appended under an unused username with the hash of a password, and verification accepts a password against its own hash. Then login with that username and password succeeds. |
| `Auth.LoginAfterPasswordChange` | auth/app/routes/auth.py:130-132 | Suppose one user's hash is replaced by the hash of a new password, under the same hypothesis. Then that user logs in with the new password. |
| `Auth.PasswordChangeLeavesOthersLogin` | auth/app/routes/auth.py:130-132 | Replacing one user's hash does not change the login outcome for any other username. |
| `Auth.UserStore.Register` | auth/app/routes/auth.py:17-64 | A taken username is refused first, then a taken email. A refusal changes nothing. Otherwise exactly one user is appended with the next id, the password's hash and balance 1000, and its public view is returned. Uniqueness of ids, usernames and emails is preserved. |
| `Auth.UserStore.ChangePassword` | auth/app/routes/auth.py:96-135 | An unknown user or a wrong old password is refused first, then a new password shorter than 8 (length 8 is accepted). A refusal changes nothing. Otherwise only that user's hash is replaced, by the hash of the new password. |
| `Auth.ChangePasswordRequest` | auth/app/schemas.py:63-88 | A password-change body is refused by schema validation exactly when the new password is shorter than 8. A refused body changes nothing. Otherwise the handler (auth/app/routes/auth.py:96-135) answers. It refuses bad credentials and leaves the table unchanged, or it replaces only that user's hash by the hash of the new password and returns the user's public view. It never answers with the new-password-too-short error, and the table's constraints and id counter are kept. |
| `Auth.RegistrationScenario` | auth/app/routes/auth.py:20-94 | In an empty store, registering `alice` gives user 1 with balance 1000, logging in with her password gives her bearer token, and registering the name again is refused as taken. |
| `Ledger.CreditTotal` | service/app/routes/transaction.py:67-72 | Adding `delta` to one account's balance changes the sum of all balances by exactly `delta`. |
| `Ledger.Transfer` | service/app/routes/transaction.py:64-72 | The table after the debit and the credit has the same number of rows, and the sender and the receiver are still present. |
| `Ledger.TransferEffect` | service/app/routes/transaction.py:64-72 | The sender's balance drops by the amount and the receiver's rises by it. No other column changes, every other row is unchanged, and ids stay unique. |
| `Ledger.TransferConservesTotal` | service/app/routes/transaction.py:67-72 | A transfer leaves the sum of all balances unchanged. |
| `Ledger.SenderStaysNonNegative` | service/app/routes/transaction.py:52-67 | When the funds check at line 52 passes, the sender's new balance is not negative, whatever the amount. |
| `Ledger.TransferKeepsBalancesNonNegative` | service/app/routes/transaction.py:52-72 | Suppose all balances are non-negative, the amount is non-negative, and the funds check passes. Then all balances are still non-negative after the transfer. |
| `Ledger.NegativeAmountReversesTransfer` | service/app/routes/transaction.py:52-72 | A negative amount passes the funds check whenever the sender's balance is not negative. The sender then gains money and the receiver loses it. |
| `Ledger.NegativeAmountOverdrawsReceiver` | service/app/schemas.py:22-23 | With no sign constraint on `amount`, a sender with balance 0 can take 500 from a receiver with balance 100. That leaves the receiver at -400. |
| `Ledger.CompletedRecordResponds` | service/app/routes/transaction.py:57-62 | A record written with status `completed` is reported with the enum member `Completed` and its own fields. |
| `Ledger.AppendKeepsReferences` | common/models/transaction.py:16-17 | Appending a record whose sender and receiver exist keeps every record's sender and receiver pointing at existing users. |
| `Ledger.AppendKeepsLogKeys` | common/models/transaction.py:15 | Appending a record with the next id keeps transaction ids unique and below the next id. |
| `Ledger.TransferKeepsReferences` | common/models/transaction.py:16-17 | A transfer keeps every account id, so every record's sender and receiver still exist. |
| `Ledger.Ledger.CreateTransaction` | service/app/routes/transaction.py:19-82 | A self-transfer is refused first, then an unknown receiver, then a sender balance below the amount. A refusal leaves balances, log and id counter unchanged. Otherwise the balances become those of the transfer and exactly one record is appended, holding the next id, caller, receiver, amount, status `completed` and time `now`. Keys and foreign keys stay valid. |
| `Ledger.TransferScenario` | service/app/routes/transaction.py:19-82 | With two accounts of 1000 each, a transfer of 300 succeeds with a `completed` record with id 1. A following transfer of 800 is refused for insufficient funds, and the balances stay 700 and 1300. |
| `TransactionQuery.StartOfDay` | service/app/routes/transaction.py:116-118 | The start bound lies on the same day as the given time, no later than it. It is no later than any time on that day. |
| `TransactionQuery.EndOfDay` | service/app/routes/transaction.py:120-122 | The end bound lies on the same day as the given time, no earlier than it. It is no earlier than any time on that day. |
| `TransactionQuery.StartBoundByDay` | service/app/routes/transaction.py:117-118 | A time is at or after the start bound exactly when its day is not before the bound's day. |
| `TransactionQuery.EndBoundByDay` | service/app/routes/transaction.py:121-122 | A time is at or before the end bound exactly when its day is not after the bound's day. |
| `TransactionQuery.MatchesByDay` | service/app/routes/transaction.py:113-122 | A record matches exactly when its status equals a given non-empty status and its day lies between the given bounds' days. Both bounds are inclusive. |
| `TransactionQuery.Filter` | service/app/routes/transaction.py:113-122 | Every filtered record is in the log and matches, and every matching log record is kept. |
| `TransactionQuery.FilterAppend` | service/app/routes/transaction.py:124-125 | Filtering a concatenation gives the concatenation of the filtered parts, so log order is kept. |
| `TransactionQuery.AppendedRecordListedLast` | service/app/routes/transaction.py:111-125 | A record appended to the log is listed after every earlier matching record, and only if it matches. |
| `TransactionQuery.GetTransactions` | service/app/routes/transaction.py:84-128 | The result has at most `limit` records. Each is a matching log record, and entry `k` is entry `skip + k` of the filtered log. When `skip` is inside the filtered log, the result is the whole window: `min(limit, filtered - skip)` records. |
| `TransactionQuery.OneDayListing` | service/app/routes/transaction.py:113-122 | Suppose the listing asks for one non-empty status with the same start and end date. Then every record listed has that status and was created on that date's day. |
| `TransactionQuery.UnfilteredKeepsLog` | service/app/routes/transaction.py:111-122 | With no status and no dates given, no WHERE clause is added and every log record is kept, in order. |
| `TransactionQuery.DefaultListing` | service/app/routes/transaction.py:86-90 | With every parameter at its default (skip 0, limit 10, no filters), the listing is the first ten records of the log, or all of them when there are fewer. |

## Left out

- Concurrency: the asynchronous sessions are not modelled, and neither is the lost-update race between the funds check at service/app/routes/transaction.py:52 and the writes at lines 67 and 72. Each request is one atomic step, so the model shows the intended sequential behaviour.
- A unique-constraint violation at commit from two concurrent registrations is not modelled, for the same reason.
- Token decoding and the caller lookup: `get_current_user` (service/app/utils.py) is not part of this model. `CreateTransaction` takes the caller as an id that exists.
- bcrypt and JWT (auth/app/utils.py) are not part of this model. `hash_password`, `verify_password` and `create_access_token` are arbitrary functions passed in. bcrypt's random salt is not modelled (the hash is a fixed function of the password), and neither are the token's signature or expiry.
- HTTP status codes become error values; the code for each is noted next to the error datatypes. Log messages, `commit` and `refresh` are not modelled.
- Negative `skip` or `limit` values are passed unchecked to the database engine, whose behaviour is not part of this model. Both parameters are `nat`.
- Email syntax (`EmailStr`) is not checked, and emails are compared as given. `EmailStr` normalises an address (it lower-cases the domain and drops a display name) before `register` looks it up (auth/app/routes/auth.py:42-45). So `a@X.com` and `a@x.com` collide in the code but are distinct in the model.
- Date arguments are read as UTC epoch seconds. `datetime.combine(start_date, time.min)` (service/app/routes/transaction.py:117) and `datetime.combine(end_date, time.max)` (line 121) keep the argument's own calendar date, and any time-zone offset is dropped. The model's `Day(d)` is the UTC day of `d`, so for an argument with a non-zero offset such as `2024-01-02T01:00+05:00` the model filters from 2024-01-01 while the code filters from 2024-01-02.
- Columns that the schema leaves nullable (username, email, hash, balance, status, created_at) always hold a value in the model, because every write in the core sets them.
- Decimal precision, NaN and infinities are not modelled; amounts and balances are exact reals.
- `scalar_one_or_none` raising on several matches is not modelled. The uniqueness invariants of both classes rule that case out.
- Both services use one database, but here each class holds only the tables its service touches. A user registered through `UserStore` does not appear in a `Ledger`, which is built from an initial accounts table.
- `TransactionFilter` (service/app/schemas.py:42-48) is declared but not used by any route. It is only a datatype with three optional fields.
- Application wiring, configuration, logging, the declarative base and the schema migration have no behaviour to model.
