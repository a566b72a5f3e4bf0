/** Request and response shapes of the ledger service. */
module ServiceSchemas {
  import opened Results
  import opened Models

  /** The three statuses a transaction can be reported with. */
  datatype TransactionStatus = Pending | Completed | Failed

  /** The string each member stands for: the enum is a `str` enum and the column stores that string. */
  function StatusValue(s: TransactionStatus): string {
    match s
    case Pending => "pending"
    case Completed => "completed"
    case Failed => "failed"
  }

  /** Reads a stored status string back as a member of the enum, as the response model does. */
  function ParseStatus(v: string): (r: Option<TransactionStatus>)
    ensures r.Some? ==> StatusValue(r.value) == v
    ensures r.None? ==> forall s: TransactionStatus :: StatusValue(s) != v
  {
    if v == "pending" then Some(Pending)
    else if v == "completed" then Some(Completed)
    else if v == "failed" then Some(Failed)
    else None
  }

  /** Every member is read back as itself, so the enum has exactly three distinct values. */
  lemma StatusRoundTrip(s: TransactionStatus)
    ensures ParseStatus(StatusValue(s)) == Some(s)
  {
  }

  /** The column default of `transactions.status` is the enum's `pending`. */
  lemma DefaultStatusIsPending()
    ensures ParseStatus(DefaultStatus) == Some(Pending)
  {
  }

  /** Body of a transfer request: the receiver and an amount with no sign or range constraint. */
  datatype TransactionCreate = TransactionCreate(receiverId: int, amount: real)

  /** What the service returns for a transaction. */
  datatype TransactionResponse = TransactionResponse(
    id: int, senderId: int, receiverId: int, amount: real, status: TransactionStatus, createdAt: int)

  /** Converts a stored row to its response; only a row whose status is an enum value converts. */
  function ToResponse(t: Transaction): (r: Option<TransactionResponse>)
    ensures r.Some? <==> ParseStatus(t.status).Some?
    ensures r.Some? ==>
      && r.value.id == t.id && r.value.senderId == t.senderId
      && r.value.receiverId == t.receiverId && r.value.amount == t.amount
      && StatusValue(r.value.status) == t.status && r.value.createdAt == t.createdAt
  {
    match ParseStatus(t.status)
    case None => None
    case Some(s) => Some(TransactionResponse(t.id, t.senderId, t.receiverId, t.amount, s, t.createdAt))
  }

  /** Filter fields of a transaction listing; each of them may be left out. */
  datatype TransactionFilter = TransactionFilter(
    startDate: Option<int>, endDate: Option<int>, status: Option<TransactionStatus>)
}
