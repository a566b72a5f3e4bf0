/**
 * The transfer ledger of the ledger service: the accounts' balances and the
 * append-only log of transactions, changed only by `CreateTransaction`.
 * Each request runs as one atomic step.
 */
module Ledger {
  import opened Results
  import opened Models
  import opened ServiceSchemas

  /** Why a transfer is refused: 400 for the first and last, 404 for the second. */
  datatype TransferError = SelfTransfer | ReceiverNotFound | InsufficientFunds

  /** The money in the system: the sum of all balances. */
  function TotalBalance(users: seq<User>): real {
    if users == [] then 0.0 else users[0].balance + TotalBalance(users[1..])
  }

  /** The table with `delta` added to the balance of the row at position `i`. */
  function Credit(users: seq<User>, i: nat, delta: real): seq<User>
    requires i < |users|
  {
    users[i := users[i].(balance := users[i].balance + delta)]
  }

  /** Crediting one row changes the total by exactly the amount credited. */
  lemma {:induction false} CreditTotal(users: seq<User>, i: nat, delta: real)
    requires i < |users|
    ensures TotalBalance(Credit(users, i, delta)) == TotalBalance(users) + delta
  {
    if i == 0 {
      assert Credit(users, i, delta)[1..] == users[1..];
    } else {
      CreditTotal(users[1..], i - 1, delta);
      assert Credit(users, i, delta)[1..] == Credit(users[1..], i - 1, delta);
    }
  }

  /** Balance of the account with id `id`. */
  function BalanceOf(users: seq<User>, id: int): real
    requires HasUser(users, id)
  {
    users[FindById(users, id).value].balance
  }

  predicate NonNegativeBalances(users: seq<User>) {
    forall i :: 0 <= i < |users| ==> users[i].balance >= 0.0
  }

  /** The debit of `from` and the credit of `to` by `amount`. */
  function Transfer(users: seq<User>, from: int, to: int, amount: real): (r: seq<User>)
    requires HasUser(users, from) && HasUser(users, to)
    ensures |r| == |users| && HasUser(r, from) && HasUser(r, to)
  {
    var s, t := FindById(users, from).value, FindById(users, to).value;
    var r := Credit(Credit(users, s, -amount), t, amount);
    assert r[s].id == from && r[t].id == to;
    r
  }

  /**
   * What a transfer does to the accounts: the sender loses `amount`, the
   * receiver gains it, no column but a balance changes, and every other row
   * stays exactly as it was.
   */
  lemma TransferEffect(users: seq<User>, from: int, to: int, amount: real)
    requires UniqueIds(users) && HasUser(users, from) && HasUser(users, to) && from != to
    ensures var r := Transfer(users, from, to, amount);
      && |r| == |users|
      && (forall i :: 0 <= i < |users| ==> r[i].(balance := users[i].balance) == users[i])
      && UniqueIds(r) && HasUser(r, from) && HasUser(r, to)
      && BalanceOf(r, from) == BalanceOf(users, from) - amount
      && BalanceOf(r, to) == BalanceOf(users, to) + amount
      && forall i :: 0 <= i < |users| && users[i].id != from && users[i].id != to ==> r[i] == users[i]
  {
    var r := Transfer(users, from, to, amount);
    var s, t := FindById(users, from).value, FindById(users, to).value;
    assert forall i :: 0 <= i < |users| ==> r[i].id == users[i].id;
    FindByIdUnique(r, s);
    FindByIdUnique(r, t);
  }

  /** Conservation of money: a transfer leaves the sum of all balances unchanged. */
  lemma TransferConservesTotal(users: seq<User>, from: int, to: int, amount: real)
    requires UniqueIds(users) && HasUser(users, from) && HasUser(users, to) && from != to
    ensures TotalBalance(Transfer(users, from, to, amount)) == TotalBalance(users)
  {
    var s, t := FindById(users, from).value, FindById(users, to).value;
    var debited := Credit(users, s, -amount);
    var credited := Credit(debited, t, amount);
    CreditTotal(users, s, -amount);
    CreditTotal(debited, t, amount);
    assert TotalBalance(credited) == TotalBalance(users);
    assert Transfer(users, from, to, amount) == credited;
  }

  /** The funds check leaves the sender with a non-negative balance, whatever the amount. */
  lemma SenderStaysNonNegative(users: seq<User>, from: int, to: int, amount: real)
    requires UniqueIds(users) && HasUser(users, from) && HasUser(users, to) && from != to
    requires !(BalanceOf(users, from) < amount)
    ensures BalanceOf(Transfer(users, from, to, amount), from) >= 0.0
  {
    TransferEffect(users, from, to, amount);
  }

  /**
   * With a non-negative amount that passes the funds check, a transfer keeps
   * every balance non-negative. The amount's sign is a hypothesis here: the
   * request schema does not enforce it.
   */
  lemma TransferKeepsBalancesNonNegative(users: seq<User>, from: int, to: int, amount: real)
    requires UniqueIds(users) && HasUser(users, from) && HasUser(users, to) && from != to
    requires NonNegativeBalances(users) && amount >= 0.0 && !(BalanceOf(users, from) < amount)
    ensures NonNegativeBalances(Transfer(users, from, to, amount))
  {
    var r := Transfer(users, from, to, amount);
    TransferEffect(users, from, to, amount);
    forall i | 0 <= i < |r| ensures r[i].balance >= 0.0 {
      if users[i].id == from {
        FindByIdUnique(r, i);
      } else if users[i].id == to {
        FindByIdUnique(r, i);
        FindByIdUnique(users, i);
      }
    }
  }

  /**
   * Nothing rejects a negative amount: when the sender's balance is not
   * negative it passes the funds check, and money moves from the receiver to
   * the sender.
   */
  lemma NegativeAmountReversesTransfer(users: seq<User>, from: int, to: int, amount: real)
    requires UniqueIds(users) && HasUser(users, from) && HasUser(users, to) && from != to
    requires amount < 0.0 && BalanceOf(users, from) >= 0.0
    ensures !(BalanceOf(users, from) < amount)
    ensures BalanceOf(Transfer(users, from, to, amount), from) > BalanceOf(users, from)
    ensures BalanceOf(Transfer(users, from, to, amount), to) < BalanceOf(users, to)
  {
    TransferEffect(users, from, to, amount);
  }

  /** A concrete case: an empty account takes 500 from one holding 100, leaving it at -400. */
  lemma NegativeAmountOverdrawsReceiver()
    ensures var users := [User(1, "alice", "h1", "alice@example.com", 0.0),
                          User(2, "bob", "h2", "bob@example.com", 100.0)];
            && UniqueIds(users) && HasUser(users, 1) && HasUser(users, 2)
            && !(BalanceOf(users, 1) < -500.0)
            && BalanceOf(Transfer(users, 1, 2, -500.0), 2) == -400.0
  {
    var users := [User(1, "alice", "h1", "alice@example.com", 0.0),
                  User(2, "bob", "h2", "bob@example.com", 100.0)];
    FindByIdUnique(users, 0);
    FindByIdUnique(users, 1);
    TransferEffect(users, 1, 2, -500.0);
  }

  /** The accounts and the transaction log the transfer endpoint works on. */
  class Ledger {
    var users: seq<User>
    var log: seq<Transaction>
    /** The id the database assigns to the next inserted transaction. */
    var nextTxId: int

    ghost predicate Valid()
      reads this
    {
      && UniqueIds(users)
      && UniqueTxIds(log)
      && ReferencesUsers(log, users)
      && forall k :: 0 <= k < |log| ==> log[k].id < nextTxId
    }

    constructor (accounts: seq<User>)
      requires UniqueIds(accounts)
      ensures Valid() && users == accounts && log == [] && nextTxId == 1
    {
      users := accounts;
      log := [];
      nextTxId := 1;
    }

    /**
     * A transfer of `req.amount` from the authenticated `caller` to
     * `req.receiverId` at time `now`. The three checks run in order and the
     * first failure wins; a refused request changes nothing. Otherwise both
     * balances move and one completed record is appended.
     */
    method CreateTransaction(caller: int, req: TransactionCreate, now: int) returns (r: Result<Transaction, TransferError>)
      requires Valid() && HasUser(users, caller)
      modifies this
      ensures Valid()
      ensures caller == req.receiverId ==> r == Err(SelfTransfer)
      ensures caller != req.receiverId && !HasUser(old(users), req.receiverId) ==> r == Err(ReceiverNotFound)
      ensures (&& caller != req.receiverId && HasUser(old(users), req.receiverId)
               && BalanceOf(old(users), caller) < req.amount) ==> r == Err(InsufficientFunds)
      ensures r.Err? ==> users == old(users) && log == old(log) && nextTxId == old(nextTxId)
      ensures (&& caller != req.receiverId && HasUser(old(users), req.receiverId)
               && !(BalanceOf(old(users), caller) < req.amount)) ==>
                && r == Ok(NewTransaction(old(nextTxId), caller, req.receiverId, req.amount, Some(StatusValue(Completed)), now))
                && users == Transfer(old(users), caller, req.receiverId, req.amount)
                && log == old(log) + [r.value]
                && nextTxId == old(nextTxId) + 1
      ensures r.Ok? ==> ToResponse(r.value) == Some(TransactionResponse(old(nextTxId), caller, req.receiverId, req.amount, Completed, now))
    {
      if caller == req.receiverId {
        return Err(SelfTransfer);
      }
      var receiver := FindById(users, req.receiverId);
      if receiver.None? {
        return Err(ReceiverNotFound);
      }
      var sender := FindById(users, caller).value;
      if users[sender].balance < req.amount {
        return Err(InsufficientFunds);
      }
      var tx := NewTransaction(nextTxId, caller, req.receiverId, req.amount, Some(StatusValue(Completed)), now);
      ghost var before := users;
      users := Credit(users, sender, -req.amount);
      users := Credit(users, receiver.value, req.amount);
      assert users == Transfer(before, caller, req.receiverId, req.amount);
      TransferEffect(before, caller, req.receiverId, req.amount);
      TransferKeepsReferences(log, before, caller, req.receiverId, req.amount);
      AppendKeepsReferences(log, users, tx);
      AppendKeepsLogKeys(log, tx, nextTxId);
      CompletedRecordResponds(tx);
      log := log + [tx];
      nextTxId := nextTxId + 1;
      r := Ok(tx);
    }
  }

  /** A transfer keeps every account id, so the log's foreign keys still resolve. */
  lemma TransferKeepsReferences(log: seq<Transaction>, users: seq<User>, from: int, to: int, amount: real)
    requires UniqueIds(users) && HasUser(users, from) && HasUser(users, to) && from != to
    requires ReferencesUsers(log, users)
    ensures ReferencesUsers(log, Transfer(users, from, to, amount))
  {
    var r := Transfer(users, from, to, amount);
    TransferEffect(users, from, to, amount);
    forall k | 0 <= k < |log| ensures HasUser(r, log[k].senderId) && HasUser(r, log[k].receiverId) {
      var i :| 0 <= i < |users| && users[i].id == log[k].senderId;
      var j :| 0 <= j < |users| && users[j].id == log[k].receiverId;
      assert r[i].id == log[k].senderId && r[j].id == log[k].receiverId;
    }
  }

  /** A record the transfer writes is reported with status `Completed`. */
  lemma CompletedRecordResponds(tx: Transaction)
    requires tx.status == StatusValue(Completed)
    ensures ToResponse(tx) == Some(TransactionResponse(tx.id, tx.senderId, tx.receiverId, tx.amount, Completed, tx.createdAt))
  {
    StatusRoundTrip(Completed);
  }

  /** A record between two existing accounts keeps the log's foreign keys resolving. */
  lemma AppendKeepsReferences(log: seq<Transaction>, users: seq<User>, tx: Transaction)
    requires ReferencesUsers(log, users) && HasUser(users, tx.senderId) && HasUser(users, tx.receiverId)
    ensures ReferencesUsers(log + [tx], users)
  {
    forall k | 0 <= k < |log + [tx]|
      ensures HasUser(users, (log + [tx])[k].senderId) && HasUser(users, (log + [tx])[k].receiverId)
    {
      if k < |log| {
        assert (log + [tx])[k] == log[k];
      }
    }
  }

  /** A record with a fresh id keeps the log's primary key unique. */
  lemma AppendKeepsLogKeys(log: seq<Transaction>, tx: Transaction, nextTxId: int)
    requires UniqueTxIds(log) && forall k :: 0 <= k < |log| ==> log[k].id < nextTxId
    requires tx.id == nextTxId
    ensures UniqueTxIds(log + [tx]) && forall k :: 0 <= k < |log + [tx]| ==> (log + [tx])[k].id < nextTxId + 1
  {
  }

  /** Two accounts with 1000 each: a transfer of 300 succeeds, a following one of 800 is refused. */
  method TransferScenario() returns (first: Result<Transaction, TransferError>, second: Result<Transaction, TransferError>, balances: seq<real>)
    ensures first.Ok? && first.value.id == 1 && first.value.status == "completed" && first.value.amount == 300.0
    ensures second == Err(InsufficientFunds)
    ensures balances == [700.0, 1300.0]
  {
    var alice := User(1, "alice", "h1", "alice@example.com", 1000.0);
    var bob := User(2, "bob", "h2", "bob@example.com", 1000.0);
    FindByIdUnique([alice, bob], 0);
    FindByIdUnique([alice, bob], 1);
    var ledger := new Ledger([alice, bob]);
    first := ledger.CreateTransaction(1, TransactionCreate(2, 300.0), 0);
    var after := ledger.users;
    TransferEffect([alice, bob], 1, 2, 300.0);
    assert BalanceOf(after, 1) == 700.0 && BalanceOf(after, 2) == 1300.0;
    second := ledger.CreateTransaction(1, TransactionCreate(2, 800.0), 60);
    balances := [ledger.users[0].balance, ledger.users[1].balance];
  }
}
