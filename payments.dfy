/** The payments, wallets and wallet transactions of `models/Payment.js`.

    A payment is created pending, is processed once to completed or failed,
    and a completed payment can be refunded.  Completing moves the amount
    from the payer's wallet to the payee's and refunding moves it back;
    wallets are created at balance 0 the first time they are touched, and
    every move appends one wallet transaction.  Amounts are exact reals;
    the random outcome of processing and the uuid behind a transaction id
    are parameters. */
module Payments {
  import opened Common
  import opened Schema
  import opened Queries
  import Text
  import Users

  datatype Payment = Payment(
    id: nat,
    transactionId: string,
    projectId: Option<int>,
    payerId: int,
    payeeId: int,
    amount: real,
    currency: string,
    description: Option<string>,
    status: PaymentStatus,
    paymentMethod: Option<string>,
    processedAt: Option<Time>,
    refundReason: Option<string>,
    refundedAt: Option<Time>,
    createdAt: Time,
    updatedAt: Time)

  datatype Wallet = Wallet(id: nat, userId: int, balance: real, currency: string, createdAt: Time, updatedAt: Time)

  datatype WalletTx = WalletTx(id: nat, walletId: nat, txType: TxType, amount: real, description: Option<string>,
                               createdAt: Time)

  /** `ORDER BY created_at DESC`. */
  function PaymentsNewestFirst(p: Payment): seq<Term> {
    [Desc(Int(p.createdAt))]
  }

  function TxNewestFirst(t: WalletTx): seq<Term> {
    [Desc(Int(t.createdAt))]
  }

  /** `uuid.substring(0, 8)`. */
  function Prefix(s: string, n: nat): (r: string)
    ensures |r| == if |s| < n then |s| else n
    ensures r == s[..|r|]
  {
    if |s| < n then s else s[..n]
  }

  /** `PAY-` followed by the first eight characters of the uuid, upper-cased. */
  function TransactionId(uuid: string): (r: string)
    ensures 4 <= |r| <= 12 && r[..4] == "PAY-"
  {
    "PAY-" + Text.ToUpper(Prefix(uuid, 8))
  }

  /** A wallet's balance, 0 for a user who has none yet. */
  function Bal(ws: map<int, Wallet>, u: int): real {
    if u in ws then ws[u].balance else 0.0
  }

  /** What settling `p` does to user `u`'s balance: the payee gains the
      amount and the payer loses it (nothing, when they are the same user). */
  function Delta(p: Payment, u: int): real {
    Moved(p.payerId, p.payeeId, p.amount, u)
  }

  /** What moving `amount` from user `from` to user `to` does to user `u`. */
  function Moved(from: int, to: int, amount: real, u: int): real {
    (if u == to then amount else 0.0) - (if u == from then amount else 0.0)
  }

  /** Two single-wallet balance changes, `da` to `a` then `db` to `b`,
      add up to `Moved` from the debited user to the credited one. */
  lemma TwoSteps(w0: map<int, Wallet>, w1: map<int, Wallet>, w2: map<int, Wallet>,
                 a: int, da: real, b: int, db: real)
    requires Bal(w1, a) == Bal(w0, a) + da && forall u :: u != a ==> Bal(w1, u) == Bal(w0, u)
    requires Bal(w2, b) == Bal(w1, b) + db && forall u :: u != b ==> Bal(w2, u) == Bal(w1, u)
    ensures forall u :: Bal(w2, u) == Bal(w0, u) + (if u == a then da else 0.0) + (if u == b then db else 0.0)
  {
    forall u ensures Bal(w2, u) == Bal(w0, u) + (if u == a then da else 0.0) + (if u == b then db else 0.0) {
      if u == b { assert Bal(w2, u) == Bal(w1, u) + db; }
    }
  }

  /** The money the users `us` hold together. */
  function SumBal(ws: map<int, Wallet>, us: seq<int>): real {
    if us == [] then 0.0 else Bal(ws, us[0]) + SumBal(ws, us[1..])
  }

  function SumMoved(from: int, to: int, amount: real, us: seq<int>): real {
    if us == [] then 0.0 else Moved(from, to, amount, us[0]) + SumMoved(from, to, amount, us[1..])
  }

  predicate Distinct(us: seq<int>) {
    forall i, j :: 0 <= i < j < |us| ==> us[i] != us[j]
  }

  lemma {:induction false} SumBalShift(before: map<int, Wallet>, after: map<int, Wallet>, from: int, to: int,
                                       amount: real, us: seq<int>)
    requires forall u :: Bal(after, u) == Bal(before, u) + Moved(from, to, amount, u)
    ensures SumBal(after, us) == SumBal(before, us) + SumMoved(from, to, amount, us)
  {
    if us != [] {
      SumBalShift(before, after, from, to, amount, us[1..]);
    }
  }

  /** Over distinct users, a move adds the amount once if the receiver is
      among them and takes it once if the sender is. */
  lemma {:induction false} SumMovedValue(from: int, to: int, amount: real, us: seq<int>)
    requires Distinct(us)
    ensures SumMoved(from, to, amount, us) == (if to in us then amount else 0.0) - (if from in us then amount else 0.0)
  {
    if us != [] {
      assert Distinct(us[1..]) by {
        forall i, j | 0 <= i < j < |us| - 1 ensures us[1..][i] != us[1..][j] {
          assert us[1..][i] == us[i + 1] && us[1..][j] == us[j + 1];
        }
      }
      SumMovedValue(from, to, amount, us[1..]);
      assert us[0] !in us[1..] by {
        forall i | 0 <= i < |us| - 1 ensures us[1..][i] != us[0] {
          assert us[1..][i] == us[i + 1];
        }
      }
      assert forall x :: x in us <==> x == us[0] || x in us[1..] by {
        assert us == [us[0]] + us[1..];
      }
    }
  }

  /** Moving an amount between two users leaves the money held by any
      group of distinct users that includes both of them unchanged. */
  lemma MoveConserves(before: map<int, Wallet>, after: map<int, Wallet>, from: int, to: int, amount: real,
                      us: seq<int>)
    requires forall u :: Bal(after, u) == Bal(before, u) + Moved(from, to, amount, u)
    requires Distinct(us) && from in us && to in us
    ensures SumBal(after, us) == SumBal(before, us)
  {
    SumBalShift(before, after, from, to, amount, us);
    SumMovedValue(from, to, amount, us);
  }

  /** Outcomes of `processPayment` and `refundPayment` on a payment they found. */
  datatype ProcessResult =
    | AlreadyProcessed
    | Processed(success: bool, status: PaymentStatus, transactionId: string)

  function ProcessMessage(r: ProcessResult): string {
    match r
    case AlreadyProcessed => "Payment already processed"
    case Processed(success, _, _) => if success then "Payment processed successfully" else "Payment failed - please try again"
  }

  datatype RefundResult = NotRefundable | Refunded(transactionId: string)

  function RefundMessage(r: RefundResult): string {
    match r
    case NotRefundable => "Only completed payments can be refunded"
    case Refunded(_) => "Payment refunded successfully"
  }

  datatype PaymentStats = PaymentStats(totalPaid: real, totalReceived: real, paymentsMade: nat,
                                       paymentsReceived: nat, pendingPayments: nat)

  function SumAmounts(ps: seq<Payment>): real {
    if ps == [] then 0.0 else ps[0].amount + SumAmounts(ps[1..])
  }

  /** The inner `JOIN users` of the payment lookups drops payments whose
      payer or payee is gone. */
  predicate Visible(accounts: map<nat, Users.User>, p: Payment) {
    Users.Present(accounts, p.payerId) && Users.Present(accounts, p.payeeId)
  }

  /** The `findByUserId` filter. */
  predicate OfUser(p: Payment, userId: int, role: string, status: Option<string>) {
    (if role == "payer" then p.payerId == userId
     else if role == "payee" then p.payeeId == userId
     else p.payerId == userId || p.payeeId == userId)
    && (!Truthy(status) || PaymentStatusName(p.status) == status.value)
  }

  /** The `findByUserId` query's rows. */
  function UserFilter(accounts: map<nat, Users.User>, userId: int, role: string, status: Option<string>)
    : Payment -> bool {
    (p: Payment) => Visible(accounts, p) && OfUser(p, userId, role, status)
  }

  /** The `findByProjectId` query's rows. */
  function ProjectFilter(accounts: map<nat, Users.User>, projectId: int): Payment -> bool {
    (p: Payment) => p.projectId == Some(projectId) && Visible(accounts, p)
  }

  /** `WHERE wt.wallet_id = w.id`. */
  function OfWallet(walletId: nat): WalletTx -> bool {
    (t: WalletTx) => t.walletId == walletId
  }

  /** The completed payments a user made. */
  function MadeBy(userId: int): Payment -> bool {
    (p: Payment) => p.payerId == userId && p.status == PaymentCompleted
  }

  /** The completed payments a user received. */
  function ReceivedBy(userId: int): Payment -> bool {
    (p: Payment) => p.payeeId == userId && p.status == PaymentCompleted
  }

  /** The pending payments on either side of a user. */
  function PendingFor(userId: int): Payment -> bool {
    (p: Payment) => (p.payerId == userId || p.payeeId == userId) && p.status == PaymentPending
  }

  /** Positive amounts add up to a positive sum exactly when there is at
      least one of them. */
  lemma {:induction false} SumAmountsPositive(ps: seq<Payment>)
    requires forall p :: p in ps ==> p.amount > 0.0
    ensures SumAmounts(ps) >= 0.0
    ensures SumAmounts(ps) > 0.0 <==> ps != []
  {
    if ps != [] {
      assert ps[0] in ps;
      assert forall p :: p in ps[1..] ==> p in ps;
      SumAmountsPositive(ps[1..]);
    }
  }

  /** What a credit or a debit of `amount` does to a balance. */
  function Signed(t: TxType, amount: real): real {
    if t == Credit then amount else -amount
  }

  /** The description `updateWalletBalance` gives a transaction. */
  function TxDescription(t: TxType): string {
    if t == Credit then "Payment received" else "Payment sent"
  }

  /** The two wallet transactions of a move: the credit and the debit, in
      the order they are recorded, with consecutive ids from `firstId`. */
  function MoveRecords(creditWallet: nat, debitWallet: nat, amount: real, creditFirst: bool, firstId: nat, now: Time)
    : (r: seq<WalletTx>)
    ensures |r| == 2 && r[0].id == firstId && r[1].id == firstId + 1
    ensures multiset{r[0].txType, r[1].txType} == multiset{Credit, Debit}
    ensures forall t :: t in r ==> t.amount == amount && t.createdAt == now
    ensures forall t :: t in r ==> (t.txType == Credit <==> t.walletId == creditWallet && t.description == Some("Payment received"))
                                   || creditWallet == debitWallet
  {
    if creditFirst then
      [WalletTx(firstId, creditWallet, Credit, amount, Some("Payment received"), now),
       WalletTx(firstId + 1, debitWallet, Debit, amount, Some("Payment sent"), now)]
    else
      [WalletTx(firstId, debitWallet, Debit, amount, Some("Payment sent"), now),
       WalletTx(firstId + 1, creditWallet, Credit, amount, Some("Payment received"), now)]
  }

  /** The keys of the `wallets` table: one wallet per user (`user_id` is
      UNIQUE), each with its own rowid below the next one. */
  ghost predicate WalletsKeyed(ws: map<int, Wallet>, next: nat) {
    (forall u :: u in ws ==> ws[u].userId == u && 1 <= ws[u].id < next)
    && (forall u, v :: u in ws && v in ws && u != v ==> ws[u].id != ws[v].id)
  }

  /** Storing a user's wallet, either under its old rowid or under the
      next one, keeps the keys. */
  lemma WalletStored(ws: map<int, Wallet>, next: nat, w: Wallet)
    requires WalletsKeyed(ws, next) && next >= 1
    requires w.userId in ws ==> w.id == ws[w.userId].id
    requires w.userId !in ws ==> w.id == next
    ensures WalletsKeyed(ws[w.userId := w], if w.userId in ws then next else next + 1)
  {
  }

  /** The `payments`, `wallets` and `wallet_transactions` tables. */
  class PaymentStore {
    var payments: map<nat, Payment>
    var nextPaymentId: nat
    /** wallets by owner: `user_id` is UNIQUE */
    var wallets: map<int, Wallet>
    var nextWalletId: nat
    var txs: seq<WalletTx>
    var nextTxId: nat

    ghost predicate Valid()
      reads this
    {
      nextPaymentId >= 1 && nextWalletId >= 1 && nextTxId >= 1
      && (forall id :: id in payments ==> payments[id].id == id && 1 <= id < nextPaymentId)
      && (forall a, b :: a in payments && b in payments && a != b ==>
            payments[a].transactionId != payments[b].transactionId)
      && WalletsKeyed(wallets, nextWalletId)
      && (forall i :: 0 <= i < |txs| ==> txs[i].id < nextTxId)
    }

    constructor ()
      ensures Valid() && payments == map[] && wallets == map[] && txs == []
    {
      payments := map[];
      nextPaymentId := 1;
      wallets := map[];
      nextWalletId := 1;
      txs := [];
      nextTxId := 1;
    }

    predicate TransactionIdTaken(t: string)
      reads this
    {
      exists id :: id in payments && payments[id].transactionId == t
    }

    /** `Payment.create`: one pending payment under a fresh transaction id
        made from `uuid`; the currency defaults to USD.  A transaction id
        already in use fails the UNIQUE key and nothing is stored. */
    method Create(projectId: Option<int>, payerId: int, payeeId: int, amount: real, currency: Option<string>,
                  description: Option<string>, uuid: string, now: Time)
      returns (r: Result<Payment>)
      requires Valid()
      modifies this
      ensures Valid()
      ensures wallets == old(wallets) && txs == old(txs)
      ensures r.Err? <==> old(TransactionIdTaken(TransactionId(uuid)))
      ensures r.Err? ==> r.error.ConstraintError? && payments == old(payments)
      ensures r.Ok? ==>
        (r.value == Payment(old(nextPaymentId), TransactionId(uuid), projectId, payerId, payeeId, amount,
                            currency.GetOr("USD"), description, PaymentPending, None, None, None, None, now, now)
         && old(nextPaymentId) !in old(payments) && payments == old(payments)[r.value.id := r.value])
    {
      var t := TransactionId(uuid);
      if TransactionIdTaken(t) {
        return Err(ConstraintError("UNIQUE constraint failed: payments.transaction_id"));
      }
      var p := Payment(nextPaymentId, t, projectId, payerId, payeeId, amount, currency.GetOr("USD"), description,
                       PaymentPending, None, None, None, None, now, now);
      payments := payments[nextPaymentId := p];
      nextPaymentId := nextPaymentId + 1;
      return Ok(p);
    }

    /** `Payment.findById`: the payment, provided its payer and payee
        still exist. */
    function FindById(accounts: map<nat, Users.User>, id: int): (r: Option<Payment>)
      reads this
      ensures r.Some? <==> id >= 0 && id in payments && Visible(accounts, payments[id])
      ensures r.Some? ==> r.value == payments[id]
    {
      if id >= 0 && id in payments && Visible(accounts, payments[id]) then Some(payments[id]) else None
    }

    /** `Payment.findByTransactionId`. */
    function FindByTransactionId(accounts: map<nat, Users.User>, t: string): (r: Option<Payment>)
      requires Valid()
      reads this
      ensures r.Some? <==> exists id :: id in payments && payments[id].transactionId == t && Visible(accounts, payments[id])
      ensures r.Some? ==> r.value.transactionId == t && r.value in payments.Values
    {
      if exists id :: id in payments && payments[id].transactionId == t && Visible(accounts, payments[id]) then
        var id :| id in payments && payments[id].transactionId == t && Visible(accounts, payments[id]);
        Some(payments[id])
      else None
    }

    /** `Payment.findByUserId`: the user's payments as payer, as payee or
        either (any other role), optionally of one status, newest first,
        one page. */
    function FindByUserId(accounts: map<nat, Users.User>, userId: int, role: string, status: Option<string>,
                          limit: int, offset: int): (r: seq<Payment>)
      reads this
      ensures limit >= 0 ==> |r| <= limit
      ensures Sorted(r, PaymentsNewestFirst)
      ensures forall p :: p in r ==> p in payments.Values && Visible(accounts, p) && OfUser(p, userId, role, status)
      ensures IsWindow(r, Rows(payments, nextPaymentId), UserFilter(accounts, userId, role, status), PaymentsNewestFirst,
                       limit, offset)
    {
      var all := Rows(payments, nextPaymentId);
      assert forall p :: p in all ==> p in payments.Values;
      Select(all, UserFilter(accounts, userId, role, status), PaymentsNewestFirst, limit, offset)
    }

    /** `Payment.findByProjectId`: every visible payment of the project,
        newest first. */
    function FindByProjectId(accounts: map<nat, Users.User>, projectId: int): (r: seq<Payment>)
      requires Valid()
      reads this
      ensures forall p :: p in r <==> p in payments.Values && p.projectId == Some(projectId) && Visible(accounts, p)
      ensures Listing(r, Rows(payments, nextPaymentId), ProjectFilter(accounts, projectId), PaymentsNewestFirst)
    {
      SelectRows(payments, nextPaymentId, ProjectFilter(accounts, projectId), PaymentsNewestFirst)
    }

    /** `Payment.updateWalletBalance`: opens a wallet at 0 when the user has
        none, applies the credit or debit without any lower bound, and
        records exactly one wallet transaction. */
    method UpdateWalletBalance(userId: int, amount: real, txType: TxType, now: Time) returns (newBalance: real)
      requires Valid()
      modifies this
      ensures Valid()
      ensures payments == old(payments) && nextPaymentId == old(nextPaymentId) && nextTxId == old(nextTxId) + 1
      ensures newBalance == old(Bal(wallets, userId)) + Signed(txType, amount)
      ensures userId in wallets && wallets[userId].balance == newBalance
      ensures old(userId in wallets) ==> wallets[userId].id == old(wallets[userId].id)
      ensures wallets.Keys == old(wallets.Keys) + {userId}
      ensures forall u :: u in old(wallets) && u != userId ==> wallets[u] == old(wallets[u])
      ensures forall u :: u != userId ==> Bal(wallets, u) == old(Bal(wallets, u))
      ensures txs == old(txs) + [WalletTx(old(nextTxId), wallets[userId].id, txType, amount, Some(TxDescription(txType)), now)]
    {
      var isNew := userId !in wallets;
      var w := if isNew then Wallet(nextWalletId, userId, 0.0, "USD", now, now) else wallets[userId];
      newBalance := if txType == Credit then w.balance + amount else w.balance - amount;
      var updated := w.(balance := newBalance, updatedAt := now);
      WalletStored(wallets, nextWalletId, updated);
      wallets := wallets[userId := updated];
      if isNew {
        nextWalletId := nextWalletId + 1;
      }
      txs := txs + [WalletTx(nextTxId, w.id, txType, amount, Some(TxDescription(txType)), now)];
      nextTxId := nextTxId + 1;
    }

    /** The two `updateWalletBalance` calls of settling or refunding a
        payment: `amount` goes from `debited` to `credited`, the credit
        recorded first when `creditFirst`. */
    method MoveFunds(credited: int, debited: int, amount: real, creditFirst: bool, now: Time)
      requires Valid()
      modifies this
      ensures Valid()
      ensures payments == old(payments) && nextPaymentId == old(nextPaymentId)
      ensures forall u :: Bal(wallets, u) == old(Bal(wallets, u)) + Moved(debited, credited, amount, u)
      ensures wallets.Keys == old(wallets.Keys) + {credited, debited}
      ensures forall u :: u in old(wallets) ==> wallets[u].id == old(wallets[u].id)
      ensures txs == old(txs) + MoveRecords(wallets[credited].id, wallets[debited].id, amount, creditFirst,
                                            old(nextTxId), now)
      ensures nextTxId == old(nextTxId) + 2
    {
      ghost var t0 := txs;
      ghost var n0 := nextTxId;
      if creditFirst {
        Transfer(credited, Credit, debited, Debit, amount, now);
        assert MoveRecords(wallets[credited].id, wallets[debited].id, amount, true, n0, now)
          == [WalletTx(n0, wallets[credited].id, Credit, amount, Some("Payment received"), now),
              WalletTx(n0 + 1, wallets[debited].id, Debit, amount, Some("Payment sent"), now)];
      } else {
        Transfer(debited, Debit, credited, Credit, amount, now);
        assert MoveRecords(wallets[credited].id, wallets[debited].id, amount, false, n0, now)
          == [WalletTx(n0, wallets[debited].id, Debit, amount, Some("Payment sent"), now),
              WalletTx(n0 + 1, wallets[credited].id, Credit, amount, Some("Payment received"), now)];
      }
    }

    /** Two `updateWalletBalance` calls in a row, the first on user `a`,
        the second on user `b`, with opposite directions. */
    method Transfer(a: int, ta: TxType, b: int, tb: TxType, amount: real, now: Time)
      requires Valid() && ta != tb
      modifies this
      ensures Valid()
      ensures payments == old(payments) && nextPaymentId == old(nextPaymentId) && nextTxId == old(nextTxId) + 2
      ensures forall u :: Bal(wallets, u) == old(Bal(wallets, u)) + (if u == a then Signed(ta, amount) else 0.0)
                                                                  + (if u == b then Signed(tb, amount) else 0.0)
      ensures wallets.Keys == old(wallets.Keys) + {a, b}
      ensures forall u :: u in old(wallets) ==> wallets[u].id == old(wallets[u].id)
      ensures txs == old(txs) + [WalletTx(old(nextTxId), wallets[a].id, ta, amount, Some(TxDescription(ta)), now),
                                 WalletTx(old(nextTxId) + 1, wallets[b].id, tb, amount, Some(TxDescription(tb)), now)]
    {
      ghost var w0 := wallets;
      ghost var t0 := txs;
      var _ := UpdateWalletBalance(a, amount, ta, now);
      ghost var w1 := wallets;
      ghost var first := txs[|txs| - 1];
      var _ := UpdateWalletBalance(b, amount, tb, now);
      assert w1[a].id == wallets[a].id;
      TwoSteps(w0, w1, wallets, a, Signed(ta, amount), b, Signed(tb, amount));
      assert txs == t0 + [first, txs[|txs| - 1]];
    }

    /** `Payment.processPayment`.  An invisible payment gives nothing and
        changes nothing; a payment that is no longer pending is reported as
        already processed and changes nothing; otherwise the payment becomes
        completed (when `succeed`) or failed, and only a completed one moves
        its amount from the payer's wallet to the payee's. */
    method ProcessPayment(accounts: map<nat, Users.User>, id: int, paymentMethod: Option<string>, succeed: bool,
                          now: Time)
      returns (r: Option<ProcessResult>)
      requires Valid()
      modifies this
      ensures Valid()
      ensures r.None? <==> old(FindById(accounts, id)).None?
      ensures r.None? || r == Some(AlreadyProcessed) ==>
        payments == old(payments) && wallets == old(wallets) && txs == old(txs)
      ensures r.Some? ==> (r.value.AlreadyProcessed? <==> old(payments[id].status) != PaymentPending)
      ensures r.Some? && r.value.Processed? ==>
        var p := old(payments[id]);
        r.value == Processed(succeed, if succeed then PaymentCompleted else PaymentFailed, p.transactionId)
        && payments == old(payments)[id := p.(status := r.value.status,
                                              paymentMethod := Some(paymentMethod.GetOr("demo_card")),
                                              processedAt := Some(now), updatedAt := now)]
      ensures r.Some? && r.value.Processed? && !succeed ==> wallets == old(wallets) && txs == old(txs)
      ensures r.Some? && r.value.Processed? && succeed ==>
        (forall u :: Bal(wallets, u) == old(Bal(wallets, u)) + Delta(old(payments[id]), u))
        && wallets.Keys == old(wallets.Keys) + {old(payments[id]).payerId, old(payments[id]).payeeId}
        && txs == old(txs) + MoveRecords(wallets[old(payments[id]).payeeId].id, wallets[old(payments[id]).payerId].id,
                                         old(payments[id]).amount, true, old(nextTxId), now)
    {
      var found := FindById(accounts, id);
      if found.None? {
        return None;
      }
      var p := found.value;
      if p.status != PaymentPending {
        return Some(AlreadyProcessed);
      }
      var status := if succeed then PaymentCompleted else PaymentFailed;
      payments := payments[id as nat := p.(status := status, paymentMethod := Some(paymentMethod.GetOr("demo_card")),
                                           processedAt := Some(now), updatedAt := now)];
      if succeed {
        MoveFunds(p.payeeId, p.payerId, p.amount, true, now);
      }
      return Some(Processed(succeed, status, p.transactionId));
    }

    /** `Payment.getWalletBalance`: the user's wallet, or a new empty USD
        wallet opened on the spot.  A wallet whose owner's account is gone
        is invisible to the lookup, so opening another one for the same
        user fails the UNIQUE key. */
    method GetWalletBalance(accounts: map<nat, Users.User>, userId: int, now: Time) returns (r: Result<Wallet>)
      requires Valid()
      modifies this
      ensures Valid()
      ensures payments == old(payments) && txs == old(txs)
      ensures old(userId in wallets) ==> wallets == old(wallets)
      ensures old(userId in wallets) && Users.Present(accounts, userId) ==> r == Ok(old(wallets[userId]))
      ensures old(userId in wallets) && !Users.Present(accounts, userId) ==> r.Err? && r.error.ConstraintError?
      ensures old(userId !in wallets) ==>
        (r.Ok? && r.value.userId == userId && r.value.balance == 0.0 && r.value.currency == "USD"
         && wallets == old(wallets)[userId := r.value])
    {
      if userId in wallets {
        if Users.Present(accounts, userId) {
          return Ok(wallets[userId]);
        }
        return Err(ConstraintError("UNIQUE constraint failed: wallets.user_id"));
      }
      var w := Wallet(nextWalletId, userId, 0.0, "USD", now, now);
      WalletStored(wallets, nextWalletId, w);
      wallets := wallets[userId := w];
      nextWalletId := nextWalletId + 1;
      return Ok(w);
    }

    /** `Payment.getWalletTransactions`: the transactions of the user's
        wallet only, newest first, one page. */
    function GetWalletTransactions(userId: int, limit: int, offset: int): (r: seq<WalletTx>)
      requires Valid()
      reads this
      ensures userId !in wallets ==> r == []
      ensures limit >= 0 ==> |r| <= limit
      ensures Sorted(r, TxNewestFirst)
      ensures forall t :: t in r ==> t in txs && userId in wallets && t.walletId == wallets[userId].id
      ensures forall t :: t in r ==> forall u :: u in wallets && u != userId ==> t.walletId != wallets[u].id
      ensures userId in wallets ==> IsWindow(r, txs, OfWallet(wallets[userId].id), TxNewestFirst, limit, offset)
    {
      if userId !in wallets then []
      else Select(txs, OfWallet(wallets[userId].id), TxNewestFirst, limit, offset)
    }

    /** `Payment.refundPayment`: only a completed payment is refunded
        (the reason defaults to a customer request); both wallet moves are
        reversed.  Anything else changes nothing. */
    method RefundPayment(accounts: map<nat, Users.User>, id: int, reason: Option<string>, now: Time)
      returns (r: Option<RefundResult>)
      requires Valid()
      modifies this
      ensures Valid()
      ensures r.None? <==> old(FindById(accounts, id)).None?
      ensures r.None? || r == Some(NotRefundable) ==>
        payments == old(payments) && wallets == old(wallets) && txs == old(txs)
      ensures r.Some? ==> (r.value.NotRefundable? <==> old(payments[id].status) != PaymentCompleted)
      ensures r.Some? && r.value.Refunded? ==>
        var p := old(payments[id]);
        r.value == Refunded(p.transactionId)
        && payments == old(payments)[id := p.(status := PaymentRefunded,
                                              refundReason := Some(reason.GetOr("Customer requested refund")),
                                              refundedAt := Some(now), updatedAt := now)]
        && (forall u :: Bal(wallets, u) == old(Bal(wallets, u)) + Moved(p.payeeId, p.payerId, p.amount, u))
        && wallets.Keys == old(wallets.Keys) + {p.payerId, p.payeeId}
        && txs == old(txs) + MoveRecords(wallets[p.payerId].id, wallets[p.payeeId].id, p.amount, false,
                                         old(nextTxId), now)
    {
      var found := FindById(accounts, id);
      if found.None? {
        return None;
      }
      var p := found.value;
      if p.status != PaymentCompleted {
        return Some(NotRefundable);
      }
      payments := payments[id as nat := p.(status := PaymentRefunded,
                                           refundReason := Some(reason.GetOr("Customer requested refund")),
                                           refundedAt := Some(now), updatedAt := now)];
      MoveFunds(p.payerId, p.payeeId, p.amount, false, now);
      return Some(Refunded(p.transactionId));
    }

    /** `Payment.getUserPaymentStats`: sums (0 when there are none) and
        counts over the user's completed payments, and the pending ones on
        either side. */
    function GetUserPaymentStats(userId: int): (r: PaymentStats)
      reads this
      ensures var all := Rows(payments, nextPaymentId);
        r.paymentsMade == Count(all, MadeBy(userId)) && r.paymentsReceived == Count(all, ReceivedBy(userId))
        && r.pendingPayments == Count(all, PendingFor(userId))
      ensures var all := Rows(payments, nextPaymentId);
        r.totalPaid == SumAmounts(Filter(all, MadeBy(userId)))
        && r.totalReceived == SumAmounts(Filter(all, ReceivedBy(userId)))
      ensures r.paymentsMade == 0 ==> r.totalPaid == 0.0
      ensures r.paymentsReceived == 0 ==> r.totalReceived == 0.0
    {
      var all := Rows(payments, nextPaymentId);
      var made := Filter(all, MadeBy(userId));
      var received := Filter(all, ReceivedBy(userId));
      PaymentStats(SumAmounts(made), SumAmounts(received), |made|, |received|, Count(all, PendingFor(userId)))
    }
  }

  /** With positive amounts, a user's paid and received totals are
      positive exactly when they made or received a completed payment. */
  lemma StatsTotalsPositive(store: PaymentStore, userId: int)
    requires forall id :: id in store.payments ==> store.payments[id].amount > 0.0
    ensures var r := store.GetUserPaymentStats(userId);
      r.totalPaid >= 0.0 && r.totalReceived >= 0.0
      && (r.totalPaid > 0.0 <==> r.paymentsMade > 0) && (r.totalReceived > 0.0 <==> r.paymentsReceived > 0)
  {
    var all := Rows(store.payments, store.nextPaymentId);
    forall p | p in all ensures p.amount > 0.0 {
      var k :| k in store.payments && k < store.nextPaymentId && store.payments[k] == p;
    }
    SumAmountsPositive(Filter(all, MadeBy(userId)));
    SumAmountsPositive(Filter(all, ReceivedBy(userId)));
  }

  /** Processing a payment successfully and then refunding it leaves every
      wallet balance where it was before, and the payment refunded. */
  method ProcessThenRefund(store: PaymentStore, accounts: map<nat, Users.User>, id: int, now: Time)
    requires store.Valid()
    requires store.FindById(accounts, id).Some? && store.payments[id].status == PaymentPending
    modifies store
    ensures store.Valid()
    ensures forall u :: Bal(store.wallets, u) == old(Bal(store.wallets, u))
    ensures id >= 0 && id in store.payments && store.payments[id].status == PaymentRefunded
  {
    var p := store.payments[id];
    var processed := store.ProcessPayment(accounts, id, None, true, now);
    assert store.payments[id].status == PaymentCompleted;
    assert store.FindById(accounts, id).Some?;
    var refunded := store.RefundPayment(accounts, id, None, now);
  }
}
