/** The handlers of `controllers/paymentController.js`.  The caller is the
    authenticated user; the random outcome of processing and the uuid
    behind a new transaction id are parameters.  A request amount is a JSON
    number, `None` when the field is absent. */
module PaymentController {
  import opened Common
  import opened Schema
  import opened Queries
  import Text
  import Users
  import Projects
  import Payments

  /** JavaScript truthiness of an optional number. */
  predicate TruthyNum(x: Option<real>) {
    x.Some? && x.value != 0.0
  }

  predicate TruthyId(x: Option<int>) {
    x.Some? && x.value != 0
  }

  /** The checks of `createPayment` before anything is written. */
  function CreateGuard(projects: Projects.ProjectTable, callerId: int, projectId: Option<int>, amount: Option<real>)
    : (r: Outcome)
    reads projects
    ensures r.Pass? <==>
      (TruthyId(projectId) && TruthyNum(amount) && amount.value > 0.0
       && projects.FindById(projectId.value).Some? && projects.FindById(projectId.value).value.clientId == callerId)
    ensures !TruthyId(projectId) || !TruthyNum(amount) ==>
      r == Fail(ValidationError("Project ID and amount are required"))
    ensures TruthyId(projectId) && TruthyNum(amount) && amount.value < 0.0 ==>
      r == Fail(ValidationError("Amount must be greater than 0"))
  {
    if !TruthyId(projectId) || !TruthyNum(amount) then Fail(ValidationError("Project ID and amount are required"))
    else if amount.value <= 0.0 then Fail(ValidationError("Amount must be greater than 0"))
    else match projects.FindById(projectId.value)
      case None => Fail(NotFoundError("Project not found"))
      case Some(project) =>
        if project.clientId != callerId then
          Fail(AuthorizationError("Only the client can create payments for this project"))
        else Pass
  }

  /** `description || "Payment for project #" + projectId`. */
  function Description(description: Option<string>, projectId: int): (r: string)
    ensures Truthy(description) ==> r == description.value
    ensures !Truthy(description) ==> r == "Payment for project #" + Text.IntToString(projectId)
  {
    if Truthy(description) then description.value else "Payment for project #" + Text.IntToString(projectId)
  }

  /** `createPayment`: only the client of an existing project may create a
      payment for it, of a positive amount, from themselves to the
      project's editor, in USD; nothing is written unless every check
      passes. */
  method CreatePayment(projects: Projects.ProjectTable, store: Payments.PaymentStore, callerId: int,
                       projectId: Option<int>, amount: Option<real>, description: Option<string>, uuid: string,
                       now: Time)
    returns (r: Result<Payments.Payment>)
    requires store.Valid()
    modifies store
    ensures store.Valid()
    ensures store.wallets == old(store.wallets) && store.txs == old(store.txs)
    ensures CreateGuard(projects, callerId, projectId, amount).Fail? ==>
      r == Err(CreateGuard(projects, callerId, projectId, amount).error) && store.payments == old(store.payments)
    ensures r.Err? ==> store.payments == old(store.payments)
    ensures r.Ok? <==>
      CreateGuard(projects, callerId, projectId, amount).Pass?
      && !old(store.TransactionIdTaken(Payments.TransactionId(uuid)))
    ensures r.Ok? ==>
      (r.value.payerId == callerId && r.value.payeeId == projects.rows[projectId.value].editorId
       && r.value.projectId == projectId && r.value.amount == amount.value && r.value.amount > 0.0
       && r.value.currency == "USD" && r.value.status == PaymentPending
       && r.value.description == Some(Description(description, projectId.value))
       && store.payments == old(store.payments)[r.value.id := r.value])
  {
    var guard := CreateGuard(projects, callerId, projectId, amount);
    if guard.Fail? {
      return Err(guard.error);
    }
    var project := projects.FindById(projectId.value).value;
    r := store.Create(projectId, callerId, project.editorId, amount.value, Some("USD"),
                      Some(Description(description, projectId.value)), uuid, now);
  }

  /** The demo card check: after removing whitespace, exactly sixteen
      digits. */
  predicate CardValid(cardNumber: string) {
    var clean := Text.RemoveSpaces(cardNumber);
    |clean| == 16 && Text.AllDigits(clean)
  }

  /** A card number passes exactly when it has sixteen non-whitespace
      characters and every one of them is a digit. */
  lemma CardValidIff(cardNumber: string)
    ensures CardValid(cardNumber) <==>
      Text.NonSpaceCount(cardNumber) == 16
      && forall i :: 0 <= i < |cardNumber| && !Text.IsSpace(cardNumber[i]) ==> Text.IsDigit(cardNumber[i])
  {
    Text.RemoveSpacesSpec(cardNumber);
  }

  datatype ProcessResponse = ProcessResponse(success: bool, message: string, transactionId: string,
                                             status: PaymentStatus)

  /** `processPayment`: the payment must be visible and the caller its
      payer; a card number given with the demo card method must be valid;
      a payment that is not pending is refused.  Only then is it processed,
      and only a successful outcome moves money. */
  method ProcessPayment(users: Users.UserTable, store: Payments.PaymentStore, callerId: int, id: int,
                        paymentMethod: Option<string>, cardNumber: Option<string>, succeed: bool, now: Time)
    returns (r: Result<ProcessResponse>)
    requires store.Valid()
    modifies store
    ensures store.Valid()
    ensures old(store.FindById(users.rows, id)).None? ==> r == Err(NotFoundError("Payment not found"))
    ensures old(store.FindById(users.rows, id)).Some? && old(store.payments[id].payerId) != callerId ==>
      r == Err(AuthorizationError("Only the payer can process this payment"))
    ensures old(store.FindById(users.rows, id)).Some? && old(store.payments[id].payerId) == callerId
            && paymentMethod.GetOr("demo_card") == "demo_card" && Truthy(cardNumber) && !CardValid(cardNumber.value) ==>
      r == Err(ValidationError("Invalid card number format (demo: use any 16 digits)"))
    ensures old(store.FindById(users.rows, id)).Some? && old(store.payments[id].payerId) == callerId
            && !(paymentMethod.GetOr("demo_card") == "demo_card" && Truthy(cardNumber) && !CardValid(cardNumber.value))
            && old(store.payments[id].status) != PaymentPending ==>
      r == Err(ValidationError("Payment already processed"))
    ensures r.Ok? <==>
      old(store.FindById(users.rows, id)).Some? && old(store.payments[id].payerId) == callerId
      && !(paymentMethod.GetOr("demo_card") == "demo_card" && Truthy(cardNumber) && !CardValid(cardNumber.value))
      && old(store.payments[id].status) == PaymentPending
    ensures r.Err? ==>
      store.payments == old(store.payments) && store.wallets == old(store.wallets) && store.txs == old(store.txs)
    ensures r.Ok? ==>
      (old(store.FindById(users.rows, id)).Some? && old(store.payments[id].payerId) == callerId
       && old(store.payments[id].status) == PaymentPending
       && id in store.payments && r.value.success == succeed && r.value.status == store.payments[id].status
       && r.value.status == (if succeed then PaymentCompleted else PaymentFailed)
       && r.value.transactionId == old(store.payments[id].transactionId))
    ensures r.Ok? && succeed ==>
      forall u :: Payments.Bal(store.wallets, u) == old(Payments.Bal(store.wallets, u)) + Payments.Delta(old(store.payments[id]), u)
    ensures r.Ok? && !succeed ==> store.wallets == old(store.wallets)
  {
    var payment := store.FindById(users.rows, id);
    if payment.None? {
      return Err(NotFoundError("Payment not found"));
    }
    if payment.value.payerId != callerId {
      return Err(AuthorizationError("Only the payer can process this payment"));
    }
    var chosen := paymentMethod.GetOr("demo_card");
    if chosen == "demo_card" && Truthy(cardNumber) && !CardValid(cardNumber.value) {
      return Err(ValidationError("Invalid card number format (demo: use any 16 digits)"));
    }
    var result := store.ProcessPayment(users.rows, id, Some(chosen), succeed, now);
    match result.value
    case AlreadyProcessed =>
      return Err(ValidationError(Payments.ProcessMessage(result.value)));
    case Processed(success, status, transactionId) =>
      return Ok(ProcessResponse(success, Payments.ProcessMessage(result.value), transactionId, status));
  }

  /** `getMyPayments`: `role` defaults to all, `limit` and `offset` to 50
      and 0; a non-numeric bound makes SQLite refuse the query. */
  function GetMyPayments(users: Users.UserTable, store: Payments.PaymentStore, callerId: int, role: Option<string>,
                         status: Option<string>, limit: Option<string>, offset: Option<string>)
    : (r: Result<seq<Payments.Payment>>)
    reads users, store
    ensures r.Ok? <==> Text.IntParam(limit, 50).Some? && Text.IntParam(offset, 0).Some?
    ensures r.Ok? ==>
      (Text.IntParam(limit, 50).value >= 0 ==> |r.value| <= Text.IntParam(limit, 50).value)
    ensures r.Ok? ==> forall p :: p in r.value ==>
      p in store.payments.Values && Payments.Visible(users.rows, p)
      && Payments.OfUser(p, callerId, role.GetOr("all"), status)
      && (p.payerId == callerId || p.payeeId == callerId)
    ensures r.Ok? ==>
      IsWindow(r.value, Rows(store.payments, store.nextPaymentId),
               Payments.UserFilter(users.rows, callerId, role.GetOr("all"), status), Payments.PaymentsNewestFirst,
               Text.IntParam(limit, 50).value, Text.IntParam(offset, 0).value)
  {
    var l := Text.IntParam(limit, 50);
    var o := Text.IntParam(offset, 0);
    if l.None? || o.None? then Err(Failure("datatype mismatch"))
    else Ok(store.FindByUserId(users.rows, callerId, role.GetOr("all"), status, l.value, o.value))
  }

  /** `getPayment`: visible to its payer and its payee only. */
  function GetPayment(users: Users.UserTable, store: Payments.PaymentStore, callerId: int, id: int)
    : (r: Result<Payments.Payment>)
    reads users, store
    ensures store.FindById(users.rows, id).None? ==> r == Err(NotFoundError("Payment not found"))
    ensures r.Ok? <==>
      (store.FindById(users.rows, id).Some?
       && (store.payments[id].payerId == callerId || store.payments[id].payeeId == callerId))
    ensures r.Ok? ==> r.value == store.payments[id]
    ensures r.Err? && store.FindById(users.rows, id).Some? ==>
      r.error == AuthorizationError("Not authorized to view this payment")
  {
    match store.FindById(users.rows, id)
    case None => Err(NotFoundError("Payment not found"))
    case Some(p) =>
      if p.payerId != callerId && p.payeeId != callerId then Err(AuthorizationError("Not authorized to view this payment"))
      else Ok(p)
  }

  /** `getProjectPayments`: the project's client and editor see all of its
      visible payments, newest first. */
  function GetProjectPayments(users: Users.UserTable, projects: Projects.ProjectTable, store: Payments.PaymentStore,
                              callerId: int, projectId: int)
    : (r: Result<seq<Payments.Payment>>)
    requires store.Valid()
    reads users, projects, store
    ensures projects.FindById(projectId).None? ==> r == Err(NotFoundError("Project not found"))
    ensures r.Ok? <==>
      (projects.FindById(projectId).Some?
       && (projects.rows[projectId].clientId == callerId || projects.rows[projectId].editorId == callerId))
    ensures r.Err? && projects.FindById(projectId).Some? ==>
      r.error == AuthorizationError("Not authorized to view payments for this project")
    ensures r.Ok? ==> forall p :: p in r.value <==>
      p in store.payments.Values && p.projectId == Some(projectId) && Payments.Visible(users.rows, p)
    ensures r.Ok? ==>
      Listing(r.value, Rows(store.payments, store.nextPaymentId), Payments.ProjectFilter(users.rows, projectId),
              Payments.PaymentsNewestFirst)
  {
    match projects.FindById(projectId)
    case None => Err(NotFoundError("Project not found"))
    case Some(project) =>
      if project.clientId != callerId && project.editorId != callerId then
        Err(AuthorizationError("Not authorized to view payments for this project"))
      else Ok(store.FindByProjectId(users.rows, projectId))
  }

  datatype RefundResponse = RefundResponse(message: string, transactionId: string)

  /** `refundPayment`: only the payer may ask, and only a completed payment
      is refunded; the refund moves the amount back from the payee to the
      payer. */
  method RefundPayment(users: Users.UserTable, store: Payments.PaymentStore, callerId: int, id: int,
                       reason: Option<string>, now: Time)
    returns (r: Result<RefundResponse>)
    requires store.Valid()
    modifies store
    ensures store.Valid()
    ensures old(store.FindById(users.rows, id)).None? ==> r == Err(NotFoundError("Payment not found"))
    ensures old(store.FindById(users.rows, id)).Some? && old(store.payments[id].payerId) != callerId ==>
      r == Err(AuthorizationError("Only the payer can request a refund"))
    ensures old(store.FindById(users.rows, id)).Some? && old(store.payments[id].payerId) == callerId
            && old(store.payments[id].status) != PaymentCompleted ==>
      r == Err(ValidationError("Only completed payments can be refunded"))
    ensures r.Ok? <==>
      old(store.FindById(users.rows, id)).Some? && old(store.payments[id].payerId) == callerId
      && old(store.payments[id].status) == PaymentCompleted
    ensures r.Err? ==>
      store.payments == old(store.payments) && store.wallets == old(store.wallets) && store.txs == old(store.txs)
    ensures r.Ok? ==>
      (old(store.FindById(users.rows, id)).Some? && old(store.payments[id].payerId) == callerId
       && old(store.payments[id].status) == PaymentCompleted
       && id in store.payments && store.payments[id].status == PaymentRefunded
       && r.value == RefundResponse("Payment refunded successfully", old(store.payments[id].transactionId))
       && forall u :: Payments.Bal(store.wallets, u) == old(Payments.Bal(store.wallets, u)) - Payments.Delta(old(store.payments[id]), u))
  {
    var payment := store.FindById(users.rows, id);
    if payment.None? {
      return Err(NotFoundError("Payment not found"));
    }
    if payment.value.payerId != callerId {
      return Err(AuthorizationError("Only the payer can request a refund"));
    }
    var result := store.RefundPayment(users.rows, id, reason, now);
    match result.value
    case NotRefundable =>
      return Err(ValidationError(Payments.RefundMessage(result.value)));
    case Refunded(transactionId) =>
      return Ok(RefundResponse(Payments.RefundMessage(result.value), transactionId));
  }

  datatype WalletView = WalletView(balance: real, currency: string)

  /** `getWalletBalance`: the caller's balance and currency; a caller
      without a wallet gets a new empty one in USD. */
  method GetWalletBalance(users: Users.UserTable, store: Payments.PaymentStore, callerId: int, now: Time)
    returns (r: Result<WalletView>)
    requires store.Valid()
    modifies store
    ensures store.Valid()
    ensures store.payments == old(store.payments) && store.txs == old(store.txs)
    ensures forall u :: Payments.Bal(store.wallets, u) == old(Payments.Bal(store.wallets, u))
    ensures Users.Present(users.rows, callerId) ==>
      r.Ok? && r.value.balance == old(Payments.Bal(store.wallets, callerId)) && r.value.currency != ""
    ensures old(callerId !in store.wallets) ==> r == Ok(WalletView(0.0, "USD"))
  {
    var wallet := store.GetWalletBalance(users.rows, callerId, now);
    if wallet.Err? {
      return Err(wallet.error);
    }
    r := Ok(WalletView(wallet.value.balance, if wallet.value.currency == "" then "USD" else wallet.value.currency));
  }

  /** `getWalletTransactions`: the caller's own wallet history, one page;
      `limit` and `offset` default to 50 and 0. */
  function GetWalletTransactions(store: Payments.PaymentStore, callerId: int, limit: Option<string>,
                                 offset: Option<string>)
    : (r: Result<seq<Payments.WalletTx>>)
    requires store.Valid()
    reads store
    ensures r.Ok? <==> Text.IntParam(limit, 50).Some? && Text.IntParam(offset, 0).Some?
    ensures r.Ok? ==> forall t :: t in r.value ==>
      t in store.txs && callerId in store.wallets && t.walletId == store.wallets[callerId].id
    ensures r.Ok? && callerId !in store.wallets ==> r.value == []
    ensures r.Ok? && callerId in store.wallets ==>
      IsWindow(r.value, store.txs, Payments.OfWallet(store.wallets[callerId].id), Payments.TxNewestFirst,
               Text.IntParam(limit, 50).value, Text.IntParam(offset, 0).value)
  {
    var l := Text.IntParam(limit, 50);
    var o := Text.IntParam(offset, 0);
    if l.None? || o.None? then Err(Failure("datatype mismatch"))
    else Ok(store.GetWalletTransactions(callerId, l.value, o.value))
  }

  /** `getPaymentStats`: the caller's statistics; every field is already
      a number, so the `|| 0` fallbacks change nothing. */
  function GetPaymentStats(store: Payments.PaymentStore, callerId: int): (r: Payments.PaymentStats)
    reads store
    ensures var all := Rows(store.payments, store.nextPaymentId);
      r.paymentsMade == Count(all, Payments.MadeBy(callerId))
      && r.paymentsReceived == Count(all, Payments.ReceivedBy(callerId))
      && r.pendingPayments == Count(all, Payments.PendingFor(callerId))
      && r.totalPaid == Payments.SumAmounts(Filter(all, Payments.MadeBy(callerId)))
      && r.totalReceived == Payments.SumAmounts(Filter(all, Payments.ReceivedBy(callerId)))
    ensures r.paymentsMade == 0 ==> r.totalPaid == 0.0
    ensures r.paymentsReceived == 0 ==> r.totalReceived == 0.0
  {
    store.GetUserPaymentStats(callerId)
  }

  /** The checks of `addFundsToWallet`. */
  function AddFundsGuard(amount: Option<real>): (r: Outcome)
    ensures r.Pass? <==> amount.Some? && 0.0 < amount.value <= 10000.0
    ensures amount.Some? && amount.value > 10000.0 ==>
      r == Fail(ValidationError("Maximum amount is $10,000 per transaction (demo)"))
    ensures r.Fail? && r.error.message != "Maximum amount is $10,000 per transaction (demo)" ==>
      r == Fail(ValidationError("Amount must be greater than 0"))
  {
    if !TruthyNum(amount) || amount.value <= 0.0 then Fail(ValidationError("Amount must be greater than 0"))
    else if amount.value > 10000.0 then Fail(ValidationError("Maximum amount is $10,000 per transaction (demo)"))
    else Pass
  }

  /** `addFundsToWallet`: between 0 (exclusive) and 10,000 is credited to
      the caller's wallet and to no one else's. */
  method AddFunds(store: Payments.PaymentStore, callerId: int, amount: Option<real>, now: Time)
    returns (r: Result<real>)
    requires store.Valid()
    modifies store
    ensures store.Valid()
    ensures store.payments == old(store.payments)
    ensures r.Err? <==> AddFundsGuard(amount).Fail?
    ensures r.Err? ==> r.error == AddFundsGuard(amount).error && store.wallets == old(store.wallets) && store.txs == old(store.txs)
    ensures r.Ok? ==>
      (r.value == old(Payments.Bal(store.wallets, callerId)) + amount.value
       && Payments.Bal(store.wallets, callerId) == r.value
       && (forall u :: u != callerId ==> Payments.Bal(store.wallets, u) == old(Payments.Bal(store.wallets, u)))
       && |store.txs| == |old(store.txs)| + 1 && store.txs[|store.txs| - 1].txType == Credit
       && store.txs[|store.txs| - 1].amount == amount.value)
  {
    var guard := AddFundsGuard(amount);
    if guard.Fail? {
      return Err(guard.error);
    }
    var balance := store.UpdateWalletBalance(callerId, amount.value, Credit, now);
    return Ok(balance);
  }
}
