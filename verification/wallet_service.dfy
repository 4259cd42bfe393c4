/** Wallet funding, withdrawal, creation and reading
    (src/services/wallet.service.ts). The payment gateway is not called: the
    request the service would send is returned, and the gateway's reply is a
    parameter. `Date.now()` is `now` and `uuidv4()` is `reference`. */
module WalletService {
  import opened Common
  import opened Text
  import opened ErrorHandler
  import opened Ledger
  import Tables
  import Sorting

  /** Naira; the smallest amount a funding may carry. */
  const MinimumFunding: real := 500.0

  const MinimumFundingText: string := "Minimum funding amount is ₦500"
  const WalletNotFoundText: string := "Wallet not found"
  const InsufficientText: string := "Insufficient wallet balance"
  const NoRecipientText: string := "Bank account not linked or recipient not created"

  /** What the gateway's `/transaction/initialize` answers under `data`. */
  datatype InitData = InitData(authorizationUrl: string, accessCode: string, reference: string)

  /** The bodies the service posts to the gateway; amounts are in kobo. */
  datatype GatewayRequest =
    | InitializeRequest(email: string, amountKobo: real, reference: string, callbackUrl: string)
    | TransferRequest(amountKobo: real, recipient: string, reason: string, reference: string)

  /** The answer of a service call, the store after it, and the request
      sent to the gateway, if any. */
  datatype Outcome<T> = Outcome(result: Result<T, AppError>, store: Store, sent: Option<GatewayRequest>)

  datatype Withdrawal = Withdrawal(transaction: Transaction, paystackResponse: string)

  datatype WalletView = WalletView(wallet: Wallet, transactions: seq<Transaction>)

  /** `FUND_${Date.now()}_${userId}`. */
  function FundingReference(now: nat, userId: UserId): string {
    "FUND_" + NatToDecimal(now) + "_" + NatToDecimal(userId)
  }

  function NewPending(owner: UserId, kind: TxType, amount: real, reference: string, now: int): (t: Transaction)
    ensures t.status == Pending && t.paystackRef.None? && t.channel.None? && t.metadata.None?
  {
    Transaction(owner, kind, amount, reference, Pending, None, None, None, now)
  }

  /** `initializeWalletFunding`. */
  function InitializeWalletFunding(s: Store, userId: UserId, amount: real, email: string, now: nat,
                                   frontendUrl: string, gateway: Result<InitData, AppError>): (r: Outcome<InitData>)
    ensures amount < MinimumFunding ==> r == Outcome(Err(Fail(MinimumFundingText)), s, None)
    ensures amount >= MinimumFunding && userId !in s.wallets ==>
      r == Outcome(Err(Fail(WalletNotFoundText)), s, None)
    ensures r.sent.None? ==> r.store == s && r.result.Err?
    ensures r.sent.Some? ==>
      && r.result == gateway
      && r.store == s.(txs := s.txs + [NewPending(userId, Fund, amount, FundingReference(now, userId), now)])
      && r.sent.value == InitializeRequest(email, amount * 100.0, FundingReference(now, userId),
                                           frontendUrl + "/wallet/verify")
  {
    if amount < MinimumFunding then Outcome(Err(Fail(MinimumFundingText)), s, None)
    else if userId !in s.wallets then Outcome(Err(Fail(WalletNotFoundText)), s, None)
    else
      var reference := FundingReference(now, userId);
      if FindTx(s.txs, reference).Some? then Outcome(Err(UniqueViolation("reference")), s, None)
      else
        var s' := s.(txs := s.txs + [NewPending(userId, Fund, amount, reference, now)]);
        Outcome(gateway, s', Some(InitializeRequest(email, amount * 100.0, reference, frontendUrl + "/wallet/verify")))
  }

  const AmountMissingText: string := "Argument `amount` is missing."

  /** `initializeWalletFunding` called with the request body's `amount`,
      which may be absent. An absent amount passes the minimum check
      (`undefined < 500` is false) and the wallet lookup, and then the ORM
      refuses the row without its required amount, before any write and
      before the gateway. */
  function InitializeFromBody(s: Store, userId: UserId, amount: Option<real>, email: string, now: nat,
                              frontendUrl: string, gateway: Result<InitData, AppError>): (r: Outcome<InitData>)
    ensures amount.Some? ==> r == InitializeWalletFunding(s, userId, amount.value, email, now, frontendUrl, gateway)
    ensures amount.None? && userId !in s.wallets ==> r == Outcome(Err(Fail(WalletNotFoundText)), s, None)
    ensures amount.None? && userId in s.wallets ==> r == Outcome(Err(Validation(AmountMissingText)), s, None)
  {
    match amount
    case Some(a) => InitializeWalletFunding(s, userId, a, email, now, frontendUrl, gateway)
    case None =>
      if userId !in s.wallets then Outcome(Err(Fail(WalletNotFoundText)), s, None)
      else Outcome(Err(Validation(AmountMissingText)), s, None)
  }

  /** The gateway is only contacted once the pending transaction is
      recorded, and the balance is not touched: whatever the gateway
      answers, the new row stays and every wallet is as it was. */
  lemma FundingRecordsBeforeGateway(s: Store, userId: UserId, amount: real, email: string, now: nat,
                                    frontendUrl: string, gateway: Result<InitData, AppError>)
    requires Valid(s)
    requires amount >= MinimumFunding && userId in s.wallets
    requires FindTx(s.txs, FundingReference(now, userId)).None?
    ensures var r := InitializeWalletFunding(s, userId, amount, email, now, frontendUrl, gateway);
      && r.sent.Some?
      && r.store.wallets == s.wallets
      && |r.store.txs| == |s.txs| + 1
      && r.store.txs[|s.txs|].status == Pending && r.store.txs[|s.txs|].kind == Fund
      && r.store.txs[|s.txs|].amount == amount
      && FindTx(r.store.txs, FundingReference(now, userId)) == Some(|s.txs|)
      && Valid(r.store)
  {
    var t := NewPending(userId, Fund, amount, FundingReference(now, userId), now);
    AppendKeepsUnique(s.txs, t);
    FindTxUnique(s.txs + [t], t.reference, |s.txs|);
  }

  /** Exactly 500 is accepted; anything below is refused before any lookup. */
  lemma MinimumIsInclusive(s: Store, userId: UserId, email: string, now: nat, frontendUrl: string,
                           gateway: Result<InitData, AppError>)
    requires userId in s.wallets && FindTx(s.txs, FundingReference(now, userId)).None?
    ensures InitializeWalletFunding(s, userId, 500.0, email, now, frontendUrl, gateway).sent.Some?
    ensures InitializeWalletFunding(s, userId, 499.99, email, now, frontendUrl, gateway).result
            == Err(Fail(MinimumFundingText))
  {
  }

  /** `withdrawFromWallet`. The recipient code is "linked" when it is
      present and not the empty string (which JavaScript treats as false). */
  function WithdrawFromWallet(s: Store, userId: UserId, amount: real, reference: string, now: int,
                              gateway: Result<string, AppError>): (r: Outcome<Withdrawal>)
    ensures userId !in s.wallets ==> r == Outcome(Err(Fail(WalletNotFoundText)), s, None)
    ensures userId in s.wallets && s.wallets[userId].balance < amount ==>
      r == Outcome(Err(Fail(InsufficientText)), s, None)
    ensures userId in s.wallets && s.wallets[userId].balance >= amount && !HasRecipient(s, userId) ==>
      r == Outcome(Err(Fail(NoRecipientText)), s, None)
    ensures r.sent.None? ==> r.store == s && r.result.Err?
    ensures r.store.wallets == s.wallets && r.store.banks == s.banks
    ensures r.sent.Some? ==>
      && HasRecipient(s, userId)
      && r.store.txs == s.txs + [NewPending(userId, Withdraw, amount, reference, now)]
      && r.sent.value == TransferRequest(amount * 100.0, s.banks[userId].recipientCode.value,
                                         "Wallet Withdrawal", reference)
      && (gateway.Ok? ==> r.result == Ok(Withdrawal(NewPending(userId, Withdraw, amount, reference, now), gateway.value)))
      && (gateway.Err? ==> r.result == Err(gateway.error))
  {
    if userId !in s.wallets then Outcome(Err(Fail(WalletNotFoundText)), s, None)
    else if s.wallets[userId].balance < amount then Outcome(Err(Fail(InsufficientText)), s, None)
    else if !HasRecipient(s, userId) then Outcome(Err(Fail(NoRecipientText)), s, None)
    else if FindTx(s.txs, reference).Some? then Outcome(Err(UniqueViolation("reference")), s, None)
    else
      var t := NewPending(userId, Withdraw, amount, reference, now);
      var sent := TransferRequest(amount * 100.0, s.banks[userId].recipientCode.value, "Wallet Withdrawal", reference);
      var result := match gateway
        case Ok(body) => Ok(Withdrawal(t, body))
        case Err(e) => Err(e);
      Outcome(result, s.(txs := s.txs + [t]), Some(sent))
  }

  /** The balance check is `balance < amount`: withdrawing the whole balance
      passes it, one kobo more does not. */
  lemma WithdrawWholeBalance(s: Store, userId: UserId, reference: string, now: int,
                             gateway: Result<string, AppError>)
    requires userId in s.wallets && HasRecipient(s, userId) && FindTx(s.txs, reference).None?
    ensures var b := s.wallets[userId].balance;
      && WithdrawFromWallet(s, userId, b, reference, now, gateway).sent.Some?
      && WithdrawFromWallet(s, userId, b + 0.01, reference, now, gateway).result == Err(Fail(InsufficientText))
  {
  }

  /** A successful withdrawal records one PENDING WITHDRAW row and keeps the
      store's constraints, and the wallet balance is left where it was. */
  lemma WithdrawKeepsValid(s: Store, userId: UserId, amount: real, reference: string, now: int,
                           gateway: Result<string, AppError>)
    requires Valid(s)
    ensures Valid(WithdrawFromWallet(s, userId, amount, reference, now, gateway).store)
  {
    var r := WithdrawFromWallet(s, userId, amount, reference, now, gateway);
    if r.sent.Some? {
      AppendKeepsUnique(s.txs, NewPending(userId, Withdraw, amount, reference, now));
    }
  }

  /** `createWalletForUser`: a new wallet holds 0 naira. A second wallet for
      the same user breaks the unique `userId` column; a user id that names
      no user breaks the wallet's foreign key. The user table is not part of
      the ledger store, so `userExists` says whether the user is there. The
      unique index is checked as the row is inserted, before the foreign key. */
  function CreateWalletForUser(s: Store, userId: UserId, userExists: bool): (r: Result<Store, AppError>)
    ensures userId in s.wallets ==> r == Err(UniqueViolation("userId"))
    ensures userId !in s.wallets && !userExists ==> r == Err(ForeignKeyViolation("userId"))
    ensures r.Ok? <==> userId !in s.wallets && userExists
    ensures r.Ok? ==> r.value.wallets == s.wallets[userId := Wallet(userId, 0.0, "NGN")]
    ensures r.Ok? ==> r.value.txs == s.txs && r.value.banks == s.banks
  {
    if userId in s.wallets then Err(UniqueViolation("userId"))
    else if !userExists then Err(ForeignKeyViolation("userId"))
    else Ok(s.(wallets := s.wallets[userId := Wallet(userId, 0.0, "NGN")]))
  }

  lemma CreateWalletKeepsValid(s: Store, userId: UserId, userExists: bool)
    requires Valid(s) && CreateWalletForUser(s, userId, userExists).Ok?
    ensures Valid(CreateWalletForUser(s, userId, userExists).value)
  {
  }

  /** The rows of the ledger that belong to `userId`'s wallet, in ledger order. */
  function OwnTransactions(txs: seq<Transaction>, userId: UserId): seq<Transaction> {
    Tables.Where(txs, (t: Transaction) => t.wallet == userId)
  }

  /** `getUserWalletWithTransactions`: the wallet with its transactions,
      newest first. */
  function GetUserWalletWithTransactions(s: Store, userId: UserId): (r: Result<WalletView, AppError>)
    ensures userId !in s.wallets <==> r.Err?
    ensures r.Err? ==> r.error == Fail(WalletNotFoundText)
    ensures r.Ok? ==> r.value.wallet == s.wallets[userId]
    ensures r.Ok? ==> Sorting.SortedDesc(r.value.transactions, (t: Transaction) => t.createdAt)
    ensures r.Ok? ==> multiset(r.value.transactions) == multiset(OwnTransactions(s.txs, userId))
  {
    if userId !in s.wallets then Err(Fail(WalletNotFoundText))
    else Ok(WalletView(s.wallets[userId], Sorting.SortDesc(OwnTransactions(s.txs, userId), (t: Transaction) => t.createdAt)))
  }

  /** The view lists every transaction of the wallet and nothing else. */
  lemma WalletViewIsExactlyOwnTransactions(s: Store, userId: UserId)
    requires userId in s.wallets
    ensures var txs := GetUserWalletWithTransactions(s, userId).value.transactions;
      && (forall i :: 0 <= i < |txs| ==> txs[i] in s.txs && txs[i].wallet == userId)
      && (forall i :: 0 <= i < |s.txs| && s.txs[i].wallet == userId ==> s.txs[i] in txs)
  {
    var txs := GetUserWalletWithTransactions(s, userId).value.transactions;
    var own := OwnTransactions(s.txs, userId);
    forall i | 0 <= i < |txs| ensures txs[i] in s.txs && txs[i].wallet == userId {
      assert txs[i] in multiset(txs);
      assert txs[i] in multiset(own);
    }
    forall i | 0 <= i < |s.txs| && s.txs[i].wallet == userId ensures s.txs[i] in txs {
      assert s.txs[i] in own;
      assert s.txs[i] in multiset(own);
      assert s.txs[i] in multiset(txs);
    }
  }
}
