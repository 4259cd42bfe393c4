/** The wallet endpoints (src/controllers/wallet.controller.ts): request
    guards in front of the service, and every service error answered as
    400 with the error's message. The authenticated user id is a parameter. */
module WalletController {
  import opened Common
  import opened ErrorHandler
  import opened Ledger
  import opened WalletService
  import Sorting

  /** A JSON reply: `{ success: true, ... }` with status 200, or
      `{ success: false, message }` with the given status. */
  datatype Reply<T> = Answered(body: T) | Rejected(status: nat, message: string)

  datatype FundBody = FundBody(authorizationUrl: string, reference: string)

  datatype Answer<T> = Answer(reply: Reply<T>, store: Store, sent: Option<GatewayRequest>)

  const EmailRequiredText: string := "Email is required"
  const InvalidAmountText: string := "Invalid amount"

  /** The catch blocks: any error becomes 400 with its message. */
  function ToReply<T, U>(result: Result<T, AppError>, body: T -> U): (r: Reply<U>)
    ensures result.Ok? ==> r == Answered(body(result.value))
    ensures result.Err? ==> r == Rejected(400, result.error.message)
  {
    match result
    case Ok(v) => Answered(body(v))
    case Err(e) => Rejected(400, e.message)
  }

  /** `fundWallet`. The email is checked for truthiness; the amount is not
      checked here at all, and may be absent: only the service refuses it. */
  function FundWallet(s: Store, userId: UserId, amount: Option<real>, email: Option<string>, now: nat,
                      frontendUrl: string, gateway: Result<InitData, AppError>): (r: Answer<FundBody>)
    ensures !Truthy(email) ==> r == Answer(Rejected(400, EmailRequiredText), s, None)
    ensures Truthy(email) ==>
      var o := InitializeFromBody(s, userId, amount, email.value, now, frontendUrl, gateway);
      && r.store == o.store && r.sent == o.sent
      && (o.result.Ok? ==> r.reply == Answered(FundBody(o.result.value.authorizationUrl, o.result.value.reference)))
      && (o.result.Err? ==> r.reply == Rejected(400, o.result.error.message))
    ensures Truthy(email) && amount.None? ==>
      && r.store == s && r.sent.None?
      && r.reply == Rejected(400, if userId in s.wallets then AmountMissingText else WalletNotFoundText)
  {
    if !Truthy(email) then Answer(Rejected(400, EmailRequiredText), s, None)
    else
      var o := InitializeFromBody(s, userId, amount, email.value, now, frontendUrl, gateway);
      Answer(ToReply(o.result, (d: InitData) => FundBody(d.authorizationUrl, d.reference)), o.store, o.sent)
  }

  /** The amount guard `!amount || amount <= 0`: a missing amount, zero and
      any negative amount are refused. */
  predicate InvalidAmount(amount: Option<real>) {
    amount.None? || amount.value <= 0.0
  }

  /** `withdrawWallet`. */
  function WithdrawWallet(s: Store, userId: UserId, amount: Option<real>, reference: string, now: int,
                          gateway: Result<string, AppError>): (r: Answer<Withdrawal>)
    ensures InvalidAmount(amount) ==> r == Answer(Rejected(400, InvalidAmountText), s, None)
    ensures !InvalidAmount(amount) ==>
      var o := WithdrawFromWallet(s, userId, amount.value, reference, now, gateway);
      && r.store == o.store && r.sent == o.sent
      && (o.result.Ok? ==> r.reply == Answered(o.result.value))
      && (o.result.Err? ==> r.reply == Rejected(400, o.result.error.message))
  {
    if InvalidAmount(amount) then Answer(Rejected(400, InvalidAmountText), s, None)
    else
      var o := WithdrawFromWallet(s, userId, amount.value, reference, now, gateway);
      Answer(ToReply(o.result, (w: Withdrawal) => w), o.store, o.sent)
  }

  /** `getWallet`. */
  function GetWallet(s: Store, userId: UserId): (r: Reply<WalletView>)
    ensures userId in s.wallets <==> r.Answered?
    ensures r.Rejected? ==> r == Rejected(400, WalletNotFoundText)
    ensures r.Answered? ==> r.body.wallet == s.wallets[userId]
    ensures r.Answered? ==> Sorting.SortedDesc(r.body.transactions, (t: Transaction) => t.createdAt)
    ensures r.Answered? ==> multiset(r.body.transactions) == multiset(OwnTransactions(s.txs, userId))
  {
    ToReply(GetUserWalletWithTransactions(s, userId), (v: WalletView) => v)
  }

  /** A funding below the minimum is passed through by the controller and
      refused by the service, with the service's message. */
  lemma SmallFundingRefusedByService(s: Store, userId: UserId, amount: real, email: string, now: nat,
                                     frontendUrl: string, gateway: Result<InitData, AppError>)
    requires email != "" && amount < MinimumFunding
    ensures FundWallet(s, userId, Some(amount), Some(email), now, frontendUrl, gateway)
            == Answer(Rejected(400, MinimumFundingText), s, None)
  {
  }

  /** On success the reply copies the gateway's URL and reference. */
  lemma FundingReplyCopiesGateway(s: Store, userId: UserId, amount: real, email: string, now: nat,
                                  frontendUrl: string, data: InitData)
    requires email != "" && amount >= MinimumFunding && userId in s.wallets
    requires FindTx(s.txs, FundingReference(now, userId)).None?
    ensures FundWallet(s, userId, Some(amount), Some(email), now, frontendUrl, Ok(data)).reply
            == Answered(FundBody(data.authorizationUrl, data.reference))
  {
  }

  /** Replies are 200 on success and 400 on every failure. */
  lemma WalletFailuresAre400(s: Store, userId: UserId, amount: Option<real>, reference: string, now: int,
                             gateway: Result<string, AppError>)
    ensures var r := WithdrawWallet(s, userId, amount, reference, now, gateway).reply;
      r.Rejected? ==> r.status == 400
    ensures GetWallet(s, userId).Rejected? ==> GetWallet(s, userId).status == 400
  {
  }
}
