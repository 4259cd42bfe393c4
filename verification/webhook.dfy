/** The payment gateway's webhook (src/controllers/paystack.webhook.ts) as a
    pure transition from a store and one delivered event to an HTTP status
    and the next store. The HMAC-SHA512 signature comparison is the boolean
    `signatureValid`; a storage failure inside the database transaction is
    the boolean `storageFails`. */
module Webhook {
  import opened Common
  import opened Text
  import opened Ledger

  const ChargeSuccess: string := "charge.success"
  const TransferSuccess: string := "transfer.success"
  const TransferFailed: string := "transfer.failed"

  datatype WebhookEvent = WebhookEvent(event: string, data: EventData)

  /** The status sent back and the store after the request. */
  datatype Delivery = Delivery(status: nat, store: Store)

  /** The transaction row after the update inside the atomic block. */
  function Settle(t: Transaction, status: TxStatus, data: EventData): (t': Transaction)
    ensures t'.status == status && t'.paystackRef == Some(NatToDecimal(data.id))
    ensures t'.channel == Some(data.channel) && t'.metadata == Some(data)
    ensures t'.wallet == t.wallet && t'.kind == t.kind && t'.amount == t.amount
    ensures t'.reference == t.reference && t'.createdAt == t.createdAt
  {
    t.(status := status, paystackRef := Some(NatToDecimal(data.id)), channel := Some(data.channel),
       metadata := Some(data))
  }

  /** `wallet.update({ data: { balance: { increment: amount } } })`. */
  function Credit(wallets: map<UserId, Wallet>, owner: UserId, amount: real): (w: map<UserId, Wallet>)
    requires owner in wallets
    ensures w.Keys == wallets.Keys
    ensures w[owner] == wallets[owner].(balance := wallets[owner].balance + amount)
    ensures forall u :: u in wallets && u != owner ==> w[u] == wallets[u]
  {
    wallets[owner := wallets[owner].(balance := wallets[owner].balance + amount)]
  }

  /** The body of `prisma.$transaction`: the optional balance increment and
      the status write of transaction `i` commit together, or, when storage
      fails or the wallet row is missing (the update throws), neither does
      and the handler answers 500. */
  function ApplyAtomically(s: Store, i: nat, status: TxStatus, credit: Option<real>,
                           data: EventData, storageFails: bool): (r: Delivery)
    requires i < |s.txs|
    ensures r.status == 200 || r.status == 500
    ensures r.status == 500 ==> r.store == s
    ensures r.status == 200 <==> !storageFails && (credit.None? || s.txs[i].wallet in s.wallets)
    ensures r.store.banks == s.banks && r.store.wallets.Keys == s.wallets.Keys && |r.store.txs| == |s.txs|
    ensures forall j :: 0 <= j < |s.txs| ==>
      r.store.txs[j].reference == s.txs[j].reference && r.store.txs[j].kind == s.txs[j].kind
    ensures forall j :: 0 <= j < |s.txs| && j != i ==> r.store.txs[j] == s.txs[j]
  {
    var owner := s.txs[i].wallet;
    if storageFails || (credit.Some? && owner !in s.wallets) then Delivery(500, s)
    else
      var wallets := if credit.Some? then Credit(s.wallets, owner, credit.value) else s.wallets;
      Delivery(200, Store(wallets, s.txs[i := Settle(s.txs[i], status, data)], s.banks))
  }

  /** `paystackWebhook`. */
  function HandleWebhook(s: Store, signatureValid: bool, ev: WebhookEvent, storageFails: bool): (r: Delivery)
    ensures r.status in {200, 401, 500}
    ensures r.status == 401 <==> !signatureValid
    ensures r.status != 200 ==> r.store == s
    ensures r.store.banks == s.banks && r.store.wallets.Keys == s.wallets.Keys
    ensures |r.store.txs| == |s.txs|
    ensures forall j :: 0 <= j < |s.txs| ==> r.store.txs[j].reference == s.txs[j].reference
    ensures forall j :: 0 <= j < |s.txs| ==> r.store.txs[j].kind == s.txs[j].kind
    ensures forall j :: 0 <= j < |s.txs| && s.txs[j].status == Success ==> r.store.txs[j] == s.txs[j]
  {
    if !signatureValid then Delivery(401, s)
    else if ev.event == ChargeSuccess then
      match FindTx(s.txs, ev.data.reference)
      case None => Delivery(200, s)
      case Some(i) =>
        if s.txs[i].status == Success then Delivery(200, s)
        else ApplyAtomically(s, i, Success, Some(Naira(ev.data.amountKobo)), ev.data, storageFails)
    else if ev.event == TransferSuccess || ev.event == TransferFailed then
      match FindTx(s.txs, ev.data.reference)
      case None => Delivery(200, s)
      case Some(i) =>
        if s.txs[i].status == Success then Delivery(200, s)
        else if ev.event == TransferSuccess then
          ApplyAtomically(s, i, Success, None, ev.data, storageFails)
        else
          ApplyAtomically(s, i, Failed, Some(Naira(ev.data.amountKobo)), ev.data, storageFails)
    else Delivery(200, s)
  }

  /** Every delivery keeps the store's constraints. */
  lemma WebhookKeepsValid(s: Store, signatureValid: bool, ev: WebhookEvent, storageFails: bool)
    requires Valid(s)
    ensures Valid(HandleWebhook(s, signatureValid, ev, storageFails).store)
  {
    var r := HandleWebhook(s, signatureValid, ev, storageFails);
    assert forall i, j :: 0 <= i < j < |r.store.txs| ==>
      r.store.txs[i].reference == s.txs[i].reference && r.store.txs[j].reference == s.txs[j].reference;
  }

  /** A forged or corrupted delivery is rejected with 401 and changes nothing. */
  lemma BadSignatureRejected(s: Store, ev: WebhookEvent, storageFails: bool)
    ensures HandleWebhook(s, false, ev, storageFails) == Delivery(401, s)
  {
  }

  /** `charge.success` for an unknown reference, or for a transaction that is
      already SUCCESS, is acknowledged and changes nothing. */
  lemma ChargeIgnoredWhenUnknownOrSettled(s: Store, ev: WebhookEvent, storageFails: bool)
    requires ev.event == ChargeSuccess
    requires FindTx(s.txs, ev.data.reference).None? ||
             s.txs[FindTx(s.txs, ev.data.reference).value].status == Success
    ensures HandleWebhook(s, true, ev, storageFails) == Delivery(200, s)
  {
  }

  /** `charge.success` on a transaction that is not yet SUCCESS credits the
      event's amount (not the stored one, and whatever the transaction's type)
      to exactly that transaction's wallet, settles exactly that transaction,
      and leaves everything else as it was. */
  lemma ChargeCreditsOnce(s: Store, ev: WebhookEvent, i: nat)
    requires ev.event == ChargeSuccess
    requires FindTx(s.txs, ev.data.reference) == Some(i)
    requires s.txs[i].status != Success && s.txs[i].wallet in s.wallets
    ensures var r := HandleWebhook(s, true, ev, false);
      var owner := s.txs[i].wallet;
      && r.status == 200
      && r.store.wallets[owner].balance == s.wallets[owner].balance + Naira(ev.data.amountKobo)
      && r.store.wallets[owner].currency == s.wallets[owner].currency
      && (forall u :: u in s.wallets && u != owner ==> r.store.wallets[u] == s.wallets[u])
      && r.store.txs[i] == Settle(s.txs[i], Success, ev.data)
      && (forall j :: 0 <= j < |s.txs| && j != i ==> r.store.txs[j] == s.txs[j])
  {
  }

  /** Delivering `charge.success` again after it was applied hits the SUCCESS
      guard: 200 and no further change. */
  lemma ChargeReplayIsNoOp(s: Store, ev: WebhookEvent, storageFails: bool)
    requires ev.event == ChargeSuccess
    requires HandleWebhook(s, true, ev, false).status == 200
    ensures var s1 := HandleWebhook(s, true, ev, false).store;
      HandleWebhook(s1, true, ev, storageFails) == Delivery(200, s1)
  {
    var s1 := HandleWebhook(s, true, ev, false).store;
    match FindTx(s.txs, ev.data.reference)
    case None =>
    case Some(i) =>
      assert s1.txs[i].status == Success;
      assert FindTx(s1.txs, ev.data.reference) == Some(i);
  }

  /** `n` successful deliveries of the same event, one after the other. */
  function Redeliver(s: Store, ev: WebhookEvent, n: nat): Store
    decreases n
  {
    if n == 0 then s else Redeliver(HandleWebhook(s, true, ev, false).store, ev, n - 1)
  }

  /** However many times the gateway redelivers a funding event, the wallet
      is credited once: after any positive number of deliveries the store is
      the store after the first. */
  lemma {:induction false} ChargeRedeliveryCreditsOnce(s: Store, ev: WebhookEvent, n: nat)
    requires ev.event == ChargeSuccess && n >= 1
    requires HandleWebhook(s, true, ev, false).status == 200
    ensures Redeliver(s, ev, n) == HandleWebhook(s, true, ev, false).store
    decreases n
  {
    var s1 := HandleWebhook(s, true, ev, false).store;
    if n > 1 {
      ChargeReplayIsNoOp(s, ev, false);
      assert HandleWebhook(s1, true, ev, false) == Delivery(200, s1);
      ChargeRedeliveryCreditsOnce(s1, ev, n - 1);
    }
  }

  /** `transfer.success` never changes any balance; on a known transaction
      that is not yet SUCCESS it settles that transaction as SUCCESS. */
  lemma TransferSuccessSettles(s: Store, ev: WebhookEvent, i: nat, storageFails: bool)
    requires ev.event == TransferSuccess
    ensures HandleWebhook(s, true, ev, storageFails).store.wallets == s.wallets
    ensures FindTx(s.txs, ev.data.reference) == Some(i) && s.txs[i].status != Success && !storageFails ==>
      HandleWebhook(s, true, ev, storageFails) ==
        Delivery(200, s.(txs := s.txs[i := Settle(s.txs[i], Success, ev.data)]))
  {
  }

  /** `transfer.failed` on a known transaction that is not yet SUCCESS refunds
      the event's amount to its wallet and marks it FAILED. */
  lemma TransferFailedRefunds(s: Store, ev: WebhookEvent, i: nat)
    requires ev.event == TransferFailed
    requires FindTx(s.txs, ev.data.reference) == Some(i)
    requires s.txs[i].status != Success && s.txs[i].wallet in s.wallets
    ensures var r := HandleWebhook(s, true, ev, false);
      var owner := s.txs[i].wallet;
      && r.status == 200
      && r.store.wallets == Credit(s.wallets, owner, Naira(ev.data.amountKobo))
      && r.store.txs == s.txs[i := Settle(s.txs[i], Failed, ev.data)]
  {
  }

  /** The guard excludes only SUCCESS, so a FAILED transaction is processed
      again: a replayed `transfer.failed` refunds a second time. */
  lemma TransferFailedReplayRefundsAgain(s: Store, ev: WebhookEvent, i: nat)
    requires ev.event == TransferFailed
    requires FindTx(s.txs, ev.data.reference) == Some(i)
    requires s.txs[i].status != Success && s.txs[i].wallet in s.wallets
    ensures var s1 := HandleWebhook(s, true, ev, false).store;
      var s2 := HandleWebhook(s1, true, ev, false).store;
      var owner := s.txs[i].wallet;
      && s1.txs[i].status == Failed
      && owner in s2.wallets
      && s2.wallets[owner].balance == s.wallets[owner].balance + 2.0 * Naira(ev.data.amountKobo)
  {
    var s1 := HandleWebhook(s, true, ev, false).store;
    TransferFailedRefunds(s, ev, i);
    assert FindTx(s1.txs, ev.data.reference) == Some(i);
    TransferFailedRefunds(s1, ev, i);
  }

  /** Event types other than the three handled ones are acknowledged and ignored. */
  lemma OtherEventsIgnored(s: Store, ev: WebhookEvent, storageFails: bool)
    requires ev.event !in {ChargeSuccess, TransferSuccess, TransferFailed}
    ensures HandleWebhook(s, true, ev, storageFails) == Delivery(200, s)
  {
  }

  /** A storage failure inside the atomic block, on a delivery that reaches
      it, answers 500 and leaves balance and status both untouched. */
  lemma StorageFailureIsAllOrNothing(s: Store, ev: WebhookEvent)
    requires ev.event in {ChargeSuccess, TransferSuccess, TransferFailed}
    requires FindTx(s.txs, ev.data.reference).Some?
    requires s.txs[FindTx(s.txs, ev.data.reference).value].status != Success
    ensures HandleWebhook(s, true, ev, true) == Delivery(500, s)
  {
  }
}
