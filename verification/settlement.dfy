/** Two defects of the wallet ledger, each shown on the code as written and
    then repaired.

    As written, a withdrawal records a PENDING row but leaves the balance
    alone (src/services/wallet.service.ts:68-77), while `transfer.failed`
    refunds the amount (src/controllers/paystack.webhook.ts:66-72), and the
    webhook's "already processed" guard skips only SUCCESS rows
    (src/controllers/paystack.webhook.ts:29, :61). A failed transfer
    therefore adds money that was never taken, and every replay of the
    failure adds it again.

    The repaired ledger holds the amount when the withdrawal is recorded,
    processes an event only for a PENDING row of the matching type, and
    credits or refunds the amount stored on the row. It keeps every balance
    equal to the sum of its owner's settled ledger, and every event is
    idempotent. */
module Settlement {
  import opened Common
  import opened ErrorHandler
  import opened Ledger
  import opened Webhook
  import opened WalletService

  /** What a row adds to user `u`'s balance: a funding once it succeeded; a
      withdrawal, negatively, from the moment it is recorded until it fails. */
  function Contribution(t: Transaction, u: UserId): real {
    if t.wallet != u then 0.0
    else match t.kind
      case Fund => if t.status == Success then t.amount else 0.0
      case Withdraw => if t.status == Failed then 0.0 else -t.amount
  }

  /** The sum of the contributions of a ledger to `u`'s balance. */
  function Net(txs: seq<Transaction>, u: UserId): real
    decreases |txs|
  {
    if |txs| == 0 then 0.0 else Net(txs[..|txs| - 1], u) + Contribution(txs[|txs| - 1], u)
  }

  lemma NetAppend(txs: seq<Transaction>, t: Transaction, u: UserId)
    ensures Net(txs + [t], u) == Net(txs, u) + Contribution(t, u)
  {
    assert (txs + [t])[..|txs|] == txs;
  }

  /** Rewriting one row changes the sum by that row's change alone. */
  lemma {:induction false} NetUpdate(txs: seq<Transaction>, i: nat, t: Transaction, u: UserId)
    requires i < |txs|
    ensures Net(txs[i := t], u) == Net(txs, u) - Contribution(txs[i], u) + Contribution(t, u)
    decreases |txs|
  {
    var n := |txs| - 1;
    if i == n {
      assert txs[i := t][..n] == txs[..n];
    } else {
      assert txs[i := t][..n] == txs[..n][i := t];
      NetUpdate(txs[..n], i, t, u);
    }
  }

  /** The ledger invariant: every row belongs to an existing wallet, and
      every balance is what its owner's rows add up to. */
  predicate Conserved(s: Store) {
    && (forall j :: 0 <= j < |s.txs| ==> s.txs[j].wallet in s.wallets)
    && (forall u :: u in s.wallets ==> s.wallets[u].balance == Net(s.txs, u))
  }

  /** A ledger with no rows and empty wallets is conserved. */
  lemma EmptyLedgerConserved(wallets: map<UserId, Wallet>, banks: map<UserId, BankAccount>)
    requires forall u :: u in wallets ==> wallets[u].balance == 0.0
    ensures Conserved(Store(wallets, [], banks))
  {
  }

  /** The repaired withdrawal: the same checks and the same row, and the
      amount is taken from the balance when the row is recorded. */
  function WithdrawHeld(s: Store, userId: UserId, amount: real, reference: string, now: int,
                        gateway: Result<string, AppError>): (r: Outcome<Withdrawal>)
    ensures var w := WithdrawFromWallet(s, userId, amount, reference, now, gateway);
      r.result == w.result && r.sent == w.sent && r.store.txs == w.store.txs
    ensures r.sent.None? ==> r.store == s
    ensures r.sent.Some? ==>
      && userId in s.wallets
      && r.store.wallets == s.wallets[userId := s.wallets[userId].(balance := s.wallets[userId].balance - amount)]
  {
    var w := WithdrawFromWallet(s, userId, amount, reference, now, gateway);
    if w.sent.Some? then w.(store := w.store.(wallets := Credit(s.wallets, userId, -amount))) else w
  }

  /** The deliveries the repaired webhook acts on: a handled event whose
      reference names a PENDING row of the event's own type. */
  predicate Processes(s: Store, ev: WebhookEvent) {
    && ev.event in {ChargeSuccess, TransferSuccess, TransferFailed}
    && FindTx(s.txs, ev.data.reference).Some?
    && var t := s.txs[FindTx(s.txs, ev.data.reference).value];
       t.status == Pending && (t.kind == Fund <==> ev.event == ChargeSuccess)
  }

  /** The repaired webhook: an event acts only on a PENDING row of its own
      type (funding for `charge.success`, withdrawal for the transfers), and
      moves the amount stored on the row. Every other signed delivery is
      acknowledged with 200 and changes nothing, even when storage is down. */
  function HandleWebhookSettled(s: Store, signatureValid: bool, ev: WebhookEvent, storageFails: bool): (r: Delivery)
    ensures r.status in {200, 401, 500}
    ensures r.status == 401 <==> !signatureValid
    ensures signatureValid && !Processes(s, ev) ==> r == Delivery(200, s)
    ensures signatureValid && Processes(s, ev) && storageFails ==> r == Delivery(500, s)
    ensures r.status != 200 ==> r.store == s
    ensures |r.store.txs| == |s.txs| && r.store.banks == s.banks
    ensures forall j :: 0 <= j < |s.txs| && s.txs[j].status != Pending ==> r.store.txs[j] == s.txs[j]
  {
    if !signatureValid then Delivery(401, s)
    else if ev.event in {ChargeSuccess, TransferSuccess, TransferFailed} then
      match FindTx(s.txs, ev.data.reference)
      case None => Delivery(200, s)
      case Some(i) =>
        var t := s.txs[i];
        if t.status != Pending then Delivery(200, s)
        else if ev.event == ChargeSuccess then
          if t.kind != Fund then Delivery(200, s)
          else ApplyAtomically(s, i, Success, Some(t.amount), ev.data, storageFails)
        else if t.kind != Withdraw then Delivery(200, s)
        else if ev.event == TransferSuccess then ApplyAtomically(s, i, Success, None, ev.data, storageFails)
        else ApplyAtomically(s, i, Failed, Some(t.amount), ev.data, storageFails)
    else Delivery(200, s)
  }

  /** On the deliveries it processes, the repaired webhook answers exactly
      as `paystackWebhook` does whenever the event's amount is the amount
      stored on the row (a `transfer.success` moves no money, so for it the
      amounts need not agree). */
  lemma SettledAgreesWithOriginal(s: Store, signatureValid: bool, ev: WebhookEvent, storageFails: bool)
    requires Processes(s, ev)
    requires ev.event != TransferSuccess ==>
      Naira(ev.data.amountKobo) == s.txs[FindTx(s.txs, ev.data.reference).value].amount
    ensures HandleWebhookSettled(s, signatureValid, ev, storageFails) == HandleWebhook(s, signatureValid, ev, storageFails)
  {
  }

  /** Where the two differ: a `transfer.failed` replayed on a FAILED row is
      acknowledged by the repaired webhook without touching storage, while
      `paystackWebhook` tries the refund again and answers 500 when storage
      fails. */
  lemma SettledSkipsWhereOriginalFails(s: Store, ev: WebhookEvent)
    requires ev.event == TransferFailed
    requires FindTx(s.txs, ev.data.reference).Some?
    requires s.txs[FindTx(s.txs, ev.data.reference).value].status == Failed
    ensures HandleWebhookSettled(s, true, ev, true) == Delivery(200, s)
    ensures HandleWebhook(s, true, ev, true) == Delivery(500, s)
  {
  }

  /** An atomic settlement whose credit is exactly the change of the row's
      contribution keeps the ledger conserved. */
  lemma ApplyKeepsConserved(s: Store, i: nat, status: TxStatus, credit: Option<real>, data: EventData, storageFails: bool)
    requires Conserved(s) && i < |s.txs|
    requires Contribution(Settle(s.txs[i], status, data), s.txs[i].wallet) - Contribution(s.txs[i], s.txs[i].wallet)
             == credit.GetOr(0.0)
    ensures Conserved(ApplyAtomically(s, i, status, credit, data, storageFails).store)
  {
    var r := ApplyAtomically(s, i, status, credit, data, storageFails);
    if r.status == 200 {
      var t := s.txs[i];
      var t' := Settle(t, status, data);
      var owner := t.wallet;
      assert owner in s.wallets;
      assert r.store.txs == s.txs[i := t'];
      forall u | u in r.store.wallets ensures r.store.wallets[u].balance == Net(r.store.txs, u) {
        NetUpdate(s.txs, i, t', u);
        if u != owner {
          assert Contribution(t, u) == 0.0 && Contribution(t', u) == 0.0;
        }
      }
    }
  }

  /** Every delivery to the repaired webhook keeps the ledger conserved. */
  lemma SettledKeepsConserved(s: Store, signatureValid: bool, ev: WebhookEvent, storageFails: bool)
    requires Conserved(s)
    ensures Conserved(HandleWebhookSettled(s, signatureValid, ev, storageFails).store)
  {
    if signatureValid && ev.event in {ChargeSuccess, TransferSuccess, TransferFailed} {
      match FindTx(s.txs, ev.data.reference)
      case None =>
      case Some(i) =>
        var t := s.txs[i];
        if t.status == Pending {
          if ev.event == ChargeSuccess && t.kind == Fund {
            ApplyKeepsConserved(s, i, Success, Some(t.amount), ev.data, storageFails);
          } else if ev.event == TransferSuccess && t.kind == Withdraw {
            ApplyKeepsConserved(s, i, Success, None, ev.data, storageFails);
          } else if ev.event == TransferFailed && t.kind == Withdraw {
            ApplyKeepsConserved(s, i, Failed, Some(t.amount), ev.data, storageFails);
          }
        }
    }
  }

  /** Recording a funding keeps the ledger conserved: a PENDING funding adds
      nothing yet. */
  lemma FundingKeepsConserved(s: Store, userId: UserId, amount: real, email: string, now: nat,
                              frontendUrl: string, gateway: Result<InitData, AppError>)
    requires Conserved(s)
    ensures Conserved(InitializeWalletFunding(s, userId, amount, email, now, frontendUrl, gateway).store)
  {
    var r := InitializeWalletFunding(s, userId, amount, email, now, frontendUrl, gateway);
    if r.sent.Some? {
      var t := NewPending(userId, Fund, amount, FundingReference(now, userId), now);
      forall u | u in r.store.wallets ensures r.store.wallets[u].balance == Net(r.store.txs, u) {
        NetAppend(s.txs, t, u);
      }
    }
  }

  /** The repaired withdrawal keeps the ledger conserved: the row and the
      hold on the balance appear together. */
  lemma WithdrawHeldKeepsConserved(s: Store, userId: UserId, amount: real, reference: string, now: int,
                                   gateway: Result<string, AppError>)
    requires Conserved(s)
    ensures Conserved(WithdrawHeld(s, userId, amount, reference, now, gateway).store)
  {
    var r := WithdrawHeld(s, userId, amount, reference, now, gateway);
    if r.sent.Some? {
      var t := NewPending(userId, Withdraw, amount, reference, now);
      forall u | u in r.store.wallets ensures r.store.wallets[u].balance == Net(r.store.txs, u) {
        NetAppend(s.txs, t, u);
      }
    }
  }

  /** A created wallet starts conserved: in a conserved ledger a user
      without a wallet has no rows yet. */
  lemma CreateWalletKeepsConserved(s: Store, userId: UserId, userExists: bool)
    requires Conserved(s)
    ensures CreateWalletForUser(s, userId, userExists).Ok? ==> Conserved(CreateWalletForUser(s, userId, userExists).value)
  {
    if CreateWalletForUser(s, userId, userExists).Ok? {
      assert forall j :: 0 <= j < |s.txs| ==> s.txs[j].wallet != userId;
      NoRowsNoNet(s.txs, userId);
    }
  }

  lemma {:induction false} NoRowsNoNet(txs: seq<Transaction>, u: UserId)
    requires forall j :: 0 <= j < |txs| ==> txs[j].wallet != u
    ensures Net(txs, u) == 0.0
    decreases |txs|
  {
    if |txs| > 0 {
      NoRowsNoNet(txs[..|txs| - 1], u);
    }
  }

  /** A settlement never changes which row carries which reference, and the
      row it touches is no longer pending. */
  lemma SettledKeepsReferences(s: Store, ev: WebhookEvent)
    ensures var s1 := HandleWebhookSettled(s, true, ev, false).store;
      && |s1.txs| == |s.txs|
      && (forall j :: 0 <= j < |s.txs| ==> s1.txs[j].reference == s.txs[j].reference)
      && (forall j :: 0 <= j < |s.txs| && s1.txs[j] != s.txs[j] ==> s1.txs[j].status != Pending)
  {
    if ev.event in {ChargeSuccess, TransferSuccess, TransferFailed} {
      match FindTx(s.txs, ev.data.reference)
      case None =>
      case Some(i) =>
        var t := s.txs[i];
        if t.status == Pending {
          var status := if ev.event == TransferFailed then Failed else Success;
          var credit := if ev.event == TransferSuccess then None else Some(t.amount);
          ApplyTouchesOneRow(s, i, status, credit, ev.data);
        }
    }
  }

  /** A successful atomic settlement rewrites row `i` alone, to `status`,
      and keeps every reference. */
  lemma ApplyTouchesOneRow(s: Store, i: nat, status: TxStatus, credit: Option<real>, data: EventData)
    requires i < |s.txs| && status != Pending
    ensures var s1 := ApplyAtomically(s, i, status, credit, data, false).store;
      && |s1.txs| == |s.txs|
      && (forall j :: 0 <= j < |s.txs| ==> s1.txs[j].reference == s.txs[j].reference)
      && (forall j :: 0 <= j < |s.txs| && s1.txs[j] != s.txs[j] ==> s1.txs[j].status != Pending)
  {
  }

  /** Every event to the repaired webhook is idempotent: once a delivery
      has been applied, delivering it again changes nothing. */
  lemma SettledReplayIsNoOp(s: Store, ev: WebhookEvent, storageFails: bool)
    requires HandleWebhookSettled(s, true, ev, false).status == 200
    ensures var s1 := HandleWebhookSettled(s, true, ev, false).store;
      HandleWebhookSettled(s1, true, ev, storageFails) == Delivery(200, s1)
  {
    var s1 := HandleWebhookSettled(s, true, ev, false).store;
    SettledKeepsReferences(s, ev);
    SameReferencesSameFind(s.txs, s1.txs, ev.data.reference);
  }

  /** As written: a withdrawal followed by its `transfer.failed` leaves the
      owner richer by the amount, since nothing was taken but the amount is
      refunded. */
  lemma WithdrawThenFailMintsMoney(s: Store, userId: UserId, amount: real, reference: string, now: int,
                                   gateway: Result<string, AppError>, data: EventData)
    requires Valid(s) && userId in s.wallets && HasRecipient(s, userId)
    requires amount <= s.wallets[userId].balance && FindTx(s.txs, reference).None?
    requires data.reference == reference && Naira(data.amountKobo) == amount
    ensures var s1 := WithdrawFromWallet(s, userId, amount, reference, now, gateway).store;
      var s2 := HandleWebhook(s1, true, WebhookEvent(TransferFailed, data), false).store;
      s2.wallets[userId].balance == s.wallets[userId].balance + amount
  {
    var s1 := WithdrawFromWallet(s, userId, amount, reference, now, gateway).store;
    AppendKeepsUnique(s.txs, NewPending(userId, Withdraw, amount, reference, now));
    FindTxUnique(s1.txs, reference, |s.txs|);
    TransferFailedRefunds(s1, WebhookEvent(TransferFailed, data), |s.txs|);
  }

  /** Repaired: a withdrawal followed by its `transfer.failed`, delivered
      any number of times, returns the owner to the opening balance. */
  lemma WithdrawThenFailRestores(s: Store, userId: UserId, amount: real, reference: string, now: int,
                                 gateway: Result<string, AppError>, data: EventData)
    requires Valid(s) && userId in s.wallets && HasRecipient(s, userId)
    requires amount <= s.wallets[userId].balance && FindTx(s.txs, reference).None?
    requires data.reference == reference
    ensures var s1 := WithdrawHeld(s, userId, amount, reference, now, gateway).store;
      var s2 := HandleWebhookSettled(s1, true, WebhookEvent(TransferFailed, data), false).store;
      var s3 := HandleWebhookSettled(s2, true, WebhookEvent(TransferFailed, data), false).store;
      && s1.wallets[userId].balance == s.wallets[userId].balance - amount
      && s2.wallets[userId].balance == s.wallets[userId].balance
      && s3 == s2
  {
    var s1 := WithdrawHeld(s, userId, amount, reference, now, gateway).store;
    var ev := WebhookEvent(TransferFailed, data);
    AppendKeepsUnique(s.txs, NewPending(userId, Withdraw, amount, reference, now));
    FindTxUnique(s1.txs, reference, |s.txs|);
    SettledReplayIsNoOp(s1, ev, false);
  }
}
