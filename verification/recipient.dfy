/** `createPaystackRecipient` (src/services/paystack.service.ts): the
    transfer recipient code of a user's bank account, created at the gateway
    once and then remembered. The gateway's reply is a parameter. */
module PaystackService {
  import opened Common
  import opened ErrorHandler
  import opened Ledger

  const NotLinkedText: string := "Bank account not linked"

  /** The code (or error), the store after the call, and whether the
      gateway was called. */
  datatype RecipientOutcome = RecipientOutcome(result: Result<string, AppError>, store: Store, calledGateway: bool)

  function CreatePaystackRecipient(s: Store, userId: UserId, gateway: Result<string, AppError>): (r: RecipientOutcome)
    ensures userId !in s.banks ==> r == RecipientOutcome(Err(Fail(NotLinkedText)), s, false)
    ensures userId in s.banks && Truthy(s.banks[userId].recipientCode) ==>
      r == RecipientOutcome(Ok(s.banks[userId].recipientCode.value), s, false)
    ensures r.calledGateway <==> userId in s.banks && !Truthy(s.banks[userId].recipientCode)
    ensures r.calledGateway && gateway.Err? ==> r == RecipientOutcome(gateway, s, true)
    ensures r.calledGateway && gateway.Ok? ==>
      && r.result == gateway
      && r.store == s.(banks := s.banks[userId := s.banks[userId].(recipientCode := Some(gateway.value))])
  {
    if userId !in s.banks then RecipientOutcome(Err(Fail(NotLinkedText)), s, false)
    else
      var bank := s.banks[userId];
      if Truthy(bank.recipientCode) then RecipientOutcome(Ok(bank.recipientCode.value), s, false)
      else match gateway
        case Err(e) => RecipientOutcome(Err(e), s, true)
        case Ok(code) =>
          RecipientOutcome(Ok(code), s.(banks := s.banks[userId := bank.(recipientCode := Some(code))]), true)
  }

  /** Only the recipient code of that one bank account changes; wallets and
      the ledger are never touched, and the store's constraints hold. */
  lemma RecipientFrame(s: Store, userId: UserId, gateway: Result<string, AppError>)
    requires Valid(s)
    ensures var r := CreatePaystackRecipient(s, userId, gateway).store;
      && r.wallets == s.wallets && r.txs == s.txs && r.banks.Keys == s.banks.Keys
      && (forall u :: u in s.banks && u != userId ==> r.banks[u] == s.banks[u])
      && (userId in s.banks ==> r.banks[userId] == s.banks[userId].(recipientCode := r.banks[userId].recipientCode))
      && Valid(r)
  {
  }

  /** Idempotence: once a non-empty code has been obtained, calling again
      returns the same code without contacting the gateway, whatever the
      gateway would have said. */
  lemma {:induction false} RecipientIdempotent(s: Store, userId: UserId, first: Result<string, AppError>,
                                               second: Result<string, AppError>)
    requires CreatePaystackRecipient(s, userId, first).result.Ok?
    requires CreatePaystackRecipient(s, userId, first).result.value != ""
    ensures var r1 := CreatePaystackRecipient(s, userId, first);
      CreatePaystackRecipient(r1.store, userId, second) == RecipientOutcome(r1.result, r1.store, false)
  {
    var r1 := CreatePaystackRecipient(s, userId, first);
    assert userId in r1.store.banks;
    assert r1.store.banks[userId].recipientCode == Some(r1.result.value);
  }

  /** An empty code from the gateway is stored but not remembered: the next
      call contacts the gateway again. */
  lemma EmptyCodeNotRemembered(s: Store, userId: UserId, second: Result<string, AppError>)
    requires userId in s.banks && !Truthy(s.banks[userId].recipientCode)
    ensures var r1 := CreatePaystackRecipient(s, userId, Ok(""));
      CreatePaystackRecipient(r1.store, userId, second).calledGateway
  {
  }

  /** After a recipient code is obtained, a withdrawal no longer fails for
      want of one. */
  lemma RecipientEnablesWithdrawal(s: Store, userId: UserId, gateway: Result<string, AppError>)
    requires CreatePaystackRecipient(s, userId, gateway).result.Ok?
    requires CreatePaystackRecipient(s, userId, gateway).result.value != ""
    ensures HasRecipient(CreatePaystackRecipient(s, userId, gateway).store, userId)
  {
  }
}
