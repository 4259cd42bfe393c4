/** The wallet data model: one wallet per user, the transaction ledger keyed
    by a unique reference, and the users' bank accounts. */
module Ledger {
  import opened Common
  import opened Text
  import Tables

  type UserId = nat

  datatype TxType = Fund | Withdraw

  datatype TxStatus = Pending | Success | Failed

  /** The `data` object of a gateway event: the reference the transaction
      was created with, the amount in kobo, the gateway's own id and the
      payment channel. The whole object is also stored as metadata. */
  datatype EventData = EventData(reference: string, amountKobo: int, id: nat, channel: string)

  datatype Transaction = Transaction(
    wallet: UserId,            // the owning wallet, named by its user
    kind: TxType,
    amount: real,
    reference: string,
    status: TxStatus,
    paystackRef: Option<string>,
    channel: Option<string>,
    metadata: Option<EventData>,
    createdAt: int)

  datatype Wallet = Wallet(userId: UserId, balance: real, currency: string)

  datatype BankAccount = BankAccount(
    userId: UserId,
    accountName: string,
    accountNumber: string,
    bankCode: string,
    recipientCode: Option<string>)

  /** Wallets and bank accounts are unique per user, so both are keyed by
      the owner; the ledger is the table of transactions in creation order. */
  datatype Store = Store(
    wallets: map<UserId, Wallet>,
    txs: seq<Transaction>,
    banks: map<UserId, BankAccount>)

  predicate UniqueReferences(txs: seq<Transaction>) {
    forall i, j :: 0 <= i < j < |txs| ==> txs[i].reference != txs[j].reference
  }

  /** The database constraints the model relies on: references are unique
      and every wallet and bank account sits under its owner's id. */
  predicate Valid(s: Store) {
    && UniqueReferences(s.txs)
    && (forall u :: u in s.wallets ==> s.wallets[u].userId == u)
    && (forall u :: u in s.banks ==> s.banks[u].userId == u)
  }

  /** JavaScript truthiness of an optional string: present and non-empty. */
  predicate Truthy(s: Option<string>) {
    s.Some? && s.value != ""
  }

  /** The user has a bank account whose recipient code is set (truthy). */
  predicate HasRecipient(s: Store, userId: UserId) {
    userId in s.banks && Truthy(s.banks[userId].recipientCode)
  }

  /** `transaction.findUnique({ where: { reference } })`. */
  function FindTx(txs: seq<Transaction>, reference: string): (r: Option<nat>)
    ensures r.Some? ==> r.value < |txs| && txs[r.value].reference == reference
    ensures r.Some? ==> forall j :: 0 <= j < r.value ==> txs[j].reference != reference
    ensures r.None? <==> forall j :: 0 <= j < |txs| ==> txs[j].reference != reference
  {
    Tables.FindFirst(txs, (t: Transaction) => t.reference == reference)
  }

  /** The reference lookup depends only on the reference column. */
  lemma SameReferencesSameFind(txs: seq<Transaction>, txs': seq<Transaction>, reference: string)
    requires |txs'| == |txs|
    requires forall j :: 0 <= j < |txs| ==> txs'[j].reference == txs[j].reference
    ensures FindTx(txs', reference) == FindTx(txs, reference)
  {
  }

  /** A unique reference identifies its transaction: any row carrying it is
      the one `FindTx` returns. */
  lemma FindTxUnique(txs: seq<Transaction>, reference: string, k: nat)
    requires UniqueReferences(txs)
    requires k < |txs| && txs[k].reference == reference
    ensures FindTx(txs, reference) == Some(k)
  {
  }

  /** Kobo to naira: `event.data.amount / 100`, exact here. */
  function Naira(kobo: int): real {
    kobo as real / 100.0
  }

  /** Appending a transaction whose reference is new keeps references unique. */
  lemma AppendKeepsUnique(txs: seq<Transaction>, t: Transaction)
    requires UniqueReferences(txs)
    requires FindTx(txs, t.reference).None?
    ensures UniqueReferences(txs + [t])
  {
  }
}
