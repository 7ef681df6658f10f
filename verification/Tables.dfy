/**
 * The tables the durable admission protocol works on, as maps from primary key
 * to row, and the consistency every transaction keeps.
 */
module Tables {
  import opened Common

  /** A 32-byte id or hash. */
  type Digest = d: seq<byte> | |d| == 32 witness seq(32, _ => 0)

  type Node = seq<byte>

  datatype AdmissionError =
    | TooLarge | Busy | Unavailable | CommitUncertain
    | LedgerFull | MissingEffect | NoIdentity | StillSending

  /** Primary key of effects and tombstones (message id) and of receipts (transient id). */
  datatype Key = Key(identity: string, id: Digest)

  datatype Disposition = Committed | Duplicate | PolicyDiscard | UserDeleted

  datatype FileRef = FileRef(name: string, hash: Digest, length: nat)

  datatype GameRef = GameRef(identity: string, session: string, nonce: seq<byte>, envelope: seq<byte>)

  datatype Effect = Effect(stored: Digest, archive: string, files: seq<FileRef>,
                           game: Option<GameRef>, kind: string, at: nat)

  datatype Receipt = Receipt(node: Node, message: Digest, received: Digest, stored: Option<Digest>,
                             disposition: Disposition, at: nat, expires: Option<nat>)

  /** Messages are keyed by textual id, which need not spell a 32-byte digest. */
  datatype RowKey = RowKey(identity: string, id: string)

  datatype MessageRow = MessageRow(source: string, destination: string, thread: string,
                                   direction: string, state: string, method_: string,
                                   attachment: string, image: string, audio: string)

  datatype Reaction = Reaction(identity: string, message: string, sender: string, emoji: string)

  datatype Action = Action(identity: string, session: string, envelope: seq<byte>)

  datatype Thread = Thread(identity: string, peer: string, thread: string)

  datatype Hidden = Hidden(identity: string, peer: string)

  datatype Session = Session(identity: string, session: string)

  /** The application tables a message's effect may change. */
  datatype App = App(messages: map<RowKey, MessageRow>, reactions: set<Reaction>, actions: set<Action>,
                     sessions: map<Session, string>, hidden: set<Hidden>, threads: set<Thread>,
                     blocked: set<Hidden>)

  datatype ArtifactKind = Media | Archive

  /** A file waiting for removal; the journal holds each at most once. */
  datatype Artifact = Artifact(identity: string, kind: ArtifactKind, path: string)

  datatype SlotKey = SlotKey(identity: string, node: Node, transient: Digest)

  datatype Slot = Slot(record: seq<byte>, expires: nat)

  datatype Tables = Tables(
    effects: map<Key, Effect>,
    receipts: map<Key, Receipt>,
    deleted: map<Key, nat>,
    suppression: map<SlotKey, Slot>,
    journal: map<nat, Artifact>,
    nextJournal: nat,
    app: App)

  const POLICY_RECEIPT_SECONDS: nat := 90 * 86400
  const MAX_POLICY_PER_IDENTITY: nat := 16384
  const MAX_POLICY_GLOBAL: nat := 65536
  const BATCH: nat := 256

  /** Receipts the ledger caps count; all others are bounded by their effects. */
  predicate Counted(r: Receipt) {
    r.disposition in {PolicyDiscard, UserDeleted}
  }

  function Ledger(receipts: map<Key, Receipt>): set<Key> {
    set k | k in receipts && Counted(receipts[k])
  }

  function LedgerOf(receipts: map<Key, Receipt>, identity: string): set<Key> {
    set k | k in receipts && Counted(receipts[k]) && k.identity == identity
  }

  /** No message is both retained and deleted. */
  ghost predicate Disjoint(t: Tables) {
    forall k :: k in t.effects ==> k !in t.deleted
  }

  /** A receipt that promises a stored effect points at one with the hash it recorded. */
  ghost predicate Grounded(t: Tables, k: Key)
    requires k in t.receipts
  {
    var r := t.receipts[k];
    if Counted(r) then r.stored == None && r.expires == Some(SaturatingAdd(r.at, POLICY_RECEIPT_SECONDS))
    else
      && r.expires == None
      && Key(k.identity, r.message) in t.effects
      && r.stored == Some(t.effects[Key(k.identity, r.message)].stored)
  }

  ghost predicate Bounded(receipts: map<Key, Receipt>) {
    && |Ledger(receipts)| <= MAX_POLICY_GLOBAL
    && forall identity :: |LedgerOf(receipts, identity)| <= MAX_POLICY_PER_IDENTITY
  }

  ghost predicate Consistent(t: Tables) {
    && Disjoint(t)
    && (forall k :: k in t.receipts ==> Grounded(t, k))
    && Bounded(t.receipts)
  }

  /** Journal rows are numbered increasingly and never name the same file twice. */
  ghost predicate JournalOk(t: Tables) {
    && 0 < t.nextJournal
    && (forall i :: i in t.journal ==> 0 < i < t.nextJournal)
    && (forall i, j :: i in t.journal && j in t.journal && t.journal[i] == t.journal[j] ==> i == j)
  }

  /** `post`'s journal is `pre`'s with fresh rows for exactly the `wanted` files it lacked. */
  ghost predicate JournalExtends(pre: Tables, post: Tables, wanted: set<Artifact>) {
    && pre.nextJournal <= post.nextJournal
    && (forall i :: i in pre.journal ==> i in post.journal && post.journal[i] == pre.journal[i])
    && (forall i :: i in post.journal && i !in pre.journal ==>
          pre.nextJournal <= i < post.nextJournal && post.journal[i] in wanted
          && post.journal[i] !in pre.journal.Values)
    && (forall a :: a in wanted ==> a in post.journal.Values)
  }

  /** Fewer receipts never break a cap. */
  lemma LedgerShrinks(small: map<Key, Receipt>, large: map<Key, Receipt>)
    requires forall k :: k in small ==> k in large && (Counted(small[k]) ==> Counted(large[k]))
    ensures |Ledger(small)| <= |Ledger(large)|
    ensures forall identity :: |LedgerOf(small, identity)| <= |LedgerOf(large, identity)|
  {
    SubsetSize(Ledger(small), Ledger(large));
    forall identity ensures |LedgerOf(small, identity)| <= |LedgerOf(large, identity)| {
      SubsetSize(LedgerOf(small, identity), LedgerOf(large, identity));
    }
  }

  lemma SubsetSize<T>(a: set<T>, b: set<T>)
    requires a <= b
    ensures |a| <= |b|
  {
    assert b == a + (b - a);
  }
}
