/** The stored form of one suppression record. */
module SuppressionCodec {
  import opened Common
  import opened Tables
  import opened MessagePack

  datatype Reason =
    | Malformed | WrongDestination | InvalidSignature | InvalidStamp | DecryptionFailed | TooLargeMessage
    | MissingKey | StorageUnavailable | StorageBusy | Quota | WorkerUnavailable | DispositionLedgerFull | Cancelled

  /** The stored number of a reason is its place in this table. */
  function ReasonAt(n: nat): Option<Reason> {
    match n
    case 0 => Some(Malformed) case 1 => Some(WrongDestination) case 2 => Some(InvalidSignature)
    case 3 => Some(InvalidStamp) case 4 => Some(DecryptionFailed) case 5 => Some(TooLargeMessage)
    case 6 => Some(MissingKey) case 7 => Some(StorageUnavailable) case 8 => Some(StorageBusy)
    case 9 => Some(Quota) case 10 => Some(WorkerUnavailable) case 11 => Some(DispositionLedgerFull)
    case 12 => Some(Cancelled) case _ => None
  }

  /** The first place at or after `from` that holds `reason`. */
  function Position(reason: Reason, from: nat): (p: Option<nat>)
    ensures p.Some? ==> from <= p.value < 13 && ReasonAt(p.value) == Some(reason)
    decreases 13 - from
  {
    if from >= 13 then None
    else if ReasonAt(from) == Some(reason) then Some(from)
    else Position(reason, from + 1)
  }

  type Hash16 = h: seq<byte> | |h| == 16 witness seq(16, _ => 0)

  datatype Scope = Scope(identity: Hash16, node: Hash16, transient: Digest)

  datatype Epochs = Epochs(policy: Digest, keys: Digest, budget: Digest, storage: Digest)

  datatype Record = Record(scope: Scope, reason: Reason, epochs: Epochs, attempts: nat,
                           lastFailure: u64, nextRetry: u64, expires: u64)

  const MAX_ENCODED: nat := 512
  const MAX_AGE: nat := 30 * 86400

  /** The bounds every decoded record is held to; `attempts` is a 16-bit count. */
  predicate Valid(r: Record) {
    && 0 < r.attempts < 0x1_0000
    && r.lastFailure <= r.nextRetry
    && r.lastFailure < r.expires <= SaturatingAdd(r.lastFailure, MAX_AGE)
  }

  /** The record's thirteen fields, in their stored order. */
  function Fields(r: Record, position: nat): seq<Value> {
    [Int(1)] + ScopeFields(r.scope) + [Int(position)] + EpochFields(r.epochs) + CountFields(r)
  }

  function ScopeFields(s: Scope): seq<Value> { [Bytes(s.identity), Bytes(s.node), Bytes(s.transient)] }

  function EpochFields(e: Epochs): seq<Value> {
    [Bytes(e.policy), Bytes(e.keys), Bytes(e.budget), Bytes(e.storage)]
  }

  function CountFields(r: Record): seq<Value> {
    [Int(r.attempts), Int(r.lastFailure), Int(r.nextRetry), Int(r.expires)]
  }

  function Encode(r: Record): Result<seq<byte>, AdmissionError>
    requires r.attempts < 0x1_0000
  {
    match Position(r.reason, 0)
    case None => Err(MissingEffect)
    case Some(position) =>
      var encoded := [0x90 + 13] + WriteAll(Fields(r, position));
      if |encoded| > MAX_ENCODED then Err(TooLarge) else Ok(encoded)
  }

  function AsU64(v: Value): Option<nat> {
    if v.Int? && v.i >= 0 then Some(v.i) else None
  }

  predicate IsBinary(v: Value, n: nat) { v.Bytes? && |v.b| == n }

  /** Rebuilds a record from thirteen decoded values. */
  function FromFields(a: seq<Value>): Result<Record, AdmissionError>
    requires |a| == 13
  {
    if AsU64(a[0]) != Some(1) then Err(MissingEffect)
    else if AsU64(a[4]).None? || ReasonAt(AsU64(a[4]).value).None? then Err(MissingEffect)
    else if !(IsBinary(a[1], 16) && IsBinary(a[2], 16) && IsBinary(a[3], 32)) then Err(MissingEffect)
    else if exists i | 5 <= i < 9 :: !IsBinary(a[i], 32) then Err(MissingEffect)
    else if AsU64(a[9]).None? then Err(MissingEffect)
    else if AsU64(a[9]).value > 0xFFFF then Err(Unavailable)
    else if exists i | 10 <= i < 13 :: AsU64(a[i]).None? || AsU64(a[i]).value > U64_MAX then Err(MissingEffect)
    else
      var r := Record(Scope(a[1].b, a[2].b, a[3].b), ReasonAt(a[4].i).value,
                      Epochs(a[5].b, a[6].b, a[7].b, a[8].b), a[9].i, a[10].i, a[11].i, a[12].i);
      if r.attempts == 0 || r.nextRetry < r.lastFailure || r.expires <= r.lastFailure
         || r.expires > SaturatingAdd(r.lastFailure, MAX_AGE)
      then Err(MissingEffect)
      else Ok(r)
  }

  /** Reads one MessagePack value that must fill the whole stored record. */
  function Decode(encoded: seq<byte>): Result<Record, AdmissionError> {
    if |encoded| > MAX_ENCODED then Err(MissingEffect)
    else
      match ReadValue(encoded)
      case None => Err(Unavailable)
      case Some(p) =>
        if p.rest != [] then Err(Unavailable)
        else if p.value.Array? && |p.value.items| == 13 then FromFields(p.value.items)
        else Err(MissingEffect)
  }

  /** An upper bound on the written size of each field. */
  function FieldBudget(v: Value): nat {
    if v.Bytes? then |v.b| + 2
    else if v.Int? && 0 <= v.i < 128 then 1
    else if v.Int? && 0 <= v.i < 0x1_0000 then 3
    else 9
  }

  function Budget(items: seq<Value>): nat {
    if items == [] then 0 else FieldBudget(items[0]) + Budget(items[1..])
  }

  lemma {:induction false} WriteAllSize(items: seq<Value>)
    requires Scalars(items)
    ensures |WriteAll(items)| <= Budget(items)
  {
    if items != [] {
      WriteAllSize(items[1..]);
    }
  }

  lemma {:induction false} BudgetConcat(a: seq<Value>, b: seq<Value>)
    ensures Budget(a + b) == Budget(a) + Budget(b)
  {
    if a == [] {
      assert a + b == b;
    } else {
      BudgetConcat(a[1..], b);
      assert (a + b)[1..] == a[1..] + b;
    }
  }

  lemma GroupBudgets(r: Record)
    requires r.attempts < 0x1_0000
    ensures Budget(ScopeFields(r.scope)) == 70 && Budget(EpochFields(r.epochs)) == 136 && Budget(CountFields(r)) <= 30
  {
    var s, e, c := ScopeFields(r.scope), EpochFields(r.epochs), CountFields(r);
    BudgetOfThree(s);
    BudgetOfThree(e[1..]);
    BudgetOfThree(c[1..]);
  }

  lemma BudgetOfThree(f: seq<Value>)
    requires |f| == 3
    ensures Budget(f) == FieldBudget(f[0]) + FieldBudget(f[1]) + FieldBudget(f[2])
  {
    assert Budget(f[2..]) == FieldBudget(f[2]) + Budget(f[2..][1..]) && f[2..][1..] == [];
    assert f[1..][1..] == f[2..];
    assert Budget(f[1..]) == FieldBudget(f[1]) + Budget(f[2..]);
  }

  lemma FieldSizes(r: Record, position: nat)
    requires position < 13 && r.attempts < 0x1_0000
    ensures Scalars(Fields(r, position)) && |Fields(r, position)| == 13
    ensures |WriteAll(Fields(r, position))| <= 238
  {
    var one, s, p, e, c := [Int(1)], ScopeFields(r.scope), [Int(position)], EpochFields(r.epochs), CountFields(r);
    GroupBudgets(r);
    BudgetConcat(one, s);
    BudgetConcat(one + s, p);
    BudgetConcat(one + s + p, e);
    BudgetConcat(one + s + p + e, c);
    assert one[1..] == [] && p[1..] == [];
    WriteAllSize(Fields(r, position));
  }

  lemma EveryReasonListed(reason: Reason, from: nat, place: nat)
    requires from <= place < 13 && ReasonAt(place) == Some(reason)
    ensures Position(reason, from).Some?
    decreases place - from
  {
    if ReasonAt(from) != Some(reason) {
      EveryReasonListed(reason, from + 1, place);
    }
  }

  lemma PositionFound(reason: Reason)
    ensures Position(reason, 0).Some?
  {
    var place := match reason
      case Malformed => 0 case WrongDestination => 1 case InvalidSignature => 2 case InvalidStamp => 3
      case DecryptionFailed => 4 case TooLargeMessage => 5 case MissingKey => 6 case StorageUnavailable => 7
      case StorageBusy => 8 case Quota => 9 case WorkerUnavailable => 10 case DispositionLedgerFull => 11
      case Cancelled => 12;
    EveryReasonListed(reason, 0, place);
  }

  /** Every record with a 16-bit attempt count encodes, in at most 239 bytes. */
  lemma EncodingFits(r: Record)
    requires r.attempts < 0x1_0000
    ensures Encode(r).Ok? && |Encode(r).value| <= 239
  {
    PositionFound(r.reason);
    FieldSizes(r, Position(r.reason, 0).value);
  }

  // ----- The stored bytes -----

  /** A binary field: its tag, its length, its bytes. */
  function Field(b: seq<byte>): seq<byte>
    requires |b| < 256
  {
    [0xC4, |b|] + b
  }

  /** Stored numbers never change their meaning. */
  function Number(reason: Reason): nat {
    match reason
    case Malformed => 0
    case WrongDestination => 1
    case InvalidSignature => 2
    case InvalidStamp => 3
    case DecryptionFailed => 4
    case TooLargeMessage => 5
    case MissingKey => 6
    case StorageUnavailable => 7
    case StorageBusy => 8
    case Quota => 9
    case WorkerUnavailable => 10
    case DispositionLedgerFull => 11
    case Cancelled => 12
  }

  lemma PositionIsNumber(reason: Reason)
    ensures Position(reason, 0) == Some(Number(reason))
  {
    PositionFound(reason);
  }

  lemma WriteAllStarts(a: seq<Value>, b: seq<Value>)
    requires a != [] && Scalars(a) && Scalars(b)
    ensures Scalars([a[0]]) && Scalars(a[1..]) && Scalars(a + b) && (a + b)[1..] == a[1..] + b
    ensures WriteAll(a) == WriteScalar(a[0]) + WriteAll(a[1..])
    ensures Scalars(a[1..] + b) && WriteAll(a + b) == WriteScalar(a[0]) + WriteAll(a[1..] + b)
  {
    hide WriteScalar;
    assert (a + b)[1..] == a[1..] + b;
  }

  lemma {:induction false} WriteAllConcat(a: seq<Value>, b: seq<Value>)
    requires Scalars(a) && Scalars(b)
    ensures Scalars(a + b) && WriteAll(a + b) == WriteAll(a) + WriteAll(b)
  {
    if a == [] {
      assert a + b == b;
    } else {
      WriteAllStarts(a, b);
      hide *;
      WriteAllConcat(a[1..], b);
      Regroup(WriteScalar(a[0]), WriteAll(a[1..]), WriteAll(b));
    }
  }

  lemma WriteOne(v: Value)
    requires Scalars([v])
    ensures WriteAll([v]) == WriteScalar(v)
  {
    assert [v][1..] == [];
  }

  lemma WriteFour(a: Value, b: Value, c: Value, d: Value)
    requires Scalars([a, b, c, d])
    ensures WriteAll([a, b, c, d]) == WriteScalar(a) + WriteScalar(b) + WriteScalar(c) + WriteScalar(d)
  {
    var all := [a, b, c, d];
    assert [a, b] == [a] + [b] && [c, d] == [c] + [d] && all == [a, b] + [c, d];
    assert forall v :: v in [a] || v in [b] || v in [c] || v in [d] ==> v in all;
    ScalarsOf(a, b, c, d);
    WriteOne(a);
    WriteOne(b);
    WriteOne(c);
    WriteOne(d);
    hide WriteAll, WriteScalar, Scalars;
    WriteAllConcat([a], [b]);
    WriteAllConcat([c], [d]);
    WriteAllConcat([a, b], [c, d]);
    Regroup(WriteScalar(a) + WriteScalar(b), WriteScalar(c), WriteScalar(d));
  }

  lemma ScalarsOf(a: Value, b: Value, c: Value, d: Value)
    requires Scalars([a, b, c, d])
    ensures Scalars([a]) && Scalars([b]) && Scalars([c]) && Scalars([d])
  {
    var all := [a, b, c, d];
    assert all[0] == a && all[1] == b && all[2] == c && all[3] == d;
  }

  /** A record is stored as thirteen values in this order, and a reason as its number. */
  lemma WireLayout(r: Record)
    requires r.attempts < 0x1_0000
    ensures Encode(r) == Ok(
              [0x9D]
              + ([1] + Field(r.scope.identity) + Field(r.scope.node) + Field(r.scope.transient)
                 + [Number(r.reason)]
                 + (Field(r.epochs.policy) + Field(r.epochs.keys) + Field(r.epochs.budget) + Field(r.epochs.storage))
                 + (WriteUint(r.attempts) + WriteUint(r.lastFailure) + WriteUint(r.nextRetry) + WriteUint(r.expires))))
  {
    EncodingFits(r);
    PositionIsNumber(r.reason);
    FieldsAreWritten(r, Number(r.reason));
    EncodedWhole(r, Number(r.reason));
    hide *;
  }

  lemma EncodedWhole(r: Record, position: nat)
    requires r.attempts < 0x1_0000 && Position(r.reason, 0) == Some(position) && Encode(r).Ok?
    ensures Scalars(Fields(r, position)) && Encode(r).value == [0x9D] + WriteAll(Fields(r, position))
  {
    FieldSizes(r, position);
    hide WriteAll, Fields, Position;
  }

  lemma ScalarBytes(r: Record, position: nat)
    requires position < 13 && r.attempts < 0x1_0000
    ensures WriteScalar(Int(1)) == [1] && WriteScalar(Int(position)) == [position]
    ensures WriteScalar(Bytes(r.scope.identity)) == Field(r.scope.identity) && WriteScalar(Bytes(r.scope.node)) == Field(r.scope.node)
    ensures WriteScalar(Bytes(r.scope.transient)) == Field(r.scope.transient)
    ensures WriteScalar(Bytes(r.epochs.policy)) == Field(r.epochs.policy) && WriteScalar(Bytes(r.epochs.keys)) == Field(r.epochs.keys)
    ensures WriteScalar(Bytes(r.epochs.budget)) == Field(r.epochs.budget)
    ensures WriteScalar(Bytes(r.epochs.storage)) == Field(r.epochs.storage)
  {
  }

  lemma FieldsAreWritten(r: Record, position: nat)
    requires position < 13 && r.attempts < 0x1_0000
    ensures Scalars(Fields(r, position))
    ensures WriteAll(Fields(r, position)) ==
            [1] + Field(r.scope.identity) + Field(r.scope.node) + Field(r.scope.transient)
            + [position]
            + (Field(r.epochs.policy) + Field(r.epochs.keys) + Field(r.epochs.budget) + Field(r.epochs.storage))
            + (WriteUint(r.attempts) + WriteUint(r.lastFailure) + WriteUint(r.nextRetry) + WriteUint(r.expires))
  {
    var s, e := r.scope, r.epochs;
    var scope := [Int(1), Bytes(s.identity), Bytes(s.node), Bytes(s.transient)];
    assert Fields(r, position) == scope + [Int(position)] + EpochFields(e) + CountFields(r);
    ScalarBytes(r, position);
    hide Field, WriteUint, WriteAll, WriteBin;
    WriteFour(Int(1), Bytes(s.identity), Bytes(s.node), Bytes(s.transient));
    WriteFour(Bytes(e.policy), Bytes(e.keys), Bytes(e.budget), Bytes(e.storage));
    WriteFour(Int(r.attempts), Int(r.lastFailure), Int(r.nextRetry), Int(r.expires));
    WriteOne(Int(position));
    WriteAllConcat(scope, [Int(position)]);
    WriteAllConcat(scope + [Int(position)], EpochFields(e));
    WriteAllConcat(scope + [Int(position)] + EpochFields(e), CountFields(r));
  }

  /** A stored record is decoded exactly as it was written, and an invalid one is refused. */
  lemma DecodeInvertsEncode(r: Record)
    requires r.attempts < 0x1_0000
    ensures Encode(r).Ok?
    ensures Decode(Encode(r).value) == if Valid(r) then Ok(r) else Err(MissingEffect)
  {
    EncodingFits(r);
    PositionFound(r.reason);
    var position := Position(r.reason, 0).value;
    FieldSizes(r, position);
    ReadsFields(Fields(r, position), Encode(r).value);
    FromFieldsInvertsFields(r, position);
  }

  lemma FromFieldsInvertsFields(r: Record, position: nat)
    requires r.attempts < 0x1_0000 && ReasonAt(position) == Some(r.reason)
    ensures |Fields(r, position)| == 13
    ensures FromFields(Fields(r, position)) == if Valid(r) then Ok(r) else Err(MissingEffect)
  {
    var f := Fields(r, position);
    assert f[0] == Int(1) && f[1..4] == ScopeFields(r.scope) && f[4] == Int(position);
    assert f[5..9] == EpochFields(r.epochs) && f[9..13] == CountFields(r);
  }

  lemma ReadsFields(f: seq<Value>, encoded: seq<byte>)
    requires |f| == 13 && Scalars(f) && encoded == [0x90 + 13] + WriteAll(f)
    ensures ReadValue(encoded) == Some(Parsed(Array(f), []))
  {
    ManyRoundTrip(f, []);
    assert WriteAll(f) + [] == WriteAll(f);
    assert encoded[1..] == WriteAll(f);
  }

  /** Whatever bytes are stored, a decoded record respects the attempt and time bounds. */
  lemma DecodedIsValid(encoded: seq<byte>)
    ensures Decode(encoded).Ok? ==> Valid(Decode(encoded).value)
    ensures Decode(encoded).Ok? ==>
              var r := Decode(encoded).value;
              && 1 <= r.attempts <= 65_535 && r.lastFailure <= r.nextRetry && r.lastFailure < r.expires
              && r.expires - r.lastFailure <= 2_592_000
  {
  }

  // ----- Which bytes decode -----

  /** The thirteen values of a record. */
  function Listing(r: Record): seq<Value> {
    [Int(1), Bytes(r.scope.identity), Bytes(r.scope.node), Bytes(r.scope.transient), Int(Number(r.reason)),
     Bytes(r.epochs.policy), Bytes(r.epochs.keys), Bytes(r.epochs.budget), Bytes(r.epochs.storage),
     Int(r.attempts), Int(r.lastFailure), Int(r.nextRetry), Int(r.expires)]
  }

  /** At least one attempt, a retry not before the failure, and an expiry after it and within thirty days of it. */
  predicate Sensible(r: Record) {
    && 1 <= r.attempts <= 65_535 && r.lastFailure <= r.nextRetry
    && r.lastFailure < r.expires && r.expires - r.lastFailure <= 2_592_000
  }

  lemma NumberIs(n: nat, reason: Reason)
    ensures ReasonAt(n) == Some(reason) <==> n == Number(reason)
  {
  }

  lemma ListingReads(r: Record)
    ensures FromFields(Listing(r)) == Ok(r) <==> Sensible(r)
  {
    var a := Listing(r);
    NumberIs(Number(r.reason), r.reason);
    hide ReasonAt, Number;
    assert IsBinary(a[1], 16) && IsBinary(a[2], 16) && IsBinary(a[3], 32);
    assert IsBinary(a[5], 32) && IsBinary(a[6], 32) && IsBinary(a[7], 32) && IsBinary(a[8], 32);
  }

  lemma FieldsAreListed(a: seq<Value>, r: Record)
    requires |a| == 13 && FromFields(a) == Ok(r)
    ensures a == Listing(r)
  {
    NumberIs(a[4].i, r.reason);
    hide ReasonAt, Number;
    assert a[1].Bytes? && a[2].Bytes? && a[3].Bytes?;
    assert IsBinary(a[5], 32) && IsBinary(a[6], 32) && IsBinary(a[7], 32) && IsBinary(a[8], 32);
    assert AsU64(a[10]).Some? && AsU64(a[11]).Some? && AsU64(a[12]).Some?;
  }

  /** Exactly one MessagePack array of a sensible record's thirteen values, in at most 512 bytes, decodes to the record. */
  lemma DecodesIff(encoded: seq<byte>, r: Record)
    ensures Decode(encoded) == Ok(r) <==>
              |encoded| <= 512 && ReadValue(encoded) == Some(Parsed(Array(Listing(r)), [])) && Sensible(r)
  {
    hide FromFields, Listing, Sensible, ReadValue;
    ListingReads(r);
    ListingLength(r);
    if Decode(encoded) == Ok(r) { FieldsAreListed(ReadValue(encoded).value.value.items, r); }
  }

  lemma ListingLength(r: Record)
    ensures |Listing(r)| == 13
  {
  }
}
