/** The bounded protobuf scan behind the bundle policy check (Protocol Buffers encoding, "Base 128 Varints"). */
module Protobuf {
  import opened Common

  const MAX_HEADER_BYTES := 1024 * 1024

  // ----- Base 128 varints -----

  /** What a varint may still hold from its `k`th byte on. */
  function Limit(k: nat): nat
    requires k <= 9
    decreases 9 - k
  {
    if k == 9 then 2 else 128 * Limit(k + 1)
  }

  /** The value of a varint from its `k`th byte on, and what follows it. */
  function Varint(s: seq<byte>, k: nat): Option<(nat, seq<byte>)>
    requires k <= 10
    decreases 10 - k
  {
    if k == 10 || s == [] || (k == 9 && s[0] > 1) then None
    else if s[0] < 128 then Some((s[0], s[1..]))
    else
      match Varint(s[1..], k + 1)
      case None => None
      case Some(r) => Some((s[0] - 128 + 128 * r.0, r.1))
  }

  function Encode(v: nat): (s: seq<byte>)
    ensures s != []
  {
    if v < 128 then [v] else [128 + v % 128] + Encode(v / 128)
  }

  lemma {:induction false} VarintIsBounded(s: seq<byte>, k: nat)
    requires k <= 9
    ensures Varint(s, k).Some? ==> Varint(s, k).value.0 < Limit(k) && |Varint(s, k).value.1| < |s|
    decreases 9 - k
  {
    if k < 9 {
      if s != [] {
        VarintIsBounded(s[1..], k + 1);
      }
      assert Limit(k + 1) >= 2 by { LimitIsPositive(k + 1); }
    }
  }

  lemma {:induction false} LimitIsPositive(k: nat)
    requires k <= 9
    ensures Limit(k) >= 2
    decreases 9 - k
  {
    if k < 9 { LimitIsPositive(k + 1); }
  }

  lemma LimitIsU64()
    ensures Limit(0) == U64_MAX + 1
  {
    assert Limit(6) == 128 * 128 * 128 * 2;
    assert Limit(3) == 128 * 128 * 128 * Limit(6);
  }

  lemma {:induction false} VarintInvertsEncodeFrom(v: nat, k: nat, rest: seq<byte>)
    requires k <= 9 && v < Limit(k)
    ensures Varint(Encode(v) + rest, k) == Some((v, rest))
    decreases 9 - k
  {
    EncodeStarts(v, rest);
    VarintStarts(Encode(v) + rest, k);
    LimitFalls(v, k);
    hide Encode, Varint, Limit;
    if v >= 128 {
      VarintInvertsEncodeFrom(v / 128, k + 1, rest);
    }
  }

  lemma EncodeStarts(v: nat, rest: seq<byte>)
    ensures var s := Encode(v) + rest;
            && s != [] && s[0] == (if v < 128 then v else 128 + v % 128)
            && s[1..] == if v < 128 then rest else Encode(v / 128) + rest
  {
    if v >= 128 {
      assert Encode(v) == [128 + v % 128] + Encode(v / 128);
      hide Encode;
      Regroup([128 + v % 128], Encode(v / 128), rest);
    }
  }

  lemma VarintStarts(s: seq<byte>, k: nat)
    requires k <= 9 && s != []
    ensures k == 9 && s[0] > 1 ==> Varint(s, k).None?
    ensures !(k == 9 && s[0] > 1) && s[0] < 128 ==> Varint(s, k) == Some((s[0], s[1..]))
    ensures !(k == 9 && s[0] > 1) && s[0] >= 128 ==>
              var more := Varint(s[1..], k + 1);
              Varint(s, k) == if more.None? then None else Some((s[0] - 128 + 128 * more.value.0, more.value.1))
  {
  }

  lemma LimitFalls(v: nat, k: nat)
    requires k <= 9 && v < Limit(k)
    ensures k == 9 ==> v < 2
    ensures k < 9 ==> v / 128 < Limit(k + 1)
  {
    if k < 9 {
      assert v < 128 * Limit(k + 1);
      hide Limit;
    }
  }

  /** The scan reads back every value below 2^64, and never yields a larger one. */
  lemma VarintInvertsEncode(v: u64, rest: seq<byte>)
    ensures Varint(Encode(v) + rest, 0) == Some((v, rest))
  {
    LimitIsU64();
    VarintInvertsEncodeFrom(v, 0, rest);
  }

  lemma VarintFitsU64(s: seq<byte>)
    ensures Varint(s, 0).Some? ==> Varint(s, 0).value.0 <= U64_MAX
  {
    LimitIsU64();
    VarintIsBounded(s, 0);
  }

  /** A varint whose low groups, worth `value`, have been read already. */
  function Shifted(value: nat, place: nat, r: Option<(nat, seq<byte>)>): Option<(nat, seq<byte>)> {
    match r
    case None => None
    case Some(p) => Some((value + place * p.0, p.1))
  }

  lemma Distribute(place: nat, low: nat, n: nat)
    ensures place * (low + 128 * n) == low * place + (128 * place) * n
  {
    assert place * (128 * n) == 128 * (place * n);
    assert (128 * place) * n == 128 * (place * n);
  }

  lemma GroupFits(value: nat, place: nat, low: nat)
    requires value < place && low < 128
    ensures value + low * place < 128 * place
  {
    assert low * place <= 127 * place;
  }

  lemma ShiftedOn(value: nat, place: nat, low: nat, rest: Option<(nat, seq<byte>)>)
    ensures Shifted(value, place, if rest.None? then None else Some((low + 128 * rest.value.0, rest.value.1)))
            == Shifted(value + low * place, 128 * place, rest)
  {
    if rest.Some? { Distribute(place, low, rest.value.0); }
  }

  lemma ShiftedLast(value: nat, place: nat, low: nat, rest: seq<byte>)
    ensures Shifted(value, place, Some((low, rest))) == Some((value + low * place, rest))
    ensures Shifted(value, place, None) == None
  {
  }

  lemma ReadStep(data: seq<byte>, whole: Option<(nat, seq<byte>)>, offset: nat, k: nat, value: nat, place: nat)
    requires k < 10 && offset < |data| && value < place
    requires whole == Shifted(value, place, Varint(data[offset..], k))
    ensures var b := data[offset];
            var more := value + (b % 128) * place;
            && more < 128 * place
            && if k == 9 && b > 1 then whole.None?
               else if b < 128 then whole == Some((more, data[offset + 1..]))
               else whole == Shifted(more, 128 * place, Varint(data[offset + 1..], k + 1))
  {
    hide *;
    var b := data[offset];
    var low := b % 128;
    assert low == if b < 128 then b else b - 128;
    assert data[offset..][1..] == data[offset + 1..] && data[offset..][0] == b;
    VarintStarts(data[offset..], k);
    GroupFits(value, place, low);
    ShiftedLast(value, place, low, data[offset + 1..]);
    if b >= 128 && !(k == 9 && b > 1) {
      ShiftedOn(value, place, low, Varint(data[offset + 1..], k + 1));
    }
  }

  /** `value` holds the low groups read so far, so adding the next group is joining its bits. */
  method ReadVarint(data: seq<byte>, start: nat) returns (r: Option<(nat, nat)>)
    requires start <= |data|
    ensures r.None? <==> Varint(data[start..], 0).None?
    ensures r.Some? ==> start < r.value.1 <= |data| && Varint(data[start..], 0) == Some((r.value.0, data[r.value.1..]))
  {
    hide Varint, Shifted;
    ghost var whole := Varint(data[start..], 0);
    var value: nat, offset: nat, place: nat := 0, start, 1;
    NothingShifted(whole);
    for k := 0 to 10
      invariant start <= offset <= |data| && value < place
      invariant whole == Shifted(value, place, Varint(data[offset..], k))
    {
      NothingToRead(data, offset, k, value, place);
      if offset >= |data| {
        return None;
      }
      var b := data[offset];
      ReadStep(data, whole, offset, k, value, place);
      offset := offset + 1;
      if k == 9 && b > 1 {
        return None;
      }
      value := value + (b % 128) * place;
      if b < 128 {
        return Some((value, offset));
      }
      place := 128 * place;
    }
    NothingToRead(data, offset, 10, value, place);
    return None;
  }

  lemma NothingShifted(r: Option<(nat, seq<byte>)>)
    ensures Shifted(0, 1, r) == r
  {
  }

  lemma NothingToRead(data: seq<byte>, offset: nat, k: nat, value: nat, place: nat)
    requires offset <= |data| && k <= 10
    ensures offset == |data| || k == 10 ==> Shifted(value, place, Varint(data[offset..], k)).None?
  {
  }

  // ----- Fields -----

  datatype Value = Number(n: nat) | Chunk(bytes: seq<byte>)

  datatype Field = Field(number: nat, wire: nat, value: Value)

  /** One field: its number, wire type and value, and what follows it. */
  function ReadField(s: seq<byte>): Option<(Field, seq<byte>)> {
    match Varint(s, 0)
    case None => None
    case Some(key) =>
      var number, wire := key.0 / 8, key.0 % 8;
      if !(0 < number < 0x2000_0000) then None
      else if wire == 0 then
        match Varint(key.1, 0)
        case None => None
        case Some(v) => Some((Field(number, 0, Number(v.0)), v.1))
      else if wire == 1 || wire == 5 then
        var length := if wire == 1 then 8 else 4;
        if length > |key.1| then None else Some((Field(number, wire, Chunk(key.1[..length])), key.1[length..]))
      else if wire == 2 then
        match Varint(key.1, 0)
        case None => None
        case Some(length) =>
          if length.0 > |length.1| then None
          else Some((Field(number, 2, Chunk(length.1[..length.0])), length.1[length.0..]))
      else None
  }

  lemma ReadFieldConsumes(s: seq<byte>)
    ensures ReadField(s).Some? ==> |ReadField(s).value.1| < |s|
  {
    VarintIsBounded(s, 0);
    if Varint(s, 0).Some? { VarintIsBounded(Varint(s, 0).value.1, 0); }
  }

  /** The values of the wanted field, or nothing when any part of the message is malformed. */
  function Find(s: seq<byte>, wanted: nat, wire: nat): Option<seq<Value>>
    decreases |s|
  {
    if s == [] then Some([])
    else
      ReadFieldConsumes(s);
      match ReadField(s)
      case None => None
      case Some(f) =>
        if f.0.number == wanted && f.0.wire != wire then None
        else
          match Find(f.1, wanted, wire)
          case None => None
          case Some(found) => Some((if f.0.number == wanted then [f.0.value] else []) + found)
  }

  function ProtoField(s: seq<byte>, wanted: nat, wire: nat): Option<Value> {
    if |s| > MAX_HEADER_BYTES then None
    else
      match Find(s, wanted, wire)
      case None => None
      case Some(found) => if |found| == 1 then Some(found[0]) else None
  }

  method NextField(data: seq<byte>, start: nat) returns (r: Option<(Field, nat)>)
    requires start < |data|
    ensures r.None? <==> ReadField(data[start..]).None?
    ensures r.Some? ==> start < r.value.1 <= |data| && ReadField(data[start..]) == Some((r.value.0, data[r.value.1..]))
  {
    hide Varint;
    var key := ReadVarint(data, start);
    if key.None? {
      return None;
    }
    var (k, offset) := key.value;
    var number, wire := k / 8, k % 8;
    if !(0 < number < 0x2000_0000) {
      return None;
    }
    if wire == 0 {
      var v := ReadVarint(data, offset);
      if v.None? {
        return None;
      }
      return Some((Field(number, 0, Number(v.value.0)), v.value.1));
    }
    if wire == 1 || wire == 5 {
      var length := if wire == 1 then 8 else 4;
      if offset + length > |data| {
        return None;
      }
      Sliced(data, offset, length);
      return Some((Field(number, wire, Chunk(data[offset..offset + length])), offset + length));
    }
    if wire == 2 {
      var length := ReadVarint(data, offset);
      if length.None? || length.value.1 + length.value.0 > |data| {
        return None;
      }
      Sliced(data, length.value.1, length.value.0);
      return Some((Field(number, 2, Chunk(data[length.value.1..length.value.1 + length.value.0])),
                   length.value.1 + length.value.0));
    }
    return None;
  }

  lemma Sliced(data: seq<byte>, at: nat, length: nat)
    requires at + length <= |data|
    ensures data[at..][..length] == data[at..at + length] && data[at..][length..] == data[at + length..]
  {
  }

  function Prefixed(found: seq<Value>, more: Option<seq<Value>>): Option<seq<Value>> {
    match more
    case None => None
    case Some(m) => Some(found + m)
  }

  lemma NothingPrefixed(more: Option<seq<Value>>)
    ensures Prefixed([], more) == more
  {
    assert more.Some? ==> [] + more.value == more.value;
  }

  lemma FindStep(s: seq<byte>, wanted: nat, wire: nat)
    requires s != []
    ensures Find(s, wanted, wire) ==
            match ReadField(s)
            case None => None
            case Some(f) =>
              if f.0.number != wanted then Find(f.1, wanted, wire)
              else if f.0.wire != wire then None
              else Prefixed([f.0.value], Find(f.1, wanted, wire))
  {
    hide ReadField;
    ReadFieldConsumes(s);
    if ReadField(s).Some? {
      NothingPrefixed(Find(ReadField(s).value.1, wanted, wire));
    }
  }

  lemma PrefixedTwice(found: seq<Value>, x: Value, more: Option<seq<Value>>)
    ensures Prefixed(found, Prefixed([x], more)) == Prefixed(found + [x], more)
  {
    assert more.Some? ==> found + ([x] + more.value) == (found + [x]) + more.value;
  }

  method ScanField(data: seq<byte>, wanted: nat, wire: nat) returns (r: Option<Value>)
    ensures r == ProtoField(data, wanted, wire)
  {
    if |data| > MAX_HEADER_BYTES {
      return None;
    }
    var offset, found := 0, [];
    assert data[0..] == data;
    NothingPrefixed(Find(data, wanted, wire));
    while offset < |data|
      invariant 0 <= offset <= |data|
      invariant Find(data, wanted, wire) == Prefixed(found, Find(data[offset..], wanted, wire))
    {
      hide Find, ReadField;
      FindStep(data[offset..], wanted, wire);
      var field := NextField(data, offset);
      if field.None? {
        return None;
      }
      var f := field.value.0;
      if f.number == wanted {
        if f.wire != wire {
          return None;
        }
        PrefixedTwice(found, f.value, Find(data[field.value.1..], wanted, wire));
        found := found + [f.value];
      }
      offset := field.value.1;
    }
    assert found + [] == found;
    return if |found| == 1 then Some(found[0]) else None;
  }

  // ----- The grammar -----

  predicate WellFormed(f: Field) {
    && 0 < f.number < 0x2000_0000
    && match f.wire
       case 0 => f.value.Number? && f.value.n <= U64_MAX
       case 1 => f.value.Chunk? && |f.value.bytes| == 8
       case 2 => f.value.Chunk? && |f.value.bytes| <= U64_MAX
       case 5 => f.value.Chunk? && |f.value.bytes| == 4
       case _ => false
  }

  function WriteField(f: Field): (s: seq<byte>)
    requires WellFormed(f)
    ensures s != []
  {
    Encode(8 * f.number + f.wire)
    + if f.wire == 0 then Encode(f.value.n)
      else if f.wire == 2 then Encode(|f.value.bytes|) + f.value.bytes
      else f.value.bytes
  }

  predicate AllWellFormed(fields: seq<Field>) { forall i :: 0 <= i < |fields| ==> WellFormed(fields[i]) }

  function Write(fields: seq<Field>): seq<byte>
    requires AllWellFormed(fields)
  {
    if fields == [] then [] else WriteField(fields[0]) + Write(fields[1..])
  }

  /** The fields with this number, in order. */
  function Numbered(fields: seq<Field>, wanted: nat): seq<Field> {
    if fields == [] then []
    else (if fields[0].number == wanted then [fields[0]] else []) + Numbered(fields[1..], wanted)
  }

  lemma FieldRoundTrip(f: Field, rest: seq<byte>)
    requires WellFormed(f)
    ensures ReadField(WriteField(f) + rest) == Some((f, rest))
  {
    hide Varint, Encode;
    var key := 8 * f.number + f.wire;
    if f.wire == 0 {
      VarintInvertsEncode(key, Encode(f.value.n) + rest);
      assert WriteField(f) + rest == Encode(key) + (Encode(f.value.n) + rest);
      VarintInvertsEncode(f.value.n, rest);
    } else if f.wire == 2 {
      var body := f.value.bytes + rest;
      VarintInvertsEncode(key, Encode(|f.value.bytes|) + body);
      assert WriteField(f) + rest == Encode(key) + (Encode(|f.value.bytes|) + body);
      VarintInvertsEncode(|f.value.bytes|, body);
      assert body[..|f.value.bytes|] == f.value.bytes && body[|f.value.bytes|..] == rest;
    } else {
      var body := f.value.bytes + rest;
      VarintInvertsEncode(key, body);
      assert WriteField(f) + rest == Encode(key) + body;
      assert body[..|f.value.bytes|] == f.value.bytes && body[|f.value.bytes|..] == rest;
    }
  }

  /** A field number outside 1 to 2^29 - 1 and a wire type other than 0, 1, 2 and 5 are refused. */
  lemma BadKeysAreRefused(number: nat, wire: nat, rest: seq<byte>)
    requires wire < 8 && 8 * number + wire <= U64_MAX
    requires number == 0 || number >= 536_870_912 || wire == 3 || wire == 4 || wire == 6 || wire == 7
    ensures ReadField(Encode(8 * number + wire) + rest).None?
  {
    hide Varint, Encode;
    VarintInvertsEncode(8 * number + wire, rest);
  }

  /** So is a message of more than a mebibyte. */
  lemma LongIsRefused(s: seq<byte>, wanted: nat, wire: nat)
    requires |s| > 1_048_576
    ensures ProtoField(s, wanted, wire).None?
  {
  }

  /** The value every listed field holds, if all have the expected wire type. */
  function ValuesOf(fields: seq<Field>, wire: nat): Option<seq<Value>> {
    if fields == [] then Some([])
    else if fields[0].wire != wire then None
    else Prefixed([fields[0].value], ValuesOf(fields[1..], wire))
  }

  lemma {:induction false} FindReadsFields(fields: seq<Field>, wanted: nat, wire: nat)
    requires AllWellFormed(fields)
    ensures Find(Write(fields), wanted, wire) == ValuesOf(Numbered(fields, wanted), wire)
  {
    if fields != [] {
      var f, rest := fields[0], Write(fields[1..]);
      FieldRoundTrip(f, rest);
      FindReadsFields(fields[1..], wanted, wire);
      hide ReadField, WriteField, WellFormed;
      if f.number == wanted {
        assert Numbered(fields, wanted)[1..] == Numbered(fields[1..], wanted);
      } else {
        assert Numbered(fields, wanted) == Numbered(fields[1..], wanted);
        var more := Find(rest, wanted, wire);
        assert more.Some? ==> [] + more.value == more.value;
      }
    }
  }

  predicate Unique(fields: seq<Field>, wanted: nat, wire: nat, value: Value) {
    Numbered(fields, wanted) == [Field(wanted, wire, value)]
  }

  lemma {:induction false} NumberedHaveNumber(fields: seq<Field>, wanted: nat)
    ensures forall i :: 0 <= i < |Numbered(fields, wanted)| ==> Numbered(fields, wanted)[i].number == wanted
  {
    if fields != [] { NumberedHaveNumber(fields[1..], wanted); }
  }

  /** The wanted value is returned exactly when its field occurs once, with the expected wire type. */
  lemma ReturnsUniqueField(fields: seq<Field>, wanted: nat, wire: nat, value: Value)
    requires AllWellFormed(fields) && |Write(fields)| <= MAX_HEADER_BYTES
    ensures ProtoField(Write(fields), wanted, wire) == Some(value) <==> Unique(fields, wanted, wire, value)
  {
    FindReadsFields(fields, wanted, wire);
    NumberedHaveNumber(fields, wanted);
    var listed := Numbered(fields, wanted);
    ValuesCount(listed, wire);
    if |listed| == 1 {
      assert ValuesOf(listed[1..], wire) == Some([]);
    }
  }

  lemma {:induction false} ValuesCount(fields: seq<Field>, wire: nat)
    ensures ValuesOf(fields, wire).Some? ==> |ValuesOf(fields, wire).value| == |fields|
  {
    if fields != [] { ValuesCount(fields[1..], wire); }
  }

  // ----- The nested policy -----

  datatype Alignment = Page16K | Page64K

  function CheckBundle(data: seq<byte>): Option<Alignment> {
    match ProtoField(data, 2, 2)
    case Some(Chunk(optimization)) =>
      (match ProtoField(optimization, 2, 2)
       case Some(Chunk(native)) =>
         if ProtoField(native, 1, 0) != Some(Number(1)) then None
         else if ProtoField(native, 2, 0) == Some(Number(2)) then Some(Page16K)
         else if ProtoField(native, 2, 0) == Some(Number(3)) then Some(Page64K)
         else None
       case _ => None)
    case _ => None
  }

  method CheckBundleConfig(data: seq<byte>) returns (r: Option<Alignment>)
    ensures r == CheckBundle(data)
  {
    var optimization := ScanField(data, 2, 2);
    if optimization.None? || !optimization.value.Chunk? {
      return None;
    }
    var native := ScanField(optimization.value.bytes, 2, 2);
    if native.None? || !native.value.Chunk? {
      return None;
    }
    var enabled := ScanField(native.value.bytes, 1, 0);
    if enabled != Some(Number(1)) {
      return None;
    }
    var alignment := ScanField(native.value.bytes, 2, 0);
    if alignment == Some(Number(2)) {
      return Some(Page16K);
    }
    if alignment == Some(Number(3)) {
      return Some(Page64K);
    }
    return None;
  }

  lemma {:induction false} NestedFits(fields: seq<Field>, wanted: nat)
    requires AllWellFormed(fields)
    ensures forall i :: 0 <= i < |Numbered(fields, wanted)| && Numbered(fields, wanted)[i].value.Chunk? ==>
              |Numbered(fields, wanted)[i].value.bytes| <= |Write(fields)|
  {
    if fields != [] { NestedFits(fields[1..], wanted); }
  }

  lemma UniqueFits(fields: seq<Field>, wanted: nat, wire: nat, value: Value)
    requires AllWellFormed(fields) && Unique(fields, wanted, wire, value) && value.Chunk?
    ensures |value.bytes| <= |Write(fields)|
  {
    NestedFits(fields, wanted);
    assert Numbered(fields, wanted)[0].value == value;
  }

  /**
   * Through both nested messages, an alignment is reported exactly when the
   * innermost message enables uncompressed libraries once and names it once.
   */
  lemma NestedPolicy(bundle: seq<Field>, optimization: seq<Field>, native: seq<Field>)
    requires AllWellFormed(bundle) && AllWellFormed(optimization) && AllWellFormed(native)
    requires |Write(bundle)| <= MAX_HEADER_BYTES
    requires Unique(bundle, 2, 2, Chunk(Write(optimization))) && Unique(optimization, 2, 2, Chunk(Write(native)))
    ensures var r := CheckBundle(Write(bundle));
            && (r == Some(Page16K) <==> Unique(native, 1, 0, Number(1)) && Unique(native, 2, 0, Number(2)))
            && (r == Some(Page64K) <==> Unique(native, 1, 0, Number(1)) && Unique(native, 2, 0, Number(3)))
  {
    UniqueFits(bundle, 2, 2, Chunk(Write(optimization)));
    UniqueFits(optimization, 2, 2, Chunk(Write(native)));
    hide ProtoField, Write, Unique;
    ReturnsUniqueField(bundle, 2, 2, Chunk(Write(optimization)));
    ReturnsUniqueField(optimization, 2, 2, Chunk(Write(native)));
    ReturnsUniqueField(native, 1, 0, Number(1));
    ReturnsUniqueField(native, 2, 0, Number(2));
    ReturnsUniqueField(native, 2, 0, Number(3));
  }

  /** A missing, repeated or mistyped optimization message is refused. */
  lemma AmbiguousIsRefused(bundle: seq<Field>)
    requires AllWellFormed(bundle) && |Write(bundle)| <= MAX_HEADER_BYTES
    requires forall bytes :: !Unique(bundle, 2, 2, Chunk(bytes))
    ensures CheckBundle(Write(bundle)).None?
  {
    var r := ProtoField(Write(bundle), 2, 2);
    if r.Some? && r.value.Chunk? {
      ReturnsUniqueField(bundle, 2, 2, r.value);
    }
  }
}
