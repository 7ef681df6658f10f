/** The part of the MessagePack format the suppression codec depends on. */
module MessagePack {
  import opened Common

  /** Everything a suppression record never holds collapses into `Other`. */
  datatype Value = Int(i: int) | Bytes(b: seq<byte>) | Array(items: seq<Value>) | Other

  datatype Parsed<+T> = Parsed(value: T, rest: seq<byte>)

  // ----- Big-endian integers -----

  function Pow256(width: nat): nat { if width == 0 then 1 else 256 * Pow256(width - 1) }

  function FromBe(bytes: seq<byte>): (v: nat)
    ensures v < Pow256(|bytes|)
  {
    if bytes == [] then 0 else FromBe(bytes[..|bytes| - 1]) * 256 + bytes[|bytes| - 1]
  }

  function ToBe(v: nat, width: nat): (bytes: seq<byte>)
    ensures |bytes| == width
  {
    if width == 0 then [] else ToBe(v / 256, width - 1) + [v % 256]
  }

  lemma {:induction false} FromBeInvertsToBe(v: nat, width: nat)
    requires v < Pow256(width)
    ensures FromBe(ToBe(v, width)) == v
  {
    if width > 0 {
      FromBeInvertsToBe(v / 256, width - 1);
      assert ToBe(v, width)[..width - 1] == ToBe(v / 256, width - 1);
    }
  }

  lemma Widths()
    ensures Pow256(1) == 0x100 && Pow256(2) == 0x1_0000 && Pow256(4) == 0x1_0000_0000 && Pow256(8) == U64_MAX + 1
  {
    assert Pow256(3) == 0x100_0000;
    assert Pow256(5) == 0x100_0000_0000;
    assert Pow256(6) == 0x1_0000_0000_0000;
  }

  // ----- Writing -----

  /** The shortest unsigned form, as the encoder chooses it. */
  function WriteUint(v: u64): (bytes: seq<byte>)
    ensures 1 <= |bytes| <= 9
    ensures v < 128 ==> |bytes| == 1
    ensures v < 0x1_0000 ==> |bytes| <= 3
  {
    if v < 128 then [v]
    else if v < 0x100 then [0xcc] + ToBe(v, 1)
    else if v < 0x1_0000 then [0xcd] + ToBe(v, 2)
    else if v < 0x1_0000_0000 then [0xce] + ToBe(v, 4)
    else [0xcf] + ToBe(v, 8)
  }

  /** Binary strings no record field exceeds. */
  function WriteBin(b: seq<byte>): (bytes: seq<byte>)
    requires |b| < 256
    ensures |bytes| == |b| + 2
  {
    [0xc4, |b|] + b
  }

  /** The five unsigned forms: each number takes the first that holds it, most significant byte first. */
  lemma ShortestForm(v: u64)
    ensures v < 128 ==> WriteUint(v) == [v]
    ensures v >= 128 ==>
              var bytes := WriteUint(v);
              && FromBe(bytes[1..]) == v
              && bytes[0] == (if v <= 255 then 0xCC else if v <= 65_535 then 0xCD else if v <= 4_294_967_295 then 0xCE else 0xCF)
              && |bytes| == (if v <= 255 then 2 else if v <= 65_535 then 3 else if v <= 4_294_967_295 then 5 else 9)
  {
    Widths();
    var width := if v < 0x100 then 1 else if v < 0x1_0000 then 2 else if v < 0x1_0000_0000 then 4 else 8;
    FromBeInvertsToBe(v, width);
    if v >= 128 { assert WriteUint(v)[1..] == ToBe(v, width); }
    hide ToBe, FromBe;
  }

  // ----- Reading -----

  function Take(data: seq<byte>, n: nat): (r: Option<Parsed<seq<byte>>>)
    ensures r.Some? <==> n <= |data|
    ensures r.Some? ==> r.value.value + r.value.rest == data && |r.value.value| == n
  {
    if n <= |data| then Some(Parsed(data[..n], data[n..])) else None
  }

  function ReadUint(data: seq<byte>, width: nat): (r: Option<Parsed<Value>>)
    ensures r.Some? ==> r.value.value.Int? && |r.value.rest| <= |data|
  {
    match Take(data, width)
    case Some(p) => Some(Parsed(Int(FromBe(p.value)), p.rest))
    case None => None
  }

  /** Two's complement of the given width. */
  function ReadSint(data: seq<byte>, width: nat): (r: Option<Parsed<Value>>)
    ensures r.Some? ==> r.value.value.Int? && |r.value.rest| <= |data|
  {
    match Take(data, width)
    case Some(p) =>
      var v := FromBe(p.value);
      Some(Parsed(Int(if 2 * v >= Pow256(width) then v - Pow256(width) else v), p.rest))
    case None => None
  }

  /** A byte string whose length is written in the next `width` bytes. */
  function ReadSized(data: seq<byte>, width: nat): (r: Option<Parsed<Value>>)
    ensures r.Some? ==> |r.value.rest| <= |data|
  {
    match Take(data, width)
    case Some(p) => ReadFixed(p.rest, FromBe(p.value))
    case None => None
  }

  function ReadFixed(data: seq<byte>, n: nat): (r: Option<Parsed<Value>>)
    ensures r.Some? ==> |r.value.rest| <= |data|
  {
    match Take(data, n)
    case Some(p) => Some(Parsed(Bytes(p.value), p.rest))
    case None => None
  }

  function Opaque(r: Option<Parsed<Value>>): Option<Parsed<Value>> {
    match r
    case Some(p) => Some(Parsed(Other, p.rest))
    case None => None
  }

  /** An extension: the length field, a type byte, the data. */
  function ReadExt(data: seq<byte>, width: nat): (r: Option<Parsed<Value>>)
    ensures r.Some? ==> |r.value.rest| <= |data|
  {
    match Take(data, width)
    case Some(p) => Opaque(ReadFixed(p.rest, 1 + FromBe(p.value)))
    case None => None
  }

  function ReadValue(data: seq<byte>): (r: Option<Parsed<Value>>)
    ensures r.Some? ==> |r.value.rest| < |data|
    decreases |data|, 0
  {
    if data == [] then None
    else
      var m, body := data[0], data[1..];
      if m < 0x80 then Some(Parsed(Int(m), body))
      else if m < 0x90 then ReadMap(body, m - 0x80)
      else if m < 0xa0 then ReadArray(body, m - 0x90)
      else if m < 0xc0 then ReadFixed(body, m - 0xa0)
      else if m >= 0xe0 then Some(Parsed(Int(m as int - 0x100), body))
      else
        match m
        case 0xc0 => Some(Parsed(Other, body))
        case 0xc1 => None
        case 0xc2 => Some(Parsed(Other, body))
        case 0xc3 => Some(Parsed(Other, body))
        case 0xc4 => ReadSized(body, 1)
        case 0xc5 => ReadSized(body, 2)
        case 0xc6 => ReadSized(body, 4)
        case 0xc7 => ReadExt(body, 1)
        case 0xc8 => ReadExt(body, 2)
        case 0xc9 => ReadExt(body, 4)
        case 0xca => Opaque(ReadFixed(body, 4))
        case 0xcb => Opaque(ReadFixed(body, 8))
        case 0xcc => ReadUint(body, 1)
        case 0xcd => ReadUint(body, 2)
        case 0xce => ReadUint(body, 4)
        case 0xcf => ReadUint(body, 8)
        case 0xd0 => ReadSint(body, 1)
        case 0xd1 => ReadSint(body, 2)
        case 0xd2 => ReadSint(body, 4)
        case 0xd3 => ReadSint(body, 8)
        case 0xd4 => Opaque(ReadFixed(body, 2))
        case 0xd5 => Opaque(ReadFixed(body, 3))
        case 0xd6 => Opaque(ReadFixed(body, 5))
        case 0xd7 => Opaque(ReadFixed(body, 9))
        case 0xd8 => Opaque(ReadFixed(body, 17))
        case 0xd9 => ReadSized(body, 1)
        case 0xda => ReadSized(body, 2)
        case 0xdb => ReadSized(body, 4)
        case 0xdc => (match Take(body, 2) case Some(p) => ReadArray(p.rest, FromBe(p.value)) case None => None)
        case 0xdd => (match Take(body, 4) case Some(p) => ReadArray(p.rest, FromBe(p.value)) case None => None)
        case 0xde => (match Take(body, 2) case Some(p) => ReadMap(p.rest, FromBe(p.value)) case None => None)
        case _ => (match Take(body, 4) case Some(p) => ReadMap(p.rest, FromBe(p.value)) case None => None)
  }

  function ReadArray(data: seq<byte>, count: nat): (r: Option<Parsed<Value>>)
    ensures r.Some? ==> |r.value.rest| <= |data|
    decreases |data|, 2
  {
    match ReadMany(data, count)
    case Some(p) => Some(Parsed(Array(p.value), p.rest))
    case None => None
  }

  function ReadMap(data: seq<byte>, count: nat): (r: Option<Parsed<Value>>)
    ensures r.Some? ==> |r.value.rest| <= |data|
    decreases |data|, 2
  {
    match ReadMany(data, 2 * count)
    case Some(p) => Some(Parsed(Other, p.rest))
    case None => None
  }

  function ReadMany(data: seq<byte>, count: nat): (r: Option<Parsed<seq<Value>>>)
    ensures r.Some? ==> |r.value.rest| <= |data| && |r.value.value| == count
    decreases |data|, 1
  {
    if count == 0 then Some(Parsed([], data))
    else
      match ReadValue(data)
      case None => None
      case Some(head) =>
        match ReadMany(head.rest, count - 1)
        case None => None
        case Some(tail) => Some(Parsed([head.value] + tail.value, tail.rest))
  }

  // ----- Reading undoes writing -----

  lemma UintRoundTrip(v: u64, rest: seq<byte>)
    ensures ReadValue(WriteUint(v) + rest) == Some(Parsed(Int(v), rest))
  {
    Widths();
    hide FromBe, ToBe, Pow256, ReadSized, ReadFixed, ReadExt, ReadArray, ReadMap, ReadMany, ReadSint;
    var width := if v < 128 then 0 else if v < 0x100 then 1 else if v < 0x1_0000 then 2 else if v < 0x1_0000_0000 then 4 else 8;
    var data := WriteUint(v) + rest;
    if v >= 128 {
      FromBeInvertsToBe(v, width);
      assert data[1..] == ToBe(v, width) + rest;
      assert data[1..][..width] == ToBe(v, width) && data[1..][width..] == rest;
    } else {
      assert data[1..] == rest;
    }
  }

  lemma BinRoundTrip(b: seq<byte>, rest: seq<byte>)
    requires |b| < 256
    ensures ReadValue(WriteBin(b) + rest) == Some(Parsed(Bytes(b), rest))
  {
    var data := WriteBin(b) + rest;
    assert data[1..] == [|b|] + b + rest;
    assert data[1..][..1] == [|b|] && data[1..][1..] == b + rest;
    assert FromBe([|b|]) == |b| by { assert [|b|][..0] == []; }
    assert (b + rest)[..|b|] == b && (b + rest)[|b|..] == rest;
  }

  /** What a writer of scalar fields produces. */
  function WriteScalar(v: Value): seq<byte>
    requires (v.Int? && 0 <= v.i <= U64_MAX) || (v.Bytes? && |v.b| < 256)
  {
    if v.Int? then WriteUint(v.i) else WriteBin(v.b)
  }

  predicate Scalars(items: seq<Value>) {
    forall v :: v in items ==> (v.Int? && 0 <= v.i <= U64_MAX) || (v.Bytes? && |v.b| < 256)
  }

  function WriteAll(items: seq<Value>): seq<byte>
    requires Scalars(items)
  {
    if items == [] then [] else WriteScalar(items[0]) + WriteAll(items[1..])
  }

  lemma ScalarRoundTrip(v: Value, rest: seq<byte>)
    requires Scalars([v])
    ensures ReadValue(WriteScalar(v) + rest) == Some(Parsed(v, rest))
  {
    assert v in [v];
    if v.Int? {
      UintRoundTrip(v.i, rest);
    } else {
      BinRoundTrip(v.b, rest);
    }
  }

  lemma ManyStep(data: seq<byte>, head: Parsed<Value>, tail: Parsed<seq<Value>>)
    requires ReadValue(data) == Some(head) && ReadMany(head.rest, |tail.value|) == Some(tail)
    ensures ReadMany(data, |tail.value| + 1) == Some(Parsed([head.value] + tail.value, tail.rest))
  {
  }

  lemma {:induction false} ManyRoundTrip(items: seq<Value>, rest: seq<byte>)
    requires Scalars(items)
    ensures ReadMany(WriteAll(items) + rest, |items|) == Some(Parsed(items, rest))
  {
    if items == [] {
      assert WriteAll(items) + rest == rest;
    } else {
      var tail := WriteAll(items[1..]) + rest;
      assert WriteAll(items) == WriteScalar(items[0]) + WriteAll(items[1..]);
      hide WriteAll, WriteScalar, ReadMany, ReadValue;
      Regroup(WriteScalar(items[0]), WriteAll(items[1..]), rest);
      ScalarRoundTrip(items[0], tail);
      ManyRoundTrip(items[1..], rest);
      ManyStep(WriteAll(items) + rest, Parsed(items[0], tail), Parsed(items[1..], rest));
      assert [items[0]] + items[1..] == items;
    }
  }
}
