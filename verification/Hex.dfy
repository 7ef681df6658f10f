/** Hexadecimal text, as message rows spell the 32-byte ids of the admission tables. */
module Hex {
  import opened Common

  function DigitOf(n: nat): char
    requires n < 16
  {
    if n < 10 then '0' + n as char else 'a' + (n - 10) as char
  }

  function ValueOf(c: char): Option<nat> {
    if '0' <= c <= '9' then Some(c as int - '0' as int)
    else if 'a' <= c <= 'f' then Some(c as int - 'a' as int + 10)
    else if 'A' <= c <= 'F' then Some(c as int - 'A' as int + 10)
    else None
  }

  lemma DigitValue(n: nat)
    requires n < 16
    ensures ValueOf(DigitOf(n)) == Some(n)
  {
  }

  /** Always lower case, two digits a byte. */
  function Encode(bytes: seq<byte>): (text: string)
    ensures |text| == 2 * |bytes|
  {
    if bytes == [] then "" else [DigitOf(bytes[0] / 16), DigitOf(bytes[0] % 16)] + Encode(bytes[1..])
  }

  /** Accepts both cases; refuses odd lengths and foreign characters. */
  function Decode(text: string): (bytes: Option<seq<byte>>)
    ensures bytes.Some? ==> |text| == 2 * |bytes.value|
  {
    if text == "" then Some([])
    else if |text| == 1 then None
    else
      match (ValueOf(text[0]), ValueOf(text[1]), Decode(text[2..]))
      case (Some(high), Some(low), Some(rest)) =>
        if high < 16 && low < 16 then Some([high * 16 + low] + rest) else None
      case _ => None
  }

  lemma {:induction false} DecodeInvertsEncode(bytes: seq<byte>)
    ensures Decode(Encode(bytes)) == Some(bytes)
  {
    if bytes != [] {
      DecodeInvertsEncode(bytes[1..]);
      DigitValue(bytes[0] / 16);
      DigitValue(bytes[0] % 16);
      assert Encode(bytes)[2..] == Encode(bytes[1..]);
      assert [bytes[0]] + bytes[1..] == bytes;
    }
  }

  /** Two lower-case digits for each byte, the high one first. */
  lemma {:induction false} EncodesLower(bytes: seq<byte>, k: nat)
    requires k < |bytes|
    ensures Encode(bytes)[2 * k] == "0123456789abcdef"[bytes[k] / 16]
    ensures Encode(bytes)[2 * k + 1] == "0123456789abcdef"[bytes[k] % 16]
  {
    if k > 0 { EncodesLower(bytes[1..], k - 1); }
  }

  predicate Digit(c: char) { '0' <= c <= '9' || 'a' <= c <= 'f' || 'A' <= c <= 'F' }

  /** What a hexadecimal digit of either case stands for. */
  function Place(c: char): nat
    requires Digit(c)
  {
    if c <= '9' then c as nat - 48 else if c <= 'F' then c as nat - 65 + 10 else c as nat - 97 + 10
  }

  /** Exactly the texts of an even number of digits decode, byte by byte, whatever their case. */
  lemma {:induction false} DecodesIff(text: string)
    ensures Decode(text).Some? <==> |text| % 2 == 0 && forall i :: 0 <= i < |text| ==> Digit(text[i])
    ensures Decode(text).Some? ==>
              forall k :: 0 <= k < |Decode(text).value| ==>
                Decode(text).value[k] == 16 * Place(text[2 * k]) + Place(text[2 * k + 1])
  {
    if |text| >= 2 {
      DecodeStarts(text);
      hide Decode, Digit, Place;
      DecodesIff(text[2..]);
      assert forall i :: 2 <= i < |text| ==> text[i] == text[2..][i - 2];
      if Decode(text).Some? {
        var bytes, rest := Decode(text).value, Decode(text[2..]).value;
        forall k | 0 <= k < |bytes| ensures bytes[k] == 16 * Place(text[2 * k]) + Place(text[2 * k + 1]) {
          if k > 0 { assert bytes[k] == rest[k - 1]; }
        }
      }
    }
  }

  lemma DecodeStarts(text: string)
    requires |text| >= 2
    ensures Decode(text) == if Digit(text[0]) && Digit(text[1]) && Decode(text[2..]).Some?
                            then Some([16 * Place(text[0]) + Place(text[1])] + Decode(text[2..]).value) else None
  {
  }
}
