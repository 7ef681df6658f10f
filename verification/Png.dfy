/** PNG: an animation control chunk ahead of the image data (PNG specification, section 5.3). */
module Png {
  import opened Common
  import opened Scanner
  import MessagePack

  const SIGNATURE: seq<byte> := [0x89, 80, 78, 71, 13, 10, 26, 10]
  const ACTL: seq<byte> := [97, 99, 84, 76]
  const IDAT: seq<byte> := [73, 68, 65, 84]
  const IEND: seq<byte> := [73, 69, 78, 68]

  function Chunks(s: seq<byte>): Verdict
    decreases |s|
  {
    if |s| < 8 then Truncated
    else if s[4..8] == ACTL then Animated
    else if s[4..8] == IDAT || s[4..8] == IEND then Still
    else Chunks(Skip(s[8..], MessagePack.FromBe(s[..4]) + 4))
  }

  function Animation(s: seq<byte>): Verdict {
    if |s| < 8 then Truncated else if s[..8] != SIGNATURE then Still else Chunks(s[8..])
  }

  lemma ChunksCases(s: seq<byte>)
    ensures |s| < 8 ==> Chunks(s) == Truncated
    ensures |s| >= 8 && s[4..8] == ACTL ==> Chunks(s) == Animated
    ensures |s| >= 8 && s[4..8] != ACTL && (s[4..8] == IDAT || s[4..8] == IEND) ==> Chunks(s) == Still
    ensures |s| >= 8 && s[4..8] != ACTL && s[4..8] != IDAT && s[4..8] != IEND ==>
              Chunks(s) == Chunks(Skip(s[8..], MessagePack.FromBe(s[..4]) + 4))
  {
    hide MessagePack.FromBe, Skip, ACTL, IDAT, IEND;
  }

  /** One chunk: a verdict, or nothing yet. */
  method Visit(reader: Reader) returns (verdict: Option<Verdict>)
    modifies reader
    ensures verdict.Some? ==> verdict.value == Chunks(old(reader.Rest()))
    ensures verdict.None? ==> Chunks(reader.Rest()) == Chunks(old(reader.Rest()))
                              && |reader.Rest()| < |old(reader.Rest())|
  {
    hide *;
    ghost var s := reader.Rest();
    ChunksCases(s);
    var header := ReadWords(reader);
    if header.None? {
      return Some(Truncated);
    }
    var (length, kind) := header.value;
    if kind == ACTL {
      return Some(Animated);
    }
    if kind == IDAT || kind == IEND {
      return Some(Still);
    }
    reader.Seek(MessagePack.FromBe(length) + 4);
    return None;
  }

  /** 0x89, `PNG`, and the four bytes that betray a changed line ending. */
  predicate IsSigned(s: seq<byte>) { |s| >= 8 && s[0] == 0x89 && Spells(s[1..4], "PNG") && s[4..8] == [13, 10, 26, 10] }

  lemma SignedIff(s: seq<byte>)
    ensures IsSigned(s) <==> |s| >= 8 && s[..8] == SIGNATURE
    ensures Animation(s) == if |s| < 8 then Truncated else if !IsSigned(s) then Still else Chunks(s[8..])
  {
    hide Chunks;
    if |s| >= 8 { assert s[1..4] == [s[1], s[2], s[3]] && s[4..8] == [s[4], s[5], s[6], s[7]]; }
  }

  method HasAnimation(data: seq<byte>) returns (verdict: Verdict)
    ensures verdict == Animation(data)
    ensures |data| < 8 ==> verdict == Truncated
    ensures |data| >= 8 && !IsSigned(data) ==> verdict == Still
  {
    SignedIff(data);
    hide IsSigned;
    var reader := new Reader(data);
    var signature := reader.ReadExact(8);
    if signature.None? {
      return Truncated;
    }
    if signature.value != SIGNATURE {
      return Still;
    }
    hide Chunks;
    while true
      invariant Chunks(reader.Rest()) == Animation(data)
      decreases |reader.Rest()|
    {
      var found := Visit(reader);
      if found.Some? {
        return found.value;
      }
    }
  }

  // ----- The grammar -----

  datatype Chunk = Chunk(kind: seq<byte>, payload: seq<byte>, crc: seq<byte>)

  predicate WellFormed(c: Chunk) { |c.kind| == 4 && |c.crc| == 4 && |c.payload| < 0x1_0000_0000 }

  /** An animation control, image data or end chunk. */
  predicate Decides(kind: seq<byte>) { Spells(kind, "acTL") || Spells(kind, "IDAT") || Spells(kind, "IEND") }

  lemma Names(kind: seq<byte>)
    ensures Spells(kind, "acTL") <==> kind == ACTL
    ensures Spells(kind, "IDAT") <==> kind == IDAT
    ensures Spells(kind, "IEND") <==> kind == IEND
  {
  }

  function WriteChunk(c: Chunk): seq<byte>
    requires WellFormed(c)
  {
    MessagePack.ToBe(|c.payload|, 4) + c.kind + c.payload + c.crc
  }

  function WriteChunks(chunks: seq<Chunk>): seq<byte>
    requires forall i :: 0 <= i < |chunks| ==> WellFormed(chunks[i])
  {
    if chunks == [] then [] else WriteChunk(chunks[0]) + WriteChunks(chunks[1..])
  }

  lemma ChunkLayout(length: seq<byte>, kind: seq<byte>, payload: seq<byte>, crc: seq<byte>, rest: seq<byte>)
    requires |length| == 4 && |kind| == 4
    ensures var s := length + kind + payload + crc + rest;
            |s| >= 8 && s[..4] == length && s[4..8] == kind && s[8..] == (payload + crc) + rest
  {
  }

  lemma OneChunk(c: Chunk, rest: seq<byte>)
    requires WellFormed(c)
    ensures Chunks(WriteChunk(c) + rest) ==
            if Spells(c.kind, "acTL") then Animated else if Decides(c.kind) then Still else Chunks(rest)
  {
    Names(c.kind);
    hide Spells;
    hide MessagePack.ToBe, MessagePack.FromBe;
    MessagePack.Widths();
    MessagePack.FromBeInvertsToBe(|c.payload|, 4);
    ChunkLayout(MessagePack.ToBe(|c.payload|, 4), c.kind, c.payload, c.crc, rest);
    SkipFront(c.payload + c.crc, rest);
  }

  lemma ChunksSplit(chunks: seq<Chunk>, rest: seq<byte>)
    requires chunks != [] && forall i :: 0 <= i < |chunks| ==> WellFormed(chunks[i])
    ensures WriteChunks(chunks) + rest == WriteChunk(chunks[0]) + (WriteChunks(chunks[1..]) + rest)
  {
    hide WriteChunk;
    assert WriteChunks(chunks) == WriteChunk(chunks[0]) + WriteChunks(chunks[1..]);
    hide *;
    Regroup(WriteChunk(chunks[0]), WriteChunks(chunks[1..]), rest);
  }

  lemma {:induction false} FirstDecides(chunks: seq<Chunk>, rest: seq<byte>, k: nat)
    requires forall i :: 0 <= i < |chunks| ==> WellFormed(chunks[i])
    requires k < |chunks| && Decides(chunks[k].kind) && forall i :: 0 <= i < k ==> !Decides(chunks[i].kind)
    ensures Chunks(WriteChunks(chunks) + rest) == if Spells(chunks[k].kind, "acTL") then Animated else Still
    decreases |chunks|
  {
    hide Chunks, WriteChunk, WriteChunks;
    ChunksSplit(chunks, rest);
    OneChunk(chunks[0], WriteChunks(chunks[1..]) + rest);
    if k > 0 {
      FirstDecides(chunks[1..], rest, k - 1);
    }
  }

  /** The scan is true exactly when `acTL` comes before the first `IDAT` and `IEND`. */
  lemma ScanAgreesWithGrammar(chunks: seq<Chunk>, rest: seq<byte>, k: nat)
    requires forall i :: 0 <= i < |chunks| ==> WellFormed(chunks[i])
    requires k < |chunks| && Decides(chunks[k].kind) && forall i :: 0 <= i < k ==> !Decides(chunks[i].kind)
    ensures Animation(SIGNATURE + WriteChunks(chunks) + rest) == if Spells(chunks[k].kind, "acTL") then Animated else Still
  {
    hide *;
    Signed(WriteChunks(chunks) + rest);
    Regroup(SIGNATURE, WriteChunks(chunks), rest);
    FirstDecides(chunks, rest, k);
  }

  lemma Signed(body: seq<byte>)
    ensures Animation(SIGNATURE + body) == Chunks(body)
  {
    hide Chunks;
    Prefixed(SIGNATURE, [], [], body);
    assert SIGNATURE + [] + [] + body == SIGNATURE + body;
  }

  /** A file that ends without any of the three is not a readable image. */
  lemma {:induction false} UndecidedIsTruncated(chunks: seq<Chunk>)
    requires forall i :: 0 <= i < |chunks| ==> WellFormed(chunks[i]) && !Decides(chunks[i].kind)
    ensures Chunks(WriteChunks(chunks)) == Truncated
  {
    if chunks != [] {
      assert WriteChunks(chunks) == WriteChunk(chunks[0]) + WriteChunks(chunks[1..]);
      hide Chunks, WriteChunk, WriteChunks;
      OneChunk(chunks[0], WriteChunks(chunks[1..]));
      UndecidedIsTruncated(chunks[1..]);
    }
  }
}
