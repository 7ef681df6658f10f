/** WebP: walking padded RIFF chunks (RFC 9649, sections 2.3 and 2.7). */
module WebP {
  import opened Common
  import opened Scanner
  import MessagePack

  const RIFF: seq<byte> := [82, 73, 70, 70]
  const WEBP: seq<byte> := [87, 69, 66, 80]
  const VP8X: seq<byte> := [86, 80, 56, 88]
  const ANIM: seq<byte> := [65, 78, 73, 77]
  const ANMF: seq<byte> := [65, 78, 77, 70]

  function FromLe(s: seq<byte>): nat { if s == [] then 0 else s[0] + 256 * FromLe(s[1..]) }

  function ToLe(v: nat, width: nat): (s: seq<byte>)
    ensures |s| == width
  {
    if width == 0 then [] else [v % 256] + ToLe(v / 256, width - 1)
  }

  lemma {:induction false} FromLeInvertsToLe(v: nat, width: nat)
    requires v < MessagePack.Pow256(width)
    ensures FromLe(ToLe(v, width)) == v
  {
    if width > 0 {
      FromLeInvertsToLe(v / 256, width - 1);
      assert ToLe(v, width)[1..] == ToLe(v / 256, width - 1);
    }
  }

  /** Bit 1 of the extended header's flags. */
  predicate AnimationFlag(flags: byte) { flags / 2 % 2 == 1 }

  function Chunks(s: seq<byte>): Verdict
    decreases |s|
  {
    if |s| < 8 then Still
    else
      var length := FromLe(s[4..8]);
      if s[..4] == ANIM || s[..4] == ANMF then Animated
      else if s[..4] == VP8X && length >= 1 then
        if |s| < 9 then Truncated
        else if AnimationFlag(s[8]) then Animated
        else Chunks(Skip(s[9..], length - 1 + length % 2))
      else Chunks(Skip(s[8..], length + length % 2))
  }

  function Animation(s: seq<byte>): Verdict {
    if |s| < 12 then Truncated
    else if s[..4] != RIFF || s[8..12] != WEBP then Still
    else Chunks(s[12..])
  }

  /** The flags of an extended header, with the rest of its payload skipped when they say nothing. */
  method ReadFlags(reader: Reader, length: nat) returns (animated: Option<bool>)
    requires length >= 1
    modifies reader
    ensures animated.None? <==> old(reader.Rest()) == []
    ensures animated.Some? ==> (animated.value <==> AnimationFlag(old(reader.Rest())[0]))
    ensures animated == Some(false) ==> reader.Rest() == Skip(old(reader.Rest())[1..], length - 1 + length % 2)
  {
    var flags := reader.ReadExact(1);
    if flags.None? {
      return None;
    }
    if AnimationFlag(flags.value[0]) {
      return Some(true);
    }
    reader.Seek(length - 1 + length % 2);
    return Some(false);
  }

  method ReadSignature(reader: Reader) returns (words: Option<(seq<byte>, seq<byte>)>)
    modifies reader
    ensures words.Some? <==> |old(reader.Rest())| >= 12
    ensures words.Some? ==> words.value == (old(reader.Rest())[..4], old(reader.Rest())[8..12])
                            && reader.Rest() == old(reader.Rest())[12..]
  {
    ghost var s := reader.Rest();
    var header := reader.ReadExact(12);
    if header.None? {
      return None;
    }
    assert s[..12][..4] == s[..4] && s[..12][8..] == s[8..12];
    return Some((header.value[..4], header.value[8..]));
  }

  lemma ChunksCases(s: seq<byte>)
    ensures |s| < 8 ==> Chunks(s) == Still
    ensures |s| >= 8 && (s[..4] == ANIM || s[..4] == ANMF) ==> Chunks(s) == Animated
    ensures |s| >= 8 && s[..4] != ANIM && s[..4] != ANMF ==>
              var length, body := FromLe(s[4..8]), s[8..];
              && (if s[..4] == VP8X && length >= 1 then
                    if body == [] then Chunks(s) == Truncated
                    else if AnimationFlag(body[0]) then Chunks(s) == Animated
                    else Chunks(s) == Chunks(Skip(body[1..], length - 1 + length % 2))
                  else Chunks(s) == Chunks(Skip(body, length + length % 2)))
  {
    hide FromLe, AnimationFlag, Skip, ANIM, ANMF, VP8X;
    if |s| >= 9 { assert s[8..][1..] == s[9..]; }
  }

  /** One chunk: a verdict, or nothing yet. */
  method Visit(reader: Reader) returns (verdict: Option<Verdict>)
    modifies reader
    ensures verdict.Some? ==> verdict.value == Chunks(old(reader.Rest()))
    ensures verdict.None? ==> Chunks(reader.Rest()) == Chunks(old(reader.Rest()))
                              && |reader.Rest()| < |old(reader.Rest())|
  {
    hide *;
    ghost var s := reader.Rest();
    ChunksCases(s);
    var header := ReadWords(reader);
    if header.None? {
      return Some(Still);
    }
    var kind, length := header.value.0, FromLe(header.value.1);
    if kind == ANIM || kind == ANMF {
      return Some(Animated);
    }
    if kind == VP8X && length >= 1 {
      var animated := ReadFlags(reader, length);
      if animated.None? {
        return Some(Truncated);
      }
      if animated.value {
        return Some(Animated);
      }
    } else {
      reader.Seek(length + length % 2);
    }
    return None;
  }

  lemma SignedIff(a: seq<byte>, b: seq<byte>)
    ensures Spells(a, "RIFF") && Spells(b, "WEBP") <==> a == RIFF && b == WEBP
  {
    if Spells(a, "RIFF") && Spells(b, "WEBP") { assert a == RIFF && b == WEBP; }
  }

  method HasAnimation(data: seq<byte>) returns (verdict: Verdict)
    ensures verdict == Animation(data)
    ensures |data| < 12 ==> verdict == Truncated
    ensures |data| >= 12 && !(Spells(data[..4], "RIFF") && Spells(data[8..12], "WEBP")) ==> verdict == Still
  {
    if |data| >= 12 { SignedIff(data[..4], data[8..12]); }
    hide Spells;
    var reader := new Reader(data);
    var signature := ReadSignature(reader);
    if signature.None? {
      return Truncated;
    }
    if signature.value.0 != RIFF || signature.value.1 != WEBP {
      return Still;
    }
    hide Chunks;
    while true
      invariant Chunks(reader.Rest()) == Animation(data)
      decreases |reader.Rest()|
    {
      var found := Visit(reader);
      if found.Some? {
        return found.value;
      }
    }
  }

  // ----- The grammar -----

  datatype Chunk = Chunk(kind: seq<byte>, payload: seq<byte>)

  predicate WellFormed(c: Chunk) { |c.kind| == 4 && |c.payload| < 0x1_0000_0000 }

  /** The extended header's first byte: the flags above the animation bit, that bit, and one below. */
  datatype Flags = Flags(above: nat, animation: bool, below: bool)

  function Packed(f: Flags): nat { 4 * f.above + (if f.animation then 2 else 0) + (if f.below then 1 else 0) }

  /** The byte says that the image is animated. */
  ghost predicate Announces(b: byte) { exists f :: Packed(f) == b && f.animation }

  lemma FlagIsAnimation(f: Flags, b: byte)
    requires Packed(f) == b
    ensures AnimationFlag(b) <==> f.animation
  {
  }

  lemma Names(kind: seq<byte>)
    ensures Spells(kind, "ANIM") <==> kind == ANIM
    ensures Spells(kind, "ANMF") <==> kind == ANMF
    ensures Spells(kind, "VP8X") <==> kind == VP8X
    ensures Spells(RIFF, "RIFF") && Spells(WEBP, "WEBP")
  {
  }

  lemma AnnouncesIff(b: byte)
    ensures AnimationFlag(b) <==> Announces(b)
  {
    var f := FlagsOf(b);
    forall g | Packed(g) == b ensures AnimationFlag(b) <==> g.animation { FlagIsAnimation(g, b); }
  }

  lemma FlagsOf(b: byte) returns (f: Flags)
    ensures Packed(f) == b
  {
    f := Flags(b / 4, b % 4 >= 2, b % 2 == 1);
    assert b == 4 * (b / 4) + b % 4;
  }

  /** Animation chunks, or an extended header that announces animation. */
  ghost predicate Animates(c: Chunk) {
    || Spells(c.kind, "ANIM") || Spells(c.kind, "ANMF")
    || (Spells(c.kind, "VP8X") && c.payload != [] && Announces(c.payload[0]))
  }

  function Padding(n: nat): seq<byte> { if n % 2 == 1 then [0] else [] }

  function WriteChunk(c: Chunk): seq<byte>
    requires WellFormed(c)
  {
    c.kind + ToLe(|c.payload|, 4) + c.payload + Padding(|c.payload|)
  }

  function WriteChunks(chunks: seq<Chunk>): seq<byte>
    requires forall i :: 0 <= i < |chunks| ==> WellFormed(chunks[i])
  {
    if chunks == [] then [] else WriteChunk(chunks[0]) + WriteChunks(chunks[1..])
  }

  lemma ChunkLayout(kind: seq<byte>, length: seq<byte>, payload: seq<byte>, pad: seq<byte>, rest: seq<byte>)
    requires |length| == 4 && |kind| == 4
    ensures var s := kind + length + payload + pad + rest;
            && |s| >= 8 && s[..4] == kind && s[4..8] == length && s[8..] == (payload + pad) + rest
            && (payload != [] ==> |s| >= 9 && s[8] == payload[0] && s[9..] == (payload[1..] + pad) + rest)
  {
  }

  lemma OneChunk(c: Chunk, rest: seq<byte>)
    requires WellFormed(c)
    ensures Chunks(WriteChunk(c) + rest) == if Animates(c) then Animated else Chunks(rest)
  {
    hide ToLe, FromLe, AnimationFlag, Announces, Chunks, Skip, MessagePack.Pow256;
    MessagePack.Widths();
    FromLeInvertsToLe(|c.payload|, 4);
    var pad := Padding(|c.payload|);
    ChunkLayout(c.kind, ToLe(|c.payload|, 4), c.payload, pad, rest);
    ChunkIsPassed(WriteChunk(c) + rest, c, pad, rest);
  }

  /** A chunk with its padding is passed over as a whole, unless it decides. */
  lemma ChunkIsPassed(s: seq<byte>, c: Chunk, pad: seq<byte>, rest: seq<byte>)
    requires |s| >= 8 && s[..4] == c.kind && FromLe(s[4..8]) == |c.payload| && s[8..] == (c.payload + pad) + rest
    requires c.payload != [] ==> |s| >= 9 && s[8] == c.payload[0] && s[9..] == (c.payload[1..] + pad) + rest
    requires |pad| == |c.payload| % 2
    ensures Chunks(s) == if Animates(c) then Animated else Chunks(rest)
  {
    hide FromLe, AnimationFlag, Announces, Skip, Spells, ANIM, ANMF, VP8X;
    Names(c.kind);
    SkipFront(c.payload + pad, rest);
    if c.payload != [] {
      AnnouncesIff(c.payload[0]);
      SkipFront(c.payload[1..] + pad, rest);
    }
  }

  lemma ChunksSplit(chunks: seq<Chunk>, rest: seq<byte>)
    requires chunks != [] && forall i :: 0 <= i < |chunks| ==> WellFormed(chunks[i])
    ensures WriteChunks(chunks) + rest == WriteChunk(chunks[0]) + (WriteChunks(chunks[1..]) + rest)
  {
    hide WriteChunk;
    assert WriteChunks(chunks) == WriteChunk(chunks[0]) + WriteChunks(chunks[1..]);
    hide *;
    Regroup(WriteChunk(chunks[0]), WriteChunks(chunks[1..]), rest);
  }

  lemma {:induction false} ChunksAgree(chunks: seq<Chunk>, rest: seq<byte>)
    requires |rest| < 8 && forall i :: 0 <= i < |chunks| ==> WellFormed(chunks[i])
    ensures Chunks(WriteChunks(chunks) + rest) == Animated <==> exists i :: 0 <= i < |chunks| && Animates(chunks[i])
    ensures Chunks(WriteChunks(chunks) + rest) != Truncated
  {
    if chunks == [] {
      assert WriteChunks(chunks) + rest == rest;
    } else {
      hide *;
      ChunksSplit(chunks, rest);
      OneChunk(chunks[0], WriteChunks(chunks[1..]) + rest);
      ChunksAgree(chunks[1..], rest);
      SomeAnimates(chunks);
    }
  }

  lemma SomeAnimates(chunks: seq<Chunk>)
    requires chunks != [] && forall i :: 0 <= i < |chunks| ==> WellFormed(chunks[i])
    ensures (exists i :: 0 <= i < |chunks| && Animates(chunks[i])) <==>
              Animates(chunks[0]) || exists i :: 0 <= i < |chunks[1..]| && Animates(chunks[1..][i])
  {
    hide Animates;
    if i :| 0 < i < |chunks| && Animates(chunks[i]) {
      assert chunks[1..][i - 1] == chunks[i];
    }
  }

  /** The scan is true exactly when some chunk animates, wherever it stands, and odd chunks are padded. */
  lemma ScanAgreesWithGrammar(size: seq<byte>, chunks: seq<Chunk>, rest: seq<byte>)
    requires |size| == 4 && |rest| < 8 && forall i :: 0 <= i < |chunks| ==> WellFormed(chunks[i])
    ensures Spells(RIFF, "RIFF") && Spells(WEBP, "WEBP")
    ensures var verdict := Animation(RIFF + size + WEBP + WriteChunks(chunks) + rest);
            && verdict != Truncated
            && (verdict == Animated <==> exists i :: 0 <= i < |chunks| && Animates(chunks[i]))
  {
    hide *;
    Names([]);
    HeaderIsRead(size, WriteChunks(chunks) + rest);
    assert RIFF + size + WEBP + (WriteChunks(chunks) + rest) == RIFF + size + WEBP + WriteChunks(chunks) + rest;
    ChunksAgree(chunks, rest);
  }

  lemma HeaderIsRead(size: seq<byte>, body: seq<byte>)
    requires |size| == 4
    ensures Animation(RIFF + size + WEBP + body) == Chunks(body)
  {
    FourByteNames();
    hide Chunks, RIFF, WEBP;
    Prefixed(RIFF, size, WEBP, body);
  }

  lemma FourByteNames()
    ensures |RIFF| == 4 && |WEBP| == 4
  {
  }
}
