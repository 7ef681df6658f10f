/** GIF: counting image blocks (GIF89a, sections 15 and 18 to 22). */
module Gif {
  import opened Common
  import opened Scanner

  const GIF87A: seq<byte> := [71, 73, 70, 56, 55, 97]
  const GIF89A: seq<byte> := [71, 73, 70, 56, 57, 97]

  function Pow2(n: nat): (p: nat)
    ensures p > 0
  {
    if n == 0 then 1 else 2 * Pow2(n - 1)
  }

  /** The size of a colour table, from the packed flags that announce it. */
  function TableBytes(flags: byte): nat { if flags >= 0x80 then 3 * Pow2(flags % 8 + 1) else 0 }

  // ----- The scan -----

  function AfterSubBlocks(s: seq<byte>): (r: Option<seq<byte>>)
    ensures r.Some? ==> |r.value| < |s|
    decreases |s|
  {
    if s == [] then None else if s[0] == 0 then Some(s[1..]) else AfterSubBlocks(Skip(s[1..], s[0]))
  }

  function Frames(s: seq<byte>, seen: nat): Verdict
    decreases |s|
  {
    if s == [] then Still
    else if s[0] == 0x2c then
      if seen >= 1 then Animated
      else if |s| < 10 then Truncated
      else
        match AfterSubBlocks(Skip(Skip(s[10..], TableBytes(s[9])), 1))
        case None => Truncated
        case Some(rest) => Frames(rest, seen + 1)
    else if s[0] == 0x21 then
      match AfterSubBlocks(Skip(s[1..], 1))
      case None => Truncated
      case Some(rest) => Frames(rest, seen)
    else Still
  }

  function MultipleFrames(s: seq<byte>): Verdict {
    if |s| < 13 then Truncated
    else if s[..6] != GIF87A && s[..6] != GIF89A then Still
    else Frames(Skip(s[13..], TableBytes(s[10])), 0)
  }

  method SkipSubBlocks(reader: Reader) returns (ok: bool)
    modifies reader
    ensures ok <==> AfterSubBlocks(old(reader.Rest())).Some?
    ensures ok ==> Some(reader.Rest()) == AfterSubBlocks(old(reader.Rest()))
  {
    while true
      invariant AfterSubBlocks(reader.Rest()) == AfterSubBlocks(old(reader.Rest()))
      decreases |reader.Rest()|
    {
      var size := reader.ReadExact(1);
      if size.None? {
        return false;
      }
      if size.value[0] == 0 {
        return true;
      }
      reader.Seek(size.value[0]);
    }
  }

  method SkipTable(reader: Reader, flags: byte)
    modifies reader
    ensures reader.Rest() == Skip(old(reader.Rest()), TableBytes(flags))
  {
    if flags >= 0x80 {
      reader.Seek(3 * Pow2(flags % 8 + 1));
    }
  }

  method SkipImage(reader: Reader) returns (ok: bool)
    modifies reader
    ensures var s := old(reader.Rest());
            if |s| < 9 then !ok
            else var after := AfterSubBlocks(Skip(Skip(s[9..], TableBytes(s[8])), 1));
                 ok == after.Some? && (ok ==> Some(reader.Rest()) == after)
  {
    var descriptor := reader.ReadExact(9);
    if descriptor.None? {
      return false;
    }
    SkipTable(reader, descriptor.value[8]);
    reader.Seek(1);
    ok := SkipSubBlocks(reader);
  }

  /** What one marker byte decides, in terms of what is left after it. */
  lemma FramesCases(s: seq<byte>, seen: nat)
    ensures s == [] ==> Frames(s, seen) == Still
    ensures s != [] ==> |Skip(s, 1)| < |s| && Skip(s, 1) == s[1..]
    ensures s != [] && s[0] == 0x2c && seen >= 1 ==> Frames(s, seen) == Animated
    ensures s != [] && s[0] == 0x2c && seen < 1 ==>
              var r := Skip(s, 1);
              if |r| < 9 then Frames(s, seen) == Truncated
              else
                var after := AfterSubBlocks(Skip(Skip(r[9..], TableBytes(r[8])), 1));
                Frames(s, seen) == if after.None? then Truncated else Frames(after.value, seen + 1)
    ensures s != [] && s[0] == 0x21 ==>
              var after := AfterSubBlocks(Skip(Skip(s, 1), 1));
              Frames(s, seen) == if after.None? then Truncated else Frames(after.value, seen)
    ensures s != [] && s[0] != 0x2c && s[0] != 0x21 ==> Frames(s, seen) == Still
  {
    hide AfterSubBlocks, TableBytes;
    if |s| >= 10 { assert s[1..][9..] == s[10..]; }
  }

  /** One block: a verdict, or the number of images seen with it. */
  method VisitBlock(reader: Reader, seen: nat) returns (verdict: Option<Verdict>, frames: nat)
    modifies reader
    ensures verdict.Some? ==> verdict.value == Frames(old(reader.Rest()), seen)
    ensures verdict.None? ==> Frames(reader.Rest(), frames) == Frames(old(reader.Rest()), seen)
                              && |reader.Rest()| < |old(reader.Rest())|
  {
    hide *;
    FramesCases(reader.Rest(), seen);
    frames := seen;
    var marker := reader.ReadExact(1);
    if marker.None? {
      return Some(Still), frames;
    }
    var ok: bool;
    if marker.value[0] == 0x2c {
      frames := frames + 1;
      if frames > 1 {
        return Some(Animated), frames;
      }
      ok := SkipImage(reader);
    } else if marker.value[0] == 0x21 {
      reader.Seek(1);
      ok := SkipSubBlocks(reader);
    } else {
      return Some(Still), frames;
    }
    return if ok then None else Some(Truncated), frames;
  }

  lemma SignedIff(s: seq<byte>)
    ensures Spells(s, "GIF87a") || Spells(s, "GIF89a") <==> s == GIF87A || s == GIF89A
  {
    if Spells(s, "GIF87a") { assert s == GIF87A; }
    if Spells(s, "GIF89a") { assert s == GIF89A; }
  }

  method HasMultipleFrames(data: seq<byte>) returns (verdict: Verdict)
    ensures verdict == MultipleFrames(data)
    ensures |data| < 13 ==> verdict == Truncated
    ensures |data| >= 13 && !(Spells(data[..6], "GIF87a") || Spells(data[..6], "GIF89a")) ==> verdict == Still
  {
    hide Frames, TableBytes, GIF87A, GIF89A, Spells;
    if |data| >= 13 { SignedIff(data[..6]); }
    var reader := new Reader(data);
    var header := reader.ReadExact(13);
    if header.None? {
      return Truncated;
    }
    assert header.value[..6] == data[..6] && header.value[10] == data[10];
    if header.value[..6] != GIF87A && header.value[..6] != GIF89A {
      return Still;
    }
    SkipTable(reader, header.value[10]);
    var frames := 0;
    while true
      invariant Frames(reader.Rest(), frames) == MultipleFrames(data)
      decreases |reader.Rest()|
    {
      var found;
      found, frames := VisitBlock(reader, frames);
      if found.Some? {
        return found.value;
      }
    }
  }

  // ----- The grammar -----

  /** A packed field: whether a colour table follows, four bits of no interest here, and its size. */
  datatype Packed = Packed(table: bool, middle: nat, size: nat)

  /** Three bytes a colour, for 2 to 256 colours. */
  const COLOURS: seq<nat> := [2, 4, 8, 16, 32, 64, 128, 256]

  predicate WellPacked(p: Packed) { p.middle < 16 && p.size < 8 }

  function Bits(p: Packed): byte
    requires WellPacked(p)
  {
    (if p.table then 128 else 0) + 8 * p.middle + p.size
  }

  function TableLength(p: Packed): nat
    requires WellPacked(p)
  {
    if p.table then 3 * COLOURS[p.size] else 0
  }

  lemma TableIs(p: Packed)
    requires WellPacked(p)
    ensures TableBytes(Bits(p)) == TableLength(p)
  {
    assert Bits(p) % 8 == p.size;
    assert Pow2(2) == 4 && Pow2(4) == 16 && Pow2(6) == 64;
  }

  datatype Block =
    | Image(position: seq<byte>, packed: Packed, table: seq<byte>, codeSize: byte, pixels: seq<seq<byte>>)
    | Extension(kind: byte, parts: seq<seq<byte>>)

  datatype Stream = Stream(signature: seq<byte>, screen: seq<byte>, packed: Packed, tail: seq<byte>, table: seq<byte>, blocks: seq<Block>)

  predicate SubBlocks(parts: seq<seq<byte>>) { forall i :: 0 <= i < |parts| ==> 1 <= |parts[i]| <= 255 }

  predicate WellFormedBlock(b: Block) {
    match b
    case Image(position, packed, table, _, pixels) =>
      |position| == 8 && WellPacked(packed) && |table| == TableLength(packed) && SubBlocks(pixels)
    case Extension(_, parts) => SubBlocks(parts)
  }

  predicate WellFormed(g: Stream) {
    && (Spells(g.signature, "GIF87a") || Spells(g.signature, "GIF89a")) && |g.screen| == 4 && |g.tail| == 2
    && WellPacked(g.packed) && |g.table| == TableLength(g.packed) && forall i :: 0 <= i < |g.blocks| ==> WellFormedBlock(g.blocks[i])
  }

  function WriteParts(parts: seq<seq<byte>>): seq<byte>
    requires SubBlocks(parts)
  {
    if parts == [] then [0] else [|parts[0]|] + parts[0] + WriteParts(parts[1..])
  }

  function WriteBlock(b: Block): seq<byte>
    requires WellFormedBlock(b)
  {
    match b
    case Image(position, packed, table, codeSize, pixels) =>
      [0x2c] + position + [Bits(packed)] + table + [codeSize] + WriteParts(pixels)
    case Extension(kind, parts) => [0x21, kind] + WriteParts(parts)
  }

  function WriteBlocks(blocks: seq<Block>): seq<byte>
    requires forall i :: 0 <= i < |blocks| ==> WellFormedBlock(blocks[i])
  {
    if blocks == [] then [] else WriteBlock(blocks[0]) + WriteBlocks(blocks[1..])
  }

  function Write(g: Stream): seq<byte>
    requires WellFormed(g)
  {
    g.signature + g.screen + [Bits(g.packed)] + g.tail + g.table + WriteBlocks(g.blocks) + [0x3b]
  }

  function Images(blocks: seq<Block>): nat {
    if blocks == [] then 0 else (if blocks[0].Image? then 1 else 0) + Images(blocks[1..])
  }

  lemma {:induction false} PartsAreSkipped(parts: seq<seq<byte>>, rest: seq<byte>)
    requires SubBlocks(parts)
    ensures AfterSubBlocks(WriteParts(parts) + rest) == Some(rest)
  {
    var s := WriteParts(parts) + rest;
    if parts == [] {
      assert s[1..] == rest;
    } else {
      var more := WriteParts(parts[1..]) + rest;
      assert s[1..] == parts[0] + more;
      SkipFront(parts[0], more);
      PartsAreSkipped(parts[1..], rest);
    }
  }

  lemma ImageLayout(position: seq<byte>, flags: byte, table: seq<byte>, codeSize: byte, more: seq<byte>)
    requires |position| == 8
    ensures var s := [0x2c] + position + [flags] + table + [codeSize] + more;
            |s| >= 10 && s[0] == 0x2c && s[9] == flags && s[10..] == table + ([codeSize] + more)
  {
  }

  lemma ImageIsSkipped(b: Block, rest: seq<byte>)
    requires WellFormedBlock(b) && b.Image?
    ensures var s := WriteBlock(b) + rest;
            && |s| >= 10 && s[0] == 0x2c
            && AfterSubBlocks(Skip(Skip(s[10..], TableBytes(s[9])), 1)) == Some(rest)
  {
    hide AfterSubBlocks, TableBytes, WriteParts;
    TableIs(b.packed);
    var more := WriteParts(b.pixels) + rest;
    assert WriteBlock(b) + rest == [0x2c] + b.position + [Bits(b.packed)] + b.table + [b.codeSize] + more;
    ImageLayout(b.position, Bits(b.packed), b.table, b.codeSize, more);
    SkipFront(b.table, [b.codeSize] + more);
    SkipFront([b.codeSize], more);
    PartsAreSkipped(b.pixels, rest);
  }

  lemma ExtensionIsSkipped(b: Block, rest: seq<byte>)
    requires WellFormedBlock(b) && b.Extension?
    ensures var s := WriteBlock(b) + rest;
            |s| >= 2 && s[0] == 0x21 && AfterSubBlocks(Skip(s[1..], 1)) == Some(rest)
  {
    var s := WriteBlock(b) + rest;
    var more := WriteParts(b.parts) + rest;
    assert s[1..] == [b.kind] + more;
    SkipFront([b.kind], more);
    PartsAreSkipped(b.parts, rest);
  }

  lemma FramesOfBlock(b: Block, rest: seq<byte>, seen: nat)
    requires WellFormedBlock(b)
    ensures Frames(WriteBlock(b) + rest, seen) ==
            if b.Extension? then Frames(rest, seen) else if seen >= 1 then Animated else Frames(rest, seen + 1)
  {
    if b.Image? { ImageIsSkipped(b, rest); } else { ExtensionIsSkipped(b, rest); }
    hide AfterSubBlocks, TableBytes, WriteBlock, Skip;
  }

  lemma BlocksSplit(blocks: seq<Block>, end: seq<byte>)
    requires blocks != [] && forall i :: 0 <= i < |blocks| ==> WellFormedBlock(blocks[i])
    ensures WriteBlocks(blocks) + end == WriteBlock(blocks[0]) + (WriteBlocks(blocks[1..]) + end)
  {
    hide WriteBlock;
    assert WriteBlocks(blocks) == WriteBlock(blocks[0]) + WriteBlocks(blocks[1..]);
    hide *;
    Regroup(WriteBlock(blocks[0]), WriteBlocks(blocks[1..]), end);
  }

  lemma {:induction false} FramesCountsImages(blocks: seq<Block>, after: seq<byte>, seen: nat)
    requires seen <= 1 && forall i :: 0 <= i < |blocks| ==> WellFormedBlock(blocks[i])
    ensures Frames(WriteBlocks(blocks) + ([0x3b] + after), seen) == if seen + Images(blocks) >= 2 then Animated else Still
    decreases |blocks|
  {
    var end := [0x3b] + after;
    if blocks == [] {
      assert WriteBlocks(blocks) + end == end;
    } else {
      hide Frames, WriteBlock, WriteBlocks, WellFormedBlock;
      var rest := WriteBlocks(blocks[1..]) + end;
      BlocksSplit(blocks, end);
      FramesOfBlock(blocks[0], rest, seen);
      if blocks[0].Extension? {
        FramesCountsImages(blocks[1..], after, seen);
      } else if seen == 0 {
        FramesCountsImages(blocks[1..], after, 1);
      }
    }
  }

  /** On every stream of the grammar the scan is true exactly when two image blocks precede the trailer. */
  lemma ScanAgreesWithGrammar(g: Stream, after: seq<byte>)
    requires WellFormed(g)
    ensures MultipleFrames(Write(g) + after) == if Images(g.blocks) >= 2 then Animated else Still
  {
    hide TableBytes, WriteBlocks, Frames;
    var body := WriteBlocks(g.blocks) + ([0x3b] + after);
    assert Write(g) + after == g.signature + g.screen + [Bits(g.packed)] + g.tail + g.table + body;
    HeaderLayout(g, body);
    TableIs(g.packed);
    SkipFront(g.table, body);
    FramesCountsImages(g.blocks, after, 0);
  }

  lemma HeaderLayout(g: Stream, body: seq<byte>)
    requires WellFormed(g)
    ensures var s := g.signature + g.screen + [Bits(g.packed)] + g.tail + g.table + body;
            |s| >= 13 && s[..6] == g.signature && s[10] == Bits(g.packed) && s[13..] == g.table + body
  {
  }
}
