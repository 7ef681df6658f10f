/** Reading a file forward: exact reads, and seeks that may run past the end. */
module Scanner {
  import opened Common

  /** `Truncated` stands for an exact read that met the end of the file. */
  datatype Verdict = Animated | Still | Truncated

  /** The bytes are the ASCII codes of the letters. */
  predicate Spells(s: seq<byte>, name: string) { |s| == |name| && forall i :: 0 <= i < |s| ==> s[i] == name[i] as int }

  function Skip(s: seq<byte>, n: nat): (r: seq<byte>)
    ensures |r| <= |s| && (n <= |s| ==> r == s[n..]) && (n > |s| ==> r == [])
  {
    if n <= |s| then s[n..] else []
  }

  lemma SkipFront(a: seq<byte>, b: seq<byte>)
    ensures Skip(a + b, |a|) == b
  {
  }

  class Reader {
    const data: seq<byte>
    var pos: nat

    ghost function Rest(): seq<byte>
      reads this
    {
      Skip(data, pos)
    }

    constructor (data: seq<byte>)
      ensures this.data == data && Rest() == data
    {
      this.data, pos := data, 0;
    }

    /** `None` at the end of the file, where the reader then stays. */
    method ReadExact(n: nat) returns (bytes: Option<seq<byte>>)
      requires n > 0
      modifies this
      ensures bytes.Some? <==> n <= old(|Rest()|)
      ensures bytes.Some? ==> bytes.value == old(Rest())[..n]
      ensures Rest() == Skip(old(Rest()), n)
    {
      if pos > |data| || n > |data| - pos {
        pos := pos + n;
        return None;
      }
      bytes := Some(data[pos..pos + n]);
      pos := pos + n;
    }

    method Seek(n: nat)
      modifies this
      ensures Rest() == Skip(old(Rest()), n)
    {
      pos := pos + n;
    }
  }

  /** Two four-byte words: a chunk's length and kind, in the order the format has them. */
  method ReadWords(reader: Reader) returns (words: Option<(seq<byte>, seq<byte>)>)
    modifies reader
    ensures words.Some? <==> |old(reader.Rest())| >= 8
    ensures words.Some? ==> words.value == (old(reader.Rest())[..4], old(reader.Rest())[4..8])
                            && reader.Rest() == old(reader.Rest())[8..]
  {
    ghost var s := reader.Rest();
    var header := reader.ReadExact(8);
    if header.None? {
      return None;
    }
    assert s[..8][..4] == s[..4] && s[..8][4..] == s[4..8];
    return Some((header.value[..4], header.value[4..]));
  }

  /** A signature in front of the chunks. */
  lemma Prefixed(a: seq<byte>, b: seq<byte>, c: seq<byte>, rest: seq<byte>)
    ensures var s := a + b + c + rest;
            && |s| >= |a| + |b| + |c| && s[..|a|] == a
            && s[|a| + |b|..|a| + |b| + |c|] == c && s[|a| + |b| + |c|..] == rest
  {
  }
}
