/**
 Streams of parts that announce their own end. What is proved here holds for any such code; Multipart
 supplies the one the camera uses.
 */
module Framing {
  import opened Basics

  type byte = x: int | 0 <= x < 256
  type Frame = seq<byte>

  /** How a frame is written, and how one is taken off the head of what has arrived. */
  datatype Code = Code(part: Frame -> seq<byte>, take: seq<byte> -> Option<(Frame, seq<byte>)>)

  predicate TakenBack(c: Code, f: Frame, rest: seq<byte>) {
    c.take(c.part(f) + rest) == Some((f, rest))
  }

  predicate CutRefused(c: Code, f: Frame, n: nat) {
    n < |c.part(f)| ==> c.take(c.part(f)[..n]) == None
  }

  /** A part is taken back whole whatever follows it, and is never mistaken for a frame when cut short. */
  ghost predicate SelfDelimiting(c: Code) {
    && (forall f, rest :: TakenBack(c, f, rest))
    && (forall f, n :: CutRefused(c, f, n))
    && (forall f :: |c.part(f)| > 0)
  }

  function Stream(c: Code, fs: seq<Frame>): seq<byte> {
    if fs == [] then [] else c.part(fs[0]) + Stream(c, fs[1..])
  }

  /** All whole frames of `b`, and the bytes left over. */
  function Decode(c: Code, b: seq<byte>): (seq<Frame>, seq<byte>)
    decreases |b|
  {
    match c.take(b)
    case None => ([], b)
    case Some((f, rest)) =>
      if |rest| >= |b| then ([], b) else var (fs, left) := Decode(c, rest); ([f] + fs, left)
  }

  /** How many whole parts the first `n` bytes of a stream hold. */
  function Whole(c: Code, fs: seq<Frame>, n: nat): (k: nat)
    requires n <= |Stream(c, fs)|
    ensures k <= |fs|
  {
    if fs == [] || n < |c.part(fs[0])| then 0 else 1 + Whole(c, fs[1..], n - |c.part(fs[0])|)
  }

  lemma DecodeCons(c: Code, f: Frame, rest: seq<byte>)
    requires SelfDelimiting(c)
    ensures Decode(c, c.part(f) + rest) == ([f] + Decode(c, rest).0, Decode(c, rest).1)
  {
    assert TakenBack(c, f, rest);
  }

  lemma DecodeEmpty(c: Code)
    requires SelfDelimiting(c)
    ensures Decode(c, []) == ([], [])
  {
    assert CutRefused(c, [], 0);
    assert c.part([])[..0] == [];
  }

  /** The whole stream gives back every frame, whatever bytes the frames hold. */
  lemma {:induction false} StreamReadBack(c: Code, fs: seq<Frame>)
    requires SelfDelimiting(c)
    ensures Decode(c, Stream(c, fs)) == (fs, [])
  {
    if fs == [] {
      DecodeEmpty(c);
    } else {
      DecodeCons(c, fs[0], Stream(c, fs[1..]));
      StreamReadBack(c, fs[1..]);
      assert [fs[0]] + fs[1..] == fs;
    }
  }

  /** The first `n` bytes read back as `k` frames, leaving the start of the next part. */
  predicate ReadsAs(c: Code, fs: seq<Frame>, n: nat, k: nat)
    requires n <= |Stream(c, fs)| && k <= |fs|
  {
    && |Stream(c, fs[..k])| <= n
    && (k < |fs| ==> n < |Stream(c, fs[..k])| + |c.part(fs[k])|)
    && Decode(c, Stream(c, fs)[..n]) == (fs[..k], Stream(c, fs)[|Stream(c, fs[..k])|..n])
  }

  /**
   However much of a stream arrives, the reader gets exactly the frames that arrived whole, in order,
   and is left with the start of the next one.
   */
  lemma {:induction false} CutStreamReadBack(c: Code, fs: seq<Frame>, n: nat)
    requires SelfDelimiting(c) && n <= |Stream(c, fs)|
    ensures ReadsAs(c, fs, n, Whole(c, fs, n))
  {
    if fs == [] {
      DecodeEmpty(c);
    } else if n < |c.part(fs[0])| {
      assert CutRefused(c, fs[0], n);
      assert Stream(c, fs)[..n] == c.part(fs[0])[..n];
      assert fs[..0] == [];
    } else {
      var m := n - |c.part(fs[0])|;
      CutStreamReadBack(c, fs[1..], m);
      CutLater(c, fs, m, Whole(c, fs[1..], m));
    }
  }

  lemma CutLater(c: Code, fs: seq<Frame>, m: nat, k: nat)
    requires SelfDelimiting(c) && fs != [] && m <= |Stream(c, fs[1..])| && k < |fs|
    requires ReadsAs(c, fs[1..], m, k)
    ensures ReadsAs(c, fs, |c.part(fs[0])| + m, k + 1)
  {
    var part, rest, got := c.part(fs[0]), Stream(c, fs[1..]), fs[1..][..k];
    assert fs[..k + 1][1..] == got && fs[..k + 1] == [fs[0]] + got;
    assert Stream(c, fs[..k + 1]) == part + Stream(c, got);
    CutSplits(part, rest, |Stream(c, got)|, m);
    DecodeCons(c, fs[0], rest[..m]);
  }

  lemma CutSplits(a: seq<byte>, b: seq<byte>, lo: nat, hi: nat)
    requires lo <= hi <= |b|
    ensures (a + b)[..|a| + hi] == a + b[..hi] && (a + b)[|a| + lo..|a| + hi] == b[lo..hi]
  {
  }
}
