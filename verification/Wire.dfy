/** Bytes, the big-endian integers of src/utils/wire.h and the length-prefixed
    frames that src/transport/ipc/sipc.c puts on a stream. */
module Wire {

  type byte = b: int | 0 <= b < 256

  const MAX_UINT32: nat := 0xFFFF_FFFF
  const MAX_INT: nat := 0x7FFF_FFFF

  /** mb_sock_msg_too_large: a negative limit means no limit. */
  predicate TooLarge(max: int, size: nat) { 0 <= max < size }

  /** mb_wire_put_uint32 */
  function Put32(n: nat): (r: seq<byte>)
    requires n <= MAX_UINT32
    ensures |r| == 4 && Get32(r) == n
  {
    var q1: int := n / 256;   // n >> 8, and so on
    var q2: int := q1 / 256;
    var q3: int := q2 / 256;
    var b1: int, b2: int, b3: int := q2 % 256, q1 % 256, n % 256;
    [q3, b1, b2, b3]
  }

  /** mb_wire_get_uint32 */
  function Get32(b: seq<byte>): (n: nat)
    requires |b| >= 4
    ensures n <= MAX_UINT32
  {
    var b0: int, b1: int, b2: int, b3: int := b[0], b[1], b[2], b[3];
    b0 * 0x100_0000 + b1 * 0x1_0000 + b2 * 256 + b3
  }

  /** The number that bytes spell in network byte order. */
  function Number(b: seq<byte>): nat {
    if b == [] then 0 else Number(b[..|b| - 1]) * 256 + b[|b| - 1] as int
  }

  lemma NumberOf2(b0: byte, b1: byte)
    ensures Number([b0, b1]) == b0 as int * 256 + b1 as int
  {
    var one: seq<byte>, two: seq<byte> := [b0], [b0, b1];
    assert one[..0] == [] && two[..1] == one;
    assert Number(one) == Number(one[..0]) * 256 + b0 as int;
    assert Number(two) == Number(two[..1]) * 256 + b1 as int;
  }

  lemma {:induction false} NumberAfterZeros(zeros: nat, b: seq<byte>)
    ensures Number(seq(zeros, _ => 0 as byte) + b) == Number(b)
    decreases zeros + |b|
  {
    var z: seq<byte> := seq(zeros, _ => 0 as byte);
    if b != [] {
      assert (z + b)[..|z + b| - 1] == z + b[..|b| - 1];
      NumberAfterZeros(zeros, b[..|b| - 1]);
    } else if zeros > 0 {
      assert (z + b)[..zeros - 1] == seq(zeros - 1, _ => 0 as byte) + [];
      NumberAfterZeros(zeros - 1, []);
    }
  }

  /** What is written spells the number, the high byte first. */
  lemma HighByteFirst(n: nat)
    requires n <= MAX_UINT32
    ensures Number(Put32(n)) == n
  {
    NumberOf4(Put32(n));
  }

  /** What is read is the number spelt. */
  lemma NumberOf4(b: seq<byte>)
    requires |b| == 4
    ensures Number(b) == Get32(b)
  {
    NumberOf2(b[0], b[1]);
    assert b[..3][..2] == b[..2] == [b[0], b[1]];
    assert Number(b[..3]) == Number(b[..2]) * 256 + b[2] as int;
    assert Number(b) == Number(b[..3]) * 256 + b[3] as int;
  }

  /** Four bytes are the encoding of the number they decode to. */
  lemma PutGet32(b: seq<byte>)
    requires |b| == 4
    ensures Put32(Get32(b)) == b
  {
    var b0: int, b1: int, b2: int := b[0], b[1], b[2];
    var n := Get32(b);
    assert n / 256 == b0 * 0x1_0000 + b1 * 256 + b2;
    assert n / 256 / 256 == b0 * 256 + b1;
  }
}

/** Frames of four length bytes and a body, and why a stream of them can be cut
    anywhere and still be read in one way only. */
module Framing {
  import opened Wire

  type Body = seq<byte>

  /** A body that fits the 32-bit length field. */
  predicate Fits(m: Body) { |m| <= MAX_UINT32 }

  predicate AllFit(ms: seq<Body>) { forall m :: m in ms ==> Fits(m) }

  function Frame(m: Body): seq<byte>
    requires Fits(m)
  {
    Put32(|m|) + m
  }

  function Frames(ms: seq<Body>): seq<byte>
    requires AllFit(ms)
  {
    if ms == [] then [] else Frame(ms[0]) + Frames(ms[1..])
  }

  lemma {:induction false} FramesAppend(ms: seq<Body>, m: Body)
    requires AllFit(ms) && Fits(m)
    ensures AllFit(ms + [m])
    ensures Frames(ms + [m]) == Frames(ms) + Frame(m)
  {
    if ms == [] {
      assert ms + [m] == [m];
      assert Frames([m][1..]) == [];
    } else {
      assert (ms + [m])[1..] == ms[1..] + [m];
      FramesAppend(ms[1..], m);
    }
  }

  lemma SameFirst(m: Body, rest: seq<byte>, m': Body, rest': seq<byte>)
    requires Fits(m) && Fits(m')
    requires Frame(m) + rest <= Frame(m') + rest'
    ensures m == m' && rest <= rest'
  {
    var s, s' := Frame(m) + rest, Frame(m') + rest';
    assert s == s'[..|s|];
    assert Put32(|m|) == s[..4] && s'[..4] == Put32(|m'|);
    assert m == s[4..4 + |m|] && m' == s'[4..4 + |m|];
    assert rest == s[4 + |m|..] && rest' == s'[4 + |m|..];
  }

  /** The frame code is a prefix code: what was read is what was sent first. */
  lemma {:induction false} ReadInOneWay(got: seq<Body>, sent: seq<Body>)
    requires AllFit(got) && AllFit(sent)
    requires Frames(got) <= Frames(sent)
    ensures got <= sent
  {
    if got != [] {
      assert |Frames(got)| >= 4 && sent != [];
      SameFirst(got[0], Frames(got[1..]), sent[0], Frames(sent[1..]));
      ReadInOneWay(got[1..], sent[1..]);
      assert got == [got[0]] + got[1..] && sent == [sent[0]] + sent[1..];
    }
  }

  /** A cut-off frame: fewer than four length bytes, or a body that is short. */
  predicate Partial(p: seq<byte>) {
    |p| < 4 || |p| < 4 + Get32(p)
  }

  lemma FramesNotPartial(sent: seq<Body>)
    requires AllFit(sent) && sent != []
    ensures !Partial(Frames(sent))
  {
    var p := Frames(sent);
    assert p[..4] == Put32(|sent[0]|);
    assert Get32(p) == Get32(p[..4]);
  }

  /** If a reader that holds a cut-off frame has read everything, then it holds
      nothing and has read every message. */
  lemma {:induction false} DrainedIsComplete(got: seq<Body>, p: seq<byte>, sent: seq<Body>)
    requires AllFit(got) && AllFit(sent) && Partial(p)
    requires Frames(got) + p == Frames(sent)
    ensures got == sent && p == []
  {
    ReadInOneWay(got, sent);
    if got == [] {
      assert p == Frames(sent);
      if sent != [] { FramesNotPartial(sent); }
    } else {
      var n := |Frame(got[0])|;
      assert Frames(got[1..]) + p == Frames(sent)[n..] == Frames(sent[1..]);
      DrainedIsComplete(got[1..], p, sent[1..]);
    }
  }
}
