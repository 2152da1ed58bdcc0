/** Decoding a byte stream frame by frame, for any way of reading the first
    frame of a stream. */
module Decoding {
  import opened Common
  import opened Wire

  type Body = seq<byte>

  datatype Err = Proto | MsgSize | Reset

  datatype Next = More | Skip(n: nat) | Deliver(msg: Body, n: nat) | Fail(err: Err)

  type Reader = seq<byte> -> Next

  /** A decided frame is not empty and lies within the stream. */
  ghost predicate Advances(first: Reader) {
    forall s :: first(s).Skip? || first(s).Deliver? ==> 0 < first(s).n <= |s|
  }

  /** Bytes after a decided frame do not change what it is. */
  ghost predicate Stable(first: Reader) {
    forall s, t :: first(s) != More ==> first(s + t) == first(s)
  }

  datatype Decoded = Decoded(msgs: seq<Body>, rest: seq<byte>, err: Option<Err>)

  function Then(msgs: seq<Body>, o: Decoded): Decoded {
    Decoded(msgs + o.msgs, o.rest, o.err)
  }

  /** Everything a byte stream says: its messages, the cut-off frame at its end
      and the error that stops it, if any. */
  ghost function Decode(first: Reader, s: seq<byte>): Decoded
    requires Advances(first)
    decreases |s|
  {
    match first(s)
    case More => Decoded([], s, None)
    case Fail(e) => Decoded([], s, Some(e))
    case Skip(n) => Decode(first, s[n..])
    case Deliver(m, n) => Then([m], Decode(first, s[n..]))
  }

  /** Decoding in two parts: decode the first, then what it left plus the rest.
      However a stream is split into reads, the outcome is the same. */
  lemma {:induction false} DecodeAppend(first: Reader, s: seq<byte>, t: seq<byte>)
    requires Advances(first) && Stable(first) && Decode(first, s).err == None
    ensures Decode(first, s + t) == Then(Decode(first, s).msgs, Decode(first, Decode(first, s).rest + t))
    decreases |s|
  {
    var a := Decode(first, s);
    match first(s)
    case More =>
      assert a == Decoded([], s, None);
      ThenNothing(Decode(first, s + t));
    case Skip(n) =>
      assert first(s + t) == first(s);
      assert (s + t)[n..] == s[n..] + t;
      DecodeAppend(first, s[n..], t);
    case Deliver(m, n) =>
      assert first(s + t) == first(s);
      assert (s + t)[n..] == s[n..] + t;
      DecodeAppend(first, s[n..], t);
      ThenThen([m], Decode(first, s[n..]).msgs, Decode(first, a.rest + t));
  }

  /** An error is final: no later byte takes it back. */
  lemma {:induction false} DecodeFails(first: Reader, s: seq<byte>, t: seq<byte>)
    requires Advances(first) && Stable(first) && Decode(first, s).err != None
    ensures Decode(first, s + t).err == Decode(first, s).err
    decreases |s|
  {
    assert first(s + t) == first(s);
    if !first(s).Fail? {
      var n := first(s).n;
      assert (s + t)[n..] == s[n..] + t;
      DecodeFails(first, s[n..], t);
    }
  }

  /** What a frame `f` that was decided as `next` adds to messages `msgs`. */
  function After(msgs: seq<Body>, f: seq<byte>, next: Next): Decoded {
    match next
    case More => Decoded(msgs, f, None)
    case Fail(e) => Decoded(msgs, f, Some(e))
    case Skip(n) => Decoded(msgs, [], None)
    case Deliver(m, n) => Decoded(msgs + [m], [], None)
  }

  /** One more frame after a stream that was decoded without a remainder. */
  lemma OneMore(first: Reader, done: seq<byte>, msgs: seq<Body>, f: seq<byte>)
    requires Advances(first) && Stable(first) && first([]) == More
    requires Decode(first, done) == Decoded(msgs, [], None)
    requires first(f).Skip? || first(f).Deliver? ==> first(f).n == |f|
    ensures Decode(first, done + f) == After(msgs, f, first(f))
  {
    DecodeAppend(first, done, f);
    assert [] + f == f;
    JustOne(first, f);
  }

  lemma JustOne(first: Reader, f: seq<byte>)
    requires Advances(first) && first([]) == More
    requires first(f).Skip? || first(f).Deliver? ==> first(f).n == |f|
    ensures Decode(first, f) == After([], f, first(f))
  {
    assert f[|f|..] == [];
    assert Decode(first, []) == Decoded([], [], None);
  }

  lemma ThenNothing(o: Decoded)
    ensures Then([], o) == o
  {
  }

  lemma ThenThen(a: seq<Body>, b: seq<Body>, o: Decoded)
    ensures Then(a, Then(b, o)) == Then(a + b, o)
  {
    assert a + (b + o.msgs) == a + b + o.msgs;
  }
}

/** WebSocket frames as src/transport/ws/sws.c builds and reads them (sections
    5.2, 5.3 and 5.5 of RFC 6455): the byte layout, a reference decoder of a
    whole byte stream, and the round trip between the two. */
module WsFrame {
  import opened Common
  import opened Wire
  import opened Decoding

  const OP_BINARY: byte := 2
  const OP_CLOSE: byte := 8
  const OP_PING: byte := 9
  const OP_PONG: byte := 10
  const MAX_HDR_SIZE: nat := 14

  type Key = k: seq<byte> | |k| == 4 witness [0, 0, 0, 0]

  // ---------- Masking ----------

  /** Exclusive or of the low `width` bits. */
  function XorBits(a: nat, b: nat, width: nat): (r: nat)
    decreases width
  {
    if width == 0 then 0
    else (if a % 2 == b % 2 then 0 else 1) + 2 * XorBits(a / 2, b / 2, width - 1)
  }

  function Power2(n: nat): (r: nat)
    ensures r >= 1
  {
    if n == 0 then 1 else 2 * Power2(n - 1)
  }

  lemma {:induction false} XorBitsBound(a: nat, b: nat, width: nat)
    ensures XorBits(a, b, width) < Power2(width)
    decreases width
  {
    if width > 0 { XorBitsBound(a / 2, b / 2, width - 1); }
  }

  lemma {:induction false} XorBitsTwice(a: nat, b: nat, width: nat)
    requires a < Power2(width)
    ensures XorBits(XorBits(a, b, width), b, width) == a
    decreases width
  {
    if width > 0 {
      XorBitsTwice(a / 2, b / 2, width - 1);
      var low := if a % 2 == b % 2 then 0 else 1;
      var x := XorBits(a / 2, b / 2, width - 1);
      assert (low + 2 * x) / 2 == x && (low + 2 * x) % 2 == low;
    }
  }

  function Xor(a: byte, b: byte): byte {
    XorBitsBound(a, b, 8);
    assert Power2(8) == 256 by { assert Power2(4) == 16; }
    XorBits(a, b, 8)
  }

  /** mb_ws_mask as a function: byte i is combined with key byte i mod 4. */
  function Mask(data: seq<byte>, key: Key): (r: seq<byte>)
    ensures |r| == |data|
    ensures forall i :: 0 <= i < |data| ==> r[i] == Xor(data[i], key[i % 4])
  {
    seq(|data|, i requires 0 <= i < |data| => Xor(data[i], key[i % 4]))
  }

  lemma XorTwice(a: byte, b: byte)
    ensures Xor(Xor(a, b), b) == a
  {
    assert Power2(8) == 256 by { assert Power2(4) == 16; }
    XorBitsTwice(a, b, 8);
  }

  /** Masking twice with the same key gives the data back. */
  lemma MaskTwice(data: seq<byte>, key: Key)
    ensures Mask(Mask(data, key), key) == data
  {
    var m := Mask(Mask(data, key), key);
    forall i | 0 <= i < |data| ensures m[i] == data[i] {
      XorTwice(data[i], key[i % 4]);
    }
  }

  /** Bit `i` of a number. */
  function Bit(n: nat, i: nat): nat {
    n / Power2(i) % 2
  }

  lemma TimesMore(m: int, d: int)
    requires m > 0 && d >= 1
    ensures m * d >= m
  {
  }

  lemma SameQuotient(m: int, p: int, x: int, q: int, r: int)
    requires m > 0 && m * p + x == m * q + r && 0 <= x < m && 0 <= r < m
    ensures p == q
  {
    assert m * p - m * q == m * (p - q);
    assert m * q - m * p == m * (q - p);
    if p > q { TimesMore(m, p - q); }
    if p < q { TimesMore(m, q - p); }
  }

  lemma DivUnique(n: int, m: int, q: int, r: int)
    requires m > 0 && n == m * q + r && 0 <= r < m
    ensures n / m == q
  {
    SameQuotient(m, n / m, n % m, q, r);
  }

  lemma HalfThenDiv(n: nat, m: nat)
    requires m > 0
    ensures n / (2 * m) == n / 2 / m
  {
    var h := n / 2;
    var q, r := h / m, h % m;
    assert h == m * q + r;
    assert n == 2 * h + n % 2;
    assert n == (2 * m) * q + (2 * r + n % 2);
    DivUnique(n, 2 * m, q, 2 * r + n % 2);
  }

  lemma BitHalf(n: nat, i: nat)
    requires i > 0
    ensures Bit(n, i) == Bit(n / 2, i - 1)
  {
    HalfThenDiv(n, Power2(i - 1));
  }

  lemma BitZero(n: nat)
    ensures Bit(n, 0) == n % 2
  {
  }

  lemma XorHalves(a: nat, b: nat, width: nat)
    requires width > 0
    ensures XorBits(a, b, width) / 2 == XorBits(a / 2, b / 2, width - 1)
    ensures XorBits(a, b, width) % 2 == if a % 2 == b % 2 then 0 else 1
  {
    var x := XorBits(a / 2, b / 2, width - 1);
    assert (0 + 2 * x) / 2 == x && (1 + 2 * x) / 2 == x;
  }

  lemma {:induction false} XorBitsAt(a: nat, b: nat, width: nat, i: nat)
    requires i < width
    ensures Bit(XorBits(a, b, width), i) == if Bit(a, i) != Bit(b, i) then 1 else 0
    decreases width
  {
    hide Bit, XorBits;
    var x := XorBits(a, b, width);
    XorHalves(a, b, width);
    if i == 0 {
      BitZero(a);
      BitZero(b);
      BitZero(x);
    } else {
      BitHalf(a, i);
      BitHalf(b, i);
      BitHalf(x, i);
      XorBitsAt(a / 2, b / 2, width - 1, i - 1);
    }
  }

  /** A bit of the exclusive or is set if and only if the two bits differ. */
  lemma XorAt(a: byte, b: byte, i: nat)
    requires i < 8
    ensures Bit(Xor(a, b), i) == 1 <==> Bit(a, i) != Bit(b, i)
  {
    hide Bit;
    XorBitsAt(a, b, 8, i);
  }

  lemma {:induction false} XorBitsZero(a: nat, width: nat)
    requires a < Power2(width)
    ensures XorBits(a, 0, width) == a
    decreases width
  {
    if width > 0 { XorBitsZero(a / 2, width - 1); }
  }

  /** Masking, bit by bit: a bit of byte `i` is flipped if and only if that bit of key
      byte i mod 4 is set; bytes whose key byte is zero stay as they are. */
  lemma MaskAt(data: seq<byte>, key: Key, i: nat, j: nat)
    requires i < |data| && j < 8
    ensures Bit(Mask(data, key)[i], j) == 1 <==> Bit(data[i], j) != Bit(key[i % 4], j)
    ensures key[i % 4] == 0 ==> Mask(data, key)[i] == data[i]
  {
    XorAt(data[i], key[i % 4], j);
    if key[i % 4] == 0 {
      assert Power2(8) == 256 by { assert Power2(4) == 16; }
      XorBitsZero(data[i], 8);
    }
  }

  // ---------- Reading a header ----------

  /** The receiving end: its role and its MB_RCVMAXSIZE. */
  datatype Peer = Peer(isClient: bool, maxSize: int)

  function LenByte(h: seq<byte>): nat
    requires |h| >= 2
  {
    var b: int := h[1]; b % 128
  }

  predicate Masked(h: seq<byte>)
    requires |h| >= 2
  {
    h[1] >= 128
  }

  function ExtraLength(h: seq<byte>): nat
    requires |h| >= 2
  {
    if LenByte(h) == 126 then 2 else if LenByte(h) == 127 then 8 else 0
  }

  /** How many header bytes there are, known from the first two. */
  function Need(h: seq<byte>): (n: nat)
    requires |h| >= 2
    ensures 2 <= n <= MAX_HDR_SIZE
  {
    2 + ExtraLength(h) + if Masked(h) then 4 else 0
  }

  predicate Whole(h: seq<byte>) { |h| >= 2 && |h| >= Need(h) }

  predicate HugeLength(h: seq<byte>)
    requires Whole(h)
  {
    LenByte(h) == 127 && (h[2..6] != [0, 0, 0, 0] || Get32(h[6..]) > MAX_INT)
  }

  function Length(h: seq<byte>): nat
    requires Whole(h)
  {
    if LenByte(h) < 126 then LenByte(h)
    else if LenByte(h) == 126 then var hi: int, lo: int := h[2], h[3]; hi * 256 + lo
    else Get32(h[6..])
  }

  function KeyOf(h: seq<byte>): Key
    requires Whole(h) && Masked(h)
  {
    h[2 + ExtraLength(h)..2 + ExtraLength(h) + 4]
  }

  function Opcode(h: seq<byte>): nat
    requires |h| >= 2
  {
    var b: int := h[0]; b % 16
  }

  /** The FIN bit is set and the three reserved bits are clear. */
  predicate FinOnly(h: seq<byte>)
    requires |h| >= 2
  {
    var b: int := h[0]; b / 16 == 8
  }

  datatype Kind = Bad(err: Err) | Control | Data

  /** The checks of mb_sws_recv on a complete header, in its order. */
  function KindOf(p: Peer, h: seq<byte>): Kind
    requires Whole(h)
  {
    var op := Opcode(h);
    if p.isClient == Masked(h) then Bad(Proto)
    else if !FinOnly(h) then Bad(Proto)
    else if op != OP_BINARY && op != OP_CLOSE && op != OP_PING && op != OP_PONG then Bad(Proto)
    else if HugeLength(h) then Bad(MsgSize)
    else if op == OP_CLOSE then Bad(Reset)
    else if op == OP_PING || op == OP_PONG then
      if Length(h) > 125 then Bad(Proto) else Control
    else if Length(h) < 4 || TooLarge(p.maxSize, Length(h) - 4) then Bad(MsgSize)
    else Data
  }

  function Unmasked(h: seq<byte>, raw: seq<byte>): (r: seq<byte>)
    requires Whole(h)
    ensures |r| == |raw|
  {
    if Masked(h) then Mask(raw, KeyOf(h)) else raw
  }

  // ---------- The reference decoder ----------

  /** What a data payload carries: a length prefix and at least that much. */
  function Unwrap(p: Peer, payload: seq<byte>, n: nat): Next
    requires |payload| >= 4
  {
    var len := Get32(payload);
    if len > |payload| - 4 || TooLarge(p.maxSize, len) then Fail(MsgSize) else Deliver(payload[4..4 + len], n)
  }

  /** The first frame of a byte stream that starts at a frame boundary. */
  function First(p: Peer, s: seq<byte>): (r: Next)
    ensures r.Skip? || r.Deliver? ==> 0 < r.n <= |s|
  {
    if !Whole(s) then More else FirstOfKind(p, KindOf(p, s), s)
  }

  function FirstOfKind(p: Peer, kind: Kind, s: seq<byte>): (r: Next)
    requires Whole(s) && (kind == Data ==> Length(s) >= 4)
    ensures r.Skip? || r.Deliver? ==> 0 < r.n <= |s|
  {
    var n := Need(s) + Length(s);
    match kind
    case Bad(e) => Fail(e)
    case Control => if |s| < n then More else Skip(n)
    case Data => if |s| < n then More else Unwrap(p, Payload(s), n)
  }

  /** The header announces a length over 31 bits, or over the 125 bytes of a control
      frame: the byte after the first says which length field follows. */
  predicate AnnouncesOver31(s: seq<byte>)
    requires Whole(s)
  {
    (s[1] == 127 || s[1] == 255) && (s[2] > 0 || s[3] > 0 || s[4] > 0 || s[5] > 0 || s[6] >= 128)
  }

  predicate AnnouncesOver125(s: seq<byte>)
    requires Whole(s)
  {
    || ((s[1] == 126 || s[1] == 254) && (s[2] > 0 || s[3] > 125))
    || ((s[1] == 127 || s[1] == 255) && (s[6] > 0 || s[7] > 0 || s[8] > 0 || s[9] > 125))
  }

  /** The verdict on a complete header, read off its bytes.  A frame is a protocol error
      if and only if its mask bit does not suit the role, its first byte is not that of
      an unfragmented binary, close, ping or pong frame, or it is a ping or pong that
      is too long; a close is a reset; an absurd length is a size error; and of the
      frames that pass only binary ones are delivered. */
  lemma RefusedHeaders(p: Peer, s: seq<byte>)
    requires Whole(s)
    ensures var r, suits := First(p, s), p.isClient == (s[1] < 128);
      var known := s[0] == 0x82 || s[0] == 0x88 || s[0] == 0x89 || s[0] == 0x8A;
      && (r == Fail(Proto) <==>
          !suits || !known || (s[0] > 0x88 && !AnnouncesOver31(s) && AnnouncesOver125(s)))
      && (r == Fail(Reset) <==> suits && s[0] == 0x88 && !AnnouncesOver31(s))
      && (suits && known && AnnouncesOver31(s) ==> r == Fail(MsgSize))
      && (r == Fail(MsgSize) && s[0] != 0x82 ==> AnnouncesOver31(s))
      && (r.Skip? ==> s[0] == 0x89 || s[0] == 0x8A)
      && (r.Deliver? ==> s[0] == 0x82)
  {
    hide Payload;
    var h: int := s[0];
    assert h / 16 == 8 <==> 0x80 <= h < 0x90;
    if LenByte(s) == 127 {
      assert s[2..6] == [s[2], s[3], s[4], s[5]];
      assert s[6..][0] == s[6] && s[6..][1] == s[7] && s[6..][2] == s[8] && s[6..][3] == s[9];
    }
  }

  /** The unmasked payload of a stream that holds all of its first frame. */
  function Payload(s: seq<byte>): (r: seq<byte>)
    requires Whole(s) && |s| >= Need(s) + Length(s)
    ensures |r| == Length(s)
  {
    Unmasked(s, s[Need(s)..Need(s) + Length(s)])
  }

  /** Bytes after a decided frame do not change what it is. */
  lemma FirstStable(p: Peer, s: seq<byte>, t: seq<byte>)
    requires First(p, s) != More
    ensures First(p, s + t) == First(p, s)
  {
    KindStable(p, s, t);
    OfKindStable(p, KindOf(p, s), s, t);
  }

  lemma OfKindStable(p: Peer, kind: Kind, s: seq<byte>, t: seq<byte>)
    requires Whole(s) && (kind == Data ==> Length(s) >= 4) && FirstOfKind(p, kind, s) != More
    ensures Whole(s + t) && Length(s + t) == Length(s) && FirstOfKind(p, kind, s + t) == FirstOfKind(p, kind, s)
  {
    HeaderStable(s, t);
    if !kind.Bad? { PayloadStable(s, t); }
  }

  lemma PayloadStable(s: seq<byte>, t: seq<byte>)
    requires Whole(s) && |s| >= Need(s) + Length(s)
    ensures Whole(s + t) && |s + t| >= Need(s + t) + Length(s + t) && Payload(s + t) == Payload(s)
  {
    HeaderStable(s, t);
    var h, n := Need(s), Need(s) + Length(s);
    assert (s + t)[h..n] == s[h..n];
  }

  lemma KindStable(p: Peer, s: seq<byte>, t: seq<byte>)
    requires Whole(s)
    ensures Whole(s + t) && KindOf(p, s + t) == KindOf(p, s)
  {
    HeaderStable(s, t);
  }

  lemma HeaderStable(s: seq<byte>, t: seq<byte>)
    requires Whole(s)
    ensures Whole(s + t) && Need(s + t) == Need(s)
    ensures Opcode(s + t) == Opcode(s) && FinOnly(s + t) == FinOnly(s)
    ensures Length(s + t) == Length(s) && HugeLength(s + t) == HugeLength(s)
    ensures Masked(s + t) == Masked(s) && (Masked(s) ==> KeyOf(s + t) == KeyOf(s))
  {
    var u := s + t;
    assert forall i :: 0 <= i < Need(s) ==> u[i] == s[i];
    if LenByte(s) == 127 { assert u[2..6] == s[2..6]; }
    if Masked(s) { assert u[2 + ExtraLength(s)..Need(s)] == s[2 + ExtraLength(s)..Need(s)]; }
  }

  function ReaderOf(p: Peer): Reader {
    s => First(p, s)
  }

  lemma ReaderOk(p: Peer)
    ensures Advances(ReaderOf(p)) && Stable(ReaderOf(p))
  {
    forall s, t | First(p, s) != More ensures First(p, s + t) == First(p, s) {
      FirstStable(p, s, t);
    }
  }

  // ---------- Building a frame ----------

  /** The length field, whose second byte also carries the mask bit; a length
      over 32 bits loses its high bits. */
  function LengthField(masked: bool, len: nat): (r: seq<byte>)
    ensures 1 <= |r| <= 9
  {
    var bit: int := if masked then 128 else 0;
    if len < 126 then
      var b: int := len + bit; [b]
    else if len <= 65535 then
      var b: int, hi: int, lo: int := 126 + bit, len / 256, len % 256; [b, hi, lo]
    else
      var b: int := 127 + bit; [b, 0, 0, 0, 0] + Put32(len % (MAX_UINT32 + 1))
  }

  function FirstByte(op: byte): byte
    requires op < 16
  {
    var b: int := 128 + op; b
  }

  function BuiltHeader(isClient: bool, op: byte, len: nat, key: Key): (r: seq<byte>)
    requires op < 16
    ensures 2 <= |r| <= MAX_HDR_SIZE
  {
    [FirstByte(op)] + LengthField(isClient, len) + if isClient then key else []
  }

  /** mb_sws_build_frame */
  function Built(isClient: bool, op: byte, data: seq<byte>, key: Key): seq<byte>
    requires op < 16
  {
    BuiltHeader(isClient, op, |data|, key) + if isClient then Mask(data, key) else data
  }

  /** A built header reads back as what it was built from, and the length does
      if it fits in 32 bits. */
  lemma HeaderRoundTrip(isClient: bool, op: byte, len: nat, key: Key)
    requires op < 16
    ensures var h := BuiltHeader(isClient, op, len, key);
            && Whole(h) && Need(h) == |h| && Masked(h) == isClient && Opcode(h) == op && FinOnly(h)
            && (isClient ==> KeyOf(h) == key)
            && Length(h) == (if len <= 65535 then len else len % (MAX_UINT32 + 1))
            && (HugeLength(h) <==> len > 65535 && len % (MAX_UINT32 + 1) > MAX_INT)
  {
    var h := BuiltHeader(isClient, op, len, key);
    assert h[0] == FirstByte(op) && h[1] == LengthField(isClient, len)[0];
    if 126 <= len <= 65535 {
      assert h[2] == len / 256 && h[3] == len % 256;
    } else if len > 65535 {
      assert h[2..6] == [0, 0, 0, 0];
      assert h[6..10] == Put32(len % (MAX_UINT32 + 1));
      assert Get32(h[6..]) == Get32(h[6..10]);
    }
    if isClient { assert h[|h| - 4..] == key; }
  }

  /** The bytes of a built header, as section 5.2 of RFC 6455 lays them out: FIN and the
      opcode; the mask bit and the shortest length field that will do, high byte first;
      and the key of a client. */
  lemma HeaderBytes(isClient: bool, op: byte, len: nat, key: Key)
    requires op < 16
    ensures var h, bit := BuiltHeader(isClient, op, len, key), if isClient then 128 else 0;
      && h[0] == 0x80 + op
      && (len < 126 ==> h[1] == bit + len && h[2..] == if isClient then key else [])
      && (126 <= len < 0x1_0000 ==>
          h[1] == bit + 126 && |h| >= 4 && Number(h[2..4]) == len && h[4..] == if isClient then key else [])
      && (0x1_0000 <= len <= MAX_UINT32 ==>
          h[1] == bit + 127 && |h| >= 10 && Number(h[2..10]) == len && h[10..] == if isClient then key else [])
  {
    hide Put32, Get32;
    var h := BuiltHeader(isClient, op, len, key);
    var tail := if isClient then key else [];
    if len < 126 {
      assert h[2..] == tail;
    } else if len < 0x1_0000 {
      assert h[4..] == tail;
      assert h[2..4] == [len / 256, len % 256];
      NumberOf2(len / 256, len % 256);
    } else if len <= MAX_UINT32 {
      assert h[10..] == tail;
      assert h[2..10] == [0, 0, 0, 0] + Put32(len);
      HighByteFirst(len);
      NumberAfterZeros(4, Put32(len));
      assert seq(4, _ => 0 as byte) == [0, 0, 0, 0];
    }
  }

  /** What mb_sws_send puts on the wire for a message. */
  function DataFrame(isClient: bool, m: Body, key: Key): seq<byte> {
    Built(isClient, OP_BINARY, DataPayload(m), key)
  }

  /** What a receiver sees at the start of a built frame. */
  lemma BuiltReads(isClient: bool, op: byte, data: seq<byte>, key: Key)
    requires op < 16
    ensures var f, h := Built(isClient, op, data, key), BuiltHeader(isClient, op, |data|, key);
            && Whole(f) && Need(f) == |h| && |f| == |h| + |data|
            && Masked(f) == isClient && Opcode(f) == op && FinOnly(f)
            && Length(f) == (if |data| <= 65535 then |data| else |data| % (MAX_UINT32 + 1))
            && (HugeLength(f) <==> |data| > 65535 && |data| % (MAX_UINT32 + 1) > MAX_INT)
            && Length(f) <= |data| && Payload(f) == data[..Length(f)]
  {
    hide LengthField, Need, Length, HugeLength, LenByte, Get32, Put32, BuiltHeader, Mask, KeyOf;
    var h := BuiltHeader(isClient, op, |data|, key);
    var f := Built(isClient, op, data, key);
    HeaderRoundTrip(isClient, op, |data|, key);
    assert f == h + f[|h|..];
    HeaderStable(h, f[|h|..]);
    assert f[0] == h[0] && f[1] == h[1];
    SmallMod(|data|);
    BuiltPayload(isClient, h, data, key, Length(f));
  }

  /** The first `n` bytes of the payload behind header `h`, unmasked. */
  lemma BuiltPayload(isClient: bool, h: seq<byte>, data: seq<byte>, key: Key, n: nat)
    requires n <= |data|
    ensures var f := h + if isClient then Mask(data, key) else data;
            (if isClient then Mask(f[|h|..|h| + n], key) else f[|h|..|h| + n]) == data[..n]
  {
    var f := h + if isClient then Mask(data, key) else data;
    assert f[|h|..|h| + n] == (if isClient then Mask(data, key) else data)[..n];
    MaskStart(data, n, key);
    MaskTwice(data[..n], key);
  }

  lemma MaskStart(data: seq<byte>, n: nat, key: Key)
    requires n <= |data|
    ensures Mask(data, key)[..n] == Mask(data[..n], key)
  {
  }

  lemma SmallMod(n: nat)
    ensures n % (MAX_UINT32 + 1) <= n
  {
  }

  function DataPayload(m: Body): (r: seq<byte>)
    ensures |r| == 4 + |m|
  {
    Put32(|m| % (MAX_UINT32 + 1)) + m
  }

  /** What the opposite role reads at the start of a data frame whose header has
      `hdr` bytes: only the low 32 bits of the length survive, so a message that is
      too long is refused or cut short. */
  function ReadBack(p: Peer, m: Body, hdr: nat): Next {
    var len := (4 + |m|) % (MAX_UINT32 + 1);
    if len > MAX_INT || len < 4 || TooLarge(p.maxSize, len - 4) then Fail(MsgSize)
    else SmallMod(4 + |m|); Deliver(m[..len - 4], hdr + len)
  }

  lemma DataReads(p: Peer, m: Body, key: Key)
    ensures var f := DataFrame(!p.isClient, m, key);
            |f| >= 4 + |m| && First(p, f) == ReadBack(p, m, |f| - (4 + |m|))
  {
    hide First, Unwrap, Built, BuiltHeader, Mask, Put32, KindOf, Need, Length, HugeLength, Payload, Masked, Opcode, FinOnly;
    var data := DataPayload(m);
    BuiltReads(!p.isClient, OP_BINARY, data, key);
    FirstOfData(p, DataFrame(!p.isClient, m, key), data);
    LowLength(|m|);
    var len := (4 + |m|) % (MAX_UINT32 + 1);
    if 4 <= len { UnwrapStart(p, m, len, |DataFrame(!p.isClient, m, key)| - |data| + len); }
  }

  lemma LowLength(n: nat)
    ensures var len := (4 + n) % (MAX_UINT32 + 1);
            && len <= 4 + n && (4 <= len ==> len - 4 == n % (MAX_UINT32 + 1))
            && (4 + n <= MAX_UINT32 ==> len == 4 + n)
  {
  }

  lemma FirstOfData(p: Peer, f: seq<byte>, data: seq<byte>)
    requires Whole(f) && Masked(f) != p.isClient && FinOnly(f) && Opcode(f) == OP_BINARY && |f| == Need(f) + |data|
    requires Length(f) == if |data| <= 65535 then |data| else |data| % (MAX_UINT32 + 1)
    requires HugeLength(f) <==> |data| > 65535 && |data| % (MAX_UINT32 + 1) > MAX_INT
    requires Length(f) <= |data| && Payload(f) == data[..Length(f)]
    ensures var len := |data| % (MAX_UINT32 + 1);
            && len <= |data|
            && First(p, f) ==
                 if len > MAX_INT || len < 4 || TooLarge(p.maxSize, len - 4) then Fail(MsgSize)
                 else Unwrap(p, data[..len], Need(f) + len)
  {
    hide Unwrap, Need, Payload;
    assert |data| <= 65535 ==> |data| % (MAX_UINT32 + 1) == |data|;
  }

  lemma UnwrapStart(p: Peer, m: Body, len: nat, n: nat)
    requires 4 <= len <= 4 + |m| && len - 4 == |m| % (MAX_UINT32 + 1)
    ensures Unwrap(p, DataPayload(m)[..len], n) == if TooLarge(p.maxSize, len - 4) then Fail(MsgSize) else Deliver(m[..len - 4], n)
  {
    var head := Put32(len - 4);
    assert DataPayload(m) == head + m;
    var data := DataPayload(m)[..len];
    assert data == head + m[..len - 4];
    assert data[..4] == head && data[4..len] == m[..len - 4];
    assert Get32(data) == Get32(data[..4]) == len - 4;
  }

  /** A receiver of the opposite role reads a data frame back as its message if
      and only if the payload fits in INT_MAX and the body in MB_RCVMAXSIZE. */
  lemma DataRoundTrip(p: Peer, m: Body, key: Key)
    ensures var f := DataFrame(!p.isClient, m, key);
            First(p, f) == Deliver(m, |f|) <==> 4 + |m| <= MAX_INT && !TooLarge(p.maxSize, |m|)
  {
    hide First, DataFrame;
    DataReads(p, m, key);
    LowLength(|m|);
    if 4 + |m| <= MAX_INT { assert m[..|m|] == m; }
  }

  /** A body of 2^32 bytes is not refused: the receiver gets an empty message and
      then takes the body for frames. */
  lemma CutShort(p: Peer, m: Body, key: Key)
    requires |m| == MAX_UINT32 + 1
    ensures var f := DataFrame(!p.isClient, m, key);
            |f| > |m| && First(p, f) == Deliver([], |f| - |m|)
  {
    hide First, DataFrame;
    DataReads(p, m, key);
    assert (4 + |m|) % (MAX_UINT32 + 1) == 4;
    assert m[..0] == [];
  }

  /** A ping or pong of at most 125 bytes is skipped. */
  lemma ControlRoundTrip(p: Peer, op: byte, data: seq<byte>, key: Key)
    requires (op == OP_PING || op == OP_PONG) && |data| <= 125
    ensures var f := Built(!p.isClient, op, data, key); First(p, f) == Skip(|f|)
  {
    BuiltReads(!p.isClient, op, data, key);
  }

  // ---------- Whole streams ----------

  /** What a sender puts on the wire, with the mask key drawn for it. */
  datatype Item =
    | Message(body: Body, key: Key)
    | Ping(body: Body, key: Key)
    | Pong(body: Body, key: Key)

  predicate Acceptable(p: Peer, i: Item) {
    if i.Message? then |FrameOf(!p.isClient, i)| <= MAX_INT && !TooLarge(p.maxSize, |i.body|) else |i.body| <= 125
  }

  function FrameOf(isClient: bool, i: Item): seq<byte> {
    match i
    case Message(m, key) => DataFrame(isClient, m, key)
    case Ping(d, key) => Built(isClient, OP_PING, d, key)
    case Pong(d, key) => Built(isClient, OP_PONG, d, key)
  }

  function Encode(isClient: bool, items: seq<Item>): seq<byte> {
    if items == [] then [] else FrameOf(isClient, items[0]) + Encode(isClient, items[1..])
  }

  function Messages(items: seq<Item>): seq<Body> {
    if items == [] then []
    else (if items[0].Message? then [items[0].body] else []) + Messages(items[1..])
  }

  lemma {:induction false} Appended(isClient: bool, items: seq<Item>, i: Item)
    ensures Encode(isClient, items + [i]) == Encode(isClient, items) + FrameOf(isClient, i)
    ensures Messages(items + [i]) == Messages(items) + if i.Message? then [i.body] else []
  {
    if items == [] {
      assert items + [i] == [i] && [i][1..] == [];
    } else {
      assert (items + [i])[1..] == items[1..] + [i];
      Appended(isClient, items[1..], i);
    }
  }

  lemma FirstOfItem(p: Peer, i: Item, rest: seq<byte>)
    requires Acceptable(p, i)
    ensures var f := FrameOf(!p.isClient, i);
            First(p, f + rest) == if i.Message? then Deliver(i.body, |f|) else Skip(|f|)
  {
    var f := FrameOf(!p.isClient, i);
    match i {
      case Message(m, key) =>
        DataReads(p, m, key);
        DataRoundTrip(p, m, key);
      case Ping(d, key) => ControlRoundTrip(p, OP_PING, d, key);
      case Pong(d, key) => ControlRoundTrip(p, OP_PONG, d, key);
    }
    FirstStable(p, f, rest);
  }

  /** Decoding the concatenation of frames built by the opposite role, whatever
      the mask keys and however pings and pongs are interleaved, gives exactly
      the sent messages in order, with nothing left over. */
  lemma {:induction false} RoundTrip(p: Peer, items: seq<Item>)
    requires forall i :: i in items ==> Acceptable(p, i)
    ensures Advances(ReaderOf(p))
    ensures Decode(ReaderOf(p), Encode(!p.isClient, items)) == Decoded(Messages(items), [], None)
  {
    ReaderOk(p);
    if items == [] {
      assert First(p, []) == More;
    } else {
      var f, rest := FrameOf(!p.isClient, items[0]), Encode(!p.isClient, items[1..]);
      FirstOfItem(p, items[0], rest);
      assert (f + rest)[|f|..] == rest;
      RoundTrip(p, items[1..]);
      assert ReaderOf(p)(f + rest) == First(p, f + rest);
    }
  }
}
