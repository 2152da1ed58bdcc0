/** The WebSocket session of src/transport/ws/sws.c: frames built and masked in
    place, and a resumable parser that agrees with the reference decoder however
    the kernel splits its reads. */
module WebSocket {
  import opened Common
  import opened Wire
  import opened Decoding
  import opened WsFrame
  import opened Stream
  import opened OutBuf

  /** mb_ws_mask on `len` bytes from `off`. */
  method MaskInPlace(buf: array<byte>, off: nat, len: nat, key: Key)
    requires off + len <= buf.Length
    modifies buf
    ensures buf[..] == Patch(old(buf[..]), off, Mask(old(buf[off..off + len]), key))
  {
    ghost var was := buf[..];
    for i := 0 to len
      invariant forall k :: 0 <= k < buf.Length ==> buf[k] == MaskedAt(was, off, i, key, k)
    {
      buf[off + i] := Xor(buf[off + i], key[i % 4]);
    }
    MaskedAll(was, buf[..], off, len, key);
  }

  /** The byte at `k` once the first `i` bytes from `off` are masked. */
  ghost function MaskedAt(was: seq<byte>, off: nat, i: nat, key: Key, k: nat): byte
    requires k < |was|
  {
    if off <= k < off + i then Xor(was[k], key[(k - off) % 4]) else was[k]
  }

  lemma MaskedAll(was: seq<byte>, now: seq<byte>, off: nat, len: nat, key: Key)
    requires off + len <= |was| == |now|
    requires forall k :: 0 <= k < |was| ==> now[k] == MaskedAt(was, off, len, key, k)
    ensures now == Patch(was, off, Mask(was[off..off + len], key))
  {
    var masked := Mask(was[off..off + len], key);
    assert now[off..off + len] == masked;
    assert now[..off] == was[..off];
    assert now[off + len..] == was[off + len..];
  }

  /** mb_sws_build_frame: header, then the data, masked in place by a client. */
  method BuildFrame(isClient: bool, op: byte, data: seq<byte>, key: Key) returns (frame: array<byte>)
    requires op < 16
    ensures fresh(frame) && frame[..] == Built(isClient, op, data, key)
  {
    var hdr := BuiltHeader(isClient, op, |data|, key);
    var bytes := hdr + data;
    frame := new byte[|bytes|](i requires 0 <= i < |bytes| => bytes[i]);
    assert frame[..] == bytes;
    if isClient {
      assert frame[|hdr|..|hdr| + |data|] == data;
      MaskInPlace(frame, |hdr|, |data|, key);
    }
  }

  /** One mb_sws_do_recv into `buf` between `pos` and `limit`. */
  method ReadOnce(link: Link, buf: array<byte>, pos: nat, limit: nat) returns (rc: Rc, pos': nat)
    requires pos < limit <= buf.Length && link.taken <= |link.bytes|
    modifies link`taken, link`refusals, buf
    ensures pos <= pos' <= limit && link.taken == old(link.taken) + (pos' - pos) <= |link.bytes|
    ensures buf[..] == Patch(old(buf[..]), pos, link.bytes[old(link.taken)..link.taken])
    ensures rc == Ok || rc == Again || rc == Rc.Reset || rc == Failed
    ensures rc == Ok <==> pos < pos'
    ensures link.refusals == old(link.refusals) + if rc == Ok then 0 else 1
  {
    var r := link.Recv(buf, pos, limit - pos);
    match r {
      case Moved(n) => return Ok, pos + n;
      case WouldBlock => return Again, pos;
      case Eof => return Rc.Reset, pos;
      case Broken => return Failed, pos;
    }
  }

  /** One of the read loops of mb_sws_recv: fill `buf` up to `limit`, keeping
      what arrived when the kernel has no more. */
  method ReadUpTo(link: Link, buf: array<byte>, pos: nat, limit: nat) returns (rc: Rc, pos': nat)
    requires pos <= limit <= buf.Length && link.taken <= |link.bytes|
    modifies link`taken, link`refusals, buf
    ensures pos <= pos' <= limit && link.taken == old(link.taken) + (pos' - pos) <= |link.bytes|
    ensures buf[..] == Patch(old(buf[..]), pos, link.bytes[old(link.taken)..link.taken])
    ensures rc == Ok || rc == Again || rc == Rc.Reset || rc == Failed
    ensures rc == Ok <==> pos' == limit
    ensures link.refusals >= old(link.refusals) && (pos' < limit ==> link.refusals > old(link.refusals))
  {
    pos' := pos;
    while pos' < limit
      invariant pos <= pos' <= limit && link.taken == old(link.taken) + (pos' - pos) <= |link.bytes|
      invariant buf[..] == Patch(old(buf[..]), pos, link.bytes[old(link.taken)..link.taken]) && link.refusals >= old(link.refusals)
    {
      ghost var mid, before := link.taken, buf[..];
      rc, pos' := ReadOnce(link, buf, pos', limit);
      PatchMore(old(buf[..]), pos, link.bytes, old(link.taken), mid, link.taken, before, buf[..]);
      if rc != Ok { return; }
    }
    return Ok, pos';
  }

  /** The number of bytes of a header that starts like `buf`. */
  function Wanted(buf: seq<byte>, pos: nat): (n: nat)
    requires pos <= |buf|
    ensures 2 <= n <= MAX_HDR_SIZE
  {
    if pos < 2 then 2 else Need(buf[..2])
  }

  lemma WantedKept(buf: seq<byte>, pos: nat, data: seq<byte>)
    requires 2 <= pos && pos + |data| <= |buf|
    ensures Wanted(Patch(buf, pos, data), pos + |data|) == Wanted(buf, pos)
  {
    assert Patch(buf, pos, data)[..2] == buf[..2];
  }

  /** What becomes of a frame with a good header once its payload is read. */
  function Complete(p: Peer, ctrl: bool, masked: bool, key: Key, raw: seq<byte>, n: nat): Next
    requires !ctrl ==> |raw| >= 4
  {
    if ctrl then Skip(n) else Unwrap(p, if masked then Mask(raw, key) else raw, n)
  }

  ghost predicate ResumesWith(p: Peer, h: seq<byte>, ctrl: bool, len: nat, masked: bool, key: Key, raw: seq<byte>)
    requires !ctrl ==> len >= 4
  {
    |raw| <= len ==>
      First(p, h + raw) == if |raw| < len then More else Complete(p, ctrl, masked, key, raw, |h| + len)
  }

  /** A complete header `h` decides how any payload that follows it is read. */
  ghost predicate Resumes(p: Peer, h: seq<byte>, ctrl: bool, len: nat, masked: bool, key: Key)
    requires !ctrl ==> len >= 4
  {
    forall raw :: ResumesWith(p, h, ctrl, len, masked, key, raw)
  }

  lemma HeaderResumes(p: Peer, h: seq<byte>, key: Key)
    requires Whole(h) && |h| == Need(h) && !KindOf(p, h).Bad?
    requires Masked(h) ==> key == KeyOf(h)
    ensures KindOf(p, h) != Control ==> Length(h) >= 4
    ensures Resumes(p, h, KindOf(p, h) == Control, Length(h), Masked(h), key)
  {
    var ctrl, len, masked := KindOf(p, h) == Control, Length(h), Masked(h);
    forall raw ensures ResumesWith(p, h, ctrl, len, masked, key, raw) {
      if |raw| <= Length(h) { HeaderResumesWith(p, h, key, raw); }
    }
  }

  lemma HeaderResumesWith(p: Peer, h: seq<byte>, key: Key, raw: seq<byte>)
    requires Whole(h) && |h| == Need(h) && !KindOf(p, h).Bad? && |raw| <= Length(h)
    requires Masked(h) ==> key == KeyOf(h)
    ensures ResumesWith(p, h, KindOf(p, h) == Control, Length(h), Masked(h), key, raw)
  {
    hide Unwrap, Length, KindOf, Need, Mask;
    KindStable(p, h, raw);
    HeaderStable(h, raw);
    if |raw| == Length(h) { assert (h + raw)[|h|..|h| + |raw|] == raw; }
  }

  /** The frames a parser has dealt with, and what the decoder makes of each. */
  datatype Entry = Entry(bytes: seq<byte>, verdict: Next)

  ghost predicate EntryOk(p: Peer, e: Entry) {
    && First(p, e.bytes) == e.verdict
    && match e.verdict
       case More => false
       case Fail(_) => true
       case Skip(n) => n == |e.bytes|
       case Deliver(_, n) => n == |e.bytes|
  }

  ghost predicate LogOk(p: Peer, log: seq<Entry>) {
    forall i :: 0 <= i < |log| ==> EntryOk(p, log[i])
  }

  function Bytes(log: seq<Entry>): seq<byte> {
    if log == [] then [] else Bytes(log[..|log| - 1]) + log[|log| - 1].bytes
  }

  function Delivered(log: seq<Entry>): seq<Body> {
    if log == [] then []
    else Delivered(log[..|log| - 1]) + match log[|log| - 1].verdict case Deliver(m, _) => [m] case _ => []
  }

  predicate Unbroken(log: seq<Entry>) {
    forall i :: 0 <= i < |log| ==> !log[i].verdict.Fail?
  }

  lemma LogAppend(p: Peer, log: seq<Entry>, e: Entry)
    requires LogOk(p, log) && EntryOk(p, e)
    ensures LogOk(p, log + [e]) && Bytes(log + [e]) == Bytes(log) + e.bytes
  {
    assert (log + [e])[..|log|] == log;
  }

  lemma Extended(log: seq<Entry>, e: Entry)
    ensures Bytes(log + [e]) == Bytes(log) + e.bytes
    ensures Delivered(log + [e]) == Delivered(log) + match e.verdict case Deliver(m, _) => [m] case _ => []
  {
    assert (log + [e])[..|log|] == log;
  }

  /** A log of frames agrees with the reference decoder on the whole stream. */
  lemma {:induction false} LogDecodes(p: Peer, log: seq<Entry>)
    requires LogOk(p, log) && Unbroken(log)
    ensures Advances(ReaderOf(p))
    ensures Decode(ReaderOf(p), Bytes(log)) == Decoded(Delivered(log), [], None)
  {
    ReaderOk(p);
    if log == [] {
      assert ReaderOf(p)([]) == More;
    } else {
      var n := |log| - 1;
      var e := log[n];
      LogDecodes(p, log[..n]);
      LastVerdict(p, log);
      OneMore(ReaderOf(p), Bytes(log[..n]), Delivered(log[..n]), e.bytes);
    }
  }

  /** A failed last frame is where the reference decoder stops too. */
  lemma FailedLogDecodes(p: Peer, log: seq<Entry>)
    requires LogOk(p, log) && log != [] && Unbroken(log[..|log| - 1]) && log[|log| - 1].verdict.Fail?
    ensures Advances(ReaderOf(p))
    ensures var o := Decode(ReaderOf(p), Bytes(log));
            o.msgs == Delivered(log) && o.err == Some(log[|log| - 1].verdict.err)
  {
    var n := |log| - 1;
    LogDecodes(p, log[..n]);
    ReaderOk(p);
    LastVerdict(p, log);
    OneMore(ReaderOf(p), Bytes(log[..n]), Delivered(log[..n]), log[n].bytes);
    assert Delivered(log) == Delivered(log[..n]) + [];
  }

  lemma LastVerdict(p: Peer, log: seq<Entry>)
    requires LogOk(p, log) && log != []
    ensures var e := log[|log| - 1];
            && ReaderOf(p)(e.bytes) == e.verdict && ReaderOf(p)([]) == More
            && (e.verdict.Skip? || e.verdict.Deliver? ==> e.verdict.n == |e.bytes|)
  {
    assert EntryOk(p, log[|log| - 1]);
  }

  datatype InState = Hdr | InCtrl | InBody

  function RcOf(e: Err): Rc {
    match e
    case Proto => Rc.Proto
    case MsgSize => Rc.MsgSize
    case Reset => Rc.Reset
  }

  /** The receiving half of struct mb_sws.  Reporting an error closes the
      session, as the endpoints' error callbacks do. */
  class Receiver {
    const link: Link
    const peer: Peer
    const heap: Supply   // malloc
    const pongs: Supply  // whether an answer to a ping goes out or fails
    const inhdr: array<byte>

    var open: bool
    var instate: InState
    var inpos: nat
    var payloadLen: nat
    var opcode: nat          // `inlen` while in a control frame
    var maskKey: Key
    var inmsg: array<byte>

    ghost var header: seq<byte>     // the complete header of the current frame
    ghost var log: seq<Entry>       // the frames dealt with so far

    /** The bytes of the frame that the parser is in the middle of. */
    ghost function Partly(): seq<byte>
      requires inpos <= if instate == Hdr then inhdr.Length else inmsg.Length
      reads this, inhdr, inmsg
    {
      if instate == Hdr then inhdr[..inpos] else header + inmsg[..inpos]
    }

    /** The cursors are in range, and the bytes taken from the link are the
        finished frames and then the part of the current one. */
    ghost predicate Valid()
      reads this, link, inhdr, inmsg
    {
      && inhdr.Length == MAX_HDR_SIZE && inhdr != inmsg && link.taken <= |link.bytes|
      && inpos <= (if instate == Hdr then inhdr.Length else inmsg.Length)
      && (instate == Hdr ==> inpos <= Wanted(inhdr[..], inpos))
      && (instate != Hdr ==>
           && |header| >= 2 && payloadLen == inmsg.Length && (instate != InCtrl ==> payloadLen >= 4)
           && Resumes(peer, header, instate == InCtrl, payloadLen, inhdr[1] >= 128, maskKey))
      && link.bytes[..link.taken] == Bytes(log) + Partly()
      && LogOk(peer, log) && Unbroken(log)
    }

    /** Between calls the parser holds a cut-off frame. */
    ghost predicate Waiting()
      requires Valid()
      reads this, link, inhdr, inmsg
    {
      if instate == Hdr then inpos < 2 || inpos < Need(inhdr[..2]) else inpos < payloadLen
    }

    lemma WaitingIsMore()
      requires Valid() && Waiting()
      ensures First(peer, Partly()) == More
    {
      if instate != Hdr {
        assert ResumesWith(peer, header, instate == InCtrl, payloadLen, inhdr[1] >= 128, maskKey, inmsg[..inpos]);
      } else if inpos >= 2 {
        var h := inhdr[..inpos];
        assert h[..2] == inhdr[..2];
        NeedOfPrefix(h);
      }
    }

    /** mb_sws_create */
    constructor (link: Link, peer: Peer, heap: Supply, pongs: Supply)
      requires link.taken == 0
      ensures Valid() && open && Waiting() && log == [] && this.link == link && this.peer == peer && this.heap == heap && this.pongs == pongs
      ensures fresh(inhdr) && fresh(inmsg)
    {
      this.link, this.peer, this.heap, this.pongs := link, peer, heap, pongs;
      inhdr := new byte[MAX_HDR_SIZE];
      inmsg := new byte[0];
      open, instate, inpos, payloadLen, opcode, maskKey := true, Hdr, 0, 0, 0, [0, 0, 0, 0];
      header, log := [], [];
    }

    twostate predicate Onward()
      reads link`taken, link`refusals, heap`denials, pongs`denials
    {
      old(link.taken) <= link.taken && old(link.refusals) <= link.refusals && old(heap.denials) <= heap.denials && old(pongs.denials) <= pongs.denials
    }

    /** A call that delivers nothing has its reason: the kernel refused a read or gave only
        the first byte of a header, memory was not granted, an answer to a ping failed, or
        the decoder refuses the frame. */
    twostate predicate Excused(rc: Rc)
      reads link`taken, link`refusals, heap`denials, pongs`denials, this`log, this`instate, this`inpos
    {
      match rc
      case Ok => true
      case Again => old(link.refusals) < link.refusals || (instate == Hdr && inpos == 1 && old(link.taken) < link.taken)
      case NoMem => old(heap.denials) < heap.denials
      case Failed => old(link.refusals) < link.refusals || old(pongs.denials) < pongs.denials
      case Reset => old(link.refusals) < link.refusals || Refused(Err.Reset)
      case Proto => Refused(Err.Proto)
      case MsgSize => Refused(Err.MsgSize)
    }

    ghost predicate Refused(err: Err)
      reads this`log
    {
      log != [] && log[|log| - 1].verdict == Fail(err)
    }

    /** The header reads of mb_sws_recv. */
    method FillHeader() returns (rc: Rc)
      requires Valid() && instate == Hdr
      modifies this`inpos, inhdr, link`taken, link`refusals
      ensures Valid()
      ensures rc == Ok <==> inpos >= 2 && inpos == Need(inhdr[..2])
      ensures rc == Ok || rc == Again || rc == Rc.Reset || rc == Failed
      ensures Onward() && Excused(rc)
    {
      if inpos < 2 {
        ghost var buf, pos := inhdr[..], inpos;
        rc, inpos := ReadOnce(link, inhdr, inpos, 2);
        Grown(buf, pos, old(link.taken));
        if rc != Ok { return; }
        if inpos < 2 { return Again; }
      }
      ghost var buf, pos, taken := inhdr[..], inpos, link.taken;
      rc, inpos := ReadUpTo(link, inhdr, inpos, Need(inhdr[..2]));
      WantedKept(buf, pos, link.bytes[taken..link.taken]);
      Grown(buf, pos, taken);
    }

    /** After a read into the header, the bytes taken are still accounted for. */
    lemma Grown(buf: seq<byte>, pos: nat, taken: nat)
      requires instate == Hdr && inhdr.Length == |buf| && pos <= inpos <= inhdr.Length
      requires taken + (inpos - pos) == link.taken <= |link.bytes|
      requires link.bytes[..taken] == Bytes(log) + buf[..pos]
      requires inhdr[..] == Patch(buf, pos, link.bytes[taken..link.taken])
      ensures link.bytes[..link.taken] == Bytes(log) + Partly()
    {
      TakeMore(link.bytes, taken, link.taken, Bytes(log), buf, pos, inhdr[..]);
    }

    /** The checks of mb_sws_recv on a complete header; when they pass, the
        payload buffer is allocated and the payload state entered. */
    method StartFrame() returns (rc: Rc)
      requires Valid() && instate == Hdr && inpos >= 2 && inpos == Need(inhdr[..2])
      modifies this`instate, this`inpos, this`payloadLen, this`opcode, this`maskKey, this`inmsg, this`header, this`log, heap
      ensures inmsg == old(inmsg) || fresh(inmsg)
      ensures Onward() && Excused(rc)
      ensures rc == Ok ==> Valid() && instate != Hdr && log == old(log)
      ensures rc == NoMem ==> log == old(log)
      ensures rc != Ok && rc != NoMem ==> Stopped(rc, old(log))
      ensures rc != Ok ==> Delivered(log) == Delivered(old(log))
      ensures rc != Again && rc != Failed
    {
      hide Bytes, Delivered, LogOk, Unbroken, First, Resumes, KindOf, Length, KeyOf, Stopped, Refused;
      var h := inhdr[..inpos];
      assert h[..2] == inhdr[..2];
      NeedOfPrefix(h);
      var kind := KindOf(peer, h);
      if kind.Bad? {
        FirstOfBad(peer, h);
        Refuse(Entry(h, Fail(kind.err)));
        return RcOf(kind.err);
      }
      var mem := heap.Request();
      if !mem { return NoMem; }
      var key := if Masked(h) then KeyOf(h) else maskKey;
      HeaderResumes(peer, h, key);
      EnterPayload(h, kind == Control, Length(h), key, Opcode(h));
      rc := Ok;
    }

    /** Record the frame at which the parser stops. */
    ghost method Refuse(e: Entry)
      requires link.taken <= |link.bytes| && link.bytes[..link.taken] == Bytes(log) + e.bytes
      requires LogOk(peer, log) && Unbroken(log) && EntryOk(peer, e) && e.verdict.Fail?
      modifies this`log
      ensures Stopped(RcOf(e.verdict.err), old(log)) && Delivered(log) == Delivered(old(log)) && Refused(e.verdict.err)
    {
      LogAppend(peer, log, e);
      Extended(log, e);
      log := log + [e];
      assert log[..|log| - 1] == old(log);
    }

    method EnterPayload(ghost h: seq<byte>, ctrl: bool, len: nat, key: Key, op: nat)
      requires Valid() && instate == Hdr && inpos >= 2 && h == inhdr[..inpos]
      requires (!ctrl ==> len >= 4) && Resumes(peer, h, ctrl, len, inhdr[1] >= 128, key)
      modifies this`instate, this`inpos, this`payloadLen, this`opcode, this`maskKey, this`inmsg, this`header
      ensures Valid() && fresh(inmsg) && instate != Hdr
    {
      inmsg := new byte[len];
      payloadLen, opcode, maskKey := len, op, key;
      instate := if ctrl then InCtrl else InBody;
      header, inpos := h, 0;
      assert Partly() == h;
    }

    /** The parser stopped at a frame that the reference decoder refuses with the
        same error, after the frames in `before`. */
    ghost predicate Stopped(rc: Rc, before: seq<Entry>)
      reads this`log, link
    {
      && link.taken <= |link.bytes| && LogOk(peer, log) && |log| > 0
      && var n := |log| - 1;
         log[..n] == before && Unbroken(before)
         && log[n].verdict.Fail? && RcOf(log[n].verdict.err) == rc
         && link.bytes[..link.taken] == Bytes(log)
    }

    /** The payload read loop of mb_sws_recv. */
    method FillPayload() returns (rc: Rc)
      requires Valid() && instate != Hdr
      modifies this`inpos, inmsg, link`taken, link`refusals
      ensures Valid()
      ensures rc == Ok <==> inpos == payloadLen
      ensures rc == Ok || rc == Again || rc == Rc.Reset || rc == Failed
      ensures Onward() && Excused(rc)
    {
      rc, inpos := ReadUpTo(link, inmsg, inpos, payloadLen);
      TakeMoreAfter(link.bytes, old(link.taken), link.taken, Bytes(log), header, old(inmsg[..]), old(inpos), inmsg[..]);
    }

    /** The frame whose payload is complete, and what the decoder makes of it. */
    lemma Completed()
      requires Valid() && instate != Hdr && inpos == payloadLen
      ensures link.bytes[..link.taken] == Bytes(log) + (header + inmsg[..])
      ensures First(peer, header + inmsg[..]) ==
        Complete(peer, instate == InCtrl, inhdr[1] >= 128, maskKey, inmsg[..], |header + inmsg[..]|)
    {
      assert inmsg[..inpos] == inmsg[..];
      assert ResumesWith(peer, header, instate == InCtrl, payloadLen, inhdr[1] >= 128, maskKey, inmsg[..]);
    }

    /** Back to the header state, with one more frame dealt with. */
    method Rewind(ghost e: Entry)
      requires inhdr.Length == MAX_HDR_SIZE && inhdr != inmsg && link.taken <= |link.bytes|
      requires link.bytes[..link.taken] == Bytes(log) + e.bytes
      requires LogOk(peer, log) && Unbroken(log) && EntryOk(peer, e) && !e.verdict.Fail?
      modifies this`instate, this`inpos, this`log
      ensures Valid() && instate == Hdr && inpos == 0 && log == old(log) + [e]
    {
      LogAppend(peer, log, e);
      log, instate, inpos := log + [e], Hdr, 0;
      assert Bytes(log) + [] == Bytes(log);
    }

    /** Undo the mask of the whole payload, in place. */
    method Unmask()
      requires payloadLen == inmsg.Length && inhdr.Length >= 2 && inhdr != inmsg
      modifies inmsg
      ensures inmsg[..] == if inhdr[1] >= 128 then Mask(old(inmsg[..]), maskKey) else old(inmsg[..])
    {
      ghost var raw := inmsg[..];
      if payloadLen > 0 && inhdr[1] >= 128 { MaskInPlace(inmsg, 0, payloadLen, maskKey); }
      Unmasking(raw, inhdr[1] >= 128, maskKey, inmsg[..]);
    }

    /** The end of a control frame.  The answer to a ping is sent elsewhere; only
        its hard failure, which stops the call, is seen here. */
    method FinishCtrl() returns (rc: Rc)
      requires Valid() && instate == InCtrl && inpos == payloadLen
      modifies this`instate, this`inpos, this`log, inmsg, pongs
      ensures Valid() && instate == Hdr && inpos == 0
      ensures |Bytes(log)| > |Bytes(old(log))| && Delivered(log) == Delivered(old(log))
      ensures rc == Ok || rc == Failed
      ensures rc == Failed <==> opcode == OP_PING && !old(pongs.Granted())
      ensures pongs.denials == old(pongs.denials) + if rc == Failed then 1 else 0
    {
      hide Valid, Bytes, Delivered;
      PassOver();
      rc := Ok;
      if opcode == OP_PING {
        var out := pongs.Request();
        if !out { rc := Failed; }
      }
    }

    method PassOver()
      requires Valid() && instate == InCtrl && inpos == payloadLen
      modifies this`instate, this`inpos, this`log, inmsg
      ensures Valid() && instate == Hdr && inpos == 0
      ensures |Bytes(log)| > |Bytes(old(log))| && Delivered(log) == Delivered(old(log))
    {
      ghost var f := header + inmsg[..];
      Completed();
      Unmask();
      Extended(log, Entry(f, Skip(|f|)));
      Rewind(Entry(f, Skip(|f|)));
    }

    /** The end of a data frame: unmask, check the inner length, deliver. */
    method FinishBody() returns (rc: Rc, msg: Body)
      requires Valid() && instate == InBody && inpos == payloadLen
      modifies this`instate, this`inpos, this`log, inmsg, heap
      ensures Onward() && Excused(rc)
      ensures rc == Ok ==> Valid() && instate == Hdr && inpos == 0
      ensures rc == Ok ==> Delivered(log) == Delivered(old(log)) + [msg]
      ensures rc != Ok ==> Delivered(log) == Delivered(old(log))
      ensures rc != Ok ==> rc == NoMem || (rc == Rc.MsgSize && Stopped(rc, old(log)))
    {
      ghost var f := header + inmsg[..];
      Completed();
      Unmask();
      rc, msg := Judge(f);
    }

    /** What mb_sws_recv does with the unmasked payload of a data frame `f`. */
    method Judge(ghost f: seq<byte>) returns (rc: Rc, msg: Body)
      requires inhdr.Length == MAX_HDR_SIZE && inhdr != inmsg && link.taken <= |link.bytes|
      requires link.bytes[..link.taken] == Bytes(log) + f && LogOk(peer, log) && Unbroken(log)
      requires inmsg.Length >= 4 && First(peer, f) == Unwrap(peer, inmsg[..], |f|)
      modifies this`instate, this`inpos, this`log, heap
      ensures Onward() && Excused(rc)
      ensures rc == NoMem <==>
        0 < Get32(inmsg[..]) <= inmsg.Length - 4 && !TooLarge(peer.maxSize, Get32(inmsg[..])) && !old(heap.Granted())
      ensures rc == Ok ==> Valid() && instate == Hdr && inpos == 0 && Delivered(log) == Delivered(old(log)) + [msg]
      ensures rc != Ok ==> Delivered(log) == Delivered(old(log))
      ensures rc != Ok ==> rc == NoMem || (rc == Rc.MsgSize && Stopped(rc, old(log)))
    {
      hide Valid, Bytes, Delivered, LogOk, Unbroken, First, Get32, Stopped, Refused;
      var body := inmsg[..];
      var len := Get32(body);
      if len > |body| - 4 || TooLarge(peer.maxSize, len) {
        assert EntryOk(peer, Entry(f, Fail(Err.MsgSize)));
        Refuse(Entry(f, Fail(Err.MsgSize)));
        return Rc.MsgSize, [];
      }
      if len > 0 {
        var mem := heap.Request();
        if !mem { return NoMem, []; }
      }
      msg := body[4..4 + len];
      assert EntryOk(peer, Entry(f, Deliver(msg, |f|)));
      Extended(log, Entry(f, Deliver(msg, |f|)));
      Rewind(Entry(f, Deliver(msg, |f|)));
      rc := Ok;
    }

    /** What a call that does not deliver leaves behind, given the frames dealt
        with before the last one. */
    ghost predicate Ended(rc: Rc, before: seq<Entry>)
      reads this, link, inhdr, inmsg
    {
      && (rc == Again ==> open && Valid() && Waiting())
      && (rc != Again ==> !open)
      && Delivered(log) == Delivered(before)
      && (rc == Rc.Proto || rc == Rc.MsgSize ==> Stopped(rc, before))
    }

    /** Reach the payload of the current frame. */
    method GetHeader() returns (rc: Rc)
      requires open && Valid() && instate == Hdr
      modifies this, inhdr, link`taken, link`refusals, heap
      ensures Onward() && Excused(rc)
      ensures inmsg == old(inmsg) || fresh(inmsg)
      ensures if rc == Ok then open && Valid() && instate != Hdr && log == old(log) else Ended(rc, old(log))
    {
      rc := FillHeader();
      if rc == Again { return; }
      if rc == Ok { rc := StartFrame(); }
      if rc != Ok { open := false; }
    }

    /** Complete the payload of the current frame. */
    method GetPayload() returns (rc: Rc)
      requires open && Valid() && instate != Hdr
      modifies this`open, this`inpos, inmsg, link`taken, link`refusals
      ensures Onward() && Excused(rc)
      ensures if rc == Ok then open && Valid() && inpos == payloadLen else Ended(rc, log)
    {
      rc := FillPayload();
      if rc != Ok && rc != Again { open := false; }
    }

    /** Deal with a complete frame. */
    method Finish() returns (rc: Rc, msg: Body, skipped: bool)
      requires open && Valid() && instate != Hdr && inpos == payloadLen
      modifies this`open, this`instate, this`inpos, this`log, inmsg, heap, pongs
      ensures Onward() && Excused(rc)
      ensures rc == Ok ==> open && Valid() && instate == Hdr && inpos == 0
      ensures skipped ==> rc == Ok && |Bytes(log)| > |Bytes(old(log))|
      ensures Delivered(log) == if rc == Ok && !skipped then Delivered(old(log)) + [msg] else Delivered(old(log))
      ensures rc != Ok ==> Ended(rc, old(log))
    {
      msg, skipped := [], false;
      if instate == InBody {
        rc, msg := FinishBody();
      } else {
        rc := FinishCtrl();
        skipped := rc == Ok;
      }
      if rc != Ok { open := false; }
    }

    /** One turn of the loop of mb_sws_recv; `skipped` means that a control frame
        was passed over and the loop goes on. */
    method RecvFrame() returns (rc: Rc, msg: Body, skipped: bool)
      requires open && Valid()
      modifies this, inhdr, inmsg, link`taken, link`refusals, heap, pongs
      ensures Onward() && Excused(rc)
      ensures inmsg == old(inmsg) || fresh(inmsg)
      ensures rc == Ok ==> open && Valid() && instate == Hdr && inpos == 0
      ensures skipped ==> rc == Ok && |Bytes(log)| > |Bytes(old(log))|
      ensures Delivered(log) == if rc == Ok && !skipped then Delivered(old(log)) + [msg] else Delivered(old(log))
      ensures rc != Ok ==> Ended(rc, old(log))
    {
      msg, skipped := [], false;
      if instate == Hdr {
        rc := GetHeader();
        if rc != Ok { return; }
      }
      rc := GetPayload();
      if rc == Ok { rc, msg, skipped := Finish(); }
    }

    /** mb_sws_recv: at most one message, resuming where the last call stopped and
        passing over control frames.  `before` is the log at its last frame. */
    method Recv() returns (rc: Rc, msg: Body, ghost before: seq<Entry>)
      requires open && Valid() && Waiting()
      modifies this, inhdr, inmsg, link`taken, link`refusals, heap, pongs
      ensures Onward() && Excused(rc)
      ensures inmsg == old(inmsg) || fresh(inmsg)
      ensures Delivered(log) == if rc == Ok then Delivered(old(log)) + [msg] else Delivered(old(log))
      ensures rc == Ok ==> open && Valid() && Waiting()
      ensures rc != Ok ==> Ended(rc, before)
    {
      before := log;
      var skipped: bool;
      rc, msg, skipped := RecvFrame();
      while skipped
        invariant (inmsg == old(inmsg) || fresh(inmsg)) && Onward() && Excused(rc)
        invariant Delivered(log) == if rc == Ok && !skipped then Delivered(old(log)) + [msg] else Delivered(old(log))
        invariant if rc == Ok then open && Valid() && instate == Hdr && inpos == 0 else Ended(rc, before) && !skipped
        invariant skipped ==> |Bytes(log)| <= |link.bytes|
        decreases if skipped then |link.bytes| - |Bytes(log)| + 1 else 0
      {
        before := log;
        rc, msg, skipped := RecvFrame();
      }
    }
  }

  ghost predicate AllSmall(isClient: bool, items: seq<Item>) {
    forall i :: i in items ==> |FrameOf(isClient, i)| <= MAX_INT
  }

  /** The frame of a message, unless mb_sws_send refuses it for its size. */
  function Framed(isClient: bool, maxSize: int, msg: Body, key: Key): Option<seq<byte>> {
    if TooLarge(maxSize, |msg|) then None else Some(DataFrame(isClient, msg, key))
  }

  /** The sending half: an output buffer that holds frames of accepted items. */
  class Sender {
    const outlet: Outlet
    const isClient: bool
    const maxSize: int

    ghost var items: seq<Item>  // what send took, with the mask key of each frame

    ghost predicate Valid()
      reads this, outlet, outlet.link`bytes
    {
      && outlet.Valid() && outlet.Settled() && outlet.stream == Encode(isClient, items)
      && (AllSmall(isClient, items) ==> outlet.small)
    }

    constructor (link: Link, isClient: bool, maxSize: int, linger: int, onError: bool)
      requires link.bytes == []
      ensures Valid() && items == [] && outlet.open && outlet.calls == []
      ensures outlet.link == link && fresh(outlet) && this.isClient == isClient && this.maxSize == maxSize
      ensures outlet.guarded == onError && outlet.linger == linger
    {
      outlet := new Outlet(link, linger, onError);
      this.isClient, this.maxSize, items := isClient, maxSize, [];
    }

    /** mb_sws_send.  The message is taken unless the call is refused; `key` is
        the random mask of this frame, and `mem` what malloc says. */
    method Send(msg: Body, key: Key, mem: bool) returns (rc: Rc)
      requires Valid()
      modifies this`items, outlet, outlet.link`bytes, outlet.link`plan, outlet.link`polls
      ensures Valid() && old(outlet.calls) <= outlet.calls && old(outlet.link.bytes) <= outlet.link.bytes
      ensures rc == Ok ==> items == old(items) + [Message(msg, key)]
      ensures rc == Again || rc == Rc.MsgSize || rc == NoMem ==> items == old(items)
      ensures items == old(items) || items == old(items) + [Message(msg, key)]
      ensures TooLarge(maxSize, |msg|) ==> items == old(items) && rc != Ok
      ensures Soft(rc) || rc == Rc.MsgSize || rc == NoMem ==> outlet.open
      ensures Sent(outlet.View(), rc, items == old(items) + [Message(msg, key)]) ==
        SendOf(old(outlet.View()), Framed(isClient, maxSize, msg, key), mem, outlet.linger)
    {
      hide Uncounted, TransmitOf, FlushOf, ReportOf, DataPayload, Encode, Messages, AllSmall, Built;
      if !outlet.open {
        outlet.ReportError();
        return Rc.Reset;
      }
      rc := outlet.Flush();
      if rc != Ok { return; }
      if TooLarge(maxSize, |msg|) { return Rc.MsgSize; }
      if !mem { return NoMem; }
      var frame := BuildFrame(isClient, OP_BINARY, DataPayload(msg), key);
      Appended(isClient, items, Message(msg, key));
      rc := outlet.Transmit(frame[..]);
      ghost var was := items;
      items := items + [Message(msg, key)];
      SmallMore(isClient, was, Message(msg, key));
    }

    /** mb_sws_flush_outbuf, as the polls call it. */
    method Flush() returns (rc: Rc)
      requires Valid()
      modifies outlet, outlet.link`bytes, outlet.link`plan, outlet.link`polls
      ensures Valid() && old(outlet.calls) <= outlet.calls && old(outlet.link.bytes) <= outlet.link.bytes
      ensures Fine(old(outlet.View())) && Flushed(outlet.View(), rc) == FlushOf(old(outlet.View()), outlet.linger)
    {
      hide Uncounted, FlushOf, Encode;
      rc := outlet.Flush();
    }

    /** mb_sws_stop */
    method Stop()
      requires Valid()
      modifies outlet, outlet.link`bytes, outlet.link`plan, outlet.link`polls
      ensures Valid() && !outlet.open && old(outlet.calls) <= outlet.calls && old(outlet.link.bytes) <= outlet.link.bytes
      ensures Fine(old(outlet.View())) && outlet.View() == StopOf(old(outlet.View()), outlet.linger)
    {
      hide Uncounted, StopOf, Encode;
      outlet.Stop();
    }
  }

  lemma SmallMore(isClient: bool, items: seq<Item>, i: Item)
    ensures AllSmall(isClient, items + [i]) <==> AllSmall(isClient, items) && |FrameOf(isClient, i)| <= MAX_INT
  {
    assert forall x :: x in items + [i] <==> x in items || x == i;
  }

  ghost predicate AllAcceptable(p: Peer, items: seq<Item>) {
    forall i :: i in items ==> Acceptable(p, i)
  }

  /** Sender `a` writes to the link that receiver `b`, of the other role, reads. */
  ghost predicate Joined(a: Sender, b: Receiver) {
    a.outlet.link == b.link && a.isClient == !b.peer.isClient
  }

  /** Every accepted message suits `b`, and `a` has written only what it accepted: no
      write call miscounted, or it is a session of an endpoint without lingering. */
  ghost predicate Sound(a: Sender, b: Receiver)
    reads a, a.outlet
  {
    AllAcceptable(b.peer, a.items) && (Clean(a.outlet.calls) || (a.outlet.guarded && a.outlet.linger <= 0))
  }

  lemma OnTheWire(a: Sender, b: Receiver)
    requires a.Valid() && Joined(a, b) && Sound(a, b)
    ensures a.outlet.link.bytes <= Encode(a.isClient, a.items)
  {
    hide Uncounted, Encode, FrameOf;
    WireRightIff(a.outlet);
    forall i | i in a.items ensures |FrameOf(a.isClient, i)| <= MAX_INT { SmallItem(b.peer, i); }
  }

  lemma SmallItem(p: Peer, i: Item)
    requires Acceptable(p, i)
    ensures |FrameOf(!p.isClient, i)| <= MAX_INT
  {
  }

  /** What the receiver has dealt with is the start of what the sender built. */
  lemma Split(a: Sender, b: Receiver) returns (rest: seq<byte>)
    requires a.Valid() && Joined(a, b) && Sound(a, b) && b.link.taken <= |b.link.bytes|
    requires Bytes(b.log) <= b.link.bytes[..b.link.taken]
    ensures Encode(a.isClient, a.items) == Bytes(b.log) + rest
    ensures Advances(ReaderOf(b.peer)) && Stable(ReaderOf(b.peer))
    ensures Decode(ReaderOf(b.peer), Bytes(b.log) + rest) == Decoded(Messages(a.items), [], None)
  {
    hide Sender.Valid, Encode, Messages, Decode, Bytes, Clean, Advances, Stable;
    OnTheWire(a, b);
    var s := Encode(a.isClient, a.items);
    rest := s[|Bytes(b.log)|..];
    assert s == Bytes(b.log) + rest;
    RoundTrip(b.peer, a.items);
    ReaderOk(b.peer);
  }

  /** Everything is flushed and read, and the receiver waits for more. */
  ghost predicate AllRead(a: Sender, b: Receiver)
    requires b.Valid()
    reads a, a.outlet, b, b.link, b.inhdr, b.inmsg
  {
    && a.outlet.open && !a.outlet.pending && Clean(a.outlet.calls)
    && b.link.taken == |b.link.bytes| && b.Waiting()
  }

  /** The receiver has delivered a prefix of the sent messages, unchanged and in
      order; once everything is flushed and read, it has delivered them all. */
  lemma Channel(a: Sender, b: Receiver)
    requires a.Valid() && b.Valid() && Joined(a, b) && Sound(a, b)
    ensures Delivered(b.log) <= Messages(a.items)
    ensures AllRead(a, b) ==> Delivered(b.log) == Messages(a.items)
  {
    hide Sender.Valid, Sound, AllRead, Decode, Messages, Encode, Delivered, Bytes, Resumes, Wanted;
    var rest := Split(a, b);
    LogDecodes(b.peer, b.log);
    DecodeAppend(ReaderOf(b.peer), Bytes(b.log), rest);
    assert [] + rest == rest;
    assert Messages(a.items) == Delivered(b.log) + Decode(ReaderOf(b.peer), rest).msgs;
    if AllRead(a, b) { LastPart(a, b, rest); }
  }

  lemma LastPart(a: Sender, b: Receiver, rest: seq<byte>)
    requires a.Valid() && b.Valid() && Joined(a, b) && AllRead(a, b)
    requires Encode(a.isClient, a.items) == Bytes(b.log) + rest
    requires Advances(ReaderOf(b.peer))
    ensures Decode(ReaderOf(b.peer), rest).msgs == []
  {
    WireRightIff(a.outlet);
    assert b.link.bytes + [] == b.link.bytes == b.link.bytes[..b.link.taken];
    assert rest == (Bytes(b.log) + rest)[|Bytes(b.log)|..] == b.Partly();
    b.WaitingIsMore();
    assert ReaderOf(b.peer)(rest) == More;
  }

  /** Nor does such a receiver ever refuse a frame. */
  lemma NeverRefused(a: Sender, b: Receiver, rc: Rc, before: seq<Entry>)
    requires a.Valid() && Joined(a, b) && Sound(a, b)
    ensures !b.Stopped(rc, before)
  {
    if b.Stopped(rc, before) {
      var rest := Split(a, b);
      FailedLogDecodes(b.peer, b.log);
      DecodeFails(ReaderOf(b.peer), Bytes(b.log), rest);
      assert false;
    }
  }

  datatype Op = SendOp(msg: Body, key: Key, mem: bool) | FlushOp | StopOp | RecvOp

  /** Bytes that arrive behind the parser's back do not disturb it. */
  twostate lemma Arrivals(b: Receiver)
    requires old(b.Valid() && b.Waiting()) && unchanged(b) && unchanged(b.inhdr) && unchanged(b.inmsg)
    requires b.link.taken == old(b.link.taken) && old(b.link.bytes) <= b.link.bytes
    ensures b.Valid() && b.Waiting()
  {
    assert b.link.bytes[..b.link.taken] == old(b.link.bytes)[..b.link.taken];
    assert b.inhdr[..] == old(b.inhdr[..]) && b.inmsg[..] == old(b.inmsg[..]);
  }

  /** The two ends between calls.  A receiver that stopped stays as it is. */
  ghost predicate Between(a: Sender, b: Receiver)
    reads a, a.outlet, a.outlet.link, b, b.link, b.inhdr, b.inmsg
  {
    && a.Valid() && Joined(a, b) && b.inhdr != b.inmsg
    && (b.open ==> b.Valid() && b.Waiting())
    && (Sound(a, b) ==> Delivered(b.log) <= Messages(a.items))
  }

  /** What was sound later was sound before, and what was sent stays sent. */
  lemma Earlier(p: Peer, items: seq<Item>, items': seq<Item>, calls: seq<Call>, calls': seq<Call>)
    requires calls <= calls' && (items' == items || exists i :: items' == items + [i])
    ensures AllAcceptable(p, items') ==> AllAcceptable(p, items)
    ensures Clean(calls') ==> Clean(calls)
    ensures Messages(items) <= Messages(items')
  {
    if items' != items {
      var i :| items' == items + [i];
      Appended(p.isClient, items, i);
      assert forall x :: x in items ==> x in items';
    }
    assert forall i :: 0 <= i < |calls| ==> calls[i] == calls'[i];
  }

  /** A call at the sending end. */
  method Write(a: Sender, b: Receiver, op: Op)
    requires Between(a, b) && op != RecvOp
    modifies a, a.outlet, a.outlet.link`bytes, a.outlet.link`plan, a.outlet.link`polls
    ensures Between(a, b)
  {
    hide Sender.Valid, Receiver.Valid, Receiver.Waiting, AllAcceptable, Clean, Messages, Delivered;
    ghost var items, calls := a.items, a.outlet.calls;
    match op {
      case SendOp(m, key, mem) => var _ := a.Send(m, key, mem);
      case FlushOp => var _ := a.Flush();
      case StopOp => a.Stop();
    }
    Earlier(b.peer, items, a.items, calls, a.outlet.calls);
    if b.open { Arrivals(b); }
  }

  /** A call at the receiving end, while it is open. */
  method Read(a: Sender, b: Receiver)
    requires Between(a, b) && b.open
    modifies b, b.inhdr, b.inmsg, b.link`taken, b.link`refusals, b.heap, b.pongs
    ensures Between(a, b) && (b.inmsg == old(b.inmsg) || fresh(b.inmsg))
  {
    hide Sender.Valid, Receiver.Waiting, AllAcceptable, Clean, Messages, Delivered, Sound;
    var rc, _, _ := b.Recv();
    if b.open && Sound(a, b) { Channel(a, b); }
  }

  /** Any schedule of calls at the two ends, with the kernel splitting, refusing and
      failing as it likes: what is delivered is a prefix of what was sent, and all of
      it once everything is flushed and read. */
  method Exchange(a: Sender, b: Receiver, ops: seq<Op>)
    requires a.Valid() && Joined(a, b) && b.inhdr != b.inmsg && b.open && b.Valid() && b.Waiting()
    modifies a, a.outlet, a.outlet.link, b, b.inhdr, b.inmsg, b.heap, b.pongs
    ensures Sound(a, b) ==> Delivered(b.log) <= Messages(a.items)
    ensures Sound(a, b) && b.open ==> b.Valid() && (AllRead(a, b) ==> Delivered(b.log) == Messages(a.items))
  {
    hide Sender.Valid, Receiver.Valid, Receiver.Waiting, AllRead, Sound, Messages, Delivered;
    if Sound(a, b) { Channel(a, b); }
    for i := 0 to |ops|
      invariant Between(a, b) && (b.inmsg == old(b.inmsg) || fresh(b.inmsg))
    {
      if ops[i] != RecvOp {
        Write(a, b, ops[i]);
      } else if b.open {
        Read(a, b);
      }
    }
    if b.open && Sound(a, b) { Channel(a, b); }
  }

  lemma Unmasking(raw: seq<byte>, masked: bool, key: Key, data: seq<byte>)
    requires data == if masked && |raw| > 0 then Patch(raw, 0, Mask(raw[0..|raw|], key)) else raw
    ensures data == if masked then Mask(raw, key) else raw
  {
    assert raw[0..|raw|] == raw;
  }

  lemma FirstOfBad(p: Peer, h: seq<byte>)
    requires Whole(h) && KindOf(p, h).Bad?
    ensures First(p, h) == Fail(KindOf(p, h).err)
  {
  }

  lemma NeedOfPrefix(h: seq<byte>)
    requires |h| >= 2
    ensures Need(h) == Need(h[..2])
  {
  }

  /** With a lingering close any data frame can follow its own first byte. */
  lemma RepeatsFrame(isClient: bool, m: Body, key: Key, linger: int) returns (o: Out)
    requires linger > 0 && |DataFrame(isClient, m, key)| <= MAX_INT
    ensures var f := DataFrame(isClient, m, key);
            && o == TransmitOf(Created([Moved(1), Broken, Moved(|f|)], 1), f, linger)
            && o.wire == f[..1] + f && !(o.wire <= f)
  {
    hide TransmitOf, FlushOf, Built;
    BuiltReads(isClient, OP_BINARY, DataPayload(m), key);
    o := LingerRepeats(DataFrame(isClient, m, key), linger);
  }
}
