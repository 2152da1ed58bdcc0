/** The stream session of src/transport/ipc/sipc.c: a resumable framer and a
    resumable parser over non-blocking links. */
module Sipc {
  import opened Common
  import opened Wire
  import opened Framing
  import opened Stream
  import opened OutBuf

  const HDR_SIZE: nat := 4

  datatype InState = Hdr | InBody | HasMsg

  /** mb_sipc_recv_fd.  `c` is how much the call took from the link and whether an
      error ended it; what is reported is wrong if and only if an error ended the
      call after it took something. */
  method RecvFd(link: Link, buf: array<byte>, pos: nat, len: nat) returns (rc: Rc, got: nat, ghost c: Call)
    requires pos + len <= buf.Length && link.taken <= |link.bytes| && len <= MAX_INT
    modifies link`taken, link`refusals, buf
    ensures link.taken == old(link.taken) + c.moved <= |link.bytes| && c.moved <= len
    ensures buf[..] == Patch(old(buf[..]), pos, link.bytes[old(link.taken)..link.taken])
    ensures Soft(rc) || rc == Reset || rc == Failed
    ensures rc == Failed <==> c.broke
    ensures got == Counted(c)
    ensures if rc == Ok then got == c.moved && (len > 0 ==> got > 0) else got == 0
    ensures rc == Again || rc == Reset ==> c.moved == 0 && len > 0
    ensures link.refusals == old(link.refusals) + if rc == Ok && got == len then 0 else 1
  {
    hide Miscounts, ToInt, Patch;
    PatchNone(buf[..], pos);
    assert link.bytes[link.taken..link.taken] == [];
    got := 0;
    while got < len
      invariant got <= len
      invariant link.taken == old(link.taken) + got <= |link.bytes|
      invariant buf[..] == Patch(old(buf[..]), pos, link.bytes[old(link.taken)..link.taken])
      invariant link.refusals == old(link.refusals)
    {
      ghost var mid, before := link.taken, buf[..];
      var r := link.Recv(buf, pos + got, len - got);
      PatchMore(old(buf[..]), pos, link.bytes, old(link.taken), mid, link.taken, before, buf[..]);
      match r {
        case Moved(n) =>
          got := got + n;
        case WouldBlock =>
          return (if got > 0 then Ok else Again), got, Call(got, false);
        case Eof =>
          return (if got > 0 then Ok else Reset), got, Call(got, false);
        case Broken =>
          return Failed, 0, Call(got, true);
      }
    }
    return Ok, got, Call(got, false);
  }

  /** A header that mb_sipc_recv refuses. */
  predicate Oversize(maxSize: int, hdr: seq<byte>)
    requires |hdr| >= 4
  {
    Get32(hdr) > MAX_INT || TooLarge(maxSize, Get32(hdr))
  }

  /** The receiving half of struct mb_sipc.  Its methods return the error that
      mb_sipc_recv reports before returning it. */
  class Inlet {
    const link: Link
    const maxSize: int
    const inhdr: array<byte>

    var instate: InState
    var inpos: nat
    var inlen: nat
    var inbody: array<byte>

    ghost var header: seq<byte>     // the complete header of the current frame
    ghost var delivered: seq<Body>  // messages returned by recv
    ghost var calls: seq<Call>      // every read call so far
    ghost var spoiled: bool         // the parser was resumed after a miscount

    /** The bytes of the frame that the parser is in the middle of. */
    ghost function Partly(): seq<byte>
      requires inpos <= (if instate == Hdr then inhdr.Length else inbody.Length)
      reads this, inhdr, inbody
    {
      match instate
      case Hdr => inhdr[..inpos]
      case InBody => header + inbody[..inpos]
      case HasMsg => header + inbody[..]
    }

    /** The cursors are in range; what was taken from the link is longer than the
        delivered frames and the part held by exactly the uncounted bytes; and what
        was delivered is what the link carried first, unless the parser was resumed
        after a miscount. */
    ghost predicate Valid()
      reads this, link, inhdr, inbody
    {
      && AllFit(delivered) && link.taken <= |link.bytes|
      && inhdr.Length == HDR_SIZE && inhdr != inbody
      && inpos <= (if instate == Hdr then inhdr.Length else inbody.Length)
      && (instate != Hdr ==> |header| == HDR_SIZE && Get32(header) == inlen == inbody.Length <= MAX_INT)
      && Account()
    }

    ghost predicate Account()
      requires AllFit(delivered) && link.taken <= |link.bytes|
      requires inpos <= (if instate == Hdr then inhdr.Length else inbody.Length)
      reads this, link, inhdr, inbody
    {
      && link.taken == |Frames(delivered)| + |Partly()| + Uncounted(calls)
      && (Uncounted(calls) == 0 ==> link.bytes[..link.taken] == Frames(delivered) + Partly())
      && (!spoiled ==> Frames(delivered) <= link.bytes[..link.taken])
    }

    constructor (link: Link, maxSize: int)
      requires link.taken == 0
      ensures Valid() && Partly() == [] && delivered == [] && calls == [] && !spoiled
      ensures this.link == link && this.maxSize == maxSize && fresh(inhdr) && fresh(inbody)
    {
      this.link, this.maxSize := link, maxSize;
      instate, inpos, inlen := Hdr, 0, 0;
      inhdr := new byte[HDR_SIZE];
      inbody := new byte[0];
      header, delivered, calls, spoiled := [], [], [], false;
    }

    /** The read of mb_sipc_recv into inhdr. */
    method FillHeader() returns (rc: Rc)
      requires Valid() && instate == Hdr
      modifies this`inpos, this`calls, inhdr, link`taken, link`refusals
      ensures Valid() && Logged(old(calls), calls, rc)
      ensures rc == Again ==> inpos == old(inpos) < HDR_SIZE
      ensures Soft(rc) || rc == Reset || rc == Failed
      ensures link.refusals >= old(link.refusals) && (rc != Ok || inpos < HDR_SIZE ==> link.refusals > old(link.refusals))
    {
      hide Uncounted, Counted, Frames, Logged, Get32, Patch, AllFit, Miscounts;
      var got: nat;
      ghost var c: Call;
      ghost var buf, done, n := inhdr[..], Frames(delivered), Uncounted(calls);
      assert Partly() == buf[..inpos];
      rc, got, c := RecvFd(link, inhdr, inpos, HDR_SIZE - inpos);
      UncountedMore(calls, c);
      StepLogged(calls, c, rc);
      ReadStep(link.bytes, old(link.taken), c, done, buf, inpos, inhdr[..], n);
      calls := calls + [c];
      if rc == Ok { inpos := inpos + got; }
    }

    method StartBody(size: nat)
      requires Valid() && instate == Hdr && inpos == HDR_SIZE && size == Get32(inhdr[..]) <= MAX_INT
      modifies this`inbody, this`inlen, this`inpos, this`instate, this`header
      ensures Valid() && instate == InBody && inpos == 0 && fresh(inbody) && inlen == size
    {
      hide Frames, Uncounted;
      assert inhdr[..inpos] == inhdr[..];
      inbody := new byte[size];
      inlen, inpos, instate, header := size, 0, InBody, inhdr[..];
      assert Partly() == inhdr[..];
    }

    /** A call that delivers nothing has its reason: the kernel refused a read, malloc
        granted nothing, or the header announces too much. */
    ghost predicate Excused(rc: Rc, mem: bool, refusals: nat)
      reads this, link`refusals, inhdr
    {
      match rc
      case Ok => true
      case NoMem => !mem
      case MsgSize => instate == Hdr && inpos == inhdr.Length == HDR_SIZE && Oversize(maxSize, inhdr[..])
      case _ => link.refusals > refusals
    }

    /** The header part of mb_sipc_recv; `rc == Ok` means the header is complete
        and its body buffer is allocated.  A complete header is refused if and only
        if it announces too much. */
    method RecvHeader(mem: bool) returns (rc: Rc)
      requires Valid() && instate == Hdr
      modifies this`inbody, this`inlen, this`inpos, this`instate, this`header, this`calls, inhdr, link`taken, link`refusals
      ensures Valid() && Logged(old(calls), calls, rc)
      ensures rc == Ok ==> instate == InBody && inpos == 0 && fresh(inbody) && inlen == Get32(inhdr[..])
      ensures rc == Ok || rc == NoMem ==> !Oversize(maxSize, inhdr[..])
      ensures rc == MsgSize ==> instate == Hdr && inpos == HDR_SIZE && Oversize(maxSize, inhdr[..])
      ensures rc == Again ==> Partial(Partly())
      ensures rc != Ok ==> inbody == old(inbody)
      ensures link.refusals >= old(link.refusals) && Excused(rc, mem, old(link.refusals))
    {
      hide Frames, Uncounted;
      rc := FillHeader();
      if rc != Ok { return; }
      if inpos < HDR_SIZE { return Again; }
      var size := Get32(inhdr[..]);
      if size > MAX_INT || TooLarge(maxSize, size) { return MsgSize; }
      if !mem { return NoMem; }
      StartBody(size);
    }

    /** The read of mb_sipc_recv into the body buffer. */
    method FillBody() returns (rc: Rc)
      requires Valid() && instate == InBody
      modifies this`inpos, this`calls, inbody, link`taken, link`refusals
      ensures Valid() && Logged(old(calls), calls, rc)
      ensures rc == Again ==> inpos < inlen
      ensures link.refusals >= old(link.refusals) && (rc != Ok || inpos < inlen ==> link.refusals > old(link.refusals))
      ensures Soft(rc) || rc == Reset || rc == Failed
    {
      hide Uncounted, Counted, Frames, Logged, Get32, Patch, AllFit, Miscounts;
      var got: nat;
      ghost var c: Call;
      ghost var buf, done, n := inbody[..], Frames(delivered), Uncounted(calls);
      assert Partly() == header + buf[..inpos];
      rc, got, c := RecvFd(link, inbody, inpos, inlen - inpos);
      UncountedMore(calls, c);
      StepLogged(calls, c, rc);
      ReadStepAfter(link.bytes, old(link.taken), c, done, header, buf, inpos, inbody[..], n);
      calls := calls + [c];
      if rc == Ok { inpos := inpos + got; }
      assert inpos == old(inpos) + Counted(c) <= inbody.Length;
      assert Partly() == header + inbody[..inpos];
    }

    /** Hand over the complete message and return to the header state. */
    method Deliver() returns (msg: Body)
      requires Valid() && (instate == HasMsg || (instate == InBody && inpos == inlen))
      requires spoiled || Uncounted(calls) == 0
      modifies this`instate, this`inpos, this`delivered
      ensures Valid() && Partly() == []
      ensures delivered == old(delivered) + [msg] && msg == old(inbody[..])
    {
      hide Uncounted;
      assert inbody[..inbody.Length] == inbody[..];
      msg := inbody[..];
      PutGet32(header);
      FramesAppend(delivered, msg);
      delivered := delivered + [msg];
      instate, inpos := Hdr, 0;
      assert Frames(delivered) + [] == Frames(delivered);
    }

    /** The parser of mb_sipc_recv: at most one message, resuming where the last
        call stopped.  `polled` is what poll says first, and `mem` what malloc says. */
    method Recv(polled: bool, mem: bool) returns (rc: Rc, msg: Body)
      requires Valid()
      ensures Excused(rc, mem, old(link.refusals)) || (rc == Again && !polled)
      modifies this, inhdr, inbody, link`taken, link`refusals
      ensures Valid() && (inbody == old(inbody) || fresh(inbody)) && Logged(old(calls), calls, rc)
      ensures delivered == if rc == Ok then old(delivered) + [msg] else old(delivered)
      ensures rc == Ok || (rc == Again && old(Partial(Partly()))) ==> Partial(Partly())
      ensures spoiled == (old(spoiled) || old(Uncounted(calls)) > 0)
    {
      hide Uncounted, Frames, Oversize, AllFit;
      msg := [];
      spoiled := spoiled || Uncounted(calls) > 0;
      if instate == HasMsg {
        msg := Deliver();
        return Ok, msg;
      }
      if !polled { return Again, msg; }
      if instate == Hdr {
        rc := RecvHeader(mem);
        if rc != Ok { return; }
      }
      if inlen > 0 {
        rc := FillBody();
        if rc != Ok { return; }
        if inpos < inlen { return Again, msg; }
      }
      msg := Deliver();
      return Ok, msg;
    }
  }

  /** One read: `c.moved` bytes are taken and `Counted(c)` of them are added to the
      part held. */
  lemma ReadStep(bytes: seq<byte>, t: nat, c: Call, done: seq<byte>, buf: seq<byte>, pos: nat, buf': seq<byte>, n: nat)
    requires t + c.moved <= |bytes| && pos + c.moved <= |buf| && buf' == Patch(buf, pos, bytes[t..t + c.moved])
    requires t == |done| + pos + n && (n == 0 ==> bytes[..t] == done + buf[..pos])
    ensures var n', pos' := n + (c.moved - Counted(c)), pos + Counted(c);
            && |buf'| == |buf| && (pos' == pos ==> buf'[..pos] == buf[..pos])
            && t + c.moved == |done| + pos' + n'
            && (n' == 0 ==> bytes[..t + c.moved] == done + buf'[..pos'])
    ensures done <= bytes[..t] ==> done <= bytes[..t + c.moved]
  {
    assert buf'[..pos] == buf[..pos];
    if n == 0 && c.moved == Counted(c) { TakeMore(bytes, t, t + c.moved, done, buf, pos, buf'); }
    if done <= bytes[..t] { assert bytes[..t] <= bytes[..t + c.moved]; }
  }

  /** One more call was logged; a soft result means that it counted right. */
  ghost predicate Logged(was: seq<Call>, now: seq<Call>, rc: Rc) {
    was <= now && (Soft(rc) ==> Uncounted(now) == Uncounted(was))
  }

  lemma StepLogged(was: seq<Call>, c: Call, rc: Rc)
    requires Soft(rc) ==> Counted(c) == c.moved
    ensures Logged(was, was + [c], rc)
  {
    UncountedMore(was, c);
  }

  lemma ReadStepAfter(bytes: seq<byte>, t: nat, c: Call, done: seq<byte>, head: seq<byte>,
                      buf: seq<byte>, pos: nat, buf': seq<byte>, n: nat)
    requires t + c.moved <= |bytes| && pos + c.moved <= |buf| && buf' == Patch(buf, pos, bytes[t..t + c.moved])
    requires t == |done| + |head| + pos + n && (n == 0 ==> bytes[..t] == done + (head + buf[..pos]))
    ensures var n', pos' := n + (c.moved - Counted(c)), pos + Counted(c);
            && |buf'| == |buf| && (pos' == pos ==> buf'[..pos] == buf[..pos])
            && t + c.moved == |done| + |head| + pos' + n'
            && (n' == 0 ==> bytes[..t + c.moved] == done + (head + buf'[..pos']))
    ensures done <= bytes[..t] ==> done <= bytes[..t + c.moved]
  {
    var now := buf'[..pos + Counted(c)];
    assert done + (head + buf[..pos]) == (done + head) + buf[..pos];
    assert done + (head + now) == (done + head) + now;
    ReadStep(bytes, t, c, done + head, buf, pos, buf', n);
    if done <= bytes[..t] { assert bytes[..t] <= bytes[..t + c.moved]; }
  }

  /** On any session what was taken is the delivered frames and the part held if and
      only if no read call failed after taking bytes. */
  lemma ReadRightIff(b: Inlet)
    requires b.Valid()
    ensures b.link.bytes[..b.link.taken] == Frames(b.delivered) + b.Partly() <==> Clean(b.calls)
  {
    CleanIff(b.calls);
    if b.link.bytes[..b.link.taken] == Frames(b.delivered) + b.Partly() {
      assert b.link.taken == |Frames(b.delivered)| + |b.Partly()|;
    }
  }

  /** The frame of a message, unless mb_sipc_send refuses it for its size. */
  function Framed(maxSize: int, msg: Body): Option<seq<byte>> {
    if TooLarge(maxSize, |msg|) || |msg| > MAX_INT - HDR_SIZE then None else Some(Frame(msg))
  }

  /** A header is refused if and only if its number does not fit in an int, that is, its
      first bit is set, or it exceeds the limit of the receiver. */
  lemma OversizeIff(maxSize: int, hdr: seq<byte>)
    requires |hdr| == HDR_SIZE
    ensures Oversize(maxSize, hdr) <==> hdr[0] >= 128 || (maxSize >= 0 && Number(hdr) > maxSize)
  {
    NumberOf4(hdr);
  }

  /** A message is refused if and only if it exceeds the limit of the sender or the length
      of its frame does not fit in an int.  What a sender takes, a receiver with the
      same limit does not refuse. */
  lemma FramedIff(maxSize: int, msg: Body)
    ensures Framed(maxSize, msg) == None <==> (maxSize >= 0 && |msg| > maxSize) || HDR_SIZE + |msg| > MAX_INT
    ensures Framed(maxSize, msg) != None ==>
      var f := Framed(maxSize, msg).value;
      |f| == HDR_SIZE + |msg| && f[HDR_SIZE..] == msg && Number(f[..HDR_SIZE]) == |msg| && !Oversize(maxSize, f[..HDR_SIZE])
  {
    if Framed(maxSize, msg) != None {
      assert Frame(msg)[..HDR_SIZE] == Put32(|msg|);
      HighByteFirst(|msg|);
    }
  }

  /** The framer: an output buffer that holds frames of accepted messages. */
  class Sender {
    const outlet: Outlet
    const maxSize: int

    ghost var accepted: seq<Body>  // messages taken by send

    ghost predicate Valid()
      reads this, outlet, outlet.link`bytes
    {
      && outlet.Valid() && outlet.Settled() && outlet.small
      && AllFit(accepted) && outlet.stream == Frames(accepted)
    }

    constructor (link: Link, maxSize: int, linger: int, onError: bool)
      requires link.bytes == []
      ensures Valid() && accepted == [] && outlet.open && !outlet.disconnected && outlet.calls == []
      ensures outlet.link == link && fresh(outlet) && this.maxSize == maxSize
      ensures outlet.guarded == onError && outlet.linger == linger
    {
      outlet := new Outlet(link, linger, onError);
      this.maxSize, accepted := maxSize, [];
    }

    /** mb_sipc_send.  The message is taken unless the call is refused; one that is
        too long is never taken.  `mem` is what malloc says. */
    method Send(msg: Body, mem: bool) returns (rc: Rc)
      requires Valid()
      modifies this`accepted, outlet, outlet.link`bytes, outlet.link`plan, outlet.link`polls
      ensures Valid() && old(outlet.calls) <= outlet.calls && old(outlet.link.bytes) <= outlet.link.bytes
      ensures (old(outlet.disconnected) ==> outlet.disconnected) && (outlet.open ==> old(outlet.open))
      ensures rc == Ok ==> accepted == old(accepted) + [msg]
      ensures rc == Again || rc == MsgSize || rc == NoMem ==> accepted == old(accepted)
      ensures accepted == old(accepted) || accepted == old(accepted) + [msg]
      ensures TooLarge(maxSize, |msg|) || |msg| > MAX_INT - HDR_SIZE ==> rc != Ok && accepted == old(accepted)
      ensures Soft(rc) || rc == MsgSize || rc == NoMem ==> outlet.open
      ensures Sent(outlet.View(), rc, accepted == old(accepted) + [msg]) ==
        SendOf(old(outlet.View()), Framed(maxSize, msg), mem, outlet.linger)
    {
      hide Uncounted, Frames, TransmitOf, FlushOf, ReportOf;
      if !outlet.open {
        outlet.ReportError();
        return Reset;
      }
      rc := outlet.Flush();
      if rc != Ok { return; }
      if TooLarge(maxSize, |msg|) { return MsgSize; }
      if |msg| > MAX_INT - HDR_SIZE { return MsgSize; }
      if !mem { return NoMem; }
      FramesAppend(accepted, msg);
      rc := outlet.Transmit(Frame(msg));
      accepted := accepted + [msg];
    }
  }

  /** struct mb_sipc: both halves over the two links of one connection. */
  class Session {
    const sender: Sender
    const inlet: Inlet

    /** Both halves are valid; between calls the parser of a live session holds a
        cut-off frame; and a guarded session never resumes it after a miscount. */
    ghost predicate Valid()
      reads sender, sender.outlet, inlet, sender.outlet.link`bytes, inlet.link, inlet.inhdr, inlet.inbody
    {
      && sender.outlet.link != inlet.link
      && sender.Valid() && inlet.Valid()
      && (!sender.outlet.disconnected ==> Partial(inlet.Partly()))
      && (sender.outlet.guarded ==> !inlet.spoiled && (sender.outlet.open ==> Uncounted(inlet.calls) == 0))
    }

    /** mb_sipc_create, with or without the error callback of an endpoint */
    constructor (outl: Link, inl: Link, maxSize: int, linger: int, onError: bool)
      requires outl != inl && outl.bytes == [] && inl.taken == 0
      ensures Valid() && sender.outlet.link == outl && inlet.link == inl
      ensures fresh(sender) && fresh(sender.outlet) && fresh(inlet) && fresh(inlet.inhdr) && fresh(inlet.inbody)
      ensures sender.outlet.open && !sender.outlet.disconnected && sender.accepted == inlet.delivered == []
      ensures sender.outlet.calls == inlet.calls == [] && sender.maxSize == inlet.maxSize == maxSize
      ensures sender.outlet.guarded == onError && sender.outlet.linger == linger
    {
      sender := new Sender(outl, maxSize, linger, onError);
      inlet := new Inlet(inl, maxSize);
    }

    /** mb_sipc_recv: a flush, then the parser, and hard errors are reported.  What is
        pending going out or not makes no difference to the parser. */
    method Recv(polled: bool, mem: bool) returns (rc: Rc, msg: Body)
      requires Valid()
      modifies sender.outlet, sender.outlet.link`bytes, sender.outlet.link`plan, sender.outlet.link`polls
      modifies inlet, inlet.link`taken, inlet.link`refusals, inlet.inhdr, inlet.inbody
      ensures Valid() && sender.accepted == old(sender.accepted) && old(sender.outlet.link.bytes) <= sender.outlet.link.bytes
      ensures inlet.inbody == old(inlet.inbody) || fresh(inlet.inbody)
      ensures inlet.delivered == if rc == Ok then old(inlet.delivered) + [msg] else old(inlet.delivered)
      ensures old(sender.outlet.calls) <= sender.outlet.calls && old(inlet.calls) <= inlet.calls
      ensures !Soft(rc) ==> sender.outlet.disconnected || !sender.outlet.open
      ensures var f := FlushOf(old(sender.outlet.View()), sender.outlet.linger);
        if !old(sender.outlet.open) then rc == Reset
        else if !Soft(f.rc) then rc == f.rc && sender.outlet.View() == f.o
        else (inlet.Excused(rc, mem, old(inlet.link.refusals)) || (rc == Again && !polled))
             && sender.outlet.View() == if Soft(rc) then f.o else ReportOf(f.o, sender.outlet.linger)
    {
      hide Uncounted, Frames, FlushOf, ReportOf, Inlet.Excused;
      msg := [];
      if !sender.outlet.open {
        sender.outlet.ReportError();
        return Reset, msg;
      }
      rc := sender.outlet.Flush();
      if !Soft(rc) { return; }
      rc, msg := Parse(polled, mem);
    }

    method Parse(polled: bool, mem: bool) returns (rc: Rc, msg: Body)
      requires Valid() && sender.outlet.open
      modifies sender.outlet, sender.outlet.link`bytes, sender.outlet.link`plan, sender.outlet.link`polls
      modifies inlet, inlet.link`taken, inlet.link`refusals, inlet.inhdr, inlet.inbody
      ensures Valid() && sender.accepted == old(sender.accepted) && old(sender.outlet.link.bytes) <= sender.outlet.link.bytes
      ensures inlet.inbody == old(inlet.inbody) || fresh(inlet.inbody)
      ensures inlet.delivered == if rc == Ok then old(inlet.delivered) + [msg] else old(inlet.delivered)
      ensures old(sender.outlet.calls) <= sender.outlet.calls && old(inlet.calls) <= inlet.calls
      ensures !Soft(rc) ==> sender.outlet.disconnected
      ensures inlet.Excused(rc, mem, old(inlet.link.refusals)) || (rc == Again && !polled)
      ensures Fine(old(sender.outlet.View()))
      ensures sender.outlet.View() == if Soft(rc) then old(sender.outlet.View()) else ReportOf(old(sender.outlet.View()), sender.outlet.linger)
    {
      hide Uncounted, Frames, ReportOf, Inlet.Excused;
      rc, msg := inlet.Recv(polled, mem);
      if !Soft(rc) { sender.outlet.ReportError(); }
    }

    /** mb_sipc_has_msg: a flush, and then what poll says. */
    method HasMsg(polled: bool) returns (yes: bool)
      requires Valid()
      modifies sender.outlet, sender.outlet.link`bytes, sender.outlet.link`plan, sender.outlet.link`polls
      ensures Valid() && old(sender.outlet.link.bytes) <= sender.outlet.link.bytes
      ensures sender.accepted == old(sender.accepted) && old(sender.outlet.calls) <= sender.outlet.calls
      ensures var o := old(sender.outlet.View());
        Fine(o) && yes == (inlet.instate == InState.HasMsg
                           || (o.open && !o.disconnected && polled && Soft(FlushOf(o, sender.outlet.linger).rc)))
    {
      hide Uncounted, Frames, FlushOf;
      if inlet.instate == InState.HasMsg { return true; }
      if !sender.outlet.open || sender.outlet.disconnected { return false; }
      var rc := sender.outlet.Flush();
      if !Soft(rc) { return false; }
      yes := polled;
    }

    /** mb_sipc_can_send: true if and only if nothing is pending any more, on a live
        session. */
    method CanSend(polled: bool) returns (yes: bool)
      requires Valid()
      modifies sender.outlet, sender.outlet.link`bytes, sender.outlet.link`plan, sender.outlet.link`polls
      ensures Valid() && old(sender.outlet.link.bytes) <= sender.outlet.link.bytes
      ensures sender.accepted == old(sender.accepted) && old(sender.outlet.calls) <= sender.outlet.calls
      ensures yes ==> sender.outlet.open && !sender.outlet.pending
      ensures var o := old(sender.outlet.View());
        Fine(o) && yes == (o.open && !o.disconnected
                           && (!o.pending || (polled && FlushOf(o, sender.outlet.linger).rc == Ok)))
    {
      hide Uncounted, Frames, FlushOf;
      if !sender.outlet.open || sender.outlet.disconnected { return false; }
      if !sender.outlet.pending { return true; }
      if !polled { return false; }
      var rc := sender.outlet.Flush();
      if !Soft(rc) { return false; }
      yes := !sender.outlet.pending;
    }

    /** mb_sipc_stop */
    method Stop()
      requires Valid()
      modifies sender.outlet, sender.outlet.link`bytes, sender.outlet.link`plan, sender.outlet.link`polls
      ensures Valid() && !sender.outlet.open && !sender.outlet.pending && old(sender.outlet.link.bytes) <= sender.outlet.link.bytes
      ensures sender.accepted == old(sender.accepted) && old(sender.outlet.calls) <= sender.outlet.calls
    {
      hide Uncounted, Frames, StopOf;
      sender.outlet.Stop();
    }
  }

  /** The writer `a` has written only what it accepted: no write call miscounted, or
      it is a session of an endpoint that does not linger. */
  ghost predicate Sound(a: Session)
    reads a.sender, a.sender.outlet
  {
    Clean(a.sender.outlet.calls) || a.sender.outlet.Brief()
  }

  /** The reader `b` has read only what was written: it is a session of an endpoint,
      or no read call miscounted. */
  ghost predicate Careful(b: Session)
    reads b.sender, b.inlet
  {
    b.sender.outlet.guarded || Clean(b.inlet.calls)
  }

  /** Everything accepted by `a` is flushed, and all of it is read by `b`. */
  ghost predicate Drained(a: Session, b: Session)
    reads a.sender, a.sender.outlet, b.sender, b.sender.outlet, b.inlet, b.inlet.link
  {
    && a.sender.outlet.open && !a.sender.outlet.pending && Clean(a.sender.outlet.calls)
    && b.sender.outlet.open && !b.sender.outlet.disconnected
    && b.inlet.link.taken == |b.inlet.link.bytes|
  }

  /** The two ends of a link as a first-in first-out channel. */
  ghost predicate Fifo(a: Session, b: Session)
    requires AllFit(a.sender.accepted) && AllFit(b.inlet.delivered)
    reads a.sender, a.sender.outlet, b.sender, b.sender.outlet, b.inlet, b.inlet.link, a.sender.outlet.link
  {
    var wire := a.sender.outlet.link.bytes;
    && (Sound(a) ==> wire <= Frames(a.sender.accepted))
    && (Careful(b) ==> Frames(b.inlet.delivered) <= wire)
    && (Sound(a) && Careful(b) ==> b.inlet.delivered <= a.sender.accepted)
    && (Careful(b) && Drained(a, b) ==> b.inlet.delivered == a.sender.accepted)
  }

  /** Wire bytes are a prefix of the accepted frames, delivered messages are the first
      accepted ones, and once everything is flushed and read they are all of them. */
  lemma Channel(a: Session, b: Session)
    requires a.sender.outlet.link == b.inlet.link && a.Valid() && b.Valid()
    ensures Fifo(a, b)
  {
    hide Frames, Uncounted;
    var wire, accepted, delivered := a.sender.outlet.link.bytes, a.sender.accepted, b.inlet.delivered;
    WireRightIff(a.sender.outlet);
    ReadRightIff(b.inlet);
    assert wire[..b.inlet.link.taken] <= wire;
    if Careful(b) {
      assert Frames(delivered) <= wire[..b.inlet.link.taken];
      if Sound(a) { ReadInOneWay(delivered, accepted); }
      if Drained(a, b) { AllRead(a, b); }
    }
  }

  lemma AllRead(a: Session, b: Session)
    requires a.sender.outlet.link == b.inlet.link && a.Valid() && b.Valid() && Careful(b) && Drained(a, b)
    ensures b.inlet.delivered == a.sender.accepted
  {
    hide Frames, Uncounted;
    var wire := a.sender.outlet.link.bytes;
    WireRightIff(a.sender.outlet);
    CleanIff(b.inlet.calls);
    assert wire + [] == wire && wire[..|wire|] == wire;
    DrainedIsComplete(b.inlet.delivered, b.inlet.Partly(), a.sender.accepted);
  }

  /** A call, with what poll and malloc say. */
  datatype Op = SendOp(msg: Body, mem: bool) | RecvOp(polled: bool, mem: bool) | HasMsgOp(polled: bool) | CanSendOp(polled: bool) | StopOp

  ghost predicate Connected(a: Session, b: Session)
    reads a.inlet, b.inlet
  {
    && a.sender.outlet.link == b.inlet.link && b.sender.outlet.link == a.inlet.link
    && a.sender != b.sender && a.sender.outlet != b.sender.outlet && a.inlet != b.inlet
    && a.inlet.inhdr != b.inlet.inhdr && a.inlet.inhdr != b.inlet.inbody
    && a.inlet.inbody != b.inlet.inhdr && a.inlet.inbody != b.inlet.inbody
  }

  /** Bytes that arrive behind a parser's back do not disturb it. */
  twostate lemma Arrivals(b: Inlet)
    requires old(b.Valid()) && unchanged(b) && unchanged(b.inhdr) && unchanged(b.inbody)
    requires b.link.taken == old(b.link.taken) && old(b.link.bytes) <= b.link.bytes
    ensures b.Valid() && b.Partly() == old(b.Partly())
  {
    assert b.link.bytes[..b.link.taken] == old(b.link.bytes)[..b.link.taken];
    assert b.inhdr[..] == old(b.inhdr[..]) && b.inbody[..] == old(b.inbody[..]);
  }

  /** A call on one end leaves the other end valid. */
  method Perform(a: Session, b: Session, op: Op)
    requires a.Valid() && b.Valid() && Connected(a, b)
    modifies a.sender, a.sender.outlet, a.inlet, a.sender.outlet.link`bytes, a.sender.outlet.link`plan, a.sender.outlet.link`polls
    modifies a.inlet.link`taken, a.inlet.link`refusals, a.inlet.inhdr, a.inlet.inbody
    ensures a.Valid() && b.Valid() && Connected(a, b)
    ensures a.inlet.inbody == old(a.inlet.inbody) || fresh(a.inlet.inbody)
    ensures old(a.sender.accepted) <= a.sender.accepted
  {
    hide Frames, Uncounted, Outlet.Valid, Outlet.Settled, Partial, AllFit, Inlet.Excused, SendOf, FlushOf, ReportOf, Framed;
    match op {
      case SendOp(m, mem) => var _ := a.sender.Send(m, mem);
      case RecvOp(polled, mem) => var _, _ := a.Recv(polled, mem);
      case HasMsgOp(polled) => var _ := a.HasMsg(polled);
      case CanSendOp(polled) => var _ := a.CanSend(polled);
      case StopOp => a.Stop();
    }
    Arrivals(b.inlet);
  }

  /** Any schedule of calls on the two ends of a connection, with the kernel
      splitting, refusing and failing as it likes, keeps both directions
      first-in first-out.  `true` names the first end. */
  method Exchange(a: Session, b: Session, ops: seq<(bool, Op)>)
    requires a.Valid() && b.Valid() && Connected(a, b)
    modifies a.sender, b.sender, a.sender.outlet, a.inlet, b.sender.outlet, b.inlet
    modifies a.sender.outlet.link, b.sender.outlet.link
    modifies a.inlet.inhdr, a.inlet.inbody, b.inlet.inhdr, b.inlet.inbody
    ensures a.Valid() && b.Valid() && Connected(a, b)
    ensures Fifo(a, b) && Fifo(b, a)
  {
    hide Session.Valid, Fifo;
    for i := 0 to |ops|
      invariant a.Valid() && b.Valid() && Connected(a, b)
      invariant a.inlet.inbody == old(a.inlet.inbody) || fresh(a.inlet.inbody)
      invariant b.inlet.inbody == old(b.inlet.inbody) || fresh(b.inlet.inbody)
    {
      if ops[i].0 { Perform(a, b, ops[i].1); } else { Perform(b, a, ops[i].1); }
    }
    Channel(a, b);
    Channel(b, a);
  }

  /** With a lingering close any message can be sent half twice: its frame follows its
      own first byte, and the peer takes a short message for an empty one. */
  lemma RepeatsFrame(m: Body, linger: int) returns (o: Out)
    requires linger > 0 && |m| <= MAX_INT - HDR_SIZE
    ensures Fits(m) && o == TransmitOf(Created([Moved(1), Broken, Moved(|Frame(m)|)], 1), Frame(m), linger)
    ensures o.wire == Frame(m)[..1] + Frame(m) && !(o.wire <= Frame(m))
    ensures 0 < |m| < 256 ==> Frame([]) <= o.wire && o.wire[..HDR_SIZE] != Frame(m)[..HDR_SIZE]
  {
    hide TransmitOf, FlushOf;
    o := LingerRepeats(Frame(m), linger);
    if |m| < 256 {
      assert Frame(m)[..4] == Put32(|m|) == [0, 0, 0, |m|];
      assert Frame([]) == [0, 0, 0, 0];
      assert o.wire[..4] == [0, 0, 0, 0];
    }
  }
}
