/** The output buffer that src/transport/ipc/sipc.c and src/transport/ws/sws.c
    share in form: one accepted frame at a time, written by resumable flushes. */
module OutBuf {
  import opened Common
  import opened Wire
  import opened Stream

  datatype Rc = Ok | Again | Reset | MsgSize | NoMem | Proto | Failed

  /** Not an error: the caller goes on, or tries again later. */
  predicate Soft(rc: Rc) { rc == Ok || rc == Again }

  const EAGAIN: int := 11
  const EPIPE: int := 32  // stands for every error but EAGAIN

  /** The conversion of a size_t to int in C on the platforms in use. */
  function ToInt(n: nat): (r: int)
    ensures r <= n && -0x8000_0000 <= r <= MAX_INT
    ensures r == n <==> n <= MAX_INT
  {
    var low: int := n % (MAX_UINT32 + 1);
    if low > MAX_INT then low - MAX_UINT32 - 1 else low
  }

  /** It is the number in the range of an int that differs by a multiple of 2^32. */
  lemma WrapsAround(n: nat)
    ensures (n - ToInt(n)) % (MAX_UINT32 + 1) == 0
  {
    var m := MAX_UINT32 + 1;
    assert n == n / m * m + n % m;
    if n % m > MAX_INT { assert n - ToInt(n) == (n / m + 1) * m; }
  }

  // ---------- One call of mb_sipc_send_fd or mb_sws_send_raw ----------

  /** What one call returned, how much it moved, whether an error ended it, and
      what is left of the kernel's answers. */
  datatype Written = Written(ret: int, moved: nat, broke: bool, plan: seq<Io>)

  function WriteAll(plan: seq<Io>, len: nat, done: nat): (w: Written)
    requires done <= len
    ensures done <= w.moved <= len && |w.plan| <= |plan|
    ensures done < len ==> |w.plan| < |plan| || (plan == [] && w.ret == (if done > 0 then ToInt(done) else -EAGAIN) && w.moved == done)
    ensures w.ret == if w.broke then -EPIPE else if w.moved == 0 < len then -EAGAIN else ToInt(w.moved)
    decreases len - done
  {
    if done == len then Written(ToInt(done), done, false, plan)
    else
      match Answer(plan, len - done)
      case Moved(k) => WriteAll(Later(plan), len, done + k)
      case WouldBlock => Written(if done > 0 then ToInt(done) else -EAGAIN, done, false, Later(plan))
      case _ => Written(-EPIPE, done, true, Later(plan))
  }

  /** The bytes that the caller takes for written. */
  function Credited(w: Written): (n: nat)
    ensures w.ret <= w.moved ==> n <= w.moved
  {
    if w.ret < 0 then 0 else w.ret
  }

  /** mb_sipc_send_fd and mb_sws_send_raw. */
  method SendFd(link: Link, data: seq<byte>) returns (ret: int, ghost w: Written)
    modifies link`bytes, link`plan
    ensures w == WriteAll(old(link.plan), |data|, 0) && ret == w.ret && link.plan == w.plan
    ensures link.bytes == old(link.bytes) + data[..w.moved]
  {
    hide WriteAll, ToInt, Answer;
    var sent := 0;
    w := WriteAll(link.plan, |data|, 0);
    while sent < |data|
      invariant sent <= |data| && link.bytes == old(link.bytes) + data[..sent]
      invariant w == WriteAll(link.plan, |data|, sent)
    {
      WriteStep(link.plan, |data|, sent);
      var r := link.Send(data[sent..]);
      match r {
        case Moved(n) =>
          assert data[..sent] + data[sent..][..n] == data[..sent + n];
          sent := sent + n;
        case WouldBlock =>
          return (if sent > 0 then ToInt(sent) else -EAGAIN), w;
        case _ =>
          return -EPIPE, w;
      }
    }
    WriteStep(link.plan, |data|, sent);
    return ToInt(sent), w;
  }

  /** One turn of the write loop. */
  lemma WriteStep(plan: seq<Io>, len: nat, done: nat)
    requires done <= len
    ensures WriteAll(plan, len, done) ==
      if done == len then Written(ToInt(done), done, false, plan)
      else
        match Answer(plan, len - done)
        case Moved(k) => WriteAll(Later(plan), len, done + k)
        case WouldBlock => Written(if done > 0 then ToInt(done) else -EAGAIN, done, false, Later(plan))
        case _ => Written(-EPIPE, done, true, Later(plan))
  {
  }

  // ---------- Calls that lose count ----------

  /** A call by its effect: how much it moved and whether an error ended it. */
  datatype Call = Call(moved: nat, broke: bool)

  /** The call moved bytes that its result does not tell of: it failed after it had
      moved some, or it moved more than an int can count. */
  predicate Miscounts(c: Call) {
    (c.broke && c.moved > 0) || c.moved > MAX_INT
  }

  function Counted(c: Call): (n: nat)
    ensures n <= c.moved && (n == c.moved <==> !Miscounts(c))
  {
    if c.broke || ToInt(c.moved) < 0 then 0 else ToInt(c.moved)
  }

  /** The caller takes off the rest what the result of the call tells. */
  lemma CreditedIsCounted(plan: seq<Io>, len: nat)
    ensures var w := WriteAll(plan, len, 0);
      Credited(w) == Counted(Call(w.moved, w.broke)) && (!w.broke && w.moved <= MAX_INT ==> Credited(w) == w.moved)
  {
    hide WriteAll;
  }

  /** All the bytes moved but not counted. */
  function Uncounted(calls: seq<Call>): nat {
    if calls == [] then 0
    else
      var c := calls[|calls| - 1];
      Uncounted(calls[..|calls| - 1]) + (c.moved - Counted(c))
  }

  ghost predicate Clean(calls: seq<Call>) {
    forall i :: 0 <= i < |calls| ==> !Miscounts(calls[i])
  }

  lemma {:induction false} CleanIff(calls: seq<Call>)
    ensures Uncounted(calls) == 0 <==> Clean(calls)
  {
    if calls != [] {
      var n := |calls| - 1;
      CleanIff(calls[..n]);
      assert Clean(calls) <==> Clean(calls[..n]) && !Miscounts(calls[n]);
    }
  }

  lemma UncountedMore(calls: seq<Call>, c: Call)
    ensures Uncounted(calls + [c]) == Uncounted(calls) + (c.moved - Counted(c))
  {
    assert (calls + [c])[..|calls|] == calls;
  }

  // ---------- The session as a function of the kernel's answers ----------

  /** The fields of a session, its wire, and the answers still to come. */
  datatype Out = Out(
    open: bool, disconnected: bool, onError: bool,
    pending: bool, outbuf: seq<byte>, outpos: nat, inFlight: nat,
    wire: seq<byte>, plan: seq<Io>, polls: nat)

  predicate Fine(o: Out) {
    o.pending ==> o.outpos <= |o.outbuf|
  }

  function Life(o: Out): nat {
    if o.disconnected then 0 else 1
  }

  datatype Flushed = Flushed(o: Out, rc: Rc)

  /** The outbuf is written out: free it. */
  function Emptied(o: Out): Out {
    o.(pending := false, outbuf := [], outpos := 0, inFlight := if o.inFlight > 0 then o.inFlight - 1 else 0)
  }

  /** The effect of one write call on the session. */
  function Wrote(o: Out, w: Written): (o': Out)
    requires Fine(o) && o.pending && w.moved <= |o.outbuf| - o.outpos && w.ret <= w.moved
    ensures Fine(o')
  {
    o.(wire := o.wire + o.outbuf[o.outpos..][..w.moved], plan := w.plan, outpos := o.outpos + Credited(w))
  }

  /** mb_sipc_flush_outbuf */
  function FlushOf(o: Out, linger: int): (r: Flushed)
    requires Fine(o)
    ensures Fine(r.o) && r.o.polls <= o.polls && Life(r.o) <= Life(o) && |r.o.plan| <= |o.plan|
    decreases Life(o), o.polls, |o.plan|, 2
  {
    if !o.pending then Flushed(o, Ok)
    else if !o.open then Flushed(o, Reset)
    else LoopOf(o, linger)
  }

  function LoopOf(o: Out, linger: int): (r: Flushed)
    requires Fine(o) && o.pending
    ensures Fine(r.o) && r.o.polls <= o.polls && Life(r.o) <= Life(o) && |r.o.plan| <= |o.plan|
    decreases Life(o), o.polls, |o.plan|, 1
  {
    if o.outpos == |o.outbuf| then Flushed(Emptied(o), Ok)
    else
      var w := WriteAll(o.plan, |o.outbuf| - o.outpos, 0);
      var o' := Wrote(o, w);
      if w.ret == -EAGAIN then Flushed(o', Again)
      else if w.ret < 0 then Flushed(ReportOf(o', linger), Failed)
      else LoopOf(o', linger)
  }

  /** mb_sipc_report_error with the callback of the endpoints, which stops the
      session. */
  function ReportOf(o: Out, linger: int): (r: Out)
    requires Fine(o)
    ensures Fine(r) && r.polls <= o.polls && Life(r) == 0 && |r.plan| <= |o.plan|
    decreases Life(o), o.polls, |o.plan|, 5
  {
    if o.disconnected then o
    else if o.onError then StopOf(o.(disconnected := true, onError := false), linger)
    else o.(disconnected := true)
  }

  /** mb_sipc_stop */
  function StopOf(o: Out, linger: int): (r: Out)
    requires Fine(o)
    ensures Fine(r) && r.polls <= o.polls && Life(r) <= Life(o) && |r.plan| <= |o.plan|
    ensures !r.open && !r.pending
    decreases Life(o), o.polls, |o.plan|, 4
  {
    var o' := if o.pending && o.open && linger > 0 then LingerOf(o, linger) else o;
    o'.(pending := false, outbuf := [], outpos := 0, open := false)
  }

  /** mb_sipc_linger_flush */
  function LingerOf(o: Out, linger: int): (r: Out)
    requires Fine(o)
    ensures Fine(r) && r.polls <= o.polls && Life(r) <= Life(o) && |r.plan| <= |o.plan|
    decreases Life(o), o.polls, |o.plan|, 3
  {
    if !o.pending || o.polls == 0 then o
    else
      var f := FlushOf(o.(polls := o.polls - 1), linger);
      if f.rc == Again then LingerOf(f.o, linger) else f.o
  }

  /** The sending half of struct mb_sipc and of struct mb_sws. */
  class Outlet {
    const link: Link
    const linger: int
    ghost const guarded: bool  // created with an error callback, as by every endpoint

    var open: bool          // fd >= 0
    var disconnected: bool
    var onError: bool       // the endpoint's callback, which stops the session
    var pending: bool       // outbuf != NULL
    var outbuf: seq<byte>
    var outpos: nat
    var inFlight: nat

    ghost var stream: seq<byte>   // every accepted frame, end to end
    ghost var dropped: seq<byte>  // what was pending when the session closed
    ghost var calls: seq<Call>    // every write call so far
    ghost var callbacks: nat      // how often the callback ran
    ghost var small: bool         // every accepted frame could be counted in an int

    ghost function View(): Out
      reads this, link
    {
      Out(open, disconnected, onError, pending, outbuf, outpos, inFlight, link.bytes, link.plan, link.polls)
    }

    /** The accepted bytes that the session takes for unwritten. */
    ghost function Rest(): seq<byte>
      requires pending ==> outpos <= |outbuf|
      reads this
    {
      if !open then dropped else if pending then outbuf[outpos..] else []
    }

    /** in_flight is 1 if and only if an outbuf is pending on a live session, the
        callback ran once at most, and the wire and the rest are longer than the
        accepted stream by exactly the bytes that were not counted. */
    ghost predicate Valid()
      reads this, link`bytes
    {
      && (pending ==> outpos <= |outbuf|)
      && (open ==> inFlight == if pending then 1 else 0)
      && (callbacks == if guarded && !onError then 1 else 0) && (onError ==> guarded)
      && (small && pending ==> |outbuf| <= MAX_INT)
      && |link.bytes| + |Rest()| == |stream| + Uncounted(calls)
      && (Uncounted(calls) == 0 ==> link.bytes + Rest() == stream)
    }

    /** Without lingering, a session of an endpoint that accepted no frame too long
        to count never writes behind a miscount. */
    ghost predicate Brief()
      reads this`small
    {
      guarded && linger <= 0 && small
    }

    /** A guarded session is closed as soon as an error is seen. */
    ghost predicate Alive()
      reads this`open, this`onError, this`disconnected
    {
      guarded && open ==> onError && !disconnected
    }

    /** A brief session has only ever written a prefix of the accepted stream. */
    ghost predicate Calm()
      reads this, link`bytes
    {
      Brief() ==> Alive() && link.bytes <= stream && (open ==> Uncounted(calls) == 0)
    }

    /** What holds between calls from outside. */
    ghost predicate Settled()
      reads this, link`bytes
    {
      Alive() && Calm()
    }

    constructor (link: Link, linger: int, onError: bool)
      requires link.bytes == []
      ensures Valid() && Settled() && open && !pending && !disconnected && stream == [] && calls == [] && small
      ensures this.link == link && this.linger == linger && this.onError == onError == guarded
      ensures View() == Created(link.plan, link.polls).(onError := onError)
    {
      this.link, this.linger, this.onError, guarded := link, linger, onError, onError;
      open, disconnected, pending, outbuf, outpos, inFlight := true, false, false, [], 0, 0;
      stream, dropped, calls, callbacks, small := [], [], [], 0, true;
    }

    /** mb_sipc_report_error: mark the session dead and run the callback once. */
    method ReportError()
      requires Valid() && (Brief() ==> Alive() && link.bytes <= stream)
      modifies this, link`bytes, link`plan, link`polls
      ensures Valid() && Calm() && (old(Alive()) ==> Alive()) && View() == ReportOf(old(View()), linger)
      ensures disconnected && stream == old(stream) && old(calls) <= calls && small == old(small) && (open ==> old(open))
      ensures callbacks <= 1 && old(link.bytes) <= link.bytes && (guarded && old(Alive()) ==> !open)
      decreases Life(View()), link.polls, |link.plan|, 5
    {
      hide WriteAll, Uncounted, LoopOf, StopOf, LingerOf, FlushOf;
      if disconnected { return; }
      disconnected := true;
      if onError {
        onError, callbacks := false, callbacks + 1;
        Stop();
      }
    }

    /** One call of mb_sipc_send_fd by the flush loop. */
    method FlushOnce() returns (ret: int, ghost w: Written)
      requires Valid() && open && pending && outpos < |outbuf|
      modifies this`outpos, this`calls, link`bytes, link`plan
      ensures w == WriteAll(old(link.plan), |outbuf| - old(outpos), 0) && ret == w.ret
      ensures Valid() && View() == Wrote(old(View()), w) && old(link.bytes) <= link.bytes
      ensures calls == old(calls) + [Call(w.moved, w.broke)]
      ensures small && !w.broke ==> Uncounted(calls) == old(Uncounted(calls))
      ensures old(Uncounted(calls)) == 0 ==> link.bytes <= stream
    {
      hide WriteAll, Miscounts, Uncounted, ToInt, Counted;
      ghost var before, rest, n := link.bytes, Rest(), Uncounted(calls);
      ret, w := SendFd(link, outbuf[outpos..]);
      ghost var c := Call(w.moved, w.broke);
      UncountedMore(calls, c);
      CreditedIsCounted(old(link.plan), |outbuf| - outpos);
      calls := calls + [c];
      if ret >= 0 { outpos := outpos + ret; }
      OneWrite(before, rest, w.moved, Credited(w), stream, n);
      assert Rest() == rest[Credited(w)..];
    }

    /** mb_sipc_flush_outbuf: write as much of outbuf as the kernel takes. */
    method Flush() returns (rc: Rc)
      requires Valid() && Calm()
      modifies this, link`bytes, link`plan, link`polls
      ensures Valid() && Calm() && (old(Alive()) ==> Alive()) && Flushed(View(), rc) == FlushOf(old(View()), linger)
      ensures stream == old(stream) && old(calls) <= calls && small == old(small) && old(link.bytes) <= link.bytes
      ensures (old(disconnected) ==> disconnected) && (open ==> old(open))
      ensures Soft(rc) || rc == Reset || rc == Failed
      ensures rc == Ok ==> !pending
      ensures rc == Again ==> pending
      ensures Soft(rc) ==> open == old(open) && disconnected == old(disconnected)
      ensures Soft(rc) && small ==> Uncounted(calls) == old(Uncounted(calls))
      ensures rc == Failed ==> disconnected && (guarded && old(Alive()) ==> !open)
      ensures rc == Reset ==> !open
      decreases Life(View()), link.polls, |link.plan|, 2
    {
      hide WriteAll, Uncounted, LoopOf, ReportOf, StopOf, LingerOf;
      if !pending { return Ok; }
      if !open { return Reset; }
      rc := WriteOut();
      if rc == Failed { ReportError(); }
    }

    /** The loop of mb_sipc_flush_outbuf, up to the report of an error. */
    method WriteOut() returns (rc: Rc)
      requires Valid() && Calm() && open && pending
      modifies this`outpos, this`calls, this`pending, this`outbuf, this`inFlight, link`bytes, link`plan
      ensures Valid() && old(calls) <= calls && old(link.bytes) <= link.bytes && |link.plan| <= |old(link.plan)|
      ensures Brief() ==> link.bytes <= stream
      ensures LoopOf(old(View()), linger) == Flushed(if rc == Failed then ReportOf(View(), linger) else View(), rc)
      ensures (Soft(rc) || rc == Failed) && (rc == Failed ==> |link.plan| < |old(link.plan)|)
      ensures rc == Ok ==> !pending
      ensures rc == Again ==> pending
      ensures Soft(rc) && small ==> Uncounted(calls) == old(Uncounted(calls))
    {
      hide WriteAll, Uncounted, LoopOf, ReportOf, StopOf, LingerOf;
      rc := Ok;
      while rc == Ok && outpos < |outbuf|
        invariant Valid() && pending && old(calls) <= calls && old(link.bytes) <= link.bytes
        invariant (Soft(rc) || rc == Failed) && (rc == Failed ==> |link.plan| < |old(link.plan)|)
        invariant Brief() ==> link.bytes <= stream
        invariant Soft(rc) && small ==> Uncounted(calls) == old(Uncounted(calls))
        invariant |link.plan| <= |old(link.plan)| && LoopOf(old(View()), linger) == Outcome(rc)
        decreases rc == Ok, |link.plan|
      {
        rc := Turn();
      }
      if rc == Ok { Release(); }
    }

    /** The outbuf is written out. */
    method Release()
      requires Valid() && open && pending && outpos == |outbuf|
      modifies this`pending, this`outbuf, this`outpos, this`inFlight
      ensures Valid() && !pending && Flushed(View(), Ok) == old(LoopOf(View(), linger))
    {
      hide WriteAll, Uncounted, ReportOf, StopOf, LingerOf;
      LoopStep(View(), linger);
      pending, outbuf, outpos := false, [], 0;
      if inFlight > 0 { inFlight := inFlight - 1; }
    }

    /** What the flush comes to after a turn that gave `rc`. */
    ghost function Outcome(rc: Rc): Flushed
      requires Valid() && pending
      reads this, link
    {
      if rc == Ok then LoopOf(View(), linger)
      else if rc == Failed then Flushed(ReportOf(View(), linger), Failed)
      else Flushed(View(), rc)
    }

    method Turn() returns (rc: Rc)
      requires Valid() && open && pending && outpos < |outbuf| && (Brief() ==> link.bytes <= stream && Uncounted(calls) == 0)
      modifies this`outpos, this`calls, link`bytes, link`plan
      ensures Valid() && old(calls) <= calls && old(link.bytes) <= link.bytes && |link.plan| <= |old(link.plan)|
      ensures Brief() ==> link.bytes <= stream
      ensures (Soft(rc) || rc == Failed) && (rc != Again ==> |link.plan| < |old(link.plan)|)
      ensures Soft(rc) && small ==> Uncounted(calls) == old(Uncounted(calls))
      ensures Outcome(rc) == old(Outcome(Ok))
    {
      hide WriteAll, Uncounted, LoopOf, ReportOf, StopOf, LingerOf;
      LoopStep(View(), linger);
      var ret: int;
      ghost var w: Written;
      ret, w := FlushOnce();
      rc := if ret == -EAGAIN then Again else if ret < 0 then Failed else Ok;
    }

    /** mb_sipc_linger_flush: as often as poll reports room in time. */
    method Linger()
      requires Valid() && linger > 0
      modifies this, link`bytes, link`plan, link`polls
      ensures Valid() && View() == LingerOf(old(View()), linger)
      ensures stream == old(stream) && old(calls) <= calls && small == old(small)
      ensures (old(disconnected) ==> disconnected) && old(link.bytes) <= link.bytes
      decreases Life(View()), link.polls, |link.plan|, 3
    {
      hide WriteAll, Uncounted, LoopOf, ReportOf, StopOf, FlushOf;
      var rc := Again;
      while rc == Again && pending && link.polls > 0
        invariant Valid() && stream == old(stream) && old(calls) <= calls && small == old(small)
        invariant (old(disconnected) ==> disconnected) && old(link.bytes) <= link.bytes && link.polls <= old(link.polls)
        invariant LingerOf(old(View()), linger) == if rc == Again then LingerOf(View(), linger) else View()
        decreases link.polls
      {
        link.polls := link.polls - 1;
        rc := Flush();
      }
    }

    /** mb_sipc_stop: linger until the deadline, drop what is left, close. */
    method Stop()
      requires Valid() && (Brief() ==> link.bytes <= stream)
      modifies this, link`bytes, link`plan, link`polls
      ensures Valid() && Settled() && View() == StopOf(old(View()), linger)
      ensures !open && !pending && stream == old(stream) && old(calls) <= calls && small == old(small)
      ensures (old(disconnected) ==> disconnected) && old(link.bytes) <= link.bytes
      decreases Life(View()), link.polls, |link.plan|, 4
    {
      hide WriteAll, Uncounted, LoopOf, ReportOf, FlushOf, LingerOf;
      if pending && open && linger > 0 { Linger(); }
      dropped := Rest();
      pending, outbuf, outpos := false, [], 0;
      open := false;
    }

    /** Keep a built frame for the flush.  Nothing was in flight before, so the
        high-water mark test of the callers never refuses here. */
    method Accept(frame: seq<byte>)
      requires Valid() && Settled() && open && !pending
      modifies this`pending, this`outbuf, this`outpos, this`inFlight, this`stream, this`small
      ensures Valid() && Settled() && View() == AcceptOf(old(View()), frame) && stream == old(stream) + frame
      ensures small == (old(small) && |frame| <= MAX_INT)
      ensures old(inFlight) == 0 && inFlight == 1
    {
      assert link.bytes + [] == link.bytes;
      outbuf, pending, outpos, inFlight := frame, true, 0, inFlight + 1;
      stream, small := stream + frame, small && |frame| <= MAX_INT;
    }

    /** Accept a frame and flush; a flush that would block is no failure, since
        the frame has been taken. */
    method Transmit(frame: seq<byte>) returns (rc: Rc)
      requires Valid() && Settled() && open && !pending
      modifies this, link`bytes, link`plan, link`polls
      ensures Valid() && Settled() && View() == TransmitOf(old(View()), frame, linger)
      ensures rc == TakenRc(FlushOf(AcceptOf(old(View()), frame), linger).rc)
      ensures stream == old(stream) + frame && old(calls) <= calls && old(link.bytes) <= link.bytes
      ensures small == (old(small) && |frame| <= MAX_INT)
      ensures rc == Ok || rc == Reset || rc == Failed
      ensures rc == Ok ==> open && disconnected == old(disconnected)
      ensures rc == Ok && small ==> Uncounted(calls) == old(Uncounted(calls))
      ensures rc == Failed ==> disconnected && (guarded ==> !open)
      ensures old(disconnected) ==> disconnected
    {
      hide Uncounted, FlushOf;
      Accept(frame);
      rc := Flush();
      if rc == Again { rc := Ok; }
    }
  }

  function AcceptOf(o: Out, frame: seq<byte>): Out {
    o.(outbuf := frame, pending := true, outpos := 0, inFlight := o.inFlight + 1)
  }

  /** A frame that was accepted counts as sent even if it cannot be flushed yet. */
  function TakenRc(rc: Rc): Rc {
    if rc == Again then Ok else rc
  }

  /** Accepting a frame and flushing it. */
  function TransmitOf(o: Out, frame: seq<byte>, linger: int): Out {
    FlushOf(AcceptOf(o, frame), linger).o
  }

  datatype Sent = Sent(o: Out, rc: Rc, taken: bool)

  /** mb_sipc_send and mb_sws_send: `frame` is the message's frame, unless it is too
      large for one, and `mem` is whether malloc grants the outbuf. */
  function SendOf(o: Out, frame: Option<seq<byte>>, mem: bool, linger: int): (r: Sent)
    requires Fine(o)
    ensures Fine(r.o)
  {
    if !o.open then Sent(ReportOf(o, linger), Reset, false)
    else
      var f := FlushOf(o, linger);
      if f.rc != Ok then Sent(f.o, f.rc, false)
      else if frame == None then Sent(f.o, MsgSize, false)
      else if !mem then Sent(f.o, NoMem, false)
      else Sent(TransmitOf(f.o, frame.value, linger), TakenRc(FlushOf(AcceptOf(f.o, frame.value), linger).rc), true)
  }

  lemma FlushRc(o: Out, linger: int)
    requires Fine(o)
    ensures var f := FlushOf(o, linger);
      (Soft(f.rc) || f.rc == Reset || f.rc == Failed) && (f.rc == Again ==> o.pending) && (o.open ==> f.rc != Reset)
  {
    hide LoopOf, ReportOf, StopOf;
    if o.pending && o.open { LoopRc(o, linger); }
  }

  lemma {:induction false} LoopRc(o: Out, linger: int)
    requires Fine(o) && o.pending
    ensures Soft(LoopOf(o, linger).rc) || LoopOf(o, linger).rc == Failed
    decreases |o.plan|
  {
    hide ReportOf, WriteAll;
    if o.outpos < |o.outbuf| {
      var w := WriteAll(o.plan, |o.outbuf| - o.outpos, 0);
      if w.ret >= 0 { LoopRc(Wrote(o, w), linger); }
    }
  }

  /** Each answer of a send says what happened.  It would block if and only if an
      earlier frame is pending that the kernel does not take now; a message is refused
      for its size or for lack of memory if and only if that is so on an open session
      whose flush succeeds; in all other cases such a session takes it. */
  lemma SendOutcome(o: Out, frame: Option<seq<byte>>, mem: bool, linger: int)
    requires Fine(o)
    ensures var f, s := FlushOf(o, linger), SendOf(o, frame, mem, linger);
      && (s.rc == Again <==> o.open && o.pending && f.rc == Again)
      && (s.rc == MsgSize <==> o.open && f.rc == Ok && frame == None)
      && (s.rc == NoMem <==> o.open && f.rc == Ok && frame != None && !mem)
      && (s.taken <==> o.open && f.rc == Ok && frame != None && mem)
      && (s.rc == Ok ==> s.taken)
      && (s.taken ==> s.o == TransmitOf(f.o, frame.value, linger) && s.rc != Again)
      && (!s.taken && o.open ==> s.o == f.o)
  {
    hide FlushOf, ReportOf;
    FlushRc(o, linger);
    var f := FlushOf(o, linger);
    if frame != None { FlushRc(AcceptOf(f.o, frame.value), linger); }
  }

  /** What is left of the kernel's answers if it takes `n` bytes without refusing. */
  function Taking(plan: seq<Io>, n: nat): Option<seq<Io>> {
    if n == 0 then Some(plan)
    else
      match Answer(plan, n)
      case Moved(k) => Taking(Later(plan), n - k)
      case _ => None
  }

  lemma {:induction false} WriteTaking(plan: seq<Io>, len: nat, done: nat)
    requires done <= len <= MAX_INT && Taking(plan, len - done).Some?
    ensures WriteAll(plan, len, done) == Written(len, len, false, Taking(plan, len - done).value)
    decreases len - done
  {
    if done < len { WriteTaking(Later(plan), len, done + Answer(plan, len - done).n); }
  }

  /** A flush that the kernel takes whole: everything pending is on the wire. */
  lemma FlushTaking(o: Out, linger: int)
    requires Fine(o) && o.open && o.pending && |o.outbuf| <= MAX_INT && Taking(o.plan, |o.outbuf| - o.outpos).Some?
    ensures var f := FlushOf(o, linger);
      && f.rc == Ok && !f.o.pending && f.o.open && f.o.wire == o.wire + o.outbuf[o.outpos..]
      && f.o.plan == Taking(o.plan, |o.outbuf| - o.outpos).value && f.o.disconnected == o.disconnected
  {
    hide WriteAll, ReportOf, LoopOf;
    LoopStep(o, linger);
    if o.outpos < |o.outbuf| {
      WriteTaking(o.plan, |o.outbuf| - o.outpos, 0);
      var w := WriteAll(o.plan, |o.outbuf| - o.outpos, 0);
      LoopStep(Wrote(o, w), linger);
      assert o.outbuf[o.outpos..][..w.moved] == o.outbuf[o.outpos..];
    } else {
      assert o.wire + o.outbuf[o.outpos..] == o.wire;
    }
  }

  /** On an open session with nothing pending, a message within the limits that malloc
      has room for is taken whatever the kernel does; and if the kernel takes its bytes,
      all of them are on the wire, the send succeeds, and nothing stays behind. */
  lemma FreshSend(o: Out, f: seq<byte>, linger: int)
    requires Fine(o) && o.open && !o.pending && |f| <= MAX_INT
    ensures var s := SendOf(o, Some(f), true, linger);
      && s.taken
      && (Taking(o.plan, |f|).Some? ==>
          s.rc == Ok && s.o.wire == o.wire + f && !s.o.pending && s.o.open && s.o.plan == Taking(o.plan, |f|).value)
  {
    hide FlushOf, ReportOf;
    assert FlushOf(o, linger) == Flushed(o, Ok) by { NothingPending(o, linger); }
    assert f[0..] == f;
    if Taking(o.plan, |f|).Some? { FlushTaking(AcceptOf(o, f), linger); }
  }

  lemma NothingPending(o: Out, linger: int)
    requires Fine(o) && !o.pending
    ensures FlushOf(o, linger) == Flushed(o, Ok)
  {
    hide LoopOf;
  }

  /** On any session, open or closed, what is on the wire and what the session takes
      for unwritten are together the accepted stream if and only if no write call
      failed after moving bytes or moved more than an int counts. */
  lemma WireRightIff(a: Outlet)
    requires a.Valid()
    ensures a.link.bytes + a.Rest() == a.stream <==> Clean(a.calls)
    ensures Clean(a.calls) ==> a.link.bytes <= a.stream
  {
    CleanIff(a.calls);
    if a.link.bytes + a.Rest() == a.stream {
      assert |a.link.bytes| + |a.Rest()| == |a.stream|;
    }
  }

  /** A session as an endpoint creates it. */
  function Created(plan: seq<Io>, polls: nat): Out {
    Out(true, false, true, false, [], 0, 0, [], plan, polls)
  }

  /** With a lingering close the wire can go wrong on the sessions that endpoints
      create, with any frame `f`: the kernel takes one byte of it and then fails, the
      error callback stops the session, and the linger flush starts again from the
      first byte. */
  lemma LingerRepeats(f: seq<byte>, linger: int) returns (o: Out)
    requires linger > 0 && 2 <= |f| <= MAX_INT
    ensures o == TransmitOf(Created([Moved(1), Broken, Moved(|f|)], 1), f, linger)
    ensures o.wire == f[..1] + f && !(o.wire <= f) && !o.open && o.disconnected
  {
    hide WriteAll;
    var p0: seq<Io> := [Moved(1), Broken, Moved(|f|)];
    TornWrite(|f|);
    var o0 := AcceptOf(Created(p0, 1), f);
    var o1 := o0.(wire := f[..1], plan := [Moved(|f|)]);
    assert Wrote(o0, Written(-EPIPE, 1, true, [Moved(|f|)])) == o1 by { assert f[0..][..1] == f[..1]; }
    LoopStep(o0, linger);
    SecondTry(o1.(disconnected := true, onError := false), f, linger);
    o := TransmitOf(Created(p0, 1), f, linger);
  }

  lemma TornWrite(n: nat)
    requires n >= 2
    ensures WriteAll([Moved(1), Broken, Moved(n)], n, 0) == Written(-EPIPE, 1, true, [Moved(n)])
  {
    var p: seq<Io> := [Moved(1), Broken, Moved(n)];
    assert Later(p) == [Broken, Moved(n)] && Later(Later(p)) == [Moved(n)];
    assert WriteAll(Later(p), n, 1) == Written(-EPIPE, 1, true, [Moved(n)]);
  }

  lemma WholeWrite(n: nat)
    requires 1 <= n <= MAX_INT
    ensures WriteAll([Moved(n)], n, 0) == Written(n, n, false, [])
  {
    assert Later([Moved(n)]) == [];
    assert WriteAll([], n, n) == Written(n, n, false, []);
  }

  /** The linger flush of the stopped session. */
  lemma SecondTry(o: Out, f: seq<byte>, linger: int)
    requires 2 <= |f| <= MAX_INT && linger > 0
    requires o == Out(true, true, false, true, f, 0, 1, f[..1], [Moved(|f|)], 1)
    ensures var r := StopOf(o, linger); r.wire == f[..1] + f && !r.open && r.disconnected
  {
    hide WriteAll;
    WholeWrite(|f|);
    var o' := o.(polls := 0);
    var o'' := o'.(wire := f[..1] + f, plan := [], outpos := |f|);
    assert f[0..][..|f|] == f;
    assert Wrote(o', Written(|f|, |f|, false, [])) == o'';
    LoopStep(o', linger);
    LoopStep(o'', linger);
    assert FlushOf(o', linger) == Flushed(Emptied(o''), Ok);
  }

  /** A frame too long for an int is reported as an error although the kernel took
      all of it. */
  lemma NegativeCount(len: nat)
    requires MAX_INT < len <= MAX_UINT32
    ensures WriteAll([Moved(len)], len, 0) == Written(len - MAX_UINT32 - 1, len, false, [])
    ensures WriteAll([Moved(len)], len, 0).ret < 0 && Miscounts(Call(len, false))
  {
    var p: seq<Io> := [Moved(len)];
    assert Later(p) == [];
    WriteStep(p, len, 0);
    WriteStep([], len, len);
  }

  // ---------- Whole lives of a session ----------

  datatype OutOp = SendOp(frame: seq<byte>) | FlushOp | StopOp

  /** A session and every frame it accepted, end to end. */
  datatype Lived = Lived(o: Out, stream: seq<byte>)

  /** A send flushes what is pending first and is refused unless that succeeds. */
  function OpOf(l: Lived, op: OutOp, linger: int): (r: Lived)
    requires Fine(l.o)
    ensures Fine(r.o)
  {
    match op
    case SendOp(f) =>
      var s := SendOf(l.o, Some(f), true, linger);
      Lived(s.o, if s.taken then l.stream + f else l.stream)
    case FlushOp => l.(o := FlushOf(l.o, linger).o)
    case StopOp => l.(o := StopOf(l.o, linger))
  }

  function LifeOf(l: Lived, ops: seq<OutOp>, linger: int): (r: Lived)
    requires Fine(l.o)
    ensures Fine(r.o)
  {
    if ops == [] then l
    else
      var n := |ops| - 1;
      OpOf(LifeOf(l, ops[..n], linger), ops[n], linger)
  }

  /** The class lives as the values do: any list of calls on a created session. */
  method Live(link: Link, linger: int, onError: bool, ops: seq<OutOp>) returns (a: Outlet)
    requires link.bytes == []
    modifies link`bytes, link`plan, link`polls
    ensures a.Valid() && a.link == link && fresh(a)
    ensures Lived(a.View(), a.stream) == LifeOf(Lived(Created(old(link.plan), old(link.polls)).(onError := onError), []), ops, linger)
  {
    hide OpOf, Outlet.Valid, Outlet.Settled;
    a := new Outlet(link, linger, onError);
    ghost var l := Lived(a.View(), a.stream);
    for i := 0 to |ops|
      invariant a.Valid() && a.Settled() && a.link == link && a.linger == linger && fresh(a)
      invariant Lived(a.View(), a.stream) == LifeOf(l, ops[..i], linger)
    {
      assert ops[..i + 1][..i] == ops[..i];
      Invoke(a, ops[i]);
    }
    assert ops[..|ops|] == ops;
  }

  /** One call from outside. */
  method Invoke(a: Outlet, op: OutOp)
    requires a.Valid() && a.Settled()
    modifies a, a.link`bytes, a.link`plan, a.link`polls
    ensures a.Valid() && a.Settled() && Fine(old(a.View()))
    ensures Lived(a.View(), a.stream) == OpOf(old(Lived(a.View(), a.stream)), op, a.linger)
  {
    hide Uncounted, FlushOf, ReportOf, StopOf, TransmitOf;
    match op {
      case SendOp(f) =>
        if !a.open {
          a.ReportError();
        } else {
          var rc := a.Flush();
          if rc == Ok { var _ := a.Transmit(f); }
        }
      case FlushOp => var _ := a.Flush();
      case StopOp => a.Stop();
    }
  }

  /** What is left of the kernel's answers if it takes all the frames. */
  function TakingEach(plan: seq<Io>, frames: seq<seq<byte>>): Option<seq<Io>> {
    if frames == [] then Some(plan)
    else
      var n := |frames| - 1;
      match TakingEach(plan, frames[..n])
      case None => None
      case Some(rest) => Taking(rest, |frames[n]|)
  }

  function Sends(frames: seq<seq<byte>>): seq<OutOp> {
    seq(|frames|, i requires 0 <= i < |frames| => SendOp(frames[i]))
  }

  function Concat(frames: seq<seq<byte>>): seq<byte> {
    if frames == [] then [] else Concat(frames[..|frames| - 1]) + frames[|frames| - 1]
  }

  /** Over a kernel that takes all the bytes, in pieces of any size, any row of sends on a
      new session puts the frames on the wire, in order and with nothing between. */
  lemma {:induction false} AllWritten(plan: seq<Io>, polls: nat, frames: seq<seq<byte>>, linger: int)
    requires (forall f :: f in frames ==> |f| <= MAX_INT) && TakingEach(plan, frames).Some?
    ensures var l := LifeOf(Lived(Created(plan, polls), []), Sends(frames), linger);
      && l.o.wire == l.stream == Concat(frames) && l.o.open && !l.o.pending
      && l.o.plan == TakingEach(plan, frames).value
  {
    hide FlushOf, SendOf, Taking;
    if frames != [] {
      var n := |frames| - 1;
      assert Sends(frames)[..n] == Sends(frames[..n]);
      AllWritten(plan, polls, frames[..n], linger);
      var l := LifeOf(Lived(Created(plan, polls), []), Sends(frames[..n]), linger);
      assert frames[n] in frames;
      FreshSend(l.o, frames[n], linger);
    }
  }

  /** And what is pending goes out by a flush that the kernel takes; a stop closes. */
  lemma FlushAndStop(l: Lived, linger: int)
    requires Fine(l.o)
    ensures !OpOf(l, StopOp, linger).o.open && !OpOf(l, StopOp, linger).o.pending
    ensures l.o.open && l.o.pending && |l.o.outbuf| <= MAX_INT && Taking(l.o.plan, |l.o.outbuf| - l.o.outpos).Some? ==>
      var r := OpOf(l, FlushOp, linger); !r.o.pending && r.o.open && r.o.wire == l.o.wire + l.o.outbuf[l.o.outpos..]
  {
    hide FlushOf, StopOf, Taking;
    if l.o.open && l.o.pending && |l.o.outbuf| <= MAX_INT && Taking(l.o.plan, |l.o.outbuf| - l.o.outpos).Some? {
      FlushTaking(l.o, linger);
    }
  }

  /** What a live session without lingering keeps: wire and rest are the stream. */
  ghost predicate InStep(l: Lived) {
    && Fine(l.o) && l.o.wire <= l.stream && (l.o.pending ==> |l.o.outbuf| <= MAX_INT)
    && (l.o.open ==> l.o.onError && !l.o.disconnected)
    && (l.o.open ==> l.o.wire + (if l.o.pending then l.o.outbuf[l.o.outpos..] else []) == l.stream)
  }

  lemma {:induction false} LoopInStep(o: Out, stream: seq<byte>, linger: int)
    requires InStep(Lived(o, stream)) && o.open && o.pending && linger <= 0
    ensures var r := LoopOf(o, linger); InStep(Lived(r.o, stream)) && (Soft(r.rc) ==> r.o.open) && (r.rc == Ok ==> !r.o.pending)
    decreases |o.plan|
  {
    hide WriteAll;
    LoopStep(o, linger);
    if o.outpos < |o.outbuf| {
      var w := WriteAll(o.plan, |o.outbuf| - o.outpos, 0);
      var rest := o.outbuf[o.outpos..];
      OneWrite(o.wire, rest, w.moved, Credited(w), stream, 0);
      assert rest[Credited(w)..] == o.outbuf[o.outpos + Credited(w)..];
      if w.ret >= 0 { LoopInStep(Wrote(o, w), stream, linger); }
    }
  }

  lemma FlushInStep(o: Out, stream: seq<byte>, linger: int)
    requires InStep(Lived(o, stream)) && linger <= 0
    ensures var r := FlushOf(o, linger);
      InStep(Lived(r.o, stream)) && (o.open && Soft(r.rc) ==> r.o.open) && (r.rc == Ok ==> !r.o.pending)
  {
    hide LoopOf;
    if o.open && o.pending { LoopInStep(o, stream, linger); }
  }

  lemma StopBrief(o: Out, linger: int)
    requires Fine(o) && linger <= 0
    ensures StopOf(o, linger).wire == o.wire && !StopOf(o, linger).open && !StopOf(o, linger).pending
    ensures !o.open ==> ReportOf(o, linger).wire == o.wire && !ReportOf(o, linger).open
    ensures !o.open && ReportOf(o, linger).pending ==> ReportOf(o, linger).outbuf == o.outbuf && o.pending
    decreases Life(o)
  {
    hide FlushOf, LoopOf;
    if !o.open && !o.disconnected && o.onError { StopBrief(o.(disconnected := true, onError := false), linger); }
  }

  lemma OpInStep(l: Lived, op: OutOp, linger: int)
    requires InStep(l) && linger <= 0 && (op.SendOp? ==> |op.frame| <= MAX_INT)
    ensures InStep(OpOf(l, op, linger))
  {
    hide FlushOf, LoopOf, LingerOf, StopOf, ReportOf;
    FlushInStep(l.o, l.stream, linger);
    StopBrief(l.o, linger);
    if op.SendOp? && l.o.open {
      var r := FlushOf(l.o, linger);
      if r.rc == Ok {
        var o := AcceptOf(r.o, op.frame);
        assert r.o.wire + [] == r.o.wire == l.stream;
        assert o.outbuf[0..] == op.frame;
        assert InStep(Lived(o, l.stream + op.frame));
        FlushInStep(o, l.stream + op.frame, linger);
      }
    }
  }

  /** Without lingering it cannot go wrong: whatever the kernel answers and whatever
      the calls, a session as endpoints create it has only ever written a prefix of
      the frames it accepted, if an int can count each of them. */
  lemma {:induction false} BriefPrefix(plan: seq<Io>, polls: nat, ops: seq<OutOp>, linger: int)
    requires linger <= 0 && forall op :: op in ops && op.SendOp? ==> |op.frame| <= MAX_INT
    ensures var l := LifeOf(Lived(Created(plan, polls), []), ops, linger); l.o.wire <= l.stream && InStep(l)
  {
    if ops != [] {
      var n := |ops| - 1;
      BriefPrefix(plan, polls, ops[..n], linger);
      assert ops[n] in ops;
      OpInStep(LifeOf(Lived(Created(plan, polls), []), ops[..n], linger), ops[n], linger);
    }
  }

  /** One turn of the flush loop. */
  lemma LoopStep(o: Out, linger: int)
    requires Fine(o) && o.pending
    ensures LoopOf(o, linger) ==
      if o.outpos == |o.outbuf| then Flushed(Emptied(o), Ok)
      else
        var w := WriteAll(o.plan, |o.outbuf| - o.outpos, 0);
        var o' := Wrote(o, w);
        if w.ret == -EAGAIN then Flushed(o', Again)
        else if w.ret < 0 then Flushed(ReportOf(o', linger), Failed)
        else LoopOf(o', linger)
  {
  }

  /** One write: `moved` bytes of the rest go out and `counted` of them are taken off
      the rest. */
  lemma OneWrite(wire: seq<byte>, rest: seq<byte>, moved: nat, counted: nat, stream: seq<byte>, n: nat)
    requires counted <= moved <= |rest| && |wire| + |rest| == |stream| + n && (n == 0 ==> wire + rest == stream)
    ensures |wire + rest[..moved]| + |rest[counted..]| == |stream| + n + (moved - counted)
    ensures n == 0 && moved == counted ==> (wire + rest[..moved]) + rest[counted..] == stream
    ensures n == 0 ==> wire + rest[..moved] <= stream
  {
    assert wire + rest == (wire + rest[..moved]) + rest[moved..];
  }
}
