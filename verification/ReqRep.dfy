/** The REQ and REP sockets of src/protocol/reqrep, as operations on a socket's
    own state and as objects over the rotating pipe lists. */
module ReqRep {
  import opened Common
  import opened Scheduler

  datatype Code = Io(rc: Rc) | Fsm | NoMem

  // ---------- The state of one socket, over any kind of pipe names ----------

  datatype Req<P> = Req(lb: seq<P>, pipe: Option<P>, sending: bool)

  datatype Rep<P> = Rep(fq: seq<P>, lb: seq<P>, last: Option<P>)

  function ReqAdd<P>(r: Req<P>, p: P): Req<P> {
    Req([p] + r.lb, if r.pipe.None? then Some(p) else r.pipe, r.sending)
  }

  /** Losing the remembered pipe drops the half-open exchange and falls back to
      the first pipe that is left. */
  function ReqRm<P(==)>(r: Req<P>, p: P): Req<P> {
    var lb := Remove(r.lb, p);
    if r.pipe == Some(p) then Req(lb, if lb == [] then None else Some(lb[0]), false) else r.(lb := lb)
  }

  function ReqIn<P(==)>(r: Req<P>, p: P): Req<P> {
    r.(lb := [p] + Remove(r.lb, p))
  }

  /** A request was accepted by the pipe at `k`.  The remembered pipe is read off
      the end of the rotated list. */
  function ReqSent<P>(r: Req<P>, k: nat): (r': Req<P>)
    requires k < |r.lb|
    ensures r'.pipe == Some(r.lb[k])
  {
    var lb := Rotate(r.lb, k);
    Req(lb, Some(lb[|lb| - 1]), true)
  }

  function RepAdd<P>(s: Rep<P>, p: P): Rep<P> {
    Rep([p] + s.fq, [p] + s.lb, s.last)
  }

  function RepRm<P(==)>(s: Rep<P>, p: P): Rep<P> {
    Rep(Remove(s.fq, p), Remove(s.lb, p), if s.last == Some(p) then None else s.last)
  }

  function RepReceived<P>(s: Rep<P>, k: nat): Rep<P>
    requires k < |s.fq|
  {
    Rep(Rotate(s.fq, k), s.lb, Some(s.fq[k]))
  }

  // ---------- mb_req ----------

  class ReqSocket {
    const lb: Lb
    var pipe: Option<Pipe>
    var sending: bool

    ghost predicate Valid()
      reads this, lb
    {
      lb.Valid() && (pipe.Some? ==> pipe.value in lb.pipes)
    }

    ghost function View(): Req<Pipe>
      reads this, lb
    {
      Req(lb.pipes, pipe, sending)
    }

    constructor ()
      ensures Valid() && View() == Req([], None, false) && fresh(lb)
    {
      lb := new Lb();
      pipe, sending := None, false;
    }

    /** mb_req_add; `mem` is whether malloc grants the data of the pipe. */
    method Add(p: Pipe, mem: bool) returns (code: Code)
      requires Valid() && p !in lb.pipes
      modifies this, lb
      ensures Valid() && code == if mem then Io(Ok) else NoMem
      ensures View() == if code == Io(Ok) then ReqAdd(old(View()), p) else old(View())
    {
      if !mem { return NoMem; }
      lb.Add(p);
      if pipe.None? { pipe := Some(p); }
      return Io(Ok);
    }

    /** mb_req_rm */
    method Rm(p: Pipe)
      requires Valid()
      modifies this, lb
      ensures Valid() && View() == ReqRm(old(View()), p)
    {
      RemoveKeeps(lb.pipes, p);
      lb.Rm(p);
      if pipe == Some(p) {
        pipe, sending := None, false;
        if |lb.pipes| > 0 { pipe := Some(lb.pipes[0]); }
      }
    }

    /** mb_req_in */
    method In(p: Pipe)
      requires Valid() && p in lb.pipes
      modifies lb
      ensures Valid() && View() == ReqIn(old(View()), p)
    {
      RemoveKeeps(lb.pipes, p);
      lb.Activate(p);
    }

    /** mb_req_send: refused while a reply is due.  The pipe that took the request
        is the one remembered for its reply. */
    method Send(msg: Msg) returns (code: Code, ghost k: nat)
      requires Valid()
      modifies this, lb, lb.pipes
      ensures Valid() && (code == Fsm <==> old(sending)) && code != NoMem
      ensures code == Io(Ok) ==> k < |old(lb.pipes)| && View() == ReqSent(old(View()), k)
      ensures code == Io(Ok) ==> pipe == Some(old(lb.pipes)[k]) && OnlySent(old(lb.pipes), old(lb.pipes)[k], msg)
      ensures code != Io(Ok) ==> View() == old(View()) && NothingSent(lb.pipes)
      ensures code == Io(Again) ==> forall p :: p in lb.pipes ==> TurnedDown(p)
      ensures code == Io(Failed) ==> exists p :: p in lb.pipes && Refused(p) && p.last == Failed
    {
      k := 0;
      if sending { return Fsm, k; }
      var rc: Rc;
      rc, k := lb.Send(msg);
      if rc == Ok {
        Rotated(old(lb.pipes), k, k);
        var it := 0;
        while it + 1 < |lb.pipes|
          invariant it < |lb.pipes|
        {
          it := it + 1;
        }
        pipe, sending := Some(lb.pipes[it]), true;
      } else {
        assert lb.pipes == old(lb.pipes);
      }
      code := Io(rc);
    }

    /** mb_req_recv: only the remembered pipe is read. */
    method Recv() returns (code: Code, msg: Msg)
      requires Valid()
      modifies this`sending, if pipe.Some? then {pipe.value} else {}
      ensures Valid() && (code == Fsm <==> !old(sending)) && code != NoMem
      ensures View() == if code == Io(Ok) then old(View()).(sending := false) else old(View())
      ensures code == Io(Ok) ==> pipe.Some? && old(pipe.value.incoming) == [msg] + pipe.value.incoming
      ensures code != Io(Ok) && pipe.Some? ==> pipe.value.incoming == old(pipe.value.incoming)
      ensures old(sending) && pipe.None? ==> code == Io(Again)
      ensures old(sending) && pipe.Some? && old(pipe.value.incoming) != [] ==> code == Io(Ok)
      ensures code == Io(Failed) ==> pipe.Some? && pipe.value.broken
    {
      msg := [];
      if !sending { return Fsm, msg; }
      if pipe.None? { return Io(Again), msg; }
      var rc: Rc;
      rc, msg := pipe.value.Recv();
      if rc == Ok { sending := false; }
      code := Io(rc);
    }
  }

  // ---------- mb_rep ----------

  class RepSocket {
    const fq: Fq
    const lb: Lb
    var last: Option<Pipe>

    ghost predicate Valid()
      reads this, fq, lb
    {
      fq.Valid() && lb.Valid() && (last.Some? ==> last.value in fq.pipes)
    }

    ghost function View(): Rep<Pipe>
      reads this, fq, lb
    {
      Rep(fq.pipes, lb.pipes, last)
    }

    constructor ()
      ensures Valid() && View() == Rep([], [], None) && fresh(fq) && fresh(lb)
    {
      fq := new Fq();
      lb := new Lb();
      last := None;
    }

    /** mb_rep_add, with malloc's two answers: running out of memory half-way takes the pipe off again. */
    method Add(p: Pipe, mem: bool, more: bool) returns (code: Code)
      requires Valid() && p !in fq.pipes && p !in lb.pipes
      modifies this, fq, lb
      ensures Valid() && code == if mem && more then Io(Ok) else NoMem
      ensures View() == if code == Io(Ok) then RepAdd(old(View()), p) else old(View())
    {
      if !mem { return NoMem; }
      fq.Add(p);
      if !more {
        fq.Rm(p);
        return NoMem;
      }
      lb.Add(p);
      return Io(Ok);
    }

    /** mb_rep_rm */
    method Rm(p: Pipe)
      requires Valid()
      modifies this, fq, lb
      ensures Valid() && View() == RepRm(old(View()), p)
    {
      RemoveKeeps(fq.pipes, p);
      if last == Some(p) { last := None; }
      fq.Rm(p);
      lb.Rm(p);
    }

    /** mb_rep_recv: refused until the last request is answered. */
    method Recv() returns (code: Code, msg: Msg, ghost k: nat)
      requires Valid()
      modifies this, fq, fq.pipes
      ensures Valid() && (code == Fsm <==> old(last).Some?) && code != NoMem
      ensures code == Io(Ok) ==> old(FirstReady(fq.pipes, k)) && View() == RepReceived(old(View()), k)
      ensures code == Io(Ok) ==> OnlyTaken(old(fq.pipes), old(fq.pipes)[k], msg)
      ensures code != Io(Ok) ==> View() == old(View()) && NothingTaken(fq.pipes)
      ensures code == Io(Again) ==> NoneReady(fq.pipes)
      ensures old(last).None? && !old(Dry(fq.pipes)) ==> code == Io(Ok)
    {
      msg, k := [], 0;
      if last.Some? { return Fsm, msg, k; }
      var rc: Rc;
      var from: Option<Pipe>;
      rc, msg, from, k := fq.Recv();
      if rc == Ok {
        RotateSame(old(fq.pipes), k);
        last := from;
      } else {
        assert fq.pipes == old(fq.pipes);
      }
      code := Io(rc);
    }

    /** mb_rep_send: the reply goes to the pipe of the request; only a pipe that is
        full keeps the route for another try. */
    method Send(msg: Msg) returns (code: Code)
      requires Valid()
      modifies this`last, if last.Some? then {last.value} else {}
      ensures Valid() && (code == Fsm <==> old(last).None?) && code != NoMem
      ensures View() == if code == Fsm || code == Io(Again) then old(View()) else old(View()).(last := None)
      ensures old(last).Some? ==>
        var p := old(last).value;
        code == Io(NextRc(old(p.plan))) && p.sent == if code == Io(Ok) then old(p.sent) + [msg] else old(p.sent)
    {
      if last.None? { return Fsm; }
      var rc := last.value.Send(msg);
      if rc != Again { last := None; }
      code := Io(rc);
    }

    /** mb_rep_events: IN is reported if and only if a receive would not be
        refused for lack of a message. */
    method EventsIn() returns (yes: bool)
      ensures yes <==> last.None? && !NoneReady(fq.pipes)
    {
      if last.Some? { return false; }
      yes := fq.CanRecv();
    }
  }
}
