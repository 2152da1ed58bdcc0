/** The rotating pipe lists of src/utils/lb.c and src/utils/fq.c: round-robin
    sending and fair receiving, and what rotation guarantees over whole runs. */
module Scheduler {
  import opened Common
  import opened Wire

  type Msg = seq<byte>

  datatype Rc = Ok | Again | Failed

  // ---------- Rotation ----------

  /** Erase the element at `k` and insert it at the end. */
  function Rotate<T>(s: seq<T>, k: nat): (r: seq<T>)
    requires k < |s|
    ensures |r| == |s|
  {
    s[..k] + s[k + 1..] + [s[k]]
  }

  function Remove<T(==)>(s: seq<T>, x: T): seq<T> {
    if s == [] then [] else if s[0] == x then s[1..] else [s[0]] + Remove(s[1..], x)
  }

  /** Rotation moves one element to the end and keeps the order of the others. */
  lemma Rotated<T>(s: seq<T>, k: nat, i: nat)
    requires k < |s| && i < |s|
    ensures Rotate(s, k)[if i < k then i else if i == k then |s| - 1 else i - 1] == s[i]
  {
  }

  lemma RotateKeeps<T>(s: seq<T>, k: nat)
    requires k < |s| && Distinct(s)
    ensures Distinct(Rotate(s, k))
  {
  }

  lemma RotateSame<T>(s: seq<T>, k: nat)
    requires k < |s|
    ensures multiset(Rotate(s, k)) == multiset(s)
    ensures forall x :: x in Rotate(s, k) <==> x in s
  {
    assert s == s[..k] + [s[k]] + s[k + 1..];
    forall x ensures x in Rotate(s, k) <==> x in s {
      assert x in Rotate(s, k) <==> x in multiset(Rotate(s, k));
      assert x in s <==> x in multiset(s);
    }
  }

  lemma {:induction false} RemoveKeeps<T>(s: seq<T>, x: T)
    requires Distinct(s)
    ensures Distinct(Remove(s, x))
    ensures forall y :: y in Remove(s, x) <==> y in s && y != x
  {
    if s == [] {
    } else if s[0] == x {
      assert s == [x] + s[1..];
    } else {
      RemoveKeeps(s[1..], x);
      var r := Remove(s[1..], x);
      assert s == [s[0]] + s[1..];
      assert s[0] !in s[1..];
      assert s[0] !in r;
    }
  }

  lemma {:induction false} RemoveIn<T>(s: seq<T>, x: T, y: T)
    requires y in Remove(s, x)
    ensures y in s
  {
    if s[0] != x && y != s[0] { RemoveIn(s[1..], x, y); }
  }

  // ---------- Pipes ----------

  function NextRc(plan: seq<Rc>): Rc {
    if plan == [] then Again else plan[0]
  }

  function RestRc(plan: seq<Rc>): seq<Rc> {
    if plan == [] then [] else plan[1..]
  }

  /** One end of a pipe.  Whether it accepts a message is up to the transport: what
      it will answer is a list fixed beforehand, which may be any list at all. */
  class Pipe {
    var incoming: seq<Msg>     // waiting to be received
    var broken: bool           // an empty pipe reports an error instead of -EAGAIN
    var plan: seq<Rc>          // the answers to the next sends, then -EAGAIN
    var hint: bool             // what mb_pipe_can_send says
    ghost var arrived: seq<Msg>  // everything that ever came in
    ghost var sent: seq<Msg>   // accepted so far
    ghost var refusals: nat    // sends that were not accepted
    ghost var last: Rc         // the answer to the last send

    constructor (plan: seq<Rc>, hint: bool)
      ensures this.plan == plan && this.hint == hint && incoming == [] && arrived == [] && sent == [] && !broken
    {
      this.plan, this.hint := plan, hint;
      incoming, broken, arrived, sent, refusals, last := [], false, [], [], 0, Again;
    }

    /** mb_pipe_send */
    method Send(msg: Msg) returns (rc: Rc)
      modifies this`sent, this`refusals, this`plan, this`last
      ensures last == rc
      ensures rc == NextRc(old(plan)) && plan == RestRc(old(plan))
      ensures rc == Ok ==> sent == old(sent) + [msg] && refusals == old(refusals)
      ensures rc != Ok ==> sent == old(sent) && refusals == old(refusals) + 1
    {
      rc, plan := NextRc(plan), RestRc(plan);
      last := rc;
      if rc == Ok {
        sent := sent + [msg];
      } else {
        refusals := refusals + 1;
      }
    }

    /** mb_pipe_can_send */
    method CanSend() returns (yes: bool)
      ensures yes == hint
    {
      yes := hint;
    }

    /** mb_pipe_recv: a waiting message is received; an empty pipe may be broken. */
    method Recv() returns (rc: Rc, msg: Msg)
      modifies this`incoming
      ensures rc == if old(incoming) != [] then Ok else if broken then Failed else Again
      ensures if rc == Ok then old(incoming) == [msg] + incoming else incoming == old(incoming)
    {
      msg := [];
      if incoming != [] {
        rc, msg, incoming := Ok, incoming[0], incoming[1..];
      } else if broken {
        rc := Failed;
      } else {
        rc := Again;
      }
    }
  }

  /** Nothing was sent on the pipes of `ps` but `msg` on `p`. */
  twostate predicate OnlySent(ps: seq<Pipe>, p: Pipe, msg: Msg)
    reads ps
  {
    forall q :: q in ps ==> q.incoming == old(q.incoming) && q.sent == if q == p then old(q.sent) + [msg] else old(q.sent)
  }

  twostate predicate NothingSent(ps: seq<Pipe>)
    reads ps
  {
    forall q :: q in ps ==> q.incoming == old(q.incoming) && q.sent == old(q.sent)
  }

  /** The pipe was asked, and said "try again". */
  twostate predicate TurnedDown(p: Pipe)
    reads p
  {
    Refused(p) && p.last == Again
  }

  twostate predicate Refused(p: Pipe)
    reads p
  {
    p.refusals > old(p.refusals)
  }

  // ---------- The active hints ----------

  function Before<T>(ps: seq<T>, k: nat): set<T>
    requires k <= |ps|
  {
    set p | p in ps[..k]
  }

  lemma BeforeMore<T>(ps: seq<T>, k: nat)
    requires k < |ps|
    ensures Before(ps, k + 1) == Before(ps, k) + {ps[k]}
  {
    assert ps[..k + 1] == ps[..k] + [ps[k]];
  }

  lemma BeforeNone<T>(ps: seq<T>)
    ensures Before(ps, 0) == {}
  {
  }

  /** The hints after a loop that stopped at `k`: pipes that said "try again" have none,
      the one that did its work has one, and the others keep theirs. */
  ghost predicate Hinted<T>(was: set<T>, now: set<T>, ps: seq<T>, k: nat, rc: Rc) {
    match rc
    case Ok => k < |ps| && now == was - Before(ps, k) + {ps[k]}
    case Failed => k < |ps| && now + {ps[k]} == was - Before(ps, k) + {ps[k]}
    case Again => now == was - Before(ps, |ps|)
  }

  /** The first pipe was tried once more before the loop. */
  lemma HintedTwice<T>(was: set<T>, now: set<T>, ps: seq<T>, k: nat, rc: Rc)
    requires ps != [] && ps[0] in was && Hinted(was - {ps[0]}, now, ps, k, rc)
    ensures Hinted(was, now, ps, k, rc)
  {
    if rc == Again {
      assert ps[0] in Before(ps, |ps|);
    } else if k > 0 {
      assert ps[0] in Before(ps, k);
    }
  }

  lemma HintedFirst<T>(was: set<T>, ps: seq<T>, rc: Rc)
    requires ps != [] && ps[0] in was && rc != Again
    ensures Hinted(was, was, ps, 0, rc)
  {
    BeforeNone(ps);
  }

  // ---------- mb_lb ----------

  class Lb {
    var pipes: seq<Pipe>
    var active: set<Pipe>

    ghost predicate Valid()
      reads this`pipes
    {
      Distinct(pipes)
    }

    constructor ()
      ensures Valid() && pipes == []
    {
      pipes, active := [], {};
    }

    /** mb_lb_add then mb_lb_activate, as every protocol calls them. */
    method Add(p: Pipe)
      requires Valid() && p !in pipes
      modifies this
      ensures Valid() && pipes == [p] + old(pipes) && active == old(active) + {p}
    {
      pipes := pipes + [p];
      Activate(p);
    }

    /** mb_lb_activate: to the front. */
    method Activate(p: Pipe)
      requires Valid() && p in pipes
      modifies this
      ensures Valid() && pipes == [p] + Remove(old(pipes), p) && active == old(active) + {p}
      ensures p == old(pipes[|pipes| - 1]) ==> pipes == [p] + old(pipes[..|pipes| - 1])
    {
      RemoveKeeps(pipes, p);
      if p == pipes[|pipes| - 1] { RemoveLast(pipes); }
      active := active + {p};
      pipes := [p] + Remove(pipes, p);
    }

    /** mb_lb_rm */
    method Rm(p: Pipe)
      requires Valid()
      modifies this
      ensures Valid() && pipes == Remove(old(pipes), p) && active == old(active) - {p}
    {
      RemoveKeeps(pipes, p);
      pipes, active := Remove(pipes, p), active - {p};
    }

    /** mb_lb_can_send: some pipe says that it can send; the first that does is hinted
        and those in front of it are not. */
    method CanSend() returns (yes: bool, ghost k: nat)
      modifies this`active
      ensures yes <==> exists p :: p in pipes && p.hint
      ensures Hinted(old(active), active, pipes, k, if yes then Ok else Again)
      ensures yes ==> pipes[k].hint && forall j :: 0 <= j < k ==> !pipes[j].hint
    {
      hide Before;
      k := 0;
      BeforeNone(pipes);
      for i := 0 to |pipes|
        invariant active == old(active) - Before(pipes, i)
        invariant forall j :: 0 <= j < i ==> !pipes[j].hint
      {
        BeforeMore(pipes, i);
        var can := pipes[i].CanSend();
        if can {
          active := active + {pipes[i]};
          return true, i;
        }
        active := active - {pipes[i]};
      }
      return false, k;
    }

    /** Erase the item at `k` and insert it at the end. */
    method MoveToEnd(k: nat)
      requires Valid() && k < |pipes|
      modifies this`pipes
      ensures Valid() && pipes == Rotate(old(pipes), k)
    {
      RotateKeeps(pipes, k);
      pipes := Rotate(pipes, k);
    }

    /** mb_lb_send: the first pipe that accepts takes the message and goes to the
        end.  Every pipe in front of it refused in this call, and if no pipe
        accepts the order stays. */
    method Send(msg: Msg) returns (rc: Rc, ghost k: nat)
      requires Valid()
      modifies this, pipes
      ensures Valid()
      ensures rc == Ok ==> k < |old(pipes)| && pipes == Rotate(old(pipes), k) && OnlySent(old(pipes), old(pipes)[k], msg)
      ensures rc == Ok ==> forall j :: 0 <= j < k ==> TurnedDown(old(pipes)[j])
      ensures rc != Ok ==> pipes == old(pipes) && NothingSent(pipes)
      ensures rc == Failed ==> k < |pipes| && pipes[k].last == Failed && Refused(pipes[k]) && forall j :: 0 <= j < k ==> TurnedDown(pipes[j])
      ensures rc == Again ==> forall j :: 0 <= j < |pipes| ==> TurnedDown(pipes[j])
      ensures old(pipes) != [] && (forall p :: p in old(pipes) ==> !Refused(p)) ==> rc == Ok && k == 0
      ensures forall p :: p in old(pipes) ==> p.refusals >= old(p.refusals)
      ensures Hinted(old(active), active, old(pipes), k, rc)
    {
      hide Hinted, Rotate, Before, NextRc, RestRc, Remove, Valid;
      if |pipes| == 0 || pipes[0] !in active {
        rc, k := Probe(msg);
        return;
      }
      k := 0;
      rc := TryFirst(msg);
      if rc != Again { return; }
      rc, k := Probe(msg);
      HintedTwice(old(active), active, old(pipes), k, rc);
    }

    /** mb_lb_send tries a first pipe that is active before it probes. */
    method TryFirst(msg: Msg) returns (rc: Rc)
      requires Valid() && |pipes| > 0 && pipes[0] in active
      modifies this, pipes
      ensures Valid() && forall p :: p in old(pipes) ==> p.refusals >= old(p.refusals)
      ensures rc == Ok ==> pipes == Rotate(old(pipes), 0) && OnlySent(old(pipes), old(pipes)[0], msg)
      ensures rc != Ok ==> pipes == old(pipes) && NothingSent(pipes) && Refused(pipes[0]) && pipes[0].last == rc
      ensures if rc == Again then active == old(active) - {pipes[0]} else Hinted(old(active), active, old(pipes), 0, rc)
    {
      hide Hinted, Rotate, NextRc, RestRc, Valid;
      rc := pipes[0].Send(msg);
      if rc == Again {
        active := active - {pipes[0]};
      } else {
        HintedFirst(active, pipes, rc);
        if rc == Ok { MoveToEnd(0); }
      }
    }

    /** The probe loop of mb_lb_send. */
    method Probe(msg: Msg) returns (rc: Rc, ghost k: nat)
      requires Valid()
      modifies this, pipes
      ensures Valid()
      ensures rc == Ok ==> k < |old(pipes)| && pipes == Rotate(old(pipes), k) && OnlySent(old(pipes), old(pipes)[k], msg)
      ensures rc == Ok ==> forall j :: 0 <= j < k ==> TurnedDown(old(pipes)[j])
      ensures rc != Ok ==> pipes == old(pipes) && NothingSent(pipes)
      ensures rc == Failed ==> k < |pipes| && pipes[k].last == Failed && Refused(pipes[k]) && forall j :: 0 <= j < k ==> TurnedDown(pipes[j])
      ensures rc == Again ==> forall j :: 0 <= j < |pipes| ==> TurnedDown(pipes[j])
      ensures old(pipes) != [] && (forall p :: p in old(pipes) ==> !Refused(p)) ==> rc == Ok && k == 0
      ensures forall p :: p in old(pipes) ==> p.refusals >= old(p.refusals)
      ensures Hinted(old(active), active, old(pipes), k, rc)
    {
      hide Before, Rotate, NextRc, RestRc;
      k := 0;
      var i := 0;
      BeforeNone(pipes);
      while i < |pipes|
        invariant i <= |pipes| && pipes == old(pipes) && NothingSent(pipes)
        invariant forall p :: p in pipes ==> p.refusals >= old(p.refusals)
        invariant forall j :: 0 <= j < i ==> TurnedDown(pipes[j])
        invariant active == old(active) - Before(pipes, i)
      {
        var p := pipes[i];
        BeforeMore(pipes, i);
        assert p in old(pipes) && pipes[0] in old(pipes);
        rc := p.Send(msg);
        if rc == Ok {
          k := i;
          active := active + {p};
          MoveToEnd(i);
          return;
        }
        assert Refused(p);
        k := i;
        if rc != Again { return; }
        active := active - {p};
        i := i + 1;
      }
      assert pipes != [] ==> pipes[0] in old(pipes) && Refused(pipes[0]);
      rc := Again;
    }
  }

  lemma {:induction false} RemoveLast<T>(s: seq<T>)
    requires Distinct(s) && s != []
    ensures Remove(s, s[|s| - 1]) == s[..|s| - 1]
  {
    if |s| > 1 {
      RemoveLast(s[1..]);
      assert s[..|s| - 1] == [s[0]] + s[1..][..|s| - 2];
    }
  }

  // ---------- mb_fq ----------

  /** The position of the first pipe that does not answer "try again". */
  ghost predicate Decides(ps: seq<Pipe>, k: nat)
    reads ps
  {
    && k < |ps| && (ps[k].incoming != [] || ps[k].broken)
    && forall j :: 0 <= j < k ==> ps[j].incoming == [] && !ps[j].broken
  }

  /** That pipe has a waiting message, which is then the first one in the list. */
  ghost predicate FirstReady(ps: seq<Pipe>, k: nat)
    reads ps
  {
    Decides(ps, k) && ps[k].incoming != []
  }

  ghost predicate NoneReady(ps: seq<Pipe>)
    reads ps
  {
    forall p :: p in ps ==> p.incoming == []
  }

  /** A receive would get no message. */
  ghost predicate Dry(ps: seq<Pipe>)
    reads ps
  {
    forall k: nat :: Decides(ps, k) ==> ps[k].incoming == []
  }

  lemma BrokenIsDry(ps: seq<Pipe>, k: nat)
    requires Decides(ps, k) && ps[k].incoming == []
    ensures Dry(ps)
  {
    forall j: nat | Decides(ps, j) ensures j == k { }
  }

  /** The first message of `p` was taken, and nothing else from the pipes of `ps`. */
  twostate predicate OnlyTaken(ps: seq<Pipe>, p: Pipe, msg: Msg)
    reads ps
  {
    forall q :: q in ps ==>
      && q.sent == old(q.sent) && q.arrived == old(q.arrived) && q.broken == old(q.broken)
      && if q == p then old(q.incoming) == [msg] + q.incoming else q.incoming == old(q.incoming)
  }

  twostate predicate NothingTaken(ps: seq<Pipe>)
    reads ps
  {
    forall q :: q in ps ==>
      && q.sent == old(q.sent) && q.arrived == old(q.arrived) && q.broken == old(q.broken)
      && q.incoming == old(q.incoming)
  }

  class Fq {
    var pipes: seq<Pipe>
    var active: set<Pipe>

    ghost predicate Valid()
      reads this`pipes
    {
      Distinct(pipes)
    }

    constructor ()
      ensures Valid() && pipes == []
    {
      pipes, active := [], {};
    }

    /** mb_fq_add then mb_fq_activate, as every protocol calls them. */
    method Add(p: Pipe)
      requires Valid() && p !in pipes
      modifies this
      ensures Valid() && pipes == [p] + old(pipes) && active == old(active) + {p}
    {
      RemoveLast(pipes + [p]);
      pipes, active := [p] + Remove(pipes + [p], p), active + {p};
    }

    /** mb_fq_rm */
    method Rm(p: Pipe)
      requires Valid()
      modifies this
      ensures Valid() && pipes == Remove(old(pipes), p) && active == old(active) - {p}
    {
      RemoveKeeps(pipes, p);
      pipes, active := Remove(pipes, p), active - {p};
    }

    /** mb_fq_can_recv */
    method CanRecv() returns (yes: bool)
      ensures yes <==> !NoneReady(pipes)
    {
      for i := 0 to |pipes|
        invariant forall j :: 0 <= j < i ==> pipes[j].incoming == []
      {
        if pipes[i].incoming != [] { return true; }
      }
      return false;
    }

    /** Erase the item at `k` and insert it at the end. */
    method MoveToEnd(k: nat)
      requires Valid() && k < |pipes|
      modifies this`pipes
      ensures Valid() && pipes == Rotate(old(pipes), k)
    {
      RotateKeeps(pipes, k);
      pipes := Rotate(pipes, k);
    }

    /** mb_fq_recv_pipe: the first pipe with a waiting message is served and goes
        to the end, unless an empty pipe in front of it is broken. */
    method Recv() returns (rc: Rc, msg: Msg, from: Option<Pipe>, ghost k: nat)
      requires Valid()
      modifies this, pipes
      ensures Valid()
      ensures rc == Ok ==> old(FirstReady(pipes, k)) && pipes == Rotate(old(pipes), k) && from == Some(old(pipes)[k])
      ensures rc == Ok ==> OnlyTaken(old(pipes), old(pipes)[k], msg)
      ensures rc != Ok ==> pipes == old(pipes) && from == None && NothingTaken(pipes)
      ensures rc == Again ==> NoneReady(pipes) && forall p :: p in pipes ==> !p.broken
      ensures rc == Failed ==> Decides(pipes, k) && pipes[k].incoming == []
      ensures rc == Ok <==> !old(Dry(pipes))
      ensures rc != Ok ==> Dry(pipes)
      ensures Hinted(old(active), active, old(pipes), k, rc)
    {
      hide Hinted;
      ghost var first := |pipes| > 0 && pipes[0] in active;
      if |pipes| > 0 && pipes[0] in active {
        from, k := None, 0;
        rc, msg := pipes[0].Recv();
        if rc != Again { HintedFirst(active, old(pipes), rc); }
        assert rc != Again ==> old(Decides(pipes, 0));
        if rc == Ok {
          from := Some(pipes[0]);
          MoveToEnd(0);
          return;
        }
        if rc != Again {
          BrokenIsDry(pipes, 0);
          return;
        }
        active := active - {pipes[0]};
      }
      rc, msg, from, k := Probe();
      if first { HintedTwice(old(active), active, old(pipes), k, rc); }
    }

    /** The probe loop of mb_fq_recv_pipe. */
    method Probe() returns (rc: Rc, msg: Msg, from: Option<Pipe>, ghost k: nat)
      requires Valid()
      modifies this, pipes
      ensures Valid()
      ensures rc == Ok ==> old(FirstReady(pipes, k)) && pipes == Rotate(old(pipes), k) && from == Some(old(pipes)[k])
      ensures rc == Ok ==> OnlyTaken(old(pipes), old(pipes)[k], msg)
      ensures rc != Ok ==> pipes == old(pipes) && from == None && NothingTaken(pipes)
      ensures rc == Again ==> NoneReady(pipes) && forall p :: p in pipes ==> !p.broken
      ensures rc == Failed ==> Decides(pipes, k) && pipes[k].incoming == []
      ensures rc == Ok <==> !old(Dry(pipes))
      ensures rc != Ok ==> Dry(pipes)
      ensures Hinted(old(active), active, old(pipes), k, rc)
    {
      hide Before;
      msg, from, k := [], None, 0;
      var i := 0;
      BeforeNone(pipes);
      while i < |pipes|
        invariant i <= |pipes| && pipes == old(pipes) && from == None && NothingTaken(pipes)
        invariant forall j :: 0 <= j < i ==> pipes[j].incoming == [] && !pipes[j].broken
        invariant active == old(active) - Before(pipes, i)
      {
        var p := pipes[i];
        BeforeMore(pipes, i);
        rc, msg := p.Recv();
        assert rc != Again ==> old(Decides(pipes, i));
        if rc == Ok {
          k, from := i, Some(p);
          active := active + {p};
          MoveToEnd(i);
          return;
        }
        if rc != Again {
          k := i;
          BrokenIsDry(pipes, i);
          return;
        }
        active := active - {p};
        i := i + 1;
      }
      rc := Again;
    }
  }

  // ---------- Fairness over whole runs ----------

  datatype FqOp = Arrive(p: Pipe, msg: Msg) | Break(p: Pipe) | Take

  /** What a receive gave. */
  datatype Result = Result(rc: Rc, from: Option<Pipe>, msg: Msg)

  /** A fair queue and its pipes as values. */
  datatype Line = Line(order: seq<Pipe>, waiting: map<Pipe, seq<Msg>>, broken: set<Pipe>)

  ghost predicate Sane(l: Line) {
    Distinct(l.order) && forall p :: p in l.order ==> p in l.waiting
  }

  ghost function LineOf(fq: Fq, peers: set<Pipe>): Line
    reads fq, peers
  {
    Line(fq.pipes, map p | p in peers :: p.incoming, set p | p in peers && p.broken)
  }

  /** The first pipe from position `i` on that does not answer "try again". */
  ghost function Decider(l: Line, i: nat): (k: nat)
    requires Sane(l) && i <= |l.order|
    ensures i <= k <= |l.order|
    ensures k < |l.order| ==> l.waiting[l.order[k]] != [] || l.order[k] in l.broken
    ensures forall j :: i <= j < k ==> l.waiting[l.order[j]] == [] && l.order[j] !in l.broken
    decreases |l.order| - i
  {
    if i == |l.order| || l.waiting[l.order[i]] != [] || l.order[i] in l.broken then i else Decider(l, i + 1)
  }

  /** mb_fq_recv_pipe on values. */
  ghost function TakeOf(l: Line): (r: (Line, Result))
    requires Sane(l)
    ensures Sane(r.0)
  {
    var k := Decider(l, 0);
    if k == |l.order| then (l, Result(Again, None, []))
    else
      var p := l.order[k];
      if l.waiting[p] == [] then (l, Result(Failed, None, []))
      else
        RotateKeeps(l.order, k);
        RotateSame(l.order, k);
        (Line(Rotate(l.order, k), l.waiting[p := l.waiting[p][1..]], l.broken), Result(Ok, Some(p), l.waiting[p][0]))
  }

  ghost function OpOf(l: Line, op: FqOp): (r: (Line, seq<Result>))
    requires Sane(l)
    ensures Sane(r.0) && r.0.waiting.Keys >= l.waiting.Keys
  {
    match op
    case Take => var t := TakeOf(l); (t.0, [t.1])
    case Arrive(p, m) => (l.(waiting := l.waiting[p := (if p in l.waiting then l.waiting[p] else []) + [m]]), [])
    case Break(p) => (l.(broken := l.broken + {p}), [])
  }

  /** A whole schedule, and what its receives gave. */
  ghost function RunOf(l: Line, ops: seq<FqOp>): (r: (Line, seq<Result>))
    requires Sane(l)
    ensures Sane(r.0)
  {
    if ops == [] then (l, [])
    else
      var n := |ops| - 1;
      var r := RunOf(l, ops[..n]);
      var o := OpOf(r.0, ops[n]);
      (o.0, r.1 + o.1)
  }

  /** The pipes of the receives that succeeded. */
  ghost function Served(rs: seq<Result>): seq<Pipe> {
    if rs == [] then []
    else
      var n := |rs| - 1;
      Served(rs[..n]) + if rs[n].from.Some? then [rs[n].from.value] else []
  }

  lemma ServedMore(rs: seq<Result>, r: Result)
    ensures Served(rs + [r]) == Served(rs) + if r.from.Some? then [r.from.value] else []
  {
    assert (rs + [r])[..|rs|] == rs;
  }

  /** What waits on a pipe, what arrived on it, and what receives took from it. */
  ghost function Waiting(l: Line, p: Pipe): seq<Msg> {
    if p in l.waiting then l.waiting[p] else []
  }

  ghost function Arrived(ops: seq<FqOp>, p: Pipe): seq<Msg> {
    if ops == [] then []
    else
      var n := |ops| - 1;
      Arrived(ops[..n], p) + if ops[n].Arrive? && ops[n].p == p then [ops[n].msg] else []
  }

  ghost function Received(rs: seq<Result>, p: Pipe): seq<Msg> {
    if rs == [] then []
    else
      var n := |rs| - 1;
      Received(rs[..n], p) + if rs[n].from == Some(p) then [rs[n].msg] else []
  }

  lemma ReceivedMore(rs: seq<Result>, r: Result, p: Pipe)
    ensures Received(rs + [r], p) == Received(rs, p) + if r.from == Some(p) then [r.msg] else []
  {
    assert (rs + [r])[..|rs|] == rs;
  }

  /** In every schedule each pipe keeps its messages: what was received from it and what
      still waits there is what waited at first and what arrived, in that order.  A pipe
      is broken if and only if it was or broke on the way. */
  lemma {:induction false} NothingLost(l: Line, ops: seq<FqOp>, p: Pipe)
    requires Sane(l)
    ensures var r := RunOf(l, ops);
      && Received(r.1, p) + Waiting(r.0, p) == Waiting(l, p) + Arrived(ops, p)
      && (p in r.0.broken <==> p in l.broken || Break(p) in ops)
  {
    hide OpOf, TakeOf, Decider, Rotate;
    if ops == [] {
      assert [] + Waiting(l, p) == Waiting(l, p) + [];
    } else {
      var n := |ops| - 1;
      NothingLost(l, ops[..n], p);
      var r := RunOf(l, ops[..n]);
      assert ops == ops[..n] + [ops[n]];
      OneOp(r.0, ops[n], r.1, p);
      var more: seq<Msg> := if ops[n].Arrive? && ops[n].p == p then [ops[n].msg] else [];
      assert (Waiting(l, p) + Arrived(ops[..n], p)) + more == Waiting(l, p) + (Arrived(ops[..n], p) + more);
    }
  }

  lemma OneOp(l: Line, op: FqOp, rs: seq<Result>, p: Pipe)
    requires Sane(l)
    ensures var o := OpOf(l, op);
      && Received(rs + o.1, p) + Waiting(o.0, p) ==
         Received(rs, p) + Waiting(l, p) + (if op.Arrive? && op.p == p then [op.msg] else [])
      && (p in o.0.broken <==> p in l.broken || op == Break(p))
  {
    hide Decider, Rotate;
    var o := OpOf(l, op);
    if op.Take? {
      ReceivedMore(rs, o.1[0], p);
    } else {
      assert rs + [] == rs;
    }
  }

  ghost predicate Quiet(l: Line, p: Pipe)
    requires p in l.waiting
  {
    l.waiting[p] == [] && p !in l.broken
  }

  lemma TakeFirst(l: Line, k: nat)
    requires Sane(l) && k <= |l.order| && forall j :: 0 <= j < k ==> Quiet(l, l.order[j])
    requires k < |l.order| ==> !Quiet(l, l.order[k])
    ensures Decider(l, 0) == k
  {
  }

  /** One receive of the class is one receive on values. */
  method Receive(fq: Fq, ghost peers: set<Pipe>) returns (r: Result)
    requires fq.Valid() && forall p :: p in fq.pipes ==> p in peers
    modifies fq, fq.pipes
    ensures fq.Valid() && (forall p :: p in fq.pipes ==> p in peers)
    ensures (LineOf(fq, peers), r) == TakeOf(old(LineOf(fq, peers)))
  {
    hide Dry, NoneReady, Rotate, Decider, Hinted, Before, Remove;
    ghost var l := LineOf(fq, peers);
    var rc, msg, from, k := fq.Recv();
    r := Result(rc, from, if rc == Ok then msg else []);
    if rc == Ok {
      RotateSame(l.order, k);
      TakeFirst(l, k);
      assert l.waiting[l.order[k]] == [msg] + l.order[k].incoming;
      assert LineOf(fq, peers).waiting == l.waiting[l.order[k] := l.waiting[l.order[k]][1..]];
    } else {
      if rc == Failed { TakeFirst(l, k); } else { NobodyDecides(fq, l); }
      assert LineOf(fq, peers).waiting == l.waiting;
    }
    assert LineOf(fq, peers).broken == l.broken;
  }

  lemma NobodyDecides(fq: Fq, l: Line)
    requires Sane(l) && l.order == fq.pipes && NoneReady(fq.pipes)
    requires forall p :: p in fq.pipes ==> !p.broken && l.waiting[p] == p.incoming && p !in l.broken
    ensures Decider(l, 0) == |l.order|
  {
    TakeFirst(l, |l.order|);
  }

  /** One event of a schedule. */
  method Perform(fq: Fq, op: FqOp, ghost peers: set<Pipe>) returns (rs: seq<Result>)
    requires fq.Valid() && (forall p :: p in fq.pipes ==> p in peers) && (!op.Take? ==> op.p in peers)
    modifies fq, peers
    ensures fq.Valid() && (forall p :: p in fq.pipes ==> p in peers)
    ensures (LineOf(fq, peers), rs) == OpOf(old(LineOf(fq, peers)), op)
  {
    hide TakeOf;
    rs := [];
    ghost var was := LineOf(fq, peers);
    match op {
      case Arrive(p, msg) =>
        p.incoming := p.incoming + [msg];
        assert LineOf(fq, peers).waiting == was.waiting[p := was.waiting[p] + [msg]];
        assert LineOf(fq, peers).broken == was.broken;
      case Break(p) =>
        p.broken := true;
        assert LineOf(fq, peers).waiting == was.waiting && LineOf(fq, peers).broken == was.broken + {p};
      case Take =>
        var r := Receive(fq, peers);
        rs := [r];
    }
  }

  lemma RunMore(l: Line, ops: seq<FqOp>, i: nat)
    requires Sane(l) && i < |ops|
    ensures var r := RunOf(l, ops[..i]); var o := OpOf(r.0, ops[i]); RunOf(l, ops[..i + 1]) == (o.0, r.1 + o.1)
  {
    assert ops[..i + 1][..i] == ops[..i];
  }

  /** Any schedule of arrivals, pipes that break and receives is the schedule on
      values: same final queue, same results. */
  method Schedule(fq: Fq, ops: seq<FqOp>, ghost peers: set<Pipe>) returns (rs: seq<Result>)
    requires fq.Valid() && (forall p :: p in fq.pipes ==> p in peers) && forall op :: op in ops && !op.Take? ==> op.p in peers
    modifies fq, peers
    ensures fq.Valid() && (LineOf(fq, peers), rs) == RunOf(old(LineOf(fq, peers)), ops)
  {
    hide OpOf;
    rs := [];
    ghost var l := LineOf(fq, peers);
    for i := 0 to |ops|
      invariant fq.Valid() && forall p :: p in fq.pipes ==> p in peers
      invariant (LineOf(fq, peers), rs) == RunOf(l, ops[..i])
    {
      RunMore(l, ops, i);
      var more := Perform(fq, ops[i], peers);
      rs := rs + more;
    }
    assert ops[..|ops|] == ops;
  }

  /** A pipe that has a waiting message at position `k` is served by one of the next
      k + 1 receives that succeed, whatever arrives or breaks meanwhile. */
  lemma ServedInTurn(l: Line, ops: seq<FqOp>, k: nat)
    requires Sane(l) && k < |l.order| && l.waiting[l.order[k]] != []
    ensures var served := Served(RunOf(l, ops).1); |served| > k ==> l.order[k] in served[..k + 1]
  {
    hide Served, RunOf;
    TurnComes(l, ops, k);
    var served := Served(RunOf(l, ops).1);
    if |served| > k {
      var i :| 0 <= i <= k && i < |served| && served[i] == l.order[k];
      assert served[..k + 1][i] == l.order[k];
    }
  }

  ghost predicate Due(served: seq<Pipe>, target: Pipe, k: nat) {
    exists i :: 0 <= i <= k && i < |served| && served[i] == target
  }

  /** The target still waits, and has moved up by one place for each receive. */
  ghost predicate InTurn(l: Line, served: seq<Pipe>, target: Pipe, k: nat) {
    && target in l.waiting && l.waiting[target] != []
    && |served| <= k && k - |served| < |l.order| && l.order[k - |served|] == target
  }

  lemma {:induction false} TurnComes(l: Line, ops: seq<FqOp>, k: nat)
    requires Sane(l) && k < |l.order| && l.waiting[l.order[k]] != []
    ensures var r := RunOf(l, ops); Due(Served(r.1), l.order[k], k) || InTurn(r.0, Served(r.1), l.order[k], k)
  {
    hide Due, InTurn, TakeOf;
    if ops == [] {
      InTurnFirst(l, k);
    } else {
      var n := |ops| - 1;
      TurnComes(l, ops[..n], k);
      var r := RunOf(l, ops[..n]);
      var o := OpOf(r.0, ops[n]);
      if ops[n].Take? {
        TakeTurn(r.0, r.1, l.order[k], k);
      } else {
        assert r.1 + [] == r.1;
        WaitTurn(r.0, Served(r.1), ops[n], l.order[k], k);
      }
    }
  }

  lemma InTurnFirst(l: Line, k: nat)
    requires Sane(l) && k < |l.order| && l.waiting[l.order[k]] != []
    ensures InTurn(l, Served([]), l.order[k], k)
  {
  }

  lemma WaitTurn(l: Line, served: seq<Pipe>, op: FqOp, target: Pipe, k: nat)
    requires Sane(l) && !op.Take? && (Due(served, target, k) || InTurn(l, served, target, k))
    ensures Due(served, target, k) || InTurn(OpOf(l, op).0, served, target, k)
  {
  }

  lemma TakeTurn(l: Line, rs: seq<Result>, target: Pipe, k: nat)
    requires Sane(l) && (Due(Served(rs), target, k) || InTurn(l, Served(rs), target, k))
    ensures var t := TakeOf(l); Due(Served(rs + [t.1]), target, k) || InTurn(t.0, Served(rs + [t.1]), target, k)
  {
    hide Served, Rotate;
    var t := TakeOf(l);
    ServedMore(rs, t.1);
    var served, d := Served(rs), Decider(l, 0);
    assert served + [] == served;
    if InTurn(l, served, target, k) { assert l.order[k - |served|] == target && d <= k - |served|; }
    if t.1.from.Some? { NextTurn(l.order, served, target, k, d); }
  }

  lemma NextTurn(ps: seq<Pipe>, served: seq<Pipe>, target: Pipe, k: nat, j: nat)
    requires j < |ps| && Distinct(ps)
    ensures Due(served, target, k) ==> Due(served + [ps[j]], target, k)
    ensures |served| <= k && k - |served| < |ps| && ps[k - |served|] == target && j == k - |served| ==>
      Due(served + [ps[j]], target, k)
    ensures |served| <= k && k - |served| < |ps| && ps[k - |served|] == target && j < k - |served| ==>
      ps[j] != target && Rotate(ps, j)[k - |served| - 1] == target
  {
    var now := served + [ps[j]];
    if Due(served, target, k) {
      var i :| 0 <= i <= k && i < |served| && served[i] == target;
      assert now[i] == target;
    }
    if |served| <= k && k - |served| < |ps| && ps[k - |served|] == target {
      if j == k - |served| {
        assert now[|served|] == target;
      } else if j < k - |served| {
        Rotated(ps, j, k - |served|);
      }
    }
  }

  /** The pipes used by `n` sends in a row when the first pipe always accepts. */
  function Used<T>(order: seq<T>, n: nat): (r: seq<T>)
    requires n > 0 ==> order != []
    ensures |r| == n
    decreases n
  {
    if n == 0 then [] else [order[0]] + Used(Rotate(order, 0), n - 1)
  }

  function After<T>(order: seq<T>, n: nat): (r: seq<T>)
    requires n > 0 ==> order != []
    ensures |r| == |order|
    decreases n
  {
    if n == 0 then order else After(Rotate(order, 0), n - 1)
  }

  lemma {:induction false} UsedSome<T>(order: seq<T>, n: nat)
    requires n <= |order|
    ensures Used(order, n) == order[..n] && After(order, n) == order[n..] + order[..n]
    decreases n
  {
    if n == 0 {
    } else {
      var r := Rotate(order, 0);
      UsedSome(r, n - 1);
      assert r == order[1..] + [order[0]];
      assert r[..n - 1] == order[1..][..n - 1];
      assert [order[0]] + order[1..][..n - 1] == order[..n];
      assert r[n - 1..] + r[..n - 1] == order[n..] + order[..n];
    }
  }

  lemma {:induction false} UsedSplit<T>(order: seq<T>, m: nat, n: nat)
    requires m + n > 0 ==> order != []
    ensures Used(order, m + n) == Used(order, m) + Used(After(order, m), n)
    decreases m
  {
    if m > 0 {
      var r := Rotate(order, 0);
      UsedSplit(r, m - 1, n);
      assert Used(order, m + n) == [order[0]] + Used(r, m - 1 + n);
      assert [order[0]] + (Used(r, m - 1) + Used(After(r, m - 1), n)) == Used(order, m) + Used(After(r, m - 1), n);
    }
  }

  lemma {:induction false} AfterKeeps<T>(order: seq<T>, m: nat)
    requires m > 0 ==> order != []
    ensures multiset(After(order, m)) == multiset(order)
    decreases m
  {
    if m > 0 {
      assert order == [order[0]] + order[1..];
      AfterKeeps(Rotate(order, 0), m - 1);
    }
  }

  lemma UsedNext<T>(order: seq<T>, n: nat)
    requires order != []
    ensures Used(order, n + 1) == Used(order, n) + [After(order, n)[0]]
    ensures After(order, n + 1) == Rotate(After(order, n), 0)
  {
    UsedSplit(order, n, 1);
    var a := After(order, n);
    assert Used(a, 1) == [a[0]] + Used(Rotate(a, 0), 0) == [a[0]];
    AfterNext(order, n);
  }

  lemma {:induction false} AfterNext<T>(order: seq<T>, n: nat)
    requires order != []
    ensures After(order, n + 1) == Rotate(After(order, n), 0)
    decreases n
  {
    if n > 0 { AfterNext(Rotate(order, 0), n - 1); }
  }

  /** While all `n` pipes accept, any `n` sends in a row use each pipe exactly
      once: here the sends number `m` to `m + n` of a run. */
  lemma EachOnce<T>(order: seq<T>, m: nat)
    requires order != []
    ensures var n := |order|;
            multiset(Used(order, m + n)[m..]) == multiset(order)
  {
    var n := |order|;
    UsedSplit(order, m, n);
    var a := After(order, m);
    UsedSome(a, n);
    assert Used(order, m + n)[m..] == Used(a, n) == a[..n] == a;
    AfterKeeps(order, m);
  }

  /** The messages that went to `p` when message i went to pipe i of `used`. */
  ghost function Given(used: seq<Pipe>, msgs: seq<Msg>, p: Pipe): seq<Msg>
    requires |used| == |msgs|
  {
    if used == [] then []
    else
      var n := |used| - 1;
      Given(used[..n], msgs[..n], p) + if used[n] == p then [msgs[n]] else []
  }

  lemma GivenMore(used: seq<Pipe>, msgs: seq<Msg>, p: Pipe, q: Pipe, m: Msg)
    requires |used| == |msgs|
    ensures Given(used + [q], msgs + [m], p) == Given(used, msgs, p) + if q == p then [m] else []
  {
    assert (used + [q])[..|used|] == used && (msgs + [m])[..|msgs|] == msgs;
  }

  lemma SentMore(was: seq<Msg>, used: seq<Pipe>, msgs: seq<Msg>, p: Pipe, q: Pipe, m: Msg, mid: seq<Msg>, now: seq<Msg>)
    requires |used| == |msgs| && mid == was + Given(used, msgs, p) && now == if q == p then mid + [m] else mid
    ensures now == was + Given(used + [q], msgs + [m], p)
  {
    GivenMore(used, msgs, p, q, m);
    var g := Given(used, msgs, p);
    assert was + g + [m] == was + (g + [m]) && g + [] == g;
  }

  lemma NothingYet(ps: seq<Pipe>)
    ensures Used(ps, 0) == [] && After(ps, 0) == ps && forall p: Pipe {:trigger Given([], [], p)} :: Given([], [], p) == []
  {
  }

  lemma OneLonger(msgs: seq<Msg>, i: nat)
    requires i < |msgs|
    ensures msgs[..i + 1] == msgs[..i] + [msgs[i]]
  {
  }

  /** No pipe turned a message down since. */
  twostate predicate AllAccepted(ps: seq<Pipe>)
    reads ps
  {
    forall p :: p in ps ==> p.refusals == old(p.refusals)
  }

  /** Any row of sends: each pipe is sent what `used` says and nothing else, and
      while every pipe accepts, the pipes are used in rotation. */
  method SendAll(lb: Lb, msgs: seq<Msg>, ghost peers: set<Pipe>) returns (ghost used: seq<Pipe>, ghost taken: seq<Msg>)
    requires lb.Valid() && lb.pipes != [] && forall p :: p in lb.pipes ==> p in peers
    modifies lb, peers
    ensures lb.Valid() && |used| == |taken| <= |msgs|
    ensures forall p :: p in old(lb.pipes) ==> p.sent == old(p.sent) + Given(used, taken, p)
    ensures AllAccepted(old(lb.pipes)) ==> taken == msgs && used == Used(old(lb.pipes), |msgs|)
  {
    hide Given, Used, After, Rotate;
    used, taken := [], [];
    ghost var ps := lb.pipes;
    NothingYet(ps);
    for i := 0 to |msgs|
      invariant lb.Valid() && |used| == |taken| <= i && (forall p :: p in lb.pipes ==> p in peers) && lb.pipes != []
      invariant forall p :: p in ps <==> p in lb.pipes
      invariant forall p :: p in ps ==> p.refusals >= old(p.refusals) && p.sent == old(p.sent) + Given(used, taken, p)
      invariant AllAccepted(ps) ==> taken == msgs[..i] && used == Used(ps, i) && lb.pipes == After(ps, i)
    {
      ghost var order := lb.pipes;
      label L:
      var rc, k := lb.Send(msgs[i]);
      UsedNext(ps, i);
      OneLonger(msgs, i);
      if rc == Ok {
        RotateSame(order, k);
        forall p | p in ps ensures p.sent == old(p.sent) + Given(used + [order[k]], taken + [msgs[i]], p) {
          SentMore(old(p.sent), used, taken, p, order[k], msgs[i], old@L(p.sent), p.sent);
        }
        used, taken := used + [order[k]], taken + [msgs[i]];
      }
    }
    assert msgs[..|msgs|] == msgs;
  }

  lemma {:induction false} GivenCount(used: seq<Pipe>, msgs: seq<Msg>, p: Pipe)
    requires |used| == |msgs|
    ensures |Given(used, msgs, p)| == multiset(used)[p]
  {
    if used != [] {
      var n := |used| - 1;
      assert used == used[..n] + [used[n]];
      GivenCount(used[..n], msgs[..n], p);
    }
  }

  lemma {:induction false} OnceEach<T>(s: seq<T>, x: T)
    requires Distinct(s) && x in s
    ensures multiset(s)[x] == 1
  {
    var n := |s| - 1;
    assert s == s[..n] + [s[n]];
    if x in s[..n] {
      OnceEach(s[..n], x);
    }
  }

  /** As many sends in a row as there are pipes, from any state of the list: if every
      pipe accepts, each is sent exactly one of the messages. */
  method SendRound(lb: Lb, msgs: seq<Msg>, ghost peers: set<Pipe>)
    requires lb.Valid() && lb.pipes != [] && |msgs| == |lb.pipes| && forall p :: p in lb.pipes ==> p in peers
    modifies lb, peers
    ensures lb.Valid()
    ensures AllAccepted(old(lb.pipes)) ==> forall p :: p in old(lb.pipes) ==> |p.sent| == |old(p.sent)| + 1
  {
    ghost var ps := lb.pipes;
    ghost var used, taken := SendAll(lb, msgs, peers);
    if AllAccepted(ps) {
      UsedSome(ps, |ps|);
      assert used == ps;
      forall p | p in ps ensures |p.sent| == |old(p.sent)| + 1 {
        GivenCount(used, taken, p);
        OnceEach(ps, p);
      }
    }
  }
}
