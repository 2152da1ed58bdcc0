/** The SUB socket of src/protocol/pubsub/sub.c: a fair queue of pipes filtered by
    the subscription trie, with one matching message kept back. */
module Sub {
  import opened Common
  import opened Scheduler
  import T = Trie
  import Wire

  type Topic = seq<Wire.byte>

  predicate Matches(subs: set<Topic>, msg: Msg) {
    exists s :: s in subs && s <= msg
  }

  /** A message that the socket took off a pipe, and the subscriptions then. */
  datatype Seen = Seen(from: Pipe, msg: Msg, subs: set<Topic>)

  /** The messages that had a subscribed prefix when they were examined. */
  function Passed(log: seq<Seen>): seq<Msg> {
    if log == [] then []
    else
      var e := log[|log| - 1];
      Passed(log[..|log| - 1]) + if Matches(e.subs, e.msg) then [e.msg] else []
  }

  ghost function From(log: seq<Seen>, p: Pipe): seq<Msg> {
    if log == [] then []
    else
      var e := log[|log| - 1];
      From(log[..|log| - 1], p) + if e.from == p then [e.msg] else []
  }

  lemma LogMore(log: seq<Seen>, e: Seen, p: Pipe)
    ensures Passed(log + [e]) == Passed(log) + if Matches(e.subs, e.msg) then [e.msg] else []
    ensures From(log + [e], p) == From(log, p) + if e.from == p then [e.msg] else []
  {
    assert (log + [e])[..|log|] == log;
  }

  datatype Code = Done | NoMem | NoEntry

  /** `b` is `a` and more entries that were judged by `subs`. */
  ghost predicate Extends(a: seq<Seen>, b: seq<Seen>, subs: set<Topic>) {
    a <= b && forall i :: |a| <= i < |b| ==> b[i].subs == subs
  }

  lemma ExtendsNone(a: seq<Seen>, subs: set<Topic>)
    ensures Extends(a, a, subs)
  {
  }

  lemma ExtendsMore(a: seq<Seen>, b: seq<Seen>, c: seq<Seen>, subs: set<Topic>)
    requires Extends(a, b, subs) && (c == b || exists e :: c == b + [e] && e.subs == subs)
    ensures Extends(a, c, subs)
  {
  }

  // ---------- How much is waiting ----------

  function Sum(ns: seq<nat>): nat {
    if ns == [] then 0 else Sum(ns[..|ns| - 1]) + ns[|ns| - 1]
  }

  lemma {:induction false} SumConcat(a: seq<nat>, b: seq<nat>)
    ensures Sum(a + b) == Sum(a) + Sum(b)
  {
    if b == [] {
      assert a + b == a;
    } else {
      var n := |b| - 1;
      assert (a + b)[..|a| + n] == a + b[..n];
      SumConcat(a, b[..n]);
    }
  }

  /** Taking one from the element at `k` and moving it to the end. */
  lemma SumTaken(ns: seq<nat>, k: nat)
    requires k < |ns| && ns[k] > 0
    ensures Sum(ns[..k] + ns[k + 1..] + [(ns[k] - 1) as nat]) == Sum(ns) - 1
  {
    var a, x, b := ns[..k], [ns[k]], ns[k + 1..];
    var y := [(ns[k] - 1) as nat];
    assert ns == (a + x) + b && x[..0] == [] && y[..0] == [];
    SumConcat(a + x, b);
    SumConcat(a, x);
    SumConcat(a, b);
    SumConcat(a + b, y);
  }

  /** How many messages wait on each pipe. */
  ghost function Lengths(ps: seq<Pipe>): (r: seq<nat>)
    reads ps
    ensures |r| == |ps|
  {
    seq(|ps|, i requires 0 <= i < |ps| reads ps => |ps[i].incoming|)
  }

  // ---------- mb_sub ----------

  class SubSocket {
    const fq: Fq
    const trie: T.Trie
    var pending: Option<Msg>
    var nsubs: nat
    var hasSubs: bool

    ghost var log: seq<Seen>        // every message examined
    ghost var delivered: seq<Msg>   // every message returned by a receive
    ghost var peers: set<Pipe>      // the pipes attached so far

    /** The messages returned, and the one kept back, are those that passed the
        filter when they were examined; what was examined of each pipe, followed by
        what waits there, is what arrived. */
    ghost predicate Valid()
      reads this, fq, peers, trie, trie.repr
    {
      Filter() && Flow()
    }

    ghost predicate Filter()
      reads this`nsubs, this`hasSubs, trie, trie.repr
    {
      trie.Valid() && nsubs == |trie.subs| && hasSubs == (nsubs > 0)
    }

    ghost predicate Flow()
      reads this`log, this`delivered, this`pending, this`peers, fq, peers
    {
      && fq.Valid() && (forall p :: p in fq.pipes ==> p in peers)
      && Passed(log) == delivered + Kept() && InOrder(fq.pipes)
    }

    ghost function Kept(): seq<Msg>
      reads this`pending
    {
      if pending.Some? then [pending.value] else []
    }

    ghost predicate InOrder(ps: seq<Pipe>)
      reads this`log, ps
    {
      forall p :: p in ps ==> From(log, p) + p.incoming == p.arrived
    }

    constructor (heap: Supply)
      ensures Valid() && log == [] && delivered == [] && pending == None && fq.pipes == [] && trie.subs == {}
      ensures fresh(fq) && fresh(trie) && fresh(trie.repr)
    {
      fq := new Fq();
      trie := new T.Trie(heap);
      pending, nsubs, hasSubs, log, delivered, peers := None, 0, false, [], [], {};
    }

    /** mb_sub_msg_matches */
    method Wanted(msg: Msg) returns (yes: bool)
      requires Filter()
      ensures yes <==> Matches(trie.subs, msg)
    {
      if !hasSubs { return false; }
      yes := trie.Match(msg);
    }

    /** One turn of the loop of mb_sub_pull_deliverable. */
    method Examine() returns (rc: Rc)
      requires Valid() && pending == None
      modifies this`pending, this`log, fq, peers
      ensures Valid() && (rc == Ok <==> !old(Dry(fq.pipes))) && (rc != Ok ==> Dry(fq.pipes) && pending == None && log == old(log))
      ensures rc == Ok ==> exists e :: log == old(log) + [e] && e.subs == trie.subs
      ensures rc == Ok ==> Sum(Lengths(fq.pipes)) < old(Sum(Lengths(fq.pipes)))
    {
      hide SubSocket.Filter, Sum, Lengths, Dry, Passed, From, Matches;
      var msg: Msg;
      var from: Option<Pipe>;
      ghost var ps := fq.pipes;
      rc, msg, from := Fetch(fq);
      if rc != Ok { return; }
      var yes := Wanted(msg);
      ghost var e := Seen(from.value, msg, trie.subs);
      forall p | p in ps ensures From(log + [e], p) + p.incoming == p.arrived {
        InOrderMore(log, e, p, old(p.incoming), p.incoming);
      }
      LogMore(log, e, from.value);
      if yes { pending := Some(msg); }
      log := log + [e];
    }

    /** mb_sub_pull_deliverable: drop messages up to the first that matches. */
    method Pull() returns (yes: bool)
      requires Valid()
      modifies this`pending, this`log, fq, peers
      ensures Valid() && (yes <==> pending.Some?) && (!yes ==> Dry(fq.pipes))
      ensures old(pending).Some? ==> pending == old(pending) && log == old(log)
      ensures old(pending).None? && old(Dry(fq.pipes)) ==> !yes
      ensures Extends(old(log), log, trie.subs)
    {
      hide SubSocket.Filter, SubSocket.Flow, Dry, Sum, Lengths, Extends;
      ghost var dry, was := Dry(fq.pipes), log;
      ExtendsNone(log, trie.subs);
      if pending.Some? { return true; }
      var rc := Examine();
      ExtendsMore(was, was, log, trie.subs);
      while rc == Ok && pending.None?
        invariant Valid() && Extends(was, log, trie.subs)
        invariant rc != Ok ==> Dry(fq.pipes) && pending == None
        invariant dry ==> rc != Ok
        decreases rc == Ok, Sum(Lengths(fq.pipes))
      {
        ghost var mid := log;
        rc := Examine();
        ExtendsMore(was, mid, log, trie.subs);
      }
      return pending.Some?;
    }

    /** mb_sub_events */
    method EventsIn() returns (yes: bool)
      requires Valid()
      modifies this`pending, this`log, fq, peers
      ensures Valid() && (yes <==> pending.Some?) && (!yes ==> Dry(fq.pipes))
      ensures Extends(old(log), log, trie.subs)
    {
      yes := Pull();
    }

    /** mb_sub_recv */
    method Recv() returns (ok: bool, msg: Msg)
      requires Valid()
      modifies this`pending, this`log, this`delivered, fq, peers
      ensures Valid() && delivered == if ok then old(delivered) + [msg] else old(delivered)
      ensures old(pending).Some? ==> ok && msg == old(pending).value
      ensures old(pending).None? && old(Dry(fq.pipes)) ==> !ok
      ensures Extends(old(log), log, trie.subs)
    {
      hide SubSocket.Filter, Dry, Passed, From, Matches;
      msg := [];
      ok := Pull();
      if ok {
        msg := pending.value;
        pending := None;
        delivered := delivered + [msg];
        assert delivered + [] == delivered;
      }
    }

    /** IN is reported if and only if the next receive succeeds, and then it is for
        the very message that the poll found. */
    method PollThenRecv() returns (yes: bool, ok: bool, msg: Msg)
      requires Valid()
      modifies this`pending, this`log, this`delivered, fq, peers
      ensures Valid() && yes == ok && delivered == if ok then old(delivered) + [msg] else old(delivered)
    {
      hide SubSocket.Filter, SubSocket.Flow, Dry;
      yes := EventsIn();
      ok, msg := Recv();
    }

    /** mb_sub_setopt with MB_SUB_SUBSCRIBE; subscribing again succeeds and changes
        nothing. */
    method Subscribe(topic: Topic) returns (code: Code)
      requires Valid()
      modifies this`nsubs, this`hasSubs, trie, trie.repr, trie.heap
      ensures code == (if trie.heap.denials > old(trie.heap.denials) then NoMem else Done)
      ensures Valid() && fresh(trie.repr - old(trie.repr))
      ensures trie.subs == if code == Done then old(trie.subs) + {topic} else old(trie.subs)
    {
      hide SubSocket.Flow, T.Trie.Valid;
      var r := trie.Add(topic);
      if r == T.NoMem { return NoMem; }
      if r == T.New { nsubs, hasSubs := nsubs + 1, true; }
      return Done;
    }

    /** mb_sub_setopt with MB_SUB_UNSUBSCRIBE. */
    method Unsubscribe(topic: Topic) returns (code: Code)
      requires Valid()
      modifies this`nsubs, this`hasSubs, trie, trie.repr
      ensures Valid() && code == (if topic in old(trie.subs) then Done else NoEntry)
      ensures trie.subs == old(trie.subs) - {topic}
    {
      hide SubSocket.Flow, T.Trie.Valid;
      ghost var subs := trie.subs;
      var ok := trie.Rm(topic);
      if !ok {
        assert subs - {topic} == subs;
        return NoEntry;
      }
      assert |subs - {topic}| == |subs| - 1;
      if nsubs > 0 { nsubs := nsubs - 1; }
      hasSubs := nsubs > 0;
      return Done;
    }

    /** mb_sub_add of a pipe that nothing was taken from yet; `mem` is whether malloc
        grants its data. */
    method Add(p: Pipe, mem: bool) returns (code: Code)
      requires Valid() && p !in fq.pipes && From(log, p) == [] && p.incoming == p.arrived
      modifies fq, this`peers
      ensures code == if mem then Done else NoMem
      ensures Valid() && fq.pipes == if code == Done then [p] + old(fq.pipes) else old(fq.pipes)
    {
      hide SubSocket.Filter, Passed, From;
      if !mem { return NoMem; }
      fq.Add(p);
      peers := peers + {p};
      assert [] + p.incoming == p.incoming;
      return Done;
    }

    /** mb_sub_rm */
    method Rm(p: Pipe)
      requires Valid()
      modifies fq
      ensures Valid() && fq.pipes == Remove(old(fq.pipes), p)
    {
      hide SubSocket.Filter, Passed, From;
      ghost var ps := fq.pipes;
      fq.Rm(p);
      forall q | q in fq.pipes ensures q in peers && From(log, q) + q.incoming == q.arrived {
        RemoveIn(ps, p, q);
      }
    }

    /** The transport puts a message on a pipe. */
    method Arrive(p: Pipe, msg: Msg)
      requires Valid() && p in fq.pipes
      modifies p`incoming, p`arrived
      ensures Valid() && p.arrived == old(p.arrived) + [msg]
    {
      hide SubSocket.Filter, Passed, From;
      assert From(log, p) + p.incoming == p.arrived;
      p.incoming, p.arrived := p.incoming + [msg], p.arrived + [msg];
      assert From(log, p) + (old(p.incoming) + [msg]) == From(log, p) + old(p.incoming) + [msg];
    }
  }

  lemma InOrderMore(log: seq<Seen>, e: Seen, p: Pipe, was: seq<Msg>, now: seq<Msg>)
    requires was == if p == e.from then [e.msg] + now else now
    ensures From(log + [e], p) + now == From(log, p) + was
  {
    LogMore(log, e, p);
    var f := From(log, p);
    assert f + ([e.msg] + now) == f + [e.msg] + now;
    assert f + [] == f;
  }

  /** mb_fq_recv, with what it takes off the pipes. */
  method Fetch(fq: Fq) returns (rc: Rc, msg: Msg, from: Option<Pipe>)
    requires fq.Valid()
    modifies fq, fq.pipes
    ensures fq.Valid() && (rc == Ok <==> !old(Dry(fq.pipes))) && forall p :: p in fq.pipes <==> p in old(fq.pipes)
    ensures rc != Ok ==> Dry(fq.pipes) && fq.pipes == old(fq.pipes) && NothingTaken(fq.pipes)
    ensures rc == Ok ==> from.Some? && from.value in old(fq.pipes) && OnlyTaken(old(fq.pipes), from.value, msg)
    ensures rc == Ok ==> Sum(Lengths(fq.pipes)) < old(Sum(Lengths(fq.pipes)))
  {
    ghost var k: nat;
    ghost var ps, ns := fq.pipes, Lengths(fq.pipes);
    rc, msg, from, k := fq.Recv();
    if rc == Ok {
      RotateSame(ps, k);
      SumTaken(ns, k);
      Rearranged(ps, ns, k);
    }
  }

  lemma Rearranged(ps: seq<Pipe>, ns: seq<nat>, k: nat)
    requires |ns| == |ps| && k < |ps| && ns[k] == |ps[k].incoming| + 1
    requires forall i :: 0 <= i < |ps| && i != k ==> ns[i] == |ps[i].incoming|
    ensures Lengths(Rotate(ps, k)) == ns[..k] + ns[k + 1..] + [(ns[k] - 1) as nat]
  {
  }
}
