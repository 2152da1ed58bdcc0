/** The PUB socket of src/protocol/pubsub/pub.c: fan-out to all peers, refused
    copies kept in eight priority buckets, and the drain that comes first. */
module Pub {
  import opened Common
  import opened Scheduler

  const LEVELS: nat := 8
  const NORMAL: nat := 4

  /** A message and the integer in its private header, if there is a whole one. */
  datatype PubMsg = PubMsg(prio: Option<int>, body: Msg)

  datatype Code = Done | Busy | Invalid  // 0, -EAGAIN, -EINVAL

  /** mb_pub_prio_decode */
  function Priority(m: PubMsg): (r: Option<nat>)
    ensures m.prio.None? ==> r == Some(NORMAL)
    ensures r.None? <==> m.prio.Some? && !(0 <= m.prio.value < LEVELS)
    ensures r.Some? ==> r.value < LEVELS && (m.prio.Some? ==> r.value == m.prio.value)
  {
    match m.prio
    case None => Some(NORMAL)
    case Some(p) => if p < 0 || p >= LEVELS then None else Some(p as nat)
  }

  // ---------- The order of the buckets ----------

  /** All deferred messages: the highest level first, oldest first in a level. */
  function Flat(bs: seq<seq<PubMsg>>): seq<PubMsg> {
    if bs == [] then [] else bs[|bs| - 1] + Flat(bs[..|bs| - 1])
  }

  lemma {:induction false} FlatHead(bs: seq<seq<PubMsg>>, level: nat)
    requires level < |bs| && bs[level] != [] && forall l :: level < l < |bs| ==> bs[l] == []
    ensures Flat(bs) == [bs[level][0]] + Flat(bs[level := bs[level][1..]])
  {
    var n := |bs| - 1;
    var bs' := bs[level := bs[level][1..]];
    if level == n {
      assert bs'[..n] == bs[..n];
      assert bs[n] + Flat(bs[..n]) == [bs[n][0]] + (bs[n][1..] + Flat(bs[..n]));
    } else {
      FlatHead(bs[..n], level);
      assert bs'[..n] == bs[..n][level := bs[..n][level][1..]];
      assert bs[n] == [] && bs'[n] == [];
    }
  }

  lemma {:induction false} FlatEmpty(bs: seq<seq<PubMsg>>)
    requires forall l :: 0 <= l < |bs| ==> bs[l] == []
    ensures Flat(bs) == []
  {
    if bs != [] { FlatEmpty(bs[..|bs| - 1]); }
  }

  /** The value of the priority gauge: the highest level that holds a message. */
  ghost predicate IsHighest(bs: seq<seq<PubMsg>>, g: nat) {
    if forall l :: 0 <= l < |bs| ==> bs[l] == [] then g == 0
    else g < |bs| && bs[g] != [] && forall l :: g < l < |bs| ==> bs[l] == []
  }

  function Copies(m: PubMsg, k: nat): (r: seq<PubMsg>)
    ensures |r| == k && forall x :: x in r ==> x == m
  {
    if k == 0 then [] else Copies(m, k - 1) + [m]
  }

  // ---------- What a peer sees ----------

  /** `a` is `b` with some elements left out. */
  ghost predicate Thinned(a: seq<Msg>, b: seq<Msg>)
    decreases |b|
  {
    if b == [] then a == []
    else
      var n := |b| - 1;
      Thinned(a, b[..n]) || (a != [] && a[|a| - 1] == b[n] && Thinned(a[..|a| - 1], b[..n]))
  }

  function Bodies(ms: seq<PubMsg>): (r: seq<Msg>)
    ensures |r| == |ms|
  {
    if ms == [] then [] else Bodies(ms[..|ms| - 1]) + [ms[|ms| - 1].body]
  }

  lemma ThinnedMore(a: seq<Msg>, b: seq<Msg>, m: Msg)
    requires Thinned(a, b)
    ensures Thinned(a, b + [m]) && Thinned(a + [m], b + [m])
  {
    assert (b + [m])[..|b|] == b && (a + [m])[..|a|] == a;
  }

  /** A peer that had been sent `was` has now been sent `now`: of the messages of
      `left` some, each at most once and in the same order. */
  ghost predicate Got(was: seq<Msg>, now: seq<Msg>, left: seq<PubMsg>) {
    was <= now && Thinned(now[|was|..], Bodies(left))
  }

  lemma GotMore(was: seq<Msg>, mid: seq<Msg>, now: seq<Msg>, left: seq<PubMsg>, m: PubMsg)
    requires Got(was, mid, left) && (now == mid || now == mid + [m.body])
    ensures Got(was, now, left + [m])
  {
    var d := mid[|was|..];
    assert (left + [m])[..|left|] == left;
    ThinnedMore(d, Bodies(left), m.body);
    if now != mid { assert now[|was|..] == d + [m.body]; }
  }

  /** Some peer has been sent `body` between `was` and `now`. */
  ghost predicate Reached(was: map<Pipe, seq<Msg>>, now: map<Pipe, seq<Msg>>, body: Msg) {
    exists p :: p in was && p in now && was[p] <= now[p] && body in now[p][|was[p]|..]
  }

  function Peers(ps: seq<Pipe>): set<Pipe> {
    set p | p in ps
  }

  ghost function Sent(ps: seq<Pipe>): (r: map<Pipe, seq<Msg>>)
    reads ps
    ensures forall p :: p in ps ==> p in r && r[p] == p.sent
    ensures r.Keys == Peers(ps)
  {
    map p | p in ps :: p.sent
  }

  /** What a peer was sent stays sent. */
  lemma StillReached(was: map<Pipe, seq<Msg>>, mid: map<Pipe, seq<Msg>>, now: map<Pipe, seq<Msg>>, body: Msg)
    requires Reached(was, mid, body) && forall p :: p in mid ==> p in now && mid[p] <= now[p]
    ensures Reached(was, now, body)
  {
    var p :| p in was && p in mid && was[p] <= mid[p] && body in mid[p][|was[p]|..];
    Later(mid[p], now[p], |was[p]|, body);
  }

  lemma NowReached(was: map<Pipe, seq<Msg>>, mid: map<Pipe, seq<Msg>>, now: map<Pipe, seq<Msg>>, p: Pipe, body: Msg)
    requires p in was && p in mid && p in now && was[p] <= mid[p] && now[p] == mid[p] + [body]
    ensures Reached(was, now, body)
  {
    assert now[p][|was[p]|..][|mid[p]| - |was[p]|] == body;
  }

  lemma Later(a: seq<Msg>, b: seq<Msg>, n: nat, x: Msg)
    requires a <= b && n <= |a| && x in a[n..]
    ensures x in b[n..]
  {
    var i :| 0 <= i < |a| - n && a[n..][i] == x;
    assert b[n..][i] == x;
  }

  /** One message was offered to all peers: each took it once or not at all. */
  ghost predicate Stepped(was: map<Pipe, seq<Msg>>, now: map<Pipe, seq<Msg>>, body: Msg, taken: bool) {
    && was.Keys == now.Keys
    && (forall p :: p in was ==> now[p] == was[p] || now[p] == was[p] + [body])
    && (taken <==> exists p :: p in was && now[p] == was[p] + [body])
  }

  /** What the peers were sent between `was` and `now` for the messages in `left`:
      each peer some of them, in order and at most once, and each of them at least
      one peer. */
  ghost predicate Spread(was: map<Pipe, seq<Msg>>, now: map<Pipe, seq<Msg>>, left: seq<PubMsg>) {
    && was.Keys == now.Keys
    && (forall p :: p in was ==> Got(was[p], now[p], left))
    && (forall m :: m in left ==> Reached(was, now, m.body))
  }

  lemma SpreadNone(was: map<Pipe, seq<Msg>>)
    ensures Spread(was, was, [])
  {
    forall p | p in was ensures Got(was[p], was[p], []) { GotNone(was[p]); }
  }

  lemma SpreadMore(was: map<Pipe, seq<Msg>>, mid: map<Pipe, seq<Msg>>, now: map<Pipe, seq<Msg>>, left: seq<PubMsg>, m: PubMsg)
    requires Spread(was, mid, left) && Stepped(mid, now, m.body, true)
    ensures Spread(was, now, left + [m])
  {
    forall p | p in was ensures Got(was[p], now[p], left + [m]) {
      GotMore(was[p], mid[p], now[p], left, m);
    }
    forall x | x in left ensures Reached(was, now, x.body) { StillReached(was, mid, now, x.body); }
    var p :| p in mid && now[p] == mid[p] + [m.body];
    assert Got(was[p], mid[p], left);
    NowReached(was, mid, now, p, m.body);
  }

  lemma SpreadSame(was: map<Pipe, seq<Msg>>, mid: map<Pipe, seq<Msg>>, now: map<Pipe, seq<Msg>>, left: seq<PubMsg>, body: Msg)
    requires Spread(was, mid, left) && Stepped(mid, now, body, false)
    ensures now == mid && Spread(was, now, left)
  {
    forall p | p in mid ensures now[p] == mid[p] { }
  }

  // ---------- What a peer answers ----------

  /** The peer was offered `body` once and did what it had planned to do. */
  twostate predicate Answered(p: Pipe, body: Msg)
    reads p
  {
    && p.plan == RestRc(old(p.plan))
    && p.sent == if NextRc(old(p.plan)) == Ok then old(p.sent) + [body] else old(p.sent)
  }

  ghost function Plans(ps: seq<Pipe>): (r: map<Pipe, seq<Rc>>)
    reads ps
    ensures forall p :: p in ps ==> p in r && r[p] == p.plan
    ensures r.Keys == Peers(ps)
  {
    map p | p in ps :: p.plan
  }

  /** No peer will accept the message that is offered after `k` others. */
  ghost predicate Stuck(plans: map<Pipe, seq<Rc>>, k: nat) {
    forall p :: p in plans ==> k >= |plans[p]| || plans[p][k] != Ok
  }

  /** Some peer says that it can take a message. */
  ghost predicate Ready(ps: seq<Pipe>)
    reads ps
  {
    exists p :: p in ps && p.hint
  }

  /** A drain stops exactly where every peer turns a message down. */
  ghost predicate Rounds(plans: map<Pipe, seq<Rc>>, left: nat, rest: nat) {
    && (forall k :: 0 <= k < left ==> !Stuck(plans, k))
    && (rest > 0 ==> Stuck(plans, left))
  }

  ghost predicate Moved(was: map<Pipe, seq<Rc>>, now: map<Pipe, seq<Rc>>, n: nat) {
    && was.Keys == now.Keys
    && forall p :: p in was ==> now[p] == if n <= |was[p]| then was[p][n..] else []
  }

  ghost predicate Eager(plans: map<Pipe, seq<Rc>>) {
    exists p :: p in plans && NextRc(plans[p]) == Ok
  }

  lemma EagerIff(was: map<Pipe, seq<Rc>>, now: map<Pipe, seq<Rc>>, n: nat)
    requires Moved(was, now, n)
    ensures Eager(now) <==> !Stuck(was, n)
  {
    if Eager(now) {
      var p :| p in now && NextRc(now[p]) == Ok;
      assert was[p][n] == Ok;
    }
    if !Stuck(was, n) {
      var p :| p in was && n < |was[p]| && was[p][n] == Ok;
      assert NextRc(now[p]) == Ok;
    }
  }

  /** `n` messages have been offered and each found a peer. */
  ghost predicate Progress(was: map<Pipe, seq<Rc>>, now: map<Pipe, seq<Rc>>, n: nat) {
    Moved(was, now, n) && forall k :: 0 <= k < n ==> !Stuck(was, k)
  }

  lemma ProgressNone(plans: map<Pipe, seq<Rc>>)
    ensures Progress(plans, plans, 0)
  {
  }

  lemma ProgressMore(was: map<Pipe, seq<Rc>>, mid: map<Pipe, seq<Rc>>, now: map<Pipe, seq<Rc>>, n: nat)
    requires Progress(was, mid, n) && Moved(mid, now, 1)
    ensures Moved(was, now, n + 1) && if Eager(mid) then Progress(was, now, n + 1) else Rounds(was, n, 1)
  {
    EagerIff(was, mid, n);
  }

  lemma RoundsStuck(plans: map<Pipe, seq<Rc>>, left: nat, rest: nat)
    requires Rounds(plans, left, 1)
    ensures Rounds(plans, left, rest)
  {
  }

  /** After a drain of which `left` messages went out and `rest` remain: how many
      messages the peers were offered. */
  function Offers(left: nat, rest: nat): nat {
    left + if rest > 0 then 1 else 0
  }

  /** How many of the peers `ps` will turn the next message down. */
  ghost function Turned(ps: seq<Pipe>, plans: map<Pipe, seq<Rc>>): nat {
    if ps == [] then 0
    else
      var n := |ps| - 1;
      Turned(ps[..n], plans) + if ps[n] in plans && NextRc(plans[ps[n]]) == Ok then 0 else 1
  }

  lemma NoneTurned(plans: map<Pipe, seq<Rc>>)
    ensures Turned([], plans) == 0
  {
  }

  lemma TurnedMore(ps: seq<Pipe>, i: nat, plans: map<Pipe, seq<Rc>>)
    requires i < |ps|
    ensures Turned(ps[..i + 1], plans) == Turned(ps[..i], plans) + if ps[i] in plans && NextRc(plans[ps[i]]) == Ok then 0 else 1
  {
    assert ps[..i + 1][..i] == ps[..i];
  }

  /** What a peer with this plan has been sent once it was offered `body`. */
  function Reply(sent: seq<Msg>, plan: seq<Rc>, body: Msg): seq<Msg> {
    if NextRc(plan) == Ok then sent + [body] else sent
  }

  /** Every peer was offered `body` and did what it had planned. */
  ghost predicate Offered(was: map<Pipe, seq<Msg>>, plans: map<Pipe, seq<Rc>>, now: map<Pipe, seq<Msg>>, body: Msg) {
    && was.Keys == plans.Keys == now.Keys
    && forall p :: p in was ==> now[p] == Reply(was[p], plans[p], body)
  }

  lemma RoundsDone(was: map<Pipe, seq<Rc>>, now: map<Pipe, seq<Rc>>, left: nat)
    requires Progress(was, now, left)
    ensures Rounds(was, left, 0) && Moved(was, now, left)
  {
  }

  class PubSocket {
    const heap: Supply
    var pipes: seq<Pipe>
    const buckets: array<seq<PubMsg>>
    var gauge: nat  // MB_STAT_CURRENT_SND_PRIORITY

    ghost predicate Valid()
      reads this
    {
      Distinct(pipes) && buckets.Length == LEVELS
    }

    constructor (heap: Supply)
      ensures this.heap == heap
      ensures Valid() && pipes == [] && gauge == 0 && fresh(buckets)
      ensures Flat(buckets[..]) == [] && forall l :: 0 <= l < LEVELS ==> buckets[l] == []
    {
      this.heap := heap;
      pipes, gauge := [], 0;
      buckets := new seq<PubMsg>[LEVELS](_ => []);
      new;
      FlatEmpty(buckets[..]);
    }

    /** mb_pub_try_drain_one: offer a copy to every peer. */
    method TryDrainOne(m: PubMsg) returns (ok: bool)
      requires Valid()
      modifies pipes
      ensures Stepped(old(Sent(pipes)), Sent(pipes), m.body, ok) && (ok <==> old(Eager(Plans(pipes))))
      ensures Moved(old(Plans(pipes)), Plans(pipes), 1)
    {
      ghost var before, plans := Sent(pipes), Plans(pipes);
      ok := Offer(m);
      ghost var now := Sent(pipes);
      if ok {
        ghost var p :| p in pipes && NextRc(old(p.plan)) == Ok;
        assert p in before && now[p] == before[p] + [m.body] && p in plans;
      }
    }

    /** The loop over the peers. */
    method Offer(m: PubMsg) returns (ok: bool)
      requires Valid()
      modifies pipes
      ensures forall p :: p in pipes ==> Answered(p, m.body)
      ensures ok <==> exists p :: p in pipes && NextRc(old(p.plan)) == Ok
    {
      var sent := 0;
      for i := 0 to |pipes|
        invariant forall j :: 0 <= j < i ==> Answered(pipes[j], m.body)
        invariant forall j :: i <= j < |pipes| ==> unchanged(pipes[j])
        invariant sent > 0 <==> exists j :: 0 <= j < i && NextRc(old(pipes[j].plan)) == Ok
      {
        var rc := pipes[i].Send(m.body);
        if rc == Ok { sent := sent + 1; }
      }
      ok := sent > 0;
    }

    /** mb_pub_drain_buckets: the messages that leave, followed by those that
        remain, are the old buckets from level 7 down to 0; the drain starts when
        a peer says it can take a message, and ends early only when every peer
        turns one down. */
    method Drain() returns (ghost left: seq<PubMsg>)
      requires Valid()
      modifies pipes, buckets
      ensures Drained(old(buckets[..]), left, buckets[..]) && Spread(old(Sent(pipes)), Sent(pipes), left)
      ensures if old(Ready(pipes)) then
                && Rounds(old(Plans(pipes)), |left|, |Flat(buckets[..])|)
                && Moved(old(Plans(pipes)), Plans(pipes), Offers(|left|, |Flat(buckets[..])|))
              else left == [] && Plans(pipes) == old(Plans(pipes))
    {
      hide Drained, Spread, Rounds, Flat, Moved;
      left := [];
      DrainedNone(buckets[..]);
      SpreadNone(Sent(pipes));
      var ready := AnyCanSend();
      if ready { left := DrainAll(); }
    }

    method AnyCanSend() returns (yes: bool)
      ensures yes <==> Ready(pipes)
    {
      for i := 0 to |pipes|
        invariant forall j :: 0 <= j < i ==> !pipes[j].hint
      {
        var can := pipes[i].CanSend();
        if can { return true; }
      }
      return false;
    }

    method DrainAll() returns (ghost left: seq<PubMsg>)
      requires Valid()
      modifies pipes, buckets
      ensures Drained(old(buckets[..]), left, buckets[..]) && Spread(old(Sent(pipes)), Sent(pipes), left)
      ensures Rounds(old(Plans(pipes)), |left|, |Flat(buckets[..])|)
      ensures Moved(old(Plans(pipes)), Plans(pipes), Offers(|left|, |Flat(buckets[..])|))
    {
      hide Drained, Spread, Stepped, Flat, Sent, Peers, EmptyAbove, Plans, Progress, Rounds, Eager, Moved;
      left := [];
      ghost var was, sent, plans := buckets[..], Sent(pipes), Plans(pipes);
      DrainedNone(was);
      SpreadNone(sent);
      NoneAbove(was);
      ProgressNone(plans);
      var level := LEVELS - 1;
      while level >= 0
        invariant -1 <= level < LEVELS && Drained(was, left, buckets[..]) && EmptyAbove(buckets[..], level)
        invariant Spread(sent, Sent(pipes), left) && Progress(plans, Plans(pipes), |left|)
        decreases level
      {
        while buckets[level] != []
          invariant Drained(was, left, buckets[..]) && EmptyAbove(buckets[..], level)
          invariant Spread(sent, Sent(pipes), left) && Progress(plans, Plans(pipes), |left|)
          decreases |buckets[level]|
        {
          ghost var bs, before, mid := buckets[..], Sent(pipes), Plans(pipes);
          var ok := DrainOne(level);
          ProgressMore(plans, mid, Plans(pipes), |left|);
          ghost var m: PubMsg := bs[level][0];
          if !ok {
            SpreadSame(sent, before, Sent(pipes), left, m.body);
            RoundsStuck(plans, |left|, |Flat(buckets[..])|);
            SomeLeft(buckets[..], level);
            return;
          }
          SpreadMore(sent, before, Sent(pipes), left, m);
          DrainedMore(was, left, bs, level);
          left := left + [m];
        }
        StillEmpty(buckets[..], level);
        level := level - 1;
      }
      NothingLeft(buckets[..]);
      RoundsDone(plans, Plans(pipes), |left|);
    }

    /** The body of the inner loop: a message that some peer takes leaves its bucket. */
    method DrainOne(level: nat) returns (ok: bool)
      requires Valid() && level < LEVELS && buckets[level] != []
      modifies pipes, buckets
      ensures Stepped(old(Sent(pipes)), Sent(pipes), old(buckets[level][0].body), ok)
      ensures (ok <==> old(Eager(Plans(pipes)))) && Moved(old(Plans(pipes)), Plans(pipes), 1)
      ensures buckets[..] == if ok then old(buckets[..])[level := old(buckets[level])[1..]] else old(buckets[..])
      ensures old(EmptyAbove(buckets[..], level)) ==> EmptyAbove(buckets[..], level)
    {
      hide Stepped, Eager, Moved, EmptyAbove, Plans, Sent;
      ok := TryDrainOne(buckets[level][0]);
      if ok { PopFront(level); }
    }

    method PopFront(level: nat)
      requires Valid() && level < LEVELS && buckets[level] != []
      modifies buckets
      ensures buckets[..] == old(buckets[..])[level := old(buckets[level])[1..]]
      ensures old(EmptyAbove(buckets[..], level)) ==> EmptyAbove(buckets[..], level)
    {
      hide EmptyAbove;
      EmptyStays(buckets[..], level, buckets[level][1..]);
      buckets[level] := buckets[level][1..];
    }

    /** The loop of mb_pub_send: offer a copy to every peer and keep one more copy
        for each that turns it down, if there is memory. */
    method FanOut(m: PubMsg, prio: nat) returns (sent: nat, ghost k: nat)
      requires Valid() && prio < LEVELS
      modifies pipes, buckets, heap
      ensures forall p :: p in pipes ==> p.sent == Reply(old(p.sent), old(p.plan), m.body)
      ensures sent + Turned(pipes, old(Plans(pipes))) == |pipes|
      ensures k + heap.denials == Turned(pipes, old(Plans(pipes))) + old(heap.denials)
      ensures Kept(old(buckets[..]), buckets[..], prio, m, k)
    {
      hide Kept, Turned, NextRc, RestRc;
      sent, k := 0, 0;
      ghost var was, plans := buckets[..], Plans(pipes);
      NoneTurned(plans);
      NoCopies(was, prio, m);
      for i := 0 to |pipes|
        invariant forall j :: 0 <= j < i ==> pipes[j].sent == Reply(old(pipes[j].sent), old(pipes[j].plan), m.body)
        invariant forall j :: i <= j < |pipes| ==> pipes[j].sent == old(pipes[j].sent) && pipes[j].plan == old(pipes[j].plan)
        invariant sent + Turned(pipes[..i], plans) == i
        invariant k + heap.denials == Turned(pipes[..i], plans) + old(heap.denials) && Kept(was, buckets[..], prio, m, k)
      {
        TurnedMore(pipes, i, plans);
        var took: bool;
        took, k := OfferOne(pipes[i], m, prio, was, k);
        if took { sent := sent + 1; }
      }
      assert pipes[..|pipes|] == pipes;
    }

    /** Offer a copy to one peer and keep one if it is turned down. */
    method OfferOne(p: Pipe, m: PubMsg, prio: nat, ghost was: seq<seq<PubMsg>>, ghost k: nat) returns (took: bool, ghost k': nat)
      requires Valid() && prio < LEVELS && Kept(was, buckets[..], prio, m, k)
      modifies p`sent, p`refusals, p`plan, p`last, buckets, heap
      ensures p.sent == Reply(old(p.sent), old(p.plan), m.body) && took == (NextRc(old(p.plan)) == Ok)
      ensures Kept(was, buckets[..], prio, m, k') && k' + heap.denials == k + old(heap.denials) + if took then 0 else 1
    {
      hide Kept;
      var rc := p.Send(m.body);
      took, k' := rc == Ok, k;
      if !took { k' := Keep(m, prio, was, k); }
    }

    /** Keep a copy, if malloc grants it. */
    method Keep(m: PubMsg, prio: nat, ghost was: seq<seq<PubMsg>>, ghost k: nat) returns (ghost k': nat)
      requires Valid() && prio < LEVELS && Kept(was, buckets[..], prio, m, k)
      modifies buckets, heap
      ensures Kept(was, buckets[..], prio, m, k') && k' + heap.denials == k + 1 + old(heap.denials)
    {
      k' := k;
      var ok := heap.Request();
      if ok {
        buckets[prio] := buckets[prio] + [m];
        CopiesMore(was, prio, m, k);
        k' := k + 1;
      }
    }

    /** The scan for the highest level in use. */
    method Highest() returns (g: nat)
      requires Valid()
      ensures IsHighest(buckets[..], g)
    {
      var l := LEVELS - 1;
      while l >= 0
        invariant -1 <= l < LEVELS && forall i :: l < i < LEVELS ==> buckets[i] == []
      {
        if buckets[l] != [] { return l; }
        l := l - 1;
      }
      return 0;
    }

    /** mb_pub_send: drain, then fan out.  `mid` and `sent` are the buckets and what
        the peers were sent between the two.  Every call but one with an invalid
        priority leaves the gauge at the highest level in use; after that one a
        gauge that was right stays right if and only if the drain did not empty
        the level it shows. */
    method Send(m: PubMsg) returns (code: Code, ghost left: seq<PubMsg>, ghost mid: seq<seq<PubMsg>>,
                                    ghost sent: map<Pipe, seq<Msg>>, ghost plans: map<Pipe, seq<Rc>>, ghost k: nat)
      requires Valid()
      modifies this`gauge, pipes, buckets, heap
      ensures Valid() && Drained(old(buckets[..]), left, mid) && Spread(old(Sent(pipes)), sent, left)
      ensures code == Invalid ==> Sent(pipes) == sent
      ensures code != Invalid ==> Stepped(sent, Sent(pipes), m.body, code == Done && pipes != [])
      ensures code != Invalid ==> Offered(sent, plans, Sent(pipes), m.body) && k + heap.denials == Turned(pipes, plans) + old(heap.denials)
      ensures code == Invalid <==> Priority(m) == None
      ensures if old(Ready(pipes)) then
                Rounds(old(Plans(pipes)), |left|, |Flat(mid)|) && Moved(old(Plans(pipes)), plans, Offers(|left|, |Flat(mid)|))
              else left == [] && plans == old(Plans(pipes))
      ensures code == Invalid ==> gauge == old(gauge) && buckets[..] == mid
      ensures code == Invalid && old(IsHighest(buckets[..], gauge)) ==>
        (IsHighest(buckets[..], gauge) <==> StaysHighest(old(buckets[..]), gauge, old(Plans(pipes)), old(Ready(pipes))))
      ensures code != Invalid ==> IsHighest(buckets[..], gauge)
      ensures code != Invalid ==> Kept(mid, buckets[..], Priority(m).value, m, k)
      ensures pipes == [] && Priority(m).Some? ==> code == Done
      ensures code == Busy ==> pipes != []
    {
      hide Drained, Spread, Stepped, Sent, Peers, IsHighest, Kept, Flat, Rounds, Ready, Plans, StaysHighest, Moved, Offered, Turned;
      k := 0;
      ghost var was, before, ready := buckets[..], Plans(pipes), Ready(pipes);
      left := Drain();
      mid, sent, plans := buckets[..], Sent(pipes), Plans(pipes);
      var prio := Priority(m);
      if prio.None? {
        if IsHighest(was, gauge) { GaugeAfterDrain(was, left, mid, gauge, before, ready); }
        return Invalid, left, mid, sent, plans, k;
      }
      var taken: bool;
      taken, k := Publish(m, prio.value);
      UpdateGauge();
      code := if |pipes| == 0 || taken then Done else Busy;
      assert (code == Done && pipes != []) == taken;
    }

    method UpdateGauge()
      requires Valid()
      modifies this`gauge
      ensures IsHighest(buckets[..], gauge) && Sent(pipes) == old(Sent(pipes))
    {
      gauge := Highest();
    }

    /** The fan-out, as seen by the peers. */
    method Publish(m: PubMsg, prio: nat) returns (taken: bool, ghost k: nat)
      requires Valid() && prio < LEVELS
      modifies pipes, buckets, heap
      ensures Stepped(old(Sent(pipes)), Sent(pipes), m.body, taken) && (pipes == [] ==> !taken)
      ensures Offered(old(Sent(pipes)), old(Plans(pipes)), Sent(pipes), m.body)
      ensures k + heap.denials == Turned(pipes, old(Plans(pipes))) + old(heap.denials)
      ensures Kept(old(buckets[..]), buckets[..], prio, m, k)
    {
      hide Kept, Turned;
      ghost var before := Sent(pipes);
      var n: nat;
      n, k := FanOut(m, prio);
      taken := n > 0;
      ghost var now := Sent(pipes);
      SomeTook(pipes, old(Plans(pipes)));
      if taken {
        ghost var p :| p in pipes && NextRc(old(p.plan)) == Ok;
        assert p in before && now[p] == before[p] + [m.body];
      }
    }
  }

  lemma {:induction false} SomeTook(ps: seq<Pipe>, plans: map<Pipe, seq<Rc>>)
    requires forall p :: p in ps ==> p in plans
    ensures Turned(ps, plans) <= |ps|
    ensures Turned(ps, plans) < |ps| <==> exists p :: p in ps && NextRc(plans[p]) == Ok
  {
    if ps != [] {
      var n := |ps| - 1;
      SomeTook(ps[..n], plans);
      assert ps == ps[..n] + [ps[n]];
    }
  }

  ghost predicate EmptyAbove(bs: seq<seq<PubMsg>>, level: int) {
    forall l :: 0 <= l < |bs| && l > level ==> bs[l] == []
  }

  lemma NoneAbove(bs: seq<seq<PubMsg>>)
    ensures EmptyAbove(bs, |bs| - 1)
  {
  }

  lemma StillEmpty(bs: seq<seq<PubMsg>>, level: nat)
    requires level < |bs| && EmptyAbove(bs, level) && bs[level] == []
    ensures EmptyAbove(bs, level - 1)
  {
  }

  lemma SomeLeft(bs: seq<seq<PubMsg>>, level: nat)
    requires level < |bs| && EmptyAbove(bs, level) && bs[level] != []
    ensures |Flat(bs)| > 0
  {
    FlatHead(bs, level);
  }

  lemma NothingLeft(bs: seq<seq<PubMsg>>)
    requires EmptyAbove(bs, -1)
    ensures Flat(bs) == []
  {
    FlatEmpty(bs);
  }

  /** `left` went out of the buckets `was`, each from the front of its bucket and
      all of them in priority order, and `now` remains; nothing left a bucket
      below one that still holds a message. */
  ghost predicate Drained(was: seq<seq<PubMsg>>, left: seq<PubMsg>, now: seq<seq<PubMsg>>) {
    && left + Flat(now) == Flat(was)
    && |now| == |was|
    && (forall l :: 0 <= l < |was| ==> |now[l]| <= |was[l]| && now[l] == was[l][|was[l]| - |now[l]|..])
    && forall l, h :: 0 <= l < h < |was| && now[h] != [] ==> now[l] == was[l]
  }

  lemma DrainedNone(bs: seq<seq<PubMsg>>)
    ensures Drained(bs, [], bs)
  {
    assert [] + Flat(bs) == Flat(bs);
  }

  lemma DrainedMore(was: seq<seq<PubMsg>>, left: seq<PubMsg>, now: seq<seq<PubMsg>>, level: nat)
    requires Drained(was, left, now) && level < |now| && now[level] != [] && EmptyAbove(now, level)
    ensures Drained(was, left + [now[level][0]], now[level := now[level][1..]])
  {
    var m, now' := now[level][0], now[level := now[level][1..]];
    FlatHead(now, level);
    assert left + ([m] + Flat(now')) == (left + [m]) + Flat(now');
  }

  /** `k` copies of `m` went to the end of its bucket, and nothing else changed. */
  ghost predicate Kept(was: seq<seq<PubMsg>>, now: seq<seq<PubMsg>>, prio: nat, m: PubMsg, k: nat) {
    prio < |was| && now == was[prio := was[prio] + Copies(m, k)]
  }

  lemma NoCopies(was: seq<seq<PubMsg>>, prio: nat, m: PubMsg)
    requires prio < |was|
    ensures Kept(was, was, prio, m, 0)
  {
    assert was[prio] + Copies(m, 0) == was[prio];
  }

  lemma CopiesMore(was: seq<seq<PubMsg>>, prio: nat, m: PubMsg, k: nat)
    requires prio < |was|
    ensures var now := was[prio := was[prio] + Copies(m, k)];
            now[prio := now[prio] + [m]] == was[prio := was[prio] + Copies(m, k + 1)]
  {
    assert was[prio] + Copies(m, k) + [m] == was[prio] + (Copies(m, k) + [m]);
  }

  lemma GotNone(was: seq<Msg>)
    ensures Got(was, was, [])
  {
  }

  // ---------- The gauge after a refused priority ----------

  lemma {:induction false} FlatTop(bs: seq<seq<PubMsg>>, g: nat)
    requires g < |bs| && EmptyAbove(bs, g)
    ensures Flat(bs) == bs[g] + Flat(bs[..g])
  {
    var n := |bs| - 1;
    if g < n {
      FlatTop(bs[..n], g);
      assert bs[..n][..g] == bs[..g] && bs[n] == [];
    }
  }

  lemma {:induction false} FlatShrinks(a: seq<seq<PubMsg>>, b: seq<seq<PubMsg>>)
    requires |a| == |b| && forall l :: 0 <= l < |a| ==> |a[l]| <= |b[l]|
    ensures |Flat(a)| <= |Flat(b)|
  {
    if a != [] { FlatShrinks(a[..|a| - 1], b[..|b| - 1]); }
  }

  lemma EmptyStays(bs: seq<seq<PubMsg>>, level: nat, b: seq<PubMsg>)
    requires level < |bs|
    ensures EmptyAbove(bs, level) ==> EmptyAbove(bs[level := b], level)
  {
  }

  /** The top bucket is emptied exactly when as many messages leave as it held. */
  lemma TopDrained(was: seq<seq<PubMsg>>, left: seq<PubMsg>, now: seq<seq<PubMsg>>, g: nat)
    requires Drained(was, left, now) && g < |was| && EmptyAbove(was, g)
    ensures EmptyAbove(now, g) && (|left| < |was[g]| ==> now[g] != []) && (now[g] != [] ==> |left| < |was[g]|)
  {
    hide Flat;
    FlatTop(was, g);
    FlatTop(now, g);
    FlatShrinks(now[..g], was[..g]);
    assert |left| + |now[g]| + |Flat(now[..g])| == |was[g]| + |Flat(was[..g])|;
    if now[g] != [] { assert now[..g] == was[..g]; }
  }

  /** No more messages leave than the level `g` holds: nothing is drained at all, or
      every peer turns down one of them. */
  ghost predicate StaysHighest(was: seq<seq<PubMsg>>, g: nat, plans: map<Pipe, seq<Rc>>, ready: bool) {
    g == 0 || !ready || (g < |was| && exists k :: 0 <= k < |was[g]| && Stuck(plans, k))
  }

  lemma GaugeAfterDrain(was: seq<seq<PubMsg>>, left: seq<PubMsg>, now: seq<seq<PubMsg>>, g: nat,
                        plans: map<Pipe, seq<Rc>>, ready: bool)
    requires was != [] && Drained(was, left, now) && IsHighest(was, g)
    requires if ready then Rounds(plans, |left|, |Flat(now)|) else left == []
    ensures IsHighest(now, g) <==> StaysHighest(was, g, plans, ready)
  {
    TopDrained(was, left, now, g);
    if g > 0 {
      assert |left| < |was[g]| ==> Flat(now) != [] by { FlatTop(now, g); }
      if ready && |left| < |was[g]| { assert Stuck(plans, |left|); }
    }
  }

  lemma WillGoStale(was: seq<seq<PubMsg>>, g: nat, plans: map<Pipe, seq<Rc>>, p: Pipe)
    requires 0 < g < |was| && |was[g]| == 1 && forall l :: 0 <= l < |was| && l != g ==> was[l] == []
    requires p in plans && plans[p] == [Ok]
    ensures IsHighest(was, g) && !StaysHighest(was, g, plans, true)
  {
    assert plans[p][0] == Ok;
  }

  lemma NothingElse(was: seq<seq<PubMsg>>, left: seq<PubMsg>, now: seq<seq<PubMsg>>, g: nat)
    requires Drained(was, left, now) && g < |was| && forall l :: 0 <= l < |was| && l != g ==> was[l] == []
    requires !IsHighest(now, g)
    ensures |now| == |was| && forall l :: 0 <= l < |now| ==> now[l] == []
  {
    assert forall l :: 0 <= l < |now| && l != g ==> now[l] == [];
  }

  /** A gauge that is left behind: one message waits at level 5, the only peer is
      ready for it, and the call that drains it has an invalid priority. */
  method StaleGauge(body: Msg) returns (s: PubSocket, code: Code)
    ensures code == Invalid && s.gauge == 5 && !IsHighest(s.buckets[..], s.gauge)
    ensures s.buckets.Length == LEVELS && forall l :: 0 <= l < LEVELS ==> s.buckets[l] == []
  {
    hide IsHighest, StaysHighest, Drained, Spread, Stepped, Rounds, Kept, Flat, Sent;
    var heap := new Supply([]);
    s := new PubSocket(heap);
    var p := new Pipe([Ok], true);
    s.pipes := [p];
    s.buckets[5] := [PubMsg(Some(5), body)];
    s.gauge := 5;
    ghost var was := s.buckets[..];
    WillGoStale(was, 5, Plans(s.pipes), p);
    ghost var left, mid, sent, plans, k;
    code, left, mid, sent, plans, k := s.Send(PubMsg(Some(8), []));
    NothingElse(was, left, mid, 5);
  }
}
