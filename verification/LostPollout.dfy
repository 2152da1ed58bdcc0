/** A run in which the send wake-up of Writable is lost. */
module LostPollout {
  import opened Efd
  import opened MsgQueue
  import opened Writable

  predicate Leads(s: State, events: seq<Event>, s': State)
    decreases |events|
  {
    if events == [] then s == s'
    else Enabled(s, events[0]) && Leads(Apply(s, events[0]), events[1..], s')
  }

  lemma {:induction false} LeadsOn(a: State, es: seq<Event>, b: State, fs: seq<Event>, c: State)
    requires Leads(a, es, b) && Leads(b, fs, c)
    ensures Leads(a, es + fs, c)
    decreases |es|
  {
    hide Apply, Enabled;
    if es == [] {
      assert es + fs == fs;
    } else {
      LeadsOn(Apply(a, es[0]), es[1..], b, fs, c);
      assert (es + fs)[1..] == es[1..] + fs;
    }
  }

  lemma OneEvent(s: State, e: Event)
    requires Enabled(s, e)
    ensures Leads(s, [e], Apply(s, e))
  {
    hide Apply, Enabled;
    assert [e][1..] == [];
  }

  lemma {:induction false} LeadsRun(a: State, es: seq<Event>, b: State) returns (run: seq<State>)
    requires Leads(a, es, b)
    ensures |run| == |es| + 1 && run[0] == a && run[|es|] == b
    ensures forall i :: 0 <= i < |es| ==> Enabled(run[i], es[i]) && run[i + 1] == Apply(run[i], es[i])
    decreases |es|
  {
    hide Apply, Enabled;
    if es == [] {
      run := [a];
    } else {
      var more := LeadsRun(Apply(a, es[0]), es[1..], b);
      run := [a] + more;
      forall i | 0 <= i < |es| ensures Enabled(run[i], es[i]) && run[i + 1] == Apply(run[i], es[i]) {
        if i > 0 { assert run[i] == more[i - 1] && es[i] == es[1..][i - 1]; }
      }
    }
  }

  /** A socket with one pipe, number 0. */
  function One(c: Chan, fd: Fd, threads: map<Tid, Pc>): State {
    State(map[0 := c], fd, threads)
  }

  function Looking(again: bool): Pc { Scan({0}, again, Next, {}) }

  function Looked(again: bool): Pc { Scan({}, again, Next, {}) }

  lemma PutSame(c: Chan, d: Chan)
    ensures map[0 := c][0 := d] == map[0 := d]
  {
  }

  /** A step of thread `t` that stores the cap it holds. */
  lemma StoreHeld(c: Chan, fd: Fd, ts: map<Tid, Pc>, t: Tid, again: bool, cap: nat)
    requires t in ts && ts[t] == Scan({0}, again, Holding(0, cap), {})
    ensures Enabled(One(c, fd, ts), Step(t, 0, true))
    ensures Apply(One(c, fd, ts), Step(t, 0, true)) ==
            One(c.(account := c.account.Capped(cap)), fd, ts[t := Scan({0}, again, Checking(0), {})])
  {
    hide Account.Capped;
    PutSame(c, c.(account := c.account.Capped(cap)));
  }

  lemma Judge(c: Chan, fd: Fd, ts: map<Tid, Pc>, t: Tid, again: bool)
    requires t in ts && ts[t] == Scan({0}, again, Checking(0), {})
    ensures Enabled(One(c, fd, ts), Step(t, 0, true))
    ensures Apply(One(c, fd, ts), Step(t, 0, true)) ==
            One(c, fd, ts[t := if c.account.Room() then Signal(Cas, {}) else Looked(again)])
  {
    hide Account.Room;
    assert {0} - {0} == {};
  }

  function Thrice(t: Tid): seq<Event> {
    [Step(t, 0, true)] + [Step(t, 0, true)] + [Step(t, 0, true)]
  }

  /** A look at the pipe that nothing overtakes. */
  lemma WholeLook(c: Chan, fd: Fd, ts: map<Tid, Pc>, t: Tid, again: bool)
    requires t in ts && ts[t] == Looking(again) && c.account == Asked(c)
    ensures Leads(One(c, fd, ts), Thrice(t), One(c, fd, ts[t := if c.account.Room() then Signal(Cas, {}) else Looked(again)]))
  {
    hide Account.Capped, Account.Room, Leads, CapOf;
    var e := Step(t, 0, true);
    var s0, s1 := One(c, fd, ts), One(c, fd, ts[t := Scan({0}, again, Holding(0, CapOf(c.rcvbuf)), {})]);
    assert Enabled(s0, e) && Apply(s0, e) == s1;
    OneEvent(s0, e);
    StoreHeld(c, fd, s1.threads, t, again, CapOf(c.rcvbuf));
    var s2 := Apply(s1, e);
    assert s2 == One(c, fd, ts[t := Scan({0}, again, Checking(0), {})]);
    OneEvent(s1, e);
    LeadsOn(s0, [e], s1, [e], s2);
    Judge(c, fd, s2.threads, t, again);
    OneEvent(s2, e);
    LeadsOn(s0, [e] + [e], s2, [e], Apply(s2, e));
    assert Apply(s2, e).threads == ts[t := if c.account.Room() then Signal(Cas, {}) else Looked(again)];
  }

  /** The unsignal after a look that found no room. */
  lemma Clear(c: Chan, fd: Fd, ts: map<Tid, Pc>, t: Tid)
    requires t in ts && ts[t] == Looked(false)
    ensures Leads(One(c, fd, ts), Thrice(t) + [Step(t, 0, true)], One(c, Fd(false, 0), ts[t := Looking(true)]))
  {
    hide Leads;
    var e := Step(t, 0, true);
    var s0, s1 := One(c, fd, ts), One(c, fd, ts[t := Unsignal(Efd.Store, {})]);
    var s2 := One(c, fd.(signaled := false), ts[t := Unsignal(Drain, {})]);
    var s3 := One(c, Fd(false, 0), ts[t := Unsignal(Load, {})]);
    var s4 := One(c, Fd(false, 0), ts[t := Looking(true)]);
    assert Enabled(s0, e) && Apply(s0, e) == s1;
    assert Enabled(s1, e) && Apply(s1, e) == s2;
    assert Enabled(s2, e) && Apply(s2, e) == s3;
    assert Enabled(s3, e) && Apply(s3, e) == s4 by { assert map[0 := c].Keys == {0}; }
    OneEvent(s0, e); OneEvent(s1, e); OneEvent(s2, e); OneEvent(s3, e);
    LeadsOn(s0, [e], s1, [e], s2);
    LeadsOn(s0, [e] + [e], s2, [e], s3);
    LeadsOn(s0, Thrice(t), s3, [e], s4);
  }

  /** A look that found room ends with the flag set. */
  lemma Raise(c: Chan, ts: map<Tid, Pc>, t: Tid)
    requires t in ts && ts[t] == Signal(Cas, {})
    ensures Leads(One(c, Fd(false, 0), ts), [Step(t, 0, true)] + [Step(t, 0, true)], One(c, Fd(true, 1), ts - {t}))
  {
    hide Leads;
    var e := Step(t, 0, true);
    var s0, s1 := One(c, Fd(false, 0), ts), One(c, Fd(true, 0), ts[t := Signal(Write, {})]);
    var s2 := One(c, Fd(true, 1), ts - {t});
    assert Enabled(s0, e) && Apply(s0, e) == s1;
    assert Enabled(s1, e) && Apply(s1, e) == s2 by { assert ts[t := Signal(Write, {})] - {t} == ts - {t}; }
    OneEvent(s0, e); OneEvent(s1, e);
    LeadsOn(s0, [e], s1, [e], s2);
  }

  lemma Leave(c: Chan, fd: Fd, ts: map<Tid, Pc>, t: Tid)
    requires t in ts && ts[t] == Looked(true)
    ensures Leads(One(c, fd, ts), [Step(t, 0, true)], One(c, fd, ts - {t}))
  {
    hide Leads;
    OneEvent(One(c, fd, ts), Step(t, 0, true));
  }

  /** A queue that holds one byte, under the cap `cap`. */
  function Full(cap: nat, rcvbuf: int): Chan {
    Chan(Account(cap, 1, 0), [1], rcvbuf)
  }

  lemma Caps()
    ensures Asked(Full(1, 1)) == Full(1, 1).account && !Full(1, 1).account.Room()
    ensures Asked(Full(10, 10)) == Full(10, 10).account && Full(10, 10).account.Room()
    ensures Full(10, 10).account.Capped(1) == Full(1, 10).account && !Full(1, 10).account.Room()
    ensures Full(1, 10).account.Capped(10) == Full(10, 10).account && Asked(Full(1, 10)).Room()
    ensures var c := Chan(Account(1, 0, 0), [], 1); Asked(c) == c.account && c.account.Room() && c.account.Pushed(1) == Full(1, 1).account
  {
  }

  /** The pipe is attached and its queue filled. */
  lemma Filled(init: State) returns (events: seq<Event>)
    requires Init(init)
    ensures Leads(init, events, One(Full(1, 1), Fd(false, 0), map[]))
  {
    hide Leads, Account.Capped, Account.Room, Account.Pushed, Account.Rechecked;
    Caps();
    var c := Chan(Account(1, 0, 0), [], 1);
    var e := AddPipe(0, 0, c);
    var s1 := One(c, Fd(false, 0), map[0 := Looking(false)]);
    assert Enabled(init, e) && Apply(init, e) == s1 by { assert map[0 := c].Keys == {0}; }
    OneEvent(init, e);
    WholeLook(c, s1.fd, s1.threads, 0, false);
    Raise(c, map[0 := Signal(Cas, {})], 0);
    var s2 := One(c, Fd(true, 1), map[]);
    assert s1.threads[0 := Signal(Cas, {})] == map[0 := Signal(Cas, {})];
    assert map[0 := Signal(Cas, {})] - {0} == map[];
    LeadsOn(s1, Thrice(0), One(c, s1.fd, map[0 := Signal(Cas, {})]), [Step(0, 0, true)] + [Step(0, 0, true)], s2);
    LeadsOn(init, [e], s1, Thrice(0) + ([Step(0, 0, true)] + [Step(0, 0, true)]), s2);
    var more := PushOne(c);
    events := [e] + (Thrice(0) + ([Step(0, 0, true)] + [Step(0, 0, true)]));
    LeadsOn(init, events, s2, more, One(Full(1, 1), Fd(false, 0), map[]));
    events := events + more;
  }

  lemma PushStep(c: Chan, fd: Fd)
    requires c == Chan(Account(1, 0, 0), [], 1)
    ensures var s := One(c, fd, map[0 := PushTo(0, 1)]);
            Enabled(s, Step(0, 0, true)) && Apply(s, Step(0, 0, true)) == One(Full(1, 1), fd, map[0 := Looking(false)])
  {
    hide Account.Pushed;
    Caps();
    var s := One(c, fd, map[0 := PushTo(0, 1)]);
    PutSame(c, Full(1, 1));
    assert [] + [1] == [1] && Push(s, 0, 1).chans == map[0 := Full(1, 1)];
    assert map[0 := Full(1, 1)].Keys == {0};
  }

  lemma PushOne(c: Chan) returns (events: seq<Event>)
    requires c == Chan(Account(1, 0, 0), [], 1)
    ensures Leads(One(c, Fd(true, 1), map[]), events, One(Full(1, 1), Fd(false, 0), map[]))
  {
    hide Leads, Account.Capped, Account.Room, Account.Pushed, Account.Rechecked;
    Caps();
    var e := Step(0, 0, true);
    var fd := Fd(true, 1);
    var s0 := One(c, fd, map[]);
    var s1 := One(c, fd, map[0 := CapPush(0, 1)]);
    var s2 := One(c, fd, map[0 := StorePush(0, 1, 1)]);
    var s3 := One(c, fd, map[0 := PushTo(0, 1)]);
    var s4 := One(Full(1, 1), fd, map[0 := Looking(false)]);
    assert Enabled(s0, StartPush(0, 0, 1)) && Apply(s0, StartPush(0, 0, 1)) == s1;
    assert Enabled(s1, e) && Apply(s1, e) == s2;
    assert Enabled(s2, e) && Apply(s2, e) == s3;
    PushStep(c, fd);
    OneEvent(s0, StartPush(0, 0, 1)); OneEvent(s1, e); OneEvent(s2, e); OneEvent(s3, e);
    LeadsOn(s0, [StartPush(0, 0, 1)], s1, [e], s2);
    LeadsOn(s0, [StartPush(0, 0, 1)] + [e], s2, [e], s3);
    events := [StartPush(0, 0, 1)] + [e] + [e];
    LeadsOn(s0, events, s3, [e], s4);
    var more := SyncsOut(fd, map[], 0);
    LeadsOn(s0, events + [e], s4, more, One(Full(1, 1), Fd(false, 0), map[] - {0}));
    events := events + [e] + more;
    var none: map<Tid, Pc> := map[];
    assert none - {0} == none;
  }

  /** The first half of a sync of the full queue. */
  lemma SyncsIn(fd: Fd, ts: map<Tid, Pc>, t: Tid) returns (events: seq<Event>)
    requires t in ts && ts[t] == Looking(false)
    ensures Leads(One(Full(1, 1), fd, ts), events, One(Full(1, 1), Fd(false, 0), ts[t := Looking(true)]))
  {
    hide Leads, Account.Capped, Account.Room, Account.Pushed, Account.Rechecked;
    Caps();
    WholeLook(Full(1, 1), fd, ts, t, false);
    var mid := ts[t := Looked(false)];
    Clear(Full(1, 1), fd, mid, t);
    assert mid[t := Looking(true)] == ts[t := Looking(true)];
    events := Thrice(t) + (Thrice(t) + [Step(t, 0, true)]);
    LeadsOn(One(Full(1, 1), fd, ts), Thrice(t), One(Full(1, 1), fd, mid), Thrice(t) + [Step(t, 0, true)],
            One(Full(1, 1), Fd(false, 0), ts[t := Looking(true)]));
  }

  /** A whole sync of the full queue. */
  lemma SyncsOut(fd: Fd, ts: map<Tid, Pc>, t: Tid) returns (events: seq<Event>)
    ensures Leads(One(Full(1, 1), fd, ts[t := Looking(false)]), events, One(Full(1, 1), Fd(false, 0), ts - {t}))
  {
    hide Leads, Account.Capped, Account.Room, Account.Pushed, Account.Rechecked;
    Caps();
    var c, s0 := Full(1, 1), One(Full(1, 1), fd, ts[t := Looking(false)]);
    events := SyncsIn(fd, ts[t := Looking(false)], t);
    var ts1 := ts[t := Looking(true)];
    assert ts[t := Looking(false)][t := Looking(true)] == ts1;
    WholeLook(c, Fd(false, 0), ts1, t, true);
    assert ts1[t := Looked(true)] == ts[t := Looked(true)];
    Leave(c, Fd(false, 0), ts[t := Looked(true)], t);
    assert ts[t := Looked(true)] - {t} == ts - {t};
    LeadsOn(One(c, Fd(false, 0), ts1), Thrice(t), One(c, Fd(false, 0), ts[t := Looked(true)]), [Step(t, 0, true)],
            One(c, Fd(false, 0), ts - {t}));
    LeadsOn(s0, events, One(c, Fd(false, 0), ts1), Thrice(t) + [Step(t, 0, true)], One(c, Fd(false, 0), ts - {t}));
    events := events + (Thrice(t) + [Step(t, 0, true)]);
  }

  /** Thread 1 comes to a rescan and reads the cap 1; thread 2 has looked once. */
  lemma BothLook(init: State) returns (events: seq<Event>)
    requires Init(init)
    ensures Leads(init, events, One(Full(1, 1), Fd(false, 0), map[1 := Scan({0}, true, Holding(0, 1), {}), 2 := Looked(false)]))
  {
    hide Leads, Account.Capped, Account.Room, Account.Pushed, Account.Rechecked;
    Caps();
    var c, fd := Full(1, 1), Fd(false, 0);
    assert map[0 := c].Keys == {0};
    var held := Scan({0}, true, Holding(0, 1), {});
    events := Filled(init);
    var s0, s1 := One(c, fd, map[]), One(c, fd, map[1 := Looking(false)]);
    assert Enabled(s0, StartSync(1)) && Apply(s0, StartSync(1)) == s1;
    OneEvent(s0, StartSync(1));
    LeadsOn(init, events, s0, [StartSync(1)], s1);
    var more := SyncsIn(fd, s1.threads, 1);
    assert s1.threads[1 := Looking(true)] == map[1 := Looking(true)];
    var s2, s3 := One(c, fd, map[1 := Looking(true)]), One(c, fd, map[1 := held]);
    LeadsOn(init, events + [StartSync(1)], s1, more, s2);
    assert Enabled(s2, Step(1, 0, true)) && Apply(s2, Step(1, 0, true)) == s3;
    OneEvent(s2, Step(1, 0, true));
    LeadsOn(init, events + [StartSync(1)] + more, s2, [Step(1, 0, true)], s3);
    events := events + [StartSync(1)] + more + [Step(1, 0, true)];
    var s4 := One(c, fd, map[1 := held, 2 := Looking(false)]);
    assert Enabled(s3, StartSync(2)) && Apply(s3, StartSync(2)) == s4;
    OneEvent(s3, StartSync(2));
    LeadsOn(init, events, s3, [StartSync(2)], s4);
    WholeLook(c, fd, s4.threads, 2, false);
    assert s4.threads[2 := Looked(false)] == map[1 := held, 2 := Looked(false)];
    LeadsOn(init, events + [StartSync(2)], s4, Thrice(2), One(c, fd, map[1 := held, 2 := Looked(false)]));
    events := events + [StartSync(2)] + Thrice(2);
  }

  /** Thread 3 changes MB_RCVBUF from 1 to 10 and sets the cap. */
  lemma SetsCap(ts: map<Tid, Pc>) returns (events: seq<Event>)
    requires 3 !in ts
    ensures Leads(One(Full(1, 1), Fd(false, 0), ts), events, One(Full(10, 10), Fd(false, 0), ts[3 := Looking(false)]))
  {
    hide Leads, Account.Capped, Account.Room, Account.Pushed, Account.Rechecked;
    Caps();
    var e, fd := Step(3, 0, true), Fd(false, 0);
    var set10 := SetBuf(3, {0}, 10);
    var s0 := One(Full(1, 1), fd, ts);
    var s1 := One(Full(1, 10), fd, ts[3 := Notify({0})]);
    var s2 := One(Full(1, 10), fd, ts[3 := StoreNotify(0, 10, {})]);
    assert Resized(map[0 := Full(1, 1)], {0}, 10) == map[0 := Full(1, 10)];
    assert Enabled(s0, set10) && Apply(s0, set10) == s1;
    assert Enabled(s1, e) && Apply(s1, e) == s2 by { assert {0} - {0} == {}; }
    OneEvent(s0, set10); OneEvent(s1, e); OneEvent(s2, e);
    NotifyStores(fd, ts);
    LeadsOn(s0, [set10], s1, [e], s2);
    LeadsOn(s0, [set10] + [e], s2, [e], Apply(s2, e));
    events := [set10] + [e] + [e];
  }

  lemma NotifyStores(fd: Fd, ts: map<Tid, Pc>)
    ensures var s := One(Full(1, 10), fd, ts[3 := StoreNotify(0, 10, {})]);
            && Enabled(s, Step(3, 0, true))
            && Apply(s, Step(3, 0, true)) == One(Full(10, 10), fd, ts[3 := Looking(false)])
  {
    hide Account.Capped;
    Caps();
    PutSame(Full(1, 10), Full(10, 10));
    assert map[0 := Full(10, 10)].Keys == {0};
    assert ts[3 := StoreNotify(0, 10, {})][3 := Looking(false)] == ts[3 := Looking(false)];
  }

  /** Then it finds room and raises the flag. */
  lemma Changes(ts: map<Tid, Pc>) returns (events: seq<Event>)
    requires 3 !in ts
    ensures Leads(One(Full(1, 1), Fd(false, 0), ts), events, One(Full(10, 10), Fd(true, 1), ts))
  {
    hide Leads, Account.Capped, Account.Room;
    Caps();
    var e, fd := Step(3, 0, true), Fd(false, 0);
    events := SetsCap(ts);
    var s0, s3 := One(Full(1, 1), fd, ts), One(Full(10, 10), fd, ts[3 := Looking(false)]);
    WholeLook(Full(10, 10), fd, s3.threads, 3, false);
    var ts1 := ts[3 := Signal(Cas, {})];
    assert s3.threads[3 := Signal(Cas, {})] == ts1 && ts1 - {3} == ts;
    Raise(Full(10, 10), ts1, 3);
    LeadsOn(s0, events, s3, Thrice(3), One(Full(10, 10), fd, ts1));
    LeadsOn(s0, events + Thrice(3), One(Full(10, 10), fd, ts1), [e] + [e], One(Full(10, 10), Fd(true, 1), ts));
    events := events + Thrice(3) + ([e] + [e]);
  }

  /** Thread 2 clears the flag and sets the cap 10; thread 1 stores its cap 1; neither
      finds room. */
  lemma Overtakes() returns (events: seq<Event>)
    ensures var held := Scan({0}, true, Holding(0, 1), {});
            Leads(One(Full(10, 10), Fd(true, 1), map[1 := held, 2 := Looked(false)]), events, One(Full(1, 10), Fd(false, 0), map[]))
  {
    hide Leads, Account.Capped, Account.Room, Account.Pushed, Account.Rechecked;
    Caps();
    var held, ten := Scan({0}, true, Holding(0, 1), {}), Scan({0}, true, Holding(0, 10), {});
    var check := Scan({0}, true, Checking(0), {});
    var c, d, fd := Full(10, 10), Full(1, 10), Fd(false, 0);
    var s0 := One(c, Fd(true, 1), map[1 := held, 2 := Looked(false)]);
    Clear(c, Fd(true, 1), s0.threads, 2);
    var s1 := One(c, fd, map[1 := held, 2 := Looking(true)]);
    assert s0.threads[2 := Looking(true)] == s1.threads;
    events := Thrice(2) + [Step(2, 0, true)];
    var s2 := One(c, fd, map[1 := held, 2 := ten]);
    assert Enabled(s1, Step(2, 0, true)) && Apply(s1, Step(2, 0, true)) == s2;
    OneEvent(s1, Step(2, 0, true));
    LeadsOn(s0, events, s1, [Step(2, 0, true)], s2);
    StoreHeld(c, fd, s2.threads, 2, true, 10);
    var s3 := One(c, fd, map[1 := held, 2 := check]);
    assert Apply(s2, Step(2, 0, true)) == s3;
    OneEvent(s2, Step(2, 0, true));
    LeadsOn(s0, events + [Step(2, 0, true)], s2, [Step(2, 0, true)], s3);
    StoreHeld(c, fd, s3.threads, 1, true, 1);
    var s4 := One(d, fd, map[1 := check, 2 := check]);
    assert Apply(s3, Step(1, 0, true)) == s4;
    OneEvent(s3, Step(1, 0, true));
    events := events + [Step(2, 0, true)] + [Step(2, 0, true)];
    LeadsOn(s0, events, s3, [Step(1, 0, true)], s4);
    var more := BothLeave();
    LeadsOn(s0, events + [Step(1, 0, true)], s4, more, One(d, fd, map[]));
    events := events + [Step(1, 0, true)] + more;
  }

  lemma BothLeave() returns (events: seq<Event>)
    ensures var check := Scan({0}, true, Checking(0), {});
            Leads(One(Full(1, 10), Fd(false, 0), map[1 := check, 2 := check]), events, One(Full(1, 10), Fd(false, 0), map[]))
  {
    hide Leads, Account.Room;
    Caps();
    var check, d, fd := Scan({0}, true, Checking(0), {}), Full(1, 10), Fd(false, 0);
    var s0 := One(d, fd, map[1 := check, 2 := check]);
    Judge(d, fd, s0.threads, 2, true);
    OneEvent(s0, Step(2, 0, true));
    var ts1: map<Tid, Pc> := map[1 := check, 2 := Looked(true)];
    assert s0.threads[2 := Looked(true)] == ts1;
    Leave(d, fd, ts1, 2);
    var ts2: map<Tid, Pc> := map[1 := check];
    assert ts1 - {2} == ts2;
    LeadsOn(s0, [Step(2, 0, true)], One(d, fd, ts1), [Step(2, 0, true)], One(d, fd, ts2));
    Judge(d, fd, ts2, 1, true);
    OneEvent(One(d, fd, ts2), Step(1, 0, true));
    var ts3: map<Tid, Pc> := map[1 := Looked(true)];
    assert ts2[1 := Looked(true)] == ts3;
    Leave(d, fd, ts3, 1);
    assert ts3 - {1} == map[];
    events := [Step(2, 0, true)] + [Step(2, 0, true)];
    LeadsOn(s0, events, One(d, fd, ts2), [Step(1, 0, true)], One(d, fd, ts3));
    LeadsOn(s0, events + [Step(1, 0, true)], One(d, fd, ts3), [Step(1, 0, true)], One(d, fd, map[]));
    events := events + [Step(1, 0, true)] + [Step(1, 0, true)];
  }

  /** A run that loses a wake-up.  One byte is queued under an MB_RCVBUF of 1.  Thread
      1, in a rescan, has read 1 when thread 3 changes it to 10 and raises the flag;
      thread 2, which had found no room before, clears the flag and sets the cap 10;
      then thread 1 stores its 1, and both find no room. */
  lemma LosesWakeup() returns (run: seq<State>, events: seq<Event>)
    ensures Run(run, events) && run[|run| - 1].threads == map[] && Lost(run[|run| - 1]) && Lags(run[|run| - 1], 0)
  {
    hide Leads, Account.Room, Account.Capped;
    Caps();
    var init := State(map[], Fd(false, 0), map[]);
    var ts: map<Tid, Pc> := map[1 := Scan({0}, true, Holding(0, 1), {}), 2 := Looked(false)];
    var e1 := BothLook(init);
    var e2 := Changes(ts);
    var e3 := Overtakes();
    var end := One(Full(1, 10), Fd(false, 0), map[]);
    LeadsOn(init, e1, One(Full(1, 1), Fd(false, 0), ts), e2, One(Full(10, 10), Fd(true, 1), ts));
    LeadsOn(init, e1 + e2, One(Full(10, 10), Fd(true, 1), ts), e3, end);
    events := e1 + e2 + e3;
    run := LeadsRun(init, events, end);
    assert 0 in end.chans && Asked(end.chans[0]).Room();
  }
}
