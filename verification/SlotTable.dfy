/** The socket table of src/core/global.c: slots handed out from a free stack,
    reference holds, and closing, as interleaved steps of any number of threads. */
module SlotTable {
  import opened Common

  const MAX: nat := 1024  // MB_MAX_SOCKETS

  type Sid = nat
  type Tid = nat

  /** `slot` and `closer` record where the socket was published and which thread
      unpublished it; `frees` counts how often it was freed. */
  datatype Sock = Sock(slot: nat, holds: int, stopping: bool, frees: nat, closer: Option<Tid>)

  datatype Table = Table(socks: seq<Option<Sid>>, unused: seq<nat>, nsocks: nat)

  /** Where a thread stands: Closing(s, k) is mb_close after unpublishing (k = 0),
      flagging (1), the two releases (2, 3) and the end of the wait (4). */
  datatype Pc = Idle | Using(s: Sid) | Closing(s: Sid, k: nat) | Terming

  /** `crashed` is the end of the process through a null pointer or freed memory. */
  datatype State = State(table: Option<Table>, socks: map<Sid, Sock>, threads: map<Tid, Pc>, next: Sid, crashed: bool)

  datatype Event =
    | Socket(known: bool, mem: bool, ok: bool)
                              // mb_socket: the domain is known, a table could be allocated,
                              // and so could the socket
    | Hold(t: Tid, slot: int) // mb_global_hold_socket
    | Rele(t: Tid)            // mb_global_rele_socket
    | Close(t: Tid, slot: int)
    | Flag(t: Tid)
    | Drop(t: Tid)
    | Waited(t: Tid)
    | Free(t: Tid)
    | Term(t: Tid)

  // ---------- Steps ----------

  function FreshTable(): Table {
    Table(seq(MAX, _ => None), seq(MAX, i requires 0 <= i < MAX => (MAX - i - 1) as nat), 0)
  }

  /** mb_global_term */
  function Tidied(st: State): State {
    if st.table.Some? && st.table.value.nsocks == 0 then st.(table := None) else st
  }

  predicate Published(st: State, slot: int) {
    && 0 <= slot < MAX && st.table.Some? && slot < |st.table.value.socks|
    && st.table.value.socks[slot].Some?
  }

  function At(st: State, slot: int): Sid
    requires Published(st, slot)
  {
    st.table.value.socks[slot].value
  }

  predicate Enabled(st: State, e: Event) {
    !st.crashed &&
    match e
    case Socket(_, _, _) =>
      st.table.Some? ==>
        && |st.table.value.socks| == MAX && |st.table.value.unused| == MAX
        && (st.table.value.nsocks < MAX ==> st.table.value.unused[MAX - st.table.value.nsocks - 1] < MAX)
    case Hold(t, slot) =>
      t in st.threads && st.threads[t] == Idle && (Published(st, slot) ==> At(st, slot) in st.socks)
    case Rele(t) => t in st.threads && st.threads[t].Using? && st.threads[t].s in st.socks
    case Close(t, slot) =>
      && t in st.threads && st.threads[t] == Idle
      && (Published(st, slot) ==>
            At(st, slot) in st.socks && 0 < st.table.value.nsocks <= MAX && |st.table.value.unused| == MAX)
    case Flag(t) => InClose(st, t, 0)
    case Drop(t) => InClose(st, t, 1) || InClose(st, t, 2)
    case Waited(t) => InClose(st, t, 3) && st.socks[st.threads[t].s].holds <= 0
    case Free(t) => InClose(st, t, 4)
    case Term(t) => t in st.threads && st.threads[t] == Terming
  }

  predicate InClose(st: State, t: Tid, k: nat) {
    t in st.threads && st.threads[t].Closing? && st.threads[t].k == k && st.threads[t].s in st.socks
  }

  function Apply(st: State, e: Event): State
    requires Enabled(st, e)
  {
    match e
    case Socket(known, mem, ok) =>
      if st.table.None? && !mem then (if known then st.(crashed := true) else st) else
      var st' := if st.table.None? then st.(table := Some(FreshTable())) else st;
      var tb := st'.table.value;
      if !known || tb.nsocks >= MAX || !ok then Tidied(st')
      else
        var slot := tb.unused[MAX - tb.nsocks - 1];
        st'.(table := Some(Table(tb.socks[slot := Some(st.next)], tb.unused, tb.nsocks + 1)),
             socks := st.socks[st.next := Sock(slot, 2, false, 0, None)], next := st.next + 1)
    case Hold(t, slot) =>
      if 0 <= slot < MAX && st.table.None? then st.(crashed := true)
      else if !Published(st, slot) || st.socks[At(st, slot)].stopping then st
      else
        var s := At(st, slot);
        st.(socks := st.socks[s := st.socks[s].(holds := st.socks[s].holds + 1)],
            threads := st.threads[t := Using(s)])
    case Rele(t) =>
      var s := st.threads[t].s;
      st.(socks := st.socks[s := st.socks[s].(holds := st.socks[s].holds - 1)], threads := st.threads[t := Idle])
    case Close(t, slot) =>
      if !Published(st, slot) then st
      else
        var s, tb := At(st, slot), st.table.value;
        st.(table := Some(Table(tb.socks[slot := None], tb.unused[MAX - tb.nsocks := slot], tb.nsocks - 1)),
            socks := st.socks[s := st.socks[s].(closer := Some(t))],
            threads := st.threads[t := Closing(s, 0)])
    case Flag(t) =>
      var s := st.threads[t].s;
      st.(socks := st.socks[s := st.socks[s].(stopping := true)], threads := st.threads[t := Closing(s, 1)])
    case Drop(t) =>
      var s, k := st.threads[t].s, st.threads[t].k;
      st.(socks := st.socks[s := st.socks[s].(holds := st.socks[s].holds - 1)],
          threads := st.threads[t := Closing(s, k + 1)])
    case Waited(t) => st.(threads := st.threads[t := Closing(st.threads[t].s, 4)])
    case Free(t) =>
      var s := st.threads[t].s;
      st.(socks := st.socks[s := st.socks[s].(frees := st.socks[s].frees + 1)], threads := st.threads[t := Terming])
    case Term(t) => Tidied(st.(threads := st.threads[t := Idle]))
  }

  ghost predicate Init(st: State) {
    st.table == None && st.socks == map[] && !st.crashed && forall t :: t in st.threads ==> st.threads[t] == Idle
  }

  /** `run` is a run of the system under `events`. */
  ghost predicate Run(run: seq<State>, events: seq<Event>) {
    && |run| == |events| + 1 && Init(run[0])
    && forall i :: 0 <= i < |events| ==> Step(run, events, i)
  }

  ghost predicate Step(run: seq<State>, events: seq<Event>, i: nat)
    requires i < |events| < |run|
  {
    Enabled(run[i], events[i]) && run[i + 1] == Apply(run[i], events[i])
  }

  // ---------- Invariant ----------

  function Stack(tb: Table): seq<nat>
    requires tb.nsocks <= MAX == |tb.unused|
  {
    tb.unused[..MAX - tb.nsocks]
  }

  /** The free stack lists exactly the empty slots, each once. */
  ghost predicate TableOk(tb: Table) {
    && tb.nsocks <= MAX == |tb.unused| == |tb.socks|
    && Distinct(Stack(tb))
    && (forall i {:trigger tb.socks[i]} :: 0 <= i < MAX ==> (tb.socks[i].None? <==> i in Stack(tb)))
    && (forall x :: x in Stack(tb) ==> x < MAX)
    && tb.nsocks == |Live(tb)|
  }

  ghost function Live(tb: Table): set<nat>
    requires |tb.socks| == MAX
  {
    set i | 0 <= i < MAX && tb.socks[i].Some?
  }

  ghost function Users(threads: map<Tid, Pc>, s: Sid): set<Tid> {
    set t | t in threads && threads[t] == Using(s)
  }

  /** The references that mb_close has yet to drop. */
  function Permanent(k: nat): nat {
    if k <= 1 then 2 else if k == 2 then 1 else 0
  }

  /** Holds are the permanent references plus one per user; a socket is freed once
      at most, by the thread that unpublished it, after its last user left. */
  ghost predicate SockOk(st: State, s: Sid)
    requires s in st.socks
  {
    var q := st.socks[s];
    var users := Users(st.threads, s);
    match q.closer
    case None =>
      && Published(st, q.slot) && At(st, q.slot) == s && !q.stopping && q.frees == 0
      && q.holds == 2 + |users|
    case Some(t) =>
      if q.frees == 0 then
        && t in st.threads && st.threads[t].Closing? && st.threads[t].s == s && st.threads[t].k <= 4
        && q.holds == Permanent(st.threads[t].k) + |users|
        && (st.threads[t].k == 4 ==> users == {}) && q.stopping == (st.threads[t].k > 0)
      else q.frees == 1 && users == {} && q.stopping
  }

  ghost predicate ThreadOk(st: State, t: Tid)
    requires t in st.threads
  {
    match st.threads[t]
    case Using(s) => s in st.socks
    case Closing(s, k) => s in st.socks && st.socks[s].closer == Some(t) && st.socks[s].frees == 0
    case _ => true
  }

  ghost predicate SlotsOk(st: State) {
    st.table.Some? ==>
      && TableOk(st.table.value)
      && forall i {:trigger Published(st, i)} :: Published(st, i) ==>
           At(st, i) in st.socks && st.socks[At(st, i)].slot == i && st.socks[At(st, i)].closer == None
  }

  ghost predicate Inv(st: State) {
    && SlotsOk(st)
    && (forall s {:trigger SockOk(st, s)} :: s in st.socks ==> SockOk(st, s))
    && (forall t {:trigger ThreadOk(st, t)} :: t in st.threads ==> ThreadOk(st, t))
    && (forall s :: s in st.socks ==> s < st.next)
  }

  // ---------- Every step keeps it ----------

  lemma UsersSet(threads: map<Tid, Pc>, t: Tid, pc: Pc, s: Sid)
    ensures Users(threads[t := pc], s) == (Users(threads, s) - {t}) + if pc == Using(s) then {t} else {}
  {
  }

  /** A thread that is not using the socket moves to another place. */
  lemma UsersSame(threads: map<Tid, Pc>, t: Tid, pc: Pc, s: Sid)
    requires t in threads && threads[t] != Using(s) && pc != Using(s)
    ensures Users(threads[t := pc], s) == Users(threads, s)
  {
    UsersSet(threads, t, pc, s);
  }

  /** What a step does not touch stays as good: the socket, its place in the table,
      its users and the thread that closes it. */
  lemma SockKept(st: State, st': State, s: Sid)
    requires s in st.socks && SockOk(st, s) && s in st'.socks && st'.socks[s] == st.socks[s]
    requires Users(st'.threads, s) == Users(st.threads, s)
    requires st.socks[s].closer == None ==> Published(st', st.socks[s].slot) && At(st', st.socks[s].slot) == s
    requires st.socks[s].closer.Some? && st.socks[s].frees == 0 ==>
      var t := st.socks[s].closer.value; t in st'.threads && st'.threads[t] == st.threads[t]
    ensures SockOk(st', s)
  {
  }

  lemma FreshTableOk()
    ensures TableOk(FreshTable())
  {
    var tb := FreshTable();
    assert Stack(tb) == tb.unused;
    forall i | 0 <= i < MAX ensures i in Stack(tb) {
      assert Stack(tb)[MAX - i - 1] == i;
    }
    assert Live(tb) == {};
  }

  lemma Pushed(tb: Table, slot: nat)
    requires TableOk(tb) && slot < MAX && tb.socks[slot].Some?
    ensures tb.nsocks > 0
    ensures TableOk(Table(tb.socks[slot := None], tb.unused[MAX - tb.nsocks := slot], tb.nsocks - 1))
  {
    assert slot in Live(tb);
    var tb' := Table(tb.socks[slot := None], tb.unused[MAX - tb.nsocks := slot], tb.nsocks - 1);
    assert Stack(tb') == Stack(tb) + [slot];
    assert Live(tb') == Live(tb) - {slot};
    assert tb.socks[slot].Some?;
  }

  lemma Popped(tb: Table, s: Sid)
    requires TableOk(tb) && tb.nsocks < MAX
    ensures var slot := tb.unused[MAX - tb.nsocks - 1];
            slot < MAX && tb.socks[slot].None? && TableOk(Table(tb.socks[slot := Some(s)], tb.unused, tb.nsocks + 1))
  {
    var n := MAX - tb.nsocks - 1;
    var slot := tb.unused[n];
    assert Stack(tb)[n] == slot && slot in Stack(tb);
    assert tb.socks[slot].None?;
    var tb' := Table(tb.socks[slot := Some(s)], tb.unused, tb.nsocks + 1);
    assert Stack(tb') == Stack(tb)[..n];
    DropLast(Stack(tb));
    assert Live(tb') == Live(tb) + {slot};
  }

  lemma DropLast(s: seq<nat>)
    requires Distinct(s) && s != []
    ensures var n := |s| - 1; Distinct(s[..n]) && forall x :: x in s[..n] <==> x in s && x != s[n]
  {
    var n := |s| - 1;
    assert s == s[..n] + [s[n]];
  }

  lemma TidiedInv(st: State)
    requires Inv(st)
    ensures Inv(Tidied(st))
  {
    var st' := Tidied(st);
    if st' != st {
      forall s | s in st'.socks ensures SockOk(st', s) {
        assert SockOk(st, s);
        assert st.socks[s].closer == None ==> st.socks[s].slot in Live(st.table.value);
      }
      forall t | t in st'.threads ensures ThreadOk(st', t) { assert ThreadOk(st, t); }
    }
  }

  /** A new table publishes nothing. */
  lemma NewTableInv(st: State)
    requires Inv(st) && st.table.None?
    ensures Inv(st.(table := Some(FreshTable())))
  {
    FreshTableOk();
    var mid := st.(table := Some(FreshTable()));
    forall s | s in mid.socks ensures SockOk(mid, s) { assert SockOk(st, s); }
    forall t | t in mid.threads ensures ThreadOk(mid, t) { assert ThreadOk(st, t); }
  }

  lemma SocketReady(st: State)
    requires Inv(st) && !st.crashed
    ensures forall known, mem, ok :: Enabled(st, Socket(known, mem, ok))
  {
    if st.table.Some? && st.table.value.nsocks < MAX { Popped(st.table.value, 0); }
  }

  lemma SocketInv(st: State, known: bool, mem: bool, ok: bool)
    requires Inv(st) && Enabled(st, Socket(known, mem, ok))
    ensures Inv(Apply(st, Socket(known, mem, ok)))
  {
    hide Inv, FreshTable;
    if st.table.None? && !mem {
      CrashedInv(st);
    } else {
      var mid := if st.table.None? then st.(table := Some(FreshTable())) else st;
      if st.table.None? { NewTableInv(st); FreshTableOk(); }
      if !known || mid.table.value.nsocks >= MAX || !ok {
        TidiedInv(mid);
      } else {
        SocketReady(mid);
        OpenInv(mid);
      }
    }
  }

  /** A new socket takes the top slot of the stack. */
  lemma OpenInv(st: State)
    requires Inv(st) && st.table.Some? && st.table.value.nsocks < MAX && Enabled(st, Socket(true, true, true))
    ensures Inv(Apply(st, Socket(true, true, true)))
  {
    var st', tb := Apply(st, Socket(true, true, true)), st.table.value;
    Popped(tb, st.next);
    var slot := tb.unused[MAX - tb.nsocks - 1];
    forall s | s in st'.socks ensures SockOk(st', s) {
      if s == st.next {
        forall t | t in st.threads ensures st.threads[t] != Using(s) { assert ThreadOk(st, t); }
        assert Users(st'.threads, s) == {};
      } else {
        assert SockOk(st, s);
        SockKept(st, st', s);
      }
    }
    forall t | t in st'.threads ensures ThreadOk(st', t) { assert ThreadOk(st, t); }
    forall i | Published(st', i)
      ensures At(st', i) in st'.socks && st'.socks[At(st', i)].slot == i && st'.socks[At(st', i)].closer == None
    {
      if i != slot { assert Published(st, i); }
    }
  }

  /** The thread is idle or at work on socket `s`. */
  predicate About(pc: Pc, s: Sid) {
    pc == Idle || pc == Terming || pc.s == s
  }

  /** One thread at work on one socket: all else is as good as before. */
  lemma OneMoves(st: State, st': State, t: Tid, s: Sid)
    requires Inv(st) && t in st.threads && t in st'.threads && s in st.socks && s in st'.socks
    requires st' == st.(threads := st.threads[t := st'.threads[t]], socks := st.socks[s := st'.socks[s]])
    requires About(st.threads[t], s) && About(st'.threads[t], s)
    requires st'.socks[s].slot == st.socks[s].slot && st'.socks[s].closer == st.socks[s].closer
    requires st'.socks[s].frees == st.socks[s].frees || st.socks[s].closer == Some(t)
    requires SockOk(st', s) && ThreadOk(st', t)
    ensures Inv(st')
  {
    hide TableOk;
    forall q | q in st'.socks ensures SockOk(st', q) {
      assert SockOk(st, q);
      if q != s {
        UsersSame(st.threads, t, st'.threads[t], q);
        SockKept(st, st', q);
      }
    }
    forall u | u in st'.threads ensures ThreadOk(st', u) { assert ThreadOk(st, u); }
    SlotsKept(st, st');
  }

  lemma HoldInv(st: State, t: Tid, slot: int)
    requires Inv(st) && Enabled(st, Hold(t, slot))
    ensures Inv(Apply(st, Hold(t, slot)))
  {
    hide TableOk, FreshTable, Tidied;
    var st' := Apply(st, Hold(t, slot));
    if st'.crashed {
      CrashedInv(st);
    } else if st' != st {
      var s := At(st, slot);
      assert SockOk(st, s);
      UsersSet(st.threads, t, Using(s), s);
      OneMoves(st, st', t, s);
    }
  }

  lemma CrashedInv(st: State)
    requires Inv(st)
    ensures Inv(st.(crashed := true))
  {
    var st' := st.(crashed := true);
    forall q | q in st'.socks ensures SockOk(st', q) {
      assert SockOk(st, q);
      SockKept(st, st', q);
    }
    forall u | u in st'.threads ensures ThreadOk(st', u) { assert ThreadOk(st, u); }
    SlotsKept(st, st');
  }

  lemma SlotsKept(st: State, st': State)
    requires SlotsOk(st) && st'.table == st.table
    requires forall s :: s in st.socks ==>
      s in st'.socks && st'.socks[s].slot == st.socks[s].slot && st'.socks[s].closer == st.socks[s].closer
    ensures SlotsOk(st')
  {
    forall i | Published(st', i)
      ensures At(st', i) in st'.socks && st'.socks[At(st', i)].slot == i && st'.socks[At(st', i)].closer == None
    {
      assert Published(st, i);
    }
  }

  lemma ReleInv(st: State, t: Tid)
    requires Inv(st) && Enabled(st, Rele(t))
    ensures Inv(Apply(st, Rele(t)))
  {
    hide SlotsOk, FreshTable, Tidied;
    var s := st.threads[t].s;
    assert SockOk(st, s);
    assert t in Users(st.threads, s);
    UsersSet(st.threads, t, Idle, s);
    OneMoves(st, Apply(st, Rele(t)), t, s);
  }

  lemma CloseInv(st: State, t: Tid, slot: int)
    requires Inv(st) && Enabled(st, Close(t, slot))
    ensures Inv(Apply(st, Close(t, slot)))
  {
    hide FreshTable, Tidied, TableOk;
    var st' := Apply(st, Close(t, slot));
    if Published(st, slot) {
      var s := At(st, slot);
      assert SockOk(st, s);
      Pushed(st.table.value, slot);
      forall q | q in st'.socks ensures SockOk(st', q) {
        assert SockOk(st, q);
        UsersSame(st.threads, t, Closing(s, 0), q);
        if q != s { SockKept(st, st', q); }
      }
      forall u | u in st'.threads ensures ThreadOk(st', u) { assert ThreadOk(st, u); }
      forall i | Published(st', i)
        ensures At(st', i) in st'.socks && st'.socks[At(st', i)].slot == i && st'.socks[At(st', i)].closer == None
      {
        assert Published(st, i);
      }
    }
  }

  /** The steps of mb_close between unpublishing and the end. */
  lemma ClosingInv(st: State, e: Event)
    requires Inv(st) && Enabled(st, e) && (e.Flag? || e.Drop? || e.Waited? || e.Free?)
    ensures Inv(Apply(st, e))
  {
    hide SlotsOk, FreshTable, Tidied;
    var st', t := Apply(st, e), e.t;
    var s := st.threads[t].s;
    assert ThreadOk(st, t);
    assert SockOk(st, s);
    UsersSame(st.threads, t, st'.threads[t], s);
    assert st.socks[s := st.socks[s]] == st.socks;
    OneMoves(st, st', t, s);
  }

  lemma TermInv(st: State, t: Tid)
    requires Inv(st) && Enabled(st, Term(t))
    ensures Inv(Apply(st, Term(t)))
    ensures Apply(st, Term(t)).table.None? <==> forall slot :: !Published(st, slot)
  {
    var mid := st.(threads := st.threads[t := Idle]);
    forall q | q in mid.socks ensures SockOk(mid, q) {
      assert SockOk(st, q);
      UsersSame(st.threads, t, Idle, q);
      SockKept(st, mid, q);
    }
    forall u | u in mid.threads ensures ThreadOk(mid, u) { assert ThreadOk(st, u); }
    SlotsKept(st, mid);
    TidiedInv(mid);
    TornDown(st);
  }

  /** The count of sockets is zero if and only if no slot is published. */
  lemma TornDown(st: State)
    requires SlotsOk(st)
    ensures (st.table.Some? ==> st.table.value.nsocks > 0) && st.table.Some? <==> exists slot :: Published(st, slot)
  {
    if st.table.Some? {
      var live := Live(st.table.value);
      if live != {} {
        var slot :| slot in live;
        assert Published(st, slot);
      }
      forall slot | Published(st, slot) ensures slot in live { }
    }
  }

  lemma StepInv(st: State, e: Event)
    requires Inv(st) && Enabled(st, e)
    ensures Inv(Apply(st, e))
  {
    match e
    case Socket(known, mem, ok) => SocketInv(st, known, mem, ok);
    case Hold(t, slot) => HoldInv(st, t, slot);
    case Rele(t) => ReleInv(st, t);
    case Close(t, slot) => CloseInv(st, t, slot);
    case Flag(_) => ClosingInv(st, e);
    case Drop(_) => ClosingInv(st, e);
    case Waited(_) => ClosingInv(st, e);
    case Free(_) => ClosingInv(st, e);
    case Term(t) => TermInv(st, t);
  }

  lemma {:induction false} RunInv(run: seq<State>, events: seq<Event>, n: nat)
    requires Run(run, events) && n < |run|
    ensures Inv(run[n])
  {
    if n > 0 {
      RunInv(run, events, n - 1);
      assert Step(run, events, n - 1);
      StepInv(run[n - 1], events[n - 1]);
    }
  }

  // ---------- What it means ----------

  /** In every reachable state each slot is either published or on the first
      MAX - nsocks entries of the free stack, never both, and no entry is there
      twice. */
  lemma SlotsPartitioned(run: seq<State>, events: seq<Event>, n: nat)
    requires Run(run, events) && n < |run| && run[n].table.Some?
    ensures var tb := run[n].table.value;
            && tb.nsocks <= MAX == |tb.unused| == |tb.socks| && Distinct(Stack(tb)) && |Live(tb)| == tb.nsocks
            && (forall slot :: 0 <= slot < MAX ==> (Published(run[n], slot) <==> slot !in Stack(tb)))
            && (forall x :: x in Stack(tb) ==> x < MAX)
    ensures forall i, j :: Published(run[n], i) && Published(run[n], j) && At(run[n], i) == At(run[n], j) ==> i == j
  {
    RunInv(run, events, n);
  }

  /** A socket is freed once, by the thread that unpublished it, when it is flagged as
      stopping and no reference to it is left. */
  lemma FreedAfterLastHold(run: seq<State>, events: seq<Event>, i: nat)
    requires Run(run, events) && i < |events| && events[i].Free?
    ensures Enabled(run[i], events[i])
    ensures var s := run[i].threads[events[i].t].s;
            && run[i].socks[s].holds == 0 && Users(run[i].threads, s) == {} && run[i].socks[s].frees == 0
            && s in run[i + 1].socks && run[i + 1].socks[s].frees == 1
            && run[i].socks[s].closer == Some(events[i].t) && run[i].socks[s].stopping
  {
    assert Step(run, events, i);
    RunInv(run, events, i);
    var t := events[i].t;
    assert ThreadOk(run[i], t);
    assert SockOk(run[i], run[i].threads[t].s);
  }

  /** A socket is flagged as stopping if and only if its close has gone past that. */
  lemma StoppingIff(run: seq<State>, events: seq<Event>, n: nat, s: Sid)
    requires Run(run, events) && n < |run| && s in run[n].socks
    ensures run[n].socks[s].stopping <==>
      run[n].socks[s].frees > 0 || exists t :: t in run[n].threads && PastFlag(run[n].threads[t], s)
  {
    RunInv(run, events, n);
    assert SockOk(run[n], s);
    forall t | t in run[n].threads && PastFlag(run[n].threads[t], s) ensures run[n].socks[s].closer == Some(t) {
      assert ThreadOk(run[n], t);
    }
  }

  /** The thread is closing the socket and has flagged it. */
  predicate PastFlag(pc: Pc, s: Sid) {
    pc.Closing? && pc.s == s && pc.k > 0
  }

  /** No thread that uses or is closing a socket sees it freed. */
  lemma NoUseAfterFree(run: seq<State>, events: seq<Event>, n: nat, t: Tid)
    requires Run(run, events) && n < |run| && t in run[n].threads
    requires run[n].threads[t].Using? || run[n].threads[t].Closing?
    ensures var s := run[n].threads[t].s; s in run[n].socks && run[n].socks[s].frees == 0 && run[n].socks[s].holds >= 0
    ensures run[n].threads[t].Using? ==> run[n].socks[run[n].threads[t].s].holds > 0
  {
    RunInv(run, events, n);
    var s := run[n].threads[t].s;
    assert ThreadOk(run[n], t);
    assert SockOk(run[n], s);
    if run[n].threads[t].Using? { assert t in Users(run[n].threads, s); }
  }

  ghost predicate Unpublished(st: State, s: Sid) {
    s in st.socks && st.socks[s].closer.Some?
  }

  lemma UnpublishedStep(st: State, e: Event, s: Sid)
    requires Inv(st) && Enabled(st, e) && Unpublished(st, s)
    ensures Unpublished(Apply(st, e), s) && Users(Apply(st, e).threads, s) <= Users(st.threads, s)
  {
    var st' := Apply(st, e);
    if e.Hold? && st' != st && !st'.crashed {
      assert Published(st, e.slot);
      UsersSet(st.threads, e.t, Using(At(st, e.slot)), s);
    }
  }

  /** Once a socket is unpublished no thread gets a new hold on it. */
  lemma {:induction false} NoHoldAfterUnpublish(run: seq<State>, events: seq<Event>, i: nat, j: nat, s: Sid)
    requires Run(run, events) && i <= j < |run| && Unpublished(run[i], s)
    ensures Unpublished(run[j], s) && Users(run[j].threads, s) <= Users(run[i].threads, s)
    decreases j - i
  {
    if i < j {
      NoHoldAfterUnpublish(run, events, i, j - 1, s);
      RunInv(run, events, j - 1);
      assert Step(run, events, j - 1);
      UnpublishedStep(run[j - 1], events[j - 1], s);
    }
  }

  /** The calls are defined in every reachable state. */
  lemma NeverStuck(run: seq<State>, events: seq<Event>, n: nat, t: Tid, slot: int, known: bool, mem: bool, ok: bool)
    requires Run(run, events) && n < |run| && t in run[n].threads && !run[n].crashed
    ensures Enabled(run[n], Socket(known, mem, ok))
    ensures run[n].threads[t] == Idle ==> Enabled(run[n], Close(t, slot)) && Enabled(run[n], Hold(t, slot))
    ensures run[n].threads[t].Using? ==> Enabled(run[n], Rele(t))
  {
    RunInv(run, events, n);
    var st := run[n];
    assert ThreadOk(st, t);
    SocketReady(st);
    if Published(st, slot) {
      assert At(st, slot) in st.socks;
      Pushed(st.table.value, slot);
    }
  }

  /** A hold gives the socket if and only if its slot is published, and takes the
      process down if and only if the slot number is in range and there is no table;
      any open socket is enough to prevent that. */
  lemma HoldOutcome(run: seq<State>, events: seq<Event>, n: nat, t: Tid, slot: int)
    requires Run(run, events) && n < |run| && t in run[n].threads && !run[n].crashed && run[n].threads[t] == Idle
    ensures Enabled(run[n], Hold(t, slot))
    ensures var st := Apply(run[n], Hold(t, slot));
            && (st.threads[t].Using? <==> Published(run[n], slot))
            && (Published(run[n], slot) ==> st.threads[t] == Using(At(run[n], slot)))
            && (st.crashed <==> 0 <= slot < MAX && run[n].table.None?)
            && (!st.crashed && !Published(run[n], slot) ==> st == run[n])
            && ((exists open :: Published(run[n], open)) ==> !st.crashed)
  {
    NeverStuck(run, events, n, t, slot, true, true, true);
    RunInv(run, events, n);
    if Published(run[n], slot) { assert SockOk(run[n], At(run[n], slot)); }
  }

  /** mb_socket takes the process down if and only if the domain is known, there is
      no table and none can be allocated.  It opens a socket if and only if the domain
      is known, the socket can be made, there is a table or memory for one, and fewer
      than MAX slots are published; the new socket is then published in a slot that
      was not, and every other slot keeps what it had. */
  lemma SocketOutcome(run: seq<State>, events: seq<Event>, n: nat, t: Tid, known: bool, mem: bool, ok: bool)
    requires Run(run, events) && n < |run| && t in run[n].threads && !run[n].crashed
    ensures var e := Socket(known, mem, ok);
            Enabled(run[n], e) && var st := Apply(run[n], e);
            && (st.crashed <==> known && !mem && run[n].table.None?)
            && (Opens(run[n], st) <==> known && ok && (run[n].table.Some? || mem) && |PublishedSlots(run[n])| < MAX)
            && (!Opens(run[n], st) ==> st.next == run[n].next && st.socks == run[n].socks && st.threads == run[n].threads)
            && (!Opens(run[n], st) ==> forall slot :: Published(st, slot) <==> Published(run[n], slot))
            && ((exists open :: Published(run[n], open)) ==> !st.crashed)
  {
    hide Inv, FreshTable;
    NeverStuck(run, events, n, t, 0, known, mem, ok);
    RunInv(run, events, n);
    CountPublished(run[n]);
    FreshTableOk();
    NoneInFresh();
    OpensIff(run[n], known, mem, ok);
  }

  ghost function PublishedSlots(st: State): set<nat> {
    set slot: nat | slot < MAX && Published(st, slot)
  }

  /** A new socket with two references is published in a slot that was free. */
  ghost predicate Opens(st: State, st': State) {
    && st'.next == st.next + 1 && st.next in st'.socks && st'.threads == st.threads
    && var slot := st'.socks[st.next].slot;
       && st'.socks == st.socks[st.next := Sock(slot, 2, false, 0, None)]
       && Published(st', slot) && At(st', slot) == st.next && !Published(st, slot)
       && forall i :: i != slot ==> (Published(st', i) <==> Published(st, i)) && (Published(st, i) ==> At(st', i) == At(st, i))
  }

  lemma CountPublished(st: State)
    requires Inv(st)
    ensures |PublishedSlots(st)| == if st.table.Some? then st.table.value.nsocks else 0
    ensures st.table.Some? ==> TableOk(st.table.value)
    ensures st.table.None? ==> forall slot :: !Published(st, slot)
  {
    if st.table.Some? { assert PublishedSlots(st) == Live(st.table.value); } else { assert PublishedSlots(st) == {}; }
  }

  lemma NoneInFresh()
    ensures |FreshTable().socks| == MAX && forall i :: 0 <= i < MAX ==> FreshTable().socks[i].None?
    ensures FreshTable().nsocks == 0
  {
  }

  lemma OpensIff(st: State, known: bool, mem: bool, ok: bool)
    requires Inv(st) && Enabled(st, Socket(known, mem, ok))
    requires TableOk(FreshTable()) && FreshTable().nsocks == 0 && forall i :: 0 <= i < MAX ==> FreshTable().socks[i].None?
    ensures var st' := Apply(st, Socket(known, mem, ok));
            && (Opens(st, st') <==> known && ok && (st.table.Some? || mem) && (st.table.Some? ==> st.table.value.nsocks < MAX))
            && (!Opens(st, st') ==> st'.next == st.next && st'.socks == st.socks && st'.threads == st.threads)
            && (!Opens(st, st') ==> forall slot :: Published(st', slot) <==> Published(st, slot))
  {
    hide FreshTable;
    var tb := if st.table.None? then FreshTable() else st.table.value;
    if tb.nsocks < MAX {
      Popped(tb, st.next);
      var slot := tb.unused[MAX - tb.nsocks - 1];
      assert slot in Stack(tb) && tb.socks[slot].None?;
    }
    if tb.nsocks == 0 { assert forall i :: 0 <= i < MAX ==> tb.socks[i].None? by { NoneLive(tb); } }
  }

  lemma NoneLive(tb: Table)
    requires TableOk(tb) && tb.nsocks == 0
    ensures forall i :: 0 <= i < MAX ==> tb.socks[i].None?
  {
    forall i | 0 <= i < MAX ensures tb.socks[i].None? { assert i !in Live(tb); }
  }

  /** mb_close takes a published slot off the table and nothing else, and a slot that
      is not published leaves everything as it was. */
  lemma CloseOutcome(run: seq<State>, events: seq<Event>, n: nat, t: Tid, slot: int)
    requires Run(run, events) && n < |run| && t in run[n].threads && !run[n].crashed && run[n].threads[t] == Idle
    ensures Enabled(run[n], Close(t, slot))
    ensures var st := Apply(run[n], Close(t, slot));
            && !Published(st, slot) && !st.crashed
            && (Published(run[n], slot) ==> st.threads[t] == Closing(At(run[n], slot), 0))
            && (!Published(run[n], slot) ==> st == run[n])
            && forall i :: i != slot ==> (Published(st, i) <==> Published(run[n], i)) && (Published(st, i) ==> At(st, i) == At(run[n], i))
  {
    hide Inv;
    NeverStuck(run, events, n, t, slot, true, true, true);
  }

  /** A call that goes through the table when there is none. */
  predicate Astray(st: State, e: Event) {
    st.table.None? && ((e.Hold? && 0 <= e.slot < MAX) || (e.Socket? && e.known && !e.mem))
  }

  /** Over whole runs: the process has gone down if and only if such a call was made. */
  lemma CrashIff(run: seq<State>, events: seq<Event>)
    requires Run(run, events)
    ensures run[|run| - 1].crashed <==> exists i :: 0 <= i < |events| && Astray(run[i], events[i])
  {
    forall i | 0 <= i < |events| ensures Astray(run[i], events[i]) <==> run[i + 1].crashed {
      assert Step(run, events, i);
    }
    forall i | 0 <= i < |events| ensures !run[i].crashed { assert Step(run, events, i); }
    if run[|run| - 1].crashed {
      assert events != [];
      assert Astray(run[|events| - 1], events[|events| - 1]);
    }
    forall i | 0 <= i < |events| && Astray(run[i], events[i]) ensures run[|run| - 1].crashed {
      assert i + 1 < |events| ==> !run[i + 1].crashed;
    }
  }

  /** mb_close is past its first critical section and before its last. */
  predicate CloseUnderway(st: State) {
    exists t :: t in st.threads && (st.threads[t].Closing? || st.threads[t] == Terming)
  }

  ghost predicate NoIdleTable(st: State) {
    st.table.Some? && (forall slot :: !Published(st, slot)) ==> CloseUnderway(st)
  }

  lemma IdleStep(st: State, e: Event)
    requires Inv(st) && NoIdleTable(st) && Enabled(st, e)
    ensures NoIdleTable(Apply(st, e))
  {
    var st' := Apply(st, e);
    TornDown(st);
    if st'.table.Some? && forall slot :: !Published(st', slot) {
      match e {
        case Socket(_, _, _) => StepInv(st, e); TornDown(st');
        case Close(t, slot) => if Published(st, slot) { assert st'.threads[t].Closing?; } else { assert st' == st; }
        case Term(t) => StepInv(st, e); TornDown(st');
        case _ =>
          assert forall slot :: Published(st, slot) <==> Published(st', slot);
          var w :| w in st.threads && (st.threads[w].Closing? || st.threads[w] == Terming);
          assert w in st'.threads && (st'.threads[w].Closing? || st'.threads[w] == Terming);
      }
    }
  }

  lemma {:induction false} RunTable(run: seq<State>, events: seq<Event>, n: nat)
    requires Run(run, events) && n < |run|
    ensures NoIdleTable(run[n])
  {
    if n > 0 {
      RunTable(run, events, n - 1);
      RunInv(run, events, n - 1);
      assert Step(run, events, n - 1);
      IdleStep(run[n - 1], events[n - 1]);
    }
  }

  /** When there is a table, in terms of the calls: always while a socket is open, and
      never while none is open and no mb_close is under way. */
  lemma TableWhen(run: seq<State>, events: seq<Event>, n: nat)
    requires Run(run, events) && n < |run|
    ensures (exists slot :: Published(run[n], slot)) ==> run[n].table.Some?
    ensures (forall slot :: !Published(run[n], slot)) && !CloseUnderway(run[n]) ==> run[n].table.None?
  {
    RunTable(run, events, n);
  }

  /** A hold of a slot by `t`, or an mb_socket that gets no table. */
  predicate Risky(e: Event, t: Tid) {
    (e.Hold? && e.t == t && 0 <= e.slot < MAX) || (e.Socket? && e.known && !e.mem)
  }

  /** Either call ends the process before the first socket is opened. */
  lemma CrashBeforeFirst(st: State, t: Tid, e: Event) returns (run: seq<State>, events: seq<Event>)
    requires Init(st) && t in st.threads && Risky(e, t)
    ensures Run(run, events) && run[0] == st && events == [e] && run[|run| - 1].crashed
  {
    events := [e];
    run := [st, Apply(st, e)];
    assert Step(run, events, 0);
  }

  /** And after the last socket is closed. */
  lemma CrashAfterLast(st: State, t: Tid, e: Event) returns (run: seq<State>, events: seq<Event>)
    requires Init(st) && t in st.threads && Risky(e, t)
    ensures Run(run, events) && run[0] == st && run[|run| - 1].crashed
    ensures events == [Socket(true, true, true), Close(t, 0), Flag(t), Drop(t), Drop(t), Waited(t), Free(t), Term(t), e]
  {
    hide Enabled, Apply;
    events := [Socket(true, true, true), Close(t, 0), Flag(t), Drop(t), Drop(t), Waited(t), Free(t), Term(t), e];
    OpenFirst(st);
    var s1 := Apply(st, Socket(true, true, true));
    CloseOnly(s1, t, st.next);
    var s2 := Apply(s1, Close(t, 0));
    CloseSteps(s2, t, st.next);
    var s3 := Apply(s2, Flag(t));
    var s4 := Apply(s3, Drop(t));
    var s5 := Apply(s4, Drop(t));
    LastSteps(s5, t, st.next);
    var s6 := Apply(s5, Waited(t));
    var s7 := Apply(s6, Free(t));
    var s8 := Apply(s7, Term(t));
    CrashNow(s8, t, e);
    run := [st, s1, s2, s3, s4, s5, s6, s7, s8, Apply(s8, e)];
    forall i | 0 <= i < |events| ensures Step(run, events, i) {
      OneOfNine(i);
    }
  }

  lemma OneOfNine(i: nat)
    requires i < 9
    ensures i == 0 || i == 1 || i == 2 || i == 3 || i == 4 || i == 5 || i == 6 || i == 7 || i == 8
  {
  }

  lemma OpenFirst(st: State)
    requires Init(st)
    ensures Enabled(st, Socket(true, true, true))
    ensures var s1 := Apply(st, Socket(true, true, true));
            && !s1.crashed && s1.threads == st.threads && Published(s1, 0) && At(s1, 0) == st.next
            && s1.table.value.nsocks == 1 && |s1.table.value.unused| == MAX
            && s1.socks == map[st.next := Sock(0, 2, false, 0, None)]
  {
    assert FreshTable().unused[MAX - 1] == 0;
  }

  lemma CloseOnly(s1: State, t: Tid, s: Sid)
    requires !s1.crashed && t in s1.threads && s1.threads[t] == Idle && Published(s1, 0) && At(s1, 0) == s
    requires s1.table.value.nsocks == 1 && |s1.table.value.unused| == MAX
    requires s1.socks == map[s := Sock(0, 2, false, 0, None)]
    ensures Enabled(s1, Close(t, 0))
    ensures var s2 := Apply(s1, Close(t, 0));
            && !s2.crashed && t in s2.threads && s2.threads[t] == Closing(s, 0)
            && s2.table.Some? && s2.table.value.nsocks == 0 && s in s2.socks && s2.socks[s].holds == 2
  {
  }

  lemma CloseSteps(s2: State, t: Tid, s: Sid)
    requires !s2.crashed && t in s2.threads && s2.threads[t] == Closing(s, 0)
    requires s2.table.Some? && s2.table.value.nsocks == 0 && s in s2.socks && s2.socks[s].holds == 2
    ensures Enabled(s2, Flag(t))
    ensures var s3 := Apply(s2, Flag(t));
            Enabled(s3, Drop(t)) && var s4 := Apply(s3, Drop(t));
            Enabled(s4, Drop(t)) && var s5 := Apply(s4, Drop(t));
            && !s5.crashed && t in s5.threads && s5.threads[t] == Closing(s, 3) && s5.table == s2.table
            && s in s5.socks && s5.socks[s].holds == 0
  {
  }

  lemma LastSteps(s5: State, t: Tid, s: Sid)
    requires !s5.crashed && t in s5.threads && s5.threads[t] == Closing(s, 3)
    requires s5.table.Some? && s5.table.value.nsocks == 0 && s in s5.socks && s5.socks[s].holds == 0
    ensures Enabled(s5, Waited(t))
    ensures var s6 := Apply(s5, Waited(t));
            Enabled(s6, Free(t)) && var s7 := Apply(s6, Free(t));
            Enabled(s7, Term(t)) && var s8 := Apply(s7, Term(t));
            !s8.crashed && t in s8.threads && s8.threads[t] == Idle && s8.table == None
  {
  }

  lemma CrashNow(st: State, t: Tid, e: Event)
    requires !st.crashed && t in st.threads && st.threads[t] == Idle && st.table == None && Risky(e, t)
    ensures Enabled(st, e) && Apply(st, e).crashed
  {
  }

  /** The next step of mb_close. */
  function NextStep(t: Tid, k: nat): Event {
    if k == 0 then Flag(t) else if k <= 2 then Drop(t) else if k == 3 then Waited(t) else Free(t)
  }

  /** A closing thread waits for nothing but the users of the socket. */
  lemma CloseWaitsForUsers(run: seq<State>, events: seq<Event>, n: nat, t: Tid)
    requires Run(run, events) && n < |run| && t in run[n].threads && run[n].threads[t].Closing? && !run[n].crashed
    ensures var s, k := run[n].threads[t].s, run[n].threads[t].k;
            Enabled(run[n], NextStep(t, k)) <==> k != 3 || Users(run[n].threads, s) == {}
  {
    RunInv(run, events, n);
    assert ThreadOk(run[n], t);
    assert SockOk(run[n], run[n].threads[t].s);
  }
}
