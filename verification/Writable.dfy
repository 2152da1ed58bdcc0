/** The send wake-up of a socket with any number of inproc pipes: pushes into the
    peers' bounded queues, the peers' pops, changes of their MB_RCVBUF, and the
    unsignal-then-recheck protocol of mb_sock_sync_sndfd, as atomic steps of any
    number of threads.

    A step is one critical section of a queue's mutex, one access to the event
    descriptor, or the unlocked read of MB_RCVBUF that comes before a cap is set;
    the probes of a scan over several pipes are separate steps. */
module Writable {
  import opened Common
  import opened Efd
  import opened MsgQueue

  type Tid = nat
  type Pipe = nat

  /** A peer's queue: its counters, the sizes of the queued messages and the
      MB_RCVBUF of the peer's socket. */
  datatype Chan = Chan(account: Account, sizes: seq<nat>, rcvbuf: int)

  /** Where a scan stands with one pipe: before the read of MB_RCVBUF, before the
      store of the cap that was read, before the look for room. */
  datatype Look = Next | Holding(pipe: Pipe, cap: nat) | Checking(pipe: Pipe)

  /** `cap` is a cap that was read and not yet stored; `todo` are the pipes that a
      change of MB_RCVBUF has still to look at. */
  datatype Pc =
    | CapPush(pipe: Pipe, sz: nat)               // mb_sinproc_send: about to read MB_RCVBUF
    | StorePush(pipe: Pipe, sz: nat, cap: nat)   // ... about to set the cap
    | PushTo(pipe: Pipe, sz: nat)                // ... about to push
    | PopFrom(pipe: Pipe)                        // mb_sinproc_recv of the peer: about to pop
    | CapPopped(pipe: Pipe)                      // ... about to read MB_RCVBUF
    | StorePopped(pipe: Pipe, cap: nat)          // ... about to set the cap
    | CheckPopped(pipe: Pipe)                    // ... about to look for room
    | Notify(todo: set<Pipe>)                    // mb_sock_setopt of the peer: the loop over its pipes
    | StoreNotify(pipe: Pipe, cap: nat, todo: set<Pipe>)
    | Scan(left: set<Pipe>, again: bool, look: Look, todo: set<Pipe>)
                                     // mb_sock_sync_sndfd: events(), before or after the unsignal
    | Signal(sig: Signaling, todo: set<Pipe>)
    | Unsignal(uns: Unsignaling, todo: set<Pipe>)

  datatype State = State(chans: map<Pipe, Chan>, fd: Fd, threads: map<Tid, Pc>)

  predicate Init(s: State) {
    s.chans == map[] && s.fd == Fd(false, 0) && s.threads == map[]
  }

  /** What mb_msgqueue_can_push says of a pipe under the cap in force. */
  predicate Room(s: State, p: Pipe) {
    p in s.chans && s.chans[p].account.Room()
  }

  /** The counters under the cap that MB_RCVBUF asks for. */
  function Asked(c: Chan): Account {
    c.account.Capped(CapOf(c.rcvbuf))
  }

  /** What mb_pipe_can_send says of some pipe when it is left alone. */
  predicate CanSend(s: State) {
    exists p :: p in s.chans && Asked(s.chans[p]).Room()
  }

  // ---------- Steps ----------

  function Goto(s: State, t: Tid, pc: Pc): State {
    s.(threads := s.threads[t := pc])
  }

  function Resume(s: State, t: Tid, todo: set<Pipe>): State {
    if todo == {} then s.(threads := s.threads - {t}) else Goto(s, t, Notify(todo))
  }

  function Sync(s: State, t: Tid, again: bool, todo: set<Pipe>): State {
    Goto(s, t, Scan(s.chans.Keys, again, Next, todo))
  }

  function Put(s: State, p: Pipe, c: Chan): State {
    s.(chans := s.chans[p := c])
  }

  /** mb_sinproc_sync_maxmem up to the call of mb_msgqueue_set_maxmem; a pipe that
      is gone has nothing to read. */
  function ReadCap(s: State, p: Pipe): nat {
    if p in s.chans then CapOf(s.chans[p].rcvbuf) else 0
  }

  /** mb_msgqueue_set_maxmem */
  function Store(s: State, p: Pipe, cap: nat): State {
    if p !in s.chans then s
    else var c := s.chans[p]; Put(s, p, c.(account := c.account.Capped(cap)))
  }

  /** mb_msgqueue_push */
  function Push(s: State, p: Pipe, sz: nat): State {
    if p !in s.chans then s
    else
      var c := s.chans[p];
      var fits := Fits(c.account.maxmem, c.account.mem, Charge(c.account.maxmem, sz));
      Put(s, p, c.(account := c.account.Pushed(sz), sizes := if fits then c.sizes + [sz] else c.sizes))
  }

  /** mb_msgqueue_pop */
  function Pop(s: State, p: Pipe): State
    requires p in s.chans && s.chans[p].sizes != []
  {
    var c := s.chans[p];
    Put(s, p, c.(account := c.account.Popped(c.sizes[0]), sizes := c.sizes[1..]))
  }

  datatype Event =
    | StartPush(t: Tid, pipe: Pipe, sz: nat)
    | StartPop(t: Tid, pipe: Pipe)
    | StartSync(t: Tid)
    | SetBuf(t: Tid, pipes: set<Pipe>, rcvbuf: int)
    | AddPipe(t: Tid, pipe: Pipe, chan: Chan)
    | RemovePipe(t: Tid, pipe: Pipe)
    | Step(t: Tid, pipe: Pipe, ok: bool)

  function ScanStep(s: State, t: Tid, pc: Pc, pipe: Pipe): State
    requires pc.Scan?
  {
    match pc.look
    case Next =>
      if pc.left != {} then Goto(s, t, pc.(look := Holding(pipe, ReadCap(s, pipe))))
      else if pc.again then Resume(s, t, pc.todo)
      else Goto(s, t, Unsignal(Efd.Store, pc.todo))
    case Holding(p, cap) => Goto(Store(s, p, cap), t, pc.(look := Checking(p)))
    case Checking(p) =>
      if Room(s, p) then Goto(s, t, Signal(Cas, pc.todo))
      else Goto(s, t, pc.(left := pc.left - {p}, look := Next))
  }

  /** `pipe` is the pipe that a loop over pipes looks at next; `ok` is false when a
      push finds no memory for a chunk. */
  function ThreadStep(s: State, t: Tid, pipe: Pipe, ok: bool): State
    requires t in s.threads
  {
    match s.threads[t]
    case CapPush(p, sz) => Goto(s, t, StorePush(p, sz, ReadCap(s, p)))
    case StorePush(p, sz, cap) => Goto(Store(s, p, cap), t, PushTo(p, sz))
    case PushTo(p, sz) => if ok then Sync(Push(s, p, sz), t, false, {}) else Sync(s, t, false, {})
    case PopFrom(p) =>
      if p in s.chans && s.chans[p].sizes != [] then Goto(Pop(s, p), t, CapPopped(p)) else Resume(s, t, {})
    case CapPopped(p) => Goto(s, t, StorePopped(p, ReadCap(s, p)))
    case StorePopped(p, cap) => Goto(Store(s, p, cap), t, CheckPopped(p))
    case CheckPopped(p) => if Room(s, p) then Goto(s, t, Signal(Cas, {})) else Resume(s, t, {})
    case Notify(todo) =>
      if todo == {} then Resume(s, t, {}) else Goto(s, t, StoreNotify(pipe, ReadCap(s, pipe), todo - {pipe}))
    case StoreNotify(p, cap, todo) => Sync(Store(s, p, cap), t, false, todo)
    case Scan(_, _, _, _) => ScanStep(s, t, s.threads[t], pipe)
    case Signal(sig, todo) =>
      var (fd, next) := SignalStep(s.fd, sig);
      var s' := s.(fd := fd);
      if next.Some? then Goto(s', t, Signal(next.value, todo)) else Resume(s', t, todo)
    case Unsignal(uns, todo) =>
      var (fd, next) := UnsignalStep(s.fd, uns);
      var s' := s.(fd := fd);
      if next.Some? then Goto(s', t, Unsignal(next.value, todo)) else Sync(s', t, true, todo)
  }

  /** The thread has read a cap for `p` and not stored it. */
  predicate Holds(pc: Pc, p: Pipe) {
    match pc
    case StorePush(q, _, _) => p == q
    case StorePopped(q, _) => p == q
    case StoreNotify(q, _, _) => p == q
    case Scan(_, _, look, _) => look.Holding? && look.pipe == p
    case _ => false
  }

  function HeldCap(pc: Pc, p: Pipe): nat
    requires Holds(pc, p)
  {
    if pc.Scan? then pc.look.cap else pc.cap
  }

  /** The name of a new pipe is new to every thread. */
  predicate Enabled(s: State, e: Event) {
    match e
    case Step(t, p, _) => t in s.threads && Looks(s.threads[t], p)
    case AddPipe(t, p, c) =>
      && t !in s.threads && p !in s.chans && c.account.Sound() && c.account.maxmem == CapOf(c.rcvbuf)
      && forall u :: u in s.threads ==> !Holds(s.threads[u], p)
    case _ => e.t !in s.threads
  }

  /** A loop looks only at pipes it has not looked at yet. */
  predicate Looks(pc: Pc, p: Pipe) {
    && (pc.Scan? && pc.look.Next? && pc.left != {} ==> p in pc.left)
    && (pc.Notify? && pc.todo != {} ==> p in pc.todo)
  }

  /** The MB_RCVBUF of the sockets behind `pipes` changes. */
  function Resized(chans: map<Pipe, Chan>, pipes: set<Pipe>, v: int): map<Pipe, Chan> {
    map p | p in chans :: if p in pipes then chans[p].(rcvbuf := v) else chans[p]
  }

  function Apply(s: State, e: Event): State
    requires Enabled(s, e)
  {
    match e
    case StartPush(t, p, sz) => Goto(s, t, CapPush(p, sz))
    case StartPop(t, p) => Goto(s, t, PopFrom(p))
    case StartSync(t) => Sync(s, t, false, {})
    case SetBuf(t, ps, v) => Goto(s.(chans := Resized(s.chans, ps, v)), t, Notify(ps))
    case AddPipe(t, p, c) => Sync(Put(s, p, c), t, false, {})
    case RemovePipe(t, p) => Sync(s.(chans := s.chans - {p}), t, false, {})
    case Step(t, p, ok) => ThreadStep(s, t, p, ok)
  }

  predicate Run(run: seq<State>, events: seq<Event>) {
    && |run| == |events| + 1
    && Init(run[0])
    && forall i :: 0 <= i < |events| ==> Enabled(run[i], events[i]) && run[i + 1] == Apply(run[i], events[i])
  }

  // ---------- Who still owes a wake-up ----------

  function Todo(pc: Pc): set<Pipe> {
    if pc.Notify? || pc.StoreNotify? || pc.Scan? || pc.Signal? || pc.Unsignal? then pc.todo else {}
  }

  /** A thread at this point will write to the kernel object, or will find the
      flag cleared by someone else. */
  predicate WillWrite(pc: Pc) {
    (pc.Signal? && pc.sig.Write?) || (pc.Unsignal? && (pc.uns.Load? || pc.uns.Rearm?))
  }

  /** A thread at this point will set the flag, or look at pipe `p` again. */
  predicate Owes(pc: Pc, p: Pipe) {
    p in Todo(pc) ||
    match pc
    case PushTo(_, _) => true
    case CapPopped(q) => p == q
    case StorePopped(q, _) => p == q
    case CheckPopped(q) => p == q
    case StoreNotify(_, _, _) => true
    case Scan(left, _, look, _) => p in left || (!look.Next? && look.pipe == p)
    case Signal(sig, _) => sig.Cas?
    case Unsignal(uns, _) => !uns.Store?
    case _ => false
  }

  ghost predicate FlagBacked(s: State) {
    s.fd.signaled && s.fd.counter == 0 ==> exists t :: t in s.threads && WillWrite(s.threads[t])
  }

  ghost predicate Sound(s: State, p: Pipe) {
    p in s.chans ==> s.chans[p].account.Sound()
  }

  ghost predicate PipeCovered(s: State, p: Pipe) {
    Room(s, p) && !s.fd.signaled ==> exists t :: t in s.threads && Owes(s.threads[t], p)
  }

  ghost predicate Inv(s: State) {
    && FlagBacked(s)
    && (forall p :: Sound(s, p))
    && (forall p :: PipeCovered(s, p))
  }

  /** What one event does to the descriptor: a set flag without a kernel count is
      left by a thread about to write, or was there before and not this thread's. */
  lemma FdStep(s: State, e: Event)
    requires Enabled(s, e)
    ensures var s' := Apply(s, e); s'.fd.signaled && s'.fd.counter == 0 ==>
      || (e.t in s'.threads && WillWrite(s'.threads[e.t]))
      || (s.fd.signaled && s.fd.counter == 0 && !(e.t in s.threads && WillWrite(s.threads[e.t])))
  {
    hide Account.Sound, Account.Room, Account.Rechecked, Account.Capped, Account.Pushed, Account.Popped, CapOf;
  }

  lemma FlagStep(s: State, e: Event)
    requires Inv(s) && Enabled(s, e)
    ensures FlagBacked(Apply(s, e))
  {
    hide Apply, Enabled, WillWrite, PipeCovered, Sound;
    var s' := Apply(s, e);
    FdStep(s, e);
    if s'.fd.signaled && s'.fd.counter == 0 && !(e.t in s'.threads && WillWrite(s'.threads[e.t])) {
      var w :| w in s.threads && WillWrite(s.threads[w]);
      OthersStay(s, e, w);
    }
  }

  /** The queue operations keep the counters sound.  A push makes no room anywhere,
      and neither a store nor a pop makes room in another queue. */
  lemma QueueStep(s: State, p: Pipe, q: Pipe, n: nat)
    requires forall r :: Sound(s, r)
    ensures Sound(Store(s, q, n), p) && (Room(Store(s, q, n), p) ==> Room(s, p) || p == q)
    ensures Sound(Push(s, q, n), p) && (Room(Push(s, q, n), p) ==> Room(s, p))
    ensures q in s.chans && s.chans[q].sizes != [] ==>
      Sound(Pop(s, q), p) && (Room(Pop(s, q), p) ==> Room(s, p) || p == q)
  {
    assert Sound(s, p) && Sound(s, q);
    if q in s.chans {
      var c := s.chans[q];
      MakesNoRoom(c.account, n);
      StaysSound(c.account, n);
      if c.sizes != [] { StaysSound(c.account, c.sizes[0]); }
    }
  }

  /** What one event does to pipe `p`: new room is seen by the thread that makes it. */
  lemma ChanStep(s: State, e: Event, p: Pipe)
    requires Inv(s) && Enabled(s, e)
    ensures var s' := Apply(s, e);
      && Sound(s', p)
      && (Room(s', p) ==> Room(s, p) || (e.t in s'.threads && Owes(s'.threads[e.t], p)))
  {
    hide Account.Sound, Account.Room, Account.Capped, Account.Pushed, Account.Popped, Account.Rechecked, CapOf, FlagBacked, PipeCovered, SignalStep, UnsignalStep;
    assert Sound(s, p);
    if e.Step? {
      match s.threads[e.t] {
        case StorePush(q, _, cap) => QueueStep(s, p, q, cap);
        case PushTo(q, sz) => QueueStep(s, p, q, sz);
        case PopFrom(q) => QueueStep(s, p, q, 0);
        case StorePopped(q, cap) => QueueStep(s, p, q, cap);
        case StoreNotify(q, cap, _) => QueueStep(s, p, q, cap);
        case Scan(_, _, look, _) => if look.Holding? { QueueStep(s, p, look.pipe, look.cap); }
        case _ =>
      }
    }
  }

  /** Only the thread of an event moves. */
  lemma OthersStay(s: State, e: Event, t: Tid)
    requires Enabled(s, e) && t in s.threads && t != e.t
    ensures t in Apply(s, e).threads && Apply(s, e).threads[t] == s.threads[t]
  {
    hide Account.Sound, Account.Room, Account.Rechecked, Account.Capped, Account.Pushed, Account.Popped, CapOf;
  }

  lemma OwesStays(s: State, e: Event, p: Pipe)
    requires Inv(s) && Enabled(s, e) && e.t in s.threads && Owes(s.threads[e.t], p)
    requires Room(Apply(s, e), p) && !Apply(s, e).fd.signaled
    ensures e.t in Apply(s, e).threads && Owes(Apply(s, e).threads[e.t], p)
  {
    hide Account.Sound, Account.Room, Account.Rechecked, Account.Capped, Account.Pushed, Account.Popped, CapOf, FlagBacked, PipeCovered;
  }

  lemma CoverStep(s: State, e: Event, p: Pipe)
    requires Inv(s) && Enabled(s, e)
    ensures PipeCovered(Apply(s, e), p)
  {
    hide Apply, Enabled, Room, Owes, FlagBacked, Sound;
    var s' := Apply(s, e);
    ChanStep(s, e, p);
    if Room(s', p) && !s'.fd.signaled && !(e.t in s'.threads && Owes(s'.threads[e.t], p)) {
      assert PipeCovered(s, p);
      if s.fd.signaled {
        OnlyStoreClears(s, e, p);
      } else {
        var w :| w in s.threads && Owes(s.threads[w], p);
        if w == e.t { OwesStays(s, e, p); } else { OthersStay(s, e, w); }
      }
    }
  }

  /** The thread that clears the flag owes every pipe another look. */
  lemma OnlyStoreClears(s: State, e: Event, p: Pipe)
    requires Enabled(s, e) && s.fd.signaled && !Apply(s, e).fd.signaled
    ensures e.t in Apply(s, e).threads && Owes(Apply(s, e).threads[e.t], p)
  {
    hide Account.Sound, Account.Room, Account.Rechecked, Account.Capped, Account.Pushed, Account.Popped, CapOf;
  }

  lemma StepInv(s: State, e: Event)
    requires Inv(s) && Enabled(s, e)
    ensures Inv(Apply(s, e))
  {
    hide Apply, Enabled;
    FlagStep(s, e);
    forall p ensures Sound(Apply(s, e), p) { ChanStep(s, e, p); }
    forall p ensures PipeCovered(Apply(s, e), p) { CoverStep(s, e, p); }
  }

  lemma {:induction false} RunInv(run: seq<State>, events: seq<Event>)
    requires Run(run, events)
    ensures Inv(run[|run| - 1])
    decreases |events|
  {
    if events != [] {
      RunInv(run[..|run| - 1], events[..|events| - 1]);
      StepInv(run[|run| - 2], events[|events| - 1]);
    }
  }

  /** A thread that has not yet touched a queue's counters or the descriptor. */
  predicate Fresh(pc: Pc) { pc.CapPush? || pc.PopFrom? }

  predicate AtRest(s: State) {
    forall t :: t in s.threads ==> Fresh(s.threads[t])
  }

  /** In every run, once no thread is midway, room in any peer's queue under the cap
      in force makes the descriptor readable. */
  lemma NoLostPollout(run: seq<State>, events: seq<Event>, p: Pipe)
    requires Run(run, events) && AtRest(run[|run| - 1]) && Room(run[|run| - 1], p)
    ensures run[|run| - 1].fd.Readable()
  {
    RunInv(run, events);
    assert PipeCovered(run[|run| - 1], p);
  }

  // ---------- Caps that were overtaken ----------

  /** The cap in force is not the one that MB_RCVBUF asks for. */
  predicate Lags(s: State, p: Pipe) {
    p in s.chans && s.chans[p].account.maxmem != CapOf(s.chans[p].rcvbuf)
  }

  /** The event stores a cap for `p`. */
  predicate Stores(s: State, e: Event, p: Pipe) {
    e.Step? && e.t in s.threads && p in s.chans && Holds(s.threads[e.t], p)
  }

  /** The event stores a cap for `p` that MB_RCVBUF does not ask for any more. */
  predicate Overtaken(s: State, e: Event, p: Pipe) {
    Stores(s, e, p) && HeldCap(s.threads[e.t], p) != CapOf(s.chans[p].rcvbuf)
  }

  function LateAfter(s: State, e: Event, p: Pipe, late: bool): bool {
    if Stores(s, e, p) then Overtaken(s, e, p)
    else if e.AddPipe? && e.pipe == p then false
    else late
  }

  /** The last cap stored for `p` was overtaken. */
  predicate Late(run: seq<State>, events: seq<Event>, p: Pipe)
    requires |run| == |events| + 1
    decreases |events|
  {
    events != [] &&
    var n := |events| - 1;
    LateAfter(run[n], events[n], p, Late(run[..n + 1], events[..n], p))
  }

  /** The thread that changed MB_RCVBUF is still to store the cap of `p`. */
  predicate Setter(pc: Pc, c: Chan, p: Pipe) {
    p in Todo(pc) || (pc.StoreNotify? && pc.pipe == p && pc.cap == CapOf(c.rcvbuf))
  }

  ghost predicate CapRight(s: State, p: Pipe, late: bool) {
    p in s.chans && (forall t :: t in s.threads ==> !Setter(s.threads[t], s.chans[p], p)) ==> (Lags(s, p) <==> late)
  }

  /** What one event does to the cap of `p` and to what is asked for. */
  lemma CapMoves(s: State, e: Event, p: Pipe)
    requires Enabled(s, e) && p in Apply(s, e).chans
    ensures var s' := Apply(s, e);
      if Stores(s, e, p) then Lags(s', p) <==> Overtaken(s, e, p)
      else if e.AddPipe? && e.pipe == p then !Lags(s', p)
      else
        && p in s.chans && s'.chans[p].account.maxmem == s.chans[p].account.maxmem
        && (s'.chans[p].rcvbuf == s.chans[p].rcvbuf || (e.SetBuf? && p in e.pipes))
  {
    hide Account.Sound, Account.Room, Account.Rechecked, Account.Pushed, Account.Popped, Account.Capped, CapOf;
    CappedMax(s, p);
    if e.Step? && e.t in s.threads {
      match s.threads[e.t] {
        case PushTo(q, sz) => if q in s.chans { MaxStays(s.chans[q].account, sz); }
        case PopFrom(q) => if q in s.chans && s.chans[q].sizes != [] { MaxStays(s.chans[q].account, s.chans[q].sizes[0]); }
        case _ =>
      }
    }
  }

  lemma CappedMax(s: State, p: Pipe)
    ensures p in s.chans ==> forall n: nat :: s.chans[p].account.Capped(n).maxmem == n
  {
  }

  lemma MaxStays(a: Account, n: nat)
    ensures a.Pushed(n).maxmem == a.maxmem && a.Popped(n).maxmem == a.maxmem
  {
  }

  lemma SetterStays(s: State, e: Event, t: Tid, p: Pipe)
    requires Enabled(s, e) && t in s.threads && p in s.chans && p in Apply(s, e).chans
    requires Setter(s.threads[t], s.chans[p], p) && !Stores(s, e, p)
    requires Apply(s, e).chans[p].rcvbuf == s.chans[p].rcvbuf
    ensures var s' := Apply(s, e); t in s'.threads && Setter(s'.threads[t], s'.chans[p], p)
  {
    hide Account.Sound, Account.Room, Account.Rechecked, Account.Pushed, Account.Popped, Account.Capped, CapOf;
    if t != e.t { OthersStay(s, e, t); }
  }

  lemma CapStep(s: State, e: Event, p: Pipe, late: bool)
    requires Enabled(s, e) && CapRight(s, p, late)
    ensures CapRight(Apply(s, e), p, LateAfter(s, e, p, late))
  {
    hide Apply, Enabled, Stores, Overtaken, Setter, CapOf;
    var s' := Apply(s, e);
    if p in s'.chans && forall t :: t in s'.threads ==> !Setter(s'.threads[t], s'.chans[p], p) {
      CapMoves(s, e, p);
      if !Stores(s, e, p) && !(e.AddPipe? && e.pipe == p) {
        if e.SetBuf? && p in e.pipes { ChangeSetsUp(s, e, p); }
        forall t | t in s.threads ensures !Setter(s.threads[t], s.chans[p], p) {
          if Setter(s.threads[t], s.chans[p], p) { SetterStays(s, e, t, p); }
        }
      }
    }
  }

  lemma ChangeSetsUp(s: State, e: Event, p: Pipe)
    requires Enabled(s, e) && e.SetBuf? && p in e.pipes && p in s.chans
    ensures var s' := Apply(s, e); p in s'.chans && e.t in s'.threads && Setter(s'.threads[e.t], s'.chans[p], p)
  {
  }

  lemma {:induction false} RunCaps(run: seq<State>, events: seq<Event>, p: Pipe)
    requires Run(run, events)
    ensures CapRight(run[|run| - 1], p, Late(run, events, p))
    decreases |events|
  {
    if events != [] {
      var n := |events| - 1;
      RunCaps(run[..n + 1], events[..n], p);
      CapStep(run[n], events[n], p, Late(run[..n + 1], events[..n], p));
    }
  }

  /** Once no thread is midway, the cap of a queue is the one that MB_RCVBUF asks for
      if and only if the last cap stored there was not overtaken. */
  lemma CapIff(run: seq<State>, events: seq<Event>, p: Pipe)
    requires Run(run, events) && AtRest(run[|run| - 1]) && p in run[|run| - 1].chans
    ensures Lags(run[|run| - 1], p) <==> Late(run, events, p)
  {
    hide Late, Lags;
    RunCaps(run, events, p);
  }

  /** MB_RCVBUF of `p` changed at step `i` while thread `t` held a cap read before. */
  ghost predicate ChangedUnder(run: seq<State>, events: seq<Event>, i: nat, t: Tid, p: Pipe) {
    && i < |events| && i < |run| && events[i].SetBuf? && p in events[i].pipes
    && t in run[i].threads && Holds(run[i].threads[t], p)
  }

  lemma HeldStep(s: State, e: Event, t: Tid, p: Pipe)
    requires Enabled(s, e) && t in Apply(s, e).threads && p in Apply(s, e).chans && Holds(Apply(s, e).threads[t], p)
    requires HeldCap(Apply(s, e).threads[t], p) != CapOf(Apply(s, e).chans[p].rcvbuf)
    ensures t in s.threads && s.threads[t] == Apply(s, e).threads[t]
    ensures (e.SetBuf? && p in e.pipes) || (p in s.chans && s.chans[p].rcvbuf == Apply(s, e).chans[p].rcvbuf)
  {
    hide Account.Sound, Account.Room, Account.Rechecked, Account.Pushed, Account.Popped, Account.Capped, CapOf;
    if t != e.t && t in s.threads { OthersStay(s, e, t); }
  }

  /** A cap that is out of date was read before a change of MB_RCVBUF and is still
      held after it. */
  lemma {:induction false} ReadBefore(run: seq<State>, events: seq<Event>, n: nat, t: Tid, p: Pipe) returns (i: nat)
    requires Run(run, events) && n < |run| && t in run[n].threads && p in run[n].chans && Holds(run[n].threads[t], p)
    requires HeldCap(run[n].threads[t], p) != CapOf(run[n].chans[p].rcvbuf)
    ensures i < n && ChangedUnder(run, events, i, t, p) && run[i].threads[t] == run[n].threads[t]
    decreases n
  {
    hide Apply, Enabled, CapOf, Holds, HeldCap;
    assert n > 0;
    HeldStep(run[n - 1], events[n - 1], t, p);
    if events[n - 1].SetBuf? && p in events[n - 1].pipes {
      i := n - 1;
    } else {
      i := ReadBefore(run, events, n - 1, t, p);
    }
  }

  /** MB_RCVBUF never changes while a thread holds a cap for one of its queues. */
  ghost predicate Orderly(run: seq<State>, events: seq<Event>) {
    forall i, t, p :: !ChangedUnder(run, events, i, t, p)
  }

  lemma {:induction false} NeverLate(run: seq<State>, events: seq<Event>, n: nat, p: Pipe)
    requires Run(run, events) && Orderly(run, events) && n <= |events|
    ensures !Late(run[..n + 1], events[..n], p)
    decreases n
  {
    hide Apply, Enabled, CapOf, Holds, HeldCap;
    if n > 0 {
      var r, es := run[..n + 1], events[..n];
      NeverLate(run, events, n - 1, p);
      assert r[..n] == run[..n] && es[..n - 1] == events[..n - 1];
      if Overtaken(run[n - 1], events[n - 1], p) {
        var i := ReadBefore(run, events, n - 1, events[n - 1].t, p);
        assert false;
      }
    }
  }

  /** A wake-up is lost: some peer has room by its MB_RCVBUF and nothing tells. */
  predicate Lost(s: State) {
    CanSend(s) && !s.fd.Readable()
  }

  /** Once no thread is midway, a wake-up is lost if and only if the descriptor is not
      readable and a queue whose last cap was overtaken has room by its MB_RCVBUF. */
  lemma LostIff(run: seq<State>, events: seq<Event>)
    requires Run(run, events) && AtRest(run[|run| - 1])
    ensures var s := run[|run| - 1];
      Lost(s) <==> !s.fd.Readable() && exists p :: p in s.chans && Late(run, events, p) && Asked(s.chans[p]).Room()
  {
    hide Late, Account.Room, Account.Rechecked, CapOf;
    var s := run[|run| - 1];
    if Lost(s) {
      var p :| p in s.chans && Asked(s.chans[p]).Room();
      CapIff(run, events, p);
      if !Late(run, events, p) {
        RunInv(run, events);
        assert Sound(s, p);
        CapIdle(s.chans[p]);
        NoLostPollout(run, events, p);
      }
    }
  }

  lemma CapIdle(c: Chan)
    requires c.account.Sound() && c.account.maxmem == CapOf(c.rcvbuf)
    ensures Asked(c) == c.account
  {
    MakesNoRoom(c.account, 0);
  }

  /** So none is lost, and every cap is right, in every run in which no change of
      MB_RCVBUF comes between a thread's read of it and its store of the cap. */
  lemma OrderlyPollout(run: seq<State>, events: seq<Event>)
    requires Run(run, events) && AtRest(run[|run| - 1]) && Orderly(run, events)
    ensures var s := run[|run| - 1]; !Lost(s) && forall p :: !Lags(s, p)
  {
    hide Late, Lost, Lags, Orderly, Asked;
    var s := run[|run| - 1];
    var n := |events|;
    assert run[..n + 1] == run && events[..n] == events;
    forall p ensures !Late(run, events, p) { NeverLate(run, events, n, p); }
    forall p ensures !Lags(s, p) { if p in s.chans { CapIff(run, events, p); } else { NotThere(s, p); } }
    LostIff(run, events);
  }

  lemma NotThere(s: State, p: Pipe)
    requires p !in s.chans
    ensures !Lags(s, p)
  {
  }

  // ---------- A sync that runs alone ----------

  /** The same queues, but for caps that were brought up to date. */
  ghost predicate Updated(chans: map<Pipe, Chan>, now: map<Pipe, Chan>) {
    && now.Keys == chans.Keys
    && forall p :: p in chans ==>
         Asked(now[p]) == Asked(chans[p]) && now[p].rcvbuf == chans[p].rcvbuf && now[p].sizes == chans[p].sizes
  }

  /** The look of a lone scan is at a pipe it has still to judge, with the right cap. */
  ghost predicate LookOk(s: State, left: set<Pipe>, look: Look) {
    match look
    case Next => true
    case Holding(p, cap) => p in left && p in s.chans && cap == CapOf(s.chans[p].rcvbuf)
    case Checking(p) => p in left && p in s.chans && s.chans[p].account == Asked(s.chans[p])
  }

  /** What a lone mb_sock_sync_sndfd has established at each point. */
  ghost predicate Solo(s: State, t: Tid, chans: map<Pipe, Chan>) {
    && Inv(s) && Updated(chans, s.chans)
    && (forall u :: u in s.threads && u != t ==> Fresh(s.threads[u]))
    && if t !in s.threads then s.fd.Readable() <==> CanSend(s)
       else Todo(s.threads[t]) == {} && match s.threads[t] {
         case Scan(left, again, look, _) =>
           && left <= s.chans.Keys && LookOk(s, left, look)
           && (forall p :: p in s.chans && Asked(s.chans[p]).Room() ==> p in left)
           && (again ==> !CanSend(s) && s.fd.counter == 0)
         case Unsignal(uns, _) =>
           && !CanSend(s) && !uns.Rearm?
           && (!uns.Store? ==> !s.fd.signaled) && (uns.Load? ==> s.fd.counter == 0)
         case Signal(_, _) => CanSend(s)
         case _ => false
       }
  }

  /** Setting the right cap changes nothing that is asked for. */
  lemma StoreAsked(s: State, p: Pipe)
    requires p in s.chans
    ensures var s' := Store(s, p, CapOf(s.chans[p].rcvbuf));
      && Updated(s.chans, s'.chans) && s'.chans[p].account == Asked(s'.chans[p]) && (CanSend(s') <==> CanSend(s))
  {
    var s' := Store(s, p, CapOf(s.chans[p].rcvbuf));
    var c := s.chans[p];
    assert Asked(c).Capped(CapOf(c.rcvbuf)) == Asked(c);
    forall q | q in s.chans ensures Asked(s'.chans[q]) == Asked(s.chans[q]) { }
  }

  lemma SoloFlag(s: State, t: Tid)
    requires Inv(s) && s.fd.signaled && t in s.threads && !WillWrite(s.threads[t])
    requires forall u :: u in s.threads && u != t ==> Fresh(s.threads[u])
    ensures s.fd.Readable()
  {
  }

  lemma SoloScan(s: State, t: Tid, p: Pipe, chans: map<Pipe, Chan>)
    requires Solo(s, t, chans) && t in s.threads && s.threads[t].Scan? && Looks(s.threads[t], p)
    requires Inv(ThreadStep(s, t, p, true))
    ensures Solo(ThreadStep(s, t, p, true), t, chans)
  {
    hide Account.Sound, Account.Room, Account.Rechecked, Account.Pushed, Account.Popped, Account.Capped, CapOf, Asked, Inv;
    var pc := s.threads[t];
    if pc.look.Holding? { StoreAsked(s, pc.look.pipe); }
  }

  lemma SoloFd(s: State, t: Tid, p: Pipe, chans: map<Pipe, Chan>)
    requires Solo(s, t, chans) && t in s.threads && !s.threads[t].Scan? && Inv(ThreadStep(s, t, p, true))
    ensures Solo(ThreadStep(s, t, p, true), t, chans)
  {
    hide Account.Sound, Account.Room, Account.Rechecked, Account.Pushed, Account.Popped, Account.Capped, CapOf, Asked, Inv, Updated;
    var pc := s.threads[t];
    if pc.Signal? && s.fd.signaled && pc.sig.Cas? { SoloFlag(s, t); }
  }

  lemma SoloStep(s: State, t: Tid, p: Pipe, ok: bool, chans: map<Pipe, Chan>)
    requires Solo(s, t, chans) && t in s.threads && Looks(s.threads[t], p)
    ensures Solo(ThreadStep(s, t, p, ok), t, chans)
  {
    assert ThreadStep(s, t, p, ok) == ThreadStep(s, t, p, true);
    StepInv(s, Step(t, p, true));
    if s.threads[t].Scan? { SoloScan(s, t, p, chans); } else { SoloFd(s, t, p, chans); }
  }

  /** The steps of a call that runs by itself. */
  predicate Alone(t: Tid, states: seq<State>, steps: seq<Event>) {
    && |states| == |steps| + 1
    && forall i :: 0 <= i < |steps| ==>
         && steps[i].Step? && steps[i].t == t && Enabled(states[i], steps[i]) && states[i + 1] == Apply(states[i], steps[i])
  }

  lemma {:induction false} SoloSteps(chans: map<Pipe, Chan>, t: Tid, sync: seq<State>, steps: seq<Event>)
    requires Alone(t, sync, steps) && Solo(sync[0], t, chans)
    ensures Solo(sync[|steps|], t, chans)
    decreases |steps|
  {
    hide Solo, ThreadStep;
    if steps != [] {
      var n := |steps| - 1;
      SoloSteps(chans, t, sync[..n + 1], steps[..n]);
      SoloStep(sync[n], t, steps[n].pipe, steps[n].ok, chans);
    }
  }

  /** The queues that a sync starts from: a pipe may have come or gone with it. */
  function Given(was: map<Pipe, Chan>, e: Event): map<Pipe, Chan> {
    match e
    case AddPipe(_, p, c) => was[p := c]
    case RemovePipe(_, p) => map q | q in was && q != p :: was[q]
    case _ => was
  }

  /** Beside fresh threads only, mb_sock_sync_sndfd, by itself or after a pipe came or
      went, leaves the descriptor readable if and only if a peer has room by its
      MB_RCVBUF, whatever caps it found: it neither misses room nor keeps a stale
      POLLOUT. */
  lemma SoloSync(run: seq<State>, events: seq<Event>, e: Event, sync: seq<State>, steps: seq<Event>)
    requires Run(run, events) && AtRest(run[|run| - 1])
    requires (e.StartSync? || e.AddPipe? || e.RemovePipe?) && Enabled(run[|run| - 1], e)
    requires Alone(e.t, sync, steps) && sync[0] == Apply(run[|run| - 1], e)
    ensures Solo(sync[|steps|], e.t, Given(run[|run| - 1].chans, e))
    ensures e.t !in sync[|steps|].threads ==> (sync[|steps|].fd.Readable() <==> CanSend(sync[0]))
  {
    var was := run[|run| - 1];
    hide Asked, Inv;
    RunInv(run, events);
    StepInv(was, e);
    assert sync[0].chans == Given(was.chans, e);
    SoloSteps(sync[0].chans, e.t, sync, steps);
  }

  // ---------- A send that runs alone ----------

  /** The queue after a push of `sz` bytes under the cap that MB_RCVBUF asks for; `ok` is
      false if there is no memory for it. */
  function Sent(c: Chan, sz: nat, ok: bool): Chan {
    if !ok then Recapped(c)
    else c.(account := Asked(c).Pushed(sz), sizes := if Takes(c, sz) then c.sizes + [sz] else c.sizes)
  }

  predicate Takes(c: Chan, sz: nat) {
    Fits(CapOf(c.rcvbuf), c.account.mem, Charge(CapOf(c.rcvbuf), sz))
  }

  function AllSent(was: map<Pipe, Chan>, p: Pipe, sz: nat, ok: bool): map<Pipe, Chan> {
    if p in was then was[p := Sent(was[p], sz, ok)] else was
  }

  /** What a lone send has done after `n` steps, before its sync. */
  ghost predicate SoloSending(s: State, t: Tid, p: Pipe, sz: nat, was: map<Pipe, Chan>, n: nat) {
    && Inv(s) && (forall u :: u in s.threads && u != t ==> Fresh(s.threads[u])) && t in s.threads
    && match n
       case 0 => s.threads[t] == CapPush(p, sz) && s.chans == was
       case 1 => s.threads[t] == StorePush(p, sz, ReadCap(s, p)) && s.chans == was
       case _ => n == 2 && s.threads[t] == PushTo(p, sz) && s.chans == if p in was then was[p := Recapped(was[p])] else was
  }

  lemma SoloSendStep(s: State, t: Tid, p: Pipe, sz: nat, was: map<Pipe, Chan>, n: nat, pipe: Pipe, ok: bool)
    requires SoloSending(s, t, p, sz, was, n)
    ensures var s' := ThreadStep(s, t, pipe, ok);
      if n == 2 then Solo(s', t, AllSent(was, p, sz, ok)) else SoloSending(s', t, p, sz, was, n + 1)
  {
    hide Account.Sound, Account.Room, Account.Rechecked, Account.Pushed, Account.Popped, Account.Capped, CapOf, Inv;
    StepInv(s, Step(t, pipe, ok));
    var s' := ThreadStep(s, t, pipe, ok);
    if n == 2 {
      PushAsked(s, p, sz, was, ok);
      assert s'.chans == AllSent(was, p, sz, ok);
    }
  }

  lemma PushAsked(s: State, p: Pipe, sz: nat, was: map<Pipe, Chan>, ok: bool)
    requires s.chans == if p in was then was[p := Recapped(was[p])] else was
    ensures (if ok then Push(s, p, sz).chans else s.chans) == AllSent(was, p, sz, ok)
  {
  }

  lemma {:induction false} SendSteps(first: State, t: Tid, p: Pipe, sz: nat, send: seq<State>, steps: seq<Event>)
    requires Alone(t, send, steps) && SoloSending(send[0], t, p, sz, first.chans, 0)
    ensures |steps| < 3 ==> SoloSending(send[|steps|], t, p, sz, first.chans, |steps|)
    ensures |steps| >= 3 ==> Solo(send[|steps|], t, AllSent(first.chans, p, sz, steps[2].ok))
    decreases |steps|
  {
    hide SoloSending, Solo, ThreadStep, AllSent;
    if steps != [] {
      var n := |steps| - 1;
      SendSteps(first, t, p, sz, send[..n + 1], steps[..n]);
      if n < 3 {
        SoloSendStep(send[n], t, p, sz, first.chans, n, steps[n].pipe, steps[n].ok);
      } else {
        SoloStep(send[n], t, steps[n].pipe, steps[n].ok, AllSent(first.chans, p, sz, steps[2].ok));
      }
    }
  }

  /** Beside fresh threads only, a send puts its message at the end of its peer's queue if
      and only if it fits under the cap that MB_RCVBUF asks for and there is memory,
      changes no other queue, and leaves the descriptor readable if and only if a peer
      has room then. */
  lemma SoloSend(run: seq<State>, events: seq<Event>, t: Tid, p: Pipe, sz: nat, send: seq<State>, steps: seq<Event>)
    requires Run(run, events) && t !in run[|run| - 1].threads && AtRest(run[|run| - 1])
    requires Alone(t, send, steps) && send[0] == Apply(run[|run| - 1], StartPush(t, p, sz))
    requires t !in send[|steps|].threads
    ensures |steps| >= 3
    ensures var s, was := send[|steps|], run[|run| - 1].chans;
      && s.chans.Keys == was.Keys && (s.fd.Readable() <==> CanSend(s))
      && forall q :: q in was ==>
           s.chans[q].sizes == was[q].sizes + if q == p && steps[2].ok && Takes(was[p], sz) then [sz] else []
  {
    hide Asked, Inv, ThreadStep, Account.Pushed, Account.Capped, Takes;
    var was := run[|run| - 1];
    RunInv(run, events);
    StepInv(was, StartPush(t, p, sz));
    SendSteps(was, t, p, sz, send, steps);
  }

  // ---------- A receive of the peer that runs alone ----------

  /** A queue after its oldest message was taken, before and after the cap is set. */
  function Popped(c: Chan): Chan
    requires c.sizes != []
  {
    c.(account := c.account.Popped(c.sizes[0]), sizes := c.sizes[1..])
  }

  function Recapped(c: Chan): Chan {
    c.(account := Asked(c))
  }

  /** What a lone receive from pipe `p` has done at each point. */
  ghost predicate SoloPopping(s: State, t: Tid, p: Pipe, was: map<Pipe, Chan>) {
    && Inv(s) && (forall u :: u in s.threads && u != t ==> Fresh(s.threads[u]))
    && if t in s.threads && s.threads[t].PopFrom? then s.threads[t].pipe == p && s.chans == was
       else if p !in was || was[p].sizes == [] then t !in s.threads && s.chans == was
       else
         var c := Popped(was[p]);
         if t in s.threads && (s.threads[t].CapPopped? || s.threads[t].StorePopped?) then
           && s.threads[t].pipe == p && s.chans == was[p := c]
           && (s.threads[t].StorePopped? ==> s.threads[t].cap == CapOf(c.rcvbuf))
         else
           && s.chans == was[p := Recapped(c)]
           && (t in s.threads ==>
                 s.threads[t] == CheckPopped(p) || (s.threads[t].Signal? && s.threads[t].todo == {}))
  }

  lemma SoloPopStep(s: State, t: Tid, p: Pipe, was: map<Pipe, Chan>, pipe: Pipe, ok: bool)
    requires SoloPopping(s, t, p, was) && t in s.threads && Looks(s.threads[t], pipe)
    ensures SoloPopping(ThreadStep(s, t, pipe, ok), t, p, was)
  {
    hide Account.Sound, Account.Room, Account.Rechecked, Account.Pushed, Account.Popped, Account.Capped, CapOf, Inv;
    StepInv(s, Step(t, pipe, ok));
    if s.threads[t].StorePopped? {
      var c := Popped(was[p]);
      assert was[p := c][p := Recapped(c)] == was[p := Recapped(c)];
    }
  }

  /** Beside fresh threads only, a receive of the peer takes the oldest message of its
      queue, sets the cap that MB_RCVBUF asks for, and leaves the descriptor readable
      if there is room then; an empty queue stays as it was. */
  lemma {:induction false} SoloPop(run: seq<State>, events: seq<Event>, t: Tid, p: Pipe, pop: seq<State>, steps: seq<Event>)
    requires Run(run, events) && t !in run[|run| - 1].threads && AtRest(run[|run| - 1])
    requires Alone(t, pop, steps) && pop[0] == Apply(run[|run| - 1], StartPop(t, p))
    ensures SoloPopping(pop[|steps|], t, p, run[|run| - 1].chans)
    ensures var s, was := pop[|steps|], run[|run| - 1].chans;
      t !in s.threads ==>
        && s.chans == (if p in was && was[p].sizes != [] then was[p := Recapped(Popped(was[p]))] else was)
        && (Room(s, p) ==> s.fd.Readable())
    decreases |steps|
  {
    hide Inv, ThreadStep, Popped, Recapped, Account.Room;
    if steps == [] {
      RunInv(run, events);
      StepInv(run[|run| - 1], StartPop(t, p));
    } else {
      var n := |steps| - 1;
      SoloPop(run, events, t, p, pop[..n + 1], steps[..n]);
      SoloPopStep(pop[n], t, p, run[|run| - 1].chans, steps[n].pipe, steps[n].ok);
      if t !in pop[|steps|].threads && Room(pop[|steps|], p) { RestReadable(pop[|steps|], p); }
    }
  }

  lemma RestReadable(s: State, p: Pipe)
    requires Inv(s) && AtRest(s) && Room(s, p)
    ensures s.fd.Readable()
  {
    assert PipeCovered(s, p);
  }
}
