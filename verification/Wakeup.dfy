/** The receive wake-up of a socket with any number of inproc pipes: the
    event descriptor of src/pal/efd.c, the pushes of src/transport/inproc and
    the unsignal-then-recheck protocol of mb_sinproc_recv and
    mb_sock_sync_rcvfd, as atomic steps of any number of threads.

    A queue is its message count, changed under the queue's own mutex.  The
    probes of a scan over several pipes are separate steps, in any order. */
module Wakeup {
  import opened Common
  import opened Efd

  type Tid = nat
  type Pipe = nat

  /** What a thread does after a call of mb_efd_signal. */
  datatype AfterSignal = Exit | ToSync

  /** Every call of mb_efd_unsignal is followed by another look. */
  datatype AfterUnsignal = ToRecheck(pipe: Pipe) | ToRescan

  datatype Pc =
    | PushTo(pipe: Pipe)          // mb_sinproc_send: about to push
    | Probing(left: set<Pipe>)    // mb_fq_recv: looking for a message
    | PopFrom(pipe: Pipe)         // mb_sinproc_recv: about to pop
    | Recheck(pipe: Pipe)         // ... about to look at its own queue again
    | Scan(left: set<Pipe>)       // mb_sock_sync_rcvfd: first events()
    | Rescan(left: set<Pipe>)     // ... events() after the unsignal
    | Signal(sig: Signaling, k: AfterSignal)        // mb_efd_signal
    | Unsignal(uns: Unsignaling, u: AfterUnsignal)  // mb_efd_unsignal

  datatype State = State(
    queues: map<Pipe, nat>,
    fd: Fd,
    threads: map<Tid, Pc>)

  predicate Init(s: State) {
    && (forall p :: p in s.queues ==> s.queues[p] == 0)
    && s.fd == Fd(false, 0) && s.threads == map[]
  }

  function Count(s: State, p: Pipe): nat {
    if p in s.queues then s.queues[p] else 0
  }

  predicate HasMessage(s: State) {
    exists p :: p in s.queues && s.queues[p] > 0
  }

  // ---------- Steps ----------

  function Goto(s: State, t: Tid, pc: Pc): State {
    s.(threads := s.threads[t := pc])
  }

  function Resume(s: State, t: Tid, k: AfterSignal): State {
    match k
    case Exit => s.(threads := s.threads - {t})
    case ToSync => Goto(s, t, Scan(s.queues.Keys))
  }

  function LookAgain(s: State, t: Tid, u: AfterUnsignal): State {
    match u
    case ToRecheck(p) => Goto(s, t, Recheck(p))
    case ToRescan => Goto(s, t, Rescan(s.queues.Keys))
  }

  datatype Event =
    | StartPush(t: Tid, pipe: Pipe)
    | StartRecv(t: Tid)
    | StartSync(t: Tid)
    | AddPipe(t: Tid, pipe: Pipe, count: nat)
    | RemovePipe(t: Tid, pipe: Pipe)
    | Step(t: Tid, pipe: Pipe, ok: bool)

  /** `pipe` is the pipe looked at next by a probe or scan; `ok` is false when
      a push is refused for lack of room. */
  function ThreadStep(s: State, t: Tid, pipe: Pipe, ok: bool): State
    requires t in s.threads
  {
    match s.threads[t]
    case PushTo(p) =>
      if !ok || p !in s.queues then Resume(s, t, Exit)
      else
        var s' := s.(queues := s.queues[p := s.queues[p] + 1]);
        if s.queues[p] == 0 then Goto(s', t, Signal(Cas, Exit)) else Resume(s', t, Exit)
    case Probing(left) =>
      if left == {} then Resume(s, t, ToSync)
      else if Count(s, pipe) == 0 then Goto(s, t, Probing(left - {pipe}))
      else Goto(s, t, PopFrom(pipe))
    case PopFrom(p) =>
      var s' := if Count(s, p) > 0 then s.(queues := s.queues[p := s.queues[p] - 1]) else s;
      Goto(s', t, Unsignal(Store, ToRecheck(p)))
    case Recheck(p) =>
      if Count(s, p) > 0 then Goto(s, t, Signal(Cas, ToSync)) else Resume(s, t, ToSync)
    case Scan(left) =>
      if left == {} then Goto(s, t, Unsignal(Store, ToRescan))
      else if Count(s, pipe) > 0 then Goto(s, t, Signal(Cas, Exit))
      else Goto(s, t, Scan(left - {pipe}))
    case Rescan(left) =>
      if left == {} then Resume(s, t, Exit)
      else if Count(s, pipe) > 0 then Goto(s, t, Signal(Cas, Exit))
      else Goto(s, t, Rescan(left - {pipe}))
    case Signal(sig, k) =>
      var (fd, next) := SignalStep(s.fd, sig);
      var s' := s.(fd := fd);
      if next.Some? then Goto(s', t, Signal(next.value, k)) else Resume(s', t, k)
    case Unsignal(uns, u) =>
      var (fd, next) := UnsignalStep(s.fd, uns);
      var s' := s.(fd := fd);
      if next.Some? then Goto(s', t, Unsignal(next.value, u)) else LookAgain(s', t, u)
  }

  predicate Enabled(s: State, e: Event) {
    match e
    case StartPush(t, p) => t !in s.threads && p in s.queues
    case StartRecv(t) => t !in s.threads
    case StartSync(t) => t !in s.threads
    case AddPipe(t, p, _) => t !in s.threads && p !in s.queues
    case RemovePipe(t, _) => t !in s.threads
    case Step(t, p, _) => t in s.threads && Looks(s.threads[t], p)
  }

  /** A probe or scan looks only at pipes it has not looked at yet. */
  predicate Looks(pc: Pc, p: Pipe) {
    (pc.Probing? || pc.Scan? || pc.Rescan?) && pc.left != {} ==> p in pc.left
  }

  function Apply(s: State, e: Event): State
    requires Enabled(s, e)
  {
    match e
    case StartPush(t, p) => Goto(s, t, PushTo(p))
    case StartRecv(t) => Goto(s, t, Probing(s.queues.Keys))
    case StartSync(t) => Resume(s, t, ToSync)
    case AddPipe(t, p, n) => Resume(s.(queues := s.queues[p := n]), t, ToSync)
    case RemovePipe(t, p) => Resume(s.(queues := s.queues - {p}), t, ToSync)
    case Step(t, p, ok) => ThreadStep(s, t, p, ok)
  }

  predicate Run(run: seq<State>, events: seq<Event>) {
    && |run| == |events| + 1
    && Init(run[0])
    && forall i :: 0 <= i < |events| ==> Enabled(run[i], events[i]) && run[i + 1] == Apply(run[i], events[i])
  }

  // ---------- Who still owes a wake-up ----------

  /** A thread at this point will write to the kernel object, or will find the
      flag cleared by someone else. */
  predicate WillWrite(pc: Pc) {
    (pc.Signal? && pc.sig.Write?) || (pc.Unsignal? && (pc.uns.Load? || pc.uns.Rearm?))
  }

  /** A thread at this point will set the flag, or look at pipe `p` again. */
  predicate Owes(pc: Pc, p: Pipe) {
    match pc
    case Recheck(_) => true
    case Scan(left) => p in left
    case Rescan(left) => p in left
    case Signal(sig, _) => sig.Cas?
    case Unsignal(uns, _) => !uns.Store?
    case _ => false
  }

  ghost predicate FlagBacked(s: State) {
    s.fd.signaled && s.fd.counter == 0 ==> exists t :: t in s.threads && WillWrite(s.threads[t])
  }

  ghost predicate PipeCovered(s: State, p: Pipe) {
    Count(s, p) > 0 && !s.fd.signaled ==> exists t :: t in s.threads && Owes(s.threads[t], p)
  }

  ghost predicate Inv(s: State) {
    && FlagBacked(s)
    && (forall p :: PipeCovered(s, p))
  }

  /** The flag without a kernel count is backed by a thread about to write. */
  lemma FlagStep(s: State, e: Event)
    requires Inv(s) && Enabled(s, e)
    ensures FlagBacked(Apply(s, e))
  {
    var s' := Apply(s, e);
    if s'.fd.signaled && s'.fd.counter == 0 && !(e.t in s'.threads && WillWrite(s'.threads[e.t])) {
      var w :| w in s.threads && WillWrite(s.threads[w]);
      assert s'.threads[w] == s.threads[w];
    }
  }

  /** A waiting message without the flag is covered by a thread that owes it. */
  lemma CoverStep(s: State, e: Event, p: Pipe)
    requires Inv(s) && Enabled(s, e)
    ensures PipeCovered(Apply(s, e), p)
  {
    var s' := Apply(s, e);
    if Count(s', p) > 0 && !s'.fd.signaled && !(e.t in s'.threads && Owes(s'.threads[e.t], p)) {
      assert PipeCovered(s, p);
      var w :| w in s.threads && Owes(s.threads[w], p);
      assert s'.threads[w] == s.threads[w];
    }
  }

  lemma StepInv(s: State, e: Event)
    requires Inv(s) && Enabled(s, e)
    ensures Inv(Apply(s, e))
  {
    FlagStep(s, e);
    forall p ensures PipeCovered(Apply(s, e), p) { CoverStep(s, e, p); }
  }

  lemma {:induction false} RunInv(run: seq<State>, events: seq<Event>)
    requires Run(run, events)
    ensures Inv(run[|run| - 1])
    decreases |events|
  {
    if events != [] {
      RunInv(run[..|run| - 1], events[..|events| - 1]);
      StepInv(run[|run| - 2], events[|events| - 1]);
    }
  }

  /** A thread that has not yet touched the queues or the descriptor. */
  predicate Fresh(pc: Pc) { pc.PushTo? || pc.Probing? }

  /** No wake-up is lost: in every run, once no thread is midway, a message
      waiting in any pipe makes the descriptor readable. */
  lemma NoLostWakeup(run: seq<State>, events: seq<Event>)
    requires Run(run, events)
    requires var s := run[|run| - 1]; HasMessage(s) && forall t :: t in s.threads ==> Fresh(s.threads[t])
    ensures run[|run| - 1].fd.Readable()
  {
    var s := run[|run| - 1];
    RunInv(run, events);
    var p :| p in s.queues && s.queues[p] > 0;
    assert PipeCovered(s, p);
  }

  // ---------- Calls end ----------

  /** How many steps a call has still to take, with `n` pipes. */
  function Rank(pc: Pc, n: nat): nat {
    match pc
    case PushTo(_) => 3
    case Probing(left) => |left| + 2 * n + 17
    case PopFrom(_) => 2 * n + 16
    case Recheck(_) => 2 * n + 11
    case Scan(left) => |left| + n + 8
    case Rescan(left) => |left| + 3
    case Signal(sig, k) => (if sig == Cas then 2 else 1) + if k == Exit then 0 else 2 * n + 8
    case Unsignal(uns, u) =>
      (match uns case Store => 4 case Drain => 3 case Load => 2 case Rearm => 1) + if u == ToRescan then n + 3 else 2 * n + 11
  }

  function Left(s: State, t: Tid): nat {
    if t in s.threads then Rank(s.threads[t], |s.queues.Keys|) else 0
  }

  lemma KeysStay(s: State, t: Tid, p: Pipe, ok: bool)
    requires t in s.threads
    ensures ThreadStep(s, t, p, ok).queues.Keys == s.queues.Keys
  {
  }

  /** Every step of a call brings it nearer to its end. */
  lemma RankFalls(s: State, t: Tid, p: Pipe, ok: bool)
    requires t in s.threads && Looks(s.threads[t], p)
    ensures Left(ThreadStep(s, t, p, ok), t) < Left(s, t)
  {
    var pc, s' := s.threads[t], ThreadStep(s, t, p, ok);
    KeysStay(s, t, p, ok);
    if pc.Probing? || pc.Scan? || pc.Rescan? {
      LookFalls(s, t, p, ok);
    } else if t in s'.threads {
      var pc' := s'.threads[t];
      assert pc.PopFrom? ==> pc' == Unsignal(Store, ToRecheck(pc.pipe));
    }
  }

  lemma LookFalls(s: State, t: Tid, p: Pipe, ok: bool)
    requires t in s.threads && Looks(s.threads[t], p)
    requires s.threads[t].Probing? || s.threads[t].Scan? || s.threads[t].Rescan?
    ensures Left(ThreadStep(s, t, p, ok), t) < Left(s, t)
  {
    hide ThreadStep, Rank;
    var pc, n := s.threads[t], |s.queues.Keys|;
    LookMoves(s, t, p, ok);
    if pc.left == {} {
      LookDone(pc, s.queues.Keys);
    } else if Count(s, p) == 0 {
      LookOn(pc, p, n);
    } else {
      LookFound(pc, p, n);
    }
  }

  lemma LookDone(pc: Pc, keys: set<Pipe>)
    requires pc.Probing? || pc.Scan? || pc.Rescan?
    ensures 0 < Rank(pc, |keys|)
    ensures pc.Probing? ==> Rank(Scan(keys), |keys|) < Rank(pc, |keys|)
    ensures pc.Scan? ==> Rank(Unsignal(Store, ToRescan), |keys|) < Rank(pc, |keys|)
  {
  }

  lemma LookOn(pc: Pc, p: Pipe, n: nat)
    requires (pc.Probing? || pc.Scan? || pc.Rescan?) && p in pc.left
    ensures Rank(pc.(left := pc.left - {p}), n) < Rank(pc, n)
  {
    Fewer(pc.left, p);
  }

  lemma LookFound(pc: Pc, p: Pipe, n: nat)
    requires pc.Probing? || pc.Scan? || pc.Rescan?
    ensures Rank(Signal(Cas, Exit), n) < Rank(pc, n) && (pc.Probing? ==> Rank(PopFrom(p), n) < Rank(pc, n))
  {
  }

  /** Where a look at a pipe leads. */
  lemma LookMoves(s: State, t: Tid, p: Pipe, ok: bool)
    requires t in s.threads && (s.threads[t].Probing? || s.threads[t].Scan? || s.threads[t].Rescan?)
    ensures var pc, s' := s.threads[t], ThreadStep(s, t, p, ok);
      && s'.queues == s.queues
      && if pc.left == {} then
           if pc.Rescan? then t !in s'.threads
           else t in s'.threads && s'.threads[t] == if pc.Scan? then Unsignal(Store, ToRescan) else Scan(s.queues.Keys)
         else
           && t in s'.threads
           && s'.threads[t] ==
                if Count(s, p) == 0 then pc.(left := pc.left - {p}) else if pc.Probing? then PopFrom(p) else Signal(Cas, Exit)
  {
  }

  lemma Fewer(left: set<Pipe>, p: Pipe)
    requires p in left
    ensures |left - {p}| == |left| - 1
  {
  }

  /** A call of thread `t` by itself, from state `first` on. */
  predicate Alone(first: State, t: Tid, states: seq<State>, steps: seq<Event>) {
    && |states| == |steps| + 1 && states[0] == first
    && forall i :: 0 <= i < |steps| ==>
         && steps[i].Step? && steps[i].t == t && Enabled(states[i], steps[i]) && states[i + 1] == Apply(states[i], steps[i])
  }

  /** A call by itself ends: it always has a step to take, and there are only so many. */
  lemma {:induction false} CallsEnd(first: State, t: Tid, states: seq<State>, steps: seq<Event>)
    requires Alone(first, t, states, steps)
    ensures var s := states[|steps|];
      && |steps| + Left(s, t) <= Left(first, t)
      && (t in s.threads ==> exists p: Pipe :: Enabled(s, Step(t, p, true)))
    decreases |steps|
  {
    hide Rank, ThreadStep, Left;
    var s := states[|steps|];
    if steps != [] {
      var n := |steps| - 1;
      CallsEnd(first, t, states[..n + 1], steps[..n]);
      RankFalls(states[n], t, steps[n].pipe, steps[n].ok);
    }
    if t in s.threads { SomeStep(s, t); }
  }

  lemma SomeStep(s: State, t: Tid)
    requires t in s.threads
    ensures exists p: Pipe :: Enabled(s, Step(t, p, true))
  {
    var pc := s.threads[t];
    if (pc.Probing? || pc.Scan? || pc.Rescan?) && pc.left != {} {
      var p :| p in pc.left;
      assert Enabled(s, Step(t, p, true));
    } else {
      assert Enabled(s, Step(t, 0, true));
    }
  }

  // ---------- Calls that run alone ----------

  /** What a lone mb_sock_sync_rcvfd has established at each point. */
  ghost predicate Solo(s: State, t: Tid, queues: map<Pipe, nat>) {
    && Inv(s) && s.queues == queues
    && (forall u :: u in s.threads && u != t ==> Fresh(s.threads[u]))
    && if t !in s.threads then s.fd.Readable() <==> HasMessage(s)
       else match s.threads[t] {
         case Scan(left) => forall p :: p in queues && queues[p] > 0 ==> p in left
         case Unsignal(uns, u) =>
           && u == ToRescan && !HasMessage(s) && !uns.Rearm?
           && (!uns.Store? ==> !s.fd.signaled) && (uns.Load? ==> s.fd.counter == 0)
         case Rescan(left) => !HasMessage(s) && s.fd.counter == 0
         case Signal(_, k) => k == Exit && HasMessage(s)
         case _ => false
       }
  }

  lemma SoloStep(s: State, t: Tid, p: Pipe, ok: bool)
    requires Solo(s, t, s.queues) && t in s.threads && Looks(s.threads[t], p)
    ensures Solo(ThreadStep(s, t, p, ok), t, s.queues)
  {
    StepInv(s, Step(t, p, ok));
    if Count(s, p) > 0 { assert p in s.queues && s.queues[p] > 0; }
  }

  lemma {:induction false} SoloSteps(first: State, t: Tid, sync: seq<State>, steps: seq<Event>)
    requires Alone(first, t, sync, steps) && Solo(first, t, first.queues)
    ensures Solo(sync[|steps|], t, first.queues)
    decreases |steps|
  {
    hide ThreadStep;
    if steps != [] {
      var n := |steps| - 1;
      SoloSteps(first, t, sync[..n + 1], steps[..n]);
      SoloStep(sync[n], t, steps[n].pipe, steps[n].ok);
    }
  }

  /** The queues that a sync starts from: a pipe may have come or gone with it. */
  function Given(was: map<Pipe, nat>, e: Event): map<Pipe, nat> {
    match e
    case AddPipe(_, p, n) => was[p := n]
    case RemovePipe(_, p) => map q | q in was && q != p :: was[q]
    case _ => was
  }

  /** Beside fresh threads only, mb_sock_sync_rcvfd, by itself or after a pipe came or
      went, leaves the descriptor readable if and only if a message waits: it neither
      misses a message nor keeps a stale POLLIN. */
  lemma SoloSync(run: seq<State>, events: seq<Event>, e: Event, sync: seq<State>, steps: seq<Event>)
    requires Run(run, events) && var s := run[|run| - 1]; forall u :: u in s.threads ==> Fresh(s.threads[u])
    requires (e.StartSync? || e.AddPipe? || e.RemovePipe?) && Enabled(run[|run| - 1], e)
    requires Alone(Apply(run[|run| - 1], e), e.t, sync, steps)
    ensures sync[|steps|].queues == Given(run[|run| - 1].queues, e)
    ensures e.t !in sync[|steps|].threads ==> (sync[|steps|].fd.Readable() <==> HasMessage(sync[|steps|]))
  {
    var s := run[|run| - 1];
    RunInv(run, events);
    StepInv(s, e);
    assert Apply(s, e).queues == Given(s.queues, e);
    SoloSteps(Apply(s, e), e.t, sync, steps);
  }

  /** What a lone mb_sinproc_recv has established at each point, up to the sync. */
  ghost predicate OwnRecv(s: State, t: Tid, p: Pipe) {
    && Inv(s) && (forall u :: u in s.threads && u != t ==> Fresh(s.threads[u]))
    && t in s.threads && match s.threads[t] {
         case PopFrom(q) => q == p
         case Unsignal(uns, u) =>
           && u == ToRecheck(p) && !uns.Rearm?
           && (!uns.Store? ==> !s.fd.signaled) && (uns.Load? ==> s.fd.counter == 0)
         case Recheck(q) => q == p && s.fd == Fd(false, 0)
         case Signal(sig, k) => k == ToSync && Count(s, p) > 0 && (sig.Cas? ==> !s.fd.signaled)
         case Scan(left) => s.fd.Readable() <==> Count(s, p) > 0
         case _ => false
       }
  }

  lemma OwnRecvStep(s: State, t: Tid, p: Pipe, pipe: Pipe, ok: bool)
    requires OwnRecv(s, t, p) && !s.threads[t].Scan?
    ensures OwnRecv(ThreadStep(s, t, pipe, ok), t, p)
  {
    hide Inv;
    StepInv(s, Step(t, pipe, ok));
  }

  /** Beside fresh threads only, mb_sinproc_recv by itself leaves the descriptor readable
      if and only if its own pipe holds another message; the sync that follows it looks
      at the other pipes. */
  lemma {:induction false} OwnRecheck(run: seq<State>, events: seq<Event>, t: Tid, p: Pipe, recv: seq<State>, steps: seq<Event>)
    requires Run(run, events) && var s := run[|run| - 1];
      t in s.threads && s.threads[t] == PopFrom(p) && forall u :: u in s.threads && u != t ==> Fresh(s.threads[u])
    requires Alone(run[|run| - 1], t, recv, steps)
    requires forall i :: 0 <= i < |steps| ==> t in recv[i].threads && !recv[i].threads[t].Scan?
    ensures OwnRecv(recv[|steps|], t, p)
    ensures var s := recv[|steps|]; s.threads[t].Scan? ==> (s.fd.Readable() <==> Count(s, p) > 0)
    decreases |steps|
  {
    hide Inv;
    if steps == [] {
      RunInv(run, events);
    } else {
      var n := |steps| - 1;
      OwnRecheck(run, events, t, p, recv[..n + 1], steps[..n]);
      OwnRecvStep(recv[n], t, p, steps[n].pipe, steps[n].ok);
    }
  }

  /** One message was taken from some pipe if there was any, and nothing else. */
  ghost predicate OneTaken(was: map<Pipe, nat>, now: map<Pipe, nat>) {
    if exists p :: p in was && was[p] > 0 then exists p :: p in was && was[p] > 0 && now == was[p := (was[p] - 1) as nat]
    else now == was
  }

  /** What a lone receive has established at each point. */
  ghost predicate SoloRecv(s: State, t: Tid, was: map<Pipe, nat>) {
    && Inv(s) && (forall u :: u in s.threads && u != t ==> Fresh(s.threads[u]))
    && if t in s.threads && (s.threads[t].Probing? || s.threads[t].PopFrom?) then
         && s.queues == was
         && (s.threads[t].Probing? ==> forall p :: p in was && was[p] > 0 ==> p in s.threads[t].left)
         && (s.threads[t].PopFrom? ==> s.threads[t].pipe in was && was[s.threads[t].pipe] > 0)
       else OneTaken(was, s.queues) && (Closing(s, t) || Solo(s, t, s.queues))
  }

  /** The thread has popped and has still to sync. */
  predicate Closing(s: State, t: Tid) {
    t in s.threads && var pc := s.threads[t];
    pc.Recheck? || (pc.Signal? && pc.k == ToSync) || (pc.Unsignal? && pc.u.ToRecheck?)
  }

  lemma SoloRecvStep(s: State, t: Tid, was: map<Pipe, nat>, p: Pipe, ok: bool)
    requires SoloRecv(s, t, was) && t in s.threads && Looks(s.threads[t], p)
    ensures SoloRecv(ThreadStep(s, t, p, ok), t, was)
  {
    hide Inv, OneTaken;
    StepInv(s, Step(t, p, ok));
    if s.threads[t].Probing? {
      ProbeStep(s, t, was, p, ok);
    } else if s.threads[t].PopFrom? {
      PopStep(s, t, was, p, ok);
    } else if !Closing(s, t) {
      SoloStep(s, t, p, ok);
    }
  }

  lemma ProbeStep(s: State, t: Tid, was: map<Pipe, nat>, p: Pipe, ok: bool)
    requires SoloRecv(s, t, was) && t in s.threads && s.threads[t].Probing? && Looks(s.threads[t], p)
    requires Inv(ThreadStep(s, t, p, ok))
    ensures SoloRecv(ThreadStep(s, t, p, ok), t, was)
  {
    hide Inv;
    if Count(s, p) > 0 { assert p in was && was[p] > 0; }
  }

  lemma PopStep(s: State, t: Tid, was: map<Pipe, nat>, p: Pipe, ok: bool)
    requires SoloRecv(s, t, was) && t in s.threads && s.threads[t].PopFrom? && Inv(ThreadStep(s, t, p, ok))
    ensures SoloRecv(ThreadStep(s, t, p, ok), t, was)
  {
    hide Inv, Solo;
    var q := s.threads[t].pipe;
    assert q in was && was[q] > 0 && ThreadStep(s, t, p, ok).queues == was[q := (was[q] - 1) as nat];
  }

  /** Beside fresh threads only, a receive takes one message if any pipe has one and
      nothing otherwise, and leaves the descriptor readable if and only if a message
      still waits. */
  lemma {:induction false} SoloReceive(run: seq<State>, events: seq<Event>, t: Tid, recv: seq<State>, steps: seq<Event>)
    requires Run(run, events) && t !in run[|run| - 1].threads
    requires var s := run[|run| - 1]; forall u :: u in s.threads ==> Fresh(s.threads[u])
    requires Alone(Apply(run[|run| - 1], StartRecv(t)), t, recv, steps)
    ensures SoloRecv(recv[|steps|], t, run[|run| - 1].queues)
    ensures var s := recv[|steps|]; t !in s.threads ==>
      OneTaken(run[|run| - 1].queues, s.queues) && (s.fd.Readable() <==> HasMessage(s))
    decreases |steps|
  {
    hide OneTaken;
    if steps == [] {
      RunInv(run, events);
      StepInv(run[|run| - 1], StartRecv(t));
    } else {
      var n := |steps| - 1;
      SoloReceive(run, events, t, recv[..n + 1], steps[..n]);
      SoloRecvStep(recv[n], t, run[|run| - 1].queues, steps[n].pipe, steps[n].ok);
    }
  }

  /** What a lone push has established at each point. */
  ghost predicate SoloPushing(s: State, t: Tid, was: map<Pipe, nat>, p: Pipe) {
    && Inv(s) && (forall u :: u in s.threads && u != t ==> Fresh(s.threads[u]))
    && if t in s.threads && s.threads[t].PushTo? then s.queues == was && s.threads[t].pipe == p && p in was
       else
         && s.queues.Keys == was.Keys && p in was && (forall q :: q in was && q != p ==> s.queues[q] == was[q])
         && was[p] <= s.queues[p] <= was[p] + 1
         && (t in s.threads ==> s.threads[t].Signal? && s.threads[t].k == Exit)
  }

  lemma SoloPushStep(s: State, t: Tid, was: map<Pipe, nat>, p: Pipe, pipe: Pipe, ok: bool)
    requires SoloPushing(s, t, was, p) && t in s.threads
    ensures SoloPushing(ThreadStep(s, t, pipe, ok), t, was, p)
    ensures s.threads[t].PushTo? ==> Count(ThreadStep(s, t, pipe, ok), p) == was[p] + if ok then 1 else 0
    ensures !s.threads[t].PushTo? ==> ThreadStep(s, t, pipe, ok).queues == s.queues
    ensures var s' := ThreadStep(s, t, pipe, ok); !(t in s'.threads && s'.threads[t].PushTo?)
  {
    StepInv(s, Step(t, pipe, ok));
  }

  /** Beside fresh threads only, a push adds one message to its pipe and nothing else,
      unless it is refused for lack of room, and leaves the descriptor readable. */
  lemma {:induction false} SoloPush(run: seq<State>, events: seq<Event>, t: Tid, p: Pipe, push: seq<State>, steps: seq<Event>)
    requires Run(run, events) && t !in run[|run| - 1].threads && p in run[|run| - 1].queues
    requires var s := run[|run| - 1]; forall u :: u in s.threads ==> Fresh(s.threads[u])
    requires Alone(Apply(run[|run| - 1], StartPush(t, p)), t, push, steps)
    ensures SoloPushing(push[|steps|], t, run[|run| - 1].queues, p)
    ensures var s, was := push[|steps|], run[|run| - 1].queues;
      && (steps == [] ==> s.queues == was)
      && (steps != [] ==> !(t in s.threads && s.threads[t].PushTo?) && Count(s, p) == was[p] + if steps[0].ok then 1 else 0)
      && (t !in s.threads && HasMessage(s) ==> s.fd.Readable())
    decreases |steps|
  {
    hide Inv, ThreadStep;
    if steps == [] {
      RunInv(run, events);
      StepInv(run[|run| - 1], StartPush(t, p));
    } else {
      var n := |steps| - 1;
      SoloPush(run, events, t, p, push[..n + 1], steps[..n]);
      SoloPushStep(push[n], t, run[|run| - 1].queues, p, steps[n].pipe, steps[n].ok);
      var s := push[|steps|];
      if t !in s.threads && HasMessage(s) { RestReadable(s); }
    }
  }

  lemma RestReadable(s: State)
    requires Inv(s) && HasMessage(s) && forall t :: t in s.threads ==> Fresh(s.threads[t])
    ensures s.fd.Readable()
  {
    var q :| q in s.queues && s.queues[q] > 0;
    assert PipeCovered(s, q);
  }
}
