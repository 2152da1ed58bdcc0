/** The lock-free multi-producer single-consumer queue of src/utils/queue.c,
    as the atomic steps of any number of pushes interleaved with one consumer.

    A node is named by a number and the recycled stub is node 0.  The fields
    `pushed`, `author`, `popped` and `calls` are history: the items and their
    threads in the order of their successful tail CAS, the items in the order
    pop returned them, and the items each thread passed to push.  Accesses to
    `self->head`, which only the consumer touches, are merged with the shared
    access next to them; every shared access is a step of its own. */
module Mpsc {
  import opened Common

  type Node = nat
  type Tid = nat

  const STUB: Node := 0
  /** The consumer parks the stub by calling push itself, under this name. */
  const CONSUMER: Tid := 0

  datatype Ptr = Null | To(node: Node)

  /** Where a call of mb_mpsc_queue_push stands. */
  datatype PushPc =
    | Clear(item: Node)             // about to store item->next = NULL
    | Load(item: Node)              // about to load producer_tail
    | Cas(item: Node, prev: Node)   // about to swing producer_tail
    | Link(item: Node, prev: Node)  // swung it, about to store prev->next

  /** Where the call of mb_mpsc_queue_pop stands; its local `head` is always
      the field `head`. */
  datatype PopPc =
    | Idle
    | LoadNext
    | DropStub(next: Node)
    | LoadAfterStub
    | LoadTail
    | ParkStub
    | LoadLast

  datatype State = State(
    head: Node,
    tail: Node,
    next: map<Node, Ptr>,
    pushes: map<Tid, PushPc>,
    pop: PopPc,
    result: Ptr,
    pushed: seq<Node>,
    author: seq<Tid>,
    popped: seq<Node>,
    calls: map<Tid, seq<Node>>)

  function Next(s: State, n: Node): Ptr {
    if n in s.next then s.next[n] else Null
  }

  function Calls(s: State, t: Tid): seq<Node> {
    if t in s.calls then s.calls[t] else []
  }

  predicate Init(s: State) {
    && s.head == s.tail == STUB
    && Next(s, STUB) == Null
    && s.pushes == map[]
    && s.pop == Idle
    && s.pushed == s.popped == []
    && s.author == []
    && s.calls == map[]
  }

  /** mb_mpsc_queue_empty */
  predicate Empty(s: State) {
    s.head == STUB && Next(s, STUB) == Null
  }

  // ---------- Steps ----------

  /** One shared access of a push; `casOk` is false for a spurious failure of
      the weak compare-exchange. */
  function PushStep(s: State, t: Tid, casOk: bool): State
    requires t in s.pushes
  {
    match s.pushes[t]
    case Clear(x) =>
      s.(next := s.next[x := Null], pushes := s.pushes[t := Load(x)])
    case Load(x) =>
      s.(pushes := s.pushes[t := Cas(x, s.tail)])
    case Cas(x, prev) =>
      if casOk && s.tail == prev then
        s.(tail := x,
           pushes := s.pushes[t := Link(x, prev)],
           pushed := if x == STUB then s.pushed else s.pushed + [x],
           author := if x == STUB then s.author else s.author + [t])
      else
        s.(pushes := s.pushes[t := Load(x)])
    case Link(x, prev) =>
      s.(next := s.next[prev := To(x)], pushes := s.pushes - {t})
  }

  function Return(s: State, r: Ptr): State {
    s.(pop := Idle, result := r, popped := if r.To? then s.popped + [r.node] else s.popped)
  }

  /** `self->head = next; return head;` */
  function Take(s: State, next: Node): State {
    Return(s.(head := next), To(s.head))
  }

  /** One shared access of pop, other than those of its inner push. */
  function PopStep(s: State): State
    requires s.pop != Idle && s.pop != ParkStub
  {
    var next := Next(s, s.head);
    match s.pop
    case LoadNext =>
      if s.head == STUB then
        if next.Null? then Return(s, Null) else s.(pop := DropStub(next.node))
      else if next.To? then Take(s, next.node)
      else s.(pop := LoadTail)
    case DropStub(n) =>
      s.(next := s.next[STUB := Null], head := n, pop := LoadAfterStub)
    case LoadAfterStub =>
      if next.To? then Take(s, next.node) else s.(pop := LoadTail)
    case LoadTail =>
      if s.tail != s.head then Return(s, Null)
      else s.(pop := ParkStub, pushes := s.pushes[CONSUMER := Clear(STUB)])
    case LoadLast =>
      if next.To? then Take(s, next.node) else Return(s, Null)
  }

  /** One step of the push of the stub inside pop. */
  function ParkStep(s: State, casOk: bool): State
    requires CONSUMER in s.pushes
  {
    var s' := PushStep(s, CONSUMER, casOk);
    if CONSUMER in s'.pushes then s' else s'.(pop := LoadLast)
  }

  datatype Event =
    | StartPush(t: Tid, item: Node)
    | Push(t: Tid, casOk: bool)
    | StartPop
    | Pop
    | Park(casOk: bool)

  /** The items a caller may not push: those being pushed and those pushed
      but not yet returned by pop.  A popped item may be pushed again. */
  predicate Busy(s: State, item: Node) {
    || (exists t :: t in s.pushes && s.pushes[t].item == item)
    || (exists i :: |s.popped| <= i < |s.pushed| && s.pushed[i] == item)
  }

  predicate Enabled(s: State, e: Event) {
    match e
    case StartPush(t, item) =>
      t != CONSUMER && t !in s.pushes && item != STUB && !Busy(s, item)
    case Push(t, _) => t != CONSUMER && t in s.pushes
    case StartPop => s.pop == Idle
    case Pop => s.pop != Idle && s.pop != ParkStub
    case Park(_) => s.pop == ParkStub && CONSUMER in s.pushes
  }

  function Apply(s: State, e: Event): State
    requires Enabled(s, e)
  {
    match e
    case StartPush(t, item) =>
      s.(pushes := s.pushes[t := Clear(item)], calls := s.calls[t := Calls(s, t) + [item]])
    case Push(t, casOk) => PushStep(s, t, casOk)
    case StartPop => s.(pop := LoadNext)
    case Pop => PopStep(s)
    case Park(casOk) => ParkStep(s, casOk)
  }

  /** A finite run: any interleaving of any number of callers. */
  predicate Run(run: seq<State>, events: seq<Event>) {
    && |run| == |events| + 1
    && Init(run[0])
    && forall i :: 0 <= i < |events| ==> Enabled(run[i], events[i]) && run[i + 1] == Apply(run[i], events[i])
  }

  // ---------- The chain ----------

  /** The nodes of a chain other than the stub. */
  function Items(chain: seq<Node>): (r: seq<Node>)
    ensures forall x :: x in r <==> x in chain && x != STUB
  {
    if chain == [] then []
    else (if chain[0] == STUB then [] else [chain[0]]) + Items(chain[1..])
  }

  lemma {:induction false} ItemsAppend(chain: seq<Node>, x: Node)
    ensures Items(chain + [x]) == Items(chain) + (if x == STUB then [] else [x])
  {
    if chain == [] {
      assert chain + [x] == [x];
    } else {
      assert (chain + [x])[1..] == chain[1..] + [x];
      ItemsAppend(chain[1..], x);
    }
  }

  predicate Linking(s: State, item: Node, prev: Node) {
    exists t :: t in s.pushes && s.pushes[t] == Link(item, prev)
  }

  /** Every link of the chain is stored, or is missing because of a push that
      stands between its CAS and its link store. */
  ghost predicate Linked(s: State, chain: seq<Node>) {
    && |chain| > 0
    && Next(s, chain[|chain| - 1]) == Null
    && forall i :: 0 <= i < |chain| - 1 ==> LinkOk(s, chain, i)
  }

  ghost predicate LinkOk(s: State, chain: seq<Node>, i: int)
    requires 0 <= i < |chain| - 1
  {
    || Next(s, chain[i]) == To(chain[i + 1])
    || (Next(s, chain[i]) == Null && Linking(s, chain[i + 1], chain[i]))
  }

  /** No two pushes carry the same item; a push before its CAS carries an item
      outside the chain; a push after it stands at a missing link. */
  ghost predicate PushesOk(s: State, chain: seq<Node>) {
    && (forall t, u :: t in s.pushes && u in s.pushes && t != u ==> s.pushes[t].item != s.pushes[u].item)
    && (forall t :: t in s.pushes ==> PushOk(s, chain, s.pushes[t]))
    && (forall t :: t in s.pushes ==> (s.pushes[t].item == STUB <==> t == CONSUMER))
    && (CONSUMER in s.pushes <==> s.pop == ParkStub)
  }

  ghost predicate PushOk(s: State, chain: seq<Node>, pc: PushPc) {
    match pc
    case Clear(x) => x !in chain
    case Load(x) => x !in chain && Next(s, x) == Null
    case Cas(x, _) => x !in chain && Next(s, x) == Null
    case Link(x, prev) => exists i :: MissingAt(s, chain, i, x, prev)
  }

  predicate MissingAt(s: State, chain: seq<Node>, i: int, x: Node, prev: Node) {
    0 <= i < |chain| - 1 && chain[i] == prev && chain[i + 1] == x && Next(s, prev) == Null
  }

  ghost predicate PopOk(s: State, chain: seq<Node>) {
    match s.pop
    case DropStub(n) => s.head == STUB && |chain| >= 2 && chain[1] == n && Next(s, STUB) == To(n)
    case LoadAfterStub => s.head != STUB
    case LoadTail => s.head != STUB
    case ParkStub => s.head != STUB
    case LoadLast => s.head != STUB
    case _ => true
  }

  /** The queue invariant: `chain` lists the nodes from head to tail, and its
      items are exactly those pushed and not yet popped, in CAS order. */
  ghost predicate Inv(s: State, chain: seq<Node>) {
    && |chain| > 0
    && chain[0] == s.head
    && chain[|chain| - 1] == s.tail
    && Distinct(chain)
    && Linked(s, chain)
    && PushesOk(s, chain)
    && PopOk(s, chain)
    && s.pushed == s.popped + Items(chain)
  }

  // ---------- Preservation ----------

  /** The chain grows at a CAS and shrinks when pop moves the head. */
  function ChainAfterPush(s: State, chain: seq<Node>, t: Tid, casOk: bool): seq<Node>
    requires t in s.pushes
  {
    if s.pushes[t].Cas? && casOk && s.tail == s.pushes[t].prev then chain + [s.pushes[t].item] else chain
  }

  function ChainAfter(s: State, chain: seq<Node>, e: Event): seq<Node>
    requires Enabled(s, e) && |chain| > 0
  {
    match e
    case Push(t, casOk) => ChainAfterPush(s, chain, t, casOk)
    case Park(casOk) => ChainAfterPush(s, chain, CONSUMER, casOk)
    case Pop => if PopStep(s).head != s.head then chain[1..] else chain
    case _ => chain
  }

  lemma PendingIsBusy(s: State, chain: seq<Node>, item: Node)
    requires Inv(s, chain) && item in chain && item != STUB
    ensures Busy(s, item)
  {
    var k :| 0 <= k < |Items(chain)| && Items(chain)[k] == item;
    assert s.pushed[|s.popped| + k] == item;
  }

  lemma StartPushInv(s: State, chain: seq<Node>, t: Tid, item: Node)
    requires Inv(s, chain) && Enabled(s, StartPush(t, item))
    ensures Inv(Apply(s, StartPush(t, item)), chain)
  {
    var s' := Apply(s, StartPush(t, item));
    if item in chain { PendingIsBusy(s, chain, item); }
    LinkedFrame(s, s', chain);
    forall u | u in s'.pushes ensures PushOk(s', chain, s'.pushes[u]) {
      if u != t { PushOkFrame(s, s', chain, s.pushes[u]); }
    }
  }

  /** Linked only depends on the stored links and on the pushes being linked. */
  lemma LinkedFrame(s: State, s': State, chain: seq<Node>)
    requires Linked(s, chain)
    requires forall n :: n in chain ==> Next(s', n) == Next(s, n)
    requires forall t :: t in s.pushes && s.pushes[t].Link? ==> t in s'.pushes && s'.pushes[t] == s.pushes[t]
    ensures Linked(s', chain)
  {
    forall i | 0 <= i < |chain| - 1 ensures LinkOk(s', chain, i) {
      assert LinkOk(s, chain, i);
      if Next(s, chain[i]) == Null {
        var t :| t in s.pushes && s.pushes[t] == Link(chain[i + 1], chain[i]);
        assert s'.pushes[t] == s.pushes[t];
      }
    }
  }

  lemma PushOkFrame(s: State, s': State, chain: seq<Node>, pc: PushPc)
    requires PushOk(s, chain, pc)
    requires forall n :: n in chain || n == pc.item ==> Next(s', n) == Next(s, n)
    ensures PushOk(s', chain, pc)
  {
    if pc.Link? {
      var i :| MissingAt(s, chain, i, pc.item, pc.prev);
      assert MissingAt(s', chain, i, pc.item, pc.prev);
    }
  }

  /** A push step before the CAS, or a CAS that fails, leaves the chain alone. */
  lemma BeforeCasInv(s: State, chain: seq<Node>, t: Tid, casOk: bool)
    requires Inv(s, chain) && t in s.pushes
    requires !s.pushes[t].Link? && !(s.pushes[t].Cas? && casOk && s.tail == s.pushes[t].prev)
    ensures Inv(PushStep(s, t, casOk), chain)
  {
    var s' := PushStep(s, t, casOk);
    assert PushOk(s, chain, s.pushes[t]);
    LinkedFrame(s, s', chain);
    forall u | u in s'.pushes ensures PushOk(s', chain, s'.pushes[u]) {
      if u != t { PushOkFrame(s, s', chain, s.pushes[u]); }
    }
  }

  lemma CasLinked(s: State, chain: seq<Node>, s': State, t: Tid, x: Node)
    requires Linked(s, chain) && t in s.pushes && !s.pushes[t].Link?
    requires x !in chain && Next(s, x) == Null && s'.next == s.next
    requires s'.pushes == s.pushes[t := Link(x, chain[|chain| - 1])]
    ensures Linked(s', chain + [x])
  {
    var chain' := chain + [x];
    forall i | 0 <= i < |chain'| - 1 ensures LinkOk(s', chain', i) {
      if i == |chain| - 1 {
        assert s'.pushes[t] == Link(x, chain'[i]);
      } else {
        assert LinkOk(s, chain, i);
        if Next(s, chain[i]) == Null {
          var u :| u in s.pushes && s.pushes[u] == Link(chain[i + 1], chain[i]);
          assert s'.pushes[u] == s.pushes[u];
        }
      }
    }
  }

  /** The CAS is the moment the item joins the chain. */
  lemma CasInv(s: State, chain: seq<Node>, t: Tid)
    requires Inv(s, chain) && t in s.pushes
    requires s.pushes[t].Cas? && s.tail == s.pushes[t].prev
    ensures Inv(PushStep(s, t, true), chain + [s.pushes[t].item])
  {
    var s', x, prev := PushStep(s, t, true), s.pushes[t].item, s.tail;
    var chain' := chain + [x];
    assert PushOk(s, chain, s.pushes[t]);
    ItemsAppend(chain, x);
    CasLinked(s, chain, s', t, x);
    assert MissingAt(s', chain', |chain| - 1, x, prev);
    forall u | u in s'.pushes ensures PushOk(s', chain', s'.pushes[u]) {
      if u != t { LongerPushOk(s, chain, s', x, s.pushes[u]); }
    }
  }

  lemma LongerPushOk(s: State, chain: seq<Node>, s': State, x: Node, pc: PushPc)
    requires PushOk(s, chain, pc) && s'.next == s.next && pc.item != x
    ensures PushOk(s', chain + [x], pc)
  {
    if pc.Link? {
      var i :| MissingAt(s, chain, i, pc.item, pc.prev);
      assert MissingAt(s', chain + [x], i, pc.item, pc.prev);
    }
  }

  lemma LinkLinked(s: State, chain: seq<Node>, s': State, t: Tid, k: int)
    requires Linked(s, chain) && Distinct(chain) && 0 <= k < |chain| - 1
    requires t in s.pushes && s.pushes[t] == Link(chain[k + 1], chain[k])
    requires s'.next == s.next[chain[k] := To(chain[k + 1])] && s'.pushes == s.pushes - {t}
    ensures Linked(s', chain)
  {
    forall i | 0 <= i < |chain| - 1 ensures LinkOk(s', chain, i) {
      assert LinkOk(s, chain, i);
      if i != k && Next(s, chain[i]) == Null {
        var u :| u in s.pushes && s.pushes[u] == Link(chain[i + 1], chain[i]);
        assert s'.pushes[u] == s.pushes[u];
      }
    }
  }

  /** The link store fills the one link its push had left missing. */
  lemma LinkInv(s: State, chain: seq<Node>, t: Tid, casOk: bool)
    requires Inv(s, chain) && t in s.pushes && s.pushes[t].Link?
    ensures var s' := PushStep(s, t, casOk);
            Inv(if t == CONSUMER then s'.(pop := LoadLast) else s', chain)
  {
    var s1, x, prev := PushStep(s, t, casOk), s.pushes[t].item, s.pushes[t].prev;
    var s' := if t == CONSUMER then s1.(pop := LoadLast) else s1;
    assert PushOk(s, chain, s.pushes[t]);
    var k :| MissingAt(s, chain, k, x, prev);
    LinkLinked(s, chain, s', t, k);
    forall u | u in s'.pushes ensures PushOk(s', chain, s'.pushes[u]) {
      LinkPushOk(s, chain, s', k, s.pushes[u]);
    }
  }

  lemma LinkPushOk(s: State, chain: seq<Node>, s': State, k: int, pc: PushPc)
    requires PushOk(s, chain, pc) && Distinct(chain) && 0 <= k < |chain| - 1
    requires s'.next == s.next[chain[k] := To(chain[k + 1])] && pc.item != chain[k + 1]
    ensures PushOk(s', chain, pc)
  {
    if pc.Link? {
      var i :| MissingAt(s, chain, i, pc.item, pc.prev);
      assert MissingAt(s', chain, i, pc.item, pc.prev);
    }
  }

  lemma PushInv(s: State, chain: seq<Node>, t: Tid, casOk: bool)
    requires Inv(s, chain) && t in s.pushes
    ensures var s' := PushStep(s, t, casOk);
            Inv(if t == CONSUMER && CONSUMER !in s'.pushes then s'.(pop := LoadLast) else s',
                ChainAfterPush(s, chain, t, casOk))
  {
    if s.pushes[t].Link? {
      LinkInv(s, chain, t, casOk);
    } else if s.pushes[t].Cas? && casOk && s.tail == s.pushes[t].prev {
      CasInv(s, chain, t);
    } else {
      BeforeCasInv(s, chain, t, casOk);
    }
  }

  /** A stored link of the head leads to the next node of the chain. */
  lemma HeadLink(s: State, chain: seq<Node>)
    requires Inv(s, chain) && Next(s, s.head).To?
    ensures |chain| >= 2 && Next(s, s.head) == To(chain[1])
  {
    if |chain| >= 2 { assert LinkOk(s, chain, 0); }
  }

  /** Moving the head along a stored link drops the first node of the chain,
      which nobody is linking. */
  lemma AdvanceInv(s: State, chain: seq<Node>, s': State)
    requires Inv(s, chain) && Next(s, s.head).To?
    requires s'.head == Next(s, s.head).node && s'.tail == s.tail && s'.pushes == s.pushes
    requires forall n :: n != s.head ==> Next(s', n) == Next(s, n)
    requires s'.pop != ParkStub && !s'.pop.DropStub? && CONSUMER !in s.pushes
    requires s'.pop.Idle? || s'.head != STUB
    requires s'.pushed == s.pushed
    requires s'.popped == if s.head == STUB then s.popped else s.popped + [s.head]
    requires s'.pop.LoadAfterStub? || s'.pop.Idle?
    ensures Inv(s', chain[1..])
  {
    HeadLink(s, chain);
    var chain' := chain[1..];
    forall i | 0 <= i < |chain'| - 1 ensures LinkOk(s', chain', i) {
      assert LinkOk(s, chain, i + 1);
    }
    forall u | u in s'.pushes ensures PushOk(s', chain', s'.pushes[u]) {
      var pc := s.pushes[u];
      assert PushOk(s, chain, pc);
      if pc.Link? {
        var i :| MissingAt(s, chain, i, pc.item, pc.prev);
        assert MissingAt(s', chain', i - 1, pc.item, pc.prev);
      }
    }
  }

  lemma PopInv(s: State, chain: seq<Node>)
    requires Inv(s, chain) && Enabled(s, Pop)
    ensures Inv(PopStep(s), ChainAfter(s, chain, Pop))
  {
    var s' := PopStep(s);
    if Next(s, s.head).To? { HeadLink(s, chain); }
    if s'.head != s.head {
      AdvanceInv(s, chain, s');
    } else if s'.pop.ParkStub? {
      ParkInv(s, chain);
    } else {
      StayInv(s, chain, s');
    }
  }

  /** A step that changes neither links, ends, pushes nor history. */
  lemma StayInv(s: State, chain: seq<Node>, s': State)
    requires Inv(s, chain) && PopOk(s', chain)
    requires s'.pop != ParkStub && s.pop != ParkStub
    requires s' == s.(pop := s'.pop, result := s'.result)
    ensures Inv(s', chain)
  {
    LinkedFrame(s, s', chain);
    forall u | u in s'.pushes ensures PushOk(s', chain, s'.pushes[u]) {
      PushOkFrame(s, s', chain, s.pushes[u]);
    }
  }

  lemma ParkInv(s: State, chain: seq<Node>)
    requires Inv(s, chain) && s.pop.LoadTail? && s.tail == s.head
    ensures Inv(PopStep(s), chain)
  {
    var s' := PopStep(s);
    assert chain == [s.head];
    assert PushOk(s', chain, Clear(STUB));
    LinkedFrame(s, s', chain);
    forall u | u in s'.pushes && u != CONSUMER ensures PushOk(s', chain, s'.pushes[u]) {
      PushOkFrame(s, s', chain, s.pushes[u]);
    }
  }

  lemma StepInv(s: State, chain: seq<Node>, e: Event)
    requires Inv(s, chain) && Enabled(s, e)
    ensures Inv(Apply(s, e), ChainAfter(s, chain, e))
  {
    match e
    case StartPush(t, item) => StartPushInv(s, chain, t, item);
    case Push(t, casOk) => PushInv(s, chain, t, casOk);
    case StartPop => StayInv(s, chain, Apply(s, e));
    case Pop => PopInv(s, chain);
    case Park(casOk) => PushInv(s, chain, CONSUMER, casOk);
  }

  /** Every state of every run satisfies the queue invariant. */
  lemma {:induction false} RunInv(run: seq<State>, events: seq<Event>) returns (chain: seq<Node>)
    requires Run(run, events)
    ensures Inv(run[|run| - 1], chain)
  {
    if events == [] {
      chain := [STUB];
    } else {
      var n := |events| - 1;
      var before := RunInv(run[..|run| - 1], events[..n]);
      StepInv(run[n], before, events[n]);
      chain := ChainAfter(run[n], before, events[n]);
    }
  }

  // ---------- First in, first out ----------

  /** The items of `pushed` whose tail CAS was done by `t`. */
  function Of(pushed: seq<Node>, author: seq<Tid>, t: Tid): seq<Node>
    requires |pushed| <= |author|
  {
    if pushed == [] then
      []
    else
      Of(pushed[..|pushed| - 1], author, t) + if author[|pushed| - 1] == t then [pushed[|pushed| - 1]] else []
  }

  lemma {:induction false} OfFrame(pushed: seq<Node>, author: seq<Tid>, u: Tid, t: Tid)
    requires |pushed| <= |author|
    ensures Of(pushed, author + [u], t) == Of(pushed, author, t)
  {
    if pushed != [] { OfFrame(pushed[..|pushed| - 1], author, u, t); }
  }

  lemma {:induction false} OfPrefix(a: seq<Node>, b: seq<Node>, author: seq<Tid>, t: Tid)
    requires a <= b && |b| <= |author|
    ensures Of(a, author, t) <= Of(b, author, t)
  {
    if a != b {
      OfPrefix(a, b[..|b| - 1], author, t);
    }
  }

  /** What a thread has swung onto the tail, then what it is still pushing, is
      what it called push with. */
  ghost predicate Accounted(s: State, t: Tid)
    requires |s.pushed| == |s.author|
  {
    Calls(s, t) == Of(s.pushed, s.author, t) + Pushing(s, t)
  }

  function Pushing(s: State, t: Tid): seq<Node> {
    if t in s.pushes && !s.pushes[t].Link? then [s.pushes[t].item] else []
  }

  lemma CasAccounted(s: State, s': State, t: Tid, u: Tid, x: Node)
    requires |s.pushed| == |s.author| && Accounted(s, u)
    requires t in s.pushes && s.pushes[t].Cas? && s.pushes[t].item == x
    requires s'.calls == s.calls && s'.pushes == s.pushes[t := Link(x, s.pushes[t].prev)]
    requires s'.pushed == s.pushed + [x] && s'.author == s.author + [t]
    ensures Accounted(s', u)
  {
    OfFrame(s.pushed, s.author, t, u);
    assert s'.pushed[..|s'.pushed| - 1] == s.pushed;
  }

  lemma PushAccounted(s: State, t: Tid, casOk: bool, u: Tid)
    requires |s.pushed| == |s.author| && Accounted(s, u) && t in s.pushes && u != CONSUMER
    requires s.pushes[t].item == STUB <==> t == CONSUMER
    ensures var s' := PushStep(s, t, casOk); |s'.pushed| == |s'.author| && Accounted(s', u)
  {
    var s' := PushStep(s, t, casOk);
    if s'.pushed != s.pushed {
      CasAccounted(s, s', t, u, s.pushes[t].item);
    } else {
      assert Calls(s', u) == Calls(s, u) && Pushing(s', u) == Pushing(s, u);
    }
  }

  lemma StepAccounted(s: State, e: Event, u: Tid)
    requires |s.pushed| == |s.author| && Accounted(s, u) && Enabled(s, e) && u != CONSUMER
    requires forall t :: t in s.pushes ==> (s.pushes[t].item == STUB <==> t == CONSUMER)
    ensures var s' := Apply(s, e); |s'.pushed| == |s'.author| && Accounted(s', u)
  {
    match e
    case Push(t, casOk) => PushAccounted(s, t, casOk, u);
    case Park(casOk) => PushAccounted(s, CONSUMER, casOk, u);
    case StartPush(t, item) => StartAccounted(s, t, item, u);
    case StartPop =>
    case Pop => PopFrame(s, u);
  }

  lemma PopFrame(s: State, u: Tid)
    requires s.pop != Idle && s.pop != ParkStub && u != CONSUMER
    ensures var s' := PopStep(s);
            s'.pushed == s.pushed && s'.author == s.author && s'.calls == s.calls && Pushing(s', u) == Pushing(s, u)
  {
  }

  lemma StartAccounted(s: State, t: Tid, item: Node, u: Tid)
    requires |s.pushed| == |s.author| && Accounted(s, u) && t !in s.pushes
    ensures Accounted(s.(pushes := s.pushes[t := Clear(item)], calls := s.calls[t := Calls(s, t) + [item]]), u)
  {
  }

  lemma {:induction false} RunAccounted(run: seq<State>, events: seq<Event>, t: Tid)
    requires Run(run, events) && t != CONSUMER
    ensures var s := run[|run| - 1]; |s.pushed| == |s.author| && Accounted(s, t)
    decreases |events|
  {
    if events != [] {
      var n := |events| - 1;
      RunAccounted(run[..|run| - 1], events[..n], t);
      var chain := RunInv(run[..|run| - 1], events[..n]);
      assert PushesOk(run[n], chain);
      StepAccounted(run[n], events[n], t);
    }
  }

  /** In every run the popped items are a prefix of the items in CAS order, and
      those of any one producer are a prefix of its own calls, in call order. */
  lemma FirstInFirstOut(run: seq<State>, events: seq<Event>, t: Tid)
    requires Run(run, events) && t != CONSUMER
    ensures var s := run[|run| - 1];
            && s.popped <= s.pushed
            && |s.pushed| == |s.author|
            && Of(s.popped, s.author, t) <= Of(s.pushed, s.author, t) <= Calls(s, t)
  {
    var s := run[|run| - 1];
    var chain := RunInv(run, events);
    RunAccounted(run, events, t);
    OfPrefix(s.popped, s.pushed, s.author, t);
  }

  // ---------- Missing links, emptiness, solo pop ----------

  /** In every reachable state there is a chain from head to tail that holds
      the stub at most once, and a link of it is missing exactly when one push,
      and one only, stands between its CAS and that link store. */
  lemma MissingLinks(run: seq<State>, events: seq<Event>) returns (chain: seq<Node>)
    requires Run(run, events)
    ensures var s := run[|run| - 1];
            && |chain| > 0 && chain[0] == s.head && chain[|chain| - 1] == s.tail
            && s.pushed == s.popped + Items(chain)
            && Distinct(chain)
            && forall i :: 0 <= i < |chain| - 1 ==>
                 (Next(s, chain[i]) == Null <==> OneLinker(s, chain[i + 1], chain[i]))
  {
    var s := run[|run| - 1];
    chain := RunInv(run, events);
    forall i | 0 <= i < |chain| - 1
      ensures Next(s, chain[i]) == Null <==> OneLinker(s, chain[i + 1], chain[i])
    {
      assert LinkOk(s, chain, i);
      if Linking(s, chain[i + 1], chain[i]) {
        var t :| t in s.pushes && s.pushes[t] == Link(chain[i + 1], chain[i]);
        assert PushOk(s, chain, s.pushes[t]);
        assert SoleLinker(s, t, chain[i + 1], chain[i]);
      }
    }
  }

  predicate SoleLinker(s: State, t: Tid, item: Node, prev: Node) {
    && t in s.pushes && s.pushes[t] == Link(item, prev)
    && forall u :: u in s.pushes && u != t ==> s.pushes[u].item != item
  }

  ghost predicate OneLinker(s: State, item: Node, prev: Node) {
    exists t :: SoleLinker(s, t, item, prev)
  }

  /** With no push midway, mb_mpsc_queue_empty tells exactly whether every
      pushed item has been popped. */
  lemma EmptyWhenQuiet(run: seq<State>, events: seq<Event>)
    requires Run(run, events) && run[|run| - 1].pushes == map[]
    ensures var s := run[|run| - 1]; Empty(s) <==> s.popped == s.pushed
  {
    var s := run[|run| - 1];
    var chain := RunInv(run, events);
    if |chain| >= 2 { assert LinkOk(s, chain, 0); }
    assert Items(chain) == [] <==> chain == [STUB] by {
      if chain == [STUB] { assert Items(chain) == []; }
      if |chain| >= 2 {
        var x := if chain[0] == STUB then chain[1] else chain[0];
        assert x in chain && x != STUB;
        assert x in Items(chain);
      }
    }
  }

  // ---------- A pop beside pushes that stand still ----------

  /** There is an oldest item, and no link is missing from the head up to and
      including the link out of that item; the last node of the queue has none. */
  predicate Ready(s: State) {
    |s.popped| < |s.pushed| &&
    var x := s.pushed[|s.popped|];
    && (s.head == x || (s.head == STUB && Next(s, STUB) == To(x)))
    && (s.tail == x || Next(s, x).To?)
  }

  /** The oldest item of `before` was returned, or NULL. */
  predicate Returned(s: State, before: State, item: bool) {
    if item then
      && |before.popped| < |before.pushed| && s.result == To(before.pushed[|before.popped|])
      && s.popped == before.popped + [s.result.node]
    else s.result == Null && s.popped == before.popped
  }

  /** What pop has established at each point while only its own steps are taken. */
  ghost predicate Beside(s: State, chain: seq<Node>, before: State) {
    Inv(s, chain) && Course(s, chain, before)
  }

  ghost predicate Course(s: State, chain: seq<Node>, before: State)
    requires |chain| > 0
  {
    && s.pushed == before.pushed && (s.pop == ParkStub ==> CONSUMER in s.pushes)
    && Still(s, before) && (s.pop != Idle ==> s.popped == before.popped)
    && match s.pop {
      case Idle => Returned(s, before, Ready(before))
      case LoadTail => Next(s, s.head) == Null && (Ready(s) <==> Ready(before))
      case ParkStub => Ready(before) && Parked(s, chain, s.pushes[CONSUMER])
      case LoadLast => Ready(before) && chain == [s.head, STUB] && Next(s, s.head) == To(STUB)
      case _ => Ready(s) <==> Ready(before)
    }
  }

  /** The pushes of the producers stand where they stood. */
  ghost predicate Still(s: State, before: State) {
    forall t :: t != CONSUMER ==> (t in s.pushes <==> t in before.pushes) && (t in s.pushes ==> s.pushes[t] == before.pushes[t])
  }

  ghost predicate Parked(s: State, chain: seq<Node>, pc: PushPc)
    requires chain != []
  {
    chain == (if pc.Link? then [chain[0], STUB] else [chain[0]]) && (pc.Cas? ==> pc.prev == s.tail)
  }

  /** The oldest item is the first node of the chain that is not the stub. */
  lemma OldestAt(s: State, chain: seq<Node>)
    requires Inv(s, chain)
    ensures s.head != STUB ==> |s.popped| < |s.pushed| && s.pushed[|s.popped|] == s.head
    ensures s.head == STUB && |chain| >= 2 ==> |s.popped| < |s.pushed| && s.pushed[|s.popped|] == chain[1] != STUB
    ensures s.head == STUB && |chain| == 1 ==> s.popped == s.pushed
  {
    if s.head != STUB {
      assert Items(chain)[0] == s.head;
    } else if |chain| >= 2 {
      assert chain[1] != STUB;
      assert Items(chain) == Items(chain[1..]) && Items(chain[1..])[0] == chain[1];
    } else {
      assert chain == [STUB];
      assert Items(chain) == [];
    }
  }

  /** What the invariant says about the ends of the chain. */
  lemma Ends(s: State, chain: seq<Node>)
    requires Inv(s, chain)
    ensures |chain| > 0 && chain[0] == s.head && (s.tail == s.head <==> chain == [s.head])
    ensures s.head != STUB ==> |s.popped| < |s.pushed| && s.pushed[|s.popped|] == s.head
    ensures s.head == STUB && Next(s, STUB).To? ==>
      |s.popped| < |s.pushed| && Next(s, STUB) == To(s.pushed[|s.popped|]) && s.pushed[|s.popped|] != STUB
    ensures s.head == STUB && |s.popped| < |s.pushed| ==> s.pushed[|s.popped|] != STUB
    ensures s.pop.DropStub? ==> s.head == STUB && Next(s, STUB) == To(s.pop.next)
    ensures s.pop.LoadAfterStub? || s.pop.LoadTail? || s.pop.ParkStub? || s.pop.LoadLast? ==> s.head != STUB
    ensures CONSUMER in s.pushes <==> s.pop == ParkStub
  {
    OldestAt(s, chain);
    if |chain| >= 2 { assert LinkOk(s, chain, 0); }
  }

  lemma BesidePopStep(s: State, chain: seq<Node>, before: State)
    requires Beside(s, chain, before) && Enabled(s, Pop)
    ensures Beside(PopStep(s), ChainAfter(s, chain, Pop), before)
  {
    hide Inv, Still;
    StepInv(s, chain, Pop);
    StillPop(s, before);
    Ends(s, chain);
    match s.pop {
      case LoadNext => TakeOrPass(s, chain, before);
      case LoadAfterStub => TakeOrPass(s, chain, before);
      case _ =>
    }
  }

  lemma StillPop(s: State, before: State)
    requires Still(s, before) && Enabled(s, Pop)
    ensures Still(PopStep(s), before)
  {
  }

  /** The first look at the link out of the head. */
  lemma TakeOrPass(s: State, chain: seq<Node>, before: State)
    requires Beside(s, chain, before) && (s.pop == LoadNext || s.pop == LoadAfterStub) && Still(PopStep(s), before)
    ensures ChainAfter(s, chain, Pop) != [] && Course(PopStep(s), ChainAfter(s, chain, Pop), before)
  {
    hide Inv, Still;
    Ends(s, chain);
    StepInv(s, chain, Pop);
    Ends(PopStep(s), ChainAfter(s, chain, Pop));
  }

  lemma ParkEnds(s: State, chain: seq<Node>)
    requires Inv(s, chain) && s.pop == ParkStub
    ensures CONSUMER in s.pushes && s.pushes[CONSUMER].item == STUB
    ensures |chain| > 0 && chain[|chain| - 1] == s.tail
    ensures s.pushes[CONSUMER].Link? && |chain| == 2 ==> s.pushes[CONSUMER].prev == chain[0]
  {
    hide Items;
    var pc := s.pushes[CONSUMER];
    assert PushOk(s, chain, pc);
    if pc.Link? { var i :| MissingAt(s, chain, i, pc.item, pc.prev); }
  }

  lemma BesideParkStep(s: State, chain: seq<Node>, before: State, casOk: bool)
    requires Beside(s, chain, before) && Enabled(s, Park(casOk))
    ensures Beside(ParkStep(s, casOk), ChainAfter(s, chain, Park(casOk)), before)
  {
    hide Inv, Ready;
    StepInv(s, chain, Park(casOk));
    Ends(s, chain);
    ParkEnds(s, chain);
    assert s.pushes[CONSUMER].Cas? ==> chain + [STUB] == [chain[0], STUB];
  }

  /** How many steps a push has still to take, failed exchanges aside. */
  function PushRank(pc: PushPc): nat {
    match pc
    case Link(_, _) => 1
    case Cas(_, _) => 2
    case Load(_) => 3
    case Clear(_) => 4
  }

  /** How many steps pop has still to take, failed exchanges aside. */
  function Rank(s: State): nat {
    match s.pop
    case Idle => 0
    case LoadLast => 1
    case ParkStub => if CONSUMER in s.pushes then PushRank(s.pushes[CONSUMER]) + 1 else 2
    case LoadTail => 6
    case LoadAfterStub => 7
    case DropStub(_) => 8
    case LoadNext => 9
  }

  function Failures(steps: seq<Event>): nat {
    if steps == [] then 0
    else Failures(steps[..|steps| - 1]) + if steps[|steps| - 1] == Park(false) then 1 else 0
  }

  lemma RankFalls(s: State, chain: seq<Node>, before: State, e: Event)
    requires Beside(s, chain, before) && s.pop != Idle && Enabled(s, e) && (e.Pop? || e.Park?)
    ensures Rank(Apply(s, e)) < Rank(s) + if e == Park(false) then 2 else 0
  {
    hide Inv, Ready;
    Ends(s, chain);
  }

  /** From every reachable state, with the pushes standing wherever they are and only
      pop's own steps taken: pop returns the oldest item if there is one and no link is
      missing up to and out of it, and NULL otherwise.  It ends: some step is enabled
      until it has, and it takes nine steps at most and two more for each spurious
      failure of its own exchange. */
  lemma {:induction false} StalledPop(run: seq<State>, events: seq<Event>, pop: seq<State>, steps: seq<Event>)
      returns (chain: seq<Node>)
    requires Run(run, events) && run[|run| - 1].pop == Idle
    requires |pop| == |steps| + 1 && pop[0] == Apply(run[|run| - 1], StartPop)
    requires forall i :: 0 <= i < |steps| ==>
      && (steps[i].Pop? || steps[i].Park?) && Enabled(pop[i], steps[i]) && pop[i + 1] == Apply(pop[i], steps[i])
    ensures Beside(pop[|pop| - 1], chain, run[|run| - 1])
    ensures var s := pop[|pop| - 1];
      && (s.pop == Idle ==> Returned(s, run[|run| - 1], Ready(run[|run| - 1])))
      && (s.pop != Idle ==> Enabled(s, Pop) || Enabled(s, Park(true)))
      && |steps| + Rank(s) <= 9 + 2 * Failures(steps)
    decreases |steps|
  {
    hide Beside, Rank, Ready, Inv, Returned, PopStep, ParkStep, PushStep;
    if steps == [] {
      chain := RunInv(run, events);
      StepInv(run[|run| - 1], chain, StartPop);
      BesideStart(run[|run| - 1], chain);
    } else {
      var n := |steps| - 1;
      var c := StalledPop(run, events, pop[..|pop| - 1], steps[..n]);
      chain := BesideStep(pop[n], c, run[|run| - 1], steps[n]);
    }
    BesideGoesOn(pop[|pop| - 1], chain, run[|run| - 1]);
  }

  lemma BesideStart(s: State, chain: seq<Node>)
    requires Inv(s, chain) && s.pop == Idle && Inv(Apply(s, StartPop), chain)
    ensures Beside(Apply(s, StartPop), chain, s) && Rank(Apply(s, StartPop)) == 9
  {
    hide Linked, Items;
  }

  lemma BesideStep(s: State, chain: seq<Node>, before: State, e: Event) returns (chain': seq<Node>)
    requires Beside(s, chain, before) && (e.Pop? || e.Park?) && Enabled(s, e)
    ensures Beside(Apply(s, e), chain', before) && Rank(Apply(s, e)) < Rank(s) + if e == Park(false) then 2 else 0
  {
    hide Beside, Rank, PopStep, ParkStep, PushStep, ChainAfter;
    BesideLong(s, chain, before);
    if e.Pop? { BesidePopStep(s, chain, before); } else { BesideParkStep(s, chain, before, e.casOk); }
    RankFalls(s, chain, before, e);
    chain' := ChainAfter(s, chain, e);
  }

  lemma BesideLong(s: State, chain: seq<Node>, before: State)
    requires Beside(s, chain, before)
    ensures |chain| > 0
  {
  }

  lemma BesideGoesOn(s: State, chain: seq<Node>, before: State)
    requires Beside(s, chain, before)
    ensures s.pop == Idle ==> Returned(s, before, Ready(before))
    ensures s.pop != Idle ==> Enabled(s, Pop) || Enabled(s, Park(true))
  {
  }

  /** With no push midway that is: the oldest item if and only if the queue holds one. */
  lemma ReadyWhenQuiet(run: seq<State>, events: seq<Event>)
    requires Run(run, events) && run[|run| - 1].pushes == map[]
    ensures Ready(run[|run| - 1]) <==> run[|run| - 1].popped != run[|run| - 1].pushed
  {
    var s := run[|run| - 1];
    var chain := RunInv(run, events);
    OldestAt(s, chain);
    var k := if s.head == STUB then 1 else 0;
    if |chain| >= 2 { assert LinkOk(s, chain, 0); }
    if |chain| >= 3 { assert LinkOk(s, chain, 1); }
  }

  // ---------- A push beside threads that stand still ----------

  /** What the push of `item` by `t` has done at each point while only its own steps
      are taken. */
  predicate OwnPush(s: State, before: State, t: Tid, item: Node) {
    && s.head == before.head && s.pop == before.pop && s.popped == before.popped && s.result == before.result
    && s.pushes - {t} == before.pushes - {t} && s.calls == before.calls[t := Calls(before, t) + [item]]
    && if t in s.pushes && !s.pushes[t].Link? then
         && s.pushes[t].item == item && s.tail == before.tail && s.pushed == before.pushed && s.author == before.author
         && (s.pushes[t].Cas? ==> s.pushes[t].prev == s.tail)
       else
         && s.tail == item && s.pushed == before.pushed + [item] && s.author == before.author + [t]
         && if t in s.pushes then s.pushes[t] == Link(item, before.tail) else Next(s, before.tail) == To(item)
  }

  lemma PushingStep(s: State, before: State, t: Tid, item: Node, casOk: bool)
    requires OwnPush(s, before, t, item) && t in s.pushes && item != STUB
    ensures OwnPush(PushStep(s, t, casOk), before, t, item)
    ensures var s' := PushStep(s, t, casOk);
      (if t in s'.pushes then PushRank(s'.pushes[t]) else 0) < PushRank(s.pushes[t]) + if s.pushes[t].Cas? && !casOk then 2 else 0
  {
    var s' := PushStep(s, t, casOk);
    assert s'.pushes - {t} == s.pushes - {t};
  }

  function Misses(steps: seq<Event>): nat {
    if steps == [] then 0
    else Misses(steps[..|steps| - 1]) + if steps[|steps| - 1].Push? && !steps[|steps| - 1].casOk then 1 else 0
  }

  /** From every state, with all other threads standing still, a push appends its item
      at the end of the queue, links it, and ends: in four steps and at most two more
      for each spurious failure of its exchange. */
  lemma {:induction false} StalledPush(before: State, t: Tid, item: Node, push: seq<State>, steps: seq<Event>)
    requires Enabled(before, StartPush(t, item))
    requires |push| == |steps| + 1 && push[0] == Apply(before, StartPush(t, item))
    requires forall i :: 0 <= i < |steps| ==>
      && steps[i].Push? && steps[i].t == t && Enabled(push[i], steps[i]) && push[i + 1] == Apply(push[i], steps[i])
    ensures var s := push[|steps|];
      && OwnPush(s, before, t, item)
      && |steps| + (if t in s.pushes then PushRank(s.pushes[t]) else 0) <= 4 + 2 * Misses(steps)
    decreases |steps|
  {
    hide OwnPush, PushStep, PushRank;
    if steps == [] {
      PushingStart(before, t, item);
    } else {
      var n := |steps| - 1;
      StalledPush(before, t, item, push[..n + 1], steps[..n]);
      PushingStep(push[n], before, t, item, steps[n].casOk);
    }
  }

  lemma PushingStart(before: State, t: Tid, item: Node)
    requires Enabled(before, StartPush(t, item))
    ensures var s := Apply(before, StartPush(t, item));
      OwnPush(s, before, t, item) && t in s.pushes && PushRank(s.pushes[t]) == 4
  {
  }

  /** How many steps a push has still to take, spurious failures aside; one whose tail
      is out of date has to load it again. */
  function StepsLeft(s: State, t: Tid): (n: nat)
    ensures n <= 4
  {
    if t !in s.pushes then 0
    else if s.pushes[t].Cas? && s.pushes[t].prev != s.tail then 4
    else PushRank(s.pushes[t])
  }

  /** The exchange fails although the tail is the one loaded. */
  predicate Spurious(s: State, t: Tid, casOk: bool) {
    !casOk && t in s.pushes && s.pushes[t].Cas? && s.pushes[t].prev == s.tail
  }

  lemma StepsLeftFall(s: State, t: Tid, casOk: bool)
    requires t in s.pushes
    ensures StepsLeft(PushStep(s, t, casOk), t) < StepsLeft(s, t) + if Spurious(s, t, casOk) then 2 else 0
  {
  }

  function SpuriousFailures(states: seq<State>, t: Tid, oks: seq<bool>): nat
    requires |states| == |oks| + 1
  {
    if oks == [] then 0
    else
      var n := |oks| - 1;
      SpuriousFailures(states[..n + 1], t, oks[..n]) + if Spurious(states[n], t, oks[n]) then 1 else 0
  }

  /** A step of the push of `t`, or of the push of the stub inside pop. */
  predicate OwnStep(s: State, s': State, t: Tid, casOk: bool) {
    var e := if t == CONSUMER then Park(casOk) else Push(t, casOk);
    Enabled(s, e) && s' == Apply(s, e)
  }

  /** From every state at all, a push that is midway anywhere ends once it runs by itself,
      the push of the stub inside pop included: within four steps, and two more for
      each spurious failure. */
  lemma {:induction false} PushEnds(states: seq<State>, t: Tid, oks: seq<bool>)
    requires |states| == |oks| + 1
    requires forall i :: 0 <= i < |oks| ==> OwnStep(states[i], states[i + 1], t, oks[i])
    ensures |oks| + StepsLeft(states[|oks|], t) <= StepsLeft(states[0], t) + 2 * SpuriousFailures(states, t, oks)
    decreases |oks|
  {
    hide StepsLeft, PushStep, Spurious;
    if oks != [] {
      var n := |oks| - 1;
      PushEnds(states[..n + 1], t, oks[..n]);
      assert OwnStep(states[n], states[n + 1], t, oks[n]);
      StepsLeftFall(states[n], t, oks[n]);
      SameLeft(PushStep(states[n], t, oks[n]), states[n + 1], t);
    }
  }

  lemma SameLeft(s: State, s': State, t: Tid)
    requires s'.pushes == s.pushes && s'.tail == s.tail
    ensures StepsLeft(s', t) == StepsLeft(s, t)
  {
  }

  /** A pop that returns an item returns the head of the chain and moves past it. */
  lemma TakesHead(s: State, chain: seq<Node>)
    requires Inv(s, chain) && Enabled(s, Pop)
    requires PopStep(s).pop == Idle && PopStep(s).result.To?
    ensures PopStep(s).result.node == chain[0] != STUB && PopStep(s).pushes == s.pushes
    ensures ChainAfter(s, chain, Pop) == chain[1..] && chain[0] !in chain[1..]
  {
    hide PushesOk, Items;
    HeadLink(s, chain);
  }

  lemma NotBusy(s: State, chain: seq<Node>, before: State, x: Node)
    requires PushesOk(s, chain) && s.pushed == s.popped + Items(chain) && x !in chain
    requires before.pushes == s.pushes && PushesOk(before, [x] + chain)
    ensures !Busy(s, x)
    ensures forall t :: t in s.pushes && s.pushes[t].Link? ==> s.pushes[t].prev != x
  {
    forall t | t in s.pushes ensures s.pushes[t].item != x && (s.pushes[t].Link? ==> s.pushes[t].prev != x) {
      assert PushOk(s, chain, s.pushes[t]) && PushOk(before, [x] + chain, s.pushes[t]);
    }
    forall i | |s.popped| <= i < |s.pushed| ensures s.pushed[i] != x {
      assert s.pushed[i] == Items(chain)[i - |s.popped|];
      assert s.pushed[i] in Items(chain);
    }
  }

  /** When pop returns an item, no thread links after it, carries it or still
      has it in the chain: the caller may free it or push it again. */
  lemma ReturnedIsFree(s: State, chain: seq<Node>)
    requires Inv(s, chain) && Enabled(s, Pop)
    requires PopStep(s).pop == Idle && PopStep(s).result.To?
    ensures var s' := PopStep(s);
            var x := s'.result.node;
            && x != STUB && !Busy(s', x)
            && x !in ChainAfter(s, chain, Pop)
            && forall t :: t in s'.pushes && s'.pushes[t].Link? ==> s'.pushes[t].prev != x
  {
    hide PopStep, Linked, PushesOk, PopOk, Items, Busy;
    StepInv(s, chain, Pop);
    TakesHead(s, chain);
    assert chain == [chain[0]] + chain[1..];
    NotBusy(PopStep(s), chain[1..], s, chain[0]);
  }
}
