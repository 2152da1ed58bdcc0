/** The inproc message queue of src/transport/inproc/msgqueue.c: a chain of
    fixed-size chunks with one cached chunk, and a byte budget. */
module MsgQueue {
  import opened Common
  import opened Wire

  const GRANULARITY: nat := 64
  const SIZE_T: nat := 0x1_0000_0000_0000_0000

  type Msg = seq<byte>

  /** A message slot: moving a message out leaves the slot empty. */
  datatype Slot = Empty | Full(m: Msg)

  class Chunk {
    const msgs: array<Slot>
    var next: Chunk?

    constructor ()
      ensures fresh(msgs) && Blank() && next == null
    {
      msgs := new Slot[GRANULARITY](_ => Empty);
      next := null;
    }

    ghost predicate Blank()
      reads msgs
    {
      msgs.Length == GRANULARITY && forall j :: 0 <= j < GRANULARITY ==> msgs[j] == Empty
    }
  }

  // ---------- The byte budget ----------

  /** mb_msgqueue_fits_locked */
  predicate Fits(maxmem: nat, mem: nat, sz: nat) {
    maxmem == 0 || (sz <= maxmem && mem <= maxmem - sz)
  }

  /** mb_msgqueue_check_sz: under a cap an empty body is charged one byte. */
  function Charge(maxmem: nat, sz: nat): nat {
    if maxmem > 0 && sz == 0 then 1 else sz
  }

  /** The counters of a queue. */
  datatype Account = Account(maxmem: nat, mem: nat, pending: nat) {
    /** mb_msgqueue_can_push */
    predicate Room() {
      Fits(maxmem, mem, if pending != 0 then pending else 1)
    }

    /** A remembered refused size never fits. */
    predicate Sound() {
      pending != 0 ==> !Fits(maxmem, mem, pending)
    }

    /** Forget a refused size once it fits. */
    function Rechecked(): Account {
      if pending != 0 && Fits(maxmem, mem, pending) then this.(pending := 0) else this
    }

    /** A push is charged or turned away. */
    function Pushed(sz: nat): Account {
      var c := Charge(maxmem, sz);
      if Fits(maxmem, mem, c) then this.(mem := mem + c).Rechecked()
      else this.(pending := c)
    }

    function Popped(sz: nat): Account {
      var c := Charge(maxmem, sz);
      this.(mem := if mem >= c then mem - c else (mem - c) % SIZE_T).Rechecked()
    }

    function Capped(m: nat): Account {
      this.(maxmem := m).Rechecked()
    }
  }

  /** The cap that mb_sinproc_sync_maxmem derives from a socket's MB_RCVBUF. */
  function CapOf(rcvbuf: int): (r: nat)
    ensures r > 0
  {
    if rcvbuf <= 0 then 0x10_0000 else rcvbuf
  }

  /** A full queue stays full whatever is pushed, and a cap set once more changes
      nothing: only a pop or a new cap makes room. */
  lemma MakesNoRoom(a: Account, sz: nat)
    requires a.Sound()
    ensures a.Pushed(sz).Sound() && a.Pushed(sz).maxmem == a.maxmem && (a.Pushed(sz).Room() ==> a.Room())
    ensures a.Capped(a.maxmem) == a
  {
  }

  lemma StaysSound(a: Account, n: nat)
    ensures a.Popped(n).Sound() && a.Popped(n).maxmem == a.maxmem
    ensures a.Capped(n).Sound() && a.Capped(n).maxmem == n
  {
  }

  /** A pop gives back what the push of the same message was charged. */
  lemma PushThenPop(a: Account, sz: nat)
    requires a.Sound() && Fits(a.maxmem, a.mem, Charge(a.maxmem, sz))
    ensures a.Pushed(sz).mem == a.mem + Charge(a.maxmem, sz)
    ensures var b := a.Pushed(sz).Popped(sz); b.mem == a.mem && b.maxmem == a.maxmem && b.pending == a.pending
  {
  }

  /** After a refusal the queue can be pushed to exactly when a retry would be accepted,
      whatever was popped meanwhile. */
  lemma RefusedThenReady(a: Account, sz: nat, mem: nat)
    requires !Fits(a.maxmem, a.mem, Charge(a.maxmem, sz))
    ensures var b := a.Pushed(sz);
      b.mem == a.mem && !b.Room() && (b.(mem := mem).Room() <==> Fits(a.maxmem, mem, Charge(a.maxmem, sz)))
  {
  }

  function Total(capped: bool, ms: seq<Msg>): nat {
    if ms == [] then 0
    else Total(capped, ms[..|ms| - 1]) + Charge(if capped then 1 else 0, |ms[|ms| - 1]|)
  }

  lemma {:induction false} TotalFirst(capped: bool, ms: seq<Msg>)
    requires ms != []
    ensures Total(capped, ms) == Charge(if capped then 1 else 0, |ms[0]|) + Total(capped, ms[1..])
  {
    if |ms| > 1 {
      var n := |ms| - 1;
      TotalFirst(capped, ms[..n]);
      assert ms[1..][..n - 1] == ms[..n][1..];
    } else {
      assert ms[..0] == [] && ms[1..] == [];
    }
  }

  /** The accounting half of struct mb_msgqueue. */
  class Budget {
    var maxmem: nat
    var mem: nat
    var pending: nat   // the last size refused for lack of room

    ghost var charged: seq<Msg>   // the messages accounted for
    ghost var steady: bool        // no switch between capped and uncapped while occupied

    /** While the cap stays a cap, `mem` is the charge of the queued messages; a
        remembered refused size never fits. */
    ghost predicate Valid()
      reads this
    {
      && (steady ==> mem == Total(maxmem > 0, charged))
      && (pending != 0 ==> !Fits(maxmem, mem, pending))
    }

    ghost function View(): Account
      reads this
    {
      Account(maxmem, mem, pending)
    }

    constructor (maxmem: nat)
      ensures Valid() && this.maxmem == maxmem && mem == 0 && pending == 0 && charged == [] && steady
    {
      this.maxmem, mem, pending := maxmem, 0, 0;
      charged, steady := [], true;
    }

    /** Forget a refused size once it fits. */
    method Recheck()
      requires steady ==> mem == Total(maxmem > 0, charged)
      modifies this`pending
      ensures Valid() && View() == old(View()).Rechecked()
    {
      if pending != 0 && Fits(maxmem, mem, pending) { pending := 0; }
    }

    /** mb_msgqueue_set_maxmem */
    method SetMax(m: nat)
      requires Valid()
      modifies this
      ensures Valid() && View() == old(View()).Capped(m) && charged == old(charged)
      ensures steady <==> old(steady) && (charged == [] || (m > 0 <==> old(maxmem) > 0))
    {
      if !(charged == [] || (m > 0 <==> maxmem > 0)) { steady := false; }
      maxmem := m;
      Recheck();
    }

    /** mb_msgqueue_can_push_sz */
    method CanPushSize(sz: nat) returns (ok: bool)
      ensures ok <==> Fits(maxmem, mem, Charge(maxmem, sz))
    {
      ok := Fits(maxmem, mem, Charge(maxmem, sz));
    }

    /** mb_msgqueue_can_push: true if and only if nothing is pending and one byte
        fits. */
    method CanPush() returns (ok: bool)
      requires Valid()
      ensures (ok <==> View().Room()) && (ok <==> pending == 0 && Fits(maxmem, mem, 1))
    {
      if pending != 0 { ok := Fits(maxmem, mem, pending); } else { ok := Fits(maxmem, mem, 1); }
    }

    /** The capacity test of mb_msgqueue_push, which remembers a refused size. */
    method Admit(sz: nat) returns (ok: bool)
      requires Valid()
      modifies this`pending
      ensures Valid() && (ok <==> Fits(maxmem, mem, Charge(maxmem, sz)))
      ensures pending == if ok then old(pending) else Charge(maxmem, sz)
      ensures !ok ==> maxmem > 0
    {
      var c := Charge(maxmem, sz);
      ok := Fits(maxmem, mem, c);
      if !ok && maxmem > 0 { pending := c; }
    }

    /** Charge an accepted message: the budget is not exceeded. */
    method Take(m: Msg)
      requires Valid() && Fits(maxmem, mem, Charge(maxmem, |m|))
      modifies this
      ensures Valid() && steady == old(steady) && charged == old(charged) + [m] && View() == old(View()).Pushed(|m|)
      ensures mem == old(mem) + Charge(maxmem, |m|) && (maxmem > 0 ==> mem <= maxmem)
    {
      mem, charged := mem + Charge(maxmem, |m|), charged + [m];
      assert charged[..|charged| - 1] == old(charged);
      Recheck();
    }

    /** Give back the charge of the oldest message. */
    method Return(m: Msg)
      requires Valid() && charged != [] && m == charged[0]
      modifies this
      ensures Valid() && steady == old(steady) && charged == old(charged)[1..] && View() == old(View()).Popped(|m|)
      ensures steady ==> mem == old(mem) - Charge(maxmem, |m|)
    {
      TotalFirst(maxmem > 0, charged);
      var c := Charge(maxmem, |m|);
      mem := if mem >= c then mem - c else (mem - c) % SIZE_T;
      charged := charged[1..];
      Recheck();
    }
  }

  // ---------- The chunks ----------

  /** Chunks of a chain are separate objects with separate slots. */
  ghost predicate Apart(cs: seq<Chunk>) {
    forall i, j :: 0 <= i < j < |cs| ==> cs[i] != cs[j] && cs[i].msgs != cs[j].msgs
  }

  ghost predicate Sized(cs: seq<Chunk>) {
    forall i :: 0 <= i < |cs| ==> cs[i].msgs.Length == GRANULARITY
  }

  ghost predicate LinkAt(cs: seq<Chunk>, i: nat)
    requires i < |cs|
    reads cs
  {
    cs[i].next == if i + 1 < |cs| then cs[i + 1] else null
  }

  ghost predicate Linked(cs: seq<Chunk>)
    reads cs
  {
    Sized(cs) && forall i :: 0 <= i < |cs| ==> LinkAt(cs, i)
  }

  /** What slot `j` of chunk `i` holds when reading starts at `pos`. */
  function Expected(ms: seq<Msg>, pos: nat, i: nat, j: nat): Slot {
    var k := GRANULARITY * i + j - pos;
    if 0 <= k < |ms| then Full(ms[k]) else Empty
  }

  ghost predicate Holds(cs: seq<Chunk>, pos: nat, ms: seq<Msg>)
    requires Sized(cs)
    reads set c | c in cs :: c.msgs
  {
    forall i, j :: 0 <= i < |cs| && 0 <= j < GRANULARITY ==> cs[i].msgs[j] == Expected(ms, pos, i, j)
  }

  /** The chain behind a consumed first chunk. */
  lemma Tail(cs: seq<Chunk>, ms: seq<Msg>)
    requires cs != [] && Apart(cs) && Linked(cs) && Holds(cs, GRANULARITY, ms)
    ensures Apart(cs[1..]) && Linked(cs[1..]) && Holds(cs[1..], 0, ms)
    ensures cs[0].Blank() && forall d :: d in cs[1..] ==> d != cs[0] && d.msgs != cs[0].msgs
  {
    forall i | 0 <= i < |cs[1..]| ensures LinkAt(cs[1..], i) { assert LinkAt(cs, i + 1); }
    forall j | 0 <= j < GRANULARITY ensures cs[0].msgs[j] == Empty {
      assert cs[0].msgs[j] == Expected(ms, GRANULARITY, 0, j);
    }
    forall i, j | 0 <= i < |cs[1..]| && 0 <= j < GRANULARITY ensures cs[1..][i].msgs[j] == Expected(ms, 0, i, j) {
      assert cs[i + 1].msgs[j] == Expected(ms, GRANULARITY, i + 1, j);
    }
  }

  lemma LastBlank(cs: seq<Chunk>, pos: nat)
    requires |cs| == 1 && Linked(cs) && Holds(cs, pos, [])
    ensures cs[0].Blank() && cs[0].next == null
  {
    assert LinkAt(cs, 0);
    forall j | 0 <= j < GRANULARITY ensures cs[0].msgs[j] == Empty {
      assert cs[0].msgs[j] == Expected([], pos, 0, j);
    }
  }

  /** The storage half of struct mb_msgqueue. */
  class Chain {
    const heap: Supply
    var outChunk: Chunk?
    var outPos: nat
    var inChunk: Chunk?
    var inPos: nat
    var count: nat
    var cache: Chunk?

    ghost var chunks: seq<Chunk>    // from inChunk to outChunk
    ghost var contents: seq<Msg>
    ghost var repr: set<object>

    /** The cursors point into the ends of the chain, between them lie the queued
        messages in order, and every other slot is empty. */
    ghost predicate Valid()
      reads this, repr
    {
      Body() && Cursors()
    }

    ghost predicate Body()
      reads this, repr
    {
      && this !in repr && heap as object !in repr && (forall c :: c in chunks ==> c in repr && c.msgs in repr)
      && (cache != null ==> cache in repr && cache.msgs in repr && cache.Blank() && Separate(cache))
      && Apart(chunks) && Linked(chunks) && Holds(chunks, inPos, contents)
    }

    ghost predicate Separate(c: Chunk)
      reads this`chunks
    {
      forall d :: d in chunks ==> d != c && d.msgs != c.msgs
    }

    ghost predicate Cursors()
      reads this
    {
      && count == |contents|
      && (if chunks == [] then
            inChunk == null && outChunk == null && contents == []
          else
            && inChunk == chunks[0] && outChunk == chunks[|chunks| - 1]
            && inPos < GRANULARITY && outPos <= GRANULARITY
            && inPos + |contents| == GRANULARITY * (|chunks| - 1) + outPos
            && (contents == [] ==> outPos == 0))
    }

    constructor (heap: Supply)
      ensures Valid() && contents == [] && fresh(repr) && this.heap == heap && cache == null && outChunk == null
    {
      this.heap := heap;
      outChunk, outPos, inChunk, inPos, count, cache := null, 0, null, 0, 0, null;
      chunks, contents, repr := [], [], {};
    }

    /** mb_msgqueue_alloc_chunk: the cached chunk, a new one, or none. */
    method Alloc() returns (c: Chunk?)
      requires Valid()
      modifies this`cache, this`repr, heap
      ensures Valid() && fresh(repr - old(repr)) && old(repr) <= repr
      ensures c != null <==> old(cache) != null || old(heap.Granted())
      ensures c != null ==> c in repr && c.msgs in repr && c.Blank() && Separate(c) && cache == null
    {
      if cache != null {
        c := cache;
        cache := null;
      } else {
        var ok := heap.Request();
        if !ok { return null; }
        c := new Chunk();
        repr := repr + {c, c.msgs};
      }
    }

    /** Append a blank chunk to the chain and write there next. */
    method Append(c: Chunk)
      requires Valid() && c in repr && c.msgs in repr && c.Blank() && Separate(c)
      requires cache == null
      requires chunks != [] ==> outPos == GRANULARITY
      modifies this`outChunk, this`outPos, this`inChunk, this`inPos, this`chunks, repr
      ensures Valid() && contents == old(contents) && outChunk != null && outPos < GRANULARITY
      ensures cache == null
    {
      ghost var cs := chunks;
      c.next := null;
      if outChunk == null {
        outChunk, inChunk, inPos := c, c, 0;
      } else {
        outChunk.next := c;
        outChunk := c;
      }
      outPos := 0;
      chunks := chunks + [c];
      forall i | 0 <= i < |chunks| ensures LinkAt(chunks, i) {
        if i < |cs| { assert old(LinkAt(cs, i)); }
      }
    }

    /** Move a message into the slot at the write cursor. */
    method Write(m: Msg)
      requires Valid() && outChunk != null && outPos < GRANULARITY
      modifies this`outPos, this`count, this`contents, repr
      ensures Valid() && contents == old(contents) + [m] && outChunk != null
    {
      outChunk.msgs[outPos] := Full(m);
      outPos, count := outPos + 1, count + 1;
      contents := contents + [m];
    }

    /** The next message needs a chunk that is neither in use nor cached. */
    predicate NeedsChunk()
      reads this
    {
      (outChunk == null || outPos == GRANULARITY) && cache == null
    }

    /** The storage part of mb_msgqueue_push: it fails if and only if it needs a chunk
        that is not granted, which changes nothing; a failed allocation of the next
        chunk is made up for later. */
    method Push(m: Msg) returns (ok: bool)
      requires Valid()
      modifies this, repr, heap
      ensures Valid() && fresh(repr - old(repr))
      ensures ok <==> !old(NeedsChunk()) || old(heap.Granted())
      ensures contents == if ok then old(contents) + [m] else old(contents)
    {
      if outChunk == null || outPos == GRANULARITY {
        var c := Alloc();
        if c == null { return false; }
        Append(c);
      }
      Write(m);
      if outPos == GRANULARITY {
        var c := Alloc();
        if c != null { Append(c); }
      }
      return true;
    }

    /** The cursors after a message was taken and before its chunk is let go. */
    ghost predicate Taken()
      reads this
    {
      && count == |contents| && chunks != []
      && inChunk == chunks[0] && outChunk == chunks[|chunks| - 1]
      && 0 < inPos <= GRANULARITY && outPos <= GRANULARITY
      && inPos + |contents| == GRANULARITY * (|chunks| - 1) + outPos
    }

    /** Move the message out of the slot at the read cursor. */
    method Take() returns (slot: Slot)
      requires Valid() && count > 0
      modifies this`inPos, this`count, this`contents, repr
      ensures Body() && Taken() && slot == Full(old(contents)[0]) && contents == old(contents)[1..]
    {
      assert inChunk.msgs[inPos] == Expected(contents, inPos, 0, inPos);
      slot := inChunk.msgs[inPos];
      inChunk.msgs[inPos] := Empty;
      count, inPos := count - 1, inPos + 1;
      contents := contents[1..];
    }

    /** Leave a fully consumed chunk; keep one such chunk for reuse. */
    method Release()
      requires Body() && Taken()
      modifies this`inChunk, this`inPos, this`outChunk, this`outPos, this`chunks, this`cache
      ensures Valid() && contents == old(contents)
      ensures cache == if old(cache) == null && chunks != old(chunks) then old(inChunk) else old(cache)
    {
      if inPos == GRANULARITY || (inChunk == outChunk && inPos == outPos) {
        var chunk := inChunk;
        assert LinkAt(chunks, 0);
        if |chunks| == 1 {
          LastBlank(chunks, inPos);
        } else {
          assert chunk != outChunk;
          Tail(chunks, contents);
        }
        inChunk, inPos := chunk.next, 0;
        if chunk == outChunk { outChunk, outPos := null, 0; }
        if cache == null { cache := chunk; }
        chunks := chunks[1..];
      }
    }

    /** The storage part of mb_msgqueue_pop: the oldest message, if any. */
    method Pop() returns (slot: Slot)
      requires Valid()
      modifies this, repr
      ensures Valid() && repr == old(repr)
      ensures if old(contents) == [] then slot == Empty && contents == []
              else slot.Full? && [slot.m] + contents == old(contents)
    {
      if count == 0 { return Empty; }
      slot := Take();
      Release();
    }

    /** mb_msgqueue_term: every slot of every chunk is terminated; each queued
        message is released exactly once, in order. */
    method Term() returns (released: seq<Msg>)
      requires Valid()
      modifies this, repr
      ensures Valid() && contents == [] && released == old(contents)
    {
      released := TermChain(inChunk, chunks, inPos, contents);
      cache, inChunk, outChunk, count := null, null, null, 0;
      chunks, contents := [], [];
    }
  }

  /** The loops of mb_msgqueue_term over the chain `cs` that starts at `first`. */
  method TermChain(first: Chunk?, ghost cs: seq<Chunk>, ghost pos: nat, ghost ms: seq<Msg>) returns (released: seq<Msg>)
    requires Linked(cs) && Holds(cs, pos, ms) && first == if cs == [] then null else cs[0]
    requires if cs == [] then ms == [] else pos < GRANULARITY && pos + |ms| <= GRANULARITY * |cs|
    ensures released == ms
  {
    released := [];
    var chunk := first;
    ghost var i := 0;
    while chunk != null
      invariant i <= |cs| && chunk == (if i < |cs| then cs[i] else null)
      invariant released == ms[..Clamp(ms, GRANULARITY * i - pos)]
      decreases |cs| - i
    {
      assert LinkAt(cs, i);
      var more := TermSlots(chunk);
      LiveSpan(chunk.msgs[..], ms, pos, i);
      released := released + more;
      chunk := chunk.next;
      i := i + 1;
    }
  }

  /** The messages that a run of slots owns. */
  function Live(ss: seq<Slot>): seq<Msg> {
    if ss == [] then []
    else Live(ss[..|ss| - 1]) + match ss[|ss| - 1] case Empty => [] case Full(m) => [m]
  }

  /** Terminate the slots of a chunk that is about to be freed. */
  method TermSlots(c: Chunk) returns (released: seq<Msg>)
    ensures released == Live(c.msgs[..])
  {
    released := [];
    for j := 0 to c.msgs.Length
      invariant released == Live(c.msgs[..j])
    {
      assert c.msgs[..j + 1][..j] == c.msgs[..j];
      match c.msgs[j] {
        case Empty =>
        case Full(m) => released := released + [m];
      }
    }
    assert c.msgs[..c.msgs.Length] == c.msgs[..];
  }

  function Clamp(ms: seq<Msg>, k: int): (r: nat)
    ensures r <= |ms|
  {
    if k < 0 then 0 else if k > |ms| then |ms| else k
  }

  lemma {:induction false} LiveSpan(ss: seq<Slot>, ms: seq<Msg>, pos: nat, i: nat)
    requires forall j :: 0 <= j < |ss| ==> ss[j] == Expected(ms, pos, i, j)
    ensures var k := GRANULARITY * i - pos;
            Clamp(ms, k) <= Clamp(ms, k + |ss|) && Live(ss) == ms[Clamp(ms, k)..Clamp(ms, k + |ss|)]
  {
    if ss != [] {
      var n := |ss| - 1;
      LiveSpan(ss[..n], ms, pos, i);
      assert ss[n] == Expected(ms, pos, i, n);
      var lo, k := Clamp(ms, GRANULARITY * i - pos), GRANULARITY * i - pos + n;
      if 0 <= k < |ms| {
        assert ms[lo..k + 1] == ms[lo..k] + [ms[k]];
      } else {
        assert Clamp(ms, k + 1) == Clamp(ms, k);
      }
    }
  }

  // ---------- The queue ----------

  datatype Pushed = Again | NoMem | Done(wasEmpty: bool)

  /** struct mb_msgqueue */
  class Queue {
    const budget: Budget
    const chain: Chain

    ghost predicate Valid()
      reads this, budget, chain, chain.repr
    {
      && budget as object !in chain.repr && chain as object !in chain.repr
      && budget.Valid() && chain.Valid() && budget.charged == chain.contents
    }

    /** The queued messages, oldest first. */
    ghost function Contents(): seq<Msg>
      reads chain
    {
      chain.contents
    }

    constructor (maxmem: nat, heap: Supply)
      ensures Valid() && Contents() == [] && budget.maxmem == maxmem && budget.steady && chain.heap == heap
      ensures fresh(budget) && fresh(chain) && fresh(chain.repr)
    {
      budget := new Budget(maxmem);
      chain := new Chain(heap);
    }

    /** mb_msgqueue_push: refused if and only if the charge does not fit; a push
        that fails changes no contents. */
    method Push(m: Msg) returns (r: Pushed)
      requires Valid()
      modifies budget, chain, chain.repr, chain.heap
      ensures Valid() && fresh(chain.repr - old(chain.repr)) && budget.maxmem == old(budget.maxmem)
      ensures r.Done? <==> r != Again && (!old(chain.NeedsChunk()) || old(chain.heap.Granted()))
      ensures budget.steady == old(budget.steady)
      ensures budget.View() == if r == NoMem then old(budget.View()) else old(budget.View()).Pushed(|m|)
      ensures r == Again <==> !Fits(budget.maxmem, old(budget.mem), Charge(budget.maxmem, |m|))
      ensures Contents() == if r.Done? then old(Contents()) + [m] else old(Contents())
      ensures r.Done? ==> r.wasEmpty == (old(Contents()) == []) && (budget.maxmem > 0 ==> budget.mem <= budget.maxmem)
      ensures !r.Done? ==> budget.mem == old(budget.mem)
      ensures r == Again ==> budget.pending == Charge(budget.maxmem, |m|) && budget.maxmem > 0
      ensures r == NoMem ==> budget.pending == old(budget.pending)
    {
      var ok := budget.Admit(|m|);
      if !ok { return Again; }
      var wasEmpty := chain.count == 0;
      ok := chain.Push(m);
      if !ok { return NoMem; }
      budget.Take(m);
      return Done(wasEmpty);
    }

    /** mb_msgqueue_can_push_sz foretells mb_msgqueue_push: a size is reported to fit
        if and only if the push that follows is not turned away for lack of room. */
    method ProbeThenPush(m: Msg) returns (ok: bool, r: Pushed)
      requires Valid()
      modifies budget, chain, chain.repr, chain.heap
      ensures Valid() && fresh(chain.repr - old(chain.repr)) && (ok <==> r != Again)
      ensures Contents() == if r.Done? then old(Contents()) + [m] else old(Contents())
    {
      ok := budget.CanPushSize(|m|);
      r := Push(m);
    }

    /** mb_msgqueue_pop: the oldest message. */
    method Pop() returns (slot: Slot)
      requires Valid()
      modifies budget, chain, chain.repr
      ensures Valid() && chain.repr == old(chain.repr) && budget.maxmem == old(budget.maxmem)
      ensures budget.steady == old(budget.steady)
      ensures if old(Contents()) == [] then slot == Empty && Contents() == [] && budget.mem == old(budget.mem)
              else slot.Full? && [slot.m] + Contents() == old(Contents()) && budget.View() == old(budget.View()).Popped(|slot.m|)
    {
      slot := chain.Pop();
      if slot.Full? { budget.Return(slot.m); }
    }

    /** mb_sinproc_sync_maxmem: the cap is never switched off, so the accounting of
        a capped queue stays exact. */
    method SyncMax(rcvbuf: int)
      requires Valid()
      modifies budget
      ensures Valid() && Contents() == old(Contents()) && budget.maxmem > 0 && budget.mem == old(budget.mem)
      ensures budget.maxmem == (if rcvbuf > 0 then rcvbuf else 0x10_0000) && budget.View() == old(budget.View()).Capped(budget.maxmem)
      ensures old(budget.maxmem) > 0 ==> budget.steady == old(budget.steady)
    {
      budget.SetMax(CapOf(rcvbuf));
    }

    /** mb_msgqueue_empty */
    method IsEmpty() returns (yes: bool)
      requires Valid()
      ensures yes <==> Contents() == []
    {
      yes := chain.count == 0;
    }
  }

  /** On a queue whose cap stayed a cap: used bytes are the charges of the queued
      messages, at least one byte each. */
  lemma {:induction false} TotalAtLeast(ms: seq<Msg>)
    ensures |ms| <= Total(true, ms)
  {
    if ms != [] { TotalAtLeast(ms[..|ms| - 1]); }
  }

  /** The bytes of all the bodies, and how many bodies are empty. */
  function Bytes(ms: seq<Msg>): nat {
    if ms == [] then 0 else Bytes(ms[..|ms| - 1]) + |ms[|ms| - 1]|
  }

  function Empties(ms: seq<Msg>): nat {
    if ms == [] then 0 else Empties(ms[..|ms| - 1]) + if ms[|ms| - 1] == [] then 1 else 0
  }

  lemma {:induction false} TotalIs(capped: bool, ms: seq<Msg>)
    ensures Total(capped, ms) == Bytes(ms) + if capped then Empties(ms) else 0
  {
    if ms != [] { TotalIs(capped, ms[..|ms| - 1]); }
  }

  /** What is charged: the bytes queued and, under a cap, one for each empty body.  So a
      body of `sz` bytes has room if and only if there is no cap or all of that and the
      new body, or one byte for an empty one, stay within it. */
  lemma ByteBudget(q: Queue, sz: nat)
    requires q.Valid() && q.budget.steady
    ensures var cap, ms := q.budget.maxmem, q.Contents();
      && q.budget.mem == Bytes(ms) + (if cap > 0 then Empties(ms) else 0)
      && (Fits(cap, q.budget.mem, Charge(cap, sz)) <==>
          cap == 0 || Bytes(ms) + Empties(ms) + (if sz == 0 then 1 else sz) <= cap)
  {
    TotalIs(q.budget.maxmem > 0, q.Contents());
  }

  /** So a capped queue holds no more messages than its cap has bytes. */
  lemma BoundedLength(q: Queue)
    requires q.Valid() && q.budget.steady && q.budget.maxmem > 0 && q.budget.mem <= q.budget.maxmem
    ensures |q.Contents()| <= q.budget.maxmem
  {
    TotalAtLeast(q.Contents());
  }
}
