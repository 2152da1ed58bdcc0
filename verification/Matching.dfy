/** Request/reply matching: any number of REQ and REP sockets, joined by pipes
    that come and go, in any interleaving of their operations. */
module Matching {
  import opened Common
  import opened Scheduler
  import opened ReqRep

  type Id = nat
  type Tag = nat  // names a request; a reply carries the tag of what it answers

  datatype End = Idle | Attached | Gone

  /** A pipe between two sockets: a queue each way, and whether each socket has
      the pipe yet, or no longer. */
  datatype Link = Link(req: Id, rep: Id, requests: seq<Tag>, replies: seq<Tag>, reqEnd: End, repEnd: End)

  /** `log` lists, for every reply that a REQ returned, the socket, the request
      that it had outstanding and the request that the reply answers. */
  datatype Answer = Answer(req: Id, asked: Tag, answered: Tag)

  /** `current` and `asked` are the last request of each REQ and the pipe that took
      it; `lost` are the requests that a broken transport, a failed reply or the
      removal of a REP's pipe put an end to. */
  datatype World = World(
    reqs: map<Id, Req<Id>>, current: map<Id, Tag>, asked: map<Id, Id>,
    reps: map<Id, Rep<Id>>, held: map<Id, Tag>,
    links: map<Id, Link>, next: Tag, log: seq<Answer>, lost: set<Tag>)

  datatype Event =
    | NewReq(r: Id)
    | NewRep(s: Id)
    | NewLink(p: Id, r: Id, s: Id)
    | ReqAttach(p: Id)
    | RepAttach(p: Id)
    | ReqDetach(p: Id)
    | RepDetach(p: Id)
    | ReqActivate(p: Id)
    | Lose(p: Id)                // a broken transport drops what is in flight
    | ReqSend(r: Id, k: nat)     // accepted by the pipe at position k
    | ReqRecv(r: Id)
    | RepRecv(s: Id, k: nat)
    | RepSend(s: Id, ok: bool)   // accepted, or failed for good

  ghost predicate Enabled(w: World, e: Event) {
    match e
    case NewReq(r) => r !in w.reqs
    case NewRep(s) => s !in w.reps
    case NewLink(p, r, s) => p !in w.links && r in w.reqs && s in w.reps
    case ReqAttach(p) => p in w.links && w.links[p].reqEnd == Idle && w.links[p].req in w.reqs
    case RepAttach(p) => p in w.links && w.links[p].repEnd == Idle && w.links[p].rep in w.reps
    case ReqDetach(p) => p in w.links && w.links[p].reqEnd == Attached && w.links[p].req in w.reqs
    case RepDetach(p) => p in w.links && w.links[p].repEnd == Attached && w.links[p].rep in w.reps
    case ReqActivate(p) => p in w.links && w.links[p].reqEnd == Attached && w.links[p].req in w.reqs
    case Lose(p) => p in w.links
    case ReqSend(r, k) => r in w.reqs && !w.reqs[r].sending && k < |w.reqs[r].lb| && w.reqs[r].lb[k] in w.links
    case ReqRecv(r) =>
      && r in w.reqs && r in w.current && w.reqs[r].sending && w.reqs[r].pipe.Some?
      && w.reqs[r].pipe.value in w.links && w.links[w.reqs[r].pipe.value].replies != []
    case RepRecv(s, k) =>
      && s in w.reps && w.reps[s].last.None? && k < |w.reps[s].fq|
      && w.reps[s].fq[k] in w.links && w.links[w.reps[s].fq[k]].requests != []
    case RepSend(s, ok) =>
      s in w.reps && w.reps[s].last.Some? && w.reps[s].last.value in w.links && s in w.held
  }

  ghost function Apply(w: World, e: Event): World
    requires Enabled(w, e)
  {
    match e
    case NewReq(r) => w.(reqs := w.reqs[r := Req([], None, false)])
    case NewRep(s) => w.(reps := w.reps[s := Rep([], [], None)])
    case NewLink(p, r, s) => w.(links := w.links[p := Link(r, s, [], [], Idle, Idle)])
    case ReqAttach(p) =>
      var l := w.links[p];
      w.(reqs := w.reqs[l.req := ReqAdd(w.reqs[l.req], p)], links := w.links[p := l.(reqEnd := Attached)])
    case RepAttach(p) =>
      var l := w.links[p];
      w.(reps := w.reps[l.rep := RepAdd(w.reps[l.rep], p)], links := w.links[p := l.(repEnd := Attached)])
    case ReqDetach(p) =>
      var l := w.links[p];
      w.(reqs := w.reqs[l.req := ReqRm(w.reqs[l.req], p)], links := w.links[p := l.(reqEnd := Gone)])
    case RepDetach(p) =>
      var l := w.links[p];
      w.(reps := w.reps[l.rep := RepRm(w.reps[l.rep], p)], links := w.links[p := l.(repEnd := Gone)],
         lost := w.lost + if Holds(w, p) then {w.held[l.rep]} else {})
    case ReqActivate(p) =>
      var l := w.links[p];
      w.(reqs := w.reqs[l.req := ReqIn(w.reqs[l.req], p)])
    case Lose(p) =>
      var l := w.links[p];
      w.(links := w.links[p := l.(requests := [], replies := [])], lost := w.lost + set t | t in l.requests + l.replies)
    case ReqSend(r, k) =>
      var p := w.reqs[r].lb[k];
      w.(reqs := w.reqs[r := ReqSent(w.reqs[r], k)], current := w.current[r := w.next], asked := w.asked[r := p], next := w.next + 1,
         links := w.links[p := w.links[p].(requests := w.links[p].requests + [w.next])])
    case ReqRecv(r) =>
      var p := w.reqs[r].pipe.value;
      w.(reqs := w.reqs[r := w.reqs[r].(sending := false)],
         links := w.links[p := w.links[p].(replies := w.links[p].replies[1..])],
         log := w.log + [Answer(r, w.current[r], w.links[p].replies[0])])
    case RepRecv(s, k) =>
      var p := w.reps[s].fq[k];
      w.(reps := w.reps[s := RepReceived(w.reps[s], k)], held := w.held[s := w.links[p].requests[0]],
         links := w.links[p := w.links[p].(requests := w.links[p].requests[1..])])
    case RepSend(s, ok) =>
      var p := w.reps[s].last.value;
      var w' := w.(reps := w.reps[s := w.reps[s].(last := None)]);
      if ok then w'.(links := w.links[p := w.links[p].(replies := w.links[p].replies + [w.held[s]])])
      else w'.(lost := w.lost + {w.held[s]})
  }

  const EMPTY: World := World(map[], map[], map[], map[], map[], map[], 0, [], {})

  ghost predicate Reaches(events: seq<Event>, w: World)
    decreases |events|
  {
    if events == [] then w == EMPTY
    else
      var n := |events| - 1;
      exists v :: Reaches(events[..n], v) && Enabled(v, events[n]) && w == Apply(v, events[n])
  }

  // ---------- Invariant ----------

  /** The requests of a link that are queued, held by the REP or answered and
      waiting to be read. */
  ghost function InFlight(w: World, p: Id): seq<Tag>
    requires p in w.links
  {
    var l := w.links[p];
    l.requests + (if Holds(w, p) then [w.held[l.rep]] else []) + l.replies
  }

  ghost predicate Holds(w: World, p: Id)
    requires p in w.links
  {
    var s := w.links[p].rep;
    s in w.reps && w.reps[s].last == Some(p) && s in w.held
  }

  /** On a link that the REQ has, at most one exchange is in flight, and only the
      current request of a REQ that is sending on that very link; there it is in
      flight unless it was lost. */
  ghost predicate LinkOk(w: World, p: Id)
    requires p in w.links
  {
    var l := w.links[p];
    && l.req in w.reqs && l.rep in w.reps
    && (l.reqEnd == Idle ==> InFlight(w, p) == [])
    && (l.reqEnd == Attached ==> p in w.reqs[l.req].lb)
    && (l.reqEnd == Attached && InFlight(w, p) != [] ==>
         && w.reqs[l.req].sending && w.reqs[l.req].pipe == Some(p)
         && l.req in w.current && InFlight(w, p) == [w.current[l.req]])
    && (l.reqEnd == Attached && w.reqs[l.req].sending && w.reqs[l.req].pipe == Some(p) && l.req in w.current ==>
         w.current[l.req] in w.lost || InFlight(w, p) == [w.current[l.req]])
  }

  ghost predicate ReqOk(w: World, r: Id)
    requires r in w.reqs
  {
    var q := w.reqs[r];
    && Distinct(q.lb)
    && (forall p :: p in q.lb ==> p in w.links && w.links[p].req == r && w.links[p].reqEnd == Attached)
    && (q.pipe.Some? ==> q.pipe.value in q.lb)
    && (q.sending ==> r in w.current && r in w.asked && q.pipe == Some(w.asked[r]))
  }

  ghost predicate RepOk(w: World, s: Id)
    requires s in w.reps
  {
    var q := w.reps[s];
    && Distinct(q.fq)
    && (forall p :: p in q.fq ==> p in w.links && w.links[p].rep == s && w.links[p].repEnd == Attached)
    && (q.last.Some? ==> q.last.value in q.fq && s in w.held)
  }

  /** Every answer in the log answers what was asked, no request is answered
      twice, and outstanding requests are not answered yet. */
  ghost predicate LogOk(w: World) {
    && (forall i :: 0 <= i < |w.log| ==> w.log[i].answered == w.log[i].asked < w.next)
    && (forall i, j :: 0 <= i < j < |w.log| ==> w.log[i].asked != w.log[j].asked)
    && (forall r :: r in w.current ==> w.current[r] < w.next)
    && (forall r, q :: r in w.current && q in w.current && r != q ==> w.current[r] != w.current[q])
    && (forall r, i :: r in w.reqs && w.reqs[r].sending && r in w.current && 0 <= i < |w.log| ==>
          w.log[i].asked != w.current[r])
  }

  ghost predicate LinksOk(w: World) {
    forall p {:trigger LinkOk(w, p)} :: p in w.links ==> LinkOk(w, p)
  }

  ghost predicate ReqsOk(w: World) {
    forall r {:trigger ReqOk(w, r)} :: r in w.reqs ==> ReqOk(w, r)
  }

  ghost predicate RepsOk(w: World) {
    forall s {:trigger RepOk(w, s)} :: s in w.reps ==> RepOk(w, s)
  }

  ghost predicate Inv(w: World) {
    LinksOk(w) && ReqsOk(w) && RepsOk(w) && LogOk(w)
  }

  // ---------- Steps that do not touch a side keep it ----------

  /** No link loses its ends, and the REQ ends stay as they are. */
  ghost predicate SameReqEnds(w: World, w': World) {
    forall p :: p in w.links ==>
      p in w'.links && w'.links[p].req == w.links[p].req && w'.links[p].reqEnd == w.links[p].reqEnd
  }

  ghost predicate SameRepEnds(w: World, w': World) {
    forall p :: p in w.links ==>
      p in w'.links && w'.links[p].rep == w.links[p].rep && w'.links[p].repEnd == w.links[p].repEnd
  }

  lemma ReqsKept(w: World, w': World)
    requires ReqsOk(w) && w'.reqs == w.reqs && w'.current == w.current && w'.asked == w.asked && SameReqEnds(w, w')
    ensures ReqsOk(w')
  {
    forall r | r in w'.reqs ensures ReqOk(w', r) { assert ReqOk(w, r); }
  }

  lemma RepsKept(w: World, w': World)
    requires RepsOk(w) && w'.reps == w.reps && w'.held == w.held && SameRepEnds(w, w')
    ensures RepsOk(w')
  {
    forall s | s in w'.reps ensures RepOk(w', s) { assert RepOk(w, s); }
  }

  /** A link is as good as before if all that concerns it is the same. */
  lemma LinkKept(w: World, w': World, p: Id)
    requires p in w.links && LinkOk(w, p) && p in w'.links && w'.links[p] == w.links[p]
    requires w.links[p].req in w'.reqs && w.links[p].rep in w'.reps && w.lost <= w'.lost
    requires w.links[p].req in w'.current ==> w.links[p].req in w.current
    requires w'.reqs[w.links[p].req] == w.reqs[w.links[p].req]
    requires w.links[p].req in w.current ==> w.links[p].req in w'.current && w'.current[w.links[p].req] == w.current[w.links[p].req]
    requires Holds(w', p) <==> Holds(w, p)
    requires Holds(w, p) ==> w'.held[w.links[p].rep] == w.held[w.links[p].rep]
    ensures LinkOk(w', p)
  {
  }

  /** Some of what is in flight on a link is dropped, and then it is lost. */
  lemma StillOrLost(w: World, w': World, p: Id)
    requires p in w.links && LinkOk(w, p) && p in w'.links
    requires w'.links[p].req == w.links[p].req && w'.links[p].rep == w.links[p].rep && w'.links[p].reqEnd == w.links[p].reqEnd
    requires w'.reqs == w.reqs && w'.current == w.current && w.lost <= w'.lost && w.links[p].rep in w'.reps
    requires InFlight(w', p) == InFlight(w, p) || w.links[p].reqEnd == Gone
             || (w.links[p].reqEnd == Attached && |InFlight(w, p)| <= 1 && InFlight(w', p) <= InFlight(w, p)
                 && forall t :: t in InFlight(w, p) && t !in InFlight(w', p) ==> t in w'.lost)
    ensures LinkOk(w', p)
  {
    if |InFlight(w, p)| == 1 && InFlight(w', p) == [] { assert InFlight(w, p)[0] in InFlight(w, p); }
  }

  lemma LogKept(w: World, w': World)
    requires LogOk(w) && w'.log == w.log && w'.next == w.next && w'.current == w.current
    requires forall r :: r in w'.reqs && w'.reqs[r].sending ==> r in w.reqs && w.reqs[r].sending
    ensures LogOk(w')
  {
  }

  // ---------- Every step keeps the invariant ----------

  lemma NewSocketInv(w: World, e: Event)
    requires Inv(w) && Enabled(w, e) && (e.NewReq? || e.NewRep?)
    ensures Inv(Apply(w, e))
  {
    var w' := Apply(w, e);
    LogKept(w, w');
    forall p | p in w'.links ensures LinkOk(w', p) {
      assert LinkOk(w, p);
      LinkKept(w, w', p);
    }
    forall r | r in w'.reqs ensures ReqOk(w', r) {
      if r in w.reqs { assert ReqOk(w, r); }
    }
    forall s | s in w'.reps ensures RepOk(w', s) {
      if s in w.reps { assert RepOk(w, s); }
    }
  }

  lemma NewLinkInv(w: World, p: Id, r: Id, s: Id)
    requires Inv(w) && Enabled(w, NewLink(p, r, s))
    ensures Inv(Apply(w, NewLink(p, r, s)))
  {
    var w' := Apply(w, NewLink(p, r, s));
    assert RepOk(w, s);
    ReqsKept(w, w');
    RepsKept(w, w');
    LogKept(w, w');
    forall q | q in w'.links ensures LinkOk(w', q) {
      if q != p {
        assert LinkOk(w, q);
        LinkKept(w, w', q);
      }
    }
  }

  lemma ReqAttachInv(w: World, p: Id)
    requires Inv(w) && Enabled(w, ReqAttach(p))
    ensures Inv(Apply(w, ReqAttach(p)))
  {
    var w' := Apply(w, ReqAttach(p));
    RepsKept(w, w');
    LogKept(w, w');
    forall q | q in w'.links ensures LinkOk(w', q) { ReqAttachLink(w, p, q); }
    forall r | r in w'.reqs ensures ReqOk(w', r) { ReqAttachReq(w, p, r); }
  }

  lemma ReqAttachLink(w: World, p: Id, q: Id)
    requires LinksOk(w) && ReqsOk(w) && Enabled(w, ReqAttach(p)) && q in w.links
    ensures LinkOk(Apply(w, ReqAttach(p)), q)
  {
    var w' := Apply(w, ReqAttach(p));
    assert LinkOk(w, q) && ReqOk(w, w.links[p].req) && InFlight(w', q) == InFlight(w, q);
    if w.links[q].req != w.links[p].req { LinkKept(w, w', q); }
  }

  lemma ReqAttachReq(w: World, p: Id, r: Id)
    requires ReqsOk(w) && Enabled(w, ReqAttach(p)) && r in w.reqs
    ensures ReqOk(Apply(w, ReqAttach(p)), r)
  {
    assert ReqOk(w, r);
  }

  lemma RepAttachInv(w: World, p: Id)
    requires Inv(w) && Enabled(w, RepAttach(p))
    ensures Inv(Apply(w, RepAttach(p)))
  {
    var w' := Apply(w, RepAttach(p));
    ReqsKept(w, w');
    LogKept(w, w');
    forall q | q in w'.links ensures LinkOk(w', q) { RepAttachLink(w, p, q); }
    forall s | s in w'.reps ensures RepOk(w', s) { RepAttachRep(w, p, s); }
  }

  lemma RepAttachLink(w: World, p: Id, q: Id)
    requires LinksOk(w) && Enabled(w, RepAttach(p)) && q in w.links
    ensures LinkOk(Apply(w, RepAttach(p)), q)
  {
    var w' := Apply(w, RepAttach(p));
    assert LinkOk(w, q) && InFlight(w', q) == InFlight(w, q);
  }

  lemma RepAttachRep(w: World, p: Id, s: Id)
    requires RepsOk(w) && Enabled(w, RepAttach(p)) && s in w.reps
    ensures RepOk(Apply(w, RepAttach(p)), s)
  {
    assert RepOk(w, s);
  }

  lemma ReqDetachInv(w: World, p: Id)
    requires Inv(w) && Enabled(w, ReqDetach(p))
    ensures Inv(Apply(w, ReqDetach(p)))
  {
    var w' := Apply(w, ReqDetach(p));
    RepsKept(w, w');
    LogKept(w, w');
    forall q | q in w'.links ensures LinkOk(w', q) { ReqDetachLink(w, p, q); }
    forall q | q in w'.reqs ensures ReqOk(w', q) { ReqDetachReq(w, p, q); }
  }

  lemma ReqDetachReq(w: World, p: Id, q: Id)
    requires ReqsOk(w) && Enabled(w, ReqDetach(p)) && q in w.reqs
    ensures ReqOk(Apply(w, ReqDetach(p)), q)
  {
    assert ReqOk(w, q);
    RemoveKeeps(w.reqs[q].lb, p);
  }

  lemma ReqDetachLink(w: World, p: Id, q: Id)
    requires LinksOk(w) && ReqsOk(w) && Enabled(w, ReqDetach(p)) && q in w.links
    ensures LinkOk(Apply(w, ReqDetach(p)), q)
  {
    var w', r := Apply(w, ReqDetach(p)), w.links[p].req;
    assert LinkOk(w, p) && LinkOk(w, q) && ReqOk(w, r);
    if w.links[q].req != r {
      LinkKept(w, w', q);
    } else {
      RemoveKeeps(w.reqs[r].lb, p);
      assert InFlight(w', q) == InFlight(w, q);
    }
  }

  lemma RepDetachInv(w: World, p: Id)
    requires Inv(w) && Enabled(w, RepDetach(p))
    ensures Inv(Apply(w, RepDetach(p)))
  {
    var w' := Apply(w, RepDetach(p));
    ReqsKept(w, w');
    LogKept(w, w');
    forall q | q in w'.links ensures LinkOk(w', q) { RepDetachLink(w, p, q); }
    forall q | q in w'.reps ensures RepOk(w', q) { RepDetachRep(w, p, q); }
  }

  lemma RepDetachRep(w: World, p: Id, q: Id)
    requires RepsOk(w) && Enabled(w, RepDetach(p)) && q in w.reps
    ensures RepOk(Apply(w, RepDetach(p)), q)
  {
    assert RepOk(w, q);
    RemoveKeeps(w.reps[q].fq, p);
  }

  lemma RepDetachLink(w: World, p: Id, q: Id)
    requires LinksOk(w) && Enabled(w, RepDetach(p)) && q in w.links
    ensures LinkOk(Apply(w, RepDetach(p)), q)
  {
    var w' := Apply(w, RepDetach(p));
    assert LinkOk(w, p) && LinkOk(w, q);
    if q != p { LinkKept(w, w', q); } else { StillOrLost(w, w', p); }
  }

  lemma ReqActivateInv(w: World, p: Id)
    requires Inv(w) && Enabled(w, ReqActivate(p))
    ensures Inv(Apply(w, ReqActivate(p)))
  {
    var w' := Apply(w, ReqActivate(p));
    RepsKept(w, w');
    LogKept(w, w');
    forall q | q in w'.links ensures LinkOk(w', q) { ReqActivateLink(w, p, q); }
    forall q | q in w'.reqs ensures ReqOk(w', q) { ReqActivateReq(w, p, q); }
  }

  lemma ReqActivateReq(w: World, p: Id, q: Id)
    requires ReqsOk(w) && Enabled(w, ReqActivate(p)) && q in w.reqs
    ensures ReqOk(Apply(w, ReqActivate(p)), q)
  {
    assert ReqOk(w, q);
    RemoveKeeps(w.reqs[q].lb, p);
    assert p !in Remove(w.reqs[q].lb, p);
  }

  lemma ReqActivateLink(w: World, p: Id, q: Id)
    requires LinksOk(w) && ReqsOk(w) && Enabled(w, ReqActivate(p)) && q in w.links
    ensures LinkOk(Apply(w, ReqActivate(p)), q)
  {
    var w', r := Apply(w, ReqActivate(p)), w.links[p].req;
    assert LinkOk(w, q) && ReqOk(w, r);
    RemoveKeeps(w.reqs[r].lb, p);
    assert InFlight(w', q) == InFlight(w, q);
  }

  lemma LoseInv(w: World, p: Id)
    requires Inv(w) && Enabled(w, Lose(p))
    ensures Inv(Apply(w, Lose(p)))
  {
    var w' := Apply(w, Lose(p));
    ReqsKept(w, w');
    RepsKept(w, w');
    LogKept(w, w');
    forall q | q in w'.links ensures LinkOk(w', q) {
      assert LinkOk(w, q);
      if q != p { LinkKept(w, w', q); } else { StillOrLost(w, w', p); }
    }
  }

  lemma ReqSendInv(w: World, r: Id, k: nat)
    requires Inv(w) && Enabled(w, ReqSend(r, k))
    ensures Inv(Apply(w, ReqSend(r, k)))
  {
    var w' := Apply(w, ReqSend(r, k));
    RepsKept(w, w');
    ReqSendLog(w, r, k);
    forall q | q in w'.links ensures LinkOk(w', q) { ReqSendLink(w, r, k, q); }
    forall q | q in w'.reqs ensures ReqOk(w', q) { ReqSendReq(w, r, k, q); }
  }

  lemma ReqSendLink(w: World, r: Id, k: nat, q: Id)
    requires LinksOk(w) && ReqsOk(w) && Enabled(w, ReqSend(r, k)) && q in w.links
    ensures LinkOk(Apply(w, ReqSend(r, k)), q)
  {
    var w' := Apply(w, ReqSend(r, k));
    assert ReqOk(w, r) && LinkOk(w, q);
    RotateSame(w.reqs[r].lb, k);
    if w.links[q].req != r {
      LinkKept(w, w', q);
    } else if q == w.reqs[r].lb[k] {
      assert InFlight(w, q) == [] && InFlight(w', q) == [w.next];
    } else {
      assert InFlight(w', q) == InFlight(w, q);
    }
  }

  lemma ReqSendReq(w: World, r: Id, k: nat, q: Id)
    requires ReqsOk(w) && Enabled(w, ReqSend(r, k)) && q in w.reqs
    ensures ReqOk(Apply(w, ReqSend(r, k)), q)
  {
    assert ReqOk(w, q);
    if q == r {
      RotateKeeps(w.reqs[r].lb, k);
      RotateSame(w.reqs[r].lb, k);
    }
  }

  lemma ReqSendLog(w: World, r: Id, k: nat)
    requires LogOk(w) && Enabled(w, ReqSend(r, k))
    ensures LogOk(Apply(w, ReqSend(r, k)))
  {
  }

  /** The reply that a REQ reads answers its current request. */
  lemma ReplyMatches(w: World, r: Id)
    requires LinksOk(w) && ReqsOk(w) && Enabled(w, ReqRecv(r))
    ensures w.links[w.reqs[r].pipe.value].replies == [w.current[r]]
    ensures InFlight(w, w.reqs[r].pipe.value) == [w.current[r]]
  {
    var p := w.reqs[r].pipe.value;
    assert ReqOk(w, r) && LinkOk(w, p);
    var l := w.links[p];
    assert |InFlight(w, p)| == 1 && |l.replies| == 1;
    assert l.replies[0] == InFlight(w, p)[|InFlight(w, p)| - 1];
  }

  lemma ReqRecvInv(w: World, r: Id)
    requires Inv(w) && Enabled(w, ReqRecv(r))
    ensures Inv(Apply(w, ReqRecv(r)))
  {
    var w' := Apply(w, ReqRecv(r));
    RepsKept(w, w');
    ReqRecvLog(w, r);
    forall q | q in w'.links ensures LinkOk(w', q) { ReqRecvLink(w, r, q); }
    forall q | q in w'.reqs ensures ReqOk(w', q) { ReqRecvReq(w, r, q); }
  }

  lemma ReqRecvLog(w: World, r: Id)
    requires LogOk(w) && LinksOk(w) && ReqsOk(w) && Enabled(w, ReqRecv(r))
    ensures LogOk(Apply(w, ReqRecv(r)))
  {
    ReplyMatches(w, r);
  }

  lemma ReqRecvReq(w: World, r: Id, q: Id)
    requires ReqsOk(w) && Enabled(w, ReqRecv(r)) && q in w.reqs
    ensures ReqOk(Apply(w, ReqRecv(r)), q)
  {
    assert ReqOk(w, q);
  }

  lemma ReqRecvLink(w: World, r: Id, q: Id)
    requires LinksOk(w) && ReqsOk(w) && Enabled(w, ReqRecv(r)) && q in w.links
    ensures LinkOk(Apply(w, ReqRecv(r)), q)
  {
    var w' := Apply(w, ReqRecv(r));
    var p := w.reqs[r].pipe.value;
    ReplyMatches(w, r);
    assert ReqOk(w, r) && LinkOk(w, p) && LinkOk(w, q);
    if w.links[q].req != r {
      LinkKept(w, w', q);
    } else if q != p {
      assert InFlight(w', q) == InFlight(w, q);
    } else {
      assert |InFlight(w', q)| == 0;
    }
  }

  lemma RepRecvInv(w: World, s: Id, k: nat)
    requires Inv(w) && Enabled(w, RepRecv(s, k))
    ensures Inv(Apply(w, RepRecv(s, k)))
  {
    var w' := Apply(w, RepRecv(s, k));
    ReqsKept(w, w');
    LogKept(w, w');
    forall q | q in w'.links ensures LinkOk(w', q) { RepRecvLink(w, s, k, q); }
    forall q | q in w'.reps ensures RepOk(w', q) { RepRecvRep(w, s, k, q); }
  }

  lemma RepRecvLink(w: World, s: Id, k: nat, q: Id)
    requires LinksOk(w) && RepsOk(w) && Enabled(w, RepRecv(s, k)) && q in w.links
    ensures LinkOk(Apply(w, RepRecv(s, k)), q)
  {
    var w', p := Apply(w, RepRecv(s, k)), w.reps[s].fq[k];
    assert RepOk(w, s) && LinkOk(w, q);
    if q != p {
      LinkKept(w, w', q);
    } else {
      var l := w.links[p];
      assert InFlight(w, p) == l.requests + l.replies;
      assert InFlight(w', p) == l.requests[1..] + [l.requests[0]] + l.replies;
      assert l.reqEnd == Attached ==> |l.requests| == 1 && l.replies == [];
    }
  }

  lemma RepRecvRep(w: World, s: Id, k: nat, q: Id)
    requires RepsOk(w) && Enabled(w, RepRecv(s, k)) && q in w.reps
    ensures RepOk(Apply(w, RepRecv(s, k)), q)
  {
    assert RepOk(w, q);
    if q == s {
      RotateKeeps(w.reps[s].fq, k);
      RotateSame(w.reps[s].fq, k);
    }
  }

  lemma RepSendInv(w: World, s: Id, ok: bool)
    requires Inv(w) && Enabled(w, RepSend(s, ok))
    ensures Inv(Apply(w, RepSend(s, ok)))
  {
    var w' := Apply(w, RepSend(s, ok));
    ReqsKept(w, w');
    LogKept(w, w');
    forall q | q in w'.links ensures LinkOk(w', q) { RepSendLink(w, s, ok, q); }
    forall q | q in w'.reps ensures RepOk(w', q) { assert RepOk(w, q); }
  }

  lemma RepSendLink(w: World, s: Id, ok: bool, q: Id)
    requires LinksOk(w) && RepsOk(w) && Enabled(w, RepSend(s, ok)) && q in w.links
    ensures LinkOk(Apply(w, RepSend(s, ok)), q)
  {
    var w', p := Apply(w, RepSend(s, ok)), w.reps[s].last.value;
    assert RepOk(w, s) && LinkOk(w, q);
    if q != p {
      LinkKept(w, w', q);
    } else {
      var l := w.links[p];
      assert InFlight(w, p) == l.requests + [w.held[s]] + l.replies;
      assert l.reqEnd == Attached ==> |InFlight(w, p)| == 1 && l.requests == [] && l.replies == [];
      if ok { assert InFlight(w', p) == l.requests + (l.replies + [w.held[s]]); } else { StillOrLost(w, w', p); }
    }
  }

  lemma StepInv(w: World, e: Event)
    requires Inv(w) && Enabled(w, e)
    ensures Inv(Apply(w, e))
  {
    match e
    case NewReq(_) => NewSocketInv(w, e);
    case NewRep(_) => NewSocketInv(w, e);
    case NewLink(p, r, s) => NewLinkInv(w, p, r, s);
    case ReqAttach(p) => ReqAttachInv(w, p);
    case RepAttach(p) => RepAttachInv(w, p);
    case ReqDetach(p) => ReqDetachInv(w, p);
    case RepDetach(p) => RepDetachInv(w, p);
    case ReqActivate(p) => ReqActivateInv(w, p);
    case Lose(p) => LoseInv(w, p);
    case ReqSend(r, k) => ReqSendInv(w, r, k);
    case ReqRecv(r) => ReqRecvInv(w, r);
    case RepRecv(s, k) => RepRecvInv(w, s, k);
    case RepSend(s, ok) => RepSendInv(w, s, ok);
  }

  lemma {:induction false} RunInv(events: seq<Event>, w: World)
    requires Reaches(events, w)
    ensures Inv(w)
    decreases |events|
  {
    if events != [] {
      var n := |events| - 1;
      var v :| Reaches(events[..n], v) && Enabled(v, events[n]) && w == Apply(v, events[n]);
      RunInv(events[..n], v);
      StepInv(v, events[n]);
    }
  }

  // ---------- What it means ----------

  /** Over every run, a link that its REQ still has carries at most one exchange,
      and only for the request that this REQ is waiting on there. */
  lemma OneExchangePerLink(events: seq<Event>, w: World, p: Id)
    requires Reaches(events, w) && p in w.links && w.links[p].reqEnd == Attached
    ensures var l := w.links[p];
            && |l.requests| + (if Holds(w, p) then 1 else 0) + |l.replies| <= 1
            && (InFlight(w, p) != [] ==>
                 && l.req in w.reqs && l.req in w.current
                 && w.reqs[l.req].sending && w.reqs[l.req].pipe == Some(p)
                 && InFlight(w, p) == [w.current[l.req]])
  {
    RunInv(events, w);
    assert LinkOk(w, p);
    var l := w.links[p];
    assert |InFlight(w, p)| == |l.requests| + (if Holds(w, p) then 1 else 0) + |l.replies|;
  }

  /** Over every run, a REQ that waits for a reply waits on the pipe that took its
      request, and there the request is in flight unless it was lost. */
  lemma WaitsWhereItAsked(events: seq<Event>, w: World, r: Id)
    requires Reaches(events, w) && r in w.reqs && w.reqs[r].sending
    ensures r in w.asked && r in w.current && w.reqs[r].pipe == Some(w.asked[r]) && w.asked[r] in w.links
    ensures w.current[r] in w.lost || InFlight(w, w.asked[r]) == [w.current[r]]
  {
    RunInv(events, w);
    assert ReqOk(w, r);
    assert LinkOk(w, w.asked[r]);
  }

  /** Over every run, removing the pipe that a REQ remembers ends its exchange: it can
      send at once on any pipe that is left, the first of which it remembers now.
      Removing any other pipe leaves the exchange alone. */
  lemma RemovalFreesReq(events: seq<Event>, w: World, p: Id)
    requires Reaches(events, w) && Enabled(w, ReqDetach(p))
    ensures var r, w' := w.links[p].req, Apply(w, ReqDetach(p));
            var q := w'.reqs[r];
            && (forall x :: x in q.lb <==> x in w.reqs[r].lb && x != p)
            && if w.reqs[r].pipe == Some(p) then
                 && !q.sending && q.pipe == (if q.lb == [] then None else Some(q.lb[0]))
                 && forall k: nat :: k < |q.lb| ==> Enabled(w', ReqSend(r, k))
               else q.sending == w.reqs[r].sending && q.pipe == w.reqs[r].pipe
  {
    hide LinksOk, RepsOk, LogOk, Reaches;
    RunInv(events, w);
    var r := w.links[p].req;
    assert ReqOk(w, r);
    RemoveKeeps(w.reqs[r].lb, p);
  }

  /** Over every run, each reply that a REQ returned answers the request that it
      had outstanding, and no request is answered twice. */
  lemma RepliesMatch(events: seq<Event>, w: World)
    requires Reaches(events, w)
    ensures forall i :: 0 <= i < |w.log| ==> w.log[i].answered == w.log[i].asked
    ensures forall i, j :: 0 <= i < j < |w.log| ==> w.log[i].asked != w.log[j].asked
  {
    RunInv(events, w);
  }

  /** Sockets can be made and joined in every world: the new REQ and REP have the new pipe,
      a request can be sent on it, and nothing else changed. */
  lemma Connects(w: World, r: Id, s: Id, p: Id) returns (w1: World, w2: World, w3: World, w4: World, w5: World)
    requires r !in w.reqs && s !in w.reps && p !in w.links
    ensures Enabled(w, NewReq(r)) && w1 == Apply(w, NewReq(r))
    ensures Enabled(w1, NewRep(s)) && w2 == Apply(w1, NewRep(s))
    ensures Enabled(w2, NewLink(p, r, s)) && w3 == Apply(w2, NewLink(p, r, s))
    ensures Enabled(w3, ReqAttach(p)) && w4 == Apply(w3, ReqAttach(p))
    ensures Enabled(w4, RepAttach(p)) && w5 == Apply(w4, RepAttach(p))
    ensures w5 == w.(reqs := w.reqs[r := Req([p], Some(p), false)], reps := w.reps[s := Rep([p], [p], None)],
                     links := w.links[p := Link(r, s, [], [], Attached, Attached)])
    ensures Enabled(w5, ReqSend(r, 0))
  {
    hide Enabled, Apply;
    w1, w2, w3 := Makes(w, r, s, p);
    w4, w5 := Joins(w3, r, s, p);
    assert w5.reqs == w.reqs[r := Req([p], Some(p), false)];
    assert w5.reps == w.reps[s := Rep([p], [p], None)];
    assert w5.links == w.links[p := Link(r, s, [], [], Attached, Attached)];
  }

  lemma Makes(w: World, r: Id, s: Id, p: Id) returns (w1: World, w2: World, w3: World)
    requires r !in w.reqs && s !in w.reps && p !in w.links
    ensures Enabled(w, NewReq(r)) && w1 == Apply(w, NewReq(r))
    ensures Enabled(w1, NewRep(s)) && w2 == Apply(w1, NewRep(s))
    ensures Enabled(w2, NewLink(p, r, s)) && w3 == Apply(w2, NewLink(p, r, s))
    ensures w3 == w.(reqs := w.reqs[r := Req([], None, false)], reps := w.reps[s := Rep([], [], None)],
                     links := w.links[p := Link(r, s, [], [], Idle, Idle)])
  {
    w1 := Apply(w, NewReq(r));
    w2 := Apply(w1, NewRep(s));
    w3 := Apply(w2, NewLink(p, r, s));
  }

  lemma Joins(w: World, r: Id, s: Id, p: Id) returns (w1: World, w2: World)
    requires r in w.reqs && w.reqs[r] == Req([], None, false) && s in w.reps && w.reps[s] == Rep([], [], None)
    requires p in w.links && w.links[p] == Link(r, s, [], [], Idle, Idle)
    ensures Enabled(w, ReqAttach(p)) && w1 == Apply(w, ReqAttach(p))
    ensures Enabled(w1, RepAttach(p)) && w2 == Apply(w1, RepAttach(p))
    ensures w2 == w.(reqs := w.reqs[r := Req([p], Some(p), false)], reps := w.reps[s := Rep([p], [p], None)],
                     links := w.links[p := Link(r, s, [], [], Attached, Attached)])
    ensures Enabled(w2, ReqSend(r, 0))
  {
    w1 := Apply(w, ReqAttach(p));
    assert w1.links[p] == Link(r, s, [], [], Attached, Idle);
    w2 := Apply(w1, RepAttach(p));
    assert [p] + [] == [p];
    assert w2.links == w.links[p := Link(r, s, [], [], Attached, Attached)];
  }

  /** Over every run, a REP that loses a pipe has it in neither list and routes no reply
      to it, keeps its other pipes, and does not get the pipe back; a request that it
      held from there is lost. */
  lemma RemovalFreesRep(events: seq<Event>, w: World, p: Id)
    requires Reaches(events, w) && Enabled(w, RepDetach(p))
    ensures var s, w' := w.links[p].rep, Apply(w, RepDetach(p));
            var q := w'.reps[s];
            && (forall x :: x in q.fq <==> x in w.reps[s].fq && x != p)
            && (forall x :: x != p ==> (x in q.lb <==> x in w.reps[s].lb))
            && q.last == (if w.reps[s].last == Some(p) then None else w.reps[s].last)
            && !Enabled(w', RepAttach(p)) && !Enabled(w', RepDetach(p))
            && (Holds(w, p) ==> w.held[s] in w'.lost)
            && w'.reqs == w.reqs && w'.log == w.log && w'.links.Keys == w.links.Keys
  {
    hide LinksOk, ReqsOk, LogOk, Reaches;
    RunInv(events, w);
    var s := w.links[p].rep;
    assert RepOk(w, s);
    RemoveKeeps(w.reps[s].fq, p);
    RemoveOthers(w.reps[s].lb, p);
  }

  lemma {:induction false} RemoveOthers(s: seq<Id>, p: Id)
    ensures forall x :: x != p ==> (x in Remove(s, p) <==> x in s)
  {
    if s != [] { RemoveOthers(s[1..], p); }
  }

  /** A broken transport drops what is queued either way, and only that. */
  lemma LoseDrops(w: World, p: Id)
    requires Enabled(w, Lose(p))
    ensures var w' := Apply(w, Lose(p));
      && InFlight(w', p) == (if Holds(w, p) then [w.held[w.links[p].rep]] else [])
      && (forall t :: t in w.links[p].requests || t in w.links[p].replies ==> t in w'.lost)
      && w'.reqs == w.reqs && w'.reps == w.reps && w'.links.Keys == w.links.Keys
      && forall q :: q in w.links && q != p ==> w'.links[q] == w.links[q]
  {
    var w' := Apply(w, Lose(p));
    assert w'.links[p].requests == [] && w'.links[p].replies == [];
  }

  /** A pipe that reports input is the next one a request is offered to; exchange and
      other pipes stay. */
  lemma ActivatedFirst(events: seq<Event>, w: World, p: Id)
    requires Reaches(events, w) && Enabled(w, ReqActivate(p))
    ensures var r, w' := w.links[p].req, Apply(w, ReqActivate(p));
            && w'.reqs[r].lb != [] && w'.reqs[r].lb[0] == p
            && (forall x :: x in w'.reqs[r].lb <==> x in w.reqs[r].lb)
            && w'.reqs[r].pipe == w.reqs[r].pipe && w'.reqs[r].sending == w.reqs[r].sending
  {
    hide RepsOk, LogOk, Reaches;
    RunInv(events, w);
    assert LinkOk(w, p) && ReqOk(w, w.links[p].req);
    RemoveOthers(w.reqs[w.links[p].req].lb, p);
  }

  /** And replies do come: from any reachable state, a request of an idle REQ that
      goes to a pipe whose REP is free can be taken, answered and returned. */
  lemma ExchangeCompletes(events: seq<Event>, w: World, r: Id, k: nat, j: nat) returns (w1: World, w2: World, w3: World)
    requires Reaches(events, w) && Enabled(w, ReqSend(r, k))
    requires var s := w.links[w.reqs[r].lb[k]].rep;
             s in w.reps && w.reps[s].last.None? && j < |w.reps[s].fq| && w.reps[s].fq[j] == w.reqs[r].lb[k]
    ensures var s := w.links[w.reqs[r].lb[k]].rep;
            && w1 == Apply(w, ReqSend(r, k))
            && Enabled(w1, RepRecv(s, j)) && w2 == Apply(w1, RepRecv(s, j))
            && Enabled(w2, RepSend(s, true)) && w3 == Apply(w2, RepSend(s, true))
            && Enabled(w3, ReqRecv(r)) && Apply(w3, ReqRecv(r)).log == w.log + [Answer(r, w.next, w.next)]
  {
    RunInv(events, w);
    var p := w.reqs[r].lb[k];
    var s := w.links[p].rep;
    assert ReqOk(w, r) && LinkOk(w, p);
    assert InFlight(w, p) == [];
    w1 := Apply(w, ReqSend(r, k));
    assert w1.links[p].requests == [w.next];
    w2 := Apply(w1, RepRecv(s, j));
    w3 := Apply(w2, RepSend(s, true));
    assert w3.links[p].replies == [w.next];
  }
}
