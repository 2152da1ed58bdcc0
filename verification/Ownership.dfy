/** Message memory of src/memory: reference-counted chunks, chunk references that
    keep small bodies inline, and messages made of three of them. */
module Ownership {
  import opened Common
  import opened Wire

  const INLINE_MAX: nat := 64  // MB_CHUNKREF_MAX

  type Cid = nat  // the address of a chunk; addresses are not reused here
  type Rid = nat  // the address of a struct mb_chunkref

  datatype Chunk = Chunk(refcount: nat, data: seq<byte>)

  /** A reference of more than INLINE_MAX bytes points to a chunk, or to nothing if
      its allocation failed. */
  datatype Ref = Inline(bytes: seq<byte>) | Heap(size: nat, chunk: Option<Cid>)

  predicate PointsTo(r: Ref, c: Cid) {
    r.Heap? && r.chunk == Some(c)
  }

  predicate Owns(r: Ref) {
    r.Heap? && r.chunk.Some?
  }

  ghost function Holders(refs: map<Rid, Ref>, c: Cid): set<Rid> {
    set r | r in refs && PointsTo(refs[r], c)
  }

  lemma HoldersSet(refs: map<Rid, Ref>, r: Rid, v: Ref, c: Cid)
    ensures Holders(refs[r := v], c) == (Holders(refs, c) - {r}) + if PointsTo(v, c) then {r} else {}
  {
  }

  lemma HoldersSame(refs: map<Rid, Ref>, r: Rid, v: Ref, c: Cid)
    requires !PointsTo(v, c) && (r in refs ==> !PointsTo(refs[r], c))
    ensures Holders(refs[r := v], c) == Holders(refs, c)
  {
    HoldersSet(refs, r, v, c);
  }

  lemma HoldersPlus(refs: map<Rid, Ref>, r: Rid, c: Cid, size: nat, d: Cid)
    requires r in refs ==> !Owns(refs[r])
    ensures |Holders(refs[r := Heap(size, Some(c))], d)| == |Holders(refs, d)| + if d == c then 1 else 0
  {
    HoldersSet(refs, r, Heap(size, Some(c)), d);
    assert r !in Holders(refs, d);
  }

  lemma HoldersMinus(refs: map<Rid, Ref>, r: Rid, d: Cid)
    requires r in refs && Owns(refs[r])
    ensures |Holders(refs, d)| == |Holders(refs[r := Inline([])], d)| + if d == refs[r].chunk.value then 1 else 0
  {
    HoldersSet(refs, r, Inline([]), d);
    if d == refs[r].chunk.value { assert r in Holders(refs, d); }
  }

  class Memory {
    var chunks: map<Cid, Chunk>
    var refs: map<Rid, Ref>

    ghost var bare: map<Cid, nat>  // references held in local pointers
    ghost var freed: seq<Cid>      // every chunk freed so far
    var next: Cid
    var grants: seq<bool>          // whether malloc grants the next requests; then it does not

    predicate Granted()
      reads this`grants
    {
      grants != [] && grants[0]
    }

    ghost function Bare(c: Cid): nat
      reads this`bare
    {
      if c in bare then bare[c] else 0
    }

    ghost predicate ChunkOk(c: Cid)
      requires c in chunks
      reads this`chunks, this`refs, this`bare, this`next
    {
      chunks[c].refcount == |Holders(refs, c)| + Bare(c) > 0 && c < next
    }

    ghost predicate RefOk(r: Rid)
      requires r in refs
      reads this`chunks, this`refs
    {
      match refs[r]
      case Inline(bytes) => |bytes| <= INLINE_MAX
      case Heap(size, chunk) => size > INLINE_MAX && (chunk.Some? ==> chunk.value in chunks && |chunks[chunk.value].data| >= size)
    }

    /** Every chunk counts exactly the references to it, none is free while one is
        left, and none is freed twice. */
    ghost predicate Valid()
      reads this
    {
      && (forall c {:trigger ChunkOk(c)} :: c in chunks ==> ChunkOk(c))
      && (forall r {:trigger RefOk(r)} :: r in refs ==> RefOk(r))
      && (forall c :: Bare(c) > 0 ==> c in chunks)
      && (forall i :: 0 <= i < |freed| ==> freed[i] !in chunks && freed[i] < next)
      && (forall i, j :: 0 <= i < j < |freed| ==> freed[i] != freed[j])
    }

    /** The bytes that a reference stands for. */
    ghost function Bytes(r: Rid): seq<byte>
      requires r in refs && RefOk(r)
      reads this`chunks, this`refs
    {
      match refs[r]
      case Inline(bytes) => bytes
      case Heap(size, chunk) => if chunk.Some? then chunks[chunk.value].data[..size] else []
    }

    /** Every other reference still stands for the same bytes. */
    twostate predicate OthersKeep(rs: set<Rid>)
      requires old(Valid()) && Valid()
      reads this
    {
      forall r {:trigger Bytes(r)} :: r in old(refs) && r !in rs ==>
        r in refs && refs[r] == old(refs[r]) && RefOk(r) && old(RefOk(r)) && Bytes(r) == old(Bytes(r))
    }

    constructor (grants: seq<bool>)
      ensures Valid() && chunks == map[] && refs == map[] && bare == map[] && freed == [] && this.grants == grants
    {
      chunks, refs, bare, freed, next := map[], map[], map[], [], 0;
      this.grants := grants;
    }

    /** malloc */
    method Request() returns (ok: bool)
      modifies this`grants
      ensures ok == old(Granted()) && grants == if old(grants) == [] then [] else old(grants)[1..]
    {
      ok := Granted();
      if grants != [] { grants := grants[1..]; }
    }

    // ---------- Chunks ----------

    /** mb_chunk_alloc: a new chunk, held by the caller's pointer. */
    method Alloc(data: seq<byte>) returns (c: Option<Cid>)
      requires Valid()
      modifies this`chunks, this`bare, this`next, this`grants
      ensures c.Some? <==> old(Granted())
      ensures Valid() && OthersKeep({}) && (c == None ==> chunks == old(chunks) && bare == old(bare))
      ensures c.Some? ==> c.value !in old(chunks) && chunks == old(chunks)[c.value := Chunk(1, data)]
      ensures c.Some? ==> bare == old(bare)[c.value := 1]
    {
      var ok := Request();
      if !ok { return None; }
      c := Some(next);
      NextIsNew();
      NobodyHolds(next);
      chunks := chunks[next := Chunk(1, data)];
      bare := bare[next := 1];
      next := next + 1;
      forall d | d in chunks ensures ChunkOk(d) {
        if d != c.value { assert old(ChunkOk(d)); }
      }
      forall r | r in refs ensures RefOk(r) { assert old(RefOk(r)); }
    }

    lemma NextIsNew()
      requires Valid()
      ensures next !in chunks && Bare(next) == 0
    {
      assert next in chunks ==> ChunkOk(next);
    }

    lemma NobodyHolds(c: Cid)
      requires Valid() && c !in chunks
      ensures Holders(refs, c) == {}
    {
      forall r | r in refs ensures !PointsTo(refs[r], c) { assert RefOk(r); }
    }

    /** mb_chunk_addref */
    method AddRef(c: Cid, n: nat)
      requires Valid() && c in chunks
      modifies this`chunks, this`bare
      ensures Valid() && OthersKeep({}) && chunks.Keys == old(chunks.Keys) && bare == old(bare)[c := old(Bare(c)) + n]
      ensures chunks[c].data == old(chunks[c].data)
    {
      assert ChunkOk(c);
      bare := bare[c := Bare(c) + n];
      chunks := chunks[c := chunks[c].(refcount := chunks[c].refcount + n)];
      forall d | d in chunks ensures ChunkOk(d) {
        assert old(ChunkOk(d));
      }
      forall r | r in refs ensures RefOk(r) { assert old(RefOk(r)); }
    }

    /** mb_chunk_free: give up the caller's pointer.  The chunk is freed if and only
        if that was the last reference. */
    method Free(c: Cid)
      requires Valid() && Bare(c) > 0
      modifies this`chunks, this`bare, this`freed
      ensures Valid() && OthersKeep({}) && bare == old(bare)[c := old(Bare(c)) - 1]
      ensures freed == if Bare(c) == 0 && Holders(refs, c) == {} then old(freed) + [c] else old(freed)
      ensures forall d :: d != c ==> (d in chunks <==> d in old(chunks)) && (d in chunks ==> chunks[d] == old(chunks)[d])
      ensures c in chunks <==> Bare(c) > 0 || Holders(refs, c) != {}
      ensures c in chunks ==> chunks[c].data == old(chunks[c].data)
    {
      assert ChunkOk(c);
      bare := bare[c := Bare(c) - 1];
      if chunks[c].refcount - 1 == 0 {
        chunks := chunks - {c};
        freed := freed + [c];
      } else {
        chunks := chunks[c := chunks[c].(refcount := chunks[c].refcount - 1)];
      }
      forall d | d in chunks ensures ChunkOk(d) { assert old(ChunkOk(d)); }
      forall r | r in refs ensures RefOk(r) {
        assert old(RefOk(r));
        assert PointsTo(refs[r], c) ==> r in Holders(refs, c);
      }
    }

    /** mb_chunk_realloc to a size that is not smaller: a shared chunk is copied, so
        that its other holders keep theirs. */
    method Grow(c: Cid, size: nat, fill: seq<byte>) returns (ok: bool, c': Cid)
      requires Valid() && Bare(c) > 0 && c in chunks && |chunks[c].data| + |fill| == size
      modifies this`chunks, this`bare, this`next, this`grants
      ensures ok == old(Granted())
      ensures Valid() && OthersKeep({}) && freed == old(freed)
      ensures !ok ==> c' == c && chunks == old(chunks) && bare == old(bare)
      ensures ok ==> c' in chunks && chunks[c'].data == old(chunks[c].data) + fill
      ensures ok ==> c' == c || (c' !in old(chunks) && c in chunks && chunks[c].data == old(chunks[c].data))
      ensures ok ==> bare == if c' == c then old(bare) else old(bare)[c := old(Bare(c)) - 1][c' := 1]
    {
      assert ChunkOk(c);
      if chunks[c].refcount > 1 {
        var new_ := Alloc(chunks[c].data + fill);
        if new_ == None { return false, c; }
        Forget(c);
        return true, new_.value;
      }
      ok := Request();
      if !ok { return false, c; }
      assert Holders(refs, c) == {};
      chunks := chunks[c := chunks[c].(data := chunks[c].data + fill)];
      forall d | d in chunks ensures ChunkOk(d) { assert old(ChunkOk(d)); }
      forall r | r in refs ensures RefOk(r) {
        assert old(RefOk(r));
        assert PointsTo(refs[r], c) ==> r in Holders(refs, c);
      }
      return true, c;
    }

    /** Give up one of several references. */
    method Forget(c: Cid)
      requires Valid() && Bare(c) > 0 && c in chunks && chunks[c].refcount > 1
      modifies this`chunks, this`bare
      ensures Valid() && OthersKeep({}) && bare == old(bare)[c := old(Bare(c)) - 1]
      ensures chunks == old(chunks)[c := old(chunks[c]).(refcount := old(chunks[c]).refcount - 1)]
    {
      assert ChunkOk(c);
      bare := bare[c := Bare(c) - 1];
      chunks := chunks[c := chunks[c].(refcount := chunks[c].refcount - 1)];
      forall d | d in chunks ensures ChunkOk(d) { assert old(ChunkOk(d)); }
      forall r | r in refs ensures RefOk(r) { assert old(RefOk(r)); }
    }

    // ---------- Chunk references ----------

    predicate Vacant(r: Rid)
      reads this`refs
    {
      r in refs ==> !Owns(refs[r])
    }

    /** Overwrite a reference that owns no chunk by one that owns none. */
    method Put(r: Rid, v: Ref)
      requires Valid() && Vacant(r) && !Owns(v) && (v.Inline? ==> |v.bytes| <= INLINE_MAX) && (v.Heap? ==> v.size > INLINE_MAX)
      modifies this`refs
      ensures Valid() && refs == old(refs)[r := v] && OthersKeep({r})
    {
      refs := refs[r := v];
      forall d | d in chunks ensures ChunkOk(d) {
        assert old(ChunkOk(d));
        HoldersSame(old(refs), r, v, d);
      }
      forall q | q in refs ensures RefOk(q) { if q != r { assert old(RefOk(q)); } }
    }

    /** Store the caller's pointer in a vacant reference. */
    method Store(r: Rid, c: Cid, size: nat)
      requires Valid() && Vacant(r) && Bare(c) > 0 && c in chunks && INLINE_MAX < size <= |chunks[c].data|
      modifies this`refs, this`bare
      ensures Valid() && refs == old(refs)[r := Heap(size, Some(c))] && OthersKeep({r})
      ensures bare == old(bare)[c := old(Bare(c)) - 1]
      ensures r in refs && RefOk(r) && Bytes(r) == chunks[c].data[..size]
    {
      refs := refs[r := Heap(size, Some(c))];
      bare := bare[c := Bare(c) - 1];
      forall d | d in chunks ensures ChunkOk(d) {
        assert old(ChunkOk(d));
        HoldersPlus(old(refs), r, c, size, d);
      }
      forall q | q in refs ensures RefOk(q) { if q != r { assert old(RefOk(q)); } }
    }

    /** Take the pointer out of a reference and leave it empty. */
    method Take(r: Rid) returns (c: Cid)
      requires Valid() && r in refs && Owns(refs[r])
      modifies this`refs, this`bare
      ensures Valid() && refs == old(refs)[r := Inline([])] && OthersKeep({r})
      ensures c == old(refs[r]).chunk.value && c in chunks && bare == old(bare)[c := old(Bare(c)) + 1]
    {
      assert RefOk(r);
      c := refs[r].chunk.value;
      refs := refs[r := Inline([])];
      bare := bare[c := Bare(c) + 1];
      forall d | d in chunks ensures ChunkOk(d) {
        assert old(ChunkOk(d));
        HoldersMinus(old(refs), r, d);
      }
      forall q | q in refs ensures RefOk(q) { if q != r { assert old(RefOk(q)); } }
    }

    function Zeros(n: nat): (z: seq<byte>)
      ensures |z| == n
    {
      seq(n, _ => 0)
    }

    /** mb_chunkref_init: zeroed inline bytes, or a chunk of unspecified contents
        `raw`, or nothing if there is no memory. */
    method InitRef(r: Rid, raw: seq<byte>)
      requires Valid() && Vacant(r)
      modifies this
      ensures Valid() && OthersKeep({r}) && freed == old(freed) && r in refs && RefOk(r)
      ensures refs == old(refs)[r := refs[r]]
      ensures |raw| <= INLINE_MAX ==> refs[r] == Inline(Zeros(|raw|)) && grants == old(grants)
      ensures |raw| > INLINE_MAX ==> (Owns(refs[r]) <==> old(Granted()))
      ensures |raw| > INLINE_MAX ==> refs[r].Heap? && refs[r].size == |raw| && (Owns(refs[r]) ==> Bytes(r) == raw)
      ensures forall c :: Bare(c) == old(Bare(c))
    {
      if |raw| <= INLINE_MAX {
        Put(r, Inline(Zeros(|raw|)));
      } else {
        var c := Alloc(raw);
        if c.Some? {
          Store(r, c.value, |raw|);
          assert raw[..|raw|] == raw;
        } else {
          Put(r, Heap(|raw|, None));
        }
      }
    }

    /** mb_chunkref_term: the chunk is freed if and only if no other reference to it
        is left. */
    method Term(r: Rid)
      requires Valid() && r in refs
      modifies this
      ensures Valid() && OthersKeep({r}) && refs == old(refs)[r := Inline([])]
      ensures forall c :: Bare(c) == old(Bare(c))
      ensures freed == if Owns(old(refs[r])) && LastHolder(old(refs), r, old(refs[r]).chunk.value, old(bare))
                       then old(freed) + [old(refs[r]).chunk.value] else old(freed)
      ensures forall d :: old(Bare(d)) > 0 ==> d in old(chunks) && d in chunks && chunks[d].data == old(chunks)[d].data
    {
      if Owns(refs[r]) {
        ghost var c0 := refs[r].chunk.value;
        HoldersSet(refs, r, Inline([]), c0);
        var c := Take(r);
        Free(c);
      } else {
        Put(r, Inline([]));
      }
    }

    /** mb_chunkref_mv */
    method Mv(dst: Rid, src: Rid)
      requires Valid() && src in refs && dst != src && Vacant(dst)
      modifies this
      ensures Valid() && OthersKeep({dst, src}) && freed == old(freed)
      ensures refs == old(refs)[src := Inline([])][dst := old(refs[src])]
      ensures RefOk(dst) && old(RefOk(src)) && Bytes(dst) == old(Bytes(src))
      ensures forall c :: Bare(c) == old(Bare(c))
    {
      assert RefOk(src);
      var v := refs[src];
      if Owns(v) {
        var c := Take(src);
        Store(dst, c, v.size);
      } else {
        Put(src, Inline([]));
        Put(dst, v);
      }
      assert RefOk(dst);
    }

    /** mb_chunkref_cp: the bytes are shared, not copied, when they are on the heap.
        The count of a chunk whose allocation failed is taken through a null
        pointer, and the process dies. */
    method Cp(dst: Rid, src: Rid) returns (dies: bool)
      requires Valid() && src in refs && dst != src && Vacant(dst)
      modifies this
      ensures dies <==> old(refs[src]).Heap? && !Owns(old(refs[src]))
      ensures Valid() && OthersKeep({dst}) && freed == old(freed)
      ensures refs == if dies then old(refs) else old(refs)[dst := old(refs[src])]
      ensures !dies ==> RefOk(dst) && old(RefOk(src)) && Bytes(dst) == old(Bytes(src))
      ensures forall c :: Bare(c) == old(Bare(c))
    {
      assert RefOk(src);
      var v := refs[src];
      if v.Heap? {
        if v.chunk.None? { return true; }
        AddRef(v.chunk.value, 1);
        assert RefOk(src);
        Store(dst, v.chunk.value, v.size);
      } else {
        Put(dst, v);
      }
      assert RefOk(dst);
      return false;
    }

    /** mb_chunkref_set: without memory nothing changes. */
    method SetBytes(r: Rid, data: seq<byte>) returns (ok: bool)
      requires Valid() && r in refs
      modifies this
      ensures Valid() && OthersKeep({r}) && r in refs && RefOk(r)
      ensures ok ==> Bytes(r) == data
      ensures !ok ==> refs == old(refs) && freed == old(freed)
      ensures |data| <= INLINE_MAX ==> ok
      ensures forall c :: Bare(c) == old(Bare(c))
    {
      if |data| <= INLINE_MAX {
        Term(r);
        Put(r, Inline(data));
        assert RefOk(r);
        return true;
      }
      var c := Alloc(data);
      if c == None {
        assert RefOk(r);
        return false;
      }
      assert old(Bare(c.value)) == 0;
      label Allocated:
      Term(r);
      Store(r, c.value, |data|);
      assert data[..|data|] == data;
      forall d ensures Bare(d) == old(Bare(d)) {
        assert d != c.value ==> old@Allocated(Bare(d)) == old(Bare(d));
      }
      return true;
    }

    /** mb_chunkref_init_chunk, given a pointer to the chunk.  A long reference that
        does not start at the chunk's first byte would count where there is no
        counter; that, and only that, is reported as `strays`. */
    method InitFromChunk(r: Rid, c: Cid, offset: nat, size: nat) returns (strays: bool)
      requires Valid() && Vacant(r) && Bare(c) > 0 && c in chunks && offset + size <= |chunks[c].data|
      modifies this
      ensures strays <==> size > INLINE_MAX && offset > 0
      ensures Valid() && OthersKeep({r}) && freed == old(freed)
      ensures !strays ==> r in refs && RefOk(r) && Bytes(r) == old(chunks[c].data)[offset..offset + size]
      ensures refs == if strays then old(refs) else old(refs)[r := refs[r]]
      ensures c in chunks && chunks[c].data == old(chunks[c].data) && (strays ==> chunks == old(chunks))
      ensures forall d :: Bare(d) == old(Bare(d))
    {
      strays := false;
      if size <= INLINE_MAX {
        Put(r, Inline(chunks[c].data[offset..offset + size]));
        assert RefOk(r);
      } else if offset > 0 {
        strays := true;
      } else {
        AddRef(c, 1);
        Store(r, c, size);
      }
    }

    // ---------- Messages ----------

    predicate Initialised(m: Msg)
      reads this`refs
    {
      m.sphdr in refs && m.hdrs in refs && m.body in refs
    }

    predicate VacantMsg(m: Msg)
      reads this`refs
    {
      Vacant(m.sphdr) && Vacant(m.hdrs) && Vacant(m.body)
    }

    predicate Complete(m: Msg)
      requires Initialised(m)
      reads this`refs
    {
      && (refs[m.sphdr].Heap? ==> Owns(refs[m.sphdr]))
      && (refs[m.hdrs].Heap? ==> Owns(refs[m.hdrs]))
      && (refs[m.body].Heap? ==> Owns(refs[m.body]))
    }

    /** The bytes of the three parts. */
    ghost function Parts(m: Msg): (seq<byte>, seq<byte>, seq<byte>)
      requires Valid() && Initialised(m)
      reads this
    {
      assert RefOk(m.sphdr) && RefOk(m.hdrs) && RefOk(m.body);
      (Bytes(m.sphdr), Bytes(m.hdrs), Bytes(m.body))
    }

    /** mb_msg_mv: the parts move and the source is left empty. */
    method MvMsg(dst: Msg, src: Msg)
      requires Valid() && Apart(dst, src) && Initialised(src) && VacantMsg(dst)
      modifies this
      ensures Valid() && OthersKeep(Ids(dst) + Ids(src)) && freed == old(freed)
      ensures Initialised(dst) && Parts(dst) == old(Parts(src))
      ensures Initialised(src) && Parts(src) == ([], [], [])
      ensures forall c :: Bare(c) == old(Bare(c))
    {
      Mv(dst.sphdr, src.sphdr);
      Mv(dst.hdrs, src.hdrs);
      Mv(dst.body, src.body);
    }

    /** mb_msg_cp: the copy has the same parts and the source keeps its own, if and
        only if no allocation of a part had failed. */
    method CpMsg(dst: Msg, src: Msg) returns (dies: bool)
      requires Valid() && Apart(dst, src) && Initialised(src) && VacantMsg(dst)
      modifies this
      ensures dies <==> !old(Complete(src))
      ensures Valid() && OthersKeep(Ids(dst)) && freed == old(freed)
      ensures !dies ==> Initialised(dst) && Parts(dst) == old(Parts(src))
      ensures Initialised(src) && Parts(src) == old(Parts(src))
      ensures forall c :: Bare(c) == old(Bare(c))
    {
      dies := Cp(dst.sphdr, src.sphdr);
      if dies { return; }
      dies := Cp(dst.hdrs, src.hdrs);
      if dies { return; }
      dies := Cp(dst.body, src.body);
    }

    /** mb_msg_term */
    method TermMsg(m: Msg)
      requires Valid() && Initialised(m) && Separate(m)
      modifies this
      ensures Valid() && OthersKeep(Ids(m)) && Initialised(m) && VacantMsg(m) && Parts(m) == ([], [], [])
      ensures forall c :: Bare(c) == old(Bare(c))
    {
      Term(m.body);
      Term(m.hdrs);
      Term(m.sphdr);
    }

    /** mb_msg_init_chunk: the message takes over the caller's pointer; a small
        chunk is copied inline and released. */
    method InitMsgFromChunk(m: Msg, c: Cid)
      requires Valid() && Separate(m) && VacantMsg(m) && Bare(c) > 0 && c in chunks
      modifies this
      ensures Valid() && OthersKeep(Ids(m)) && Initialised(m) && Parts(m) == ([], [], old(chunks[c].data))
      ensures forall d :: Bare(d) == if d == c then old(Bare(c)) - 1 else old(Bare(d))
    {
      Put(m.sphdr, Inline([]));
      Put(m.hdrs, Inline([]));
      var size := |chunks[c].data|;
      assert chunks[c].data[..size] == chunks[c].data;
      var strays := InitFromChunk(m.body, c, 0, size);
      assert refs[m.sphdr] == refs[m.hdrs] == Inline([]);
      assert Bytes(m.body) == old(chunks[c].data);
      label Filled:
      Free(c);
      assert RefOk(m.sphdr) && RefOk(m.hdrs) && RefOk(m.body);
      forall d ensures Bare(d) == if d == c then old(Bare(c)) - 1 else old(Bare(d)) {
        assert old@Filled(Bare(d)) == old(Bare(d));
      }
    }
  }

  /** struct mb_msg */
  datatype Msg = Msg(sphdr: Rid, hdrs: Rid, body: Rid)

  function Ids(m: Msg): set<Rid> {
    {m.sphdr, m.hdrs, m.body}
  }

  predicate Separate(m: Msg) {
    m.sphdr != m.hdrs && m.hdrs != m.body && m.sphdr != m.body
  }

  predicate Apart(a: Msg, b: Msg) {
    Separate(a) && Separate(b) && Ids(a) !! Ids(b)
  }

  /** A copy that dies: the body of the source is longer than 64 bytes and malloc
      granted no chunk for it, as mb_msg_init leaves it. */
  method DyingCopy(raw: seq<byte>) returns (mem: Memory, src: Msg, dies: bool)
    requires |raw| > INLINE_MAX
    ensures mem.Valid() && fresh(mem) && mem.Initialised(src) && mem.refs[src.body] == Heap(|raw|, None)
    ensures dies && !mem.Complete(src)
  {
    mem := new Memory([false]);
    src := Msg(0, 1, 2);
    var dst := Msg(3, 4, 5);
    mem.InitRef(src.sphdr, []);
    mem.InitRef(src.hdrs, []);
    mem.InitRef(src.body, raw);
    dies := mem.CpMsg(dst, src);
  }

  /** A reference that strays: 65 bytes from the second byte of a chunk on. */
  method StrayingReference(data: seq<byte>) returns (mem: Memory, c: Cid, strays: bool)
    requires |data| > INLINE_MAX + 1
    ensures mem.Valid() && fresh(mem) && mem.chunks == map[c := Chunk(1, data)] && mem.Bare(c) == 1
    ensures strays && mem.refs == map[]
  {
    mem := new Memory([true]);
    var got := mem.Alloc(data);
    c := got.value;
    strays := mem.InitFromChunk(0, c, 1, INLINE_MAX + 1);
  }

  /** No pointer to `c` is left but that of `r`. */
  ghost predicate LastHolder(refs: map<Rid, Ref>, r: Rid, c: Cid, bare: map<Cid, nat>) {
    Holders(refs, c) == {r} && (c in bare ==> bare[c] == 0)
  }

  /** Conservation: once every reference is terminated and no pointer is held, no
      chunk is left. */
  lemma NoLeak(mem: Memory)
    requires mem.Valid() && (forall r :: r in mem.refs ==> !Owns(mem.refs[r])) && (forall c :: mem.Bare(c) == 0)
    ensures mem.chunks == map[]
  {
    forall c ensures c !in mem.chunks {
      assert Holders(mem.refs, c) == {};
      assert c in mem.chunks ==> mem.ChunkOk(c);
    }
  }
}
