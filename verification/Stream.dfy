/** One direction of a non-blocking stream socket.  The kernel moves any number
    of bytes, refuses, or fails, as it likes: what it will answer to the writer is
    a list fixed beforehand, which may be any list at all.  A reader may be refused
    bytes that are already there, which stands for their arriving later. */
module Stream {
  import opened Wire

  datatype Io = Moved(n: nat) | WouldBlock | Eof | Broken

  /** The buffer `b` with `data` written at `pos`. */
  function Patch(b: seq<byte>, pos: nat, data: seq<byte>): (r: seq<byte>)
    requires pos + |data| <= |b|
    ensures |r| == |b| && r[pos..pos + |data|] == data
  {
    b[..pos] + data + b[pos + |data|..]
  }

  lemma PatchNone(b: seq<byte>, pos: nat)
    requires pos <= |b|
    ensures Patch(b, pos, []) == b
  {
  }

  /** Two reads in a row write like one. */
  lemma PatchMore(b: seq<byte>, pos: nat, bytes: seq<byte>, t: nat, mid: nat, t': nat, b1: seq<byte>, b2: seq<byte>)
    requires t <= mid <= t' <= |bytes| && pos + (t' - t) <= |b|
    requires b1 == Patch(b, pos, bytes[t..mid]) && b2 == Patch(b1, pos + (mid - t), bytes[mid..t'])
    ensures b2 == Patch(b, pos, bytes[t..t'])
  {
    assert bytes[t..t'] == bytes[t..mid] + bytes[mid..t'];
    assert b2[..pos] == b[..pos];
    assert b2[pos + (t' - t)..] == b[pos + (t' - t)..];
  }

  /** Reading on: what the reader held plus what it took is what it holds. */
  lemma TakeMore(bytes: seq<byte>, t: nat, t': nat, done: seq<byte>, buf: seq<byte>, pos: nat, buf': seq<byte>)
    requires t <= t' <= |bytes| && pos + (t' - t) <= |buf|
    requires bytes[..t] == done + buf[..pos]
    requires buf' == Patch(buf, pos, bytes[t..t'])
    ensures bytes[..t'] == done + buf'[..pos + (t' - t)]
  {
    var more := bytes[t..t'];
    assert bytes[..t'] == bytes[..t] + more;
    assert buf'[..pos + (t' - t)] == buf[..pos] + more;
    assert done + buf[..pos] + more == done + (buf[..pos] + more);
  }

  /** The same when the buffer follows a header kept elsewhere. */
  lemma TakeMoreAfter(bytes: seq<byte>, t: nat, t': nat, done: seq<byte>, head: seq<byte>, buf: seq<byte>, pos: nat, buf': seq<byte>)
    requires t <= t' <= |bytes| && pos + (t' - t) <= |buf|
    requires bytes[..t] == done + (head + buf[..pos])
    requires buf' == Patch(buf, pos, bytes[t..t'])
    ensures bytes[..t'] == done + (head + buf'[..pos + (t' - t)])
  {
    assert done + (head + buf[..pos]) == (done + head) + buf[..pos];
    TakeMore(bytes, t, t', done + head, buf, pos, buf');
    var now := buf'[..pos + (t' - t)];
    assert (done + head) + now == done + (head + now);
  }

  /** The kernel's answer to a write of `n` bytes; it refuses once the list ends. */
  function Answer(plan: seq<Io>, n: nat): (r: Io)
    requires n > 0
    ensures r.Moved? ==> 1 <= r.n <= n
    ensures r.Moved? || r == WouldBlock || r == Broken
    ensures r != WouldBlock ==> plan != []
  {
    if plan == [] then WouldBlock
    else
      match plan[0]
      case Moved(k) => if k == 0 then WouldBlock else Moved(if k < n then k else n)
      case WouldBlock => WouldBlock
      case _ => Broken
  }

  function Later(plan: seq<Io>): seq<Io> {
    if plan == [] then [] else plan[1..]
  }

  class Link {
    var bytes: seq<byte>  // every byte written so far
    var taken: nat        // how many of them the reader has taken
    var plan: seq<Io>     // what the kernel will answer to the writer
    var polls: nat        // how often poll will report room to a lingering writer
    ghost var refusals: nat  // how many reads gave nothing

    constructor (plan: seq<Io>, polls: nat)
      ensures bytes == [] && taken == 0 && this.plan == plan && this.polls == polls
    {
      bytes, taken, refusals := [], 0, 0;
      this.plan, this.polls := plan, polls;
    }

    method Send(data: seq<byte>) returns (r: Io)
      requires data != []
      modifies this`bytes, this`plan
      ensures r == Answer(old(plan), |data|) && plan == Later(old(plan))
      ensures bytes == if r.Moved? then old(bytes) + data[..r.n] else old(bytes)
    {
      r := Answer(plan, |data|);
      plan := Later(plan);
      if r.Moved? { bytes := bytes + data[..r.n]; }
    }

    method Recv(buf: array<byte>, pos: nat, len: nat) returns (r: Io)
      requires 1 <= len && pos + len <= buf.Length && taken <= |bytes|
      modifies this`taken, this`refusals, buf
      ensures refusals == old(refusals) + if r.Moved? then 0 else 1
      ensures old(taken) <= taken <= |bytes| && taken <= old(taken) + len
      ensures buf[..] == Patch(old(buf[..]), pos, bytes[old(taken)..taken])
      ensures if r.Moved? then 1 <= r.n && taken == old(taken) + r.n else taken == old(taken)
    {
      if {
        case true => r := WouldBlock;
        case true => r := Broken;
        case true => r := Eof;
        case taken < |bytes| =>
          var n :| 1 <= n <= len && taken + n <= |bytes|;
          forall i | 0 <= i < n {
            buf[pos + i] := bytes[taken + i];
          }
          taken := taken + n;
          r := Moved(n);
      }
      if !r.Moved? { refusals := refusals + 1; }
    }
  }
}
