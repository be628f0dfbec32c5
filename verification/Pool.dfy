/** call_lookup, call_prepare and call_done on the linked list of pooled call states (gck-rpc-module.c). */
module Pools {
  import opened Bytes
  import opened Signature
  import opened Wire
  import opened Messages
  import opened CallPool
  import Ckr

  /** A CallState: its place in the pool and its messages, which are allocated when first needed. */
  class Call {
    var status: Status
    var socket: Option<Id>
    var next: Call?
    var req: Message?
    var resp: Message?

    /** calloc and the two assignments after it. */
    constructor ()
      ensures status == INVALID && socket.None? && next == null && req == null && resp == null
    {
      status, socket, next, req, resp := INVALID, None, null, null, null;
    }

    /** call_connect: a socket, or an error. */
    method Connect() returns (rv: Ulong)
      requires status == INVALID && socket.None?
      modifies this`status, this`socket
      ensures rv == Ckr.OK ==> status == READY && socket.Some?
    {
      rv := *;
      if rv == Ckr.OK {
        var fd: Id := *;
        status, socket := READY, Some(fd);
      }
    }

    /**
      call_prepare: a request with its header written, or no memory and the state still ready; `reliable` if
      the allocator is.
     */
    method Prepare(id: int, reliable: bool) returns (rv: Ulong)
      requires status == READY && IsCall(id) && (req != null ==> req.Valid())
      modifies this`status, this`req, if req == null then {} else {req, req.buffer, req.buffer.buf}
      ensures rv == Ckr.OK || rv == Ckr.HOST_MEMORY
      ensures (if old(req) == null then reliable else old(req).buffer.Ample()) ==> rv == Ckr.OK
      ensures status == if rv == Ckr.OK then PREP else READY
      ensures old(req) != null ==> req == old(req)
      ensures rv == Ckr.OK ==>
        && req != null && req.Valid() && req.buffer.failures == 0 && req.Contents() == Header(id, true)
        && req.callId == id && req.sigverify == Some(Codes(PartsOf(id, true)))
    {
      hide Header, Codes, PartsOf;
      if req == null {
        req := NewMessage(reliable);
        if req == null { return Ckr.HOST_MEMORY; }
      }
      req.Reset();
      var ok := req.Prep(id, true);
      if !ok { return Ckr.HOST_MEMORY; }
      status := PREP;
      rv := Ckr.OK;
    }

    /** The response is there to be looked at once more. */
    predicate Answered()
      reads this
    {
      status == PARSE && req != null && resp != null
    }

    /** The assert of call_done: a response read without a fault was read to the end of its signature. */
    predicate ReadToEnd(ret: Ulong)
      reads this, resp, if resp == null then {} else {resp.buffer}
    {
      Answered() && ret == Ckr.OK && !resp.buffer.HasError() ==> resp.IsVerified()
    }
  }

  /** call_state_pool and n_call_state_pool. */
  class Pool {
    var head: Call?
    var n: nat
    /** The list from the head to its NULL end. */
    ghost var chain: seq<Call>

    /** The list is acyclic, of n <= 8 ready call states with open sockets. */
    ghost predicate Valid()
      reads this, chain
    {
      && n == |chain| <= MAX_CALL_STATE_POOL
      && head == At(0)
      && (forall i | 0 <= i < |chain| :: chain[i].next == At(i + 1))
      && (forall i, j | 0 <= i < j < |chain| :: chain[i] != chain[j])
      && (forall i | 0 <= i < |chain| :: chain[i].status == READY && chain[i].socket.Some?)
    }

    ghost function At(i: nat): Call?
      reads this
    {
      if i < |chain| then chain[i] else null
    }

    constructor ()
      ensures Valid() && chain == []
    {
      head, n, chain := null, 0, [];
    }

    /** The section of call_lookup under the mutex. */
    method Pop() returns (cs: Call?)
      requires Valid()
      modifies this, chain
      ensures Valid()
      ensures cs == null <==> old(chain) == []
      ensures chain == if cs == null then [] else old(chain[1..])
      ensures cs != null ==>
        cs == old(chain[0]) && cs !in chain && cs.status == READY && cs.socket == old(cs.socket) && cs.next == null
      ensures cs != null ==> cs.socket.Some?
      ensures forall c <- chain :: c.socket == old(c.socket)
    {
      cs := head;
      if cs != null {
        assert cs == chain[0] && cs !in chain[1..];
        head := cs.next;
        cs.next := null;
        n := n - 1;
        chain := chain[1..];
      }
    }

    /** call_lookup: a ready call state that no one else can reach, or the error of connecting. */
    method Lookup() returns (rv: Ulong, cs: Call?)
      requires Valid()
      modifies this, chain
      ensures Valid()
      ensures rv == Ckr.OK <==> cs != null
      ensures cs != null ==> cs.status == READY && cs.socket.Some? && cs.next == null && cs !in chain
      ensures if old(chain) == [] then chain == [] && (cs != null ==> fresh(cs))
              else cs == old(chain[0]) && chain == old(chain[1..])
    {
      cs := Pop();
      rv := Ckr.OK;
      if cs == null {
        var memory: bool := *;
        if !memory { return Ckr.HOST_MEMORY, null; }
        var c := new Call();
        rv := c.Connect();
        cs := if rv == Ckr.OK then c else null;
      }
    }

    /** The section of call_done under the mutex. */
    method Push(cs: Call) returns (pooled: bool)
      requires Valid() && cs !in chain && cs.socket.Some? && cs.next == null
      modifies this, cs
      ensures Valid()
      ensures pooled <==> old(n) < 8
      ensures chain == if pooled then [cs] + old(chain) else old(chain)
      ensures cs.socket == old(cs.socket)
    {
      pooled := n < MAX_CALL_STATE_POOL;
      if pooled {
        cs.status, cs.next := READY, head;
        head, n := cs, n + 1;
        chain := [cs] + chain;
      }
    }

    /**
      call_done: the call's code, and whether the state went back into the pool or was destroyed, which
      closes its socket. The reader of the response has to have met the assert on its signature.
     */
    method Done(cs: Call, ret: Ulong) returns (rv: Ulong, pooled: bool)
      requires Valid() && cs !in chain && cs.status != INVALID && cs.next == null && cs.ReadToEnd(ret)
      modifies this, cs
      ensures Valid()
      ensures rv == if old(cs.Answered()) && ret == 0 && old(cs.resp.buffer.failures) > 0 then 5 else ret
      ensures pooled <==> rv != 0x30 && rv != 0x32 && old(cs.socket).Some? && old(n) < 8
      ensures chain == if pooled then [cs] + old(chain) else old(chain)
      ensures cs.socket == if pooled then old(cs.socket) else None
    {
      rv, pooled := ret, false;
      if cs.status == PARSE && cs.req != null && cs.resp != null {
        if rv == Ckr.OK {
          if cs.resp.buffer.HasError() {
            rv := Ckr.GENERAL_ERROR;
          } else {
            assert cs.resp.IsVerified();
          }
        }
      }
      if !Discards(rv) && cs.socket.Some? { pooled := Push(cs); }
      if !pooled { cs.socket := None; }
    }
  }
}
