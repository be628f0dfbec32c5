/** Length-prefixed frames over sockets that transfer arbitrarily small chunks. */
module Framing {
  import opened Bytes

  /** A frame: the payload behind its length, which is stored as a uint32_t. */
  function Frame(payload: seq<Byte>): (f: seq<Byte>)
    ensures |f| == 4 + |payload|
  {
    EncodeUint32(|payload| % 0x1_0000_0000) + payload
  }

  /** The length word is the payload's length exactly below 2^32 bytes. */
  lemma FrameLengthIff(payload: seq<Byte>)
    ensures DecodeUint32(Frame(payload)[..4]) == |payload| <==> |payload| < TWO_32
  {
    assert Frame(payload)[..4] == EncodeUint32(|payload| % 0x1_0000_0000);
    Uint32RoundTrip(|payload| % 0x1_0000_0000);
  }

  // ----- Partial transfers ------------------------------------------------------------------

  /** The outcome of one recv or send: some bytes moved, EAGAIN or EINTR, or a real error. */
  datatype Io = Moved(count: nat) | Again | Failed

  /** Every call moves something or asks to be repeated. */
  predicate Healthy(schedule: seq<Io>) {
    forall io <- schedule :: io.Again? || (io.Moved? && io.count > 0)
  }

  function Moves(schedule: seq<Io>): nat {
    if schedule == [] then 0 else (if schedule[0].Moved? then 1 else 0) + Moves(schedule[1..])
  }

  function Min(a: nat, b: nat): nat { if a < b then a else b }

  /**
    read_all and call_read. `schedule` is what the socket will do, call by call; a socket that has
    nothing more to do, or nothing more to give, is closed.
   */
  method ReadAll(incoming: seq<Byte>, schedule: seq<Io>, len: nat)
    returns (ok: bool, data: seq<Byte>, rest: seq<Byte>, later: seq<Io>)
    requires len > 0
    ensures data + rest == incoming
    ensures if ok then |data| == len else |data| < len
    ensures Healthy(schedule) && Moves(schedule) >= len && |incoming| >= len ==> ok
    ensures Healthy(schedule) && ok ==> Healthy(later) && Moves(later) + |data| >= Moves(schedule)
  {
    data, rest, later := [], incoming, schedule;
    while |data| < len
      invariant data + rest == incoming && |data| <= len
      invariant Healthy(schedule) ==> Healthy(later) && Moves(later) + |data| >= Moves(schedule)
      decreases |later|
    {
      if later == [] { return false, data, rest, later; }
      var io := later[0];
      later := later[1..];
      match io
      case Again =>
      case Failed => return false, data, rest, later;
      case Moved(count) =>
        var r := Min(count, Min(len - |data|, |rest|));
        if r == 0 { return false, data, rest, later; }
        data, rest := data + rest[..r], rest[r..];
    }
    ok := true;
  }

  /** write_all and call_write: on failure a proper prefix may already be on the wire. */
  method WriteAll(data: seq<Byte>, schedule: seq<Io>) returns (ok: bool, wire: seq<Byte>, later: seq<Io>)
    requires data != []
    ensures wire <= data && (ok <==> wire == data)
    ensures Healthy(schedule) && Moves(schedule) >= |data| ==> ok
    ensures Healthy(schedule) && ok ==> Healthy(later) && Moves(later) + |data| >= Moves(schedule)
  {
    wire, later := [], schedule;
    while |wire| < |data|
      invariant wire <= data
      invariant Healthy(schedule) ==> Healthy(later) && Moves(later) + |wire| >= Moves(schedule)
      decreases |later|
    {
      if later == [] { return false, wire, later; }
      var io := later[0];
      later := later[1..];
      match io
      case Again =>
      case Failed => return false, wire, later;
      case Moved(count) => wire := data[..|wire| + Min(count, |data| - |wire|)];
    }
    ok := true;
  }

  /** The daemon drops a connection that announces a request of at least this many bytes. */
  const MAX_REQUEST := 0x0FFF_FFFF

  predicate Framable(payload: seq<Byte>) {
    0 < |payload| < MAX_REQUEST
  }

  /** A length word within bounds, and at least that many bytes after it. */
  predicate BeginsWithFrame(s: seq<Byte>) {
    |s| >= 4 && 0 < DecodeUint32(s[..4]) < MAX_REQUEST && |s| >= 4 + DecodeUint32(s[..4])
  }

  /** The length word and then the data, as both ends send a message. */
  method WriteFrame(payload: seq<Byte>, schedule: seq<Io>) returns (ok: bool, wire: seq<Byte>, later: seq<Io>)
    requires payload != []
    ensures wire <= Frame(payload) && (ok <==> wire == Frame(payload))
    ensures Healthy(schedule) && Moves(schedule) >= 4 + |payload| ==> ok
  {
    var header := EncodeUint32(|payload| % 0x1_0000_0000);
    ok, wire, later := WriteAll(header, schedule);
    if ok {
      var body;
      ok, body, later := WriteAll(payload, later);
      wire := wire + body;
    }
  }

  /** The receiving half of the daemon's main loop, given whether its reservation succeeds; None where the loop ends. */
  method ReadFrame(incoming: seq<Byte>, schedule: seq<Io>, reserved: bool)
    returns (r: Option<seq<Byte>>, rest: seq<Byte>, later: seq<Io>)
    ensures r.Some? ==> reserved && Framable(r.value) && incoming == Frame(r.value) + rest
    ensures Healthy(schedule) && r.Some? ==> Healthy(later) && Moves(later) + |Frame(r.value)| >= Moves(schedule)
    ensures Healthy(schedule) && Moves(schedule) >= |incoming| && reserved && BeginsWithFrame(incoming) ==> r.Some?
  {
    var ok, buf;
    ok, buf, rest, later := ReadAll(incoming, schedule, 4);
    if !ok { return None, rest, later; }
    assert buf == incoming[..4];
    hide Moves, Healthy;
    var len := DecodeUint32(buf);
    if len >= MAX_REQUEST || len == 0 { return None, rest, later; }
    if !reserved { return None, rest, later; }
    var data;
    ok, data, rest, later := ReadAll(rest, later, len);
    if !ok { return None, rest, later; }
    Uint32Onto(buf);
    assert incoming == Frame(data) + rest;
    r := Some(data);
  }

  function Stream(payloads: seq<seq<Byte>>): seq<Byte> {
    if payloads == [] then [] else Frame(payloads[0]) + Stream(payloads[1..])
  }

  /** The first frame of a stream is determined by the stream. */
  lemma FirstFrame(a: seq<Byte>, x: seq<Byte>, b: seq<Byte>, y: seq<Byte>)
    requires Framable(a) && Framable(b) && Frame(a) + x == Frame(b) + y
    ensures a == b && x == y
  {
    var s := Frame(a) + x;
    FrameLengthIff(a);
    FrameLengthIff(b);
    assert s[..4] == Frame(a)[..4] == Frame(b)[..4];
    assert a == s[4..4 + |a|] && b == s[4..4 + |b|];
    assert x == s[4 + |a|..] && y == s[4 + |b|..];
  }

  /** Frames read off a stream of frames are its first frames, and the stream of the others is left. */
  lemma {:induction false} StreamPrefix(fs: seq<seq<Byte>>, gs: seq<seq<Byte>>, rest: seq<Byte>)
    requires (forall f <- fs :: Framable(f)) && (forall g <- gs :: Framable(g))
    requires Stream(fs) == Stream(gs) + rest
    ensures gs <= fs && rest == Stream(fs[|gs|..])
    decreases |gs|
  {
    if gs == [] {
      assert [] + rest == rest;
    } else {
      assert Stream(gs) + rest == Frame(gs[0]) + (Stream(gs[1..]) + rest);
      assert |Frame(gs[0])| > 0;
      assert fs != [];
      FirstFrame(fs[0], Stream(fs[1..]), gs[0], Stream(gs[1..]) + rest);
      StreamPrefix(fs[1..], gs[1..], rest);
      assert fs == [fs[0]] + fs[1..] && gs == [gs[0]] + gs[1..];
    }
  }

  lemma {:induction false} StreamAppend(fs: seq<seq<Byte>>, f: seq<Byte>)
    ensures Stream(fs + [f]) == Stream(fs) + Frame(f)
  {
    if fs == [] {
      assert fs + [f] == [f] && Stream([f]) == Frame(f) + Stream([]);
    } else {
      assert (fs + [f])[1..] == fs[1..] + [f];
      StreamAppend(fs[1..], f);
    }
  }

  lemma StreamBegins(fs: seq<seq<Byte>>)
    requires fs != [] && Framable(fs[0])
    ensures BeginsWithFrame(Stream(fs))
  {
    FrameLengthIff(fs[0]);
    assert Stream(fs)[..4] == Frame(fs[0])[..4];
  }

  /** The first `n` reservations succeed. */
  predicate Reserved(grants: seq<bool>, n: nat) {
    n <= |grants| && forall i | 0 <= i < n :: grants[i]
  }

  /**
    The daemon's main loop, reading frames until one read or reservation fails; `grants` says which
    reservations succeed. Whatever the socket does, what comes out is a prefix of the list of frames that
    went in; if it keeps delivering and memory suffices, it is the whole list.
   */
  method ReadFrames(incoming: seq<Byte>, schedule: seq<Io>, grants: seq<bool>, ghost sent: seq<seq<Byte>>)
    returns (frames: seq<seq<Byte>>)
    requires incoming == Stream(sent) && forall f <- sent :: Framable(f)
    ensures frames <= sent
    ensures Healthy(schedule) && Moves(schedule) >= |incoming| && Reserved(grants, |sent|) ==> frames == sent
  {
    frames := [];
    var left, later := incoming, schedule;
    assert Stream([]) == [];
    hide Frame, Stream, Moves, Healthy, BeginsWithFrame;
    while true
      invariant Stream(frames) + left == incoming
      invariant forall f <- frames :: Framable(f)
      invariant Healthy(schedule) ==> Healthy(later) && Moves(later) + |Stream(frames)| >= Moves(schedule)
      decreases |left|
    {
      var r, remaining, later' := ReadFrame(left, later, |frames| < |grants| && grants[|frames|]);
      if r.None? { break; }
      StreamAppend(frames, r.value);
      assert Stream(frames) + left == Stream(frames) + Frame(r.value) + remaining;
      frames, left, later := frames + [r.value], remaining, later';
    }
    StreamPrefix(sent, frames, left);
    if frames != sent {
      StreamBegins(sent[|frames|..]);
    }
  }
}
