/** Length-prefixed frames over a socket that transfers any number of bytes per call. */
module FrameProtocol {
  import opened Bytes
  import opened Options

  const MAX_MESSAGE_SIZE: nat := 4 * 1024 * 1024

  // ---------------------------------------------------------------------------------------------
  // The stream as a whole
  // ---------------------------------------------------------------------------------------------

  predicate Acceptable(len: nat) {
    0 < len <= MAX_MESSAGE_SIZE
  }

  function Frame(payload: seq<byte>): (s: seq<byte>)
    ensures |s| == 4 + |payload|
  {
    Le32(|payload|) + payload
  }

  function Frames(payloads: seq<seq<byte>>): seq<byte> {
    if payloads == [] then [] else Frame(payloads[0]) + Frames(payloads[1..])
  }

  /** The payload of the first frame, nothing when it is refused or incomplete. */
  function First(s: seq<byte>): (r: Option<seq<byte>>)
    ensures r.Some? ==> Acceptable(|r.value|) && 4 + |r.value| <= |s|
  {
    if |s| < 4 then None
    else
      var len := FromLe32(s[..4]);
      if !Acceptable(len) || |s| < 4 + len then None else Some(s[4..4 + len])
  }

  /** What a reader gets out of a stream before it stops. */
  function Payloads(s: seq<byte>): seq<seq<byte>>
    decreases |s|
  {
    if First(s).None? then [] else [First(s).value] + Payloads(s[4 + |First(s).value|..])
  }

  lemma PayloadsOnce(s: seq<byte>)
    ensures Payloads(s) == if First(s).None? then [] else [First(s).value] + Payloads(s[4 + |First(s).value|..])
  {
    hide First;
  }

  ghost predicate AllAcceptable(payloads: seq<seq<byte>>) {
    forall i | 0 <= i < |payloads| :: Acceptable(|payloads[i]|)
  }

  lemma FirstOfFrame(p: seq<byte>, rest: seq<byte>)
    ensures Acceptable(|p|) ==> First(Frame(p) + rest) == Some(p)
    ensures !Acceptable(|p|) ==> First(Frame(p) + rest) != Some(p)
  {
    hide Le32, FromLe32;
    var s := Frame(p) + rest;
    assert s[..4] == Le32(|p|) && s[4..] == p + rest;
    Le32RoundTrip(|p|);
    if Acceptable(|p|) {
      assert s[4..4 + |p|] == p;
    }
  }

  /** A reader gets back exactly what was written when every payload is of one to 4 MiB bytes, and only then. */
  lemma {:induction false} FramesRoundTripIff(payloads: seq<seq<byte>>)
    ensures Payloads(Frames(payloads)) == payloads <==> AllAcceptable(payloads)
    ensures AllAcceptable(payloads) <==> forall i | 0 <= i < |payloads| :: 0 < |payloads[i]| <= 0x40_0000
  {
    hide First, Frame;
    if payloads != [] {
      var (p, rest) := (payloads[0], payloads[1..]);
      FirstOfFrame(p, Frames(rest));
      if Acceptable(|p|) {
        FramesRoundTripIff(rest);
        assert (Frame(p) + Frames(rest))[4 + |p|..] == Frames(rest);
        assert payloads == [p] + rest;
        assert AllAcceptable(payloads) <==> AllAcceptable(rest) by {
          if AllAcceptable(payloads) {
            forall i | 0 <= i < |rest| ensures Acceptable(|rest[i]|) { assert rest[i] == payloads[i + 1]; }
          }
        }
      } else {
        FirstOfPayloads(Frames(payloads), payloads);
      }
    }
  }

  lemma FirstOfPayloads(s: seq<byte>, payloads: seq<seq<byte>>)
    requires payloads != [] && First(s) != Some(payloads[0])
    ensures Payloads(s) != payloads
  {
    if Payloads(s) != [] {
      assert Payloads(s)[0] == First(s).value;
    }
  }

  lemma CutFrameIsRefused(p: seq<byte>, n: nat)
    requires Acceptable(|p|) && n < |Frame(p)|
    ensures First(Frame(p)[..n]) == None
  {
    if n >= 4 {
      assert Frame(p)[..n][..4] == Le32(|p|);
      Le32RoundTrip(|p|);
    }
  }

  /** Frames before a cut are read whatever the cut-off frame holds. */
  lemma {:induction false} CutStreamKeepsWhole(payloads: seq<seq<byte>>, p: seq<byte>, n: nat)
    requires AllAcceptable(payloads) && Acceptable(|p|) && n < |Frame(p)|
    ensures Payloads(Frames(payloads) + Frame(p)[..n]) == payloads
  {
    hide Frame, First;
    var tail := Frame(p)[..n];
    if payloads == [] {
      assert Frames(payloads) + tail == tail;
      CutFrameIsRefused(p, n);
    } else {
      var (q, rest) := (payloads[0], payloads[1..]);
      assert Frames(payloads) + tail == Frame(q) + (Frames(rest) + tail);
      FirstOfFrame(q, Frames(rest) + tail);
      CutStreamKeepsWhole(rest, p, n);
      assert (Frame(q) + (Frames(rest) + tail))[4 + |q|..] == Frames(rest) + tail;
    }
  }

  /** What the server sends for one request; after an answer to a request that makes no sense it hangs up. */
  datatype Reply = Reply(payload: seq<byte>, last: bool)

  /** The replies to requests, the first of which has number `i`. */
  function Replies(requests: seq<seq<byte>>, i: nat, react: (nat, seq<byte>) -> Reply): (r: seq<seq<byte>>)
    ensures |r| <= |requests|
  {
    if requests == [] then []
    else
      var reply := react(i, requests[0]);
      [reply.payload] + if reply.last then [] else Replies(requests[1..], i + 1, react)
  }

  /** What a connection has sent when it has replied to the requests that are left, from number `i` on. */
  function Owes(out: seq<byte>, requests: seq<seq<byte>>, i: nat, react: (nat, seq<byte>) -> Reply): seq<byte> {
    out + Frames(Replies(requests, i, react))
  }

  lemma NothingOwed(out: seq<byte>, i: nat, react: (nat, seq<byte>) -> Reply)
    ensures Owes(out, [], i, react) == out && Replies([], i, react) == []
  {
    assert Frames([]) == [];
  }

  lemma RepliesOnce(p: seq<byte>, rest: seq<seq<byte>>, i: nat, react: (nat, seq<byte>) -> Reply)
    ensures Replies([p] + rest, i, react) ==
            [react(i, p).payload] + if react(i, p).last then [] else Replies(rest, i + 1, react)
  {
    assert ([p] + rest)[1..] == rest;
  }

  lemma FramesOnce(p: seq<byte>, more: seq<seq<byte>>, out: seq<byte>)
    ensures out + Frames([p] + more) == (out + Frame(p)) + Frames(more)
  {
    hide Frame;
    assert ([p] + more)[1..] == more && Frames([p] + more) == Frame(p) + Frames(more);
  }

  lemma OwesOnce(out: seq<byte>, p: seq<byte>, rest: seq<seq<byte>>, i: nat, react: (nat, seq<byte>) -> Reply)
    ensures var (r, sent) := (react(i, p), out + Frame(react(i, p).payload));
            && sent <= Owes(out, [p] + rest, i, react)
            && Owes(out, [p] + rest, i, react) == (if r.last then sent else Owes(sent, rest, i + 1, react))
            && |Replies([p] + rest, i, react)| == 1 + if r.last then 0 else |Replies(rest, i + 1, react)|
  {
    hide Frame, Frames, Replies;
    var r := react(i, p);
    RepliesOnce(p, rest, i, react);
    FramesOnce(r.payload, if r.last then [] else Replies(rest, i + 1, react), out);
    NothingOwed(out, i, react);
    if r.last { NothingOwed(out + Frame(r.payload), i, react); }
  }

  /** Served are the first of the requests, and sent is a beginning of the replies. */
  predicate Within(was: seq<byte>, requests: seq<seq<byte>>, served: seq<seq<byte>>, out: seq<byte>,
                   react: (nat, seq<byte>) -> Reply) {
    served <= requests && was <= out <= was + Frames(Replies(requests, 0, react))
  }

  /** All replies are sent, to as many requests as get one. */
  predicate Finished(was: seq<byte>, requests: seq<seq<byte>>, served: seq<seq<byte>>, out: seq<byte>,
                     react: (nat, seq<byte>) -> Reply) {
    var replies := Replies(requests, 0, react);
    out == was + Frames(replies) && served == requests[..|replies|]
  }

  /** Between two requests: `rest` are still to come. */
  predicate Progress(was: seq<byte>, requests: seq<seq<byte>>, served: seq<seq<byte>>, out: seq<byte>,
                     rest: seq<seq<byte>>, react: (nat, seq<byte>) -> Reply) {
    && served + rest == requests && was <= out
    && Owes(out, rest, |served|, react) == Owes(was, requests, 0, react)
    && |served| + |Replies(rest, |served|, react)| == |Replies(requests, 0, react)|
  }

  lemma ProgressStarts(was: seq<byte>, requests: seq<seq<byte>>, react: (nat, seq<byte>) -> Reply)
    ensures Progress(was, requests, [], was, requests, react) && Within(was, requests, [], was, react)
  {
  }

  lemma ProgressStops(was: seq<byte>, requests: seq<seq<byte>>, served: seq<seq<byte>>, out: seq<byte>,
                      react: (nat, seq<byte>) -> Reply)
    requires Progress(was, requests, served, out, [], react)
    ensures Finished(was, requests, served, out, react)
  {
    hide Frames, Replies;
    NothingOwed(out, |served|, react);
    assert served + [] == served;
  }

  lemma ProgressStep(was: seq<byte>, requests: seq<seq<byte>>, served: seq<seq<byte>>, out: seq<byte>, p: seq<byte>,
                     rest: seq<seq<byte>>, react: (nat, seq<byte>) -> Reply, sent: seq<byte>)
    requires Progress(was, requests, served, out, [p] + rest, react)
    requires out <= sent <= out + Frame(react(|served|, p).payload)
    ensures Within(was, requests, served + [p], sent, react)
    ensures var r := react(|served|, p);
            sent == out + Frame(r.payload) ==>
              if r.last then Finished(was, requests, served + [p], sent, react)
              else Progress(was, requests, served + [p], sent, rest, react)
  {
    hide Frames, Replies, Frame;
    OwesOnce(out, p, rest, |served|, react);
    assert served + ([p] + rest) == (served + [p]) + rest;
  }

  // ---------------------------------------------------------------------------------------------
  // The socket
  // ---------------------------------------------------------------------------------------------

  class Socket {
    /** All that the peer will ever send, how much of it was read, and what was sent to the peer. */
    const incoming: seq<byte>
    var pos: nat
    var outgoing: seq<byte>

    /** How many bytes the call with a given number transfers at most; zero or less makes it fail. */
    const limit: nat -> int
    var calls: nat

    constructor (peer: seq<byte>, transfers: nat -> int)
      ensures incoming == peer && limit == transfers && pos == 0 && outgoing == [] && calls == 0
    {
      incoming, limit, pos, outgoing, calls := peer, transfers, 0, [], 0;
    }

    ghost predicate Valid()
      reads this
    {
      pos <= |incoming|
    }

    /** Every call transfers at least one byte, while there are any. */
    ghost predicate Reliable() {
      forall k: nat :: limit(k) > 0
    }

    function Rest(): seq<byte>
      requires Valid()
      reads this
    {
      incoming[pos..]
    }

    method Recv(n: nat) returns (r: int, data: seq<byte>)
      requires Valid() && n > 0
      modifies this`pos, this`calls
      ensures Valid() && r <= n && pos == old(pos) + |data|
      ensures r > 0 ==> |data| == r && data == incoming[old(pos)..pos]
      ensures r <= 0 ==> data == [] && (Reliable() ==> old(pos) == |incoming|)
    {
      var m := limit(calls);
      calls := calls + 1;
      if m <= 0 { return -1, []; }
      r := if m < n then m else n;
      if |incoming| - pos < r { r := |incoming| - pos; }
      data := incoming[pos..pos + r];
      pos := pos + r;
    }

    method Send(data: seq<byte>) returns (s: int)
      requires data != []
      modifies this`outgoing, this`calls
      ensures s <= |data|
      ensures s > 0 ==> outgoing == old(outgoing) + data[..s]
      ensures s <= 0 ==> !Reliable() && outgoing == old(outgoing)
    {
      var m := limit(calls);
      calls := calls + 1;
      if m <= 0 { return -1; }
      s := if m < |data| then m else |data|;
      outgoing := outgoing + data[..s];
    }

    /** The loop of `recv_all`: a reliable socket gives `n` bytes exactly when so many are left. */
    method RecvAll(n: nat) returns (ok: bool, buf: seq<byte>)
      requires Valid()
      modifies this`pos, this`calls
      ensures Valid() && old(pos) <= pos
      ensures ok ==> pos == old(pos) + n && buf == incoming[old(pos)..pos]
      ensures Reliable() ==> (ok <==> n <= |incoming| - old(pos))
    {
      buf := [];
      var total := 0;
      while total < n
        invariant 0 <= total <= n && Valid() && pos == old(pos) + total
        invariant buf == incoming[old(pos)..pos]
      {
        var r, data := Recv(n - total);
        if r <= 0 { return false, buf; }
        buf := buf + data;
        total := total + r;
      }
      ok := true;
    }

    /** The loop of `send_all`: what goes out is always a prefix, and all of it on a reliable socket. */
    method SendAll(data: seq<byte>) returns (ok: bool)
      modifies this`outgoing, this`calls
      ensures old(outgoing) <= outgoing <= old(outgoing) + data
      ensures ok ==> outgoing == old(outgoing) + data
      ensures Reliable() ==> ok
    {
      var total := 0;
      assert data[..0] == [];
      while total < |data|
        invariant 0 <= total <= |data| && outgoing == old(outgoing) + data[..total]
      {
        var s := Send(data[total..]);
        if s <= 0 { return false; }
        assert data[..total] + data[total..][..s] == data[..total + s];
        total := total + s;
      }
      assert data[..total] == data;
      ok := true;
    }

    method ReadFrame() returns (r: Option<seq<byte>>)
      requires Valid()
      modifies this`pos, this`calls
      ensures Valid() && old(pos) <= pos
      ensures r.Some? ==> r == old(First(Rest())) && Rest() == old(Rest())[4 + |r.value|..]
      ensures Reliable() ==> r == old(First(Rest()))
    {
      ghost var rest := Rest();
      var got, head := RecvAll(4);
      if !got { return None; }
      assert head == rest[..4];
      var len := FromLe32(head);
      if len == 0 || len > MAX_MESSAGE_SIZE { return None; }
      var ok, out := RecvAll(len);
      if !ok { return None; }
      assert out == rest[4..4 + len];
      r := Some(out);
    }

    method WriteFrame(payload: seq<byte>) returns (ok: bool)
      modifies this`outgoing, this`calls
      ensures old(outgoing) <= outgoing <= old(outgoing) + Frame(payload)
      ensures ok ==> outgoing == old(outgoing) + Frame(payload)
      ensures Reliable() ==> ok
    {
      var head := SendAll(Le32(|payload|));
      assert old(outgoing) + Le32(|payload|) + payload == old(outgoing) + Frame(payload);
      if !head { return false; }
      ok := SendAll(payload);
    }

    /** One round of the connection's loop, for request number `i`; says whether there is another round. */
    method ServeOne(react: (nat, seq<byte>) -> Reply, i: nat) returns (request: Option<seq<byte>>, goesOn: bool)
      requires Valid()
      modifies this`pos, this`calls, this`outgoing
      ensures Valid()
      ensures request.None? ==> !goesOn && outgoing == old(outgoing) && (Reliable() ==> old(Payloads(Rest())) == [])
      ensures request.Some? ==> old(Payloads(Rest())) == [request.value] + Payloads(Rest()) && |Rest()| < |old(Rest())|
      ensures request.Some? ==>
                var (r, was) := (react(i, request.value), old(outgoing));
                && was <= outgoing <= was + Frame(r.payload)
                && (goesOn || Reliable() ==> outgoing == was + Frame(r.payload))
                && (goesOn ==> !r.last) && (Reliable() ==> goesOn == !r.last)
    {
      hide First, Payloads, Frame;
      PayloadsOnce(Rest());
      request := ReadFrame();
      goesOn := false;
      if request.Some? {
        var reply := react(i, request.value);
        var ok := WriteFrame(reply.payload);
        goesOn := ok && !reply.last;
      }
    }

    /**
     The connection's loop: every request is answered in turn, until none can be read, one makes no sense, an
     answer cannot be written, or the server stops.
     */
    method Serve(react: (nat, seq<byte>) -> Reply, running: nat -> bool) returns (served: seq<seq<byte>>)
      requires Valid()
      modifies this`pos, this`calls, this`outgoing
      ensures Valid() && Within(old(outgoing), old(Payloads(Rest())), served, outgoing, react)
      ensures Reliable() && (forall k: nat :: running(k)) ==>
                Finished(old(outgoing), old(Payloads(Rest())), served, outgoing, react)
    {
      hide First, Payloads, Replies, Frame, Owes, Rest, Progress, Within, Finished;
      served := [];
      ghost var (was, requests) := (outgoing, Payloads(Rest()));
      ProgressStarts(was, requests, react);
      while running(|served|)
        invariant Valid() && Progress(was, requests, served, outgoing, Payloads(Rest()), react)
        invariant Within(was, requests, served, outgoing, react)
        decreases |Rest()|
      {
        ghost var (out, done, left) := (outgoing, served, Payloads(Rest()));
        var request, goesOn := ServeOne(react, |served|);
        if request.None? {
          if left == [] { ProgressStops(was, requests, served, outgoing, react); }
          break;
        }
        served := served + [request.value];
        ProgressStep(was, requests, done, out, request.value, Payloads(Rest()), react, outgoing);
        if !goesOn { break; }
      }
    }
  }
}
