/** The debugging pipe: messages ended by NUL, written in pieces and read in pieces. */
module PipeFraming {
  import opened Text

  const NUL: char := '\0'

  /** A DWORD counts modulo 2^32. */
  const DWORD: nat := 0x1_0000_0000

  // ---------------------------------------------------------------------------------------------
  // The stream as a whole
  // ---------------------------------------------------------------------------------------------

  /** The records that are complete, and the unfinished rest. */
  function Complete(s: string): seq<string> {
    var parts := Split(s, NUL);
    parts[..|parts| - 1]
  }

  function Unfinished(s: string): string {
    var parts := Split(s, NUL);
    parts[|parts| - 1]
  }

  function NonEmpty(parts: seq<string>): seq<string> {
    if parts == [] then []
    else if parts[0] == "" then NonEmpty(parts[1..])
    else [parts[0]] + NonEmpty(parts[1..])
  }

  function Concat(chunks: seq<string>): string {
    if chunks == [] then "" else chunks[0] + Concat(chunks[1..])
  }

  lemma CutOnce(s: string)
    ensures var p := Find(s, NUL, 0);
            if p == |s| then Complete(s) == [] && Unfinished(s) == s
            else Complete(s) == [s[..p]] + Complete(s[p + 1..]) && Unfinished(s) == Unfinished(s[p + 1..])
  {
    hide Find, Split;
    SplitOnce(s, NUL);
    var p := Find(s, NUL, 0);
    if p < |s| { InitAndLast(s[..p], Split(s[p + 1..], NUL)); }
  }

  lemma InitAndLast(x: string, rest: seq<string>)
    requires rest != []
    ensures var all := [x] + rest;
            all[..|all| - 1] == [x] + rest[..|rest| - 1] && all[|all| - 1] == rest[|rest| - 1]
  {
  }

  lemma FindAcross(a: string, b: string)
    requires Find(a, NUL, 0) < |a|
    ensures var p := Find(a, NUL, 0);
            Find(a + b, NUL, 0) == p && (a + b)[..p] == a[..p] && (a + b)[p + 1..] == a[p + 1..] + b
  {
    FindIs(a + b, NUL, 0, Find(a, NUL, 0));
  }

  /** Bytes that follow are cut together with what was unfinished. */
  lemma {:induction false} SplitResumes(a: string, b: string)
    ensures Split(a + b, NUL) == Complete(a) + Split(Unfinished(a) + b, NUL)
    decreases |a|
  {
    hide Complete, Unfinished, Find;
    var p := Find(a, NUL, 0);
    CutOnce(a);
    if p < |a| {
      SplitResumes(a[p + 1..], b);
      FindAcross(a, b);
    }
  }

  lemma Resumes(a: string, b: string)
    ensures Complete(a + b) == Complete(a) + Complete(Unfinished(a) + b)
    ensures Unfinished(a + b) == Unfinished(Unfinished(a) + b)
  {
    SplitResumes(a, b);
  }

  lemma {:induction false} NonEmptyAppends(s: seq<string>, t: seq<string>)
    ensures NonEmpty(s + t) == NonEmpty(s) + NonEmpty(t)
  {
    if s == [] {
      assert s + t == t;
    } else {
      assert (s + t)[1..] == s[1..] + t;
      NonEmptyAppends(s[1..], t);
    }
  }

  lemma NonEmptyNothing()
    ensures NonEmpty([]) == []
  {
  }

  lemma NonEmptyCons(m: string, rest: seq<string>)
    ensures NonEmpty([m] + rest) == (if m == "" then [] else [m]) + NonEmpty(rest)
  {
  }

  lemma {:induction false} ConcatAppends(chunks: seq<string>, c: string)
    ensures Concat(chunks + [c]) == Concat(chunks) + c
  {
    if chunks == [] {
      assert Concat([c]) == c + Concat([]) == c;
    } else {
      assert (chunks + [c])[1..] == chunks[1..] + [c];
      ConcatAppends(chunks[1..], c);
    }
  }

  // ---------------------------------------------------------------------------------------------
  // Reading
  // ---------------------------------------------------------------------------------------------

  /** What one `ReadFile` call gives. */
  datatype Read = Chunk(data: string) | Failure

  /** The chunks before the first failure. */
  function Received(calls: seq<Read>): seq<string> {
    if calls == [] || calls[0].Failure? then [] else [calls[0].data] + Received(calls[1..])
  }

  class PipeReader {
    var buffer: string
    var delivered: seq<string>

    /** Everything complete in the stream so far was handed over, the rest is kept. */
    ghost predicate Holds(stream: string)
      reads this
    {
      delivered == NonEmpty(Complete(stream)) && buffer == Unfinished(stream)
    }

    constructor ()
      ensures Holds("")
    {
      buffer, delivered := "", [];
    }

    method Extract()
      modifies this
      ensures delivered == old(delivered) + NonEmpty(Complete(old(buffer))) && buffer == Unfinished(old(buffer))
    {
      hide NonEmpty, Complete, Unfinished, Find;
      ghost var all := buffer;
      var pos := FindLoop(buffer, NUL, 0);
      while pos < |buffer|
        invariant pos == Find(buffer, NUL, 0) && Unfinished(buffer) == Unfinished(all)
        invariant delivered + NonEmpty(Complete(buffer)) == old(delivered) + NonEmpty(Complete(all))
        decreases |buffer|
      {
        CutOnce(buffer);
        var message := buffer[..pos];
        NonEmptyCons(message, Complete(buffer[pos + 1..]));
        buffer := buffer[pos + 1..];
        if message != "" {
          delivered := delivered + [message];
        }
        pos := FindLoop(buffer, NUL, 0);
      }
      CutOnce(buffer);
      NonEmptyNothing();
    }

    /** Appending one chunk and extracting. */
    method Feed(chunk: string, ghost stream: string)
      requires Holds(stream)
      modifies this
      ensures Holds(stream + chunk)
    {
      hide Complete, Unfinished, NonEmpty;
      Resumes(stream, chunk);
      NonEmptyAppends(Complete(stream), Complete(Unfinished(stream) + chunk));
      buffer := buffer + chunk;
      Extract();
    }

    method ReadLoop(calls: seq<Read>, ghost before: string)
      requires Holds(before)
      modifies this
      ensures Holds(before + Concat(Received(calls)))
    {
      hide Holds;
      var i := 0;
      ghost var got: seq<string> := [];
      assert before + "" == before;
      while i < |calls|
        invariant 0 <= i <= |calls| && got + Received(calls[i..]) == Received(calls)
        invariant Holds(before + Concat(got))
      {
        if calls[i].Failure? { break; }
        var chunk := calls[i].data;
        ghost var stream := before + Concat(got);
        assert Received(calls[i..]) == [chunk] + Received(calls[i + 1..]);
        ConcatAppends(got, chunk);
        got := got + [chunk];
        assert stream + chunk == before + Concat(got);
        i := i + 1;
        if chunk == "" {
          assert stream + chunk == stream;
          continue;
        }
        Feed(chunk, stream);
      }
      assert got == Received(calls);
    }
  }

  // ---------------------------------------------------------------------------------------------
  // Writing
  // ---------------------------------------------------------------------------------------------

  /** What one `WriteFile` call does: it fails, or takes some of what remains. */
  datatype Write = Taken(n: nat) | Refused

  datatype Sent = Whole | Broken | Blocked

  /**
   The loop of `pipe_send` over the results of the calls it makes; Blocked when they end before it does.
   The byte count is a DWORD.
   */
  method PipeSend(payload: string, writes: seq<Write>) returns (outcome: Sent, wire: string)
    ensures wire <= payload + [NUL]
    ensures outcome.Whole? <==> wire == (payload + [NUL])[..(|payload| + 1) % DWORD]
    ensures outcome.Broken? ==> Refused in writes
  {
    var msg := payload + [NUL];
    var end := |msg| % DWORD;
    var remaining := end;
    wire := "";
    var k := 0;
    while remaining > 0 && k < |writes|
      invariant 0 <= remaining <= end && 0 <= k <= |writes|
      invariant wire == msg[..end - remaining]
      decreases |writes| - k
    {
      var w := writes[k];
      k := k + 1;
      if w.Refused? { return Broken, wire; }
      var written := if w.n < remaining then w.n else remaining;
      assert msg[..end - remaining] + msg[end - remaining..end - remaining + written] ==
          msg[..end - (remaining - written)];
      wire := wire + msg[end - remaining..end - remaining + written];
      remaining := remaining - written;
    }
    outcome := if remaining == 0 then Whole else Blocked;
  }

  /** Whole messages one after the other. */
  function Wire(messages: seq<string>): string {
    if messages == [] then "" else messages[0] + [NUL] + Wire(messages[1..])
  }

  lemma {:induction false} WireJoins(messages: seq<string>)
    ensures Wire(messages) == Join(messages + [""], NUL)
  {
    if messages != [] {
      WireJoins(messages[1..]);
      assert (messages + [""])[1..] == messages[1..] + [""];
    }
  }

  /** The records read are the messages written exactly when no message holds a NUL. */
  lemma WireRoundTripIff(messages: seq<string>)
    ensures Complete(Wire(messages)) == messages <==> FreeOf(messages, NUL)
    ensures FreeOf(messages, NUL) ==> Unfinished(Wire(messages)) == ""
  {
    WireJoins(messages);
    if FreeOf(messages, NUL) {
      JoinSplits(messages + [""], NUL);
      assert (messages + [""])[..|messages|] == messages;
    }
    SplitJoins(Wire(messages), NUL);
  }

  /**
   Messages without NUL, written whole and read in any pieces: exactly the non-empty ones are delivered,
   in order, and nothing is left over.
   */
  lemma DeliveredAsSent(messages: seq<string>, calls: seq<Read>)
    requires FreeOf(messages, NUL) && Concat(Received(calls)) == Wire(messages)
    ensures NonEmpty(Complete(Concat(Received(calls)))) == NonEmpty(messages)
    ensures Unfinished(Concat(Received(calls))) == ""
  {
    WireRoundTripIff(messages);
  }
}
