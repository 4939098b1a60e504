/** The serialized JSON-RPC client of one annotation tool (compiler/annotationhost/client.go). */
module AnnotationClient {
  import opened Catalog

  /** Request numbers are unsigned 64-bit integers. */
  const MODULUS: nat := 0x1_0000_0000_0000_0000

  /** What the tool sends; anything that is no message is a framing failure. */
  datatype Reply = Garbage | Message(version: string, id: nat, error: Option<int>, result: string)

  /** What the surroundings do to one call. */
  datatype Turn = Turn(unencodable: bool, unwritable: bool, timedOut: bool, undecodable: bool)

  /** How a request that was numbered ended. */
  datatype Verdict =
    | Unwritten
    | TimedOut
    | Unreadable
    | Misidentified
    | RemoteError(code: int)
    | Undecodable
    | Answered(result: string)

  datatype CallResult = NoContext | ClientClosed | Unencodable | Ended(verdict: Verdict)

  predicate Fatal(v: Verdict) { !v.RemoteError? && !v.Answered? }

  predicate GotReply(v: Verdict) { !v.Unwritten? && !v.TimedOut? }

  /** The verdict on a reply to the request with this number. */
  function Judge(reply: Reply, id: nat, undecodable: bool): Verdict {
    if reply.Garbage? then Unreadable
    else if reply.version != "2.0" || reply.id != id then Misidentified
    else if reply.error.Some? then RemoteError(reply.error.value)
    else if undecodable then Undecodable
    else Answered(reply.result)
  }

  /** A version 2.0 message with the request's own number. */
  predicate IsReplyTo(reply: Reply, id: nat) { reply.Message? && reply.version == "2.0" && reply.id == id }

  /**
   * An error of the tool's own, in a reply to this very request, is the only answer besides success that leaves the
   * client usable: not an error under a foreign number or version, and whatever its result decodes to.
   */
  lemma VerdictsMean(reply: Reply, id: nat, undecodable: bool)
    ensures (exists code :: Judge(reply, id, undecodable) == RemoteError(code)) <==>
            IsReplyTo(reply, id) && reply.error.Some?
    ensures Judge(reply, id, undecodable).RemoteError? ==>
              reply.Message? && reply.error == Some(Judge(reply, id, undecodable).code)
    ensures Judge(reply, id, undecodable).Answered? <==> IsReplyTo(reply, id) && reply.error.None? && !undecodable
    ensures Judge(reply, id, undecodable).Answered? ==>
              reply.Message? && reply.result == Judge(reply, id, undecodable).result
    ensures Fatal(Judge(reply, id, undecodable)) <==>
            (IsReplyTo(reply, id) ==> reply.error.None? && undecodable)
  {
    if IsReplyTo(reply, id) && reply.error.Some? {
      assert Judge(reply, id, undecodable) == RemoteError(reply.error.value);
    }
  }

  datatype Exchange = Exchange(id: nat, verdict: Verdict)

  // ----- Histories -------------------------------------------------------------------------------

  /** Requests are numbered from one, modulo 2^64. */
  predicate Numbered(log: seq<Exchange>) { forall i :: 0 <= i < |log| ==> log[i].id == (i + 1) % MODULUS }

  /** The i-th request was judged on the i-th message of the tool, and on no other. */
  ghost predicate Matched(log: seq<Exchange>, output: nat -> Reply) {
    forall i :: 0 <= i < |log| && GotReply(log[i].verdict) ==> JudgedOn(log[i], output(i))
  }

  ghost predicate JudgedOn(e: Exchange, reply: Reply) {
    exists undecodable :: e.verdict == Judge(reply, e.id, undecodable)
  }

  /** Only the last request can have failed for good. */
  predicate FatalLast(log: seq<Exchange>) { forall i :: 0 <= i < |log| - 1 ==> !Fatal(log[i].verdict) }

  ghost predicate Sound(log: seq<Exchange>, output: nat -> Reply) {
    Numbered(log) && Matched(log, output) && FatalLast(log)
  }

  ghost predicate NoneFatal(log: seq<Exchange>) { forall i :: 0 <= i < |log| ==> !Fatal(log[i].verdict) }

  /** A sound history stays sound with one more request. */
  lemma LogGrows(log: seq<Exchange>, output: nat -> Reply, e: Exchange)
    requires Sound(log, output) && NoneFatal(log) && e.id == (|log| + 1) % MODULUS
    requires GotReply(e.verdict) ==> JudgedOn(e, output(|log|))
    ensures Sound(log + [e], output) && (!Fatal(e.verdict) ==> NoneFatal(log + [e]))
  {
  }

  /** Request numbers strictly increase exactly as long as fewer than 2^64 requests were made. */
  lemma NumbersIncreaseIff(log: seq<Exchange>)
    requires Numbered(log)
    ensures (forall i, j :: 0 <= i < j < |log| ==> log[i].id < log[j].id) <==> |log| < MODULUS
  {
    if |log| >= MODULUS {
      assert log[0].id == 1 && log[MODULUS - 1].id == 0;
    }
  }

  /** A successful call read a version 2.0 message with its own number and took its result from it. */
  lemma SuccessReadItsOwnReply(log: seq<Exchange>, output: nat -> Reply, i: nat)
    requires Matched(log, output) && i < |log| && log[i].verdict.Answered?
    ensures output(i) == Message("2.0", log[i].id, None, log[i].verdict.result)
  {
    assert JudgedOn(log[i], output(i));
  }

  // ----- The client ------------------------------------------------------------------------------

  /**
   * `pending` and `consumed` are the state of the tool's output pipe: readers started and never waited for, and
   * messages read by readers that finished. `log` records the requests sent.
   */
  class Client {
    const output: nat -> Reply
    var nextID: nat
    var closed: bool
    var running: bool
    var pending: nat
    var consumed: nat
    ghost var log: seq<Exchange>

    constructor (output: nat -> Reply)
      ensures Valid() && !closed && log == [] && this.output == output
    {
      this.output := output;
      nextID, closed, running := 0, false, true;
      pending, consumed, log := 0, 0, [];
    }

    ghost predicate Valid()
      reads this
    {
      && nextID == |log| % MODULUS && Sound(log, output)
      && (closed ==> !running)
      && (!closed ==> running && pending == 0 && consumed == |log| && NoneFatal(log))
    }

    /** Terminates and reaps the tool; nothing to do when closed. */
    method AbortLocked()
      modifies this`closed, this`running
      ensures closed && (old(closed) ==> running == old(running)) && (!old(closed) ==> !running)
    {
      if closed { return; }
      closed := true;
      running := false;
    }

    method Fail()
      modifies this`closed, this`running
      ensures closed && (old(closed) ==> running == old(running)) && (!old(closed) ==> !running)
    {
      AbortLocked();
    }

    /** Starts a reader and waits for it: it gets the message after those of all readers before it. */
    method Receive() returns (reply: Reply)
      modifies this`consumed
      ensures reply == output(old(consumed) + pending) && consumed == old(consumed) + 1
    {
      reply := output(consumed + pending);
      consumed := consumed + 1;
    }

    /** One request at a time. A failure of transport, framing, identity or decoding closes the client for good. */
    method Call(context: bool, t: Turn) returns (r: CallResult)
      requires Valid()
      modifies this
      ensures Valid() && old(log) <= log && (old(closed) ==> closed)
      ensures r == (if !context then NoContext
                    else if old(closed) then ClientClosed
                    else if t.unencodable then Unencodable
                    else Ended(if t.unwritable then Unwritten else if t.timedOut then TimedOut
                               else Judge(output(old(|log|)), (old(nextID) + 1) % MODULUS, t.undecodable)))
      ensures log == old(log) + (if r.Ended? then [Exchange((old(nextID) + 1) % MODULUS, r.verdict)] else [])
      ensures closed == (old(closed) || (r.Ended? && Fatal(r.verdict)))
      ensures r.Ended? && r.verdict.TimedOut? ==> pending == 1
    {
      hide Sound, NoneFatal, JudgedOn;
      if !context { return NoContext; }
      if closed { return ClientClosed; }
      if t.unencodable { return Unencodable; }
      nextID := (nextID + 1) % MODULUS;
      var id := nextID;
      NextNumber(|log|);
      if t.unwritable {
        Fail();
        r := Ended(Unwritten);
      } else if t.timedOut {
        pending := pending + 1;
        AbortLocked();
        r := Ended(TimedOut);
      } else {
        var reply := Receive();
        var verdict := Judge(reply, id, t.undecodable);
        JudgedNow(Exchange(id, verdict), output(|log|), t.undecodable);
        if Fatal(verdict) { Fail(); }
        r := Ended(verdict);
      }
      LogGrows(log, output, Exchange(id, r.verdict));
      log := log + [Exchange(id, r.verdict)];
    }

    /** Waits for the tool to exit after a shutdown; if the context ends first, aborts. */
    method Finish(exited: bool)
      requires Valid()
      modifies this
      ensures Valid() && closed && !running && log == old(log)
    {
      if closed { return; }
      if exited {
        closed := true;
        running := false;
      } else {
        AbortLocked();
      }
    }

    /**
     * Asks for shutdown. The tool is left running in two cases only: without a context, and when it answers the
     * shutdown request, written and replied to in time, with an error of its own.
     */
    method Close(context: bool, t: Turn, exited: bool) returns (r: Option<CallResult>)
      requires Valid() && !t.unencodable
      modifies this
      ensures Valid() && old(log) <= log && (old(closed) ==> closed && log == old(log))
      ensures running <==> old(running)
                           && (!context || (!t.unwritable && !t.timedOut
                               && Judge(output(old(|log|)), (old(nextID) + 1) % MODULUS, t.undecodable).RemoteError?))
      ensures context && old(running) && !t.unwritable && !t.timedOut ==>
                r == Some(Ended(Judge(output(old(|log|)), (old(nextID) + 1) % MODULUS, t.undecodable)))
    {
      if !context { return Some(NoContext); }
      if closed { return None; }
      var answer := Call(true, t);
      r := Some(answer);
      if answer.Ended? && answer.verdict.Answered? { Finish(exited); }
    }

    /** The handshake: two calls, each with a check of what it returned. Any failure leaves the client closed. */
    method Start(initialize: Turn, describe: Turn, identified: bool, described: bool) returns (ok: bool)
      requires Valid() && !closed
      modifies this
      ensures Valid() && old(log) <= log && (ok <==> !closed)
      ensures ok ==>
                identified && described && |log| == |old(log)| + 2 && log[|log|-2].verdict.Answered?
                && log[|log|-1].verdict.Answered?
    {
      ok := false;
      var first := Call(true, initialize);
      if first.Ended? && first.verdict.Answered? && identified {
        var second := Call(true, describe);
        ok := second.Ended? && second.verdict.Answered? && described;
      }
      if !ok { AbortLocked(); }
    }
  }

  lemma JudgedNow(e: Exchange, reply: Reply, undecodable: bool)
    requires e.verdict == Judge(reply, e.id, undecodable)
    ensures JudgedOn(e, reply)
  {
  }

  lemma NextNumber(n: nat)
    ensures (n % MODULUS + 1) % MODULUS == (n + 1) % MODULUS
  {
  }

  /** A tool that refuses to shut down outlives Close. */
  method RefusedShutdown() returns (client: Client, r: Option<CallResult>)
    ensures client.running && !client.closed && r == Some(Ended(RemoteError(-32601)))
  {
    client := new Client(n => Message("2.0", 1, Some(-32601), ""));
    r := client.Close(true, Turn(false, false, false, false), true);
  }
}
