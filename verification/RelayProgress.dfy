/**
 What the relay gets done: whatever state a stream is in, every message the client has sent reaches the
 destination once the writes ahead of it settle, and every chunk read reaches the client.
 */
module RelayProgress {
  import opened Text
  import opened Vless
  import opened Relay

  function Stepper(c: Config): (Stream, Event) -> Stream
  {
    (s: Stream, e: Event) => Step(c, s, e)
  }

  function From(c: Config, s: Stream, es: seq<Event>): Stream
  {
    Fold(Stepper(c), s, es)
  }

  lemma {:induction false} RunIsFrom(c: Config, es: seq<Event>)
    ensures Run(c, es) == From(c, START, es)
  {
    if es != [] {
      RunIsFrom(c, Init(es));
    }
  }

  lemma RunAppend(c: Config, es: seq<Event>, more: seq<Event>)
    ensures Run(c, es + more) == From(c, Run(c, es), more)
  {
    RunIsFrom(c, es);
    RunIsFrom(c, es + more);
    FoldAppend(Stepper(c), START, es, more);
  }

  lemma FromNext(c: Config, s: Stream, es: seq<Event>, e: Event)
    ensures From(c, s, es + [e]) == Stepper(c)(From(c, s, es), e)
  {
    FoldNext(Stepper(c), s, es, e);
  }

  // ---------------------------------------------------------------- messages to the destination

  /** The write in hand settles and the queue takes its next item, `n` times over. */
  function Drains(n: nat): seq<Event>
  {
    if n == 0 then [] else Drains(n - 1) + [WriteSettles(true)] + [Turn(true)]
  }

  /** A stream that is open and not waiting for its opening write. */
  predicate Flowing(s: Stream)
  {
    s.sockets != [] && !s.busy.Opening?
  }

  /** What passing messages on leaves as it is. */
  predicate SameStream(s: Stream, t: Stream)
  {
    && t.arrived == s.arrived && t.refused == s.refused && t.request == s.request && t.switched == s.switched
    && |t.sockets| == |s.sockets| && t.closed == s.closed && t.out == s.out && t.serve == s.serve
  }

  /** The write in hand ends and the next item leaves the queue; it closes the destination if it is a close. */
  lemma TakesNext(c: Config, s: Stream)
    requires Flowing(s) && s.queue != []
    ensures var t := Step(c, Step(c, s, WriteSettles(true)), Turn(true));
      && t.queue == s.queue[1..] && SameStream(s, t) && Flowing(t)
      && (Last(t.sockets).broken <==> Last(s.sockets).broken || s.queue[0] == Close)
  {
  }

  predicate Drained(s: Stream, t: Stream, n: nat)
    requires s.sockets != [] && n <= |s.queue|
  {
    && Flowing(t) && t.queue == s.queue[n..] && SameStream(s, t)
    && (Last(t.sockets).broken <==> Last(s.sockets).broken || Close in s.queue[..n])
  }

  lemma QueueNext(queue: seq<Item>, n: nat)
    requires n < |queue|
    ensures queue[n..] != [] && queue[n..][0] == queue[n] && queue[n..][1..] == queue[n + 1..]
    ensures Close in queue[..n + 1] <==> Close in queue[..n] || queue[n] == Close
  {
    assert queue[..n + 1] == queue[..n] + [queue[n]];
  }

  lemma DrainsNext(c: Config, s: Stream, t: Stream, n: nat, u: Stream)
    requires s.sockets != [] && n < |s.queue| && Drained(s, t, n)
    requires u == Stepper(c)(Stepper(c)(t, WriteSettles(true)), Turn(true))
    ensures Drained(s, u, n + 1)
  {
    QueueNext(s.queue, n);
    TakesNext(c, t);
  }

  lemma DrainedNone(s: Stream)
    requires Flowing(s)
    ensures Drained(s, s, 0)
  {
    assert s.queue[0..] == s.queue && s.queue[..0] == [];
  }

  lemma DrainsOnce(c: Config, s: Stream, n: nat)
    ensures From(c, s, Drains(n + 1)) == Stepper(c)(Stepper(c)(From(c, s, Drains(n)), WriteSettles(true)), Turn(true))
  {
    FromNext(c, s, Drains(n), WriteSettles(true));
    FromNext(c, s, Drains(n) + [WriteSettles(true)], Turn(true));
  }

  lemma {:induction false} DrainsSome(c: Config, s: Stream, n: nat)
    requires Flowing(s) && n <= |s.queue|
    ensures Drained(s, From(c, s, Drains(n)), n)
  {
    if n == 0 {
      DrainedNone(s);
    } else {
      DrainsSome(c, s, n - 1);
      DrainsOnce(c, s, n - 1);
      DrainsNext(c, s, From(c, s, Drains(n - 1)), n - 1, From(c, s, Drains(n)));
    }
  }

  lemma OpeningEnds(c: Config, s: Stream)
    requires s.sockets != []
    ensures var t := Step(c, s, PayloadSettles);
      && Flowing(t) && t.queue == s.queue && t.sockets == s.sockets
      && t.arrived == s.arrived && t.refused == s.refused && t.request == s.request && t.switched == s.switched
  {
  }

  /** What the destination has been sent, once everything is. */
  lemma SentAll(c: Config, t: Stream)
    requires Sound(c, t) && t.sockets != [] && t.queue == []
    ensures t.request.Some? && t.refused < |t.arrived| && t.handled == t.arrived[t.refused + 1..]
    ensures t.switched <= |t.handled|
    ensures !Last(t.sockets).broken ==>
      Last(t.sockets).sent
      == (if t.request.value.payload == [] then [] else [t.request.value.payload]) + t.handled[t.switched..]
  {
    assert t.handled + [] == t.handled;
    assert |t.sockets| == 1 ==> t.handled[0..] == t.handled;
  }

  /**
   From every state in which a stream is open: once the writes ahead settle, every message that arrived after the one
   that opened the stream has been handled, and the last destination, unless it was broken or the client closed, has
   been sent the header's payload and all that came since it became the destination.
   */
  lemma EverythingIsPassedOn(c: Config, es: seq<Event>)
    requires Run(c, es).sockets != []
    ensures var s, t := Run(c, es), Run(c, es + ([PayloadSettles] + Drains(|Run(c, es).queue|)));
      && t.queue == [] && t.arrived == s.arrived && t.refused == s.refused < |t.arrived|
      && t.handled == t.arrived[t.refused + 1..]
      && |t.sockets| == |s.sockets| && t.switched == s.switched <= |t.handled|
      && t.request == s.request && t.request.Some?
      && (Last(t.sockets).broken <==> Last(s.sockets).broken || Close in s.queue)
      && (!Last(t.sockets).broken ==>
            Last(t.sockets).sent
            == (if t.request.value.payload == [] then [] else [t.request.value.payload]) + t.handled[t.switched..])
  {
    var s, n := Run(c, es), |Run(c, es).queue|;
    var more := [PayloadSettles] + Drains(n);
    var ready := Step(c, s, PayloadSettles);
    OpeningEnds(c, s);
    DrainsSome(c, ready, n);
    FromAfter(c, s, PayloadSettles, Drains(n));
    RunAppend(c, es, more);
    assert s.queue[n..] == [] && s.queue[..n] == s.queue;
    RunSound(c, es + more);
    SentAll(c, Run(c, es + more));
  }

  lemma FromAfter(c: Config, s: Stream, e: Event, more: seq<Event>)
    ensures From(c, s, [e] + more) == From(c, Stepper(c)(s, e), more)
  {
    FoldAppend(Stepper(c), s, [e], more);
    FromNext(c, s, [], e);
    assert [] + [e] == [e];
  }

  // ---------------------------------------------------------------- one message at a time

  /** Nothing that settles a write. */
  ghost predicate NothingSettles(es: seq<Event>)
  {
    forall i :: 0 <= i < |es| ==> !es[i].WriteSettles? && !es[i].PayloadSettles?
  }

  lemma {:induction false} BusyStays(c: Config, s: Stream, es: seq<Event>)
    requires s.busy != Free && NothingSettles(es)
    ensures var t := From(c, s, es); t.busy == s.busy && t.handled == s.handled && s.queue <= t.queue
  {
    if es != [] {
      BusyStays(c, s, Init(es));
      FoldNext(Stepper(c), s, Init(es), Last(es));
      assert es == Init(es) + [Last(es)];
      BusyStep(c, From(c, s, Init(es)), Last(es));
    }
  }

  lemma BusyStep(c: Config, s: Stream, e: Event)
    requires s.busy != Free && !e.WriteSettles? && !e.PayloadSettles?
    ensures var t := Step(c, s, e); t.busy == s.busy && t.handled == s.handled && s.queue <= t.queue
  {
  }

  /** Until the write of a message settles no later one is handled, whatever else happens. */
  lemma OneAtATime(c: Config, es: seq<Event>, connects: bool, data: Bytes, more: seq<Event>)
    requires var s := Run(c, es); s.sockets != [] && s.busy == Free && s.queue != [] && s.queue[0] == Msg(data)
    requires NothingSettles(more)
    ensures var s, t := Run(c, es), Run(c, es + ([Turn(connects)] + more));
      t.handled == s.handled + [data] && s.queue[1..] <= t.queue
  {
    var s := Run(c, es);
    RunAppend(c, es, [Turn(connects)] + more);
    FromAfter(c, s, Turn(connects), more);
    BusyStays(c, Step(c, s, Turn(connects)), more);
  }

  // ---------------------------------------------------------------- closing

  /** A client that closes is followed by a close of the destination, behind what it has sent. */
  lemma ClientCloses(c: Config, es: seq<Event>)
    ensures var s, t := Run(c, es), Run(c, es + [ClientClose]);
      t.closed && t.queue == s.queue + [Close] && t.sockets == s.sockets && t.handled == s.handled && t.out == s.out
  {
    RunAppend(c, es, [ClientClose]);
    FromNext(c, Run(c, es), [], ClientClose);
    assert [] + [ClientClose] == [ClientClose];
  }

  /** A write that fails closes. */
  lemma FailedWriteCloses(c: Config, es: seq<Event>)
    requires Run(c, es).busy == Writing
    ensures Run(c, es + [WriteSettles(false)]).closed
  {
    RunAppend(c, es, [WriteSettles(false)]);
    FromNext(c, Run(c, es), [], WriteSettles(false));
    assert [] + [WriteSettles(false)] == [WriteSettles(false)];
  }

  lemma {:induction false} ClosedFrom(c: Config, s: Stream, es: seq<Event>)
    requires s.closed
    ensures var t := From(c, s, es); t.closed && t.out == s.out
  {
    if es != [] {
      ClosedFrom(c, s, Init(es));
      FoldNext(Stepper(c), s, Init(es), Last(es));
      assert es == Init(es) + [Last(es)];
    }
  }

  /** Once closed, nothing more is sent to the client, whatever follows. */
  lemma ClosedForGood(c: Config, es: seq<Event>, more: seq<Event>)
    requires Run(c, es).closed
    ensures Run(c, es + more).closed && Run(c, es + more).out == Run(c, es).out
  {
    RunAppend(c, es, more);
    ClosedFrom(c, Run(c, es), more);
  }

  // ---------------------------------------------------------------- opening

  /** The first message that opens a stream does: the address it names is dialled and sent the payload. */
  lemma FirstOpens(c: Config, es: seq<Event>, first: Bytes, r: Request)
    requires var s := Run(c, es); s.sockets == [] && s.queue != [] && s.queue[0] == Msg(first)
    requires c.opens(first) == Some(r)
    ensures var s, t := Run(c, es), Run(c, es + [Turn(true)]);
      && t.request == Some(r) && t.queue == s.queue[1..] && t.closed == s.closed
      && t.sockets == [Socket(Target(r.hostname, r.port), if r.payload == [] then [] else [r.payload], [], false)]
  {
    RunSound(c, es);
    RunAppend(c, es, [Turn(true)]);
    FromNext(c, Run(c, es), [], Turn(true));
    assert [] + [Turn(true)] == [Turn(true)];
  }

  /** One that does not ends the connection and opens nothing. */
  lemma OtherFirstCloses(c: Config, es: seq<Event>, first: Bytes)
    requires var s := Run(c, es); s.sockets == [] && s.queue != [] && s.queue[0] == Msg(first)
    requires c.opens(first) == None
    ensures var s, t := Run(c, es), Run(c, es + [Turn(true)]); t.sockets == [] && t.closed && t.queue == s.queue[1..]
  {
    RunSound(c, es);
    RunAppend(c, es, [Turn(true)]);
    FromNext(c, Run(c, es), [], Turn(true));
    assert [] + [Turn(true)] == [Turn(true)];
  }

  /** So does a dial that fails. */
  lemma FailedDialCloses(c: Config, es: seq<Event>, first: Bytes)
    requires var s := Run(c, es); s.sockets == [] && s.queue != [] && s.queue[0] == Msg(first)
    ensures var s, t := Run(c, es), Run(c, es + [Turn(false)]); t.sockets == [] && t.closed && t.queue == s.queue[1..]
  {
    RunSound(c, es);
    RunAppend(c, es, [Turn(false)]);
    FromNext(c, Run(c, es), [], Turn(false));
    assert [] + [Turn(false)] == [Turn(false)];
  }

  /** Every well-formed header opens a stream, but for UDP to another port than 53. */
  lemma OpenerIff(ids: seq<Bytes>, h: Header, payload: Bytes)
    requires WellFormed(h, ids)
    ensures var r := Opener(ids)(Encode(h) + payload);
      if h.command == 1 || h.port == 53
      then r == Some(Request(h.version, h.command, HostText(h.address), h.port, payload))
      else r == None
  {
    RoundTrip(h, payload, ids);
  }

  // ---------------------------------------------------------------- answers to the client

  /** A chunk read while the client is there reaches it, the response head ahead of the first. */
  lemma AnswerPasses(c: Config, es: seq<Event>, data: Bytes)
    requires var s := Run(c, es); s.sockets != [] && !s.closed && !s.serve.Finished?
    ensures var s, t := Run(c, es), Run(c, es + ([PayloadSettles] + [RedialSettles] + [Chunk(data)]));
      s.request.Some? && t.out == s.out + [if s.out == [] then [s.request.value.version, 0] + data else data]
  {
    var s := Run(c, es);
    RunSound(c, es);
    var s1 := Step(c, s, PayloadSettles);
    var s2 := Step(c, s1, RedialSettles);
    StepSound(c, s, PayloadSettles);
    StepSound(c, s1, RedialSettles);
    RunAppend(c, es, [PayloadSettles] + [RedialSettles] + [Chunk(data)]);
    FromNext(c, s, [PayloadSettles] + [RedialSettles], Chunk(data));
    FromNext(c, s, [PayloadSettles], RedialSettles);
    FromNext(c, s, [], PayloadSettles);
    assert [] + [PayloadSettles] == [PayloadSettles];
    PumpReady(c, s);
    PumpSends(c, s2, data);
  }

  lemma PumpReady(c: Config, s: Stream)
    requires Sound(c, s) && s.sockets != [] && !s.closed && !s.serve.Finished?
    ensures var t := Step(c, Step(c, s, PayloadSettles), RedialSettles);
      t.serve.Pumping? && !t.closed && t.out == s.out && t.request == s.request
  {
  }

  lemma PumpSends(c: Config, s: Stream, data: Bytes)
    requires Sound(c, s) && s.serve.Pumping? && !s.closed
    ensures s.request.Some?
    ensures Step(c, s, Chunk(data)).out == s.out + [if s.out == [] then [s.request.value.version, 0] + data else data]
  {
  }

  // ---------------------------------------------------------------- the fallback

  /** A first destination that ends without a byte is replaced by the fallback, for TCP; otherwise the end closes. */
  lemma EndTurnsToFallback(c: Config, es: seq<Event>)
    requires Run(c, es).serve.Pumping?
    ensures var s, t := Run(c, es), Run(c, es + [EndOfStream(true)]);
      && s.request.Some?
      && var r := s.request.value;
         if |s.sockets| == 1 && s.sockets[0].read == [] && r.command == 1 && c.fallback.Some? then
           && |t.sockets| == 2 && t.sockets[0] == s.sockets[0] && t.closed == s.closed && t.serve == Redialing
           && t.sockets[1] == Socket(
                Target(c.fallback.value.0, if c.fallback.value.1.Some? then c.fallback.value.1.value else r.port),
                if r.payload == [] then [] else [r.payload], [], false)
         else t.closed && t.sockets == s.sockets && t.serve == Finished
  {
    RunSound(c, es);
    RunAppend(c, es, [EndOfStream(true)]);
    FromNext(c, Run(c, es), [], EndOfStream(true));
    assert [] + [EndOfStream(true)] == [EndOfStream(true)];
  }
}
