/**
 One relayed stream: a serial queue of client messages, a pump that copies what the
 destination answers, and at most one second dial through a fallback. Every piece of code
 between two awaits is one step; steps interleave in any order, sockets break at any time.
 */
module Relay {
  import opened Text
  import opened Vless

  datatype Target = Target(host: string, port: nat)

  /** `sent` is what was written to the socket, write by write; `read` what came back, chunk by chunk. */
  datatype Socket = Socket(target: Target, sent: seq<Bytes>, read: seq<Bytes>, broken: bool)

  datatype Item = Msg(data: Bytes) | Close

  /** What the queue is waiting for. */
  datatype Busy = Free | Opening | Writing

  datatype Serve = Idle | Pumping(sock: nat, answered: bool) | Redialing | Finished

  /** `opens` reads a first message: `Opener` for the relay's own UUIDs. */
  datatype Config = Config(opens: Bytes -> Option<Request>, fallback: Option<(string, Option<nat>)>)

  /**
   The stream's state, and its history: every message that `arrived`, those `handled` by a write
   after the stream opened, how many were `refused` before, and how many had been handled when the
   second dial `switched` the writer. Messages are written to the last socket dialled.
   */
  datatype Stream = Stream(
    queue: seq<Item>, busy: Busy, sockets: seq<Socket>, request: Option<Request>, serve: Serve,
    out: seq<Bytes>, closed: bool,
    arrived: seq<Bytes>, handled: seq<Bytes>, refused: nat, switched: nat)

  datatype Event =
    | Arrive(data: Bytes)
    | ClientClose
    | Turn(connects: bool)         // the queue takes its next item
    | PayloadSettles               // the opening dial's write ends, well or badly
    | WriteSettles(ok: bool)
    | Chunk(data: Bytes)           // the pump reads something
    | EndOfStream(connects: bool)  // the pump reads the end, or an error
    | RedialSettles
    | Breaks(sock: nat)

  const START := Stream([], Free, [], None, Idle, [], false, [], [], 0, 0)

  function Head(r: Request): Bytes
  {
    [r.version, 0]
  }

  function Lead(payload: Bytes): seq<Bytes>
  {
    if payload == [] then [] else [payload]
  }

  function Written(s: Socket, data: Bytes): Socket
  {
    if s.broken then s else s.(sent := s.sent + [data])
  }

  /** The request a first message opens the stream with, if it does: UDP is DNS or nothing. */
  function Opener(ids: seq<Bytes>): Bytes -> Option<Request>
  {
    (data: Bytes) =>
      match Parse(data, ids)
      case Refused(_) => None
      case Accepted(r) => if r.command != TCP && r.port != 53 then None else Some(r)
  }

  /** A message goes to the socket that is the destination now. */
  function Passed(s: Stream, data: Bytes): Stream
    requires s.sockets != []
  {
    var last := |s.sockets| - 1;
    s.(sockets := s.sockets[last := Written(s.sockets[last], data)], handled := s.handled + [data], busy := Writing)
  }

  /** The fallback's host, and its port or else the port asked for. */
  function Second(fallback: (string, Option<nat>), port: nat): Target
  {
    Target(fallback.0, if fallback.1.Some? then fallback.1.value else port)
  }

  function TakeMessage(c: Config, s: Stream, data: Bytes, connects: bool): Stream
  {
    if s.sockets != [] then Passed(s, data)
    else
      match c.opens(data)
      case None => s.(closed := true, refused := s.refused + 1)
      case Some(r) =>
        if !connects then s.(closed := true, refused := s.refused + 1)
        else
          s.(sockets := [Socket(Target(r.hostname, r.port), Lead(r.payload), [], false)],
             request := Some(r), busy := Opening)
  }

  function Broken(s: Stream, i: nat): Stream
    requires i < |s.sockets|
  {
    s.(sockets := s.sockets[i := s.sockets[i].(broken := true)])
  }

  function TakeItem(c: Config, s: Stream, connects: bool): Stream
    requires s.queue != []
  {
    var rest := s.(queue := s.queue[1..]);
    match s.queue[0]
    case Msg(data) => TakeMessage(c, rest, data, connects)
    case Close =>
      if s.sockets == [] then rest else Broken(rest, |s.sockets| - 1)
  }

  /** A chunk from the destination goes to the client, the response head ahead of the first. */
  function Pumped(s: Stream, data: Bytes): Stream
    requires s.serve.Pumping? && s.serve.sock < |s.sockets| && s.request.Some?
  {
    var i := s.serve.sock;
    var read := s.(sockets := s.sockets[i := s.sockets[i].(read := s.sockets[i].read + [data])]);
    if s.closed then read.(serve := Finished)
    else
      var frame := if s.serve.answered then data else Head(s.request.value) + data;
      read.(out := s.out + [frame], serve := Pumping(i, true))
  }

  /** The pump is over: done if anything was answered, else once more through the fallback. */
  function Ended(c: Config, s: Stream, connects: bool): Stream
    requires s.serve.Pumping? && s.request.Some?
  {
    var r := s.request.value;
    if !s.serve.answered && s.serve.sock == 0 && c.fallback.Some? && r.command == TCP && connects then
      s.(sockets := s.sockets + [Socket(Second(c.fallback.value, r.port), Lead(r.payload), [], false)],
         serve := Redialing, switched := |s.handled|)
    else s.(serve := Finished, closed := true)
  }

  function Step(c: Config, s: Stream, e: Event): Stream
  {
    match e
    case Arrive(data) => s.(queue := s.queue + [Msg(data)], arrived := s.arrived + [data])
    case ClientClose => s.(queue := s.queue + [Close], closed := true)
    case Turn(connects) => if s.busy.Free? && s.queue != [] then TakeItem(c, s, connects) else s
    case PayloadSettles => if s.busy.Opening? then s.(busy := Free, serve := Pumping(0, false)) else s
    case WriteSettles(ok) => if s.busy.Writing? then s.(busy := Free, closed := s.closed || !ok) else s
    case Chunk(data) =>
      if s.serve.Pumping? && s.serve.sock < |s.sockets| && s.request.Some? then Pumped(s, data) else s
    case EndOfStream(connects) =>
      if s.serve.Pumping? && s.request.Some? then Ended(c, s, connects) else s
    case RedialSettles => if s.serve.Redialing? then s.(serve := Pumping(1, false)) else s
    case Breaks(i) =>
      if i < |s.sockets| then Broken(s, i) else s
  }

  function Run(c: Config, es: seq<Event>): Stream
  {
    if es == [] then START else Step(c, Run(c, Init(es)), Last(es))
  }

  // ---------------------------------------------------------------- what every run keeps

  function Messages(queue: seq<Item>): seq<Bytes>
  {
    if queue == [] then []
    else Messages(Init(queue)) + (match Last(queue) { case Msg(d) => [d] case Close => [] })
  }

  /** Every message is refused, opens the stream, is written, or waits: in the order it came. */
  ghost predicate InOrder(c: Config, s: Stream)
  {
    if s.sockets == [] then
      && s.handled == [] && s.request == None
      && s.refused <= |s.arrived| && s.arrived[s.refused..] == Messages(s.queue)
    else
      && s.refused < |s.arrived| && s.request.Some?
      && c.opens(s.arrived[s.refused]) == s.request
      && s.arrived[s.refused + 1..] == s.handled + Messages(s.queue)
  }

  /** What a socket was written is `all`, or a beginning of it once the socket has broken. */
  ghost predicate Receives(s: Socket, all: seq<Bytes>)
  {
    if s.broken then s.sent <= all else s.sent == all
  }

  /** Each socket gets the header's payload first, then the messages handled while it was the destination. */
  ghost predicate Delivers(s: Stream)
  {
    s.sockets != [] ==>
      && s.request.Some? && s.switched <= |s.handled| && |s.sockets| <= 2
      && var lead := Lead(s.request.value.payload);
         if |s.sockets| == 1 then Receives(s.sockets[0], lead + s.handled)
         else
           && Receives(s.sockets[0], lead + s.handled[..s.switched])
           && Receives(s.sockets[1], lead + s.handled[s.switched..])
  }

  function Framed(head: Bytes, chunks: seq<Bytes>): seq<Bytes>
  {
    if chunks == [] then [] else [head + chunks[0]] + chunks[1..]
  }

  /**
   The client sees nothing, or the response head and then what the last socket answered: all of it, or once the pump has
   finished all but the last chunk read.
   */
  ghost predicate Answers(s: Stream)
  {
    if s.sockets == [] then s.out == []
    else
      && s.request.Some?
      && var head, read := Head(s.request.value), s.sockets[|s.sockets| - 1].read;
         || s.out == Framed(head, read)
         || (s.serve.Finished? && read != [] && s.out == Framed(head, Init(read)))
  }

  /**
   The first dial is to the address asked for; the second at most once, only for TCP, only to the fallback, only if
   nothing came back.
   */
  ghost predicate FallsBack(c: Config, s: Stream)
  {
    && (s.sockets != [] ==>
          s.request.Some? && s.sockets[0].target == Target(s.request.value.hostname, s.request.value.port))
    && (|s.sockets| == 2 ==>
          && s.request.Some? && s.request.value.command == TCP && c.fallback.Some?
          && s.sockets[0].read == [] && s.sockets[1].target.host == c.fallback.value.0
          && s.sockets[1].target.port
             == if c.fallback.value.1.Some? then c.fallback.value.1.value else s.request.value.port)
  }

  ghost predicate Staged(s: Stream)
  {
    && |s.sockets| <= 2
    && (|s.sockets| < 2 ==> s.switched == 0)
    && (s.sockets == [] ==> s.serve.Idle? && s.busy.Free?)
    && (s.busy.Opening? ==> s.serve.Idle?)
    && (s.serve.Idle? && s.sockets != [] ==> s.busy.Opening?)
    && (s.serve.Idle? || s.serve.Redialing? ==> s.sockets == [] || s.sockets[|s.sockets| - 1].read == [])
    && (s.serve.Redialing? ==> |s.sockets| == 2)
    && (s.serve.Idle? ==> |s.sockets| <= 1)
    && (s.serve.Pumping? ==>
          && s.serve.sock == |s.sockets| - 1
          && (s.serve.answered <==> s.sockets[s.serve.sock].read != [])
          && s.request.Some?
          && s.out == Framed(Head(s.request.value), s.sockets[s.serve.sock].read))
  }

  ghost predicate Sound(c: Config, s: Stream)
  {
    InOrder(c, s) && Delivers(s) && Answers(s) && FallsBack(c, s) && Staged(s)
  }

  lemma MessagesSnoc(queue: seq<Item>, item: Item)
    ensures Messages(queue + [item])
         == Messages(queue) + (match item { case Msg(d) => [d] case Close => [] })
  {
  }

  lemma {:induction false} MessagesCons(queue: seq<Item>)
    requires queue != []
    ensures Messages(queue)
         == (match queue[0] { case Msg(d) => [d] case Close => [] }) + Messages(queue[1..])
  {
    if |queue| > 1 {
      MessagesCons(Init(queue));
      assert Init(queue)[1..] == Init(queue[1..]);
    } else {
      assert queue[1..] == [] && Init(queue) == [];
    }
  }

  lemma ArriveSound(c: Config, s: Stream, data: Bytes)
    requires Sound(c, s)
    ensures Sound(c, Step(c, s, Arrive(data)))
  {
  }

  lemma CloseSound(c: Config, s: Stream)
    requires Sound(c, s)
    ensures Sound(c, Step(c, s, ClientClose))
  {
    MessagesSnoc(s.queue, Close);
    assert Messages(s.queue) + [] == Messages(s.queue);
    RequeueSound(c, s, s.queue + [Close]);
  }

  lemma RefuseSound(c: Config, s: Stream, data: Bytes)
    requires Sound(c, s) && s.sockets == [] && s.queue != [] && s.queue[0] == Msg(data)
    ensures Sound(c, s.(queue := s.queue[1..], closed := true, refused := s.refused + 1))
  {
    MessagesCons(s.queue);
    assert s.arrived[s.refused + 1..] == s.arrived[s.refused..][1..];
  }

  lemma OpenSound(c: Config, s: Stream, data: Bytes)
    requires Sound(c, s) && s.sockets == [] && s.queue != [] && s.queue[0] == Msg(data)
    requires c.opens(data).Some?
    ensures Sound(c, TakeMessage(c, s.(queue := s.queue[1..]), data, true))
  {
    MessagesCons(s.queue);
    var waiting := s.arrived[s.refused..];
    assert waiting == [data] + Messages(s.queue[1..]);
    assert s.arrived[s.refused] == waiting[0];
    assert s.arrived[s.refused + 1..] == waiting[1..];
    assert [] + Messages(s.queue[1..]) == Messages(s.queue[1..]);
    var lead := Lead(c.opens(data).value.payload);
    assert lead + [] == lead;
  }

  lemma WriteDelivers(s: Stream, data: Bytes)
    requires Delivers(s) && s.sockets != []
    ensures Delivers(Passed(s, data))
  {
  }

  lemma WriteInOrder(c: Config, s: Stream, data: Bytes)
    requires InOrder(c, s) && s.sockets != [] && s.queue != [] && s.queue[0] == Msg(data)
    ensures InOrder(c, Passed(s.(queue := s.queue[1..]), data))
  {
    MessagesCons(s.queue);
    assert s.handled + Messages(s.queue) == s.handled + [data] + Messages(s.queue[1..]);
  }

  lemma WriteRest(c: Config, s: Stream, data: Bytes)
    requires Answers(s) && FallsBack(c, s) && Staged(s) && s.sockets != [] && s.busy.Free?
    ensures var t := Passed(s, data); Answers(t) && FallsBack(c, t) && Staged(t)
  {
  }

  lemma WriteSound(c: Config, s: Stream, data: Bytes, connects: bool)
    requires Sound(c, s) && s.sockets != [] && s.queue != [] && s.queue[0] == Msg(data) && s.busy.Free?
    ensures Sound(c, TakeMessage(c, s.(queue := s.queue[1..]), data, connects))
  {
    var rest := s.(queue := s.queue[1..]);
    WriteInOrder(c, s, data);
    assert Delivers(rest) && Answers(rest) && FallsBack(c, rest) && Staged(rest);
    WriteDelivers(rest, data);
    WriteRest(c, rest, data);
  }

  lemma BrokenSound(c: Config, s: Stream, i: nat)
    requires Sound(c, s) && i < |s.sockets|
    ensures Sound(c, Broken(s, i))
  {
  }

  lemma TurnSound(c: Config, s: Stream, connects: bool)
    requires Sound(c, s) && s.busy.Free? && s.queue != []
    ensures Sound(c, TakeItem(c, s, connects))
  {
    match s.queue[0]
    case Msg(data) =>
      if s.sockets != [] {
        WriteSound(c, s, data, connects);
      } else if c.opens(data).Some? && connects {
        OpenSound(c, s, data);
      } else {
        RefuseSound(c, s, data);
      }
    case Close => CloseTurnSound(c, s, connects);
  }

  /** Nothing but the order of messages looks at the queue. */
  lemma RequeueSound(c: Config, s: Stream, queue: seq<Item>)
    requires Sound(c, s) && Messages(queue) == Messages(s.queue)
    ensures Sound(c, s.(queue := queue))
  {
  }

  lemma PopClose(c: Config, s: Stream)
    requires Sound(c, s) && s.queue != [] && s.queue[0] == Close
    ensures Sound(c, s.(queue := s.queue[1..]))
  {
    MessagesCons(s.queue);
    assert [] + Messages(s.queue[1..]) == Messages(s.queue[1..]);
    RequeueSound(c, s, s.queue[1..]);
  }

  lemma CloseTurnSound(c: Config, s: Stream, connects: bool)
    requires Sound(c, s) && s.queue != [] && s.queue[0] == Close
    ensures Sound(c, TakeItem(c, s, connects))
  {
    var rest := s.(queue := s.queue[1..]);
    PopClose(c, s);
    if s.sockets != [] {
      BrokenSound(c, rest, |s.sockets| - 1);
    }
  }

  lemma PayloadSound(c: Config, s: Stream)
    requires Sound(c, s) && s.busy.Opening?
    ensures Sound(c, s.(busy := Free, serve := Pumping(0, false)))
  {
  }

  lemma SettledSound(c: Config, s: Stream, closed: bool)
    requires Sound(c, s) && s.busy.Writing?
    ensures Sound(c, s.(busy := Free, closed := closed))
  {
  }

  lemma RedialSound(c: Config, s: Stream)
    requires Sound(c, s) && s.serve.Redialing?
    ensures Sound(c, s.(serve := Pumping(1, false)))
  {
  }

  lemma ChunkSound(c: Config, s: Stream, data: Bytes)
    requires Sound(c, s) && s.serve.Pumping?
    ensures Sound(c, Pumped(s, data))
  {
  }

  lemma EndSound(c: Config, s: Stream, connects: bool)
    requires Sound(c, s) && s.serve.Pumping?
    ensures Sound(c, Ended(c, s, connects))
  {
  }

  lemma ClientStepSound(c: Config, s: Stream, e: Event)
    requires Sound(c, s) && (e.Arrive? || e.ClientClose? || e.Turn?)
    ensures Sound(c, Step(c, s, e))
  {
    match e
    case Arrive(data) => ArriveSound(c, s, data);
    case ClientClose => CloseSound(c, s);
    case Turn(connects) =>
      if s.busy.Free? && s.queue != [] {
        TurnSound(c, s, connects);
      }
  }

  lemma SettleStepSound(c: Config, s: Stream, e: Event)
    requires Sound(c, s) && (e.PayloadSettles? || e.WriteSettles? || e.RedialSettles?)
    ensures Sound(c, Step(c, s, e))
  {
    match e
    case PayloadSettles =>
      if s.busy.Opening? {
        PayloadSound(c, s);
      }
    case WriteSettles(ok) =>
      if s.busy.Writing? {
        SettledSound(c, s, s.closed || !ok);
      }
    case RedialSettles =>
      if s.serve.Redialing? {
        RedialSound(c, s);
      }
  }

  lemma SocketStepSound(c: Config, s: Stream, e: Event)
    requires Sound(c, s) && (e.Chunk? || e.EndOfStream? || e.Breaks?)
    ensures Sound(c, Step(c, s, e))
  {
    match e
    case Chunk(data) =>
      if s.serve.Pumping? {
        ChunkSound(c, s, data);
      }
    case EndOfStream(connects) =>
      if s.serve.Pumping? {
        EndSound(c, s, connects);
      }
    case Breaks(i) =>
      if i < |s.sockets| {
        BrokenSound(c, s, i);
      }
  }

  /** Every step keeps all of it. */
  lemma StepSound(c: Config, s: Stream, e: Event)
    requires Sound(c, s)
    ensures Sound(c, Step(c, s, e))
  {
    if e.Arrive? || e.ClientClose? || e.Turn? {
      ClientStepSound(c, s, e);
    } else if e.Chunk? || e.EndOfStream? || e.Breaks? {
      SocketStepSound(c, s, e);
    } else {
      SettleStepSound(c, s, e);
    }
  }

  /** In every interleaving: order kept, one stream answered, one fallback at most. */
  lemma {:induction false} RunSound(c: Config, es: seq<Event>)
    ensures Sound(c, Run(c, es))
  {
    if es != [] {
      RunSound(c, Init(es));
      StepSound(c, Run(c, Init(es)), Last(es));
    }
  }

  /**
   The second socket carries everything the client sent exactly when no message had been handled
   before the switch: the payload is sent again, the messages after it are not.
   */
  lemma FallbackCarriesAllIff(c: Config, es: seq<Event>)
    requires var s := Run(c, es); |s.sockets| == 2 && !s.sockets[1].broken
    ensures var s := Run(c, es);
      && s.request.Some?
      && (s.sockets[1].sent == Lead(s.request.value.payload) + s.handled <==> s.switched == 0)
  {
    RunSound(c, es);
    var s := Run(c, es);
    var lead := Lead(s.request.value.payload);
    if s.switched > 0 {
      assert |lead + s.handled[s.switched..]| < |lead + s.handled|;
    } else {
      assert s.handled[0..] == s.handled;
    }
  }

  /**
   With the relay's own UUIDs, a stream is opened by a well-formed header alone, dialled where the header says, its
   payload first.
   */
  lemma HeaderOpensStream(ids: seq<Bytes>, fallback: Option<(string, Option<nat>)>, es: seq<Event>) returns (h: Header)
    requires Run(Config(Opener(ids), fallback), es).sockets != []
    ensures var s := Run(Config(Opener(ids), fallback), es);
      && s.refused < |s.arrived| && s.request.Some?
      && WellFormed(h, ids) && (h.command == TCP || h.port == 53)
      && s.arrived[s.refused] == Encode(h) + s.request.value.payload
      && s.sockets[0].target == Target(HostText(h.address), h.port)
      && (s.sockets[0].sent != [] && s.request.value.payload != [] ==> s.sockets[0].sent[0] == s.request.value.payload)
  {
    var c := Config(Opener(ids), fallback);
    RunSound(c, es);
    var s := Run(c, es);
    assert Opener(ids)(s.arrived[s.refused]) == s.request;
    h := AcceptedIsEncoded(s.arrived[s.refused], ids);
  }

  lemma RunSnoc(c: Config, es: seq<Event>, e: Event)
    ensures Run(c, es + [e]) == Step(c, Run(c, es), e)
  {
  }

  /** So a message written before the first destination turns out silent never reaches the second one. */
  lemma FallbackDropsMessage(c: Config, first: Bytes, message: Bytes)
    requires c.opens(first).Some? && c.opens(first).value.command == TCP && c.fallback.Some?
    ensures exists es :: var s := Run(c, es);
      && |s.sockets| == 2 && !s.sockets[1].broken && s.handled == [message] && s.queue == []
      && s.sockets[1].sent == Lead(c.opens(first).value.payload)
  {
    var es1 := [Arrive(first)];
    assert Init(es1) == [] && [] + [Msg(first)] == [Msg(first)] && [Msg(first)][1..] == [];
    assert [] + [Msg(message)] == [Msg(message)] && [Msg(message)][1..] == [];
    assert [] + [message] == [message];
    RunSnoc(c, es1, Turn(true));
    var es2 := es1 + [Turn(true)];
    RunSnoc(c, es2, PayloadSettles);
    var es3 := es2 + [PayloadSettles];
    RunSnoc(c, es3, Arrive(message));
    var es4 := es3 + [Arrive(message)];
    RunSnoc(c, es4, Turn(true));
    var es5 := es4 + [Turn(true)];
    RunSnoc(c, es5, EndOfStream(true));
    var es6 := es5 + [EndOfStream(true)];
    assert Run(c, es3).serve == Pumping(0, false);
    assert |Run(c, es6).sockets| == 2;
  }
}
