/**
 The middleware that reads a request body to its end, or to the limit, before the application is called,
 and then replays what it read. `incoming` is everything the client will ever send.
 */
module BodyLimit {
  import opened Text

  type Bytes = seq<bv8>

  datatype Message =
    | Request(body: Bytes, more: bool)  // "http.request"; a missing body is empty, a missing flag false
    | Other(kind: string)               // a disconnect, or anything else

  datatype Header = Header(name: string, value: string)

  // ---------------------------------------------------------------- the declared length

  /** The first Content-Length header decides; one that is no number declares nothing. */
  predicate DeclaredTooLarge(headers: seq<Header>, number: string -> Option<int>, limit: nat)
  {
    if headers == [] then false
    else if Lower(headers[0].name) == "content-length" then
      number(headers[0].value).Some? && number(headers[0].value).value > limit
    else DeclaredTooLarge(headers[1..], number, limit)
  }

  /** `at` is where the first Content-Length stands, or the number of headers when there is none. */
  method DeclaredBodyIsTooLarge(headers: seq<Header>, number: string -> Option<int>, limit: nat)
    returns (r: bool, ghost at: nat)
    ensures r == DeclaredTooLarge(headers, number, limit)
    ensures at <= |headers| && forall j :: 0 <= j < at ==> Lower(headers[j].name) != "content-length"
    ensures at == |headers| ==> !r
    ensures at < |headers| ==>
      && Lower(headers[at].name) == "content-length"
      && (r <==> number(headers[at].value).Some? && number(headers[at].value).value > limit)
  {
    for i := 0 to |headers|
      invariant DeclaredTooLarge(headers, number, limit) == DeclaredTooLarge(headers[i..], number, limit)
      invariant forall j :: 0 <= j < i ==> Lower(headers[j].name) != "content-length"
    {
      var header := headers[i];
      assert headers[i..][0] == header && headers[i..][1..] == headers[i + 1..];
      if Lower(header.name) != "content-length" {
        continue;
      }
      match number(header.value)
      case Some(n) => return n > limit, i;
      case None => return false, i;
    }
    return false, |headers|;
  }

  // ---------------------------------------------------------------- buffering

  function Size(m: Message): nat
  {
    if m.Request? then |m.body| else 0
  }

  function Total(ms: seq<Message>): nat
  {
    if ms == [] then 0 else Total(Init(ms)) + Size(Last(ms))
  }

  /** The body some messages carry, put together. */
  function Body(ms: seq<Message>): Bytes
  {
    if ms == [] then []
    else Body(Init(ms)) + (match Last(ms) { case Request(body, _) => body case Other(_) => [] })
  }

  lemma {:induction false} TotalIsBody(ms: seq<Message>)
    ensures Total(ms) == |Body(ms)|
  {
    if ms != [] {
      TotalIsBody(Init(ms));
    }
  }

  /** More of the body follows this message. */
  predicate Continues(m: Message)
  {
    m.Request? && m.more
  }

  /** The first `n` messages are all needed: each one before the last announces another. */
  ghost predicate Needed(ms: seq<Message>, n: nat)
  {
    n <= |ms| && forall i | 0 <= i < n - 1 :: Continues(ms[i])
  }

  datatype Outcome =
    | Refused(consumed: nat)                                    // 413; the application is never called
    | Waiting(buffered: seq<Message>)                           // the client has sent nothing more
    | Called(buffered: seq<Message>, upstream: seq<Message>)    // the application runs

  /** What reading the body may come to. */
  ghost predicate Faithful(incoming: seq<Message>, limit: nat, o: Outcome)
  {
    match o
    case Refused(n) =>
      0 < n && Needed(incoming, n) && Total(incoming[..n]) > limit && Total(incoming[..n - 1]) <= limit
    case Waiting(buffered) =>
      buffered == incoming && Total(incoming) <= limit && forall k | 0 <= k < |incoming| :: Continues(incoming[k])
    case Called(buffered, upstream) =>
      && buffered != [] && buffered + upstream == incoming && Needed(incoming, |buffered|)
      && !Continues(Last(buffered)) && Total(buffered) <= limit
  }

  lemma TotalNext(ms: seq<Message>, i: nat)
    requires i < |ms|
    ensures Total(ms[..i + 1]) == Total(ms[..i]) + Size(ms[i])
  {
    assert Init(ms[..i + 1]) == ms[..i] && Last(ms[..i + 1]) == ms[i];
  }

  lemma EndsAt(incoming: seq<Message>, limit: nat, i: nat)
    requires i < |incoming| && !Continues(incoming[i]) && Total(incoming[..i + 1]) <= limit
    requires forall k | 0 <= k < i :: Continues(incoming[k])
    ensures Faithful(incoming, limit, Called(incoming[..i + 1], incoming[i + 1..]))
  {
  }

  method ReadBody(incoming: seq<Message>, limit: nat) returns (o: Outcome)
    ensures Faithful(incoming, limit, o)
  {
    var buffered, received := [], 0;
    for i := 0 to |incoming|
      invariant buffered == incoming[..i] && received == Total(incoming[..i]) <= limit
      invariant forall k | 0 <= k < i :: Continues(incoming[k])
    {
      var message := incoming[i];
      TotalNext(incoming, i);
      if message.Request? {
        received := received + |message.body|;
        if received > limit {
          return Refused(i + 1);
        }
      }
      buffered := buffered + [message];
      assert buffered == incoming[..i + 1];
      if !message.Request? || !message.more {
        EndsAt(incoming, limit, i);
        return Called(buffered, incoming[i + 1..]);
      }
    }
    assert incoming[..|incoming|] == incoming;
    return Waiting(buffered);
  }

  // ---------------------------------------------------------------- the whole call

  datatype Scope = Http(headers: seq<Header>, incoming: seq<Message>) | NotHttp(incoming: seq<Message>)

  /** Some prefix that had to be read is over the limit. */
  ghost predicate BodyTooLarge(incoming: seq<Message>, limit: nat)
  {
    exists n: nat :: Needed(incoming, n) && Total(incoming[..n]) > limit
  }

  lemma {:induction false} TotalGrows(ms: seq<Message>, m: nat, n: nat)
    requires m <= n <= |ms|
    ensures Total(ms[..m]) <= Total(ms[..n])
  {
    if m < n {
      TotalGrows(ms, m, n - 1);
      TotalNext(ms, n - 1);
    }
  }

  /** Nothing is read past the message that ends the body. */
  lemma NeededStops(ms: seq<Message>, n: nat, k: nat)
    requires Needed(ms, n) && k < |ms| && !Continues(ms[k])
    ensures n <= k + 1
  {
  }

  lemma SmallEnough(incoming: seq<Message>, limit: nat, k: nat)
    requires k <= |incoming| && Total(incoming[..k]) <= limit
    requires forall n: nat | Needed(incoming, n) :: n <= k
    ensures !BodyTooLarge(incoming, limit)
  {
    forall n: nat | Needed(incoming, n)
      ensures Total(incoming[..n]) <= limit
    {
      TotalGrows(incoming, n, k);
    }
  }

  /**
   Never called exactly when the declared length or what had to be read of the body is over the limit, or the body
   never ends.
   */
  method Handle(scope: Scope, number: string -> Option<int>, limit: nat) returns (o: Outcome)
    requires limit >= 1
    ensures scope.NotHttp? ==> o == Called([], scope.incoming)
    ensures scope.Http? ==>
      (o.Refused? <==> DeclaredTooLarge(scope.headers, number, limit) || BodyTooLarge(scope.incoming, limit))
    ensures o.Called? ==> o.buffered + o.upstream == scope.incoming && Total(o.buffered) <= limit
    ensures o.Waiting? ==> forall m | m in scope.incoming :: Continues(m)
  {
    if scope.NotHttp? {
      assert [] + scope.incoming == scope.incoming;
      return Called([], scope.incoming);
    }
    var declared, _ := DeclaredBodyIsTooLarge(scope.headers, number, limit);
    if declared {
      return Refused(0);
    }
    o := ReadBody(scope.incoming, limit);
    match o
    case Refused(n) => assert BodyTooLarge(scope.incoming, limit);
    case Waiting(_) =>
      assert scope.incoming[..|scope.incoming|] == scope.incoming;
      SmallEnough(scope.incoming, limit, |scope.incoming|);
    case Called(buffered, upstream) =>
      var k := |buffered|;
      assert scope.incoming[..k] == buffered && scope.incoming[k - 1] == Last(buffered);
      forall n: nat | Needed(scope.incoming, n)
        ensures n <= k
      {
        NeededStops(scope.incoming, n, k - 1);
      }
      SmallEnough(scope.incoming, limit, k);
  }

  // ---------------------------------------------------------------- replay

  /** What the application's `receive` draws on. */
  class Replay {
    var buffered: seq<Message>
    var upstream: seq<Message>

    constructor (buffered: seq<Message>, upstream: seq<Message>)
      ensures this.buffered == buffered && this.upstream == upstream
    {
      this.buffered, this.upstream := buffered, upstream;
    }

    /** What is still to be received, in order. */
    ghost function Pending(): seq<Message>
      reads this
    {
      buffered + upstream
    }

    method Receive() returns (m: Option<Message>)
      modifies this
      ensures m == if old(Pending()) == [] then None else Some(old(Pending())[0])
      ensures Pending() == if old(Pending()) == [] then [] else old(Pending())[1..]
    {
      if buffered != [] {
        m := Some(buffered[0]);
        buffered := buffered[1..];
      } else if upstream != [] {
        m := Some(upstream[0]);
        upstream := upstream[1..];
      } else {
        m := None;
      }
    }
  }

  /** What is left of the stream after `n` receives. */
  function After(incoming: seq<Message>, n: nat): seq<Message>
  {
    if n < |incoming| then incoming[n..] else []
  }

  /** What the `n`-th receive returns, counting from 0. */
  function At(incoming: seq<Message>, n: nat): Option<Message>
  {
    if n < |incoming| then Some(incoming[n]) else None
  }

  lemma AfterNext(incoming: seq<Message>, n: nat)
    ensures At(incoming, n) == if After(incoming, n) == [] then None else Some(After(incoming, n)[0])
    ensures After(incoming, n + 1) == if After(incoming, n) == [] then [] else After(incoming, n)[1..]
  {
  }

  /** The k-th call of the application's `receive` returns the k-th original message. */
  method ReceiveInOrder(incoming: seq<Message>, o: Outcome, calls: nat) returns (received: seq<Option<Message>>)
    requires o.Called? && o.buffered + o.upstream == incoming
    ensures |received| == calls
    ensures forall k | 0 <= k < calls :: received[k] == At(incoming, k)
  {
    received := [];
    var replay := new Replay(o.buffered, o.upstream);
    for i := 0 to calls
      invariant |received| == i && replay.Pending() == After(incoming, i)
      invariant forall k | 0 <= k < i :: received[k] == At(incoming, k)
    {
      AfterNext(incoming, i);
      var m := replay.Receive();
      received := received + [m];
    }
  }
}
