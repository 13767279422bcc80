/**
 The hash-chained audit export and its verification. The hash is a parameter, and nothing is assumed
 of it but the length of its digests: what a collision would break is stated as "or these two chains
 collide at this event".
 */
module AuditChain {
  import opened Text

  const FORMAT := "nebula-audit-chain/1"
  const WIDTH := 64
  const GENESIS := Zeros(WIDTH)

  function Zeros(n: nat): (s: string)
    ensures |s| == n
  {
    if n == 0 then "" else Zeros(n - 1) + "0"
  }

  /** An event is its canonical JSON. */
  type Event = string

  type Hash = string -> string

  ghost predicate Hex(hash: Hash)
  {
    forall x :: |hash(x)| == WIDTH
  }

  /** One exported line. A missing or ill-typed field stands as a value that equals no real one. */
  datatype Line =
    | EventLine(event: Event, prev: string, digest: string)
    | Closing(format: string, count: int, head: string, until: string)  // any object with a "format"
    | Blank
    | Junk                                                               // not JSON, or not an object

  datatype Summary = Summary(count: nat, head: string, until: string, hashes: seq<string>)

  datatype Fault = EventsAfterClosing | NotAnObject | BrokenChain | CutShort | WrongClosing | NotAnExtension

  datatype Verdict = Intact(summary: Summary) | Faulty(why: Fault)

  // ---------------------------------------------------------------- export

  function Link(hash: Hash, prev: string, event: Event): string
  {
    hash(prev + event)
  }

  function Digest(hash: Hash, events: seq<Event>): string
  {
    if events == [] then GENESIS else Link(hash, Digest(hash, Init(events)), Last(events))
  }

  function EventLines(hash: Hash, events: seq<Event>): (lines: seq<Line>)
    ensures |lines| == |events|
  {
    if events == [] then []
    else
      EventLines(hash, Init(events))
      + [EventLine(Last(events), Digest(hash, Init(events)), Digest(hash, events))]
  }

  function Hashes(hash: Hash, events: seq<Event>): (h: seq<string>)
    ensures |h| == |events|
  {
    if events == [] then [] else Hashes(hash, Init(events)) + [Digest(hash, events)]
  }

  function ClosingOf(hash: Hash, events: seq<Event>, until: string): Line
  {
    Closing(FORMAT, |events|, Digest(hash, events), until)
  }

  function Export(hash: Hash, events: seq<Event>, until: string): seq<Line>
  {
    EventLines(hash, events) + [ClosingOf(hash, events, until)]
  }

  method ChainLines(hash: Hash, events: seq<Event>, until: string) returns (lines: seq<Line>)
    ensures lines == Export(hash, events, until)
  {
    var prev, count := GENESIS, 0;
    lines := [];
    for i := 0 to |events|
      invariant prev == Digest(hash, events[..i]) && count == i && lines == EventLines(hash, events[..i])
    {
      assert Init(events[..i + 1]) == events[..i];
      var digest := Link(hash, prev, events[i]);
      lines := lines + [EventLine(events[i], prev, digest)];
      prev, count := digest, count + 1;
    }
    assert events[..|events|] == events;
    lines := lines + [Closing(FORMAT, count, prev, until)];
  }

  // ---------------------------------------------------------------- verification

  function NonBlank(lines: seq<Line>): seq<Line>
  {
    if lines == [] then []
    else if Last(lines).Blank? then NonBlank(Init(lines))
    else NonBlank(Init(lines)) + [Last(lines)]
  }

  /** How far a reading of the lines has come; the closing line is `Blank` until it is met. */
  datatype Scan = Scan(events: seq<Event>, closing: Line) | Stopped(why: Fault)

  function ScanLine(hash: Hash, s: Scan, line: Line): Scan
    requires !line.Blank?
  {
    if s.Stopped? then s
    else if !s.closing.Blank? then Stopped(EventsAfterClosing)
    else if line.Closing? then Scan(s.events, line)
    else if line.Junk? then Stopped(NotAnObject)
    else if line.prev != Digest(hash, s.events) || line.digest != Link(hash, line.prev, line.event)
      then Stopped(BrokenChain)
    else Scan(s.events + [line.event], Blank)
  }

  function ScanAll(hash: Hash, lines: seq<Line>): (s: Scan)
    ensures s.Scan? ==> s.closing.Blank? || s.closing.Closing?
  {
    if lines == [] then Scan([], Blank)
    else if Last(lines).Blank? then ScanAll(hash, Init(lines))
    else ScanLine(hash, ScanAll(hash, Init(lines)), Last(lines))
  }

  function Judge(hash: Hash, s: Scan): Verdict
    requires s.Scan? ==> s.closing.Blank? || s.closing.Closing?
  {
    if s.Stopped? then Faulty(s.why)
    else if s.closing.Blank? || s.closing.format != FORMAT then Faulty(CutShort)
    else if s.closing.count != |s.events| || s.closing.head != Digest(hash, s.events) then Faulty(WrongClosing)
    else Intact(Summary(|s.events|, Digest(hash, s.events), s.closing.until, Hashes(hash, s.events)))
  }

  function Verified(hash: Hash, lines: seq<Line>): Verdict
  {
    Judge(hash, ScanAll(hash, lines))
  }

  lemma {:induction false} StoppedStays(hash: Hash, lines: seq<Line>, i: nat)
    requires i <= |lines| && ScanAll(hash, lines[..i]).Stopped?
    ensures ScanAll(hash, lines) == ScanAll(hash, lines[..i])
  {
    if i < |lines| {
      assert Init(lines)[..i] == lines[..i];
      StoppedStays(hash, Init(lines), i);
    } else {
      assert lines[..i] == lines;
    }
  }

  method Verify(hash: Hash, lines: seq<Line>) returns (verdict: Verdict)
    ensures verdict == Verified(hash, lines)
  {
    var prev, hashes, trailer := GENESIS, [], Blank;
    ghost var events := [];
    for i := 0 to |lines|
      invariant ScanAll(hash, lines[..i]) == Scan(events, trailer)
      invariant prev == Digest(hash, events) && hashes == Hashes(hash, events)
    {
      assert Init(lines[..i + 1]) == lines[..i];
      ghost var here := ScanAll(hash, lines[..i + 1]);
      if here.Stopped? {
        StoppedStays(hash, lines, i + 1);
      }
      var line := lines[i];
      if line.Blank? {
        continue;
      }
      if !trailer.Blank? {
        return Faulty(EventsAfterClosing);
      }
      match line {
        case Junk => return Faulty(NotAnObject);
        case Closing(_, _, _, _) => trailer := line;
        case EventLine(event, claimedPrev, claimed) =>
          if claimedPrev != prev || claimed != Link(hash, prev, event) {
            return Faulty(BrokenChain);
          }
          assert Init(events + [event]) == events;
          events := events + [event];
          prev := claimed;
          hashes := hashes + [claimed];
      }
    }
    assert lines[..|lines|] == lines;
    if trailer.Blank? || trailer.format != FORMAT {
      return Faulty(CutShort);
    }
    if trailer.count != |hashes| || trailer.head != prev {
      return Faulty(WrongClosing);
    }
    return Intact(Summary(|hashes|, prev, trailer.until, hashes));
  }

  // ---------------------------------------------------------------- what verification accepts

  /** The event lines so far, and the closing line once it is met. */
  function Written(hash: Hash, s: Scan): seq<Line>
    requires s.Scan?
  {
    if s.closing.Blank? then EventLines(hash, s.events) else EventLines(hash, s.events) + [s.closing]
  }

  lemma WrittenMore(hash: Hash, s: Scan, line: Line)
    requires s.Scan? && !line.Blank? && ScanLine(hash, s, line).Scan?
    ensures Written(hash, ScanLine(hash, s, line)) == Written(hash, s) + [line]
  {
  }

  lemma {:induction false} ScanReads(hash: Hash, lines: seq<Line>)
    ensures var s := ScanAll(hash, lines); s.Scan? ==> NonBlank(lines) == Written(hash, s)
  {
    if lines != [] {
      ScanReads(hash, Init(lines));
      var before := ScanAll(hash, Init(lines));
      if !Last(lines).Blank? && ScanAll(hash, lines).Scan? {
        WrittenMore(hash, before, Last(lines));
      }
    }
  }

  /** The scan of what an export holds, one line at a time. */
  lemma {:induction false} EventsScan(hash: Hash, events: seq<Event>)
    ensures ScanAll(hash, EventLines(hash, events)) == Scan(events, Blank)
  {
    if events != [] {
      EventsScan(hash, Init(events));
      assert Init(EventLines(hash, events)) == EventLines(hash, Init(events));
      assert events == Init(events) + [Last(events)];
    }
  }

  lemma ExportScan(hash: Hash, events: seq<Event>, until: string)
    ensures ScanAll(hash, Export(hash, events, until)) == Scan(events, ClosingOf(hash, events, until))
  {
    EventsScan(hash, events);
    assert Init(Export(hash, events, until)) == EventLines(hash, events);
  }

  lemma {:induction false} BlankLinesDoNotMatter(hash: Hash, lines: seq<Line>)
    ensures ScanAll(hash, NonBlank(lines)) == ScanAll(hash, lines)
  {
    if lines != [] {
      BlankLinesDoNotMatter(hash, Init(lines));
      if !Last(lines).Blank? {
        assert Init(NonBlank(lines)) == NonBlank(Init(lines)) && Last(NonBlank(lines)) == Last(lines);
        NoBlanks(lines);
      }
    }
  }

  lemma {:induction false} NoBlanks(lines: seq<Line>)
    ensures forall line | line in NonBlank(lines) :: !line.Blank?
  {
    if lines != [] {
      NoBlanks(Init(lines));
    }
  }

  function SummaryOf(hash: Hash, events: seq<Event>, until: string): Summary
  {
    Summary(|events|, Digest(hash, events), until, Hashes(hash, events))
  }

  /** Every export verifies, blank lines or not, and is summed up as what was exported. */
  lemma ExportVerifies(hash: Hash, lines: seq<Line>, events: seq<Event>, until: string)
    requires NonBlank(lines) == Export(hash, events, until)
    ensures Verified(hash, lines) == Intact(SummaryOf(hash, events, until))
  {
    ExportScan(hash, events, until);
    BlankLinesDoNotMatter(hash, lines);
  }

  /** Only exports verify. */
  lemma VerifiedIsExport(hash: Hash, lines: seq<Line>) returns (events: seq<Event>)
    requires Verified(hash, lines).Intact?
    ensures var summary := Verified(hash, lines).summary;
      NonBlank(lines) == Export(hash, events, summary.until) && summary == SummaryOf(hash, events, summary.until)
  {
    ScanReads(hash, lines);
    var s := ScanAll(hash, lines);
    events := s.events;
    assert s.closing == ClosingOf(hash, events, s.closing.until);
  }

  // ---------------------------------------------------------------- one digest seals everything before it

  lemma DigestWidth(hash: Hash, events: seq<Event>)
    requires Hex(hash)
    ensures |Digest(hash, events)| == WIDTH
  {
  }

  /** Two chains' `k`-th links are made of different texts and have the same hash. */
  predicate CollidesAt(hash: Hash, a: seq<Event>, b: seq<Event>, k: nat)
  {
    && k < |a| && k < |b|
    && var x, y := Digest(hash, a[..k]) + a[k], Digest(hash, b[..k]) + b[k];
       x != y && hash(x) == hash(y)
  }

  lemma SameParts(p: string, e: string, q: string, f: string)
    requires |p| == |q| && p + e == q + f
    ensures p == q && e == f
  {
    assert p == (p + e)[..|p|] && q == (q + f)[..|q|];
    assert e == (p + e)[|p|..] && f == (q + f)[|q|..];
  }

  lemma CollidesLater(hash: Hash, a: seq<Event>, b: seq<Event>, k: nat)
    requires a != [] && b != [] && CollidesAt(hash, Init(a), Init(b), k)
    ensures CollidesAt(hash, a, b, k)
  {
    assert Init(a)[..k] == a[..k] && Init(b)[..k] == b[..k];
  }

  /** Equal digests of equally many events: the events are equal, or the two chains collide. */
  lemma {:induction false} DigestDetermines(hash: Hash, a: seq<Event>, b: seq<Event>)
    requires Hex(hash) && |a| == |b| && Digest(hash, a) == Digest(hash, b)
    ensures a == b || exists k :: CollidesAt(hash, a, b, k)
  {
    if a != [] {
      var n := |a| - 1;
      var p, q := Digest(hash, Init(a)), Digest(hash, Init(b));
      assert Init(a) == a[..n] && Init(b) == b[..n];
      if p + Last(a) != q + Last(b) {
        assert CollidesAt(hash, a, b, n);
      } else {
        DigestWidth(hash, Init(a));
        DigestWidth(hash, Init(b));
        SameParts(p, Last(a), q, Last(b));
        DigestDetermines(hash, Init(a), Init(b));
        if Init(a) == Init(b) {
          assert a == Init(a) + [Last(a)] && b == Init(b) + [Last(b)];
        } else {
          var k :| CollidesAt(hash, Init(a), Init(b), k);
          CollidesLater(hash, a, b, k);
        }
      }
    }
  }

  /**
   Whatever was changed, removed, reordered or inserted: a file that still closes with an export's count and head is
   that export, or the events it holds collide with those exported.
   */
  lemma ClosingSealsEverything(hash: Hash, events: seq<Event>, lines: seq<Line>) returns (found: seq<Event>)
    requires Hex(hash) && Verified(hash, lines).Intact?
    requires var summary := Verified(hash, lines).summary;
      summary.count == |events| && summary.head == Digest(hash, events)
    ensures NonBlank(lines) == Export(hash, found, Verified(hash, lines).summary.until)
    ensures found == events || exists k :: CollidesAt(hash, found, events, k)
  {
    found := VerifiedIsExport(hash, lines);
    DigestDetermines(hash, found, events);
  }

  // ---------------------------------------------------------------- extension

  predicate Reaches(hashes: seq<string>, count: nat, head: string)
  {
    count == 0 || (count <= |hashes| && hashes[count - 1] == head)
  }

  /** Both exports intact, and the newer one's hash where the older one ends is the older one's head. */
  function VerifiedExtends(hash: Hash, older: seq<Line>, newer: seq<Line>): Verdict
  {
    match (Verified(hash, older), Verified(hash, newer))
    case (Faulty(why), _) => Faulty(why)
    case (_, Faulty(why)) => Faulty(why)
    case (Intact(o), Intact(n)) => if Reaches(n.hashes, o.count, o.head) then Intact(n) else Faulty(NotAnExtension)
  }

  lemma {:induction false} HashAt(hash: Hash, events: seq<Event>, n: nat)
    requires 0 < n <= |events|
    ensures Hashes(hash, events)[n - 1] == Digest(hash, events[..n])
  {
    if n < |events| {
      HashAt(hash, Init(events), n);
      assert Init(events)[..n] == events[..n];
    } else {
      assert events[..n] == events;
    }
  }

  /** Every export extends every earlier export of the same log. */
  lemma LaterExportExtends(hash: Hash, older: seq<Line>, newer: seq<Line>, before: seq<Event>, after: seq<Event>,
      u: string, v: string)
    requires before <= after
    requires NonBlank(older) == Export(hash, before, u) && NonBlank(newer) == Export(hash, after, v)
    ensures VerifiedExtends(hash, older, newer) == Intact(SummaryOf(hash, after, v))
  {
    ExportVerifies(hash, older, before, u);
    ExportVerifies(hash, newer, after, v);
    if before != [] {
      HashAt(hash, after, |before|);
      assert after[..|before|] == before;
    }
  }

  /** An accepted extension holds every event of the older export, unchanged and in place, or the two collide. */
  lemma ExtensionHoldsTheOlder(hash: Hash, older: seq<Line>, newer: seq<Line>)
      returns (before: seq<Event>, after: seq<Event>)
    requires Hex(hash) && VerifiedExtends(hash, older, newer).Intact?
    ensures NonBlank(older) == Export(hash, before, Verified(hash, older).summary.until)
    ensures NonBlank(newer) == Export(hash, after, Verified(hash, newer).summary.until)
    ensures |before| <= |after|
    ensures before <= after || exists k :: CollidesAt(hash, after[..|before|], before, k)
  {
    before := VerifiedIsExport(hash, older);
    after := VerifiedIsExport(hash, newer);
    if before != [] {
      HashAt(hash, after, |before|);
      DigestDetermines(hash, after[..|before|], before);
    }
  }
}
