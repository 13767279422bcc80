/**
 The alert throttle of the health check: a fingerprint of the problems and the time it was sent are kept
 in a small text file, and each run decides from that file alone whether to send mail.
 */
module Alerts {
  import opened Text

  const DAY := 24 * 60 * 60 * 1_000_000  // microseconds

  // ---------------------------------------------------------------- sorting subjects

  /** Python's order on strings: by code point, a proper prefix first. */
  predicate AtMost(a: string, b: string)
  {
    a == "" || (b != "" && (a[0] < b[0] || (a[0] == b[0] && AtMost(a[1..], b[1..]))))
  }

  lemma {:induction false} AtMostTotal(a: string, b: string)
    ensures AtMost(a, b) || AtMost(b, a)
    ensures AtMost(a, b) && AtMost(b, a) ==> a == b
  {
    if a != "" && b != "" {
      AtMostTotal(a[1..], b[1..]);
      assert a == [a[0]] + a[1..] && b == [b[0]] + b[1..];
    }
  }

  lemma {:induction false} AtMostTransitive(a: string, b: string, c: string)
    requires AtMost(a, b) && AtMost(b, c)
    ensures AtMost(a, c)
  {
    if a != "" && a[0] == b[0] == c[0] {
      AtMostTransitive(a[1..], b[1..], c[1..]);
    }
  }

  function Insert(x: string, s: seq<string>): seq<string>
  {
    if s == [] || AtMost(x, s[0]) then [x] + s else [s[0]] + Insert(x, s[1..])
  }

  /** Python's `sorted`. */
  function Sorted(s: seq<string>): seq<string>
  {
    if s == [] then [] else Insert(s[0], Sorted(s[1..]))
  }

  ghost predicate Ascending(s: seq<string>)
  {
    forall i, j :: 0 <= i < j < |s| ==> AtMost(s[i], s[j])
  }

  lemma {:induction false} InsertHolds(x: string, s: seq<string>)
    ensures multiset(Insert(x, s)) == multiset{x} + multiset(s)
  {
    if s != [] && !AtMost(x, s[0]) {
      InsertHolds(x, s[1..]);
      assert s == [s[0]] + s[1..];
    }
  }

  lemma InAny(x: string, s: seq<string>, y: string)
    requires y in Insert(x, s)
    ensures y == x || y in s
  {
  }

  lemma {:induction false} InsertAscending(x: string, s: seq<string>)
    requires Ascending(s)
    ensures Ascending(Insert(x, s))
  {
    if s == [] {
    } else if AtMost(x, s[0]) {
      forall j | 0 <= j < |s|
        ensures AtMost(x, s[j])
      {
        if j > 0 {
          AtMostTransitive(x, s[0], s[j]);
        }
      }
    } else {
      AtMostTotal(x, s[0]);
      var rest := Insert(x, s[1..]);
      InsertAscending(x, s[1..]);
      forall j | 0 <= j < |rest|
        ensures AtMost(s[0], rest[j])
      {
        InAny(x, s[1..], rest[j]);
      }
    }
  }

  lemma {:induction false} SortedSorts(s: seq<string>)
    ensures Ascending(Sorted(s)) && multiset(Sorted(s)) == multiset(s)
  {
    if s != [] {
      SortedSorts(s[1..]);
      InsertAscending(s[0], Sorted(s[1..]));
      InsertHolds(s[0], Sorted(s[1..]));
      assert s == [s[0]] + s[1..];
    }
  }

  lemma HeadAtMost(a: seq<string>, b: seq<string>)
    requires a != [] && b != [] && Ascending(a) && multiset(a) == multiset(b)
    ensures AtMost(a[0], b[0])
  {
    assert b[0] in multiset(b);
    var i :| 0 <= i < |a| && a[i] == b[0];
    if i == 0 {
      AtMostTotal(a[0], a[0]);
    }
  }

  lemma DropHead(s: seq<string>)
    requires s != []
    ensures multiset(s[1..]) == multiset(s) - multiset{s[0]}
  {
    assert s == [s[0]] + s[1..];
  }

  lemma SameHead(a: seq<string>, b: seq<string>)
    requires a != [] && b != [] && Ascending(a) && Ascending(b) && multiset(a) == multiset(b)
    ensures a[0] == b[0]
  {
    HeadAtMost(a, b);
    HeadAtMost(b, a);
    AtMostTotal(a[0], b[0]);
  }

  /** There is only one ascending order of the same subjects. */
  lemma {:induction false} AscendingUnique(a: seq<string>, b: seq<string>)
    requires Ascending(a) && Ascending(b) && multiset(a) == multiset(b)
    ensures a == b
  {
    assert |a| == |multiset(a)| == |b|;
    if a != [] {
      SameHead(a, b);
      DropHead(a);
      DropHead(b);
      AscendingUnique(a[1..], b[1..]);
      assert a == [a[0]] + a[1..] && b == [b[0]] + b[1..];
    }
  }

  // ---------------------------------------------------------------- the fingerprint

  predicate IsNewline(c: char)
  {
    c == '\n'
  }

  function Fingerprint(subjects: seq<string>): string
  {
    Join(Sorted(subjects), '\n')
  }

  ghost predicate OneLine(subjects: seq<string>)
  {
    forall s | s in subjects :: Free(s, IsNewline)
  }

  /** The same problems in any order. */
  predicate Same(a: seq<string>, b: seq<string>)
  {
    multiset(a) == multiset(b)
  }

  lemma SortedOneLine(subjects: seq<string>)
    requires OneLine(subjects) && subjects != []
    ensures Sorted(subjects) != [] && Split(Fingerprint(subjects), IsNewline) == Sorted(subjects)
  {
    SortedSorts(subjects);
    var s := Sorted(subjects);
    assert |s| == |multiset(s)| == |subjects|;
    forall i | 0 <= i < |s|
      ensures Free(s[i], IsNewline)
    {
      assert s[i] in multiset(s);
    }
    SplitJoin(s, '\n', IsNewline);
  }

  lemma SameFingerprint(a: seq<string>, b: seq<string>)
    requires Same(a, b)
    ensures Fingerprint(a) == Fingerprint(b)
  {
    SortedSorts(a);
    SortedSorts(b);
    AscendingUnique(Sorted(a), Sorted(b));
  }

  lemma EmptyFingerprintIff(a: seq<string>)
    requires OneLine(a)
    ensures Fingerprint(a) == "" <==> a == [] || a == [""]
  {
    if a != [] {
      SortedOneLine(a);
      SortedSorts(a);
      if Fingerprint(a) == "" {
        assert multiset(a) == multiset{""};
        assert |a| == |multiset(a)| == 1;
        assert a[0] in multiset(a);
      }
    }
  }

  /** The one pair of different sets with the same fingerprint: no subject, and one empty subject. */
  predicate EmptyPair(a: seq<string>, b: seq<string>)
  {
    (a == [] && b == [""]) || (a == [""] && b == [])
  }

  lemma DifferentFingerprint(a: seq<string>, b: seq<string>)
    requires OneLine(a) && OneLine(b) && a != [] && b != [] && !Same(a, b)
    ensures Fingerprint(a) != Fingerprint(b)
  {
    SortedOneLine(a);
    SortedOneLine(b);
    SortedSorts(a);
    SortedSorts(b);
  }

  /** The fingerprint tells sets of problems apart, but for one empty subject against none at all. */
  lemma FingerprintIff(a: seq<string>, b: seq<string>)
    requires OneLine(a) && OneLine(b)
    ensures Fingerprint(a) == Fingerprint(b) <==> Same(a, b) || EmptyPair(a, b)
  {
    if Same(a, b) {
      SameFingerprint(a, b);
    } else if a == [] || b == [] {
      EmptyFingerprintIff(a);
      EmptyFingerprintIff(b);
    } else {
      DifferentFingerprint(a, b);
    }
  }

  /** A subject that holds a line break can make two different sets look the same. */
  lemma LineBreakConfuses()
    ensures Fingerprint(["a\nb"]) == Fingerprint(["a", "b"]) && !Same(["a\nb"], ["a", "b"])
  {
  }

  // ---------------------------------------------------------------- the state file

  /** `isoformat` and `fromisoformat`. */
  datatype Clock = Clock(iso: int -> string, parse: string -> Option<int>)

  ghost predicate Lawful(clock: Clock)
  {
    forall t :: clock.parse(clock.iso(t)) == Some(t) && Free(clock.iso(t), IsNewline) && '\r' !in clock.iso(t)
  }

  /** Python reads text files with every kind of line end turned into one. */
  function Universal(s: string): string
  {
    if s == "" then ""
    else if s[0] != '\r' then [s[0]] + Universal(s[1..])
    else if |s| > 1 && s[1] == '\n' then ['\n'] + Universal(s[2..])
    else ['\n'] + Universal(s[1..])
  }

  lemma {:induction false} UniversalIff(s: string)
    ensures '\r' !in Universal(s)
    ensures Universal(s) == s <==> '\r' !in s
  {
    if s != "" {
      UniversalIff(s[1..]);
      if |s| > 1 {
        UniversalIff(s[2..]);
      }
      assert s == [s[0]] + s[1..];
    }
  }

  lemma {:induction false} UniversalAfter(a: string, b: string)
    requires '\r' !in a
    ensures Universal(a + b) == a + Universal(b)
  {
    if a == "" {
      assert a + b == b;
    } else {
      UniversalAfter(a[1..], b);
      assert (a + b)[1..] == a[1..] + b;
      assert a == [a[0]] + a[1..];
    }
  }

  lemma LineEndPair(b: string)
    ensures Universal("\r\n" + b) == "\n" + Universal(b)
  {
    assert ("\r\n" + b)[2..] == b;
  }

  lemma LineEndAlone(b: string)
    requires b == "" || b[0] != '\n'
    ensures Universal("\r" + b) == "\n" + Universal(b)
  {
    assert ("\r" + b)[1..] == b;
  }

  /** A carriage return before a line break goes; one alone becomes a line break; nothing else changes. */
  lemma UniversalLineEnd(a: string, b: string)
    requires '\r' !in a
    ensures Universal(a + ("\r\n" + b)) == a + ("\n" + Universal(b))
    ensures b == "" || b[0] != '\n' ==> Universal(a + ("\r" + b)) == a + ("\n" + Universal(b))
  {
    UniversalAfter(a, "\r\n" + b);
    LineEndPair(b);
    if b == "" || b[0] != '\n' {
      UniversalAfter(a, "\r" + b);
      LineEndAlone(b);
    }
  }

  /** What stands before and after the first line break. */
  function Partition(s: string): (string, string)
  {
    if s == "" then ("", "")
    else if s[0] == '\n' then ("", s[1..])
    else
      var (head, body) := Partition(s[1..]);
      ([s[0]] + head, body)
  }

  lemma {:induction false} PartitionAt(head: string, body: string)
    requires Free(head, IsNewline)
    ensures Partition(head + "\n" + body) == (head, body)
  {
    var s := head + "\n" + body;
    if head == "" {
      assert s[1..] == body;
    } else {
      PartitionAt(head[1..], body);
      assert s[1..] == head[1..] + "\n" + body;
      assert head == [head[0]] + head[1..];
    }
  }

  function ReadState(clock: Clock, file: Option<string>): (string, Option<int>)
  {
    if file.None? then ("", None)
    else
      var (head, body) := Partition(Universal(file.value));
      (body, clock.parse(head))
  }

  function StateText(clock: Clock, fingerprint: string, now: int): string
  {
    clock.iso(now) + "\n" + fingerprint
  }

  /** The state is read back as it was written exactly when no subject holds a carriage return. */
  lemma ReadsBackIff(clock: Clock, fingerprint: string, now: int)
    requires Lawful(clock)
    ensures ReadState(clock, Some(StateText(clock, fingerprint, now))) == (Universal(fingerprint), Some(now))
    ensures ReadState(clock, Some(StateText(clock, fingerprint, now))) == (fingerprint, Some(now))
      <==> '\r' !in fingerprint
  {
    var head := clock.iso(now) + "\n";
    assert '\r' !in head;
    UniversalAfter(head, fingerprint);
    PartitionAt(clock.iso(now), Universal(fingerprint));
    UniversalIff(fingerprint);
  }

  // ---------------------------------------------------------------- one run

  /** What became of the state file when it was written: all of it, nothing, or its first `n` characters. */
  datatype Write = Done | Refused | Cut(n: nat)

  /** One run of the check: what it found, when, and how the file system treated it. */
  datatype Check = Check(subjects: seq<string>, now: int, readable: bool, write: Write)

  function Stored(file: Option<string>, text: string, write: Write): Option<string>
  {
    match write
    case Done => Some(text)
    case Refused => file
    case Cut(n) => Some(if n < |text| then text[..n] else text)
  }

  /** Whether a run writes the state, from what it reads. */
  predicate Writes(c: Check, previous: string, sentAt: Option<int>)
  {
    || Fingerprint(c.subjects) != previous
    || (c.subjects != [] && (sentAt.None? || c.now - sentAt.value >= DAY))
  }

  function Seen(file: Option<string>, c: Check): Option<string>
  {
    if c.readable then file else None
  }

  function NextFile(clock: Clock, file: Option<string>, c: Check): Option<string>
  {
    var (previous, sentAt) := ReadState(clock, Seen(file, c));
    if Writes(c, previous, sentAt) then Stored(file, StateText(clock, Fingerprint(c.subjects), c.now), c.write)
      else file
  }

  predicate Sends(clock: Clock, file: Option<string>, c: Check)
  {
    var (previous, sentAt) := ReadState(clock, Seen(file, c));
    if Fingerprint(c.subjects) != previous then c.subjects != [] || previous != "" else Writes(c, previous, sentAt)
  }

  class Supervisor {
    const clock: Clock
    var file: Option<string>

    constructor (clock: Clock)
      ensures this.clock == clock && file == None
    {
      this.clock := clock;
      file := None;
    }

    method ShouldSend(c: Check) returns (send: bool)
      modifies this
      ensures send == Sends(clock, old(file), c)
      ensures file == NextFile(clock, old(file), c)
    {
      var fingerprint := Fingerprint(c.subjects);
      var (previous, sentAt) := ReadState(clock, Seen(file, c));
      if fingerprint != previous {
        WriteState(fingerprint, c);
        return c.subjects != [] || previous != "";
      }
      if c.subjects != [] && (sentAt.None? || c.now - sentAt.value >= DAY) {
        WriteState(fingerprint, c);
        return true;
      }
      return false;
    }

    method WriteState(fingerprint: string, c: Check)
      modifies this
      ensures file == Stored(old(file), StateText(clock, fingerprint, c.now), c.write)
    {
      var text := clock.iso(c.now) + "\n" + fingerprint;
      match c.write
      case Done => file := Some(text);
      case Refused =>
      case Cut(n) => file := Some(if n < |text| then text[..n] else text);
    }
  }

  // ---------------------------------------------------------------- every sequence of runs

  function FileAfter(clock: Clock, checks: seq<Check>): Option<string>
  {
    if checks == [] then None else NextFile(clock, FileAfter(clock, Init(checks)), Last(checks))
  }

  /** Whether run `i` sends mail, when the file is missing before the first run. */
  predicate SendsAt(clock: Clock, checks: seq<Check>, i: nat)
    requires i < |checks|
  {
    Sends(clock, FileAfter(clock, checks[..i]), checks[i])
  }

  /** Subjects as the checks write them: not empty, on one line. */
  ghost predicate Plain(subjects: seq<string>)
  {
    OneLine(subjects) && forall s | s in subjects :: s != "" && '\r' !in s
  }

  /** Every write completes or leaves the file alone, and every subject is plain. */
  ghost predicate Orderly(checks: seq<Check>)
  {
    forall i | 0 <= i < |checks| :: Plain(checks[i].subjects) && !checks[i].write.Cut?
  }

  /** Reference throttle: it remembers the problems themselves, and no file is involved. */
  datatype Memory = Memory(subjects: seq<string>, sentAt: Option<int>)

  const NOTHING := Memory([], None)

  predicate Announces(m: Memory, c: Check)
  {
    var seen := if c.readable then m else NOTHING;
    || !Same(c.subjects, seen.subjects)
    || (c.subjects != [] && (seen.sentAt.None? || c.now - seen.sentAt.value >= DAY))
  }

  function Learn(m: Memory, c: Check): Memory
  {
    if Announces(m, c) && c.write.Done? then Memory(c.subjects, Some(c.now)) else m
  }

  function Remember(checks: seq<Check>): Memory
  {
    if checks == [] then NOTHING else Learn(Remember(Init(checks)), Last(checks))
  }

  /** The file says what the reference remembers. */
  ghost predicate Agrees(clock: Clock, file: Option<string>, m: Memory)
  {
    Plain(m.subjects) && ReadState(clock, file) == (Fingerprint(m.subjects), m.sentAt)
  }

  lemma {:induction false} JoinFree(pieces: seq<string>)
    requires forall s | s in pieces :: '\r' !in s
    ensures '\r' !in Join(pieces, '\n')
  {
    if |pieces| > 1 {
      JoinFree(pieces[1..]);
    }
  }

  lemma PlainFingerprint(subjects: seq<string>)
    requires Plain(subjects)
    ensures '\r' !in Fingerprint(subjects)
    ensures Fingerprint(subjects) == "" <==> subjects == []
  {
    SortedSorts(subjects);
    forall s | s in Sorted(subjects)
      ensures '\r' !in s
    {
      assert s in multiset(Sorted(subjects));
    }
    JoinFree(Sorted(subjects));
    EmptyFingerprintIff(subjects);
    assert subjects != [] ==> subjects[0] != "";
  }

  lemma PlainFingerprintIff(a: seq<string>, b: seq<string>)
    requires Plain(a) && Plain(b)
    ensures Fingerprint(a) == Fingerprint(b) <==> Same(a, b)
  {
    FingerprintIff(a, b);
    PlainFingerprint(a);
    PlainFingerprint(b);
    assert a != [] ==> a[0] != "";
    assert b != [] ==> b[0] != "";
  }

  lemma SameDecision(clock: Clock, file: Option<string>, m: Memory, c: Check)
    requires Lawful(clock) && Agrees(clock, file, m) && Plain(c.subjects)
    ensures Sends(clock, file, c) == Announces(m, c)
    ensures var (previous, sentAt) := ReadState(clock, Seen(file, c)); Writes(c, previous, sentAt) == Announces(m, c)
  {
    var seen := if c.readable then m else NOTHING;
    assert Plain(seen.subjects);
    PlainFingerprintIff(c.subjects, seen.subjects);
    PlainFingerprint(c.subjects);
    PlainFingerprint(seen.subjects);
    assert ReadState(clock, Seen(file, c)) == (Fingerprint(seen.subjects), seen.sentAt);
  }

  lemma StepAgrees(clock: Clock, file: Option<string>, m: Memory, c: Check)
    requires Lawful(clock) && Agrees(clock, file, m) && Plain(c.subjects) && !c.write.Cut?
    ensures Agrees(clock, NextFile(clock, file, c), Learn(m, c))
  {
    SameDecision(clock, file, m, c);
    PlainFingerprint(c.subjects);
    ReadsBackIff(clock, Fingerprint(c.subjects), c.now);
  }

  lemma {:induction false} RunAgrees(clock: Clock, checks: seq<Check>)
    requires Lawful(clock) && Orderly(checks)
    ensures Agrees(clock, FileAfter(clock, checks), Remember(checks))
  {
    if checks != [] {
      RunAgrees(clock, Init(checks));
      StepAgrees(clock, FileAfter(clock, Init(checks)), Remember(Init(checks)), Last(checks));
    }
  }

  /** Deciding from the file is deciding from the sets of problems, in every run. */
  lemma RefinesReference(clock: Clock, checks: seq<Check>, i: nat)
    requires Lawful(clock) && Orderly(checks) && i < |checks|
    ensures SendsAt(clock, checks, i) == Announces(Remember(checks[..i]), checks[i])
  {
    RunAgrees(clock, checks[..i]);
    SameDecision(clock, FileAfter(clock, checks[..i]), Remember(checks[..i]), checks[i]);
  }

  // ---------------------------------------------------------------- what the throttle promises

  /** What is remembered was sent. */
  ghost predicate Justified(clock: Clock, checks: seq<Check>, m: Memory, i: int)
  {
    if m == NOTHING then i == -1
    else 0 <= i < |checks| && SendsAt(clock, checks, i) && m == Memory(checks[i].subjects, Some(checks[i].now))
  }

  lemma {:induction false} RunJustified(clock: Clock, checks: seq<Check>) returns (i: int)
    requires Lawful(clock) && Orderly(checks)
    ensures Justified(clock, checks, Remember(checks), i)
  {
    if checks == [] {
      i := -1;
    } else {
      var before, k := Init(checks), |checks| - 1;
      i := RunJustified(clock, before);
      RefinesReference(clock, checks, k);
      if SendsAt(clock, checks, k) && Last(checks).write.Done? {
        i := k;
      } else if i >= 0 {
        assert checks[..i] == before[..i];
      }
    }
  }

  /** Silence about problems is always backed by mail about the same problems less than a day before. */
  lemma SilenceIsBacked(clock: Clock, checks: seq<Check>, k: nat) returns (i: nat)
    requires Lawful(clock) && Orderly(checks) && k < |checks|
    requires checks[k].subjects != [] && !SendsAt(clock, checks, k)
    ensures i < k && SendsAt(clock, checks, i)
    ensures Same(checks[i].subjects, checks[k].subjects) && checks[k].now - checks[i].now < DAY
  {
    RefinesReference(clock, checks, k);
    var before := checks[..k];
    var j := RunJustified(clock, before);
    var seen := if checks[k].readable then Remember(before) else NOTHING;
    assert |multiset(checks[k].subjects)| == |checks[k].subjects| > 0;
    assert |multiset(seen.subjects)| == |seen.subjects|;
    i := j;
    assert checks[..i] == before[..i];
  }

  /** Every read and every write succeeds. */
  ghost predicate Smooth(checks: seq<Check>)
  {
    Orderly(checks) && forall i | 0 <= i < |checks| :: checks[i].readable && checks[i].write.Done?
  }

  lemma RemembersLatest(checks: seq<Check>)
    requires Smooth(checks) && checks != []
    ensures Same(Remember(checks).subjects, Last(checks).subjects)
  {
  }

  /** Mail goes out when the problems change, recovery included, and otherwise only while problems persist. */
  lemma ChangeIsSent(clock: Clock, checks: seq<Check>, k: nat)
    requires Lawful(clock) && Smooth(checks) && k < |checks|
    ensures var before := if k == 0 then [] else checks[k - 1].subjects;
      && (!Same(before, checks[k].subjects) ==> SendsAt(clock, checks, k))
      && (Same(before, checks[k].subjects) && checks[k].subjects == [] ==> !SendsAt(clock, checks, k))
  {
    RefinesReference(clock, checks, k);
    if k > 0 {
      assert Last(checks[..k]) == checks[k - 1];
      RemembersLatest(checks[..k]);
    }
  }

  lemma RememberNext(checks: seq<Check>, k: nat)
    requires k < |checks|
    ensures Remember(checks[..k + 1])
         == if AnnouncesAt(checks, k) && checks[k].write.Done? then Memory(checks[k].subjects, Some(checks[k].now))
            else Remember(checks[..k])
  {
    assert Init(checks[..k + 1]) == checks[..k];
  }

  predicate AnnouncesAt(checks: seq<Check>, i: nat)
    requires i < |checks|
  {
    Announces(Remember(checks[..i]), checks[i])
  }

  lemma {:induction false} QuietKeeps(checks: seq<Check>, i: nat, k: nat)
    requires i < k <= |checks| && checks[i].write.Done?
    requires AnnouncesAt(checks, i) && forall j | i < j < k :: !AnnouncesAt(checks, j)
    ensures Remember(checks[..k]) == Memory(checks[i].subjects, Some(checks[i].now))
  {
    RememberNext(checks, k - 1);
    if k - 1 > i {
      QuietKeeps(checks, i, k - 1);
    }
  }

  /** Two mails in a row about the same problems are at least a day apart. */
  lemma RepeatsAreADayApart(clock: Clock, checks: seq<Check>, i: nat, k: nat)
    requires Lawful(clock) && Smooth(checks) && i < k < |checks|
    requires SendsAt(clock, checks, i) && SendsAt(clock, checks, k)
    requires forall j | i < j < k :: !SendsAt(clock, checks, j)
    requires Same(checks[i].subjects, checks[k].subjects)
    ensures checks[k].now - checks[i].now >= DAY
  {
    forall j | i <= j <= k
      ensures AnnouncesAt(checks, j) == SendsAt(clock, checks, j)
    {
      RefinesReference(clock, checks, j);
    }
    QuietKeeps(checks, i, k);
  }

  /** The last run that announced and whose write completed, or -1. */
  function LastWritten(checks: seq<Check>): (i: int)
    ensures -1 <= i < |checks|
  {
    if checks == [] then -1
    else if Announces(Remember(Init(checks)), Last(checks)) && Last(checks).write.Done? then |checks| - 1
    else LastWritten(Init(checks))
  }

  /** What is remembered is that run, and nothing before there is one. */
  lemma {:induction false} RemembersLastWritten(checks: seq<Check>)
    ensures var i := LastWritten(checks);
      Remember(checks) == if i < 0 then NOTHING else Memory(checks[i].subjects, Some(checks[i].now))
  {
    if checks != [] {
      RemembersLastWritten(Init(checks));
    }
  }

  /**
   Over every orderly run, refused writes and unreadable files included: a check is silent exactly when its problems
   are those of the last send that was written down, if it can be read, and there are none or that send is less than a
   day old.
   */
  lemma SilentIff(clock: Clock, checks: seq<Check>, k: nat)
    requires Lawful(clock) && Orderly(checks) && k < |checks|
    ensures var i := if checks[k].readable then LastWritten(checks[..k]) else -1;
      !SendsAt(clock, checks, k)
      <==> if i < 0 then checks[k].subjects == []
           else Same(checks[k].subjects, checks[i].subjects)
                && (checks[k].subjects == [] || checks[k].now - checks[i].now < DAY)
  {
    RefinesReference(clock, checks, k);
    RemembersLastWritten(checks[..k]);
    EmptySame(checks[k].subjects);
  }

  lemma EmptySame(subjects: seq<string>)
    ensures Same(subjects, []) <==> subjects == []
  {
    assert |multiset(subjects)| == |subjects|;
    var none: seq<string> := [];
    assert |multiset(none)| == 0;
  }

  /** One problem mailed and its state not written; the recovery that follows is never mailed. */
  lemma RefusedWriteHidesRecovery(clock: Clock)
    requires Lawful(clock)
    ensures var checks := [Check(["a"], 0, true, Refused), Check([], 0, true, Done)];
      SendsAt(clock, checks, 0) && !SendsAt(clock, checks, 1)
  {
    var c, d := Check(["a"], 0, true, Refused), Check([], 0, true, Done);
    var checks := [c, d];
    TwoLetters();
    assert Orderly(checks);
    SilentIff(clock, checks, 0);
    SilentIff(clock, checks, 1);
    assert checks[..1] == [c] && Init([c]) == [];
  }

  // ---------------------------------------------------------------- a write that is cut short

  lemma {:induction false} PartitionNone(s: string)
    requires Free(s, IsNewline)
    ensures Partition(s) == (s, "")
  {
    if s != "" {
      PartitionNone(s[1..]);
      assert s == [s[0]] + s[1..];
    }
  }

  /** What is left of the fingerprint when the state text is cut after `n` characters. */
  function Remains(clock: Clock, fingerprint: string, now: int, n: nat): string
  {
    var header := |clock.iso(now)| + 1;
    if n <= header then "" else if n - header < |fingerprint| then fingerprint[..n - header] else fingerprint
  }

  lemma CutReads(clock: Clock, file: Option<string>, fingerprint: string, now: int, n: nat)
    requires Lawful(clock) && '\r' !in fingerprint
    ensures var (previous, sentAt) := ReadState(clock, Stored(file, StateText(clock, fingerprint, now), Cut(n)));
      && previous == Remains(clock, fingerprint, now, n)
      && (previous != "" ==> sentAt == Some(now))
  {
    var iso := clock.iso(now);
    var text := StateText(clock, fingerprint, now);
    var left := Remains(clock, fingerprint, now, n);
    if n <= |iso| {
      assert text[..n] == iso[..n];
      UniversalIff(iso[..n]);
      PartitionNone(iso[..n]);
    } else {
      assert Stored(file, text, Cut(n)).value == StateText(clock, left, now);
      ReadsBackIff(clock, left, now);
    }
  }

  /**
   After a cut write a check stays silent for a day, its problems or the recovery unreported, exactly when its
   fingerprint is what was left of the last one.
   */
  lemma CutSilencesIff(clock: Clock, file: Option<string>, c: Check, d: Check)
    requires Lawful(clock) && Plain(c.subjects) && Plain(d.subjects)
    requires c.write.Cut? && d.readable && d.now - c.now < DAY
    requires var (previous, sentAt) := ReadState(clock, Seen(file, c)); Writes(c, previous, sentAt)
    ensures !Sends(clock, NextFile(clock, file, c), d)
       <==> Fingerprint(d.subjects) == Remains(clock, Fingerprint(c.subjects), c.now, c.write.n)
  {
    PlainFingerprint(c.subjects);
    PlainFingerprint(d.subjects);
    CutReads(clock, file, Fingerprint(c.subjects), c.now, c.write.n);
  }

  lemma TwoLetters()
    ensures Plain(["a", "b"]) && Fingerprint(["a", "b"]) == "a\nb"
    ensures Plain(["a"]) && Fingerprint(["a"]) == "a"
  {
  }

  /** So silence can go unbacked: these problems were never mailed as such. */
  lemma CutCanSilence(clock: Clock)
    requires Lawful(clock)
    ensures var checks := [Check(["a", "b"], 0, true, Cut(|clock.iso(0)| + 2)), Check(["a"], 0, true, Done)];
      !SendsAt(clock, checks, 1) && !Same(checks[0].subjects, checks[1].subjects)
  {
    var c, d := Check(["a", "b"], 0, true, Cut(|clock.iso(0)| + 2)), Check(["a"], 0, true, Done);
    var checks := [c, d];
    assert FileAfter(clock, checks[..1]) == NextFile(clock, None, c) by {
      assert checks[..1] == [c] && Init([c]) == [];
    }
    TwoLetters();
    CutSilencesIff(clock, None, c, d);
    assert |multiset(c.subjects)| == 2 && |multiset(d.subjects)| == 1;
  }

  /** Nor is the recovery mailed when the state of the one problem before it was cut to nothing. */
  lemma CutHidesRecovery(clock: Clock)
    requires Lawful(clock)
    ensures var checks := [Check(["a"], 0, true, Cut(0)), Check([], 0, true, Done)];
      SendsAt(clock, checks, 0) && !SendsAt(clock, checks, 1)
  {
    var c, d := Check(["a"], 0, true, Cut(0)), Check([], 0, true, Done);
    var checks := [c, d];
    TwoLetters();
    assert Fingerprint([]) == "";
    assert checks[..0] == [] && FileAfter(clock, []) == None;
    assert FileAfter(clock, checks[..1]) == NextFile(clock, None, c) by {
      assert checks[..1] == [c] && Init([c]) == [];
    }
    CutSilencesIff(clock, None, c, d);
  }

  // ---------------------------------------------------------------- a lawful clock

  function Ones(n: nat): (s: string)
    ensures |s| == n && forall c | c in s :: c == '1'
  {
    if n == 0 then "" else Ones(n - 1) + "1"
  }

  function Tally(t: int): string
  {
    if t >= 0 then Ones(t) else "-" + Ones(-t)
  }

  function Untally(s: string): Option<int>
  {
    if s != "" && s[0] == '-' then Some(1 - |s|) else Some(|s|)
  }

  lemma TallyBack(t: int)
    ensures Untally(Tally(t)) == Some(t)
    ensures Free(Tally(t), IsNewline) && '\r' !in Tally(t)
  {
    if t > 0 {
      assert Tally(t)[0] in Ones(t);
    }
    if t < 0 {
      assert Tally(t)[1..] == Ones(-t);
    }
    forall i | 0 <= i < |Tally(t)|
      ensures Tally(t)[i] == '1' || Tally(t)[i] == '-'
    {
      if t >= 0 {
        assert Tally(t)[i] in Ones(t);
      } else if i > 0 {
        assert Tally(t)[i] == Ones(-t)[i - 1] && Ones(-t)[i - 1] in Ones(-t);
      }
    }
  }

  lemma LawfulClockExists()
    ensures Lawful(Clock(Tally, Untally))
  {
    forall t: int
      ensures Untally(Tally(t)) == Some(t) && Free(Tally(t), IsNewline) && '\r' !in Tally(t)
    {
      TallyBack(t);
    }
  }
}
