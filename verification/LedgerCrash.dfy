/**
 When a crash inside a record leaves the ledger as it was before the record or as the record would leave
 it: the exact conditions, for every state a run reaches, and inputs where it does neither.
 */
module LedgerCrash {
  import opened Text
  import opened Ledger

  // ---------------------------------------------------------------- memories compared

  predicate Holds(m: Memory, e: Entry)
  {
    e.key in m.entries && m.entries[e.key] == e
  }

  lemma PutNothing(m: Memory, e: Entry)
    ensures Put(m, e) == m <==> Holds(m, e)
  {
    assert Put(m, e).entries[e.key] == e;
    if Holds(m, e) {
      assert m.entries[e.key := e] == m.entries;
    }
  }

  /** Recording `e` changes nothing: it is there already and nothing is evicted, or nothing is ever kept. */
  predicate NoChange(m: Memory, e: Entry, max: int)
  {
    (Holds(m, e) && |m.order| <= max) || (m == EMPTY && max <= 0)
  }

  function After(m: Memory, e: Entry, max: int): Memory
  {
    Evict(Put(m, e), max)
  }

  lemma AfterFits(m: Memory, e: Entry, max: int)
    requires !Overflows(m, e, max)
    ensures After(m, e, max) == Put(m, e)
  {
    var p := Put(m, e);
    assert p.order[0..] == p.order && Without(p.entries, p.order[..0]) == p.entries;
  }

  lemma AfterOrder(m: Memory, e: Entry, max: int)
    requires Indexed(m) && Overflows(m, e, max)
    ensures var p := Put(m, e);
      if max <= 0 then After(m, e, max) == EMPTY
      else
        && |After(m, e, max).order| == max < |p.order|
        && Last(After(m, e, max).order) == Last(p.order)
  {
    PutIndexed(m, e);
    var p := Put(m, e);
    if max <= 0 {
      assert Overflow(p, max) == |p.order|;
      NothingLeft(p);
    } else {
      assert Overflow(p, max) == |p.order| - max;
    }
  }

  lemma NothingLeft(p: Memory)
    requires Indexed(p)
    ensures Memory(p.order[|p.order|..], Without(p.entries, p.order[..|p.order|])) == EMPTY
  {
    assert p.order[|p.order|..] == [] && p.order[..|p.order|] == p.order;
    assert Without(p.entries, p.order) == map[];
  }

  lemma NoChangeIff(m: Memory, e: Entry, max: int)
    requires Indexed(m)
    ensures After(m, e, max) == m <==> NoChange(m, e, max)
  {
    PutNothing(m, e);
    if Overflows(m, e, max) {
      AfterOrder(m, e, max);
      if e.key !in m.entries && max > 0 {
        assert Last(Put(m, e).order) == e.key && e.key !in m.order;
        assert Last(After(m, e, max).order) in After(m, e, max).order;
      }
    } else {
      AfterFits(m, e, max);
    }
  }

  /** Evicting is a change. */
  lemma EvictsSome(m: Memory, e: Entry, max: int)
    requires Indexed(m) && Overflows(m, e, max)
    ensures After(m, e, max) != Put(m, e)
  {
    AfterOrder(m, e, max);
    assert Put(m, e).entries[e.key] == e;
  }

  /** Losing a torn tail's entry `a` and undoing it by recording `e` come to the same. */
  predicate Undoes(c: Memory, a: Entry, e: Entry, max: int)
  {
    if max <= 0 then c == EMPTY else e.key == a.key && Holds(c, e) && |c.order| <= max
  }

  lemma UndoesIff(c: Memory, a: Entry, e: Entry, max: int)
    requires Indexed(c) && !Holds(c, a)
    ensures c == After(Put(c, a), e, max) <==> Undoes(c, a, e, max)
  {
    var m := Put(c, a);
    PutIndexed(c, a);
    if max <= 0 {
      UndoesNothingKept(c, a, e, max);
    } else if a.key !in c.entries || e.key !in m.entries {
      UndoesNew(c, a, e, max);
    } else {
      UndoesOld(c, a, e, max);
    }
  }

  lemma UndoesNothingKept(c: Memory, a: Entry, e: Entry, max: int)
    requires Indexed(c) && max <= 0
    ensures c == After(Put(c, a), e, max) <==> c == EMPTY
  {
    PutIndexed(c, a);
    PutIndexed(Put(c, a), e);
    assert e.key in Put(Put(c, a), e).order;
    AfterOrder(Put(c, a), e, max);
  }

  lemma UndoesNew(c: Memory, a: Entry, e: Entry, max: int)
    requires Indexed(c) && max > 0 && !Holds(c, a) && (a.key !in c.entries || e.key !in Put(c, a).entries)
    ensures c != After(Put(c, a), e, max) && !Undoes(c, a, e, max)
  {
    var m := Put(c, a);
    PutIndexed(c, a);
    var last := if e.key in m.entries then a.key else e.key;
    assert Last(Put(m, e).order) == last && last !in c.order;
    if Overflows(m, e, max) {
      AfterOrder(m, e, max);
    } else {
      AfterFits(m, e, max);
    }
    assert Last(After(m, e, max).order) in After(m, e, max).order;
  }

  lemma UndoesOld(c: Memory, a: Entry, e: Entry, max: int)
    requires Indexed(c) && max > 0 && !Holds(c, a) && a.key in c.entries && e.key in c.entries
    ensures c == After(Put(c, a), e, max) <==> Undoes(c, a, e, max)
  {
    var m := Put(c, a);
    PutIndexed(c, a);
    assert m.order == c.order && Put(m, e).order == c.order;
    if Overflows(m, e, max) {
      AfterOrder(m, e, max);
    } else {
      AfterFits(m, e, max);
      PutBack(c.entries, a, e);
    }
  }

  lemma PutBack(entries: map<string, Entry>, a: Entry, e: Entry)
    requires a.key in entries && entries[a.key] != a && e.key in entries
    ensures entries[a.key := a][e.key := e] == entries <==> e.key == a.key && entries[e.key] == e
  {
    var twice := entries[a.key := a][e.key := e];
    assert twice[e.key] == e;
    if e.key != a.key {
      assert twice[a.key] == a;
    } else if entries[e.key] == e {
      assert twice == entries;
    }
  }

  // ---------------------------------------------------------------- a file that says less than memory

  function WithoutOldest(m: Memory): Memory
    requires m.order != []
  {
    Memory(m.order[1..], m.entries - {m.order[0]})
  }

  /** The file, `f`, and the memory, `m`, of a session that has lost its first record. */
  ghost predicate Gap(f: Memory, m: Memory, max: int)
  {
    Indexed(f) && Indexed(m) && f != m && 0 < |m.order| <= max && f.entries.Keys <= m.entries.Keys
  }

  lemma GapBefore(f: Memory, m: Memory, e: Entry, max: int)
    requires Gap(f, m, max)
    ensures f == After(m, e, max) <==> f == Put(m, e)
  {
    if Overflows(m, e, max) {
      assert e.key !in m.entries && Last(Put(m, e).order) == e.key;
      AfterOrder(m, e, max);
      assert Last(After(m, e, max).order) in After(m, e, max).order && e.key !in f.order;
      assert Last(Put(m, e).order) in Put(m, e).order;
    } else {
      AfterFits(m, e, max);
    }
  }

  /** Whether recording `e` in both makes the file's memory what the record leaves. */
  predicate Mends(f: Memory, m: Memory, e: Entry, max: int)
    requires m.order != []
  {
    if Overflows(m, e, max) then f == WithoutOldest(m) else Put(f, e) == Put(m, e)
  }

  lemma OldestGoes(m: Memory, e: Entry, max: int)
    requires Indexed(m) && 0 < |m.order| <= max && Overflows(m, e, max)
    ensures e.key !in m.entries
    ensures After(m, e, max) == Memory(m.order[1..] + [e.key], (m.entries - {m.order[0]})[e.key := e])
  {
    var p := Put(m, e);
    assert e.key !in m.entries && |m.order| == max && Overflow(p, max) == 1;
    assert p.order[1..] == m.order[1..] + [e.key] && p.order[..1] == [m.order[0]];
    assert m.order[0] in m.order;
    assert Without(p.entries, [m.order[0]]) == (m.entries - {m.order[0]})[e.key := e];
  }

  lemma GapAfter(f: Memory, m: Memory, e: Entry, max: int)
    requires Gap(f, m, max)
    ensures Put(f, e) == After(m, e, max) <==> Mends(f, m, e, max)
  {
    if Overflows(m, e, max) {
      OldestGoes(m, e, max);
      SameBeforePut(f, WithoutOldest(m), e);
    } else {
      AfterFits(m, e, max);
    }
  }

  lemma SameBeforePut(f: Memory, g: Memory, e: Entry)
    requires e.key !in f.entries && e.key !in g.entries
    ensures Put(f, e) == Put(g, e) <==> f == g
  {
    if Put(f, e) == Put(g, e) {
      assert f.order == Put(f, e).order[..|f.order|] && g.order == Put(g, e).order[..|g.order|];
      assert f.entries == Put(f, e).entries - {e.key} && g.entries == Put(g, e).entries - {e.key};
    }
  }

  // ---------------------------------------------------------------- the exact conditions

  /** What the file says of the torn tail: an entry, if the tail happens to be a whole object. */
  function TailEntry(codec: Codec, disk: string): seq<Entry>
  {
    Usable(codec, Tail(disk))
  }

  /** When a crash leaves the ledger as it was. */
  predicate LeavesBefore(codec: Codec, s: State, e: Entry, max: int, stop: Stop)
  {
    var file, settled, tail := Loaded(codec, s.disk).mem, Replay(Settled(codec, s.disk)), TailEntry(codec, s.disk);
    if stop.Replaced? && Overflows(s.mem, e, max) then s.mem == EMPTY && max <= 0
    else if file != s.mem then Whole(codec, e, stop) && Put(file, e) == s.mem
    else if Tail(s.disk) == "" then !Whole(codec, e, stop) || Holds(s.mem, e)
    else stop == Appending(0) || tail == [] || Holds(settled, tail[0])
  }

  /** When a crash leaves the ledger as the record would have. */
  predicate LeavesAfter(codec: Codec, s: State, e: Entry, max: int, stop: Stop)
  {
    var file, settled, tail := Loaded(codec, s.disk).mem, Replay(Settled(codec, s.disk)), TailEntry(codec, s.disk);
    if stop.Replaced? && Overflows(s.mem, e, max) then true
    else if file != s.mem then
      if Whole(codec, e, stop) then s.mem.order != [] && Mends(file, s.mem, e, max) else file == Put(s.mem, e)
    else if Tail(s.disk) == "" && Whole(codec, e, stop) then !Overflows(s.mem, e, max)
    else if Tail(s.disk) == "" || stop == Appending(0) || tail == [] || Holds(settled, tail[0])
      then NoChange(s.mem, e, max)
    else Undoes(settled, tail[0], e, max)
  }

  lemma RecordIsAfter(codec: Codec, s: State, e: Entry, max: int)
    requires Indexed(s.mem)
    ensures Record(codec, s, e, max).mem == After(s.mem, e, max)
  {
    RecordKeeps(codec, s, e, max);
  }

  /** A torn tail's entry is what stands between the complete lines and what a load finds. */
  lemma TornMemory(codec: Codec, disk: string)
    ensures var tail := TailEntry(codec, disk);
      Loaded(codec, disk).mem == if tail == [] then Replay(Settled(codec, disk))
        else Put(Replay(Settled(codec, disk)), tail[0])
  {
    var settled, tail := Settled(codec, disk), TailEntry(codec, disk);
    assert EntriesOf(codec, disk) == settled + tail;
    if tail == [] {
      assert settled + tail == settled;
    } else {
      assert tail == [tail[0]];
      ReplayAppend(settled, tail[0]);
    }
  }

  lemma TornCase(codec: Codec, s: State, e: Entry, max: int, stop: Stop)
    requires Reached(codec, s, max) && s == Loaded(codec, s.disk) && Tail(s.disk) != "" && stop != Appending(0)
    requires !(stop.Replaced? && Overflows(s.mem, e, max))
    ensures Reload(codec, s, e, max, stop) == s.mem <==> LeavesBefore(codec, s, e, max, stop)
    ensures Reload(codec, s, e, max, stop) == After(s.mem, e, max) <==> LeavesAfter(codec, s, e, max, stop)
  {
    var settled, tail := Replay(Settled(codec, s.disk)), TailEntry(codec, s.disk);
    TornMemory(codec, s.disk);
    ReplayIndexed(Settled(codec, s.disk));
    NoChangeIff(s.mem, e, max);
    if tail != [] {
      PutNothing(settled, tail[0]);
      if !Holds(settled, tail[0]) {
        UndoesIff(settled, tail[0], e, max);
      }
    }
  }

  lemma CleanCase(codec: Codec, s: State, e: Entry, max: int, stop: Stop)
    requires codec.ser(e) != "" && Indexed(s.mem) && s == Loaded(codec, s.disk)
    requires Tail(s.disk) == "" || stop == Appending(0)
    requires !(stop.Replaced? && Overflows(s.mem, e, max))
    ensures Reload(codec, s, e, max, stop) == s.mem <==> LeavesBefore(codec, s, e, max, stop)
    ensures Reload(codec, s, e, max, stop) == After(s.mem, e, max) <==> LeavesAfter(codec, s, e, max, stop)
  {
    NoChangeIff(s.mem, e, max);
    PutNothing(s.mem, e);
    if Overflows(s.mem, e, max) {
      EvictsSome(s.mem, e, max);
    } else {
      AfterFits(s.mem, e, max);
    }
  }

  lemma GapReload(codec: Codec, s: State, e: Entry, max: int, stop: Stop)
    requires codec.ser(e) != "" && Tail(s.disk) == "" && !(stop.Replaced? && Overflows(s.mem, e, max))
    ensures var file := Loaded(codec, s.disk).mem;
      Reload(codec, s, e, max, stop) == if Whole(codec, e, stop) then Put(file, e) else file
  {
  }

  lemma ReachedGap(codec: Codec, s: State, max: int)
    requires Reached(codec, s, max) && s != Loaded(codec, s.disk)
    ensures Tail(s.disk) == "" && Gap(Loaded(codec, s.disk).mem, s.mem, max)
  {
    ReplayIndexed(EntriesOf(codec, s.disk));
  }

  lemma GapCase(codec: Codec, s: State, e: Entry, max: int, stop: Stop)
    requires codec.ser(e) != "" && Tail(s.disk) == "" && Gap(Loaded(codec, s.disk).mem, s.mem, max)
    requires !(stop.Replaced? && Overflows(s.mem, e, max))
    ensures Reload(codec, s, e, max, stop) == s.mem <==> LeavesBefore(codec, s, e, max, stop)
    ensures Reload(codec, s, e, max, stop) == After(s.mem, e, max) <==> LeavesAfter(codec, s, e, max, stop)
  {
    var file := Loaded(codec, s.disk).mem;
    GapReload(codec, s, e, max, stop);
    if Whole(codec, e, stop) {
      GapAfter(file, s.mem, e, max);
    } else {
      GapBefore(file, s.mem, e, max);
    }
  }

  lemma EvictedIsBeforeIff(m: Memory, e: Entry, max: int)
    requires Indexed(m) && Overflows(m, e, max)
    ensures After(m, e, max) == m <==> m == EMPTY && max <= 0
  {
    NoChangeIff(m, e, max);
    PutNothing(m, e);
  }

  lemma ReachedIff(codec: Codec, s: State, e: Entry, max: int, stop: Stop)
    requires Lawful(codec) && Reached(codec, s, max)
    ensures Reload(codec, s, e, max, stop) == s.mem <==> LeavesBefore(codec, s, e, max, stop)
    ensures Reload(codec, s, e, max, stop) == Record(codec, s, e, max).mem <==> LeavesAfter(codec, s, e, max, stop)
  {
    RecordIsAfter(codec, s, e, max);
    NotEmpty(codec, e);
    if stop.Replaced? && Overflows(s.mem, e, max) {
      EvictedIsBeforeIff(s.mem, e, max);
    } else if s != Loaded(codec, s.disk) {
      ReachedGap(codec, s, max);
      GapCase(codec, s, e, max, stop);
    } else if Tail(s.disk) == "" || stop == Appending(0) {
      CleanCase(codec, s, e, max, stop);
    } else {
      TornCase(codec, s, e, max, stop);
    }
  }

  /** In every state a run reaches, when a crash inside the next record leaves the ledger as it was. */
  lemma CrashBeforeIff(codec: Codec, disk: string, ops: seq<Op>, e: Entry, max: int, stop: Stop)
    requires Lawful(codec) && TailOk(codec, disk)
    ensures var s := Run(codec, Loaded(codec, disk), ops, max);
      Run(codec, Loaded(codec, disk), ops + [Crash(e, stop)], max).mem == s.mem
      <==> LeavesBefore(codec, s, e, max, stop)
  {
    var s := Run(codec, Loaded(codec, disk), ops, max);
    CrashNext(codec, disk, ops, e, max, stop);
    ReachedIff(codec, s, e, max, stop);
  }

  /** And when it leaves the ledger as the record would have. */
  lemma CrashAfterIff(codec: Codec, disk: string, ops: seq<Op>, e: Entry, max: int, stop: Stop)
    requires Lawful(codec) && TailOk(codec, disk)
    ensures var s := Run(codec, Loaded(codec, disk), ops, max);
      Run(codec, Loaded(codec, disk), ops + [Crash(e, stop)], max).mem == Record(codec, s, e, max).mem
      <==> LeavesAfter(codec, s, e, max, stop)
  {
    var s := Run(codec, Loaded(codec, disk), ops, max);
    CrashNext(codec, disk, ops, e, max, stop);
    ReachedIff(codec, s, e, max, stop);
  }

  lemma RunNext(codec: Codec, s: State, ops: seq<Op>, op: Op, max: int)
    ensures Run(codec, s, ops + [op], max) == Step(codec, Run(codec, s, ops, max), op, max)
  {
    assert Init(ops + [op]) == ops;
  }

  lemma CrashNext(codec: Codec, disk: string, ops: seq<Op>, e: Entry, max: int, stop: Stop)
    requires Lawful(codec) && TailOk(codec, disk)
    ensures var s := Run(codec, Loaded(codec, disk), ops, max);
      Reached(codec, s, max)
      && Run(codec, Loaded(codec, disk), ops + [Crash(e, stop)], max).mem == Reload(codec, s, e, max, stop)
  {
    var s := Run(codec, Loaded(codec, disk), ops, max);
    RunReaches(codec, disk, ops, max);
    RunNext(codec, Loaded(codec, disk), ops, Crash(e, stop), max);
    CrashReload(codec, s, e, max, stop);
  }

  /**
   In every state a run reaches, a crash inside the next record leaves one or the other exactly when one of these
   holds.
   */
  lemma BeforeOrAfterIff(codec: Codec, disk: string, ops: seq<Op>, e: Entry, max: int, stop: Stop)
    requires Lawful(codec) && TailOk(codec, disk)
    ensures var s := Run(codec, Loaded(codec, disk), ops, max);
      var reload := Run(codec, Loaded(codec, disk), ops + [Crash(e, stop)], max).mem;
      reload == s.mem || reload == Record(codec, s, e, max).mem
      <==> LeavesBefore(codec, s, e, max, stop) || LeavesAfter(codec, s, e, max, stop)
  {
    CrashBeforeIff(codec, disk, ops, e, max, stop);
    CrashAfterIff(codec, disk, ops, e, max, stop);
  }

  /**
   On a newline-terminated file that agrees with memory the condition is simple: only an eviction cut short is
   neither.
   */
  lemma CleanIff(codec: Codec, s: State, e: Entry, max: int, stop: Stop)
    requires Tail(s.disk) == "" && s == Loaded(codec, s.disk)
    ensures LeavesBefore(codec, s, e, max, stop) || LeavesAfter(codec, s, e, max, stop)
       <==> !Whole(codec, e, stop) || stop.Replaced? || !Overflows(s.mem, e, max) || Holds(s.mem, e)
  {
  }

  /** On a torn tail it is lost with the tail: before exactly when the tail said nothing of its own. */
  lemma TornIff(codec: Codec, s: State, e: Entry, max: int, stop: Stop)
    requires Tail(s.disk) != "" && s == Loaded(codec, s.disk) && stop != Appending(0) && max > 0
    requires !(stop.Replaced? && Overflows(s.mem, e, max))
    ensures var tail, settled := TailEntry(codec, s.disk), Replay(Settled(codec, s.disk));
      LeavesBefore(codec, s, e, max, stop) || LeavesAfter(codec, s, e, max, stop)
      <==> || tail == [] || Holds(settled, tail[0])
           || (e.key == tail[0].key && Holds(settled, e) && |settled.order| <= max)
  {
  }

  // ---------------------------------------------------------------- inputs where it is neither

  lemma OneEntry(codec: Codec, a: Entry)
    requires Lawful(codec)
    ensures Tail(Line(codec, a)) == "" && Loaded(codec, Line(codec, a)).mem == Put(EMPTY, a)
  {
    EmptyFile(codec);
    AppendClean(codec, "", a);
    assert "" + Line(codec, a) == Line(codec, a);
    ReplayAppend([], a);
  }

  lemma TwoKeys(a: Entry, b: Entry)
    requires a.key != b.key
    ensures var m := Put(EMPTY, a); m.order == [a.key] && Put(m, b).order == [a.key, b.key]
    ensures After(Put(EMPTY, a), b, 1).order == [b.key]
    ensures After(Put(EMPTY, a), b, 2).order == [a.key, b.key]
  {
  }

  const A := Entry("a", "", "", 0, "")
  const B := Entry("b", "", "", 0, "")

  lemma KeysDiffer()
    ensures A.key == "a" && B.key == "b" && A.key != B.key
  {
    assert "a"[0] != "b"[0];
  }

  lemma RecordsBoth(codec: Codec, s: State)
    requires s.mem == Put(EMPTY, A)
    ensures Indexed(s.mem) && s.mem.order == ["a"]
    ensures Record(codec, s, B, 1).mem.order == ["b"] && Record(codec, s, B, 2).mem.order == ["a", "b"]
    ensures Put(s.mem, B).order == ["a", "b"]
  {
    KeysDiffer();
    TwoKeys(A, B);
    PutIndexed(EMPTY, A);
    RecordIsAfter(codec, s, B, 1);
    RecordIsAfter(codec, s, B, 2);
  }

  /** A ledger of one entry at most, a second key, and a crash before the rewritten file is in place: both are there. */
  lemma CrashKeepsTooMany(codec: Codec)
    requires Lawful(codec)
    ensures var s := Loaded(codec, Line(codec, A));
      && s.mem.order == ["a"] && Record(codec, s, B, 1).mem.order == ["b"]
      && Loaded(codec, DiskAt(codec, s, B, 1, NotReplaced)).mem.order == ["a", "b"]
  {
    var s := Loaded(codec, Line(codec, A));
    OneEntry(codec, A);
    RecordsBoth(codec, s);
    CrashReload(codec, s, B, 1, NotReplaced);
  }

  lemma WholeTail(codec: Codec, a: Entry)
    requires Lawful(codec)
    ensures var disk := Interrupted(codec, "", a, |codec.ser(a)|);
      && Torn(codec, Tail(disk)) && Tail(disk) != "" && Settled(codec, disk) == []
      && Loaded(codec, disk).mem == Put(EMPTY, a)
  {
    var n := |codec.ser(a)|;
    NotEmpty(codec, a);
    EmptyFile(codec);
    CleanTail(codec, "");
    PartReload(codec, "", a, n);
    InterruptedSplit(codec, "", a, n);
    TornMore(codec, "", a, n);
    assert "" + codec.ser(a)[..n] == codec.ser(a)[..n];
  }

  lemma ForgetsFrom(codec: Codec, disk: string)
    requires Lawful(codec) && Torn(codec, Tail(disk)) && Tail(disk) != "" && Settled(codec, disk) == []
    requires Loaded(codec, disk).mem == Put(EMPTY, A)
    ensures Record(codec, Loaded(codec, disk), B, 2).mem.order == ["a", "b"]
    ensures Loaded(codec, DiskAt(codec, Loaded(codec, disk), B, 2, Appending(1))).mem == EMPTY
  {
    RecordsBoth(codec, Loaded(codec, disk));
    CrashReload(codec, Loaded(codec, disk), B, 2, Appending(1));
  }

  /** Two crashes: the first leaves a whole object and no newline, the second one more character, and both are gone. */
  lemma SecondCrashForgets(codec: Codec)
    requires Lawful(codec)
    ensures var first := Loaded(codec, DiskAt(codec, Loaded(codec, ""), A, 2, Appending(|codec.ser(A)|)));
      && first.mem == Put(EMPTY, A) && Record(codec, first, B, 2).mem.order == ["a", "b"]
      && Loaded(codec, DiskAt(codec, first, B, 2, Appending(1))).mem == EMPTY
  {
    WholeTail(codec, A);
    ForgetsFrom(codec, Interrupted(codec, "", A, |codec.ser(A)|));
  }
}
