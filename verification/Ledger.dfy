/**
 The agent's idempotency ledger: a dictionary and an order list in memory, backed by an
 append-only file of one JSON object a line. The file is modelled character by character,
 so that a crash can stop an append anywhere.
 */
module Ledger {
  import opened Text

  datatype Entry = Entry(key: string, kind: string, target: string, generation: int, response: string)

  /** JSON, as two functions; `Lawful` lists what the ledger relies on. */
  datatype Codec = Codec(ser: Entry -> string, parse: string -> Option<Entry>)

  predicate Blank(line: string)
  {
    forall i :: 0 <= i < |line| ==> IsSpace(line[i])
  }

  /** `not line.strip()` */
  lemma BlankIff(line: string)
    ensures Blank(line) <==> Trim(line, IsSpace) == ""
  {
    TrimEmptyIff(line, IsSpace);
  }

  function Concat(pieces: seq<string>): string
  {
    if pieces == [] then "" else Concat(Init(pieces)) + Last(pieces)
  }

  /** Every piece is a non-empty beginning of some serialised entry, possibly all of it. */
  ghost predicate Fragments(codec: Codec, pieces: seq<string>)
  {
    forall i :: 0 <= i < |pieces| ==> pieces[i] != "" && exists e :: pieces[i] <= codec.ser(e)
  }

  ghost predicate Lawful(codec: Codec)
  {
    && (forall e :: codec.parse(codec.ser(e)) == Some(e))
    && (forall e :: Free(codec.ser(e), IsBreak) && !Blank(codec.ser(e)))
    // An object cut short is not JSON.
    && (forall e, p :: p <= codec.ser(e) && p != codec.ser(e) ==> codec.parse(p) == None)
    // Neither are two objects, whole or cut short, on one line.
    && (forall pieces :: Fragments(codec, pieces) && |pieces| >= 2 ==> codec.parse(Concat(pieces)) == None)
  }

  // ---------------------------------------------------------------- memory

  datatype Memory = Memory(order: seq<string>, entries: map<string, Entry>)

  const EMPTY := Memory([], map[])

  /** A key's first appearance fixes its place, its last one its value. */
  function Put(m: Memory, e: Entry): Memory
  {
    Memory(if e.key in m.entries then m.order else m.order + [e.key], m.entries[e.key := e])
  }

  function Replay(es: seq<Entry>): Memory
  {
    if es == [] then EMPTY else Put(Replay(Init(es)), Last(es))
  }

  ghost predicate Indexed(m: Memory)
  {
    && (forall i, j :: 0 <= i < j < |m.order| ==> m.order[i] != m.order[j])
    && (forall k :: k in m.order <==> k in m.entries)
    && (forall k :: k in m.entries ==> m.entries[k].key == k)
  }

  /** Python's `order[:overflow]` and `order[overflow:]`, whatever the sign of `max`. */
  function Overflow(m: Memory, max: int): nat
  {
    if |m.order| <= max then 0 else if max < 0 then |m.order| else |m.order| - max
  }

  function Evict(m: Memory, max: int): Memory
  {
    var n := Overflow(m, max);
    Memory(m.order[n..], Without(m.entries, m.order[..n]))
  }

  function Without(entries: map<string, Entry>, keys: seq<string>): map<string, Entry>
  {
    map k | k in entries && k !in keys :: entries[k]
  }

  lemma WithoutOne(entries: map<string, Entry>, keys: seq<string>, key: string)
    ensures Without(entries, keys + [key]) == Without(entries, keys) - {key}
  {
  }

  // ---------------------------------------------------------------- file

  function Usable(codec: Codec, line: string): seq<Entry>
  {
    if Blank(line) then []
    else match codec.parse(line) { case None => [] case Some(e) => [e] }
  }

  function Parsed(codec: Codec, lines: seq<string>): seq<Entry>
  {
    if lines == [] then [] else Parsed(codec, Init(lines)) + Usable(codec, Last(lines))
  }

  /** The entries a load finds in the file, in file order. */
  function EntriesOf(codec: Codec, text: string): seq<Entry>
  {
    Parsed(codec, Split(text, IsBreak))
  }

  /** What follows the last line break: non-empty exactly when the file is not newline-terminated. */
  function Tail(text: string): string
  {
    Last(Split(text, IsBreak))
  }

  /** The entries of the complete lines alone. */
  function Settled(codec: Codec, text: string): seq<Entry>
  {
    Parsed(codec, Init(Split(text, IsBreak)))
  }

  /** A tail that only interrupted appends can leave. */
  ghost predicate Torn(codec: Codec, tail: string)
  {
    exists pieces :: Fragments(codec, pieces) && pieces != [] && Concat(pieces) == tail
  }

  function Line(codec: Codec, e: Entry): string
  {
    codec.ser(e) + "\n"
  }

  /** The entries in order, as a compaction writes them out. */
  function Listed(order: seq<string>, entries: map<string, Entry>): seq<Entry>
  {
    if order == [] then []
    else Listed(Init(order), entries) + (if Last(order) in entries then [entries[Last(order)]] else [])
  }

  function Lines(codec: Codec, es: seq<Entry>): string
  {
    if es == [] then "" else Lines(codec, Init(es)) + Line(codec, Last(es))
  }

  // ---------------------------------------------------------------- replay follows appends

  lemma SplitLine(codec: Codec, text: string, e: Entry)
    requires Lawful(codec)
    ensures Split(text + Line(codec, e), IsBreak)
         == Init(Split(text, IsBreak)) + [Tail(text) + codec.ser(e), ""]
  {
    assert Free(codec.ser(e), IsBreak);
    SplitText(text, codec.ser(e));
  }

  lemma SplitEnded(line: string)
    requires Free(line, IsBreak)
    ensures Split(line + "\n", IsBreak) == [line, ""]
  {
    SplitFree(line, IsBreak);
    SplitAppend(line, "\n", IsBreak);
    SplitNewline();
    GlueEnd(line);
  }

  lemma SplitNewline()
    ensures Split("\n", IsBreak) == ["", ""]
  {
    assert IsBreak('\n') && "\n"[1..] == "";
  }

  lemma GlueEnd(line: string)
    ensures Glue([line], ["", ""]) == [line, ""]
  {
    assert line + "" == line;
  }

  lemma SplitText(text: string, line: string)
    requires Free(line, IsBreak)
    ensures Split(text + (line + "\n"), IsBreak) == Init(Split(text, IsBreak)) + [Last(Split(text, IsBreak)) + line, ""]
  {
    SplitEnded(line);
    SplitAppend(text, line + "\n", IsBreak);
  }

  /** One appended line settles everything before it: alone it is the entry, after a tail it is nothing. */
  lemma AppendLine(codec: Codec, text: string, e: Entry)
    requires Lawful(codec)
    ensures Tail(text + Line(codec, e)) == ""
    ensures EntriesOf(codec, text + Line(codec, e)) == Settled(codec, text + Line(codec, e))
    ensures EntriesOf(codec, text + Line(codec, e))
         == Settled(codec, text) + Usable(codec, Tail(text) + codec.ser(e))
  {
    SplitLine(codec, text, e);
    var init := Init(Split(text, IsBreak));
    var glued := Tail(text) + codec.ser(e);
    assert Init(init + [glued, ""]) == init + [glued];
    assert Init(init + [glued]) == init;
  }

  lemma CleanTail(codec: Codec, text: string)
    requires Tail(text) == ""
    ensures EntriesOf(codec, text) == Settled(codec, text)
  {
  }

  lemma AppendClean(codec: Codec, text: string, e: Entry)
    requires Lawful(codec) && Tail(text) == ""
    ensures Tail(text + Line(codec, e)) == ""
    ensures EntriesOf(codec, text + Line(codec, e)) == EntriesOf(codec, text) + [e]
  {
    AppendLine(codec, text, e);
    assert "" + codec.ser(e) == codec.ser(e);
  }

  lemma FragmentsMore(codec: Codec, pieces: seq<string>, e: Entry)
    requires Fragments(codec, pieces) && codec.ser(e) != ""
    ensures Fragments(codec, pieces + [codec.ser(e)])
  {
  }

  lemma NotEmpty(codec: Codec, e: Entry)
    requires Lawful(codec)
    ensures codec.ser(e) != ""
  {
  }

  lemma GluedLine(codec: Codec, pieces: seq<string>, e: Entry)
    requires Lawful(codec) && Fragments(codec, pieces) && pieces != []
    ensures Usable(codec, Concat(pieces) + codec.ser(e)) == []
  {
    var more := pieces + [codec.ser(e)];
    NotEmpty(codec, e);
    FragmentsMore(codec, pieces, e);
    assert Init(more) == pieces && Last(more) == codec.ser(e);
    assert Concat(more) == Concat(pieces) + codec.ser(e);
  }

  lemma AppendTorn(codec: Codec, text: string, e: Entry)
    requires Lawful(codec) && Torn(codec, Tail(text))
    ensures Tail(text + Line(codec, e)) == ""
    ensures EntriesOf(codec, text + Line(codec, e)) == Settled(codec, text)
  {
    AppendLine(codec, text, e);
    var pieces :| Fragments(codec, pieces) && pieces != [] && Concat(pieces) == Tail(text);
    GluedLine(codec, pieces, e);
  }

  lemma {:induction false} ReplayIndexed(es: seq<Entry>)
    ensures Indexed(Replay(es))
  {
    if es != [] {
      ReplayIndexed(Init(es));
      PutIndexed(Replay(Init(es)), Last(es));
    }
  }

  lemma PutIndexed(m: Memory, e: Entry)
    requires Indexed(m)
    ensures Indexed(Put(m, e))
  {
  }

  lemma EvictIndexed(m: Memory, max: int)
    requires Indexed(m)
    ensures Indexed(Evict(m, max))
    ensures |Evict(m, max).order| <= if max < 0 then 0 else max
  {
  }

  lemma EmptyFile(codec: Codec)
    ensures Tail("") == "" && EntriesOf(codec, "") == []
  {
    assert Split("", IsBreak) == [""];
    assert Init([""]) == [];
    CleanTail(codec, "");
  }

  lemma ReadBackNext(codec: Codec, text: string, es: seq<Entry>)
    requires Lawful(codec) && es != [] && Tail(text) == "" && EntriesOf(codec, text) == Init(es)
    ensures Tail(text + Line(codec, Last(es))) == ""
    ensures EntriesOf(codec, text + Line(codec, Last(es))) == es
  {
    AppendClean(codec, text, Last(es));
    assert es == Init(es) + [Last(es)];
  }

  lemma {:induction false} LinesReadBack(codec: Codec, es: seq<Entry>)
    requires Lawful(codec)
    ensures Tail(Lines(codec, es)) == ""
    ensures EntriesOf(codec, Lines(codec, es)) == es
  {
    if es == [] {
      EmptyFile(codec);
    } else {
      LinesReadBack(codec, Init(es));
      ReadBackNext(codec, Lines(codec, Init(es)), es);
    }
  }

  lemma {:induction false} ListedReplays(order: seq<string>, entries: map<string, Entry>)
    requires forall i, j :: 0 <= i < j < |order| ==> order[i] != order[j]
    requires forall k :: k in order ==> k in entries && entries[k].key == k
    ensures Replay(Listed(order, entries)) == Memory(order, map k | k in order :: entries[k])
  {
    if order != [] {
      var before, last := Init(order), Last(order);
      ListedReplays(before, entries);
      assert order == before + [last];
      assert last !in before;
      assert Init(Listed(order, entries)) == Listed(before, entries);
    }
  }

  /** A rewritten file replays to exactly the memory it was written from. */
  lemma RewriteReplays(codec: Codec, m: Memory)
    requires Lawful(codec) && Indexed(m)
    ensures Tail(Lines(codec, Listed(m.order, m.entries))) == ""
    ensures Replay(EntriesOf(codec, Lines(codec, Listed(m.order, m.entries)))) == m
  {
    LinesReadBack(codec, Listed(m.order, m.entries));
    ListedReplays(m.order, m.entries);
    assert m.entries == map k | k in m.order :: m.entries[k];
  }

  // ---------------------------------------------------------------- recording

  datatype State = State(disk: string, mem: Memory)

  function Loaded(codec: Codec, disk: string): State
  {
    State(disk, Replay(EntriesOf(codec, disk)))
  }

  function Record(codec: Codec, s: State, e: Entry, max: int): State
  {
    var m := Put(s.mem, e);
    if |m.order| <= max then State(s.disk + Line(codec, e), m)
    else
      var kept := Evict(m, max);
      State(Lines(codec, Listed(kept.order, kept.entries)), kept)
  }

  lemma RecordKeeps(codec: Codec, s: State, e: Entry, max: int)
    requires Indexed(s.mem)
    ensures Indexed(Record(codec, s, e, max).mem)
    ensures |Record(codec, s, e, max).mem.order| <= if max < 0 then 0 else max
    ensures Record(codec, s, e, max).mem == Evict(Put(s.mem, e), max)
  {
    var m := Put(s.mem, e);
    PutIndexed(s.mem, e);
    EvictIndexed(m, max);
    if |m.order| <= max {
      assert m.entries == Without(m.entries, m.order[..0]);
    }
  }

  lemma RecordCompacting(codec: Codec, s: State, e: Entry, max: int)
    requires Lawful(codec) && Indexed(s.mem) && |Put(s.mem, e).order| > max
    ensures var t := Record(codec, s, e, max); Tail(t.disk) == "" && t == Loaded(codec, t.disk)
  {
    RecordKeeps(codec, s, e, max);
    RewriteReplays(codec, Record(codec, s, e, max).mem);
  }

  lemma ReplayAppend(es: seq<Entry>, e: Entry)
    ensures Replay(es + [e]) == Put(Replay(es), e)
  {
  }

  /** With the file newline-terminated, replaying it after any record yields the memory. */
  lemma RecordClean(codec: Codec, s: State, e: Entry, max: int)
    requires Lawful(codec) && Indexed(s.mem) && Tail(s.disk) == "" && s == Loaded(codec, s.disk)
    ensures var t := Record(codec, s, e, max); Tail(t.disk) == "" && t == Loaded(codec, t.disk)
  {
    if |Put(s.mem, e).order| > max {
      RecordCompacting(codec, s, e, max);
    } else {
      AppendClean(codec, s.disk, e);
      ReplayAppend(EntriesOf(codec, s.disk), e);
    }
  }

  function RecordAll(codec: Codec, s: State, es: seq<Entry>, max: int): State
  {
    if es == [] then s else Record(codec, RecordAll(codec, s, Init(es), max), Last(es), max)
  }

  /** Over any number of records: no key twice in the order, the same keys in both, never more than `max`. */
  lemma {:induction false} RecordAllKeeps(codec: Codec, s: State, es: seq<Entry>, max: int)
    requires Indexed(s.mem)
    ensures Indexed(RecordAll(codec, s, es, max).mem)
    ensures es != [] ==> |RecordAll(codec, s, es, max).mem.order| <= if max < 0 then 0 else max
  {
    if es != [] {
      RecordAllKeeps(codec, s, Init(es), max);
      RecordKeeps(codec, RecordAll(codec, s, Init(es), max), Last(es), max);
    }
  }

  /** Whether recording `es` from `s` compacts the file at least once. */
  predicate Compacts(codec: Codec, s: State, es: seq<Entry>, max: int)
  {
    es != [] &&
    (Compacts(codec, s, Init(es), max) || |Put(RecordAll(codec, s, Init(es), max).mem, Last(es)).order| > max)
  }

  /** After a load of a newline-terminated file, or once a compaction has happened, file and memory agree. */
  lemma {:induction false} SessionAgrees(codec: Codec, disk: string, es: seq<Entry>, max: int)
    requires Lawful(codec)
    requires Tail(disk) == "" || Compacts(codec, Loaded(codec, disk), es, max)
    ensures var t := RecordAll(codec, Loaded(codec, disk), es, max);
      Tail(t.disk) == "" && t == Loaded(codec, t.disk)
  {
    if es != [] {
      var s := Loaded(codec, disk);
      var before := RecordAll(codec, s, Init(es), max);
      ReplayIndexed(EntriesOf(codec, disk));
      RecordAllKeeps(codec, s, Init(es), max);
      if |Put(before.mem, Last(es)).order| > max {
        RecordCompacting(codec, before, Last(es), max);
      } else {
        SessionAgrees(codec, disk, Init(es), max);
        RecordClean(codec, before, Last(es), max);
      }
    }
  }

  lemma {:induction false} SessionAppends(codec: Codec, disk: string, es: seq<Entry>, max: int)
    requires !Compacts(codec, Loaded(codec, disk), es, max)
    ensures RecordAll(codec, Loaded(codec, disk), es, max)
         == State(disk + Lines(codec, es), Replay(EntriesOf(codec, disk) + es))
  {
    if es == [] {
      assert disk + "" == disk && EntriesOf(codec, disk) + es == EntriesOf(codec, disk);
    } else {
      SessionAppends(codec, disk, Init(es), max);
      LinesSnoc(codec, disk, es);
      ReplaySnoc(EntriesOf(codec, disk), es);
    }
  }

  lemma ReplaySnoc(found: seq<Entry>, es: seq<Entry>)
    requires es != []
    ensures Replay(found + es) == Put(Replay(found + Init(es)), Last(es))
  {
    assert found + es == found + Init(es) + [Last(es)];
    ReplayAppend(found + Init(es), Last(es));
  }

  lemma LinesSnoc(codec: Codec, disk: string, es: seq<Entry>)
    requires es != []
    ensures disk + Lines(codec, es) == (disk + Lines(codec, Init(es))) + Line(codec, Last(es))
  {
  }

  lemma {:induction false} LinesAfterTear(codec: Codec, disk: string, es: seq<Entry>)
    requires Lawful(codec) && Torn(codec, Tail(disk)) && es != []
    ensures Tail(disk + Lines(codec, es)) == ""
    ensures EntriesOf(codec, disk + Lines(codec, es)) == Settled(codec, disk) + es[1..]
  {
    var before, e := Lines(codec, Init(es)), Last(es);
    LinesSnoc(codec, disk, es);
    if |es| == 1 {
      assert before == "" && disk + before == disk;
      AppendTorn(codec, disk, e);
    } else {
      LinesAfterTear(codec, disk, Init(es));
      AppendClean(codec, disk + before, e);
      SnocTail(Settled(codec, disk), es);
    }
  }

  lemma SnocTail(found: seq<Entry>, es: seq<Entry>)
    requires |es| > 1
    ensures found + es[1..] == found + Init(es)[1..] + [Last(es)]
  {
  }

  /** After a torn tail, and until a compaction, the file lacks the tail and the first entry after it; no more. */
  lemma SessionAfterTear(codec: Codec, disk: string, es: seq<Entry>, max: int)
    requires Lawful(codec) && es != []
    requires Torn(codec, Tail(disk)) && !Compacts(codec, Loaded(codec, disk), es, max)
    ensures var t := RecordAll(codec, Loaded(codec, disk), es, max);
      && t.mem == Replay(EntriesOf(codec, disk) + es)
      && EntriesOf(codec, t.disk) == Settled(codec, disk) + es[1..]
      && Tail(t.disk) == ""
  {
    SessionAppends(codec, disk, es, max);
    LinesAfterTear(codec, disk, es);
  }

  // ---------------------------------------------------------------- crashes

  /** The file after a record stopped with `n` characters of its line written. */
  function Interrupted(codec: Codec, disk: string, e: Entry, n: nat): string
    requires n <= |Line(codec, e)|
  {
    disk + Line(codec, e)[..n]
  }

  lemma SplitPart(codec: Codec, disk: string, e: Entry, n: nat)
    requires Lawful(codec) && n <= |codec.ser(e)|
    ensures Split(disk + codec.ser(e)[..n], IsBreak)
         == Init(Split(disk, IsBreak)) + [Tail(disk) + codec.ser(e)[..n]]
  {
    SplitFree(codec.ser(e)[..n], IsBreak);
    SplitAppend(disk, codec.ser(e)[..n], IsBreak);
  }

  lemma InterruptedSplit(codec: Codec, disk: string, e: Entry, n: nat)
    requires Lawful(codec) && n <= |codec.ser(e)|
    ensures Tail(Interrupted(codec, disk, e, n)) == Tail(disk) + codec.ser(e)[..n]
    ensures Settled(codec, Interrupted(codec, disk, e, n)) == Settled(codec, disk)
    ensures EntriesOf(codec, Interrupted(codec, disk, e, n))
         == Settled(codec, disk) + Usable(codec, Tail(disk) + codec.ser(e)[..n])
  {
    SplitPart(codec, disk, e, n);
    assert Line(codec, e)[..n] == codec.ser(e)[..n];
    var init := Init(Split(disk, IsBreak));
    assert Init(init + [Tail(disk) + codec.ser(e)[..n]]) == init;
  }

  lemma PartReload(codec: Codec, disk: string, e: Entry, n: nat)
    requires Lawful(codec) && n <= |Line(codec, e)| && Tail(disk) == ""
    ensures Loaded(codec, Interrupted(codec, disk, e, n)).mem
         == if n < |codec.ser(e)| then Loaded(codec, disk).mem else Put(Loaded(codec, disk).mem, e)
  {
    if n == |Line(codec, e)| {
      assert Line(codec, e)[..n] == Line(codec, e);
      AppendClean(codec, disk, e);
      ReplayAppend(EntriesOf(codec, disk), e);
    } else {
      CleanTail(codec, disk);
      InterruptedSplit(codec, disk, e, n);
      UsablePart(codec, EntriesOf(codec, disk), e, n);
    }
  }

  lemma GluedPart(codec: Codec, pieces: seq<string>, e: Entry, n: nat)
    requires Lawful(codec) && Fragments(codec, pieces) && pieces != [] && 0 < n <= |codec.ser(e)|
    ensures Usable(codec, Concat(pieces) + codec.ser(e)[..n]) == []
  {
    var part := codec.ser(e)[..n];
    var more := pieces + [part];
    assert part <= codec.ser(e) && part != "";
    assert Fragments(codec, more);
    assert Init(more) == pieces && Last(more) == part;
    assert Concat(more) == Concat(pieces) + part;
  }

  /** Anything written after a torn tail makes the tail unreadable with it. */
  lemma TornPart(codec: Codec, disk: string, e: Entry, n: nat)
    requires Lawful(codec) && Torn(codec, Tail(disk)) && 0 < n <= |Line(codec, e)|
    ensures EntriesOf(codec, Interrupted(codec, disk, e, n)) == Settled(codec, disk)
  {
    if n == |Line(codec, e)| {
      assert Line(codec, e)[..n] == Line(codec, e);
      AppendTorn(codec, disk, e);
    } else {
      var pieces :| Fragments(codec, pieces) && pieces != [] && Concat(pieces) == Tail(disk);
      InterruptedSplit(codec, disk, e, n);
      GluedPart(codec, pieces, e, n);
      assert Settled(codec, disk) + [] == Settled(codec, disk);
    }
  }

  lemma UsablePart(codec: Codec, found: seq<Entry>, e: Entry, n: nat)
    requires Lawful(codec) && n <= |codec.ser(e)|
    ensures Replay(found + Usable(codec, "" + codec.ser(e)[..n]))
         == if n < |codec.ser(e)| then Replay(found) else Put(Replay(found), e)
  {
    UsableIff(codec, e, n);
    if n < |codec.ser(e)| {
      assert found + [] == found;
    } else {
      ReplayAppend(found, e);
    }
  }

  lemma UsableIff(codec: Codec, e: Entry, n: nat)
    requires Lawful(codec) && n <= |codec.ser(e)|
    ensures Usable(codec, "" + codec.ser(e)[..n]) == if n < |codec.ser(e)| then [] else [e]
  {
    var part := codec.ser(e)[..n];
    assert "" + part == part && part <= codec.ser(e);
    if n == |codec.ser(e)| {
      assert part == codec.ser(e);
    }
  }

  /**
   Where a record stops: in its append after `n` characters (at most all of the line), with the line appended and the
   rewritten file not yet in place, or with everything done.
   */
  datatype Stop = Appending(n: nat) | NotReplaced | Replaced

  function DiskAt(codec: Codec, s: State, e: Entry, max: int, stop: Stop): string
  {
    match stop
    case Appending(n) => Interrupted(codec, s.disk, e, if n <= |Line(codec, e)| then n else |Line(codec, e)|)
    case NotReplaced => s.disk + Line(codec, e)
    case Replaced => Record(codec, s, e, max).disk
  }

  /** Whether the whole object is in the file. */
  predicate Whole(codec: Codec, e: Entry, stop: Stop)
  {
    stop.Appending? ==> stop.n >= |codec.ser(e)|
  }

  /** Whether a record evicts. */
  predicate Overflows(m: Memory, e: Entry, max: int)
  {
    |Put(m, e).order| > max
  }

  /** What a load finds after a record stopped; loading itself evicts nothing. */
  function Reload(codec: Codec, s: State, e: Entry, max: int, stop: Stop): Memory
  {
    if stop.Replaced? && Overflows(s.mem, e, max) then Record(codec, s, e, max).mem
    else if stop == Appending(0) then Loaded(codec, s.disk).mem
    else if Tail(s.disk) != "" then Replay(Settled(codec, s.disk))
    else if Whole(codec, e, stop) then Put(Loaded(codec, s.disk).mem, e)
    else Loaded(codec, s.disk).mem
  }

  lemma AppendReload(codec: Codec, disk: string, e: Entry, n: nat)
    requires Lawful(codec) && TailOk(codec, disk) && n <= |Line(codec, e)|
    ensures Loaded(codec, Interrupted(codec, disk, e, n)).mem
         == if n == 0 then Loaded(codec, disk).mem
            else if Tail(disk) != "" then Replay(Settled(codec, disk))
            else if n < |codec.ser(e)| then Loaded(codec, disk).mem
            else Put(Loaded(codec, disk).mem, e)
  {
    if n == 0 {
      assert Interrupted(codec, disk, e, 0) == disk;
    } else if Tail(disk) != "" {
      TornPart(codec, disk, e, n);
    } else {
      PartReload(codec, disk, e, n);
    }
  }

  lemma LineReload(codec: Codec, disk: string, e: Entry)
    requires Lawful(codec) && TailOk(codec, disk)
    ensures Loaded(codec, disk + Line(codec, e)).mem
         == if Tail(disk) != "" then Replay(Settled(codec, disk)) else Put(Loaded(codec, disk).mem, e)
  {
    var n := |Line(codec, e)|;
    assert Line(codec, e)[..n] == Line(codec, e);
    assert disk + Line(codec, e) == Interrupted(codec, disk, e, n);
    AppendReload(codec, disk, e, n);
  }

  lemma StoppedReload(codec: Codec, s: State, e: Entry, max: int, n: nat)
    requires Lawful(codec) && TailOk(codec, s.disk)
    ensures Loaded(codec, DiskAt(codec, s, e, max, Appending(n))).mem == Reload(codec, s, e, max, Appending(n))
  {
    AppendReload(codec, s.disk, e, if n <= |Line(codec, e)| then n else |Line(codec, e)|);
  }

  /** What a crash anywhere inside a record reloads to, on a clean tail or a torn one. */
  lemma CrashReload(codec: Codec, s: State, e: Entry, max: int, stop: Stop)
    requires Lawful(codec) && Indexed(s.mem) && TailOk(codec, s.disk)
    ensures Loaded(codec, DiskAt(codec, s, e, max, stop)).mem == Reload(codec, s, e, max, stop)
  {
    if stop.Appending? {
      StoppedReload(codec, s, e, max, stop.n);
    } else if stop.Replaced? && Overflows(s.mem, e, max) {
      RecordCompacting(codec, s, e, max);
    } else {
      LineReload(codec, s.disk, e);
    }
  }

  // ---------------------------------------------------------------- whole runs, with crashes

  /** A crash is followed by a load. */
  datatype Op = Do(e: Entry) | Restart | Crash(e: Entry, stop: Stop)

  function Step(codec: Codec, s: State, op: Op, max: int): State
  {
    match op
    case Do(e) => Record(codec, s, e, max)
    case Restart => Loaded(codec, s.disk)
    case Crash(e, stop) => Loaded(codec, DiskAt(codec, s, e, max, stop))
  }

  function Run(codec: Codec, s: State, ops: seq<Op>, max: int): State
  {
    if ops == [] then s else Step(codec, Run(codec, s, Init(ops), max), Last(ops), max)
  }

  ghost predicate TailOk(codec: Codec, disk: string)
  {
    Tail(disk) == "" || Torn(codec, Tail(disk))
  }

  lemma TornMore(codec: Codec, tail: string, e: Entry, n: nat)
    requires tail == "" || Torn(codec, tail)
    requires 0 < n <= |codec.ser(e)|
    ensures Torn(codec, tail + codec.ser(e)[..n])
  {
    var part := codec.ser(e)[..n];
    assert part <= codec.ser(e);
    if tail == "" {
      assert Fragments(codec, [part]);
      assert Init([part]) == [] && Concat([part]) == "" + part;
    } else {
      var pieces :| Fragments(codec, pieces) && pieces != [] && Concat(pieces) == tail;
      assert Fragments(codec, pieces + [part]);
      assert Init(pieces + [part]) == pieces;
      assert Concat(pieces + [part]) == tail + part;
    }
  }

  /** What an interrupted append does to the complete lines and to the tail. */
  lemma InterruptedTail(codec: Codec, disk: string, e: Entry, n: nat)
    requires Lawful(codec) && TailOk(codec, disk) && n <= |Line(codec, e)|
    ensures var cut := Interrupted(codec, disk, e, n);
      && TailOk(codec, cut)
      && |Settled(codec, cut)| >= |Settled(codec, disk)|
  {
    if n == |Line(codec, e)| {
      assert Line(codec, e)[..n] == Line(codec, e);
      AppendLine(codec, disk, e);
    } else {
      InterruptedSplit(codec, disk, e, n);
      if n == 0 {
        assert Tail(disk) + codec.ser(e)[..0] == Tail(disk);
      } else {
        TornMore(codec, Tail(disk), e, n);
      }
    }
  }

  lemma DoTail(codec: Codec, disk: string, e: Entry)
    requires Lawful(codec) && TailOk(codec, disk)
    ensures Tail(disk + Line(codec, e)) == ""
    ensures |Settled(codec, disk + Line(codec, e))|
         == |Settled(codec, disk)| + if Tail(disk) == "" then 1 else 0
  {
    AppendLine(codec, disk, e);
    if Tail(disk) == "" {
      AppendClean(codec, disk, e);
      CleanTail(codec, disk);
    } else {
      AppendTorn(codec, disk, e);
    }
  }

  lemma RecordTail(codec: Codec, s: State, e: Entry, max: int)
    requires Lawful(codec) && Indexed(s.mem) && TailOk(codec, s.disk)
    ensures Tail(Record(codec, s, e, max).disk) == ""
  {
    if |Put(s.mem, e).order| > max {
      RecordCompacting(codec, s, e, max);
    } else {
      DoTail(codec, s.disk, e);
    }
  }

  lemma StopTail(codec: Codec, s: State, e: Entry, max: int, stop: Stop)
    requires Lawful(codec) && Indexed(s.mem) && TailOk(codec, s.disk)
    ensures TailOk(codec, DiskAt(codec, s, e, max, stop))
  {
    match stop
    case Appending(n) => InterruptedTail(codec, s.disk, e, if n <= |Line(codec, e)| then n else |Line(codec, e)|);
    case NotReplaced => DoTail(codec, s.disk, e);
    case Replaced => RecordTail(codec, s, e, max);
  }

  lemma StepKeeps(codec: Codec, s: State, op: Op, max: int)
    requires Lawful(codec) && Indexed(s.mem) && TailOk(codec, s.disk)
    ensures var t := Step(codec, s, op, max); Indexed(t.mem) && TailOk(codec, t.disk)
    ensures op.Do? ==> |Step(codec, s, op, max).mem.order| <= if max < 0 then 0 else max
    ensures !op.Do? ==> var t := Step(codec, s, op, max); t == Loaded(codec, t.disk)
  {
    match op
    case Do(e) =>
      RecordKeeps(codec, s, e, max);
      RecordTail(codec, s, e, max);
    case Restart =>
      ReplayIndexed(EntriesOf(codec, s.disk));
    case Crash(e, stop) =>
      StopTail(codec, s, e, max, stop);
      ReplayIndexed(EntriesOf(codec, DiskAt(codec, s, e, max, stop)));
  }

  /** In every run the order stays duplicate-free with the dictionary's keys, and the file stays readable. */
  lemma {:induction false} RunKeeps(codec: Codec, disk: string, ops: seq<Op>, max: int)
    requires Lawful(codec) && TailOk(codec, disk)
    ensures var t := Run(codec, Loaded(codec, disk), ops, max); Indexed(t.mem) && TailOk(codec, t.disk)
    ensures ops != [] && Last(ops).Do? ==>
      |Run(codec, Loaded(codec, disk), ops, max).mem.order| <= if max < 0 then 0 else max
  {
    if ops == [] {
      ReplayIndexed(EntriesOf(codec, disk));
    } else {
      RunKeeps(codec, disk, Init(ops), max);
      StepKeeps(codec, Run(codec, Loaded(codec, disk), Init(ops), max), Last(ops), max);
    }
  }

  /** The disk the current session was loaded from. */
  function Start(codec: Codec, disk: string, ops: seq<Op>, max: int): string
  {
    if ops == [] then disk
    else if Last(ops).Do? then Start(codec, disk, Init(ops), max)
    else Run(codec, Loaded(codec, disk), ops, max).disk
  }

  /** What the current session has recorded. */
  function Since(ops: seq<Op>): seq<Entry>
  {
    if ops == [] || !Last(ops).Do? then [] else Since(Init(ops)) + [Last(ops).e]
  }

  lemma LoadedStep(codec: Codec, s: State, op: Op, max: int)
    requires !op.Do?
    ensures Step(codec, s, op, max) == Loaded(codec, Step(codec, s, op, max).disk)
  {
  }

  lemma RecordAllNext(codec: Codec, s: State, es: seq<Entry>, e: Entry, max: int)
    ensures RecordAll(codec, s, es + [e], max) == Record(codec, RecordAll(codec, s, es, max), e, max)
  {
    assert Init(es + [e]) == es;
  }

  /** A run is a load and the records since. */
  lemma {:induction false} RunIsSession(codec: Codec, disk: string, ops: seq<Op>, max: int)
    ensures Run(codec, Loaded(codec, disk), ops, max)
         == RecordAll(codec, Loaded(codec, Start(codec, disk, ops, max)), Since(ops), max)
  {
    if ops != [] {
      var s := Run(codec, Loaded(codec, disk), Init(ops), max);
      if Last(ops).Do? {
        RunIsSession(codec, disk, Init(ops), max);
        RecordAllNext(codec, Loaded(codec, Start(codec, disk, ops, max)), Since(Init(ops)), Last(ops).e, max);
      } else {
        LoadedStep(codec, s, Last(ops), max);
      }
    }
  }

  lemma {:induction false} StartOk(codec: Codec, disk: string, ops: seq<Op>, max: int)
    requires Lawful(codec) && TailOk(codec, disk)
    ensures TailOk(codec, Start(codec, disk, ops, max))
  {
    if ops != [] && Last(ops).Do? {
      StartOk(codec, disk, Init(ops), max);
    } else {
      RunKeeps(codec, disk, ops, max);
    }
  }

  /**
   After every run of records, restarts and crashes the file replays to the memory, unless the session began on a torn
   tail, has recorded, and has not compacted; then the file lacks exactly that tail and the session's first record.
   */
  lemma RunAgrees(codec: Codec, disk: string, ops: seq<Op>, max: int)
    requires Lawful(codec) && TailOk(codec, disk)
    ensures var t := Run(codec, Loaded(codec, disk), ops, max);
      var start := Start(codec, disk, ops, max);
      var es := Since(ops);
      if Tail(start) == "" || es == [] || Compacts(codec, Loaded(codec, start), es, max) then t == Loaded(codec, t.disk)
      else
        && t.mem == Replay(EntriesOf(codec, start) + es)
        && EntriesOf(codec, t.disk) == Settled(codec, start) + es[1..] && Tail(t.disk) == ""
  {
    var start, es := Start(codec, disk, ops, max), Since(ops);
    RunIsSession(codec, disk, ops, max);
    StartOk(codec, disk, ops, max);
    if Tail(start) == "" || Compacts(codec, Loaded(codec, start), es, max) {
      SessionAgrees(codec, start, es, max);
    } else if es != [] {
      SessionAfterTear(codec, start, es, max);
    }
  }

  /**
   What every run reaches: the file replays to the memory, or it is newline-terminated and says less than a memory
   that is not over its bound.
   */
  ghost predicate Reached(codec: Codec, s: State, max: int)
  {
    && Indexed(s.mem) && TailOk(codec, s.disk)
    && (s == Loaded(codec, s.disk)
        || (Tail(s.disk) == "" && 0 < |s.mem.order| <= max && Loaded(codec,
          s.disk).mem.entries.Keys <= s.mem.entries.Keys))
  }

  lemma {:induction false} ReplayKeys(es: seq<Entry>, key: string)
    ensures key in Replay(es).entries <==> exists i :: 0 <= i < |es| && es[i].key == key
  {
    if es != [] {
      ReplayKeys(Init(es), key);
      assert forall i :: 0 <= i < |es| - 1 ==> Init(es)[i] == es[i];
      assert es[|es| - 1] == Last(es);
    }
  }

  lemma FewerKeys(few: seq<Entry>, many: seq<Entry>)
    requires forall e | e in few :: e in many
    ensures Replay(few).entries.Keys <= Replay(many).entries.Keys
  {
    forall key | key in Replay(few).entries
      ensures key in Replay(many).entries
    {
      ReplayKeys(few, key);
      ReplayKeys(many, key);
      var i :| 0 <= i < |few| && few[i].key == key;
      assert few[i] in many;
    }
  }

  lemma GapKeys(codec: Codec, start: string, es: seq<Entry>)
    requires es != []
    ensures Replay(Settled(codec, start) + es[1..]).entries.Keys <= Replay(EntriesOf(codec, start) + es).entries.Keys
  {
    var few, many := Settled(codec, start) + es[1..], EntriesOf(codec, start) + es;
    forall e | e in few
      ensures e in many
    {
      assert EntriesOf(codec, start) == Settled(codec, start) + Usable(codec, Tail(start));
    }
    FewerKeys(few, many);
  }

  lemma RunReaches(codec: Codec, disk: string, ops: seq<Op>, max: int)
    requires Lawful(codec) && TailOk(codec, disk)
    ensures Reached(codec, Run(codec, Loaded(codec, disk), ops, max), max)
  {
    var t := Run(codec, Loaded(codec, disk), ops, max);
    var start, es := Start(codec, disk, ops, max), Since(ops);
    RunKeeps(codec, disk, ops, max);
    RunAgrees(codec, disk, ops, max);
    if t != Loaded(codec, t.disk) {
      GapKeys(codec, start, es);
      assert Last(ops).Do?;
      FindsLast(EntriesOf(codec, start) + es, Last(es).key);
      assert Last(EntriesOf(codec, start) + es) == Last(es);
    }
  }

  /** Without crashes, on a newline-terminated file, file and memory agree throughout. */
  lemma {:induction false} CleanRunAgrees(codec: Codec, disk: string, ops: seq<Op>, max: int)
    requires Lawful(codec) && Tail(disk) == "" && forall i | 0 <= i < |ops| :: !ops[i].Crash?
    ensures var t := Run(codec, Loaded(codec, disk), ops, max); Tail(t.disk) == "" && t == Loaded(codec, t.disk)
  {
    if ops != [] {
      CleanRunAgrees(codec, disk, Init(ops), max);
      var s := Run(codec, Loaded(codec, disk), Init(ops), max);
      ReplayIndexed(EntriesOf(codec, s.disk));
      if Last(ops).Do? {
        RecordClean(codec, s, Last(ops).e, max);
      }
    }
  }

  /** A record is lost to a later load when it is appended to a torn tail. */
  predicate Lost(codec: Codec, s: State, op: Op, max: int)
  {
    op.Do? && Tail(s.disk) != "" && |Put(s.mem, op.e).order| <= max
  }

  /**
   Losing a record leaves the file's complete lines as they were; of any other record the file says what memory does.
   */
  lemma LostIff(codec: Codec, s: State, e: Entry, max: int)
    requires Lawful(codec) && Indexed(s.mem) && TailOk(codec, s.disk)
    ensures var t := Record(codec, s, e, max);
      if Lost(codec, s, Do(e), max) then EntriesOf(codec, t.disk) == Settled(codec, s.disk)
      else
        var m := Replay(EntriesOf(codec, t.disk));
        if e.key in t.mem.entries then e.key in m.entries && m.entries[e.key] == e else e.key !in m.entries
  {
    if |Put(s.mem, e).order| > max {
      RecordCompacting(codec, s, e, max);
    } else if Tail(s.disk) == "" {
      AppendClean(codec, s.disk, e);
      ReplayAppend(EntriesOf(codec, s.disk), e);
    } else {
      AppendTorn(codec, s.disk, e);
    }
  }

  function Losses(codec: Codec, s: State, ops: seq<Op>, max: int): nat
  {
    if ops == [] then 0
    else
      Losses(codec, s, Init(ops), max) + if Lost(codec, Run(codec, s, Init(ops), max), Last(ops), max) then 1 else 0
  }

  function Crashes(ops: seq<Op>): nat
  {
    if ops == [] then 0 else Crashes(Init(ops)) + if Last(ops).Crash? then 1 else 0
  }

  /** Over every run, compacting or not, each crash costs at most one record that had completed. */
  lemma {:induction false} LossBound(codec: Codec, disk: string, ops: seq<Op>, max: int)
    requires Lawful(codec) && Tail(disk) == ""
    ensures var t := Run(codec, Loaded(codec, disk), ops, max);
      Losses(codec, Loaded(codec, disk), ops, max) + (if Tail(t.disk) == "" then 0 else 1) <= Crashes(ops)
  {
    if ops != [] {
      var s := Run(codec, Loaded(codec, disk), Init(ops), max);
      LossBound(codec, disk, Init(ops), max);
      RunKeeps(codec, disk, Init(ops), max);
      if Last(ops).Do? {
        RecordTail(codec, s, Last(ops).e, max);
      }
    }
  }

  function Records(ops: seq<Op>): nat
  {
    if ops == [] then 0 else Records(Init(ops)) + if Last(ops).Do? then 1 else 0
  }

  /** Whether no step of the run rewrites the file. */
  predicate OnlyAppends(codec: Codec, s: State, ops: seq<Op>, max: int)
  {
    ops == [] ||
    (&& OnlyAppends(codec, s, Init(ops), max)
     && (!Last(ops).Restart? ==> |Put(Run(codec, s, Init(ops), max).mem, Last(ops).e).order| <= max))
  }

  lemma StopSettles(codec: Codec, s: State, e: Entry, max: int, stop: Stop)
    requires Lawful(codec) && TailOk(codec, s.disk) && |Put(s.mem, e).order| <= max
    ensures |Settled(codec, DiskAt(codec, s, e, max, stop))| >= |Settled(codec, s.disk)|
  {
    if stop.Appending? {
      InterruptedTail(codec, s.disk, e, if stop.n <= |Line(codec, e)| then stop.n else |Line(codec, e)|);
    } else {
      DoTail(codec, s.disk, e);
    }
  }

  /** Until the file is rewritten, every record that is not lost is one more complete line. */
  lemma {:induction false} AppendsSettle(codec: Codec, disk: string, ops: seq<Op>, max: int)
    requires Lawful(codec) && TailOk(codec, disk) && OnlyAppends(codec, Loaded(codec, disk), ops, max)
    ensures |Settled(codec, Run(codec, Loaded(codec, disk), ops, max).disk)| + Losses(codec, Loaded(codec, disk), ops,
      max)
         >= |Settled(codec, disk)| + Records(ops)
  {
    if ops != [] {
      var s := Run(codec, Loaded(codec, disk), Init(ops), max);
      AppendsSettle(codec, disk, Init(ops), max);
      RunKeeps(codec, disk, Init(ops), max);
      match Last(ops)
      case Do(e) => DoTail(codec, s.disk, e);
      case Restart =>
      case Crash(e, stop) => StopSettles(codec, s, e, max, stop);
    }
  }

  /** Eviction goes by place in the order alone: a key survives a record exactly when its place is high enough. */
  lemma SurvivesIff(codec: Codec, s: State, e: Entry, max: int, i: nat)
    requires Indexed(s.mem) && i < |s.mem.order|
    ensures s.mem.order[i] in Record(codec, s, e, max).mem.entries <==> i >= Overflow(Put(s.mem, e), max)
  {
    RecordKeeps(codec, s, e, max);
    PutIndexed(s.mem, e);
    var m := Put(s.mem, e);
    var n := Overflow(m, max);
    assert m.order[i] == s.mem.order[i];
    if i < n {
      assert m.order[i] in m.order[..n];
    }
  }

  /** The last of some entries with a key. */
  function LastFor(es: seq<Entry>, key: string): Option<Entry>
  {
    if es == [] then None else if Last(es).key == key then Some(Last(es)) else LastFor(Init(es), key)
  }

  function Find(m: Memory, key: string): Option<Entry>
  {
    if key in m.entries then Some(m.entries[key]) else None
  }

  /** What is found under a key is the last entry recorded with it. */
  lemma {:induction false} FindsLast(es: seq<Entry>, key: string)
    ensures Find(Replay(es), key) == LastFor(es, key)
  {
    if es != [] {
      FindsLast(Init(es), key);
    }
  }

  // ---------------------------------------------------------------- the object

  lemma ReplayLine(codec: Codec, lines: seq<string>, i: nat)
    requires i < |lines|
    ensures var m := Replay(Parsed(codec, lines[..i]));
      Replay(Parsed(codec, lines[..i + 1]))
        == if Blank(lines[i]) || codec.parse(lines[i]).None? then m else Put(m, codec.parse(lines[i]).value)
  {
    var found := Parsed(codec, lines[..i]);
    assert Init(lines[..i + 1]) == lines[..i];
    assert found + [] == found;
    if !Blank(lines[i]) && codec.parse(lines[i]).Some? {
      ReplayAppend(found, codec.parse(lines[i]).value);
    }
  }

  class OperationLedger {
    const codec: Codec
    const max: int
    var disk: string
    var order: seq<string>
    var entries: map<string, Entry>

    function Mem(): Memory
      reads this
    {
      Memory(order, entries)
    }

    function View(): State
      reads this
    {
      State(disk, Mem())
    }

    ghost predicate Valid()
      reads this
    {
      Indexed(Mem())
    }

    constructor (codec: Codec, disk: string, max: int)
      ensures Valid() && this.codec == codec && this.max == max
      ensures View() == Loaded(codec, disk)
    {
      this.codec, this.max, this.disk := codec, max, disk;
      order, entries := [], map[];
      new;
      Load();
    }

    method Load()
      requires order == [] && entries == map[]
      modifies this`order, this`entries
      ensures Valid() && View() == Loaded(codec, disk)
    {
      var lines := Split(disk, IsBreak);
      for i := 0 to |lines|
        invariant Mem() == Replay(Parsed(codec, lines[..i]))
      {
        var line := lines[i];
        ReplayLine(codec, lines, i);
        if !Blank(line) {
          var entry := codec.parse(line);
          if entry.Some? {
            Remember(entry.value);
          }
        }
      }
      assert lines[..|lines|] == lines;
      ReplayIndexed(EntriesOf(codec, disk));
    }

    /** Into the dictionary, and at the end of the order if the key is new. */
    method Remember(e: Entry)
      modifies this`order, this`entries
      ensures Mem() == Put(old(Mem()), e)
    {
      if e.key !in entries {
        order := order + [e.key];
      }
      entries := entries[e.key := e];
    }

    method Lookup(key: string) returns (found: Option<Entry>)
      ensures found == Find(Mem(), key)
    {
      found := if key in entries then Some(entries[key]) else None;
    }

    method RecordEntry(e: Entry)
      requires Valid()
      modifies this
      ensures Valid() && View() == Record(codec, old(View()), e, max)
    {
      RecordKeeps(codec, View(), e, max);
      PutIndexed(Mem(), e);
      Remember(e);
      AppendToDisk(e);
      CompactIfNeeded();
    }

    method AppendToDisk(e: Entry)
      modifies this`disk
      ensures disk == old(disk) + Line(codec, e)
    {
      disk := disk + (codec.ser(e) + "\n");
    }

    method CompactIfNeeded()
      requires Valid()
      modifies this
      ensures Valid() && Mem() == Evict(old(Mem()), max)
      ensures disk == if |old(order)| <= max then old(disk) else Lines(codec, Listed(order, entries))
    {
      EvictIndexed(Mem(), max);
      if |order| <= max {
        assert entries == Without(entries, order[..0]);
        return;
      }
      DropOldest(if |order| - max <= |order| then |order| - max else |order|);
      Rewrite();
    }

    method DropOldest(overflow: nat)
      requires overflow <= |order|
      modifies this`order, this`entries
      ensures Mem() == Memory(old(order)[overflow..], Without(old(entries), old(order)[..overflow]))
    {
      for i := 0 to overflow
        invariant order == old(order)
        invariant entries == Without(old(entries), order[..i])
      {
        assert order[..i + 1] == order[..i] + [order[i]];
        WithoutOne(old(entries), order[..i], order[i]);
        entries := entries - {order[i]};
      }
      order := order[overflow..];
    }

    method Rewrite()
      requires Valid()
      modifies this`disk
      ensures disk == Lines(codec, Listed(order, entries))
    {
      var tmp := "";
      for i := 0 to |order|
        invariant tmp == Lines(codec, Listed(order[..i], entries))
      {
        assert Init(order[..i + 1]) == order[..i];
        assert order[i] in order;
        var listed := Listed(order[..i + 1], entries);
        assert Init(listed) == Listed(order[..i], entries);
        tmp := tmp + (codec.ser(entries[order[i]]) + "\n");
      }
      assert order[..|order|] == order;
      disk := tmp;
    }
  }
}
