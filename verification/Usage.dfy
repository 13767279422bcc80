/**
 Traffic accounting: turning counters that reset into totals that only go up. Readings are
 asked for, taken and recorded at three different times, in any order, while the serving
 process keeps counting and restarts.
 */
module Usage {
  import opened Text

  /** One direction of one credential: the running total and the last raw reading. */
  datatype Meter = Meter(total: nat, last: nat)

  datatype Row = Row(rx: Meter, tx: Meter, collectedAt: Option<int>)

  const NEW_ROW := Row(Meter(0, 0), Meter(0, 0), None)

  /** What one reading of a source said, and when the control plane asked for it. */
  datatype Reading = Reading(rx: nat, tx: nat, collectedAt: int)

  /** Below the last reading, the process restarted and the whole reading is new. */
  function Delta(reading: nat, last: nat): nat
  {
    if reading >= last then reading - last else reading
  }

  predicate Older(collectedAt: int, held: Option<int>)
  {
    held.Some? && collectedAt < held.value
  }

  function Metered(m: Meter, reading: nat): Meter
  {
    Meter(m.total + Delta(reading, m.last), reading)
  }

  function Applied(row: Row, r: Reading): Row
  {
    if Older(r.collectedAt, row.collectedAt) then row
    else Row(Metered(row.rx, r.rx), Metered(row.tx, r.tx), Some(r.collectedAt))
  }

  function Forgotten(row: Row, collectedAt: int): Row
  {
    if Older(collectedAt, row.collectedAt) then row
    else Row(row.rx.(last := 0), row.tx.(last := 0), Some(collectedAt))
  }

  /** Forgetting a reading is recording that the counter stands at zero. */
  lemma ForgettingIsReadingZero(row: Row, collectedAt: int)
    ensures Forgotten(row, collectedAt) == Applied(row, Reading(0, 0, collectedAt))
  {
  }

  // ---------------------------------------------------------------- what really happened

  /** One direction of the serving process: its counter now, and the bytes it ever served. */
  datatype Source = Source(counter: nat, served: nat)

  /** A reading as it was taken, with what had been served by then; `epoch` counts restarts. */
  datatype Sample = Sample(asked: int, rx: Source, tx: Source, epoch: nat)

  /** The samples are in the order they were taken; `mark` is the last one applied to the row. */
  datatype World = World(rx: Source, tx: Source, epoch: nat, samples: seq<Sample>, row: Row, mark: Option<nat>)

  datatype Event =
    | Serve(rx: nat, tx: nat)
    | Restart                 // the counters start again from zero, or are gone until they do
    | Take(asked: int)        // the source is read, for a request made at `asked`
    | Enter(sample: nat)      // a reading taken earlier reaches the ledger

  const START := World(Source(0, 0), Source(0, 0), 0, [], NEW_ROW, None)

  function AsReading(s: Sample): Reading
  {
    Reading(s.rx.counter, s.tx.counter, s.asked)
  }

  function Step(w: World, e: Event): World
  {
    match e
    case Serve(rx, tx) =>
      w.(rx := Source(w.rx.counter + rx, w.rx.served + rx), tx := Source(w.tx.counter + tx, w.tx.served + tx))
    case Restart =>
      w.(rx := w.rx.(counter := 0), tx := w.tx.(counter := 0), epoch := w.epoch + 1)
    case Take(asked) => w.(samples := w.samples + [Sample(asked, w.rx, w.tx, w.epoch)])
    case Enter(i) =>
      if i >= |w.samples| then w
      else
        var r := AsReading(w.samples[i]);
        w.(row := Applied(w.row, r), mark := if Older(r.collectedAt, w.row.collectedAt) then w.mark else Some(i))
  }

  function Run(es: seq<Event>): World
  {
    if es == [] then START else Step(Run(Init(es)), Last(es))
  }

  function Bytes(e: Event, received: bool): nat
  {
    match e
    case Serve(rx, tx) => if received then rx else tx
    case _ => 0
  }

  /** What has been served in one direction over some events. */
  function Served(es: seq<Event>, received: bool): nat
  {
    if es == [] then 0 else Served(Init(es), received) + Bytes(Last(es), received)
  }

  /** What has been served in one direction since the last restart among them. */
  function ServedSince(es: seq<Event>, received: bool): nat
  {
    if es == [] || Last(es).Restart? then 0 else ServedSince(Init(es), received) + Bytes(Last(es), received)
  }

  lemma StepCounts(w: World, e: Event)
    ensures var next := Step(w, e);
      && next.rx.served == w.rx.served + Bytes(e, true) && next.tx.served == w.tx.served + Bytes(e, false)
      && next.rx.counter == (if e.Restart? then 0 else w.rx.counter + Bytes(e, true))
      && next.tx.counter == (if e.Restart? then 0 else w.tx.counter + Bytes(e, false))
  {
  }

  /** A source has served what was served, and its counter shows what was since it last started. */
  lemma {:induction false} SourcesCount(es: seq<Event>)
    ensures Run(es).rx.served == Served(es, true) && Run(es).tx.served == Served(es, false)
    ensures Run(es).rx.counter == ServedSince(es, true) && Run(es).tx.counter == ServedSince(es, false)
  {
    if es != [] {
      SourcesCount(Init(es));
      StepCounts(Run(Init(es)), Last(es));
    }
  }

  predicate SameReading(a: Sample, b: Sample)
  {
    a.epoch == b.epoch && a.rx == b.rx && a.tx == b.tx
  }

  /** A reading taken later was not asked for later, and says something else. */
  predicate Overtaken(earlier: Sample, later: Sample)
  {
    later.asked <= earlier.asked && !SameReading(earlier, later)
  }

  /** Readings that differ are taken in the order they were asked for. */
  ghost predicate InOrder(samples: seq<Sample>)
  {
    forall i, j :: 0 <= i < j < |samples| ==> !Overtaken(samples[i], samples[j])
  }

  /** How a source may stand after it stood at `a`, `restarts` restarts later. */
  predicate Later(a: Source, b: Source, restarted: bool)
  {
    && a.served <= b.served
    && if restarted then b.counter <= b.served - a.served else b.counter - a.counter == b.served - a.served
  }

  predicate LaterSample(a: Sample, b: Sample)
  {
    && a.epoch <= b.epoch
    && Later(a.rx, b.rx, a.epoch != b.epoch) && Later(a.tx, b.tx, a.epoch != b.epoch)
  }

  function Present(w: World): Sample
  {
    Sample(0, w.rx, w.tx, w.epoch)
  }

  ghost predicate Truthful(w: World)
  {
    && (forall i, j :: 0 <= i < j < |w.samples| ==> LaterSample(w.samples[i], w.samples[j]))
    && (forall i :: 0 <= i < |w.samples| ==> LaterSample(w.samples[i], Present(w)))
  }

  /** The row holds the reading at `mark`, and has counted no more than was served by then. */
  ghost predicate Marked(w: World)
  {
    match w.mark
    case None => w.row == NEW_ROW
    case Some(m) =>
      && m < |w.samples|
      && var s := w.samples[m];
         && w.row.collectedAt == Some(s.asked)
         && w.row.rx.last == s.rx.counter && w.row.tx.last == s.tx.counter
         && w.row.rx.total <= s.rx.served && w.row.tx.total <= s.tx.served
  }

  lemma {:induction false} RunTruthful(es: seq<Event>)
    ensures Truthful(Run(es))
    ensures Run(es).rx.counter <= Run(es).rx.served && Run(es).tx.counter <= Run(es).tx.served
    ensures forall i :: 0 <= i < |Run(es).samples| ==>
      var s := Run(es).samples[i]; s.rx.counter <= s.rx.served && s.tx.counter <= s.tx.served
  {
    if es != [] {
      RunTruthful(Init(es));
    }
  }

  lemma EnterMarked(w: World, i: nat)
    requires Truthful(w) && Marked(w) && InOrder(w.samples) && i < |w.samples|
    requires w.samples[i].rx.counter <= w.samples[i].rx.served && w.samples[i].tx.counter <= w.samples[i].tx.served
    ensures Marked(Step(w, Enter(i)))
  {
  }

  lemma {:induction false} RunMarked(es: seq<Event>)
    requires InOrder(Run(es).samples)
    ensures Marked(Run(es))
  {
    if es != [] {
      var w := Run(Init(es));
      assert forall k :: 0 <= k < |w.samples| ==> Run(es).samples[k] == w.samples[k];
      RunMarked(Init(es));
      RunTruthful(Init(es));
      match Last(es)
      case Enter(i) =>
        if i < |w.samples| {
          EnterMarked(w, i);
        }
      case _ =>
    }
  }

  /** However readings overlap, are repeated or arrive late, no byte is counted twice. */
  lemma NeverOvercounts(es: seq<Event>)
    requires InOrder(Run(es).samples)
    ensures Run(es).row.rx.total <= Run(es).rx.served && Run(es).row.tx.total <= Run(es).tx.served
  {
    RunMarked(es);
    RunTruthful(es);
    var w := Run(es);
    if w.mark.Some? {
      assert LaterSample(w.samples[w.mark.value], Present(w));
    }
  }

  // ---------------------------------------------------------------- when nothing is lost either

  function MarkEpoch(w: World): nat
  {
    if w.mark.Some? && w.mark.value < |w.samples| then w.samples[w.mark.value].epoch else 0
  }

  /** The row's reading comes from the process now running. */
  predicate Current(w: World)
  {
    MarkEpoch(w) == w.epoch
  }

  /** Every byte served is in the totals. */
  predicate Settled(w: World)
  {
    Current(w) && w.row.rx.last == w.rx.counter && w.row.tx.last == w.tx.counter
  }

  /** Each restart comes right after a recorded reading, and nothing is served before one is recorded after it. */
  predicate Bracketed(es: seq<Event>)
  {
    es == [] ||
    (&& Bracketed(Init(es))
     && (Last(es).Restart? ==> Settled(Run(Init(es))))
     && (Last(es).Serve? ==> Current(Run(Init(es)))))
  }

  /** All that was served is counted, or stands above the last reading of the running process. */
  predicate ExactMeter(m: Meter, s: Source, current: bool)
  {
    if current then m.last <= s.counter && m.total + s.counter - m.last == s.served
    else s.counter == 0 && m.total == s.served
  }

  predicate Exact(w: World)
  {
    ExactMeter(w.row.rx, w.rx, Current(w)) && ExactMeter(w.row.tx, w.tx, Current(w))
  }

  lemma FirstExact(w: World, i: nat)
    requires w.mark.None? && i < |w.samples|
    requires w.row.rx == Meter(0, 0) && w.row.tx == Meter(0, 0) && w.row.collectedAt.None?
    requires FirstOk(w.samples[i].rx, w.rx, w.epoch == 0, w.samples[i].epoch == w.epoch)
    requires FirstOk(w.samples[i].tx, w.tx, w.epoch == 0, w.samples[i].epoch == w.epoch)
    ensures Exact(Step(w, Enter(i)))
  {
    var s := w.samples[i];
    FirstShape(w, i);
    FirstMeter(s.rx, w.rx, w.epoch == 0, s.epoch == w.epoch);
    FirstMeter(s.tx, w.tx, w.epoch == 0, s.epoch == w.epoch);
  }

  predicate FirstOk(s: Source, now: Source, current: bool, stillCurrent: bool)
  {
    && s.counter <= s.served && Later(s, now, !stillCurrent) && ExactMeter(Meter(0, 0), now, current)
    && (current ==> stillCurrent)
  }

  lemma FirstShape(w: World, i: nat)
    requires w.mark.None? && i < |w.samples|
    requires w.row.rx == Meter(0, 0) && w.row.tx == Meter(0, 0) && w.row.collectedAt.None?
    ensures var s, t := w.samples[i], Step(w, Enter(i));
      && t.row.rx == Metered(Meter(0, 0), s.rx.counter) && t.row.tx == Metered(Meter(0, 0), s.tx.counter)
      && t.rx == w.rx && t.tx == w.tx && Current(t) == (s.epoch == w.epoch)
  {
  }

  lemma FirstMeter(s: Source, now: Source, current: bool, stillCurrent: bool)
    requires FirstOk(s, now, current, stillCurrent)
    ensures ExactMeter(Metered(Meter(0, 0), s.counter), now, stillCurrent)
  {
    assert Metered(Meter(0, 0), s.counter) == Meter(s.counter, s.counter);
    if current {
      assert s.counter == s.served;
    } else {
      assert now.served == 0 && s.counter == 0;
    }
  }

  lemma NextExact(w: World, m: nat, i: nat)
    requires Truthful(w) && Marked(w) && w.mark == Some(m) && m < i < |w.samples| && Exact(w)
    requires !Older(w.samples[i].asked, w.row.collectedAt)
    ensures Exact(Step(w, Enter(i)))
  {
  }

  lemma EnterExact(w: World, i: nat)
    requires Truthful(w) && Marked(w) && InOrder(w.samples) && i < |w.samples| && Exact(w)
    requires w.samples[i].rx.counter <= w.samples[i].rx.served && w.samples[i].tx.counter <= w.samples[i].tx.served
    ensures Exact(Step(w, Enter(i)))
  {
    if !Older(w.samples[i].asked, w.row.collectedAt) {
      match w.mark
      case None =>
        assert LaterSample(w.samples[i], Present(w));
        FirstExact(w, i);
      case Some(m) =>
        if m < i {
          NextExact(w, m, i);
        } else {
          assert i == m || !Overtaken(w.samples[i], w.samples[m]);
          assert SameReading(w.samples[i], w.samples[m]);
        }
    }
  }

  /** With every restart bracketed, the totals and the bytes not yet read make up exactly what was served. */
  lemma {:induction false} ExactWhenBracketed(es: seq<Event>)
    requires InOrder(Run(es).samples) && Bracketed(es)
    ensures Exact(Run(es))
  {
    if es != [] {
      var w := Run(Init(es));
      assert forall k :: 0 <= k < |w.samples| ==> Run(es).samples[k] == w.samples[k];
      ExactWhenBracketed(Init(es));
      RunMarked(Init(es));
      RunTruthful(Init(es));
      match Last(es)
      case Enter(i) =>
        if i < |w.samples| {
          EnterExact(w, i);
        }
      case _ =>
    }
  }

  // ---------------------------------------------------------------- when readings overtake each other

  /** Readings reach the ledger in any order, any number of times. */
  function EnterAll(w: World, order: seq<nat>): World
  {
    if order == [] then w else Step(EnterAll(w, Init(order)), Enter(Last(order)))
  }

  /** One more reading, taken and recorded. */
  function ReadOnce(w: World, asked: int): World
  {
    Step(Step(w, Take(asked)), Enter(|w.samples|))
  }

  predicate Overcounts(w: World)
  {
    w.row.rx.total > w.rx.served || w.row.tx.total > w.tx.served
  }

  /** Traffic and readings alone: nothing recorded yet, and no restart. */
  predicate Unrecorded(es: seq<Event>)
  {
    forall i | 0 <= i < |es| :: es[i].Serve? || es[i].Take?
  }

  predicate After(samples: seq<Sample>, asked: int)
  {
    forall i | 0 <= i < |samples| :: samples[i].asked < asked
  }

  /** However they are recorded, and whatever is then read, these readings never count a byte twice. */
  ghost predicate NeverTwice(w: World)
  {
    forall order, asked | After(w.samples, asked) :: !Overcounts(ReadOnce(EnterAll(w, order), asked))
  }

  /** Every counter shows all that was ever served. */
  ghost predicate Young(w: World)
  {
    && w.epoch == 0 && w.rx.counter == w.rx.served && w.tx.counter == w.tx.served
    && w.row == NEW_ROW && w.mark.None?
    && forall i | 0 <= i < |w.samples| ::
         var s := w.samples[i];
         s.epoch == 0 && s.rx.counter == s.rx.served && s.tx.counter == s.tx.served
  }

  lemma {:induction false} UnrecordedIsYoung(es: seq<Event>)
    requires Unrecorded(es)
    ensures Young(Run(es))
  {
    if es != [] {
      UnrecordedIsYoung(Init(es));
      assert Last(es) == es[|es| - 1];
    }
  }

  lemma {:induction false} EnterAllMarked(w: World, order: seq<nat>)
    requires Truthful(w) && Young(w) && InOrder(w.samples)
    ensures var v := EnterAll(w, order);
      v.samples == w.samples && v.rx == w.rx && v.tx == w.tx && v.epoch == w.epoch && Marked(v)
  {
    if order != [] {
      EnterAllMarked(w, Init(order));
      var v := EnterAll(w, Init(order));
      if Last(order) < |v.samples| {
        EnterMarked(v, Last(order));
      }
    }
  }

  lemma ReadOnceMarked(w: World, v: World, asked: int)
    requires Truthful(w) && Young(w) && InOrder(w.samples) && After(w.samples, asked)
    requires v.samples == w.samples && v.rx == w.rx && v.tx == w.tx && v.epoch == w.epoch && Marked(v)
    ensures !Overcounts(ReadOnce(v, asked))
  {
    var taken := Step(v, Take(asked));
    TakeTruthful(v, asked);
    assert Marked(taken) && InOrder(taken.samples);
    EnterMarked(taken, |v.samples|);
  }

  lemma TakeTruthful(w: World, asked: int)
    requires Truthful(w)
    ensures Truthful(Step(w, Take(asked)))
  {
  }

  /** Two readings, the later one recorded first: the row takes the earlier one for a restart. */
  lemma OvertakenMeter(early: nat, late: nat, now: nat)
    requires early < late <= now
    ensures Metered(Metered(Metered(Meter(0, 0), late), early), now).total == late + now
  {
  }

  /** A reading that is not older than the row's moves both meters. */
  lemma EnterRow(w: World, i: nat)
    requires i < |w.samples| && !Older(w.samples[i].asked, w.row.collectedAt)
    ensures var s, t := w.samples[i], Step(w, Enter(i));
      && t.row == Row(Metered(w.row.rx, s.rx.counter), Metered(w.row.tx, s.tx.counter), Some(s.asked))
      && t.samples == w.samples && t.rx == w.rx && t.tx == w.tx && t.epoch == w.epoch
  {
  }

  lemma EnterAllNext(w: World, order: seq<nat>, i: nat)
    ensures EnterAll(w, order + [i]) == Step(EnterAll(w, order), Enter(i))
  {
    assert Init(order + [i]) == order;
  }

  lemma ReadOnceRow(w: World, asked: int)
    requires !Older(asked, w.row.collectedAt)
    ensures var t := ReadOnce(w, asked);
      && t.row.rx == Metered(w.row.rx, w.rx.counter) && t.row.tx == Metered(w.row.tx, w.tx.counter)
      && t.rx == w.rx && t.tx == w.tx
  {
    EnterRow(Step(w, Take(asked)), |w.samples|);
  }

  lemma EnterTwo(w: World, i: nat, j: nat, asked: int)
    requires w.row == NEW_ROW && i < |w.samples| && j < |w.samples|
    requires w.samples[j].asked <= w.samples[i].asked < asked
    ensures var t := ReadOnce(EnterAll(w, [j, i]), asked);
      var a, b := w.samples[i], w.samples[j];
      && t.rx == w.rx && t.tx == w.tx
      && t.row.rx == Metered(Metered(Metered(Meter(0, 0), b.rx.counter), a.rx.counter), w.rx.counter)
      && t.row.tx == Metered(Metered(Metered(Meter(0, 0), b.tx.counter), a.tx.counter), w.tx.counter)
  {
    EnterAllNext(w, [], j);
    EnterAllNext(w, [j], i);
    assert [] + [j] == [j] && [j] + [i] == [j, i];
    EnterRow(w, j);
    EnterRow(EnterAll(w, [j]), i);
    ReadOnceRow(EnterAll(w, [j, i]), asked);
  }

  lemma OvertakenCountsTwice(w: World, i: nat, j: nat, asked: int)
    requires Truthful(w) && Young(w) && i < j < |w.samples| && Overtaken(w.samples[i], w.samples[j])
      && After(w.samples, asked)
    ensures Overcounts(ReadOnce(EnterAll(w, [j, i]), asked))
  {
    var a, b := w.samples[i], w.samples[j];
    EnterTwo(w, i, j, asked);
    assert LaterSample(a, b) && LaterSample(b, Present(w));
    if a.rx != b.rx {
      OvertakenMeter(a.rx.counter, b.rx.counter, w.rx.counter);
    } else {
      OvertakenMeter(a.tx.counter, b.tx.counter, w.tx.counter);
    }
  }

  function Latest(samples: seq<Sample>): (t: int)
    ensures After(samples, t)
  {
    if samples == [] then 0
    else
      var t := Latest(Init(samples));
      if Last(samples).asked < t then t else Last(samples).asked + 1
  }

  /**
   Before any restart: no order of recording counts a byte twice exactly when no reading that differs was overtaken.
   */
  lemma NeverTwiceIff(es: seq<Event>)
    requires Unrecorded(es)
    ensures NeverTwice(Run(es)) <==> InOrder(Run(es).samples)
  {
    var w := Run(es);
    UnrecordedIsYoung(es);
    RunTruthful(es);
    if InOrder(w.samples) {
      forall order, asked | After(w.samples, asked)
        ensures !Overcounts(ReadOnce(EnterAll(w, order), asked))
      {
        EnterAllMarked(w, order);
        ReadOnceMarked(w, EnterAll(w, order), asked);
      }
    } else {
      var i, j :| 0 <= i < j < |w.samples| && Overtaken(w.samples[i], w.samples[j]);
      OvertakenCountsTwice(w, i, j, Latest(w.samples));
    }
  }

  /** Some bytes and a reading of them. */
  lemma ServeAndRead(es: seq<Event>, bytes: nat, asked: int)
    ensures var w, t := Run(es), Run(es + [Serve(bytes, 0)] + [Take(asked)]);
      && t.row == w.row && t.mark == w.mark && t.epoch == w.epoch && t.tx == w.tx
      && t.rx == Source(w.rx.counter + bytes, w.rx.served + bytes)
      && t.samples == w.samples + [Sample(asked, t.rx, t.tx, t.epoch)]
  {
    assert Init(es + [Serve(bytes, 0)]) == es;
    assert Init(es + [Serve(bytes, 0)] + [Take(asked)]) == es + [Serve(bytes, 0)];
  }

  function TwoReadings(n: nat, first: int, m: nat, second: int): seq<Event>
  {
    [] + [Serve(n, 0)] + [Take(first)] + [Serve(m, 0)] + [Take(second)]
  }

  lemma TwoReadingsRun(n: nat, first: int, m: nat, second: int)
    ensures var w := Run(TwoReadings(n, first, m, second));
      && w.row == NEW_ROW && w.rx == Source(n + m, n + m)
      && w.samples == [Sample(first, Source(n, n), Source(0, 0), 0), Sample(second, Source(n + m, n + m), Source(0,
        0), 0)]
  {
    ServeAndRead([], n, first);
    ServeAndRead([] + [Serve(n, 0)] + [Take(first)], m, second);
  }

  lemma TwiceFrom(w: World, n: nat, m: nat, asked: int)
    requires w.row == NEW_ROW && w.rx == Source(n + m, n + m) && m > 0 && |w.samples| == 2
    requires w.samples[0].rx == Source(n, n) && w.samples[1].rx == Source(n + m, n + m)
    requires w.samples[1].asked <= w.samples[0].asked < asked
    ensures var t := ReadOnce(EnterAll(w, [1, 0]), asked); t.rx.served == n + m && t.row.rx.total == 2 * (n + m)
  {
    EnterTwo(w, 0, 1, asked);
    OvertakenMeter(n, n + m, n + m);
  }

  /** The second reading recorded first, and one more after both: every byte is counted twice. */
  lemma CountedTwice(n: nat, first: int, m: nat, second: int, asked: int)
    requires m > 0 && second <= first < asked
    ensures var t := ReadOnce(EnterAll(Run(TwoReadings(n, first, m, second)), [1, 0]), asked);
      t.rx.served == n + m && t.row.rx.total == 2 * (n + m)
  {
    TwoReadingsRun(n, first, m, second);
    TwiceFrom(Run(TwoReadings(n, first, m, second)), n, m, asked);
  }

  /**
   One byte and the reading asked for at 5, another byte and the reading asked for at 4: two bytes are counted as
   four.
   */
  lemma FourForTwo()
    ensures var t := ReadOnce(EnterAll(Run(TwoReadings(1, 5, 1, 4)), [1, 0]), 6);
      t.rx.served == 2 && t.row.rx.total == 4
  {
    CountedTwice(1, 5, 1, 4, 6);
  }

  // ---------------------------------------------------------------- the ledger

  type Key = (string, string)

  datatype UsageSample = UsageSample(protocol: string, identity: string, reading: Reading)

  function RowAt(rows: map<Key, Row>, key: Key): Row
  {
    if key in rows then rows[key] else NEW_ROW
  }

  function KeyOf(s: UsageSample): Key
  {
    (s.protocol, s.identity)
  }

  function Entered(rows: map<Key, Row>, s: UsageSample): map<Key, Row>
  {
    rows[KeyOf(s) := Applied(RowAt(rows, KeyOf(s)), s.reading)]
  }

  function AllEntered(rows: map<Key, Row>, samples: seq<UsageSample>): map<Key, Row>
  {
    if samples == [] then rows else Entered(AllEntered(rows, Init(samples)), Last(samples))
  }

  /** One credential's readings among a poll's samples, in order. */
  function ReadingsOf(samples: seq<UsageSample>, key: Key): seq<Reading>
  {
    if samples == [] then []
    else ReadingsOf(Init(samples), key) + if KeyOf(Last(samples)) == key then [Last(samples).reading] else []
  }

  function AllApplied(row: Row, readings: seq<Reading>): Row
  {
    if readings == [] then row else Applied(AllApplied(row, Init(readings)), Last(readings))
  }

  /** A poll moves each credential by its own readings alone. */
  lemma {:induction false} CredentialsIndependent(rows: map<Key, Row>, samples: seq<UsageSample>, key: Key)
    ensures RowAt(AllEntered(rows, samples), key) == AllApplied(RowAt(rows, key), ReadingsOf(samples, key))
  {
    if samples != [] {
      CredentialsIndependent(rows, Init(samples), key);
      var before := ReadingsOf(Init(samples), key);
      assert Init(before + [Last(samples).reading]) == before;
      assert before + [] == before;
    }
  }

  /** Whether a reading adds to either total. */
  predicate Moves(row: Row, r: Reading)
  {
    Applied(row, r).rx.total > row.rx.total || Applied(row, r).tx.total > row.tx.total
  }

  /** How many of the samples, each in its turn, add to a total. */
  function MoveCount(rows: map<Key, Row>, samples: seq<UsageSample>): nat
  {
    if samples == [] then 0
    else
      MoveCount(rows, Init(samples)) +
      if Moves(RowAt(AllEntered(rows, Init(samples)), KeyOf(Last(samples))), Last(samples).reading) then 1 else 0
  }

  /** The `i`-th sample, in its turn, adds to a total. */
  predicate MovesAt(rows: map<Key, Row>, samples: seq<UsageSample>, i: nat)
    requires i < |samples|
  {
    Moves(RowAt(AllEntered(rows, samples[..i]), KeyOf(samples[i])), samples[i].reading)
  }

  function Moving(rows: map<Key, Row>, samples: seq<UsageSample>): set<nat>
  {
    set i: nat | i < |samples| && MovesAt(rows, samples, i)
  }

  lemma MovesSame(rows: map<Key, Row>, samples: seq<UsageSample>, i: nat)
    requires i + 1 < |samples|
    ensures MovesAt(rows, samples, i) == MovesAt(rows, Init(samples), i)
  {
    assert samples[..i] == Init(samples)[..i];
  }

  lemma MovingSame(rows: map<Key, Row>, samples: seq<UsageSample>, i: nat)
    requires i + 1 < |samples|
    ensures i in Moving(rows, samples) <==> i in Moving(rows, Init(samples))
  {
    MovesSame(rows, samples, i);
  }

  lemma SetNext(before: set<nat>, after: set<nat>, last: nat)
    requires (forall i :: i in before ==> i < last) && (forall i :: i in after ==> i <= last)
    requires forall i :: 0 <= i < last ==> (i in after <==> i in before)
    ensures |after| == |before| + if last in after then 1 else 0
  {
    assert after == before + if last in after then {last} else {};
  }

  lemma MovingNext(rows: map<Key, Row>, samples: seq<UsageSample>, last: nat)
    requires last + 1 == |samples|
    ensures |Moving(rows, samples)| == |Moving(rows, Init(samples))| + if last in Moving(rows, samples) then 1 else 0
  {
    forall i: nat | i < last
      ensures i in Moving(rows, samples) <==> i in Moving(rows, Init(samples))
    {
      MovingSame(rows, samples, i);
    }
    SetNext(Moving(rows, Init(samples)), Moving(rows, samples), last);
  }

  lemma {:induction false} MoveCountIs(rows: map<Key, Row>, samples: seq<UsageSample>)
    ensures MoveCount(rows, samples) == |Moving(rows, samples)|
  {
    if samples == [] {
      assert Moving(rows, samples) == {};
    } else {
      MoveCountIs(rows, Init(samples));
      MovingNext(rows, samples, |samples| - 1);
    }
  }

  /** The places in `gone` that name a row holding no newer reading. */
  function Forgetting(rows: map<Key, Row>, gone: seq<Key>, collectedAt: int): set<nat>
  {
    set i: nat | i < |gone| && gone[i] in rows && !Older(collectedAt, rows[gone[i]].collectedAt)
  }

  lemma {:induction false} ForgetCountIs(rows: map<Key, Row>, gone: seq<Key>, collectedAt: int)
    ensures ForgetCount(rows, gone, collectedAt) == |Forgetting(rows, gone, collectedAt)|
  {
    if gone == [] {
      assert Forgetting(rows, gone, collectedAt) == {};
    } else {
      var before, last := Init(gone), |gone| - 1;
      ForgetCountIs(rows, before, collectedAt);
      assert Forgetting(rows, gone, collectedAt) == Forgetting(rows, before, collectedAt)
        + if gone[last] in rows && !Older(collectedAt, rows[gone[last]].collectedAt) then {last} else {};
    }
  }

  /** How many of the named rows are there and hold no newer reading, a row named twice counting twice. */
  function ForgetCount(rows: map<Key, Row>, gone: seq<Key>, collectedAt: int): nat
  {
    if gone == [] then 0
    else
      var key := Last(gone);
      ForgetCount(rows, Init(gone), collectedAt)
      + if key in rows && !Older(collectedAt, rows[key].collectedAt) then 1 else 0
  }

  class UsageLedger {
    var rows: map<Key, Row>

    method Record(samples: seq<UsageSample>) returns (moved: nat)
      modifies this
      ensures rows == AllEntered(old(rows), samples)
      ensures moved == MoveCount(old(rows), samples) == |Moving(old(rows), samples)|
    {
      MoveCountIs(rows, samples);
      moved := 0;
      for i := 0 to |samples|
        invariant rows == AllEntered(old(rows), samples[..i])
        invariant moved == MoveCount(old(rows), samples[..i])
      {
        assert Init(samples[..i + 1]) == samples[..i];
        var active := Apply(samples[i]);
        if active {
          moved := moved + 1;
        }
      }
      assert samples[..|samples|] == samples;
    }

    method Apply(sample: UsageSample) returns (active: bool)
      modifies this
      ensures rows == Entered(old(rows), sample)
      ensures active <==> Moves(RowAt(old(rows), KeyOf(sample)), sample.reading)
    {
      var key := KeyOf(sample);
      var row, r := RowAt(rows, key), sample.reading;
      if Older(r.collectedAt, row.collectedAt) {
        rows := rows[key := row];
        return false;
      }
      var rx, tx := Delta(r.rx, row.rx.last), Delta(r.tx, row.tx.last);
      var moved := Row(Meter(row.rx.total + rx, r.rx), Meter(row.tx.total + tx, r.tx), Some(r.collectedAt));
      assert moved == Applied(row, r);
      rows := rows[key := moved];
      active := rx != 0 || tx != 0;
    }

    method ForgetReadings(gone: seq<Key>, collectedAt: int) returns (forgotten: nat)
      modifies this
      ensures rows.Keys == old(rows).Keys
      ensures forall k :: k in rows ==>
        rows[k] == if k in gone then Forgotten(old(rows)[k], collectedAt) else old(rows)[k]
      ensures forgotten == ForgetCount(old(rows), gone, collectedAt) == |Forgetting(old(rows), gone, collectedAt)|
    {
      ForgetCountIs(rows, gone, collectedAt);
      forgotten := 0;
      for i := 0 to |gone|
        invariant rows.Keys == old(rows).Keys
        invariant forall k :: k in rows ==>
          rows[k] == if k in gone[..i] then Forgotten(old(rows)[k], collectedAt) else old(rows)[k]
        invariant forgotten == ForgetCount(old(rows), gone[..i], collectedAt)
      {
        var key := gone[i];
        assert Init(gone[..i + 1]) == gone[..i];
        assert key in rows ==> Older(collectedAt, rows[key].collectedAt) == Older(collectedAt,
          old(rows)[key].collectedAt);
        if key in rows && !Older(collectedAt, rows[key].collectedAt) {
          var row := rows[key];
          rows := rows[key := Row(row.rx.(last := 0), row.tx.(last := 0), Some(collectedAt))];
          forgotten := forgotten + 1;
        }
      }
      assert gone[..|gone|] == gone;
    }
  }
}
