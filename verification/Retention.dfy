/**
 Pruning history: five passes of bounded batches, some rows locked by others, some passes
 refused by the database, records before the operations they reference.
 */
module Retention {
  import opened Text

  type Id = nat

  const BATCH := 2_000
  const MAXIMUM_BATCHES := 2_000

  datatype Record = Record(checkedAt: int, operation: Option<Id>)
  datatype Health = Health(observedAt: int)
  datatype EmailState = Pending | Sending | Sent | EmailFailed | EmailCancelled
  datatype Email = Email(state: EmailState, sentAt: Option<int>, availableAt: int)
  datatype OperationState = Queued | Running | Succeeded | Failed | Cancelled
  datatype Operation = Operation(state: OperationState, finishedAt: Option<int>)
  datatype Audit = Audit(recordedAt: int)

  datatype Tables = Tables(
    records: map<Id, Record>, health: map<Id, Health>, emails: map<Id, Email>,
    operations: map<Id, Operation>, audits: map<Id, Audit>)

  datatype Policy = Policy(auditDays: int, operationalDays: int)

  // ---------------------------------------------------------------- which rows are history

  predicate OldRecord(cutoff: int, r: Record) { r.checkedAt < cutoff }

  predicate OldHealth(cutoff: int, r: Health) { r.observedAt < cutoff }

  /** Finished deliveries, aged from when they were sent or, never sent, from when they could have been. */
  predicate OldEmail(cutoff: int, r: Email)
  {
    && (r.state.Sent? || r.state.EmailFailed? || r.state.EmailCancelled?)
    && (match r.sentAt { case None => r.availableAt case Some(t) => t }) < cutoff
  }

  /** Finished work, aged from its completion; a NULL completion compares as not old. */
  predicate OldOperation(cutoff: int, r: Operation)
  {
    && (r.state.Succeeded? || r.state.Failed? || r.state.Cancelled?)
    && r.finishedAt.Some? && r.finishedAt.value < cutoff
  }

  predicate OldAudit(cutoff: int, r: Audit) { r.recordedAt < cutoff }

  predicate Referenced(records: map<Id, Record>, id: Id)
  {
    exists r :: r in records && records[r].operation == Some(id)
  }

  function Doomed<Row>(table: map<Id, Row>, gone: (Id, Row) -> bool): set<Id>
  {
    set id | id in table && gone(id, table[id])
  }

  // ---------------------------------------------------------------- one pass

  function Min(a: nat, b: nat): nat { if a <= b then a else b }

  lemma {:induction false} SubsetOfSize(s: set<Id>, n: nat)
    requires n <= |s|
    ensures exists t :: t <= s && |t| == n
  {
    if n == 0 {
      var t: set<Id> := {};
      assert t <= s && |t| == 0;
    } else {
      var x :| x in s;
      SubsetOfSize(s - {x}, n - 1);
      var t :| t <= s - {x} && |t| == n - 1;
      assert t + {x} <= s && |t + {x}| == n;
    }
  }

  /** The rows others hold locked, batch by batch. */
  type Locks = nat -> set<Id>

  ghost predicate Steady(locks: Locks)
  {
    forall k :: locks(k) == locks(0)
  }

  /** What is left of a table after some batches. */
  function Left<Row>(table: map<Id, Row>, batches: seq<set<Id>>): map<Id, Row>
  {
    if batches == [] then table else Left(table, Init(batches)) - Last(batches)
  }

  /** Each batch takes at most so many rows, doomed as the table stands then, none of them locked. */
  ghost predicate Batches<Row>(table: map<Id, Row>, gone: (Id, Row) -> bool, locks: Locks, batches: seq<set<Id>>)
  {
    batches == [] ||
    (&& Batches(table, gone, locks, Init(batches)) && |Last(batches)| <= BATCH
     && Last(batches) <= Doomed(Left(table, Init(batches)), gone) - locks(|batches| - 1))
  }

  lemma Sizes(all: set<Id>, part: set<Id>)
    requires part <= all
    ensures |all - part| == |all| - |part|
  {
  }

  lemma SameSize(part: set<Id>, all: set<Id>)
    requires part <= all && |part| == |all|
    ensures part == all
  {
    Sizes(all, part);
  }

  /** The database's choice: any rows, as many as there are up to the batch size. */
  method SelectBatch(here: set<Id>) returns (identifiers: set<Id>)
    ensures identifiers <= here && |identifiers| == Min(BATCH, |here|)
  {
    SubsetOfSize(here, Min(BATCH, |here|));
    identifiers :| identifiers <= here && |identifiers| == Min(BATCH, |here|);
  }

  /** What holds after any number of batches, with `deleted` gone. */
  ghost predicate Sofar<Row>(table: map<Id, Row>, gone: (Id, Row) -> bool, locks: Locks, batches: seq<set<Id>>,
      deleted: set<Id>)
  {
    && Batches(table, gone, locks, batches) && Left(table, batches) == table - deleted
    && deleted <= Doomed(table, gone) && (Steady(locks) ==> deleted !! locks(0))
  }

  lemma DoomedLeft<Row>(table: map<Id, Row>, gone: (Id, Row) -> bool, deleted: set<Id>)
    ensures Doomed(table - deleted, gone) == Doomed(table, gone) - deleted
  {
  }

  lemma SofarNext<Row>(
      table: map<Id, Row>, gone: (Id, Row) -> bool, locks: Locks, batches: seq<set<Id>>, deleted: set<Id>, ids: set<Id>)
    requires Sofar(table, gone, locks, batches, deleted) && |ids| <= BATCH
    requires ids <= Doomed(Left(table, batches), gone) - locks(|batches|)
    ensures Sofar(table, gone, locks, batches + [ids], deleted + ids) && |deleted + ids| == |deleted| + |ids|
  {
    assert Init(batches + [ids]) == batches;
    DoomedLeft(table, gone, deleted);
    assert table - deleted - ids == table - (deleted + ids);
    assert deleted !! ids;
    if Steady(locks) {
      assert locks(|batches|) == locks(0);
    }
  }

  /** Nothing more to take: what is left doomed is locked, and if the locks stay the same the count is exact. */
  lemma Exhausted<Row>(
      table: map<Id, Row>, gone: (Id, Row) -> bool, locks: Locks, batches: seq<set<Id>>, deleted: set<Id>, k: nat)
    requires Sofar(table, gone, locks, batches, deleted) && Doomed(Left(table, batches), gone) <= locks(k)
    ensures Steady(locks) ==> deleted == Doomed(table, gone) - locks(0)
  {
    DoomedLeft(table, gone, deleted);
    if Steady(locks) {
      assert locks(k) == locks(0);
    }
  }

  /** A batch that is not full took everything there was to take. */
  lemma ShortBatch<Row>(left: map<Id, Row>, gone: (Id, Row) -> bool, locked: set<Id>, ids: set<Id>)
    requires ids <= Doomed(left, gone) - locked && |ids| == Min(BATCH, |Doomed(left, gone) - locked|) < BATCH
    ensures Doomed(left - ids, gone) <= locked
  {
    SameSize(ids, Doomed(left, gone) - locked);
    DoomedLeft(left, gone, ids);
  }

  lemma Ceiling(all: set<Id>, deleted: set<Id>)
    requires deleted <= all
    ensures |deleted| <= |all|
  {
    Sizes(all, deleted);
  }

  /**
   One pass over a table, for any choice of batches and whatever is locked when each is chosen. It ends, and `batches`
   is what it took. Unless the database refuses it, no doomed row is left but those locked when it last looked, or the
   ceiling was reached; and if the locks stay the same the count is exact. `refusal` is the batch, if any, at which the
   database refuses.
   */
  method DeleteInBatches<Row>(table: map<Id, Row>, gone: (Id, Row) -> bool, locks: Locks, refusal: Option<nat>)
    returns (left: map<Id, Row>, total: nat, refused: bool,
      ghost deleted: set<Id>, ghost batches: seq<set<Id>>, ghost looked: nat)
    ensures Batches(table, gone, locks, batches) && left == Left(table, batches) == table - deleted
    ensures deleted <= Doomed(table, gone) && total == |deleted|
    ensures !refused ==> Doomed(left, gone) <= locks(looked) || total == 4_000_000
    ensures !refused && Steady(locks) ==> total == Min(|Doomed(table, gone) - locks(0)|, 4_000_000)
    ensures refused ==> refusal.Some? && total == refusal.value * 2_000
    ensures refusal.None? ==> !refused
  {
    left, total, refused, deleted, batches, looked := table, 0, false, {}, [], 0;
    for k := 0 to MAXIMUM_BATCHES
      invariant Sofar(table, gone, locks, batches, deleted) && left == Left(table, batches)
      invariant |batches| == k && total == |deleted| == k * BATCH && !refused
    {
      looked := k;
      if refusal == Some(k) {
        refused := true;
        return;
      }
      var identifiers := SelectBatch(Doomed(left, gone) - locks(k));
      SofarNext(table, gone, locks, batches, deleted, identifiers);
      if |identifiers| < BATCH {
        ShortBatch(left, gone, locks(k), identifiers);
      }
      if identifiers == {} {
        assert left - identifiers == left;
        Exhausted(table, gone, locks, batches, deleted, k);
        return;
      }
      left := left - identifiers;
      deleted, batches := deleted + identifiers, batches + [identifiers];
      assert Init(batches) + [identifiers] == batches;
      total := total + |identifiers|;
      if |identifiers| < BATCH {
        Exhausted(table, gone, locks, batches, deleted, k);
        return;
      }
    }
    if Steady(locks) {
      Ceiling(Doomed(table, gone) - locks(0), deleted);
    }
  }

  // ---------------------------------------------------------------- the five passes

  function Kept<Row>(table: map<Id, Row>, gone: (Id, Row) -> bool): map<Id, Row>
  {
    table - Doomed(table, gone)
  }

  function GoneRecord(cutoff: int): (Id, Record) -> bool { (id, r) => OldRecord(cutoff, r) }

  function GoneHealth(cutoff: int): (Id, Health) -> bool { (id, r) => OldHealth(cutoff, r) }

  function GoneEmail(cutoff: int): (Id, Email) -> bool { (id, r) => OldEmail(cutoff, r) }

  function GoneOperation(cutoff: int, records: map<Id, Record>): (Id, Operation) -> bool
  {
    (id: Id, r: Operation) => OldOperation(cutoff, r) && !Referenced(records, id)
  }

  function GoneAudit(cutoff: int): (Id, Audit) -> bool { (id, r) => OldAudit(cutoff, r) }

  /** What pruning means: old rows gone, and an operation gone when it is old and no surviving record names it. */
  function SetDelete(t: Tables, cutoff: int, auditCutoff: int): Tables
  {
    var records := Kept(t.records, GoneRecord(cutoff));
    Tables(records, Kept(t.health, GoneHealth(cutoff)), Kept(t.emails, GoneEmail(cutoff)),
           Kept(t.operations, GoneOperation(cutoff, records)), Kept(t.audits, GoneAudit(auditCutoff)))
  }

  /** The RESTRICT foreign key: every operation a record names is there. */
  ghost predicate References(t: Tables)
  {
    forall r :: r in t.records && t.records[r].operation.Some? ==> t.records[r].operation.value in t.operations
  }

  /** `after` is `before` less some of the rows `allowed`. */
  ghost predicate Less<Row>(before: map<Id, Row>, after: map<Id, Row>, allowed: set<Id>)
  {
    after == before - (before.Keys - after.Keys) && before.Keys - after.Keys <= allowed
  }

  /** How many rows each pass deleted; None for a pass the database refused. */
  datatype Summary = Summary(
    records: Option<nat>, health: Option<nat>, emails: Option<nat>, operations: Option<nat>, audits: Option<nat>)

  ghost predicate Counted(count: Option<nat>, missing: nat, pass: Pass)
  {
    match count
    case Some(n) => n == missing
    case None => pass.refusal.Some?
  }

  /** A pass's circumstances: the rows others hold locked, and the batch at which it is refused, if any. */
  datatype Pass = Pass(locks: Locks, refusal: Option<nat>)

  datatype Passes = Passes(records: Pass, health: Pass, emails: Pass, operations: Pass, audits: Pass)

  /** Nothing locked or refused, and no more to delete than one pass may. */
  ghost predicate Calm<Row>(p: Pass, table: map<Id, Row>, gone: (Id, Row) -> bool)
  {
    (forall k :: p.locks(k) == {}) && p.refusal.None? && |Doomed(table, gone)| <= BATCH * MAXIMUM_BATCHES
  }

  /** One pass: never more than the simple delete, and all of it when nothing stands in the way. */
  method RunPass<Row>(table: map<Id, Row>, gone: (Id, Row) -> bool, pass: Pass)
    returns (left: map<Id, Row>, count: Option<nat>, ghost batches: seq<set<Id>>)
    ensures PassDone(table, left, gone, pass)
    ensures Counted(count, |table.Keys - left.Keys|, pass)
    ensures Batches(table, gone, pass.locks, batches) && left == Left(table, batches)
  {
    var rows, total, refused, deleted, taken, looked := DeleteInBatches(table, gone, pass.locks, pass.refusal);
    left, count, batches := rows, if refused then None else Some(total), taken;
    Minus(table, deleted);
    if Calm(pass, table, gone) {
      assert Steady(pass.locks);
      CalmTakesAll(table, gone, pass.locks(0), deleted);
    }
  }

  lemma CalmTakesAll<Row>(table: map<Id, Row>, gone: (Id, Row) -> bool, locked: set<Id>, deleted: set<Id>)
    requires locked == {} && deleted <= Doomed(table, gone) && |Doomed(table, gone)| <= BATCH * MAXIMUM_BATCHES
    requires |deleted| == Min(|Doomed(table, gone) - locked|, BATCH * MAXIMUM_BATCHES)
    ensures table - deleted == Kept(table, gone)
  {
    assert Doomed(table, gone) - locked == Doomed(table, gone);
    SameSize(deleted, Doomed(table, gone));
  }

  lemma Minus<Row>(table: map<Id, Row>, deleted: set<Id>)
    requires deleted <= table.Keys
    ensures table.Keys - (table - deleted).Keys == deleted
  {
  }

  method Cutoffs(now: int, policy: Policy) returns (cutoff: int, auditCutoff: int)
    ensures (cutoff, auditCutoff) == (now - policy.operationalDays * 86_400, now - policy.auditDays * 86_400)
  {
    return now - policy.operationalDays * 86_400, now - policy.auditDays * 86_400;
  }

  class Database {
    var tables: Tables

    /**
     The passes in their order, records before the operations they name, each committed before the next. Operational
     history goes by one number of days, the audit log by the other. `history` is the tables after every batch, those
     of tables the foreign key does not name taken together.
     */
    method PruneHistory(now: int, policy: Policy, passes: Passes)
      returns (summary: Summary, ghost cutoffs: (int, int), ghost history: seq<Tables>, ghost batches: seq<set<Id>>)
      requires policy.auditDays >= 1 && policy.operationalDays >= 1
      modifies this
      ensures cutoffs == (now - policy.operationalDays * 86_400, now - policy.auditDays * 86_400)
      ensures Pruned(old(tables), tables, cutoffs.0, cutoffs.1, passes)
      ensures Accurate(old(tables), tables, summary, passes)
      ensures BatchRun(history, batches, cutoffs.0)
      ensures history[0] == old(tables) && Last(history) == tables
      ensures References(old(tables)) ==> forall i | 0 <= i < |history| :: References(history[i])
    {
      var cutoff, auditCutoff := Cutoffs(now, policy);
      cutoffs := (cutoff, auditCutoff);
      ghost var before := tables;
      var records, c1, b1 := RunPass(tables.records, GoneRecord(cutoff), passes.records);
      tables := tables.(records := records);
      var health, c2, b2 := RunPass(tables.health, GoneHealth(cutoff), passes.health);
      tables := tables.(health := health);
      var emails, c3, b3 := RunPass(tables.emails, GoneEmail(cutoff), passes.emails);
      tables := tables.(emails := emails);
      var operations, c4, b4 := RunPass(tables.operations, GoneOperation(cutoff, records), passes.operations);
      tables := tables.(operations := operations);
      var audits, c5, b5 := RunPass(tables.audits, GoneAudit(auditCutoff), passes.audits);
      tables := tables.(audits := audits);
      summary := Summary(c1, c2, c3, c4, c5);
      Composed(before, tables, cutoff, auditCutoff, passes);
      history, batches := WholeHistory(before, tables, b1, b4, cutoff, passes);
    }
  }

  ghost predicate PassDone<Row>(table: map<Id, Row>, left: map<Id, Row>, gone: (Id, Row) -> bool, pass: Pass)
  {
    Less(table, left, Doomed(table, gone)) && (Calm(pass, table, gone) ==> left == Kept(table, gone))
  }

  lemma Composed(t: Tables, u: Tables, cutoff: int, auditCutoff: int, p: Passes)
    requires PassDone(t.records, u.records, GoneRecord(cutoff), p.records)
    requires PassDone(t.health, u.health, GoneHealth(cutoff), p.health)
    requires PassDone(t.emails, u.emails, GoneEmail(cutoff), p.emails)
    requires PassDone(t.operations, u.operations, GoneOperation(cutoff, u.records), p.operations)
    requires PassDone(t.audits, u.audits, GoneAudit(auditCutoff), p.audits)
    ensures Pruned(t, u, cutoff, auditCutoff, p)
  {
    FewerReferences(t.records, u.records, cutoff, t.operations);
    KeepsReferences(t, u, cutoff);
  }

  /** Each pass's count is the number of rows it deleted, and only a refused pass has none. */
  ghost predicate Accurate(t: Tables, u: Tables, s: Summary, p: Passes)
  {
    && Counted(s.records, |t.records.Keys - u.records.Keys|, p.records)
    && Counted(s.health, |t.health.Keys - u.health.Keys|, p.health)
    && Counted(s.emails, |t.emails.Keys - u.emails.Keys|, p.emails)
    && Counted(s.operations, |t.operations.Keys - u.operations.Keys|, p.operations)
    && Counted(s.audits, |t.audits.Keys - u.audits.Keys|, p.audits)
  }

  /**
   What a run promises: nothing but history is deleted, never more than the simple delete would,
   the foreign key still holds, and on a calm database the result is the simple delete exactly.
   */
  ghost predicate Pruned(t: Tables, u: Tables, cutoff: int, auditCutoff: int, p: Passes)
  {
    && Less(t.records, u.records, Doomed(t.records, GoneRecord(cutoff)))
    && Less(t.health, u.health, Doomed(t.health, GoneHealth(cutoff)))
    && Less(t.emails, u.emails, Doomed(t.emails, GoneEmail(cutoff)))
    && Less(t.operations, u.operations,
            Doomed(t.operations, GoneOperation(cutoff, Kept(t.records, GoneRecord(cutoff)))))
    && Less(t.audits, u.audits, Doomed(t.audits, GoneAudit(auditCutoff)))
    && (References(t) ==> References(u))
    && (AllCalm(t, cutoff, auditCutoff, p) ==> u == SetDelete(t, cutoff, auditCutoff))
  }

  /** The rows of `after` are rows of `before`, as they were. */
  ghost predicate Fewer<Row>(before: map<Id, Row>, after: map<Id, Row>)
  {
    forall id :: id in after ==> id in before && after[id] == before[id]
  }

  lemma LessRows<Row>(before: map<Id, Row>, after: map<Id, Row>, gone: (Id, Row) -> bool)
    requires Less(before, after, Doomed(before, gone))
    ensures Fewer(before, after) && forall id :: id in before && id !in after ==> gone(id, before[id])
  {
  }

  lemma KeptRows<Row>(table: map<Id, Row>, gone: (Id, Row) -> bool)
    ensures forall id :: id in Kept(table, gone) ==> !gone(id, Kept(table, gone)[id])
  {
  }

  /** Checks, health reports and audit entries go by their one time each. */
  lemma PrunedByTime(t: Tables, u: Tables, cutoff: int, auditCutoff: int, p: Passes)
    requires Pruned(t, u, cutoff, auditCutoff, p)
    ensures Fewer(t.records, u.records) && Fewer(t.health, u.health) && Fewer(t.audits, u.audits)
    ensures forall id :: id in t.records && id !in u.records ==> t.records[id].checkedAt < cutoff
    ensures forall id :: id in t.health && id !in u.health ==> t.health[id].observedAt < cutoff
    ensures forall id :: id in t.audits && id !in u.audits ==> t.audits[id].recordedAt < auditCutoff
  {
    LessRows(t.records, u.records, GoneRecord(cutoff));
    LessRows(t.health, u.health, GoneHealth(cutoff));
    LessRows(t.audits, u.audits, GoneAudit(auditCutoff));
  }

  predicate FinishedEmail(r: Email, cutoff: int)
  {
    && r.state in {Sent, EmailFailed, EmailCancelled}
    && (r.sentAt.Some? ==> r.sentAt.value < cutoff) && (r.sentAt.None? ==> r.availableAt < cutoff)
  }

  predicate FinishedOperation(r: Operation, cutoff: int)
  {
    r.state in {Succeeded, Failed, Cancelled} && r.finishedAt.Some? && r.finishedAt.value < cutoff
  }

  /** Deliveries and operations go only when they are over, and an operation only when no recent check names it. */
  lemma PrunedWhenOver(t: Tables, u: Tables, cutoff: int, auditCutoff: int, p: Passes)
    requires Pruned(t, u, cutoff, auditCutoff, p)
    ensures Fewer(t.emails, u.emails) && Fewer(t.operations, u.operations)
    ensures forall id :: id in t.emails && id !in u.emails ==> FinishedEmail(t.emails[id], cutoff)
    ensures forall id :: id in t.operations && id !in u.operations ==>
      FinishedOperation(t.operations[id], cutoff) && NamedOnlyBefore(t.records, id, cutoff)
  {
    LessRows(t.emails, u.emails, GoneEmail(cutoff));
    var kept := Kept(t.records, GoneRecord(cutoff));
    LessRows(t.operations, u.operations, GoneOperation(cutoff, kept));
    forall id | id in t.operations && id !in u.operations ensures NamedOnlyBefore(t.records, id, cutoff) {
      assert !Referenced(kept, id);
      Unreferenced(t.records, id, cutoff);
    }
  }

  ghost predicate NamedOnlyBefore(records: map<Id, Record>, operation: Id, cutoff: int)
  {
    forall r :: r in records && records[r].operation == Some(operation) ==> records[r].checkedAt < cutoff
  }

  lemma Unreferenced(records: map<Id, Record>, operation: Id, cutoff: int)
    requires !Referenced(Kept(records, GoneRecord(cutoff)), operation)
    ensures NamedOnlyBefore(records, operation, cutoff)
  {
    var kept := Kept(records, GoneRecord(cutoff));
    forall r | r in records && records[r].operation == Some(operation) ensures records[r].checkedAt < cutoff {
      assert r !in kept;
    }
  }

  /** On a calm database nothing past its time is left, but finished operations a check still names. */
  lemma CalmLeavesNoHistory(t: Tables, u: Tables, cutoff: int, auditCutoff: int, p: Passes)
    requires Pruned(t, u, cutoff, auditCutoff, p) && AllCalm(t, cutoff, auditCutoff, p)
    ensures forall id :: id in u.records ==> u.records[id].checkedAt >= cutoff
    ensures forall id :: id in u.health ==> u.health[id].observedAt >= cutoff
    ensures forall id :: id in u.emails ==> !FinishedEmail(u.emails[id], cutoff)
    ensures forall id :: id in u.operations && FinishedOperation(u.operations[id], cutoff) ==> Referenced(u.records, id)
    ensures forall id :: id in u.audits ==> u.audits[id].recordedAt >= auditCutoff
  {
    KeptRows(t.records, GoneRecord(cutoff));
    KeptRows(t.health, GoneHealth(cutoff));
    KeptRows(t.emails, GoneEmail(cutoff));
    KeptRows(t.operations, GoneOperation(cutoff, u.records));
    KeptRows(t.audits, GoneAudit(auditCutoff));
  }

  ghost predicate AllCalm(t: Tables, cutoff: int, auditCutoff: int, p: Passes)
  {
    && Calm(p.records, t.records, GoneRecord(cutoff))
    && Calm(p.health, t.health, GoneHealth(cutoff))
    && Calm(p.emails, t.emails, GoneEmail(cutoff))
    && Calm(p.operations, t.operations, GoneOperation(cutoff, Kept(t.records, GoneRecord(cutoff))))
    && Calm(p.audits, t.audits, GoneAudit(auditCutoff))
  }

  lemma KeepsReferences(t: Tables, u: Tables, cutoff: int)
    requires Less(t.records, u.records, Doomed(t.records, GoneRecord(cutoff)))
    requires Less(t.operations, u.operations, Doomed(t.operations, GoneOperation(cutoff, u.records)))
    ensures References(t) ==> References(u)
  {
  }

  /** Records that survive only because they were locked or refused keep their operations alive. */
  lemma FewerReferences(before: map<Id, Record>, after: map<Id, Record>, cutoff: int, operations: map<Id, Operation>)
    requires Less(before, after, Doomed(before, GoneRecord(cutoff)))
    ensures Doomed(operations, GoneOperation(cutoff, after))
         <= Doomed(operations, GoneOperation(cutoff, Kept(before, GoneRecord(cutoff))))
  {
    var kept := Kept(before, GoneRecord(cutoff));
    forall id: Id | Referenced(kept, id) ensures Referenced(after, id) {
      var r :| r in kept && kept[r].operation == Some(id);
      assert r in after && after[r].operation == Some(id);
    }
  }

  /** A second run finds nothing to do. */
  lemma SetDeleteTwice(t: Tables, cutoff: int, auditCutoff: int)
    ensures SetDelete(SetDelete(t, cutoff, auditCutoff), cutoff, auditCutoff) == SetDelete(t, cutoff, auditCutoff)
  {
    KeptTwice(t.records, GoneRecord(cutoff));
    KeptTwice(t.health, GoneHealth(cutoff));
    KeptTwice(t.emails, GoneEmail(cutoff));
    KeptTwice(t.operations, GoneOperation(cutoff, Kept(t.records, GoneRecord(cutoff))));
    KeptTwice(t.audits, GoneAudit(auditCutoff));
  }

  lemma KeptTwice<Row>(table: map<Id, Row>, gone: (Id, Row) -> bool)
    ensures Kept(Kept(table, gone), gone) == Kept(table, gone)
  {
  }

  // ---------------------------------------------------------------- between batches

  /**
   One batch of the whole run, however chosen: doomed records, or operations doomed as the records stand, or rows of
   other tables.
   */
  ghost predicate BatchStep(t: Tables, u: Tables, cutoff: int, ids: set<Id>)
  {
    || (ids <= Doomed(t.records, GoneRecord(cutoff)) && |ids| <= BATCH && u == t.(records := t.records - ids))
    || (&& ids <= Doomed(t.operations, GoneOperation(cutoff, t.records)) && |ids| <= BATCH
        && u == t.(operations := t.operations - ids))
    || (u.records == t.records && u.operations == t.operations)
  }

  /** `history` is the tables before the first batch and after each. */
  ghost predicate BatchRun(history: seq<Tables>, batches: seq<set<Id>>, cutoff: int)
  {
    && |history| == |batches| + 1
    && (batches == [] ||
        (&& BatchRun(Init(history), Init(batches), cutoff)
         && BatchStep(Last(Init(history)), Last(history), cutoff, Last(batches))))
  }

  lemma BatchKeepsReferences(t: Tables, u: Tables, cutoff: int, ids: set<Id>)
    requires References(t) && BatchStep(t, u, cutoff, ids)
    ensures References(u)
  {
  }

  /** The foreign key holds after every batch, whatever was refused, skipped or cut off before. */
  lemma {:induction false} EveryBatchKeepsReferences(history: seq<Tables>, batches: seq<set<Id>>, cutoff: int)
    requires BatchRun(history, batches, cutoff)
    ensures References(history[0]) ==> forall i | 0 <= i < |history| :: References(history[i])
  {
    if batches != [] && References(history[0]) {
      var before := Init(history);
      EveryBatchKeepsReferences(before, Init(batches), cutoff);
      BatchKeepsReferences(Last(before), Last(history), cutoff, Last(batches));
      assert history == before + [Last(history)];
    }
  }

  lemma Extended(history: seq<Tables>, batches: seq<set<Id>>, u: Tables, ids: set<Id>, cutoff: int)
    requires BatchRun(history, batches, cutoff) && BatchStep(Last(history), u, cutoff, ids)
    ensures BatchRun(history + [u], batches + [ids], cutoff)
  {
    assert Init(history + [u]) == history && Init(batches + [ids]) == batches;
  }

  /** The tables after each batch of the pass over records. */
  lemma {:induction false} RecordHistory(t: Tables, taken: seq<set<Id>>, cutoff: int, locks: Locks)
      returns (history: seq<Tables>)
    requires Batches(t.records, GoneRecord(cutoff), locks, taken)
    ensures BatchRun(history, taken, cutoff) && history[0] == t
    ensures Last(history) == t.(records := Left(t.records, taken))
  {
    if taken == [] {
      history := [t];
    } else {
      var past := RecordHistory(t, Init(taken), cutoff, locks);
      var u := t.(records := Left(t.records, taken));
      Extended(past, Init(taken), u, Last(taken), cutoff);
      assert Init(taken) + [Last(taken)] == taken;
      history := past + [u];
    }
  }

  lemma OperationStep(t: Tables, left: map<Id, Operation>, ids: set<Id>, cutoff: int, locked: set<Id>)
    requires ids <= Doomed(left, GoneOperation(cutoff, t.records)) - locked && |ids| <= BATCH
    ensures BatchStep(t.(operations := left), t.(operations := left - ids), cutoff, ids)
  {
  }

  /** The same, after a history, for the pass over operations. */
  lemma {:induction false} OperationHistory(
      past: seq<Tables>, before: seq<set<Id>>, t: Tables, taken: seq<set<Id>>, cutoff: int, locks: Locks)
      returns (history: seq<Tables>)
    requires BatchRun(past, before, cutoff) && Last(past) == t
    requires Batches(t.operations, GoneOperation(cutoff, t.records), locks, taken)
    ensures BatchRun(history, before + taken, cutoff) && history[0] == past[0]
    ensures Last(history) == t.(operations := Left(t.operations, taken))
  {
    if taken == [] {
      assert before + taken == before;
      history := past;
    } else {
      var so := OperationHistory(past, before, t, Init(taken), cutoff, locks);
      var u := t.(operations := Left(t.operations, taken));
      OperationStep(t, Left(t.operations, Init(taken)), Last(taken), cutoff, locks(|taken| - 1));
      Extended(so, before + Init(taken), u, Last(taken), cutoff);
      assert before + Init(taken) + [Last(taken)] == before + taken;
      history := so + [u];
    }
  }

  lemma WholeHistory(t: Tables, u: Tables, b1: seq<set<Id>>, b4: seq<set<Id>>, cutoff: int, p: Passes)
      returns (history: seq<Tables>, batches: seq<set<Id>>)
    requires Batches(t.records, GoneRecord(cutoff), p.records.locks, b1) && u.records == Left(t.records, b1)
    requires Batches(t.operations, GoneOperation(cutoff, u.records), p.operations.locks, b4)
    requires u.operations == Left(t.operations, b4)
    ensures batches == b1 + [{}] + b4 + [{}] && BatchRun(history, batches, cutoff)
    ensures history[0] == t && Last(history) == u
    ensures References(t) ==> forall i | 0 <= i < |history| :: References(history[i])
  {
    var h1 := RecordHistory(t, b1, cutoff, p.records.locks);
    var mid := u.(operations := t.operations, audits := t.audits);
    Extended(h1, b1, mid, {}, cutoff);
    var h2 := OperationHistory(h1 + [mid], b1 + [{}], mid, b4, cutoff, p.operations.locks);
    Extended(h2, b1 + [{}] + b4, u, {}, cutoff);
    history, batches := h2 + [u], b1 + [{}] + b4 + [{}];
    EveryBatchKeepsReferences(history, batches, cutoff);
  }
}
