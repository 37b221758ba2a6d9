/** Over any run: a change takes effect at most once, and a conflict is resolved at most once. */
module SyncOnce {
  import opened Basics
  import opened SyncModel
  import opened SyncPush
  import opened SyncConflicts
  import opened SyncInvariant
  import opened SyncResolution
  import opened SyncProtection
  import opened SyncRuns

  // ---- device changes ----

  predicate Synced(db: Db, user: UserId, id: Id) {
    (user, id) in db.changes && db.changes[(user, id)].synced
  }

  /** A failed push leaves every table as it was; at most its own, unprocessed, row is recorded. */
  lemma FailedLeavesOnlyItsRow(db: Db, user: UserId, c: Change, protocol: nat, fault: Fault, tx: Txid)
    requires Push(db, user, c, protocol, fault, tx).outcome.status == Failed
    ensures var d := Push(db, user, c, protocol, fault, tx).db;
            && SameTables(db, d)
            && (d.changes == db.changes
                || (c.changeId.Some? && (user, c.changeId.value) !in db.changes
                    && d.changes == db.changes[(user, c.changeId.value) := DeviceChange(c, false, None, None)]))
  {
    hide Push;
    FailedPush(db, user, c, protocol, fault, tx);
  }

  lemma FailedPush(db: Db, user: UserId, c: Change, protocol: nat, fault: Fault, tx: Txid)
    requires Push(db, user, c, protocol, fault, tx).outcome.status == Failed
    ensures Push(db, user, c, protocol, fault, tx).db in {db, WithRecordedChange(db, user, c)}
  {
    hide ProcessChange, WithRecordedChange, RecordedChange, MarkSynced;
  }

  /** Once a change_id is processed, sending it again changes no table, whatever is sent with it:
    * the same change gets its first outcome again, any other is refused.
    */
  lemma ResendChangesNothing(db: Db, user: UserId, c: Change, protocol: nat, fault: Fault, tx: Txid)
    requires c.changeId.Some? && Synced(db, user, c.changeId.value)
    ensures var p, first := Push(db, user, c, protocol, fault, tx), db.changes[(user, c.changeId.value)];
            && p.db == db
            && (Validate(c, protocol) == None && fault != Transient ==>
                  p.outcome == if first.change != c then Fail(ChangeIdReused)
                               else if first.outcome == Some(Conflicted) then Outcome(Conflicted, None, first.conflictId, None)
                               else Success(Duplicate, None))
  {
    hide ProcessChange;
  }

  /** A push that takes effect records its outcome under its change_id. */
  lemma EffectIsRecorded(db: Db, user: UserId, c: Change, protocol: nat, fault: Fault, tx: Txid)
    requires c.changeId.Some? && !SameTables(db, Push(db, user, c, protocol, fault, tx).db)
    ensures var p := Push(db, user, c, protocol, fault, tx);
            && p.outcome.status in {Applied, Merged, Conflicted}
            && (user, c.changeId.value) in p.db.changes
            && p.db.changes[(user, c.changeId.value)] == DeviceChange(c, true, Some(p.outcome.status), p.outcome.conflictId)
  {
    hide Decide;
    var r := WithRecordedChange(db, user, c);
    assert SameTables(db, r);
    if c.id.Some? { PerformStatus(r, user, c, KeyOf(c), protocol, tx); }
    hide Perform;
  }

  lemma PerformStatus(db: Db, user: UserId, c: Change, k: Key, protocol: nat, tx: Txid)
    ensures var d := Decide(db, user, c, k, protocol);
            var r := Perform(db, user, k, d, tx);
            r.Done? ==> r.outcome.status in {Applied, Merged, Conflicted, Failed}
  {
    DecideLive(db, user, c, k, protocol);
    DecidedStatus(db, user, c, k, protocol);
    hide Decide, WriteRecord, DeleteRecord;
  }

  lemma DecidedStatus(db: Db, user: UserId, c: Change, k: Key, protocol: nat)
    ensures var d := Decide(db, user, c, k, protocol);
            && (d.Write? ==> d.status in {Applied, Merged})
            && (d.Answer? ==> d.outcome.status in {Applied, Failed})
  {
    hide IsProtected, FindOwned, SawCurrentParent, ChangedSince, ConflictOf, HasOpenConflict, WritableFields, IsDeleted, Differing;
  }

  lemma PushKeepsSynced(db: Db, user: UserId, c: Change, protocol: nat, fault: Fault, tx: Txid, u: UserId, id: Id)
    requires Synced(db, u, id)
    ensures var d := Push(db, user, c, protocol, fault, tx).db;
            (u, id) in d.changes && d.changes[(u, id)] == db.changes[(u, id)]
  {
    hide Push;
    if c.changeId == Some(id) && user == u {
      ResendChangesNothing(db, user, c, protocol, fault, tx);
    } else {
      PushOwnRow(db, user, c, protocol, fault, tx, u, id);
    }
  }

  /** A push touches no device_changes row but its own. */
  lemma PushOwnRow(db: Db, user: UserId, c: Change, protocol: nat, fault: Fault, tx: Txid, u: UserId, id: Id)
    requires !(c.changeId == Some(id) && user == u) && (u, id) in db.changes
    ensures var d := Push(db, user, c, protocol, fault, tx).db;
            (u, id) in d.changes && d.changes[(u, id)] == db.changes[(u, id)]
  {
    hide Decide, Perform, RecordedChange, WithRecordedChange, MarkSynced, Validate;
    var r := WithRecordedChange(db, user, c);
    OtherRow(db, user, c, u, id);
    if c.id.Some? {
      PerformChanges(r, user, c, KeyOf(c), protocol, tx);
      var p := ProcessChange(r, user, c, KeyOf(c), protocol, tx);
      if p.Done? { OtherMarked(p.db, user, c, p.outcome, u, id); }
    }
    assert Validate(c, protocol) == None ==> c.id.Some? by { WithId(c, protocol); }
  }

  lemma WithId(c: Change, protocol: nat)
    ensures Validate(c, protocol) == None ==> c.id.Some?
  {
  }

  lemma OtherRow(db: Db, user: UserId, c: Change, u: UserId, id: Id)
    requires (u, id) in db.changes
    ensures var r := WithRecordedChange(db, user, c); (u, id) in r.changes && r.changes[(u, id)] == db.changes[(u, id)]
  {
  }

  lemma OtherMarked(db: Db, user: UserId, c: Change, outcome: Outcome, u: UserId, id: Id)
    requires !(c.changeId == Some(id) && user == u) && (u, id) in db.changes
    ensures var d := MarkSynced(db, user, c, outcome); (u, id) in d.changes && d.changes[(u, id)] == db.changes[(u, id)]
  {
  }

  lemma PerformChanges(db: Db, user: UserId, c: Change, k: Key, protocol: nat, tx: Txid)
    ensures var r := Perform(db, user, k, Decide(db, user, c, k, protocol), tx); r.Done? ==> r.db.changes == db.changes
  {
    hide Decide, WriteRecord, UpdateRow, UserOf;
    DecideLive(db, user, c, k, protocol);
    var d := Decide(db, user, c, k, protocol);
    if d.Write? { WriteFrame(db, k, FindOwned(db, k, user), d.fields, user, tx); }
    if d.Remove? && k.t != Item {
      var kept := if d.recoverable.Some? then AddConflict(db, d.recoverable.value) else db;
      UpdateFrame(kept, k, db.rows[k].cols[DeletedAt := At(tx)], tx);
    }
  }

  /** No later step forgets or changes a processed change. */
  lemma NextKeepsSynced(db: Db, step: Step, tx: Txid, u: UserId, id: Id)
    requires Synced(db, u, id)
    ensures (u, id) in Next(db, step, tx).changes && Next(db, step, tx).changes[(u, id)] == db.changes[(u, id)]
  {
    hide Push, Resolve, WriteRecord, UpdateRow, DeleteItem, IsLive, OnlyWritable, ColsAccepted, InExistingInvoice;
    match step
    case PushStep(user, change, protocol, fault) => PushKeepsSynced(db, user, change, protocol, fault, tx, u, id);
    case ResolveStep(user, c, action, expected) =>
      if Resolve(db, user, c, action, expected, tx).Some? { ResolvedOnce(db, user, c, action, expected, tx); }
    case ServerInsert(k, user, data) => WriteFrame(db, k, None, data, user, tx);
    case ServerUpdate(k, data) => if k in db.rows { UpdateFrame(db, k, db.rows[k].cols + data, tx); }
    case ServerSoftDelete(k) => if k in db.rows { UpdateFrame(db, k, db.rows[k].cols[DeletedAt := At(tx)], tx); }
    case ServerDeleteItem(k) => if k in db.rows { ItemChanges(db, k, tx); }
    case _ =>
  }

  lemma ItemChanges(db: Db, k: Key, tx: Txid)
    requires k in db.rows
    ensures DeleteItem(db, k, tx).changes == db.changes
  {
    hide UserOf;
  }

  predicate IsPushOf(step: Step, user: UserId, id: Id) {
    step.PushStep? && step.user == user && step.change.changeId == Some(id)
  }

  /** 1 when the step is a push with this change_id that changes some table. */
  ghost function Effect(d: Db, step: Step, tx: Txid, user: UserId, id: Id): nat {
    if IsPushOf(step, user, id) && !SameTables(d, Next(d, step, tx)) then 1 else 0
  }

  /** How many steps of a run are such a push. */
  ghost function Effects(db: Db, steps: seq<Step>, tx: Txid, user: UserId, id: Id): nat
    decreases |steps|
  {
    if steps == [] then 0
    else
      var before, last := steps[..|steps| - 1], steps[|steps| - 1];
      Effects(db, before, tx, user, id) + Effect(Run(db, before, tx), last, tx + |steps| - 1, user, id)
  }

  /** Over any run, a change_id of a user takes effect at most once, and if it did it is recorded
    * as processed from then on.
    */
  lemma {:induction false} AtMostOnce(db: Db, steps: seq<Step>, tx: Txid, user: UserId, id: Id)
    ensures Effects(db, steps, tx, user, id) <= 1
    ensures Synced(db, user, id) ==> Effects(db, steps, tx, user, id) == 0 && Synced(Run(db, steps, tx), user, id)
    ensures Effects(db, steps, tx, user, id) == 1 ==> Synced(Run(db, steps, tx), user, id)
    decreases |steps|
  {
    hide Next, Effect, Synced;
    if steps != [] {
      var before, last := steps[..|steps| - 1], steps[|steps| - 1];
      AtMostOnce(db, before, tx, user, id);
      StepEffect(Run(db, before, tx), last, tx + |steps| - 1, user, id);
    }
  }

  lemma StepEffect(d: Db, step: Step, tx: Txid, user: UserId, id: Id)
    ensures Effect(d, step, tx, user, id) <= 1
    ensures Synced(d, user, id) ==> Effect(d, step, tx, user, id) == 0 && Synced(Next(d, step, tx), user, id)
    ensures Effect(d, step, tx, user, id) == 1 ==> Synced(Next(d, step, tx), user, id)
  {
    hide Next, SameTables, Synced;
    StepKeepsSynced(d, step, tx, user, id);
    if IsPushOf(step, user, id) { PushStepEffect(d, step, tx, user, id); }
  }

  lemma StepKeepsSynced(d: Db, step: Step, tx: Txid, user: UserId, id: Id)
    ensures Synced(d, user, id) ==> Synced(Next(d, step, tx), user, id)
  {
    hide Next;
    if Synced(d, user, id) { NextKeepsSynced(d, step, tx, user, id); }
  }

  lemma PushStepEffect(d: Db, step: Step, tx: Txid, user: UserId, id: Id)
    requires IsPushOf(step, user, id)
    ensures Synced(d, user, id) ==> SameTables(d, Next(d, step, tx))
    ensures !SameTables(d, Next(d, step, tx)) ==> Synced(Next(d, step, tx), user, id)
  {
    hide Push;
    if Synced(d, user, id) {
      ResendChangesNothing(d, user, step.change, step.protocol, step.fault, tx);
    } else if !SameTables(d, Next(d, step, tx)) {
      EffectIsRecorded(d, user, step.change, step.protocol, step.fault, tx);
    }
  }

  // ---- a conflict is resolved at most once ----

  /** The id was given out and its conflict is closed, or no longer kept. */
  predicate IsClosed(db: Db, id: Id) {
    id < db.nextConflict && (id in db.conflicts ==> db.conflicts[id].status != Open)
  }

  /** The step is a resolution of this conflict that succeeds. */
  ghost predicate Resolves(db: Db, step: Step, tx: Txid, id: Id) {
    step.ResolveStep? && step.conflict == id && Resolve(db, step.user, id, step.action, step.expected, tx).Some?
  }

  /** Ids are not given out again, and the conflicts given out before stay as they are but for `touched`. */
  ghost predicate FilesOnly(a: Db, b: Db, touched: set<Id>) {
    && a.nextConflict <= b.nextConflict
    && forall i :: i < a.nextConflict && i !in touched ==>
         (i in a.conflicts <==> i in b.conflicts) && (i in a.conflicts && i in b.conflicts ==> a.conflicts[i] == b.conflicts[i])
  }

  lemma PerformFiles(db: Db, user: UserId, c: Change, k: Key, protocol: nat, tx: Txid)
    ensures var r := Perform(db, user, k, Decide(db, user, c, k, protocol), tx); r.Done? ==> FilesOnly(db, r.db, {})
  {
    hide Decide, WriteRecord, UpdateRow, UserOf;
    DecideLive(db, user, c, k, protocol);
    var d := Decide(db, user, c, k, protocol);
    if d.Write? { WriteFrame(db, k, FindOwned(db, k, user), d.fields, user, tx); }
    if d.Remove? && k.t != Item {
      var kept := if d.recoverable.Some? then AddConflict(db, d.recoverable.value) else db;
      UpdateFrame(kept, k, db.rows[k].cols[DeletedAt := At(tx)], tx);
    }
  }

  lemma PushFiles(db: Db, user: UserId, c: Change, protocol: nat, fault: Fault, tx: Txid)
    ensures FilesOnly(db, Push(db, user, c, protocol, fault, tx).db, {})
  {
    hide Push, Decide, Perform;
    PushEffect(db, user, c, protocol, fault, tx);
    if !SameTables(db, Push(db, user, c, protocol, fault, tx).db) {
      PerformFiles(WithRecordedChange(db, user, c), user, c, KeyOf(c), protocol, tx);
    }
  }

  /** What a step does to the conflicts given out before it: it closes the one it resolves; retention
    * drops closed ones.
    */
  lemma NextFiles(db: Db, step: Step, tx: Txid)
    ensures var d := Next(db, step, tx);
            !step.PruneConflicts? ==> FilesOnly(db, d, if step.ResolveStep? && Resolves(db, step, tx, step.conflict) then {step.conflict} else {})
  {
    hide Push, Resolve, WriteRecord, UpdateRow, DeleteItem, IsLive, OnlyWritable, ColsAccepted, InExistingInvoice;
    match step
    case PushStep(user, change, protocol, fault) => PushFiles(db, user, change, protocol, fault, tx);
    case ResolveStep(user, c, action, expected) =>
      if Resolve(db, user, c, action, expected, tx).Some? { ResolvedOnce(db, user, c, action, expected, tx); }
    case ServerInsert(k, user, data) => WriteFrame(db, k, None, data, user, tx);
    case ServerUpdate(k, data) => if k in db.rows { UpdateFrame(db, k, db.rows[k].cols + data, tx); }
    case ServerSoftDelete(k) => if k in db.rows { UpdateFrame(db, k, db.rows[k].cols[DeletedAt := At(tx)], tx); }
    case ServerDeleteItem(k) => if k in db.rows { ItemFiles(db, k, tx); }
    case _ =>
  }

  lemma ItemFiles(db: Db, k: Key, tx: Txid)
    requires k in db.rows
    ensures FilesOnly(db, DeleteItem(db, k, tx), {})
  {
    hide UserOf;
  }

  /** What a step does to one conflict: an open one stays as it is unless the step resolves it, which
    * closes it; a closed one is never open again, and can be resolved by nobody.
    */
  lemma NextOnConflict(db: Db, step: Step, tx: Txid, id: Id)
    requires id < db.nextConflict
    ensures var d := Next(db, step, tx);
            && id < d.nextConflict
            && (IsClosed(db, id) ==> !Resolves(db, step, tx, id) && IsClosed(d, id))
            && (Resolves(db, step, tx, id) ==> IsClosed(d, id))
            && (!Resolves(db, step, tx, id) && !IsClosed(db, id) ==> id in d.conflicts && d.conflicts[id] == db.conflicts[id])
  {
    NextFiles(db, step, tx);
    hide Push, Act, WriteRecord, UpdateRow, DeleteRecord, IsLive, OnlyWritable, ColsAccepted, TouchForDelivery, ServerMayWrite;
    if Resolves(db, step, tx, id) {
      ResolvedOnce(db, step.user, id, step.action, step.expected, tx);
    }
  }

  /** How many steps of a run resolve the conflict. */
  ghost function Resolutions(db: Db, steps: seq<Step>, tx: Txid, id: Id): nat
    decreases |steps|
  {
    if steps == [] then 0
    else
      var before, last := steps[..|steps| - 1], steps[|steps| - 1];
      Resolutions(db, before, tx, id) + if Resolves(Run(db, before, tx), last, tx + |steps| - 1, id) then 1 else 0
  }

  lemma NotYetFiled(db: Db, step: Step, tx: Txid, id: Id)
    requires Consistent(db) && id >= db.nextConflict
    ensures !Resolves(db, step, tx, id)
  {
    hide HistoriesOk, TombstonesOk, ItemsOk, Act;
  }

  /** Over any run, whatever else is pushed, resolved, written or pruned, at most one step resolves a
    * conflict: an open one is as it was until that step, and after it the id is never open again.
    */
  lemma {:induction false} ResolvedAtMostOnce(db: Db, steps: seq<Step>, tx: Txid, id: Id)
    requires Consistent(db)
    ensures var d := Run(db, steps, tx);
            && Consistent(d) && db.nextConflict <= d.nextConflict
            && Resolutions(db, steps, tx, id) <= 1
            && (Resolutions(db, steps, tx, id) == 1 ==> IsClosed(d, id))
            && (IsClosed(db, id) ==> Resolutions(db, steps, tx, id) == 0 && IsClosed(d, id))
            && (id in db.conflicts && db.conflicts[id].status == Open ==>
                  (Resolutions(db, steps, tx, id) == 0 <==> id in d.conflicts && d.conflicts[id] == db.conflicts[id]))
    decreases |steps|
  {
    hide Next, Resolves, HistoriesOk, TombstonesOk, ItemsOk;
    if steps != [] {
      var before, last := steps[..|steps| - 1], steps[|steps| - 1];
      var d, now := Run(db, before, tx), tx + |steps| - 1;
      ResolvedAtMostOnce(db, before, tx, id);
      NextKeeps(d, last, now);
      NextNextConflict(d, last, now);
      if id < d.nextConflict { NextOnConflict(d, last, now, id); } else { NotYetFiled(d, last, now, id); }
    }
  }

  lemma NextNextConflict(db: Db, step: Step, tx: Txid)
    ensures db.nextConflict <= Next(db, step, tx).nextConflict
  {
    NextFiles(db, step, tx);
    hide Push, Resolve, WriteRecord, UpdateRow, DeleteRecord, ServerMayWrite, OnlyWritable, IsLive;
  }
}
