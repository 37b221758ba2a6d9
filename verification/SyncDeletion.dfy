/** Deleted records stay deleted, over any run, until a conflict about them is resolved with restore. */
module SyncDeletion {
  import opened Basics
  import opened SyncModel
  import opened SyncPush
  import opened SyncConflicts
  import opened SyncInvariant
  import opened SyncResolution
  import opened SyncProtection
  import opened SyncRuns
  import opened SyncTotals
  import InvoiceTotals

  predicate Remembers(a: Db, b: Db) {
    a.tombstones.Keys <= b.tombstones.Keys && b.forgotten <= a.forgotten
  }

  lemma LiveUpdateRemembers(db: Db, k: Key, cols: Cols, tx: Txid)
    requires k in db.rows && IsLive(db.rows[k])
    ensures Remembers(db, UpdateRow(db, k, cols, tx))
  {
    hide Diff, TouchItems, VersionsOf, UserOf;
    var b := BumpRevision(db, k, cols, tx);
    assert b.tombstones == db.tombstones && b.forgotten == db.forgotten;
  }

  lemma WriteRemembers(db: Db, k: Key, existing: Option<Row>, data: Cols, user: UserId, tx: Txid)
    requires existing.Some? ==> k in db.rows && IsLive(db.rows[k])
    ensures var w := WriteRecord(db, k, existing, data, user, tx); w.Some? ==> Remembers(db, w.value)
  {
    hide NewColumns, ReferencesOk, ColsAccepted, Required, UpdateRow, IsLive;
    if existing.Some? { LiveUpdateRemembers(db, k, db.rows[k].cols + data, tx); }
  }

  lemma DeleteRemembers(db: Db, k: Key, tx: Txid)
    requires k in db.rows && IsLive(db.rows[k])
    ensures Remembers(db, DeleteRecord(db, k, tx))
  {
    hide UserOf, UpdateRow, IsLive;
    if k.t != Item { LiveUpdateRemembers(db, k, db.rows[k].cols[DeletedAt := At(tx)], tx); }
  }

  lemma PushRemembers(db: Db, user: UserId, c: Change, protocol: nat, fault: Fault, tx: Txid)
    ensures Remembers(db, Push(db, user, c, protocol, fault, tx).db)
  {
    hide Push, Decide, WriteRecord, DeleteRecord, IsLive;
    PushEffect(db, user, c, protocol, fault, tx);
    if !SameTables(db, Push(db, user, c, protocol, fault, tx).db) {
      var r, k := WithRecordedChange(db, user, c), KeyOf(c);
      DecideLive(r, user, c, k, protocol);
      var d := Decide(r, user, c, k, protocol);
      if d.Write? { WriteRemembers(r, k, FindOwned(r, k, user), d.fields, user, tx); }
      if d.Remove? {
        var kept := if d.recoverable.Some? then AddConflict(r, d.recoverable.value) else r;
        DeleteRemembers(kept, k, tx);
      }
    }
  }

  lemma RecomputeRemembers(db: Db, invoice: Value, user: UserId, allowEmpty: bool, tx: Txid)
    ensures Remembers(db, Recompute(db, invoice, user, allowEmpty, tx))
  {
    hide UpdateRow, LinesOf, TotalColumns, IsLive;
    if ActiveInvoice(db, invoice, user) {
      var k := Key(Invoice, invoice.id);
      LiveUpdateRemembers(db, k, db.rows[k].cols + TotalColumns(InvoiceTotals.TotalsOf(LinesOf(db.rows, invoice.id))), tx);
    }
  }

  lemma ApplyRemembers(db: Db, conflict: ConflictRow, user: UserId, expected: nat, tx: Txid)
    requires ApplyDevice(db, conflict, user, expected, tx).Some?
    ensures Remembers(db, ApplyDevice(db, conflict, user, expected, tx).value)
  {
    hide Recompute, WriteRecord, EditableFields, IsProtected, LineOf, InvoiceTotals.LineTotal, IsLive;
    var k := conflict.key;
    var found := FindOwned(db, k, user);
    var sent := EditableFields(k.t, conflict.clientFields);
    var data := if k.t == Item then sent[LineTotal := Num(InvoiceTotals.LineTotal(LineOf(db.rows[k].cols + sent)))] else sent;
    WriteRemembers(db, k, found, data, user, tx);
    var w := WriteRecord(db, k, found, data, user, tx).value;
    var joined := InvoiceTouched(k, db.rows[k].cols + data);
    RecomputeRemembers(w, joined, user, false, tx);
    RecomputeRemembers(Recompute(w, joined, user, false, tx), InvoiceTouched(k, db.rows[k].cols), user, true, tx);
  }

  // ---- a restore ----

  /** The step is a restore of a conflict about this record that succeeds. */
  ghost predicate Restores(db: Db, step: Step, tx: Txid, k: Key) {
    && step.ResolveStep? && step.action == Restore
    && step.conflict in db.conflicts && db.conflicts[step.conflict].key == k
    && Resolve(db, step.user, step.conflict, Restore, step.expected, tx).Some?
  }

  /** As Remembers, of every record but one. */
  predicate RemembersBut(a: Db, b: Db, k: Key) {
    a.tombstones.Keys - {k} <= b.tombstones.Keys && b.forgotten <= a.forgotten
  }

  lemma RestoreRemembers(db: Db, conflict: ConflictRow, user: UserId, expected: nat, tx: Txid)
    requires Consistent(db) && RestoreRecord(db, conflict, user, expected, tx).Some?
    ensures RemembersBut(db, RestoreRecord(db, conflict, user, expected, tx).value, conflict.key)
  {
    RestoreFrame(db, conflict, user, expected, tx);
    if conflict.key.t == Item && conflict.key !in db.rows {
      RestoreItemRemembers(db, conflict, user, expected, tx);
    } else {
      if conflict.key.t == Item { ItemsAreLive(db, conflict.key); RestoredIsDeleted(db, conflict, user, expected, tx); }
      SoftRestoreRemembers(db, conflict, user, expected, tx);
    }
    hide RestoreRecord;
  }

  lemma RestoredIsDeleted(db: Db, conflict: ConflictRow, user: UserId, expected: nat, tx: Txid)
    requires RestoreRecord(db, conflict, user, expected, tx).Some?
    ensures Owned(db, conflict.key, user) ==> !IsLive(db.rows[conflict.key])
    ensures conflict.key.t != Item ==> Owned(db, conflict.key, user)
  {
    hide Recompute, WriteRecord, EditableFields, IsProtected, UpdateRow, IsLive, RestoreItem, ActiveClient;
  }

  lemma SoftRestoreRemembers(db: Db, conflict: ConflictRow, user: UserId, expected: nat, tx: Txid)
    requires Consistent(db) && conflict.key.t != Item && RestoreRecord(db, conflict, user, expected, tx).Some?
    ensures db.tombstones.Keys - {conflict.key} <= RestoreRecord(db, conflict, user, expected, tx).value.tombstones.Keys
  {
    var k := conflict.key;
    var edits := if conflict.kind == EditAfterDelete then EditableFields(k.t, conflict.clientFields) else map[];
    EditsAreWritable(k.t, conflict);
    RestoreIs(db, conflict, user, expected, tx);
    hide Consistent, Recompute, WriteRecord, OnlyWritable, EditableFields, UpdateRow, IsLive, RestoreRecord, Owned;
    var restored := UpdateRow(db, k, db.rows[k].cols[DeletedAt := Null], tx);
    ClearedRemembers(db, k, tx);
    SoftRestored(db, k, edits, user, tx);
    if edits != map[] {
      FoundLive(restored, k, user);
      WriteRemembers(restored, k, FindOwned(restored, k, user), edits, user, tx);
    }
    var written := if edits == map[] then restored else WriteRecord(restored, k, FindOwned(restored, k, user), edits, user, tx).value;
    RecomputeRemembers(written, Ref(k.id), user, false, tx);
  }

  lemma FoundLive(db: Db, k: Key, user: UserId)
    requires k in db.rows && Col(db.rows[k].cols, DeletedAt) == Null
    ensures FindOwned(db, k, user).Some? ==> k in db.rows && IsLive(db.rows[k])
  {
  }

  lemma ClearedRemembers(db: Db, k: Key, tx: Txid)
    requires Consistent(db) && k in db.rows && !IsLive(db.rows[k])
    ensures var d := UpdateRow(db, k, db.rows[k].cols[DeletedAt := Null], tx);
            d.tombstones == db.tombstones - {k} && k in d.rows && Col(d.rows[k].cols, DeletedAt) == Null
  {
    RestoredColumns(db, k);
    UpdateKeeps(db, k, db.rows[k].cols[DeletedAt := Null], tx);
    hide Consistent, UpdateRow, RowOk;
  }

  lemma RestoreItemRemembers(db: Db, conflict: ConflictRow, user: UserId, expected: nat, tx: Txid)
    requires conflict.key.t == Item && conflict.key !in db.rows && RestoreRecord(db, conflict, user, expected, tx).Some?
    ensures db.tombstones.Keys - {conflict.key} <= RestoreRecord(db, conflict, user, expected, tx).value.tombstones.Keys
  {
    hide Recompute, WriteRecord, EditableFields, LineOf, InvoiceTotals.LineTotal, IsProtectedInvoice, OwnedInvoiceRow;
    var k := conflict.key;
    var edits := if conflict.kind == EditAfterDelete then EditableFields(k.t, conflict.clientFields) else map[];
    var state := EditableFields(Item, db.tombstones[k].lastState.value);
    var parent := Col(state, InvoiceId);
    var merged := (state + edits)[InvoiceId := parent];
    var data := merged[LineTotal := Num(InvoiceTotals.LineTotal(LineOf(merged)))];
    var untombed := DropTombstones(db, {k});
    WriteRemembers(untombed, k, None, data, user, tx);
    RecomputeRemembers(WriteRecord(untombed, k, None, data, user, tx).value, parent, user, false, tx);
  }

  /** A restore that succeeds leaves the record live. */
  lemma RestoreRevives(db: Db, conflict: ConflictRow, user: UserId, expected: nat, tx: Txid)
    requires Consistent(db) && RestoreRecord(db, conflict, user, expected, tx).Some?
    ensures var d := RestoreRecord(db, conflict, user, expected, tx).value;
            && Consistent(d) && conflict.key in d.rows && IsLive(d.rows[conflict.key])
  {
    hide Consistent, RestoreRecord, IsLive, TotalsMatch;
    RestoreKeeps(db, conflict, user, expected, tx);
    if conflict.key.t == Item {
      RestoreLine(db, conflict, user, expected, tx);
      ItemsAreLive(RestoreRecord(db, conflict, user, expected, tx).value, conflict.key);
    } else {
      RestoreColumns(db, conflict, user, expected, tx, Name);
    }
  }

  /** What a resolution by restore leaves: the record live and without tombstone, every other
    * tombstone where it was.
    */
  lemma Restored(db: Db, step: Step, tx: Txid, k: Key)
    requires Consistent(db) && Restores(db, step, tx, k)
    ensures var d := Next(db, step, tx);
            && k in d.rows && IsLive(d.rows[k]) && k !in d.tombstones
            && RemembersBut(db, d, k)
  {
    var conflict := db.conflicts[step.conflict];
    RestoreActs(db, step, tx, k);
    RestoreRevives(db, conflict, step.user, step.expected.value, tx);
    RestoreRemembers(db, conflict, step.user, step.expected.value, tx);
    var acted := RestoreRecord(db, conflict, step.user, step.expected.value, tx).value;
    assert k !in acted.tombstones by { LiveHasNone(acted, k); }
    hide Consistent, RestoreRecord;
  }

  lemma LiveHasNone(db: Db, k: Key)
    requires Consistent(db) && k in db.rows && IsLive(db.rows[k])
    ensures k !in db.tombstones
  {
    hide HistoriesOk, ItemsOk, IdsOk, IsLive;
  }

  lemma RestoreActs(db: Db, step: Step, tx: Txid, k: Key)
    requires Restores(db, step, tx, k)
    ensures step.expected.Some?
    ensures var conflict, d := db.conflicts[step.conflict], Next(db, step, tx);
            var acted := RestoreRecord(db, conflict, step.user, step.expected.value, tx);
            && acted.Some? && d.tombstones == acted.value.tombstones && d.forgotten == acted.value.forgotten
            && d.rows == TouchForDelivery(acted.value, k, tx).rows
  {
    hide RestoreRecord;
  }

  // ---- every step ----

  /** Retention drops the tombstone of this record. */
  predicate Prunes(step: Step, k: Key) {
    step.PruneTombstones? && k in step.dropped
  }

  /** Only a restore of the record and retention remove its tombstone. */
  lemma NextRemembers(db: Db, step: Step, tx: Txid, k: Key)
    requires Consistent(db) && !Prunes(step, k) && !Restores(db, step, tx, k)
    ensures var d := Next(db, step, tx); (k in db.tombstones ==> k in d.tombstones) && (k in d.forgotten ==> k in db.forgotten)
  {
    hide Resolve, Consistent, Push, WriteRecord, UpdateRow, DeleteRecord, ServerMayWrite;
    if step.ResolveStep? {
      ResolveRemembers(db, step, tx, k);
    } else if !step.PruneTombstones? {
      OtherRemembers(db, step, tx);
    }
  }

  lemma ResolveRemembers(db: Db, step: Step, tx: Txid, k: Key)
    requires Consistent(db) && step.ResolveStep? && !Restores(db, step, tx, k)
    ensures var d := Next(db, step, tx); (k in db.tombstones ==> k in d.tombstones) && d.forgotten <= db.forgotten
  {
    hide Consistent, ApplyDevice, RestoreRecord, TouchForDelivery;
    if Resolve(db, step.user, step.conflict, step.action, step.expected, tx).Some? {
      var conflict := db.conflicts[step.conflict];
      if step.action == ApplyClient {
        ApplyRemembers(db, conflict, step.user, step.expected.value, tx);
      } else if step.action == Restore {
        RestoreRemembers(db, conflict, step.user, step.expected.value, tx);
      }
      TouchIsFree(Act(db, conflict, step.user, step.action, step.expected, tx).value, conflict.key, tx);
    }
  }

  lemma TouchIsFree(db: Db, k: Key, tx: Txid)
    ensures var d := TouchForDelivery(db, k, tx); d.tombstones == db.tombstones && d.forgotten == db.forgotten
  {
  }

  lemma OtherRemembers(db: Db, step: Step, tx: Txid)
    requires !step.ResolveStep? && !step.PruneTombstones?
    requires Consistent(db)
    ensures Remembers(db, Next(db, step, tx))
  {
    hide Push, WriteRecord, UpdateRow, DeleteRecord, IsLive, OnlyWritable, ColsAccepted, InExistingInvoice, Resolve, HistoriesOk, TombstonesOk, ItemsOk;
    match step
    case PushStep(user, change, protocol, fault) => PushRemembers(db, user, change, protocol, fault, tx);
    case ServerInsert(k, user, data) => WriteRemembers(db, k, None, data, user, tx);
    case ServerUpdate(k, data) => if ServerMayWrite(db, k, data) { ServerRemembers(db, k, data, tx); }
    case ServerSoftDelete(k) => if k in db.rows && IsLive(db.rows[k]) { DeleteRemembers(db, k, tx); }
    case ServerDeleteItem(k) =>
      if k in db.rows && k.t == Item {
        RowIsOk(db, k);
        DeleteRemembers(db, k, tx);
      }
    case _ =>
  }

  lemma ServerRemembers(db: Db, k: Key, data: Cols, tx: Txid)
    requires Consistent(db) && ServerMayWrite(db, k, data)
    ensures Remembers(db, UpdateRow(db, k, db.rows[k].cols + data, tx))
  {
    hide Consistent, UpdateRow, ServerMayWrite, Col;
    ServerUpdateKeeps(db, k, data, tx);
  }

  lemma NextForgets(db: Db, step: Step, tx: Txid, k: Key)
    requires Consistent(db) && !Prunes(step, k) && k !in db.forgotten
    ensures k !in Next(db, step, tx).forgotten
  {
    hide Next, Resolve, Consistent;
    if Restores(db, step, tx, k) {
      Restored(db, step, tx, k);
    } else {
      NextRemembers(db, step, tx, k);
    }
  }

  // ---- every run ----

  /** An id that was used and is not live: soft-deleted or gone. */
  predicate IsDeletedId(db: Db, k: Key) {
    k in db.versions && !(k in db.rows && IsLive(db.rows[k]))
  }

  /** An id whose tombstone retention does not drop is deleted exactly when it is tombstoned. */
  lemma {:induction false} NothingForgotten(steps: seq<Step>, tx: Txid, k: Key)
    requires forall i :: 0 <= i < |steps| ==> !Prunes(steps[i], k)
    ensures var d := Run(EMPTY, steps, tx); k !in d.forgotten && Consistent(d) && (IsDeletedId(d, k) <==> k in d.tombstones)
    decreases |steps|
  {
    hide Next, Consistent, Prunes, IsDeletedId;
    RunConsistent(steps, tx);
    if steps != [] {
      var before := steps[..|steps| - 1];
      NothingForgotten(before, tx, k);
      NextForgets(Run(EMPTY, before, tx), steps[|steps| - 1], tx + |steps| - 1, k);
    }
    DeletedIsTombstoned(Run(EMPTY, steps, tx), k);
  }

  lemma DeletedIsTombstoned(db: Db, k: Key)
    requires Consistent(db) && k !in db.forgotten
    ensures IsDeletedId(db, k) <==> k in db.tombstones
  {
    hide HistoriesOk, ItemsOk, IsLive;
  }

  /** Step i of the run restores the record. */
  ghost predicate RestoresAt(steps: seq<Step>, i: nat, tx: Txid, k: Key)
    requires i < |steps|
  {
    Restores(Run(EMPTY, steps[..i], tx), steps[i], tx + i, k)
  }

  /** As long as retention keeps the record's tombstone, no run of pushes, server writes, retention of
    * others and resolutions, restores of other records among them, brings a deleted record back: only
    * a restore of this record that succeeds does, and it does at once.
    */
  lemma {:induction false} DeletedStaysDeleted(steps: seq<Step>, from: nat, tx: Txid, k: Key)
    requires from <= |steps| && forall i :: 0 <= i < |steps| ==> !Prunes(steps[i], k)
    requires IsDeletedId(Run(EMPTY, steps[..from], tx), k)
    ensures (forall i :: from <= i < |steps| ==> !RestoresAt(steps, i, tx, k)) ==>
              IsDeletedId(Run(EMPTY, steps, tx), k) && k in Run(EMPTY, steps, tx).tombstones
    ensures from < |steps| && RestoresAt(steps, |steps| - 1, tx, k) ==> !IsDeletedId(Run(EMPTY, steps, tx), k)
    decreases |steps|
  {
    hide Next, Consistent, Restores, Prunes;
    NothingForgotten(steps, tx, k);
    if from == |steps| {
      assert steps[..from] == steps;
    } else {
      var n := |steps| - 1;
      var before := steps[..n];
      var d := Run(EMPTY, before, tx);
      assert before[..from] == steps[..from];
      NothingForgotten(before, tx, k);
      if RestoresAt(steps, n, tx, k) {
        Restored(d, steps[n], tx + n, k);
      } else if forall i :: from <= i < |steps| ==> !RestoresAt(steps, i, tx, k) {
        forall i | from <= i < |before| ensures !RestoresAt(before, i, tx, k) {
          assert before[..i] == steps[..i];
          assert !RestoresAt(steps, i, tx, k);
        }
        DeletedStaysDeleted(before, from, tx, k);
        NextRemembers(d, steps[n], tx + n, k);
      }
    }
  }

  /** In any run, retention included, a restore that succeeds leaves its record live and without a
    * tombstone, and removes no other tombstone.
    */
  lemma RestoredHasNoTombstone(steps: seq<Step>, step: Step, tx: Txid, k: Key)
    requires Restores(Run(EMPTY, steps, tx), step, tx + |steps|, k)
    ensures var a, b := Run(EMPTY, steps, tx), Run(EMPTY, steps + [step], tx);
            && k in b.rows && IsLive(b.rows[k]) && k !in b.tombstones
            && a.tombstones.Keys - {k} <= b.tombstones.Keys
  {
    hide Next, Consistent, IsLive, Restores;
    RunConsistent(steps, tx);
    Restored(Run(EMPTY, steps, tx), step, tx + |steps|, k);
    assert (steps + [step])[..|steps|] == steps;
  }
}
