/** The last state kept with a deleted line's tombstone is the whole line, in every state a run reaches. */
module SyncLastStates {
  import opened Basics
  import opened SyncModel
  import opened SyncPush
  import opened SyncConflicts
  import opened SyncInvariant
  import opened SyncResolution
  import opened SyncProtection
  import opened SyncRuns
  import InvoiceTotals

  ghost predicate LastStatesOk(db: Db) {
    forall k :: k in db.tombstones && db.tombstones[k].lastState.Some? ==> k.t == Item && RowOk(Item, db.tombstones[k].lastState.value)
  }

  /** No tombstone has a last state it did not have. */
  predicate NoNewState(a: Db, b: Db) {
    forall k :: k in b.tombstones && b.tombstones[k].lastState.Some? ==>
      k in a.tombstones && a.tombstones[k].lastState == b.tombstones[k].lastState
  }

  lemma NoNewKeeps(a: Db, b: Db)
    requires LastStatesOk(a) && NoNewState(a, b)
    ensures LastStatesOk(b)
  {
    hide RowOk;
  }

  lemma UpdateState(db: Db, k: Key, cols: Cols, tx: Txid)
    requires k in db.rows
    ensures NoNewState(db, UpdateRow(db, k, cols, tx))
  {
    hide Diff, TouchItems, VersionsOf, UserOf;
    var b := BumpRevision(db, k, cols, tx);
    assert b.tombstones == db.tombstones;
  }

  lemma WriteState(db: Db, k: Key, existing: Option<Row>, data: Cols, user: UserId, tx: Txid)
    requires existing.Some? ==> k in db.rows
    ensures var w := WriteRecord(db, k, existing, data, user, tx); w.Some? ==> NoNewState(db, w.value)
  {
    hide NewColumns, ReferencesOk, ColsAccepted, Required, UpdateRow;
    if existing.Some? { UpdateState(db, k, db.rows[k].cols + data, tx); }
  }

  lemma RecomputeState(db: Db, invoice: Value, user: UserId, allowEmpty: bool, tx: Txid)
    ensures NoNewState(db, Recompute(db, invoice, user, allowEmpty, tx))
  {
    hide UpdateRow, LinesOf, TotalColumns, InvoiceTotals.TotalsOf;
    if ActiveInvoice(db, invoice, user) {
      var k := Key(Invoice, invoice.id);
      UpdateState(db, k, db.rows[k].cols + TotalColumns(InvoiceTotals.TotalsOf(LinesOf(db.rows, invoice.id))), tx);
    }
  }

  lemma ApplyState(db: Db, conflict: ConflictRow, user: UserId, expected: nat, tx: Txid)
    requires ApplyDevice(db, conflict, user, expected, tx).Some?
    ensures NoNewState(db, ApplyDevice(db, conflict, user, expected, tx).value)
  {
    hide Recompute, WriteRecord, EditableFields, IsProtected, LineOf, InvoiceTotals.LineTotal, IsLive;
    var k := conflict.key;
    var found := FindOwned(db, k, user);
    var sent := EditableFields(k.t, conflict.clientFields);
    var data := if k.t == Item then sent[LineTotal := Num(InvoiceTotals.LineTotal(LineOf(db.rows[k].cols + sent)))] else sent;
    WriteState(db, k, found, data, user, tx);
    var w := WriteRecord(db, k, found, data, user, tx).value;
    var joined := InvoiceTouched(k, db.rows[k].cols + data);
    RecomputeState(w, joined, user, false, tx);
    RecomputeState(Recompute(w, joined, user, false, tx), InvoiceTouched(k, db.rows[k].cols), user, true, tx);
  }

  lemma RestoreState(db: Db, conflict: ConflictRow, user: UserId, expected: nat, tx: Txid)
    requires RestoreRecord(db, conflict, user, expected, tx).Some?
    ensures NoNewState(db, RestoreRecord(db, conflict, user, expected, tx).value)
  {
    hide WriteRecord, Recompute, UpdateRow, IsProtected, EditableFields, LineOf, InvoiceTotals.LineTotal, IsLive, IsProtectedInvoice, RestoreItem;
    var k := conflict.key;
    var found := FindOwned(db, k, user);
    var edits := if conflict.kind == EditAfterDelete then EditableFields(k.t, conflict.clientFields) else map[];
    if found.Some? {
      var restored := UpdateRow(db, k, found.value.cols[DeletedAt := Null], tx);
      UpdateState(db, k, found.value.cols[DeletedAt := Null], tx);
      if edits == map[] {
        RecomputeState(restored, Ref(k.id), user, false, tx);
      } else {
        WriteState(restored, k, FindOwned(restored, k, user), edits, user, tx);
        RecomputeState(WriteRecord(restored, k, FindOwned(restored, k, user), edits, user, tx).value, Ref(k.id), user, false, tx);
      }
    } else {
      RestoreItemState(db, k, EditableFields(Item, db.tombstones[k].lastState.value), edits, user, tx);
    }
  }

  lemma RestoreItemState(db: Db, k: Key, state: Cols, edits: Cols, user: UserId, tx: Txid)
    requires RestoreItem(db, k, state, edits, user, tx).Some?
    ensures NoNewState(db, RestoreItem(db, k, state, edits, user, tx).value)
  {
    hide WriteRecord, Recompute, LineOf, InvoiceTotals.LineTotal, IsProtectedInvoice, OwnedInvoiceRow;
    var parent := Col(state, InvoiceId);
    var merged := (state + edits)[InvoiceId := parent];
    var data := merged[LineTotal := Num(InvoiceTotals.LineTotal(LineOf(merged)))];
    var untombed := DropTombstones(db, {k});
    WriteState(untombed, k, None, data, user, tx);
    RecomputeState(WriteRecord(untombed, k, None, data, user, tx).value, parent, user, false, tx);
  }

  lemma ResolveState(db: Db, user: UserId, id: Id, action: Action, expected: Option<nat>, tx: Txid)
    requires Resolve(db, user, id, action, expected, tx).Some?
    ensures NoNewState(db, Resolve(db, user, id, action, expected, tx).value)
  {
    hide ApplyDevice, RestoreRecord;
    if action == ApplyClient { ApplyState(db, db.conflicts[id], user, expected.value, tx); }
    else if action == Restore { RestoreState(db, db.conflicts[id], user, expected.value, tx); }
  }

  lemma DeletionState(db: Db, k: Key, tx: Txid)
    requires Consistent(db) && LastStatesOk(db) && k in db.rows
    ensures LastStatesOk(DeleteRecord(db, k, tx))
  {
    hide Consistent, UpdateRow, RowOk, UserOf;
    if k.t == Item {
      RowIsOk(db, k) by { assert HistoriesOk(db) by { ConsistentParts(db); } }
    } else {
      UpdateState(db, k, db.rows[k].cols[DeletedAt := At(tx)], tx);
      NoNewKeeps(db, DeleteRecord(db, k, tx));
    }
  }

  lemma PushState(db: Db, user: UserId, c: Change, protocol: nat, fault: Fault, tx: Txid)
    requires Consistent(db) && LastStatesOk(db)
    ensures LastStatesOk(Push(db, user, c, protocol, fault, tx).db)
  {
    hide Push, Decide, WriteRecord, DeleteRecord, IsLive, Consistent, LastStatesOk;
    PushEffect(db, user, c, protocol, fault, tx);
    var d := Push(db, user, c, protocol, fault, tx).db;
    if SameTables(db, d) {
      NoNewKeeps(db, d);
    } else {
      var r, k := WithRecordedChange(db, user, c), KeyOf(c);
      SameTablesConsistent(db, r);
      NoNewKeeps(db, r);
      PerformedState(r, user, k, c, protocol, tx);
      NoNewKeeps(Performed(db, user, c, protocol, tx).db, d);
    }
  }

  lemma PerformedState(db: Db, user: UserId, k: Key, c: Change, protocol: nat, tx: Txid)
    requires Consistent(db) && LastStatesOk(db) && Perform(db, user, k, Decide(db, user, c, k, protocol), tx).Done?
    ensures LastStatesOk(Perform(db, user, k, Decide(db, user, c, k, protocol), tx).db)
  {
    hide Decide, WriteRecord, DeleteRecord, IsLive, Consistent, LastStatesOk;
    DecideLive(db, user, c, k, protocol);
    var d := Decide(db, user, c, k, protocol);
    match d
    case Write(fields, _, _) =>
      WriteState(db, k, FindOwned(db, k, user), fields, user, tx);
      NoNewKeeps(db, WriteRecord(db, k, FindOwned(db, k, user), fields, user, tx).value);
    case Remove(recoverable) =>
      var kept := if recoverable.Some? then AddConflict(db, recoverable.value) else db;
      if recoverable.Some? { AddConflictKeeps(db, recoverable.value); }
      NoNewKeeps(db, kept);
      DeletionState(kept, k, tx);
    case Keep(conflict) => NoNewKeeps(db, AddConflict(db, conflict));
    case _ =>
  }

  lemma NextState(db: Db, step: Step, tx: Txid)
    requires Consistent(db) && LastStatesOk(db)
    ensures LastStatesOk(Next(db, step, tx))
  {
    hide Consistent, LastStatesOk, Push, Resolve, WriteRecord, UpdateRow, DeleteRecord, ServerMayWrite, IsLive, OnlyWritable;
    var d := Next(db, step, tx);
    match step
    case PushStep(user, change, protocol, fault) => PushState(db, user, change, protocol, fault, tx);
    case ResolveStep(user, id, action, expected) =>
      if Resolve(db, user, id, action, expected, tx).Some? { ResolveState(db, user, id, action, expected, tx); }
      NoNewKeeps(db, d);
    case ServerInsert(k, user, data) => WriteState(db, k, None, data, user, tx); NoNewKeeps(db, d);
    case ServerUpdate(k, data) =>
      if ServerMayWrite(db, k, data) {
        MayWriteStored(db, k, data);
        UpdateState(db, k, db.rows[k].cols + data, tx);
      }
      NoNewKeeps(db, d);
    case ServerSoftDelete(k) => if k in db.rows { DeletionState(db, k, tx); }
    case ServerDeleteItem(k) => if k in db.rows { DeletionState(db, k, tx); }
    case PruneTombstones(dropped) => NoNewKeeps(db, d);
    case PruneHistory(_) => NoNewKeeps(db, d);
    case PruneConflicts(_) => NoNewKeeps(db, d);
  }

  lemma MayWriteStored(db: Db, k: Key, data: Cols)
    requires ServerMayWrite(db, k, data)
    ensures k in db.rows
  {
    hide OnlyWritable, ColsAccepted;
  }

  /** A kept last state has every column of a line, each with a value its column takes: what was deleted can be
    * brought back whole.
    */
  lemma {:induction false} LastStatesAreWhole(steps: seq<Step>, tx: Txid)
    ensures LastStatesOk(Run(EMPTY, steps, tx))
    decreases |steps|
  {
    hide Next;
    if steps != [] {
      hide LastStatesOk;
      LastStatesAreWhole(steps[..|steps| - 1], tx);
      RunConsistent(steps[..|steps| - 1], tx);
      NextState(Run(EMPTY, steps[..|steps| - 1], tx), steps[|steps| - 1], tx + |steps| - 1);
    }
  }
}
