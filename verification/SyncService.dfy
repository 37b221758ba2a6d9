/** The sync service as it runs: methods that change the stored tables row by row, inside one
  * transaction each, proved against the step functions of SyncModel, SyncPush and SyncConflicts.
  */
module SyncService {
  import opened Basics
  import opened SyncModel
  import opened SyncPush
  import opened SyncConflicts
  import InvoiceTotals

  class Database {
    var rows: map<Key, Row>
    var history: map<(Key, nat), set<Field>>
    var tombstones: map<Key, Tombstone>
    var changes: map<(UserId, Id), DeviceChange>
    var unkeyed: seq<(UserId, Change)>
    var conflicts: map<Id, ConflictRow>
    var nextConflict: Id
    var versions: map<Key, seq<Cols>>
    var forgotten: set<Key>

    /** The tables as a query sees them. */
    function Tables(): Db
      reads this
    {
      Db(rows, history, tombstones, changes, unkeyed, conflicts, nextConflict, versions, forgotten)
    }

    constructor ()
      ensures Tables() == EMPTY
    {
      rows, history, tombstones, changes := map[], map[], map[], map[];
      unkeyed, conflicts, nextConflict := [], map[], 0;
      versions, forgotten := map[], {};
    }

    // ---- statements with their triggers ----

    /** UPDATE of one row: the revision trigger before it, the tombstone trigger after it. */
    method UpdateRow(k: Key, cols: Cols, tx: Txid)
      requires k in rows
      modifies this
      ensures Tables() == SyncModel.UpdateRow(old(Tables()), k, cols, tx)
    {
      hide VersionsOf, TouchItems, UserOf;
      var before := rows[k];
      var changed := Diff(before.cols, cols);
      if changed != {} {
        versions := versions[k := VersionsOf(Tables(), k) + [cols]];
        history := history[(k, before.revision + 1) := changed];
        rows := rows[k := Row(cols, before.revision + 1, tx)];
      }
      if IsLive(before) && !IsLive(rows[k]) {
        if k in tombstones {
          tombstones := tombstones[k := Tombstone(tombstones[k].user, rows[k].revision, tombstones[k].lastState, tx)];
        } else {
          tombstones := tombstones[k := Tombstone(UserOf(rows[k].cols), rows[k].revision, None, tx)];
        }
      } else if !IsLive(before) && IsLive(rows[k]) {
        tombstones := tombstones - {k};
        if k.t == Invoice {
          rows := TouchItems(rows, k.id, tx);
        }
      }
    }

    method InsertRow(k: Key, cols: Cols, tx: Txid)
      modifies this
      ensures Tables() == SyncModel.InsertRow(old(Tables()), k, cols, tx)
    {
      rows := rows[k := Row(cols, 1, tx)];
      versions := versions[k := [cols]];
      forgotten := forgotten - {k};
    }

    /** DELETE of an item; the trigger keeps its last state with the tombstone. */
    method DeleteItem(k: Key, tx: Txid)
      requires k in rows
      modifies this
      ensures Tables() == SyncModel.DeleteItem(old(Tables()), k, tx)
    {
      hide UserOf;
      var row := rows[k];
      var invoice := Col(row.cols, InvoiceId);
      if invoice.Ref? && Key(Invoice, invoice.id) in rows {
        var owner := UserOf(rows[Key(Invoice, invoice.id)].cols);
        var user := if k in tombstones then tombstones[k].user else owner;
        tombstones := tombstones[k := Tombstone(user, row.revision, Some(row.cols), tx)];
      }
      rows := rows - {k};
    }

    // ---- writing a record ----

    method WriteRecord(k: Key, existing: Option<Row>, data: Cols, user: UserId, tx: Txid) returns (ok: bool)
      requires existing.Some? ==> k in rows
      modifies this
      ensures var w := SyncPush.WriteRecord(old(Tables()), k, existing, data, user, tx);
              ok == w.Some? && Tables() == if ok then w.value else old(Tables())
    {
      hide SyncModel.UpdateRow, SyncModel.InsertRow, NewColumns, ReferencesOk, ColsAccepted, Required;
      ok := ReferencesOk(Tables(), k.t, existing, data, user) && ColsAccepted(data);
      if ok && existing.Some? {
        UpdateRow(k, rows[k].cols + data, tx);
      } else if ok {
        ok := k !in rows && Required(k.t) <= data.Keys;
        if ok {
          InsertRow(k, NewColumns(k.t, data, user), tx);
        }
      }
    }

    /** Soft-delete clients and invoices, hard-delete items. */
    method DeleteRecord(k: Key, tx: Txid)
      requires k in rows
      modifies this
      ensures Tables() == SyncPush.DeleteRecord(old(Tables()), k, tx)
    {
      hide SyncModel.UpdateRow, SyncModel.DeleteItem;
      if k.t == Item {
        DeleteItem(k, tx);
      } else {
        UpdateRow(k, rows[k].cols[DeletedAt := At(tx)], tx);
      }
    }

    method RecordConflict(conflict: ConflictRow) returns (id: Id)
      modifies this
      ensures id == old(nextConflict) && Tables() == AddConflict(old(Tables()), conflict)
    {
      id := nextConflict;
      conflicts := conflicts[id := conflict];
      nextConflict := id + 1;
    }

    // ---- reading the field history ----

    /** Fields the server changed after `base` up to `current`, from the history rows found; None
      * when one of them is missing.
      */
    method ReadChangedSince(k: Key, base: nat, current: nat) returns (changed: Option<set<Field>>)
      ensures changed == ChangedSince(Tables(), k, base, current)
    {
      if base < 1 {
        return None;
      }
      var found := HistoryRows(Tables(), k, base, current);
      if |found| != current - base {
        return None;
      }
      var fields, rest := {}, found;
      while rest != {}
        invariant rest <= found
        invariant fields == FieldsOf(Tables(), k, found - rest)
      {
        var r :| r in rest;
        var entry := HistoryEntry(Tables(), k, r);
        fields := fields + entry;
        assert found - (rest - {r}) == found - rest + {r};
        rest := rest - {r};
      }
      assert found - rest == found;
      return Some(fields);
    }

    static function FieldsOf(db: Db, k: Key, revisions: set<nat>): set<Field> {
      set r, f | r in revisions && f in HistoryEntry(db, k, r) :: f
    }

    // ---- the decision, as it is carried out ----

    /** A result is an outcome, or None for an exception; the tables are those of the step. */
    ghost predicate Agrees(outcome: Option<Outcome>, r: Result)
      reads this
    {
      match r
      case Throw => outcome == None
      case Done(db, o) => outcome == Some(o) && Tables() == db
    }

    method KeepConflict(conflict: ConflictRow, ghost user: UserId, ghost k: Key, ghost tx: Txid) returns (outcome: Option<Outcome>)
      modifies this
      ensures Agrees(outcome, Perform(old(Tables()), user, k, Keep(conflict), tx))
    {
      var id := RecordConflict(conflict);
      return Some(Outcome(Conflicted, None, Some(id), None));
    }

    method WriteFields(k: Key, data: Cols, status: ChangeStatus, report: bool, user: UserId, tx: Txid) returns (outcome: Option<Outcome>)
      modifies this
      ensures Agrees(outcome, Perform(old(Tables()), user, k, Write(data, status, report), tx))
    {
      hide SyncPush.WriteRecord, Owned;
      var existing := FindOwned(Tables(), k, user);
      FoundIsStored(Tables(), k, user);
      var ok := WriteRecord(k, existing, data, user, tx);
      if !ok {
        return None;
      }
      return Some(Success(status, if report && k in rows then Some(rows[k].revision) else None));
    }

    /** Clients, invoices and invoice items, for both protocols; None is an exception. */
    method ProcessRecordChange(user: UserId, c: Change, k: Key, protocol: nat, tx: Txid) returns (outcome: Option<Outcome>)
      modifies this
      ensures Agrees(outcome, ProcessChange(old(Tables()), user, c, k, protocol, tx))
    {
      hide IsProtected, IsDeleted, SawCurrentParent, ConflictOf, DecideDelete, DecideEdit, DecideLegacy, FindOwned, WritableFields, Perform;
      var existing := FindOwned(Tables(), k, user);
      FoundIsStored(Tables(), k, user);
      if k in tombstones && tombstones[k].user != user {
        RaiseIsNone(Tables(), user, k, tx);
        return None;
      }
      if existing == None && k !in tombstones && k in rows {
        RaiseIsNone(Tables(), user, k, tx);
        return None;
      }
      var deleted := IsDeleted(Tables(), k, existing);
      var data := WritableFields(k.t, c.data);
      var protected := IsProtected(Tables(), k.t, existing, data, user);
      if protocol != 2 {
        outcome := ProcessLegacy(user, c, k, existing, deleted, protected, data, tx);
        return;
      }
      var base := if c.base.Some? then c.base.value else 0;
      var serverRevision := if existing.Some? then Some(existing.value.revision)
                            else if k in tombstones then Some(tombstones[k].revision) else None;
      if k.t == Item && protected && !deleted && !SawCurrentParent(Tables(), existing, data, user, c.parent) {
        outcome := KeepConflict(ConflictOf(user, c, k, ProtectedInvoice, serverRevision, {}), user, k, tx);
        return;
      }
      if c.kind == Delete {
        if deleted || existing == None {
          AnswerIsSame(Tables(), user, k, Success(Applied, None), tx);
          return Some(Success(Applied, None));
        }
        outcome := ProcessDelete(user, c, k, protected, base, tx);
        return;
      }
      if deleted {
        outcome := KeepConflict(ConflictOf(user, c, k, EditAfterDelete, serverRevision, {}), user, k, tx);
        return;
      }
      if existing == None {
        if c.kind == Update {
          AnswerIsSame(Tables(), user, k, Fail(NotFound), tx);
          return Some(Fail(NotFound));
        }
        outcome := WriteFields(k, data, Applied, true, user, tx);
        return;
      }
      outcome := ProcessEdit(user, c, k, protected, if c.kind == Create then 0 else base, data, tx);
    }

    method ProcessDelete(user: UserId, c: Change, k: Key, protected: bool, base: nat, tx: Txid) returns (outcome: Option<Outcome>)
      requires k in rows
      modifies this
      ensures Agrees(outcome, Perform(old(Tables()), user, k, DecideDelete(user, c, k, old(rows[k]), protected, base), tx))
    {
      hide SyncPush.DeleteRecord, ConflictOf;
      var revision := rows[k].revision;
      if base > revision {
        return Some(Fail(InvalidBaseRevision));
      }
      if base < revision {
        if protected {
          outcome := KeepConflict(ConflictOf(user, c, k, ProtectedInvoice, Some(revision), {}), user, k, tx);
          return;
        }
        // Deletion wins; the version it removed stays recoverable through the conflict.
        var id := RecordConflict(ConflictOf(user, c, k, DeleteAfterEdit, Some(revision), {}));
        DeleteRecord(k, tx);
        return Some(Outcome(Applied, None, Some(id), None));
      }
      DeleteRecord(k, tx);
      return Some(Success(Applied, None));
    }

    /** A create or update of a record that exists and is not deleted. */
    method ProcessEdit(user: UserId, c: Change, k: Key, protected: bool, base: nat, data: Cols, tx: Txid) returns (outcome: Option<Outcome>)
      requires k in rows
      modifies this
      ensures Agrees(outcome, Perform(old(Tables()), user, k, DecideEdit(old(Tables()), user, c, k, old(rows[k]), protected, base, data), tx))
    {
      hide SyncPush.WriteRecord, ConflictOf, Differing, ChangedSince;
      var row := rows[k];
      if base > row.revision {
        return Some(Fail(InvalidBaseRevision));
      }
      if base == row.revision {
        outcome := WriteFields(k, data, Applied, true, user, tx);
        return;
      }
      var differing := Differing(row.cols, data);
      if differing == {} {
        return Some(Success(Applied, Some(row.revision)));
      }
      if protected {
        outcome := KeepConflict(ConflictOf(user, c, k, ProtectedInvoice, Some(row.revision), differing), user, k, tx);
        return;
      }
      var serverChanged := ReadChangedSince(k, base, row.revision);
      var overlapping := if serverChanged == None then differing else differing * serverChanged.value;
      if overlapping != {} {
        outcome := KeepConflict(ConflictOf(user, c, k, StaleEdit, Some(row.revision), overlapping), user, k, tx);
        return;
      }
      DifferingSent(row.cols, data);
      var merged := map f | f in differing :: data[f];
      outcome := WriteFields(k, merged, Merged, true, user, tx);
    }

    /** Protocol 1: applied as sent, except where that would bypass a protection. */
    method ProcessLegacy(user: UserId, c: Change, k: Key, existing: Option<Row>, deleted: bool, protected: bool, data: Cols, tx: Txid)
      returns (outcome: Option<Outcome>)
      requires existing.Some? ==> k in rows
      modifies this
      ensures Agrees(outcome, Perform(old(Tables()), user, k, DecideLegacy(old(Tables()), user, c, k, existing, deleted, protected, data), tx))
    {
      hide SyncPush.WriteRecord, SyncPush.DeleteRecord, HasOpenConflict;
      if c.kind == Delete {
        if deleted || existing == None {
          return Some(Success(Applied, None));
        }
        if protected {
          return Some(Fail(UpgradeRequired));
        }
        DeleteRecord(k, tx);
        return Some(Success(Applied, None));
      }
      if deleted {
        return Some(Fail(RecordDeleted));
      }
      if protected {
        return Some(Fail(UpgradeRequired));
      }
      if existing.Some? && HasOpenConflict(Tables(), k, user) {
        return Some(Fail(OpenConflict));
      }
      outcome := WriteFields(k, data, Applied, false, user, tx);
    }

    // ---- one change, one transaction ----

    /** The device_changes row of the change; None when its change_id was used for another one. */
    method RecordChange(user: UserId, c: Change) returns (change: Option<DeviceChange>)
      modifies this
      ensures Tables() == WithRecordedChange(old(Tables()), user, c)
      ensures var row := RecordedChange(old(Tables()), user, c); change == if row.change == c then Some(row) else None
    {
      if c.changeId == None {
        unkeyed := unkeyed + [(user, c)];
        return Some(DeviceChange(c, false, None, None));
      }
      var id := (user, c.changeId.value);
      if id !in changes {
        changes := changes[id := DeviceChange(c, false, None, None)];
      }
      if changes[id].change != c {
        return None;
      }
      return Some(changes[id]);
    }

    /** ROLLBACK to a savepoint, or of the transaction. */
    method RollbackTo(saved: Db)
      modifies this
      ensures Tables() == saved
    {
      rows, history, tombstones, changes := saved.rows, saved.history, saved.tombstones, saved.changes;
      unkeyed, conflicts, nextConflict := saved.unkeyed, saved.conflicts, saved.nextConflict;
      versions, forgotten := saved.versions, saved.forgotten;
    }

    method PushChange(user: UserId, c: Change, protocol: nat, fault: Fault, tx: Txid) returns (outcome: Outcome)
      modifies this
      ensures Pushed(Tables(), outcome) == Push(old(Tables()), user, c, protocol, fault, tx)
    {
      hide ProcessChange, WithRecordedChange, RecordedChange, Validate, MarkSynced;
      var invalid := Validate(c, protocol);
      ValidatedHasId(c, protocol);
      if invalid.Some? {
        return Fail(invalid.value);
      }
      var begin := Tables();
      var change := RecordChange(user, c);
      if fault == Transient {
        RollbackTo(begin);
        return Fail(RetryLater);
      }
      if change == None {
        return Fail(ChangeIdReused);
      }
      if change.value.synced {
        return if change.value.outcome == Some(Conflicted) then Outcome(Conflicted, None, change.value.conflictId, None)
               else Success(Duplicate, None);
      }
      if fault == Rejecting {
        return Fail(Rejected);
      }
      var savepoint := Tables();
      var result := ProcessRecordChange(user, c, Key(c.t, c.id.value), protocol, tx);
      if result == None {
        RollbackTo(savepoint);
        return Fail(Rejected);
      }
      if result.value.status == Failed {
        RollbackTo(savepoint);
        return result.value;
      }
      MarkProcessed(user, c, result.value);
      return result.value;
    }

    method MarkProcessed(user: UserId, c: Change, outcome: Outcome)
      modifies this
      ensures Tables() == MarkSynced(old(Tables()), user, c, outcome)
    {
      if c.changeId.Some? {
        changes := changes[(user, c.changeId.value) := DeviceChange(c, true, Some(outcome.status), outcome.conflictId)];
      }
    }

    method PushChanges(user: UserId, batch: seq<Change>, protocol: nat, refuseLegacy: bool, faults: seq<Fault>, tx: Txid)
      returns (results: seq<Outcome>, synced: nat, notApplied: nat)
      requires |faults| == |batch|
      modifies this
      ensures (Tables(), results) == PushAll(old(Tables()), user, batch, protocol, refuseLegacy, faults, tx)
      ensures |results| == |batch| && notApplied == CountNotApplied(results) && synced == |batch| - notApplied
    {
      hide Push;
      results, notApplied := [], 0;
      for index := 0 to |batch|
        invariant (Tables(), results) == PushAll(old(Tables()), user, batch[..index], protocol, refuseLegacy, faults[..index], tx)
        invariant |results| == index && notApplied == CountNotApplied(results)
      {
        var outcome := Fail(UpgradeRequired);
        if !refuseLegacy {
          outcome := PushChange(user, batch[index], protocol, faults[index], tx + index);
        }
        assert batch[..index + 1][..index] == batch[..index] && faults[..index + 1][..index] == faults[..index];
        assert (results + [outcome])[..index] == results;
        results := results + [outcome];
        if NotApplied(outcome) {
          notApplied := notApplied + 1;
        }
      }
      assert batch[..|batch|] == batch && faults[..|batch|] == faults;
      synced := |results| - notApplied;
    }

    // ---- resolving a conflict ----

    /** The lines of an invoice, in whatever order they are read. */
    method ReadLines(invoice: Id) returns (lines: seq<InvoiceTotals.Line>)
      ensures multiset(lines) == multiset(LinesOf(rows, invoice))
    {
      hide LineAt, ItemsOf, Sorted;
      var found := ItemsOf(rows, invoice);
      ghost var ids := [];
      lines := [];
      var rest := found;
      while rest != {}
        invariant rest <= found && multiset(ids) + multiset(rest) == multiset(found)
        invariant lines == Lines(rows, ids)
      {
        var id :| id in rest;
        lines := lines + [LineAt(rows, id)];
        ids := ids + [id];
        assert multiset(rest) == multiset(rest - {id}) + multiset{id};
        rest := rest - {id};
      }
      SortedIsAll(found);
      LinesInAnyOrder(rows, ids, Sorted(found));
    }

    method RecomputeTotals(invoice: Value, user: UserId, allowEmpty: bool, tx: Txid)
      modifies this
      ensures Tables() == Recompute(old(Tables()), invoice, user, allowEmpty, tx)
    {
      hide LinesOf, ActiveInvoice, SyncModel.UpdateRow, TotalColumns, InvoiceTotals.TotalsOf;
      if !ActiveInvoice(Tables(), invoice, user) {
        return;
      }
      ActiveIsStored(Tables(), invoice, user);
      var lines := ReadLines(invoice.id);
      assert lines == [] <==> LinesOf(rows, invoice.id) == [] by {
        assert |lines| == |multiset(lines)| && |LinesOf(rows, invoice.id)| == |multiset(LinesOf(rows, invoice.id))|;
      }
      if lines == [] && !allowEmpty {
        return;
      }
      var totals := InvoiceTotals.CalculateTotals(lines);
      InvoiceTotals.TotalsOrderIrrelevant(lines, LinesOf(rows, invoice.id));
      var k := Key(Invoice, invoice.id);
      UpdateRow(k, rows[k].cols + TotalColumns(totals), tx);
    }

    method ApplyClientVersion(conflict: ConflictRow, user: UserId, expected: nat, tx: Txid) returns (ok: bool)
      modifies this
      ensures var a := ApplyDevice(old(Tables()), conflict, user, expected, tx);
              ok == a.Some? && Tables() == if ok then a.value else old(Tables())
    {
      hide Recompute, SyncPush.WriteRecord, EditableFields, IsProtected, LineOf, InvoiceTotals.LineTotal, IsLive, Owned;
      var k := conflict.key;
      var found := FindOwned(Tables(), k, user);
      FoundIsStored(Tables(), k, user);
      if found == None || !IsLive(found.value) || found.value.revision != expected {
        return false;
      }
      var record := found.value;
      var data := EditableFields(k.t, conflict.clientFields);
      if IsProtected(Tables(), k.t, found, data, user) {
        return false;
      }
      if k.t == Item {
        var lineTotal := InvoiceTotals.CalculateLineTotal(LineOf(record.cols + data));
        data := data[LineTotal := Num(lineTotal)];
      }
      ok := WriteRecord(k, found, data, user, tx);
      if !ok {
        return;
      }
      var joined := InvoiceTouched(k, record.cols + data);
      var left := InvoiceTouched(k, record.cols);
      RecomputeTotals(joined, user, false, tx);
      if k.t == Item && left != Null && left != joined {
        RecomputeTotals(left, user, true, tx);
      }
    }

    /** May leave a partial write when it fails; ResolveConflict then rolls back. */
    method RestoreDeleted(conflict: ConflictRow, user: UserId, expected: nat, tx: Txid) returns (ok: bool)
      modifies this
      ensures var a := RestoreRecord(old(Tables()), conflict, user, expected, tx); ok == a.Some? && (ok ==> Tables() == a.value)
    {
      hide Recompute, SyncPush.WriteRecord, EditableFields, IsProtected, IsLive, Owned, SyncModel.UpdateRow, RestoreItem, ActiveClient;
      var k := conflict.key;
      var found := FindOwned(Tables(), k, user);
      FoundIsStored(Tables(), k, user);
      var edits := if conflict.kind == EditAfterDelete then EditableFields(k.t, conflict.clientFields) else map[];
      if found.Some? {
        if IsLive(found.value) || found.value.revision != expected {
          return false;
        }
        if k.t == Invoice && !ActiveClient(Tables(), Col(found.value.cols, ClientId), user) {
          return false;
        }
        if edits != map[] && IsProtected(Tables(), k.t, found, edits, user) {
          return false;
        }
        UpdateRow(k, found.value.cols[DeletedAt := Null], tx);
        ok := true;
        if edits != map[] {
          var restored := FindOwned(Tables(), k, user);
          FoundIsStored(Tables(), k, user);
          ok := WriteRecord(k, restored, edits, user, tx);
        }
        if ok && k.t == Invoice {
          RecomputeTotals(Ref(k.id), user, false, tx);
        }
        return;
      }
      if k !in tombstones || tombstones[k].user != user || k.t != Item || tombstones[k].lastState == None {
        return false;
      }
      if tombstones[k].revision != expected {
        return false;
      }
      ok := RestoreDeletedItem(k, EditableFields(Item, tombstones[k].lastState.value), edits, user, tx);
    }

    method RestoreDeletedItem(k: Key, state: Cols, edits: Cols, user: UserId, tx: Txid) returns (ok: bool)
      modifies this
      ensures var a := RestoreItem(old(Tables()), k, state, edits, user, tx); ok == a.Some? && (ok ==> Tables() == a.value)
    {
      hide Recompute, SyncPush.WriteRecord, LineOf, InvoiceTotals.LineTotal, OwnedInvoiceRow, IsProtectedInvoice;
      var parent := Col(state, InvoiceId);
      if !parent.Ref? || !OwnedInvoiceRow(Tables(), parent.id, user) || IsProtectedInvoice(Tables(), parent.id) {
        return false;
      }
      var data := (state + edits)[InvoiceId := parent];
      var lineTotal := InvoiceTotals.CalculateLineTotal(LineOf(data));
      data := data[LineTotal := Num(lineTotal)];
      forgotten := forgotten + tombstones.Keys * {k};
      tombstones := tombstones - {k};
      ok := WriteRecord(k, None, data, user, tx);
      if ok {
        RecomputeTotals(parent, user, false, tx);
      }
    }

    method ResolveConflict(user: UserId, id: Id, action: Action, expected: Option<nat>, tx: Txid) returns (ok: bool)
      modifies this
      ensures var r := Resolve(old(Tables()), user, id, action, expected, tx);
              ok == r.Some? && Tables() == if ok then r.value else old(Tables())
    {
      hide ApplyDevice, RestoreRecord;
      if id !in conflicts || conflicts[id].user != user || conflicts[id].status != Open {
        return false;
      }
      var conflict := conflicts[id];
      var begin := Tables();
      if action != Dismiss {
        if !Allows(conflict.kind, action) || expected == None {
          return false;
        }
        if action == ApplyClient {
          ok := ApplyClientVersion(conflict, user, expected.value, tx);
        } else {
          ok := RestoreDeleted(conflict, user, expected.value, tx);
        }
        if !ok {
          RollbackTo(begin);
          return;
        }
      }
      if conflict.key in rows {
        rows := rows[conflict.key := rows[conflict.key].(txid := tx)];
      }
      conflicts := conflicts[id := conflict.(status := if action == Dismiss then Dismissed else SyncModel.Resolved)];
      ok := true;
    }
  }

  lemma FoundIsStored(db: Db, k: Key, user: UserId)
    ensures FindOwned(db, k, user).Some? ==> k in db.rows && FindOwned(db, k, user).value == db.rows[k]
  {
  }

  lemma RaiseIsNone(db: Db, user: UserId, k: Key, tx: Txid)
    ensures Perform(db, user, k, Raise, tx) == Throw
  {
    hide SyncPush.WriteRecord, SyncPush.DeleteRecord;
  }

  lemma AnswerIsSame(db: Db, user: UserId, k: Key, outcome: Outcome, tx: Txid)
    ensures Perform(db, user, k, Answer(outcome), tx) == Done(db, outcome)
  {
    hide SyncPush.WriteRecord, SyncPush.DeleteRecord;
  }

  lemma DifferingSent(cols: Cols, data: Cols)
    ensures Differing(cols, data) <= data.Keys
  {
  }

  lemma ValidatedHasId(c: Change, protocol: nat)
    ensures Validate(c, protocol) == None ==> c.id.Some?
  {
  }

  lemma ActiveIsStored(db: Db, invoice: Value, user: UserId)
    requires ActiveInvoice(db, invoice, user)
    ensures invoice.Ref? && Key(Invoice, invoice.id) in db.rows
  {
  }
}
