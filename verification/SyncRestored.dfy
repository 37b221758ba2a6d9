/** The other two decisions of an owner: dismissing a conflict, and restoring what was deleted, with what a
  * device sent after the deletion.
  */
module SyncRestored {
  import opened Basics
  import opened SyncModel
  import opened SyncPush
  import opened SyncConflicts
  import opened SyncInvariant
  import opened SyncResolution
  import opened SyncTotals
  import opened SyncDeletion
  import opened SyncLastStates
  import opened SyncProtection
  import opened SyncApplied
  import opened SyncAccepted
  import opened SyncDeviceVersion
  import InvoiceTotals

  // ---- any decision ----

  /** Dismissing succeeds exactly on an open conflict of the user, and leaves the record as it is, to be
    * delivered again.
    */
  lemma DismissIs(db: Db, user: UserId, id: Id, expected: Option<nat>, tx: Txid)
    ensures var r := Resolve(db, user, id, Dismiss, expected, tx);
            if id in db.conflicts && db.conflicts[id].user == user && db.conflicts[id].status == Open then
              var k := db.conflicts[id].key;
              r == Some(db.(conflicts := db.conflicts[id := db.conflicts[id].(status := Dismissed)],
                            rows := if k in db.rows then db.rows[k := Row(db.rows[k].cols, db.rows[k].revision, tx)] else db.rows))
            else r == None
  {
  }

  /** Whatever its owner decides, a conflict's record is delivered again, with the transaction of the decision. */
  lemma DeliveredAgain(db: Db, user: UserId, id: Id, action: Action, expected: Option<nat>, tx: Txid)
    requires Resolve(db, user, id, action, expected, tx).Some?
    ensures var d, k := Resolve(db, user, id, action, expected, tx).value, db.conflicts[id].key;
            && (k in d.rows ==> d.rows[k].txid == tx)
            && id in d.conflicts
            && d.conflicts[id] == db.conflicts[id].(status := if action == Dismiss then Dismissed else SyncModel.Resolved)
  {
    hide Act;
  }

  // ---- when a restore is accepted ----

  /** What a device sent after the deletion, which restoring writes as well. */
  function LaterEdit(conflict: ConflictRow): Cols {
    if conflict.kind == EditAfterDelete then EditableFields(conflict.key.t, conflict.clientFields) else map[]
  }

  /** A deleted line with a later edit, in the invoice it was in. */
  function LineAgain(last: Cols, edit: Cols): Cols {
    (EditableFields(Item, last) + edit)[InvoiceId := Col(last, InvoiceId)]
  }

  /** A deleted client or invoice comes back at the revision reviewed, an invoice only to an active client, and
    * with a later edit only if the invoice is not protected and the edit fits.
    */
  ghost predicate RecordMayReturn(db: Db, user: UserId, conflict: ConflictRow, expected: nat)
    requires conflict.key in db.rows
  {
    var k, row, edit := conflict.key, db.rows[conflict.key], LaterEdit(conflict);
    && !IsLive(row) && row.revision == expected
    && (k.t == Invoice ==> IsUsable(db, user, Client, Col(row.cols, ClientId)))
    && (edit == map[] || (!IsProtectedChange(db, user, k, edit) && FitsColumns(db, user, k.t, edit)))
  }

  /** A deleted line comes back from its tombstone's last state, at the revision reviewed, to its own invoice
    * while that is the user's, active and not protected.
    */
  ghost predicate LineMayReturn(db: Db, user: UserId, conflict: ConflictRow, expected: nat) {
    var k := conflict.key;
    && k.t == Item && k in db.tombstones && db.tombstones[k].user == user && db.tombstones[k].revision == expected
    && db.tombstones[k].lastState.Some?
    && var line := LineAgain(db.tombstones[k].lastState.value, LaterEdit(conflict));
    && line[InvoiceId].Ref? && !IsSentOrPaid(db, line[InvoiceId].id)
    && FitsColumns(db, user, Item, line) && Description in line
  }

  lemma LaterAgain(conflict: ConflictRow)
    ensures WritableFields(conflict.key.t, LaterEdit(conflict)) == LaterEdit(conflict)
    ensures conflict.key.t == Item ==> LineTotal !in LaterEdit(conflict)
  {
    EditedAgain(conflict.key.t, conflict.clientFields);
    EditedAgain(Item, conflict.clientFields);
    assert WritableFields(conflict.key.t, map[]) == map[];
    hide WritableFields;
  }

  lemma RecordReturns(db: Db, conflict: ConflictRow, user: UserId, expected: nat, tx: Txid)
    requires Consistent(db) && Owned(db, conflict.key, user)
    ensures conflict.key in db.rows
    ensures RestoreRecord(db, conflict, user, expected, tx).Some? <==> RecordMayReturn(db, user, conflict, expected)
  {
    hide Consistent, Owned, IsProtected, IsProtectedChange, FitsColumns, WriteRecord, UpdateRow, Recompute, EditableFields, IsLive, RestoreItem, ActiveClient, IsUsable;
    AllActive(db, user);
    var k, edit := conflict.key, LaterEdit(conflict);
    OwnedRowExists(db, k, user);
    LaterAgain(conflict);
    ProtectedIs(db, user, k, edit);
    if !IsLive(db.rows[k]) {
      if k.t == Item { ItemsAreLive(db, k); }
      LaterFits(db, k, user, tx, edit);
    }
  }

  /** The later edit is accepted on the restored record as it would be on the deleted one. */
  lemma LaterFits(db: Db, k: Key, user: UserId, tx: Txid, edit: Cols)
    requires Consistent(db) && Owned(db, k, user) && !IsLive(db.rows[k]) && k.t != Item
    ensures var restored := UpdateRow(db, k, db.rows[k].cols[DeletedAt := Null], tx);
            && (FindOwned(restored, k, user).Some? ==> k in restored.rows)
            && (WriteRecord(restored, k, FindOwned(restored, k, user), edit, user, tx).Some? <==> FitsColumns(db, user, k.t, edit))
  {
    hide Consistent, UpdateRow, RowOk, WriteRecord, IsLive, Takers;
    RestoredColumns(db, k);
    var cols := db.rows[k].cols[DeletedAt := Null];
    UpdateKeeps(db, k, cols, tx);
    var restored := UpdateRow(db, k, cols, tx);
    UpdatedRows(db, restored, k, cols);
    StaysOwned(db, restored, k, cols, user);
    WriteAccepted(restored, k, edit, user, tx);
    OthersActive(db, restored, k, cols, user);
    hide Updated, IsUsable, Owned;
  }

  lemma OthersActive(db: Db, d: Db, k: Key, cols: Cols, user: UserId)
    requires Updated(db, d, k, cols)
    ensures k.t == Invoice ==> forall v :: IsUsable(d, user, Client, v) == IsUsable(db, user, Client, v)
  {
  }

  lemma LineReturns(db: Db, conflict: ConflictRow, user: UserId, expected: nat, tx: Txid)
    requires Consistent(db) && !Owned(db, conflict.key, user)
    ensures RestoreRecord(db, conflict, user, expected, tx).Some? <==> LineMayReturn(db, user, conflict, expected)
  {
    hide Consistent, Owned, IsProtected, IsProtectedInvoice, FitsColumns, WriteRecord, UpdateRow, Recompute, EditableFields, IsLive, RestoreItem, ActiveClient;
    hide IsSentOrPaid;
    var k := conflict.key;
    LaterAgain(conflict);
    if k.t == Item && k in db.tombstones && db.tombstones[k].lastState.Some? {
      var last := db.tombstones[k].lastState.value;
      DeletedLineIsGone(db, k);
      StateInvoice(last);
      LineFits(db, k, last, LaterEdit(conflict), user, tx);
    }
  }

  lemma DeletedLineIsGone(db: Db, k: Key)
    requires Consistent(db) && k.t == Item && k in db.tombstones
    ensures k !in db.rows
  {
    ItemsAreLive(db, k);
    hide HistoriesOk, ItemsOk, IdsOk, IsLive;
  }

  lemma LineFits(db: Db, k: Key, last: Cols, edit: Cols, user: UserId, tx: Txid)
    requires k.t == Item && k !in db.rows && Col(EditableFields(Item, last), InvoiceId) == Col(last, InvoiceId)
    requires LineTotal !in edit
    ensures var line := LineAgain(last, edit);
            RestoreItem(db, k, EditableFields(Item, last), edit, user, tx).Some? <==>
              line[InvoiceId].Ref? && !IsSentOrPaid(db, line[InvoiceId].id) && FitsColumns(db, user, Item, line) && Description in line
  {
    hide EditableFields, LineOf, InvoiceTotals.LineTotal, Recompute, NewColumns, IsLive, IsProtectedInvoice, IsSentOrPaid, OwnedInvoiceRow;
    var line, state := LineAgain(last, edit), EditableFields(Item, last);
    var v := InvoiceTotals.LineTotal(LineOf(line));
    NoLineTotal(last);
    LineTotalFits(db, user, Item, line, v);
    if line[InvoiceId].Ref? {
      SameProtection(db, line[InvoiceId].id);
      ActiveIsOwned(db, line[InvoiceId], user);
    }
    LineWritten(db, k, line[LineTotal := Num(v)], user, tx);
    hide FitsColumns, WriteRecord;
  }

  lemma NoLineTotal(last: Cols)
    ensures LineTotal !in EditableFields(Item, last)
  {
    EditedAgain(Item, last);
  }

  lemma SameProtection(db: Db, invoice: Id)
    ensures IsSentOrPaid(db, invoice) <==> IsProtectedInvoice(db, invoice)
  {
  }

  lemma ActiveIsOwned(db: Db, invoice: Value, user: UserId)
    ensures IsUsable(db, user, Invoice, invoice) ==> invoice.Ref? && OwnedInvoiceRow(db, invoice.id, user)
  {
  }

  /** The line is written exactly if its columns fit. */
  lemma LineWritten(db: Db, k: Key, data: Cols, user: UserId, tx: Txid)
    requires k.t == Item && k !in db.rows && InvoiceId in data
    ensures WriteRecord(DropTombstones(db, {k}), k, None, data, user, tx).Some? <==>
              FitsColumns(db, user, Item, data) && Description in data
  {
    hide NewColumns, Takers, IsLive;
    var u := DropTombstones(db, {k});
    assert FindOwned(u, k, user) == None;
    WriteAccepted(u, k, data, user, tx);
    assert forall v :: IsUsable(u, user, Invoice, v) == IsUsable(db, user, Invoice, v);
  }

  /** Restoring succeeds exactly on an open conflict of the user over a deletion, with the record, or the line,
    * free to return.
    */
  lemma RestoreAccepted(db: Db, user: UserId, id: Id, expected: Option<nat>, tx: Txid)
    requires Consistent(db)
    ensures Resolve(db, user, id, Restore, expected, tx).Some? <==>
              && id in db.conflicts && expected.Some?
              && var conflict := db.conflicts[id];
              && conflict.user == user && conflict.status == Open && conflict.kind in {EditAfterDelete, DeleteAfterEdit}
              && if Owned(db, conflict.key, user) then conflict.key in db.rows && RecordMayReturn(db, user, conflict, expected.value)
                 else LineMayReturn(db, user, conflict, expected.value)
  {
    hide Consistent, RestoreRecord, Owned, RecordMayReturn, LineMayReturn, TouchForDelivery;
    if id in db.conflicts && expected.Some? {
      if Owned(db, db.conflicts[id].key, user) { RecordReturns(db, db.conflicts[id], user, expected.value, tx); }
      else { LineReturns(db, db.conflicts[id], user, expected.value, tx); }
    }
  }

  // ---- what a restore leaves ----

  lemma ItemReturned(db: Db, k: Key, state: Cols, edits: Cols, user: UserId, tx: Txid)
    requires Consistent(db) && k.t == Item && OnlyWritable(Item, state) && OnlyWritable(Item, edits)
    requires RestoreItem(db, k, state, edits, user, tx).Some?
    ensures var d, line := RestoreItem(db, k, state, edits, user, tx).value, (state + edits)[InvoiceId := Col(state, InvoiceId)];
            && k in d.rows && k !in d.tombstones
            && d.rows[k].cols == NewColumns(Item, line[LineTotal := Num(InvoiceTotals.LineTotal(LineOf(line)))], user)
  {
    hide Consistent, Recompute, TotalsMatch, WriteRecord, OnlyWritable, LineOf, InvoiceTotals.LineTotal, IsProtectedInvoice, NewColumns, OwnedInvoiceRow;
    hide RowOk, ActiveInvoice, IsLive, FindOwned, Owned;
    RestoreItemTotals(db, k, state, edits, user, tx);
    var line, u := (state + edits)[InvoiceId := Col(state, InvoiceId)], DropTombstones(db, {k});
    var v := Num(InvoiceTotals.LineTotal(LineOf(line)));
    var data := line[LineTotal := v];
    UntombKeeps(db, k);
    RestoredWritable(state, edits, v);
    NewRow(u, k, data, user, tx);
    WriteKeeps(u, k, data, user, tx);
    NewIsWritten(u, k, data, user, tx);
    RecomputeOthers(WriteRecord(u, k, None, data, user, tx).value, Col(state, InvoiceId), user, false, tx);
  }

  /** A line with all its columns is inserted as it is. */
  lemma WholeLine(last: Cols, edit: Cols, user: UserId)
    requires RowOk(Item, last) && OnlyWritable(Item, edit)
    ensures var line := LineAgain(last, edit); var v := Num(InvoiceTotals.LineTotal(LineOf(line)));
            && Col(last, InvoiceId) == Col(EditableFields(Item, last), InvoiceId)
            && NewColumns(Item, line[LineTotal := v], user) == line[LineTotal := v]
            && LineOf(line[LineTotal := v]) == LineOf(line)
            && forall f :: f in AppliedColumns(Item) ==>
                 f in line && line[f] == if f in edit && f != InvoiceId then edit[f] else last[f]
  {
    hide ColsAccepted, InvoiceTotals.LineTotal, LineOf, NewColumns;
    assert EditableFields(Item, last) == last - {LineTotal} by { assert forall f :: f in last <==> IsWritable(Item, f); }
    var line := LineAgain(last, edit);
    var v := Num(InvoiceTotals.LineTotal(LineOf(line)));
    assert Defaults(Item).Keys <= line[LineTotal := v].Keys;
    Inserted(line[LineTotal := v], user);
    SameLine(line, v);
  }

  lemma Inserted(cols: Cols, user: UserId)
    requires Defaults(Item).Keys <= cols.Keys
    ensures NewColumns(Item, cols, user) == cols
  {
  }

  /** A restored line: the columns it had, with what the later edit changed, in the invoice it was in, and its
    * total computed anew.
    */
  lemma LineReturned(db: Db, conflict: ConflictRow, user: UserId, expected: nat, tx: Txid, f: Field)
    requires Consistent(db) && LastStatesOk(db) && conflict.key.t == Item && RestoreRecord(db, conflict, user, expected, tx).Some?
    requires f in AppliedColumns(Item)
    ensures var k, d, edit := conflict.key, RestoreRecord(db, conflict, user, expected, tx).value, LaterEdit(conflict);
            && k !in db.rows && k in db.tombstones && db.tombstones[k].lastState.Some? && k in d.rows
            && HasLineTotal(d.rows[k].cols)
            && var last := db.tombstones[k].lastState.value;
            f in last && f in d.rows[k].cols && d.rows[k].cols[f] == if f in edit && f != InvoiceId then edit[f] else last[f]
  {
    hide Consistent, RestoreItem, RestoreRecord, OnlyWritable, EditableFields, LineOf, InvoiceTotals.LineTotal, NewColumns, AppliedColumns, RowOk, HasLineTotal, TotalsMatch;
    var k, edit := conflict.key, LaterEdit(conflict);
    RestoreLineWasGone(db, conflict, user, expected, tx);
    RestoreLine(db, conflict, user, expected, tx);
    var last := db.tombstones[k].lastState.value;
    EditsAreWritable(Item, conflict);
    EditableIsWritable(Item, last);
    WholeLine(last, edit, user);
    RestoresLine(db, conflict, user, expected, tx);
    ItemReturned(db, k, EditableFields(Item, last), edit, user, tx);
    var line := LineAgain(last, edit);
    var v := Num(InvoiceTotals.LineTotal(LineOf(line)));
    FreshTotal(line[LineTotal := v]);
    AppliedInLine(last, f);
  }

  lemma RestoresLine(db: Db, conflict: ConflictRow, user: UserId, expected: nat, tx: Txid)
    requires conflict.key.t == Item && conflict.key !in db.rows && RestoreRecord(db, conflict, user, expected, tx).Some?
    ensures var k := conflict.key;
            && k in db.tombstones && db.tombstones[k].lastState.Some?
            && RestoreRecord(db, conflict, user, expected, tx)
               == RestoreItem(db, k, EditableFields(Item, db.tombstones[k].lastState.value), LaterEdit(conflict), user, tx)
  {
    hide RestoreItem, EditableFields;
  }

  lemma AppliedInLine(last: Cols, f: Field)
    requires RowOk(Item, last) && f in AppliedColumns(Item)
    ensures f in last && f != LineTotal
  {
    AppliedAre(Item, f);
    hide ColsAccepted;
  }

  // ---- end to end ----

  /** A restore leaves, of the columns a later edit writes, its values, of all others but derived amounts what was
    * deleted.
    */
  ghost predicate IsRestored(a: Db, b: Db, k: Key, edit: Cols, f: Field) {
    && k in b.rows && IsLive(b.rows[k]) && k !in b.tombstones
    && (k.t == Item ==> HasLineTotal(b.rows[k].cols) && k in a.tombstones && a.tombstones[k].lastState.Some?)
    && (k.t != Item ==> k in a.rows)
    && Col(b.rows[k].cols, f) ==
         if f in edit && !(k.t == Item && f == InvoiceId) then edit[f]
         else if k.t == Item then Col(a.tombstones[k].lastState.value, f) else Col(a.rows[k].cols, f)
  }

  lemma RecordRestored(db: Db, conflict: ConflictRow, user: UserId, expected: nat, tx: Txid, f: Field)
    requires Consistent(db) && LastStatesOk(db) && RestoreRecord(db, conflict, user, expected, tx).Some?
    requires f in AppliedColumns(conflict.key.t)
    ensures IsRestored(db, RestoreRecord(db, conflict, user, expected, tx).value, conflict.key, LaterEdit(conflict), f)
  {
    hide Consistent, RestoreRecord, LastStatesOk, EditableFields, AppliedColumns, IsLive, HasLineTotal, Derived;
    var k, edit := conflict.key, LaterEdit(conflict);
    RestoreRevives(db, conflict, user, expected, tx);
    LiveHasNone(RestoreRecord(db, conflict, user, expected, tx).value, k);
    if k.t == Item {
      LineReturned(db, conflict, user, expected, tx, f);
    } else {
      NotDerivedWhenApplied(k.t, f);
      NotDeleted(k.t, f);
      RestoreColumns(db, conflict, user, expected, tx, f);
      EditedColumn(db.rows[k].cols, edit, f);
    }
  }

  lemma EditedColumn(cols: Cols, edit: Cols, f: Field)
    requires f != DeletedAt
    ensures Col(cols[DeletedAt := Null] + edit, f) == if f in edit then edit[f] else Col(cols, f)
  {
  }

  lemma TouchedIsRestored(a: Db, b: Db, k: Key, edit: Cols, f: Field, tx: Txid, d: Db)
    requires IsRestored(a, b, k, edit, f) && d.rows == TouchForDelivery(b, k, tx).rows && d.tombstones == b.tombstones
    ensures IsRestored(a, d, k, edit, f)
  {
    hide HasLineTotal, IsLive;
    TouchedRows(b, k, tx);
    SameLiveness(b, d, k);
  }

  lemma RestoreIsActed(db: Db, user: UserId, id: Id, expected: Option<nat>, tx: Txid)
    requires Resolve(db, user, id, Restore, expected, tx).Some?
    ensures expected.Some? && id in db.conflicts
    ensures var acted, d := RestoreRecord(db, db.conflicts[id], user, expected.value, tx), Resolve(db, user, id, Restore, expected, tx).value;
            acted.Some? && d.rows == TouchForDelivery(acted.value, db.conflicts[id].key, tx).rows && d.tombstones == acted.value.tombstones
  {
    hide RestoreRecord;
  }

  lemma RestoredLeaves(db: Db, user: UserId, id: Id, expected: Option<nat>, tx: Txid, f: Field)
    requires Consistent(db) && LastStatesOk(db) && Resolve(db, user, id, Restore, expected, tx).Some?
    requires f in AppliedColumns(db.conflicts[id].key.t)
    ensures IsRestored(db, Resolve(db, user, id, Restore, expected, tx).value, db.conflicts[id].key, LaterEdit(db.conflicts[id]), f)
  {
    hide Consistent, Resolve, RestoreRecord, LastStatesOk, AppliedColumns, IsRestored, TouchForDelivery;
    RestoreIsActed(db, user, id, expected, tx);
    var conflict := db.conflicts[id];
    RecordRestored(db, conflict, user, expected.value, tx, f);
    TouchedIsRestored(db, RestoreRecord(db, conflict, user, expected.value, tx).value, conflict.key, LaterEdit(conflict), f, tx,
                      Resolve(db, user, id, Restore, expected, tx).value);
  }

  lemma NotDeleted(t: RecordType, f: Field)
    ensures f in AppliedColumns(t) ==> f != DeletedAt
  {
  }

  lemma SameLiveness(a: Db, b: Db, k: Key)
    requires k in a.rows && k in b.rows && a.rows[k].cols == b.rows[k].cols
    ensures IsLive(a.rows[k]) == IsLive(b.rows[k])
  {
  }

  /** An edit of a record that was deleted, sent for the first time, is kept; in any later state in which the
    * conflict is as it was, restoring brings the record back with every column the edit sent, but for the
    * amounts derived from lines, an invoice's metadata and a line's invoice, and up to the two limits; every
    * other such column is as it was deleted.
    */
  lemma LaterEditRestored(db: Db, user: UserId, c: Change, tx: Txid, later: Db, expected: Option<nat>, resolving: Txid, f: Field)
    requires Consistent(db) && c.kind != Delete && IsWellFormed(c, 2) && IsNew(db, user, c) && IsGone(db, KeyOf(c), user)
    requires var p := Push(db, user, c, 2, NoFault, tx).db;
             && Consistent(later) && LastStatesOk(later) && db.nextConflict in p.conflicts && db.nextConflict in later.conflicts
             && later.conflicts[db.nextConflict] == p.conflicts[db.nextConflict]
    requires Resolve(later, user, db.nextConflict, Restore, expected, resolving).Some? && f in AppliedColumns(c.t)
    ensures var k, d := KeyOf(c), Resolve(later, user, db.nextConflict, Restore, expected, resolving).value;
            && k in d.rows && IsLive(d.rows[k]) && k !in d.tombstones
            && (k.t == Item ==> HasLineTotal(d.rows[k].cols) && k in later.tombstones && later.tombstones[k].lastState.Some?)
            && (k.t != Item ==> k in later.rows)
            && Col(d.rows[k].cols, f) ==
                 if f in c.data && !(k.t == Item && f == InvoiceId) then Limited(c.data[f])
                 else if k.t == Item then Col(later.tombstones[k].lastState.value, f) else Col(later.rows[k].cols, f)
  {
    hide Push, Resolve, Consistent, LastStatesOk, Limited, AppliedColumns, EditableFields, ConflictFields, IsLive, HasLineTotal, EditAnswer, IsForeign, IsFresh, IsOwn, IsGone, IsProtectedChange, SawInvoice;
    GoneIsNotOwn(db, KeyOf(c), user);
    WritingOutcome(db, user, c, tx);
    KeptAsSent(db, user, c, 2, tx);
    KeptValues(c.t, c.data, f);
    RestoredLeaves(later, user, db.nextConflict, expected, resolving, f);
  }

  lemma GoneIsNotOwn(db: Db, k: Key, user: UserId)
    requires Consistent(db) && IsGone(db, k, user)
    ensures !IsOwn(db, k, user)
  {
    hide Consistent;
    StateIs(db, k, user);
  }
}
