/** After a resolution writes lines, the stored invoice totals are those of the lines. */
module SyncTotals {
  import opened Basics
  import opened SyncModel
  import opened SyncPush
  import opened SyncConflicts
  import opened SyncInvariant
  import opened SyncResolution
  import InvoiceTotals

  /** The stored totals of an invoice are calculateTotals of its lines. */
  ghost predicate TotalsMatch(rows: map<Key, Row>, invoice: Id) {
    var k := Key(Invoice, invoice);
    k in rows && HasTotals(rows[k].cols, InvoiceTotals.TotalsOf(LinesOf(rows, invoice)))
  }

  predicate HasTotals(cols: Cols, t: InvoiceTotals.Totals) {
    && Col(cols, Subtotal) == Num(t.subtotal) && Col(cols, TaxTotal) == Num(t.taxTotal)
    && Col(cols, DiscountTotal) == Num(t.discountTotal) && Col(cols, Total) == Num(t.total)
  }

  /** The lines depend on the items' columns only. */
  lemma LinesFrame(a: map<Key, Row>, b: map<Key, Row>, invoice: Id)
    requires a.Keys == b.Keys
    requires forall k :: k in a && k in b && k.t == Item ==> a[k].cols == b[k].cols
    ensures LinesOf(a, invoice) == LinesOf(b, invoice)
  {
    hide LineOf, Sorted;
    assert ItemsOf(a, invoice) == ItemsOf(b, invoice) by {
      forall i ensures i in ItemsOf(a, invoice) <==> i in ItemsOf(b, invoice) {
        ItemsOfContains(a, invoice, i);
        ItemsOfContains(b, invoice, i);
      }
    }
    var ids := Sorted(ItemsOf(a, invoice));
    forall j | 0 <= j < |ids| ensures Lines(a, ids)[j] == Lines(b, ids)[j] {
      assert Key(Item, ids[j]).t == Item;
    }
  }

  lemma ItemsOfContains(rows: map<Key, Row>, invoice: Id, i: Id)
    ensures i in ItemsOf(rows, invoice) <==> Key(Item, i) in rows && IsItemOf(Key(Item, i), rows[Key(Item, i)], invoice)
  {
    if Key(Item, i) in rows && IsItemOf(Key(Item, i), rows[Key(Item, i)], invoice) {
      assert Key(Item, i).id in ItemsOf(rows, invoice);
    }
  }

  lemma {:induction false} SortedHasAll(ids: set<Id>)
    ensures |Sorted(ids)| == |ids| && forall i :: i in ids <==> i in Sorted(ids)
  {
    if ids != {} {
      SortedHasAll(ids - {Least(ids)});
    }
  }

  lemma HasLine(rows: map<Key, Row>, k: Key, invoice: Id)
    requires k in rows && IsItemOf(k, rows[k], invoice)
    ensures LinesOf(rows, invoice) != []
  {
    hide LineOf;
    assert k.id in ItemsOf(rows, invoice);
    SortedHasAll(ItemsOf(rows, invoice));
  }

  lemma WritesTotals(cols: Cols, t: InvoiceTotals.Totals)
    ensures HasTotals(cols + TotalColumns(t), t)
  {
  }

  /** Recomputing an active invoice leaves matching totals, and changes no other record's columns. */
  lemma RecomputeMatches(db: Db, invoice: Value, user: UserId, allowEmpty: bool, tx: Txid)
    requires Consistent(db) && ActiveInvoice(db, invoice, user)
    requires allowEmpty || LinesOf(db.rows, invoice.id) != []
    ensures TotalsMatch(Recompute(db, invoice, user, allowEmpty, tx).rows, invoice.id)
  {
    hide HistoriesOk, TombstonesOk, ItemsOk, IdsOk, UpdateRow, RowOk, OnlyWritable, ColsAccepted, TotalColumns, LinesOf, InvoiceTotals.TotalsOf, HasTotals;
    var k := Key(Invoice, invoice.id);
    var totals := InvoiceTotals.TotalsOf(LinesOf(db.rows, invoice.id));
    RowIsOk(db, k);
    TotalColumnsOk(totals);
    ColumnsAfterWrite(Invoice, db.rows[k].cols, TotalColumns(totals));
    UpdateShape(db, k, db.rows[k].cols + TotalColumns(totals), tx);
    WritesTotals(db.rows[k].cols, totals);
    LinesFrame(db.rows, UpdateRow(db, k, db.rows[k].cols + TotalColumns(totals), tx).rows, invoice.id);
  }

  /** What recomputing one invoice leaves of every other record. */
  lemma RecomputeOthers(db: Db, invoice: Value, user: UserId, allowEmpty: bool, tx: Txid)
    requires Consistent(db)
    ensures var d := Recompute(db, invoice, user, allowEmpty, tx);
            && d.rows.Keys == db.rows.Keys
            && (forall j :: j in db.rows && !(j.t == Invoice && invoice == Ref(j.id)) ==> d.rows[j].cols == db.rows[j].cols)
  {
    if ActiveInvoice(db, invoice, user) {
      hide HistoriesOk, TombstonesOk, ItemsOk, IdsOk, UpdateRow, RowOk, OnlyWritable, ColsAccepted, TotalColumns, LinesOf, InvoiceTotals.TotalsOf;
      var k := Key(Invoice, invoice.id);
      var totals := InvoiceTotals.TotalsOf(LinesOf(db.rows, invoice.id));
      RowIsOk(db, k);
      TotalColumnsOk(totals);
      ColumnsAfterWrite(Invoice, db.rows[k].cols, TotalColumns(totals));
      UpdateShape(db, k, db.rows[k].cols + TotalColumns(totals), tx);
    }
  }

  lemma MatchFrame(a: map<Key, Row>, b: map<Key, Row>, invoice: Id)
    requires TotalsMatch(a, invoice) && a.Keys == b.Keys
    requires forall k :: k in a && (k.t == Item || k == Key(Invoice, invoice)) ==> a[k].cols == b[k].cols
    ensures TotalsMatch(b, invoice)
  {
    hide LinesOf, InvoiceTotals.TotalsOf, HasTotals;
    LinesFrame(a, b, invoice);
  }

  lemma StaysActive(a: Db, b: Db, invoice: Value, user: UserId)
    requires ActiveInvoice(a, invoice, user) && Key(Invoice, invoice.id) in b.rows
    requires b.rows[Key(Invoice, invoice.id)].cols == a.rows[Key(Invoice, invoice.id)].cols
    ensures ActiveInvoice(b, invoice, user)
  {
  }

  /** A line was written into the invoice it now has: recompute that one, then the one it left. */
  lemma RecomputeBoth(w: Db, k: Key, joined: Value, left: Value, user: UserId, tx: Txid)
    requires Consistent(w) && k in w.rows && k.t == Item && Col(w.rows[k].cols, InvoiceId) == joined
    ensures var first := Recompute(w, joined, user, false, tx);
            var d := if left != Null && left != joined then Recompute(first, left, user, true, tx) else first;
            && d.rows.Keys == w.rows.Keys && d.rows[k].cols == w.rows[k].cols
            && (ActiveInvoice(w, joined, user) ==> TotalsMatch(d.rows, joined.id))
            && (left != joined && ActiveInvoice(w, left, user) ==> TotalsMatch(d.rows, left.id))
  {
    hide Consistent, Recompute, TotalsMatch, LinesOf;
    var first := Recompute(w, joined, user, false, tx);
    RecomputeOthers(w, joined, user, false, tx);
    RecomputeKeeps(w, joined, user, false, tx);
    if ActiveInvoice(w, joined, user) {
      HasLine(w.rows, k, joined.id);
      RecomputeMatches(w, joined, user, false, tx);
    }
    if left != Null && left != joined {
      var d := Recompute(first, left, user, true, tx);
      RecomputeOthers(first, left, user, true, tx);
      if ActiveInvoice(w, joined, user) { MatchFrame(first.rows, d.rows, joined.id); }
      if ActiveInvoice(w, left, user) {
        StaysActive(w, first, left, user);
        RecomputeMatches(first, left, user, true, tx);
      }
    }
  }

  /** A line is written and both invoices recomputed. */
  lemma WriteLine(db: Db, k: Key, data: Cols, user: UserId, tx: Txid)
    requires Consistent(db) && k.t == Item && Owned(db, k, user) && OnlyWritable(Item, data)
    requires WriteRecord(db, k, FindOwned(db, k, user), data, user, tx).Some?
    ensures var w := WriteRecord(db, k, FindOwned(db, k, user), data, user, tx).value;
            var left, joined := Col(db.rows[k].cols, InvoiceId), Col(db.rows[k].cols + data, InvoiceId);
            var first := Recompute(w, joined, user, false, tx);
            var d := if left != Null && left != joined then Recompute(first, left, user, true, tx) else first;
            && d.rows.Keys == db.rows.Keys && d.rows[k].cols == db.rows[k].cols + data
            && (ActiveInvoice(db, joined, user) ==> TotalsMatch(d.rows, joined.id))
            && (left != joined && ActiveInvoice(db, left, user) ==> TotalsMatch(d.rows, left.id))
  {
    hide Consistent, Recompute, TotalsMatch, WriteRecord, OnlyWritable, RowOk, ActiveInvoice;
    WriteKeeps(db, k, data, user, tx);
    var w := WriteRecord(db, k, FindOwned(db, k, user), data, user, tx).value;
    WrittenUpdate(db, k, data, user, tx);
    var left, joined := Col(db.rows[k].cols, InvoiceId), Col(db.rows[k].cols + data, InvoiceId);
    RecomputeBoth(w, k, joined, left, user, tx);
    SameInvoices(db, w, k, joined, user);
    SameInvoices(db, w, k, left, user);
  }

  /** Applying the device's version of a line: it holds the device's editable fields, and every
    * active invoice it joined or left has the totals of its lines.
    */
  lemma ApplyLine(db: Db, conflict: ConflictRow, user: UserId, expected: nat, tx: Txid)
    requires Consistent(db) && conflict.key.t == Item && ApplyDevice(db, conflict, user, expected, tx).Some?
    ensures var k := conflict.key;
            var d := ApplyDevice(db, conflict, user, expected, tx).value;
            && k in db.rows && k in d.rows
            && var joined, left := Col(d.rows[k].cols, InvoiceId), Col(db.rows[k].cols, InvoiceId);
            && (ActiveInvoice(db, joined, user) ==> TotalsMatch(d.rows, joined.id))
            && (left != joined && ActiveInvoice(db, left, user) ==> TotalsMatch(d.rows, left.id))
    ensures var k := conflict.key;
            var d := ApplyDevice(db, conflict, user, expected, tx).value;
            var sent := EditableFields(Item, conflict.clientFields);
            && k in db.rows && k in d.rows
            && d.rows[k].cols == db.rows[k].cols + sent[LineTotal := Num(InvoiceTotals.LineTotal(LineOf(db.rows[k].cols + sent)))]
  {
    hide Consistent, Recompute, TotalsMatch, WriteRecord, OnlyWritable, EditableFields, IsProtected, LineOf, InvoiceTotals.LineTotal, ActiveInvoice;
    var k := conflict.key;
    var sent := EditableFields(k.t, conflict.clientFields);
    var v := Num(InvoiceTotals.LineTotal(LineOf(db.rows[k].cols + sent)));
    EditableIsWritable(k.t, conflict.clientFields);
    LineTotalWritable(k.t, sent, v);
    WriteLine(db, k, sent[LineTotal := v], user, tx);
  }

  lemma WrittenUpdate(db: Db, k: Key, data: Cols, user: UserId, tx: Txid)
    requires Consistent(db) && Owned(db, k, user) && RowOk(k.t, db.rows[k].cols + data)
    requires WriteRecord(db, k, FindOwned(db, k, user), data, user, tx).Some?
    ensures var w := WriteRecord(db, k, FindOwned(db, k, user), data, user, tx).value;
            && w.rows.Keys == db.rows.Keys && w.rows[k].cols == db.rows[k].cols + data
            && forall j :: j in db.rows && j != k ==> w.rows[j].cols == db.rows[j].cols
  {
    hide UpdateRow, RowOk, HistoriesOk, TombstonesOk, ItemsOk, IdsOk, ReferencesOk, ColsAccepted;
    RowIsOk(db, k);
    UpdateShape(db, k, db.rows[k].cols + data, tx);
  }

  lemma SameInvoices(a: Db, b: Db, k: Key, invoice: Value, user: UserId)
    requires k.t == Item && a.rows.Keys <= b.rows.Keys
    requires forall j :: j in a.rows && j != k ==> b.rows[j].cols == a.rows[j].cols
    ensures ActiveInvoice(a, invoice, user) ==> ActiveInvoice(b, invoice, user)
  {
  }

  /** Restoring a hard-deleted line puts it back into its own invoice, whose totals are then
    * those of its lines.
    */
  lemma RestoreLine(db: Db, conflict: ConflictRow, user: UserId, expected: nat, tx: Txid)
    requires Consistent(db) && conflict.key.t == Item && RestoreRecord(db, conflict, user, expected, tx).Some?
    ensures var k := conflict.key;
            var d := RestoreRecord(db, conflict, user, expected, tx).value;
            && k in db.tombstones && k !in d.tombstones && k in d.rows
            && db.tombstones[k].lastState.Some?
            && var parent := Col(d.rows[k].cols, InvoiceId);
            && parent == Col(db.tombstones[k].lastState.value, InvoiceId)
            && ActiveInvoice(db, parent, user) && !IsProtectedInvoice(db, parent.id)
            && TotalsMatch(d.rows, parent.id)
  {
    var k := conflict.key;
    var edits := if conflict.kind == EditAfterDelete then EditableFields(k.t, conflict.clientFields) else map[];
    hide HistoriesOk, TombstonesOk, ItemsOk, IdsOk, Recompute, TotalsMatch, WriteRecord, EditableFields, IsProtected, RestoreItem;
    ItemsAreLive(db, k);
    var kept := db.tombstones[k].lastState.value;
    StateInvoice(kept);
    assert OnlyWritable(Item, edits) by { EditableIsWritable(Item, conflict.clientFields); }
    EditableIsWritable(Item, kept);
    RestoreItemTotals(db, k, EditableFields(Item, kept), edits, user, tx);
  }

  lemma ItemsAreLive(db: Db, k: Key)
    requires Consistent(db) && k.t == Item
    ensures k in db.rows ==> IsLive(db.rows[k])
  {
    if k in db.rows { RowIsOk(db, k); }
    hide HistoriesOk, TombstonesOk, ItemsOk, IdsOk;
  }

  lemma StateInvoice(kept: Cols)
    ensures Col(EditableFields(Item, kept), InvoiceId) == Col(kept, InvoiceId)
  {
  }

  lemma RestoreItemTotals(db: Db, k: Key, state: Cols, edits: Cols, user: UserId, tx: Txid)
    requires Consistent(db) && k.t == Item && OnlyWritable(Item, state) && OnlyWritable(Item, edits)
    requires RestoreItem(db, k, state, edits, user, tx).Some?
    ensures var d := RestoreItem(db, k, state, edits, user, tx).value;
            var parent := Col(state, InvoiceId);
            && k in d.rows && Col(d.rows[k].cols, InvoiceId) == parent && k !in d.tombstones
            && ActiveInvoice(db, parent, user) && !IsProtectedInvoice(db, parent.id)
            && TotalsMatch(d.rows, parent.id)
  {
    var parent := Col(state, InvoiceId);
    var merged := (state + edits)[InvoiceId := parent];
    var v := Num(InvoiceTotals.LineTotal(LineOf(merged)));
    var data := merged[LineTotal := v];
    var u := DropTombstones(db, {k});
    hide Consistent, Recompute, TotalsMatch, OnlyWritable, LineOf, InvoiceTotals.LineTotal, IsProtectedInvoice, NewColumns, ColsAccepted, Required;
    hide ActiveInvoice, OwnedInvoiceRow;
    UntombKeeps(db, k);
    RestoredWritable(state, edits, v);
    NewRow(u, k, data, user, tx);
    WriteKeeps(u, k, data, user, tx);
    var w := WriteRecord(u, k, None, data, user, tx).value;
    NewLineInvoice(data, user);
    RecomputeBoth(w, k, parent, Null, user, tx);
    SameInvoices(u, w, k, parent, user);
    SameInvoices(u, db, k, parent, user);
    assert data[InvoiceId] == parent;
    RecomputeTombstones(w, parent, user, tx);
  }

  lemma RestoredWritable(state: Cols, edits: Cols, v: Value)
    requires OnlyWritable(Item, state) && OnlyWritable(Item, edits) && Col(state, InvoiceId).Ref?
    ensures OnlyWritable(Item, (state + edits)[InvoiceId := Col(state, InvoiceId)][LineTotal := v])
  {
    hide Required, Defaults;
    assert InvoiceId in state;
    LineTotalWritable(Item, (state + edits)[InvoiceId := Col(state, InvoiceId)], v);
  }

  lemma NewLineInvoice(data: Cols, user: UserId)
    requires Required(Item) <= data.Keys
    ensures InvoiceId in data && Col(NewColumns(Item, data, user), InvoiceId) == data[InvoiceId]
  {
  }

  lemma RecomputeTombstones(db: Db, invoice: Value, user: UserId, tx: Txid)
    requires Consistent(db)
    ensures Recompute(db, invoice, user, false, tx).tombstones == db.tombstones
  {
    if ActiveInvoice(db, invoice, user) {
      hide HistoriesOk, TombstonesOk, ItemsOk, IdsOk, UpdateRow, RowOk, OnlyWritable, ColsAccepted, LinesOf, InvoiceTotals.TotalsOf;
      var k := Key(Invoice, invoice.id);
      var totals := InvoiceTotals.TotalsOf(LinesOf(db.rows, invoice.id));
      RowIsOk(db, k);
      TotalColumnsOk(totals);
      ColumnsAfterWrite(Invoice, db.rows[k].cols, TotalColumns(totals));
      UpdateShape(db, k, db.rows[k].cols + TotalColumns(totals), tx);
      KeepsDeletedAt(db.rows[k].cols, totals);
      hide TotalColumns;
    }
  }

  lemma KeepsDeletedAt(cols: Cols, totals: InvoiceTotals.Totals)
    ensures Col(cols + TotalColumns(totals), DeletedAt) == Col(cols, DeletedAt)
  {
  }

  // ---- a resolution of an invoice itself ----

  lemma RecomputeOwn(w: Db, k: Key, user: UserId, tx: Txid)
    requires Consistent(w) && k.t == Invoice && Owned(w, k, user) && IsLive(w.rows[k])
    ensures var d := Recompute(w, Ref(k.id), user, false, tx);
            k in d.rows && (LinesOf(d.rows, k.id) != [] ==> TotalsMatch(d.rows, k.id))
  {
    hide Consistent, Recompute, TotalsMatch, LinesOf;
    var d := Recompute(w, Ref(k.id), user, false, tx);
    RecomputeOthers(w, Ref(k.id), user, false, tx);
    LinesFrame(w.rows, d.rows, k.id);
    if LinesOf(w.rows, k.id) != [] {
      RecomputeMatches(w, Ref(k.id), user, false, tx);
    }
  }

  lemma WriteKeepsOwner(db: Db, k: Key, data: Cols, user: UserId, tx: Txid)
    requires Consistent(db) && k.t == Invoice && Owned(db, k, user) && IsLive(db.rows[k]) && OnlyWritable(Invoice, data)
    requires WriteRecord(db, k, FindOwned(db, k, user), data, user, tx).Some?
    ensures var w := WriteRecord(db, k, FindOwned(db, k, user), data, user, tx).value;
            Consistent(w) && Owned(w, k, user) && IsLive(w.rows[k])
  {
    ServerSetColumns(Invoice, user);
    assert Owner !in data && DeletedAt !in data;
    hide Consistent, WriteRecord, OnlyWritable, RowOk, IsWritable, ServerColumns, Defaults;
    WriteKeeps(db, k, data, user, tx);
    WrittenUpdate(db, k, data, user, tx);
  }

  lemma ApplyInvoice(db: Db, conflict: ConflictRow, user: UserId, expected: nat, tx: Txid)
    requires Consistent(db) && conflict.key.t == Invoice && ApplyDevice(db, conflict, user, expected, tx).Some?
    ensures var d := ApplyDevice(db, conflict, user, expected, tx).value;
            LinesOf(d.rows, conflict.key.id) != [] ==> TotalsMatch(d.rows, conflict.key.id)
  {
    hide Consistent, Recompute, TotalsMatch, WriteRecord, OnlyWritable, EditableFields, IsProtected, LinesOf, IsLive;
    var k := conflict.key;
    var sent := EditableFields(k.t, conflict.clientFields);
    EditableIsWritable(k.t, conflict.clientFields);
    WriteKeepsOwner(db, k, sent, user, tx);
    RecomputeOwn(WriteRecord(db, k, FindOwned(db, k, user), sent, user, tx).value, k, user, tx);
  }

  lemma RestoreInvoice(db: Db, conflict: ConflictRow, user: UserId, expected: nat, tx: Txid)
    requires Consistent(db) && conflict.key.t == Invoice && RestoreRecord(db, conflict, user, expected, tx).Some?
    ensures var d := RestoreRecord(db, conflict, user, expected, tx).value;
            LinesOf(d.rows, conflict.key.id) != [] ==> TotalsMatch(d.rows, conflict.key.id)
  {
    hide Consistent, Recompute, TotalsMatch, WriteRecord, OnlyWritable, EditableFields, IsProtected, LinesOf, IsLive, UpdateRow, RowOk, ActiveClient;
    var k := conflict.key;
    var edits := if conflict.kind == EditAfterDelete then EditableFields(k.t, conflict.clientFields) else map[];
    EditableIsWritable(k.t, conflict.clientFields);
    RestoredRow(db, k, user, tx);
    var restored := UpdateRow(db, k, db.rows[k].cols[DeletedAt := Null], tx);
    if edits == map[] {
      RecomputeOwn(restored, k, user, tx);
    } else {
      WriteKeepsOwner(restored, k, edits, user, tx);
      RecomputeOwn(WriteRecord(restored, k, FindOwned(restored, k, user), edits, user, tx).value, k, user, tx);
    }
  }

  lemma RestoredRow(db: Db, k: Key, user: UserId, tx: Txid)
    requires Consistent(db) && k.t == Invoice && Owned(db, k, user) && !IsLive(db.rows[k])
    ensures var restored := UpdateRow(db, k, db.rows[k].cols[DeletedAt := Null], tx);
            Consistent(restored) && Owned(restored, k, user) && IsLive(restored.rows[k])
  {
    hide Consistent, UpdateRow, RowOk;
    RestoredColumns(db, k);
    UpdateKeeps(db, k, db.rows[k].cols[DeletedAt := Null], tx);
    UpdatedRows(db, UpdateRow(db, k, db.rows[k].cols[DeletedAt := Null], tx), k, db.rows[k].cols[DeletedAt := Null]);
  }

  // ---- the whole resolution ----

  lemma TouchedRows(db: Db, k: Key, tx: Txid)
    ensures var d := TouchForDelivery(db, k, tx);
            db.rows.Keys == d.rows.Keys && forall j :: j in db.rows ==> d.rows[j].cols == db.rows[j].cols
  {
  }

  lemma TouchedMatch(acted: Db, k: Key, tx: Txid, invoice: Id)
    ensures TotalsMatch(acted.rows, invoice) ==> TotalsMatch(TouchForDelivery(acted, k, tx).rows, invoice)
    ensures LinesOf(acted.rows, invoice) == LinesOf(TouchForDelivery(acted, k, tx).rows, invoice)
  {
    hide TotalsMatch, LinesOf;
    var d := TouchForDelivery(acted, k, tx);
    TouchedRows(acted, k, tx);
    hide TouchForDelivery;
    LinesFrame(acted.rows, d.rows, invoice);
    if TotalsMatch(acted.rows, invoice) {
      MatchFrame(acted.rows, d.rows, invoice);
    }
  }

  /** After a resolution that applies or restores a line, every active invoice the line joined or
    * left has the totals of its lines; after one of an invoice, that invoice does if it has lines.
    */
  lemma ResolvedTotals(db: Db, user: UserId, id: Id, action: Action, expected: Option<nat>, tx: Txid)
    requires Consistent(db) && action != Dismiss && Resolve(db, user, id, action, expected, tx).Some?
    ensures var d, k := Resolve(db, user, id, action, expected, tx).value, db.conflicts[id].key;
            k.t == Item ==>
              && k in d.rows
              && var joined := Col(d.rows[k].cols, InvoiceId);
                 var left := if k in db.rows then Col(db.rows[k].cols, InvoiceId) else joined;
              && (ActiveInvoice(db, joined, user) ==> TotalsMatch(d.rows, joined.id))
              && (left != joined && ActiveInvoice(db, left, user) ==> TotalsMatch(d.rows, left.id))
    ensures var d, k := Resolve(db, user, id, action, expected, tx).value, db.conflicts[id].key;
            k.t == Invoice && LinesOf(d.rows, k.id) != [] ==> TotalsMatch(d.rows, k.id)
  {
    hide Consistent, ApplyDevice, RestoreRecord, TotalsMatch, LinesOf, ActiveInvoice;
    var conflict := db.conflicts[id];
    var k := conflict.key;
    var acted := Act(db, conflict, user, action, expected, tx).value;
    if k.t == Invoice {
      if action == ApplyClient { ApplyInvoice(db, conflict, user, expected.value, tx); }
      else { RestoreInvoice(db, conflict, user, expected.value, tx); }
      TouchedMatch(acted, k, tx, k.id);
    } else if k.t == Item {
      if action == ApplyClient {
        ApplyLine(db, conflict, user, expected.value, tx);
        var left := Col(db.rows[k].cols, InvoiceId);
        if left.Ref? { TouchedMatch(acted, k, tx, left.id); }
      } else {
        RestoreLine(db, conflict, user, expected.value, tx);
        RestoreLineWasGone(db, conflict, user, expected.value, tx);
      }
      var joined := Col(acted.rows[k].cols, InvoiceId);
      if joined.Ref? { TouchedMatch(acted, k, tx, joined.id); }
      ActiveIsRef(db, user);
    }
  }

  lemma ActiveIsRef(db: Db, user: UserId)
    ensures forall v :: ActiveInvoice(db, v, user) ==> v.Ref?
  {
  }

  lemma RestoreLineWasGone(db: Db, conflict: ConflictRow, user: UserId, expected: nat, tx: Txid)
    requires Consistent(db) && conflict.key.t == Item && RestoreRecord(db, conflict, user, expected, tx).Some?
    ensures conflict.key !in db.rows
  {
    hide HistoriesOk, ItemsOk, IdsOk;
    RestoreLine(db, conflict, user, expected, tx);
    ItemsAreLive(db, conflict.key);
  }

  /** An invoice emptied by a move is left with zero totals. */
  lemma EmptiedIsZero(rows: map<Key, Row>, invoice: Id)
    requires TotalsMatch(rows, invoice) && LinesOf(rows, invoice) == []
    ensures forall f :: f in {Subtotal, TaxTotal, DiscountTotal, Total} ==> Col(rows[Key(Invoice, invoice)].cols, f) == Num(0.0)
  {
    hide LinesOf;
    assert InvoiceTotals.Cents(0.0) == 0;
  }

  // ---- what applying the device's version writes ----

  lemma RecomputeOwnColumns(w: Db, k: Key, user: UserId, allowEmpty: bool, tx: Txid, f: Field)
    requires Consistent(w) && k in w.rows && f !in Derived(Invoice)
    ensures var d := Recompute(w, Ref(k.id), user, allowEmpty, tx); k in d.rows && Col(d.rows[k].cols, f) == Col(w.rows[k].cols, f)
  {
    RecomputeOthers(w, Ref(k.id), user, allowEmpty, tx);
    if k.t == Invoice && ActiveInvoice(w, Ref(k.id), user) {
      hide HistoriesOk, TombstonesOk, ItemsOk, IdsOk, UpdateRow, RowOk, OnlyWritable, ColsAccepted, LinesOf, InvoiceTotals.TotalsOf;
      var totals := InvoiceTotals.TotalsOf(LinesOf(w.rows, k.id));
      RowIsOk(w, k);
      TotalColumnsOk(totals);
      ColumnsAfterWrite(Invoice, w.rows[k].cols, TotalColumns(totals));
      UpdateShape(w, k, w.rows[k].cols + TotalColumns(totals), tx);
      hide Updated;
      assert Col(w.rows[k].cols + TotalColumns(totals), f) == Col(w.rows[k].cols, f);
    }
  }

  /** Applying the device's version of a client or an invoice: its editable fields as the conflict
    * keeps them, everything else as stored; an invoice's amounts are derived from its lines.
    */
  lemma ApplyColumns(db: Db, conflict: ConflictRow, user: UserId, expected: nat, tx: Txid, f: Field)
    requires Consistent(db) && conflict.key.t != Item && ApplyDevice(db, conflict, user, expected, tx).Some?
    requires f !in Derived(Invoice)
    ensures var k := conflict.key;
            var d := ApplyDevice(db, conflict, user, expected, tx).value;
            k in db.rows && k in d.rows
            && Col(d.rows[k].cols, f) == Col(db.rows[k].cols + EditableFields(k.t, conflict.clientFields), f)
  {
    hide Consistent, Recompute, WriteRecord, OnlyWritable, EditableFields, IsProtected, LineOf, InvoiceTotals.LineTotal, RowOk;
    var k := conflict.key;
    var sent := EditableFields(k.t, conflict.clientFields);
    EditableIsWritable(k.t, conflict.clientFields);
    WriteKeeps(db, k, sent, user, tx);
    WrittenUpdate(db, k, sent, user, tx);
    var w := WriteRecord(db, k, FindOwned(db, k, user), sent, user, tx).value;
    if k.t == Invoice { RecomputeOwnColumns(w, k, user, false, tx, f); } else { RecomputeOthers(w, Null, user, false, tx); }
  }

  // ---- what restoring brings back ----

  lemma SoftRestored(db: Db, k: Key, edits: Cols, user: UserId, tx: Txid)
    requires Consistent(db) && Owned(db, k, user) && !IsLive(db.rows[k]) && OnlyWritable(k.t, edits)
    ensures var restored := UpdateRow(db, k, db.rows[k].cols[DeletedAt := Null], tx);
            && Consistent(restored) && k in restored.rows && restored.rows[k].cols == db.rows[k].cols[DeletedAt := Null]
            && var w := WriteRecord(restored, k, FindOwned(restored, k, user), edits, user, tx);
            w.Some? ==> Consistent(w.value) && k in w.value.rows && w.value.rows[k].cols == db.rows[k].cols[DeletedAt := Null] + edits
  {
    hide Consistent, UpdateRow, RowOk, WriteRecord, IsLive, OnlyWritable;
    RestoredColumns(db, k);
    var cols := db.rows[k].cols[DeletedAt := Null];
    UpdateKeeps(db, k, cols, tx);
    var restored := UpdateRow(db, k, cols, tx);
    UpdatedRows(db, restored, k, cols);
    if WriteRecord(restored, k, FindOwned(restored, k, user), edits, user, tx).Some? {
      StaysOwned(db, restored, k, cols, user);
      WriteKeeps(restored, k, edits, user, tx);
      WrittenUpdate(restored, k, edits, user, tx);
    }
  }

  lemma StaysOwned(db: Db, d: Db, k: Key, cols: Cols, user: UserId)
    requires Owned(db, k, user) && k.t != Item && k in d.rows && d.rows[k].cols == db.rows[k].cols[DeletedAt := Null]
    ensures Owned(d, k, user)
  {
  }

  /** A restored client or invoice is live again, with its stored columns and, when the device
    * edited it after the deletion, that edit; an invoice's amounts are derived from its lines.
    */
  lemma RestoreColumns(db: Db, conflict: ConflictRow, user: UserId, expected: nat, tx: Txid, f: Field)
    requires Consistent(db) && conflict.key.t != Item && RestoreRecord(db, conflict, user, expected, tx).Some?
    requires f !in Derived(Invoice)
    ensures var k := conflict.key;
            var d := RestoreRecord(db, conflict, user, expected, tx).value;
            var edits := if conflict.kind == EditAfterDelete then EditableFields(k.t, conflict.clientFields) else map[];
            k in db.rows && k in d.rows && IsLive(d.rows[k])
            && Col(d.rows[k].cols, f) == Col(db.rows[k].cols[DeletedAt := Null] + edits, f)
  {
    var k := conflict.key;
    var edits := if conflict.kind == EditAfterDelete then EditableFields(k.t, conflict.clientFields) else map[];
    EditsAreWritable(k.t, conflict);
    RestoreIs(db, conflict, user, expected, tx);
    hide Consistent, Recompute, WriteRecord, OnlyWritable, EditableFields, UpdateRow, IsLive, RestoreRecord, Owned, Derived;
    RestoredHas(db, k, edits, user, tx, f);
  }

  lemma EditsAreWritable(t: RecordType, conflict: ConflictRow)
    ensures OnlyWritable(t, if conflict.kind == EditAfterDelete then EditableFields(t, conflict.clientFields) else map[])
  {
    EditableIsWritable(t, conflict.clientFields);
  }

  lemma RestoredHas(db: Db, k: Key, edits: Cols, user: UserId, tx: Txid, f: Field)
    requires Consistent(db) && k.t != Item && Owned(db, k, user) && !IsLive(db.rows[k]) && OnlyWritable(k.t, edits)
    requires f !in Derived(Invoice)
    requires var restored := UpdateRow(db, k, db.rows[k].cols[DeletedAt := Null], tx);
             edits != map[] ==> WriteRecord(restored, k, FindOwned(restored, k, user), edits, user, tx).Some?
    ensures var restored := UpdateRow(db, k, db.rows[k].cols[DeletedAt := Null], tx);
            var written := if edits == map[] then restored
                           else WriteRecord(restored, k, FindOwned(restored, k, user), edits, user, tx).value;
            var d := if k.t == Invoice then Recompute(written, Ref(k.id), user, false, tx) else written;
            k in d.rows && IsLive(d.rows[k]) && Col(d.rows[k].cols, f) == Col(db.rows[k].cols[DeletedAt := Null] + edits, f)
  {
    hide Consistent, Recompute, WriteRecord, OnlyWritable, UpdateRow, IsLive, Derived;
    SoftRestored(db, k, edits, user, tx);
    var cols := db.rows[k].cols[DeletedAt := Null];
    var restored := UpdateRow(db, k, cols, tx);
    var written := if edits == map[] then restored else WriteRecord(restored, k, FindOwned(restored, k, user), edits, user, tx).value;
    assert cols + map[] == cols;
    var d := if k.t == Invoice then Recompute(written, Ref(k.id), user, false, tx) else written;
    if k.t == Invoice {
      NotDerived();
      RecomputeOwnColumns(written, k, user, false, tx, f);
      RecomputeOwnColumns(written, k, user, false, tx, DeletedAt);
    }
    ClearedIsLive(k.t, cols, edits, d.rows[k]);
  }

  lemma NotDerived()
    ensures DeletedAt !in Derived(Invoice)
  {
  }

  lemma RestoreIs(db: Db, conflict: ConflictRow, user: UserId, expected: nat, tx: Txid)
    requires conflict.key.t != Item && RestoreRecord(db, conflict, user, expected, tx).Some?
    ensures var k := conflict.key;
            var edits := if conflict.kind == EditAfterDelete then EditableFields(k.t, conflict.clientFields) else map[];
            && Owned(db, k, user) && !IsLive(db.rows[k])
            && var restored := UpdateRow(db, k, db.rows[k].cols[DeletedAt := Null], tx);
            && (edits != map[] ==> WriteRecord(restored, k, FindOwned(restored, k, user), edits, user, tx).Some?)
            && var written := if edits == map[] then restored
                              else WriteRecord(restored, k, FindOwned(restored, k, user), edits, user, tx).value;
            RestoreRecord(db, conflict, user, expected, tx)
            == Some(if k.t == Invoice then Recompute(written, Ref(k.id), user, false, tx) else written)
  {
    hide Recompute, WriteRecord, EditableFields, IsProtected, UpdateRow, IsLive, Owned, ActiveClient;
  }

  lemma ClearedIsLive(t: RecordType, cols: Cols, edits: Cols, row: Row)
    requires OnlyWritable(t, edits) && Col(cols, DeletedAt) == Null && Col(row.cols, DeletedAt) == Col(cols + edits, DeletedAt)
    ensures IsLive(row)
  {
    NotDeletedAt(t, edits);
  }

  lemma NotDeletedAt(t: RecordType, edits: Cols)
    requires OnlyWritable(t, edits)
    ensures DeletedAt !in edits
  {
    ServerSetColumns(t, 0);
    hide Required, Defaults;
  }
}
