/** What the tables keep, and that a push keeps it. */
module SyncInvariant {
  import opened Basics
  import opened SyncModel
  import opened SyncPush

  predicate OnlyWritable(t: RecordType, data: Cols) {
    forall f :: f in data ==> IsWritable(t, f)
  }

  // ---- the invariant ----

  ghost predicate RowOk(t: RecordType, cols: Cols) {
    (forall f :: f in cols <==> IsColumn(t, f)) && ColsAccepted(cols)
  }

  predicate InExistingInvoice(db: Db, cols: Cols) {
    var inv := Col(cols, InvoiceId);
    inv.Ref? && Key(Invoice, inv.id) in db.rows
  }

  /** The columns' versions since the row was inserted: as many as its revision, the last one
    * the stored one; and each kept history row up to the revision lists exactly the columns that
    * differ between its two versions.
    */
  ghost predicate HistoryOk(db: Db, k: Key)
    requires k in db.rows
  {
    var v := VersionsOf(db, k);
    && |v| == db.rows[k].revision > 0
    && v[|v| - 1] == db.rows[k].cols
    && (forall i :: 0 <= i < |v| ==> RowOk(k.t, v[i]))
    && (forall r :: 1 < r <= |v| && (k, r) in db.history ==> db.history[(k, r)] == Diff(v[r - 2], v[r - 1]))
  }

  ghost predicate HistoriesOk(db: Db) {
    forall k :: k in db.rows ==> HistoryOk(db, k)
  }

  /** No id is both live and tombstoned. */
  ghost predicate TombstonesOk(db: Db) {
    forall k :: k in db.rows && k in db.tombstones ==> !IsLive(db.rows[k])
  }

  ghost predicate ItemsOk(db: Db) {
    forall k :: k in db.rows && k.t == Item ==> InExistingInvoice(db, db.rows[k].cols)
  }

  ghost predicate IdsOk(db: Db) {
    && db.rows.Keys + db.tombstones.Keys <= db.versions.Keys
    && (forall k :: k in db.versions ==> (k in db.rows && IsLive(db.rows[k])) || k in db.tombstones || k in db.forgotten)
    && forall i :: i in db.conflicts ==> i < db.nextConflict
  }

  ghost predicate Consistent(db: Db) {
    HistoriesOk(db) && TombstonesOk(db) && ItemsOk(db) && IdsOk(db)
  }

  // ---- each write keeps it ----

  lemma SameWhenNoDiff(t: RecordType, a: Cols, b: Cols)
    requires RowOk(t, a) && RowOk(t, b) && Diff(a, b) == {}
    ensures a == b
  {
    hide ColsAccepted, IsColumn;
    forall f | f in b ensures f in a && a[f] == b[f] {
      assert f !in Diff(a, b);
    }
    assert forall f :: f in a ==> IsColumn(t, f);
  }

  /** What HistoryOk looks at. */
  ghost predicate SameRecord(a: Db, b: Db, k: Key) {
    && k in a.rows && k in b.rows
    && a.rows[k].cols == b.rows[k].cols && a.rows[k].revision == b.rows[k].revision
    && VersionsOf(a, k) == VersionsOf(b, k)
    && forall r {:trigger (k, r) in b.history} :: (k, r) in b.history ==> (k, r) in a.history && a.history[(k, r)] == b.history[(k, r)]
  }

  lemma HistoryFrame(a: Db, b: Db, k: Key)
    requires SameRecord(a, b, k) && HistoryOk(a, k)
    ensures HistoryOk(b, k)
  {
    hide RowOk, Diff, VersionsOf;
  }

  lemma BumpedHistory(db: Db, k: Key, cols: Cols, tx: Txid)
    requires k in db.rows && HistoryOk(db, k) && RowOk(k.t, cols)
    ensures HistoryOk(BumpRevision(db, k, cols, tx), k)
    ensures BumpRevision(db, k, cols, tx).rows[k].cols == cols
  {
    var before := db.rows[k];
    if Diff(before.cols, cols) == {} {
      SameWhenNoDiff(k.t, before.cols, cols);
    } else {
      hide RowOk, Diff;
      var v := VersionsOf(db, k);
      var b := BumpRevision(db, k, cols, tx);
      assert VersionsOf(b, k) == v + [cols];
    }
  }

  lemma BumpKeepsHistory(db: Db, k: Key, cols: Cols, tx: Txid)
    requires HistoriesOk(db) && k in db.rows && RowOk(k.t, cols)
    ensures HistoriesOk(BumpRevision(db, k, cols, tx)) && k in BumpRevision(db, k, cols, tx).rows
  {
    hide RowOk, Diff, HistoryOk;
    var b := BumpRevision(db, k, cols, tx);
    BumpedHistory(db, k, cols, tx);
    forall j | j in b.rows ensures HistoryOk(b, j) {
      if j != k {
        assert SameRecord(db, b, j);
        HistoryFrame(db, b, j);
      }
    }
  }

  /** What an update does to the records: the columns written, and nothing else but txids; the
    * tombstone follows deletedAt.
    */
  ghost predicate Updated(db: Db, d: Db, k: Key, cols: Cols) {
    && k in db.rows && d.rows.Keys == db.rows.Keys
    && d.rows[k].cols == cols
    && (forall j :: j in db.rows && j != k ==> d.rows[j].cols == db.rows[j].cols && d.rows[j].revision == db.rows[j].revision)
    && (Col(db.rows[k].cols, DeletedAt) == Null && Col(cols, DeletedAt) != Null ==> d.tombstones.Keys == db.tombstones.Keys + {k})
    && (Col(db.rows[k].cols, DeletedAt) != Null && Col(cols, DeletedAt) == Null ==> d.tombstones == db.tombstones - {k})
    && ((Col(db.rows[k].cols, DeletedAt) == Null) == (Col(cols, DeletedAt) == Null) ==> d.tombstones == db.tombstones)
    && (forall j :: j in db.tombstones && j != k ==> j in d.tombstones && d.tombstones[j] == db.tombstones[j])
    && d.conflicts == db.conflicts && d.nextConflict == db.nextConflict && d.changes == db.changes
    && d.forgotten == db.forgotten
    && d.versions.Keys == db.versions.Keys + if cols == db.rows[k].cols then {} else {k}
  }

  lemma BumpShape(db: Db, k: Key, cols: Cols, tx: Txid)
    requires k in db.rows && RowOk(k.t, cols) && RowOk(k.t, db.rows[k].cols)
    ensures var b := BumpRevision(db, k, cols, tx);
            && b.rows.Keys == db.rows.Keys && b.rows == db.rows[k := b.rows[k]] && b.rows[k].cols == cols
            && b.versions.Keys == db.versions.Keys + (if cols == db.rows[k].cols then {} else {k})
            && b.tombstones == db.tombstones && b.changes == db.changes
            && b.conflicts == db.conflicts && b.nextConflict == db.nextConflict && b.forgotten == db.forgotten
  {
    var before := db.rows[k];
    if Diff(before.cols, cols) == {} {
      SameWhenNoDiff(k.t, before.cols, cols);
      hide RowOk, Diff;
      assert db.rows[k := db.rows[k]] == db.rows;
    } else {
      assert cols != before.cols;
      hide RowOk, Diff;
    }
  }

  lemma TombstoneShape(b: Db, k: Key, before: Row, tx: Txid)
    requires k in b.rows
    ensures var d := TombstoneOnUpdate(b, k, before, tx);
            && d.rows.Keys == b.rows.Keys
            && (forall j :: j in b.rows ==> d.rows[j].cols == b.rows[j].cols && d.rows[j].revision == b.rows[j].revision)
            && d.history == b.history && d.versions == b.versions && d.changes == b.changes
            && d.conflicts == b.conflicts && d.nextConflict == b.nextConflict && d.forgotten == b.forgotten
  {
    hide TouchItems, IsLive, UserOf;
    if IsLive(before) && !IsLive(b.rows[k]) {
    } else if !IsLive(before) && IsLive(b.rows[k]) {
      if k.t == Invoice {
        var touched := TouchItems(b.rows, k.id, tx);
        assert TombstoneOnUpdate(b, k, before, tx) == b.(tombstones := b.tombstones - {k}, rows := touched);
      } else {
        assert TombstoneOnUpdate(b, k, before, tx) == b.(tombstones := b.tombstones - {k}, rows := b.rows);
      }
    } else {
    }
  }

  lemma UpdateShape(db: Db, k: Key, cols: Cols, tx: Txid)
    requires k in db.rows && RowOk(k.t, cols) && RowOk(k.t, db.rows[k].cols)
    ensures Updated(db, UpdateRow(db, k, cols, tx), k, cols)
  {
    hide RowOk, BumpRevision, TombstoneOnUpdate;
    BumpShape(db, k, cols, tx);
    var b := BumpRevision(db, k, cols, tx);
    TombstoneShape(b, k, db.rows[k], tx);
    TombstonesFollow(b, k, db.rows[k], tx);
  }

  /** The tombstone follows deletedAt. */
  lemma TombstonesFollow(b: Db, k: Key, before: Row, tx: Txid)
    requires k in b.rows
    ensures var was, now := Col(before.cols, DeletedAt) == Null, Col(b.rows[k].cols, DeletedAt) == Null;
            var d := TombstoneOnUpdate(b, k, before, tx);
            && (was && !now ==> d.tombstones.Keys == b.tombstones.Keys + {k})
            && (!was && now ==> d.tombstones == b.tombstones - {k})
            && (was == now ==> d.tombstones == b.tombstones)
            && forall j :: j in b.tombstones && j != k ==> j in d.tombstones && d.tombstones[j] == b.tombstones[j]
  {
    hide TouchItems, UserOf;
  }

  lemma UpdateKeeps(db: Db, k: Key, cols: Cols, tx: Txid)
    requires Consistent(db) && k in db.rows && RowOk(k.t, cols)
    requires k.t == Item ==> InExistingInvoice(db, cols)
    ensures Consistent(UpdateRow(db, k, cols, tx))
    ensures Updated(db, UpdateRow(db, k, cols, tx), k, cols)
  {
    assert HistoryOk(db, k);
    UpdateShape(db, k, cols, tx);
    UpdatedKeeps(db, UpdateRow(db, k, cols, tx), k, cols);
    UpdateKeepsHistory(db, k, cols, tx);
    hide Updated, UpdateRow, HistoriesOk, TombstonesOk, ItemsOk, IdsOk;
  }

  lemma UpdateKeepsHistory(db: Db, k: Key, cols: Cols, tx: Txid)
    requires HistoriesOk(db) && k in db.rows && RowOk(k.t, cols)
    ensures HistoriesOk(UpdateRow(db, k, cols, tx))
  {
    hide RowOk, BumpRevision, TombstoneOnUpdate, HistoryOk;
    var b, d := BumpRevision(db, k, cols, tx), UpdateRow(db, k, cols, tx);
    BumpKeepsHistory(db, k, cols, tx);
    TombstoneShape(b, k, db.rows[k], tx);
    forall j | j in d.rows ensures HistoryOk(d, j) {
      assert SameRecord(b, d, j);
      HistoryFrame(b, d, j);
    }
  }

  lemma UpdatedKeeps(db: Db, d: Db, k: Key, cols: Cols)
    requires Updated(db, d, k, cols) && TombstonesOk(db) && ItemsOk(db) && IdsOk(db)
    requires k.t == Item ==> InExistingInvoice(db, cols)
    ensures TombstonesOk(d) && ItemsOk(d) && IdsOk(d)
  {
    hide Updated, TombstonesOk, ItemsOk, IdsOk;
    UpdatedTombstones(db, d, k, cols);
    UpdatedItems(db, d, k, cols);
    UpdatedIds(db, d, k, cols);
  }

  lemma UpdatedTombstones(db: Db, d: Db, k: Key, cols: Cols)
    requires Updated(db, d, k, cols) && TombstonesOk(db)
    ensures TombstonesOk(d)
  {
  }

  lemma UpdatedItems(db: Db, d: Db, k: Key, cols: Cols)
    requires Updated(db, d, k, cols) && ItemsOk(db) && (k.t == Item ==> InExistingInvoice(db, cols))
    ensures ItemsOk(d)
  {
  }

  lemma UpdatedIds(db: Db, d: Db, k: Key, cols: Cols)
    requires Updated(db, d, k, cols) && IdsOk(db)
    ensures IdsOk(d)
  {
  }

  lemma InsertKeeps(db: Db, k: Key, cols: Cols, tx: Txid)
    requires Consistent(db) && k !in db.rows && k !in db.tombstones && RowOk(k.t, cols) && Col(cols, DeletedAt) == Null
    requires k.t == Item ==> InExistingInvoice(db, cols)
    ensures Consistent(InsertRow(db, k, cols, tx))
  {
    hide RowOk, Diff, HistoryOk;
    var d := InsertRow(db, k, cols, tx);
    InsertedHistory(db, k, cols, tx);
    forall j | j in d.rows ensures HistoryOk(d, j) {
      if j != k {
        assert HistoryOk(db, j);
        assert SameRecord(db, d, j);
        HistoryFrame(db, d, j);
      }
    }
  }

  lemma InsertedHistory(db: Db, k: Key, cols: Cols, tx: Txid)
    requires RowOk(k.t, cols)
    ensures HistoryOk(InsertRow(db, k, cols, tx), k)
  {
    hide RowOk, Diff;
  }

  lemma DeleteItemKeeps(db: Db, k: Key, tx: Txid)
    requires Consistent(db) && k in db.rows && k.t == Item
    ensures var d := DeleteItem(db, k, tx);
            && Consistent(d)
            && d.rows == db.rows - {k} && d.tombstones.Keys == db.tombstones.Keys + {k}
            && (forall j :: j in db.tombstones && j != k ==> d.tombstones[j] == db.tombstones[j])
            && d.conflicts == db.conflicts && d.nextConflict == db.nextConflict && d.changes == db.changes
            && d.versions == db.versions && d.history == db.history && d.forgotten == db.forgotten
  {
    hide RowOk, Diff, HistoryOk, UserOf;
    assert InExistingInvoice(db, db.rows[k].cols);
    var d := DeleteItem(db, k, tx);
    forall j | j in d.rows ensures HistoryOk(d, j) {
      assert SameRecord(db, d, j);
      HistoryFrame(db, d, j);
    }
  }

  lemma ColumnsAfterWrite(t: RecordType, cols: Cols, data: Cols)
    requires RowOk(t, cols) && OnlyWritable(t, data) && ColsAccepted(data)
    ensures RowOk(t, cols + data)
  {
    hide FieldAccepts;
    forall f ensures f in cols + data <==> IsColumn(t, f) {
      if f in data { assert IsWritable(t, f); }
    }
    hide IsColumn, IsWritable;
  }

  lemma DefaultsAccepted(t: RecordType)
    ensures ColsAccepted(Defaults(t))
  {
    hide Defaults, ColsAccepted;
    match t
    case Client => ClientDefaultsAccepted();
    case Invoice => InvoiceDefaultsAccepted();
    case Item => ItemDefaultsAccepted();
  }

  lemma ClientDefaultsAccepted()
    ensures ColsAccepted(Defaults(Client))
  {
    assert Defaults(Client).Keys == {Email, Phone, AddressJson, TagsJson, AvatarUrl, Notes};
  }

  lemma InvoiceDefaultsAccepted()
    ensures ColsAccepted(Defaults(Invoice))
  {
    assert Defaults(Invoice).Keys ==
      {Kind, InvoiceStatus, DueDate, Currency, Subtotal, TaxTotal, DiscountTotal, Total, Notes, MetadataJson};
  }

  lemma ItemDefaultsAccepted()
    ensures ColsAccepted(Defaults(Item))
  {
    assert Defaults(Item).Keys == {Quantity, UnitPrice, TaxRate, DiscountRate, LineTotal};
  }

  lemma ServerSetColumns(t: RecordType, user: UserId)
    ensures ColsAccepted(ServerColumns(t, user))
    ensures forall f :: f in ServerColumns(t, user) <==> t != Item && (f.Owner? || f.DeletedAt?)
    ensures Col(ServerColumns(t, user), DeletedAt) == Null
    ensures !IsWritable(t, Owner) && !IsWritable(t, DeletedAt)
  {
  }

  lemma ColumnsAfterInsert(t: RecordType, data: Cols, user: UserId)
    requires OnlyWritable(t, data) && ColsAccepted(data) && Required(t) <= data.Keys
    ensures RowOk(t, NewColumns(t, data, user)) && Col(NewColumns(t, data, user), DeletedAt) == Null
    ensures t == Item ==> InvoiceId in data && Col(NewColumns(t, data, user), InvoiceId) == data[InvoiceId]
  {
    assert t == Item ==> InvoiceId in data;
    hide FieldAccepts, Defaults, Required, ServerColumns;
    DefaultsAccepted(t);
    ServerSetColumns(t, user);
    var cols := NewColumns(t, data, user);
    assert forall f :: f in cols ==> FieldAccepts(f, cols[f]);
    forall f ensures f in cols <==> IsColumn(t, f) {
      if f in data { assert IsWritable(t, f); }
    }
  }

  lemma DeletedColumns(t: RecordType, cols: Cols, v: Value)
    requires t != Item && RowOk(t, cols) && FieldAccepts(DeletedAt, v)
    ensures RowOk(t, cols[DeletedAt := v])
  {
    hide FieldAccepts, Required, Defaults;
  }

  lemma DeleteKeeps(db: Db, k: Key, tx: Txid)
    requires Consistent(db) && k in db.rows
    ensures Consistent(DeleteRecord(db, k, tx))
  {
    hide RowOk, UpdateRow, DeleteItem, HistoriesOk, TombstonesOk, ItemsOk, IdsOk;
    RowIsOk(db, k);
    if k.t == Item {
      DeleteItemKeeps(db, k, tx);
    } else {
      DeletedColumns(k.t, db.rows[k].cols, At(tx));
      UpdateKeeps(db, k, db.rows[k].cols[DeletedAt := At(tx)], tx);
    }
  }

  lemma RowIsOk(db: Db, k: Key)
    requires HistoriesOk(db) && k in db.rows
    ensures RowOk(k.t, db.rows[k].cols) && db.rows[k].revision > 0
    ensures k.t == Item ==> IsLive(db.rows[k])
  {
    assert HistoryOk(db, k);
    hide FieldAccepts, Required, Defaults, IsWritable;
    if k.t == Item { ServerSetColumns(Item, 0); }
  }

  /** A write that succeeds: the stored columns with the written ones changed, or a new row. */
  lemma WriteKeeps(db: Db, k: Key, data: Cols, user: UserId, tx: Txid)
    requires Consistent(db) && OnlyWritable(k.t, data)
    requires k !in db.rows ==> k !in db.tombstones
    requires WriteRecord(db, k, FindOwned(db, k, user), data, user, tx).Some?
    ensures Consistent(WriteRecord(db, k, FindOwned(db, k, user), data, user, tx).value)
    ensures Owned(db, k, user) ==> RowOk(k.t, db.rows[k].cols + data)
    ensures !Owned(db, k, user) ==> RowOk(k.t, NewColumns(k.t, data, user))
    ensures k.t == Item && InvoiceId in data ==> ActiveInvoice(db, data[InvoiceId], user)
  {
    hide RowOk, UpdateRow, InsertRow, HistoriesOk, TombstonesOk, ItemsOk, IdsOk, Required, Defaults, NewColumns;
    if InvoiceId in data { assert FieldAccepts(InvoiceId, data[InvoiceId]); }
    hide FieldAccepts, ColsAccepted, OnlyWritable;
    if Owned(db, k, user) {
      RowIsOk(db, k);
      ColumnsAfterWrite(k.t, db.rows[k].cols, data);
      if k.t == Item { StaysInInvoice(db, k, data); }
      UpdateKeeps(db, k, db.rows[k].cols + data, tx);
    } else {
      ColumnsAfterInsert(k.t, data, user);
      InsertKeeps(db, k, NewColumns(k.t, data, user), tx);
    }
  }

  lemma StaysInInvoice(db: Db, k: Key, data: Cols)
    requires k in db.rows && k.t == Item && ItemsOk(db)
    requires InvoiceId in data ==> InExistingInvoice(db, data)
    ensures InExistingInvoice(db, db.rows[k].cols + data)
  {
  }

  // ---- each step keeps it ----

  /** The tables a change takes effect on: all but device_changes. */
  predicate SameTables(a: Db, b: Db) {
    && a.rows == b.rows && a.history == b.history && a.tombstones == b.tombstones
    && a.conflicts == b.conflicts && a.nextConflict == b.nextConflict && a.versions == b.versions
    && a.forgotten == b.forgotten
  }

  /** A step that moves only txids, drops tombstones or history, or files conflicts keeps it. */
  lemma FrameKeeps(a: Db, b: Db)
    requires Consistent(a)
    requires a.rows.Keys == b.rows.Keys && b.tombstones.Keys <= a.tombstones.Keys && a.versions == b.versions
    requires a.forgotten <= b.forgotten && a.tombstones.Keys - b.tombstones.Keys <= b.forgotten
    requires forall k :: k in a.rows ==> a.rows[k].cols == b.rows[k].cols && a.rows[k].revision == b.rows[k].revision
    requires forall e :: e in b.history ==> e in a.history && a.history[e] == b.history[e]
    requires forall i :: i in b.conflicts ==> i < b.nextConflict
    ensures Consistent(b)
  {
    FrameHistories(a, b);
    FrameIds(a, b);
    hide HistoryOk, IdsOk, HistoriesOk;
  }

  lemma FrameHistories(a: Db, b: Db)
    requires HistoriesOk(a) && a.rows.Keys == b.rows.Keys && a.versions == b.versions
    requires forall k :: k in a.rows ==> a.rows[k].cols == b.rows[k].cols && a.rows[k].revision == b.rows[k].revision
    requires forall e :: e in b.history ==> e in a.history && a.history[e] == b.history[e]
    ensures HistoriesOk(b)
  {
    hide RowOk, Diff;
    forall k | k in b.rows ensures HistoryOk(b, k) {
      assert HistoryOk(a, k);
      assert SameRecord(a, b, k);
      HistoryFrame(a, b, k);
    }
  }

  lemma FrameIds(a: Db, b: Db)
    requires IdsOk(a) && a.rows.Keys == b.rows.Keys && b.tombstones.Keys <= a.tombstones.Keys && a.versions == b.versions
    requires a.forgotten <= b.forgotten && a.tombstones.Keys - b.tombstones.Keys <= b.forgotten
    requires forall k :: k in a.rows ==> a.rows[k].cols == b.rows[k].cols
    requires forall i :: i in b.conflicts ==> i < b.nextConflict
    ensures IdsOk(b)
  {
  }

  lemma SameTablesConsistent(a: Db, b: Db)
    requires SameTables(a, b) && Consistent(a)
    ensures Consistent(b)
  {
    FrameKeeps(a, b);
  }

  function KeyOf(c: Change): Key
    requires c.id.Some?
  {
    Key(c.t, c.id.value)
  }

  /** The change as it is performed, once its device_changes row is written. */
  function Performed(db: Db, user: UserId, c: Change, protocol: nat, tx: Txid): Result
    requires c.id.Some?
  {
    ProcessChange(WithRecordedChange(db, user, c), user, c, KeyOf(c), protocol, tx)
  }

  /** A push leaves every table as it was, or what performing its change leaves. */
  lemma PushEffect(db: Db, user: UserId, c: Change, protocol: nat, fault: Fault, tx: Txid)
    ensures SameTables(db, WithRecordedChange(db, user, c))
    ensures var p := Push(db, user, c, protocol, fault, tx);
            || SameTables(db, p.db)
            || (&& Validate(c, protocol) == None
                && Performed(db, user, c, protocol, tx).Done?
                && Performed(db, user, c, protocol, tx).outcome == p.outcome && p.outcome.status != Failed
                && SameTables(Performed(db, user, c, protocol, tx).db, p.db))
  {
    hide ProcessChange;
  }

  lemma PerformKeeps(db: Db, user: UserId, k: Key, decision: Decision, tx: Txid)
    requires Consistent(db)
    requires decision.Remove? ==> k in db.rows
    requires decision.Write? ==> OnlyWritable(k.t, decision.fields) && (k !in db.rows ==> k !in db.tombstones)
    ensures var r := Perform(db, user, k, decision, tx); r.Done? ==> Consistent(r.db)
  {
    hide WriteRecord, DeleteRecord, HistoriesOk, TombstonesOk, ItemsOk, IdsOk;
    match decision
    case Raise =>
    case Answer(_) =>
    case Keep(conflict) => AddConflictKeeps(db, conflict);
    case Write(fields, _, _) =>
      if WriteRecord(db, k, FindOwned(db, k, user), fields, user, tx).Some? {
        WriteKeeps(db, k, fields, user, tx);
      }
    case Remove(recoverable) =>
      if recoverable.Some? {
        AddConflictKeeps(db, recoverable.value);
        DeleteKeeps(AddConflict(db, recoverable.value), k, tx);
      } else {
        DeleteKeeps(db, k, tx);
      }
  }

  lemma AddConflictKeeps(db: Db, row: ConflictRow)
    requires Consistent(db)
    ensures Consistent(AddConflict(db, row))
  {
    FrameKeeps(db, AddConflict(db, row));
  }

  lemma DecidedFields(db: Db, user: UserId, c: Change, k: Key, protocol: nat)
    ensures var d := Decide(db, user, c, k, protocol); d.Write? ==> OnlyWritable(k.t, d.fields)
    ensures var d := Decide(db, user, c, k, protocol);
            d.Write? ==> forall f :: f in d.fields ==> f in c.data && d.fields[f] == c.data[f]
  {
    hide IsWritable, FindOwned, IsProtected, IsDeleted, ConflictOf, ChangedSince, HasOpenConflict, SawCurrentParent;
  }

  lemma PushKeeps(db: Db, user: UserId, c: Change, protocol: nat, fault: Fault, tx: Txid)
    requires Consistent(db)
    ensures Consistent(Push(db, user, c, protocol, fault, tx).db)
  {
    hide Push, Consistent, Decide, Perform;
    PushEffect(db, user, c, protocol, fault, tx);
    var p := Push(db, user, c, protocol, fault, tx);
    if SameTables(db, p.db) {
      SameTablesConsistent(db, p.db);
    } else {
      var r := WithRecordedChange(db, user, c);
      SameTablesConsistent(db, r);
      DecidedFields(r, user, c, KeyOf(c), protocol);
      PerformKeeps(r, user, KeyOf(c), Decide(r, user, c, KeyOf(c), protocol), tx);
      SameTablesConsistent(Performed(db, user, c, protocol, tx).db, p.db);
    }
  }
}
