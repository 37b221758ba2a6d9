/** Each write leaves its transaction id on what it changes for a device. */
module DeliveryStamps {
  import opened SyncModel
  import opened SyncInvariant
  import opened Delivery

  lemma ConsistentExclusive(db: Db)
    requires Consistent(db)
    ensures Exclusive(db)
  {
    hide HistoriesOk, IdsOk, ItemsOk, IsLive;
  }

  lemma StampedTransitive(a: Db, b: Db, c: Db, tx: Txid)
    requires Stamped(a, b, tx) && Stamped(b, c, tx)
    ensures Stamped(a, c, tx)
  {
    hide Deliverable;
  }

  /** Tables that differ in neither rows nor tombstones. */
  lemma StampedSame(a: Db, b: Db, tx: Txid)
    requires b.rows == a.rows
    requires forall k :: k in b.tombstones ==> k in a.tombstones && a.tombstones[k] == b.tombstones[k]
    ensures Stamped(a, b, tx)
  {
    SameDeliverable(a, b);
    hide Deliverable;
  }

  lemma SameDeliverable(a: Db, b: Db)
    requires b.rows == a.rows
    ensures forall u, k :: Deliverable(a, u, k) == Deliverable(b, u, k)
  {
    hide IsLive;
  }

  /** A row was written: its own txid is tx unless it is as before; others are as before, but for
    * items that were touched.
    */
  ghost predicate OneWritten(a: Db, b: Db, k: Key, tx: Txid) {
    && k in a.rows && k in b.rows
    && (forall j :: j in b.rows && b.rows[j].txid != tx ==> j in a.rows && a.rows[j] == b.rows[j])
    && Col(b.rows[k].cols, Owner) == Col(a.rows[k].cols, Owner)
    && (forall j :: j in b.rows && j != k ==> j in a.rows && a.rows[j].cols == b.rows[j].cols)
    && (k.t == Invoice && !IsLive(a.rows[k]) && IsLive(b.rows[k]) ==> forall j :: j in b.rows && IsItemOf(j, b.rows[j], k.id) ==> b.rows[j].txid == tx)
    && (forall j :: j in b.tombstones && b.tombstones[j].txid != tx ==> j in a.tombstones && a.tombstones[j] == b.tombstones[j])
  }

  lemma OneWrittenStamps(a: Db, b: Db, k: Key, tx: Txid)
    requires OneWritten(a, b, k, tx)
    ensures Stamped(a, b, tx)
  {
    hide IsLive;
    forall u, j | j in b.rows && Deliverable(b, u, j) && b.rows[j].txid != tx
      ensures j in a.rows && Deliverable(a, u, j) && a.rows[j] == b.rows[j] {
      OneWrittenDeliverable(a, b, k, tx, u, j);
    }
  }

  lemma OneWrittenDeliverable(a: Db, b: Db, k: Key, tx: Txid, u: UserId, j: Key)
    requires OneWritten(a, b, k, tx) && j in b.rows && Deliverable(b, u, j) && b.rows[j].txid != tx
    ensures Deliverable(a, u, j)
  {
    assert a.rows[j] == b.rows[j];
    if j.t == Item {
      var i := Key(Invoice, Col(b.rows[j].cols, InvoiceId).id);
      assert i in a.rows;
    }
  }

  /** The tombstone trigger touches no columns, and items only when it revives their invoice. */
  lemma TombstoneStamps(b: Db, k: Key, before: Row, tx: Txid)
    requires k in b.rows
    ensures var d := TombstoneOnUpdate(b, k, before, tx);
            && d.rows.Keys == b.rows.Keys
            && (forall j :: j in b.rows ==> d.rows[j].cols == b.rows[j].cols && (d.rows[j] == b.rows[j] || d.rows[j].txid == tx))
            && (k.t == Invoice && !IsLive(before) && IsLive(b.rows[k]) ==>
                  forall j :: j in d.rows && IsItemOf(j, d.rows[j], k.id) ==> d.rows[j].txid == tx)
            && (forall j :: j in d.tombstones && d.tombstones[j].txid != tx ==> j in b.tombstones && b.tombstones[j] == d.tombstones[j])
  {
    hide UserOf, IsLive;
    if IsLive(before) && !IsLive(b.rows[k]) {
    } else if !IsLive(before) && IsLive(b.rows[k]) {
      if k.t == Invoice {
        var touched := TouchItems(b.rows, k.id, tx);
        assert TombstoneOnUpdate(b, k, before, tx) == b.(tombstones := b.tombstones - {k}, rows := touched);
      } else {
        assert TombstoneOnUpdate(b, k, before, tx) == b.(tombstones := b.tombstones - {k}, rows := b.rows);
      }
    } else {
    }
  }

  lemma UpdateWrites(db: Db, k: Key, cols: Cols, tx: Txid)
    requires k in db.rows && Col(cols, Owner) == Col(db.rows[k].cols, Owner)
    requires RowOk(k.t, cols) && RowOk(k.t, db.rows[k].cols)
    ensures OneWritten(db, UpdateRow(db, k, cols, tx), k, tx)
  {
    hide RowOk, BumpRevision, TombstoneOnUpdate, IsItemOf, IsLive;
    BumpShape(db, k, cols, tx);
    BumpStamps(db, k, cols, tx);
    var b := BumpRevision(db, k, cols, tx);
    TombstoneStamps(b, k, db.rows[k], tx);
    var d := UpdateRow(db, k, cols, tx);
    assert IsLive(d.rows[k]) == IsLive(b.rows[k]) by { LiveByColumns(d.rows[k], b.rows[k]); }
  }

  lemma LiveByColumns(a: Row, b: Row)
    requires a.cols == b.cols
    ensures IsLive(a) == IsLive(b)
  {
  }

  lemma BumpStamps(db: Db, k: Key, cols: Cols, tx: Txid)
    requires k in db.rows
    ensures var b := BumpRevision(db, k, cols, tx); k in b.rows && (b.rows[k] == db.rows[k] || b.rows[k].txid == tx)
  {
    hide Diff, VersionsOf;
  }

  lemma UpdateStamps(db: Db, k: Key, cols: Cols, tx: Txid)
    requires k in db.rows && Col(cols, Owner) == Col(db.rows[k].cols, Owner)
    requires RowOk(k.t, cols) && RowOk(k.t, db.rows[k].cols)
    ensures Stamped(db, UpdateRow(db, k, cols, tx), tx)
  {
    hide UpdateRow, RowOk, OneWritten;
    UpdateWrites(db, k, cols, tx);
    OneWrittenStamps(db, UpdateRow(db, k, cols, tx), k, tx);
  }

  lemma InsertStamps(db: Db, k: Key, cols: Cols, tx: Txid)
    requires Consistent(db) && k !in db.rows
    ensures Stamped(db, InsertRow(db, k, cols, tx), tx)
  {
    var d := InsertRow(db, k, cols, tx);
    hide HistoriesOk, IdsOk, TombstonesOk;
    forall u, j | j in d.rows && Deliverable(d, u, j) && d.rows[j].txid != tx
      ensures j in db.rows && Deliverable(db, u, j) && db.rows[j] == d.rows[j] {
      assert j != k;
    }
  }

  lemma DeleteItemStamps(db: Db, k: Key, tx: Txid)
    requires k in db.rows && k.t == Item
    ensures Stamped(db, DeleteItem(db, k, tx), tx)
  {
    var d := DeleteItem(db, k, tx);
    hide UserOf;
    forall u, j | j in d.rows && Deliverable(d, u, j) && d.rows[j].txid != tx
      ensures j in db.rows && Deliverable(db, u, j) && db.rows[j] == d.rows[j] {
    }
  }
}
