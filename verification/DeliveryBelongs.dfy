/** Each write leaves a record with its owner: live and the owner's, or tombstoned for the owner. */
module DeliveryBelongs {
  import opened SyncModel
  import opened SyncInvariant
  import opened Delivery
  import opened DeliveryStamps

  /** The id is the user's: a live record of theirs, or one tombstoned for them. */
  predicate Belongs(db: Db, user: UserId, k: Key) {
    && k in db.versions
    && (k in db.rows ==> Owned(db, k, user))
    && (k in db.tombstones ==> db.tombstones[k].user == user)
    && ((k in db.rows && IsLive(db.rows[k])) || k in db.tombstones)
  }

  ghost predicate Kept(a: Db, b: Db) {
    forall u, k :: Belongs(a, u, k) ==> Belongs(b, u, k)
  }

  predicate SameInvoice(a: Db, b: Db, k: Key) {
    k in a.rows && k in b.rows && Col(a.rows[k].cols, InvoiceId) == Col(b.rows[k].cols, InvoiceId)
  }

  /** The invoice is somebody's: live, or tombstoned for its owner. */
  ghost predicate IsSomebodys(db: Db, invoice: Value) {
    invoice.Ref? && exists u :: Belongs(db, u, Key(Invoice, invoice.id))
  }

  /** A line is in the invoice it was in, or in one that is not deleted without a tombstone. */
  ghost predicate Joins(a: Db, b: Db) {
    forall k: Key :: k.t == Item && k in b.rows && !SameInvoice(a, b, k) ==> IsSomebodys(b, Col(b.rows[k].cols, InvoiceId))
  }

  ghost predicate Follows(a: Db, b: Db, tx: Txid) {
    Stamped(a, b, tx) && Kept(a, b) && Joins(a, b)
  }

  lemma JoinsTransitive(a: Db, b: Db, c: Db)
    requires Joins(a, b) && Joins(b, c) && Kept(b, c)
    ensures Joins(a, c)
  {
    hide Belongs;
    forall k: Key | k.t == Item && k in c.rows && !SameInvoice(a, c, k) ensures IsSomebodys(c, Col(c.rows[k].cols, InvoiceId)) {
      if SameInvoice(b, c, k) {
        assert !SameInvoice(a, b, k);
        StaysSomebodys(b, c, Col(b.rows[k].cols, InvoiceId));
      }
    }
  }

  lemma StaysSomebodys(a: Db, b: Db, invoice: Value)
    requires IsSomebodys(a, invoice) && Kept(a, b)
    ensures IsSomebodys(b, invoice)
  {
    hide Belongs;
    var u :| Belongs(a, u, Key(Invoice, invoice.id));
    assert Belongs(b, u, Key(Invoice, invoice.id));
  }

  /** An active invoice is its owner's. */
  lemma ActiveIsSomebodys(db: Db, invoice: Value, user: UserId)
    requires Consistent(db) && ActiveInvoice(db, invoice, user)
    ensures IsSomebodys(db, invoice)
  {
    hide HistoriesOk, ItemsOk;
    assert Belongs(db, user, Key(Invoice, invoice.id));
  }

  lemma FollowsTransitive(a: Db, b: Db, c: Db, tx: Txid)
    requires Follows(a, b, tx) && Follows(b, c, tx)
    ensures Follows(a, c, tx)
  {
    hide Stamped, Belongs, Joins;
    StampedTransitive(a, b, c, tx);
    JoinsTransitive(a, b, c);
  }

  /** Nothing a device is told about changes. */
  lemma FollowsSame(a: Db, b: Db, tx: Txid)
    requires b.rows == a.rows && b.tombstones == a.tombstones && a.versions == b.versions
    ensures Follows(a, b, tx)
  {
    hide Stamped, IsLive;
    StampedSame(a, b, tx);
  }

  /** The same columns everywhere. */
  lemma KeptByColumns(a: Db, b: Db)
    requires b.rows.Keys == a.rows.Keys && forall k :: k in a.rows ==> b.rows[k].cols == a.rows[k].cols
    requires b.tombstones == a.tombstones && a.versions == b.versions
    ensures Kept(a, b) && Joins(a, b)
  {
  }

  /** Where an item goes, its owner stays the same, and it goes to an invoice that is somebody's. */
  ghost predicate SameOwner(db: Db, k: Key, cols: Cols)
    requires k in db.rows
  {
    k.t == Item ==>
      && Col(cols, InvoiceId).Ref? && (forall u :: Owned(db, k, u) ==> OwnedInvoiceRow(db, Col(cols, InvoiceId).id, u))
      && (Col(cols, InvoiceId) == Col(db.rows[k].cols, InvoiceId) || IsSomebodys(db, Col(cols, InvoiceId)))
  }

  lemma TombstoneUser(db: Db, k: Key, cols: Cols, tx: Txid)
    requires k in db.rows && RowOk(k.t, cols) && RowOk(k.t, db.rows[k].cols)
    ensures var d := UpdateRow(db, k, cols, tx);
            k in d.tombstones ==> d.tombstones[k].user == if k in db.tombstones then db.tombstones[k].user else UserOf(cols)
  {
    hide RowOk, BumpRevision, TouchItems, UserOf;
    BumpShape(db, k, cols, tx);
  }

  lemma NoItemDeleted(t: RecordType, cols: Cols)
    requires RowOk(t, cols)
    ensures t == Item ==> Col(cols, DeletedAt) == Null
  {
    hide ColsAccepted;
    assert t == Item ==> !IsColumn(t, DeletedAt);
  }

  lemma UpdateKept(db: Db, k: Key, cols: Cols, tx: Txid)
    requires k in db.rows && Col(cols, Owner) == Col(db.rows[k].cols, Owner)
    requires RowOk(k.t, cols) && RowOk(k.t, db.rows[k].cols) && SameOwner(db, k, cols)
    ensures Kept(db, UpdateRow(db, k, cols, tx))
  {
    hide RowOk, UpdateRow;
    var d := UpdateRow(db, k, cols, tx);
    UpdateShape(db, k, cols, tx);
    TombstoneUser(db, k, cols, tx);
    NoItemDeleted(k.t, cols);
    NoItemDeleted(k.t, db.rows[k].cols);
    forall u, j | Belongs(db, u, j) ensures Belongs(d, u, j) {
      UpdatedBelongs(db, d, k, cols, u, j);
    }
  }

  lemma UpdatedOwned(db: Db, d: Db, k: Key, cols: Cols, u: UserId, j: Key)
    requires Updated(db, d, k, cols) && SameOwner(db, k, cols) && Col(cols, Owner) == Col(db.rows[k].cols, Owner)
    requires Owned(db, j, u)
    ensures Owned(d, j, u)
  {
    if j.t == Item {
      var i := Key(Invoice, Col(d.rows[j].cols, InvoiceId).id);
      assert i in d.rows;
    }
  }

  lemma UpdatedBelongs(db: Db, d: Db, k: Key, cols: Cols, u: UserId, j: Key)
    requires Updated(db, d, k, cols) && SameOwner(db, k, cols) && Col(cols, Owner) == Col(db.rows[k].cols, Owner)
    requires k in d.tombstones ==> d.tombstones[k].user == if k in db.tombstones then db.tombstones[k].user else UserOf(cols)
    requires k.t == Item ==> Col(cols, DeletedAt) == Null && Col(db.rows[k].cols, DeletedAt) == Null
    requires Belongs(db, u, j)
    ensures Belongs(d, u, j)
  {
    if j in db.rows { UpdatedOwned(db, d, k, cols, u, j); }
    hide SameOwner, Owned;
    if j == k && k.t != Item { OwnerIs(db, k, u); }
  }

  lemma OwnerIs(db: Db, k: Key, u: UserId)
    requires Owned(db, k, u) && k.t != Item
    ensures UserOf(db.rows[k].cols) == u && forall cols :: Col(cols, Owner) == Col(db.rows[k].cols, Owner) ==> UserOf(cols) == u
  {
  }

  lemma UpdateFollows(db: Db, k: Key, cols: Cols, tx: Txid)
    requires k in db.rows && Col(cols, Owner) == Col(db.rows[k].cols, Owner)
    requires RowOk(k.t, cols) && RowOk(k.t, db.rows[k].cols) && SameOwner(db, k, cols)
    ensures Follows(db, UpdateRow(db, k, cols, tx), tx)
  {
    hide UpdateRow, RowOk, Stamped, Kept, SameOwner, Joins;
    UpdateStamps(db, k, cols, tx);
    UpdateKept(db, k, cols, tx);
    UpdateJoins(db, k, cols, tx);
  }

  lemma UpdateJoins(db: Db, k: Key, cols: Cols, tx: Txid)
    requires k in db.rows && RowOk(k.t, cols) && RowOk(k.t, db.rows[k].cols) && SameOwner(db, k, cols)
    requires Kept(db, UpdateRow(db, k, cols, tx))
    ensures Joins(db, UpdateRow(db, k, cols, tx))
  {
    hide UpdateRow, RowOk, Belongs, Kept, IsSomebodys, Owned;
    UpdateShape(db, k, cols, tx);
    if k.t == Item && IsSomebodys(db, Col(cols, InvoiceId)) {
      StaysSomebodys(db, UpdateRow(db, k, cols, tx), Col(cols, InvoiceId));
    }
  }

  lemma InsertFollows(db: Db, k: Key, cols: Cols, tx: Txid)
    requires Consistent(db) && k !in db.rows && k !in db.tombstones && (k.t == Item ==> IsSomebodys(db, Col(cols, InvoiceId)))
    ensures Follows(db, InsertRow(db, k, cols, tx), tx)
  {
    hide Consistent, Stamped, IsLive, IsSomebodys;
    InsertStamps(db, k, cols, tx);
    if k.t == Item { StaysSomebodys(db, InsertRow(db, k, cols, tx), Col(cols, InvoiceId)); }
  }

  lemma DeleteItemFollows(db: Db, k: Key, tx: Txid)
    requires k in db.rows && k.t == Item
    ensures Follows(db, DeleteItem(db, k, tx), tx)
  {
    hide Stamped, IsLive;
    DeleteItemStamps(db, k, tx);
  }
}
