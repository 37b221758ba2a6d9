/** From a stale edit to its owner's decision: which of the values a device sent reach the record when the
  * edit was kept as a conflict and the device's version is applied.
  */
module SyncDeviceVersion {
  import opened Basics
  import opened SyncModel
  import opened SyncPush
  import opened SyncConflicts
  import opened SyncInvariant
  import opened SyncResolution
  import opened SyncTotals
  import opened SyncApplied
  import opened SyncAccepted
  import InvoiceTotals

  // ---- what a conflict keeps ----

  /** The columns applying a device's version writes: all it may send but the amounts derived from the lines
    * and an invoice's metadata.
    */
  function AppliedColumns(t: RecordType): set<Field> {
    match t
    case Client => {Name, Email, Phone, AddressJson, TagsJson, AvatarUrl, Notes}
    case Invoice => {ClientId, Kind, Number, InvoiceStatus, IssueDate, DueDate, Currency, Notes}
    case Item => {InvoiceId, Description, Quantity, UnitPrice, TaxRate, DiscountRate}
  }

  /** A value as a conflict keeps it: a text is cut after 2000 characters, a JSON value over 4000 replaced. */
  function Limited(v: Value): Value {
    if v.Text? && |v.text| > 2000 then Text(v.text[..2000] + "\U{2026} [truncated]")
    else if v.JsonText? && |v.text| > 4000 then Text("[value too large to keep]")
    else v
  }

  lemma AppliedAre(t: RecordType, f: Field)
    ensures f in AppliedColumns(t) <==> IsWritable(t, f) && ConflictKeeps(t, f) && f !in Derived(t)
  {
    hide IsWritable, AppliedColumns, ConflictKeeps, Derived, SentColumns;
    SentAreWritable(t, f);
    match t
    case Client => AppliedOfClient(f);
    case Invoice => AppliedOfInvoice(f);
    case Item => AppliedOfItem(f);
  }

  lemma AppliedOfClient(f: Field)
    ensures f in AppliedColumns(Client) <==> f in SentColumns(Client) && ConflictKeeps(Client, f) && f !in Derived(Client)
  {
  }

  lemma AppliedOfInvoice(f: Field)
    ensures f in AppliedColumns(Invoice) <==> f in SentColumns(Invoice) && ConflictKeeps(Invoice, f) && f !in Derived(Invoice)
  {
  }

  lemma AppliedOfItem(f: Field)
    ensures f in AppliedColumns(Item) <==> f in SentColumns(Item) && ConflictKeeps(Item, f) && f !in Derived(Item)
  {
  }

  /** A conflict keeps every column a device may send but an invoice's metadata, each with its limited value, and
    * nothing else of what came with the change.
    */
  lemma KeptColumns(t: RecordType, data: map<Field, Value>, f: Field)
    ensures f in ConflictFields(t, data) <==> f in data && f in SentColumns(t) && f != MetadataJson
    ensures f in ConflictFields(t, data) ==> ConflictFields(t, data)[f] == Limited(data[f])
  {
    match t
    case Client => KeptOfClient(f);
    case Invoice => KeptOfInvoice(f);
    case Item => KeptOfItem(f);
    hide ConflictKeeps, SentColumns;
  }

  lemma KeptOfClient(f: Field)
    ensures ConflictKeeps(Client, f) <==> f in SentColumns(Client) && f != MetadataJson
  {
  }

  lemma KeptOfInvoice(f: Field)
    ensures ConflictKeeps(Invoice, f) <==> f in SentColumns(Invoice) && f != MetadataJson
  {
  }

  lemma KeptOfItem(f: Field)
    ensures ConflictKeeps(Item, f) <==> f in SentColumns(Item) && f != MetadataJson
  {
  }

  /** Of what was sent, exactly these columns are kept and applied, each with its limited value. */
  lemma KeptValues(t: RecordType, data: map<Field, Value>, f: Field)
    ensures f in EditableFields(t, ConflictFields(t, data)) <==> f in data && f in AppliedColumns(t)
    ensures f in data && f in AppliedColumns(t) ==> EditableFields(t, ConflictFields(t, data))[f] == Limited(data[f])
  {
    AppliedAre(t, f);
    hide IsWritable, ConflictKeeps, Derived, AppliedColumns;
  }

  /** Such a value is the one sent, exactly unless it is a text over 2000 characters or a JSON value over 4000:
    * then the owner gets the cut text, or a note.
    */
  lemma LongTextIsCut(t: RecordType, data: map<Field, Value>, f: Field)
    requires f in data && f in AppliedColumns(t)
    ensures f in EditableFields(t, ConflictFields(t, data))
    ensures EditableFields(t, ConflictFields(t, data))[f] == data[f]
            <==> !(data[f].Text? && |data[f].text| > 2000 && data[f].text[2000..] != "\U{2026} [truncated]")
                 && !(data[f].JsonText? && |data[f].text| > 4000)
  {
    KeptValues(t, data, f);
    hide AppliedColumns;
    var v := data[f];
    if v.Text? && |v.text| > 2000 {
      assert v.text == v.text[..2000] + v.text[2000..];
      SameTail(v.text[..2000], v.text[2000..], "\U{2026} [truncated]");
    }
  }

  lemma SameTail(start: string, a: string, b: string)
    ensures start + a == start + b <==> a == b
  {
    assert (start + a)[|start|..] == a && (start + b)[|start|..] == b;
  }

  // ---- when it can be applied ----

  /** Applying the device's version succeeds exactly on an open stale edit of the user, while the record is the
    * user's, live, at the revision reviewed and not in a protected invoice, and the kept values fit.
    */
  lemma ApplyAccepted(db: Db, user: UserId, id: Id, expected: Option<nat>, tx: Txid)
    ensures Resolve(db, user, id, ApplyClient, expected, tx).Some? <==>
              && id in db.conflicts
              && var conflict := db.conflicts[id];
              && conflict.user == user && conflict.status == Open && conflict.kind == StaleEdit
              && Owned(db, conflict.key, user) && IsLive(db.rows[conflict.key])
              && expected == Some(db.rows[conflict.key].revision)
              && var kept := EditableFields(conflict.key.t, conflict.clientFields);
              && !IsProtectedChange(db, user, conflict.key, kept) && FitsColumns(db, user, conflict.key.t, kept)
  {
    hide ApplyDevice, Owned, IsProtectedChange, FitsColumns, EditableFields, TouchForDelivery;
    if id in db.conflicts && expected.Some? {
      var conflict := db.conflicts[id];
      OwnedRowExists(db, conflict.key, user);
      DeviceApplies(db, conflict, user, expected.value, tx);
    }
  }

  lemma DeviceApplies(db: Db, conflict: ConflictRow, user: UserId, expected: nat, tx: Txid)
    ensures ApplyDevice(db, conflict, user, expected, tx).Some? <==>
              && Owned(db, conflict.key, user) && IsLive(db.rows[conflict.key]) && db.rows[conflict.key].revision == expected
              && var kept := EditableFields(conflict.key.t, conflict.clientFields);
              && !IsProtectedChange(db, user, conflict.key, kept) && FitsColumns(db, user, conflict.key.t, kept)
  {
    var k := conflict.key;
    var kept := EditableFields(k.t, conflict.clientFields);
    hide EditableFields, IsProtectedChange, FitsColumns, WriteRecord, Owned, IsProtected, Recompute, LineOf, InvoiceTotals.LineTotal, IsLive;
    OwnedRowExists(db, k, user);
    EditedAgain(k.t, conflict.clientFields);
    ProtectedIs(db, user, k, kept);
    WriteAccepted(db, k, kept, user, tx);
    if Owned(db, k, user) {
      var v := InvoiceTotals.LineTotal(LineOf(db.rows[k].cols + kept));
      WriteAccepted(db, k, kept[LineTotal := Num(v)], user, tx);
      LineTotalFits(db, user, k.t, kept, v);
    }
  }

  lemma EditedAgain(t: RecordType, fields: map<Field, Value>)
    ensures WritableFields(t, EditableFields(t, fields)) == EditableFields(t, fields) && LineTotal !in EditableFields(Item, fields)
  {
    hide IsWritable;
  }

  lemma LineTotalFits(db: Db, user: UserId, t: RecordType, fields: Cols, v: real)
    requires t == Item ==> LineTotal !in fields
    ensures t == Item ==> (FitsColumns(db, user, t, fields[LineTotal := Num(v)]) <==> FitsColumns(db, user, t, fields))
  {
    hide IsUsable;
    assert LineTotal in Takers(Num(v));
    hide Takers;
    if t == Item && FitsColumns(db, user, t, fields[LineTotal := Num(v)]) {
      forall f | f in fields ensures f in Takers(fields[f]) {
        assert f in fields[LineTotal := Num(v)];
      }
    }
  }

  // ---- a line's total ----

  /** The total of a line is its quantity times its price, less its discount and plus its tax, in cents. */
  ghost predicate HasLineTotal(cols: Cols) {
    && Col(cols, LineTotal).Num?
    && InvoiceTotals.IsRounded(
         Col(cols, LineTotal).x,
         InvoiceTotals.TaxedAmount(NumOf(Col(cols, Quantity)), NumOf(Col(cols, UnitPrice)), NumOf(Col(cols, TaxRate)), NumOf(Col(cols, DiscountRate))))
  }

  lemma FreshTotal(cols: Cols)
    requires Col(cols, LineTotal) == Num(InvoiceTotals.LineTotal(LineOf(cols)))
    ensures HasLineTotal(cols)
  {
    hide InvoiceTotals.ExactLineTotal, InvoiceTotals.Round, InvoiceTotals.IsRounded, InvoiceTotals.TaxedAmount, NumOf;
    InvoiceTotals.LineTotalIsProduct(LineOf(cols));
    InvoiceTotals.RoundIsRounded(InvoiceTotals.ExactLineTotal(LineOf(cols)));
  }

  lemma SameLine(cols: Cols, v: Value)
    ensures LineOf(cols[LineTotal := v]) == LineOf(cols)
  {
  }

  /** Applying leaves a line with its total computed anew, from the values it then has. */
  lemma AppliedTotal(db: Db, user: UserId, id: Id, expected: Option<nat>, tx: Txid)
    requires Consistent(db) && Resolve(db, user, id, ApplyClient, expected, tx).Some? && db.conflicts[id].key.t == Item
    ensures var k, d := db.conflicts[id].key, Resolve(db, user, id, ApplyClient, expected, tx).value;
            k in d.rows && HasLineTotal(d.rows[k].cols)
  {
    hide Consistent, ApplyDevice, EditableFields, TotalsMatch, LineOf, InvoiceTotals.LineTotal, ActiveInvoice, HasLineTotal;
    var conflict := db.conflicts[id];
    var k := conflict.key;
    ApplyLine(db, conflict, user, expected.value, tx);
    var cols := db.rows[k].cols + EditableFields(Item, conflict.clientFields);
    var v := Num(InvoiceTotals.LineTotal(LineOf(cols)));
    SameLine(cols, v);
    FreshTotal(cols[LineTotal := v]);
    assert cols[LineTotal := v] == db.rows[k].cols + EditableFields(Item, conflict.clientFields)[LineTotal := v];
    TouchedRows(ApplyDevice(db, conflict, user, expected.value, tx).value, k, tx);
  }

  // ---- end to end ----

  /** What applying leaves in the record: of the columns the kept values write, those values, of all others but
    * derived amounts what was stored.
    */
  lemma AppliedLeaves(db: Db, user: UserId, id: Id, expected: Option<nat>, tx: Txid, f: Field)
    requires Consistent(db) && Resolve(db, user, id, ApplyClient, expected, tx).Some?
    requires f !in Derived(Invoice) && f != LineTotal
    ensures var k, d := db.conflicts[id].key, Resolve(db, user, id, ApplyClient, expected, tx).value;
            && k in db.rows && k in d.rows
            && Col(d.rows[k].cols, f) == Col(db.rows[k].cols + EditableFields(k.t, db.conflicts[id].clientFields), f)
  {
    hide Consistent, Resolve, ApplyDevice, EditableFields, TouchForDelivery, Derived;
    ApplyIsActed(db, user, id, expected, tx);
    RecordApplied(db, db.conflicts[id], user, expected.value, tx, f);
    TouchedRows(ApplyDevice(db, db.conflicts[id], user, expected.value, tx).value, db.conflicts[id].key, tx);
  }

  lemma ApplyIsActed(db: Db, user: UserId, id: Id, expected: Option<nat>, tx: Txid)
    requires Resolve(db, user, id, ApplyClient, expected, tx).Some?
    ensures expected.Some? && id in db.conflicts
    ensures var acted, d := ApplyDevice(db, db.conflicts[id], user, expected.value, tx), Resolve(db, user, id, ApplyClient, expected, tx).value;
            acted.Some? && d.rows == TouchForDelivery(acted.value, db.conflicts[id].key, tx).rows
  {
    hide ApplyDevice;
  }

  lemma RecordApplied(db: Db, conflict: ConflictRow, user: UserId, expected: nat, tx: Txid, f: Field)
    requires Consistent(db) && ApplyDevice(db, conflict, user, expected, tx).Some?
    requires f !in Derived(Invoice) && f != LineTotal
    ensures var k, d := conflict.key, ApplyDevice(db, conflict, user, expected, tx).value;
            && k in db.rows && k in d.rows
            && Col(d.rows[k].cols, f) == Col(db.rows[k].cols + EditableFields(k.t, conflict.clientFields), f)
  {
    hide Consistent, ApplyDevice, EditableFields, TotalsMatch, LineOf, InvoiceTotals.LineTotal, ActiveInvoice, Derived;
    if conflict.key.t == Item {
      ApplyLine(db, conflict, user, expected, tx);
    } else {
      ApplyColumns(db, conflict, user, expected, tx, f);
    }
  }

  /** A stale edit, sent for the first time and kept as a conflict, and in any later state in which the conflict
    * is as it was, its device's version applied: every column it sent holds the value sent, but for the
    * amounts derived from lines and an invoice's metadata, and up to the two limits; no other column changes.
    */
  lemma DeviceVersionApplied(db: Db, user: UserId, c: Change, tx: Txid, later: Db, expected: Option<nat>, resolving: Txid, f: Field)
    requires Consistent(db) && c.kind != Delete && IsWellFormed(c, 2) && IsNew(db, user, c)
    requires Push(db, user, c, 2, NoFault, tx).outcome.status == Conflicted
    requires var p := Push(db, user, c, 2, NoFault, tx).db;
             && Consistent(later) && db.nextConflict in p.conflicts && db.nextConflict in later.conflicts
             && later.conflicts[db.nextConflict] == p.conflicts[db.nextConflict]
    requires Resolve(later, user, db.nextConflict, ApplyClient, expected, resolving).Some?
    ensures var k, d := KeyOf(c), Resolve(later, user, db.nextConflict, ApplyClient, expected, resolving).value;
            && k in later.rows && k in d.rows
            && (f in c.data && f in AppliedColumns(k.t) ==> f in d.rows[k].cols && d.rows[k].cols[f] == Limited(c.data[f]))
            && (!(f in c.data && f in AppliedColumns(k.t)) && f !in Derived(Invoice) && f != LineTotal ==>
                  Col(d.rows[k].cols, f) == Col(later.rows[k].cols, f))
            && d.conflicts[db.nextConflict].status == SyncModel.Resolved
            && (k.t == Item ==> HasLineTotal(d.rows[k].cols))
  {
    hide Push, Resolve, Consistent, Limited, AppliedColumns, Derived, EditableFields, ConflictFields, IsOfKind, HasLineTotal;
    KeptAsSent(db, user, c, 2, tx);
    var k, d := KeyOf(c), Resolve(later, user, db.nextConflict, ApplyClient, expected, resolving).value;
    KeptValues(k.t, c.data, f);
    NotDerivedWhenApplied(k.t, f);
    ClosedAs(later, user, db.nextConflict, expected, resolving);
    if f !in Derived(Invoice) && f != LineTotal {
      AppliedLeaves(later, user, db.nextConflict, expected, resolving, f);
    } else {
      AppliedLeaves(later, user, db.nextConflict, expected, resolving, Name);
    }
    FitsIfApplied(later, user, db.nextConflict, expected, resolving, k, f, d);
    if k.t == Item { AppliedTotal(later, user, db.nextConflict, expected, resolving); }
  }

  lemma NotDerivedWhenApplied(t: RecordType, f: Field)
    ensures f in AppliedColumns(t) ==> f !in Derived(Invoice) && f != LineTotal
    ensures Name !in Derived(Invoice)
  {
  }

  lemma ClosedAs(db: Db, user: UserId, id: Id, expected: Option<nat>, tx: Txid)
    requires Resolve(db, user, id, ApplyClient, expected, tx).Some?
    ensures var d := Resolve(db, user, id, ApplyClient, expected, tx).value; id in d.conflicts && d.conflicts[id].status == SyncModel.Resolved
  {
    hide ApplyDevice, TouchForDelivery;
  }

  /** A column a device may set is in every stored row. */
  lemma FitsIfApplied(db: Db, user: UserId, id: Id, expected: Option<nat>, tx: Txid, k: Key, f: Field, d: Db)
    requires Consistent(db) && Resolve(db, user, id, ApplyClient, expected, tx) == Some(d) && k in d.rows
    ensures f in AppliedColumns(k.t) ==> f in d.rows[k].cols
  {
    ResolveKeeps(db, user, id, ApplyClient, expected, tx);
    hide Resolve, TombstonesOk, ItemsOk, IdsOk;
    RowIsOk(d, k);
    AppliedAre(k.t, f);
    hide HistoriesOk, AppliedColumns, IsWritable, ColsAccepted;
  }
}
