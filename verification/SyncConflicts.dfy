/** Resolution of a conflict by its owner. */
module SyncConflicts {
  import opened Basics
  import opened SyncModel
  import opened SyncPush
  import InvoiceTotals

  datatype Action = ApplyClient | Restore | Dismiss

  /** Actions the kind of conflict allows, besides dismissing it. */
  predicate Allows(kind: ConflictKind, action: Action) {
    match kind
    case StaleEdit => action == ApplyClient
    case ProtectedInvoice => false
    case EditAfterDelete => action == Restore
    case DeleteAfterEdit => action == Restore
  }

  /** Amounts a resolution never takes from the device. */
  function Derived(t: RecordType): set<Field> {
    match t
    case Client => {}
    case Invoice => {Subtotal, TaxTotal, DiscountTotal, Total}
    case Item => {LineTotal}
  }

  function EditableFields(t: RecordType, fields: map<Field, Value>): Cols {
    WritableFields(t, fields) - Derived(t)
  }

  // ---- amounts derived from the lines ----

  function NumOf(v: Value): real {
    if v.Num? then v.x else 0.0
  }

  function LineOf(cols: Cols): InvoiceTotals.Line {
    InvoiceTotals.Line(NumOf(Col(cols, Quantity)), NumOf(Col(cols, UnitPrice)), NumOf(Col(cols, TaxRate)), NumOf(Col(cols, DiscountRate)))
  }

  function ItemsOf(rows: map<Key, Row>, invoice: Id): set<Id> {
    set k | k in rows && IsItemOf(k, rows[k], invoice) :: k.id
  }

  /** The ids in increasing order. */
  ghost function Sorted(ids: set<Id>): seq<Id>
  {
    if ids == {} then [] else
      var least := Least(ids);
      [least] + Sorted(ids - {least})
  }

  ghost function Least(ids: set<Id>): (least: Id)
    requires ids != {}
    ensures least in ids && forall i :: i in ids ==> least <= i
  {
    LeastExists(ids);
    var m :| m in ids && IsLeast(m, ids);
    m
  }

  lemma {:induction false} LeastExists(ids: set<Id>)
    requires ids != {}
    ensures exists m :: m in ids && IsLeast(m, ids)
  {
    var x :| x in ids;
    var rest := ids - {x};
    if rest == {} {
      assert ids == {x};
      assert IsLeast(x, ids);
    } else {
      LeastExists(rest);
      var m :| m in rest && IsLeast(m, rest);
      assert ids == rest + {x};
      assert IsLeast(if m <= x then m else x, ids);
    }
  }

  predicate IsLeast(m: Id, ids: set<Id>) {
    forall i :: i in ids ==> m <= i
  }

  /** The lines of an invoice, in the order the database returns them; the totals do not depend
    * on it (InvoiceTotals.TotalsOrderIrrelevant).
    */
  ghost function Lines(rows: map<Key, Row>, ids: seq<Id>): seq<InvoiceTotals.Line> {
    seq(|ids|, i requires 0 <= i < |ids| => LineAt(rows, ids[i]))
  }

  function LineAt(rows: map<Key, Row>, id: Id): InvoiceTotals.Line {
    LineOf(if Key(Item, id) in rows then rows[Key(Item, id)].cols else map[])
  }

  ghost function LinesOf(rows: map<Key, Row>, invoice: Id): seq<InvoiceTotals.Line> {
    Lines(rows, Sorted(ItemsOf(rows, invoice)))
  }

  lemma {:induction false} SortedIsAll(ids: set<Id>)
    ensures multiset(Sorted(ids)) == multiset(ids)
  {
    if ids != {} {
      var least := Least(ids);
      SortedIsAll(ids - {least});
      assert multiset(ids) == multiset(ids - {least}) + multiset{least};
    }
  }

  lemma LinesWithout(rows: map<Key, Row>, ids: seq<Id>, i: nat)
    requires i < |ids|
    ensures multiset(Lines(rows, ids)) == multiset(Lines(rows, ids[..i] + ids[i + 1..])) + multiset{LineAt(rows, ids[i])}
  {
    hide LineAt;
    var all := Lines(rows, ids);
    WithoutOne(all, i);
    assert all[i] in multiset(all);
    var rest := Lines(rows, ids[..i] + ids[i + 1..]);
    assert rest == all[..i] + all[i + 1..];
  }

  /** The same ids in another order give the same lines in another order. */
  lemma {:induction false} LinesInAnyOrder(rows: map<Key, Row>, a: seq<Id>, b: seq<Id>)
    requires multiset(a) == multiset(b)
    ensures multiset(Lines(rows, a)) == multiset(Lines(rows, b))
    decreases |a|
  {
    hide Lines;
    assert |a| == |multiset(a)| == |multiset(b)| == |b|;
    if a == [] {
      assert a == b;
    } else {
      assert a[0] in multiset(b);
      var i :| 0 <= i < |b| && b[i] == a[0];
      WithoutOne(a, 0);
      WithoutOne(b, i);
      LinesInAnyOrder(rows, a[..0] + a[1..], b[..i] + b[i + 1..]);
      LinesWithout(rows, a, 0);
      LinesWithout(rows, b, i);
    }
  }

  function TotalColumns(totals: InvoiceTotals.Totals): Cols {
    map[Subtotal := Num(totals.subtotal), TaxTotal := Num(totals.taxTotal),
        DiscountTotal := Num(totals.discountTotal), Total := Num(totals.total)]
  }

  /** Recompute the totals of an active invoice from its lines; without lines only if asked to. */
  ghost function Recompute(db: Db, invoice: Value, user: UserId, allowEmpty: bool, tx: Txid): Db {
    if !ActiveInvoice(db, invoice, user) then db
    else
      var lines := LinesOf(db.rows, invoice.id);
      if lines == [] && !allowEmpty then db
      else
        var k := Key(Invoice, invoice.id);
        UpdateRow(db, k, db.rows[k].cols + TotalColumns(InvoiceTotals.TotalsOf(lines)), tx)
  }

  // ---- the two actions that write ----

  ghost function ApplyDevice(db: Db, conflict: ConflictRow, user: UserId, expected: nat, tx: Txid): Option<Db> {
    var k := conflict.key;
    var found := FindOwned(db, k, user);
    if found == None || !IsLive(found.value) || found.value.revision != expected then None
    else
      var record := found.value;
      var sent := EditableFields(k.t, conflict.clientFields);
      if IsProtected(db, k.t, found, sent, user) then None
      else
        var data := if k.t == Item then sent[LineTotal := Num(InvoiceTotals.LineTotal(LineOf(record.cols + sent)))] else sent;
        match WriteRecord(db, k, found, data, user, tx)
        case None => None
        case Some(written) =>
          var joined := InvoiceTouched(k, record.cols + data);
          var left := InvoiceTouched(k, record.cols);
          var recomputed := Recompute(written, joined, user, false, tx);
          Some(if k.t == Item && left != Null && left != joined then Recompute(recomputed, left, user, true, tx) else recomputed)
  }

  /** The invoice whose totals a write of the record concerns. */
  function InvoiceTouched(k: Key, cols: Cols): Value {
    match k.t
    case Client => Null
    case Invoice => Ref(k.id)
    case Item => Col(cols, InvoiceId)
  }

  ghost function RestoreRecord(db: Db, conflict: ConflictRow, user: UserId, expected: nat, tx: Txid): Option<Db> {
    var k := conflict.key;
    var found := FindOwned(db, k, user);
    var edits := if conflict.kind == EditAfterDelete then EditableFields(k.t, conflict.clientFields) else map[];
    if found.Some? then
      if IsLive(found.value) || found.value.revision != expected then None
      else if k.t == Invoice && !ActiveClient(db, Col(found.value.cols, ClientId), user) then None
      else if edits != map[] && IsProtected(db, k.t, found, edits, user) then None
      else
        var restored := UpdateRow(db, k, found.value.cols[DeletedAt := Null], tx);
        match if edits == map[] then Some(restored) else WriteRecord(restored, k, FindOwned(restored, k, user), edits, user, tx)
        case None => None
        case Some(written) => Some(if k.t == Invoice then Recompute(written, Ref(k.id), user, false, tx) else written)
    else if k !in db.tombstones || db.tombstones[k].user != user || k.t != Item || db.tombstones[k].lastState == None then None
    else if db.tombstones[k].revision != expected then None
    else RestoreItem(db, k, EditableFields(Item, db.tombstones[k].lastState.value), edits, user, tx)
  }

  /** A hard-deleted item comes back from the state kept with its tombstone, only into the same
    * invoice while that is active and not sent or paid.
    */
  ghost function RestoreItem(db: Db, k: Key, state: Cols, edits: Cols, user: UserId, tx: Txid): Option<Db> {
    var parent := Col(state, InvoiceId);
    if !parent.Ref? || !OwnedInvoiceRow(db, parent.id, user) || IsProtectedInvoice(db, parent.id) then None
    else
      var merged := (state + edits)[InvoiceId := parent];
      var data := merged[LineTotal := Num(InvoiceTotals.LineTotal(LineOf(merged)))];
      match WriteRecord(DropTombstones(db, {k}), k, None, data, user, tx)
      case None => None
      case Some(written) => Some(Recompute(written, parent, user, false, tx))
  }

  // ---- resolving ----

  /** Deliver the record again: only its txid moves. */
  function TouchForDelivery(db: Db, k: Key, tx: Txid): Db {
    if k in db.rows then db.(rows := db.rows[k := db.rows[k].(txid := tx)]) else db
  }

  ghost function Act(db: Db, conflict: ConflictRow, user: UserId, action: Action, expected: Option<nat>, tx: Txid): Option<Db> {
    if action == Dismiss then Some(db)
    else if !Allows(conflict.kind, action) || expected == None then None
    else if action == ApplyClient then ApplyDevice(db, conflict, user, expected.value, tx)
    else RestoreRecord(db, conflict, user, expected.value, tx)
  }

  /** One resolution: a refused one (an exception) changes nothing. */
  ghost function Resolve(db: Db, user: UserId, id: Id, action: Action, expected: Option<nat>, tx: Txid): Option<Db> {
    if id !in db.conflicts || db.conflicts[id].user != user || db.conflicts[id].status != Open then None
    else
      match Act(db, db.conflicts[id], user, action, expected, tx)
      case None => None
      case Some(acted) =>
        var touched := TouchForDelivery(acted, db.conflicts[id].key, tx);
        var closed := db.conflicts[id].(status := if action == Dismiss then Dismissed else SyncModel.Resolved);
        Some(touched.(conflicts := touched.conflicts[id := closed]))
  }
}
