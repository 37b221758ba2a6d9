/** When a change that is sent for the first time is applied, kept as a conflict, or refused, and why. */
module SyncAccepted {
  import opened Basics
  import opened SyncModel
  import opened SyncPush
  import opened SyncInvariant
  import opened SyncProtection
  import opened SyncMerge
  import opened SyncApplied

  // ---- what a device may find ----

  /** The change was not sent before, or was and failed. */
  predicate IsNew(db: Db, user: UserId, c: Change) {
    c.changeId.Some? && (user, c.changeId.value) in db.changes ==>
      var row := db.changes[(user, c.changeId.value)]; row.change == c && !row.synced
  }

  /** It has what its protocol asks for: the record's id, and in protocol 2 its own, and a base if not a creation. */
  predicate IsWellFormed(c: Change, protocol: nat) {
    c.id.Some? && (protocol == 2 ==> c.changeId.Some? && (c.kind != Create ==> c.base.Some? && c.base.value > 0))
  }

  lemma WellFormedIsValid(c: Change, protocol: nat)
    ensures Validate(c, protocol) == None <==> IsWellFormed(c, protocol)
  {
  }

  /** What is refused before anything is looked at, and the first reason; nothing is recorded. */
  lemma IllFormedIsRefused(db: Db, user: UserId, c: Change, protocol: nat, fault: Fault, tx: Txid)
    requires !IsWellFormed(c, protocol)
    ensures Push(db, user, c, protocol, fault, tx) ==
              Pushed(db, Fail(if c.id == None then InvalidObjectId else if c.changeId == None then ChangeIdRequired else BaseRevisionRequired))
  {
    hide ProcessChange, WithRecordedChange, RecordedChange;
  }

  /** An id recorded for another change is refused, whether that one was processed or not. */
  lemma ReusedIsRefused(db: Db, user: UserId, c: Change, protocol: nat, tx: Txid)
    requires IsWellFormed(c, protocol) && c.changeId.Some? && (user, c.changeId.value) in db.changes
    requires db.changes[(user, c.changeId.value)].change != c
    ensures Push(db, user, c, protocol, NoFault, tx) == Pushed(db, Fail(ChangeIdReused))
  {
    hide ProcessChange;
  }

  /** A change the database rejects leaves no record changed, one that fails temporarily nothing at all. */
  lemma FaultsLeaveNothing(db: Db, user: UserId, c: Change, protocol: nat, tx: Txid)
    requires IsWellFormed(c, protocol) && IsNew(db, user, c)
    ensures Push(db, user, c, protocol, Transient, tx) == Pushed(db, Fail(RetryLater))
    ensures var p := Push(db, user, c, protocol, Rejecting, tx); p.outcome == Fail(Rejected) && SameTables(db, p.db)
  {
    hide ProcessChange;
  }

  /** The id is somebody else's. */
  predicate IsForeign(db: Db, k: Key, user: UserId) {
    if k in db.tombstones then db.tombstones[k].user != user else k in db.rows && !Owned(db, k, user)
  }

  /** The record was the user's and is deleted. */
  predicate IsGone(db: Db, k: Key, user: UserId) {
    if k in db.tombstones then db.tombstones[k].user == user else Owned(db, k, user) && !IsLive(db.rows[k])
  }

  predicate IsFresh(db: Db, k: Key) {
    k !in db.tombstones && k !in db.rows
  }

  predicate IsOwn(db: Db, k: Key, user: UserId) {
    k !in db.tombstones && Owned(db, k, user) && IsLive(db.rows[k])
  }

  /** Sent, overdue and paid invoices are protected. */
  predicate IsSentOrPaid(db: Db, invoice: Id) {
    var k := Key(Invoice, invoice);
    k in db.rows && Col(db.rows[k].cols, InvoiceStatus) in {StatusIs(Sent), StatusIs(Overdue), StatusIs(SyncModel.Paid)}
  }

  /** An invoice of the user the line is in, or is to be in. */
  predicate Touches(db: Db, user: UserId, k: Key, data: map<Field, Value>, invoice: Id) {
    && OwnedInvoiceRow(db, invoice, user)
    && ((Owned(db, k, user) && Col(db.rows[k].cols, InvoiceId) == Ref(invoice)) || Col(data, InvoiceId) == Ref(invoice))
  }

  /** The change is of a protected invoice, or of a line in, into or out of one. */
  ghost predicate IsProtectedChange(db: Db, user: UserId, k: Key, data: map<Field, Value>) {
    match k.t
    case Client => false
    case Invoice => Owned(db, k, user) && IsSentOrPaid(db, k.id)
    case Item => exists i :: Touches(db, user, k, data, i) && IsSentOrPaid(db, i)
  }

  /** The device saw the only invoice the line touches as it is now. */
  ghost predicate SawInvoice(db: Db, user: UserId, k: Key, data: map<Field, Value>, parent: Option<nat>) {
    exists i :: Touches(db, user, k, data, i) && parent == Some(db.rows[Key(Invoice, i)].revision)
                && forall j :: Touches(db, user, k, data, j) ==> j == i
  }

  lemma ProtectedStatusIs(v: Value)
    ensures IsProtectedStatus(v) <==> v in {StatusIs(Sent), StatusIs(Overdue), StatusIs(SyncModel.Paid)}
  {
  }

  lemma SentInvoiceId(data: map<Field, Value>)
    ensures Col(WritableFields(Item, data), InvoiceId) == Col(data, InvoiceId)
  {
  }

  lemma TouchedIs(db: Db, user: UserId, k: Key, data: map<Field, Value>)
    requires k.t == Item
    ensures forall i :: i in ItemInvoices(db, FindOwned(db, k, user), WritableFields(Item, data), user) <==> Touches(db, user, k, data, i)
  {
    hide WritableFields, OwnedInvoiceRow, Owned;
    SentInvoiceId(data);
  }

  lemma ProtectedIs(db: Db, user: UserId, k: Key, data: map<Field, Value>)
    ensures IsProtected(db, k.t, FindOwned(db, k, user), WritableFields(k.t, data), user) <==> IsProtectedChange(db, user, k, data)
  {
    hide WritableFields, ItemInvoices, Touches, Owned, IsProtectedStatus;
    forall v { ProtectedStatusIs(v); }
    OwnedRowExists(db, k, user);
    if k.t == Item { TouchedIs(db, user, k, data); }
  }

  lemma OwnedRowExists(db: Db, k: Key, user: UserId)
    ensures Owned(db, k, user) ==> k in db.rows
  {
  }

  lemma SawIs(db: Db, user: UserId, k: Key, data: map<Field, Value>, parent: Option<nat>)
    requires k.t == Item
    ensures SawCurrentParent(db, FindOwned(db, k, user), WritableFields(Item, data), user, parent) <==> SawInvoice(db, user, k, data, parent)
  {
    hide WritableFields, ItemInvoices, Owned, FindOwned;
    TouchedIs(db, user, k, data);
    var invoices := ItemInvoices(db, FindOwned(db, k, user), WritableFields(Item, data), user);
    TouchedAreStored(db, user, k, data);
    hide Touches;
    if SawCurrentParent(db, FindOwned(db, k, user), WritableFields(Item, data), user, parent) {
      var i :| i in invoices;
      assert |invoices - {i}| == 0;
      assert forall j :: j in invoices ==> j == i by { assert invoices - {i} == {}; }
    }
    if SawInvoice(db, user, k, data, parent) {
      var i: Id :| Touches(db, user, k, data, i) && forall j :: Touches(db, user, k, data, j) ==> j == i;
      assert invoices == {i};
    }
  }

  lemma TouchedAreStored(db: Db, user: UserId, k: Key, data: map<Field, Value>)
    ensures forall i :: Touches(db, user, k, data, i) ==> Key(Invoice, i) in db.rows
  {
  }

  // ---- whether the write is accepted ----

  /** The columns a value fits. */
  function Takers(v: Value): set<Field> {
    match v
    case Text(_) =>
      {Name, Description, Number, IssueDate, Currency, Kind, Email, Phone, AvatarUrl, Notes, DueDate, AddressJson, TagsJson, MetadataJson}
    case JsonText(_) => {AddressJson, TagsJson, MetadataJson}
    case Null => {Email, Phone, AvatarUrl, Notes, DueDate, AddressJson, TagsJson, MetadataJson, DeletedAt}
    case Num(_) => {Quantity, UnitPrice, TaxRate, DiscountRate, LineTotal, Subtotal, TaxTotal, DiscountTotal, Total}
    case Ref(_) => {ClientId, InvoiceId}
    case StatusIs(_) => {InvoiceStatus}
    case User(_) => {Owner}
    case At(_) => {DeletedAt}
  }

  lemma TakersAre(f: Field, v: Value)
    ensures FieldAccepts(f, v) <==> f in Takers(v)
  {
    match v
    case Text(_) => TextTakers(f, v);
    case Null => NullTakers(f);
    case Num(_) => NumTakers(f, v);
    case _ =>
  }

  lemma TextTakers(f: Field, v: Value)
    requires v.Text?
    ensures FieldAccepts(f, v) <==> f in Takers(v)
  {
  }

  lemma NullTakers(f: Field)
    ensures FieldAccepts(f, Null) <==> f in Takers(Null)
  {
  }

  lemma NumTakers(f: Field, v: Value)
    requires v.Num?
    ensures FieldAccepts(f, v) <==> f in Takers(v)
  {
  }

  /** A client or an invoice that is the user's and not deleted. */
  predicate IsUsable(db: Db, user: UserId, t: RecordType, v: Value) {
    && v.Ref? && Key(t, v.id) in db.rows
    && var cols := db.rows[Key(t, v.id)].cols;
    Col(cols, Owner) == User(user) && Col(cols, DeletedAt) == Null
  }

  lemma ActiveIsUsable(db: Db, user: UserId, v: Value)
    ensures ActiveClient(db, v, user) <==> IsUsable(db, user, Client, v)
    ensures ActiveInvoice(db, v, user) <==> IsUsable(db, user, Invoice, v)
  {
  }

  lemma AllActive(db: Db, user: UserId)
    ensures forall v :: ActiveClient(db, v, user) <==> IsUsable(db, user, Client, v)
    ensures forall v :: ActiveInvoice(db, v, user) <==> IsUsable(db, user, Invoice, v)
  {
    hide ActiveClient, ActiveInvoice, IsUsable;
    forall v ensures (ActiveClient(db, v, user) <==> IsUsable(db, user, Client, v)) && (ActiveInvoice(db, v, user) <==> IsUsable(db, user, Invoice, v)) {
      ActiveIsUsable(db, user, v);
    }
  }

  /** Every value sent fits its column; a client or an invoice named is the user's and active. */
  predicate FitsColumns(db: Db, user: UserId, t: RecordType, fields: Cols) {
    && (forall f :: f in fields ==> f in Takers(fields[f]))
    && (t == Invoice && ClientId in fields ==> IsUsable(db, user, Client, fields[ClientId]))
    && (t == Item && InvoiceId in fields ==> IsUsable(db, user, Invoice, fields[InvoiceId]))
  }

  lemma WriteAccepted(db: Db, k: Key, fields: Cols, user: UserId, tx: Txid)
    ensures var w := WriteRecord(db, k, FindOwned(db, k, user), fields, user, tx);
            && (Owned(db, k, user) ==> (w.Some? <==> FitsColumns(db, user, k.t, fields)))
            && (k !in db.rows ==> (w.Some? <==> FitsColumns(db, user, k.t, fields) && MustSend(k.t) <= fields.Keys))
  {
    hide UpdateRow, InsertRow, NewColumns, ActiveClient, ActiveInvoice, IsUsable;
    AllActive(db, user);
    NullIsRefused();
    forall f, v ensures FieldAccepts(f, v) <==> f in Takers(v) { TakersAre(f, v); }
    NewColumnsAre(k.t);
    hide FieldAccepts, Takers, MustSend, Required;
  }

  lemma NullIsRefused()
    ensures !FieldAccepts(ClientId, Null) && !FieldAccepts(InvoiceId, Null)
  {
  }

  // ---- a first push is carried out ----

  lemma FirstIsPerformed(db: Db, user: UserId, c: Change, protocol: nat, tx: Txid)
    requires IsWellFormed(c, protocol) && IsNew(db, user, c)
    ensures var p, r := Push(db, user, c, protocol, NoFault, tx), Performed(db, user, c, protocol, tx);
            && SameTables(db, WithRecordedChange(db, user, c))
            && p.outcome == (if r.Throw? then Fail(Rejected) else r.outcome)
            && (r.Done? && r.outcome.status != Failed ==> SameTables(r.db, p.db))
            && (r.Throw? || r.outcome.status == Failed ==> SameTables(db, p.db))
  {
    WellFormedIsValid(c, protocol);
    hide ProcessChange, MarkSynced, SameTables;
    PushEffect(db, user, c, protocol, NoFault, tx);
    var r := Performed(db, user, c, protocol, tx);
    if r.Done? { MarkedTables(r.db, user, c, r.outcome); }
  }

  /** What the conditions look at. */
  lemma SameConditions(a: Db, b: Db, user: UserId, k: Key, data: map<Field, Value>, parent: Option<nat>)
    requires SameTables(a, b)
    ensures IsForeign(a, k, user) == IsForeign(b, k, user) && IsGone(a, k, user) == IsGone(b, k, user)
    ensures IsFresh(a, k) == IsFresh(b, k) && IsOwn(a, k, user) == IsOwn(b, k, user)
    ensures IsProtectedChange(a, user, k, data) == IsProtectedChange(b, user, k, data)
    ensures SawInvoice(a, user, k, data, parent) == SawInvoice(b, user, k, data, parent)
    ensures forall fields :: FitsColumns(a, user, k.t, fields) == FitsColumns(b, user, k.t, fields)
    ensures HasOpenConflict(a, k, user) == HasOpenConflict(b, k, user)
  {
    hide IsLive, Takers, OwnedInvoiceRow, IsSentOrPaid;
    SameOwned(a, b, user);
    hide Owned, Touches, IsUsable;
  }

  lemma SameOwned(a: Db, b: Db, user: UserId)
    requires SameTables(a, b)
    ensures forall k :: Owned(a, k, user) == Owned(b, k, user)
    ensures forall i :: IsSentOrPaid(a, i) == IsSentOrPaid(b, i)
    ensures forall k, data, i :: Touches(a, user, k, data, i) == Touches(b, user, k, data, i)
    ensures forall t, v :: IsUsable(a, user, t, v) == IsUsable(b, user, t, v)
  {
    hide IsLive;
  }

  // ---- deletions ----

  /** A line whose device did not see the protected invoice it touches as it is now. */
  ghost predicate IsUnseen(db: Db, user: UserId, k: Key, c: Change) {
    k.t == Item && IsProtectedChange(db, user, k, c.data) && !SawInvoice(db, user, k, c.data, c.parent)
  }

  lemma StateIs(db: Db, k: Key, user: UserId)
    requires Consistent(db)
    ensures IsForeign(db, k, user) <==>
              (k in db.tombstones && db.tombstones[k].user != user) || (FindOwned(db, k, user) == None && k !in db.tombstones && k in db.rows)
    ensures !IsForeign(db, k, user) ==> (IsGone(db, k, user) <==> IsDeleted(db, k, FindOwned(db, k, user)))
    ensures IsGone(db, k, user) ==> !IsForeign(db, k, user)
    ensures IsOwn(db, k, user) <==> FindOwned(db, k, user).Some? && !IsDeleted(db, k, FindOwned(db, k, user))
    ensures IsFresh(db, k) ==> FindOwned(db, k, user) == None
    ensures !IsForeign(db, k, user) && !IsGone(db, k, user) ==> IsFresh(db, k) || IsOwn(db, k, user)
    ensures IsOwn(db, k, user) ==> k in db.rows && !IsForeign(db, k, user) && !IsGone(db, k, user)
    ensures IsFresh(db, k) ==> !IsForeign(db, k, user) && !IsGone(db, k, user)
  {
    hide HistoriesOk, TombstonesOk, ItemsOk, IdsOk, IsLive;
  }

  ghost predicate DeletionAnswer(db: Db, user: UserId, k: Key, c: Change, o: Outcome)
    requires c.base.Some?
  {
    && (IsForeign(db, k, user) ==> o == Fail(Rejected))
    && (IsGone(db, k, user) ==> o == Success(Applied, None))
    && (IsFresh(db, k) ==> if IsUnseen(db, user, k, c) then o.status == Conflicted else o == Success(Applied, None))
    && (IsOwn(db, k, user) ==>
          var revision := db.rows[k].revision;
          if IsUnseen(db, user, k, c) then o.status == Conflicted
          else if c.base.value > revision then o == Fail(InvalidBaseRevision)
          else if c.base.value == revision then o == Success(Applied, None)
          else if IsProtectedChange(db, user, k, c.data) then o.status == Conflicted
          else o.status == Applied && o.conflictId.Some?)
  }

  lemma DeletionPerformed(db: Db, user: UserId, c: Change, k: Key, tx: Txid)
    requires Consistent(db) && c.kind == Delete && k.t == c.t && c.base.Some?
    ensures var r := Perform(db, user, k, Decide(db, user, c, k, 2), tx);
            DeletionAnswer(db, user, k, c, if r.Throw? then Fail(Rejected) else r.outcome)
  {
    hide WritableFields, ConflictOf, IsProtected, SawCurrentParent, FindOwned, IsDeleted, IsForeign, IsGone, IsFresh, IsOwn;
    hide IsProtectedChange, SawInvoice, Owned, WriteRecord, DeleteRecord, Consistent;
    StateIs(db, k, user);
    FoundIs(db, k, user);
    ProtectedIs(db, user, k, c.data);
    if k.t == Item { SawIs(db, user, k, c.data, c.parent); }
  }

  lemma FoundIs(db: Db, k: Key, user: UserId)
    ensures FindOwned(db, k, user).Some? ==> k in db.rows && FindOwned(db, k, user).value == db.rows[k]
  {
    hide Owned;
    OwnedRowExists(db, k, user);
  }

  /** The answer to a deletion sent for the first time, in protocol 2. */
  lemma DeletionOutcome(db: Db, user: UserId, c: Change, tx: Txid)
    requires Consistent(db) && c.kind == Delete && IsWellFormed(c, 2) && IsNew(db, user, c)
    ensures DeletionAnswer(db, user, KeyOf(c), c, Push(db, user, c, 2, NoFault, tx).outcome)
  {
    hide Push, Perform, Decide, Consistent;
    FirstIsPerformed(db, user, c, 2, tx);
    var r := WithRecordedChange(db, user, c);
    SameTablesConsistent(db, r);
    DeletionPerformed(r, user, c, KeyOf(c), tx);
    SameConditions(db, r, user, KeyOf(c), c.data, c.parent);
    hide IsForeign, IsGone, IsFresh, IsOwn, IsProtectedChange, SawInvoice;
    OwnIsStored(db, KeyOf(c), user);
  }

  lemma OwnIsStored(db: Db, k: Key, user: UserId)
    ensures IsOwn(db, k, user) ==> k in db.rows
  {
  }

  // ---- creations and edits ----

  /** The sent columns that differ from the stored ones. */
  function Changes(cols: Cols, sent: Cols): Cols {
    map f | f in sent && !(f in cols && cols[f] == sent[f]) :: sent[f]
  }

  /** The history after the base is complete, and no server write after it changed what the edit changes. */
  ghost predicate IsMergeable(db: Db, k: Key, base: nat, changes: Cols)
    requires k in db.rows
  {
    && base >= 1 && Complete(db, k, base, db.rows[k].revision)
    && forall f :: f in changes ==> !ChangedBetween(VersionsOf(db, k), base, db.rows[k].revision, f)
  }

  /** What a creation or an update comes to when the id is not an own live record. */
  ghost predicate CreationAnswer(db: Db, user: UserId, k: Key, c: Change, o: Outcome) {
    var sent := WritableFields(k.t, c.data);
    && (IsForeign(db, k, user) ==> o == Fail(Rejected))
    && (IsGone(db, k, user) ==> o.status == Conflicted)
    && (IsFresh(db, k) ==>
          if IsUnseen(db, user, k, c) then o.status == Conflicted
          else if c.kind == Update then o == Fail(NotFound)
          else if FitsColumns(db, user, k.t, sent) && MustSend(k.t) <= sent.Keys then o == Success(Applied, Some(1))
          else o == Fail(Rejected))
  }

  /** What it comes to as an edit of an own live record; a creation is an edit based on nothing. */
  ghost predicate EditAnswer(db: Db, user: UserId, k: Key, c: Change, base: nat, o: Outcome)
    requires k in db.rows
  {
    var revision, sent := db.rows[k].revision, WritableFields(k.t, c.data);
    var changes := Changes(db.rows[k].cols, sent);
    if IsUnseen(db, user, k, c) then o.status == Conflicted
    else if base > revision then o == Fail(InvalidBaseRevision)
    else if base == revision then (if FitsColumns(db, user, k.t, sent) then o.status == Applied && o.conflictId == None else o == Fail(Rejected))
    else if changes == map[] then o == Success(Applied, Some(revision))
    else if IsProtectedChange(db, user, k, c.data) || !IsMergeable(db, k, base, changes) then o.status == Conflicted
    else if FitsColumns(db, user, k.t, changes) then o.status == Merged && o.conflictId == None
    else o == Fail(Rejected)
  }

  function BaseOf(c: Change): nat {
    if c.kind == Create || c.base == None then 0 else c.base.value
  }

  lemma NewRevision(db: Db, k: Key, fields: Cols, user: UserId, tx: Txid)
    requires k !in db.rows && WriteRecord(db, k, None, fields, user, tx).Some?
    ensures k in WriteRecord(db, k, None, fields, user, tx).value.rows && WriteRecord(db, k, None, fields, user, tx).value.rows[k].revision == 1
  {
    hide NewColumns, ReferencesOk, ColsAccepted, Required;
  }

  lemma CreationPerformed(db: Db, user: UserId, c: Change, k: Key, tx: Txid)
    requires Consistent(db) && c.kind != Delete && k.t == c.t && !IsOwn(db, k, user)
    ensures var r := Perform(db, user, k, Decide(db, user, c, k, 2), tx);
            CreationAnswer(db, user, k, c, if r.Throw? then Fail(Rejected) else r.outcome)
  {
    hide WritableFields, ConflictOf, IsProtected, SawCurrentParent, FindOwned, IsDeleted, IsForeign, IsGone, IsFresh, IsOwn;
    hide IsProtectedChange, SawInvoice, Owned, WriteRecord, DeleteRecord, Consistent, FitsColumns, MustSend, DecideEdit;
    StateIs(db, k, user);
    FoundIs(db, k, user);
    ProtectedIs(db, user, k, c.data);
    if k.t == Item { SawIs(db, user, k, c.data, c.parent); }
    if IsFresh(db, k) {
      FreshIsNot(db, k);
      WriteAccepted(db, k, WritableFields(k.t, c.data), user, tx);
      if WriteRecord(db, k, None, WritableFields(k.t, c.data), user, tx).Some? {
        NewRevision(db, k, WritableFields(k.t, c.data), user, tx);
      }
    }
  }

  lemma FreshIsNot(db: Db, k: Key)
    requires IsFresh(db, k)
    ensures k !in db.rows
  {
  }

  lemma ChangesAre(cols: Cols, sent: Cols)
    ensures Differing(cols, sent) == Changes(cols, sent).Keys
    ensures Differing(cols, sent) == {} <==> Changes(cols, sent) == map[]
  {
  }

  lemma EditDecided(db: Db, user: UserId, c: Change, k: Key, protected: bool, base: nat, sent: Cols)
    requires k in db.rows && HistoryOk(db, k)
    ensures var d, row, changes := DecideEdit(db, user, c, k, db.rows[k], protected, base, sent), db.rows[k], Changes(db.rows[k].cols, sent);
            if base > row.revision then d == Answer(Fail(InvalidBaseRevision))
            else if base == row.revision then d == Write(sent, Applied, true)
            else if changes == map[] then d == Answer(Success(Applied, Some(row.revision)))
            else if protected || !IsMergeable(db, k, base, changes) then d.Keep?
            else d == Write(changes, Merged, true)
  {
    hide HistoryOk, ChangedSince, ConflictOf, Complete, ChangedBetween;
    var changes := Changes(db.rows[k].cols, sent);
    ChangesAre(db.rows[k].cols, sent);
    if base < db.rows[k].revision {
      ChangedSinceExact(db, k, base);
      var changed := ChangedSince(db, k, base, db.rows[k].revision);
      if changed.Some? {
        assert (forall f :: f in changes ==> f !in changed.value) <==> changes.Keys * changed.value == {} by {
          assert forall f :: f in changes.Keys * changed.value <==> f in changes && f in changed.value;
        }
      }
      assert (map f | f in changes.Keys :: sent[f]) == changes;
    }
  }

  lemma EditPerformed(db: Db, user: UserId, c: Change, k: Key, tx: Txid)
    requires Consistent(db) && c.kind != Delete && k.t == c.t && IsOwn(db, k, user)
    ensures k in db.rows
    ensures var r := Perform(db, user, k, Decide(db, user, c, k, 2), tx);
            EditAnswer(db, user, k, c, BaseOf(c), if r.Throw? then Fail(Rejected) else r.outcome)
  {
    hide WritableFields, ConflictOf, IsProtected, SawCurrentParent, FindOwned, IsDeleted, IsForeign, IsGone, IsFresh, IsOwn;
    hide IsProtectedChange, SawInvoice, Owned, WriteRecord, DeleteRecord, HistoryOk, TombstonesOk, ItemsOk, IdsOk, FitsColumns, DecideEdit, IsMergeable;
    StateIs(db, k, user);
    FoundIs(db, k, user);
    ProtectedIs(db, user, k, c.data);
    if k.t == Item { SawIs(db, user, k, c.data, c.parent); }
    var sent := WritableFields(k.t, c.data);
    assert HistoryOk(db, k);
    EditDecided(db, user, c, k, IsProtected(db, k.t, FindOwned(db, k, user), sent, user), BaseOf(c), sent);
    OwnedWhenFound(db, k, user);
    WriteAccepted(db, k, sent, user, tx);
    WriteAccepted(db, k, Changes(db.rows[k].cols, sent), user, tx);
  }

  lemma OwnedWhenFound(db: Db, k: Key, user: UserId)
    requires IsOwn(db, k, user)
    ensures Owned(db, k, user)
  {
  }

  /** The answer to a creation or an update sent for the first time, in protocol 2. */
  lemma WritingOutcome(db: Db, user: UserId, c: Change, tx: Txid)
    requires Consistent(db) && c.kind != Delete && IsWellFormed(c, 2) && IsNew(db, user, c)
    ensures var k, o := KeyOf(c), Push(db, user, c, 2, NoFault, tx).outcome;
            if IsOwn(db, k, user) then k in db.rows && EditAnswer(db, user, k, c, BaseOf(c), o) else CreationAnswer(db, user, k, c, o)
  {
    hide Push, Perform, Decide, Consistent, EditAnswer, CreationAnswer;
    FirstIsPerformed(db, user, c, 2, tx);
    var r, k := WithRecordedChange(db, user, c), KeyOf(c);
    SameTablesConsistent(db, r);
    SameConditions(db, r, user, k, c.data, c.parent);
    hide IsForeign, IsGone, IsFresh, IsOwn, IsProtectedChange, SawInvoice;
    OwnIsStored(db, k, user);
    SameAnswers(db, r, user, k, c, Push(db, user, c, 2, NoFault, tx).outcome);
    if IsOwn(r, k, user) { EditPerformed(r, user, c, k, tx); } else { CreationPerformed(r, user, c, k, tx); }
  }

  lemma SameAnswers(a: Db, b: Db, user: UserId, k: Key, c: Change, o: Outcome)
    requires SameTables(a, b)
    ensures CreationAnswer(a, user, k, c, o) == CreationAnswer(b, user, k, c, o)
    ensures k in a.rows ==> EditAnswer(a, user, k, c, BaseOf(c), o) == EditAnswer(b, user, k, c, BaseOf(c), o)
  {
    SameConditions(a, b, user, k, c.data, c.parent);
    hide IsForeign, IsGone, IsFresh, IsOwn, IsProtectedChange, SawInvoice, FitsColumns, WritableFields, ChangedBetween, Changes, MustSend;
  }

  // ---- the older protocol ----

  /** An open conflict of the user about the record. */
  predicate IsDisputed(db: Db, k: Key, user: UserId) {
    exists i :: i in db.conflicts && db.conflicts[i].key == k && db.conflicts[i].user == user && db.conflicts[i].status == Open
  }

  /** What a change of protocol 1 comes to: applied as sent, except where it would bypass a protection. */
  ghost predicate LegacyAnswer(db: Db, user: UserId, k: Key, c: Change, o: Outcome) {
    var sent := WritableFields(k.t, c.data);
    if IsForeign(db, k, user) then o == Fail(Rejected)
    else if IsGone(db, k, user) then o == if c.kind == Delete then Success(Applied, None) else Fail(RecordDeleted)
    else if c.kind == Delete && IsFresh(db, k) then o == Success(Applied, None)
    else if IsProtectedChange(db, user, k, c.data) then o == Fail(UpgradeRequired)
    else if c.kind == Delete then o == Success(Applied, None)
    else if IsOwn(db, k, user) && IsDisputed(db, k, user) then o == Fail(OpenConflict)
    else if FitsColumns(db, user, k.t, sent) && (IsFresh(db, k) ==> MustSend(k.t) <= sent.Keys) then o == Success(Applied, None)
    else o == Fail(Rejected)
  }

  lemma LegacyPerformed(db: Db, user: UserId, c: Change, k: Key, protocol: nat, tx: Txid)
    requires Consistent(db) && protocol != 2 && k.t == c.t
    ensures var r := Perform(db, user, k, Decide(db, user, c, k, protocol), tx);
            LegacyAnswer(db, user, k, c, if r.Throw? then Fail(Rejected) else r.outcome)
  {
    DisputedIs(db, k, user);
    hide WritableFields, ConflictOf, IsProtected, SawCurrentParent, FindOwned, IsDeleted, IsForeign, IsGone, IsFresh, IsOwn, HasOpenConflict;
    hide IsProtectedChange, SawInvoice, Owned, WriteRecord, DeleteRecord, Consistent, FitsColumns, DecideEdit, IsDisputed, MustSend;
    StateIs(db, k, user);
    FoundIs(db, k, user);
    ProtectedIs(db, user, k, c.data);
    WriteAccepted(db, k, WritableFields(k.t, c.data), user, tx);
    OwnOrFresh(db, k, user);
  }

  lemma OwnOrFresh(db: Db, k: Key, user: UserId)
    ensures IsOwn(db, k, user) ==> Owned(db, k, user)
    ensures IsFresh(db, k) ==> k !in db.rows
  {
  }

  lemma DisputedIs(db: Db, k: Key, user: UserId)
    ensures IsDisputed(db, k, user) <==> HasOpenConflict(db, k, user)
  {
  }

  /** The answer to a change of protocol 1, sent for the first time or without an id. */
  lemma LegacyOutcome(db: Db, user: UserId, c: Change, protocol: nat, tx: Txid)
    requires Consistent(db) && protocol != 2 && IsWellFormed(c, protocol) && IsNew(db, user, c)
    ensures LegacyAnswer(db, user, KeyOf(c), c, Push(db, user, c, protocol, NoFault, tx).outcome)
  {
    hide Push, Perform, Decide, Consistent, LegacyAnswer;
    FirstIsPerformed(db, user, c, protocol, tx);
    var r, k := WithRecordedChange(db, user, c), KeyOf(c);
    SameTablesConsistent(db, r);
    LegacyPerformed(r, user, c, k, protocol, tx);
    SameLegacy(db, r, user, k, c, Push(db, user, c, protocol, NoFault, tx).outcome);
  }

  lemma SameLegacy(a: Db, b: Db, user: UserId, k: Key, c: Change, o: Outcome)
    requires SameTables(a, b)
    ensures LegacyAnswer(a, user, k, c, o) == LegacyAnswer(b, user, k, c, o)
  {
    SameConditions(a, b, user, k, c.data, c.parent);
    hide IsForeign, IsGone, IsFresh, IsOwn, IsProtectedChange, SawInvoice, FitsColumns, WritableFields, MustSend;
  }

  // ---- what is kept ----

  /** The revision the server has of a record or, once deleted, of its tombstone. */
  function ServerRevision(db: Db, k: Key, user: UserId): Option<nat> {
    if Owned(db, k, user) then Some(db.rows[k].revision) else if k in db.tombstones then Some(db.tombstones[k].revision) else None
  }

  /** The conflict a change is kept as: of the user, open, about the record, with the revision the device had
    * seen and the one the server has, and what it sent.
    */
  predicate IsKept(db: Db, d: Db, user: UserId, c: Change, k: Key, o: Outcome) {
    && o == Outcome(Conflicted, None, Some(db.nextConflict), None)
    && d.rows == db.rows && d.tombstones == db.tombstones && d.history == db.history
    && d.nextConflict == db.nextConflict + 1
    && db.nextConflict in d.conflicts && d.conflicts == db.conflicts[db.nextConflict := d.conflicts[db.nextConflict]]
    && var conflict := d.conflicts[db.nextConflict];
    && conflict.user == user && conflict.key == k && conflict.status == Open && conflict.base == c.base
    && conflict.clientFields == ConflictFields(k.t, if c.kind == Delete then map[] else c.data)
    && conflict.serverRevision == ServerRevision(db, k, user)
  }

  /** Which kind it is: an edit of a deleted record; an edit that clashes; or a change of a protected invoice. And
    * which fields it names: of an edit that clashes, those both sides changed, or all that differ if the
    * history cannot tell; of one of a protected invoice, all that differ; otherwise none.
    */
  ghost predicate IsOfKind(db: Db, user: UserId, c: Change, k: Key, kind: ConflictKind, named: set<Field>) {
    && (kind == EditAfterDelete <==> IsGone(db, k, user))
    && (kind == StaleEdit <==> IsOwn(db, k, user) && !IsUnseen(db, user, k, c) && !IsProtectedChange(db, user, k, c.data))
    && kind != DeleteAfterEdit
    && (if c.kind == Delete || !IsOwn(db, k, user) || IsUnseen(db, user, k, c) then named == {}
        else k in db.rows && forall f :: f in named <==> IsClash(db, user, k, c, f))
  }

  ghost predicate IsClash(db: Db, user: UserId, k: Key, c: Change, f: Field)
    requires k in db.rows
  {
    var base, n := BaseOf(c), db.rows[k].revision;
    && f in Changes(db.rows[k].cols, WritableFields(k.t, c.data))
    && (base >= 1 && Complete(db, k, base, n) && !IsProtectedChange(db, user, k, c.data) ==> ChangedBetween(VersionsOf(db, k), base, n, f))
  }

  lemma EditNames(db: Db, user: UserId, c: Change, k: Key, protected: bool, base: nat, sent: Cols, f: Field)
    requires k in db.rows && HistoryOk(db, k)
    ensures var d := DecideEdit(db, user, c, k, db.rows[k], protected, base, sent);
            d.Keep? ==>
              (f in d.conflict.conflicting <==>
                 f in Changes(db.rows[k].cols, sent)
                 && (base >= 1 && Complete(db, k, base, db.rows[k].revision) && !protected ==>
                       ChangedBetween(VersionsOf(db, k), base, db.rows[k].revision, f)))
  {
    ChangesAre(db.rows[k].cols, sent);
    if DecideEdit(db, user, c, k, db.rows[k], protected, base, sent).Keep? && !protected {
      StaleConflictNames(db, user, c, k, base, sent, f);
    }
    hide HistoryOk, ChangedSince, Complete, ChangedBetween, ConflictFields, Differing;
  }

  lemma OwnHistory(db: Db, user: UserId, k: Key)
    requires Consistent(db) && IsOwn(db, k, user)
    ensures k in db.rows && HistoryOk(db, k)
  {
    OwnIsStored(db, k, user);
    ConsistentHistory(db);
    hide Consistent, HistoryOk;
  }

  lemma ConsistentHistory(db: Db)
    requires Consistent(db)
    ensures HistoriesOk(db)
  {
  }

  lemma NamesWhenOwn(db: Db, user: UserId, c: Change, k: Key)
    requires Consistent(db) && k.t == c.t
    ensures IsOwn(db, k, user) ==>
              && k in db.rows
              && var d := DecideEdit(db, user, c, k, db.rows[k], IsProtected(db, k.t, FindOwned(db, k, user), WritableFields(k.t, c.data), user),
                                     BaseOf(c), WritableFields(k.t, c.data));
              d.Keep? ==> forall f :: f in d.conflict.conflicting <==> IsClash(db, user, k, c, f)
  {
    hide Consistent, DecideEdit, HistoryOk, IsProtected, IsProtectedChange, WritableFields, FindOwned, Changes, Complete, ChangedBetween, IsOwn;
    if IsOwn(db, k, user) {
      OwnHistory(db, user, k);
      ProtectedIs(db, user, k, c.data);
      var protected, sent := IsProtected(db, k.t, FindOwned(db, k, user), WritableFields(k.t, c.data), user), WritableFields(k.t, c.data);
      var d := DecideEdit(db, user, c, k, db.rows[k], protected, BaseOf(c), sent);
      if d.Keep? {
        forall f ensures f in d.conflict.conflicting <==> IsClash(db, user, k, c, f) {
          EditNames(db, user, c, k, protected, BaseOf(c), sent, f);
        }
      }
    }
  }

  lemma FoundOwned(db: Db, k: Key, user: UserId)
    ensures FindOwned(db, k, user).Some? <==> Owned(db, k, user)
  {
    hide Owned;
  }

  lemma EditConflict(db: Db, user: UserId, c: Change, k: Key, row: Row, protected: bool, base: nat, sent: Cols)
    ensures var d := DecideEdit(db, user, c, k, row, protected, base, sent);
            && !d.Raise? && !d.Remove? && (d.Answer? ==> d.outcome.status != Conflicted) && (d.Write? ==> d.status != Conflicted)
            && (d.Keep? ==> d.conflict == ConflictOf(user, c, k, if protected then ProtectedInvoice else StaleEdit, Some(row.revision), d.conflict.conflicting))
  {
    hide ConflictFields, ChangedSince, Differing;
  }

  lemma DecidedKeep(db: Db, user: UserId, c: Change, k: Key, protocol: nat)
    requires Consistent(db) && k.t == c.t
    ensures var d := Decide(db, user, c, k, protocol);
            && (d.Answer? ==> d.outcome.status != Conflicted) && (d.Write? ==> d.status != Conflicted)
            && (d.Keep? ==>
                  && d.conflict == ConflictOf(user, c, k, d.conflict.kind, ServerRevision(db, k, user), d.conflict.conflicting)
                  && IsOfKind(db, user, c, k, d.conflict.kind, d.conflict.conflicting))
  {
    hide WritableFields, ConflictFields, IsProtected, SawCurrentParent, IsDeleted, IsForeign, IsGone, IsFresh, IsOwn, HasOpenConflict;
    hide IsProtectedChange, SawInvoice, Owned, Consistent, ChangedSince, Differing, IsClash, DecideEdit, FindOwned;
    NamesWhenOwn(db, user, c, k);
    var found, sent := FindOwned(db, k, user), WritableFields(k.t, c.data);
    if found.Some? { EditConflict(db, user, c, k, found.value, IsProtected(db, k.t, found, sent, user), BaseOf(c), sent); }
    FoundOwned(db, k, user);
    StateIs(db, k, user);
    FoundIs(db, k, user);
    ProtectedIs(db, user, k, c.data);
    if k.t == Item { SawIs(db, user, k, c.data, c.parent); }
  }

  lemma KeptPerformed(db: Db, user: UserId, c: Change, k: Key, protocol: nat, tx: Txid)
    requires Consistent(db) && k.t == c.t
    requires var r := Perform(db, user, k, Decide(db, user, c, k, protocol), tx); r.Done? && r.outcome.status == Conflicted
    ensures var r := Perform(db, user, k, Decide(db, user, c, k, protocol), tx);
            && IsKept(db, r.db, user, c, k, r.outcome)
            && IsOfKind(db, user, c, k, r.db.conflicts[db.nextConflict].kind, r.db.conflicts[db.nextConflict].conflicting)
  {
    hide Decide, ConflictFields, IsOfKind, Owned, WriteRecord, DeleteRecord, Consistent, FindOwned;
    DecidedKeep(db, user, c, k, protocol);
  }

  /** A change that is not applied but kept, sent for the first time, changes no record and is kept whole. */
  lemma KeptAsSent(db: Db, user: UserId, c: Change, protocol: nat, tx: Txid)
    requires Consistent(db) && IsWellFormed(c, protocol) && IsNew(db, user, c)
    requires Push(db, user, c, protocol, NoFault, tx).outcome.status == Conflicted
    ensures var p, k := Push(db, user, c, protocol, NoFault, tx), KeyOf(c);
            && IsKept(db, p.db, user, c, k, p.outcome)
            && IsOfKind(db, user, c, k, p.db.conflicts[db.nextConflict].kind, p.db.conflicts[db.nextConflict].conflicting)
  {
    hide Push, Perform, Decide, Consistent, IsKept, IsOfKind;
    FirstIsPerformed(db, user, c, protocol, tx);
    var r, k := WithRecordedChange(db, user, c), KeyOf(c);
    SameTablesConsistent(db, r);
    KeptPerformed(r, user, c, k, protocol, tx);
    var performed, p := Performed(db, user, c, protocol, tx), Push(db, user, c, protocol, NoFault, tx);
    SameKept(db, r, performed.db, p.db, user, c, k, p.outcome);
  }

  lemma SameKept(a: Db, b: Db, x: Db, y: Db, user: UserId, c: Change, k: Key, o: Outcome)
    requires SameTables(a, b) && SameTables(x, y) && IsKept(b, x, user, c, k, o)
    ensures IsKept(a, y, user, c, k, o)
    ensures IsOfKind(b, user, c, k, x.conflicts[b.nextConflict].kind, x.conflicts[b.nextConflict].conflicting) ==>
              IsOfKind(a, user, c, k, y.conflicts[a.nextConflict].kind, y.conflicts[a.nextConflict].conflicting)
  {
    SameConditions(a, b, user, k, c.data, c.parent);
    SameOwned(a, b, user);
    hide Owned, ConflictFields, IsGone, IsOwn, IsProtectedChange, SawInvoice;
  }
}
