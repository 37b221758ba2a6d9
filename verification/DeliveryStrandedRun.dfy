/** One run that leaves a stranded line on the device: the line is moved to another invoice, that
  * invoice is deleted, and only then the device pulls.
  */
module DeliveryStrandedRun {
  import opened Basics
  import opened SyncModel
  import opened SyncPush
  import opened SyncInvariant
  import opened SyncRuns
  import opened SyncTotals
  import opened Delivery
  import opened DeliveryRuns
  import opened DeliveryExact
  import opened DeliveryStranded
  import Paging

  // ---- a whole pull in one page ----

  const PULL := [Ask(None), QueryNext, QueryNext, QueryNext, QueryNext, Event.Answer]

  /** One statement whose rows leave room on the page goes on to the next type. */
  lemma OneType(db: Db, r: Request)
    requires r.at.t < DONE && |Matching(db, r.q, r.at)| < r.remaining
    ensures !Answered(r)
    ensures var next := QueryType(db, r);
            next.q == r.q && next.at == Position(r.at.t + 1, None) && next.remaining == r.remaining - |Matching(db, r.q, r.at)|
  {
    hide Matching, Rows, Paging.AreEntries;
    Paging.RowsAre(db, r.q, r.at, r.remaining);
  }

  lemma FewMatch(db: Db, q: Query, at: Position)
    requires |db.rows| <= 100 && |db.tombstones| <= 100
    ensures |Matching(db, q, at)| <= 100
  {
    hide Deliverable, InWindow, Tombstoned;
    assert |db.rows| == |db.rows.Keys| && |db.tombstones| == |db.tombstones.Keys|;
    forall k | k in Matching(db, q, at) ensures if at.t == TOMBSTONES then k in db.tombstones else k in db.rows {
      MatchingHas(db, q, at, k);
    }
    SubsetSize(Matching(db, q, at), if at.t == TOMBSTONES then db.tombstones.Keys else db.rows.Keys);
  }

  lemma NextType(s: System)
    requires |s.db.rows| <= 100 && |s.db.tombstones| <= 100
    requires s.request.Some? && s.request.value.at.t < DONE && s.request.value.remaining > 100
    ensures var r, t := s.request.value, Happen(s, QueryNext);
            && t == s.(request := t.request) && t.request.Some? && t.request.value.q == r.q
            && t.request.value.at == Position(r.at.t + 1, None) && t.request.value.remaining >= r.remaining - 100
  {
    hide QueryType, Matching, Answered;
    FewMatch(s.db, s.request.value.q, s.request.value.at);
    OneType(s.db, s.request.value);
  }

  lemma AllTypes(s: System)
    requires |s.db.rows| <= 100 && |s.db.tombstones| <= 100
    requires s.request.Some? && s.request.value.at == Position(0, None) && s.request.value.remaining == 500
    ensures var t := Happen(Happen(Happen(Happen(s, QueryNext), QueryNext), QueryNext), QueryNext);
            && t == s.(request := t.request) && t.request.Some? && t.request.value.q == s.request.value.q
            && t.request.value.at == Position(DONE, None) && t.request.value.remaining > 0
  {
    hide Happen;
    var a := Happen(s, QueryNext);
    NextType(s);
    var b := Happen(a, QueryNext);
    NextType(a);
    var c := Happen(b, QueryNext);
    NextType(b);
    NextType(c);
  }

  lemma PullIs(s: System)
    ensures Reached(s, PULL) ==
              Happen(Happen(Happen(Happen(Happen(Happen(s, Ask(None)), QueryNext), QueryNext), QueryNext), QueryNext), Event.Answer)
  {
    hide Happen;
    var a := [Ask(None)];
    assert Reached(s, []) == s && [] + [Ask(None)] == a;
    ReachedNext(s, [], Ask(None));
    ReachedNext(s, a, QueryNext);
    ReachedNext(s, a + [QueryNext], QueryNext);
    ReachedNext(s, a + [QueryNext] + [QueryNext], QueryNext);
    ReachedNext(s, a + [QueryNext] + [QueryNext] + [QueryNext], QueryNext);
    ReachedNext(s, a + [QueryNext] + [QueryNext] + [QueryNext] + [QueryNext], Event.Answer);
    assert PULL == a + [QueryNext] + [QueryNext] + [QueryNext] + [QueryNext] + [Event.Answer];
  }

  /** With few rows, six events make a pull, and leave the device with everything committed. */
  lemma PulledAll(s: System)
    requires Invariant(s) && s.request == None && s.device.paging == None
    requires |s.db.rows| <= 100 && |s.db.tombstones| <= 100
    ensures var t := Reached(s, PULL);
            && t == s.(device := t.device) && t.device.user == s.device.user && t.device.paging == None
            && Invariant(t) && HasPulledAll(t)
  {
    hide Invariant, QueryType, CurrentSnapshot, ApplyAll, HasPulledAll, Reached;
    ReachedKeeps(s, PULL);
    PullIs(s);
    KnownNotAhead(s);
    var asked := Happen(s, Ask(None));
    assert asked.request == Some(Request(Query(s.device.user, s.device.cursor, CurrentSnapshot(s)), Position(0, None), 500, []));
    AllTypes(asked);
    SeesAllEnded(s, Reached(s, PULL));
  }

  lemma SeesAllEnded(s: System, t: System)
    requires Invariant(s) && t.next == s.next && t.running == s.running && t.device.cursor == Some(CurrentSnapshot(s))
    ensures HasPulledAll(t)
  {
    hide CursorOk, PagingOk, RequestOk, CurrentSnapshot, Consistent, AllEnded;
    forall tx: Txid | Ended(t, tx) ensures Visible(t.device.cursor.value, tx) { SnapshotSees(s, tx); }
  }

  // ---- the tables at the start ----

  const USER: UserId := 7
  const CLIENT := Key(Client, 1)
  const OLD := Key(Invoice, 1)
  const NEW := Key(Invoice, 2)
  const LINE := Key(Item, 1)

  const SETUP := [
    ServerInsert(CLIENT, USER, map[Name := Text("client")]),
    ServerInsert(OLD, USER, INVOICE),
    ServerInsert(NEW, USER, INVOICE),
    ServerInsert(LINE, USER, IN_OLD)]

  const INVOICE: Cols := map[ClientId := Ref(1), Number := Text("number"), IssueDate := Text("2026-01-01")]

  const IN_OLD: Cols := map[InvoiceId := Ref(1), Description := Text("line")]

  /** What the run relies on: the client, two open invoices and one line of the first. */
  predicate IsSetUp(db: Db, invoices: set<Key>) {
    && CLIENT in db.rows && IsLive(db.rows[CLIENT]) && Col(db.rows[CLIENT].cols, Owner) == User(USER)
    && forall i :: i in invoices ==>
         i in db.rows && IsLive(db.rows[i]) && Col(db.rows[i].cols, Owner) == User(USER) && Col(db.rows[i].cols, InvoiceStatus) == StatusIs(Draft)
  }

  predicate IsUsed(db: Db, keys: set<Key>, n: nat) {
    && db.rows.Keys == keys && db.versions.Keys == keys && db.tombstones == map[] && db.changes == map[]
    && forall k :: k in db.rows ==> db.rows[k].txid < n
  }

  /** An insert under a fresh id, as the service makes it. */
  lemma Inserted(db: Db, k: Key, data: Cols, tx: Txid, keys: set<Key>)
    requires IsUsed(db, keys, tx) && k !in keys
    requires OnlyWritable(k.t, data) && ColsAccepted(data) && Required(k.t) <= data.Keys && ReferencesOk(db, k.t, None, data, USER)
    ensures var d := Next(db, ServerInsert(k, USER, data), tx);
            && IsUsed(d, keys + {k}, tx + 1) && d.rows == db.rows[k := Row(NewColumns(k.t, data, USER), 1, tx)]
  {
    hide OnlyWritable, ColsAccepted, Required, NewColumns, ReferencesOk;
  }

  lemma OneMoreStep(db: Db, steps: seq<Step>, step: Step, tx: Txid)
    ensures Run(db, steps + [step], tx) == Next(Run(db, steps, tx), step, tx + |steps|)
  {
    hide Next;
    assert (steps + [step])[..|steps|] == steps;
  }

  lemma ClientInserted()
    ensures var d := Next(EMPTY, SETUP[0], 0); IsUsed(d, {CLIENT}, 1) && IsSetUp(d, {})
  {
    var data: Cols := map[Name := Text("client")];
    assert OnlyWritable(Client, data) && ColsAccepted(data);
    Inserted(EMPTY, CLIENT, data, 0, {});
  }

  lemma InvoiceInserted(db: Db, i: Key, tx: Txid, keys: set<Key>, invoices: set<Key>)
    requires IsUsed(db, keys, tx) && i.t == Invoice && i !in keys && IsSetUp(db, invoices) && CLIENT in keys
    ensures var d := Next(db, ServerInsert(i, USER, INVOICE), tx); IsUsed(d, keys + {i}, tx + 1) && IsSetUp(d, invoices + {i})
  {
    hide OnlyWritable, ColsAccepted, NewColumns, Next, Required, ReferencesOk;
    InvoiceColumns();
    NewInvoice();
    InvoiceReferences(db, invoices);
    Inserted(db, i, INVOICE, tx, keys);
  }

  lemma InvoiceReferences(db: Db, invoices: set<Key>)
    requires IsSetUp(db, invoices)
    ensures ReferencesOk(db, Invoice, None, INVOICE, USER)
  {
  }

  lemma InvoiceColumns()
    ensures OnlyWritable(Invoice, INVOICE) && ColsAccepted(INVOICE) && Required(Invoice) <= INVOICE.Keys
  {
    hide Defaults;
  }

  lemma NewInvoice()
    ensures var cols := NewColumns(Invoice, INVOICE, USER);
            Col(cols, Owner) == User(USER) && Col(cols, DeletedAt) == Null && Col(cols, InvoiceStatus) == StatusIs(Draft)
  {
    assert InvoiceStatus in Defaults(Invoice) && Defaults(Invoice)[InvoiceStatus] == StatusIs(Draft);
    hide Defaults;
  }

  lemma LineColumns()
    ensures OnlyWritable(Item, IN_OLD) && ColsAccepted(IN_OLD) && Required(Item) <= IN_OLD.Keys
    ensures Col(NewColumns(Item, IN_OLD, USER), InvoiceId) == Ref(1)
  {
    NewLineInvoice(IN_OLD, USER);
  }

  lemma LineReferences(db: Db)
    requires IsSetUp(db, {OLD, NEW})
    ensures ReferencesOk(db, Item, None, IN_OLD, USER)
  {
    assert OLD in {OLD, NEW};
  }

  lemma LineInserted(db: Db, tx: Txid, keys: set<Key>)
    requires IsUsed(db, keys, tx) && LINE !in keys && IsSetUp(db, {OLD, NEW})
    ensures var d := Next(db, SETUP[3], tx);
            && IsUsed(d, keys + {LINE}, tx + 1) && IsSetUp(d, {OLD, NEW})
            && d.rows[LINE].revision == 1 && Col(d.rows[LINE].cols, InvoiceId) == Ref(1)
  {
    hide OnlyWritable, ColsAccepted, NewColumns, Required, ReferencesOk, Next;
    LineColumns();
    LineReferences(db);
    Inserted(db, LINE, IN_OLD, tx, keys);
  }

  lemma SetUp() returns (db: Db)
    ensures db == Run(EMPTY, SETUP, 0) && Consistent(db)
    ensures IsUsed(db, {CLIENT, OLD, NEW, LINE}, 4) && IsSetUp(db, {OLD, NEW})
    ensures db.rows[LINE].revision == 1 && Col(db.rows[LINE].cols, InvoiceId) == Ref(1)
  {
    hide Next, Consistent, Run, IsUsed, IsSetUp;
    assert Run(EMPTY, [], 0) == EMPTY by { NoStep(); }
    db := EMPTY;
    OneMoreStep(EMPTY, [], SETUP[0], 0);
    ClientInserted();
    OneMoreStep(EMPTY, SETUP[..1], SETUP[1], 0);
    assert [] + [SETUP[0]] == SETUP[..1] && SETUP[..1] + [SETUP[1]] == SETUP[..2];
    assert {CLIENT} + {OLD} == {CLIENT, OLD} && {} + {OLD} == {OLD};
    assert {CLIENT, OLD} + {NEW} == {CLIENT, OLD, NEW} && {OLD} + {NEW} == {OLD, NEW};
    assert {CLIENT, OLD, NEW} + {LINE} == {CLIENT, OLD, NEW, LINE};
    InvoiceInserted(Run(EMPTY, SETUP[..1], 0), OLD, 1, {CLIENT}, {});
    OneMoreStep(EMPTY, SETUP[..2], SETUP[2], 0);
    assert SETUP[..2] + [SETUP[2]] == SETUP[..3];
    InvoiceInserted(Run(EMPTY, SETUP[..2], 0), NEW, 2, {CLIENT, OLD}, {OLD});
    OneMoreStep(EMPTY, SETUP[..3], SETUP[3], 0);
    assert SETUP[..3] + [SETUP[3]] == SETUP;
    LineInserted(Run(EMPTY, SETUP[..3], 0), 3, {CLIENT, OLD, NEW});
    db := Run(EMPTY, SETUP, 0);
    RunConsistent(SETUP, 0);
  }

  lemma NoStep()
    ensures Run(EMPTY, [], 0) == EMPTY
  {
  }

  // ---- the two writes ----

  const TO_NEW: Cols := map[InvoiceId := Ref(2)]

  const CHANGE := Change(Some(1), Some(1), None, Item, Some(1), Update, TO_NEW)

  const MOVE := PushStep(USER, CHANGE, 2, NoFault)

  const REMOVE := ServerSoftDelete(NEW)

  const KEYS := {CLIENT, OLD, NEW, LINE}

  predicate HasLine(db: Db, invoice: Id) {
    && db.rows.Keys == KEYS && db.tombstones == map[] && IsSetUp(db, {OLD, NEW})
    && Col(db.rows[LINE].cols, InvoiceId) == Ref(invoice)
  }

  lemma MoveData()
    ensures WritableFields(Item, TO_NEW) == TO_NEW && OnlyWritable(Item, TO_NEW) && ColsAccepted(TO_NEW)
  {
  }

  lemma SetUpInvoices(db: Db)
    requires IsSetUp(db, {OLD, NEW})
    ensures forall i :: i == OLD || i == NEW ==>
              i in db.rows && IsLive(db.rows[i]) && Col(db.rows[i].cols, Owner) == User(USER) && Col(db.rows[i].cols, InvoiceStatus) == StatusIs(Draft)
  {
    assert OLD in {OLD, NEW} && NEW in {OLD, NEW};
  }

  lemma LineIsOwned(db: Db)
    requires HasLine(db, 1)
    ensures Owned(db, LINE, USER) && !IsProtected(db, Item, Some(db.rows[LINE]), TO_NEW, USER)
    ensures ReferencesOk(db, Item, Some(db.rows[LINE]), TO_NEW, USER)
  {
    hide IsLive;
    SetUpInvoices(db);
    hide IsSetUp;
  }

  lemma LineIsThere(db: Db)
    requires Consistent(db) && HasLine(db, 1)
    ensures LINE in db.rows && FindOwned(db, LINE, USER) == Some(db.rows[LINE]) && LINE !in db.tombstones && !IsDeleted(db, LINE, Some(db.rows[LINE]))
  {
    hide Consistent, Owned, IsProtected, IsSetUp, IsLive, ReferencesOk;
    LineIsOwned(db);
    ItemsAreLive(db, LINE);
  }

  lemma MoveDecided(db: Db)
    requires Consistent(db) && HasLine(db, 1) && db.rows[LINE].revision == 1
    ensures Decide(db, USER, CHANGE, LINE, 2) == Write(TO_NEW, Applied, true)
  {
    hide Consistent, HasLine, FindOwned, IsDeleted, IsProtected, WritableFields, SawCurrentParent, ConflictOf, ReferencesOk, Owned;
    LineIsThere(db);
    LineIsOwned(db);
    MoveData();
    assert DecideEdit(db, USER, CHANGE, LINE, db.rows[LINE], false, 1, TO_NEW) == Write(TO_NEW, Applied, true);
    hide DecideEdit;
  }

  lemma MoveWritten(db: Db, tx: Txid)
    requires Consistent(db) && HasLine(db, 1)
    ensures var w := WriteRecord(db, LINE, FindOwned(db, LINE, USER), TO_NEW, USER, tx);
            && w.Some? && HasLine(w.value, 2)
  {
    hide HistoriesOk, TombstonesOk, ItemsOk, IdsOk, UpdateRow, RowOk, OnlyWritable, ReferencesOk, ColsAccepted, IsProtected, Owned, IsSetUp;
    LineIsOwned(db);
    MoveData();
    RowIsOk(db, LINE);
    ColumnsAfterWrite(Item, db.rows[LINE].cols, TO_NEW);
    UpdateShape(db, LINE, db.rows[LINE].cols + TO_NEW, tx);
    NoItemIsDeleted(db.rows[LINE].cols);
    NoItemIsDeleted(db.rows[LINE].cols + TO_NEW);
    SameSetUp(db, UpdateRow(db, LINE, db.rows[LINE].cols + TO_NEW, tx));
  }

  lemma NoItemIsDeleted(cols: Cols)
    requires RowOk(Item, cols)
    ensures Col(cols, DeletedAt) == Null
  {
    hide ColsAccepted;
    assert !IsColumn(Item, DeletedAt);
  }

  lemma SameSetUp(a: Db, b: Db)
    requires IsSetUp(a, {OLD, NEW}) && a.rows.Keys == b.rows.Keys && forall k :: k in a.rows && k.t != Item ==> b.rows[k].cols == a.rows[k].cols
    ensures IsSetUp(b, {OLD, NEW})
  {
  }

  lemma MoveIs(db: Db, tx: Txid)
    requires db.changes == map[]
    requires var r := WithRecordedChange(db, USER, CHANGE);
             && Decide(r, USER, CHANGE, LINE, 2) == Write(TO_NEW, Applied, true)
             && WriteRecord(r, LINE, FindOwned(r, LINE, USER), TO_NEW, USER, tx).Some?
    ensures var r := WithRecordedChange(db, USER, CHANGE);
            SameTables(Next(db, MOVE, tx), WriteRecord(r, LINE, FindOwned(r, LINE, USER), TO_NEW, USER, tx).value)
  {
    hide Decide, WriteRecord, FindOwned;
    assert Validate(CHANGE, 2) == None;
  }

  lemma SameLine(a: Db, b: Db, invoice: Id)
    requires SameTables(a, b)
    ensures HasLine(a, invoice) == HasLine(b, invoice)
  {
  }

  /** The device's change moves the line to the other invoice. */
  lemma Moved(db: Db, tx: Txid)
    requires Consistent(db) && HasLine(db, 1) && db.rows[LINE].revision == 1 && db.changes == map[]
    ensures HasLine(Next(db, MOVE, tx), 2)
  {
    hide Consistent, WriteRecord, Decide, IsSetUp, FindOwned, Next;
    var r := WithRecordedChange(db, USER, CHANGE);
    assert SameTables(db, r);
    SameTablesConsistent(db, r);
    SameLine(db, r, 1);
    MoveDecided(r);
    MoveWritten(r, tx);
    MoveIs(db, tx);
    SameLine(Next(db, MOVE, tx), WriteRecord(r, LINE, FindOwned(r, LINE, USER), TO_NEW, USER, tx).value, 2);
  }

  lemma RemoveIs(db: Db, tx: Txid)
    requires NEW in db.rows && IsLive(db.rows[NEW])
    ensures Next(db, REMOVE, tx) == UpdateRow(db, NEW, db.rows[NEW].cols[DeletedAt := At(tx)], tx)
  {
    hide UpdateRow, IsLive;
  }

  lemma DeletedRow(db: Db, k: Key, tx: Txid)
    requires Consistent(db) && k in db.rows && k.t != Item
    ensures RowOk(k.t, db.rows[k].cols) && RowOk(k.t, db.rows[k].cols[DeletedAt := At(tx)])
  {
    hide TombstonesOk, ItemsOk, IdsOk, RowOk;
    RowIsOk(db, k);
    DeletedColumns(k.t, db.rows[k].cols, At(tx));
  }

  /** Then that invoice is deleted: the line is stranded, and the only tombstone is the invoice's. */
  lemma Removed(db: Db, tx: Txid)
    requires Consistent(db) && HasLine(db, 2)
    ensures var d := Next(db, REMOVE, tx);
            IsStranded(d, LINE) && d.tombstones.Keys == {NEW} && d.rows.Keys == KEYS
  {
    hide Consistent, UpdateRow, RowOk, IsSetUp, Next;
    SetUpInvoices(db);
    DeletedRow(db, NEW, tx);
    RemoveIs(db, tx);
    UpdateShape(db, NEW, db.rows[NEW].cols[DeletedAt := At(tx)], tx);
  }

  // ---- the run ----

  const EVENTS := PULL + [Begin, Commit(10, [MOVE]), Begin, Commit(11, [REMOVE])] + PULL

  lemma StartOk(db: Db) returns (s: System)
    requires Consistent(db) && IsUsed(db, KEYS, 4)
    ensures s == System(db, 10, {}, 10, Device(USER, map[], None, None), None) && Initial(s)
  {
    hide Consistent, Deliverable;
    s := System(db, 10, {}, 10, Device(USER, map[], None, None), None);
  }

  lemma Written(s: System, tx: Txid, step: Step)
    requires Invariant(s) && s.next == tx && s.running == {} && s.ceiling == tx && s.request == None
    ensures var t := Happen(Happen(s, Begin), Commit(tx, [step]));
            && t == s.(db := Next(s.db, step, tx), next := tx + 1, ceiling := tx + 1)
            && Invariant(t)
  {
    hide Invariant, Next;
    HappenKeeps(s, Begin);
    HappenKeeps(Happen(s, Begin), Commit(tx, [step]));
    assert [step][1..] == [];
    assert Effect(s.db, [step], tx) == Next(s.db, step, tx);
    assert {} + {tx} - {tx} == {};
  }

  /** After the first pull the device holds the line under its first invoice, */
  lemma FirstPull(s: System)
    requires Initial(s) && s.device.user == USER && HasLine(s.db, 1)
    ensures var t := Reached(s, PULL);
            && t == s.(device := t.device) && t.device.user == USER && t.device.paging == None && Invariant(t)
            && LINE in t.device.replica && Col(t.device.replica[LINE].cols, InvoiceId) == Ref(1)
  {
    hide Invariant, Reached, HasPulledAll, Deliverable, IsSetUp;
    InitialOk(s);
    assert |s.db.rows| == |KEYS| <= 100 by { FewRows(s.db); }
    PulledAll(s);
    LineIsDeliverable(s.db);
    DeliverableIsHeld(Reached(s, PULL), LINE);
  }

  lemma FewRows(db: Db)
    requires db.rows.Keys == KEYS
    ensures |db.rows| == |KEYS| <= 100
  {
    assert |db.rows| == |db.rows.Keys|;
  }

  lemma LineIsDeliverable(db: Db)
    requires Consistent(db) && HasLine(db, 1)
    ensures Deliverable(db, USER, LINE)
  {
    ItemsAreLive(db, LINE);
    SetUpInvoices(db);
    hide Consistent, IsSetUp;
  }

  /** and after the two commits it is stuck there. */
  lemma ThenStuck(s: System)
    requires Invariant(s) && s.next == 10 && s.running == {} && s.ceiling == 10 && s.request == None && s.device.paging == None
    requires HasLine(s.db, 1) && s.db.rows[LINE].revision == 1 && s.db.changes == map[]
    requires LINE in s.device.replica && Col(s.device.replica[LINE].cols, InvoiceId) == Ref(1)
    ensures var t := Happen(Happen(Happen(Happen(s, Begin), Commit(10, [MOVE])), Begin), Commit(11, [REMOVE]));
            && IsStuck(t, LINE) && Invariant(t) && t.request == None && t.device == s.device
            && |t.db.rows| <= 100 && |t.db.tombstones| <= 100
  {
    hide Next, Happen, IsSetUp, IsStranded, CursorOk, PagingOk, RequestOk, Consistent, AllEnded;
    Written(s, 10, MOVE);
    var moved := Happen(Happen(s, Begin), Commit(10, [MOVE]));
    Moved(s.db, 10);
    Written(moved, 11, REMOVE);
    var removed := Happen(Happen(moved, Begin), Commit(11, [REMOVE]));
    Removed(moved.db, 11);
    FewRows(removed.db);
    assert |removed.db.tombstones| == |removed.db.tombstones.Keys|;
  }

  lemma NothingPruned(s: System, events: seq<Event>)
    requires forall i :: 0 <= i < |events| && events[i].Commit? ==> events[i].steps == [MOVE] || events[i].steps == [REMOVE]
    ensures AllRetain(s, events)
  {
    hide Reached;
  }

  /** A run from tables the service itself can have made: everything is pulled, and the device still
    * holds the line, under its first invoice, although a full comparison would not give it.
    */
  lemma MovedThenDeletedIsStranded() returns (start: System)
    ensures start.db == Run(EMPTY, SETUP, 0) && Initial(start) && AllRetain(start, EVENTS)
    ensures var s := Reached(start, EVENTS);
            && HasPulledAll(s) && !HoldsExactly(s)
            && LINE in s.device.replica && IsStranded(s.db, LINE) && Col(s.device.replica[LINE].cols, InvoiceId) == Ref(1)
  {
    hide Reached, Happen, HasPulledAll, HoldsExactly, Invariant, Initial, AllRetain, IsStranded, IsSetUp, Consistent, IsStuck;
    var db := SetUp();
    start := StartOk(db);
    FirstPull(start);
    var pulled := Reached(start, PULL);
    ThenStuck(pulled);
    var writes := [Begin, Commit(10, [MOVE]), Begin, Commit(11, [REMOVE])];
    WritesAre(pulled);
    ReachedAfter(start, PULL, writes);
    var stuck := Reached(pulled, writes);
    PulledAll(stuck);
    ReachedAfter(start, PULL + writes, PULL);
    NothingPruned(start, PULL + writes);
    NothingPruned(start, EVENTS);
    ExactIffNoneStuck(start, PULL + writes, PULL);
    StuckStays(start, PULL + writes, PULL, LINE);
  }

  lemma WritesAre(s: System)
    ensures Reached(s, [Begin, Commit(10, [MOVE]), Begin, Commit(11, [REMOVE])])
         == Happen(Happen(Happen(Happen(s, Begin), Commit(10, [MOVE])), Begin), Commit(11, [REMOVE]))
  {
    hide Happen;
    var a: seq<Event> := [];
    assert Reached(s, a) == s;
    ReachedNext(s, a, Begin);
    ReachedNext(s, a + [Begin], Commit(10, [MOVE]));
    ReachedNext(s, a + [Begin] + [Commit(10, [MOVE])], Begin);
    ReachedNext(s, a + [Begin] + [Commit(10, [MOVE])] + [Begin], Commit(11, [REMOVE]));
    assert a + [Begin] + [Commit(10, [MOVE])] + [Begin] + [Commit(11, [REMOVE])] == [Begin, Commit(10, [MOVE]), Begin, Commit(11, [REMOVE])];
  }

  lemma StuckStays(start: System, earlier: seq<Event>, later: seq<Event>, k: Key)
    requires Initial(start) && AllRetain(start, earlier) && IsQuiet(later)
    requires var s := Reached(start, earlier); s.request == None && IsStuck(s, k)
    ensures var s := Reached(start, earlier); var t := Reached(s, later);
            && k in t.device.replica && IsStranded(t.db, k) && t.device.replica[k] == s.device.replica[k]
  {
    hide Initial, AllRetain, Reached, Invariant, HoldsOwn, IsStranded;
    ReachedOk(start, earlier);
    ReachedHolds(start, earlier);
    ReachedOnlyPulls(Reached(start, earlier), later);
  }
}
