/** Runs of the whole sync system, and what holds in every state they reach. */
module SyncRuns {
  import opened Basics
  import opened SyncModel
  import opened SyncPush
  import opened SyncConflicts
  import opened SyncInvariant
  import opened SyncResolution

  /** One transaction: a push, the other writers of the same tables, a resolution, retention. */
  datatype Step =
    | PushStep(user: UserId, change: Change, protocol: nat, fault: Fault)
    | ResolveStep(user: UserId, conflict: Id, action: Action, expected: Option<nat>)
    | ServerInsert(k: Key, user: UserId, data: Cols)
    | ServerUpdate(k: Key, data: Cols)
    | ServerSoftDelete(k: Key)
    | ServerDeleteItem(k: Key)
    | PruneTombstones(dropped: set<Key>)
    | PruneHistory(droppedRows: set<(Key, nat)>)
    | PruneConflicts(droppedConflicts: set<Id>)

  /** The state after a step; a step that is refused or does not apply changes nothing. */
  ghost function Next(db: Db, step: Step, tx: Txid): Db {
    match step
    case PushStep(user, change, protocol, fault) => Push(db, user, change, protocol, fault, tx).db
    case ResolveStep(user, id, action, expected) =>
      (match Resolve(db, user, id, action, expected, tx) case None => db case Some(d) => d)
    case ServerInsert(k, user, data) =>
      // REST writes and jobs take a fresh id; items go into an existing active invoice
      if k in db.tombstones || k in db.versions || !OnlyWritable(k.t, data) then db
      else (match WriteRecord(db, k, None, data, user, tx) case None => db case Some(d) => d)
    case ServerUpdate(k, data) =>
      if ServerMayWrite(db, k, data) then UpdateRow(db, k, db.rows[k].cols + data, tx) else db
    case ServerSoftDelete(k) =>
      if k in db.rows && k.t != Item && IsLive(db.rows[k]) then DeleteRecord(db, k, tx) else db
    case ServerDeleteItem(k) => if k in db.rows && k.t == Item then DeleteRecord(db, k, tx) else db
    case PruneTombstones(dropped) => DropTombstones(db, dropped)
    case PruneHistory(dropped) => db.(history := db.history - dropped)
    case PruneConflicts(dropped) =>
      db.(conflicts := map i | i in db.conflicts && (i !in dropped || db.conflicts[i].status == Open) :: db.conflicts[i])
  }

  /** Any column an application write may set; only sync moves an item to another invoice. */
  predicate ServerMayWrite(db: Db, k: Key, data: Cols) {
    && k in db.rows
    && OnlyWritable(k.t, data)
    && ColsAccepted(data)
    && InvoiceId !in data
  }

  ghost function Run(db: Db, steps: seq<Step>, tx: Txid): Db
    decreases |steps|
  {
    if steps == [] then db else Next(Run(db, steps[..|steps| - 1], tx), steps[|steps| - 1], tx + |steps| - 1)
  }


  // ---- every reachable state is consistent ----

  lemma ServerUpdateKeeps(db: Db, k: Key, data: Cols, tx: Txid)
    requires Consistent(db) && ServerMayWrite(db, k, data)
    ensures Consistent(UpdateRow(db, k, db.rows[k].cols + data, tx))
    ensures Updated(db, UpdateRow(db, k, db.rows[k].cols + data, tx), k, db.rows[k].cols + data)
    ensures Col(db.rows[k].cols + data, DeletedAt) == Col(db.rows[k].cols, DeletedAt)
  {
    hide RowOk, OnlyWritable, ColsAccepted, HistoriesOk, TombstonesOk, ItemsOk, IdsOk, UpdateRow, InExistingInvoice, Updated;
    RowIsOk(db, k);
    ColumnsAfterWrite(k.t, db.rows[k].cols, data);
    if k.t == Item { StaysInInvoice(db, k, data); }
    UpdateKeeps(db, k, db.rows[k].cols + data, tx);
    NotServerColumn(k.t, data);
  }

  lemma NotServerColumn(t: RecordType, data: Cols)
    requires OnlyWritable(t, data)
    ensures DeletedAt !in data && Owner !in data
  {
    ServerSetColumns(t, 0);
    hide Required, Defaults;
  }

  lemma ServerInsertKeeps(db: Db, k: Key, user: UserId, data: Cols, tx: Txid)
    requires Consistent(db) && k !in db.versions && OnlyWritable(k.t, data)
    requires WriteRecord(db, k, None, data, user, tx).Some?
    ensures Consistent(WriteRecord(db, k, None, data, user, tx).value)
    ensures k !in db.rows && WriteRecord(db, k, None, data, user, tx).value == InsertRow(db, k, NewColumns(k.t, data, user), tx)
  {
    hide RowOk, HistoriesOk, TombstonesOk, ItemsOk, OnlyWritable, InsertRow, NewColumns, ReferencesOk, ColsAccepted, Required;
    WriteKeeps(db, k, data, user, tx);
  }

  lemma PruneKeeps(db: Db, step: Step, tx: Txid)
    requires Consistent(db) && (step.PruneTombstones? || step.PruneHistory? || step.PruneConflicts?)
    ensures Consistent(Next(db, step, tx))
  {
    hide Push, Resolve, WriteRecord, UpdateRow, DeleteRecord, HistoriesOk, TombstonesOk, ItemsOk;
    FrameKeeps(db, Next(db, step, tx));
  }

  lemma NextKeeps(db: Db, step: Step, tx: Txid)
    requires Consistent(db)
    ensures Consistent(Next(db, step, tx))
  {
    hide Consistent, Push, Resolve, WriteRecord, UpdateRow, DeleteRecord, ServerMayWrite, IsLive, OnlyWritable;
    match step
    case PushStep(user, change, protocol, fault) => PushKeeps(db, user, change, protocol, fault, tx);
    case ResolveStep(user, id, action, expected) =>
      if Resolve(db, user, id, action, expected, tx).Some? { ResolveKeeps(db, user, id, action, expected, tx); }
    case ServerInsert(k, user, data) =>
      if k !in db.tombstones && k !in db.versions && OnlyWritable(k.t, data) && WriteRecord(db, k, None, data, user, tx).Some? {
        ServerInsertKeeps(db, k, user, data, tx);
      }
    case ServerUpdate(k, data) => if ServerMayWrite(db, k, data) { ServerUpdateKeeps(db, k, data, tx); }
    case ServerSoftDelete(k) => if k in db.rows { DeleteKeeps(db, k, tx); }
    case ServerDeleteItem(k) => if k in db.rows { DeleteKeeps(db, k, tx); }
    case PruneTombstones(_) => PruneKeeps(db, step, tx);
    case PruneHistory(_) => PruneKeeps(db, step, tx);
    case PruneConflicts(_) => PruneKeeps(db, step, tx);
  }

  /** Every state a run from the empty tables reaches is consistent: exact histories, no id both
    * live and tombstoned, every item in an existing invoice.
    */
  lemma {:induction false} RunConsistent(steps: seq<Step>, tx: Txid)
    ensures Consistent(Run(EMPTY, steps, tx))
    decreases |steps|
  {
    hide Next;
    if steps != [] {
      hide Consistent;
      RunConsistent(steps[..|steps| - 1], tx);
      NextKeeps(Run(EMPTY, steps[..|steps| - 1], tx), steps[|steps| - 1], tx + |steps| - 1);
    }
  }
}
