/** When a device that has pulled everything holds exactly what the server would give it. */
module DeliveryExact {
  import opened Basics
  import opened SyncModel
  import opened SyncInvariant
  import opened SyncRuns
  import opened Delivery
  import opened DeliveryBelongs
  import opened DeliverySteps
  import opened DeliveryRuns

  // ---- what is on the device is the user's ----

  ghost predicate AllBelong(db: Db, user: UserId, replica: Replica) {
    forall k :: k in replica ==> Belongs(db, user, k)
  }

  ghost predicate HoldsOwn(s: System) {
    && AllBelong(s.db, s.device.user, s.device.replica)
    && (s.request.Some? ==> AllBelong(s.db, s.device.user, ApplyAll(s.device.replica, s.request.value.entries)))
  }

  /** Retention: tombstones are dropped in a transaction of their own, and only those the device has
    * received, or while it holds nothing.
    */
  ghost predicate Retains(s: System, e: Event) {
    e.Commit? ==>
      || (forall i :: 0 <= i < |e.steps| ==> !e.steps[i].PruneTombstones?)
      || (|e.steps| == 1 && e.steps[0].PruneTombstones? && forall k :: k in e.steps[0].dropped ==> MayDrop(s, k))
  }

  predicate MayDrop(s: System, k: Key) {
    Tombstoned(s.db, s.device.user, k) ==>
      if s.device.cursor.Some? then Visible(s.device.cursor.value, s.db.tombstones[k].txid)
      else s.device.replica == map[] && s.request == None
  }

  ghost predicate AllRetain(s: System, events: seq<Event>) {
    forall n :: 0 <= n < |events| ==> Retains(Reached(s, events[..n]), events[n])
  }

  lemma {:induction false} EffectKept(db: Db, steps: seq<Step>, tx: Txid)
    requires Consistent(db) && forall i :: 0 <= i < |steps| ==> !steps[i].PruneTombstones?
    ensures Kept(db, Effect(db, steps, tx)) && Joins(db, Effect(db, steps, tx))
    decreases |steps|
  {
    hide Consistent, Next, Belongs, IsSomebodys;
    if steps != [] {
      var d := Next(db, steps[0], tx);
      NextKeeps(db, steps[0], tx);
      NextFollows(db, steps[0], tx);
      EffectKept(d, steps[1..], tx);
      JoinsTransitive(db, d, Effect(d, steps[1..], tx));
    }
  }

  /** Dropping other ids' tombstones. */
  lemma PruneKept(db: Db, dropped: set<Key>, u: UserId, k: Key)
    requires Belongs(db, u, k) && !(k in dropped && k in db.tombstones)
    ensures Belongs(DropTombstones(db, dropped), u, k)
  {
  }

  /** A tombstone the device has received is of no id it holds. */
  lemma ReceivedIsGone(s: System, q: Query, at: Position, replica: Replica, k: Key)
    requires PullOk(s, q, at, replica) && s.device.cursor.Some?
    requires Tombstoned(s.db, s.device.user, k) && Visible(s.device.cursor.value, s.db.tombstones[k].txid)
    ensures k !in replica
  {
    hide Visible, HasRows, Issued, Passed;
    assert Delivered(q.from, s.db.tombstones[k].txid);
    assert DueTombstone(s.db, q, at, k);
  }

  lemma SettledIsGone(s: System, k: Key)
    requires CursorOk(s) && s.device.cursor.Some?
    requires Tombstoned(s.db, s.device.user, k) && Visible(s.device.cursor.value, s.db.tombstones[k].txid)
    ensures k !in s.device.replica
  {
    hide Visible, HasRows, Issued, Deliverable, Tombstoned;
    DueWhenSettled(s, k);
  }

  lemma CommitHolds(s: System, tx: Txid, steps: seq<Step>)
    requires Invariant(s) && HoldsOwn(s) && Retains(s, Commit(tx, steps))
    ensures HoldsOwn(End(s, tx, Effect(s.db, steps, tx)))
  {
    hide Belongs, ApplyAll, UpToDate, Visible, Issued, Consistent, AllEnded, Tombstoned;
    if forall i :: 0 <= i < |steps| ==> !steps[i].PruneTombstones? {
      EffectKept(s.db, steps, tx);
    } else {
      var dropped := steps[0].dropped;
      assert Effect(s.db, steps, tx) == DropTombstones(s.db, dropped) by { OneStep(s.db, steps, tx); }
      forall k | k in s.device.replica ensures Belongs(DropTombstones(s.db, dropped), s.device.user, k) {
        HeldIsNotDropped(s, dropped, k);
        PruneKept(s.db, dropped, s.device.user, k);
      }
      if s.request.Some? {
        var r := s.request.value;
        var replica := ApplyAll(s.device.replica, r.entries);
        forall k | k in replica ensures Belongs(DropTombstones(s.db, dropped), s.device.user, k) {
          RequestedIsNotDropped(s, dropped, k);
          PruneKept(s.db, dropped, s.device.user, k);
        }
      }
    }
  }

  lemma OneStep(db: Db, steps: seq<Step>, tx: Txid)
    requires |steps| == 1 && steps[0].PruneTombstones?
    ensures Effect(db, steps, tx) == DropTombstones(db, steps[0].dropped)
  {
    hide Next;
    assert steps[1..] == [];
    assert Effect(db, steps, tx) == Next(db, steps[0], tx);
    PruneIs(db, steps[0], tx);
  }

  lemma PruneIs(db: Db, step: Step, tx: Txid)
    requires step.PruneTombstones?
    ensures Next(db, step, tx) == DropTombstones(db, step.dropped)
  {
  }

  lemma BelongsTombstone(db: Db, u: UserId, k: Key)
    requires Belongs(db, u, k) && k in db.tombstones
    ensures Tombstoned(db, u, k)
  {
  }

  lemma HeldIsNotDropped(s: System, dropped: set<Key>, k: Key)
    requires Invariant(s) && HoldsOwn(s) && k in s.device.replica && forall j :: j in dropped ==> MayDrop(s, j)
    ensures !(k in dropped && k in s.db.tombstones)
  {
    hide Belongs, ApplyAll, UpToDate, Visible, Issued, TransactionsOk, Tombstoned;
    if k in dropped && k in s.db.tombstones {
      BelongsTombstone(s.db, s.device.user, k);
      if s.device.cursor.Some? { SettledIsGone(s, k); }
    }
  }

  lemma RequestedIsNotDropped(s: System, dropped: set<Key>, k: Key)
    requires Invariant(s) && HoldsOwn(s) && s.request.Some? && forall j :: j in dropped ==> MayDrop(s, j)
    requires k in ApplyAll(s.device.replica, s.request.value.entries)
    ensures !(k in dropped && k in s.db.tombstones)
  {
    hide Belongs, ApplyAll, UpToDate, Visible, Issued, TransactionsOk, Tombstoned;
    if k in dropped && k in s.db.tombstones {
      BelongsTombstone(s.db, s.device.user, k);
      if s.device.cursor.Some? {
        var r := s.request.value;
        ReceivedIsGone(s, r.q, r.at, ApplyAll(s.device.replica, r.entries), k);
      }
    }
  }

  lemma DeliverableBelongs(db: Db, user: UserId, k: Key)
    requires Consistent(db) && k in db.rows && Deliverable(db, user, k)
    ensures Belongs(db, user, k)
  {
    hide HistoriesOk, ItemsOk, IsLive;
  }

  lemma {:induction false} RowsBelong(db: Db, q: Query, at: Position, n: nat, replica: Replica)
    requires Consistent(db) && at.t < DONE && AllBelong(db, q.user, replica)
    ensures AllBelong(db, q.user, ApplyAll(replica, Rows(db, q, at, n)))
    decreases n
  {
    hide Consistent, Belongs, First, Matching, Apply, EntryFor, IsFirst;
    var rows := Rows(db, q, at, n);
    if rows != [] {
      var k := First(Matching(db, q, at));
      FirstBelongs(db, q, at, replica);
      assert rows[1..] == Rows(db, q, Position(at.t, Some(k)), n - 1);
      RowsBelong(db, q, Position(at.t, Some(k)), n - 1, Apply(replica, rows[0]));
    }
  }

  lemma FirstBelongs(db: Db, q: Query, at: Position, replica: Replica)
    requires Consistent(db) && at.t < DONE && AllBelong(db, q.user, replica) && Matching(db, q, at) != {}
    ensures var k := First(Matching(db, q, at));
            (at.t != TOMBSTONES ==> k in db.rows) && AllBelong(db, q.user, Apply(replica, EntryFor(db, at, k)))
  {
    hide Consistent, Belongs, Deliverable, InWindow, Tombstoned;
    var k := First(Matching(db, q, at));
    MatchingHas(db, q, at, k);
    if at.t != TOMBSTONES { DeliverableBelongs(db, q.user, k); }
  }

  lemma QueryHolds(s: System)
    requires Invariant(s) && HoldsOwn(s) && s.request.Some? && !Answered(s.request.value)
    ensures HoldsOwn(s.(request := Some(QueryType(s.db, s.request.value))))
  {
    hide Belongs, ApplyAll, UpToDate, Issued, AllEnded, Rows, Consistent;
    var r := s.request.value;
    RowsBelong(s.db, r.q, r.at, r.remaining, ApplyAll(s.device.replica, r.entries));
    ApplyAppend(s.device.replica, r.entries, Rows(s.db, r.q, r.at, r.remaining));
  }

  lemma HappenHolds(s: System, e: Event)
    requires Invariant(s) && HoldsOwn(s) && Retains(s, e)
    ensures HoldsOwn(Happen(s, e))
  {
    hide Belongs, Invariant, Effect, QueryType, End, Answered, Retains;
    if Enabled(s, e) {
      match e
      case Commit(tx, steps) => CommitHolds(s, tx, steps);
      case QueryNext => QueryHolds(s);
      case Abort(tx) => AbortHolds(s, tx);
      case Ask(limit) => assert ApplyAll(s.device.replica, []) == s.device.replica;
      case _ =>
    }
  }

  lemma AbortHolds(s: System, tx: Txid)
    requires HoldsOwn(s)
    ensures HoldsOwn(End(s, tx, s.db))
  {
    hide Belongs, ApplyAll;
  }

  lemma {:induction false} ReachedHolds(s: System, events: seq<Event>)
    requires Initial(s) && AllRetain(s, events)
    ensures HoldsOwn(Reached(s, events))
    decreases |events|
  {
    hide Initial, Happen, Retains, Belongs;
    if events == [] {
      NothingHeld(s);
    } else {
      var before := events[..|events| - 1];
      forall n | 0 <= n < |before| ensures Retains(Reached(s, before[..n]), before[n]) {
        assert before[..n] == events[..n];
      }
      ReachedHolds(s, before);
      ReachedOk(s, before);
      hide Invariant, HoldsOwn;
      HappenHolds(Reached(s, before), events[|events| - 1]);
    }
  }

  lemma NothingHeld(s: System)
    requires Initial(s)
    ensures HoldsOwn(s)
  {
    hide Consistent, AllEnded, Belongs;
  }

  // ---- exactly what the server would give ----

  /** Nothing has been committed since the last complete pull began. */
  ghost predicate HasPulledAll(s: System) {
    s.device.cursor.Some? && forall tx: Txid :: Ended(s, tx) ==> Visible(s.device.cursor.value, tx)
  }

  /** A line whose invoice, on the server, is deleted. */
  predicate IsStranded(db: Db, k: Key) {
    k.t == Item && k in db.rows && Col(db.rows[k].cols, InvoiceId).Ref?
    && var i := Key(Invoice, Col(db.rows[k].cols, InvoiceId).id); i in db.rows && !IsLive(db.rows[i])
  }

  ghost predicate HoldsExactly(s: System) {
    forall k :: (k in s.device.replica <==> k in s.db.rows && Deliverable(s.db, s.device.user, k))
                && (k in s.device.replica && k in s.db.rows ==> s.device.replica[k] == CopyOf(s.db.rows[k]))
  }

  /** What the device holds, it may have, unless it is stranded. */
  lemma HeldIsDeliverable(s: System, k: Key)
    requires Invariant(s) && HoldsOwn(s) && HasPulledAll(s) && k in s.device.replica
    ensures k in s.db.rows && (Deliverable(s.db, s.device.user, k) <==> !IsStranded(s.db, k))
  {
    hide Consistent, UpToDate, Issued, PagingOk, RequestOk, Visible, Ended, ApplyAll, Tombstoned, IsLive;
    if k in s.db.tombstones {
      BelongsTombstone(s.db, s.device.user, k);
      SettledIsGone(s, k);
    }
  }

  lemma DeliverableIsHeld(s: System, k: Key)
    requires Invariant(s) && HasPulledAll(s) && k in s.db.rows && Deliverable(s.db, s.device.user, k)
    ensures k in s.device.replica && s.device.replica[k] == CopyOf(s.db.rows[k])
  {
    hide Consistent, Issued, PagingOk, RequestOk, Visible, Ended, ApplyAll, Deliverable, LacksDeleted;
    DueWhenSettled(s, k);
  }

  lemma ExactIff(s: System)
    requires Invariant(s) && HoldsOwn(s) && HasPulledAll(s)
    ensures HoldsExactly(s) <==> forall k :: k in s.device.replica ==> !IsStranded(s.db, k)
  {
    hide Invariant, HoldsOwn, HasPulledAll, Deliverable, IsStranded;
    forall k | k in s.device.replica
      ensures k in s.db.rows && (Deliverable(s.db, s.device.user, k) <==> !IsStranded(s.db, k)) {
      HeldIsDeliverable(s, k);
    }
    forall k | k in s.db.rows && Deliverable(s.db, s.device.user, k)
      ensures k in s.device.replica && s.device.replica[k] == CopyOf(s.db.rows[k]) {
      DeliverableIsHeld(s, k);
    }
  }

  /** When everything committed has been pulled, and no tombstone was dropped too early, the device
    * holds exactly what a full comparison would give it, unless it holds a stranded line: one whose
    * invoice on the server is deleted.
    */
  lemma ExactUnlessStranded(start: System, events: seq<Event>)
    requires Initial(start) && AllRetain(start, events) && HasPulledAll(Reached(start, events))
    ensures var s := Reached(start, events);
            HoldsExactly(s) <==> forall k :: k in s.device.replica ==> !IsStranded(s.db, k)
  {
    hide Initial, AllRetain, Reached, Invariant, HoldsOwn, HasPulledAll, HoldsExactly, IsStranded;
    ReachedOk(start, events);
    ReachedHolds(start, events);
    ExactIff(Reached(start, events));
  }

  /** A stranded line is held under an invoice it has left: had it not been moved, the tombstone of
    * its invoice would have removed it.
    */
  lemma StrandedWasMoved(s: System, k: Key)
    requires Invariant(s) && HasPulledAll(s) && k in s.device.replica && IsStranded(s.db, k)
    requires Tombstoned(s.db, s.device.user, Key(Invoice, Col(s.db.rows[k].cols, InvoiceId).id))
    ensures Col(s.device.replica[k].cols, InvoiceId) != Col(s.db.rows[k].cols, InvoiceId)
  {
    hide Consistent, Issued, PagingOk, RequestOk, Visible, Ended, ApplyAll, Deliverable, HasRows, Tombstoned;
    var i := Key(Invoice, Col(s.db.rows[k].cols, InvoiceId).id);
    assert i in s.db.tombstones by { IsTombstoned(s.db, s.device.user, i); }
    DueWhenSettled(s, i);
    assert Lacks(s.device.replica, i);
  }

  lemma IsTombstoned(db: Db, user: UserId, k: Key)
    requires Tombstoned(db, user, k)
    ensures k in db.tombstones
  {
  }

  /** It stays there: no later pull mentions the line, nor the invoice the device has it under. */
  lemma {:induction false} StrandedStays(db: Db, q: Query, at: Position, n: nat, replica: Replica, k: Key)
    requires at.t < DONE && IsStranded(db, k) && k !in db.tombstones && k in replica
    requires forall i :: IsCopyIn(k, replica[k], i) ==> !Tombstoned(db, q.user, i)
    ensures var after := ApplyAll(replica, Rows(db, q, at, n)); k in after && after[k] == replica[k]
    decreases n
  {
    hide First, Matching, IsStranded, Apply, EntryFor, IsFirst;
    var rows := Rows(db, q, at, n);
    if rows != [] {
      FirstLeaves(db, q, at, replica, k);
      var first := First(Matching(db, q, at));
      assert rows[1..] == Rows(db, q, Position(at.t, Some(first)), n - 1);
      StrandedStays(db, q, Position(at.t, Some(first)), n - 1, Apply(replica, rows[0]), k);
    }
  }

  lemma FirstLeaves(db: Db, q: Query, at: Position, replica: Replica, k: Key)
    requires at.t < DONE && IsStranded(db, k) && k !in db.tombstones && k in replica && Matching(db, q, at) != {}
    requires forall i :: IsCopyIn(k, replica[k], i) ==> !Tombstoned(db, q.user, i)
    ensures var j := First(Matching(db, q, at));
            (at.t != TOMBSTONES ==> j in db.rows)
            && var after := Apply(replica, EntryFor(db, at, j)); k in after && after[k] == replica[k]
  {
    hide InWindow;
    MatchingHas(db, q, at, First(Matching(db, q, at)));
  }
}
