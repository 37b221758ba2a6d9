/** How a line comes to be stranded on a device, what keeps that from happening, and one run. */
module DeliveryStranded {
  import opened Basics
  import opened SyncModel
  import opened SyncInvariant
  import opened SyncRuns
  import opened SyncTotals
  import opened Delivery
  import opened DeliveryBelongs
  import opened DeliverySteps
  import opened DeliveryRuns
  import opened DeliveryExact

  // ---- the condition on each transaction ----

  function InvoiceOf(db: Db, k: Key): Value {
    if k in db.rows then Col(db.rows[k].cols, InvoiceId) else Null
  }

  function InvoiceKey(db: Db, k: Key): Key {
    Key(Invoice, if InvoiceOf(db, k).Ref? then InvoiceOf(db, k).id else 0)
  }

  /** The transaction leaves the line in a deleted invoice: one it deleted, or one the line was not in. */
  predicate Strands(a: Db, b: Db, k: Key) {
    IsStranded(b, k) && !(IsStranded(a, k) && SameInvoice(a, b, k))
  }

  /** Every copy of the line, on the device or in the page being answered, is in this invoice. */
  predicate CopiesUnder(s: System, k: Key, invoice: Value) {
    && (k in s.device.replica ==> Col(s.device.replica[k].cols, InvoiceId) == invoice)
    && (s.request.Some? ==>
          var replica := ApplyAll(s.device.replica, s.request.value.entries);
          k in replica ==> Col(replica[k].cols, InvoiceId) == invoice)
  }

  predicate IsHeld(s: System, k: Key) {
    k in s.device.replica || (s.request.Some? && k in ApplyAll(s.device.replica, s.request.value.entries))
  }

  /** Whenever a transaction deletes an invoice, every line of it that the device holds is held under
    * that invoice.
    */
  ghost predicate DeletesAsHeld(s: System, e: Event) {
    e.Commit? && e.tx in s.running ==>
      var d := Effect(s.db, e.steps, e.tx);
      forall k :: Strands(s.db, d, k) ==> CopiesUnder(s, k, InvoiceOf(d, k))
  }

  ghost predicate AllDeleteAsHeld(s: System, events: seq<Event>) {
    forall n :: 0 <= n < |events| ==> DeletesAsHeld(Reached(s, events[..n]), events[n])
  }

  // ---- it keeps every stranded line under an invoice whose tombstone will come ----

  predicate DropsWithInvoice(s: System, k: Key) {
    CopiesUnder(s, k, InvoiceOf(s.db, k)) && (IsHeld(s, k) ==> Tombstoned(s.db, s.device.user, InvoiceKey(s.db, k)))
  }

  ghost predicate WillBeDropped(s: System) {
    forall k :: IsStranded(s.db, k) ==> DropsWithInvoice(s, k)
  }

  /** A deleted invoice that is somebody's is tombstoned for the owner of its lines. */
  lemma SomebodysIsTombstoned(db: Db, user: UserId, k: Key)
    requires IsStranded(db, k) && Owned(db, k, user) && IsSomebodys(db, InvoiceOf(db, k))
    ensures Tombstoned(db, user, InvoiceKey(db, k))
  {
  }

  lemma StrandedIsSomebodys(db: Db, user: UserId, k: Key)
    requires Consistent(db) && k.t == Item && Owned(db, k, user)
    requires IsStranded(db, k) ==> Tombstoned(db, user, InvoiceKey(db, k))
    ensures IsSomebodys(db, InvoiceOf(db, k))
  {
    hide HistoriesOk, ItemsOk;
    var i := InvoiceKey(db, k);
    assert Belongs(db, user, i);
  }

  lemma BelongsIsOwned(db: Db, user: UserId, k: Key)
    requires Belongs(db, user, k) && k in db.rows
    ensures Owned(db, k, user)
  {
  }

  /** A line the device holds whose invoice a transaction deletes. */
  lemma StrandedHasTombstone(a: Db, b: Db, user: UserId, k: Key)
    requires Consistent(a) && Kept(a, b) && Joins(a, b) && Belongs(a, user, k) && IsStranded(b, k)
    requires IsStranded(a, k) ==> Tombstoned(a, user, InvoiceKey(a, k))
    ensures Tombstoned(b, user, InvoiceKey(b, k))
  {
    hide Consistent, Belongs, Owned, Tombstoned, IsSomebodys;
    BelongsIsOwned(b, user, k);
    if SameInvoice(a, b, k) {
      BelongsIsOwned(a, user, k);
      StrandedIsSomebodys(a, user, k);
      StaysSomebodys(a, b, InvoiceOf(a, k));
    }
    SomebodysIsTombstoned(b, user, k);
  }

  lemma HeldBelongs(s: System, k: Key)
    requires HoldsOwn(s) && IsHeld(s, k)
    ensures Belongs(s.db, s.device.user, k)
  {
    hide Belongs, ApplyAll;
  }

  lemma CommitDrops(s: System, tx: Txid, steps: seq<Step>)
    requires Invariant(s) && HoldsOwn(s) && WillBeDropped(s) && tx in s.running
    requires Retains(s, Commit(tx, steps)) && DeletesAsHeld(s, Commit(tx, steps))
    ensures WillBeDropped(End(s, tx, Effect(s.db, steps, tx)))
  {
    hide Consistent, Belongs, Owned, Tombstoned, ApplyAll, UpToDate, Visible, Issued, AllEnded, HoldsOwn, IsStranded, SameInvoice, Kept, Joins, MayDrop, Effect;
    var t := End(s, tx, Effect(s.db, steps, tx));
    assert Consistent(s.db);
    if forall i :: 0 <= i < |steps| ==> !steps[i].PruneTombstones? {
      EffectKept(s.db, steps, tx);
      forall k | IsStranded(t.db, k)
        ensures DropsWithInvoice(t, k) {
        StrandedUnder(s, t, k);
      }
    } else {
      OneStep(s.db, steps, tx);
      forall k | IsStranded(t.db, k)
        ensures DropsWithInvoice(t, k) {
        SameStranded(s.db, t.db, k);
        if IsHeld(s, k) {
          PruneKeepsTombstone(s, steps[0].dropped, k);
        }
      }
    }
  }

  lemma SameStranded(a: Db, b: Db, k: Key)
    requires a.rows == b.rows
    ensures IsStranded(a, k) == IsStranded(b, k)
  {
  }

  lemma StrandedUnder(s: System, t: System, k: Key)
    requires Consistent(s.db) && HoldsOwn(s) && WillBeDropped(s) && Kept(s.db, t.db) && Joins(s.db, t.db)
    requires t.device == s.device && t.request == s.request && IsStranded(t.db, k)
    requires Strands(s.db, t.db, k) ==> CopiesUnder(s, k, InvoiceOf(t.db, k))
    ensures DropsWithInvoice(t, k)
  {
    hide Consistent, Belongs, Owned, Tombstoned, ApplyAll, HoldsOwn, IsStranded, Kept, Joins;
    if IsHeld(s, k) {
      HeldBelongs(s, k);
      StrandedHasTombstone(s.db, t.db, s.device.user, k);
    }
  }

  /** Retention keeps the tombstone of an invoice under which the device still holds a line. */
  lemma PruneKeepsTombstone(s: System, dropped: set<Key>, k: Key)
    requires Invariant(s) && WillBeDropped(s) && IsStranded(s.db, k) && IsHeld(s, k)
    requires forall j :: j in dropped ==> MayDrop(s, j)
    ensures var i := InvoiceKey(s.db, k);
            i !in dropped && Tombstoned(DropTombstones(s.db, dropped), s.device.user, i)
  {
    hide Visible, Issued, TransactionsOk, HasRows, IsStranded, PagingOk;
    var i := InvoiceKey(s.db, k);
    StrandedIsLine(s.db, k);
    if i in dropped {
      assert MayDrop(s, i);
      if s.device.cursor.Some? { NotYetReceived(s, k, i); }
    }
  }

  lemma StrandedIsLine(db: Db, k: Key)
    requires IsStranded(db, k)
    ensures k.t == Item && k in db.rows && InvoiceOf(db, k).Ref?
  {
  }

  lemma NotYetReceived(s: System, k: Key, i: Key)
    requires Invariant(s) && s.device.cursor.Some? && Tombstoned(s.db, s.device.user, i) && i.t == Invoice && k.t == Item
    requires CopiesUnder(s, k, Ref(i.id)) && IsHeld(s, k)
    ensures !Visible(s.device.cursor.value, s.db.tombstones[i].txid)
  {
    hide Visible, Invariant, ApplyAll;
    if Visible(s.device.cursor.value, s.db.tombstones[i].txid) { ReceivedIsDropped(s, i); }
  }

  /** Once its tombstone was received, no line of an invoice is on the device, or comes. */
  lemma ReceivedIsDropped(s: System, i: Key)
    requires Invariant(s) && s.device.cursor.Some? && Tombstoned(s.db, s.device.user, i)
    requires Visible(s.device.cursor.value, s.db.tombstones[i].txid)
    ensures Lacks(s.device.replica, i)
    ensures s.request.Some? ==> Lacks(ApplyAll(s.device.replica, s.request.value.entries), i)
  {
    hide Visible, Issued, TransactionsOk, HasRows, ApplyAll, Lacks;
    DueWhenSettled(s, i);
    if s.request.Some? {
      var r := s.request.value;
      assert Delivered(r.q.from, s.db.tombstones[i].txid);
      assert DueTombstone(s.db, r.q, r.at, i);
    }
  }

  // ---- no statement brings a stranded line ----

  /** A line a pull leaves on the device although it may not have it was there before, as it was. */
  lemma {:induction false} RowsBringNone(db: Db, q: Query, at: Position, n: nat, replica: Replica, k: Key)
    requires at.t < DONE && IsStranded(db, k) && k in ApplyAll(replica, Rows(db, q, at, n))
    ensures k in replica && ApplyAll(replica, Rows(db, q, at, n))[k] == replica[k]
    decreases n
  {
    hide First, Matching, IsStranded, Apply, EntryFor, IsFirst;
    var rows := Rows(db, q, at, n);
    if rows != [] {
      var first := First(Matching(db, q, at));
      FirstBringsNone(db, q, at, replica, k);
      assert rows[1..] == Rows(db, q, Position(at.t, Some(first)), n - 1);
      RowsBringNone(db, q, Position(at.t, Some(first)), n - 1, Apply(replica, rows[0]), k);
    }
  }

  lemma FirstBringsNone(db: Db, q: Query, at: Position, replica: Replica, k: Key)
    requires at.t < DONE && IsStranded(db, k) && Matching(db, q, at) != {}
    ensures var j := First(Matching(db, q, at));
            (at.t != TOMBSTONES ==> j in db.rows)
            && var after := Apply(replica, EntryFor(db, at, j)); k in after ==> k in replica && after[k] == replica[k]
  {
    hide InWindow;
    MatchingHas(db, q, at, First(Matching(db, q, at)));
  }

  lemma QueryDrops(s: System)
    requires WillBeDropped(s) && s.request.Some? && !Answered(s.request.value)
    ensures WillBeDropped(s.(request := Some(QueryType(s.db, s.request.value))))
  {
    hide Tombstoned, IsStranded, Rows, ApplyAll;
    var r, t := s.request.value, s.(request := Some(QueryType(s.db, s.request.value)));
    ApplyAppend(s.device.replica, r.entries, Rows(s.db, r.q, r.at, r.remaining));
    forall k | IsStranded(t.db, k)
      ensures DropsWithInvoice(t, k) {
      if k in ApplyAll(s.device.replica, t.request.value.entries) {
        RowsBringNone(s.db, r.q, r.at, r.remaining, ApplyAll(s.device.replica, r.entries), k);
      }
    }
  }

  lemma HappenDrops(s: System, e: Event)
    requires Invariant(s) && HoldsOwn(s) && WillBeDropped(s) && Retains(s, e) && DeletesAsHeld(s, e)
    ensures WillBeDropped(Happen(s, e))
  {
    hide Invariant, HoldsOwn, Effect, QueryType, Answered, Retains, DeletesAsHeld, IsStranded, Tombstoned, CurrentSnapshot;
    if Enabled(s, e) {
      match e
      case Commit(tx, steps) => CommitDrops(s, tx, steps);
      case QueryNext => QueryDrops(s);
      case Ask(limit) => assert ApplyAll(s.device.replica, []) == s.device.replica;
      case _ =>
    }
  }

  lemma {:induction false} ReachedDrops(s: System, events: seq<Event>)
    requires Initial(s) && AllRetain(s, events) && AllDeleteAsHeld(s, events)
    ensures WillBeDropped(Reached(s, events))
    decreases |events|
  {
    hide Initial, Happen, Retains, DeletesAsHeld, WillBeDropped, Reached;
    if events == [] {
      StartsEmpty(s);
    } else {
      var before := events[..|events| - 1];
      forall n | 0 <= n < |before| ensures Retains(Reached(s, before[..n]), before[n]) && DeletesAsHeld(Reached(s, before[..n]), before[n]) {
        assert before[..n] == events[..n];
      }
      ReachedDrops(s, before);
      ReachedOk(s, before);
      ReachedHolds(s, before);
      hide Invariant, HoldsOwn;
      HappenDrops(Reached(s, before), events[|events| - 1]);
      LastEvent(s, events);
    }
  }

  lemma LastEvent(s: System, events: seq<Event>)
    requires events != []
    ensures Reached(s, events) == Happen(Reached(s, events[..|events| - 1]), events[|events| - 1])
  {
    hide Happen;
  }

  lemma StartsEmpty(s: System)
    requires Initial(s)
    ensures WillBeDropped(Reached(s, []))
  {
    hide Consistent, AllEnded, IsStranded, Tombstoned;
  }

  /** As long as every line the device holds is held under its own invoice whenever that is deleted,
    * a device that has pulled everything holds exactly what a full comparison would give it.
    */
  lemma ExactWhenDeletedAsHeld(start: System, events: seq<Event>)
    requires Initial(start) && AllRetain(start, events) && AllDeleteAsHeld(start, events)
    requires HasPulledAll(Reached(start, events))
    ensures HoldsExactly(Reached(start, events))
  {
    hide Initial, AllRetain, AllDeleteAsHeld, Reached, HasPulledAll, HoldsExactly, IsStranded, Tombstoned, Invariant, HoldsOwn;
    ReachedDrops(start, events);
    ReachedOk(start, events);
    var s := Reached(start, events);
    forall k | k in s.device.replica ensures !IsStranded(s.db, k) {
      if IsStranded(s.db, k) {
        StrandedIsLine(s.db, k);
        StrandedWasMoved(s, k);
      }
    }
    ExactUnlessStranded(start, events);
  }

  // ---- after the last commit: exactly when ----

  /** Held, its invoice on the server deleted, under an invoice no tombstone of which will come. */
  predicate IsStuck(s: System, k: Key) {
    && k in s.device.replica && IsStranded(s.db, k)
    && var held := Col(s.device.replica[k].cols, InvoiceId);
       !(held.Ref? && Tombstoned(s.db, s.device.user, Key(Invoice, held.id)))
  }

  /** No commit, and no starting over. */
  predicate IsQuiet(events: seq<Event>) {
    forall i :: 0 <= i < |events| ==> !events[i].Commit? && events[i] != Resync
  }

  /** Of the stranded lines, the device holds none it did not hold, and all that were stuck. */
  ghost predicate KeepsStranded(s: System, replica: Replica) {
    forall k :: IsStranded(s.db, k) ==>
      && (k in replica ==> k in s.device.replica && replica[k] == s.device.replica[k])
      && (IsStuck(s, k) ==> k in replica)
  }

  ghost predicate OnlyPulls(s: System, t: System) {
    && t.db == s.db && t.device.user == s.device.user && Invariant(t) && HoldsOwn(t)
    && KeepsStranded(s, t.device.replica)
    && (t.request.Some? ==> KeepsStranded(s, ApplyAll(t.device.replica, t.request.value.entries)))
  }

  lemma QueryKeepsStranded(s: System, t: System)
    requires OnlyPulls(s, t) && t.request.Some? && !Answered(t.request.value)
    ensures KeepsStranded(s, ApplyAll(t.device.replica, QueryType(t.db, t.request.value).entries))
  {
    hide TransactionsOk, CursorOk, PagingOk, HoldsOwn, UpToDate, Issued, Older, IsStranded, Rows, ApplyAll, Tombstoned;
    var r := t.request.value;
    var replica := ApplyAll(t.device.replica, r.entries);
    ApplyAppend(t.device.replica, r.entries, Rows(t.db, r.q, r.at, r.remaining));
    var after := ApplyAll(replica, Rows(t.db, r.q, r.at, r.remaining));
    forall k | IsStranded(s.db, k)
      ensures (k in after ==> k in s.device.replica && after[k] == s.device.replica[k]) && (IsStuck(s, k) ==> k in after) {
      if k in after { RowsBringNone(t.db, r.q, r.at, r.remaining, replica, k); }
      if IsStuck(s, k) {
        LineHasNone(t, k);
        StrandedStays(t.db, r.q, r.at, r.remaining, replica, k);
      }
    }
  }

  lemma LineHasNone(t: System, k: Key)
    requires Invariant(t) && IsStranded(t.db, k)
    ensures k !in t.db.tombstones
  {
    hide CursorOk, PagingOk, RequestOk, HistoriesOk, ItemsOk, IdsOk, AllEnded;
    ItemsAreLive(t.db, k);
  }

  lemma HappenOnlyPulls(s: System, t: System, e: Event)
    requires OnlyPulls(s, t) && !e.Commit? && e != Resync
    ensures OnlyPulls(s, Happen(t, e))
  {
    hide Invariant, HoldsOwn, Effect, QueryType, KeepsStranded, CurrentSnapshot, ApplyAll, Answered;
    HappenKeeps(t, e);
    HappenHolds(t, e);
    KnownNotAhead(t);
    if Enabled(t, e) {
      match e
      case QueryNext => QueryKeepsStranded(s, t);
      case Ask(limit) => NothingApplied(t.device.replica);
      case _ =>
    }
  }

  lemma NothingApplied(replica: Replica)
    ensures ApplyAll(replica, []) == replica
  {
  }

  lemma {:induction false} ReachedOnlyPulls(s: System, events: seq<Event>)
    requires Invariant(s) && HoldsOwn(s) && s.request == None && IsQuiet(events)
    ensures OnlyPulls(s, Reached(s, events))
    decreases |events|
  {
    hide Happen, Invariant, HoldsOwn, IsStranded;
    if events != [] {
      var before := events[..|events| - 1];
      ReachedOnlyPulls(s, before);
      hide OnlyPulls;
      HappenOnlyPulls(s, Reached(s, before), events[|events| - 1]);
    }
  }

  /** However the device pulls after a commit, once it has pulled everything it holds exactly what a full
    * comparison would give it if and only if, right after the commit, it held no stuck line.
    */
  lemma ExactIffNoneStuck(start: System, earlier: seq<Event>, later: seq<Event>)
    requires Initial(start) && AllRetain(start, earlier) && Reached(start, earlier).request == None
    requires IsQuiet(later) && HasPulledAll(Reached(Reached(start, earlier), later))
    ensures var s := Reached(start, earlier); HoldsExactly(Reached(s, later)) <==> forall k :: !IsStuck(s, k)
  {
    hide Initial, AllRetain, Reached, HasPulledAll, HoldsExactly, Invariant, HoldsOwn, IsStranded;
    ReachedOk(start, earlier);
    ReachedHolds(start, earlier);
    var s := Reached(start, earlier);
    ReachedOnlyPulls(s, later);
    var t := Reached(s, later);
    ExactIff(t);
    forall k | k in t.device.replica && IsStranded(t.db, k) ensures IsStuck(s, k) {
      StrandedIsLine(t.db, k);
      HeldUnderNone(t, k);
    }
    forall k | IsStuck(s, k) ensures k in t.device.replica && IsStranded(t.db, k) {}
  }

  /** With everything pulled, no line is held under a tombstoned invoice. */
  lemma HeldUnderNone(t: System, k: Key)
    requires Invariant(t) && HasPulledAll(t) && k in t.device.replica && k.t == Item
    ensures var held := Col(t.device.replica[k].cols, InvoiceId);
            !(held.Ref? && Tombstoned(t.db, t.device.user, Key(Invoice, held.id)))
  {
    hide Consistent, Visible, Issued, PagingOk, RequestOk, HasRows, Deliverable, Ended;
    var held := Col(t.device.replica[k].cols, InvoiceId);
    if held.Ref? && Tombstoned(t.db, t.device.user, Key(Invoice, held.id)) {
      DueWhenSettled(t, Key(Invoice, held.id));
    }
  }
}
