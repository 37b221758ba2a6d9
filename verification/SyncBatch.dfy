/** A batch of changes: one after another, and the same answers when it is sent again. */
module SyncBatch {
  import opened Basics
  import opened SyncModel
  import opened SyncPush
  import opened SyncInvariant
  import opened SyncProtection
  import opened SyncOnce

  lemma OneMore(db: Db, user: UserId, changes: seq<Change>, protocol: nat, faults: seq<Fault>, tx: Txid)
    requires |faults| == |changes| > 0
    ensures var n := |changes| - 1;
            var (before, first) := PushAll(db, user, changes[..n], protocol, false, faults[..n], tx);
            var p := Push(before, user, changes[n], protocol, faults[n], tx + n);
            PushAll(db, user, changes, protocol, false, faults, tx) == (p.db, first + [p.outcome])
  {
    hide Push;
  }

  lemma {:induction false} AnswersEach(db: Db, user: UserId, changes: seq<Change>, protocol: nat, refuse: bool, faults: seq<Fault>, tx: Txid)
    requires |faults| == |changes|
    ensures |PushAll(db, user, changes, protocol, refuse, faults, tx).1| == |changes|
    decreases |changes|
  {
    hide Push;
    if changes != [] {
      var n := |changes| - 1;
      AnswersEach(db, user, changes[..n], protocol, refuse, faults[..n], tx);
    }
  }

  /** Each change meets what the changes before it in the batch have left, and is answered in its place. */
  lemma {:induction false} OneAfterAnother(db: Db, user: UserId, changes: seq<Change>, protocol: nat, faults: seq<Fault>, tx: Txid, i: nat)
    requires |faults| == |changes| && i < |changes|
    ensures |PushAll(db, user, changes, protocol, false, faults, tx).1| == |changes|
    ensures var before := PushAll(db, user, changes[..i], protocol, false, faults[..i], tx).0;
            var p := Push(before, user, changes[i], protocol, faults[i], tx + i);
            && PushAll(db, user, changes, protocol, false, faults, tx).1[i] == p.outcome
            && PushAll(db, user, changes[..i + 1], protocol, false, faults[..i + 1], tx).0 == p.db
    decreases |changes|
  {
    hide Push;
    AnswersEach(db, user, changes, protocol, false, faults, tx);
    var n := |changes| - 1;
    OneMore(db, user, changes, protocol, faults, tx);
    AnswersEach(db, user, changes[..n], protocol, false, faults[..n], tx);
    if i < n {
      OneAfterAnother(db, user, changes[..n], protocol, faults[..n], tx, i);
      assert changes[..n][..i] == changes[..i] && faults[..n][..i] == faults[..i];
      assert changes[..n][..i + 1] == changes[..i + 1] && faults[..n][..i + 1] == faults[..i + 1];
    } else {
      assert changes[..i + 1] == changes && faults[..i + 1] == faults;
    }
  }

  /** A client that must be updated has every change refused, and nothing happens. */
  lemma {:induction false} AllRefused(db: Db, user: UserId, changes: seq<Change>, protocol: nat, faults: seq<Fault>, tx: Txid)
    requires |faults| == |changes|
    ensures var (d, outcomes) := PushAll(db, user, changes, protocol, true, faults, tx);
            d == db && |outcomes| == |changes| && forall o :: o in outcomes ==> o == Fail(UpgradeRequired)
    decreases |changes|
  {
    if changes != [] {
      AllRefused(db, user, changes[..|changes| - 1], protocol, faults[..|changes| - 1], tx);
    }
  }

  /** The changes counted as not applied are those that failed or were kept as conflicts. */
  lemma {:induction false} CountIs(outcomes: seq<Outcome>)
    ensures CountNotApplied(outcomes) == |set i | 0 <= i < |outcomes| && outcomes[i].status in {Failed, Conflicted}|
    decreases |outcomes|
  {
    var counted := set i | 0 <= i < |outcomes| && outcomes[i].status in {Failed, Conflicted};
    if outcomes == [] {
      assert counted == {};
    } else {
      var n := |outcomes| - 1;
      var before := outcomes[..n];
      CountIs(before);
      var rest := set i | 0 <= i < |before| && before[i].status in {Failed, Conflicted};
      assert counted == rest + if outcomes[n].status in {Failed, Conflicted} then {n} else {};
    }
  }

  // ---- the same batch again ----

  /** The change was processed, with this answer. */
  predicate IsAnswered(db: Db, user: UserId, c: Change, o: Outcome) {
    && c.changeId.Some? && Synced(db, user, c.changeId.value)
    && var row := db.changes[(user, c.changeId.value)];
    && row.change == c
    && (row.outcome == Some(Conflicted) <==> o.status == Conflicted)
    && (o.status == Conflicted ==> row.conflictId == o.conflictId)
  }

  lemma PushIsAnswered(db: Db, user: UserId, c: Change, protocol: nat, fault: Fault, tx: Txid)
    requires c.changeId.Some? && Push(db, user, c, protocol, fault, tx).outcome.status != Failed
    ensures var p := Push(db, user, c, protocol, fault, tx); IsAnswered(p.db, user, c, p.outcome)
  {
    hide ProcessChange;
  }

  lemma StaysAnswered(db: Db, user: UserId, c: Change, o: Outcome, other: Change, protocol: nat, fault: Fault, tx: Txid)
    requires IsAnswered(db, user, c, o)
    ensures IsAnswered(Push(db, user, other, protocol, fault, tx).db, user, c, o)
  {
    hide Push;
    PushKeepsSynced(db, user, other, protocol, fault, tx, user, c.changeId.value);
  }

  lemma {:induction false} BatchIsAnswered(db: Db, user: UserId, changes: seq<Change>, protocol: nat, faults: seq<Fault>, tx: Txid)
    requires |faults| == |changes| && forall i :: 0 <= i < |changes| ==> changes[i].changeId.Some?
    ensures var (d, outcomes) := PushAll(db, user, changes, protocol, false, faults, tx);
            |outcomes| == |changes|
            && forall i :: 0 <= i < |changes| && outcomes[i].status != Failed ==> IsAnswered(d, user, changes[i], outcomes[i])
    decreases |changes|
  {
    hide Push, IsAnswered;
    if changes != [] {
      var n := |changes| - 1;
      OneMore(db, user, changes, protocol, faults, tx);
      AnswersEach(db, user, changes, protocol, false, faults, tx);
      BatchIsAnswered(db, user, changes[..n], protocol, faults[..n], tx);
      var (before, first) := PushAll(db, user, changes[..n], protocol, false, faults[..n], tx);
      var (d, outcomes) := PushAll(db, user, changes, protocol, false, faults, tx);
      forall i | 0 <= i < |changes| && outcomes[i].status != Failed ensures IsAnswered(d, user, changes[i], outcomes[i]) {
        if i < n {
          StaysAnswered(before, user, changes[i], outcomes[i], changes[n], protocol, faults[n], tx + n);
        } else {
          PushIsAnswered(before, user, changes[n], protocol, faults[n], tx + n);
        }
      }
    }
  }

  /** What a processed change is answered when it comes again. */
  function AnswerAgain(o: Outcome): Outcome {
    if o.status == Conflicted then Outcome(Conflicted, None, o.conflictId, None) else Success(Duplicate, None)
  }

  /** The tables are as they were, and each change is answered again. */
  predicate IsUnchanged(db: Db, outcomes: seq<Outcome>, pushed: (Db, seq<Outcome>)) {
    && pushed.0 == db && |pushed.1| == |outcomes|
    && forall i :: 0 <= i < |outcomes| ==> pushed.1[i] == AnswerAgain(outcomes[i])
  }

  lemma AnsweredAgain(db: Db, user: UserId, c: Change, o: Outcome, protocol: nat, tx: Txid)
    requires IsAnswered(db, user, c, o) && Validate(c, protocol) == None
    ensures Push(db, user, c, protocol, NoFault, tx) == Pushed(db, AnswerAgain(o))
  {
    hide ProcessChange;
  }

  lemma {:induction false} ResentBatch(db: Db, user: UserId, changes: seq<Change>, outcomes: seq<Outcome>, protocol: nat, faults: seq<Fault>, tx: Txid)
    requires |faults| == |changes| == |outcomes|
    requires forall i :: 0 <= i < |changes| ==> faults[i] == NoFault && Validate(changes[i], protocol) == None && IsAnswered(db, user, changes[i], outcomes[i])
    ensures IsUnchanged(db, outcomes, PushAll(db, user, changes, protocol, false, faults, tx))
    decreases |changes|
  {
    hide Push, IsAnswered, Validate, AnswerAgain;
    if changes != [] {
      var n := |changes| - 1;
      OneMore(db, user, changes, protocol, faults, tx);
      ResentBatch(db, user, changes[..n], outcomes[..n], protocol, faults[..n], tx);
      AnsweredAgain(db, user, changes[n], outcomes[n], protocol, tx + n);
    }
  }

  /** A batch of which nothing failed, but whose answers were lost, is sent again: no table changes, and each change
    * is answered as a duplicate, or with the conflict it was kept as.
    */
  lemma BatchTwice(db: Db, user: UserId, changes: seq<Change>, protocol: nat, faults: seq<Fault>, tx: Txid, again: seq<Fault>, later: Txid)
    requires |faults| == |changes| == |again|
    requires forall i :: 0 <= i < |changes| ==> changes[i].changeId.Some? && again[i] == NoFault
    requires forall o :: o in PushAll(db, user, changes, protocol, false, faults, tx).1 ==> o.status != Failed
    ensures var (d, outcomes) := PushAll(db, user, changes, protocol, false, faults, tx);
            |outcomes| == |changes| && IsUnchanged(d, outcomes, PushAll(d, user, changes, protocol, false, again, later))
  {
    hide Push, PushAll, IsAnswered, Validate;
    BatchIsAnswered(db, user, changes, protocol, faults, tx);
    var (d, outcomes) := PushAll(db, user, changes, protocol, false, faults, tx);
    forall i | 0 <= i < |changes| ensures Validate(changes[i], protocol) == None && IsAnswered(d, user, changes[i], outcomes[i]) {
      assert outcomes[i] in outcomes;
      OneAfterAnother(db, user, changes, protocol, faults, tx, i);
      NotFailedIsValid(PushAll(db, user, changes[..i], protocol, false, faults[..i], tx).0, user, changes[i], protocol, faults[i], tx + i);
    }
    ResentBatch(d, user, changes, outcomes, protocol, again, later);
  }

  lemma NotFailedIsValid(db: Db, user: UserId, c: Change, protocol: nat, fault: Fault, tx: Txid)
    requires Push(db, user, c, protocol, fault, tx).outcome.status != Failed
    ensures Validate(c, protocol) == None
  {
    hide ProcessChange;
  }

  // ---- changes without an id ----

  lemma UpdateLogs(db: Db, k: Key, cols: Cols, tx: Txid)
    requires k in db.rows
    ensures UpdateRow(db, k, cols, tx).unkeyed == db.unkeyed
  {
    hide Diff, TouchItems, VersionsOf, UserOf;
  }

  lemma PerformLogs(db: Db, user: UserId, c: Change, k: Key, protocol: nat, tx: Txid)
    ensures var r := Perform(db, user, k, Decide(db, user, c, k, protocol), tx); r.Done? ==> r.db.unkeyed == db.unkeyed
  {
    hide UpdateRow, ReferencesOk, ColsAccepted, NewColumns, Required, IsLive, Decide, UserOf;
    var d := Decide(db, user, c, k, protocol);
    DecideLive(db, user, c, k, protocol);
    match d
    case Write(fields, _, _) => if k in db.rows { UpdateLogs(db, k, db.rows[k].cols + fields, tx); }
    case Remove(recoverable) =>
      var kept := if recoverable.Some? then AddConflict(db, recoverable.value) else db;
      if k.t != Item { UpdateLogs(kept, k, db.rows[k].cols[DeletedAt := At(tx)], tx); }
    case _ =>
  }

  lemma MarkedLogs(db: Db, user: UserId, c: Change, outcome: Outcome)
    ensures MarkSynced(db, user, c, outcome).unkeyed == db.unkeyed
  {
  }

  /** A change that comes without an id is recorded each time it is sent, whatever becomes of it, unless it is
    * ill-formed or the transaction is undone; one with an id never in this way.
    */
  lemma RecordedEachTime(db: Db, user: UserId, c: Change, protocol: nat, fault: Fault, tx: Txid)
    ensures Push(db, user, c, protocol, fault, tx).db.unkeyed ==
              if c.changeId == None && Validate(c, protocol) == None && fault != Transient then db.unkeyed + [(user, c)] else db.unkeyed
  {
    hide Perform, Decide, Validate, MarkSynced, RecordedChange;
    assert Validate(c, protocol) == None ==> c.id.Some? by { WithId(c, protocol); }
    if c.id.Some? {
      var r := WithRecordedChange(db, user, c);
      PerformLogs(r, user, c, KeyOf(c), protocol, tx);
      var p := ProcessChange(r, user, c, KeyOf(c), protocol, tx);
      if p.Done? { MarkedLogs(p.db, user, c, p.outcome); }
    }
  }
}
