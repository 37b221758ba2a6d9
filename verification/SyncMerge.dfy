/** Merging a stale edit is the same as having made it in time. */
module SyncMerge {
  import opened Basics
  import opened SyncModel
  import opened SyncPush
  import opened SyncInvariant

  // ---- the history test ----

  function Range(lo: nat, hi: nat): (s: set<nat>)
    requires lo <= hi
    ensures forall r :: r in s <==> lo < r <= hi
    ensures |s| == hi - lo
    decreases hi
  {
    if lo == hi then {} else Range(lo, hi - 1) + {hi}
  }

  predicate Complete(db: Db, k: Key, base: nat, current: nat) {
    forall r :: base < r <= current ==> (k, r) in db.history
  }

  lemma HistoryRevisionsHas(db: Db, k: Key, r: nat)
    ensures r in HistoryRevisions(db, k) <==> (k, r) in db.history
  {
    if (k, r) in db.history {
      assert (k, r).1 in HistoryRevisions(db, k);
    }
  }

  /** Counting the rows after the base proves that none is missing, and nothing less does. */
  lemma CountProvesComplete(db: Db, k: Key, base: nat, current: nat)
    requires base <= current
    ensures |HistoryRows(db, k, base, current)| == current - base <==> Complete(db, k, base, current)
  {
    var rows, all := HistoryRows(db, k, base, current), Range(base, current);
    forall r: nat ensures r in rows <==> base < r <= current && (k, r) in db.history {
      HistoryRevisionsHas(db, k, r);
    }
    if |rows| == |all| {
      SubsetOfSameSize(rows, all);
    }
    if Complete(db, k, base, current) {
      assert rows == all;
    }
  }

  /** Columns revision r changed. */
  function ChangedAt(v: seq<Cols>, r: nat): set<Field> {
    if 2 <= r <= |v| then Diff(v[r - 2], v[r - 1]) else {}
  }

  /** Columns changed by some revision after the base. */
  predicate ChangedBetween(v: seq<Cols>, base: nat, current: nat, f: Field) {
    exists r: nat :: base < r <= current && f in ChangedAt(v, r)
  }

  lemma ChangedBetweenStep(v: seq<Cols>, base: nat, current: nat, f: Field)
    requires base < current
    ensures ChangedBetween(v, base, current, f) <==> ChangedBetween(v, base, current - 1, f) || f in ChangedAt(v, current)
  {
    hide ChangedAt;
    if f in ChangedAt(v, current) {
      assert base < current <= current && f in ChangedAt(v, current);
    }
    if ChangedBetween(v, base, current - 1, f) {
      var r: nat :| base < r <= current - 1 && f in ChangedAt(v, r);
      assert base < r <= current && f in ChangedAt(v, r);
    }
  }

  /** changedSince answers exactly when the history after the base is complete, and then names
    * exactly the columns that some later revision changed.
    */
  lemma ChangedSinceExact(db: Db, k: Key, base: nat)
    requires k in db.rows && HistoryOk(db, k) && base <= db.rows[k].revision
    ensures var n, v := db.rows[k].revision, VersionsOf(db, k);
            var changed := ChangedSince(db, k, base, n);
            && (changed.Some? <==> base >= 1 && Complete(db, k, base, n))
            && (changed.Some? ==> forall f :: f in changed.value <==> ChangedBetween(v, base, n, f))
  {
    hide RowOk, Diff;
    var n, v := db.rows[k].revision, VersionsOf(db, k);
    CountProvesComplete(db, k, base, n);
    var changed := ChangedSince(db, k, base, n);
    if changed.Some? {
      var rows := HistoryRows(db, k, base, n);
      forall f ensures f in changed.value <==> ChangedBetween(v, base, n, f) {
        forall r: nat ensures r in rows <==> base < r <= n { HistoryRevisionsHas(db, k, r); }
        if ChangedBetween(v, base, n, f) {
          var r: nat :| base < r <= n && f in ChangedAt(v, r);
          assert r in rows && f in HistoryEntry(db, k, r);
        }
        if f in changed.value {
          var r :| r in rows && f in HistoryEntry(db, k, r);
          assert f in ChangedAt(v, r);
        }
      }
    }
  }

  // ---- replaying server writes ----

  /** What one revision wrote. */
  function Delta(before: Cols, after: Cols): Cols {
    map f | f in Diff(before, after) && f in after :: after[f]
  }

  /** The server's writes after revision `base` up to `current`, made on top of `cols`. */
  function Replay(cols: Cols, v: seq<Cols>, base: nat, current: nat): Cols
    requires 1 <= base <= current <= |v|
    decreases current
  {
    if base == current then cols
    else Replay(cols, v, base, current - 1) + Delta(v[current - 2], v[current - 1])
  }

  ghost predicate SameColumns(v: seq<Cols>) {
    forall i, j :: 0 <= i < |v| && 0 <= j < |v| ==> v[i].Keys == v[j].Keys
  }

  lemma {:induction false} ReplayKeys(cols: Cols, v: seq<Cols>, base: nat, current: nat)
    requires 1 <= base <= current <= |v| && SameColumns(v) && cols.Keys == v[base - 1].Keys
    ensures Replay(cols, v, base, current).Keys == cols.Keys
    decreases current
  {
    hide Diff;
    if base < current { ReplayKeys(cols, v, base, current - 1); }
  }

  /** Replayed on the base version itself, the writes give the current version. */
  lemma {:induction false} ReplayOnBase(v: seq<Cols>, base: nat, current: nat)
    requires 1 <= base <= current <= |v| && SameColumns(v)
    ensures Replay(v[base - 1], v, base, current) == v[current - 1]
    decreases current
  {
    if base < current {
      ReplayOnBase(v, base, current - 1);
      var before, after := v[current - 2], v[current - 1];
      assert before.Keys == after.Keys;
      assert before + Delta(before, after) == after;
    }
  }

  /** A column no later revision changed keeps what it was replayed on; any other ends current. */
  lemma {:induction false} ReplayField(cols: Cols, v: seq<Cols>, base: nat, current: nat, f: Field)
    requires 1 <= base <= current <= |v| && SameColumns(v) && cols.Keys == v[base - 1].Keys && f in cols
    ensures f in Replay(cols, v, base, current) && f in v[current - 1] && f in v[base - 1]
    ensures Replay(cols, v, base, current)[f] == if ChangedBetween(v, base, current, f) then v[current - 1][f] else cols[f]
    ensures !ChangedBetween(v, base, current, f) ==> v[current - 1][f] == v[base - 1][f]
    decreases current
  {
    hide ChangedBetween, Diff;
    NothingBetween(v, base, f);
    if base < current {
      ReplayField(cols, v, base, current - 1, f);
      ChangedBetweenStep(v, base, current, f);
      ReplayStep(v[current - 2], v[current - 1], f);
    }
  }

  lemma NothingBetween(v: seq<Cols>, base: nat, f: Field)
    ensures !ChangedBetween(v, base, base, f)
  {
  }

  lemma ReplayStep(before: Cols, after: Cols, f: Field)
    requires f in before && f in after
    ensures f in Delta(before, after) <==> f in Diff(before, after)
    ensures f in Delta(before, after) ==> Delta(before, after)[f] == after[f]
    ensures f !in Diff(before, after) ==> before[f] == after[f]
  {
  }

  /** The record as if the device's fields had been written at the base revision, before every
    * later server write.
    */
  ghost function Serialised(db: Db, k: Key, base: nat, data: Cols): Cols
    requires k in db.rows && HistoryOk(db, k) && 1 <= base <= db.rows[k].revision
  {
    var v := VersionsOf(db, k);
    Replay(v[base - 1] + data, v, base, db.rows[k].revision)
  }

  lemma ReplayedField(v: seq<Cols>, base: nat, data: Cols, f: Field)
    requires 1 <= base <= |v| && SameColumns(v) && (v[base - 1] + data).Keys == v[base - 1].Keys
    ensures var s, current := Replay(v[base - 1] + data, v, base, |v|), v[|v| - 1];
            && s.Keys == current.Keys
            && (f in s ==> s[f] == if ChangedBetween(v, base, |v|, f) then current[f] else if f in data then data[f] else current[f])
  {
    hide Diff, ChangedBetween, Replay;
    var cols := v[base - 1] + data;
    ReplayKeys(cols, v, base, |v|);
    if f in cols {
      ReplayField(cols, v, base, |v|, f);
    }
  }

  lemma SerialisedField(db: Db, k: Key, base: nat, data: Cols, f: Field)
    requires k in db.rows && HistoryOk(db, k) && 1 <= base <= db.rows[k].revision && OnlyWritable(k.t, data)
    ensures var s, v, n := Serialised(db, k, base, data), VersionsOf(db, k), db.rows[k].revision;
            && s.Keys == db.rows[k].cols.Keys
            && (f in s ==> s[f] == if ChangedBetween(v, base, n, f) then db.rows[k].cols[f]
                                   else if f in data then data[f] else db.rows[k].cols[f])
  {
    hide HistoryOk, RowOk, Diff, OnlyWritable, ChangedBetween, Replay;
    VersionFacts(db, k, base);
    WithDataColumns(k.t, VersionsOf(db, k)[base - 1], data);
    ReplayedField(VersionsOf(db, k), base, data, f);
  }

  lemma VersionFacts(db: Db, k: Key, base: nat)
    requires k in db.rows && HistoryOk(db, k) && 1 <= base <= db.rows[k].revision
    ensures var v := VersionsOf(db, k);
            && |v| == db.rows[k].revision && v[|v| - 1] == db.rows[k].cols
            && SameColumns(v) && RowOk(k.t, v[base - 1])
  {
    hide RowOk;
    VersionsSameColumns(k.t, VersionsOf(db, k));
  }

  lemma VersionsSameColumns(t: RecordType, v: seq<Cols>)
    requires forall i :: 0 <= i < |v| ==> RowOk(t, v[i])
    ensures SameColumns(v)
  {
    hide IsColumn, ColsAccepted;
    forall i, j | 0 <= i < |v| && 0 <= j < |v| ensures v[i].Keys == v[j].Keys {
      assert RowOk(t, v[i]) && RowOk(t, v[j]);
      forall f ensures f in v[i] <==> f in v[j] {}
    }
  }

  lemma WithDataColumns(t: RecordType, cols: Cols, data: Cols)
    requires RowOk(t, cols) && OnlyWritable(t, data)
    ensures (cols + data).Keys == cols.Keys
  {
    hide IsWritable, ColsAccepted;
    forall f | f in data ensures f in cols {
      assert IsWritable(t, f);
    }
  }

  // ---- the decision on an edit ----

  /** Whether the stored columns with `fields` written are what serialising the edit gives. */
  lemma SameAsSerialised(db: Db, k: Key, base: nat, data: Cols, fields: Cols)
    requires k in db.rows && HistoryOk(db, k) && 1 <= base <= db.rows[k].revision && OnlyWritable(k.t, data)
    requires forall f :: f in fields <==> f in data && !(f in db.rows[k].cols && db.rows[k].cols[f] == data[f])
    requires forall f :: f in fields ==> fields[f] == data[f]
    ensures db.rows[k].cols + fields == Serialised(db, k, base, data) <==>
            forall f :: f in fields ==> !ChangedBetween(VersionsOf(db, k), base, db.rows[k].revision, f)
  {
    hide HistoryOk, OnlyWritable, ChangedBetween, Serialised;
    var cols, s := db.rows[k].cols, Serialised(db, k, base, data);
    WritableStored(db, k, data);
    SerialisedField(db, k, base, data, RecordId);
    if forall f :: f in fields ==> !ChangedBetween(VersionsOf(db, k), base, db.rows[k].revision, f) {
      forall f | f in s ensures (cols + fields)[f] == s[f] {
        SerialisedField(db, k, base, data, f);
      }
    }
    if cols + fields == s {
      forall f | f in fields ensures !ChangedBetween(VersionsOf(db, k), base, db.rows[k].revision, f) {
        SerialisedField(db, k, base, data, f);
      }
    }
  }

  lemma WritableStored(db: Db, k: Key, data: Cols)
    requires k in db.rows && HistoryOk(db, k) && OnlyWritable(k.t, data)
    ensures forall f :: f in data ==> f in db.rows[k].cols
  {
    hide IsWritable, ColsAccepted;
    assert RowOk(k.t, db.rows[k].cols);
  }

  /** A stale edit of an unprotected record is merged exactly when the history is complete and
    * the merged record is what serialising the edit gives; then no server write after the base
    * and no field the device sent is lost.
    */
  lemma MergedIff(db: Db, user: UserId, c: Change, k: Key, base: nat, data: Cols)
    requires k in db.rows && HistoryOk(db, k) && OnlyWritable(k.t, data)
    requires base < db.rows[k].revision && Differing(db.rows[k].cols, data) != {}
    ensures var d := DecideEdit(db, user, c, k, db.rows[k], false, base, data);
            && (d.Write? || (d.Keep? && d.conflict.kind == StaleEdit))
            && (d.Write? ==> d.status == Merged && base >= 1 && db.rows[k].cols + d.fields == Serialised(db, k, base, data))
            && (d.Write? <==> base >= 1 && Complete(db, k, base, db.rows[k].revision)
                              && db.rows[k].cols + data == Serialised(db, k, base, data))
  {
    hide HistoryOk, OnlyWritable, ChangedBetween, Serialised, ChangedSince, Complete;
    var row := db.rows[k];
    var differing := Differing(row.cols, data);
    var merged := map f | f in differing :: data[f];
    ChangedSinceExact(db, k, base);
    WritableStored(db, k, data);
    assert row.cols + merged == row.cols + data;
    if base >= 1 {
      SameAsSerialised(db, k, base, data, merged);
      var changed := ChangedSince(db, k, base, row.revision);
      if changed.Some? {
        assert (forall f :: f in merged ==> f !in changed.value) <==> differing * changed.value == {} by {
          assert forall f :: f in differing * changed.value <==> f in merged && f in changed.value;
        }
      }
    }
  }

  /** A stale edit that is kept as a conflict names exactly the fields both sides changed to
    * different values, or, when the history cannot tell, every field that differs.
    */
  lemma StaleConflictNames(db: Db, user: UserId, c: Change, k: Key, base: nat, data: Cols, f: Field)
    requires k in db.rows && HistoryOk(db, k) && base < db.rows[k].revision && Differing(db.rows[k].cols, data) != {}
    ensures var d, n := DecideEdit(db, user, c, k, db.rows[k], false, base, data), db.rows[k].revision;
            d.Keep? ==>
              (f in d.conflict.conflicting <==>
                 f in Differing(db.rows[k].cols, data)
                 && (base >= 1 && Complete(db, k, base, n) ==> ChangedBetween(VersionsOf(db, k), base, n, f)))
  {
    hide HistoryOk, ChangedSince, ConflictFields, Complete, ChangedBetween;
    ChangedSinceExact(db, k, base);
  }

  /** An update pushed in protocol 2 that is applied or merged leaves the record as if it had been
    * made at the base revision, before every later server write; and every field the device sent
    * then holds the value it sent, every other column what it held.
    */
  lemma PushedEditSerialises(db: Db, user: UserId, c: Change, fault: Fault, tx: Txid)
    requires Consistent(db) && c.kind == Update && c.id.Some? && KeyOf(c) in db.rows
    requires Push(db, user, c, 2, fault, tx).outcome.status in {Applied, Merged}
    ensures c.base.Some? && 1 <= c.base.value <= db.rows[KeyOf(c)].revision && HistoryOk(db, KeyOf(c))
    ensures var d := Push(db, user, c, 2, fault, tx).db;
            KeyOf(c) in d.rows
            && d.rows[KeyOf(c)].cols == Serialised(db, KeyOf(c), c.base.value, WritableFields(c.t, c.data))
            && d.rows[KeyOf(c)].cols == db.rows[KeyOf(c)].cols + WritableFields(c.t, c.data)
  {
    hide HistoryOk, Perform, Decide, TombstonesOk, ItemsOk, IdsOk, Serialised, IsWritable;
    var k := KeyOf(c);
    assert HistoryOk(db, k);
    var r := WithRecordedChange(db, user, c);
    assert SameTables(db, r);
    var performed := Perform(r, user, k, Decide(r, user, c, k, 2), tx);
    assert performed.Done? && performed.outcome.status in {Applied, Merged};
    assert Push(db, user, c, 2, fault, tx).db.rows == performed.db.rows;
    SameTablesConsistent(db, r);
    assert HistoryOk(r, k);
    DecidedEdit(r, user, c, k, c.base.value, WritableFields(c.t, c.data), tx, performed);
    SerialisedSame(db, r, k, c.base.value, WritableFields(c.t, c.data));
  }

  lemma SerialisedSame(a: Db, b: Db, k: Key, base: nat, data: Cols)
    requires k in a.rows && SameTables(a, b) && HistoryOk(a, k) && HistoryOk(b, k) && 1 <= base <= a.rows[k].revision
    ensures Serialised(a, k, base, data) == Serialised(b, k, base, data)
  {
    hide Replay, RowOk, Diff;
  }

  lemma DecidedEdit(db: Db, user: UserId, c: Change, k: Key, base: nat, data: Cols, tx: Txid, r: Result)
    requires Consistent(db) && c.kind == Update && k in db.rows && HistoryOk(db, k) && k.t == c.t && Validate(c, 2) == None
    requires data == WritableFields(c.t, c.data) && c.base == Some(base)
    requires r == Perform(db, user, k, Decide(db, user, c, k, 2), tx) && r.Done? && r.outcome.status in {Applied, Merged}
    ensures 1 <= base <= db.rows[k].revision && k in r.db.rows && r.db.rows[k].cols == Serialised(db, k, base, data)
    ensures r.db.rows[k].cols == db.rows[k].cols + data
  {
    hide HistoryOk, Serialised, IsProtected, IsWritable, WriteRecord, DecideEdit, TombstonesOk, ItemsOk, IdsOk, ConflictOf, SawCurrentParent, IsDeleted;
    var row := db.rows[k];
    var protected := IsProtected(db, k.t, Some(row), data, user);
    assert Decide(db, user, c, k, 2) == DecideEdit(db, user, c, k, row, protected, base, data);
    DecidedWrite(db, user, c, k, protected, base, data, tx);
  }

  lemma DecidedWrite(db: Db, user: UserId, c: Change, k: Key, protected: bool, base: nat, data: Cols, tx: Txid)
    requires Consistent(db) && k in db.rows && HistoryOk(db, k) && OnlyWritable(k.t, data) && base >= 1 && Owned(db, k, user)
    requires var d := DecideEdit(db, user, c, k, db.rows[k], protected, base, data);
             var r := Perform(db, user, k, d, tx); r.Done? && r.outcome.status in {Applied, Merged}
    ensures base <= db.rows[k].revision
    ensures var r := Perform(db, user, k, DecideEdit(db, user, c, k, db.rows[k], protected, base, data), tx);
            k in r.db.rows && r.db.rows[k].cols == Serialised(db, k, base, data) == db.rows[k].cols + data
  {
    hide HistoryOk, OnlyWritable, ChangedBetween, ChangedSince, Serialised, Complete, WriteRecord, HistoriesOk, TombstonesOk, ItemsOk, IdsOk, ConflictOf;
    var row := db.rows[k];
    var d := DecideEdit(db, user, c, k, row, protected, base, data);
    if base == row.revision {
      OnCurrent(db, k, data);
    } else if Differing(row.cols, data) == {} {
      WritableStored(db, k, data);
      assert row.cols + map[] == row.cols;
      forall f | f in data ensures f in row.cols && row.cols[f] == data[f] {
        assert f !in Differing(row.cols, data);
      }
      assert row.cols + data == row.cols;
      SameAsSerialised(db, k, base, data, map[]);
    } else {
      MergedIff(db, user, c, k, base, data);
      OnlyWritableSubset(k.t, data, d.fields);
    }
    if d.Write? {
      WriteKeeps(db, k, d.fields, user, tx);
      WrittenColumns(db, k, d.fields, user, tx);
    }
  }

  lemma OnlyWritableSubset(t: RecordType, data: Cols, fields: Cols)
    requires OnlyWritable(t, data) && forall f :: f in fields ==> f in data
    ensures OnlyWritable(t, fields)
  {
    hide IsWritable;
  }

  lemma OnCurrent(db: Db, k: Key, data: Cols)
    requires k in db.rows && HistoryOk(db, k)
    ensures Serialised(db, k, db.rows[k].revision, data) == db.rows[k].cols + data
  {
    hide RowOk, Diff;
  }

  lemma WrittenColumns(db: Db, k: Key, data: Cols, user: UserId, tx: Txid)
    requires Consistent(db) && Owned(db, k, user) && RowOk(k.t, db.rows[k].cols + data)
    requires WriteRecord(db, k, FindOwned(db, k, user), data, user, tx).Some?
    ensures var w := WriteRecord(db, k, FindOwned(db, k, user), data, user, tx).value;
            k in w.rows && w.rows[k].cols == db.rows[k].cols + data
  {
    hide RowOk, UpdateRow, TombstonesOk, ItemsOk, IdsOk, HistoriesOk, ReferencesOk, ColsAccepted;
    RowIsOk(db, k);
    UpdateShape(db, k, db.rows[k].cols + data, tx);
  }
}
