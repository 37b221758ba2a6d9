/** One page of a pull: how many entries it has, which, in what order, and the cursor that comes with it. */
module PullPage {
  import opened Basics
  import opened SyncModel
  import opened Delivery
  import opened DeliveryRuns
  import opened Paging
  import opened PullProtocol

  /** A record a device of the user may have: the user's, live, and a line only with its invoice. */
  predicate MayHave(db: Db, user: UserId, k: Key) {
    Owned(db, k, user) && IsLive(db.rows[k]) && (k.t == Item ==> ActiveInvoice(db, Col(db.rows[k].cols, InvoiceId), user))
  }

  lemma DeliverableIsMayHave(db: Db, user: UserId, k: Key)
    ensures k in db.rows && Deliverable(db, user, k) <==> MayHave(db, user, k)
  {
    hide IsLive;
  }

  /** Five hundred entries unless the device asks for another number, at least one and at most a thousand. */
  function PageSize(asked: Option<int>): nat {
    match asked
    case None => 500
    case Some(n) => if n > 1000 then 1000 else if n > 0 then n else 1
  }

  function Turn(t: RecordType): nat {
    match t case Client => 0 case Invoice => 1 case Item => 2
  }

  /** Clients, invoices and lines, then deletions, those by type too; records of one type by id. */
  predicate ComesBefore(a: Entry, b: Entry) {
    if a.Drop? != b.Drop? then b.Drop?
    else Turn(a.key.t) < Turn(b.key.t) || (a.key.t == b.key.t && a.key.id < b.key.id)
  }

  /** The entry is a record or a deletion of the user, as the database has it, that `upto` sees and `from` did not. */
  ghost predicate IsNewsOf(db: Db, user: UserId, from: Option<Snapshot>, upto: Snapshot, e: Entry) {
    match e
    case Upsert(k, copy) => MayHave(db, user, k) && IsNews(from, upto, db.rows[k].txid) && copy == Copy(db.rows[k].cols, db.rows[k].revision)
    case Drop(k) => k in db.tombstones && db.tombstones[k].user == user && IsNews(from, upto, db.tombstones[k].txid)
  }

  lemma EntryIsNews(db: Db, q: Query, at: Position, e: Entry)
    requires at.t < DONE && IsEntry(db, q, at, e)
    ensures IsNewsOf(db, q.user, q.from, q.upto, e)
  {
    hide Deliverable, Visible, MayHave, Matching;
    MatchingHas(db, q, at, e.key);
    DeliverableIsMayHave(db, q.user, e.key);
  }

  lemma AscendsIsComesBefore(a: Entry, b: Entry)
    ensures Ascends(a, b) <==> ComesBefore(a, b)
  {
  }

  /** Each entry was news when one of the statements read it. */
  ghost predicate AreNews(views: seq<Db>, q: Query, entries: seq<Entry>) {
    forall i :: 0 <= i < |entries| ==> exists db :: db in views && IsNewsOf(db, q.user, q.from, q.upto, entries[i])
  }

  /** What a request has while it is being answered, type after type. */
  ghost predicate IsPartOf(views: seq<Db>, r: Request, size: nat) {
    && |r.entries| + r.remaining == size && AreNews(views, r.q, r.entries) && Ascending(r.entries)
    && (forall i :: 0 <= i < |r.entries| ==> IsBehind(r.entries[i], r.at))
  }

  /** A full page ends with the entry its cursor names. */
  predicate IsLast(r: Request) {
    r.entries != [] && r.at.t == TypeOf(r.entries[|r.entries| - 1]) && r.at.after == Some(r.entries[|r.entries| - 1].key)
  }

  lemma RowsAreNews(views: seq<Db>, q: Query, at: Position, n: nat)
    requires |views| == DONE && at.t < DONE
    ensures AreNews(views, q, Rows(views[at.t], q, at, n))
    ensures var rows := Rows(views[at.t], q, at, n); forall i :: 0 <= i < |rows| ==> TypeOf(rows[i]) == at.t
  {
    hide IsNewsOf, EntryFor, Matching, Ascending;
    var rows := Rows(views[at.t], q, at, n);
    RowsAre(views[at.t], q, at, n);
    forall i | 0 <= i < |rows| ensures IsNewsOf(views[at.t], q.user, q.from, q.upto, rows[i]) {
      EntryIsNews(views[at.t], q, at, rows[i]);
    }
    assert views[at.t] in views;
  }

  lemma StatementAdds(views: seq<Db>, r: Request, size: nat)
    requires |views| == DONE && !Answered(r) && IsPartOf(views, r, size)
    ensures var next := QueryType(views[r.at.t], r); IsPartOf(views, next, size) && (next.remaining == 0 ==> IsLast(next))
  {
    hide Rows, IsNewsOf, Ascending, IsBehind, TypeOf;
    var rows := Rows(views[r.at.t], r.q, r.at, r.remaining);
    RowsFollow(views[r.at.t], r.q, r.at, r.remaining, r.entries);
    RowsAreNews(views, r.q, r.at, r.remaining);
    var next := QueryType(views[r.at.t], r);
    if |rows| == r.remaining {
      assert next.at == Passing(r.at, rows);
      assert next.entries[|next.entries| - 1] == rows[|rows| - 1];
    } else {
      forall i | 0 <= i < |next.entries| ensures IsBehind(next.entries[i], next.at) {
        BehindNext(next.entries[i], Passing(r.at, rows));
      }
    }
  }

  lemma {:induction false} AnswerIsPage(views: seq<Db>, r: Request, size: nat)
    requires |views| == DONE && IsPartOf(views, r, size) && r.remaining > 0
    ensures var a := AnswerOver(views, r); a.q == r.q && IsPartOf(views, a, size) && (a.remaining == 0 ==> IsLast(a))
    decreases DONE - r.at.t
  {
    hide QueryType, IsPartOf, IsLast;
    if !Answered(r) {
      StatementAdds(views, r, size);
      var next := QueryType(views[r.at.t], r);
      NextQuestion(views[r.at.t], r);
      if next.remaining > 0 { AnswerIsPage(views, next, size); }
    }
  }

  lemma NextQuestion(db: Db, r: Request)
    requires !Answered(r)
    ensures var next := QueryType(db, r); next.q == r.q && (next.remaining > 0 ==> next.at.t == r.at.t + 1)
  {
    hide Rows;
  }

  /** Since when and up to when a page is read: from the last complete pull to now, or as the pull began. */
  function Since(cursor: Option<PullCursor>): Option<Snapshot> {
    match cursor
    case None => None
    case Some(Pulled(snapshot)) => Some(snapshot)
    case Some(Within(from, _, _, _)) => from
  }

  function Until(cursor: Option<PullCursor>, current: Snapshot): Snapshot {
    if cursor.Some? && cursor.value.Within? then cursor.value.upto else current
  }

  /** The cursor is of a database that was ahead of this one, or of a pull too long ago. */
  predicate IsUseless(cursor: Option<PullCursor>, current: Snapshot, expired: bool) {
    match cursor
    case None => false
    case Some(Pulled(snapshot)) => snapshot.xmax > current.xmax || expired
    case Some(Within(_, upto, _, _)) => upto.xmax > current.xmax
  }

  /** The cursor of the next page names the last entry of this one. */
  predicate Resumes(entries: seq<Entry>, from: Option<Snapshot>, upto: Snapshot, cursor: Option<PullCursor>) {
    && entries != []
    && var last := entries[|entries| - 1];
    cursor == Some(Within(from, upto, if last.Drop? then 3 else Turn(last.key.t), Some(last.key)))
  }

  /** What one request is answered. A cursor that cannot be used makes the device start over. Otherwise the
    * page holds what is new to the user, in order, and is full exactly when more may follow.
    */
  lemma PageIs(user: UserId, cursor: Option<PullCursor>, asked: Option<int>, current: Snapshot, expired: bool, views: seq<Db>)
    requires |views| == DONE && (cursor.Some? && cursor.value.Within? ==> cursor.value.t < DONE)
    ensures var reply, from, upto := PullReply(user, cursor, asked, current, expired, views), Since(cursor), Until(cursor, current);
            if IsUseless(cursor, current, expired) then reply == Reply([], true, None, false)
            else
              && !reply.fullResync && |reply.entries| <= PageSize(asked)
              && (reply.hasMore <==> |reply.entries| == PageSize(asked))
              && (if reply.hasMore then Resumes(reply.entries, from, upto, reply.cursor) else reply.cursor == Some(Pulled(upto)))
              && (forall i, j :: 0 <= i < j < |reply.entries| ==> ComesBefore(reply.entries[i], reply.entries[j]))
              && AreNews(views, Query(user, from, upto), reply.entries)
  {
    hide AnswerOver, IsNewsOf, ComesBefore, Ascends, IsBehind;
    if !IsUseless(cursor, current, expired) {
      var (q, at) := Place(user, cursor, current);
      assert Limit(asked) == PageSize(asked);
      var r := Request(q, at, Limit(asked), []);
      AnswerIsPage(views, r, Limit(asked));
      var a := AnswerOver(views, r);
      assert AreNews(views, q, a.entries) && q == Query(user, Since(cursor), Until(cursor, current));
      forall i, j | 0 <= i < j < |a.entries| ensures ComesBefore(a.entries[i], a.entries[j]) {
        AscendsIsComesBefore(a.entries[i], a.entries[j]);
      }
    }
  }
}
