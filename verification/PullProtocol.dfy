/** A device that calls the pull with the cursor it was last given is the device of the protocol, and what
  * its pulls bring.
  */
module PullProtocol {
  import opened Basics
  import opened SyncModel
  import opened Delivery
  import opened DeliveryRuns
  import opened Paging

  /** The cursor a device was last given: the place within a pull, or its last complete pull. */
  function Held(d: Device): Option<PullCursor> {
    if d.paging.Some? then
      var (q, at) := d.paging.value;
      Some(Within(q.from, q.upto, at.t, at.after))
    else if d.cursor.Some? then Some(Pulled(d.cursor.value))
    else None
  }

  // ---- one request ----

  /** In any state in which a pull under way is the user's own: a device whose cursor is ahead of the database is
    * told to start over and drops its copy; any other is answered from the place, and up to the snapshot, its
    * cursor says.
    */
  lemma AsksWithCursor(s: System, asked: Option<int>)
    requires s.device.paging.Some? ==> s.device.paging.value.0.user == s.device.user
    ensures Asked(s, asked) ==
              if Ahead(Held(s.device), CurrentSnapshot(s)) then s.(device := Device(s.device.user, map[], None, None))
              else
                var (q, at) := Place(s.device.user, Held(s.device), CurrentSnapshot(s));
                s.(request := Some(Request(q, at, Limit(asked), [])))
  {
    hide LowestRunning;
    assert CurrentSnapshot(s).xmax == s.ceiling;
  }

  /** Asking with that cursor is never refused, and starts where, and up to the snapshot, the protocol says. */
  lemma AsksAsProtocol(s: System, asked: Option<int>)
    requires Invariant(s) && s.request == None
    ensures !Ahead(Held(s.device), CurrentSnapshot(s))
    ensures var (q, at) := Place(s.device.user, Held(s.device), CurrentSnapshot(s));
            Asked(s, asked) == s.(request := Some(Request(q, at, Limit(asked), [])))
    ensures s.device.paging == None ==> Place(s.device.user, Held(s.device), CurrentSnapshot(s)).0.upto == CurrentSnapshot(s)
  {
    hide TransactionsOk, UpToDate, Issued, Older, LowestRunning;
    KnownNotAhead(s);
    AsksWithCursor(s, asked);
    assert CurrentSnapshot(s).xmax == s.ceiling;
  }

  /** The answer leaves the device with the rows applied and the cursor it is given. */
  lemma AnswersAsProtocol(d: Device, r: Request)
    requires Answered(r)
    ensures var reply, after := ReplyFor(r), Received(d, r);
            && after.replica == ApplyAll(d.replica, reply.entries) && after.user == d.user
            && Held(after) == reply.cursor && (reply.hasMore <==> after.paging.Some?) && !reply.fullResync
            && (!reply.hasMore ==> after.cursor == Some(r.q.upto))
  {
    hide ApplyAll;
  }

  /** The server at work on one request: its statements, and other transactions. */
  predicate IsServing(events: seq<Event>) {
    forall i :: 0 <= i < |events| ==> events[i].Begin? || events[i].Commit? || events[i].Abort? || events[i] == QueryNext
  }

  /** A statement reads only the types from the place on. */
  lemma {:induction false} AnswerReadsOn(a: seq<Db>, b: seq<Db>, r: Request)
    requires |a| == |b| == DONE && forall t :: r.at.t <= t < DONE ==> a[t] == b[t]
    ensures AnswerOver(a, r) == AnswerOver(b, r)
    decreases DONE - r.at.t, r.remaining
  {
    hide Rows;
    if !Answered(r) { AnswerReadsOn(a, b, QueryType(a[r.at.t], r)); }
  }

  lemma {:induction false} ServedIsAnswered(s: System, events: seq<Event>) returns (views: seq<Db>)
    requires IsServing(events) && s.request.Some?
    requires var t := Reached(s, events); t.request.Some? && Answered(t.request.value)
    ensures |views| == DONE
    ensures var t := Reached(s, events); t.device == s.device && t.request.Some? && t.request.value == AnswerOver(views, s.request.value)
    decreases |events|
  {
    hide Reached, AnswerOver, QueryType, Effect, End;
    if events == [] {
      assert Reached(s, events) == s by { NothingHappens(s); }
      views := seq(DONE, _ => s.db);
      NothingAsked(views, s.request.value);
    } else {
      assert events == [events[0]] + events[1..];
      var next := Happen(s, events[0]);
      OneEvent(s, events[0]);
      ReachedAfter(s, [events[0]], events[1..]);
      SameRequest(s, events[0]);
      views := ServedIsAnswered(next, events[1..]);
      var r := s.request.value;
      if events[0] == QueryNext && !Answered(r) {
        var later := views;
        views := views[r.at.t := s.db];
        StatementReads(s.db, r, later, views);
      }
    }
  }

  lemma NothingHappens(s: System)
    ensures Reached(s, []) == s
  {
  }

  lemma OneEvent(s: System, e: Event)
    ensures Reached(s, [e]) == Happen(s, e)
  {
    hide Happen;
    NothingHappens(s);
    ReachedNext(s, [], e);
    assert [] + [e] == [e];
  }

  lemma NothingAsked(views: seq<Db>, r: Request)
    requires |views| == DONE && Answered(r)
    ensures AnswerOver(views, r) == r
  {
  }

  lemma SameRequest(s: System, e: Event)
    requires s.request.Some? && (e.Begin? || e.Commit? || e.Abort? || e == QueryNext)
    ensures var t := Happen(s, e);
            t.device == s.device && t.request.Some?
            && t.request.value == if e == QueryNext && !Answered(s.request.value) then QueryType(s.db, s.request.value) else s.request.value
  {
    hide Effect, QueryType, Answered;
  }

  lemma StatementReads(db: Db, r: Request, later: seq<Db>, views: seq<Db>)
    requires !Answered(r) && |later| == DONE && views == later[r.at.t := db]
    ensures AnswerOver(views, r) == AnswerOver(later, QueryType(db, r))
  {
    var next := QueryType(db, r);
    if Answered(next) {
      NothingAsked(views, next);
      NothingAsked(later, next);
    } else {
      StatementMovesOn(db, r);
      AnswerReadsOn(views, later, next);
    }
    hide QueryType;
    assert views[r.at.t] == db;
  }

  lemma StatementMovesOn(db: Db, r: Request)
    requires !Answered(r) && !Answered(QueryType(db, r))
    ensures QueryType(db, r).at.t > r.at.t
  {
    hide Rows;
  }

  /** A device calls the pull with the cursor it holds while other transactions go on, and gets the answer:
    * it ends up, step by step, as the device of the protocol does, holding the cursor it was given.
    */
  lemma PullIsProtocol(s: System, asked: Option<int>, serving: seq<Event>) returns (views: seq<Db>)
    requires Invariant(s) && s.request == None && IsServing(serving)
    requires var t := Reached(Happen(s, Ask(asked)), serving); t.request.Some? && Answered(t.request.value)
    ensures |views| == DONE
    ensures var reply := PullReply(s.device.user, Held(s.device), asked, CurrentSnapshot(s), false, views);
            var after := Happen(Reached(Happen(s, Ask(asked)), serving), Answer);
            && !reply.fullResync && after.request == None
            && after.device.replica == ApplyAll(s.device.replica, reply.entries)
            && Held(after.device) == reply.cursor && (reply.hasMore <==> after.device.paging.Some?)
  {
    hide Invariant, Reached, CurrentSnapshot, Place, ReplyFor, Received, ApplyAll, Answered, Asked, AnswerOver;
    AsksAsProtocol(s, asked);
    views := ServedIsAnswered(Happen(s, Ask(asked)), serving);
    var t := Reached(Happen(s, Ask(asked)), serving);
    AnswersAsProtocol(s.device, t.request.value);
  }

  /** So what the protocol promises, it promises such a device: holding the cursor of a complete pull, it has
    * all that this cursor's snapshot sees, and nothing of what that snapshot sees deleted.
    */
  lemma HeldIsDelivered(start: System, events: seq<Event>, seen: Snapshot, k: Key)
    requires Initial(start) && Held(Reached(start, events).device) == Some(Pulled(seen))
    ensures var s := Reached(start, events); var d := s.device;
            && (k in s.db.rows && Deliverable(s.db, d.user, k) && Visible(seen, s.db.rows[k].txid) ==>
                  k in d.replica && d.replica[k] == CopyOf(s.db.rows[k]))
            && (Tombstoned(s.db, d.user, k) && Visible(seen, s.db.tombstones[k].txid) ==> Lacks(d.replica, k))
  {
    hide Initial, Reached, Deliverable, Visible, Tombstoned, Lacks;
    SeenIsDelivered(start, events, k);
  }

  // ---- a whole pull ----

  /** The answers of a pull: each request comes with the cursor of the answer before it. */
  function Answers(user: UserId, cursor: Option<PullCursor>, asked: Option<int>, currents: seq<Snapshot>, requests: seq<seq<Db>>): seq<Reply>
    requires AreViews(requests) && |currents| == |requests|
    decreases |requests|
  {
    if requests == [] then []
    else
      var reply := PullReply(user, cursor, asked, currents[0], false, requests[0]);
      [reply] + if reply.hasMore then Answers(user, reply.cursor, asked, currents[1..], requests[1..]) else []
  }

  function AllEntries(replies: seq<Reply>): seq<Entry> {
    if replies == [] then [] else replies[0].entries + AllEntries(replies[1..])
  }

  predicate EndsPull(replies: seq<Reply>) {
    replies != [] && !replies[|replies| - 1].hasMore
  }

  /** The database only moves on while a pull runs. */
  predicate NotBehind(currents: seq<Snapshot>, upto: Snapshot) {
    forall i :: 0 <= i < |currents| ==> upto.xmax <= currents[i].xmax
  }

  lemma {:induction false} AnswersArePages(q: Query, at: Position, cursor: Option<PullCursor>, asked: Option<int>, currents: seq<Snapshot>, requests: seq<seq<Db>>)
    requires at.t < DONE && AreViews(requests) && |currents| == |requests| && requests != [] && NotBehind(currents, q.upto)
    requires !Ahead(cursor, currents[0]) && Place(q.user, cursor, currents[0]) == (q, at)
    ensures var replies := Answers(q.user, cursor, asked, currents, requests);
            && AllEntries(replies) == Joined(Pages(requests, q, at, Limit(asked)))
            && (EndsPull(replies) ==> Finishes(requests, q, at, Limit(asked)) && replies[|replies| - 1].cursor == Some(Pulled(q.upto)))
            && forall i :: 0 <= i < |replies| ==> !replies[i].fullResync
    decreases |requests|
  {
    hide AnswerOver;
    var r := AnswerOver(requests[0], Request(q, at, Limit(asked), []));
    var replies, pages := Answers(q.user, cursor, asked, currents, requests), Pages(requests, q, at, Limit(asked));
    assert replies[0] == ReplyFor(r);
    if r.remaining == 0 && requests[1..] != [] {
      assert NotBehind(currents[1..], q.upto) && AreViews(requests[1..]);
      AnswersArePages(q, r.at, replies[0].cursor, asked, currents[1..], requests[1..]);
      assert replies[1..] == Answers(q.user, replies[0].cursor, asked, currents[1..], requests[1..]);
      assert pages[1..] == Pages(requests[1..], q, r.at, Limit(asked));
    } else {
      assert replies == [replies[0]] && replies[1..] == [];
      assert pages[1..] == [];
    }
  }

  /** The pull of a device that has nothing, or has what its last cursor saw, while others write: once it
    * ends, its cursor is the snapshot the first request was answered at, and every record the device may
    * have, and every deletion, that this snapshot sees and the old cursor did not, came as it now is;
    * nothing came twice.
    */
  lemma PullBringsAll(dbs: seq<Db>, txs: seq<Txid>, user: UserId, from: Option<Snapshot>, asked: Option<int>, currents: seq<Snapshot>,
                      requests: seq<seq<Db>>, k: Key)
    requires AreViews(requests) && |currents| == |requests| && requests != []
    requires NotBehind(currents, currents[0]) && (from.Some? ==> from.value.xmax <= currents[0].xmax)
    requires AreUnseen(dbs, txs, Query(user, from, currents[0]))
    requires forall i, t :: 0 <= i < |requests| && 0 <= t < DONE ==> requests[i][t] in dbs
    requires EndsPull(Answers(user, if from.Some? then Some(Pulled(from.value)) else None, asked, currents, requests))
    ensures var replies := Answers(user, if from.Some? then Some(Pulled(from.value)) else None, asked, currents, requests);
            var all, now, last := AllEntries(replies), dbs[|txs|], replies[|replies| - 1];
            && last.cursor == Some(Pulled(currents[0])) && !last.fullResync && Ascending(all)
            && (k in now.rows && Deliverable(now, user, k) && IsNews(from, currents[0], now.rows[k].txid) ==>
                  Upsert(k, CopyOf(now.rows[k])) in all)
            && (k in now.tombstones && now.tombstones[k].user == user && IsNews(from, currents[0], now.tombstones[k].txid) ==>
                  Drop(k) in all)
  {
    hide IsUnseen, Answers, Pages, Joined, Finishes, Deliverable, Visible, Good, Ascending, AllEntries;
    var q, at := Query(user, from, currents[0]), Position(0, None);
    var cursor := if from.Some? then Some(Pulled(from.value)) else None;
    AnswersArePages(q, at, cursor, asked, currents, requests);
    PullWhileWriting(dbs, txs, requests, q, Limit(asked));
    var replies := Answers(user, cursor, asked, currents, requests);
    assert !replies[|replies| - 1].fullResync;
    MatchCame(dbs[|txs|], q, AllEntries(replies), k);
  }

  /** The snapshot sees what the cursor did not. */
  predicate IsNews(from: Option<Snapshot>, upto: Snapshot, tx: Txid) {
    Visible(upto, tx) && !(from.Some? && Visible(from.value, tx))
  }

  lemma MatchCame(z: Db, q: Query, all: seq<Entry>, k: Key)
    requires Good(z, q, Position(DONE, None), all)
    ensures k in z.rows && Deliverable(z, q.user, k) && IsNews(q.from, q.upto, z.rows[k].txid) ==> Upsert(k, CopyOf(z.rows[k])) in all
    ensures Tombstoned(z, q.user, k) && IsNews(q.from, q.upto, z.tombstones[k].txid) ==> Drop(k) in all
  {
    hide Deliverable, Visible, Matching, Ascending;
    MatchingHas(z, q, Position(Rank(k.t), None), k);
    MatchingHas(z, q, Position(TOMBSTONES, None), k);
  }
}
