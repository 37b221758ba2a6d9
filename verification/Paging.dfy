/** Pages of one pull: together they are the rows that match, in order, each once. */
module Paging {
  import opened Basics
  import opened SyncModel
  import opened Delivery
  import opened DeliveryRuns

  // ---- one request ----

  /** What answering a request comes to; `views[t]` is the database as the statement for type `t`
    * sees it, and other transactions may have committed between two of them.
    */
  function AnswerOver(views: seq<Db>, r: Request): (answered: Request)
    requires |views| == DONE
    ensures Answered(answered) && answered.q == r.q
    ensures r.remaining > 0 && answered.remaining == 0 ==> answered.at.t < DONE
    decreases DONE - r.at.t, r.remaining
  {
    if Answered(r) then r else AnswerOver(views, QueryType(views[r.at.t], r))
  }

  /** A cursor token: the snapshot of the last complete pull, or the place within one. */
  datatype PullCursor =
    | Pulled(snapshot: Snapshot)
    | Within(from: Option<Snapshot>, upto: Snapshot, t: nat, after: Option<Key>)

  datatype Reply = Reply(entries: seq<Entry>, fullResync: bool, cursor: Option<PullCursor>, hasMore: bool)

  const START_OVER := Reply([], true, None, false)

  predicate Ahead(cursor: Option<PullCursor>, current: Snapshot) {
    cursor.Some? && (if cursor.value.Within? then cursor.value.upto else cursor.value.snapshot).xmax > current.xmax
  }

  function Place(user: UserId, cursor: Option<PullCursor>, current: Snapshot): (Query, Position) {
    match cursor
    case None => (Query(user, None, current), Position(0, None))
    case Some(Pulled(snapshot)) => (Query(user, Some(snapshot), current), Position(0, None))
    case Some(Within(from, upto, t, after)) => (Query(user, from, upto), Position(t, after))
  }

  function ReplyFor(r: Request): Reply {
    if r.remaining == 0 then Reply(r.entries, false, Some(Within(r.q.from, r.q.upto, r.at.t, r.at.after)), true)
    else Reply(r.entries, false, Some(Pulled(r.q.upto)), false)
  }

  /** What one page request is answered: to start over, if the cursor is ahead of the database or too old,
    * or else the rows from the place the cursor says.
    */
  function PullReply(user: UserId, cursor: Option<PullCursor>, asked: Option<int>, current: Snapshot, expired: bool, views: seq<Db>): Reply
    requires |views| == DONE
  {
    if Ahead(cursor, current) || (cursor.Some? && cursor.value.Pulled? && expired) then START_OVER
    else
      var (q, at) := Place(user, cursor, current);
      ReplyFor(AnswerOver(views, Request(q, at, Limit(asked), [])))
  }

  /** Answer one request: type after type until the page is full. `expired` is whether the cursor
    * of a complete pull is older than tombstones are kept.
    */
  method PullByCursor(user: UserId, cursor: Option<PullCursor>, asked: Option<int>, current: Snapshot, expired: bool, views: seq<Db>)
    returns (reply: Reply)
    requires |views| == DONE
    requires cursor.Some? && cursor.value.Within? ==> cursor.value.t < DONE
    ensures reply == PullReply(user, cursor, asked, current, expired, views)
  {
    var limit := Limit(asked);
    if Ahead(cursor, current) { return START_OVER; }
    if cursor.Some? && cursor.value.Pulled? && expired { return START_OVER; }
    var (q, at) := Place(user, cursor, current);
    var page: seq<Entry> := [];
    var remaining := limit;
    var next: Option<Position> := None;
    for t := at.t to DONE
      invariant next == None && remaining > 0
      invariant AnswerOver(views, Request(q, at, limit, []))
                == AnswerOver(views, Request(q, Position(t, if t == at.t then at.after else None), remaining, page))
    {
      var rows := Rows(views[t], q, Position(t, if t == at.t then at.after else None), remaining);
      page := page + rows;
      if |rows| == remaining {
        next := Some(Position(t, Some(rows[|rows| - 1].key)));
        break;
      }
      remaining := remaining - |rows|;
    }
    if next.Some? {
      reply := Reply(page, false, Some(Within(q.from, q.upto, next.value.t, next.value.after)), true);
    } else {
      reply := Reply(page, false, Some(Pulled(q.upto)), false);
    }
  }

  // ---- the rows of one statement ----

  function KeysOf(entries: seq<Entry>): set<Key> {
    set i | 0 <= i < |entries| :: entries[i].key
  }

  function TypeOf(e: Entry): nat {
    if e.Drop? then TOMBSTONES else Rank(e.key.t)
  }

  predicate Ascends(a: Entry, b: Entry) {
    TypeOf(a) < TypeOf(b) || (TypeOf(a) == TypeOf(b) && Before(a.key, b.key))
  }

  predicate Ascending(entries: seq<Entry>) {
    forall i, j :: 0 <= i < j < |entries| ==> Ascends(entries[i], entries[j])
  }

  /** What is left to match after the first. */
  lemma MatchingRest(db: Db, q: Query, at: Position)
    requires at.t < DONE && Matching(db, q, at) != {}
    ensures var k := First(Matching(db, q, at));
            k in Matching(db, q, at) && Matching(db, q, Position(at.t, Some(k))) == Matching(db, q, at) - {k}
  {
    hide Deliverable, InWindow, Tombstoned;
    var k := First(Matching(db, q, at));
    forall j ensures j in Matching(db, q, Position(at.t, Some(k))) <==> j in Matching(db, q, at) && j != k {
      MatchingHas(db, q, at, j);
      MatchingHas(db, q, Position(at.t, Some(k)), j);
    }
  }

  predicate IsEntry(db: Db, q: Query, at: Position, e: Entry) {
    e.key in Matching(db, q, at) && (at.t != TOMBSTONES ==> e.key in db.rows) && e == EntryFor(db, at, e.key) && TypeOf(e) == at.t
  }

  lemma FirstIsEntry(db: Db, q: Query, at: Position)
    requires at.t < DONE && Matching(db, q, at) != {}
    ensures var k := First(Matching(db, q, at)); (at.t != TOMBSTONES ==> k in db.rows) && IsEntry(db, q, at, EntryFor(db, at, k))
  {
    hide Deliverable, InWindow, Tombstoned;
    MatchingHas(db, q, at, First(Matching(db, q, at)));
  }

  ghost predicate AreEntries(db: Db, q: Query, at: Position, rows: seq<Entry>) {
    (forall i :: 0 <= i < |rows| ==> IsEntry(db, q, at, rows[i])) && Ascending(rows)
  }

  lemma {:induction false} RowsAre(db: Db, q: Query, at: Position, n: nat)
    requires at.t < DONE
    ensures var rows := Rows(db, q, at, n);
            && |rows| == (if n < |Matching(db, q, at)| then n else |Matching(db, q, at)|)
            && AreEntries(db, q, at, rows)
            && Matching(db, q, Passing(at, rows)) == Matching(db, q, at) - KeysOf(rows)
            && (|rows| < n ==> Matching(db, q, Passing(at, rows)) == {})
    decreases n
  {
    hide Matching, First, AreEntries, KeysOf, IsEntry, IsFirst;
    var rows, keys := Rows(db, q, at, n), Matching(db, q, at);
    if n != 0 && keys != {} {
      var k := First(keys);
      var after := Position(at.t, Some(k));
      FirstIsEntry(db, q, at);
      MatchingRest(db, q, at);
      RowsAre(db, q, after, n - 1);
      var rest := Rows(db, q, after, n - 1);
      assert rows == [EntryFor(db, at, k)] + rest;
      KeysOfCons(EntryFor(db, at, k), rest);
      assert Passing(at, rows) == Passing(after, rest);
      FirstAscends(db, q, at, rest);
    } else {
      NoRows(db, q, at);
    }
  }

  lemma NoRows(db: Db, q: Query, at: Position)
    ensures KeysOf([]) == {} && AreEntries(db, q, at, []) && Passing(at, []) == at
  {
  }

  lemma KeysOfCons(e: Entry, rest: seq<Entry>)
    ensures KeysOf([e] + rest) == {e.key} + KeysOf(rest)
  {
    forall i | 0 <= i < |rest| ensures rest[i].key in KeysOf([e] + rest) {
      assert ([e] + rest)[i + 1] == rest[i];
    }
    assert ([e] + rest)[0] == e;
  }

  lemma FirstAscends(db: Db, q: Query, at: Position, rest: seq<Entry>)
    requires at.t < DONE && Matching(db, q, at) != {}
    requires AreEntries(db, q, Position(at.t, Some(First(Matching(db, q, at)))), rest)
    ensures var k := First(Matching(db, q, at));
            (at.t != TOMBSTONES ==> k in db.rows) && AreEntries(db, q, at, [EntryFor(db, at, k)] + rest)
  {
    hide Matching;
    FirstIsEntry(db, q, at);
    MatchingRest(db, q, at);
  }

  // ---- a pull while others write ----

  /** What still matches in `z` matched, as it is, when a statement saw `v`. */
  ghost predicate Stays(v: Db, z: Db, q: Query) {
    forall t: nat, k: Key :: t < DONE && k in Matching(z, q, Position(t, None)) ==>
      k in Matching(v, q, Position(t, None)) && SameEntry(v, z, t, k)
  }

  ghost predicate SameEntry(v: Db, z: Db, t: nat, k: Key) {
    t != TOMBSTONES ==> k in v.rows && k in z.rows && v.rows[k] == z.rows[k]
  }

  /** A commit the pull does not see never adds to what matches: the match set only shrinks. */
  lemma CommitShrinks(a: Db, b: Db, tx: Txid, q: Query)
    requires Stamped(a, b, tx) && !Visible(q.upto, tx)
    ensures Stays(a, b, q)
  {
    hide Deliverable, Visible, Delivered;
    forall t: nat, k: Key | t < DONE && k in Matching(b, q, Position(t, None))
      ensures k in Matching(a, q, Position(t, None)) && SameEntry(a, b, t, k) {
      MatchingHas(a, q, Position(t, None), k);
      MatchingHas(b, q, Position(t, None), k);
    }
  }

  lemma StaysTransitive(a: Db, b: Db, c: Db, q: Query)
    requires Stays(a, b, q) && Stays(b, c, q)
    ensures Stays(a, c, q)
  {
    hide Matching;
  }

  lemma StaysSame(a: Db, q: Query)
    ensures Stays(a, a, q)
  {
    forall t: nat, k: Key | t < DONE && k in Matching(a, q, Position(t, None)) ensures SameEntry(a, a, t, k) {
      MatchingHas(a, q, Position(t, None), k);
    }
  }

  /** An entry for the key, as `z` has it. */
  predicate IsFor(z: Db, t: nat, k: Key, e: Entry) {
    e.key == k && TypeOf(e) == t && (t != TOMBSTONES ==> k in z.rows && e == Upsert(k, CopyOf(z.rows[k])))
  }

  predicate IsBehind(e: Entry, at: Position) {
    Passed(at, TypeOf(e), e.key)
  }

  /** Part of the way through a pull: entries in order, none beyond the position, and every match
    * of `z` the position has passed is among them.
    */
  ghost predicate Good(z: Db, q: Query, at: Position, entries: seq<Entry>) {
    && Ascending(entries)
    && (forall i :: 0 <= i < |entries| ==> IsBehind(entries[i], at))
    && (forall t: nat, k: Key :: t < DONE && k in Matching(z, q, Position(t, None)) && Passed(at, t, k) ==>
          exists i :: 0 <= i < |entries| && IsFor(z, t, k, entries[i]))
  }

  lemma MatchesAfter(v: Db, q: Query, at: Position, k: Key)
    requires at.t < DONE
    ensures k in Matching(v, q, at) <==> k in Matching(v, q, Position(at.t, None)) && After(k, at.after)
  {
    hide Deliverable, InWindow, Tombstoned;
    MatchingHas(v, q, at, k);
    MatchingHas(v, q, Position(at.t, None), k);
  }

  lemma RowsFollow(v: Db, q: Query, at: Position, n: nat, entries: seq<Entry>)
    requires at.t < DONE && Ascending(entries) && forall i :: 0 <= i < |entries| ==> IsBehind(entries[i], at)
    ensures var rows := Rows(v, q, at, n);
            && Ascending(entries + rows)
            && forall i :: 0 <= i < |entries + rows| ==> IsBehind((entries + rows)[i], Passing(at, rows))
  {
    hide Matching, EntryFor;
    var rows := Rows(v, q, at, n);
    RowsAre(v, q, at, n);
    forall i | 0 <= i < |rows| ensures After(rows[i].key, at.after) && TypeOf(rows[i]) == at.t {
      MatchesAfter(v, q, at, rows[i].key);
    }
  }

  lemma RowsGood(v: Db, z: Db, q: Query, at: Position, n: nat, entries: seq<Entry>)
    requires at.t < DONE && Good(z, q, at, entries) && Stays(v, z, q)
    ensures var rows := Rows(v, q, at, n);
            && Good(z, q, Passing(at, rows), entries + rows)
            && (|rows| < n ==> Good(z, q, Position(at.t + 1, None), entries + rows))
  {
    hide Ascending, IsBehind, IsFor, Passed, EntryFor, Stays, Matching;
    var rows := Rows(v, q, at, n);
    var all := entries + rows;
    RowsFollow(v, q, at, n, entries);
    forall t: nat, k: Key | t < DONE && k in Matching(z, q, Position(t, None)) && Passed(Passing(at, rows), t, k)
      ensures exists i :: 0 <= i < |all| && IsFor(z, t, k, all[i]) {
      FoundWhenPassed(v, z, q, at, n, entries, t, k);
    }
    if |rows| < n {
      forall i | 0 <= i < |all| ensures IsBehind(all[i], Position(at.t + 1, None)) {
        BehindNext(all[i], Passing(at, rows));
      }
      forall t: nat, k: Key | t < DONE && k in Matching(z, q, Position(t, None)) && Passed(Position(at.t + 1, None), t, k)
        ensures exists i :: 0 <= i < |all| && IsFor(z, t, k, all[i]) {
        FoundWhenDone(v, z, q, at, n, entries, t, k);
      }
    }
  }

  lemma BehindNext(e: Entry, at: Position)
    requires IsBehind(e, at)
    ensures IsBehind(e, Position(at.t + 1, None))
  {
  }

  lemma Among(entries: seq<Entry>, rows: seq<Entry>, z: Db, t: nat, k: Key)
    requires (exists i :: 0 <= i < |entries| && IsFor(z, t, k, entries[i])) || (exists i :: 0 <= i < |rows| && IsFor(z, t, k, rows[i]))
    ensures exists i :: 0 <= i < |entries + rows| && IsFor(z, t, k, (entries + rows)[i])
  {
    hide IsFor;
    if i :| 0 <= i < |entries| && IsFor(z, t, k, entries[i]) {
      assert (entries + rows)[i] == entries[i];
    } else {
      var j :| 0 <= j < |rows| && IsFor(z, t, k, rows[j]);
      assert (entries + rows)[|entries| + j] == rows[j];
    }
  }

  /** A match that a statement read is among its rows, as it still is. */
  lemma ReadRow(v: Db, z: Db, q: Query, at: Position, n: nat, k: Key)
    requires at.t < DONE && Stays(v, z, q) && k in Matching(z, q, Position(at.t, None))
    requires k in KeysOf(Rows(v, q, at, n))
    ensures var rows := Rows(v, q, at, n); exists i :: 0 <= i < |rows| && IsFor(z, at.t, k, rows[i])
  {
    hide Matching;
    var rows := Rows(v, q, at, n);
    RowsAre(v, q, at, n);
    var i :| 0 <= i < |rows| && rows[i].key == k;
    assert IsFor(z, at.t, k, rows[i]);
  }

  lemma FoundWhenPassed(v: Db, z: Db, q: Query, at: Position, n: nat, entries: seq<Entry>, t: nat, k: Key)
    requires at.t < DONE && Good(z, q, at, entries) && Stays(v, z, q)
    requires t < DONE && k in Matching(z, q, Position(t, None)) && Passed(Passing(at, Rows(v, q, at, n)), t, k)
    ensures var all := entries + Rows(v, q, at, n); exists i :: 0 <= i < |all| && IsFor(z, t, k, all[i])
  {
    hide Ascending, IsBehind, IsFor, EntryFor, Matching, SameEntry, KeysOf;
    var rows := Rows(v, q, at, n);
    if !Passed(at, t, k) {
      RowsAre(v, q, at, n);
      MatchesAfter(v, q, at, k);
      MatchesAfter(v, q, Passing(at, rows), k);
      ReadRow(v, z, q, at, n, k);
    }
    Among(entries, rows, z, t, k);
  }

  lemma FoundWhenDone(v: Db, z: Db, q: Query, at: Position, n: nat, entries: seq<Entry>, t: nat, k: Key)
    requires at.t < DONE && Good(z, q, at, entries) && Stays(v, z, q) && |Rows(v, q, at, n)| < n
    requires t < DONE && k in Matching(z, q, Position(t, None)) && Passed(Position(at.t + 1, None), t, k)
    ensures var all := entries + Rows(v, q, at, n); exists i :: 0 <= i < |all| && IsFor(z, t, k, all[i])
  {
    hide Ascending, IsBehind, IsFor, EntryFor, Matching, SameEntry;
    var rows := Rows(v, q, at, n);
    if !Passed(at, t, k) {
      RowsAre(v, q, at, n);
      MatchesAfter(v, q, at, k);
      assert k !in Matching(v, q, Passing(at, rows));
      ReadRow(v, z, q, at, n, k);
    }
    Among(entries, rows, z, t, k);
  }

  // ---- whole pulls ----

  predicate AreViews(requests: seq<seq<Db>>) {
    forall i :: 0 <= i < |requests| ==> |requests[i]| == DONE
  }

  /** The pages of a pull: one request after another, each with what its statements see, until
    * one is not full.
    */
  function Pages(requests: seq<seq<Db>>, q: Query, at: Position, limit: nat): (pages: seq<seq<Entry>>)
    requires at.t < DONE && limit > 0 && AreViews(requests)
    decreases |requests|
  {
    if requests == [] then []
    else
      var r := AnswerOver(requests[0], Request(q, at, limit, []));
      [r.entries] + if r.remaining == 0 then Pages(requests[1..], q, r.at, limit) else []
  }

  predicate Finishes(requests: seq<seq<Db>>, q: Query, at: Position, limit: nat)
    requires at.t < DONE && limit > 0 && AreViews(requests)
    decreases |requests|
  {
    && requests != []
    && var r := AnswerOver(requests[0], Request(q, at, limit, []));
    (r.remaining == 0 ==> Finishes(requests[1..], q, r.at, limit))
  }

  function Joined(pages: seq<seq<Entry>>): seq<Entry> {
    if pages == [] then [] else pages[0] + Joined(pages[1..])
  }

  lemma {:induction false} AnswerGood(views: seq<Db>, z: Db, r: Request, done: seq<Entry>)
    requires |views| == DONE && r.at.t <= DONE && Good(z, r.q, r.at, done + r.entries)
    requires forall i :: 0 <= i < DONE ==> Stays(views[i], z, r.q)
    ensures var a := AnswerOver(views, r); a.at.t <= DONE && Good(z, r.q, a.at, done + a.entries)
    decreases DONE - r.at.t, r.remaining
  {
    hide Good, Stays, Rows;
    if !Answered(r) {
      var rows := Rows(views[r.at.t], r.q, r.at, r.remaining);
      RowsGood(views[r.at.t], z, r.q, r.at, r.remaining, done + r.entries);
      assert done + r.entries + rows == done + (r.entries + rows);
      AnswerGood(views, z, QueryType(views[r.at.t], r), done);
    }
  }

  /** While others write: the pages of a pull are in strictly ascending order, so nothing comes
    * twice, and once the pull ends they hold everything that still matches, as it still is.
    */
  lemma {:induction false} PullReturnsOnce(requests: seq<seq<Db>>, z: Db, q: Query, at: Position, limit: nat, done: seq<Entry>)
    requires at.t < DONE && limit > 0 && AreViews(requests) && Good(z, q, at, done)
    requires forall i, t :: 0 <= i < |requests| && 0 <= t < DONE ==> Stays(requests[i][t], z, q)
    ensures Ascending(done + Joined(Pages(requests, q, at, limit)))
    ensures Finishes(requests, q, at, limit) ==>
              Good(z, q, Position(DONE, None), done + Joined(Pages(requests, q, at, limit)))
    decreases |requests|
  {
    hide Stays, AnswerOver, Good, Ascending;
    GoodAscends(z, q, at, done);
    var pages := Pages(requests, q, at, limit);
    if requests == [] {
      assert done + Joined(pages) == done;
    } else {
      var r := AnswerOver(requests[0], Request(q, at, limit, []));
      assert done + [] == done;
      AnswerGood(requests[0], z, Request(q, at, limit, []), done);
      if r.remaining == 0 {
        PullReturnsOnce(requests[1..], z, q, r.at, limit, done + r.entries);
        assert pages[1..] == Pages(requests[1..], q, r.at, limit);
        assert done + (r.entries + Joined(pages[1..])) == done + r.entries + Joined(pages[1..]);
      } else {
        assert pages[1..] == [] && Joined(pages) == r.entries;
        AtTheEnd(z, q, r.at, done + r.entries);
        GoodAscends(z, q, r.at, done + r.entries);
      }
    }
  }

  lemma GoodAscends(z: Db, q: Query, at: Position, entries: seq<Entry>)
    requires Good(z, q, at, entries)
    ensures Ascending(entries)
  {
    hide Matching;
  }

  lemma AtTheEnd(z: Db, q: Query, at: Position, entries: seq<Entry>)
    requires at.t == DONE && Good(z, q, at, entries)
    ensures Good(z, q, Position(DONE, None), entries)
  {
    hide Ascending, Matching, IsFor;
  }

  /** From the start nothing has been passed. */
  lemma StartGood(z: Db, q: Query)
    ensures Good(z, q, Position(0, None), [])
  {
    hide Matching;
  }

  /** The databases between the commits that happen while a pull runs; it sees none of these commits. */
  ghost predicate AreUnseen(dbs: seq<Db>, txs: seq<Txid>, q: Query) {
    |dbs| == |txs| + 1 && forall i :: 0 <= i < |txs| ==> IsUnseen(dbs, txs, q, i)
  }

  ghost predicate IsUnseen(dbs: seq<Db>, txs: seq<Txid>, q: Query, i: nat)
    requires |dbs| == |txs| + 1 && i < |txs|
  {
    Stamped(dbs[i], dbs[i + 1], txs[i]) && !Visible(q.upto, txs[i])
  }

  lemma {:induction false} StaysToEnd(dbs: seq<Db>, txs: seq<Txid>, q: Query, i: nat)
    requires AreUnseen(dbs, txs, q) && i < |dbs|
    ensures Stays(dbs[i], dbs[|txs|], q)
    decreases |dbs| - i
  {
    hide Stays, Stamped, Visible;
    if i == |txs| {
      StaysSame(dbs[i], q);
    } else {
      assert IsUnseen(dbs, txs, q, i);
      CommitShrinks(dbs[i], dbs[i + 1], txs[i], q);
      StaysToEnd(dbs, txs, q, i + 1);
      StaysTransitive(dbs[i], dbs[i + 1], dbs[|txs|], q);
    }
  }

  /** A whole pull whose statements see the database between any of the commits meanwhile: nothing comes
    * twice, and once it ends, everything that still matches after the last commit came, as it still is.
    */
  lemma PullWhileWriting(dbs: seq<Db>, txs: seq<Txid>, requests: seq<seq<Db>>, q: Query, limit: nat)
    requires AreUnseen(dbs, txs, q) && limit > 0 && AreViews(requests)
    requires forall i, t :: 0 <= i < |requests| && 0 <= t < DONE ==> requests[i][t] in dbs
    ensures var start, all := Position(0, None), Joined(Pages(requests, q, Position(0, None), limit));
            Ascending(all) && (Finishes(requests, q, start, limit) ==> Good(dbs[|txs|], q, Position(DONE, None), all))
  {
    hide Stays, IsUnseen, Good, Ascending, Finishes;
    var start, z := Position(0, None), dbs[|txs|];
    forall i, t | 0 <= i < |requests| && 0 <= t < DONE ensures Stays(requests[i][t], z, q) {
      var n :| 0 <= n < |dbs| && dbs[n] == requests[i][t];
      StaysToEnd(dbs, txs, q, n);
    }
    StartGood(z, q);
    PullReturnsOnce(requests, z, q, start, limit, []);
    assert [] + Joined(Pages(requests, q, start, limit)) == Joined(Pages(requests, q, start, limit));
  }

  // ---- a pull while nothing is written ----

  /** How many rows match from a position on, over all types. */
  function CountFrom(db: Db, q: Query, at: Position): nat
    decreases DONE - at.t
  {
    if at.t >= DONE then 0 else |Matching(db, q, at)| + CountFrom(db, q, Position(at.t + 1, None))
  }

  function Quiet(db: Db): (views: seq<Db>)
    ensures |views| == DONE
  {
    seq(DONE, _ => db)
  }

  function Repeat(views: seq<Db>, m: nat): (requests: seq<seq<Db>>)
    requires |views| == DONE
    ensures |requests| == m && forall i :: 0 <= i < m ==> requests[i] == views
  {
    if m == 0 then [] else [views] + Repeat(views, m - 1)
  }

  lemma CountAfterRows(db: Db, q: Query, at: Position, n: nat)
    requires at.t < DONE
    ensures var rows := Rows(db, q, at, n);
            && CountFrom(db, q, Passing(at, rows)) == CountFrom(db, q, at) - |rows|
            && (|rows| < n ==> CountFrom(db, q, Position(at.t + 1, None)) == CountFrom(db, q, at) - |rows|)
  {
    hide Matching, AreEntries;
    var rows := Rows(db, q, at, n);
    RowsAre(db, q, at, n);
    RowKeys(db, q, at, n);
  }

  /** As many keys as rows, all of them matching. */
  lemma {:induction false} RowKeys(db: Db, q: Query, at: Position, n: nat)
    requires at.t < DONE
    ensures |Matching(db, q, Passing(at, Rows(db, q, at, n)))| == |Matching(db, q, at)| - |Rows(db, q, at, n)|
    decreases n
  {
    hide Matching, First, EntryFor, IsFirst;
    var rows, keys := Rows(db, q, at, n), Matching(db, q, at);
    if n != 0 && keys != {} {
      var k := First(keys);
      MatchingRest(db, q, at);
      FirstIsEntry(db, q, at);
      RowKeys(db, q, Position(at.t, Some(k)), n - 1);
      EntryKey(db, at, k);
      assert rows[1..] == Rows(db, q, Position(at.t, Some(k)), n - 1);
      assert Passing(at, rows) == Passing(Position(at.t, Some(k)), rows[1..]);
    }
  }

  lemma EntryKey(db: Db, at: Position, k: Key)
    requires at.t != TOMBSTONES ==> k in db.rows
    ensures EntryFor(db, at, k).key == k
  {
  }

  /** One page takes as many rows as are left, at most as many as it may. */
  lemma {:induction false} AnswerCount(db: Db, r: Request)
    requires r.remaining > 0 && r.at.t <= DONE
    ensures var a, left := AnswerOver(Quiet(db), r), CountFrom(db, r.q, r.at);
            if left >= r.remaining then
              a.remaining == 0 && |a.entries| == |r.entries| + r.remaining && CountFrom(db, r.q, a.at) == left - r.remaining
            else
              a.remaining > 0 && |a.entries| == |r.entries| + left
    decreases DONE - r.at.t
  {
    hide Matching, Rows;
    if !Answered(r) {
      var rows := Rows(db, r.q, r.at, r.remaining);
      CountAfterRows(db, r.q, r.at, r.remaining);
      if |rows| < r.remaining {
        AnswerCount(db, QueryType(db, r));
      } else {
        assert Answered(QueryType(db, r));
      }
    }
  }

  lemma Divide(n: nat, limit: nat)
    requires 0 < limit <= n
    ensures n / limit == (n - limit) / limit + 1
  {
    var a, b := n / limit, (n - limit) / limit;
    assert limit * a <= n < limit * a + limit;
    assert limit * b <= n - limit < limit * b + limit;
    if a < b + 1 { Multiples(limit, a, b); } else if a > b + 1 { Multiples(limit, b + 1, a - 1); }
  }

  lemma Multiples(d: nat, x: int, y: int)
    requires x <= y
    ensures d * x <= d * y
  {
  }

  lemma {:induction false} PageCount(db: Db, q: Query, at: Position, limit: nat, m: nat)
    requires at.t < DONE && limit > 0 && m > CountFrom(db, q, at) / limit
    ensures var requests := Repeat(Quiet(db), m);
            && Finishes(requests, q, at, limit)
            && |Pages(requests, q, at, limit)| == CountFrom(db, q, at) / limit + 1
            && |Joined(Pages(requests, q, at, limit))| == CountFrom(db, q, at)
    decreases m
  {
    hide Matching, AnswerOver, CountFrom;
    var requests := Repeat(Quiet(db), m);
    var r := AnswerOver(requests[0], Request(q, at, limit, []));
    AnswerCount(db, Request(q, at, limit, []));
    if r.remaining == 0 {
      Divide(CountFrom(db, q, at), limit);
      PageCount(db, q, r.at, limit, m - 1);
      assert requests[1..] == Repeat(Quiet(db), m - 1);
      assert Pages(requests, q, at, limit)[1..] == Pages(requests[1..], q, r.at, limit);
    } else {
      assert CountFrom(db, q, at) / limit == 0 by { Small(CountFrom(db, q, at), limit); }
      assert Pages(requests, q, at, limit) == [r.entries];
      assert Joined([r.entries]) == r.entries;
    }
  }

  lemma Small(n: nat, limit: nat)
    requires n < limit
    ensures n / limit == 0
  {
  }

  /** With nothing written meanwhile, N matching rows come in exactly N / limit + 1 pages, which
    * together are N entries in strictly ascending order, every match among them.
    */
  lemma QuietPull(db: Db, q: Query, limit: nat, m: nat)
    requires limit > 0 && m > CountFrom(db, q, Position(0, None)) / limit
    ensures var requests, start := Repeat(Quiet(db), m), Position(0, None);
            var pages := Pages(requests, q, start, limit);
            && Finishes(requests, q, start, limit)
            && |pages| == CountFrom(db, q, start) / limit + 1
            && |Joined(pages)| == CountFrom(db, q, start)
            && Ascending(Joined(pages))
            && forall t: nat, k: Key :: t < DONE && k in Matching(db, q, Position(t, None)) ==>
                 exists i :: 0 <= i < |Joined(pages)| && IsFor(db, t, k, Joined(pages)[i])
  {
    hide Matching, AnswerOver, CountFrom, Ascending, Pages, Finishes, Joined, IsFor, IsBehind;
    var requests, start := Repeat(Quiet(db), m), Position(0, None);
    PageCount(db, q, start, limit, m);
    StaysSame(db, q);
    StartGood(db, q);
    PullReturnsOnce(requests, db, q, start, limit, []);
    assert [] + Joined(Pages(requests, q, start, limit)) == Joined(Pages(requests, q, start, limit));
  }
}
