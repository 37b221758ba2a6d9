/** The scrubbing run over the payments table: batches in id order, rows others hold are skipped. */
module ScrubRun {
  import opened Basics
  import opened Scrub

  predicate IsSelected(v: Json) {
    v.Obj? && HasSecret(v)
  }

  function Candidates(rows: map<nat, Json>, after: int, locked: set<nat>): set<nat> {
    set id | id in rows && IsSelected(rows[id]) && id > after && id !in locked
  }

  predicate IsLowest(id: nat, ids: set<nat>) {
    id in ids && forall j :: j in ids ==> id <= j
  }

  lemma {:induction false} LowestExists(ids: set<nat>)
    requires ids != {}
    ensures exists id :: IsLowest(id, ids)
  {
    var x :| x in ids;
    if ids - {x} == {} {
      assert ids == {x};
      assert IsLowest(x, ids);
    } else {
      LowestExists(ids - {x});
      var m :| IsLowest(m, ids - {x});
      assert ids == ids - {x} + {x};
      assert IsLowest(if x < m then x else m, ids);
    }
  }

  function LowestOf(ids: set<nat>): (m: nat)
    requires ids != {}
    ensures IsLowest(m, ids)
  {
    LowestExists(ids);
    var m :| IsLowest(m, ids);
    m
  }

  /** ORDER BY id LIMIT n. */
  function Lowest(ids: set<nat>, n: nat): (picked: seq<nat>)
    ensures |picked| <= n
    decreases n
  {
    if n == 0 || ids == {} then [] else [LowestOf(ids)] + Lowest(ids - {LowestOf(ids)}, n - 1)
  }

  predicate IsPage(ids: set<nat>, n: nat, picked: seq<nat>) {
    && (forall i :: 0 <= i < |picked| ==> picked[i] in ids)
    && (|picked| < n ==> forall id :: id in ids ==> id in picked)
    && (forall i, id :: 0 <= i < |picked| && id in ids && id <= picked[i] ==> id in picked)
    && (forall i, j :: 0 <= i < j < |picked| ==> picked[i] < picked[j])
  }

  /** Ascending, distinct, all of them if there is room, and none left out below the last. */
  lemma {:induction false} LowestIsPage(ids: set<nat>, n: nat)
    ensures IsPage(ids, n, Lowest(ids, n))
    decreases n
  {
    if n != 0 && ids != {} {
      var m, rest := LowestOf(ids), Lowest(ids - {LowestOf(ids)}, n - 1);
      LowestIsPage(ids - {m}, n - 1);
      hide Lowest, LowestOf;
      PageWith(ids, m, n, rest);
    }
  }

  lemma PageWith(ids: set<nat>, m: nat, n: nat, rest: seq<nat>)
    requires IsLowest(m, ids) && n > 0 && IsPage(ids - {m}, n - 1, rest)
    ensures IsPage(ids, n, [m] + rest)
  {
    var all := [m] + rest;
    forall i, id | 0 <= i < |all| && id in ids && id <= all[i] ensures id in all {
      if id != m { assert all[i] == rest[i - 1]; assert id in rest; }
    }
    forall id | id in ids && |all| < n ensures id in all {
      if id != m { assert id in rest; }
    }
  }

  function Ids(picked: seq<nat>): set<nat> {
    set id | id in picked
  }

  /** These rows pruned, all others as they were. */
  function PrunedAt(rows: map<nat, Json>, ids: set<nat>): map<nat, Json> {
    map id | id in rows :: if id in ids then Prune(rows[id]) else rows[id]
  }

  function CountPaths(rows: map<nat, Json>, picked: seq<nat>): nat
    requires forall i :: 0 <= i < |picked| ==> picked[i] in rows
  {
    if picked == [] then 0
    else CountPaths(rows, picked[..|picked| - 1]) + |SecretPaths(rows[picked[|picked| - 1]], [])|
  }

  class PaymentsTable {
    var rows: map<nat, Json>

    constructor (rows: map<nat, Json>)
      ensures this.rows == rows
    {
      this.rows := rows;
    }

    ghost predicate Valid()
      reads this
    {
      forall id :: id in rows ==> IsStored(rows[id])
    }

    /** One transaction: lock what is free, delete the secret paths of each row. */
    method ApplyBatch(after: int, n: nat, locked: set<nat>) returns (picked: seq<nat>, fields: nat)
      requires Valid()
      modifies this
      ensures Valid()
      ensures picked == Lowest(Candidates(old(rows), after, locked), n)
      ensures rows == PrunedAt(old(rows), Ids(picked))
      ensures (forall i :: 0 <= i < |picked| ==> picked[i] in old(rows)) && fields == CountPaths(old(rows), picked)
      ensures forall i :: 0 <= i < |picked| ==> picked[i] > after && picked[i] !in locked && old(rows)[picked[i]].Obj? && HasSecret(old(rows)[picked[i]])
      ensures forall i, j :: 0 <= i < j < |picked| ==> picked[i] < picked[j]
      ensures forall id :: id in old(rows) && id > after && id !in locked && old(rows)[id].Obj? && HasSecret(old(rows)[id]) ==>
                id in picked || (|picked| == n && forall i :: 0 <= i < n ==> picked[i] < id)
    {
      hide Prune, Lowest, Candidates, SecretPaths, DeleteAll, IsPage, PrunedAt, IsStored, CountPaths, Ids;
      picked := Lowest(Candidates(rows, after, locked), n);
      PickedAre(rows, after, n, locked, picked);
      PickedInOrder(rows, after, n, locked, picked);
      NothingPicked(rows);
      fields := 0;
      for i := 0 to |picked|
        invariant rows == PrunedAt(old(rows), Ids(picked[..i]))
        invariant fields == CountPaths(old(rows), picked[..i])
      {
        var id := picked[i];
        PrunedOne(old(rows), picked, i);
        var paths := SecretPaths(rows[id], []);
        DeletingIsPruning(rows[id]);
        SelectedIffPaths(rows[id], []);
        if paths != [] {
          rows := rows[id := DeleteAll(rows[id], paths).value];
          fields := fields + |paths|;
        }
      }
      assert picked[..|picked|] == picked;
      PrunedStored(old(rows), picked);
    }

    /** Batch after batch until one is not full. `locks(b)` is what other sessions hold during batch
      * `b`: the changed rows are pruned, no other row changes, and every row with a secret is among
      * them unless it was held.
      */
    method ScrubPaymentSecrets(n: nat, locks: nat -> set<nat>) returns (changed: set<nat>)
      requires Valid() && n > 0
      modifies this
      ensures Valid()
      ensures rows == PrunedAt(old(rows), changed)
      ensures forall id :: id in changed ==> id in old(rows) && old(rows)[id].Obj? && HasSecret(old(rows)[id])
      ensures forall id :: id in old(rows) && old(rows)[id].Obj? && HasSecret(old(rows)[id]) && id !in changed ==> exists b :: id in locks(b)
    {
      hide PrunedAt, Lowest, IsStored, Above, Candidates, IsSelected, Ids;
      changed := {};
      NothingPicked(rows);
      var last: int, b: nat := -1, 0;
      while true
        invariant Valid() && rows == PrunedAt(old(rows), changed)
        invariant SoFar(old(rows), changed, last, locks)
        decreases |Above(old(rows).Keys, last)|
      {
        var picked, _ := ApplyBatch(last, n, locks(b));
        BatchScrubs(old(rows), changed, picked, last, n, b, locks);
        changed := changed + Ids(picked);
        if |picked| < n { break; }
        AboveShrinks(old(rows).Keys, last, picked[n - 1]);
        last, b := picked[n - 1], b + 1;
      }
      SelectedAre(old(rows));
    }
  }

  lemma SelectedAre(rows: map<nat, Json>)
    ensures forall id :: id in rows ==> (IsSelected(rows[id]) <==> rows[id].Obj? && HasSecret(rows[id]))
  {
    hide HasSecret;
  }

  /** Up to `last`, every row with a secret was changed unless it was held; beyond, none was. */
  ghost predicate SoFar(rows: map<nat, Json>, changed: set<nat>, last: int, locks: nat -> set<nat>) {
    && (forall id :: id in changed ==> id in rows && IsSelected(rows[id]) && id <= last)
    && forall id :: id in rows && id <= last && IsSelected(rows[id]) && id !in changed ==> exists b :: id in locks(b)
  }

  function Above(ids: set<nat>, last: int): set<nat> {
    set id | id in ids && id > last
  }

  lemma AboveShrinks(ids: set<nat>, last: int, x: nat)
    requires x in ids && x > last
    ensures |Above(ids, x)| < |Above(ids, last)|
  {
    SubsetSize(Above(ids, x), Above(ids, last) - {x});
  }

  lemma NothingPicked(rows: map<nat, Json>)
    ensures Ids([]) == {} && PrunedAt(rows, {}) == rows && CountPaths(rows, []) == 0
  {
  }

  /** One row more: it was as before, and is pruned now. */
  lemma PrunedOne(rows: map<nat, Json>, picked: seq<nat>, i: nat)
    requires i < |picked| && forall j :: 0 <= j <= i ==> picked[j] in rows && (j < i ==> picked[j] < picked[i])
    ensures var now := PrunedAt(rows, Ids(picked[..i]));
            && picked[i] in now && now[picked[i]] == rows[picked[i]]
            && PrunedAt(rows, Ids(picked[..i + 1])) == now[picked[i] := Prune(rows[picked[i]])]
            && CountPaths(rows, picked[..i + 1]) == CountPaths(rows, picked[..i]) + |SecretPaths(rows[picked[i]], [])|
  {
    hide Prune, SecretPaths;
    assert picked[..i + 1] == picked[..i] + [picked[i]];
    assert picked[..i + 1][..i] == picked[..i];
  }

  lemma PickedInOrder(rows: map<nat, Json>, after: int, n: nat, locked: set<nat>, picked: seq<nat>)
    requires picked == Lowest(Candidates(rows, after, locked), n)
    ensures forall i :: 0 <= i < |picked| ==>
              picked[i] in rows && picked[i] > after && picked[i] !in locked && rows[picked[i]].Obj? && HasSecret(rows[picked[i]])
    ensures forall id :: id in rows && id > after && id !in locked && rows[id].Obj? && HasSecret(rows[id]) ==>
              id in picked || (|picked| == n && forall i :: 0 <= i < n ==> picked[i] < id)
  {
    hide Lowest, HasSecret;
    var ids := Candidates(rows, after, locked);
    LowestIsPage(ids, n);
    forall id | id in rows && id > after && id !in locked && rows[id].Obj? && HasSecret(rows[id])
      ensures id in picked || (|picked| == n && forall i :: 0 <= i < n ==> picked[i] < id) {
      assert id in ids;
    }
  }

  lemma PickedAre(rows: map<nat, Json>, after: int, n: nat, locked: set<nat>, picked: seq<nat>)
    requires picked == Lowest(Candidates(rows, after, locked), n)
    ensures forall i :: 0 <= i < |picked| ==> picked[i] in rows && IsSelected(rows[picked[i]])
    ensures forall i, j :: 0 <= i < j < |picked| ==> picked[i] < picked[j]
  {
    hide Lowest, IsSelected;
    LowestIsPage(Candidates(rows, after, locked), n);
  }

  lemma PrunedStored(rows: map<nat, Json>, picked: seq<nat>)
    requires forall id :: id in rows ==> IsStored(rows[id])
    ensures forall id :: id in PrunedAt(rows, Ids(picked)) ==> IsStored(PrunedAt(rows, Ids(picked))[id])
  {
    hide IsStored, Prune, Ids;
    forall id | id in rows ensures IsStored(Prune(rows[id])) { PrunedHasNone(rows[id]); }
  }

  /** Beyond the last changed row a batch reads what was there at the start. */
  lemma SameCandidates(start: map<nat, Json>, changed: set<nat>, last: int, locked: set<nat>)
    requires forall id :: id in changed ==> id <= last
    ensures Candidates(PrunedAt(start, changed), last, locked) == Candidates(start, last, locked)
  {
    hide IsSelected, Prune;
  }

  /** After a batch everything up to its last row, or everything if it was not full, is scrubbed. */
  lemma BatchScrubs(start: map<nat, Json>, changed: set<nat>, picked: seq<nat>, last: int, n: nat, b: nat, locks: nat -> set<nat>)
    requires n > 0 && SoFar(start, changed, last, locks)
    requires picked == Lowest(Candidates(PrunedAt(start, changed), last, locks(b)), n)
    ensures PrunedAt(PrunedAt(start, changed), Ids(picked)) == PrunedAt(start, changed + Ids(picked))
    ensures |picked| == n ==> last < picked[n - 1] && picked[n - 1] in start && SoFar(start, changed + Ids(picked), picked[n - 1], locks)
    ensures |picked| < n ==> forall id :: id in start && IsSelected(start[id]) && id !in changed + Ids(picked) ==> exists b :: id in locks(b)
    ensures forall id :: id in changed + Ids(picked) ==> id in start && IsSelected(start[id])
  {
    hide Prune, IsSelected, Lowest;
    SameCandidates(start, changed, last, locks(b));
    var cands := Candidates(start, last, locks(b));
    LowestIsPage(cands, n);
    forall id | id in picked ensures id in cands && id !in changed {
    }
    assert forall id :: id in cands && (|picked| < n || id <= picked[n - 1]) ==> id in picked;
    forall id | id in start && IsSelected(start[id]) && id !in changed + Ids(picked) && (|picked| < n || id <= picked[n - 1])
      ensures exists b :: id in locks(b) {
      assert id <= last || id in locks(b);
    }
    if |picked| == n { assert picked[n - 1] in cands; }
  }
}
