/** Removing stored secrets from JSON: the paths of the secret keys, deleted one after another. */
module Scrub {
  import opened Basics
  import Decimal

  /** A JSON value; an object's keys are distinct, in the order the database keeps them. */
  datatype Json =
    | Null
    | Bool(b: bool)
    | Num(digits: string)
    | Str(text: string)
    | Arr(items: seq<Json>)
    | Obj(members: seq<Member>)

  datatype Member = Member(key: string, value: Json)

  type Path = seq<string>

  predicate IsSecretKey(key: string) {
    key == "client_secret" || key == "clientSecret"
  }

  predicate DistinctKeys(members: seq<Member>) {
    forall i, j :: 0 <= i < j < |members| ==> members[i].key != members[j].key
  }

  /** What jsonb keeps: distinct keys in every object. */
  predicate IsStored(v: Json) {
    match v
    case Arr(items) => forall i :: 0 <= i < |items| ==> IsStored(items[i])
    case Obj(members) => DistinctKeys(members) && forall i :: 0 <= i < |members| ==> IsStored(members[i].value)
    case _ => true
  }

  // ---- the paths of the secrets ----

  function SecretPaths(v: Json, prefix: Path): (paths: seq<Path>)
    decreases v
  {
    match v
    case Arr(items) => ItemPaths(items, 0, prefix)
    case Obj(members) => MemberPaths(members, prefix)
    case _ => []
  }

  /** The loop over an array; `start` is the index of its first remaining item. */
  function ItemPaths(items: seq<Json>, start: nat, prefix: Path): seq<Path>
    decreases items
  {
    if items == [] then []
    else SecretPaths(items[0], prefix + [Decimal.Print(start)]) + ItemPaths(items[1..], start + 1, prefix)
  }

  /** The loop over the keys of an object. */
  function MemberPaths(members: seq<Member>, prefix: Path): seq<Path>
    decreases members
  {
    if members == [] then []
    else
      var path := prefix + [members[0].key];
      (if IsSecretKey(members[0].key) then [path] else SecretPaths(members[0].value, path)) + MemberPaths(members[1..], prefix)
  }

  // ---- deleting a path ----

  function FindKey(members: seq<Member>, key: string): (i: nat)
    ensures i <= |members|
    ensures i < |members| ==> members[i].key == key
    ensures forall j :: 0 <= j < i ==> members[j].key != key
  {
    if members == [] || members[0].key == key then 0 else 1 + FindKey(members[1..], key)
  }

  /** An array position as the database reads it: negative ones count from the end. */
  function ParseIndex(s: string): Option<int> {
    if s != [] && Decimal.AllDigits(s) then Some(Decimal.Parse(s))
    else if |s| > 1 && s[0] == '-' && Decimal.AllDigits(s[1..]) then Some(0 - Decimal.Parse(s[1..]) as int)
    else None
  }

  /** jsonb `#-`: None is an error (a position that is no number). */
  function DeletePath(v: Json, path: Path): Option<Json>
    decreases |path|
  {
    if path == [] then Some(v)
    else
      match v
      case Obj(members) =>
        var i := FindKey(members, path[0]);
        if i == |members| then Some(v)
        else if |path| == 1 then Some(Obj(members[..i] + members[i + 1..]))
        else
          (match DeletePath(members[i].value, path[1..])
           case None => None
           case Some(c) => Some(Obj(members[i := Member(path[0], c)])))
      case Arr(items) =>
        (match ParseIndex(path[0])
         case None => None
         case Some(n) =>
           var i := if n < 0 then |items| + n else n;
           if !(0 <= i < |items|) then Some(v)
           else if |path| == 1 then Some(Arr(items[..i] + items[i + 1..]))
           else
             match DeletePath(items[i], path[1..])
             case None => None
             case Some(c) => Some(Arr(items[i := c])))
      case _ => Some(v)
  }

  /** One UPDATE: `#-` for each path, in order. */
  function DeleteAll(v: Json, paths: seq<Path>): Option<Json>
    decreases |paths|
  {
    if paths == [] then Some(v)
    else
      match DeletePath(v, paths[0])
      case None => None
      case Some(w) => DeleteAll(w, paths[1..])
  }

  // ---- what it should come to ----

  /** The value without its secret keys, at every depth, and nothing else changed. */
  function Prune(v: Json): Json
    decreases v
  {
    match v
    case Arr(items) => Arr(PruneItems(items))
    case Obj(members) => Obj(PruneMembers(members))
    case _ => v
  }

  function PruneItems(items: seq<Json>): (pruned: seq<Json>)
    ensures |pruned| == |items|
    decreases items
  {
    if items == [] then [] else [Prune(items[0])] + PruneItems(items[1..])
  }

  function PruneMembers(members: seq<Member>): seq<Member>
    decreases members
  {
    if members == [] then []
    else
      (if IsSecretKey(members[0].key) then [] else [Member(members[0].key, Prune(members[0].value))]) + PruneMembers(members[1..])
  }

  // ---- paths below a position ----

  function Under(step: string, paths: seq<Path>): (under: seq<Path>)
    ensures |under| == |paths|
  {
    seq(|paths|, i requires 0 <= i < |paths| => [step] + paths[i])
  }

  predicate NoneEmpty(paths: seq<Path>) {
    forall i :: 0 <= i < |paths| ==> paths[i] != []
  }

  lemma UnderAppend(step: string, a: seq<Path>, b: seq<Path>)
    ensures Under(step, a + b) == Under(step, a) + Under(step, b)
  {
  }

  /** The recursion carries the prefix along: below a step, the paths are those of the value there. */
  lemma {:induction false} PathsUnder(v: Json, step: string, prefix: Path)
    ensures SecretPaths(v, [step] + prefix) == Under(step, SecretPaths(v, prefix))
    decreases v
  {
    match v
    case Arr(items) => ItemsUnder(items, 0, step, prefix);
    case Obj(members) => MembersUnder(members, step, prefix);
    case _ =>
  }

  lemma {:induction false} ItemsUnder(items: seq<Json>, start: nat, step: string, prefix: Path)
    ensures ItemPaths(items, start, [step] + prefix) == Under(step, ItemPaths(items, start, prefix))
    decreases items
  {
    if items != [] {
      var at := Decimal.Print(start);
      assert [step] + prefix + [at] == [step] + (prefix + [at]);
      PathsUnder(items[0], step, prefix + [at]);
      ItemsUnder(items[1..], start + 1, step, prefix);
      UnderAppend(step, SecretPaths(items[0], prefix + [at]), ItemPaths(items[1..], start + 1, prefix));
    }
  }

  lemma {:induction false} MembersUnder(members: seq<Member>, step: string, prefix: Path)
    ensures MemberPaths(members, [step] + prefix) == Under(step, MemberPaths(members, prefix))
    decreases members
  {
    if members != [] {
      var key, path := members[0].key, prefix + [members[0].key];
      assert [step] + prefix + [key] == [step] + path;
      var here := if IsSecretKey(key) then [path] else SecretPaths(members[0].value, path);
      if IsSecretKey(key) { assert Under(step, [path]) == [[step] + path]; } else { PathsUnder(members[0].value, step, path); }
      MembersUnder(members[1..], step, prefix);
      UnderAppend(step, here, MemberPaths(members[1..], prefix));
    }
  }

  lemma {:induction false} PathsNotEmpty(v: Json, prefix: Path)
    ensures forall i :: 0 <= i < |SecretPaths(v, prefix)| ==> |SecretPaths(v, prefix)[i]| > |prefix|
    decreases v
  {
    match v
    case Arr(items) => ItemsNotEmpty(items, 0, prefix);
    case Obj(members) => MembersNotEmpty(members, prefix);
    case _ =>
  }

  lemma {:induction false} ItemsNotEmpty(items: seq<Json>, start: nat, prefix: Path)
    ensures forall i :: 0 <= i < |ItemPaths(items, start, prefix)| ==> |ItemPaths(items, start, prefix)[i]| > |prefix|
    decreases items
  {
    if items != [] {
      PathsNotEmpty(items[0], prefix + [Decimal.Print(start)]);
      ItemsNotEmpty(items[1..], start + 1, prefix);
    }
  }

  lemma {:induction false} MembersNotEmpty(members: seq<Member>, prefix: Path)
    ensures forall i :: 0 <= i < |MemberPaths(members, prefix)| ==> |MemberPaths(members, prefix)[i]| > |prefix|
    decreases members
  {
    if members != [] {
      PathsNotEmpty(members[0].value, prefix + [members[0].key]);
      MembersNotEmpty(members[1..], prefix);
    }
  }

  // ---- deleting below a position ----

  lemma {:induction false} DeleteAppend(v: Json, a: seq<Path>, b: seq<Path>)
    ensures DeleteAll(v, a + b) == match DeleteAll(v, a) case None => None case Some(w) => DeleteAll(w, b)
    decreases |a|
  {
    hide DeletePath;
    if a == [] {
      assert a + b == b;
    } else {
      assert (a + b)[1..] == a[1..] + b;
      if DeletePath(v, a[0]).Some? { DeleteAppend(DeletePath(v, a[0]).value, a[1..], b); }
    }
  }

  /** Paths below one key act on that member alone, and leave the others where they are. */
  lemma {:induction false} DeleteInMember(members: seq<Member>, i: nat, paths: seq<Path>)
    requires i < |members| && DistinctKeys(members) && NoneEmpty(paths)
    ensures DeleteAll(Obj(members), Under(members[i].key, paths)) ==
              match DeleteAll(members[i].value, paths)
              case None => None
              case Some(c) => Some(Obj(members[i := Member(members[i].key, c)]))
    decreases |paths|
  {
    var key := members[i].key;
    if paths == [] {
      assert members[i := Member(key, members[i].value)] == members;
    } else {
      assert FindKey(members, key) == i;
      assert Under(key, paths)[0] == [key] + paths[0] && Under(key, paths)[1..] == Under(key, paths[1..]);
      assert ([key] + paths[0])[1..] == paths[0];
      match DeletePath(members[i].value, paths[0])
      case None =>
      case Some(c) =>
        var changed := members[i := Member(key, c)];
        DeleteInMember(changed, i, paths[1..]);
        if DeleteAll(c, paths[1..]).Some? {
          var last := Member(key, DeleteAll(c, paths[1..]).value);
          assert changed[i := last] == members[i := last];
        }
    }
  }

  lemma IndexRead(n: nat)
    ensures ParseIndex(Decimal.Print(n)) == Some(n as int)
  {
    Decimal.ParsePrint(n);
  }

  /** Paths below one position of an array likewise: no deletion shifts another. */
  lemma {:induction false} DeleteInItem(items: seq<Json>, i: nat, paths: seq<Path>)
    requires i < |items| && NoneEmpty(paths)
    ensures DeleteAll(Arr(items), Under(Decimal.Print(i), paths)) ==
              match DeleteAll(items[i], paths)
              case None => None
              case Some(c) => Some(Arr(items[i := c]))
    decreases |paths|
  {
    hide Decimal.Print, ParseIndex;
    var step := Decimal.Print(i);
    if paths == [] {
      assert items[i := items[i]] == items;
    } else {
      IndexRead(i);
      assert Under(step, paths)[0] == [step] + paths[0] && Under(step, paths)[1..] == Under(step, paths[1..]);
      assert ([step] + paths[0])[1..] == paths[0];
      match DeletePath(items[i], paths[0])
      case None =>
      case Some(c) =>
        DeleteInItem(items[i := c], i, paths[1..]);
        if DeleteAll(c, paths[1..]).Some? {
          var last := DeleteAll(c, paths[1..]).value;
          assert items[i := c][i := last] == items[i := last];
        }
    }
  }

  // ---- deleting all paths is pruning ----

  /** Deleting the secret paths of a stored value, one after another, never fails and leaves
    * exactly the value without its secret keys.
    */
  lemma {:induction false} DeletingIsPruning(v: Json)
    requires IsStored(v)
    ensures DeleteAll(v, SecretPaths(v, [])) == Some(Prune(v))
    decreases v
  {
    match v
    case Arr(items) =>
      assert [] + items == items;
      ItemsPruned([], items);
      assert [] + PruneItems(items) == PruneItems(items);
    case Obj(members) =>
      assert [] + members == members;
      MembersPruned([], members);
      assert [] + PruneMembers(members) == PruneMembers(members);
    case _ =>
  }

  lemma {:induction false} ItemsPruned(done: seq<Json>, rest: seq<Json>)
    requires forall i :: 0 <= i < |rest| ==> IsStored(rest[i])
    ensures DeleteAll(Arr(done + rest), ItemPaths(rest, |done|, [])) == Some(Arr(done + PruneItems(rest)))
    decreases rest
  {
    if rest == [] {
      assert done + rest == done && done + PruneItems(rest) == done;
    } else {
      hide Prune, IsStored, DeleteAll, SecretPaths;
      DeletingIsPruning(rest[0]);
      FirstItem(done, rest);
      ItemsPruned(done + [Prune(rest[0])], rest[1..]);
      var here := SecretPaths(rest[0], [] + [Decimal.Print(|done|)]);
      DeleteAppend(Arr(done + rest), here, ItemPaths(rest[1..], |done| + 1, []));
      assert done + [Prune(rest[0])] + PruneItems(rest[1..]) == done + ([Prune(rest[0])] + PruneItems(rest[1..]));
    }
  }

  lemma FirstItem(done: seq<Json>, rest: seq<Json>)
    requires rest != [] && DeleteAll(rest[0], SecretPaths(rest[0], [])) == Some(Prune(rest[0]))
    ensures DeleteAll(Arr(done + rest), SecretPaths(rest[0], [] + [Decimal.Print(|done|)])) ==
              Some(Arr(done + [Prune(rest[0])] + rest[1..]))
  {
    hide Prune, DeleteAll, SecretPaths, Decimal.Print, Under;
    var step := Decimal.Print(|done|);
    PathsUnder(rest[0], step, []);
    assert [step] + [] == [step] && [] + [step] == [step];
    PathsNotEmpty(rest[0], []);
    DeleteInItem(done + rest, |done|, SecretPaths(rest[0], []));
    assert (done + rest)[|done| := Prune(rest[0])] == done + [Prune(rest[0])] + rest[1..];
  }

  lemma {:induction false} MembersPruned(done: seq<Member>, rest: seq<Member>)
    requires DistinctKeys(done + rest) && forall i :: 0 <= i < |rest| ==> IsStored(rest[i].value)
    ensures DeleteAll(Obj(done + rest), MemberPaths(rest, [])) == Some(Obj(done + PruneMembers(rest)))
    decreases rest
  {
    if rest == [] {
      assert done + rest == done && done + PruneMembers(rest) == done;
    } else {
      hide Prune, IsStored, DeleteAll, SecretPaths, IsSecretKey, DistinctKeys;
      var key, value := rest[0].key, rest[0].value;
      KeysStayDistinct(done, rest, Member(key, Prune(value)));
      if IsSecretKey(key) {
        assert done + [] == done;
        SecretMember(done, rest);
        MembersPruned(done, rest[1..]);
        ThenTheRest(done, rest, [], [[] + [key]]);
      } else {
        DeletingIsPruning(value);
        FirstMember(done, rest);
        MembersPruned(done + [Member(key, Prune(value))], rest[1..]);
        ThenTheRest(done, rest, [Member(key, Prune(value))], SecretPaths(value, [] + [key]));
      }
    }
  }

  lemma ThenTheRest(done: seq<Member>, rest: seq<Member>, kept: seq<Member>, here: seq<Path>)
    requires rest != []
    requires MemberPaths(rest, []) == here + MemberPaths(rest[1..], []) && PruneMembers(rest) == kept + PruneMembers(rest[1..])
    requires DeleteAll(Obj(done + rest), here) == Some(Obj(done + kept + rest[1..]))
    requires DeleteAll(Obj(done + kept + rest[1..]), MemberPaths(rest[1..], [])) == Some(Obj(done + kept + PruneMembers(rest[1..])))
    ensures DeleteAll(Obj(done + rest), MemberPaths(rest, [])) == Some(Obj(done + PruneMembers(rest)))
  {
    hide DeleteAll, MemberPaths, PruneMembers;
    DeleteAppend(Obj(done + rest), here, MemberPaths(rest[1..], []));
    assert done + kept + PruneMembers(rest[1..]) == done + (kept + PruneMembers(rest[1..]));
  }

  lemma FirstMember(done: seq<Member>, rest: seq<Member>)
    requires rest != [] && DistinctKeys(done + rest)
    requires DeleteAll(rest[0].value, SecretPaths(rest[0].value, [])) == Some(Prune(rest[0].value))
    ensures DeleteAll(Obj(done + rest), SecretPaths(rest[0].value, [] + [rest[0].key])) ==
              Some(Obj(done + [Member(rest[0].key, Prune(rest[0].value))] + rest[1..]))
  {
    hide Prune, DeleteAll, SecretPaths, Under, DistinctKeys;
    var key := rest[0].key;
    PathsUnder(rest[0].value, key, []);
    assert [key] + [] == [key] && [] + [key] == [key];
    PathsNotEmpty(rest[0].value, []);
    DeleteInMember(done + rest, |done|, SecretPaths(rest[0].value, []));
    var first := Member(key, Prune(rest[0].value));
    assert (done + rest)[|done| := first] == done + [first] + rest[1..];
  }

  /** Deleting one member's own key removes that member and nothing else. */
  lemma SecretMember(done: seq<Member>, rest: seq<Member>)
    requires rest != [] && DistinctKeys(done + rest)
    ensures DeleteAll(Obj(done + rest), [[] + [rest[0].key]]) == Some(Obj(done + rest[1..]))
  {
    var all, path := done + rest, [] + [rest[0].key];
    var i := FindKey(all, rest[0].key);
    assert i == |done| by { assert all[|done|] == rest[0]; }
    assert all[..|done|] + all[|done| + 1..] == done + rest[1..];
    assert DeletePath(Obj(all), path) == Some(Obj(done + rest[1..]));
    assert [path][1..] == [];
  }

  lemma KeysStayDistinct(done: seq<Member>, rest: seq<Member>, first: Member)
    requires rest != [] && DistinctKeys(done + rest) && first.key == rest[0].key
    ensures DistinctKeys(done + [first] + rest[1..]) && DistinctKeys(done + rest[1..])
  {
    var all, kept := done + rest, done + rest[1..];
    forall i, j | 0 <= i < j < |kept| ensures kept[i].key != kept[j].key {
      assert kept[i] == all[if i < |done| then i else i + 1] && kept[j] == all[if j < |done| then j else j + 1];
    }
    var same := done + [first] + rest[1..];
    forall i, j | 0 <= i < j < |same| ensures same[i].key != same[j].key {
      assert same[i].key == all[i].key && same[j].key == all[j].key;
    }
  }

  // ---- what pruning means ----

  /** The condition rows are selected by: a secret key anywhere. */
  predicate HasSecret(v: Json)
    decreases v
  {
    match v
    case Arr(items) => exists i :: 0 <= i < |items| && HasSecret(items[i])
    case Obj(members) => exists i :: 0 <= i < |members| && (IsSecretKey(members[i].key) || HasSecret(members[i].value))
    case _ => false
  }

  /** A row is selected exactly when there is a path to delete. */
  lemma {:induction false} SelectedIffPaths(v: Json, prefix: Path)
    ensures HasSecret(v) <==> SecretPaths(v, prefix) != []
    decreases v
  {
    match v
    case Arr(items) => ItemsSelected(items, 0, prefix);
    case Obj(members) => MembersSelected(members, prefix);
    case _ =>
  }

  lemma {:induction false} ItemsSelected(items: seq<Json>, start: nat, prefix: Path)
    ensures (exists i :: 0 <= i < |items| && HasSecret(items[i])) <==> ItemPaths(items, start, prefix) != []
    decreases items
  {
    if items != [] {
      SelectedIffPaths(items[0], prefix + [Decimal.Print(start)]);
      ItemsSelected(items[1..], start + 1, prefix);
      hide HasSecret;
      assert forall i :: 1 <= i < |items| ==> items[i] == items[1..][i - 1];
    }
  }

  lemma {:induction false} MembersSelected(members: seq<Member>, prefix: Path)
    ensures (exists i :: 0 <= i < |members| && (IsSecretKey(members[i].key) || HasSecret(members[i].value)))
            <==> MemberPaths(members, prefix) != []
    decreases members
  {
    if members != [] {
      SelectedIffPaths(members[0].value, prefix + [members[0].key]);
      MembersSelected(members[1..], prefix);
      hide HasSecret, IsSecretKey;
      assert forall i :: 1 <= i < |members| ==> members[i] == members[1..][i - 1];
    }
  }

  datatype Step = Key(key: string) | Index(i: nat)

  /** The value at a place, if there is one. */
  function Lookup(v: Json, steps: seq<Step>): Option<Json>
    decreases |steps|
  {
    if steps == [] then Some(v)
    else
      match (v, steps[0])
      case (Obj(members), Key(key)) =>
        var i := FindKey(members, key);
        if i == |members| then None else Lookup(members[i].value, steps[1..])
      case (Arr(items), Index(i)) => if i < |items| then Lookup(items[i], steps[1..]) else None
      case _ => None
  }

  /** A place under a client secret, in either spelling. */
  predicate IsSecretPlace(steps: seq<Step>) {
    exists i :: 0 <= i < |steps| && steps[i].Key? && steps[i].key in {"client_secret", "clientSecret"}
  }

  lemma SecretKeysAre(key: string)
    ensures IsSecretKey(key) <==> key in {"client_secret", "clientSecret"}
  {
  }

  lemma {:induction false} PrunedItem(items: seq<Json>, i: nat)
    requires i < |items|
    ensures PruneItems(items)[i] == Prune(items[i])
    decreases i
  {
    hide Prune;
    if i > 0 { PrunedItem(items[1..], i - 1); }
  }

  lemma {:induction false} PrunedMember(members: seq<Member>, key: string)
    ensures var pruned, i := PruneMembers(members), FindKey(members, key);
            var j := FindKey(pruned, key);
            if i == |members| || IsSecretKey(key) then j == |pruned| else j < |pruned| && pruned[j].value == Prune(members[i].value)
    decreases members
  {
    hide Prune, IsSecretKey;
    if members != [] {
      PrunedMember(members[1..], key);
      var pruned, rest := PruneMembers(members), PruneMembers(members[1..]);
      if IsSecretKey(members[0].key) {
        assert pruned == rest;
      } else {
        assert pruned[1..] == rest;
      }
    }
  }

  /** Pruning removes the secret places, at every depth, and leaves every other place as it was: the
    * same keys and positions lead to the same values, themselves pruned.
    */
  lemma {:induction false} PrunedPlaces(v: Json, steps: seq<Step>)
    ensures Lookup(Prune(v), steps) ==
              if IsSecretPlace(steps) || Lookup(v, steps) == None then None else Some(Prune(Lookup(v, steps).value))
    decreases |steps|
  {
    hide Prune, PruneMembers, PruneItems, IsSecretKey;
    if steps != [] {
      PlacesBelow(steps);
      PruneShape(v);
      if steps[0].Key? { SecretKeysAre(steps[0].key); }
      match (v, steps[0])
      case (Obj(members), Key(key)) =>
        PrunedMember(members, key);
        var i := FindKey(members, key);
        if i < |members| { PrunedPlaces(members[i].value, steps[1..]); }
      case (Arr(items), Index(i)) =>
        if i < |items| {
          PrunedItem(items, i);
          PrunedPlaces(items[i], steps[1..]);
        }
      case _ =>
    }
  }

  lemma PruneShape(v: Json)
    ensures Prune(v) == match v case Arr(items) => Arr(PruneItems(items)) case Obj(members) => Obj(PruneMembers(members)) case _ => v
  {
  }

  lemma PlacesBelow(steps: seq<Step>)
    requires steps != []
    ensures IsSecretPlace(steps) <==> (steps[0].Key? && IsSecretKey(steps[0].key)) || IsSecretPlace(steps[1..])
  {
    hide IsSecretKey;
    if steps[0].Key? { SecretKeysAre(steps[0].key); }
    assert forall i :: 1 <= i < |steps| ==> steps[i] == steps[1..][i - 1];
  }

  /** A second run finds nothing: what was pruned has no secret, and is stored as before. */
  lemma {:induction false} PrunedHasNone(v: Json)
    requires IsStored(v)
    ensures !HasSecret(Prune(v)) && IsStored(Prune(v)) && SecretPaths(Prune(v), []) == []
    decreases v
  {
    match v
    case Arr(items) =>
      forall i | 0 <= i < |items| ensures !HasSecret(PruneItems(items)[i]) && IsStored(PruneItems(items)[i]) {
        PrunedItem(items, i);
        PrunedHasNone(items[i]);
      }
      SelectedIffPaths(Prune(v), []);
    case Obj(members) =>
      forall i | 0 <= i < |members| ensures !HasSecret(Prune(members[i].value)) && IsStored(Prune(members[i].value)) {
        PrunedHasNone(members[i].value);
      }
      PrunedMembersClean(members);
      SelectedIffPaths(Prune(v), []);
    case _ =>
  }

  lemma {:induction false} PrunedMembersClean(members: seq<Member>)
    requires DistinctKeys(members)
    requires forall i :: 0 <= i < |members| ==> !HasSecret(Prune(members[i].value)) && IsStored(Prune(members[i].value))
    ensures var pruned := PruneMembers(members);
            && DistinctKeys(pruned)
            && (forall i :: 0 <= i < |pruned| ==> !IsSecretKey(pruned[i].key) && !HasSecret(pruned[i].value) && IsStored(pruned[i].value))
            && forall i :: 0 <= i < |pruned| ==> exists j :: 0 <= j < |members| && members[j].key == pruned[i].key
    decreases members
  {
    hide HasSecret, IsStored, Prune, IsSecretKey;
    if members != [] {
      PrunedMembersClean(members[1..]);
      forall i | 0 <= i < |PruneMembers(members)| ensures exists j :: 0 <= j < |members| && members[j].key == PruneMembers(members)[i].key {
        OriginalKey(members, i);
      }
    }
  }

  lemma {:induction false} OriginalKey(members: seq<Member>, i: nat)
    requires i < |PruneMembers(members)|
    ensures exists j :: 0 <= j < |members| && members[j].key == PruneMembers(members)[i].key
    decreases members
  {
    hide Prune, IsSecretKey;
    if !(i == 0 && !IsSecretKey(members[0].key)) {
      var k := if IsSecretKey(members[0].key) then i else i - 1;
      OriginalKey(members[1..], k);
      var j :| 0 <= j < |members[1..]| && members[1..][j].key == PruneMembers(members[1..])[k].key;
      assert members[j + 1].key == PruneMembers(members)[i].key;
    }
  }
}
