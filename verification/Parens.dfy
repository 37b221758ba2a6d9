/** Matching the parentheses of a constraint's text, string literals skipped, and dropping pairs
  * that wrap another pair's whole content.
  */
module Parens {

  // ---- which parentheses count ----

  /** Where a literal ends whose text starts at `i`: at the first quote that is not doubled, or at
    * the end of the text.
    */
  function LiteralEnd(s: string, i: nat): (e: nat)
    requires i <= |s|
    ensures i <= e <= |s|
    decreases |s| - i
  {
    if i == |s| then i
    else if s[i] == '\'' && !(i + 1 < |s| && s[i + 1] == '\'') then i
    else if s[i] == '\'' then LiteralEnd(s, i + 2)
    else LiteralEnd(s, i + 1)
  }

  function WeightOf(ch: char): int {
    if ch == '(' then 1 else if ch == ')' then -1 else 0
  }

  function Nothing(n: nat): (w: seq<int>)
    ensures |w| == n && forall i :: 0 <= i < n ==> w[i] == 0
  {
    seq(n, _ => 0)
  }

  /** 1 and -1 for the parentheses outside literals, 0 for everything else. */
  function WeightsFrom(s: string, i: nat): (w: seq<int>)
    requires i <= |s|
    ensures |w| == |s| - i
    ensures forall k :: 0 <= k < |w| ==> w[k] == 0 || w[k] == WeightOf(s[i + k])
    decreases |s| - i
  {
    if i == |s| then []
    else if s[i] == '\'' then
      var e := LiteralEnd(s, i + 1);
      if e == |s| then Nothing(|s| - i) else Nothing(e + 1 - i) + WeightsFrom(s, e + 1)
    else [WeightOf(s[i])] + WeightsFrom(s, i + 1)
  }

  function Weights(s: string): (w: seq<int>)
    ensures |w| == |s|
    ensures forall k :: 0 <= k < |w| ==> w[k] == 0 || w[k] == WeightOf(s[k])
  {
    WeightsFrom(s, 0)
  }

  /** How many quotes there are before a position. */
  function Quotes(s: string, k: nat): nat
    requires k <= |s|
  {
    if k == 0 then 0 else Quotes(s, k - 1) + if s[k - 1] == '\'' then 1 else 0
  }

  /** A parenthesis counts exactly when the number of quotes before it is even: a doubled quote leaves
    * and enters a literal at once.
    */
  lemma CountsOutsideLiterals(s: string, k: nat)
    requires k < |s|
    ensures Weights(s)[k] ==
              if Quotes(s, k) % 2 == 1 then 0 else if s[k] == '(' then 1 else if s[k] == ')' then -1 else 0
  {
    hide WeightsFrom, Quotes;
    CountsFrom(s, 0, k) by { NoQuotes(s); }
  }

  lemma NoQuotes(s: string)
    ensures Quotes(s, 0) == 0
  {
  }

  lemma OneMore(s: string, k: nat)
    requires k < |s|
    ensures Quotes(s, k + 1) == Quotes(s, k) + if s[k] == '\'' then 1 else 0
  {
  }

  lemma {:induction false} CountsFrom(s: string, i: nat, k: nat)
    requires i <= k < |s| && Quotes(s, i) % 2 == 0
    ensures WeightsFrom(s, i)[k - i] ==
              if Quotes(s, k) % 2 == 1 then 0 else if s[k] == '(' then 1 else if s[k] == ')' then -1 else 0
    decreases k - i
  {
    hide Quotes, LiteralEnd, WeightsFrom;
    OneMore(s, i);
    if s[i] == '\'' {
      var e := LiteralEnd(s, i + 1);
      LiteralIsNothing(s, i);
      if i < k <= e { InLiteral(s, i + 1, k); }
      if e < k {
        InLiteral(s, i + 1, e);
        OneMore(s, e);
        CountsFrom(s, e + 1, k);
      }
    } else {
      PlainFrom(s, i);
      if i < k { CountsFrom(s, i + 1, k); }
    }
  }

  /** Inside a literal the number of quotes is odd, but between the two of a doubled quote. */
  lemma {:induction false} InLiteral(s: string, i: nat, k: nat)
    requires i <= |s| && i <= k <= LiteralEnd(s, i) && Quotes(s, i) % 2 == 1
    ensures k < |s| ==> Quotes(s, k) % 2 == 1 || s[k] == '\''
    ensures k == LiteralEnd(s, i) < |s| ==> Quotes(s, k) % 2 == 1 && s[k] == '\''
    decreases k - i
  {
    hide Quotes;
    if i < |s| { OneMore(s, i); }
    if i + 1 < |s| { OneMore(s, i + 1); }
    if i < k {
      if s[i] == '\'' {
        if i + 2 <= k { InLiteral(s, i + 2, k); }
      } else {
        InLiteral(s, i + 1, k);
      }
    }
  }

  // ---- balance ----

  function Balance(w: seq<int>, a: nat, b: nat): int
    requires b <= |w|
    decreases b
  {
    if b <= a then 0 else Balance(w, a, b - 1) + w[b - 1]
  }

  ghost predicate NeverBelow(w: seq<int>, a: nat, b: nat)
    requires b <= |w|
  {
    forall j :: a <= j <= b ==> Balance(w, a, j) >= 0
  }

  ghost predicate Balanced(w: seq<int>, a: nat, b: nat)
    requires b <= |w|
  {
    Balance(w, a, b) == 0 && NeverBelow(w, a, b)
  }

  /** An opening and a closing parenthesis with balanced text between them. */
  ghost predicate IsPair(w: seq<int>, o: nat, c: nat) {
    o < c < |w| && w[o] == 1 && w[c] == -1 && Balanced(w, o + 1, c)
  }

  lemma {:induction false} BalanceSplit(w: seq<int>, a: nat, m: nat, b: nat)
    requires a <= m <= b <= |w|
    ensures Balance(w, a, b) == Balance(w, a, m) + Balance(w, m, b)
    decreases b
  {
    if m < b { BalanceSplit(w, a, m, b - 1); }
  }

  /** An opening parenthesis has at most one partner. */
  lemma PartnerIsUnique(w: seq<int>, o: nat, c: nat, d: nat)
    requires IsPair(w, o, c) && IsPair(w, o, d)
    ensures c == d
  {
    assert Balance(w, o + 1, c + 1) == -1 && Balance(w, o + 1, d + 1) == -1;
  }

  lemma BalanceOver(w: seq<int>, a: nat, o: nat, b: nat)
    requires a <= o < b <= |w|
    ensures Balance(w, a, b) == Balance(w, a, o) + w[o] + Balance(w, o + 1, b)
  {
    BalanceSplit(w, a, o, b);
    BalanceSplit(w, o, o + 1, b);
    assert Balance(w, o, o + 1) == w[o];
  }

  /** Two pairs do not cross, and have no parenthesis in common. */
  lemma NoCrossing(w: seq<int>, a: nat, b: nat, o: nat, c: nat)
    requires IsPair(w, a, b) && IsPair(w, o, c) && a < o
    ensures b < o || c < b
  {
    if o < b { BalanceOver(w, a + 1, o, b); }
  }

  lemma OpenerIsUnique(w: seq<int>, a: nat, o: nat, c: nat)
    requires IsPair(w, a, c) && IsPair(w, o, c)
    ensures a == o
  {
    if a < o { NoCrossing(w, a, c, o, c); } else if o < a { NoCrossing(w, o, c, a, c); }
  }

  // ---- matching ----

  /** What the scan knows at position `i`: the open parentheses, and the pairs so far. */
  ghost predicate Scanned(w: seq<int>, i: nat, stack: seq<nat>, pairs: map<nat, nat>) {
    && i <= |w|
    && (forall k :: 0 <= k < |stack| ==>
          stack[k] < i && w[stack[k]] == 1 && NeverBelow(w, stack[k] + 1, i) && Balance(w, stack[k] + 1, i) == |stack| - 1 - k)
    && (forall o :: 0 <= o < i && w[o] == 1 ==> o in stack || o in pairs)
    && (forall o :: o in pairs ==> pairs[o] < i && IsPair(w, o, pairs[o]))
  }

  lemma ScanStep(w: seq<int>, i: nat, stack: seq<nat>, pairs: map<nat, nat>)
    requires Scanned(w, i, stack, pairs) && i < |w| && -1 <= w[i] <= 1
    ensures w[i] == 0 ==> Scanned(w, i + 1, stack, pairs)
    ensures w[i] == 1 ==> Scanned(w, i + 1, stack + [i], pairs)
    ensures w[i] == -1 && stack != [] ==>
              IsPair(w, stack[|stack| - 1], i)
              && Scanned(w, i + 1, stack[..|stack| - 1], pairs[stack[|stack| - 1] := i])
    ensures w[i] == -1 && stack == [] ==> Scanned(w, i + 1, stack, pairs)
  {
    hide Scanned, IsPair;
    if w[i] == 1 { ScanOpens(w, i, stack, pairs); }
    else if w[i] == 0 || stack == [] { ScanPasses(w, i, stack, pairs); }
    else { ScanCloses(w, i, stack, pairs); }
  }

  lemma ScanPasses(w: seq<int>, i: nat, stack: seq<nat>, pairs: map<nat, nat>)
    requires Scanned(w, i, stack, pairs) && i < |w| && (w[i] == 0 || (w[i] == -1 && stack == []))
    ensures Scanned(w, i + 1, stack, pairs)
  {
    hide IsPair;
  }

  lemma ScanOpens(w: seq<int>, i: nat, stack: seq<nat>, pairs: map<nat, nat>)
    requires Scanned(w, i, stack, pairs) && i < |w| && w[i] == 1
    ensures Scanned(w, i + 1, stack + [i], pairs)
  {
    hide IsPair;
    assert forall o :: o in stack ==> o in stack + [i];
    assert i in stack + [i];
  }

  lemma ScanCloses(w: seq<int>, i: nat, stack: seq<nat>, pairs: map<nat, nat>)
    requires Scanned(w, i, stack, pairs) && i < |w| && w[i] == -1 && stack != []
    ensures var top := stack[|stack| - 1];
            IsPair(w, top, i) && Scanned(w, i + 1, stack[..|stack| - 1], pairs[top := i])
  {
    hide IsPair;
    var n, top := |stack| - 1, stack[|stack| - 1];
    PopsPair(w, i, top);
    assert forall o :: o in stack ==> o in stack[..n] || o == top;
  }

  lemma PopsPair(w: seq<int>, i: nat, top: nat)
    requires top < i < |w| && w[top] == 1 && w[i] == -1 && NeverBelow(w, top + 1, i) && Balance(w, top + 1, i) == 0
    ensures IsPair(w, top, i)
  {
  }

  /** A pair that closes before `i` has been found: its opening parenthesis is not open any more. */
  lemma ScanFindsAll(w: seq<int>, i: nat, stack: seq<nat>, pairs: map<nat, nat>, o: nat, c: nat)
    requires Scanned(w, i, stack, pairs) && IsPair(w, o, c) && c < i
    ensures o in pairs && pairs[o] == c
  {
    PairCloses(w, i, o, c);
    assert o !in stack;
    PartnerIsUnique(w, o, pairs[o], c);
  }

  lemma {:induction false} ScanSkip(w: seq<int>, i: nat, j: nat, stack: seq<nat>, pairs: map<nat, nat>)
    requires Scanned(w, i, stack, pairs) && i <= j <= |w| && forall k :: i <= k < j ==> w[k] == 0
    ensures Scanned(w, j, stack, pairs)
    decreases j - i
  {
    hide Scanned;
    if i < j {
      ScanStep(w, i, stack, pairs);
      ScanSkip(w, i + 1, j, stack, pairs);
    }
  }

  /** The weights of a literal, and the rest after it. */
  lemma LiteralWeights(s: string, i: nat)
    requires i < |s| && s[i] == '\'' && Weights(s)[i..] == WeightsFrom(s, i)
    ensures var e := LiteralEnd(s, i + 1); var j := if e < |s| then e + 1 else e;
            && Weights(s)[j..] == WeightsFrom(s, j)
            && forall k :: i <= k < j ==> Weights(s)[k] == 0
  {
    hide Weights, WeightsFrom, LiteralEnd;
    var e := LiteralEnd(s, i + 1);
    var j := if e < |s| then e + 1 else e;
    LiteralIsNothing(s, i);
    SuffixOf(Weights(s), i, Nothing(j - i), WeightsFrom(s, j));
  }

  lemma LiteralIsNothing(s: string, i: nat)
    requires i < |s| && s[i] == '\''
    ensures var e := LiteralEnd(s, i + 1); var j := if e < |s| then e + 1 else e;
            WeightsFrom(s, i) == Nothing(j - i) + WeightsFrom(s, j)
  {
    assert Nothing(|s| - i) + [] == Nothing(|s| - i);
  }

  lemma SuffixOf(w: seq<int>, i: nat, a: seq<int>, b: seq<int>)
    requires i <= |w| && w[i..] == a + b
    ensures i + |a| <= |w| && w[i + |a|..] == b && forall k :: i <= k < i + |a| ==> w[k] == a[k - i]
  {
    assert |w[i..]| == |a| + |b|;
    forall k | i <= k < i + |a| ensures w[k] == a[k - i] { assert w[k] == w[i..][k - i]; }
    forall k | 0 <= k < |b| ensures w[i + |a| + k] == b[k] { assert w[i + |a| + k] == w[i..][|a| + k]; }
  }

  lemma PlainWeight(s: string, i: nat)
    requires i < |s| && s[i] != '\'' && Weights(s)[i..] == WeightsFrom(s, i)
    ensures Weights(s)[i] == WeightOf(s[i]) && Weights(s)[i + 1..] == WeightsFrom(s, i + 1)
  {
    hide Weights;
    assert Weights(s)[i..][1..] == Weights(s)[i + 1..];
  }

  /** The opening parentheses in the order their pairs were found, by closing position. */
  ghost predicate IsOrderOf(order: seq<nat>, pairs: map<nat, nat>) {
    && (forall o :: o in order <==> o in pairs)
    && forall j, k :: 0 <= j < k < |order| ==> pairs[order[j]] < pairs[order[k]]
  }

  lemma OrderStep(order: seq<nat>, pairs: map<nat, nat>, o: nat, i: nat)
    requires IsOrderOf(order, pairs) && o !in pairs && forall x :: x in pairs ==> pairs[x] < i
    ensures IsOrderOf(order + [o], pairs[o := i])
  {
    assert forall x :: x in order + [o] <==> x in order || x == o;
    assert forall k :: 0 <= k < |order| ==> order[k] in pairs;
  }

  /** The open parenthesis on top of the stack has no partner yet. */
  lemma TopIsOpen(w: seq<int>, i: nat, stack: seq<nat>, pairs: map<nat, nat>)
    requires Scanned(w, i, stack, pairs) && stack != []
    ensures stack[|stack| - 1] !in pairs
  {
    var top := stack[|stack| - 1];
    if top in pairs { PairCloses(w, i, top, pairs[top]); }
  }

  lemma PairCloses(w: seq<int>, i: nat, o: nat, c: nat)
    requires IsPair(w, o, c) && c < i <= |w|
    ensures !NeverBelow(w, o + 1, i)
  {
    assert Balance(w, o + 1, c + 1) == -1;
  }

  /** A parenthesis is paired with another exactly when the text between them is balanced. */
  method MatchParens(s: string) returns (pairs: map<nat, nat>, order: seq<nat>)
    ensures forall o, c :: (o in pairs && pairs[o] == c) <==> IsPair(Weights(s), o, c)
    ensures IsOrderOf(order, pairs)
  {
    hide Weights, Scanned, IsOrderOf, WeightsFrom, LiteralEnd, IsPair;
    pairs, order := map[], [];
    var stack: seq<nat>, i: nat := [], 0;
    StartsScan(s);
    while i < |s|
      invariant i <= |s| && Weights(s)[i..] == WeightsFrom(s, i)
      invariant Scanned(Weights(s), i, stack, pairs)
      invariant IsOrderOf(order, pairs)
    {
      if s[i] == '\'' {
        LiteralWeights(s, i);
        ghost var start := i;
        i := i + 1;
        while i < |s| && !(s[i] == '\'' && !(i + 1 < |s| && s[i + 1] == '\''))
          invariant start < i <= |s| && LiteralEnd(s, i) == LiteralEnd(s, start + 1)
        {
          LiteralStep(s, i);
          i := i + if s[i] == '\'' then 2 else 1;
        }
        LiteralStops(s, i);
        if i < |s| { i := i + 1; }
        ScanSkip(Weights(s), start, i, stack, pairs);
      } else {
        PlainWeight(s, i);
        ScanStep(Weights(s), i, stack, pairs);
        if s[i] == '(' {
          stack := stack + [i];
        } else if s[i] == ')' && stack != [] {
          var open := stack[|stack| - 1];
          TopIsOpen(Weights(s), i, stack, pairs);
          PairsBefore(Weights(s), i, stack, pairs);
          OrderStep(order, pairs, open, i);
          stack, pairs, order := stack[..|stack| - 1], pairs[open := i], order + [open];
        }
        i := i + 1;
      }
    }
    forall o, c ensures (o in pairs && pairs[o] == c) <==> IsPair(Weights(s), o, c) {
      ScanIsExact(Weights(s), stack, pairs, o, c);
    }
  }

  lemma StartsScan(s: string)
    ensures Weights(s)[0..] == WeightsFrom(s, 0) && Scanned(Weights(s), 0, [], map[]) && IsOrderOf([], map[])
  {
  }

  lemma LiteralStep(s: string, i: nat)
    requires i < |s| && !(s[i] == '\'' && !(i + 1 < |s| && s[i + 1] == '\''))
    ensures var j := i + if s[i] == '\'' then 2 else 1; j <= |s| && LiteralEnd(s, j) == LiteralEnd(s, i)
  {
  }

  lemma LiteralStops(s: string, i: nat)
    requires i <= |s| && (i < |s| ==> s[i] == '\'' && !(i + 1 < |s| && s[i + 1] == '\''))
    ensures LiteralEnd(s, i) == i
  {
  }

  lemma PairsBefore(w: seq<int>, i: nat, stack: seq<nat>, pairs: map<nat, nat>)
    requires Scanned(w, i, stack, pairs)
    ensures forall x :: x in pairs ==> pairs[x] < i
  {
  }

  lemma ScanIsExact(w: seq<int>, stack: seq<nat>, pairs: map<nat, nat>, o: nat, c: nat)
    requires Scanned(w, |w|, stack, pairs)
    ensures (o in pairs && pairs[o] == c) <==> IsPair(w, o, c)
  {
    if IsPair(w, o, c) { ScanFindsAll(w, |w|, stack, pairs, o, c); }
  }

  // ---- dropping a doubled pair ----

  /** A pair that wraps another pair's entire content. */
  ghost predicate IsDoubled(w: seq<int>, o: nat, c: nat) {
    IsPair(w, o, c) && IsPair(w, o + 1, c - 1)
  }

  ghost predicate HasDoubled(w: seq<int>) {
    exists o: nat, c: nat :: IsDoubled(w, o, c)
  }

  /** Without the inner of the two pairs. */
  function Dropped(s: string, o: nat, c: nat): (t: string)
    requires o + 2 < c < |s|
    ensures |t| == |s| - 2
  {
    s[..o + 1] + s[o + 2..c - 1] + s[c..]
  }

  ghost predicate IsFirstDoubled(w: seq<int>, o: nat, c: nat) {
    IsDoubled(w, o, c) && forall a: nat, b: nat :: IsDoubled(w, a, b) ==> c <= b
  }

  /** `t` is `s` without the inner of the doubled pair that closes first, or `s` if it has none. */
  ghost predicate IsReduction(s: string, t: string) {
    if HasDoubled(Weights(s)) then
      exists o: nat, c: nat :: o + 2 < c < |s| && IsFirstDoubled(Weights(s), o, c) && t == Dropped(s, o, c)
    else t == s
  }

  /** Removes the doubled pair that closes first, if there is one. */
  method DropDoubledParens(s: string) returns (t: string)
    ensures IsReduction(s, t)
  {
    hide Weights, IsPair, IsDoubled, IsOrderOf;
    var pairs, order := MatchParens(s);
    for i := 0 to |order|
      invariant forall j :: 0 <= j < i ==> order[j] in pairs && !IsDoubled(Weights(s), order[j], pairs[order[j]])
    {
      InOrder(order, pairs, i);
      var open, close := order[i], pairs[order[i]];
      PairFacts(s, open, close);
      if s[open + 1] == '(' && open + 1 in pairs && pairs[open + 1] == close - 1 {
        IsFirst(s, pairs, order, i);
        return s[..open + 1] + s[open + 2..close - 1] + s[close..];
      }
      NotDoubled(s, pairs, open, close);
    }
    NoneDoubled(s, pairs, order);
    t := s;
  }

  lemma InOrder(order: seq<nat>, pairs: map<nat, nat>, i: nat)
    requires IsOrderOf(order, pairs) && i < |order|
    ensures order[i] in pairs
  {
  }

  lemma PairFacts(s: string, o: nat, c: nat)
    requires IsPair(Weights(s), o, c)
    ensures o < c < |s|
  {
  }

  lemma NotDoubled(s: string, pairs: map<nat, nat>, o: nat, c: nat)
    requires forall o: nat, c: nat :: (o in pairs && pairs[o] == c) <==> IsPair(Weights(s), o, c)
    requires o < c < |s| && !(s[o + 1] == '(' && o + 1 in pairs && pairs[o + 1] == c - 1)
    ensures !IsDoubled(Weights(s), o, c)
  {
    assert Weights(s)[o + 1] == 0 || Weights(s)[o + 1] == WeightOf(s[o + 1]);
  }

  lemma NoneDoubled(s: string, pairs: map<nat, nat>, order: seq<nat>)
    requires forall o: nat, c: nat :: (o in pairs && pairs[o] == c) <==> IsPair(Weights(s), o, c)
    requires IsOrderOf(order, pairs)
    requires forall j :: 0 <= j < |order| ==> order[j] in pairs && !IsDoubled(Weights(s), order[j], pairs[order[j]])
    ensures !HasDoubled(Weights(s))
  {
    hide Weights, IsPair;
    forall o: nat, c: nat ensures !IsDoubled(Weights(s), o, c) {
      if o in pairs && pairs[o] == c { var j :| 0 <= j < |order| && order[j] == o; }
    }
  }

  lemma IsFirst(s: string, pairs: map<nat, nat>, order: seq<nat>, i: nat)
    requires forall o: nat, c: nat :: (o in pairs && pairs[o] == c) <==> IsPair(Weights(s), o, c)
    requires IsOrderOf(order, pairs) && i < |order| && order[i] + 1 in pairs && pairs[order[i] + 1] + 1 == pairs[order[i]]
    requires forall j :: 0 <= j < i ==> order[j] in pairs && !IsDoubled(Weights(s), order[j], pairs[order[j]])
    ensures var o := order[i]; var c := pairs[o]; o + 2 < c < |s| && IsFirstDoubled(Weights(s), o, c) && HasDoubled(Weights(s))
  {
    hide Weights;
    var o := order[i];
    assert IsDoubled(Weights(s), o, pairs[o]);
    forall a: nat, b: nat | IsDoubled(Weights(s), a, b) ensures pairs[o] <= b {
      assert a in pairs && pairs[a] == b;
      var j :| 0 <= j < |order| && order[j] == a;
      assert j >= i;
    }
  }

  /** `t` comes from `s` by dropping `n` doubled pairs, one after another. */
  ghost predicate DropsTo(s: string, t: string, n: nat)
    decreases n
  {
    if n == 0 then s == t
    else exists o: nat, c: nat :: IsDoubled(Weights(s), o, c) && o + 2 < c < |s| && DropsTo(Dropped(s, o, c), t, n - 1)
  }

  lemma {:induction false} DropsOneMore(s: string, t: string, n: nat, o: nat, c: nat)
    requires DropsTo(s, t, n) && o + 2 < c < |t| && IsDoubled(Weights(t), o, c)
    ensures DropsTo(s, Dropped(t, o, c), n + 1)
    decreases n
  {
    hide IsDoubled, Weights, Dropped;
    if n == 0 {
      assert DropsTo(Dropped(t, o, c), Dropped(t, o, c), 0);
    } else {
      var a: nat, b: nat :| IsDoubled(Weights(s), a, b) && a + 2 < b < |s| && DropsTo(Dropped(s, a, b), t, n - 1);
      DropsOneMore(Dropped(s, a, b), t, n - 1, o, c);
    }
  }

  /** Dropping until nothing changes: it ends, two characters shorter each time, when no doubled
    * pair is left.
    */
  method ReduceDoubledParens(s: string) returns (t: string, ghost n: nat)
    ensures DropsTo(s, t, n) && |t| == |s| - 2 * n
    ensures !HasDoubled(Weights(t))
  {
    hide Weights, IsDoubled, DropsTo, HasDoubled, Dropped, IsReduction;
    t, n := s, 0;
    StartsDropping(s);
    while true
      invariant DropsTo(s, t, n) && |t| == |s| - 2 * n
      decreases |t|
    {
      var prev := t;
      t := DropDoubledParens(prev);
      ReductionShrinks(prev, t);
      if t == prev { break; }
      ghost var o: nat, c: nat :| o + 2 < c < |prev| && IsDoubled(Weights(prev), o, c) && t == Dropped(prev, o, c);
      DropsOneMore(s, prev, n, o, c);
      n := n + 1;
    }
  }

  lemma ReductionShrinks(s: string, t: string)
    requires IsReduction(s, t)
    ensures t == s <==> !HasDoubled(Weights(s))
    ensures t != s ==> |t| == |s| - 2 && exists o: nat, c: nat :: o + 2 < c < |s| && IsDoubled(Weights(s), o, c) && t == Dropped(s, o, c)
  {
    hide Weights, IsDoubled, HasDoubled;
  }

  lemma StartsDropping(s: string)
    ensures DropsTo(s, s, 0)
  {
  }

  // ---- which pairs are left ----

  function Without<T>(s: seq<T>, k: nat): (t: seq<T>)
    requires k < |s|
    ensures |t| == |s| - 1
    ensures forall i :: 0 <= i < |t| ==> t[i] == if i < k then s[i] else s[i + 1]
  {
    s[..k] + s[k + 1..]
  }

  /** Where position `i` goes when position `k` is taken out. */
  function Shifted(i: nat, k: nat): nat {
    if i <= k then i else i - 1
  }

  lemma {:induction false} BalanceWithout(w: seq<int>, k: nat, a: nat, b: nat)
    requires k < |w| && a <= b <= |w|
    ensures Balance(Without(w, k), Shifted(a, k), Shifted(b, k)) == Balance(w, a, b) - if a <= k < b then w[k] else 0
    decreases b
  {
    if a < b { BalanceWithout(w, k, a, b - 1); }
  }

  /** Where position `i` goes when `p` and `q` are taken out. */
  function Moved(i: nat, p: nat, q: nat): nat {
    Shifted(Shifted(i, q), p)
  }

  function WithoutBoth(w: seq<int>, p: nat, q: nat): (u: seq<int>)
    requires p < q < |w|
    ensures |u| == |w| - 2
  {
    Without(Without(w, q), p)
  }

  lemma BalanceWithoutBoth(w: seq<int>, p: nat, q: nat, a: nat, b: nat)
    requires p < q < |w| && a <= b <= |w| && w[p] == 1 && w[q] == -1
    ensures Moved(a, p, q) <= Moved(b, p, q) <= |w| - 2
    ensures Balance(WithoutBoth(w, p, q), Moved(a, p, q), Moved(b, p, q)) ==
              Balance(w, a, b) - (if a <= p < b then 1 else 0) + (if a <= q < b then 1 else 0)
  {
    BalanceWithout(w, q, a, b);
    BalanceWithout(Without(w, q), p, Shifted(a, q), Shifted(b, q));
  }

  /** The place a position of the shorter text came from. */
  function Origin(i: nat, p: nat, q: nat): (j: nat) {
    if i <= p then i else if i + 1 <= q then i + 1 else i + 2
  }

  lemma OriginMoves(i: nat, p: nat, q: nat)
    requires p < q
    ensures Moved(Origin(i, p, q), p, q) == i
  {
  }

  /** A pair around an opening parenthesis is above the ground all through that one's pair. */
  lemma InsideIsAbove(w: seq<int>, p: nat, q: nat, a: nat, b: nat, j: nat)
    requires IsPair(w, p, q) && IsPair(w, a, b) && a < p < j <= q && j <= b
    ensures Balance(w, a + 1, j) >= 1
  {
    BalanceOver(w, a + 1, p, j);
  }

  /** Every other position keeps its weight and its place among the others. */
  lemma MovedWeight(w: seq<int>, p: nat, q: nat, a: nat)
    requires p < q < |w| && a < |w| && a != p && a != q
    ensures Moved(a, p, q) < |w| - 2 && WithoutBoth(w, p, q)[Moved(a, p, q)] == w[a] && Moved(a + 1, p, q) == Moved(a, p, q) + 1
    ensures forall b: nat :: b != p && b != q ==> (a < b <==> Moved(a, p, q) < Moved(b, p, q))
  {
  }

  lemma KeptAbove(w: seq<int>, p: nat, q: nat, a: nat, b: nat, j: nat)
    requires IsPair(w, p, q) && IsPair(w, a, b) && (b < p || q < a || (a < p && q < b) || (p < a && b < q))
    requires Moved(a, p, q) + 1 <= j <= Moved(b, p, q)
    ensures j <= |w| - 2 && Balance(WithoutBoth(w, p, q), Moved(a, p, q) + 1, j) >= 0
  {
    hide WithoutBoth;
    var k := Origin(j, p, q);
    OriginMoves(j, p, q);
    BalanceWithoutBoth(w, p, q, a + 1, k);
    if a < p < k <= q { InsideIsAbove(w, p, q, a, b, k); }
    assert Balance(w, a + 1, k) >= 0;
  }

  lemma KeptPair(w: seq<int>, p: nat, q: nat, a: nat, b: nat)
    requires IsPair(w, p, q) && IsPair(w, a, b) && a != p && b != q
    ensures IsPair(WithoutBoth(w, p, q), Moved(a, p, q), Moved(b, p, q))
  {
    hide Balance, WithoutBoth, Moved;
    var u, from, to := WithoutBoth(w, p, q), Moved(a, p, q) + 1, Moved(b, p, q);
    if a < p { NoCrossing(w, a, b, p, q); } else { NoCrossing(w, p, q, a, b); }
    BalanceWithoutBoth(w, p, q, a + 1, b);
    MovedWeight(w, p, q, a);
    MovedWeight(w, p, q, b);
    forall j | from <= j <= to ensures Balance(u, from, j) >= 0 {
      KeptAbove(w, p, q, a, b, j);
    }
  }

  /** After dropping the inner of two pairs, exactly the other pairs are left, each where its
    * parentheses moved to: what was nested in what stays so.
    */
  lemma OtherPairsStay(w: seq<int>, o: nat, c: nat, a: nat, b: nat)
    requires IsDoubled(w, o, c) && a < |w| && b < |w| && a != o + 1 && a != c - 1 && b != o + 1 && b != c - 1
    ensures o + 2 < c < |w|
    ensures var p, q := o + 1, c - 1;
            IsPair(w, a, b) <==> IsPair(WithoutBoth(w, p, q), Moved(a, p, q), Moved(b, p, q))
  {
    var p, q := o + 1, c - 1;
    if IsPair(w, a, b) {
      KeptPair(w, p, q, a, b);
    } else if IsPair(WithoutBoth(w, p, q), Moved(a, p, q), Moved(b, p, q)) {
      NewPairWasOne(w, o, c, a, b);
    }
  }

  /** A pair of the shorter text has both the dropped parentheses inside, or neither. */
  lemma BothOrNeither(w: seq<int>, o: nat, c: nat, a: nat, b: nat)
    requires IsDoubled(w, o, c) && a < |w| && b < |w| && a != o + 1 && a != c - 1 && b != o + 1 && b != c - 1
    requires IsPair(WithoutBoth(w, o + 1, c - 1), Moved(a, o + 1, c - 1), Moved(b, o + 1, c - 1))
    ensures a < b && (a < o + 1 < b <==> a < c - 1 < b)
  {
    var p, q := o + 1, c - 1;
    var u := WithoutBoth(w, p, q);
    KeptPair(w, p, q, o, c);
    hide IsPair, WithoutBoth;
    if a < p < b {
      if a == o { PartnerIsUnique(u, o, Moved(b, p, q), Moved(c, p, q)); }
      else { NoCrossing(u, Moved(a, p, q), Moved(b, p, q), o, Moved(c, p, q)); }
    } else if p < a {
      if b == c { OpenerIsUnique(u, Moved(a, p, q), o, Moved(c, p, q)); }
      else { NoCrossing(u, o, Moved(c, p, q), Moved(a, p, q), Moved(b, p, q)); }
    }
  }

  lemma NewPairWasOne(w: seq<int>, o: nat, c: nat, a: nat, b: nat)
    requires IsDoubled(w, o, c) && a < |w| && b < |w| && a != o + 1 && a != c - 1 && b != o + 1 && b != c - 1
    requires IsPair(WithoutBoth(w, o + 1, c - 1), Moved(a, o + 1, c - 1), Moved(b, o + 1, c - 1))
    ensures IsPair(w, a, b)
  {
    hide Balance, WithoutBoth, Moved;
    BothOrNeither(w, o, c, a, b);
    var from := a + 1;
    BalanceWithoutBoth(w, o + 1, c - 1, from, b);
    MovedWeight(w, o + 1, c - 1, a);
    MovedWeight(w, o + 1, c - 1, b);
    forall j | from <= j <= b ensures Balance(w, from, j) >= 0 {
      WasAbove(w, o, c, a, b, j);
    }
  }

  lemma WasAbove(w: seq<int>, o: nat, c: nat, a: nat, b: nat, j: nat)
    requires IsDoubled(w, o, c) && a < |w| && b < |w| && a != o + 1 && a != c - 1
    requires IsPair(WithoutBoth(w, o + 1, c - 1), Moved(a, o + 1, c - 1), Moved(b, o + 1, c - 1))
    requires (a < o + 1 < b <==> a < c - 1 < b) && a + 1 <= j <= b
    ensures Balance(w, a + 1, j) >= 0
  {
    hide WithoutBoth;
    var p, q := o + 1, c - 1;
    BalanceWithoutBoth(w, p, q, a + 1, j);
    assert Balance(WithoutBoth(w, p, q), Moved(a, p, q) + 1, Moved(j, p, q)) >= 0;
  }

  // ---- the shorter text has those weights ----

  predicate SameFrom(s: string, i: nat, t: string, j: nat) {
    i <= |s| && j <= |t| && s[i..] == t[j..]
  }

  lemma SameNext(s: string, i: nat, t: string, j: nat, n: nat)
    requires SameFrom(s, i, t, j) && n <= |s| - i
    ensures SameFrom(s, i + n, t, j + n)
    ensures i < |s| ==> s[i] == t[j]
    ensures i + 1 < |s| ==> s[i + 1] == t[j + 1]
  {
    SameLength(s, i, t, j);
    assert s[i..][n..] == s[i + n..] && t[j..][n..] == t[j + n..];
    assert i < |s| ==> s[i..][0] == s[i] && t[j..][0] == t[j];
    assert i + 1 < |s| ==> s[i..][1] == s[i + 1] && t[j..][1] == t[j + 1];
  }

  lemma {:induction false} SameLiteralEnd(s: string, i: nat, t: string, j: nat)
    requires SameFrom(s, i, t, j)
    ensures LiteralEnd(s, i) - i == LiteralEnd(t, j) - j
    decreases |s| - i
  {
    hide SameFrom;
    assert i <= |s| && j <= |t| && |s| - i == |t| - j by { SameLength(s, i, t, j); }
    if i < |s| {
      SameNext(s, i, t, j, 1);
      if s[i] == '\'' {
        if i + 1 < |s| && s[i + 1] == '\'' {
          SameNext(s, i, t, j, 2);
          SameLiteralEnd(s, i + 2, t, j + 2);
        }
      } else {
        SameLiteralEnd(s, i + 1, t, j + 1);
      }
    }
  }

  lemma SameLength(s: string, i: nat, t: string, j: nat)
    requires SameFrom(s, i, t, j)
    ensures i <= |s| && j <= |t| && |s| - i == |t| - j
  {
    assert |s[i..]| == |t[j..]|;
  }

  /** Outside a literal, what comes depends only on the text that follows. */
  lemma {:induction false} SameWeights(s: string, i: nat, t: string, j: nat)
    requires SameFrom(s, i, t, j)
    ensures i <= |s| && j <= |t| && WeightsFrom(s, i) == WeightsFrom(t, j)
    decreases |s| - i
  {
    hide SameFrom, LiteralEnd, WeightsFrom;
    assert i <= |s| && j <= |t| && |s| - i == |t| - j by { SameLength(s, i, t, j); }
    if i == |s| {
      NoWeights(s);
      NoWeights(t);
    } else {
      SameNext(s, i, t, j, 1);
      if s[i] == '\'' {
        SameLiteralEnd(s, i + 1, t, j + 1);
        LiteralIsNothing(s, i);
        LiteralIsNothing(t, j);
        var e := LiteralEnd(s, i + 1);
        var n := if e < |s| then e + 1 - i else e - i;
        SameNext(s, i, t, j, n);
        SameWeights(s, i + n, t, j + n);
      } else {
        PlainFrom(s, i);
        PlainFrom(t, j);
        SameWeights(s, i + 1, t, j + 1);
      }
    }
  }

  lemma NoWeights(s: string)
    ensures WeightsFrom(s, |s|) == []
  {
  }

  /** A character may go without joining or splitting literals. */
  predicate GoesQuietly(s: string, k: nat)
    requires k < |s|
  {
    (k > 0 && s[k - 1] != '\'') || (k + 1 < |s| ==> s[k + 1] != '\'')
  }

  lemma {:induction false} LiteralEndWithout(s: string, k: nat, i: nat)
    requires i <= |s| && LiteralEnd(s, i) < k < |s| && GoesQuietly(s, k)
    ensures LiteralEnd(Without(s, k), i) == LiteralEnd(s, i)
    decreases |s| - i
  {
    var t := Without(s, k);
    if s[i] == '\'' {
      if i + 1 < |s| && s[i + 1] == '\'' { LiteralEndWithout(s, k, i + 2); }
    } else {
      LiteralEndWithout(s, k, i + 1);
    }
  }

  lemma {:induction false} WeightsFromWithout(s: string, i: nat, k: nat)
    requires i <= k < |s| && WeightsFrom(s, i)[k - i] != 0 && GoesQuietly(s, k)
    ensures WeightsFrom(Without(s, k), i) == Without(WeightsFrom(s, i), k - i)
    decreases |s| - i
  {
    hide WeightsFrom, LiteralEnd, GoesQuietly;
    var t, w := Without(s, k), WeightsFrom(s, i);
    if i == k {
      SameRest(s, k);
    } else if s[i] != '\'' {
      PlainFrom(s, i);
      PlainFrom(t, i);
      WeightsFromWithout(s, i + 1, k);
      assert Without(w, k - i) == [WeightOf(s[i])] + Without(WeightsFrom(s, i + 1), k - i - 1);
    } else {
      AfterLiteral(s, i, k);
      var e := LiteralEnd(s, i + 1);
      LiteralEndWithout(s, k, i + 1);
      LiteralIsNothing(t, i);
      WeightsFromWithout(s, e + 1, k);
      assert Without(w, k - i) == Nothing(e + 1 - i) + Without(WeightsFrom(s, e + 1), k - e - 1);
    }
  }

  lemma PlainFrom(s: string, i: nat)
    requires i < |s| && s[i] != '\''
    ensures WeightsFrom(s, i) == [WeightOf(s[i])] + WeightsFrom(s, i + 1)
  {
  }

  lemma SameRest(s: string, k: nat)
    requires k < |s| && WeightsFrom(s, k)[0] != 0
    ensures WeightsFrom(Without(s, k), k) == Without(WeightsFrom(s, k), 0)
  {
    hide WeightsFrom;
    PlainFrom(s, k);
    assert s[k + 1..] == Without(s, k)[k..];
    SameWeights(s, k + 1, Without(s, k), k);
    assert Without(WeightsFrom(s, k), 0) == WeightsFrom(s, k + 1);
  }

  /** A parenthesis that counts is not inside a literal. */
  lemma AfterLiteral(s: string, i: nat, k: nat)
    requires i < k < |s| && s[i] == '\'' && WeightsFrom(s, i)[k - i] != 0
    ensures var e := LiteralEnd(s, i + 1); e < k && WeightsFrom(s, i) == Nothing(e + 1 - i) + WeightsFrom(s, e + 1)
  {
  }

  /** The text without the inner pair has the weights without that pair: no literal is joined to
    * another or cut.
    */
  lemma DroppedWeights(s: string, o: nat, c: nat)
    requires IsDoubled(Weights(s), o, c)
    ensures o + 2 < c < |s| && Weights(Dropped(s, o, c)) == WithoutBoth(Weights(s), o + 1, c - 1)
  {
    hide Weights, GoesQuietly, IsDoubled, Without, Dropped;
    ClosesQuietly(s, o, c);
    WeightsWithout(s, c - 1);
    OpensQuietly(s, o, c);
    WeightsWithout(Without(s, c - 1), o + 1);
    WithoutTwice(s, o, c);
  }

  lemma WeightsWithout(s: string, k: nat)
    requires k < |s| && Weights(s)[k] != 0 && GoesQuietly(s, k)
    ensures Weights(Without(s, k)) == Without(Weights(s), k)
  {
    hide WeightsFrom, GoesQuietly, Without;
    WeightsFromWithout(s, 0, k);
  }

  lemma WithoutTwice(s: string, o: nat, c: nat)
    requires o + 2 < c < |s|
    ensures Without(Without(s, c - 1), o + 1) == Dropped(s, o, c)
  {
  }

  lemma ClosesQuietly(s: string, o: nat, c: nat)
    requires IsDoubled(Weights(s), o, c)
    ensures o + 2 < c < |s| && GoesQuietly(s, c - 1) && Weights(s)[c - 1] != 0
  {
    hide WeightsFrom;
    assert s[c] != '\'';
  }

  lemma OpensQuietly(s: string, o: nat, c: nat)
    requires IsDoubled(Weights(s), o, c) && o + 2 < c < |s|
    ensures GoesQuietly(Without(s, c - 1), o + 1) && Without(Weights(s), c - 1)[o + 1] != 0
  {
    hide WeightsFrom;
    assert s[o] != '\'' && Without(s, c - 1)[o] == s[o];
  }

  /** Dropping a doubled pair keeps the nesting: the pairs of the shorter text are exactly the other
    * pairs of the text.
    */
  lemma NestingKept(s: string, o: nat, c: nat, a: nat, b: nat)
    requires IsDoubled(Weights(s), o, c) && a < |s| && b < |s| && a != o + 1 && a != c - 1 && b != o + 1 && b != c - 1
    ensures o + 2 < c < |s|
    ensures IsPair(Weights(s), a, b) <==> IsPair(Weights(Dropped(s, o, c)), Moved(a, o + 1, c - 1), Moved(b, o + 1, c - 1))
  {
    hide Weights, IsPair;
    DroppedWeights(s, o, c);
    OtherPairsStay(Weights(s), o, c, a, b);
  }
}
