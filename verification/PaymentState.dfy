/** Payments of an invoice and what they add up to, in cents. */
module PaymentState {
  import opened Basics

  datatype Status = Pending | Completed | Failed | RefundedStatus

  /** A stored payment attempt. Amounts are numeric(12,2), so whole cents; `review` is whether it is
    * flagged as money that could not be counted.
    */
  datatype Payment = Payment(
    intent: nat,
    status: Status,
    amount: nat,
    currency: string,
    refunded: nat,
    dispute: Option<string>,
    disputed: nat,
    review: bool)

  function Lower(s: string): string {
    seq(|s|, i requires 0 <= i < |s| => if 'A' <= s[i] <= 'Z' then ((s[i] as int) + 32) as char else s[i])
  }

  predicate DisputeIsOpen(status: Option<string>) {
    status.Some? && status.value != "" && status.value != "lost" && status.value != "won" && status.value != "warning_closed"
  }

  predicate DisputeIsLost(status: Option<string>) {
    status == Some("lost")
  }

  predicate Counted(p: Payment, currency: string) {
    p.status == Completed && Lower(p.currency) == Lower(currency) && !p.review
  }

  function Min(a: nat, b: nat): nat {
    if a < b then a else b
  }

  // ---- one payment ----

  function GrossOf(p: Payment, currency: string): nat {
    if Counted(p, currency) then p.amount else 0
  }

  function RefundedOf(p: Payment, currency: string): nat {
    Min(p.refunded, GrossOf(p, currency))
  }

  /** What a dispute holds back of the rest: an unknown amount (zero) means all of it. */
  function HeldBack(p: Payment, rest: nat): nat {
    Min(if p.disputed != 0 then p.disputed else rest, rest)
  }

  function DisputedOf(p: Payment, currency: string): nat {
    if Counted(p, currency) && (DisputeIsOpen(p.dispute) || DisputeIsLost(p.dispute)) then
      HeldBack(p, GrossOf(p, currency) - RefundedOf(p, currency))
    else 0
  }

  // ---- all of them ----

  function Gross(payments: seq<Payment>, currency: string): nat {
    if payments == [] then 0 else Gross(payments[..|payments| - 1], currency) + GrossOf(payments[|payments| - 1], currency)
  }

  function Refunded(payments: seq<Payment>, currency: string): nat {
    if payments == [] then 0 else Refunded(payments[..|payments| - 1], currency) + RefundedOf(payments[|payments| - 1], currency)
  }

  function Disputed(payments: seq<Payment>, currency: string): nat {
    if payments == [] then 0 else Disputed(payments[..|payments| - 1], currency) + DisputedOf(payments[|payments| - 1], currency)
  }

  predicate HasOpenDispute(payments: seq<Payment>, currency: string) {
    exists i :: 0 <= i < |payments| && Counted(payments[i], currency) && DisputeIsOpen(payments[i].dispute)
  }

  predicate HasLostDispute(payments: seq<Payment>, currency: string) {
    exists i :: 0 <= i < |payments| && Counted(payments[i], currency) && DisputeIsLost(payments[i].dispute)
  }

  datatype State = NoPayment | PaidState | PartiallyRefunded | FullyRefunded | DisputedState | DisputeLost

  datatype Totals = Totals(gross: nat, refunded: nat, disputed: nat, net: nat, state: State)

  /** The business keeps gross less refunds less disputes that are open or lost. */
  method PaymentTotals(payments: seq<Payment>, currency: string) returns (t: Totals)
    ensures t.gross == Gross(payments, currency)
    ensures t.refunded == Refunded(payments, currency)
    ensures t.disputed == Disputed(payments, currency)
    ensures t.net == t.gross - t.refunded - t.disputed == AllLeft(payments, currency)
    ensures t.state.DisputedState? <==> HasOpenDispute(payments, currency)
    ensures t.state.DisputeLost? <==> HasLostDispute(payments, currency) && !HasOpenDispute(payments, currency)
    ensures !t.state.DisputedState? && !t.state.DisputeLost? ==>
              && t.disputed == 0
              && (t.state.FullyRefunded? <==> 0 < t.gross == t.refunded)
              && (t.state.PartiallyRefunded? <==> 0 < t.refunded < t.gross)
              && (t.state.PaidState? <==> 0 == t.refunded < t.gross)
              && (t.state.NoPayment? <==> t.gross == 0)
  {
    var gross, refunded, disputed, open, lost := 0, 0, 0, false, false;
    for i := 0 to |payments|
      invariant gross == Gross(payments[..i], currency)
      invariant refunded == Refunded(payments[..i], currency)
      invariant disputed == Disputed(payments[..i], currency)
      invariant refunded + disputed <= gross
      invariant !open && !lost ==> disputed == 0
      invariant open <==> HasOpenDispute(payments[..i], currency)
      invariant lost <==> HasLostDispute(payments[..i], currency)
    {
      var p := payments[i];
      assert payments[..i + 1][..i] == payments[..i];
      FlagStep(payments, i, currency);
      if Counted(p, currency) {
        var amount := p.amount;
        var back := Min(p.refunded, amount);
        gross, refunded := gross + amount, refunded + back;
        if DisputeIsOpen(p.dispute) || DisputeIsLost(p.dispute) {
          disputed := disputed + Min(if p.disputed != 0 then p.disputed else amount - back, amount - back);
          if p.dispute == Some("lost") { lost := true; } else { open := true; }
        }
      }
    }
    assert payments[..|payments|] == payments;
    var kept := gross - refunded - disputed;
    var net := if kept > 0 then kept else 0;
    var state := NoPayment;
    if open { state := DisputedState; }
    else if lost { state := DisputeLost; }
    else if gross > 0 && refunded >= gross { state := FullyRefunded; }
    else if refunded > 0 { state := PartiallyRefunded; }
    else if gross > 0 { state := PaidState; }
    t := Totals(gross, refunded, disputed, net, state);
    ClampNeverActs(payments, currency);
    NetIsWhatIsLeft(payments, currency);
  }

  lemma FlagStep(payments: seq<Payment>, i: nat, currency: string)
    requires i < |payments|
    ensures HasOpenDispute(payments[..i + 1], currency) <==>
              HasOpenDispute(payments[..i], currency) || (Counted(payments[i], currency) && DisputeIsOpen(payments[i].dispute))
    ensures HasLostDispute(payments[..i + 1], currency) <==>
              HasLostDispute(payments[..i], currency) || (Counted(payments[i], currency) && DisputeIsLost(payments[i].dispute))
  {
    hide Counted, DisputeIsOpen, DisputeIsLost;
    var a, b := payments[..i], payments[..i + 1];
    assert forall j :: 0 <= j < i ==> a[j] == b[j];
    assert b[i] == payments[i];
  }

  // ---- net ----

  function NetOf(p: Payment, currency: string): nat {
    GrossOf(p, currency) - RefundedOf(p, currency) - DisputedOf(p, currency)
  }

  function Net(payments: seq<Payment>, currency: string): nat {
    if payments == [] then 0 else Net(payments[..|payments| - 1], currency) + NetOf(payments[|payments| - 1], currency)
  }

  /** Refunds and disputes never exceed what was paid, so the clamp at zero never acts: net is the
    * plain difference.
    */
  lemma {:induction false} ClampNeverActs(payments: seq<Payment>, currency: string)
    ensures Refunded(payments, currency) + Disputed(payments, currency) <= Gross(payments, currency)
    ensures Net(payments, currency) == Gross(payments, currency) - Refunded(payments, currency) - Disputed(payments, currency)
  {
    hide GrossOf, RefundedOf, DisputedOf;
    if payments != [] {
      ClampNeverActs(payments[..|payments| - 1], currency);
      assert NetOf(payments[|payments| - 1], currency) >= 0;
    }
  }

  lemma {:induction false} TotalsAdd(a: seq<Payment>, b: seq<Payment>, currency: string)
    ensures Gross(a + b, currency) == Gross(a, currency) + Gross(b, currency)
    ensures Refunded(a + b, currency) == Refunded(a, currency) + Refunded(b, currency)
    ensures Disputed(a + b, currency) == Disputed(a, currency) + Disputed(b, currency)
    ensures Net(a + b, currency) == Net(a, currency) + Net(b, currency)
    decreases |b|
  {
    hide GrossOf, RefundedOf, DisputedOf, NetOf;
    if b == [] {
      assert a + b == a;
    } else {
      assert (a + b)[..|a + b| - 1] == a + b[..|b| - 1];
      TotalsAdd(a, b[..|b| - 1], currency);
    }
  }

  lemma OnePayment(p: Payment, currency: string)
    ensures Gross([p], currency) == GrossOf(p, currency) && Refunded([p], currency) == RefundedOf(p, currency)
    ensures Disputed([p], currency) == DisputedOf(p, currency) && Net([p], currency) == NetOf(p, currency)
  {
    hide GrossOf, RefundedOf, DisputedOf, NetOf;
    assert [p][..0] == [];
  }

  lemma TotalsWithout(payments: seq<Payment>, i: nat, currency: string)
    requires i < |payments|
    ensures var rest, p := payments[..i] + payments[i + 1..], payments[i];
            && Gross(payments, currency) == Gross(rest, currency) + GrossOf(p, currency)
            && Refunded(payments, currency) == Refunded(rest, currency) + RefundedOf(p, currency)
            && Disputed(payments, currency) == Disputed(rest, currency) + DisputedOf(p, currency)
            && Net(payments, currency) == Net(rest, currency) + NetOf(p, currency)
  {
    hide GrossOf, RefundedOf, DisputedOf, NetOf, Gross, Refunded, Disputed, Net;
    assert payments == payments[..i] + [payments[i]] + payments[i + 1..];
    TotalsAdd(payments[..i] + [payments[i]], payments[i + 1..], currency);
    TotalsAdd(payments[..i], [payments[i]], currency);
    TotalsAdd(payments[..i], payments[i + 1..], currency);
    OnePayment(payments[i], currency);
  }

  lemma Find(s: seq<Payment>, a: seq<Payment>) returns (i: nat)
    requires multiset(a) == multiset(s) && a != []
    ensures i < |s| && s[i] == a[0]
  {
    assert a[0] in multiset(s);
    i :| 0 <= i < |s| && s[i] == a[0];
  }

  /** The totals do not depend on the order of the payments. */
  lemma {:induction false} OrderIrrelevant(a: seq<Payment>, b: seq<Payment>, currency: string)
    requires multiset(a) == multiset(b)
    ensures Gross(a, currency) == Gross(b, currency) && Refunded(a, currency) == Refunded(b, currency)
    ensures Disputed(a, currency) == Disputed(b, currency) && Net(a, currency) == Net(b, currency)
    decreases |a|
  {
    hide GrossOf, RefundedOf, DisputedOf, NetOf, Gross, Refunded, Disputed, Net;
    if a == [] {
      assert |multiset(b)| == 0;
    } else {
      var i := Find(b, a);
      WithoutOne(a, 0);
      WithoutOne(b, i);
      OrderIrrelevant(a[..0] + a[1..], b[..i] + b[i + 1..], currency);
      TotalsWithout(a, 0, currency);
      TotalsWithout(b, i, currency);
    }
  }

  /** Replacing one payment moves the net by what that payment's net moves. */
  lemma NetOfReplaced(payments: seq<Payment>, i: nat, p: Payment, currency: string)
    requires i < |payments|
    ensures Net(payments[i := p], currency) == Net(payments, currency) - NetOf(payments[i], currency) + NetOf(p, currency)
  {
    hide NetOf, Net;
    TotalsWithout(payments, i, currency);
    TotalsWithout(payments[i := p], i, currency);
    assert payments[i := p][..i] == payments[..i] && payments[i := p][i + 1..] == payments[i + 1..];
  }

  /** Refunding more of any payment never raises the net, whatever its dispute. */
  lemma RefundNeverRaisesNet(payments: seq<Payment>, i: nat, refunded: nat, currency: string)
    requires i < |payments| && payments[i].refunded <= refunded
    ensures Net(payments[i := payments[i].(refunded := refunded)], currency) <= Net(payments, currency)
  {
    hide Net, Lower, DisputeIsOpen;
    NetOfReplaced(payments, i, payments[i].(refunded := refunded), currency);
  }

  // ---- in the stored fields ----

  /** The same text but for the case of its letters. */
  predicate SameLetters(a: string, b: string) {
    |a| == |b| && forall i :: 0 <= i < |a| ==>
      a[i] == b[i] || ('A' <= a[i] <= 'Z' && b[i] as int == a[i] as int + 32) || ('A' <= b[i] <= 'Z' && a[i] as int == b[i] as int + 32)
  }

  lemma LowerIgnoresCase(a: string, b: string)
    ensures Lower(a) == Lower(b) <==> SameLetters(a, b)
  {
    if Lower(a) == Lower(b) {
      assert |a| == |Lower(a)| == |b|;
      forall i | 0 <= i < |a|
        ensures a[i] == b[i] || ('A' <= a[i] <= 'Z' && b[i] as int == a[i] as int + 32) || ('A' <= b[i] <= 'Z' && a[i] as int == b[i] as int + 32) {
        assert Lower(a)[i] == Lower(b)[i];
      }
    }
  }

  /** Money that arrived, in the invoice's currency, and need not be looked at first. */
  predicate HasArrived(p: Payment, currency: string) {
    p.status == Completed && SameLetters(p.currency, currency) && !p.review
  }

  /** A dispute that was never opened, or ended for the merchant. */
  predicate IsUndisputed(p: Payment) {
    p.dispute == None || p.dispute.value in {"", "won", "warning_closed"}
  }

  /** What is left of a payment once its refunds are gone and, while a dispute is open or lost, the
    * disputed amount, or everything if that is not known.
    */
  function Left(p: Payment, currency: string): nat {
    if !HasArrived(p, currency) || p.refunded >= p.amount then 0
    else
      var rest := p.amount - p.refunded;
      if IsUndisputed(p) then rest
      else if p.disputed == 0 || p.disputed >= rest then 0
      else rest - p.disputed
  }

  function AllLeft(payments: seq<Payment>, currency: string): nat {
    if payments == [] then 0 else Left(payments[0], currency) + AllLeft(payments[1..], currency)
  }

  lemma LeftOfOne(p: Payment, currency: string)
    ensures NetOf(p, currency) == Left(p, currency)
    ensures GrossOf(p, currency) == if HasArrived(p, currency) then p.amount else 0
    ensures RefundedOf(p, currency) == if !HasArrived(p, currency) then 0 else if p.refunded < p.amount then p.refunded else p.amount
  {
    LowerIgnoresCase(p.currency, currency);
    hide Lower, SameLetters;
  }

  /** Net is what is left of the payments, whatever order they are added in. */
  lemma {:induction false} NetIsWhatIsLeft(payments: seq<Payment>, currency: string)
    ensures Net(payments, currency) == AllLeft(payments, currency)
    decreases |payments|
  {
    hide NetOf, Left, Net;
    if payments == [] {
      assert Net(payments, currency) == 0 by { NothingPaid(currency); }
    } else {
      assert payments == [payments[0]] + payments[1..];
      NetIsWhatIsLeft(payments[1..], currency);
      TotalsAdd([payments[0]], payments[1..], currency);
      OnePayment(payments[0], currency);
      LeftOfOne(payments[0], currency);
    }
  }

  lemma NothingPaid(currency: string)
    ensures Net([], currency) == 0
  {
  }

  /** Refunding more of an undisputed payment takes exactly that much off the net and adds it to what was
    * refunded; a payment refunded in full leaves nothing.
    */
  lemma RefundTakesItsAmount(payments: seq<Payment>, i: nat, refunded: nat, currency: string)
    requires i < |payments| && HasArrived(payments[i], currency) && IsUndisputed(payments[i])
    requires payments[i].refunded <= refunded <= payments[i].amount
    ensures var after := payments[i := payments[i].(refunded := refunded)];
            && Net(after, currency) == Net(payments, currency) - (refunded - payments[i].refunded)
            && Refunded(after, currency) == Refunded(payments, currency) + (refunded - payments[i].refunded)
            && Gross(after, currency) == Gross(payments, currency)
            && (refunded == payments[i].amount ==> Net([after[i]], currency) == 0)
  {
    hide Net, Refunded, Gross, Disputed, NetOf, GrossOf, RefundedOf, DisputedOf, SameLetters;
    var p := payments[i].(refunded := refunded);
    LeftOfOne(payments[i], currency);
    LeftOfOne(p, currency);
    OnePayment(p, currency);
    TotalsWithout(payments, i, currency);
    TotalsWithout(payments[i := p], i, currency);
    assert payments[i := p][..i] == payments[..i] && payments[i := p][i + 1..] == payments[i + 1..];
  }

  /** A dispute that is open or lost holds back exactly its amount, at most what is left, or all of that
    * if the amount is not known; one that ended for the merchant, nothing.
    */
  lemma DisputeHoldsItsAmount(payments: seq<Payment>, i: nat, dispute: Option<string>, disputed: nat, currency: string)
    requires i < |payments| && HasArrived(payments[i], currency) && IsUndisputed(payments[i]) && payments[i].refunded <= payments[i].amount
    ensures var after := payments[i := payments[i].(dispute := dispute, disputed := disputed)];
            var rest := payments[i].amount - payments[i].refunded;
            var held := if IsUndisputed(after[i]) then 0 else if disputed == 0 || disputed > rest then rest else disputed;
            && Net(after, currency) == Net(payments, currency) - held
            && Disputed(after, currency) == Disputed(payments, currency) + held
  {
    hide Net, Refunded, Gross, Disputed, NetOf, GrossOf, RefundedOf, DisputedOf, SameLetters;
    var p := payments[i].(dispute := dispute, disputed := disputed);
    LeftOfOne(payments[i], currency);
    LeftOfOne(p, currency);
    PartsOfOne(payments[i], currency);
    PartsOfOne(p, currency);
    TotalsWithout(payments, i, currency);
    TotalsWithout(payments[i := p], i, currency);
    assert payments[i := p][..i] == payments[..i] && payments[i := p][i + 1..] == payments[i + 1..];
  }

  lemma PartsOfOne(p: Payment, currency: string)
    ensures NetOf(p, currency) == GrossOf(p, currency) - RefundedOf(p, currency) - DisputedOf(p, currency)
  {
    hide Lower;
  }

  /** Which disputes stop a checkout and a reopening: of money that arrived, not ended. */
  lemma OpenDisputeIs(payments: seq<Payment>, currency: string)
    ensures HasOpenDispute(payments, currency) <==>
            exists i :: 0 <= i < |payments| && HasArrived(payments[i], currency) && !IsUndisputed(payments[i]) && payments[i].dispute != Some("lost")
    ensures HasLostDispute(payments, currency) <==>
            exists i :: 0 <= i < |payments| && HasArrived(payments[i], currency) && payments[i].dispute == Some("lost")
  {
    forall i | 0 <= i < |payments| ensures Counted(payments[i], currency) == HasArrived(payments[i], currency) {
      LowerIgnoresCase(payments[i].currency, currency);
    }
    hide Counted, HasArrived;
  }
}
