/** Provider events may arrive in any order and any number of times: what they come to. */
module WebhookOrder {
  import opened Basics
  import opened PaymentState
  import opened Webhooks

  // ---- never out of paid ----

  /** No event of the provider, whatever it says, takes an invoice out of paid, nor moves it to any
    * other status than paid; and only a covered invoice is moved there.
    */
  lemma OnlyEverToPaid(l: Ledger, id: Option<nat>, e: Event)
    ensures var d := Handle(l, id, e).0; d.status == l.status || (d.status == Paid && Covered(d))
  {
    hide UpdatedPayment, RefundedPayment, DisputedPayment, FindPayment, Net;
  }

  // ---- what a payment ends as ----

  predicate Concerns(e: Event, p: Payment, invoice: nat) {
    IsIntentEvent(e) && e.intent == p.intent && !NamesOther(e, invoice)
  }

  predicate OnlyIntentEvents(ds: seq<Delivery>) {
    forall i :: 0 <= i < |ds| ==> IsIntentEvent(ds[i].event)
  }

  /** One id is one event, and an intent succeeds in one way. */
  predicate AreConsistent(ds: seq<Delivery>) {
    && (forall i, j :: 0 <= i < |ds| && 0 <= j < |ds| && ds[i].id.Some? && ds[i].id == ds[j].id ==> ds[i].event == ds[j].event)
    && (forall i, j :: 0 <= i < |ds| && 0 <= j < |ds| ==> SameSuccess(ds[i].event, ds[j].event))
  }

  predicate SameSuccess(a: Event, b: Event) {
    a.Succeeded? && b.Succeeded? && a.intent == b.intent ==> a.currency == b.currency && a.received == b.received
  }

  predicate AreNew(ds: seq<Delivery>, recorded: set<nat>) {
    forall i :: 0 <= i < |ds| && ds[i].id.Some? ==> ds[i].id.value !in recorded
  }

  predicate Counts(e: Event, p: Payment, invoice: nat) {
    Concerns(e, p, invoice) && IsReceived(e, p)
  }

  predicate Fails(e: Event, p: Payment, invoice: nat) {
    Concerns(e, p, invoice) && !e.Succeeded?
  }

  predicate IsUncountable(e: Event, p: Payment, invoice: nat) {
    Concerns(e, p, invoice) && e.Succeeded? && !IsReceived(e, p)
  }

  predicate AnyCounts(ds: seq<Delivery>, p: Payment, invoice: nat) {
    exists i :: 0 <= i < |ds| && Counts(ds[i].event, p, invoice)
  }

  predicate AnyFails(ds: seq<Delivery>, p: Payment, invoice: nat) {
    exists i :: 0 <= i < |ds| && Fails(ds[i].event, p, invoice)
  }

  predicate AnyUncountable(ds: seq<Delivery>, p: Payment, invoice: nat) {
    exists i :: 0 <= i < |ds| && IsUncountable(ds[i].event, p, invoice)
  }

  predicate IsFinal(p: Payment) {
    p.status == Completed || p.status == RefundedStatus
  }

  /** What a payment ends as, said by which events arrived and nothing else: completed if any says
    * what was received, else failed if any says so; a success that cannot be counted flags it.
    */
  ghost predicate EndsAs(ds: seq<Delivery>, p: Payment, invoice: nat, q: Payment) {
    if IsFinal(p) then q == p
    else
      && q == p.(status := q.status, amount := q.amount, review := q.review)
      && q.status == (if AnyCounts(ds, p, invoice) then Completed else if AnyFails(ds, p, invoice) then Failed else p.status)
      && (if AnyCounts(ds, p, invoice) then forall i :: 0 <= i < |ds| && Counts(ds[i].event, p, invoice) ==> q.amount == ds[i].event.received.value
          else q.amount == p.amount)
      && q.review == (p.review || AnyUncountable(ds, p, invoice))
  }

  lemma AnyStep(ds: seq<Delivery>, p: Payment, invoice: nat)
    requires ds != []
    ensures var n, e := |ds| - 1, ds[|ds| - 1].event;
            && (AnyCounts(ds, p, invoice) <==> AnyCounts(ds[..n], p, invoice) || Counts(e, p, invoice))
            && (AnyFails(ds, p, invoice) <==> AnyFails(ds[..n], p, invoice) || Fails(e, p, invoice))
            && (AnyUncountable(ds, p, invoice) <==> AnyUncountable(ds[..n], p, invoice) || IsUncountable(e, p, invoice))
  {
    hide Counts, Fails, IsUncountable;
    var n := |ds| - 1;
    assert forall i :: 0 <= i < n ==> ds[..n][i] == ds[i];
  }

  /** One more event: as the service updates the payment, if the event is not a repetition. */
  lemma EndsStep(ds: seq<Delivery>, p: Payment, invoice: nat, q: Payment)
    requires ds != [] && OnlyIntentEvents(ds) && AreConsistent(ds)
    requires EndsAs(ds[..|ds| - 1], p, invoice, q)
    ensures var e := ds[|ds| - 1].event;
            && EndsAs(ds, p, invoice, if e.intent == p.intent then UpdatedPayment(q, invoice, e).0 else q)
            && ((exists j :: 0 <= j < |ds| - 1 && ds[j].event == e) ==> EndsAs(ds, p, invoice, q))
  {
    hide AnyCounts, AnyFails, AnyUncountable, Lower;
    var n, e := |ds| - 1, ds[|ds| - 1].event;
    AnyStep(ds, p, invoice);
    AmountsAgree(ds, p, invoice);
    if !IsFinal(p) && AnyCounts(ds[..n], p, invoice) { AmountStays(ds, p, invoice, q.amount); }
    if j :| 0 <= j < n && ds[j].event == e { AnyEarlier(ds[..n], j, p, invoice); }
  }

  lemma AnyEarlier(ds: seq<Delivery>, j: nat, p: Payment, invoice: nat)
    requires j < |ds|
    ensures Counts(ds[j].event, p, invoice) ==> AnyCounts(ds, p, invoice)
    ensures Fails(ds[j].event, p, invoice) ==> AnyFails(ds, p, invoice)
    ensures IsUncountable(ds[j].event, p, invoice) ==> AnyUncountable(ds, p, invoice)
  {
    hide Counts, Fails, IsUncountable;
  }

  /** All events that say what was received agree, and then none is uncountable. */
  lemma AmountsAgree(ds: seq<Delivery>, p: Payment, invoice: nat)
    requires ds != [] && AreConsistent(ds)
    ensures forall i, j :: 0 <= i < |ds| && 0 <= j < |ds| && Counts(ds[i].event, p, invoice) && Counts(ds[j].event, p, invoice) ==>
              ds[i].event.received == ds[j].event.received
    ensures AnyCounts(ds, p, invoice) ==> !AnyUncountable(ds, p, invoice)
  {
    hide Lower;
    forall i, j | 0 <= i < |ds| && 0 <= j < |ds| && Counts(ds[i].event, p, invoice)
      ensures Counts(ds[j].event, p, invoice) ==> ds[i].event.received == ds[j].event.received
      ensures !IsUncountable(ds[j].event, p, invoice) {
      assert SameSuccess(ds[i].event, ds[j].event);
    }
  }

  lemma AmountStays(ds: seq<Delivery>, p: Payment, invoice: nat, amount: nat)
    requires ds != [] && AreConsistent(ds) && AnyCounts(ds[..|ds| - 1], p, invoice)
    requires forall i :: 0 <= i < |ds| - 1 && Counts(ds[..|ds| - 1][i].event, p, invoice) ==> amount == ds[i].event.received.value
    ensures forall i :: 0 <= i < |ds| && Counts(ds[i].event, p, invoice) ==> amount == ds[i].event.received.value
  {
    hide Counts;
    AmountsAgree(ds, p, invoice);
    var j :| 0 <= j < |ds| - 1 && Counts(ds[..|ds| - 1][j].event, p, invoice);
    assert ds[..|ds| - 1][j] == ds[j];
  }

  // ---- all deliveries ----

  /** No two payments of the ledger share an intent. */
  predicate DistinctIntents(payments: seq<Payment>) {
    forall i, j :: 0 <= i < j < |payments| ==> payments[i].intent != payments[j].intent
  }

  predicate WasSeen(l: Ledger, d: Delivery) {
    d.id.Some? && d.id.value in l.recorded
  }

  function AfterOne(l: Ledger, d: Delivery, p: Payment): Payment
    requires IsIntentEvent(d.event)
  {
    if WasSeen(l, d) || d.event.intent != p.intent then p else UpdatedPayment(p, l.invoice, d.event).0
  }

  lemma HandleOne(l: Ledger, d: Delivery)
    requires IsIntentEvent(d.event) && DistinctIntents(l.payments)
    ensures var after := Handle(l, d.id, d.event).0;
            && after.invoice == l.invoice && after.total == l.total && after.currency == l.currency
            && |after.payments| == |l.payments| && DistinctIntents(after.payments)
            && after.recorded == l.recorded + (if d.id.Some? then {d.id.value} else {})
            && forall i :: 0 <= i < |l.payments| ==> after.payments[i] == AfterOne(l, d, l.payments[i])
  {
    hide Lower, Net;
  }

  predicate IsRecorded(l: Ledger, ds: seq<Delivery>, x: nat) {
    x in l.recorded || exists j :: 0 <= j < |ds| && ds[j].id == Some(x)
  }

  lemma Prefix(ds: seq<Delivery>)
    requires ds != []
    ensures var before := ds[..|ds| - 1];
            && (OnlyIntentEvents(ds) ==> OnlyIntentEvents(before)) && (AreConsistent(ds) ==> AreConsistent(before))
            && forall recorded :: AreNew(ds, recorded) ==> AreNew(before, recorded)
  {
    hide SameSuccess;
  }

  /** However the events of an intent arrive, in whatever order and however often, its payment ends
    * as the events that arrived say.
    */
  lemma {:induction false} PaymentEndsAs(l: Ledger, ds: seq<Delivery>)
    requires OnlyIntentEvents(ds) && AreConsistent(ds) && AreNew(ds, l.recorded) && DistinctIntents(l.payments)
    ensures var end := HandleAll(l, ds);
            && end.invoice == l.invoice && end.total == l.total && end.currency == l.currency
            && |end.payments| == |l.payments| && DistinctIntents(end.payments)
            && (forall x: nat :: x in end.recorded <==> IsRecorded(l, ds, x))
            && forall i :: 0 <= i < |l.payments| ==>
                 end.payments[i].intent == l.payments[i].intent && EndsAs(ds, l.payments[i], l.invoice, end.payments[i])
    decreases |ds|
  {
    hide EndsAs, Handle, UpdatedPayment, AreConsistent, DistinctIntents, NamesOther;
    if ds == [] {
      forall i | 0 <= i < |l.payments| ensures EndsAs(ds, l.payments[i], l.invoice, l.payments[i]) { NothingEnds(l.payments[i], l.invoice); }
    } else {
      var before, d := ds[..|ds| - 1], ds[|ds| - 1];
      Prefix(ds);
      PaymentEndsAs(l, before);
      var middle := HandleAll(l, before);
      HandleOne(middle, d);
      if WasSeen(middle, d) { SeenBefore(l, ds); }
      forall i | 0 <= i < |l.payments|
        ensures HandleAll(l, ds).payments[i].intent == l.payments[i].intent && EndsAs(ds, l.payments[i], l.invoice, HandleAll(l, ds).payments[i]) {
        EndsStep(ds, l.payments[i], l.invoice, middle.payments[i]);
        KeepsIntent(middle.payments[i], l.invoice, d.event);
      }
      RecordedStep(l, ds);
    }
  }

  lemma NothingEnds(p: Payment, invoice: nat)
    ensures EndsAs([], p, invoice, p)
  {
  }

  lemma KeepsIntent(p: Payment, invoice: nat, e: Event)
    requires IsIntentEvent(e)
    ensures UpdatedPayment(p, invoice, e).0.intent == p.intent
  {
  }

  lemma RecordedStep(l: Ledger, ds: seq<Delivery>)
    requires ds != []
    ensures var d := ds[|ds| - 1];
            forall x: nat :: IsRecorded(l, ds, x) <==> IsRecorded(l, ds[..|ds| - 1], x) || d.id == Some(x)
  {
    var n := |ds| - 1;
    assert forall i :: 0 <= i < n ==> ds[..n][i] == ds[i];
  }

  /** A delivery whose id was recorded is a repetition of an earlier one. */
  lemma SeenBefore(l: Ledger, ds: seq<Delivery>)
    requires ds != [] && AreConsistent(ds) && AreNew(ds, l.recorded)
    requires var d := ds[|ds| - 1]; d.id.Some? && IsRecorded(l, ds[..|ds| - 1], d.id.value)
    ensures exists j :: 0 <= j < |ds| - 1 && ds[j].event == ds[|ds| - 1].event
  {
    hide SameSuccess;
    var n, d := |ds| - 1, ds[|ds| - 1];
    var j :| 0 <= j < n && ds[..n][j].id == Some(d.id.value);
    assert ds[j].event == d.event;
  }

  // ---- the invoice ----

  lemma NetNeverFalls(l: Ledger, d: Delivery)
    requires IsIntentEvent(d.event)
    ensures var after := Handle(l, d.id, d.event).0;
            && Net(after.payments, l.currency) >= Net(l.payments, l.currency)
            && (after.status == l.status ==> l.status == Paid || Covered(l) || !Covered(after))
            && (after.status != l.status ==> after.status == Paid && Covered(after))
            && after.total == l.total && after.currency == l.currency
  {
    hide Net, Lower, IsReceived;
    var i := FindPayment(l.payments, Some(d.event.intent));
    if !WasSeen(l, d) && i < |l.payments| {
      var p := UpdatedPayment(l.payments[i], l.invoice, d.event).0;
      NetOfReplaced(l.payments, i, p, l.currency);
      NetRises(l.payments[i], l.invoice, d.event, l.currency);
      assert l.payments[i := l.payments[i]] == l.payments;
    }
  }

  lemma NetRises(p: Payment, invoice: nat, e: Event, currency: string)
    requires IsIntentEvent(e)
    ensures var (q, result) := UpdatedPayment(p, invoice, e);
            && NetOf(q, currency) >= NetOf(p, currency)
            && (!(result == Applied && e.Succeeded?) ==> NetOf(q, currency) == NetOf(p, currency))
  {
    hide Lower, IsReceived, DisputeIsOpen, DisputeIsLost;
  }

  /** With intent events only, an invoice that was not paid although covered ends paid exactly when
    * its payments cover it, whatever the order, and is otherwise left as it was.
    */
  lemma {:induction false} PaidExactlyWhenCovered(l: Ledger, ds: seq<Delivery>)
    requires OnlyIntentEvents(ds) && (l.status == Paid || !Covered(l))
    ensures var end := HandleAll(l, ds);
            && end.total == l.total && end.currency == l.currency
            && end.status == if l.status == Paid || Covered(end) then Paid else l.status
    decreases |ds|
  {
    hide Handle, Covered;
    if ds != [] {
      var middle := HandleAll(l, ds[..|ds| - 1]);
      PaidExactlyWhenCovered(l, ds[..|ds| - 1]);
      NetNeverFalls(middle, ds[|ds| - 1]);
      CoveredStays(middle, HandleAll(l, ds));
    }
  }

  lemma CoveredStays(a: Ledger, b: Ledger)
    requires b.total == a.total && b.currency == a.currency && Net(b.payments, a.currency) >= Net(a.payments, a.currency)
    ensures Covered(a) ==> Covered(b)
  {
  }

  predicate Has(ds: seq<Delivery>, e: Event) {
    exists i :: 0 <= i < |ds| && ds[i].event == e
  }

  ghost predicate SameEvents(a: seq<Delivery>, b: seq<Delivery>) {
    forall e :: Has(a, e) <==> Has(b, e)
  }

  /** Confluence: two ways of delivering the same events, in any order and with any repetitions,
    * leave the same payments and the same invoice status.
    */
  lemma Confluence(l: Ledger, a: seq<Delivery>, b: seq<Delivery>)
    requires OnlyIntentEvents(a) && AreConsistent(a) && AreNew(a, l.recorded)
    requires OnlyIntentEvents(b) && AreConsistent(b) && AreNew(b, l.recorded)
    requires SameEvents(a, b)
    requires DistinctIntents(l.payments) && (l.status == Paid || !Covered(l))
    ensures HandleAll(l, a).payments == HandleAll(l, b).payments
    ensures HandleAll(l, a).status == HandleAll(l, b).status
  {
    hide EndsAs, HandleAll, DistinctIntents, AreConsistent, IsRecorded, Net, AreNew;
    PaymentEndsAs(l, a);
    PaymentEndsAs(l, b);
    PaidExactlyWhenCovered(l, a);
    PaidExactlyWhenCovered(l, b);
    var x, y := HandleAll(l, a).payments, HandleAll(l, b).payments;
    forall i | 0 <= i < |x| ensures x[i] == y[i] {
      SameAnswers(a, b, l.payments[i], l.invoice);
      SameEnd(a, b, l.payments[i], l.invoice, x[i], y[i]);
    }
    assert x == y;
  }

  lemma SameAnswers(a: seq<Delivery>, b: seq<Delivery>, p: Payment, invoice: nat)
    requires SameEvents(a, b)
    ensures AnyCounts(a, p, invoice) == AnyCounts(b, p, invoice)
    ensures AnyFails(a, p, invoice) == AnyFails(b, p, invoice)
    ensures AnyUncountable(a, p, invoice) == AnyUncountable(b, p, invoice)
  {
    hide Counts, Fails, IsUncountable;
    assert forall i :: 0 <= i < |a| ==> Has(a, a[i].event);
    assert forall i :: 0 <= i < |b| ==> Has(b, b[i].event);
  }

  lemma SameEnd(a: seq<Delivery>, b: seq<Delivery>, p: Payment, invoice: nat, x: Payment, y: Payment)
    requires SameEvents(a, b)
    requires EndsAs(a, p, invoice, x) && EndsAs(b, p, invoice, y)
    requires AnyCounts(a, p, invoice) == AnyCounts(b, p, invoice) && AnyFails(a, p, invoice) == AnyFails(b, p, invoice)
    requires AnyUncountable(a, p, invoice) == AnyUncountable(b, p, invoice)
    ensures x == y
  {
    hide Counts, AnyFails, AnyUncountable;
    if !IsFinal(p) && AnyCounts(a, p, invoice) {
      var i :| 0 <= i < |a| && Counts(a[i].event, p, invoice);
      assert Has(a, a[i].event);
      var j :| 0 <= j < |b| && b[j].event == a[i].event;
      assert x.amount == y.amount;
    }
  }

  // ---- two deliveries handled at once ----

  /** The conditional update of a handler that read the payment as `read`: it is lost if another
    * handler changed the status meanwhile, and the event is then answered as a duplicate.
    */
  function UpdatedSince(read: Payment, now: Payment, invoice: nat, e: Event): Payment
    requires IsIntentEvent(e)
  {
    var (p, result) := UpdatedPayment(read, invoice, e);
    if result == Duplicate || result == Stale || p == read || now.status != read.status then now
    else now.(status := p.status, amount := p.amount, review := p.review)
  }

  /** A handler that nobody overtakes does what a handler alone does. */
  lemma AloneIsAtomic(p: Payment, invoice: nat, e: Event)
    requires IsIntentEvent(e)
    ensures UpdatedSince(p, p, invoice, e) == UpdatedPayment(p, invoice, e).0
  {
  }

  /** One after the other, the order of a success and any other event of its intent is irrelevant:
    * the payment completes, and so it does when nobody comes between. Overtaken between its read and
    * its update, the success still completes the payment unless that payment was pending and the other event failed it: then the payment
    * stays failed, and both events count as handled.
    */
  lemma OvertakenSuccess(p: Payment, invoice: nat, success: Event, other: Event)
    requires Counts(success, p, invoice) && Concerns(other, p, invoice) && SameSuccess(success, other)
    requires p.status != RefundedStatus
    ensures UpdatedPayment(UpdatedPayment(p, invoice, other).0, invoice, success).0.status == Completed
    ensures UpdatedPayment(UpdatedPayment(p, invoice, success).0, invoice, other).0.status == Completed
    ensures UpdatedSince(p, UpdatedPayment(p, invoice, other).0, invoice, success).status == Completed
            <==> !(p.status == Pending && !other.Succeeded?)
    ensures UpdatedSince(p, p, invoice, success).status == Completed
  {
    AloneIsAtomic(p, invoice, success);
    hide Lower;
  }

  // ---- a handler that stops halfway ----

  lemma CompletedStays(l: Ledger, d: Delivery, intent: nat)
    requires IntentOf(d.event) == Some(intent)
    requires var i := FindPayment(l.payments, Some(intent)); i < |l.payments| && l.payments[i].status == Completed
    ensures var after, i := Handle(l, d.id, d.event).0, FindPayment(l.payments, Some(intent));
            && after.status == l.status && (IsIntentEvent(d.event) ==> after.payments == l.payments)
            && |after.payments| == |l.payments| && after.payments == l.payments[i := after.payments[i]]
            && after.payments[i].status == Completed && after.payments[i].intent == intent
  {
    hide Net, Lower;
    var i := FindPayment(l.payments, Some(intent));
    assert l.payments[i := l.payments[i]] == l.payments;
  }

  lemma SameFirst(a: seq<Payment>, b: seq<Payment>, intent: nat)
    requires |a| == |b| && forall j :: 0 <= j < |a| ==> a[j].intent == b[j].intent
    ensures FindPayment(a, Some(intent)) == FindPayment(b, Some(intent))
    decreases |a|
  {
    if a != [] { SameFirst(a[1..], b[1..], intent); }
  }

  /** A handler that stopped after completing the payment and before looking at the invoice leaves
    * the invoice as it was for good: whatever events of the intent come later, redeliveries,
    * refunds and disputes included, in any number, none of them marks it, although its payments
    * cover it; and its intent events change nothing at all.
    */
  lemma {:induction false} StoppedHandlerIsNotRedone(l: Ledger, ds: seq<Delivery>, intent: nat)
    requires forall j :: 0 <= j < |ds| ==> IntentOf(ds[j].event) == Some(intent)
    requires var i := FindPayment(l.payments, Some(intent)); i < |l.payments| && l.payments[i].status == Completed
    ensures var after, i := HandleAll(l, ds), FindPayment(l.payments, Some(intent));
            && after.status == l.status
            && FindPayment(after.payments, Some(intent)) == i < |after.payments| && after.payments[i].status == Completed
            && ((forall j :: 0 <= j < |ds| ==> IsIntentEvent(ds[j].event)) ==> after.payments == l.payments)
    decreases |ds|
  {
    hide Handle, IntentOf;
    if ds != [] {
      var n := |ds| - 1;
      StoppedHandlerIsNotRedone(l, ds[..n], intent);
      var before, after := HandleAll(l, ds[..n]), HandleAll(l, ds);
      CompletedStays(before, ds[n], intent);
      SameFirst(before.payments, after.payments, intent);
    }
  }
}
