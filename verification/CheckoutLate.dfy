/** Why the assumption on late payments is needed: `payment_failed` marks an attempt failed although
  * its intent can still be paid, or was paid already, and a checkout looks at pending attempts only.
  */
module CheckoutLate {
  import opened Basics
  import opened PaymentState
  import opened Webhooks
  import opened Checkout
  import opened CheckoutRuns

  const USD := "USD"

  const START := World(Ledger(7, 100, USD, Sent, [], {}), [], Idle)

  function Attempt(intent: nat, status: Status): Payment {
    Payment(intent, status, 100, USD, 0, None, 0, false)
  }

  function Intended(attempt: nat, status: IntentStatus, declined: bool): Intent {
    Intent(attempt, 100, status, declined, 0, None, 0)
  }

  function At(payments: seq<Payment>, status: InvoiceStatus, intents: seq<Intent>, checkout: Progress): World {
    World(Ledger(7, 100, USD, status, payments, {}), intents, checkout)
  }

  lemma Extend(steps: seq<Step>, step: Step)
    ensures Run(START, steps + [step]) == Next(Run(START, steps), step)
  {
    hide Next;
    assert (steps + [step])[..|steps|] == steps;
  }

  lemma Nothing(payments: seq<Payment>)
    requires forall i :: 0 <= i < |payments| ==> payments[i].status == Failed
    ensures Net(payments, USD) == 0 && !HasOpenDispute(payments, USD) && Pendings(payments) == []
    decreases |payments|
  {
    hide Lower, DisputeIsOpen;
    if payments != [] {
      var p := payments[|payments| - 1];
      assert NetOf(p, USD) == 0;
      hide NetOf;
      Nothing(payments[..|payments| - 1]);
    }
  }

  /** A checkout when every earlier attempt failed: a new intent for the whole amount. */
  lemma CheckoutAgain(steps: seq<Step>, payments: seq<Payment>, intents: seq<Intent>)
    requires Run(START, steps) == At(payments, Sent, intents, Idle)
    requires forall i :: 0 <= i < |payments| ==> payments[i].status == Failed
    requires forall i :: 0 <= i < |intents| ==> intents[i].attempt <= |payments|
    ensures Run(START, steps + [Begin] + [Create(true)] + [Commit]) ==
              At(payments + [Attempt(|intents|, Pending)], Sent, intents + [Intended(|payments| + 1, Payable, false)], Idle)
  {
    hide Net, Pendings, HasOpenDispute, FindIntent, Delivered, Inspected, CancelRequested, Run, Moved;
    Nothing(payments);
    Extend(steps, Begin);
    Extend(steps + [Begin], Create(true));
    Extend(steps + [Begin] + [Create(true)], Commit);
    assert Closed(payments, {}) == payments;
  }

  lemma FirstFails(steps: seq<Step>)
    requires Run(START, steps) == At([Attempt(0, Pending)], Sent, [Intended(1, Payable, false)], Idle)
    ensures Run(START, steps + [Decline(0)] + [Deliver(None, 0, SaysFailed)]) ==
              At([Attempt(0, Failed)], Sent, [Intended(1, Payable, true)], Idle)
  {
    hide Net, Began, Inspected, CancelRequested, Made, Committed, Run;
    Extend(steps, Decline(0));
    Extend(steps + [Decline(0)], Deliver(None, 0, SaysFailed));
    assert FindPayment([Attempt(0, Pending)], Some(0)) == 0;
  }

  /** The customer pays the first intent after all, and the second one too. */
  lemma BothPaid(steps: seq<Step>)
    requires Run(START, steps) ==
               At([Attempt(0, Failed), Attempt(1, Pending)], Sent, [Intended(1, Payable, true), Intended(2, Payable, false)], Idle)
    ensures Run(START, steps + [Settle(0, 100)] + [Settle(1, 100)]) ==
              At([Attempt(0, Failed), Attempt(1, Pending)], Sent,
                 [Intended(1, SucceededWith(100), true), Intended(2, SucceededWith(100), false)], Idle)
  {
    hide Began, Inspected, CancelRequested, Made, Committed, Delivered, Run;
    Extend(steps, Settle(0, 100));
    Extend(steps + [Settle(0, 100)], Settle(1, 100));
  }

  lemma NetOfTwo(a: Payment, b: Payment)
    ensures Net([a, b], USD) == NetOf(a, USD) + NetOf(b, USD)
  {
    hide NetOf, Net;
    assert [a] + [b] == [a, b];
    TotalsAdd([a], [b], USD);
    OnePayment(a, USD);
    OnePayment(b, USD);
  }

  lemma FirstRecorded(w: World, intents: seq<Intent>)
    requires intents != [] && intents[0] == Intended(1, SucceededWith(100), true)
    requires w == At([Attempt(0, Failed), Attempt(1, Pending)], Sent, intents, Idle)
    ensures Next(w, Deliver(None, 0, SaysSucceeded)) == w.(ledger := w.ledger.(payments := [Attempt(0, Completed), Attempt(1, Pending)], status := Paid))
  {
    hide Net, Began, Inspected, CancelRequested, Made, Committed, NetOf;
    var a, b := [Attempt(0, Failed), Attempt(1, Pending)], [Attempt(0, Completed), Attempt(1, Pending)];
    assert FindPayment(a, Some(0)) == 0 && a[0 := Attempt(0, Completed)] == b;
    NetOfTwo(b[0], b[1]);
    Worth();
  }

  lemma SecondRecorded(w: World)
    requires w == At([Attempt(0, Completed), Attempt(1, Pending)], Paid, [Intended(1, SucceededWith(100), true), Intended(2, SucceededWith(100), false)], Idle)
    ensures Next(w, Deliver(None, 1, SaysSucceeded)) == w.(ledger := w.ledger.(payments := [Attempt(0, Completed), Attempt(1, Completed)]))
  {
    hide Net, Began, Inspected, CancelRequested, Made, Committed;
    var b := [Attempt(0, Completed), Attempt(1, Pending)];
    assert b[1..] == [Attempt(1, Pending)];
    assert FindPayment(b[1..], Some(1)) == 0;
    assert FindPayment(b, Some(1)) == 1 && b[1 := Attempt(1, Completed)] == [Attempt(0, Completed), Attempt(1, Completed)];
  }

  lemma BothRecorded(steps: seq<Step>, intents: seq<Intent>)
    requires intents == [Intended(1, SucceededWith(100), true), Intended(2, SucceededWith(100), false)]
    requires Run(START, steps) == At([Attempt(0, Failed), Attempt(1, Pending)], Sent, intents, Idle)
    ensures Run(START, steps + [Deliver(None, 0, SaysSucceeded)] + [Deliver(None, 1, SaysSucceeded)]) ==
              At([Attempt(0, Completed), Attempt(1, Completed)], Paid, intents, Idle)
  {
    hide Run, Next, Attempt, Intended;
    Extend(steps, Deliver(None, 0, SaysSucceeded));
    Extend(steps + [Deliver(None, 0, SaysSucceeded)], Deliver(None, 1, SaysSucceeded));
    FirstRecorded(Run(START, steps), intents);
    SecondRecorded(Run(START, steps + [Deliver(None, 0, SaysSucceeded)]));
  }

  lemma Worth()
    ensures NetOf(Attempt(0, Completed), USD) == 100 && NetOf(Attempt(1, Completed), USD) == 100 && NetOf(Attempt(1, Pending), USD) == 0
  {
    hide NetOf;
    WorthOf(Attempt(0, Completed), USD);
    WorthOf(Attempt(1, Completed), USD);
    WorthOf(Attempt(1, Pending), USD);
  }

  lemma WorthOf(p: Payment, currency: string)
    requires p.currency == currency && !p.review && p.refunded == 0 && p.dispute == None
    ensures NetOf(p, currency) == if p.status == Completed then p.amount else 0
  {
    hide Lower;
  }

  /** An attempt fails, a second checkout asks for the whole amount again, and the customer pays both. */
  lemma TwoPaid() returns (steps: seq<Step>)
    ensures Run(START, steps) ==
              At([Attempt(0, Failed), Attempt(1, Pending)], Sent,
                 [Intended(1, SucceededWith(100), true), Intended(2, SucceededWith(100), false)], Idle)
  {
    hide Next;
    assert Run(START, []) == START;
    CheckoutAgain([], [], []);
    steps := [] + [Begin] + [Create(true)] + [Commit];
    hide Run, Attempt, Intended;
    assert [] + [Attempt(0, Pending)] == [Attempt(0, Pending)] && [] + [Intended(1, Payable, false)] == [Intended(1, Payable, false)];
    FirstFails(steps);
    steps := steps + [Decline(0)] + [Deliver(None, 0, SaysFailed)];
    TwoPaidAfter(steps);
    steps := steps + [Begin] + [Create(true)] + [Commit] + [Settle(0, 100)] + [Settle(1, 100)];
  }

  lemma TwoPaidAfter(steps: seq<Step>)
    requires Run(START, steps) == At([Attempt(0, Failed)], Sent, [Intended(1, Payable, true)], Idle)
    ensures Run(START, steps + [Begin] + [Create(true)] + [Commit] + [Settle(0, 100)] + [Settle(1, 100)]) ==
              At([Attempt(0, Failed), Attempt(1, Pending)], Sent,
                 [Intended(1, SucceededWith(100), true), Intended(2, SucceededWith(100), false)], Idle)
  {
    hide Run, Next;
    CheckoutAgain(steps, [Attempt(0, Failed)], [Intended(1, Payable, true)]);
    assert [Attempt(0, Failed)] + [Attempt(1, Pending)] == [Attempt(0, Failed), Attempt(1, Pending)];
    BothPaid(steps + [Begin] + [Create(true)] + [Commit]);
  }

  lemma FirstIsLate(w: World)
    requires w.ledger.payments != [] && w.ledger.payments[0] == Attempt(0, Failed)
    requires w.intents != [] && w.intents[0].status.SucceededWith?
    ensures !NoLatePayment(w)
  {
    assert IsLateRow(w.ledger.payments[0], w.intents);
  }

  /** Then twice the total has been paid. */
  lemma LatePaymentPaysTwice() returns (steps: seq<Step>)
    ensures Initial(START) && !Orderly(START, steps)
    ensures var l := Run(START, steps).ledger; l.total == 100 && Net(l.payments, USD) == 200
  {
    hide Run, Next, Net, NetOf, NoLatePayment, Orderly;
    var paid := TwoPaid();
    var late := Run(START, paid);
    FirstIsLate(late);
    BothRecorded(paid, late.intents);
    steps := paid + [Deliver(None, 0, SaysSucceeded)] + [Deliver(None, 1, SaysSucceeded)];
    assert steps[..|paid|] == paid;
    OrderlyIsNeverLate(START, steps);
    NetOfTwo(Attempt(0, Completed), Attempt(1, Completed));
    Worth();
  }

  // ---- an old failure after the payment ----

  /** An attempt is declined, then paid. */
  lemma DeclinedThenPaid() returns (steps: seq<Step>)
    ensures steps == [Begin, Create(true), Commit, Decline(0), Settle(0, 100)]
    ensures Run(START, steps) == At([Attempt(0, Pending)], Sent, [Intended(1, SucceededWith(100), true)], Idle)
  {
    hide Next;
    assert Run(START, []) == START;
    CheckoutAgain([], [], []);
    steps := [] + [Begin] + [Create(true)] + [Commit];
    assert [] + [Attempt(0, Pending)] == [Attempt(0, Pending)] && [] + [Intended(1, Payable, false)] == [Intended(1, Payable, false)];
    PaidAfter(steps);
    steps := steps + [Decline(0)] + [Settle(0, 100)];
  }

  lemma PaidAfter(steps: seq<Step>)
    requires Run(START, steps) == At([Attempt(0, Pending)], Sent, [Intended(1, Payable, false)], Idle)
    ensures Run(START, steps + [Decline(0)] + [Settle(0, 100)]) == At([Attempt(0, Pending)], Sent, [Intended(1, SucceededWith(100), true)], Idle)
  {
    hide Net, Began, Inspected, CancelRequested, Made, Committed, Run, Delivered;
    Extend(steps, Decline(0));
    Extend(steps + [Decline(0)], Settle(0, 100));
  }

  lemma OldFailure(steps: seq<Step>)
    requires Run(START, steps) == At([Attempt(0, Pending)], Sent, [Intended(1, SucceededWith(100), true)], Idle)
    ensures NoLatePayment(Run(START, steps)) && FailsPaid(Run(START, steps), Deliver(None, 0, SaysFailed))
    ensures Run(START, steps + [Deliver(None, 0, SaysFailed)]) == At([Attempt(0, Failed)], Sent, [Intended(1, SucceededWith(100), true)], Idle)
  {
    hide Net, Began, Inspected, CancelRequested, Made, Committed, Run;
    Extend(steps, Deliver(None, 0, SaysFailed));
    assert FindPayment([Attempt(0, Pending)], Some(0)) == 0;
  }

  lemma AskedAgain(steps: seq<Step>)
    requires Run(START, steps) == At([Attempt(0, Failed)], Sent, [Intended(1, SucceededWith(100), true)], Idle)
    ensures var l := Run(START, steps + [Begin] + [Create(true)] + [Commit] + [Deliver(None, 0, SaysSucceeded)]).ledger;
            l.total == 100 && l.currency == USD && l.payments == [Attempt(0, Completed), Attempt(1, Pending)]
  {
    hide Run, Next;
    CheckoutAgain(steps, [Attempt(0, Failed)], [Intended(1, SucceededWith(100), true)]);
    assert [Attempt(0, Failed)] + [Attempt(1, Pending)] == [Attempt(0, Failed), Attempt(1, Pending)];
    var again := steps + [Begin] + [Create(true)] + [Commit];
    FirstRecorded(Run(START, again), Run(START, again).intents);
    Extend(again, Deliver(None, 0, SaysSucceeded));
  }

  /** A declined attempt is paid while its row is still pending, and only then the old `payment_failed`
    * arrives: the next checkout asks for the whole amount again, beside the payment that is then recorded.
    */
  lemma OldFailureAsksTwice() returns (steps: seq<Step>)
    ensures Initial(START)
    ensures steps == [Begin, Create(true), Commit, Decline(0), Settle(0, 100), Deliver(None, 0, SaysFailed),
                      Begin, Create(true), Commit, Deliver(None, 0, SaysSucceeded)]
    ensures NoLatePayment(Run(START, steps[..5])) && FailsPaid(Run(START, steps[..5]), steps[5])
    ensures var l := Run(START, steps).ledger; l.total == 100 && Net(l.payments, USD) == 100 && OpenAmount(l.payments) == 100
  {
    hide Run, Next, Net, NetOf, NoLatePayment, FailsPaid;
    var paid := DeclinedThenPaid();
    OldFailure(paid);
    AskedAgain(paid + [Deliver(None, 0, SaysFailed)]);
    steps := paid + [Deliver(None, 0, SaysFailed)] + [Begin] + [Create(true)] + [Commit] + [Deliver(None, 0, SaysSucceeded)];
    assert steps[..5] == paid;
    NetOfTwo(Attempt(0, Completed), Attempt(1, Pending));
    Worth();
    OpenOfTwo(Attempt(0, Completed), Attempt(1, Pending));
  }

  lemma OpenOfTwo(a: Payment, b: Payment)
    requires a.status != Pending && b.status == Pending
    ensures OpenAmount([a, b]) == b.amount
  {
    assert [a, b][..1] == [a] && [a][..0] == [];
    assert OpenAmount([a]) == 0;
  }

  // ---- from any late payment ----

  /** Recording one more payment adds what it is worth. */
  lemma OneMore(payments: seq<Payment>, r: nat, q: Payment, currency: string)
    requires r < |payments| && payments[r].status == Failed && q.status == Completed
    ensures Net(payments[r := q], currency) == Net(payments, currency) + NetOf(q, currency)
    ensures OpenAmount(payments[r := q]) == OpenAmount(payments)
  {
    hide Net, NetOf;
    var after := payments[r := q];
    TotalsWithout(payments, r, currency);
    TotalsWithout(after, r, currency);
    assert payments[..r] + payments[r + 1..] == after[..r] + after[r + 1..];
    FailedIsNothing(payments[r], currency);
    SameOpen(payments, after);
  }

  lemma FailedIsNothing(p: Payment, currency: string)
    requires p.status == Failed
    ensures NetOf(p, currency) == 0
  {
  }

  lemma {:induction false} SameOpen(a: seq<Payment>, b: seq<Payment>)
    requires |a| == |b|
    requires forall i :: 0 <= i < |a| ==> (a[i].status == Pending <==> b[i].status == Pending) && (a[i].status == Pending ==> a[i] == b[i])
    ensures OpenAmount(a) == OpenAmount(b)
    decreases |a|
  {
    if a != [] { SameOpen(a[..|a| - 1], b[..|b| - 1]); }
  }

  /** The payment as the event of its success leaves it. */
  function Recorded(p: Payment, i: Intent): Payment
    requires i.status.SucceededWith?
  {
    p.(status := Completed, amount := i.status.received)
  }

  lemma Asked(w: World)
    requires Invariant(w, false) && w.checkout == Idle && Pendings(w.ledger.payments) == []
    requires DueOrRefusal(w.ledger.status, w.ledger.total, w.ledger.currency, w.ledger.payments).0 == None
    ensures var l := w.ledger;
            var v := Next(Next(Next(w, Begin), Create(true)), Commit);
            var due := l.total - Net(l.payments, l.currency);
            && due > 0 && v.checkout == Idle && Invariant(v, false) && w.intents <= v.intents
            && exists k :: v.ledger == l.(payments := l.payments + [NewAttempt(k, due, l.currency)])
  {
    hide Invariant, Began, Made, Committed, DueOrRefusal, Pendings, Net;
    BeganKeeps(w, false);
    MadeKeeps(Began(w), true, false);
    CommittedKeeps(Made(Began(w), true), false);
    AskedFor(w);
  }

  lemma AskedFor(w: World)
    requires w.checkout == Idle && Pendings(w.ledger.payments) == []
    requires DueOrRefusal(w.ledger.status, w.ledger.total, w.ledger.currency, w.ledger.payments).0 == None
    ensures var l := w.ledger;
            var v := Committed(Made(Began(w), true));
            var due := l.total - Net(l.payments, l.currency);
            && due > 0 && v.checkout == Idle && w.intents <= v.intents
            && exists k :: v.ledger == l.(payments := l.payments + [NewAttempt(k, due, l.currency)])
  {
    hide Made, Committed, Pendings, Net, HasOpenDispute;
    var l, n := w.ledger, |w.ledger.payments| + 1;
    var due := l.total - Net(l.payments, l.currency);
    assert Began(w) == w.(checkout := Working(due, n, [], {}, Checking));
    MadeFor(w, due, n);
  }

  lemma MadeFor(w: World, due: nat, n: nat)
    ensures var began := w.(checkout := Working(due, n, [], {}, Checking));
            var k := FindIntent(w.intents, n, due);
            var v := Committed(Made(began, true));
            && v.checkout == Idle && w.intents <= v.intents
            && v.ledger == w.ledger.(payments := w.ledger.payments + [NewAttempt(k, due, w.ledger.currency)])
  {
    hide FindIntent;
    assert Closed(w.ledger.payments, {}) == w.ledger.payments;
  }

  lemma SuccessRecorded(w: World, r: nat)
    requires Invariant(w, false) && w.checkout == Idle && r < |w.ledger.payments| && IsLateRow(w.ledger.payments[r], w.intents)
    ensures var p := w.ledger.payments[r];
            var l := Next(w, Deliver(None, p.intent, SaysSucceeded)).ledger;
            && l.payments == w.ledger.payments[r := Recorded(p, w.intents[p.intent])]
            && l.total == w.ledger.total && l.currency == w.ledger.currency
  {
    OneRow(w, r);
    RowIsOk(w, r);
    hide Invariant, Lower, Net;
  }

  /** From any state with a late payment in which a checkout can start and nothing is open: after that
    * checkout and the event of the success, the invoice is asked for more than its total by exactly
    * what the late payment is worth.
    */
  lemma LateIsAskedTwice(w: World, r: nat)
    requires Invariant(w, false) && w.checkout == Idle && Pendings(w.ledger.payments) == []
    requires DueOrRefusal(w.ledger.status, w.ledger.total, w.ledger.currency, w.ledger.payments).0 == None
    requires r < |w.ledger.payments| && IsLateRow(w.ledger.payments[r], w.intents)
    ensures var p := w.ledger.payments[r];
            var l := Next(Next(Next(Next(w, Begin), Create(true)), Commit), Deliver(None, p.intent, SaysSucceeded)).ledger;
            && l.total == w.ledger.total && l.currency == w.ledger.currency
            && Net(l.payments, l.currency) + OpenAmount(l.payments) == l.total + NetOf(Recorded(p, w.intents[p.intent]), l.currency)
  {
    hide Next, Invariant, Net, NetOf, Pendings, HasOpenDispute;
    var l, p := w.ledger, w.ledger.payments[r];
    Asked(w);
    var v := Next(Next(Next(w, Begin), Create(true)), Commit);
    var due := l.total - Net(l.payments, l.currency);
    var k :| v.ledger == l.(payments := l.payments + [NewAttempt(k, due, l.currency)]);
    assert v.ledger.payments[r] == p;
    SuccessRecorded(v, r);
    OneMore(v.ledger.payments, r, Recorded(p, w.intents[p.intent]), l.currency);
    WithAttempt(l.payments, NewAttempt(k, due, l.currency), l.currency);
  }

  lemma WithAttempt(payments: seq<Payment>, made: Payment, currency: string)
    requires Pendings(payments) == [] && made.status == Pending
    ensures Net(payments + [made], currency) == Net(payments, currency) && OpenAmount(payments + [made]) == made.amount
  {
    hide Net, NetOf, Pendings;
    TotalsAdd(payments, [made], currency);
    OnePayment(made, currency);
    NotCounted(made, currency);
    forall r: nat | r < |payments| ensures payments[r].status != Pending {
      assert r !in Pendings(payments);
    }
    NothingOpen(payments);
    assert (payments + [made])[..|payments|] == payments;
  }
}
