/** Checkout, the provider and its events, interleaved in every way: what an invoice is asked for. */
module CheckoutRuns {
  import opened Basics
  import opened PaymentState
  import opened Webhooks
  import opened Checkout

  /** A PaymentIntent at the provider. Its idempotency key is the attempt number with the amount;
    * asking again with the same key gives the same intent.
    */
  datatype Intent = Intent(
    attempt: nat,
    amount: nat,
    status: IntentStatus,
    declined: bool,
    refunded: nat,
    dispute: Option<string>,
    disputed: nat)

  datatype Phase = Checking | Cancelling | Created(intent: nat)

  /** A checkout holds the invoice's lock from its first read to its end. What it closed is not
    * committed before that, and the rows it wrote are locked.
    */
  datatype Progress = Idle | Working(due: nat, attempt: nat, left: seq<nat>, closed: set<nat>, phase: Phase)

  datatype World = World(ledger: Ledger, intents: seq<Intent>, checkout: Progress)

  datatype What = SaysSucceeded | SaysFailed | SaysCanceled | SaysRefund | SaysDispute

  datatype Step =
    | Begin
    | Inspect
    | Cancel(applied: bool, answered: bool)
    | Create(answered: bool)
    | Commit
    | Rollback
    | Pay(i: nat)
    | Settle(i: nat, received: nat)
    | Decline(i: nat)
    | Void(i: nat)
    | Refund(i: nat, refunded: nat)
    | Dispute(i: nat, status: string, disputed: nat)
    | Deliver(id: Option<nat>, i: nat, what: What)
    | SetStatus(to: InvoiceStatus)

  // ---- the checkout ----

  function Began(w: World): World {
    var l := w.ledger;
    var (refused, due) := DueOrRefusal(l.status, l.total, l.currency, l.payments);
    if w.checkout != Idle || refused.Some? then w
    else w.(checkout := Working(due, |l.payments| + 1, Pendings(l.payments), {}, Checking))
  }

  predicate Busy(w: World, phase: Phase) {
    w.checkout.Working? && w.checkout.phase == phase
  }

  function IntentAt(w: World, r: nat): Option<nat> {
    if r < |w.ledger.payments| && w.ledger.payments[r].intent < |w.intents| then Some(w.ledger.payments[r].intent) else None
  }

  /** The next earlier attempt is read back from the provider and judged. */
  function Inspected(w: World): World {
    if !Busy(w, Checking) || w.checkout.left == [] || IntentAt(w, w.checkout.left[0]) == None then w
    else
      var c, i := w.checkout, w.intents[IntentAt(w, w.checkout.left[0]).value];
      match Judge(Retrieved(true, i.status, i.amount, true, true), c.due)
      case Refuse(_) => w.(checkout := Idle)
      case Reuse => w.(ledger := w.ledger.(payments := Closed(w.ledger.payments, c.closed)), checkout := Idle)
      case Close =>
        if i.status.Payable? then w.(checkout := c.(phase := Cancelling))
        else w.(checkout := c.(left := c.left[1..], closed := c.closed + {c.left[0]}))
  }

  /** The provider is asked to cancel: it refuses once the intent is paid or being processed, and
    * its answer may be lost.
    */
  function CancelRequested(w: World, applied: bool, answered: bool): World {
    if !Busy(w, Cancelling) || w.checkout.left == [] || IntentAt(w, w.checkout.left[0]) == None then w
    else
      var c, k := w.checkout, IntentAt(w, w.checkout.left[0]).value;
      if !applied || !w.intents[k].status.Payable? then w.(checkout := Idle)
      else
        var intents := w.intents[k := w.intents[k].(status := CanceledIntent)];
        if !answered then w.(intents := intents, checkout := Idle)
        else
          w.(intents := intents,
             checkout := c.(left := c.left[1..], closed := c.closed + {c.left[0]}, phase := Checking))
  }

  function FindIntent(intents: seq<Intent>, attempt: nat, amount: nat): (k: nat)
    ensures k <= |intents|
    ensures k < |intents| ==> intents[k].attempt == attempt && intents[k].amount == amount
  {
    if intents == [] || (intents[0].attempt == attempt && intents[0].amount == amount) then 0
    else 1 + FindIntent(intents[1..], attempt, amount)
  }

  function Made(w: World, answered: bool): World {
    if !Busy(w, Checking) || w.checkout.left != [] then w
    else
      var c := w.checkout;
      var k := FindIntent(w.intents, c.attempt, c.due);
      var intents := if k < |w.intents| then w.intents else w.intents + [Intent(c.attempt, c.due, Payable, false, 0, None, 0)];
      w.(intents := intents, checkout := if answered then c.(phase := Created(k)) else Idle)
  }

  function Committed(w: World): World {
    if !w.checkout.Working? || !w.checkout.phase.Created? then w
    else
      var c := w.checkout;
      var payments := Closed(w.ledger.payments, c.closed) + [NewAttempt(c.phase.intent, c.due, w.ledger.currency)];
      w.(ledger := w.ledger.(payments := payments), checkout := Idle)
  }

  // ---- the provider ----

  predicate IsOpen(i: Intent) {
    i.status.Payable? || i.status.Processing?
  }

  /** What customers, banks and the merchant's dashboard do to an intent: it is paid at most once
    * and at most in full; refunds never shrink; one dispute, and a lost one stays lost.
    */
  function Moved(i: Intent, step: Step): Intent {
    match step
    case Pay(_) => if i.status.Payable? then i.(status := Processing) else i
    case Settle(_, received) => if IsOpen(i) && 0 < received <= i.amount then i.(status := SucceededWith(received)) else i
    case Decline(_) => if IsOpen(i) then i.(status := Payable, declined := true) else i
    case Void(_) => if IsOpen(i) then i.(status := CanceledIntent) else i
    case Refund(_, refunded) =>
      if i.status.SucceededWith? && i.refunded <= refunded <= i.status.received then i.(refunded := refunded) else i
    case Dispute(_, status, disputed) =>
      if !i.status.SucceededWith? || disputed > i.status.received then i
      else if i.dispute == None then i.(dispute := Some(status), disputed := disputed)
      else if i.dispute == Some("lost") then i
      else i.(dispute := Some(status))
    case _ => i
  }

  /** The event the provider sends, saying what is so. */
  function EventOf(w: World, i: nat, what: What): Option<Event>
    requires i < |w.intents|
  {
    var intent := w.intents[i];
    match what
    case SaysSucceeded =>
      if intent.status.SucceededWith? then Some(Succeeded(i, Some(w.ledger.invoice), Some(w.ledger.currency), Some(intent.status.received))) else None
    case SaysFailed => if intent.declined then Some(PaymentFailed(i, Some(w.ledger.invoice))) else None
    case SaysCanceled => if intent.status.CanceledIntent? then Some(Canceled(i, Some(w.ledger.invoice))) else None
    case SaysRefund =>
      if intent.status.SucceededWith? then Some(RefundChanged(Charge(Some(i), Some(w.ledger.currency), Some(intent.refunded)))) else None
    case SaysDispute =>
      if intent.dispute.Some? then Some(DisputeChanged(Webhooks.Dispute(Some(i), Some(w.ledger.currency), Some(intent.disputed), intent.dispute))) else None
  }

  predicate IsLocked(w: World, r: nat) {
    w.checkout.Working? && r in w.checkout.closed
  }

  function Delivered(w: World, id: Option<nat>, i: nat, what: What): World {
    if i >= |w.intents| || EventOf(w, i, what) == None || IsLocked(w, FindPayment(w.ledger.payments, Some(i))) then w
    else w.(ledger := Handle(w.ledger, id, EventOf(w, i, what).value).0)
  }

  function Next(w: World, step: Step): World {
    match step
    case Begin => Began(w)
    case Inspect => Inspected(w)
    case Cancel(applied, answered) => CancelRequested(w, applied, answered)
    case Create(answered) => Made(w, answered)
    case Commit => Committed(w)
    case Rollback => w.(checkout := Idle)
    case Deliver(id, i, what) => Delivered(w, id, i, what)
    case SetStatus(to) => w.(ledger := w.ledger.(status := to))
    case _ => if step.i < |w.intents| then w.(intents := w.intents[step.i := Moved(w.intents[step.i], step)]) else w
  }

  function Run(w: World, steps: seq<Step>): World
    decreases |steps|
  {
    if steps == [] then w else Next(Run(w, steps[..|steps| - 1]), steps[|steps| - 1])
  }

  predicate Initial(w: World) {
    w.ledger.payments == [] && w.ledger.total >= 0 && w.intents == [] && w.checkout == Idle
  }

  // ---- late payments ----

  /** A payment marked failed whose intent was paid. */
  predicate IsLateRow(p: Payment, intents: seq<Intent>) {
    p.status == Failed && p.intent < |intents| && intents[p.intent].status.SucceededWith?
  }

  predicate NoLatePayment(w: World) {
    forall r :: 0 <= r < |w.ledger.payments| ==> !IsLateRow(w.ledger.payments[r], w.intents)
  }

  /** No state of the run has a failed payment whose intent was paid. */
  ghost predicate NeverLate(w: World, steps: seq<Step>) {
    forall n :: 0 <= n <= |steps| ==> NoLatePayment(Run(w, steps[..n]))
  }

  function RowStatus(w: World, i: nat): Option<Status> {
    var r := FindPayment(w.ledger.payments, Some(i));
    if r < |w.ledger.payments| then Some(w.ledger.payments[r].status) else None
  }

  /** The customer pays an intent whose payment is marked failed. */
  predicate PaysFailed(w: World, step: Step) {
    && step.Settle? && step.i < |w.intents| && IsOpen(w.intents[step.i]) && 0 < step.received <= w.intents[step.i].amount
    && RowStatus(w, step.i) == Some(Failed)
  }

  /** A `payment_failed` is acted on after the intent was paid, and before the event that says so. */
  predicate FailsPaid(w: World, step: Step) {
    && step.Deliver? && step.what == SaysFailed && (step.id.Some? ==> step.id.value !in w.ledger.recorded)
    && step.i < |w.intents| && w.intents[step.i].status.SucceededWith? && w.intents[step.i].declined
    && RowStatus(w, step.i) == Some(Pending) && !IsLocked(w, FindPayment(w.ledger.payments, Some(step.i)))
  }

  predicate IsLate(w: World, step: Step) {
    PaysFailed(w, step) || FailsPaid(w, step)
  }

  /** What is assumed of a run beyond the provider's own rules: neither happens. */
  ghost predicate Orderly(w: World, steps: seq<Step>) {
    forall n :: 0 <= n < |steps| ==> !IsLate(Run(w, steps[..n]), steps[n])
  }

  /** A checkout starts exactly when none is at work and the invoice may be asked for; it then asks for
    * what is not left of the payments, and has every open attempt, newest first, to look at.
    */
  lemma BeginStarts(w: World)
    requires w.checkout == Idle
    ensures var l, v := w.ledger, Next(w, Begin);
            && v.ledger == l && v.intents == w.intents
            && (v.checkout.Working? <==> !MayNotStart(l.status, l.total, l.currency, l.payments))
            && (v.checkout.Working? ==> v.checkout.due + AllLeft(l.payments, l.currency) == l.total
                                        && v.checkout.attempt == |l.payments| + 1 && v.checkout.closed == {}
                                        && forall r: nat :: r in v.checkout.left <==> r < |l.payments| && l.payments[r].status == Pending)
  {
    hide DueOrRefusal, MayNotStart, AllLeft, Pendings;
    StartsUnless(w.ledger.status, w.ledger.total, w.ledger.currency, w.ledger.payments);
  }

  // ---- what is at stake ----

  /** A payment without a dispute that may still be won. */
  function Firm(p: Payment): Payment {
    if DisputeIsLost(p.dispute) then p else p.(dispute := None)
  }

  /** The most a payment may come to: its amount while it is open, then what is kept of it. */
  function StakeOf(p: Payment, currency: string): nat {
    if p.status == Pending then p.amount else NetOf(Firm(p), currency)
  }

  function StakeAt(payments: seq<Payment>, r: nat, currency: string, skip: set<nat>): nat
    requires r < |payments|
  {
    if r in skip then 0 else StakeOf(payments[r], currency)
  }

  function Stake(payments: seq<Payment>, currency: string, skip: set<nat>): nat {
    if payments == [] then 0
    else Stake(payments[..|payments| - 1], currency, skip) + StakeAt(payments, |payments| - 1, currency, skip)
  }

  lemma {:induction false} StakeAtMost(a: seq<Payment>, b: seq<Payment>, currency: string, skipA: set<nat>, skipB: set<nat>)
    requires |a| == |b|
    requires forall r :: 0 <= r < |a| ==> StakeAt(a, r, currency, skipA) <= StakeAt(b, r, currency, skipB)
    ensures Stake(a, currency, skipA) <= Stake(b, currency, skipB)
    decreases |a|
  {
    hide StakeOf;
    if a != [] {
      var n := |a| - 1;
      forall r | 0 <= r < n ensures StakeAt(a[..n], r, currency, skipA) <= StakeAt(b[..n], r, currency, skipB) {
        assert StakeAt(a, r, currency, skipA) <= StakeAt(b, r, currency, skipB);
      }
      StakeAtMost(a[..n], b[..n], currency, skipA, skipB);
    }
  }

  // ---- the invariant ----

  predicate IntentOk(i: Intent) {
    if i.status.SucceededWith? then
      0 < i.status.received <= i.amount && i.refunded <= i.status.received && (i.dispute.Some? ==> i.disputed <= i.status.received)
    else i.refunded == 0 && i.dispute == None
  }

  predicate Matches(p: Payment, i: Intent) {
    && IntentOk(i)
    && (if p.status == Completed then i.status == SucceededWith(p.amount) else p.amount == i.amount)
    && p.refunded <= i.refunded
    && (DisputeIsLost(p.dispute) ==> i.dispute == p.dispute && p.disputed == i.disputed)
  }

  predicate RowOk(p: Payment, r: nat, intents: seq<Intent>, currency: string) {
    && p.intent < |intents| && intents[p.intent].attempt == r + 1
    && p.currency == currency && !p.review && p.status != RefundedStatus
    && Matches(p, intents[p.intent])
  }

  predicate RowsOk(payments: seq<Payment>, intents: seq<Intent>, currency: string) {
    && (forall r :: 0 <= r < |payments| ==> RowOk(payments[r], r, intents, currency))
    && (forall i :: 0 <= i < |intents| ==> IntentOk(intents[i]))
  }

  predicate AtMostOnePending(payments: seq<Payment>) {
    forall r, s :: 0 <= r < |payments| && 0 <= s < |payments| && payments[r].status == Pending && payments[s].status == Pending ==> r == s
  }

  function Unsure(c: Progress): set<nat>
    requires c.Working?
  {
    (set r | r in c.left) + c.closed
  }

  predicate IsClosed(payments: seq<Payment>, intents: seq<Intent>, r: nat) {
    && r < |payments| && payments[r].status != Completed
    && payments[r].intent < |intents| && intents[payments[r].intent].status.CanceledIntent?
  }

  /** A checkout closes only payments that are not completed and whose intents are cancelled, and has
    * looked at every open one; `bounded`, what is due fits beside everything but those.
    */
  predicate CheckoutOk(w: World, bounded: bool) {
    w.checkout.Working? ==>
      var c, payments := w.checkout, w.ledger.payments;
      && c.attempt == |payments| + 1
      && (bounded ==> c.due + Stake(payments, w.ledger.currency, Unsure(c)) <= w.ledger.total)
      && (forall r :: 0 <= r < |payments| && payments[r].status == Pending ==> r in Unsure(c))
      && (forall r :: r in c.left ==> r < |payments|)
      && (forall r :: r in c.closed ==> IsClosed(payments, w.intents, r))
      && (c.phase.Cancelling? ==> c.left != [])
      && (c.phase.Created? ==> c.left == [] && c.phase.intent < |w.intents|
                               && w.intents[c.phase.intent].attempt == c.attempt && w.intents[c.phase.intent].amount == c.due)
  }

  /** What holds in every state, and, `bounded`, what is at stake where nothing was late. */
  predicate Invariant(w: World, bounded: bool) {
    && RowsOk(w.ledger.payments, w.intents, w.ledger.currency) && CheckoutOk(w, bounded)
    && AtMostOnePending(w.ledger.payments)
    && (bounded ==> Stake(w.ledger.payments, w.ledger.currency, {}) <= w.ledger.total)
  }

  // ---- a checkout keeps it ----

  lemma {:induction false} StakeAtMostNet(payments: seq<Payment>, currency: string, skip: set<nat>)
    requires forall r :: 0 <= r < |payments| ==> StakeAt(payments, r, currency, skip) <= NetOf(payments[r], currency)
    ensures Stake(payments, currency, skip) <= Net(payments, currency)
    decreases |payments|
  {
    hide StakeOf, NetOf;
    if payments != [] {
      var n := |payments| - 1;
      forall r | 0 <= r < n ensures StakeAt(payments[..n], r, currency, skip) <= NetOf(payments[..n][r], currency) {
        assert StakeAt(payments, r, currency, skip) <= NetOf(payments[r], currency);
      }
      StakeAtMostNet(payments[..n], currency, skip);
    }
  }

  /** Without an open dispute, nothing of what is settled can come back. */
  lemma SettledStake(p: Payment, currency: string)
    requires p.status != Pending && !(Counted(p, currency) && DisputeIsOpen(p.dispute))
    ensures StakeOf(p, currency) == NetOf(p, currency)
  {
    hide Lower;
  }

  lemma BeganKeeps(w: World, bounded: bool)
    requires Invariant(w, bounded)
    ensures Invariant(Began(w), bounded)
  {
    hide RowOk, IntentOk, Net, Stake, StakeOf, NetOf, Counted, DisputeIsOpen;
    var l := w.ledger;
    if Began(w) != w {
      var left := Pendings(l.payments);
      var skip := set r | r in left;
      forall r | 0 <= r < |l.payments| ensures StakeAt(l.payments, r, l.currency, skip) <= NetOf(l.payments[r], l.currency) {
        if l.payments[r].status != Pending {
          SettledStake(l.payments[r], l.currency);
        } else {
          assert r in left;
        }
      }
      StakeAtMostNet(l.payments, l.currency, skip);
      assert Unsure(Began(w).checkout) == skip;
    }
  }

  /** Marking closed payments failed, when their intents are cancelled. */
  lemma ClosedKeeps(payments: seq<Payment>, intents: seq<Intent>, currency: string, closed: set<nat>)
    requires RowsOk(payments, intents, currency) && forall r :: r in closed ==> IsClosed(payments, intents, r)
    ensures var after := Closed(payments, closed);
            && RowsOk(after, intents, currency)
            && Stake(after, currency, {}) <= Stake(payments, currency, closed)
            && (AtMostOnePending(payments) ==> AtMostOnePending(after))
            && forall r :: 0 <= r < |after| && after[r].status == Pending ==> r !in closed && payments[r].status == Pending
  {
    hide Stake, StakeOf, IntentOk, Closed;
    var after := Closed(payments, closed);
    forall r | 0 <= r < |after| ensures StakeAt(after, r, currency, {}) <= StakeAt(payments, r, currency, closed) {
      FailedStake(payments[r], currency);
    }
    StakeAtMost(after, payments, currency, {}, closed);
  }

  lemma FailedStake(p: Payment, currency: string)
    ensures StakeOf(p.(status := Failed), currency) == 0
  {
  }

  /** How an intent may change: what it was settled with stays. */
  predicate MovesTo(i: Intent, j: Intent) {
    && j.attempt == i.attempt && j.amount == i.amount && (IntentOk(i) ==> IntentOk(j))
    && (i.status.SucceededWith? || i.status.CanceledIntent? ==> j.status == i.status)
    && i.refunded <= j.refunded
    && (DisputeIsLost(i.dispute) ==> j.dispute == i.dispute && j.disputed == i.disputed)
  }

  lemma MovedMatches(p: Payment, i: Intent, j: Intent)
    requires Matches(p, i) && MovesTo(i, j)
    ensures Matches(p, j)
  {
  }

  predicate AllMove(before: seq<Intent>, after: seq<Intent>) {
    && |before| <= |after|
    && (forall i :: 0 <= i < |before| ==> MovesTo(before[i], after[i]))
    && (forall i :: |before| <= i < |after| ==> IntentOk(after[i]))
  }

  lemma MovesKeep(w: World, intents: seq<Intent>, bounded: bool)
    requires Invariant(w, bounded) && AllMove(w.intents, intents)
    ensures Invariant(w.(intents := intents), bounded)
  {
    hide Stake, Matches, IntentOk, AtMostOnePending;
    var payments := w.ledger.payments;
    forall r | 0 <= r < |payments| ensures RowOk(payments[r], r, intents, w.ledger.currency) {
      MovedMatches(payments[r], w.intents[payments[r].intent], intents[payments[r].intent]);
    }
    assert forall i :: 0 <= i < |w.intents| ==> IntentOk(intents[i]) by { MovedOk(w.intents, intents); }
  }

  lemma MovedOk(before: seq<Intent>, after: seq<Intent>)
    requires AllMove(before, after)
    ensures (forall i :: 0 <= i < |before| ==> IntentOk(before[i])) ==> forall i :: 0 <= i < |after| ==> IntentOk(after[i])
  {
    hide IntentOk;
  }

  lemma OneMoves(intents: seq<Intent>, k: nat, j: Intent)
    requires k < |intents| && MovesTo(intents[k], j)
    ensures AllMove(intents, intents[k := j])
  {
    hide IntentOk;
  }

  lemma ProviderMoves(i: Intent, step: Step)
    ensures MovesTo(i, Moved(i, step))
  {
  }

  lemma LeftFirst(left: seq<nat>, closed: set<nat>)
    requires left != []
    ensures (set r | r in left) + closed == (set r | r in left[1..]) + (closed + {left[0]})
  {
  }

  /** Taking the first attempt off the list once its intent is cancelled. */
  lemma TakenOffKeeps(w: World, bounded: bool)
    requires Invariant(w, bounded) && w.checkout.Working? && w.checkout.left != [] && !w.checkout.phase.Created?
    requires var r := w.checkout.left[0]; IsClosed(w.ledger.payments, w.intents, r)
    ensures var c := w.checkout;
            Invariant(w.(checkout := c.(left := c.left[1..], closed := c.closed + {c.left[0]}, phase := Checking)), bounded)
  {
    hide RowsOk, Stake, AtMostOnePending, IsClosed;
    LeftFirst(w.checkout.left, w.checkout.closed);
    var c := w.checkout;
    var v := w.(checkout := c.(left := c.left[1..], closed := c.closed + {c.left[0]}, phase := Checking));
    assert Unsure(v.checkout) == Unsure(c);
    assert forall r :: r in c.left[1..] ==> r in c.left;
  }

  lemma CancelledIsClosed(payments: seq<Payment>, intents: seq<Intent>, currency: string, r: nat)
    requires RowsOk(payments, intents, currency) && r < |payments|
    requires intents[payments[r].intent].status.CanceledIntent?
    ensures IsClosed(payments, intents, r)
  {
  }

  lemma EndKeeps(w: World, bounded: bool)
    requires Invariant(w, bounded)
    ensures Invariant(w.(checkout := Idle), bounded)
  {
    hide RowsOk, Stake, AtMostOnePending;
  }

  lemma InspectedKeeps(w: World, bounded: bool)
    requires Invariant(w, bounded)
    ensures Invariant(Inspected(w), bounded)
  {
    hide Stake, AtMostOnePending, Matches, IntentOk, Closed, StakeOf;
    EndKeeps(w, bounded);
    if Inspected(w) != w {
      var c, r := w.checkout, w.checkout.left[0];
      var i := w.intents[w.ledger.payments[r].intent];
      match Judge(Retrieved(true, i.status, i.amount, true, true), c.due)
      case Refuse(_) =>
      case Reuse =>
        ClosedKeeps(w.ledger.payments, w.intents, w.ledger.currency, c.closed);
        SkipLowers(w.ledger.payments, w.ledger.currency, c.closed);
      case Close =>
        if !i.status.Payable? {
          CancelledIsClosed(w.ledger.payments, w.intents, w.ledger.currency, r);
          TakenOffKeeps(w, bounded);
        }
    }
  }

  lemma SkipLowers(payments: seq<Payment>, currency: string, skip: set<nat>)
    ensures Stake(payments, currency, skip) <= Stake(payments, currency, {})
  {
    hide StakeOf;
    StakeAtMost(payments, payments, currency, skip, {});
  }

  lemma CancelKeeps(w: World, applied: bool, answered: bool, bounded: bool)
    requires Invariant(w, bounded)
    ensures Invariant(CancelRequested(w, applied, answered), bounded)
  {
    hide Stake, AtMostOnePending, Matches, IntentOk, RowsOk, CheckoutOk;
    EndKeeps(w, bounded);
    if CancelRequested(w, applied, answered) != w {
      var c, r := w.checkout, w.checkout.left[0];
      var k := w.ledger.payments[r].intent;
      if applied && w.intents[k].status.Payable? {
        var intents := w.intents[k := w.intents[k].(status := CanceledIntent)];
        CancelledMoves(w.intents[k]);
        OneMoves(w.intents, k, intents[k]);
        MovesKeep(w, intents, bounded);
        var v := w.(intents := intents);
        EndKeeps(v, bounded);
        CancelledIsClosed(w.ledger.payments, intents, w.ledger.currency, r);
        TakenOffKeeps(v, bounded);
      }
    }
  }

  lemma CancelledMoves(i: Intent)
    requires i.status.Payable?
    ensures MovesTo(i, i.(status := CanceledIntent))
  {
  }

  lemma MadeKeeps(w: World, answered: bool, bounded: bool)
    requires Invariant(w, bounded)
    ensures Invariant(Made(w, answered), bounded)
  {
    hide Stake, AtMostOnePending, Matches, RowsOk;
    if Made(w, answered) != w {
      var c := w.checkout;
      var v := Made(w, answered);
      if FindIntent(w.intents, c.attempt, c.due) == |w.intents| {
        forall i | 0 <= i < |w.intents| ensures MovesTo(w.intents[i], v.intents[i]) {
        }
        MovesKeep(w, v.intents, bounded);
      }
    }
  }

  lemma CommittedKeeps(w: World, bounded: bool)
    requires Invariant(w, bounded)
    ensures Invariant(Committed(w), bounded)
  {
    hide Stake, StakeOf, IntentOk, Closed;
    if Committed(w) != w {
      var c, payments := w.checkout, w.ledger.payments;
      var after := Closed(payments, c.closed);
      assert Unsure(c) == c.closed;
      ClosedKeeps(payments, w.intents, w.ledger.currency, c.closed);
      AttemptAdded(after, w.intents, w.ledger.currency, c.phase.intent, c.due);
    }
  }

  lemma AttemptAdded(payments: seq<Payment>, intents: seq<Intent>, currency: string, k: nat, due: nat)
    requires RowsOk(payments, intents, currency)
    requires k < |intents| && intents[k].attempt == |payments| + 1 && intents[k].amount == due
    requires forall r :: 0 <= r < |payments| ==> payments[r].status != Pending
    ensures var after := payments + [NewAttempt(k, due, currency)];
            && RowsOk(after, intents, currency) && AtMostOnePending(after)
            && Stake(after, currency, {}) == Stake(payments, currency, {}) + due
  {
    hide IntentOk, NetOf;
    var after := payments + [NewAttempt(k, due, currency)];
    assert after[..|after| - 1] == payments;
  }

  // ---- an event keeps it ----

  /** What an event makes of the payment it is for. */
  function RowAfter(p: Payment, invoice: nat, e: Event): Payment {
    match e
    case RefundChanged(c) => RefundedPayment(p, c).0
    case DisputeChanged(d) => DisputedPayment(p, d).0
    case Other => p
    case _ => UpdatedPayment(p, invoice, e).0
  }

  lemma HandleRow(l: Ledger, id: Option<nat>, e: Event)
    ensures var after, r := Handle(l, id, e).0, FindPayment(l.payments, IntentOf(e));
            && after.total == l.total && after.currency == l.currency && after.invoice == l.invoice
            && (after.payments == l.payments ||
                (r < |l.payments| && after.payments == l.payments[r := RowAfter(l.payments[r], l.invoice, e)]))
  {
    hide UpdatedPayment, RefundedPayment, DisputedPayment, Covered;
  }

  /** An event that tells what is so keeps the payment in step with its intent, and never raises
    * what is at stake, unless it says that a failed payment was paid after all.
    */
  lemma EventMatches(w: World, r: nat, i: nat, what: What)
    requires r < |w.ledger.payments| && i < |w.intents| && w.ledger.payments[r].intent == i
    requires RowOk(w.ledger.payments[r], r, w.intents, w.ledger.currency) && EventOf(w, i, what).Some?
    ensures var p := w.ledger.payments[r]; var q := RowAfter(p, w.ledger.invoice, EventOf(w, i, what).value);
            && RowOk(q, r, w.intents, w.ledger.currency)
            && (!IsLateRow(p, w.intents) ==> StakeOf(q, w.ledger.currency) <= StakeOf(p, w.ledger.currency))
            && (q.status == Pending ==> p.status == Pending)
            && (q.status == Completed && p.status != Completed ==> w.intents[i].status.SucceededWith?)
  {
    hide Lower;
    var p, intent := w.ledger.payments[r], w.intents[i];
    match what
    case SaysSucceeded =>
    case SaysFailed =>
    case SaysCanceled =>
    case SaysRefund => RefundLowersStake(p, intent.refunded, w.ledger.currency);
    case SaysDispute => DisputeLowersStake(p, intent.dispute, intent.disputed, w.ledger.currency);
  }

  lemma RefundLowersStake(p: Payment, refunded: nat, currency: string)
    requires p.refunded <= refunded
    ensures StakeOf(p.(refunded := refunded), currency) <= StakeOf(p, currency)
  {
    hide Lower, DisputeIsOpen;
  }

  lemma DisputeLowersStake(p: Payment, dispute: Option<string>, disputed: nat, currency: string)
    requires DisputeIsLost(p.dispute) ==> dispute == p.dispute && disputed == p.disputed
    ensures StakeOf(p.(dispute := dispute, disputed := disputed), currency) <= StakeOf(p, currency)
  {
    hide Lower;
  }

  lemma DeliveredKeeps(w: World, id: Option<nat>, i: nat, what: What, bounded: bool)
    requires Invariant(w, bounded) && (bounded ==> NoLatePayment(w))
    ensures Invariant(Delivered(w, id, i, what), bounded)
  {
    hide Stake, StakeOf, RowOk, IntentOk, Handle, EventOf, RowAfter, NoLatePayment, IsClosed;
    if i < |w.intents| && EventOf(w, i, what).Some? && !IsLocked(w, FindPayment(w.ledger.payments, Some(i))) {
      var e, l := EventOf(w, i, what).value, w.ledger;
      HandleRow(l, id, e);
      EventIntent(w, i, what);
      var r := FindPayment(l.payments, Some(i));
      if Handle(l, id, e).0.payments != l.payments {
        RowIsOk(w, r);
        if bounded { NotLate(w, r); }
        EventMatches(w, r, i, what);
        ReplacedKeeps(w, r, RowAfter(l.payments[r], l.invoice, e), Handle(l, id, e).0, bounded);
      } else {
        SameRowsKeep(w, Handle(l, id, e).0, bounded);
      }
    }
  }

  lemma EventIntent(w: World, i: nat, what: What)
    requires i < |w.intents| && EventOf(w, i, what).Some?
    ensures IntentOf(EventOf(w, i, what).value) == Some(i)
  {
  }

  lemma NotLate(w: World, r: nat)
    requires NoLatePayment(w) && r < |w.ledger.payments|
    ensures !IsLateRow(w.ledger.payments[r], w.intents)
  {
  }

  lemma RowIsOk(w: World, r: nat)
    requires RowsOk(w.ledger.payments, w.intents, w.ledger.currency) && r < |w.ledger.payments|
    ensures RowOk(w.ledger.payments[r], r, w.intents, w.ledger.currency)
  {
    hide RowOk, IntentOk;
  }

  lemma SameRowsKeep(w: World, l: Ledger, bounded: bool)
    requires Invariant(w, bounded) && l.payments == w.ledger.payments && l.total == w.ledger.total && l.currency == w.ledger.currency
    ensures Invariant(w.(ledger := l), bounded)
  {
    hide RowsOk, Stake, AtMostOnePending, IsClosed;
  }

  /** Replacing a row that no checkout has closed by one with no more at stake. */
  lemma ReplacedKeeps(w: World, r: nat, q: Payment, l: Ledger, bounded: bool)
    requires Invariant(w, bounded) && r < |w.ledger.payments| && !IsLocked(w, r)
    requires l.payments == w.ledger.payments[r := q] && l.total == w.ledger.total && l.currency == w.ledger.currency
    requires RowOk(q, r, w.intents, w.ledger.currency) && (q.status == Pending ==> w.ledger.payments[r].status == Pending)
    requires bounded ==> StakeOf(q, w.ledger.currency) <= StakeOf(w.ledger.payments[r], w.ledger.currency)
    ensures Invariant(w.(ledger := l), bounded)
  {
    hide Stake, StakeOf, RowOk, IntentOk;
    if bounded {
      ReplacedStake(w.ledger.payments, r, q, w.ledger.currency, {});
      if w.checkout.Working? { ReplacedStake(w.ledger.payments, r, q, w.ledger.currency, Unsure(w.checkout)); }
    }
  }

  lemma ReplacedStake(payments: seq<Payment>, r: nat, q: Payment, currency: string, skip: set<nat>)
    requires r < |payments| && StakeOf(q, currency) <= StakeOf(payments[r], currency)
    ensures Stake(payments[r := q], currency, skip) <= Stake(payments, currency, skip)
  {
    hide StakeOf;
    StakeAtMost(payments[r := q], payments, currency, skip, skip);
  }

  // ---- what makes a payment late ----

  /** An intent has at most one row. */
  lemma OneRow(w: World, r: nat)
    requires RowsOk(w.ledger.payments, w.intents, w.ledger.currency) && r < |w.ledger.payments|
    ensures FindPayment(w.ledger.payments, Some(w.ledger.payments[r].intent)) == r
  {
    hide Matches, IntentOk;
    var f := FindPayment(w.ledger.payments, Some(w.ledger.payments[r].intent));
    assert RowOk(w.ledger.payments[r], r, w.intents, w.ledger.currency) && RowOk(w.ledger.payments[f], f, w.intents, w.ledger.currency);
  }

  lemma MoveLate(w: World, k: nat, j: Intent)
    requires Invariant(w, false) && NoLatePayment(w) && k < |w.intents| && MovesTo(w.intents[k], j)
    ensures NoLatePayment(w.(intents := w.intents[k := j])) <==>
            !(j.status.SucceededWith? && !w.intents[k].status.SucceededWith? && RowStatus(w, k) == Some(Failed))
  {
    hide RowsOk, CheckoutOk, AtMostOnePending, IntentOk;
    var payments := w.ledger.payments;
    var v := w.(intents := w.intents[k := j]);
    var f := FindPayment(payments, Some(k));
    if f < |payments| {
      assert IsLateRow(payments[f], v.intents) <==> payments[f].status == Failed && j.status.SucceededWith?;
      assert !IsLateRow(payments[f], w.intents);
    }
    forall r | 0 <= r < |payments| && r != f ensures !IsLateRow(payments[r], v.intents) {
      OneRow(w, r);
      assert !IsLateRow(payments[r], w.intents);
    }
  }

  lemma ProviderLate(w: World, step: Step)
    requires Invariant(w, false) && NoLatePayment(w)
    requires step.Pay? || step.Settle? || step.Decline? || step.Void? || step.Refund? || step.Dispute?
    ensures NoLatePayment(Next(w, step)) <==> !PaysFailed(w, step)
  {
    hide Invariant, NoLatePayment, RowStatus, MovesTo;
    if step.i < |w.intents| {
      ProviderMoves(w.intents[step.i], step);
      MoveLate(w, step.i, Moved(w.intents[step.i], step));
    }
  }

  /** Closing payments whose intents are cancelled makes none late, nor does a new attempt. */
  lemma ClosedLate(w: World, closed: set<nat>, l: Ledger)
    requires NoLatePayment(w) && forall r :: r in closed ==> IsClosed(w.ledger.payments, w.intents, r)
    requires var after := Closed(w.ledger.payments, closed);
             l.payments == after || exists k, due, currency :: l.payments == after + [NewAttempt(k, due, currency)]
    ensures NoLatePayment(w.(ledger := l, checkout := Idle))
  {
    var payments := w.ledger.payments;
    forall r | 0 <= r < |l.payments| ensures !IsLateRow(l.payments[r], w.intents) {
      if r < |payments| {
        assert !IsLateRow(payments[r], w.intents);
        assert r in closed ==> IsClosed(payments, w.intents, r);
      }
    }
  }

  lemma CheckoutNotLate(w: World, step: Step)
    requires Invariant(w, false) && NoLatePayment(w)
    requires step.Begin? || step.Inspect? || step.Cancel? || step.Create? || step.Commit? || step.Rollback? || step.SetStatus?
    ensures NoLatePayment(Next(w, step))
  {
    hide RowsOk, AtMostOnePending, IsClosed, Closed, RowStatus, IsLateRow, Pendings, Net, HasOpenDispute;
    var v := Next(w, step);
    match step
    case Inspect =>
      if v.ledger != w.ledger { ClosedLate(w, w.checkout.closed, v.ledger); }
    case Commit =>
      if v.ledger != w.ledger {
        var c := w.checkout;
        assert v.ledger.payments == Closed(w.ledger.payments, c.closed) + [NewAttempt(c.phase.intent, c.due, w.ledger.currency)];
        ClosedLate(w, c.closed, v.ledger);
      }
    case Cancel(_, _) =>
      if v.intents != w.intents {
        var k := IntentAt(w, w.checkout.left[0]).value;
        CancelledMoves(w.intents[k]);
        MoveLate(w, k, v.intents[k]);
      }
    case Create(_) => MadeLate(w, v.intents);
    case _ =>
  }

  lemma MadeLate(w: World, intents: seq<Intent>)
    requires NoLatePayment(w) && (intents == w.intents || exists i: Intent :: i.status == Payable && intents == w.intents + [i])
    ensures forall r :: 0 <= r < |w.ledger.payments| ==> !IsLateRow(w.ledger.payments[r], intents)
  {
    forall r | 0 <= r < |w.ledger.payments| ensures !IsLateRow(w.ledger.payments[r], intents) {
      assert !IsLateRow(w.ledger.payments[r], w.intents);
    }
  }

  /** Which event, acted on, marks a paid attempt failed. */
  lemma RowLate(w: World, r: nat, i: nat, what: What)
    requires r < |w.ledger.payments| && i < |w.intents| && w.ledger.payments[r].intent == i
    requires RowOk(w.ledger.payments[r], r, w.intents, w.ledger.currency) && EventOf(w, i, what).Some?
    requires !IsLateRow(w.ledger.payments[r], w.intents)
    ensures var p := w.ledger.payments[r]; var q := RowAfter(p, w.ledger.invoice, EventOf(w, i, what).value);
            && q.intent == p.intent
            && (IsLateRow(q, w.intents) <==> what == SaysFailed && w.intents[i].status.SucceededWith? && p.status == Pending)
  {
    hide Lower;
  }

  lemma HandledRow(l: Ledger, id: Option<nat>, e: Event)
    requires !(id.Some? && id.value in l.recorded)
    ensures var after, r := Handle(l, id, e).0, FindPayment(l.payments, IntentOf(e));
            after.payments == if r < |l.payments| then l.payments[r := RowAfter(l.payments[r], l.invoice, e)] else l.payments
  {
    hide UpdatedPayment, RefundedPayment, DisputedPayment, Covered;
  }

  lemma DeliveryLate(w: World, id: Option<nat>, i: nat, what: What)
    requires Invariant(w, false) && NoLatePayment(w)
    ensures NoLatePayment(Delivered(w, id, i, what)) <==> !FailsPaid(w, Deliver(id, i, what))
  {
    hide CheckoutOk, AtMostOnePending, RowOk, IntentOk, Handle, EventOf, RowAfter, IsLateRow, NoLatePayment, IsLocked;
    var r := FindPayment(w.ledger.payments, Some(i));
    SaysFailedOf(w, i, what);
    if i < |w.intents| && EventOf(w, i, what).Some? && !IsLocked(w, r) && !(id.Some? && id.value in w.ledger.recorded) {
      var e := EventOf(w, i, what).value;
      EventIntent(w, i, what);
      HandledRow(w.ledger, id, e);
      if r < |w.ledger.payments| {
        NotLate(w, r);
        RowLate(w, r, i, what);
        ReplacedLate(w, r, RowAfter(w.ledger.payments[r], w.ledger.invoice, e), Handle(w.ledger, id, e).0);
      } else {
        SameLate(w, Handle(w.ledger, id, e).0);
      }
    } else {
      Ignored(w, id, i, what);
    }
  }

  lemma SaysFailedOf(w: World, i: nat, what: What)
    ensures i < |w.intents| && what == SaysFailed ==> (EventOf(w, i, what).Some? <==> w.intents[i].declined)
  {
  }

  lemma Ignored(w: World, id: Option<nat>, i: nat, what: What)
    requires !(i < |w.intents| && EventOf(w, i, what).Some? && !IsLocked(w, FindPayment(w.ledger.payments, Some(i))))
             || (id.Some? && id.value in w.ledger.recorded)
    ensures Delivered(w, id, i, what) == w
  {
  }

  lemma ReplacedLate(w: World, r: nat, q: Payment, l: Ledger)
    requires NoLatePayment(w) && r < |w.ledger.payments| && l.payments == w.ledger.payments[r := q]
    ensures NoLatePayment(w.(ledger := l)) <==> !IsLateRow(q, w.intents)
  {
    hide IsLateRow;
    assert l.payments[r] == q;
  }

  lemma SameLate(w: World, l: Ledger)
    requires NoLatePayment(w) && l.payments == w.ledger.payments
    ensures NoLatePayment(w.(ledger := l))
  {
  }

  /** Exactly these two steps leave a failed payment whose intent was paid. */
  lemma NextLate(w: World, step: Step)
    requires Invariant(w, false) && NoLatePayment(w)
    ensures NoLatePayment(Next(w, step)) <==> !IsLate(w, step)
  {
    hide Invariant, NoLatePayment, Moved, Began, Inspected, CancelRequested, Made, Committed, Delivered, RowStatus, IsOpen, IsLocked;
    match step
    case Deliver(id, i, what) => DeliveryLate(w, id, i, what);
    case Begin => CheckoutNotLate(w, step);
    case Inspect => CheckoutNotLate(w, step);
    case Cancel(_, _) => CheckoutNotLate(w, step);
    case Create(_) => CheckoutNotLate(w, step);
    case Commit => CheckoutNotLate(w, step);
    case Rollback => CheckoutNotLate(w, step);
    case SetStatus(_) => CheckoutNotLate(w, step);
    case _ => ProviderLate(w, step);
  }

  // ---- every run ----

  /** Every step keeps the invariant, and, as long as nothing was late and the step is not, also what
    * it says of the amounts.
    */
  lemma NextKeeps(w: World, step: Step, bounded: bool)
    requires Invariant(w, bounded) && (bounded ==> NoLatePayment(w) && !IsLate(w, step))
    ensures Invariant(Next(w, step), bounded) && (bounded ==> NoLatePayment(Next(w, step)))
  {
    if bounded {
      Weaker(w);
      NextLate(w, step);
    }
    hide Invariant, NoLatePayment, Moved, Began, Inspected, CancelRequested, Made, Committed, Delivered, IsLate;
    match step
    case Begin => BeganKeeps(w, bounded);
    case Inspect => InspectedKeeps(w, bounded);
    case Cancel(applied, answered) => CancelKeeps(w, applied, answered, bounded);
    case Create(answered) => MadeKeeps(w, answered, bounded);
    case Commit => CommittedKeeps(w, bounded);
    case Rollback => EndKeeps(w, bounded);
    case Deliver(id, i, what) => DeliveredKeeps(w, id, i, what, bounded);
    case SetStatus(to) => SameRowsKeep(w, w.ledger.(status := to), bounded);
    case _ => MoveKeeps(w, step, bounded);
  }

  lemma Weaker(w: World)
    requires Invariant(w, true)
    ensures Invariant(w, false)
  {
    hide RowsOk, Stake, AtMostOnePending, IsClosed;
  }

  lemma MoveKeeps(w: World, step: Step, bounded: bool)
    requires Invariant(w, bounded) && (step.Pay? || step.Settle? || step.Decline? || step.Void? || step.Refund? || step.Dispute?)
    ensures Invariant(Next(w, step), bounded)
  {
    hide Invariant, Moved, MovesTo;
    if step.i < |w.intents| {
      ProviderMoves(w.intents[step.i], step);
      OneMoves(w.intents, step.i, Moved(w.intents[step.i], step));
      MovesKeep(w, w.intents[step.i := Moved(w.intents[step.i], step)], bounded);
    }
  }

  lemma OrderlyBefore(w: World, steps: seq<Step>)
    requires steps != []
    ensures Orderly(w, steps) <==> Orderly(w, steps[..|steps| - 1]) && !IsLate(Run(w, steps[..|steps| - 1]), steps[|steps| - 1])
  {
    hide Next, IsLate, Run;
    var n := |steps| - 1;
    assert forall i :: 0 <= i <= n ==> steps[..n][..i] == steps[..i];
    assert steps[..n][..n] == steps[..n];
    if Orderly(w, steps[..n]) && !IsLate(Run(w, steps[..n]), steps[n]) {
      forall i | 0 <= i < |steps| ensures !IsLate(Run(w, steps[..i]), steps[i]) {
        if i < n { assert !IsLate(Run(w, steps[..n][..i]), steps[..n][i]); }
      }
    }
    if Orderly(w, steps) {
      assert !IsLate(Run(w, steps[..n]), steps[n]);
      forall i | 0 <= i < n ensures !IsLate(Run(w, steps[..n][..i]), steps[..n][i]) {
        assert !IsLate(Run(w, steps[..i]), steps[i]);
      }
    }
  }

  lemma {:induction false} RunKeeps(w: World, steps: seq<Step>, bounded: bool)
    requires Invariant(w, bounded) && (bounded ==> NoLatePayment(w) && Orderly(w, steps))
    ensures Invariant(Run(w, steps), bounded) && (bounded ==> NoLatePayment(Run(w, steps)))
    decreases |steps|
  {
    hide Next, NoLatePayment, IsLate, Invariant, Orderly;
    if steps != [] {
      var before := steps[..|steps| - 1];
      OrderlyBefore(w, steps);
      RunKeeps(w, before, bounded);
      NextKeeps(Run(w, before), steps[|before|], bounded);
    }
  }

  lemma StartsOk(w: World)
    requires Initial(w)
    ensures Invariant(w, true) && Invariant(w, false) && NoLatePayment(w)
  {
  }

  lemma NeverLateBefore(w: World, steps: seq<Step>)
    requires steps != []
    ensures NeverLate(w, steps) <==> NeverLate(w, steps[..|steps| - 1]) && NoLatePayment(Run(w, steps))
  {
    hide Next, NoLatePayment, Run;
    var before := steps[..|steps| - 1];
    assert steps[..|steps|] == steps;
    assert forall n :: 0 <= n <= |before| ==> before[..n] == steps[..n];
    if NeverLate(w, steps) {
      forall n | 0 <= n <= |before| ensures NoLatePayment(Run(w, before[..n])) {
        assert NoLatePayment(Run(w, steps[..n]));
      }
      assert NoLatePayment(Run(w, steps[..|steps|]));
    }
    if NeverLate(w, before) && NoLatePayment(Run(w, steps)) {
      forall n | 0 <= n <= |steps| ensures NoLatePayment(Run(w, steps[..n])) {
        if n <= |before| { assert NoLatePayment(Run(w, before[..n])); }
      }
    }
  }

  /** A run never has a failed payment whose intent was paid exactly when no step of it is late. */
  lemma {:induction false} OrderlyIsNeverLate(w: World, steps: seq<Step>)
    requires Initial(w)
    ensures NeverLate(w, steps) <==> Orderly(w, steps)
    decreases |steps|
  {
    hide Next, NoLatePayment, IsLate, Invariant, Orderly;
    StartsOk(w);
    if steps != [] {
      hide NeverLate;
      var before := steps[..|steps| - 1];
      OrderlyIsNeverLate(w, before);
      OrderlyBefore(w, steps);
      NeverLateBefore(w, steps);
      if NeverLate(w, before) {
        RunKeeps(w, before, false);
        LastNotLate(w, before);
        NextLate(Run(w, before), steps[|before|]);
      }
    } else {
      assert NeverLate(w, steps) by { assert forall n :: 0 <= n <= 0 ==> steps[..n] == steps; }
      NothingLate(w);
    }
  }

  lemma NothingLate(w: World)
    ensures Orderly(w, [])
  {
  }

  lemma LastNotLate(w: World, steps: seq<Step>)
    requires NeverLate(w, steps)
    ensures NoLatePayment(Run(w, steps))
  {
    hide NoLatePayment, Run;
    assert steps[..|steps|] == steps;
  }

  /** What the customer is asked for beyond what was paid: the open attempts. */
  function OpenAmount(payments: seq<Payment>): nat {
    if payments == [] then 0
    else
      var n := |payments| - 1;
      OpenAmount(payments[..n]) + if payments[n].status == Pending then payments[n].amount else 0
  }

  lemma {:induction false} NetAndOpen(payments: seq<Payment>, currency: string)
    ensures Net(payments, currency) + OpenAmount(payments) <= Stake(payments, currency, {})
  {
    hide StakeOf, NetOf;
    if payments != [] {
      var n := |payments| - 1;
      NetAndOpen(payments[..n], currency);
      OneAtStake(payments[n], currency);
    }
  }

  lemma OneAtStake(p: Payment, currency: string)
    ensures NetOf(p, currency) + (if p.status == Pending then p.amount else 0) <= StakeOf(p, currency)
  {
    hide Lower;
  }

  /** What the provider has collected for an intent and not given back. */
  function KeptOf(i: Intent): nat {
    if !i.status.SucceededWith? || i.refunded > i.status.received then 0
    else
      var rest := i.status.received - i.refunded;
      if DisputeIsLost(i.dispute) then rest - Min(if i.disputed != 0 then i.disputed else rest, rest) else rest
  }

  function Kept(payments: seq<Payment>, intents: seq<Intent>): nat {
    if payments == [] then 0
    else
      var p := payments[|payments| - 1];
      Kept(payments[..|payments| - 1], intents) + if p.intent < |intents| then KeptOf(intents[p.intent]) else 0
  }

  lemma {:induction false} KeptAtMost(payments: seq<Payment>, intents: seq<Intent>, currency: string)
    requires RowsOk(payments, intents, currency)
    requires forall r :: 0 <= r < |payments| ==> !IsLateRow(payments[r], intents)
    ensures Kept(payments, intents) <= Stake(payments, currency, {})
    decreases |payments|
  {
    hide StakeOf, KeptOf, Matches, IntentOk;
    if payments != [] {
      var n := |payments| - 1;
      assert !IsLateRow(payments[n], intents);
      KeptAtMost(payments[..n], intents, currency);
      KeptOne(payments[n], intents[payments[n].intent], currency);
    }
  }

  lemma KeptOne(p: Payment, i: Intent, currency: string)
    requires Matches(p, i) && p.currency == currency && !p.review && p.status != RefundedStatus
    requires p.status == Failed ==> !i.status.SucceededWith?
    ensures KeptOf(i) <= StakeOf(p, currency)
  {
    hide Lower;
  }

  /** An invoice is never asked for more than is due. In every state reached by any interleaving of
    * checkouts, customers, banks and events at most one attempt is open; and as long as no payment
    * marked failed is paid and none is marked failed after it was: what was paid, net, and the open
    * attempt together do not exceed the total, and neither does what the provider has collected
    * for the intents of the payments and not given back.
    */
  lemma NeverMoreThanDue(w: World, steps: seq<Step>)
    requires Initial(w)
    ensures var l := Run(w, steps).ledger;
            && AtMostOnePending(l.payments)
            && (Orderly(w, steps) ==>
                  && Net(l.payments, l.currency) + OpenAmount(l.payments) <= l.total
                  && Kept(l.payments, Run(w, steps).intents) <= l.total)
  {
    hide Stake, Kept, OpenAmount, Net, IsLateRow, Orderly, RowOk, IntentOk, Run;
    StartsOk(w);
    RunKeeps(w, steps, false);
    if Orderly(w, steps) {
      RunKeeps(w, steps, true);
      var v := Run(w, steps);
      NetAndOpen(v.ledger.payments, v.ledger.currency);
      KeptAtMost(v.ledger.payments, v.intents, v.ledger.currency);
    }
  }

  /** A checkout that closes an attempt never writes over a completed payment, although its update
    * does not look at the status.
    */
  lemma ClosesNothingCompleted(w: World, steps: seq<Step>, r: nat)
    requires Initial(w)
    requires var v := Run(w, steps); v.checkout.Working? && r in v.checkout.closed
    ensures var v := Run(w, steps); IsClosed(v.ledger.payments, v.intents, r)
  {
    hide Stake, NoLatePayment, RowsOk, Next, Run, IsClosed, IsLate;
    StartsOk(w);
    RunKeeps(w, steps, false);
  }

  // ---- what was closed stays unpaid ----

  /** The intents of the payments stay theirs, and what was cancelled stays cancelled. */
  predicate Follows(w: World, v: World) {
    && |w.ledger.payments| <= |v.ledger.payments| && |w.intents| <= |v.intents|
    && (forall r :: 0 <= r < |w.ledger.payments| ==> v.ledger.payments[r].intent == w.ledger.payments[r].intent)
    && (forall k :: 0 <= k < |w.intents| && w.intents[k].status.CanceledIntent? ==> v.intents[k].status.CanceledIntent?)
  }

  lemma HandledIntents(l: Ledger, id: Option<nat>, e: Event)
    ensures var after := Handle(l, id, e).0.payments;
            |after| == |l.payments| && forall r :: 0 <= r < |after| ==> after[r].intent == l.payments[r].intent
  {
    HandleRow(l, id, e);
    hide Handle;
  }

  lemma NextFollows(w: World, step: Step)
    ensures Follows(w, Next(w, step))
  {
    hide Pendings, Net, HasOpenDispute, Handle, Lower, FindIntent;
    if step.Deliver? && step.i < |w.intents| && EventOf(w, step.i, step.what).Some? {
      HandledIntents(w.ledger, step.id, EventOf(w, step.i, step.what).value);
    }
  }

  lemma {:induction false} RunFollows(w: World, steps: seq<Step>)
    ensures Follows(w, Run(w, steps))
    decreases |steps|
  {
    hide Next;
    if steps != [] {
      RunFollows(w, steps[..|steps| - 1]);
      NextFollows(Run(w, steps[..|steps| - 1]), steps[|steps| - 1]);
    }
  }

  /** What a checkout closed is not paid any more: whatever happens afterwards, its intent stays
    * cancelled and its payment is never completed.
    */
  lemma ClosedIsNeverPaid(w: World, steps: seq<Step>, more: seq<Step>, r: nat)
    requires Initial(w)
    requires var v := Run(w, steps); v.checkout.Working? && r in v.checkout.closed
    ensures var u := Run(Run(w, steps), more); IsClosed(u.ledger.payments, u.intents, r)
  {
    hide Run, RowsOk, CheckoutOk, Follows, NoLatePayment, IsLate, IsClosed;
    ClosesNothingCompleted(w, steps, r);
    StartsOk(w);
    RunKeeps(w, steps, false);
    RunKeeps(Run(w, steps), more, false);
    RunFollows(Run(w, steps), more);
    StaysClosed(Run(w, steps), Run(Run(w, steps), more), r);
  }

  lemma StaysClosed(w: World, v: World, r: nat)
    requires Follows(w, v) && RowsOk(v.ledger.payments, v.intents, v.ledger.currency) && IsClosed(w.ledger.payments, w.intents, r)
    ensures IsClosed(v.ledger.payments, v.intents, r)
  {
    hide IntentOk;
    assert RowOk(v.ledger.payments[r], r, v.intents, v.ledger.currency);
  }

  // ---- what one delivery brings ----

  /** However earlier events arrived, or did not: one delivered refund event leaves the payment with
    * the amount the provider has refunded, and one dispute event with the provider's dispute.
    */
  lemma DeliveryCatchesUp(w: World, id: Option<nat>, i: nat)
    requires Invariant(w, false) && i < |w.intents| && w.intents[i].status.SucceededWith?
    requires var r := FindPayment(w.ledger.payments, Some(i)); r < |w.ledger.payments| && !IsLocked(w, r)
    requires id.Some? ==> id.value !in w.ledger.recorded
    ensures var r := FindPayment(w.ledger.payments, Some(i));
            var after := Delivered(w, id, i, SaysRefund).ledger.payments;
            after == w.ledger.payments[r := w.ledger.payments[r].(refunded := w.intents[i].refunded)]
    ensures var r := FindPayment(w.ledger.payments, Some(i));
            var after := Delivered(w, id, i, SaysDispute).ledger.payments;
            w.intents[i].dispute.Some? ==>
              after == w.ledger.payments[r := w.ledger.payments[r].(dispute := w.intents[i].dispute, disputed := w.intents[i].disputed)]
  {
    hide Stake, CheckoutOk, UpdatedPayment, Lower;
    var r := FindPayment(w.ledger.payments, Some(i));
    var p := w.ledger.payments[r];
    assert RowOk(p, r, w.intents, w.ledger.currency);
    assert p.(refunded := p.refunded) == p && p.(dispute := p.dispute, disputed := p.disputed) == p;
  }

  // ---- and never for less ----

  lemma {:induction false} ClosesAll(left: seq<nat>, answers: seq<Answer>, due: nat, closed: set<nat>)
    requires |answers| == |left| && CheckAll(left, answers, due, closed).AllClosed?
    ensures CheckAll(left, answers, due, closed).closed == closed + set i | i in left
    decreases |left|
  {
    if left != [] {
      ClosesAll(left[1..], answers[1..], due, closed + {left[0]});
      assert forall i :: i in left <==> i == left[0] || i in left[1..];
    }
  }

  lemma {:induction false} NothingOpen(payments: seq<Payment>)
    requires forall r :: 0 <= r < |payments| ==> payments[r].status != Pending
    ensures OpenAmount(payments) == 0
    decreases |payments|
  {
    if payments != [] { NothingOpen(payments[..|payments| - 1]); }
  }

  lemma {:induction false} ClosingKeepsNet(payments: seq<Payment>, closed: set<nat>, currency: string)
    requires forall r :: 0 <= r < |payments| && r in closed ==> payments[r].status == Pending
    ensures Net(Closed(payments, closed), currency) == Net(payments, currency)
    decreases |payments|
  {
    hide NetOf;
    if payments != [] {
      var n := |payments| - 1;
      assert Closed(payments, closed)[..n] == Closed(payments[..n], closed);
      ClosingKeepsNet(payments[..n], closed, currency);
      NotCounted(payments[n], currency);
    }
  }

  lemma NotCounted(p: Payment, currency: string)
    ensures p.status == Pending ==> NetOf(p, currency) == 0 && NetOf(p.(status := Failed), currency) == 0
  {
  }

  /** A new attempt asks for exactly what is due: with it, net and open amount are the total. */
  lemma NewAttemptIsForTheRest(payments: seq<Payment>, total: int, currency: string, status: InvoiceStatus, answers: seq<Answer>, intent: nat)
    requires |answers| == |Pendings(payments)| && DueOrRefusal(status, total, currency, payments).0 == None
    requires CheckAll(Pendings(payments), answers, DueOrRefusal(status, total, currency, payments).1, {}).AllClosed?
    ensures var due := DueOrRefusal(status, total, currency, payments).1;
            var closed := CheckAll(Pendings(payments), answers, due, {}).closed;
            var after := Closed(payments, closed) + [NewAttempt(intent, due, currency)];
            && Net(after, currency) + OpenAmount(after) == total
            && forall r :: 0 <= r < |after| - 1 ==> after[r].status != Pending
  {
    hide Net, Pendings, CheckAll, HasOpenDispute, NetOf, Closed;
    var due := DueOrRefusal(status, total, currency, payments).1;
    var closed := CheckAll(Pendings(payments), answers, due, {}).closed;
    ClosesAll(Pendings(payments), answers, due, {});
    assert forall r: nat :: r in closed <==> r in Pendings(payments);
    var before, made := Closed(payments, closed), NewAttempt(intent, due, currency);
    ClosingKeepsNet(payments, closed, currency);
    NothingOpen(before);
    TotalsAdd(before, [made], currency);
    OnePayment(made, currency);
    NotCounted(made, currency);
    assert (before + [made])[..|before|] == before;
  }
}
