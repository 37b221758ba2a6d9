/** Events of the payment provider, as they change the payments and the status of one invoice. */
module Webhooks {
  import opened Basics
  import opened PaymentState

  datatype InvoiceStatus = Draft | Sent | Overdue | Paid | Cancelled

  /** The invoice, its payments, and the ids of the events acted on. */
  datatype Ledger = Ledger(
    invoice: nat,
    total: int,
    currency: string,
    status: InvoiceStatus,
    payments: seq<Payment>,
    recorded: set<nat>)

  /** A verified event. `invoice` is what the intent's metadata names, if anything; the amount
    * received and the currency are None when they are missing or not a whole number.
    */
  datatype Event =
    | Succeeded(intent: nat, invoice: Option<nat>, currency: Option<string>, received: Option<int>)
    | PaymentFailed(intent: nat, invoice: Option<nat>)
    | Canceled(intent: nat, invoice: Option<nat>)
    | RefundChanged(charge: Charge)
    | DisputeChanged(object: Dispute)
    | Other

  /** A charge and a dispute as the provider holds them when the event is handled. */
  datatype Charge = Charge(intent: Option<nat>, currency: Option<string>, refunded: Option<int>)
  datatype Dispute = Dispute(intent: Option<nat>, currency: Option<string>, amount: Option<int>, status: Option<string>)

  datatype Result = Applied | Duplicate | Stale | UnknownPayment | Mismatch | Ignored

  predicate IsIntentEvent(e: Event) {
    e.Succeeded? || e.PaymentFailed? || e.Canceled?
  }

  /** The intent an event is about. */
  function IntentOf(e: Event): Option<nat> {
    match e
    case Succeeded(intent, _, _, _) => Some(intent)
    case PaymentFailed(intent, _) => Some(intent)
    case Canceled(intent, _) => Some(intent)
    case RefundChanged(c) => c.intent
    case DisputeChanged(d) => d.intent
    case Other => None
  }

  // ---- one payment ----

  predicate SameCurrency(currency: Option<string>, p: Payment) {
    currency.Some? && Lower(currency.value) == Lower(p.currency)
  }

  /** Whether the event says how much arrived, in the payment's currency. */
  predicate IsReceived(e: Event, p: Payment) {
    e.Succeeded? && SameCurrency(e.currency, p) && e.received.Some? && e.received.value > 0
  }

  predicate NamesOther(e: Event, invoice: nat)
    requires IsIntentEvent(e)
  {
    e.invoice.Some? && e.invoice.value != invoice
  }

  function StatusFor(e: Event): Status {
    if e.Succeeded? then Completed else Failed
  }

  function UpdatedPayment(p: Payment, invoice: nat, e: Event): (Payment, Result)
    requires IsIntentEvent(e)
  {
    if NamesOther(e, invoice) then (p, Mismatch)
    else if p.status == StatusFor(e) then (p, Duplicate)
    else if p.status == Completed || p.status == RefundedStatus then (p, Stale)
    else if !e.Succeeded? then (p.(status := Failed), Applied)
    else if IsReceived(e, p) then (p.(status := Completed, amount := e.received.value), Applied)
    else (p.(review := true), Mismatch)
  }

  function RefundedPayment(p: Payment, c: Charge): (Payment, Result) {
    if !SameCurrency(c.currency, p) || c.refunded == None || c.refunded.value < 0 || c.refunded.value > p.amount then (p, Mismatch)
    else if p.refunded == c.refunded.value then (p, Duplicate)
    else (p.(refunded := c.refunded.value), Applied)
  }

  function DisputedPayment(p: Payment, d: Dispute): (Payment, Result) {
    if !SameCurrency(d.currency, p) || d.amount == None || d.amount.value < 0 || d.amount.value > p.amount || d.status == None then (p, Mismatch)
    else if p.dispute == d.status && p.disputed == d.amount.value then (p, Duplicate)
    else (p.(dispute := d.status, disputed := d.amount.value), Applied)
  }

  // ---- the ledger ----

  predicate IsFirstOf(payments: seq<Payment>, intent: nat, i: nat) {
    i < |payments| && payments[i].intent == intent && forall j :: 0 <= j < i ==> payments[j].intent != intent
  }

  function FindPayment(payments: seq<Payment>, intent: Option<nat>): (i: nat)
    ensures i <= |payments|
    ensures i < |payments| ==> intent.Some? && IsFirstOf(payments, intent.value, i)
    ensures i == |payments| ==> forall j :: 0 <= j < |payments| ==> intent != Some(payments[j].intent)
  {
    if payments == [] || intent == Some(payments[0].intent) then 0 else 1 + FindPayment(payments[1..], intent)
  }

  predicate Covered(l: Ledger) {
    Net(l.payments, l.currency) >= l.total
  }

  function MarkedIfCovered(l: Ledger): Ledger {
    if l.status != Paid && Covered(l) then l.(status := Paid) else l
  }

  function Apply(l: Ledger, e: Event): (Ledger, Result) {
    match e
    case Other => (l, Ignored)
    case RefundChanged(c) =>
      var i := FindPayment(l.payments, c.intent);
      if i == |l.payments| then (l, UnknownPayment)
      else
        var (p, result) := RefundedPayment(l.payments[i], c);
        (l.(payments := l.payments[i := p]), result)
    case DisputeChanged(d) =>
      var i := FindPayment(l.payments, d.intent);
      if i == |l.payments| then (l, UnknownPayment)
      else
        var (p, result) := DisputedPayment(l.payments[i], d);
        (l.(payments := l.payments[i := p]), result)
    case _ =>
      var i := FindPayment(l.payments, Some(e.intent));
      if i == |l.payments| then (l, UnknownPayment)
      else
        var (p, result) := UpdatedPayment(l.payments[i], l.invoice, e);
        var updated := l.(payments := l.payments[i := p]);
        (if result == Applied && e.Succeeded? then MarkedIfCovered(updated) else updated, result)
  }

  /** One delivery: an event id already acted on changes nothing. */
  function Handle(l: Ledger, id: Option<nat>, e: Event): (Ledger, Result) {
    if id.Some? && id.value in l.recorded then (l, Duplicate)
    else
      var (applied, result) := Apply(l, e);
      (if id.Some? then applied.(recorded := applied.recorded + {id.value}) else applied, result)
  }

  datatype Delivery = Delivery(id: Option<nat>, event: Event)

  function HandleAll(l: Ledger, deliveries: seq<Delivery>): Ledger {
    if deliveries == [] then l
    else
      var d := deliveries[|deliveries| - 1];
      Handle(HandleAll(l, deliveries[..|deliveries| - 1]), d.id, d.event).0
  }

  // ---- as the service does it ----

  class PaymentsService {
    const invoice: nat
    const total: int
    const currency: string
    var status: InvoiceStatus
    var payments: seq<Payment>
    var recorded: set<nat>

    constructor (l: Ledger)
      ensures View() == l
    {
      invoice, total, currency := l.invoice, l.total, l.currency;
      status, payments, recorded := l.status, l.payments, l.recorded;
    }

    function View(): Ledger
      reads this
    {
      Ledger(invoice, total, currency, status, payments, recorded)
    }

    method UpdatePaymentStatus(e: Event) returns (result: Result)
      requires IsIntentEvent(e)
      modifies `payments, `status
      ensures (View(), result) == Apply(old(View()), e)
    {
      var i := FindPayment(payments, Some(e.intent));
      if i == |payments| { return UnknownPayment; }
      var payment := payments[i];
      assert payments[i := payment] == payments;
      if e.invoice.Some? && e.invoice.value != invoice { return Mismatch; }
      var target := if e.Succeeded? then Completed else Failed;
      if payment.status == target { return Duplicate; }
      if payment.status in {Completed, RefundedStatus} { return Stale; }
      var changed := payment.(status := target);
      if target == Completed {
        if !SameCurrency(e.currency, payment) || e.received == None || e.received.value <= 0 {
          payments := payments[i := payment.(review := true)];
          return Mismatch;
        }
        changed := changed.(amount := e.received.value);
      }
      payments := payments[i := changed];
      if target == Completed { MarkInvoicePaidIfCovered(); }
      result := Applied;
    }

    method MarkInvoicePaidIfCovered()
      modifies `status
      ensures View() == MarkedIfCovered(old(View()))
    {
      if status == Paid { return; }
      var totals := PaymentTotals(payments, currency);
      ClampNeverActs(payments, currency);
      if totals.net < total { return; }
      status := Paid;
    }

    method ApplyRefundState(charge: Charge) returns (result: Result)
      modifies `payments
      ensures (View(), result) == Apply(old(View()), RefundChanged(charge))
    {
      var i := FindPayment(payments, charge.intent);
      if i == |payments| { return UnknownPayment; }
      var payment := payments[i];
      assert payments[i := payment] == payments;
      if !SameCurrency(charge.currency, payment) || charge.refunded == None || charge.refunded.value < 0
         || charge.refunded.value > payment.amount { return Mismatch; }
      if payment.refunded == charge.refunded.value { return Duplicate; }
      payments := payments[i := payment.(refunded := charge.refunded.value)];
      result := Applied;
    }

    method ApplyDisputeState(dispute: Dispute) returns (result: Result)
      modifies `payments
      ensures (View(), result) == Apply(old(View()), DisputeChanged(dispute))
    {
      var i := FindPayment(payments, dispute.intent);
      if i == |payments| { return UnknownPayment; }
      var payment := payments[i];
      assert payments[i := payment] == payments;
      if !SameCurrency(dispute.currency, payment) || dispute.amount == None || dispute.amount.value < 0
         || dispute.amount.value > payment.amount || dispute.status == None { return Mismatch; }
      if payment.dispute == dispute.status && payment.disputed == dispute.amount.value { return Duplicate; }
      payments := payments[i := payment.(dispute := dispute.status, disputed := dispute.amount.value)];
      result := Applied;
    }

    method HandleProviderEvent(id: Option<nat>, e: Event) returns (result: Result)
      modifies this
      ensures (View(), result) == Handle(old(View()), id, e)
    {
      if id.Some? && id.value in recorded { return Duplicate; }
      match e {
        case Succeeded(_, _, _, _) => result := UpdatePaymentStatus(e);
        case PaymentFailed(_, _) => result := UpdatePaymentStatus(e);
        case Canceled(_, _) => result := UpdatePaymentStatus(e);
        case RefundChanged(charge) => result := ApplyRefundState(charge);
        case DisputeChanged(dispute) => result := ApplyDisputeState(dispute);
        case Other => result := Ignored;
      }
      if id.Some? { recorded := recorded + {id.value}; }
    }

    /** The owner's explicit action: only a paid invoice that is not covered any more, and has no
      * open dispute, can be asked for again.
      */
    method ReopenInvoice(overdue: bool) returns (reopened: bool)
      modifies `status
      ensures reopened <==> old(status) == Paid && !HasOpenDispute(payments, currency) && !Covered(old(View()))
      ensures status == if reopened then (if overdue then Overdue else Sent) else old(status)
    {
      if status != Paid { return false; }
      var totals := PaymentTotals(payments, currency);
      ClampNeverActs(payments, currency);
      if totals.state == DisputedState { return false; }
      if totals.net >= total { return false; }
      status := if overdue then Overdue else Sent;
      reopened := true;
    }

    /** Reading an invoice recomputes its status. */
    method CalculateInvoiceStatus()
      modifies `status
      ensures status == if old(status) != Cancelled && Covered(old(View())) then Paid else old(status)
    {
      if status == Paid || status == Cancelled { return; }
      var totals := PaymentTotals(payments, currency);
      ClampNeverActs(payments, currency);
      if totals.net >= total { status := Paid; }
    }
  }
}
