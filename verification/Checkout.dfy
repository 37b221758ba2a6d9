/** Starting or resuming the online payment of one invoice, under its lock. */
module Checkout {
  import opened Basics
  import opened PaymentState
  import opened Webhooks

  /** A PaymentIntent as the provider reports it; Payable stands for the three statuses in which
    * the customer can still complete it.
    */
  datatype IntentStatus = Payable | Processing | SucceededWith(received: nat) | CanceledIntent

  /** What checking one earlier attempt found: nothing, or the intent, whether its metadata names
    * this invoice, and whether the provider then accepted to cancel it.
    */
  datatype Answer =
    | Unreachable
    | Retrieved(names: bool, status: IntentStatus, amount: nat, sameCurrency: bool, cancelAccepted: bool)

  datatype Refusal =
    | AlreadyPaid | InvoiceCancelled | NoTotal | DisputeOpen | NothingDue
    | CouldNotCheck | SucceededAlready | BeingProcessed | CouldNotCancel | NotCreated

  datatype Verdict = Refuse(why: Refusal) | Reuse | Close

  function Judge(a: Answer, due: nat): Verdict {
    if a.Unreachable? then Refuse(CouldNotCheck)
    else if !a.names then Close
    else if a.status.SucceededWith? then Refuse(SucceededAlready)
    else if a.status.Processing? then Refuse(BeingProcessed)
    else if a.status.CanceledIntent? then Close
    else if a.amount == due && a.sameCurrency then Reuse
    else if a.cancelAccepted then Close
    else Refuse(CouldNotCancel)
  }

  /** Money may still arrive through the attempt's intent, or has: it could not be looked at, or it is
    * this invoice's and neither cancelled nor cancelled on request.
    */
  predicate MayCollect(a: Answer) {
    a.Unreachable? || (a.names && !a.status.CanceledIntent? && !(a.status.Payable? && a.cancelAccepted))
  }

  /** The customer can complete this invoice's intent, for exactly what is due now. */
  predicate AsksForDue(a: Answer, due: nat) {
    a.Retrieved? && a.names && a.status.Payable? && a.amount == due && a.sameCurrency
  }

  /** The pending attempts, newest first. */
  function Pendings(payments: seq<Payment>): (ids: seq<nat>)
    ensures forall i: nat :: i in ids <==> i < |payments| && payments[i].status == Pending
    ensures |ids| <= |payments|
  {
    if payments == [] then []
    else
      var n := |payments| - 1;
      (if payments[n].status == Pending then [n] else []) + Pendings(payments[..n])
  }

  /** Why no checkout may start, if so; otherwise the amount due. */
  function DueOrRefusal(status: InvoiceStatus, total: int, currency: string, payments: seq<Payment>): (r: (Option<Refusal>, nat)) {
    if status == Paid then (Some(AlreadyPaid), 0)
    else if status == Cancelled then (Some(InvoiceCancelled), 0)
    else if total <= 0 then (Some(NoTotal), 0)
    else if HasOpenDispute(payments, currency) then (Some(DisputeOpen), 0)
    else if total <= Net(payments, currency) then (Some(NothingDue), 0)
    else (None, total - Net(payments, currency))
  }

  /** The invoice is paid or cancelled, has no positive total, has a dispute that may still be won, or
    * what is left of its payments covers it.
    */
  predicate MayNotStart(status: InvoiceStatus, total: int, currency: string, payments: seq<Payment>) {
    || status == Paid || status == Cancelled || total <= 0
    || (exists i :: 0 <= i < |payments| && HasArrived(payments[i], currency) && !IsUndisputed(payments[i]) && payments[i].dispute != Some("lost"))
    || AllLeft(payments, currency) >= total
  }

  /** A checkout is refused exactly then, for the first of these reasons; else it asks for the rest. */
  lemma StartsUnless(status: InvoiceStatus, total: int, currency: string, payments: seq<Payment>)
    ensures var (refused, due) := DueOrRefusal(status, total, currency, payments);
            && (refused.Some? <==> MayNotStart(status, total, currency, payments))
            && (refused == None ==> due > 0 && due + AllLeft(payments, currency) == total)
            && (status == Paid ==> refused == Some(AlreadyPaid)) && (status == Cancelled ==> refused == Some(InvoiceCancelled))
            && (refused == Some(NoTotal) <==> status != Paid && status != Cancelled && total <= 0)
            && (refused == Some(NothingDue) ==> AllLeft(payments, currency) >= total)
  {
    hide Net, HasOpenDispute, AllLeft, HasArrived;
    NetIsWhatIsLeft(payments, currency);
    OpenDisputeIs(payments, currency);
  }

  datatype Checked = Refused(why: Refusal) | Reused(attempt: nat, closed: set<nat>) | AllClosed(closed: set<nat>)

  /** All pending attempts, one after the other. */
  function CheckAll(left: seq<nat>, answers: seq<Answer>, due: nat, closed: set<nat>): Checked
    requires |answers| == |left|
  {
    if left == [] then AllClosed(closed)
    else
      match Judge(answers[0], due)
      case Refuse(why) => Refused(why)
      case Reuse => Reused(left[0], closed)
      case Close => CheckAll(left[1..], answers[1..], due, closed + {left[0]})
  }

  function Closed(payments: seq<Payment>, closed: set<nat>): (after: seq<Payment>)
    ensures |after| == |payments|
    ensures forall i :: 0 <= i < |payments| ==> after[i] == if i in closed then payments[i].(status := Failed) else payments[i]
  {
    seq(|payments|, i requires 0 <= i < |payments| => if i in closed then payments[i].(status := Failed) else payments[i])
  }

  function NewAttempt(intent: nat, due: nat, currency: string): Payment {
    Payment(intent, Pending, due, currency, 0, None, 0, false)
  }

  datatype Attempt = Started(intent: nat, amount: nat, reused: bool) | NotStarted(why: Refusal)

  class CheckoutService {
    const total: int
    const currency: string
    var status: InvoiceStatus
    var payments: seq<Payment>

    constructor (total: int, currency: string, status: InvoiceStatus, payments: seq<Payment>)
      ensures this.total == total && this.currency == currency && this.status == status && this.payments == payments
    {
      this.total, this.currency, this.status, this.payments := total, currency, status, payments;
    }

    /** One checkout: the earlier attempts are checked and closed, newest first, until one can be
      * used again, and a new one is made if none can. `answers` is what the provider says of each,
      * `created` the new intent, None if the provider could not be reached. A refusal is an
      * exception and undoes what was written.
      */
    method StartCheckout(answers: seq<Answer>, created: Option<nat>) returns (attempt: Attempt)
      requires |answers| == |Pendings(payments)|
      modifies `payments
      ensures var (refused, due) := DueOrRefusal(status, total, currency, old(payments));
              if refused.Some? then attempt == NotStarted(refused.value) && payments == old(payments)
              else
                match CheckAll(Pendings(old(payments)), answers, due, {})
                case Refused(why) => attempt == NotStarted(why) && payments == old(payments)
                case Reused(i, closed) =>
                  i < |old(payments)| && attempt == Started(old(payments)[i].intent, due, true) && payments == Closed(old(payments), closed)
                case AllClosed(closed) =>
                  if created == None then attempt == NotStarted(NotCreated) && payments == old(payments)
                  else
                    attempt == Started(created.value, due, false)
                    && payments == Closed(old(payments), closed) + [NewAttempt(created.value, due, currency)]
      ensures MayNotStart(status, total, currency, old(payments)) ==> attempt.NotStarted? && payments == old(payments)
      ensures attempt.Started? ==> attempt.amount + AllLeft(old(payments), currency) == total
    {
      hide Net, HasOpenDispute, HasLostDispute, Pendings, Closed, CheckAll, AllLeft, HasArrived;
      StartsUnless(status, total, currency, payments);
      if status == Paid { return NotStarted(AlreadyPaid); }
      if status == Cancelled { return NotStarted(InvoiceCancelled); }
      if !(total > 0) { return NotStarted(NoTotal); }
      var all := payments;
      var totals := PaymentTotals(all, currency);
      ClampNeverActs(all, currency);
      if totals.state == DisputedState { return NotStarted(DisputeOpen); }
      if total - totals.net <= 0 { return NotStarted(NothingDue); }
      var due := total - totals.net;
      var checked := CheckAttempts(answers, due);
      match checked {
        case Refused(why) =>
          payments := all;
          attempt := NotStarted(why);
        case Reused(i, _) => attempt := Started(all[i].intent, due, true);
        case AllClosed(_) =>
          if created == None { payments := all; return NotStarted(NotCreated); }
          payments := payments + [NewAttempt(created.value, due, currency)];
          attempt := Started(created.value, due, false);
      }
    }

    /** What one earlier attempt, as the provider reports it, means for a new one: it is used again
      * exactly when it asks for what is due, closed exactly when it does not and nothing can be
      * collected through it any more, and stops the checkout when something can.
      */
    static method CheckAttempt(answer: Answer, due: nat) returns (verdict: Verdict)
      ensures verdict == Judge(answer, due)
      ensures verdict.Reuse? <==> AsksForDue(answer, due)
      ensures verdict.Close? <==> !MayCollect(answer) && !AsksForDue(answer, due)
      ensures verdict == Refuse(SucceededAlready) <==> answer.Retrieved? && answer.names && answer.status.SucceededWith?
      ensures verdict == Refuse(CouldNotCheck) <==> answer.Unreachable?
    {
      if answer.Unreachable? { return Refuse(CouldNotCheck); }
      if !answer.names { return Close; }
      if answer.status.SucceededWith? { return Refuse(SucceededAlready); }
      if !answer.status.Payable? && !answer.status.CanceledIntent? { return Refuse(BeingProcessed); }
      if !answer.status.CanceledIntent? && answer.amount == due && answer.sameCurrency { return Reuse; }
      if !answer.status.CanceledIntent? && !answer.cancelAccepted { return Refuse(CouldNotCancel); }
      verdict := Close;
    }

    /** The loop over the earlier attempts. */
    method CheckAttempts(answers: seq<Answer>, due: nat) returns (checked: Checked)
      requires |answers| == |Pendings(payments)|
      modifies `payments
      ensures checked == CheckAll(Pendings(old(payments)), answers, due, {})
      ensures checked.Reused? ==> checked.attempt < |old(payments)|
      ensures !checked.Refused? ==> payments == Closed(old(payments), checked.closed)
    {
      hide Pendings, Closed, Judge, CheckAll;
      var all := payments;
      var pendings := Pendings(all);
      var closed: set<nat> := {};
      ClosedNone(all);
      assert pendings[0..] == pendings && answers[0..] == answers;
      for i := 0 to |pendings|
        invariant payments == Closed(all, closed)
        invariant CheckAll(pendings, answers, due, {}) == CheckAll(pendings[i..], answers[i..], due, closed)
      {
        var id := pendings[i];
        assert id in pendings;
        assert pendings[i..][1..] == pendings[i + 1..] && answers[i..][1..] == answers[i + 1..];
        CheckStep(pendings[i..], answers[i..], due, closed);
        var verdict := CheckAttempt(answers[i], due);
        match verdict {
          case Refuse(why) => return Refused(why);
          case Reuse => return Reused(id, closed);
          case Close =>
            ClosedMore(all, closed, id);
            payments := payments[id := payments[id].(status := Failed)];
            closed := closed + {id};
        }
      }
      CheckNone(due, closed);
      checked := AllClosed(closed);
    }
  }

  lemma ClosedNone(payments: seq<Payment>)
    ensures Closed(payments, {}) == payments
  {
  }

  lemma ClosedMore(payments: seq<Payment>, closed: set<nat>, id: nat)
    requires id < |payments|
    ensures Closed(payments, closed)[id := Closed(payments, closed)[id].(status := Failed)] == Closed(payments, closed + {id})
  {
  }

  lemma CheckNone(due: nat, closed: set<nat>)
    ensures CheckAll([], [], due, closed) == AllClosed(closed)
  {
  }

  lemma CheckStep(left: seq<nat>, answers: seq<Answer>, due: nat, closed: set<nat>)
    requires |answers| == |left| > 0
    ensures CheckAll(left, answers, due, closed) ==
              match Judge(answers[0], due)
              case Refuse(why) => Refused(why)
              case Reuse => Reused(left[0], closed)
              case Close => CheckAll(left[1..], answers[1..], due, closed + {left[0]})
  {
  }
}
