/** What one event of the provider does to the payment it is about, in the stored fields. */
module WebhookEffects {
  import opened Basics
  import opened PaymentState
  import opened Webhooks

  /** An event delivered under an id that was not acted on yet. */
  predicate IsFirst(l: Ledger, id: Option<nat>) {
    id.Some? ==> id.value !in l.recorded
  }

  /** The row of the intent, if any. */
  predicate IsRowOf(l: Ledger, intent: Option<nat>, r: nat) {
    intent.Some? && r < |l.payments| && IsFirstOf(l.payments, intent.value, r)
  }

  /** Only this row may differ, and the id is recorded. */
  predicate OnlyRow(a: Ledger, b: Ledger, id: Option<nat>, r: nat)
    requires r < |a.payments|
  {
    && |b.payments| == |a.payments| && (forall j :: 0 <= j < |a.payments| && j != r ==> b.payments[j] == a.payments[j])
    && b.invoice == a.invoice && b.total == a.total && b.currency == a.currency
    && b.recorded == a.recorded + (if id.Some? then {id.value} else {})
  }

  predicate IsIn(currency: Option<string>, p: Payment) {
    currency.Some? && SameLetters(currency.value, p.currency)
  }

  lemma IsInIs(currency: Option<string>, p: Payment)
    ensures IsIn(currency, p) <==> SameCurrency(currency, p)
  {
    if currency.Some? { LowerIgnoresCase(currency.value, p.currency); }
  }

  /** The same event again changes nothing, whatever it says now. */
  lemma SecondDelivery(l: Ledger, id: nat, first: Event, second: Event)
    ensures Handle(Handle(l, Some(id), first).0, Some(id), second) == (Handle(l, Some(id), first).0, Duplicate)
  {
    hide Apply;
  }

  lemma RowFound(l: Ledger, intent: nat, r: nat)
    requires IsRowOf(l, Some(intent), r)
    ensures FindPayment(l.payments, Some(intent)) == r
  {
  }

  /** A success completes a payment that is pending or failed with what was received, if that is an amount in
    * the payment's currency, and then marks the invoice paid if what is left of its payments covers it; a
    * success that cannot be counted flags the payment; a completed or refunded payment stays as it is.
    */
  lemma SuccessEffect(l: Ledger, id: Option<nat>, intent: nat, invoice: Option<nat>, currency: Option<string>, received: Option<int>, r: nat)
    requires IsFirst(l, id) && IsRowOf(l, Some(intent), r)
    ensures var p := l.payments[r];
            var (after, result) := Handle(l, id, Succeeded(intent, invoice, currency, received));
            && OnlyRow(l, after, id, r)
            && if invoice.Some? && invoice.value != l.invoice then after.payments[r] == p && after.status == l.status && result == Mismatch
               else if p.status == Completed then after.payments[r] == p && after.status == l.status && result == Duplicate
               else if p.status == RefundedStatus then after.payments[r] == p && after.status == l.status && result == Stale
               else if IsIn(currency, p) && received.Some? && received.value > 0 then
                 && after.payments[r] == p.(status := Completed, amount := received.value) && result == Applied
                 && after.status == if AllLeft(after.payments, l.currency) >= l.total then Paid else l.status
               else after.payments[r] == p.(review := true) && after.status == l.status && result == Mismatch
  {
    hide Lower, SameLetters, Net, AllLeft;
    RowFound(l, intent, r);
    IsInIs(currency, l.payments[r]);
    var after := Handle(l, id, Succeeded(intent, invoice, currency, received)).0;
    NetIsWhatIsLeft(after.payments, l.currency);
  }

  /** A failure or a cancellation fails a pending payment, and touches no other, nor the invoice. */
  lemma FailureEffect(l: Ledger, id: Option<nat>, intent: nat, invoice: Option<nat>, r: nat)
    requires IsFirst(l, id) && IsRowOf(l, Some(intent), r)
    ensures forall e :: e == PaymentFailed(intent, invoice) || e == Canceled(intent, invoice) ==>
              var p := l.payments[r];
              var (after, result) := Handle(l, id, e);
              && OnlyRow(l, after, id, r) && after.status == l.status
              && if invoice.Some? && invoice.value != l.invoice then after.payments[r] == p && result == Mismatch
                 else if p.status == Pending then after.payments[r] == p.(status := Failed) && result == Applied
                 else after.payments[r] == p && result == if p.status == Failed then Duplicate else Stale
  {
    hide Lower, Net;
    RowFound(l, intent, r);
  }

  /** A refund event sets the refunded amount, in the payment's currency and at most the payment's amount. */
  lemma RefundEffect(l: Ledger, id: Option<nat>, c: Charge, r: nat)
    requires IsFirst(l, id) && IsRowOf(l, c.intent, r)
    ensures var p := l.payments[r];
            var (after, result) := Handle(l, id, RefundChanged(c));
            && OnlyRow(l, after, id, r) && after.status == l.status
            && if !IsIn(c.currency, p) || c.refunded == None || !(0 <= c.refunded.value <= p.amount) then after.payments[r] == p && result == Mismatch
               else after.payments[r] == p.(refunded := c.refunded.value) && result == if p.refunded == c.refunded.value then Duplicate else Applied
  {
    hide Lower, SameLetters;
    RowFound(l, c.intent.value, r);
    IsInIs(c.currency, l.payments[r]);
  }

  /** A dispute event sets the dispute's status and amount under the same conditions. */
  lemma DisputeEffect(l: Ledger, id: Option<nat>, d: Dispute, r: nat)
    requires IsFirst(l, id) && IsRowOf(l, d.intent, r)
    ensures var p := l.payments[r];
            var (after, result) := Handle(l, id, DisputeChanged(d));
            && OnlyRow(l, after, id, r) && after.status == l.status
            && if !IsIn(d.currency, p) || d.amount == None || !(0 <= d.amount.value <= p.amount) || d.status == None then
                 after.payments[r] == p && result == Mismatch
               else
                 && after.payments[r] == p.(dispute := d.status, disputed := d.amount.value)
                 && result == if p.dispute == d.status && p.disputed == d.amount.value then Duplicate else Applied
  {
    hide Lower, SameLetters;
    RowFound(l, d.intent.value, r);
    IsInIs(d.currency, l.payments[r]);
  }

  /** An event about no payment of this invoice, or of another kind, only has its id recorded. */
  lemma OtherEffect(l: Ledger, id: Option<nat>, e: Event)
    requires IsFirst(l, id) && forall j :: 0 <= j < |l.payments| ==> IntentOf(e) != Some(l.payments[j].intent)
    ensures Handle(l, id, e) == (l.(recorded := l.recorded + if id.Some? then {id.value} else {}), if e == Other then Ignored else UnknownPayment)
  {
    var after := Handle(l, id, e).0;
    assert l.recorded + {} == l.recorded;
    hide Lower, Net;
  }
}
