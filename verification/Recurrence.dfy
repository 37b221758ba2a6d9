/** Recurring invoices: when a schedule is due, and when it runs next. */
module Recurrence {
  import opened Basics
  import opened Calendar
  import Decimal

  datatype Frequency = Daily | Weekly | Monthly | Quarterly | Yearly

  datatype Schedule = Schedule(
    nextRun: Date,
    endDate: Option<Date>,
    frequency: Frequency,
    interval: int,
    active: bool,
    generated: nat)

  /** A day of the calendar the service can write and compute with. */
  predicate IsBusinessDate(d: Date) {
    IsValid(d) && d.year >= 100
  }

  function NextRun(today: Date, frequency: Frequency, interval: int): (next: Date)
    ensures IsValid(next)
  {
    match frequency
    case Daily => AddDays(today, interval)
    case Weekly => AddDays(today, 7 * interval)
    case Monthly => AddMonths(today, interval)
    case Quarterly => AddMonths(today, 3 * interval)
    case Yearly => AddMonths(today, 12 * interval)
  }

  /** The next run is after today exactly when the interval is at least one, whatever the
    * frequency, month ends included.
    */
  lemma NextRunIsLater(today: Date, frequency: Frequency, interval: int)
    requires IsBusinessDate(today)
    ensures DayNumber(NextRun(today, frequency, interval)) > DayNumber(today) <==> interval >= 1
  {
    hide DayNumber, AddDays, AddMonths, IsValid;
    match frequency
    case Daily => AddDaysNumber(today, interval);
    case Weekly => AddDaysNumber(today, 7 * interval);
    case Monthly => MonthsLater(today, interval);
    case Quarterly => MonthsLater(today, 3 * interval);
    case Yearly => MonthsLater(today, 12 * interval);
  }

  /** When a schedule runs next, on the calendar: so many days or weeks later; the same day of the month
    * so many months or quarters later, or counted on into the next month where that is too short; the
    * same day so many years later, the first of March for a 29th of February that year does not have.
    */
  lemma NextRunIs(today: Date, interval: int)
    requires IsBusinessDate(today)
    ensures DayNumber(NextRun(today, Daily, interval)) == DayNumber(today) + interval
    ensures DayNumber(NextRun(today, Weekly, interval)) == DayNumber(today) + 7 * interval
    ensures NextRun(today, Monthly, interval) == MonthsOn(today, interval)
    ensures NextRun(today, Quarterly, interval) == MonthsOn(today, 3 * interval)
    ensures NextRun(today, Yearly, interval) ==
              if today.day <= DaysIn(today.year + interval, today.month) then Date(today.year + interval, today.month, today.day)
              else Date(today.year + interval, 3, 1)
  {
    hide DayNumber, AddDays, AddMonths;
    AddDaysNumber(today, interval);
    AddDaysNumber(today, 7 * interval);
    AddMonthsIsMonthsOn(today, interval);
    AddMonthsIsMonthsOn(today, 3 * interval);
    AddMonthsIsMonthsOn(today, 12 * interval);
    ValidDates(today);
    Quotient(12 * (today.year + interval) + today.month - 1, 12, today.year + interval, today.month - 1);
  }

  lemma MonthsLater(today: Date, months: int)
    requires IsBusinessDate(today)
    ensures DayNumber(AddMonths(today, months)) > DayNumber(today) <==> months >= 1
  {
    hide DayNumber, AddMonths, IsValid, IsLeap;
    if months >= 1 {
      AddMonthsNumber(today, months) by { DateParts(today); }
    } else {
      MonthsBack(today, months);
    }
  }

  lemma DateParts(d: Date)
    requires IsBusinessDate(d)
    ensures d.year >= 100 && 1 <= d.month <= 12
  {
  }

  lemma MonthsBack(today: Date, months: int)
    requires IsBusinessDate(today) && months <= 0
    ensures DayNumber(AddMonths(today, months)) <= DayNumber(today)
  {
    hide MonthDay, MakeDay, IsLeap, FromDay, MonthStart;
    MakeDayByMonth(today.year, today.month - 1, today.day);
    MakeDayByMonth(today.year, today.month - 1 + months, today.day);
    MonthsApart(12 * today.year + today.month - 1 + months, -months);
  }

  // ---- one run over one schedule ----

  predicate IsDue(s: Schedule, today: Date) {
    s.active && DayNumber(s.nextRun) <= DayNumber(today)
  }

  /** Texts are compared, as YYYY-MM-DD. */
  predicate HasEnded(s: Schedule, today: Date) {
    && s.endDate.Some? && s.endDate.value.year >= 0 && s.endDate.value.month >= 0 && s.endDate.value.day >= 0
    && today.year >= 0 && today.month >= 0 && today.day >= 0
    && Decimal.Less(ToText(s.endDate.value), ToText(today))
  }

  /** The schedule after a run, and whether an invoice was made; `fails` is a creation that threw. */
  function Processed(s: Schedule, today: Date, fails: bool): (Schedule, bool) {
    if !IsDue(s, today) then (s, false)
    else if HasEnded(s, today) then (s.(active := false), false)
    else if fails then (s, false)
    else (s.(nextRun := NextRun(today, s.frequency, s.interval), generated := s.generated + 1), true)
  }

  // ---- the run ----

  datatype Invoice = Invoice(schedule: nat, issueDate: Date, dueDate: Date)

  /** The invoices a run makes, in the order of the schedules. */
  function Made(schedules: seq<Schedule>, today: Date, failing: set<nat>): seq<Invoice> {
    if schedules == [] then []
    else
      var n := |schedules| - 1;
      Made(schedules[..n], today, failing)
      + if Processed(schedules[n], today, n in failing).1 then [Invoice(n, today, AddDays(today, 30))] else []
  }

  /** A date a schedule may hold: of the calendar, and written with four digits of year. */
  predicate IsStored(d: Date) {
    IsValid(d) && 0 <= d.year <= 9999
  }

  /** A schedule makes an invoice exactly when it is active, its next run is not in the future, its end has
    * not passed and the creation does not fail; then it moves on to the next run. A schedule whose end has
    * passed when it is due becomes inactive; otherwise nothing changes.
    */
  lemma MakesWhenDue(s: Schedule, today: Date, fails: bool)
    requires IsStored(today) && IsStored(s.nextRun) && (s.endDate.Some? ==> IsStored(s.endDate.value))
    ensures var (after, made) := Processed(s, today, fails);
            var due := s.active && DayNumber(s.nextRun) <= DayNumber(today);
            var over := s.endDate.Some? && DayNumber(s.endDate.value) < DayNumber(today);
            && (made <==> due && !over && !fails)
            && (after.active <==> s.active && !(due && over))
            && after.nextRun == (if made then NextRun(today, s.frequency, s.interval) else s.nextRun)
            && after.generated == s.generated + (if made then 1 else 0)
            && after.endDate == s.endDate && after.frequency == s.frequency && after.interval == s.interval
  {
    hide DayNumber, NextRun, ToText, Decimal.Less;
    ValidDates(today);
    if s.endDate.Some? {
      ValidDates(s.endDate.value);
      TextOrder(s.endDate.value, today);
    }
  }

  /** The schedule makes an invoice in this run. */
  predicate Makes(schedules: seq<Schedule>, n: nat, today: Date, failing: set<nat>)
    requires n < |schedules|
  {
    Processed(schedules[n], today, n in failing).1
  }

  /** An invoice of this run: for a schedule that makes one, dated today and due thirty days later. */
  predicate IsOfRun(invoice: Invoice, schedules: seq<Schedule>, today: Date, failing: set<nat>) {
    && invoice.schedule < |schedules| && Makes(schedules, invoice.schedule, today, failing)
    && invoice.issueDate == today && DayNumber(invoice.dueDate) == DayNumber(today) + 30
  }

  predicate HasInvoice(made: seq<Invoice>, n: nat) {
    exists i :: 0 <= i < |made| && made[i].schedule == n
  }

  predicate InOrder(made: seq<Invoice>) {
    forall i, j :: 0 <= i < j < |made| ==> made[i].schedule < made[j].schedule
  }

  predicate AreOfRun(made: seq<Invoice>, schedules: seq<Schedule>, today: Date, failing: set<nat>) {
    forall i :: 0 <= i < |made| ==> IsOfRun(made[i], schedules, today, failing)
  }

  predicate NoneMissing(made: seq<Invoice>, schedules: seq<Schedule>, today: Date, failing: set<nat>) {
    forall n: nat :: n < |schedules| && Makes(schedules, n, today, failing) ==> HasInvoice(made, n)
  }

  /** A run makes at most one invoice for a schedule, in the order of the schedules, and one for every
    * schedule that makes one.
    */
  lemma {:induction false} OneInvoiceEach(schedules: seq<Schedule>, today: Date, failing: set<nat>)
    requires IsBusinessDate(today)
    ensures var made := Made(schedules, today, failing);
            InOrder(made) && AreOfRun(made, schedules, today, failing) && NoneMissing(made, schedules, today, failing)
    decreases |schedules|
  {
    if schedules != [] {
      hide IsBusinessDate, AreOfRun, InOrder, NoneMissing, IsOfRun, Makes, Made;
      var n := |schedules| - 1;
      OneInvoiceEach(schedules[..n], today, failing);
      LastMade(schedules, today, failing);
      OneInvoiceMore(schedules, today, failing, Made(schedules[..n], today, failing), Made(schedules, today, failing));
    }
  }

  lemma OneInvoiceMore(schedules: seq<Schedule>, today: Date, failing: set<nat>, before: seq<Invoice>, made: seq<Invoice>)
    requires schedules != []
    requires var earlier := schedules[..|schedules| - 1];
             InOrder(before) && AreOfRun(before, earlier, today, failing) && NoneMissing(before, earlier, today, failing)
    requires before <= made && |made| == |before| + (if Makes(schedules, |schedules| - 1, today, failing) then 1 else 0)
    requires |made| > |before| ==> made[|before|].schedule == |schedules| - 1 && IsOfRun(made[|before|], schedules, today, failing)
    ensures InOrder(made) && AreOfRun(made, schedules, today, failing) && NoneMissing(made, schedules, today, failing)
  {
    hide HasInvoice, IsOfRun, Makes;
    forall i | 0 <= i < |made| ensures IsOfRun(made[i], schedules, today, failing) && (i < |before| ==> made[i].schedule < |schedules| - 1) {
      if i < |before| { StillOfRun(before[i], schedules, today, failing); }
    }
    forall m: nat | m < |schedules| && Makes(schedules, m, today, failing) ensures HasInvoice(made, m) {
      if m < |schedules| - 1 {
        SameMakes(schedules, m, today, failing);
        StillHasInvoice(before, made, m);
      } else {
        LastInvoice(made, m);
      }
    }
  }

  lemma LastMade(schedules: seq<Schedule>, today: Date, failing: set<nat>)
    requires schedules != [] && IsBusinessDate(today)
    ensures var n, made := |schedules| - 1, Made(schedules, today, failing);
            var before := Made(schedules[..n], today, failing);
            && before <= made && |made| == |before| + (if Makes(schedules, n, today, failing) then 1 else 0)
            && (|made| > |before| ==> made[|before|].schedule == n && IsOfRun(made[|before|], schedules, today, failing))
  {
    hide DayNumber, AddDays, Processed, IsValid;
    AddDaysNumber(today, 30);
  }

  lemma SameMakes(schedules: seq<Schedule>, n: nat, today: Date, failing: set<nat>)
    requires n < |schedules| - 1
    ensures Makes(schedules[..|schedules| - 1], n, today, failing) == Makes(schedules, n, today, failing)
  {
  }

  lemma StillOfRun(invoice: Invoice, schedules: seq<Schedule>, today: Date, failing: set<nat>)
    requires schedules != [] && IsOfRun(invoice, schedules[..|schedules| - 1], today, failing)
    ensures IsOfRun(invoice, schedules, today, failing) && invoice.schedule < |schedules| - 1
  {
    hide DayNumber, Processed;
  }

  lemma StillHasInvoice(before: seq<Invoice>, made: seq<Invoice>, n: nat)
    requires before <= made && HasInvoice(before, n)
    ensures HasInvoice(made, n)
  {
  }

  lemma LastInvoice(made: seq<Invoice>, n: nat)
    requires made != [] && made[|made| - 1].schedule == n
    ensures HasInvoice(made, n)
  {
  }

  class RecurringInvoicesService {
    var schedules: seq<Schedule>
    var invoices: seq<Invoice>

    constructor (schedules: seq<Schedule>)
      ensures this.schedules == schedules && invoices == []
    {
      this.schedules, invoices := schedules, [];
    }

    /** One invoice, dated today and due in 30 days, for each schedule that is due. */
    method ProcessRecurringInvoices(today: Date, failing: set<nat>) returns (generated: nat, errors: set<nat>)
      modifies this
      ensures |schedules| == |old(schedules)|
      ensures forall i :: 0 <= i < |schedules| ==> schedules[i] == Processed(old(schedules)[i], today, i in failing).0
      ensures invoices == old(invoices) + Made(old(schedules), today, failing) && |invoices| == |old(invoices)| + generated
      ensures errors == set i | 0 <= i < |schedules| && i in failing && IsDue(old(schedules)[i], today) && !HasEnded(old(schedules)[i], today)
    {
      hide IsDue, HasEnded, NextRun, AddDays;
      generated, errors := 0, {};
      for i := 0 to |schedules|
        invariant |schedules| == |old(schedules)|
        invariant forall j :: 0 <= j < i ==> schedules[j] == Processed(old(schedules)[j], today, j in failing).0
        invariant forall j :: i <= j < |schedules| ==> schedules[j] == old(schedules)[j]
        invariant invoices == old(invoices) + Made(old(schedules)[..i], today, failing) && |invoices| == |old(invoices)| + generated
        invariant errors == set j | 0 <= j < i && j in failing && IsDue(old(schedules)[j], today) && !HasEnded(old(schedules)[j], today)
      {
        var recurring := schedules[i];
        assert old(schedules)[..i + 1][..i] == old(schedules)[..i];
        if IsDue(recurring, today) {
          if HasEnded(recurring, today) {
            schedules := schedules[i := recurring.(active := false)];
          } else if i in failing {
            errors := errors + {i};
          } else {
            invoices := invoices + [Invoice(i, today, AddDays(today, 30))];
            schedules := schedules[i := recurring.(nextRun := NextRun(today, recurring.frequency, recurring.interval),
                                                   generated := recurring.generated + 1)];
            generated := generated + 1;
          }
        }
      }
      assert old(schedules)[..|old(schedules)|] == old(schedules);
    }
  }

  // ---- many runs ----

  /** One run: on which date, and whether the creation fails. */
  datatype Run = Run(today: Date, fails: bool)

  function After(s: Schedule, runs: seq<Run>): Schedule
    decreases |runs|
  {
    if runs == [] then s
    else
      var before := After(s, runs[..|runs| - 1]);
      Processed(before, runs[|runs| - 1].today, runs[|runs| - 1].fails).0
  }

  /** How many invoices the runs made on a date. */
  function MadeOn(s: Schedule, runs: seq<Run>, date: Date): nat
    decreases |runs|
  {
    if runs == [] then 0
    else
      var r := runs[|runs| - 1];
      var made := Processed(After(s, runs[..|runs| - 1]), r.today, r.fails).1;
      MadeOn(s, runs[..|runs| - 1], date) + if made && r.today == date then 1 else 0
  }

  lemma OneRun(s: Schedule, today: Date, fails: bool)
    requires IsBusinessDate(today) && s.interval >= 1
    ensures var (after, made) := Processed(s, today, fails);
            && after.interval == s.interval
            && DayNumber(after.nextRun) >= DayNumber(s.nextRun)
            && (made ==> DayNumber(s.nextRun) <= DayNumber(today) < DayNumber(after.nextRun))
  {
    hide HasEnded, NextRun, DayNumber, IsBusinessDate;
    NextRunIsLater(today, s.frequency, s.interval);
  }

  /** However often and on whatever dates it runs, forwards or backwards, a schedule with an interval
    * of at least one makes at most one invoice on a date: once made, its next run stays after it.
    */
  lemma {:induction false} OncePerDate(s: Schedule, runs: seq<Run>, date: Date)
    requires s.interval >= 1 && forall i :: 0 <= i < |runs| ==> IsBusinessDate(runs[i].today)
    ensures After(s, runs).interval == s.interval
    ensures MadeOn(s, runs, date) <= 1
    ensures MadeOn(s, runs, date) == 1 ==> DayNumber(After(s, runs).nextRun) > DayNumber(date)
    decreases |runs|
  {
    hide DayNumber, IsBusinessDate, Processed;
    if runs != [] {
      var r, before := runs[|runs| - 1], runs[..|runs| - 1];
      OncePerDate(s, before, date);
      OneRun(After(s, before), r.today, r.fails);
    }
  }

  /** An interval of zero makes another invoice every time it runs. */
  lemma {:induction false} ZeroIntervalRepeats(today: Date, n: nat)
    requires IsBusinessDate(today)
    ensures var s, runs := Schedule(today, None, Daily, 0, true, 0), seq(n, _ => Run(today, false));
            MadeOn(s, runs, today) == n && IsDue(After(s, runs), today) && After(s, runs).endDate == None
            && After(s, runs).frequency == Daily && After(s, runs).interval == 0
    decreases n
  {
    hide DayNumber, IsValid, AddDays;
    if n > 0 {
      ZeroIntervalRepeats(today, n - 1);
      AddDaysNumber(today, 0);
      assert seq(n, _ => Run(today, false))[..n - 1] == seq(n - 1, _ => Run(today, false));
    }
  }
}
