/**
  `generateExpensesFromRecurring` of services/recurring-expense.service.js
  (lines 14-114): turns recurring-expense templates into the expenses that
  have fallen due by `currentDate`, and moves each active template's
  `lastGenerated` cursor forward.

  The functions below say what one run produces; the method
  `GenerateExpensesFromRecurring` is the source's loop, proved to produce it.
*/
module RecurringExpenseService {
  import opened Options
  import opened JsDate
  import opened DateFormat
  import opened Recurrence

  /** A recurring-expense template. */
  datatype Template = Template(
    id: string,
    name: string,
    desc: string,            // "" when absent (falsy)
    amount: int,
    expenseType: string,     // the source's `type`
    pType: string,
    frequency: Frequency,
    dayOfMonth: int,         // 0 when absent (falsy)
    startDate: Date,
    lastGenerated: Option<Date>,  // the date whose `YYYY-MM-DD` rendering is stored
    active: bool)

  /** An expense, generated here or entered by hand. */
  datatype Expense = Expense(
    id: string,
    date: string,
    name: string,
    desc: string,
    paid: int,
    expenseType: string,
    pType: string,
    isRecurring: bool,
    recurringId: string)

  /**
    What the run needs of a template to terminate: a monthly template's
    `dayOfMonth` is absent or positive (the data model allows 1 to 31).
  */
  predicate WellFormed(t: Template) {
    t.frequency == Monthly ==> t.dayOfMonth >= 0
  }

  predicate AllWellFormed(ts: seq<Template>) {
    forall i :: 0 <= i < |ts| ==> WellFormed(ts[i])
  }

  /** A first run of a monthly template with a day of the month (lines 30 and 53-55). */
  predicate FirstMonthlyRun(t: Template) {
    t.lastGenerated.None? && t.frequency == Monthly && t.dayOfMonth != 0
  }

  /** `initialDate` as lines 22-47 leave it. */
  function Anchor(t: Template, currentDate: Date): Date {
    match t.lastGenerated
    case Some(last) => last
    case None =>
      if t.frequency == Monthly && t.dayOfMonth != 0 then
        var start := t.startDate;
        var adjusted := MakeDay(start.year, start.month - 1, t.dayOfMonth);
        var shifted := if Before(adjusted, start) then MakeDay(adjusted.year, adjusted.month, adjusted.day) else adjusted;
        if Before(currentDate, shifted) then start else shifted
      else
        t.startDate
  }

  /** `thisMonthDate` (line 58), built with the constructor. */
  function ThisMonthDate(currentDate: Date, dayOfMonth: int): Date {
    NewDate(currentDate.year, currentDate.month - 1, dayOfMonth)
  }

  /** `nextDate` on entry to the catch-up loop (lines 50-68). */
  function FirstCandidate(t: Template, currentDate: Date): Date {
    var next := NextOccurrence(Anchor(t, currentDate), t.frequency, t.dayOfMonth);
    if FirstMonthlyRun(t) then
      var thisMonth := ThisMonthDate(currentDate, t.dayOfMonth);
      if thisMonth.month == currentDate.month && Before(t.startDate, thisMonth) && LessEq(thisMonth, currentDate)
      then thisMonth
      else next
    else next
  }

  /**
    The dates the catch-up loop (lines 71-107) processes when it is entered
    with `next`: each one not after `currentDate` and each the advance of the
    one before, until the advance passes `currentDate` or stays on the same
    day.
  */
  function Occurrences(frequency: Frequency, dayOfMonth: int, currentDate: Date, next: Date): (dates: seq<Date>)
    requires frequency == Monthly ==> dayOfMonth >= 0
    decreases Serial(currentDate) - Serial(next)
  {
    if LessEq(next, currentDate) then
      var after := NextOccurrence(next, frequency, dayOfMonth);
      AdvanceIsLater(next, frequency, dayOfMonth);
      if IsSameDay(after, next) then [next]
      else [next] + Occurrences(frequency, dayOfMonth, currentDate, after)
    else
      []
  }

  /** There are no processed dates exactly when `next` is after `currentDate`; otherwise `next` comes first. */
  lemma OccurrencesStart(frequency: Frequency, dayOfMonth: int, currentDate: Date, next: Date)
    requires frequency == Monthly ==> dayOfMonth >= 0
    ensures var dates := Occurrences(frequency, dayOfMonth, currentDate, next);
            (dates == [] <==> Before(currentDate, next)) && (dates != [] ==> dates[0] == next)
  {
    if LessEq(next, currentDate) {
      OccurrencesStep(frequency, dayOfMonth, currentDate, next);
    }
  }

  /** The processed dates lie between `next` and `currentDate`. */
  lemma {:induction false} OccurrencesWithin(frequency: Frequency, dayOfMonth: int, currentDate: Date, next: Date)
    requires frequency == Monthly ==> dayOfMonth >= 0
    ensures forall k :: 0 <= k < |Occurrences(frequency, dayOfMonth, currentDate, next)| ==>
              LessEq(next, Occurrences(frequency, dayOfMonth, currentDate, next)[k]) &&
              LessEq(Occurrences(frequency, dayOfMonth, currentDate, next)[k], currentDate)
    decreases Serial(currentDate) - Serial(next)
  {
    if LessEq(next, currentDate) {
      var after := NextOccurrence(next, frequency, dayOfMonth);
      AdvanceIsLater(next, frequency, dayOfMonth);
      OccurrencesStep(frequency, dayOfMonth, currentDate, next);
      if !IsSameDay(after, next) {
        assert frequency != Other;
        assert Before(next, after);
        OccurrencesWithin(frequency, dayOfMonth, currentDate, after);
      }
    }
  }

  /**
    The advance of the last processed date either passes `currentDate` or
    stays on the same day (an unknown frequency).
  */
  lemma {:induction false} OccurrencesLast(frequency: Frequency, dayOfMonth: int, currentDate: Date, next: Date)
    requires frequency == Monthly ==> dayOfMonth >= 0
    ensures var dates := Occurrences(frequency, dayOfMonth, currentDate, next);
            dates != [] ==>
              var after := NextOccurrence(dates[|dates| - 1], frequency, dayOfMonth);
              Before(currentDate, after) || after == dates[|dates| - 1]
    decreases Serial(currentDate) - Serial(next)
  {
    if LessEq(next, currentDate) {
      var after := NextOccurrence(next, frequency, dayOfMonth);
      AdvanceIsLater(next, frequency, dayOfMonth);
      OccurrencesStep(frequency, dayOfMonth, currentDate, next);
      if IsSameDay(after, next) {
        assert after == next;
      } else {
        assert Before(next, after);
        OccurrencesLast(frequency, dayOfMonth, currentDate, after);
        OccurrencesStart(frequency, dayOfMonth, currentDate, after);
      }
    }
  }

  /** Each processed date is the advance of the one before. */
  lemma {:induction false} OccurrencesChain(frequency: Frequency, dayOfMonth: int, currentDate: Date, next: Date)
    requires frequency == Monthly ==> dayOfMonth >= 0
    ensures forall k :: 1 <= k < |Occurrences(frequency, dayOfMonth, currentDate, next)| ==>
              Occurrences(frequency, dayOfMonth, currentDate, next)[k] == NextOccurrence(Occurrences(frequency, dayOfMonth, currentDate, next)[k - 1], frequency, dayOfMonth)
    decreases Serial(currentDate) - Serial(next)
  {
    if LessEq(next, currentDate) {
      var after := NextOccurrence(next, frequency, dayOfMonth);
      AdvanceIsLater(next, frequency, dayOfMonth);
      OccurrencesStep(frequency, dayOfMonth, currentDate, next);
      if !IsSameDay(after, next) {
        OccurrencesChain(frequency, dayOfMonth, currentDate, after);
        OccurrencesWithin(frequency, dayOfMonth, currentDate, after);
        var dates := Occurrences(frequency, dayOfMonth, currentDate, next);
        var rest := Occurrences(frequency, dayOfMonth, currentDate, after);
        assert dates == [next] + rest;
        forall k | 1 <= k < |dates|
          ensures dates[k] == NextOccurrence(dates[k - 1], frequency, dayOfMonth)
        {
          ConsIndex(next, rest, k);
          if k > 1 {
            ConsIndex(next, rest, k - 1);
          }
        }
      }
    }
  }

  /** The processed dates strictly increase. */
  lemma {:induction false} OccurrencesIncreasing(frequency: Frequency, dayOfMonth: int, currentDate: Date, next: Date)
    requires frequency == Monthly ==> dayOfMonth >= 0
    ensures forall j, k :: 0 <= j < k < |Occurrences(frequency, dayOfMonth, currentDate, next)| ==>
              Before(Occurrences(frequency, dayOfMonth, currentDate, next)[j], Occurrences(frequency, dayOfMonth, currentDate, next)[k])
    decreases Serial(currentDate) - Serial(next)
  {
    if LessEq(next, currentDate) {
      var after := NextOccurrence(next, frequency, dayOfMonth);
      AdvanceIsLater(next, frequency, dayOfMonth);
      OccurrencesStep(frequency, dayOfMonth, currentDate, next);
      if !IsSameDay(after, next) {
        assert frequency != Other;
        assert Before(next, after);
        OccurrencesIncreasing(frequency, dayOfMonth, currentDate, after);
        OccurrencesWithin(frequency, dayOfMonth, currentDate, after);
        var dates := Occurrences(frequency, dayOfMonth, currentDate, next);
        var rest := Occurrences(frequency, dayOfMonth, currentDate, after);
        assert dates == [next] + rest;
        forall j, k | 0 <= j < k < |dates|
          ensures Before(dates[j], dates[k])
        {
          ConsIndex(next, rest, k);
          if j > 0 {
            ConsIndex(next, rest, j);
          } else {
            assert LessEq(after, rest[k - 1]);
          }
        }
      }
    }
  }

  lemma ConsIndex<T>(x: T, s: seq<T>, k: int)
    requires 1 <= k <= |s|
    ensures ([x] + s)[k] == s[k - 1]
  {
  }

  /** One turn of the catch-up loop: `next` is processed, then its advance unless it stays on the same day. */
  lemma OccurrencesStep(frequency: Frequency, dayOfMonth: int, currentDate: Date, next: Date)
    requires frequency == Monthly ==> dayOfMonth >= 0
    requires LessEq(next, currentDate)
    ensures var after := NextOccurrence(next, frequency, dayOfMonth);
            Occurrences(frequency, dayOfMonth, currentDate, next)
              == if IsSameDay(after, next) then [next]
                 else [next] + Occurrences(frequency, dayOfMonth, currentDate, after)
  {
  }

  /** The loop's account of the processed dates after one more turn at `next`. */
  lemma OccurrencesAdvance(
    frequency: Frequency, dayOfMonth: int, currentDate: Date, next: Date, done: seq<Date>, all: seq<Date>)
    requires frequency == Monthly ==> dayOfMonth >= 0
    requires LessEq(next, currentDate)
    requires done + Occurrences(frequency, dayOfMonth, currentDate, next) == all
    ensures var after := NextOccurrence(next, frequency, dayOfMonth);
            if IsSameDay(after, next) then done + [next] == all
            else Before(next, after) && (done + [next]) + Occurrences(frequency, dayOfMonth, currentDate, after) == all
  {
    var after := NextOccurrence(next, frequency, dayOfMonth);
    AdvanceIsLater(next, frequency, dayOfMonth);
    OccurrencesStep(frequency, dayOfMonth, currentDate, next);
    AppendAssoc(done, [next], Occurrences(frequency, dayOfMonth, currentDate, after));
  }

  /** The dates processed for template `t` in one run; none for an inactive one (line 19). */
  function TemplateDates(t: Template, currentDate: Date): seq<Date>
    requires WellFormed(t)
  {
    if t.active then Occurrences(t.frequency, t.dayOfMonth, currentDate, FirstCandidate(t, currentDate)) else []
  }

  /** `existingExpenses.some(...)` (lines 76-80). */
  predicate AlreadyExists(existing: seq<Expense>, recurringId: string, date: string) {
    exists k :: 0 <= k < |existing| &&
      existing[k].isRecurring && existing[k].recurringId == recurringId && existing[k].date == date
  }

  /** The expense built from a template (lines 85-95). */
  function ExpenseFrom(t: Template, date: string, id: string): Expense {
    Expense(id, date, t.name, if t.desc == "" then t.name else t.desc, t.amount,
            t.expenseType, t.pType, true, t.id)
  }

  lemma AppendAssoc<T>(a: seq<T>, b: seq<T>, c: seq<T>)
    ensures (a + b) + c == a + (b + c)
  {
  }

  /**
    The renderings of `dates` for which no expense of template `t` is
    recorded yet, in order: the dates the catch-up loop pushes an expense for.
  */
  function Missing(t: Template, existing: seq<Expense>, dates: seq<Date>): seq<string>
    decreases |dates|
  {
    if dates == [] then []
    else
      var prev := Missing(t, existing, dates[..|dates| - 1]);
      var date := FormatDate(dates[|dates| - 1]);
      if AlreadyExists(existing, t.id, date) then prev else prev + [date]
  }

  lemma MissingSnoc(t: Template, existing: seq<Expense>, dates: seq<Date>, d: Date)
    ensures Missing(t, existing, dates + [d])
            == var prev := Missing(t, existing, dates);
               if AlreadyExists(existing, t.id, FormatDate(d)) then prev else prev + [FormatDate(d)]
  {
    assert (dates + [d])[..|dates|] == dates;
  }

  /**
    A rendering is missing exactly when it is the rendering of one of the
    dates and is not recorded for `t`; there are at most as many as dates.
  */
  lemma {:induction false} MissingSpec(t: Template, existing: seq<Expense>, dates: seq<Date>)
    ensures |Missing(t, existing, dates)| <= |dates|
    ensures forall s :: s in Missing(t, existing, dates) <==>
              !AlreadyExists(existing, t.id, s) && exists d :: d in dates && s == FormatDate(d)
    decreases |dates|
  {
    if dates != [] {
      var p, x := dates[..|dates| - 1], dates[|dates| - 1];
      assert dates == p + [x];
      MissingSpec(t, existing, p);
      MissingSnoc(t, existing, p, x);
      var m := Missing(t, existing, dates);
      forall s | !AlreadyExists(existing, t.id, s) && exists d :: d in dates && s == FormatDate(d)
        ensures s in m
      {
        var d :| d in dates && s == FormatDate(d);
        if d != x {
          assert d in p;
        }
      }
    }
  }

  /** The rendering of a date that is not among `dates` is not missing for them. */
  lemma {:induction false} MissingAvoids(t: Template, existing: seq<Expense>, dates: seq<Date>, x: Date)
    requires x !in dates
    ensures FormatDate(x) !in Missing(t, existing, dates)
    decreases |dates|
  {
    if dates != [] {
      var p, d := dates[..|dates| - 1], dates[|dates| - 1];
      assert dates == p + [d];
      MissingAvoids(t, existing, p, x);
      MissingSnoc(t, existing, p, d);
      FormatDateInjective(d, x);
    }
  }

  /**
    Distinct dates leave distinct renderings: a run never pushes two
    expenses of one template for the same date.
  */
  lemma {:induction false} MissingDistinct(t: Template, existing: seq<Expense>, dates: seq<Date>)
    requires forall j, k :: 0 <= j < k < |dates| ==> dates[j] != dates[k]
    ensures forall j, k :: 0 <= j < k < |Missing(t, existing, dates)| ==>
              Missing(t, existing, dates)[j] != Missing(t, existing, dates)[k]
    decreases |dates|
  {
    if dates != [] {
      var p, x := dates[..|dates| - 1], dates[|dates| - 1];
      assert dates == p + [x];
      MissingDistinct(t, existing, p);
      MissingSnoc(t, existing, p, x);
      assert x !in p by {
        forall i | 0 <= i < |p|
          ensures p[i] != x
        {
          assert p[i] == dates[i];
        }
      }
      MissingAvoids(t, existing, p, x);
    }
  }

  /** The renderings paired with the template they belong to. */
  function Tagged<T, S>(t: T, xs: seq<S>): (r: seq<(T, S)>)
    ensures |r| == |xs|
  {
    seq(|xs|, k requires 0 <= k < |xs| => (t, xs[k]))
  }

  lemma TaggedSnoc<T, S>(t: T, xs: seq<S>, x: S)
    ensures Tagged(t, xs + [x]) == Tagged(t, xs) + [(t, x)]
  {
  }

  /**
    The expenses for the pending (template, date) pairs, the k-th with id
    `idOf(k)`: `idOf(k)` is what `generateId()` returns for the k-th
    expense pushed onto `newExpenses`.
  */
  function Build(pending: seq<(Template, string)>, idOf: nat -> string): (r: seq<Expense>)
    ensures |r| == |pending|
  {
    seq(|pending|, k requires 0 <= k < |pending| => ExpenseFrom(pending[k].0, pending[k].1, idOf(k)))
  }

  lemma BuildSnoc(pending: seq<(Template, string)>, t: Template, date: string, idOf: nat -> string)
    ensures Build(pending + [(t, date)], idOf) == Build(pending, idOf) + [ExpenseFrom(t, date, idOf(|pending|))]
  {
  }

  /** One turn of the catch-up loop seen from the expenses: at most one more, for date `d`. */
  lemma PushStep(
    prefix: seq<(Template, string)>, t: Template, existing: seq<Expense>, done: seq<Date>, d: Date, idOf: nat -> string)
    ensures var before := Build(prefix + Tagged(t, Missing(t, existing, done)), idOf);
            var date := FormatDate(d);
            Build(prefix + Tagged(t, Missing(t, existing, done + [d])), idOf)
              == if AlreadyExists(existing, t.id, date) then before
                 else before + [ExpenseFrom(t, date, idOf(|before|))]
  {
    var m := Missing(t, existing, done);
    var date := FormatDate(d);
    MissingSnoc(t, existing, done, d);
    if !AlreadyExists(existing, t.id, date) {
      TaggedSnoc(t, m, date);
      AppendAssoc(prefix, Tagged(t, m), [(t, date)]);
      BuildSnoc(prefix + Tagged(t, m), t, date, idOf);
    }
  }

  /** The template with its cursor on the last processed date (line 101), if any. */
  function Advanced(t: Template, dates: seq<Date>): Template {
    if dates == [] then t else t.(lastGenerated := Some(dates[|dates| - 1]))
  }

  /** Moving the cursor changes nothing in the expenses built from the template. */
  lemma SnapshotIgnoresCursor(t: Template, dates: seq<Date>, date: string, id: string)
    ensures var u := Advanced(t, dates);
            u.id == t.id && u.frequency == t.frequency && u.dayOfMonth == t.dayOfMonth &&
            ExpenseFrom(u, date, id) == ExpenseFrom(t, date, id)
  {
  }

  /** The renderings each of the templates `ts` has an expense pushed for in one run. */
  function MissingOf(ts: seq<Template>, existing: seq<Expense>, currentDate: Date): (r: seq<seq<string>>)
    requires AllWellFormed(ts)
    ensures |r| == |ts|
  {
    seq(|ts|, i requires 0 <= i < |ts| => Missing(ts[i], existing, TemplateDates(ts[i], currentDate)))
  }

  /** Each of `ts` paired with each of its own items `ms[i]`, in order. */
  function Collect<T, S>(ts: seq<T>, ms: seq<seq<S>>): seq<(T, S)>
    requires |ms| == |ts|
    decreases |ts|
  {
    if ts == [] then []
    else
      var n := |ts| - 1;
      Collect(ts[..n], ms[..n]) + Tagged(ts[n], ms[n])
  }

  lemma CollectSnoc<T, S>(ts: seq<T>, ms: seq<seq<S>>, i: int)
    requires |ms| == |ts| && 0 <= i < |ts|
    ensures Collect(ts[..i + 1], ms[..i + 1]) == Collect(ts[..i], ms[..i]) + Tagged(ts[i], ms[i])
  {
    assert ts[..i + 1][..i] == ts[..i];
    assert ms[..i + 1][..i] == ms[..i];
  }

  /** The (template, date) pairs a run over the templates `ts` pushes, in template order. */
  function Pending(ts: seq<Template>, existing: seq<Expense>, currentDate: Date): seq<(Template, string)>
    requires AllWellFormed(ts)
  {
    Collect(ts, MissingOf(ts, existing, currentDate))
  }

  /** `newExpenses` after a run over the templates `ts`. */
  function NewExpenses(ts: seq<Template>, existing: seq<Expense>, currentDate: Date, idOf: nat -> string): seq<Expense>
    requires AllWellFormed(ts)
  {
    Build(Pending(ts, existing, currentDate), idOf)
  }

  /** `updatedRecurringExpenses` after a run over the templates `ts`: each with its cursor moved. */
  function UpdatedTemplates(ts: seq<Template>, currentDate: Date): (r: seq<Template>)
    requires AllWellFormed(ts)
    ensures |r| == |ts| && AllWellFormed(r)
  {
    seq(|ts|, i requires 0 <= i < |ts| => Advanced(ts[i], TemplateDates(ts[i], currentDate)))
  }

  /** A prefix one longer, and a suffix one shorter. */
  lemma Slices<T>(s: seq<T>, i: int)
    requires 0 <= i < |s|
    ensures s[..i + 1] == s[..i] + [s[i]] && s[i..][1..] == s[i + 1..]
  {
  }

  lemma Whole<T>(s: seq<T>)
    ensures s[..|s|] == s
  {
  }

  /** Replacing the first element after a prefix. */
  lemma ReplaceAfter<T>(a: seq<T>, b: seq<T>, x: T)
    requires b != []
    ensures (a + b)[|a| := x] == a + [x] + b[1..]
  {
  }

  /**
    Lines 22-68 of the callback for one active template: the anchor
    `initialDate`, its advance, and the first-run override for a monthly
    template with a day of the month.
  */
  method FirstNextDate(recurringExpense: Template, currentDate: Date) returns (nextDate: Date)
    ensures nextDate == FirstCandidate(recurringExpense, currentDate)
  {
    var initialDate: Date;
    if recurringExpense.lastGenerated.None? {
      initialDate := recurringExpense.startDate;
      if recurringExpense.frequency == Monthly && recurringExpense.dayOfMonth != 0 {
        initialDate := MakeDay(initialDate.year, initialDate.month - 1, recurringExpense.dayOfMonth);
        if Before(initialDate, recurringExpense.startDate) {
          initialDate := MakeDay(initialDate.year, initialDate.month, initialDate.day);
        }
        if Before(currentDate, initialDate) {
          initialDate := recurringExpense.startDate;
        }
      }
    } else {
      initialDate := recurringExpense.lastGenerated.value;
    }
    assert initialDate == Anchor(recurringExpense, currentDate);
    nextDate := NextOccurrence(initialDate, recurringExpense.frequency, recurringExpense.dayOfMonth);
    if recurringExpense.lastGenerated.None? && recurringExpense.frequency == Monthly && recurringExpense.dayOfMonth != 0 {
      var thisMonthDate := NewDate(currentDate.year, currentDate.month - 1, recurringExpense.dayOfMonth);
      if thisMonthDate.month == currentDate.month && Before(recurringExpense.startDate, thisMonthDate) &&
         LessEq(thisMonthDate, currentDate) {
        nextDate := thisMonthDate;
      }
    }
  }

  /**
    One turn of the catch-up loop (lines 73-106) at `nextDate`: pushes the
    expense for it unless one is recorded, moves the cursor onto it and
    computes the next date.
  */
  method CatchUpTurn(
    recurringExpense: Template, existingExpenses: seq<Expense>, nextDate: Date,
    newExpenses: seq<Expense>, updated: Template,
    ghost pending: seq<(Template, string)>, ghost done: seq<Date>, idOf: nat -> string)
    returns (pushed: seq<Expense>, moved: Template, after: Date)
    requires newExpenses == Build(pending + Tagged(recurringExpense, Missing(recurringExpense, existingExpenses, done)), idOf)
    requires updated == Advanced(recurringExpense, done)
    ensures pushed == Build(pending + Tagged(recurringExpense, Missing(recurringExpense, existingExpenses, done + [nextDate])), idOf)
    ensures moved == Advanced(recurringExpense, done + [nextDate])
    ensures after == NextOccurrence(nextDate, recurringExpense.frequency, recurringExpense.dayOfMonth)
  {
    var formattedDate := FormatDate(nextDate);
    var alreadyExists := AlreadyExists(existingExpenses, updated.id, formattedDate);
    PushStep(pending, recurringExpense, existingExpenses, done, nextDate, idOf);
    pushed := newExpenses;
    if !alreadyExists {
      var expense := ExpenseFrom(updated, formattedDate, idOf(|newExpenses|));
      SnapshotIgnoresCursor(recurringExpense, done, formattedDate, idOf(|newExpenses|));
      pushed := pushed + [expense];
    }
    moved := updated.(lastGenerated := Some(nextDate));
    after := NextOccurrence(nextDate, moved.frequency, moved.dayOfMonth);
  }

  /**
    The catch-up loop (lines 71-107) for one template, entered with
    `nextDate`: pushes the missing expenses onto `newExpenses` and moves the
    cursor of the template it returns. The loop stops once the date passes
    `currentDate` or the advance stays on the same day.
  */
  method CatchUp(
    recurringExpense: Template, existingExpenses: seq<Expense>, currentDate: Date, nextDate: Date,
    newExpenses: seq<Expense>, ghost pending: seq<(Template, string)>, idOf: nat -> string)
    returns (pushed: seq<Expense>, updated: Template)
    requires WellFormed(recurringExpense)
    requires newExpenses == Build(pending, idOf)
    ensures var dates := Occurrences(recurringExpense.frequency, recurringExpense.dayOfMonth, currentDate, nextDate);
            pushed == Build(pending + Tagged(recurringExpense, Missing(recurringExpense, existingExpenses, dates)), idOf) &&
            updated == Advanced(recurringExpense, dates)
  {
    var frequency, dayOfMonth := recurringExpense.frequency, recurringExpense.dayOfMonth;
    ghost var all := Occurrences(frequency, dayOfMonth, currentDate, nextDate);
    ghost var done: seq<Date> := [];
    assert pending + Tagged(recurringExpense, []) == pending;
    pushed, updated := newExpenses, recurringExpense;
    var nextDate := nextDate;
    while LessEq(nextDate, currentDate)
      invariant done + Occurrences(frequency, dayOfMonth, currentDate, nextDate) == all
      invariant pushed == Build(pending + Tagged(recurringExpense, Missing(recurringExpense, existingExpenses, done)), idOf)
      invariant updated == Advanced(recurringExpense, done)
      decreases Serial(currentDate) - Serial(nextDate)
    {
      var lastGenerated := nextDate;
      pushed, updated, nextDate := CatchUpTurn(recurringExpense, existingExpenses, lastGenerated, pushed, updated, pending, done, idOf);
      OccurrencesAdvance(frequency, dayOfMonth, currentDate, lastGenerated, done, all);
      done := done + [lastGenerated];
      if IsSameDay(nextDate, lastGenerated) {
        assert done == all;
        break;
      }
    }
    assert done == all;
  }

  /**
    The `forEach` callback (lines 18-110) for one template: nothing for an
    inactive one, otherwise the first date, then the catch-up loop.
  */
  method ProcessTemplate(
    recurringExpense: Template, existingExpenses: seq<Expense>, currentDate: Date,
    newExpenses: seq<Expense>, ghost pending: seq<(Template, string)>, idOf: nat -> string)
    returns (pushed: seq<Expense>, updated: Template)
    requires WellFormed(recurringExpense)
    requires newExpenses == Build(pending, idOf)
    ensures var dates := TemplateDates(recurringExpense, currentDate);
            pushed == Build(pending + Tagged(recurringExpense, Missing(recurringExpense, existingExpenses, dates)), idOf) &&
            updated == Advanced(recurringExpense, dates)
  {
    if !recurringExpense.active {
      assert pending + Tagged(recurringExpense, []) == pending;
      return newExpenses, recurringExpense;
    }
    var nextDate := FirstNextDate(recurringExpense, currentDate);
    pushed, updated := CatchUp(recurringExpense, existingExpenses, currentDate, nextDate, newExpenses, pending, idOf);
  }

  /**
    The source's loop over the templates. `idOf(k)` stands for the
    `generateId()` of the k-th expense pushed; the input sequence, a value,
    is never changed.
  */
  method GenerateExpensesFromRecurring(
    recurringExpenses: seq<Template>, existingExpenses: seq<Expense>, currentDate: Date, idOf: nat -> string)
    returns (newExpenses: seq<Expense>, updatedRecurringExpenses: seq<Template>)
    requires AllWellFormed(recurringExpenses)
    ensures newExpenses == NewExpenses(recurringExpenses, existingExpenses, currentDate, idOf)
    ensures updatedRecurringExpenses == UpdatedTemplates(recurringExpenses, currentDate)
  {
    ghost var ms := MissingOf(recurringExpenses, existingExpenses, currentDate);
    ghost var updated := UpdatedTemplates(recurringExpenses, currentDate);
    newExpenses := [];
    updatedRecurringExpenses := recurringExpenses;
    ghost var pending: seq<(Template, string)> := [];
    var i := 0;
    while i < |updatedRecurringExpenses|
      invariant 0 <= i <= |recurringExpenses|
      invariant pending == Collect(recurringExpenses[..i], ms[..i])
      invariant newExpenses == Build(pending, idOf)
      invariant updatedRecurringExpenses == updated[..i] + recurringExpenses[i..]
    {
      var recurringExpense := updatedRecurringExpenses[i];
      assert recurringExpense == recurringExpenses[i];
      newExpenses, recurringExpense := ProcessTemplate(recurringExpense, existingExpenses, currentDate, newExpenses, pending, idOf);
      assert ms[i] == Missing(recurringExpenses[i], existingExpenses, TemplateDates(recurringExpenses[i], currentDate));
      assert updated[i] == recurringExpense;
      ReplaceAfter(updated[..i], recurringExpenses[i..], recurringExpense);
      updatedRecurringExpenses := updatedRecurringExpenses[i := recurringExpense];
      Slices(updated, i);
      Slices(recurringExpenses, i);
      CollectSnoc(recurringExpenses, ms, i);
      pending := pending + Tagged(recurringExpenses[i], ms[i]);
      i := i + 1;
    }
    Whole(recurringExpenses);
    Whole(ms);
    Whole(updated);
  }
}
