/**
  What one run of `generateExpensesFromRecurring` promises, stated on
  `NewExpenses`, `UpdatedTemplates` and `TemplateDates`, the functions the
  method `GenerateExpensesFromRecurring` is proved to compute.
*/
module RecurringExpenseProperties {
  import opened Options
  import opened JsDate
  import opened DateFormat
  import opened Recurrence
  import opened RecurringExpenseService

  // ---------------------------------------------------------------------------
  // The dates processed for one template

  /** Only an active template has processed dates, and none of them is after `currentDate`. */
  lemma TemplateDatesWithin(t: Template, currentDate: Date)
    requires WellFormed(t)
    ensures var dates := TemplateDates(t, currentDate);
            (dates != [] ==> t.active) &&
            (forall k :: 0 <= k < |dates| ==> LessEq(dates[k], currentDate))
  {
    if t.active {
      var first := FirstCandidate(t, currentDate);
      assert TemplateDates(t, currentDate) == Occurrences(t.frequency, t.dayOfMonth, currentDate, first);
      OccurrencesWithin(t.frequency, t.dayOfMonth, currentDate, first);
    }
  }

  /** The processed dates of a template are pairwise distinct. */
  lemma TemplateDatesDistinct(t: Template, currentDate: Date)
    requires WellFormed(t)
    ensures var dates := TemplateDates(t, currentDate);
            forall j, k :: 0 <= j < k < |dates| ==> dates[j] != dates[k]
  {
    if t.active {
      var first := FirstCandidate(t, currentDate);
      var dates := Occurrences(t.frequency, t.dayOfMonth, currentDate, first);
      assert TemplateDates(t, currentDate) == dates;
      OccurrencesIncreasing(t.frequency, t.dayOfMonth, currentDate, first);
      forall j, k | 0 <= j < k < |dates|
        ensures dates[j] != dates[k]
      {
        assert Before(dates[j], dates[k]);
      }
    }
  }

  /**
    The anchor of a template's first run (lines 25-47) is never before its
    start date; when it is not the start date itself it is not after
    `currentDate`. A template with a cursor is anchored on it.
  */
  lemma AnchorBounds(t: Template, currentDate: Date)
    requires WellFormed(t)
    ensures var a := Anchor(t, currentDate);
            (t.lastGenerated.Some? ==> a == t.lastGenerated.value) &&
            (t.lastGenerated.None? ==> LessEq(t.startDate, a) && (a == t.startDate || LessEq(a, currentDate)))
  {
    if FirstMonthlyRun(t) {
      var start := t.startDate;
      var adjusted := MakeDay(start.year, start.month - 1, t.dayOfMonth);
      var shifted := if Before(adjusted, start) then MakeDay(adjusted.year, adjusted.month, adjusted.day) else adjusted;
      assert Anchor(t, currentDate) == if Before(currentDate, shifted) then start else shifted;
      AdjustedNotBeforeStart(start, t.dayOfMonth);
    }
  }

  /**
    Lines 32-37: the start date's month with the day set to `dayOfMonth`,
    moved one month on when that is before the start date, is not before
    the start date.
  */
  lemma AdjustedNotBeforeStart(start: Date, dayOfMonth: int)
    requires dayOfMonth >= 1
    ensures var adjusted := MakeDay(start.year, start.month - 1, dayOfMonth);
            var shifted := if Before(adjusted, start) then MakeDay(adjusted.year, adjusted.month, adjusted.day) else adjusted;
            LessEq(start, shifted)
  {
    var adjusted := MakeDay(start.year, start.month - 1, dayOfMonth);
    if Before(adjusted, start) {
      SetDateSerial(start, dayOfMonth);
      assert dayOfMonth < start.day;
      SetDateInMonth(start.year, start.month, dayOfMonth);
      assert adjusted == Civil(start.year, start.month, dayOfMonth);
      var moved := MakeDay(adjusted.year, adjusted.month, adjusted.day);
      SetMonthReaches(adjusted);
      assert LexBefore(start, moved);
      SerialOrder(start, moved);
    }
  }

  /** `setDate(dayOfMonth)` on `d` lies `dayOfMonth - 1` days after the first of `d`'s month. */
  lemma SetDateSerial(d: Date, dayOfMonth: int)
    ensures Serial(MakeDay(d.year, d.month - 1, dayOfMonth)) == FirstDayOfMonth(d.year, d.month) + dayOfMonth - 1
  {
    MakeDaySerial(d.year, d.month - 1, dayOfMonth);
    MonthIndex(d.month - 1, 0, d.month - 1);
  }

  /**
    `thisMonthDate` (line 58) lies `dayOfMonth - 1` days after the first of
    `currentDate`'s month, taken in year 1900 + year for the years 0 to 99.
  */
  lemma ThisMonthDateSerial(currentDate: Date, dayOfMonth: int)
    ensures Serial(ThisMonthDate(currentDate, dayOfMonth))
            == FirstDayOfMonth(FullYear(currentDate.year), currentDate.month) + dayOfMonth - 1
  {
    MakeDaySerial(FullYear(currentDate.year), currentDate.month - 1, dayOfMonth);
    MonthIndex(currentDate.month - 1, 0, currentDate.month - 1);
  }

  /**
    When the month the constructor uses has day `dayOfMonth`, `thisMonthDate`
    is that day (of year 1900 + year for the years 0 to 99).
  */
  lemma ThisMonthDateInMonth(currentDate: Date, dayOfMonth: int)
    requires 1 <= dayOfMonth <= DaysInMonth(FullYear(currentDate.year), currentDate.month)
    ensures ThisMonthDate(currentDate, dayOfMonth) == Civil(FullYear(currentDate.year), currentDate.month, dayOfMonth)
  {
    SetDateInMonth(FullYear(currentDate.year), currentDate.month, dayOfMonth);
  }

  /**
    For a `currentDate` in the years 0 to 99, `thisMonthDate` falls in year
    1900 + year and so after `currentDate`: the override of line 66 cannot fire.
  */
  lemma ThisMonthDateEarlyYears(currentDate: Date, dayOfMonth: int)
    requires 0 <= currentDate.year <= 99 && dayOfMonth >= 1
    ensures Before(currentDate, ThisMonthDate(currentDate, dayOfMonth))
  {
    var y := currentDate.year;
    ThisMonthDateSerial(currentDate, dayOfMonth);
    DayFromYearMonotone(y, 1900 + y);
    if currentDate.month < 12 {
      MonthsInOrder(y, currentDate.month, 12);
    }
  }

  /**
    The first-run override (lines 53-68) replaces the advance of the anchor
    exactly when `currentDate` is not in the years 0 to 99 and the
    template's day of the month in `currentDate`'s month is not after
    `currentDate` and strictly after the start date; it then yields that day.
  */
  lemma FirstRunOverride(t: Template, currentDate: Date)
    requires WellFormed(t) && FirstMonthlyRun(t)
    ensures var dom := t.dayOfMonth;
            if !(0 <= currentDate.year <= 99) && dom <= currentDate.day &&
               Before(t.startDate, Civil(currentDate.year, currentDate.month, dom))
            then FirstCandidate(t, currentDate) == Civil(currentDate.year, currentDate.month, dom)
            else FirstCandidate(t, currentDate) == NextOccurrence(Anchor(t, currentDate), Monthly, dom)
  {
    var dom := t.dayOfMonth;
    if 0 <= currentDate.year <= 99 {
      ThisMonthDateEarlyYears(currentDate, dom);
    } else {
      ThisMonthDateSerial(currentDate, dom);
      if dom <= DaysInMonth(currentDate.year, currentDate.month) {
        ThisMonthDateInMonth(currentDate, dom);
      }
    }
  }

  /**
    A monthly template run for the first time on its day of the month,
    after its start date, processes exactly that day: the months between
    the start date and `currentDate` are skipped. In the years 0 to 99 the
    override does not fire and the run starts from the anchor's advance.
  */
  lemma FirstRunOnDueDay(t: Template, currentDate: Date)
    requires WellFormed(t) && t.active && FirstMonthlyRun(t)
    requires t.dayOfMonth == currentDate.day && Before(t.startDate, currentDate)
    ensures !(0 <= currentDate.year <= 99) ==> TemplateDates(t, currentDate) == [currentDate]
    ensures 0 <= currentDate.year <= 99 ==>
              TemplateDates(t, currentDate)
                == Occurrences(Monthly, t.dayOfMonth, currentDate,
                               NextOccurrence(Anchor(t, currentDate), Monthly, t.dayOfMonth))
  {
    FirstRunOverride(t, currentDate);
    if !(0 <= currentDate.year <= 99) {
      assert FirstCandidate(t, currentDate) == currentDate;
      var after := NextOccurrence(currentDate, Monthly, t.dayOfMonth);
      AdvanceIsLater(currentDate, Monthly, t.dayOfMonth);
      OccurrencesStep(Monthly, t.dayOfMonth, currentDate, currentDate);
      OccurrencesStart(Monthly, t.dayOfMonth, currentDate, after);
    }
  }

  /**
    A frequency the `switch` does not know processes at most one date, the
    anchor, when the template is active and the anchor is not after
    `currentDate`: the same-day guard (line 106) stops the loop.
  */
  lemma UnknownFrequencyOnce(t: Template, currentDate: Date)
    requires WellFormed(t) && t.frequency == Other
    ensures var a := Anchor(t, currentDate);
            TemplateDates(t, currentDate) == if t.active && LessEq(a, currentDate) then [a] else []
  {
    var a := Anchor(t, currentDate);
    assert FirstCandidate(t, currentDate) == a;
    if LessEq(a, currentDate) {
      OccurrencesStep(Other, t.dayOfMonth, currentDate, a);
    }
  }

  /**
    For a known frequency, and outside the first-run override, every
    processed date is strictly after the anchor: the anchor itself is not
    processed.
  */
  lemma AnchorNotProcessed(t: Template, currentDate: Date)
    requires WellFormed(t) && t.frequency != Other && !FirstMonthlyRun(t)
    ensures var dates := TemplateDates(t, currentDate);
            forall k :: 0 <= k < |dates| ==> Before(Anchor(t, currentDate), dates[k])
  {
    if t.active {
      var a := Anchor(t, currentDate);
      var first := FirstCandidate(t, currentDate);
      assert first == NextOccurrence(a, t.frequency, t.dayOfMonth);
      assert TemplateDates(t, currentDate) == Occurrences(t.frequency, t.dayOfMonth, currentDate, first);
      AdvanceIsLater(a, t.frequency, t.dayOfMonth);
      OccurrencesWithin(t.frequency, t.dayOfMonth, currentDate, first);
    }
  }

  /**
    On a first run (no `lastGenerated`), no date before the start date is
    processed.
  */
  lemma FirstRunNotBeforeStart(t: Template, currentDate: Date)
    requires WellFormed(t) && t.lastGenerated.None?
    ensures forall k :: 0 <= k < |TemplateDates(t, currentDate)| ==>
              LessEq(t.startDate, TemplateDates(t, currentDate)[k])
  {
    if t.active {
      var a := Anchor(t, currentDate);
      var first := FirstCandidate(t, currentDate);
      AnchorBounds(t, currentDate);
      AdvanceIsLater(a, t.frequency, t.dayOfMonth);
      assert LessEq(t.startDate, first);
      assert TemplateDates(t, currentDate) == Occurrences(t.frequency, t.dayOfMonth, currentDate, first);
      OccurrencesWithin(t.frequency, t.dayOfMonth, currentDate, first);
    }
  }

  /**
    The cursor of a processed template (lines 100-103) lands on its last
    processed date, which is not after `currentDate`; a cursor never moves
    backwards, and with a known frequency it moves strictly forward.
    Without processed dates the template is unchanged.
  */
  lemma CursorMoves(t: Template, currentDate: Date)
    requires WellFormed(t)
    ensures var dates := TemplateDates(t, currentDate);
            var u := Advanced(t, dates);
            u == t.(lastGenerated := u.lastGenerated) &&
            (dates == [] ==> u == t) &&
            (dates != [] ==>
               u.lastGenerated == Some(dates[|dates| - 1]) && LessEq(dates[|dates| - 1], currentDate) &&
               (t.lastGenerated.None? ==> LessEq(t.startDate, u.lastGenerated.value)) &&
               (t.lastGenerated.Some? ==> LessEq(t.lastGenerated.value, u.lastGenerated.value)) &&
               (t.lastGenerated.Some? && t.frequency != Other ==> Before(t.lastGenerated.value, u.lastGenerated.value)))
  {
    var dates := TemplateDates(t, currentDate);
    if dates != [] {
      assert t.active;
      var first := FirstCandidate(t, currentDate);
      assert dates == Occurrences(t.frequency, t.dayOfMonth, currentDate, first);
      OccurrencesWithin(t.frequency, t.dayOfMonth, currentDate, first);
      assert LessEq(first, dates[|dates| - 1]) && LessEq(dates[|dates| - 1], currentDate);
      if t.lastGenerated.Some? {
        var last := t.lastGenerated.value;
        assert first == NextOccurrence(last, t.frequency, t.dayOfMonth);
        AdvanceIsLater(last, t.frequency, t.dayOfMonth);
      } else {
        FirstRunNotBeforeStart(t, currentDate);
      }
    }
  }


  /**
    A template with a cursor resumes from it: its first candidate is the
    advance of `lastGenerated` (lines 44-50).
  */
  lemma ResumeFromCursor(t: Template, currentDate: Date)
    requires WellFormed(t) && t.lastGenerated.Some?
    ensures FirstCandidate(t, currentDate) == NextOccurrence(t.lastGenerated.value, t.frequency, t.dayOfMonth)
  {
  }

  /**
    Entered again with the advance of the last processed date, the
    catch-up loop processes nothing, or that date again when the advance
    stays on it.
  */
  lemma OccurrencesResume(frequency: Frequency, dayOfMonth: int, currentDate: Date, next: Date)
    requires frequency == Monthly ==> dayOfMonth >= 0
    ensures var dates := Occurrences(frequency, dayOfMonth, currentDate, next);
            dates != [] ==>
              var last := dates[|dates| - 1];
              var after := NextOccurrence(last, frequency, dayOfMonth);
              var again := Occurrences(frequency, dayOfMonth, currentDate, after);
              again == [] || (again == [last] && after == last)
  {
    var dates := Occurrences(frequency, dayOfMonth, currentDate, next);
    if dates != [] {
      var last := dates[|dates| - 1];
      var after := NextOccurrence(last, frequency, dayOfMonth);
      OccurrencesLast(frequency, dayOfMonth, currentDate, next);
      if Before(currentDate, after) {
        OccurrencesStart(frequency, dayOfMonth, currentDate, after);
      } else {
        OccurrencesWithin(frequency, dayOfMonth, currentDate, next);
        OccurrencesStep(frequency, dayOfMonth, currentDate, last);
      }
    }
  }

  /**
    Once a template's cursor is on the last processed date, the dates it
    processes from there on the same day are none, or that date again when
    the frequency is unknown.
  */
  lemma ResumeAfterLast(t: Template, currentDate: Date)
    requires WellFormed(t) && t.active
    ensures var dates := TemplateDates(t, currentDate);
            dates != [] ==>
              var last := dates[|dates| - 1];
              var again := TemplateDates(t.(lastGenerated := Some(last)), currentDate);
              again == [] || (again == [last] && NextOccurrence(last, t.frequency, t.dayOfMonth) == last)
  {
    var first := FirstCandidate(t, currentDate);
    var dates := Occurrences(t.frequency, t.dayOfMonth, currentDate, first);
    assert TemplateDates(t, currentDate) == dates;
    if dates != [] {
      var last := dates[|dates| - 1];
      var u := t.(lastGenerated := Some(last));
      var after := NextOccurrence(last, t.frequency, t.dayOfMonth);
      ResumeFromCursor(u, currentDate);
      assert TemplateDates(u, currentDate) == Occurrences(t.frequency, t.dayOfMonth, currentDate, after);
      OccurrencesResume(t.frequency, t.dayOfMonth, currentDate, first);
    }
  }

  // ---------------------------------------------------------------------------
  // Pairing each template with its own items

  /** Every collected pair is one of `ts` with one of its own items. */
  lemma {:induction false} CollectFrom<T, S>(ts: seq<T>, ms: seq<seq<S>>)
    requires |ms| == |ts|
    ensures forall k :: 0 <= k < |Collect(ts, ms)| ==>
              exists i :: 0 <= i < |ts| && Collect(ts, ms)[k].0 == ts[i] && Collect(ts, ms)[k].1 in ms[i]
    decreases |ts|
  {
    if ts != [] {
      var n := |ts| - 1;
      var q := Collect(ts[..n], ms[..n]);
      var p := Collect(ts, ms);
      CollectFrom(ts[..n], ms[..n]);
      assert p == q + Tagged(ts[n], ms[n]);
      forall k | 0 <= k < |p|
        ensures exists i :: 0 <= i < |ts| && p[k].0 == ts[i] && p[k].1 in ms[i]
      {
        if k < |q| {
          var i :| 0 <= i < n && q[k].0 == ts[..n][i] && q[k].1 in ms[..n][i];
          assert p[k] == q[k] && ts[..n][i] == ts[i] && ms[..n][i] == ms[i];
        } else {
          assert p[k] == (ts[n], ms[n][k - |q|]);
        }
      }
    } else {
      assert Collect(ts, ms) == [];
    }
  }

  /** Every item of every one of `ts` is collected with it. */
  lemma {:induction false} CollectContains<T, S>(ts: seq<T>, ms: seq<seq<S>>, i: int, x: S)
    requires |ms| == |ts| && 0 <= i < |ts| && x in ms[i]
    ensures (ts[i], x) in Collect(ts, ms)
    decreases |ts|
  {
    var n := |ts| - 1;
    var q := Collect(ts[..n], ms[..n]);
    assert Collect(ts, ms) == q + Tagged(ts[n], ms[n]);
    if i == n {
      var j :| 0 <= j < |ms[n]| && ms[n][j] == x;
      assert Tagged(ts[n], ms[n])[j] == (ts[i], x);
    } else {
      assert ts[..n][i] == ts[i] && ms[..n][i] == ms[i];
      CollectContains(ts[..n], ms[..n], i, x);
    }
  }

  /** Distinct `ts`, each with distinct items, give distinct pairs. */
  lemma {:induction false} CollectDistinct<T, S>(ts: seq<T>, ms: seq<seq<S>>)
    requires |ms| == |ts|
    requires forall i, j :: 0 <= i < j < |ts| ==> ts[i] != ts[j]
    requires forall i, j, k :: 0 <= i < |ms| && 0 <= j < k < |ms[i]| ==> ms[i][j] != ms[i][k]
    ensures forall j, k :: 0 <= j < k < |Collect(ts, ms)| ==> Collect(ts, ms)[j] != Collect(ts, ms)[k]
    decreases |ts|
  {
    if ts != [] {
      var n := |ts| - 1;
      var q := Collect(ts[..n], ms[..n]);
      var p := Collect(ts, ms);
      CollectDistinct(ts[..n], ms[..n]);
      CollectFrom(ts[..n], ms[..n]);
      assert p == q + Tagged(ts[n], ms[n]);
      forall j, k | 0 <= j < k < |p|
        ensures p[j] != p[k]
      {
        if k < |q| {
          assert p[j] == q[j] && p[k] == q[k];
        } else if j >= |q| {
          assert p[j] == (ts[n], ms[n][j - |q|]) && p[k] == (ts[n], ms[n][k - |q|]);
        } else {
          var i :| 0 <= i < n && q[j].0 == ts[..n][i] && q[j].1 in ms[..n][i];
          assert p[j].0 == ts[i] && p[k].0 == ts[n];
        }
      }
    } else {
      assert Collect(ts, ms) == [];
    }
  }

  /** Nothing is collected when no one of `ts` has an item. */
  lemma {:induction false} CollectEmpty<T, S>(ts: seq<T>, ms: seq<seq<S>>)
    requires |ms| == |ts|
    requires forall i :: 0 <= i < |ms| ==> ms[i] == []
    ensures Collect(ts, ms) == []
    decreases |ts|
  {
    if ts != [] {
      var n := |ts| - 1;
      assert ms[n] == [];
      CollectEmpty(ts[..n], ms[..n]);
    }
  }

  // ---------------------------------------------------------------------------
  // The expenses of a run

  /**
    A rendering pushed for a template is that of one of its processed
    dates, which is not after `currentDate` and has no recorded expense of
    the template; the template is active.
  */
  lemma MissingFrom(t: Template, existing: seq<Expense>, currentDate: Date, s: string)
    requires WellFormed(t)
    requires s in Missing(t, existing, TemplateDates(t, currentDate))
    ensures t.active
    ensures exists d :: d in TemplateDates(t, currentDate) && s == FormatDate(d) &&
              LessEq(d, currentDate) && !AlreadyExists(existing, t.id, s)
  {
    var dates := TemplateDates(t, currentDate);
    MissingSpec(t, existing, dates);
    TemplateDatesWithin(t, currentDate);
    var d :| d in dates && s == FormatDate(d);
    var k :| 0 <= k < |dates| && dates[k] == d;
    assert LessEq(dates[k], currentDate);
  }

  /**
    Each new expense (lines 85-95) copies an active template of the run,
    on the rendering of one of its processed dates, which is not after
    `currentDate` and for which no expense of that template was recorded;
    the k-th new expense has id `idOf(k)`.
  */
  lemma NewExpenseFrom(ts: seq<Template>, existing: seq<Expense>, currentDate: Date, idOf: nat -> string)
    requires AllWellFormed(ts)
    ensures var es := NewExpenses(ts, existing, currentDate, idOf);
            forall k :: 0 <= k < |es| ==>
              exists i, d :: 0 <= i < |ts| && d in TemplateDates(ts[i], currentDate) &&
                var t := ts[i];
                t.active && LessEq(d, currentDate) && !AlreadyExists(existing, t.id, FormatDate(d)) &&
                es[k] == Expense(idOf(k), FormatDate(d), t.name, if t.desc == "" then t.name else t.desc,
                                 t.amount, t.expenseType, t.pType, true, t.id)
  {
    var es := NewExpenses(ts, existing, currentDate, idOf);
    var ms := MissingOf(ts, existing, currentDate);
    var p := Collect(ts, ms);
    assert es == Build(p, idOf);
    CollectFrom(ts, ms);
    forall k | 0 <= k < |es|
      ensures exists i, d :: 0 <= i < |ts| && d in TemplateDates(ts[i], currentDate) &&
                var t := ts[i];
                t.active && LessEq(d, currentDate) && !AlreadyExists(existing, t.id, FormatDate(d)) &&
                es[k] == Expense(idOf(k), FormatDate(d), t.name, if t.desc == "" then t.name else t.desc,
                                 t.amount, t.expenseType, t.pType, true, t.id)
    {
      var i :| 0 <= i < |ts| && p[k].0 == ts[i] && p[k].1 in ms[i];
      MissingFrom(ts[i], existing, currentDate, p[k].1);
      var d :| d in TemplateDates(ts[i], currentDate) && p[k].1 == FormatDate(d) &&
               LessEq(d, currentDate) && !AlreadyExists(existing, ts[i].id, p[k].1);
      assert es[k] == ExpenseFrom(ts[i], FormatDate(d), idOf(k));
    }
  }

  /**
    No new expense repeats the template and date of a recurring expense
    that was already recorded (lines 76-83).
  */
  lemma NewExpensesNotRecorded(ts: seq<Template>, existing: seq<Expense>, currentDate: Date, idOf: nat -> string)
    requires AllWellFormed(ts)
    ensures var es := NewExpenses(ts, existing, currentDate, idOf);
            forall k, x :: 0 <= k < |es| && 0 <= x < |existing| && existing[x].isRecurring ==>
              existing[x].recurringId != es[k].recurringId || existing[x].date != es[k].date
  {
    var es := NewExpenses(ts, existing, currentDate, idOf);
    var ms := MissingOf(ts, existing, currentDate);
    var p := Collect(ts, ms);
    assert es == Build(p, idOf);
    CollectFrom(ts, ms);
    forall k, x | 0 <= k < |es| && 0 <= x < |existing| && existing[x].isRecurring
      ensures existing[x].recurringId != es[k].recurringId || existing[x].date != es[k].date
    {
      var i :| 0 <= i < |ts| && p[k].0 == ts[i] && p[k].1 in ms[i];
      MissingFrom(ts[i], existing, currentDate, p[k].1);
      assert es[k] == ExpenseFrom(ts[i], p[k].1, idOf(k));
    }
  }

  /**
    After a run, every processed date of every template is recorded: by an
    existing expense or by a new one.
  */
  lemma ProcessedDatesRecorded(ts: seq<Template>, existing: seq<Expense>, currentDate: Date, idOf: nat -> string)
    requires AllWellFormed(ts)
    ensures var recorded := existing + NewExpenses(ts, existing, currentDate, idOf);
            forall i, d :: 0 <= i < |ts| && d in TemplateDates(ts[i], currentDate) ==>
              AlreadyExists(recorded, ts[i].id, FormatDate(d))
  {
    forall i, d | 0 <= i < |ts| && d in TemplateDates(ts[i], currentDate)
      ensures AlreadyExists(existing + NewExpenses(ts, existing, currentDate, idOf), ts[i].id, FormatDate(d))
    {
      RecordedAt(ts, existing, currentDate, idOf, i, d);
    }
  }

  /** One processed date of the `i`-th template is recorded after the run. */
  lemma RecordedAt(ts: seq<Template>, existing: seq<Expense>, currentDate: Date, idOf: nat -> string, i: int, d: Date)
    requires AllWellFormed(ts) && 0 <= i < |ts| && d in TemplateDates(ts[i], currentDate)
    ensures AlreadyExists(existing + NewExpenses(ts, existing, currentDate, idOf), ts[i].id, FormatDate(d))
  {
    var ms := MissingOf(ts, existing, currentDate);
    var p := Collect(ts, ms);
    var es := NewExpenses(ts, existing, currentDate, idOf);
    assert es == Build(p, idOf);
    var s := FormatDate(d);
    if AlreadyExists(existing, ts[i].id, s) {
      var x :| 0 <= x < |existing| && existing[x].isRecurring && existing[x].recurringId == ts[i].id &&
               existing[x].date == s;
      assert (existing + es)[x] == existing[x];
    } else {
      MissingSpec(ts[i], existing, TemplateDates(ts[i], currentDate));
      assert s in ms[i];
      CollectContains(ts, ms, i, s);
      var k :| 0 <= k < |p| && p[k] == (ts[i], s);
      assert es[k] == ExpenseFrom(ts[i], s, idOf(k));
      assert (existing + es)[|existing| + k] == es[k];
    }
  }

  /**
    When the templates have distinct ids, the new expenses of one run have
    pairwise distinct (template id, date) pairs.
  */
  lemma NewExpensesDistinct(ts: seq<Template>, existing: seq<Expense>, currentDate: Date, idOf: nat -> string)
    requires AllWellFormed(ts)
    requires forall i, j :: 0 <= i < j < |ts| ==> ts[i].id != ts[j].id
    ensures var es := NewExpenses(ts, existing, currentDate, idOf);
            forall j, k :: 0 <= j < k < |es| ==> es[j].recurringId != es[k].recurringId || es[j].date != es[k].date
  {
    var ms := MissingOf(ts, existing, currentDate);
    var p := Collect(ts, ms);
    var es := NewExpenses(ts, existing, currentDate, idOf);
    assert es == Build(p, idOf);
    forall i | 0 <= i < |ms|
      ensures forall j, k :: 0 <= j < k < |ms[i]| ==> ms[i][j] != ms[i][k]
    {
      TemplateDatesDistinct(ts[i], currentDate);
      MissingDistinct(ts[i], existing, TemplateDates(ts[i], currentDate));
    }
    CollectDistinct(ts, ms);
    CollectFrom(ts, ms);
    forall j, k | 0 <= j < k < |es|
      ensures es[j].recurringId != es[k].recurringId || es[j].date != es[k].date
    {
      assert es[j] == ExpenseFrom(p[j].0, p[j].1, idOf(j)) && es[k] == ExpenseFrom(p[k].0, p[k].1, idOf(k));
      var a :| 0 <= a < |ts| && p[j].0 == ts[a] && p[j].1 in ms[a];
      var b :| 0 <= b < |ts| && p[k].0 == ts[b] && p[k].1 in ms[b];
      assert p[j] != p[k];
      if a != b {
        assert ts[a].id != ts[b].id;
      }
    }
  }

  // ---------------------------------------------------------------------------
  // The updated templates and a second run

  /**
    The updated list has the input's length and order; an updated template
    differs from its input at most in `lastGenerated`, and an inactive one
    not at all (lines 16-19, 101).
  */
  lemma UpdatedTemplatesShape(ts: seq<Template>, currentDate: Date)
    requires AllWellFormed(ts)
    ensures var u := UpdatedTemplates(ts, currentDate);
            |u| == |ts| &&
            forall i :: 0 <= i < |ts| ==>
              u[i] == ts[i].(lastGenerated := u[i].lastGenerated) && (!ts[i].active ==> u[i] == ts[i])
  {
    var u := UpdatedTemplates(ts, currentDate);
    forall i | 0 <= i < |ts|
      ensures u[i] == ts[i].(lastGenerated := u[i].lastGenerated) && (!ts[i].active ==> u[i] == ts[i])
    {
      CursorMoves(ts[i], currentDate);
      TemplateDatesWithin(ts[i], currentDate);
    }
  }

  /**
    Run again on the same day, with the processed dates recorded, a
    template yields nothing more and keeps its cursor.
  */
  lemma SecondRunTemplate(t: Template, recorded: seq<Expense>, currentDate: Date)
    requires WellFormed(t)
    requires forall d :: d in TemplateDates(t, currentDate) ==> AlreadyExists(recorded, t.id, FormatDate(d))
    ensures var u := Advanced(t, TemplateDates(t, currentDate));
            var again := TemplateDates(u, currentDate);
            WellFormed(u) && Missing(u, recorded, again) == [] && Advanced(u, again) == u
  {
    var dates := TemplateDates(t, currentDate);
    if dates != [] {
      TemplateDatesWithin(t, currentDate);
      ResumeAfterLast(t, currentDate);
      var last := dates[|dates| - 1];
      var u := t.(lastGenerated := Some(last));
      var again := TemplateDates(u, currentDate);
      if again != [] {
        assert again == [] + [last];
        MissingSnoc(u, recorded, [], last);
      }
    }
  }

  /** The second run over the updated templates collects nothing and moves no cursor. */
  lemma SecondRun(ts: seq<Template>, recorded: seq<Expense>, currentDate: Date)
    requires AllWellFormed(ts)
    requires forall i, d :: 0 <= i < |ts| && d in TemplateDates(ts[i], currentDate) ==>
               AlreadyExists(recorded, ts[i].id, FormatDate(d))
    ensures var u := UpdatedTemplates(ts, currentDate);
            Pending(u, recorded, currentDate) == [] && UpdatedTemplates(u, currentDate) == u
  {
    var u := UpdatedTemplates(ts, currentDate);
    var ms := MissingOf(u, recorded, currentDate);
    var v := UpdatedTemplates(u, currentDate);
    forall i | 0 <= i < |u|
      ensures ms[i] == [] && v[i] == u[i]
    {
      SecondRunTemplate(ts[i], recorded, currentDate);
    }
    CollectEmpty(u, ms);
  }

  /**
    A run is idempotent: run again on the same day with the updated
    templates and the new expenses recorded, it produces no expense and
    leaves the templates as they are.
  */
  lemma RunIsIdempotent(
    ts: seq<Template>, existing: seq<Expense>, currentDate: Date, idOf: nat -> string, idOf2: nat -> string)
    requires AllWellFormed(ts)
    ensures var u := UpdatedTemplates(ts, currentDate);
            var recorded := existing + NewExpenses(ts, existing, currentDate, idOf);
            NewExpenses(u, recorded, currentDate, idOf2) == [] && UpdatedTemplates(u, currentDate) == u
  {
    ProcessedDatesRecorded(ts, existing, currentDate, idOf);
    SecondRun(ts, existing + NewExpenses(ts, existing, currentDate, idOf), currentDate);
  }
}
