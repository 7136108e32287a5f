/**
 * `check_calendar_availability`: open the calendar, find its root and the next
 * button, reach May 2025 (dropdowns or clicking), confirm the month, classify the
 * four target days and apply the safety override. `Core` follows one check to how
 * it ends; `Intended` turns that ending into the returned verdict.
 */
module Check {
  import opened Wrappers
  import opened PyText
  import opened Browser
  import opened Selectors
  import opened Fallback
  import opened Retry
  import opened Navigation
  import opened Classifier

  /** The days checked: May 23 to 26, 2025. */
  const TargetDays: seq<string> := ["23", "24", "25", "26"]

  /** The key under which a day's verdict is recorded in `date_selectability`. */
  function DayKey(day: string): (k: string)
    ensures |k| == |day| + 10 && k[..4] == "May " && k[4..4 + |day|] == day && k[4 + |day|..] == ", 2025"
  {
    "May " + day + ", 2025"
  }

  /** Distinct days are recorded under distinct keys. */
  lemma DayKeyInjective(d1: string, d2: string)
    requires DayKey(d1) == DayKey(d2)
    ensures d1 == d2
  {
    assert |d1| == |d2|;
    assert d1 == DayKey(d1)[4..4 + |d1|];
  }

  /** The keys of the days in `ds`. */
  function Keys(ds: seq<string>): set<string>
  {
    set d | d in ds :: DayKey(d)
  }

  /** `find_day_cell` under its decorator: the first of the nine descriptors that yields
      an element; every exception inside the loop is swallowed, so the decorator
      never sees a stale error and never retries. */
  function CellOf(v: View, day: string): (cell: Option<Node>)
    ensures cell.Some? <==> exists i :: 0 <= i < |DaySelectors(day)| && Hits(v.present(DaySelectors(day)[i]))
    ensures cell.Some? ==> exists i :: 0 <= i < |DaySelectors(day)| && v.present(DaySelectors(day)[i]) == Done(cell)
    ensures Retried(MaxStaleAttempts, Always(FirstHit(Lenient, v.present, DaySelectors(day)))) == Done(Some(cell))
  {
    var found := FirstHit(Lenient, v.present, DaySelectors(day));
    NotStalePassesThrough(MaxStaleAttempts, Always(found));
    found.value
  }

  /** The cell search as the source writes it: the descriptor loop, called through the
      stale-retry wrapper. */
  method FindDayCell(v: View, day: string) returns (cell: Option<Node>)
    ensures cell == CellOf(v, day)
  {
    var sels := DaySelectors(day);
    var found, _ := Resolve(Lenient, v.present, sels);
    var call, _ := RetryOnStale(MaxStaleAttempts, Always(found));
    match call {
      case Done(Some(c)) => cell := c;
      case _ => assert false;
    }
  }

  /** What checking one day yields: `Done(selectable)`, or `Failed` when an exception
      escaped. A day without a cell is not selectable. */
  function DayOutcome(v: View, day: string): (r: Outcome<bool>)
    ensures !r.Stale?
    ensures CellOf(v, day).None? ==> r == Done(false)
    ensures r == Done(true) ==> CellOf(v, day).Some? && DayVerdict(v, CellOf(v, day).value) == Done(true)
    ensures CellOf(v, day).Some? ==> r == DayVerdict(v, CellOf(v, day).value)
  {
    match CellOf(v, day)
    case None => Done(false)
    case Some(c) => DayVerdict(v, c)
  }

  /** What checking each day yields, as a function of the day. */
  function Outcomes(v: View): (f: string -> Outcome<bool>)
    ensures forall d :: f(d) == DayOutcome(v, d)
  {
    d => DayOutcome(v, d)
  }

  /** The state of the day loop: `calendar_available`, `date_selectability`, and whether
      an exception left the loop. */
  datatype DayScan = DayScan(available: bool, days: map<string, bool>, aborted: bool)

  /** One iteration of the day loop, where `f` says what checking a day yields; nothing
      happens once an exception has left the loop. */
  function Record(f: string -> Outcome<bool>, acc: DayScan, day: string): DayScan
  {
    if acc.aborted then acc
    else if f(day).Done? then
      acc.(days := acc.days[DayKey(day) := f(day).value], available := acc.available || f(day).value)
    else acc.(aborted := true)
  }

  /** The day loop over `ds`. */
  function DaysScan(f: string -> Outcome<bool>, ds: seq<string>): DayScan
    decreases |ds|
  {
    if ds == [] then DayScan(false, map[], false)
    else Record(f, DaysScan(f, ds[..|ds| - 1]), ds[|ds| - 1])
  }

  /** Every recorded value is the verdict of a day of `ds` with that key. */
  lemma {:induction false} ScanValues(f: string -> Outcome<bool>, ds: seq<string>)
    ensures forall k :: k in DaysScan(f, ds).days ==>
      exists d :: d in ds && k == DayKey(d) && f(d) == Done(DaysScan(f, ds).days[k])
    decreases |ds|
  {
    if ds != [] {
      var init := ds[..|ds| - 1];
      var last := ds[|ds| - 1];
      ScanValues(f, init);
      var before := DaysScan(f, init);
      var r := DaysScan(f, ds);
      forall k | k in r.days
        ensures exists d :: d in ds && k == DayKey(d) && f(d) == Done(r.days[k])
      {
        if !before.aborted && f(last).Done? && k == DayKey(last) {
          assert r.days[k] == f(last).value;
          assert last in ds;
        } else {
          assert k in before.days && r.days[k] == before.days[k];
          var d :| d in init && k == DayKey(d) && f(d) == Done(before.days[k]);
          assert d in ds;
        }
      }
    }
  }

  /** `calendar_available` is true exactly when some recorded day is true. */
  lemma {:induction false} ScanAvailable(f: string -> Outcome<bool>, ds: seq<string>)
    ensures var r := DaysScan(f, ds);
      r.available <==> exists k :: k in r.days && r.days[k]
    decreases |ds|
  {
    if ds != [] {
      var init := ds[..|ds| - 1];
      var last := ds[|ds| - 1];
      ScanAvailable(f, init);
      ScanValues(f, init);
      var before := DaysScan(f, init);
      if !before.aborted && f(last).Done? {
        var key, v := DayKey(last), f(last).value;
        var r := DaysScan(f, ds);
        assert r.days == before.days[key := v] && r.available == (before.available || v);
        if key in before.days {
          var d :| d in init && key == DayKey(d) && f(d) == Done(before.days[key]);
          DayKeyInjective(d, last);
          assert before.days[key] == v;
        }
        if r.available && !v {
          var k :| k in before.days && before.days[k];
          assert k in r.days && r.days[k];
        }
        if v {
          assert key in r.days && r.days[key];
        }
        if exists k :: k in r.days && r.days[k] {
          var k :| k in r.days && r.days[k];
          if k != key {
            assert before.days[k];
          }
        }
      }
    }
  }

  /** The loop is cut short exactly when some day of `ds` raises. */
  lemma {:induction false} ScanAborted(f: string -> Outcome<bool>, ds: seq<string>)
    ensures DaysScan(f, ds).aborted <==> exists d :: d in ds && !f(d).Done?
    decreases |ds|
  {
    if ds != [] {
      ScanAborted(f, ds[..|ds| - 1]);
      assert forall d :: d in ds <==> d in ds[..|ds| - 1] || d == ds[|ds| - 1];
    }
  }

  /** A loop that ran through records every day of `ds`, each with its own verdict. */
  lemma {:induction false} ScanComplete(f: string -> Outcome<bool>, ds: seq<string>)
    ensures var r := DaysScan(f, ds);
      !r.aborted ==> r.days.Keys == Keys(ds) && forall d :: d in ds ==> f(d) == Done(r.days[DayKey(d)])
    decreases |ds|
  {
    if ds != [] {
      var init := ds[..|ds| - 1];
      var last := ds[|ds| - 1];
      ScanComplete(f, init);
      var r := DaysScan(f, ds);
      assert forall d :: d in ds <==> d in init || d == last;
      if !r.aborted {
        forall d | d in ds
          ensures f(d) == Done(r.days[DayKey(d)])
        {
          if DayKey(d) == DayKey(last) {
            DayKeyInjective(d, last);
          }
        }
      }
    }
  }

  /** What the day loop computes: `calendar_available` is true exactly when some recorded
      day is selectable; every recorded value is that day's verdict; the loop is cut
      short exactly when some day raises; and a loop that ran through records every
      day, each with its own verdict. */
  lemma DaysScanFacts(f: string -> Outcome<bool>, ds: seq<string>)
    ensures var r := DaysScan(f, ds);
      && (r.available <==> exists k :: k in r.days && r.days[k])
      && (forall k :: k in r.days ==> exists d :: d in ds && k == DayKey(d) && f(d) == Done(r.days[k]))
      && (r.aborted <==> exists d :: d in ds && !f(d).Done?)
      && (!r.aborted ==> r.days.Keys == Keys(ds))
      && (!r.aborted ==> forall d :: d in ds ==> f(d) == Done(r.days[DayKey(d)]))
  {
    ScanValues(f, ds);
    ScanAvailable(f, ds);
    ScanAborted(f, ds);
    ScanComplete(f, ds);
  }

  /** Once an exception has left the day loop, the days after it change nothing. */
  lemma {:induction false} AbortSticks(f: string -> Outcome<bool>, ds: seq<string>, i: nat)
    requires i <= |ds| && DaysScan(f, ds[..i]).aborted
    ensures DaysScan(f, ds) == DaysScan(f, ds[..i])
    decreases |ds| - i
  {
    if i < |ds| {
      assert ds[..i + 1][..i] == ds[..i];
      AbortSticks(f, ds, i + 1);
    } else {
      assert ds[..i] == ds;
    }
  }

  /** One iteration of the loop over `ds`: a day that yields a verdict records it, and
      one that raises ends the whole loop. */
  lemma ScanAdvance(f: string -> Outcome<bool>, ds: seq<string>, i: nat, scan: DayScan, verdict: Outcome<bool>)
    requires i < |ds| && scan == DaysScan(f, ds[..i]) && !scan.aborted && f(ds[i]) == verdict
    ensures verdict.Done? ==>
              DaysScan(f, ds[..i + 1])
              == scan.(days := scan.days[DayKey(ds[i]) := verdict.value], available := scan.available || verdict.value)
    ensures !verdict.Done? ==> DaysScan(f, ds) == scan.(aborted := true)
  {
    assert ds[..i + 1][..i] == ds[..i];
    if !verdict.Done? {
      AbortSticks(f, ds, i + 1);
    }
  }

  /** One day: find its cell and, when there is one, classify it. */
  method CheckDay(v: View, day: string) returns (r: Outcome<bool>)
    ensures r == DayOutcome(v, day) && r == Outcomes(v)(day)
  {
    var cell := FindDayCell(v, day);
    if cell.None? {
      return Done(false);
    }
    r := ClassifyDay(v, cell.value);
  }

  /** The day loop as the source writes it; an exception leaves it at once. */
  method CheckDays(v: View, ds: seq<string>) returns (scan: DayScan)
    ensures scan == DaysScan(Outcomes(v), ds)
  {
    scan := DayScan(false, map[], false);
    assert ds[..0] == [];
    var i := 0;
    while i < |ds|
      invariant 0 <= i <= |ds|
      invariant !scan.aborted
      invariant scan == DaysScan(Outcomes(v), ds[..i])
    {
      var day := ds[i];
      var verdict := CheckDay(v, day);
      ScanAdvance(Outcomes(v), ds, i, scan, verdict);
      if !verdict.Done? {
        return scan.(aborted := true);
      }
      var selectable := verdict.value;
      scan := scan.(days := scan.days[DayKey(day) := selectable]);
      if selectable {
        scan := scan.(available := true);
      }
      i := i + 1;
    }
    assert ds[..|ds|] == ds;
  }

  /** The safety override: every day of `ds` recorded as not selectable, every other
      entry kept. */
  function Overridden(days: map<string, bool>, ds: seq<string>): (r: map<string, bool>)
    ensures r.Keys == days.Keys + Keys(ds)
    ensures forall k :: k in r ==> r[k] == (k !in Keys(ds) && days[k])
    decreases |ds|
  {
    if ds == [] then days
    else
      var init := ds[..|ds| - 1];
      assert forall d :: d in ds <==> d in init || d == ds[|ds| - 1];
      Overridden(days, init)[DayKey(ds[|ds| - 1]) := false]
  }

  /** The override loop. */
  method ApplyOverride(days: map<string, bool>) returns (r: map<string, bool>)
    ensures r == Overridden(days, TargetDays)
  {
    r := days;
    for i := 0 to |TargetDays|
      invariant r == Overridden(days, TargetDays[..i])
    {
      OverrideStep(days, TargetDays, i);
      r := r[DayKey(TargetDays[i]) := false];
    }
    assert TargetDays[..|TargetDays|] == TargetDays;
  }

  /** Overriding one more day of `ds` sets that day's key to false. */
  lemma OverrideStep(days: map<string, bool>, ds: seq<string>, i: nat)
    requires i < |ds|
    ensures Overridden(days, ds[..i + 1]) == Overridden(days, ds[..i])[DayKey(ds[i]) := false]
  {
    assert ds[..i + 1][..i] == ds[..i];
  }

  /** The header found by the confirmation lookup names May 2025. */
  predicate HeaderShowsMay(v: View)
  {
    var l := v.present(ConfirmHeader);
    Hits(l) && l.value.value.text.Done?
    && Contains(l.value.value.text.value, "May") && Contains(l.value.value.text.value, "2025")
  }

  /** May 2025 begins on a Thursday: the fourth cell of the first row reads "1". Any
      exception here counts as no confirmation. */
  predicate FirstRowPattern(v: View)
  {
    match v.all(FirstRowCells)
    case Done(cells) => |cells| >= 7 && cells[3].text.Done? && Strip(cells[3].text.value) == "1"
    case _ => false
  }

  /** `is_may_2025_confirmed`, or `Failed` when the header lookup or its text read raised
      something other than "not found". */
  function Confirmation(v: View): (r: Outcome<bool>)
    ensures !r.Stale?
    ensures r.Failed? <==> !v.present(ConfirmHeader).Done? || (Hits(v.present(ConfirmHeader)) && !v.present(ConfirmHeader).value.value.text.Done?)
    ensures r.Done? ==> (r.value <==> HeaderShowsMay(v) || FirstRowPattern(v))
  {
    match v.present(ConfirmHeader)
    case Done(None) => Done(FirstRowPattern(v))
    case Done(Some(h)) =>
      (match h.text
       case Done(t) => Done((Contains(t, "May") && Contains(t, "2025")) || FirstRowPattern(v))
       case _ => Failed)
    case _ => Failed
  }

  /** A click's result where any exception, stale or not, reaches the outer handler. */
  function Clicked(c: Outcome<ViewId>): (r: Outcome<ViewId>)
    ensures !r.Stale? && (r.Done? <==> c.Done?) && (r.Done? ==> r == c)
  {
    if c.Done? then c else Failed
  }

  /** Opening the calendar: click the first clickable date input, else the calendar
      icon, else fall back to the page scripts; the view shown afterwards. A stale
      error there reaches the outer handler like any other exception (`Failed`). */
  function OpenCalendar(page: Page): (r: Outcome<ViewId>)
    ensures !r.Stale?
    ensures var v := page.views(page.start);
            var input := FirstHit(Strict, v.clickable, DateInputSelectors);
            var icon := v.clickable(CalendarIcon);
      && (Hits(input) ==> (r.Done? <==> input.value.value.click.Done?) && (r.Done? ==> r == input.value.value.click))
      && (!input.Done? ==> r == Failed)
      && (input == Done(None) && Hits(icon) ==> (r.Done? <==> icon.value.value.click.Done?) && (r.Done? ==> r == icon.value.value.click))
      && (input == Done(None) && icon == Done(None) ==> r == Done(v.afterScript))
      && (input == Done(None) && !icon.Done? ==> r == Failed)
  {
    var v := page.views(page.start);
    Opened(FirstHit(Strict, v.clickable, DateInputSelectors), v.clickable(CalendarIcon), v.afterScript)
  }

  /** The opening step once the date-input loop and the icon lookup have answered. */
  function Opened(input: Lookup, icon: Lookup, afterScript: ViewId): (r: Outcome<ViewId>)
    ensures !r.Stale?
    ensures Hits(input) ==> r == Clicked(input.value.value.click)
    ensures !input.Done? ==> r == Failed
    ensures input == Done(None) && Hits(icon) ==> r == Clicked(icon.value.value.click)
    ensures input == Done(None) && icon == Done(None) ==> r == Done(afterScript)
    ensures input == Done(None) && !icon.Done? ==> r == Failed
  {
    match input
    case Done(Some(n)) => Clicked(n.click)
    case Done(None) =>
      (match icon
       case Done(Some(i)) => Clicked(i.click)
       case Done(None) => Done(afterScript)
       case _ => Failed)
    case _ => Failed
  }

  /** The opening phase with its date-input loop. */
  method OpenCalendarView(page: Page) returns (r: Outcome<ViewId>)
    ensures r == OpenCalendar(page)
  {
    var v := page.views(page.start);
    var input, _ := Resolve(Strict, v.clickable, DateInputSelectors);
    if input.Done? && input.value.Some? {
      return Clicked(input.value.value.click);
    }
    if !input.Done? {
      return Failed;
    }
    var icon := v.clickable(CalendarIcon);
    match icon {
      case Done(Some(i)) => r := Clicked(i.click);
      case Done(None) => r := Done(v.afterScript);
      case _ => r := Failed;
    }
  }

  /** How one check ends. */
  datatype Ending =
    | Stopped                 // an exception reached the outer handler before the day loop
    | NoCalendar              // no calendar root: early return
    | NoNextButton            // no next button: `NoSuchElementException` raised and caught
    | NotReached(clicks: nat) // the click loop ran out without reaching May 2025
    | Classified(view: ViewId, confirmed: bool, scan: DayScan) // the day loop ran (possibly cut short)

  /** Once the target month is shown in `w`: confirm it, then classify the days. */
  function Reached(page: Page, w: ViewId): (e: Ending)
    ensures e.Classified? || e == Stopped
    ensures e == Stopped <==> !Confirmation(page.views(w)).Done?
    ensures e.Classified? ==> e.view == w
    ensures e.Classified? ==> Confirmation(page.views(e.view)) == Done(e.confirmed)
                              && e.scan == DaysScan(Outcomes(page.views(e.view)), TargetDays)
  {
    var v := page.views(w);
    match Confirmation(v)
    case Done(confirmed) => Classified(w, confirmed, DaysScan(Outcomes(v), TargetDays))
    case _ => Stopped
  }

  /** After the click loop. */
  function Navigated(page: Page, nav: NavState): (e: Ending)
    requires !nav.reached && !nav.aborted ==> nav.clicks == MaxClicks
    ensures e.Classified? ==> Confirmation(page.views(e.view)) == Done(e.confirmed)
                              && e.scan == DaysScan(Outcomes(page.views(e.view)), TargetDays)
    ensures e.NotReached? ==> e.clicks == MaxClicks
    ensures e == Stopped <==> nav.aborted || (nav.reached && !Confirmation(page.views(nav.view)).Done?)
    ensures e.NotReached? <==> !nav.reached && !nav.aborted
    ensures e.Classified? ==> e.view == nav.view
    ensures e.Classified? || e == Stopped || e.NotReached?
    ensures nav.reached && !nav.aborted ==> e == Reached(page, nav.view)
  {
    if nav.aborted then Stopped
    else if nav.reached then Reached(page, nav.view)
    else NotReached(nav.clicks)
  }

  /** With the next button found: the dropdowns when both are there, the click loop
      when they are missing or the selection raised. */
  function Reach(page: Page, w: ViewId, header: Option<string>): (e: Ending)
    ensures e.Classified? ==> Confirmation(page.views(e.view)) == Done(e.confirmed)
                              && e.scan == DaysScan(Outcomes(page.views(e.view)), TargetDays)
    ensures e.NotReached? ==> e.clicks == MaxClicks
    ensures e.Classified? || e == Stopped || e.NotReached?
    ensures Dropdowns(page.views(w)).Failed? ==> e == Stopped
    ensures var d := Dropdowns(page.views(w));
      d.Done? && d.value.Some? && d.value.value.succeeded ==>
        e == Reached(page, d.value.value.shown)
        && (e == Stopped <==> !Confirmation(page.views(d.value.value.shown)).Done?)
        && !e.NotReached? && (e.Classified? ==> e.view == d.value.value.shown)
    ensures var d := Dropdowns(page.views(w));
      d.Done? && !(d.value.Some? && d.value.value.succeeded) ==>
        var nav := ClickLoop(page, NavState(if d.value.Some? then d.value.value.shown else w, header, 0, false, false));
        && e == Navigated(page, nav)
        && (e == Stopped <==> nav.aborted || (nav.reached && !Confirmation(page.views(nav.view)).Done?))
        && (e.NotReached? <==> !nav.reached && !nav.aborted)
        && (e.Classified? ==> e.view == nav.view)
  {
    match Dropdowns(page.views(w))
    case Done(Some(sel)) =>
      if sel.succeeded then Reached(page, sel.shown)
      else Navigated(page, ClickLoop(page, NavState(sel.shown, header, 0, false, false)))
    case Done(None) => Navigated(page, ClickLoop(page, NavState(w, header, 0, false, false)))
    case _ => Stopped
  }

  /** With the header read: the next button must be there before anything else. */
  function AfterHeader(page: Page, w: ViewId, header: Option<string>): (e: Ending)
    ensures e.Classified? ==> Confirmation(page.views(e.view)) == Done(e.confirmed)
                              && e.scan == DaysScan(Outcomes(page.views(e.view)), TargetDays)
    ensures e.NotReached? ==> e.clicks == MaxClicks
    ensures var b := FirstHit(Retrying, page.views(w).clickable, NextButtonSelectors);
      && (e == NoNextButton <==> b == Done(None))
      && (e == Stopped <==> b.Failed? || (Hits(b) && Reach(page, w, header) == Stopped))
      && (Hits(b) ==> e == Reach(page, w, header))
      && e != NoCalendar
  {
    AfterButton(page, w, header, FirstHit(Retrying, page.views(w).clickable, NextButtonSelectors))
  }

  /** Once the next-button loop has answered `button` (never stale). */
  function AfterButton(page: Page, w: ViewId, header: Option<string>, button: Lookup): (e: Ending)
    requires !button.Stale?
    ensures e.Classified? ==> Confirmation(page.views(e.view)) == Done(e.confirmed)
                              && e.scan == DaysScan(Outcomes(page.views(e.view)), TargetDays)
    ensures e.NotReached? ==> e.clicks == MaxClicks
    ensures e == NoNextButton <==> button == Done(None)
    ensures e == Stopped <==> button.Failed? || (Hits(button) && Reach(page, w, header) == Stopped)
    ensures Hits(button) ==> e == Reach(page, w, header)
    ensures e != NoCalendar
  {
    if Hits(button) then Reach(page, w, header)
    else if button == Done(None) then NoNextButton
    else Stopped
  }

  /** From the calendar root on: the initial header, then the next button. */
  function AfterCalendar(page: Page, w: ViewId): (e: Ending)
    ensures e.Classified? ==> Confirmation(page.views(e.view)) == Done(e.confirmed)
                              && e.scan == DaysScan(Outcomes(page.views(e.view)), TargetDays)
    ensures e.NotReached? ==> e.clicks == MaxClicks
    ensures var b := FirstHit(Retrying, page.views(w).clickable, NextButtonSelectors);
      && (e == NoNextButton <==> b == Done(None))
      && (e == Stopped <==> b.Failed? || (Hits(b) && Reach(page, w, InitialHeader(page.views(w))) == Stopped))
      && (Hits(b) ==> e == Reach(page, w, InitialHeader(page.views(w))))
      && e != NoCalendar
  {
    AfterHeader(page, w, InitialHeader(page.views(w)))
  }

  /** One whole check of a booking page. */
  function Core(page: Page): (e: Ending)
    ensures e.Classified? ==> Confirmation(page.views(e.view)) == Done(e.confirmed)
                              && e.scan == DaysScan(Outcomes(page.views(e.view)), TargetDays)
    ensures e.NotReached? ==> e.clicks == MaxClicks
    ensures !page.loads || !OpenCalendar(page).Done? ==> e == Stopped
    ensures page.loads && OpenCalendar(page).Done? ==>
      var w := OpenCalendar(page).value;
      var root := FirstHit(Strict, page.views(w).present, CalendarSelectors);
      && (e == NoCalendar <==> root == Done(None))
      && (e == Stopped <==> !root.Done? || (Hits(root) && AfterCalendar(page, w) == Stopped))
      && (Hits(root) ==> e == AfterCalendar(page, w))
  {
    if !page.loads then Stopped
    else
      match OpenCalendar(page)
      case Done(w) =>
        (match FirstHit(Strict, page.views(w).present, CalendarSelectors)
         case Done(Some(_)) => AfterCalendar(page, w)
         case Done(None) => NoCalendar
         case _ => Stopped)
      case _ => Stopped
  }

  /** The returned `(calendar_available, date_selectability)`. */
  datatype Verdict = Verdict(available: bool, days: map<string, bool>)

  /** The verdict as the source computes it. An exception in the day loop skips the
      override, and an unreached month raises before recording any day. */
  function Reported(e: Ending): (r: Verdict)
    ensures !e.Classified? ==> r == Verdict(false, map[])
  {
    match e
    case Classified(_, confirmed, scan) =>
      if scan.aborted || confirmed then Verdict(scan.available, scan.days)
      else Verdict(false, Overridden(scan.days, TargetDays))
    case _ => Verdict(false, map[])
  }

  /** The verdict the override and the unreached branch are evidently meant to give: an
      unconfirmed month is overridden however the day loop ended, and an unreached
      month records all four days as not selectable. */
  function Intended(e: Ending): (r: Verdict)
    ensures r.available ==> e.Classified? && e.confirmed && e.scan.available
    ensures e.NotReached? ==> r.days.Keys == Keys(TargetDays) && forall k :: k in r.days ==> !r.days[k]
  {
    match e
    case Classified(_, confirmed, scan) =>
      if confirmed then Verdict(scan.available, scan.days)
      else Verdict(false, Overridden(scan.days, TargetDays))
    case NotReached(_) => Verdict(false, Overridden(map[], TargetDays))
    case _ => Verdict(false, map[])
  }

  /** The two verdicts differ only on the two paths the source gets wrong. */
  lemma ReportedDiffersOnlyThere(e: Ending)
    requires Reported(e) != Intended(e)
    ensures e.NotReached? || (e.Classified? && e.scan.aborted && !e.confirmed)
  {
  }

  /** `check_calendar_availability`, step by step, with the corrected override and
      unreached branch. */
  method CheckCalendarAvailability(page: Page) returns (available: bool, days: map<string, bool>)
    ensures Verdict(available, days) == Intended(Core(page))
  {
    available, days := false, map[];
    if !page.loads {
      return;
    }
    var shownFirst := OpenCalendarView(page);
    if !shownFirst.Done? {
      return;
    }
    var w := shownFirst.value;
    var root, _ := Resolve(Strict, page.views(w).present, CalendarSelectors);
    if !(root.Done? && root.value.Some?) {
      return;
    }
    available, days := NavigateAndCheck(page, w);
  }

  /** From the calendar root on: the header, then the next button. */
  method NavigateAndCheck(page: Page, w: ViewId) returns (available: bool, days: map<string, bool>)
    ensures Verdict(available, days) == Intended(AfterCalendar(page, w))
  {
    var header := ReadInitialHeader(page.views(w));
    available, days := FindButtonAndReach(page, w, header);
  }

  /** The next-button loop; a missing button ends the check. */
  method FindButtonAndReach(page: Page, w: ViewId, header: Option<string>) returns (available: bool, days: map<string, bool>)
    ensures Verdict(available, days) == Intended(AfterHeader(page, w, header))
  {
    available, days := false, map[];
    var button, _ := Resolve(Retrying, page.views(w).clickable, NextButtonSelectors);
    if !(button.Done? && button.value.Some?) {
      return;
    }
    available, days := ReachAndCheck(page, w, header);
  }

  /** The dropdowns, or the click loop. */
  method ReachAndCheck(page: Page, w: ViewId, header: Option<string>) returns (available: bool, days: map<string, bool>)
    ensures Verdict(available, days) == Intended(Reach(page, w, header))
  {
    available, days := false, map[];
    var drop := Dropdowns(page.views(w));
    if !drop.Done? {
      return;
    }
    var view := w;
    if drop.value.Some? {
      view := drop.value.value.shown;
      if drop.value.value.succeeded {
        available, days := ConfirmAndClassify(page, view);
        return;
      }
    }
    var nav := Navigate(page, view, header);
    available, days := AfterClicking(page, nav);
  }

  /** After the click loop: stop on an exception, record every day as not selectable
      when the month was not reached, otherwise go on to confirmation. */
  method AfterClicking(page: Page, nav: NavState) returns (available: bool, days: map<string, bool>)
    requires !nav.reached && !nav.aborted ==> nav.clicks == MaxClicks
    ensures Verdict(available, days) == Intended(Navigated(page, nav))
  {
    available, days := false, map[];
    if nav.aborted {
      return;
    }
    if !nav.reached {
      days := ApplyOverride(map[]);
      return;
    }
    available, days := ConfirmAndClassify(page, nav.view);
  }

  /** Once May 2025 is shown: confirm it, check the days, and override when unconfirmed. */
  method ConfirmAndClassify(page: Page, w: ViewId) returns (available: bool, days: map<string, bool>)
    ensures Verdict(available, days) == Intended(Reached(page, w))
  {
    available, days := false, map[];
    var shown := page.views(w);
    var confirmed := Confirmation(shown);
    if !confirmed.Done? {
      return;
    }
    var scan := CheckDays(shown, TargetDays);
    available, days := Settle(w, confirmed.value, scan);
  }

  /** After the day loop: the safety override when the month was not confirmed. */
  method Settle(w: ViewId, confirmed: bool, scan: DayScan) returns (available: bool, days: map<string, bool>)
    ensures Verdict(available, days) == Intended(Classified(w, confirmed, scan))
  {
    available, days := scan.available, scan.days;
    if !confirmed {
      days := ApplyOverride(days);
      available := false;
    }
  }

  /** The verdict of a run that reached the day loop, where `f` says what each day
      yields: true only when the month was confirmed and some day was selectable, and
      the map agrees with the flag. */
  lemma {:induction false} ClassifiedVerdict(e: Ending, f: string -> Outcome<bool>)
    requires e.Classified? && e.scan == DaysScan(f, TargetDays)
    ensures Intended(e).available ==> e.confirmed && exists d :: d in TargetDays && f(d) == Done(true)
    ensures e.confirmed && !e.scan.aborted && (exists d :: d in TargetDays && f(d) == Done(true)) ==> Intended(e).available
    ensures Intended(e).available <==> exists k :: k in Intended(e).days && Intended(e).days[k]
    ensures !e.scan.aborted ==> Intended(e).days.Keys == Keys(TargetDays)
    ensures !e.scan.aborted && e.confirmed ==> forall d :: d in TargetDays ==> f(d) == Done(Intended(e).days[DayKey(d)])
  {
    DaysScanFacts(f, TargetDays);
    if e.confirmed {
      if e.scan.available {
        var k :| k in e.scan.days && e.scan.days[k];
        var d :| d in TargetDays && k == DayKey(d) && f(d) == Done(e.scan.days[k]);
      }
      if exists d :: d in TargetDays && f(d) == Done(true) {
        var d :| d in TargetDays && f(d) == Done(true);
        assert !e.scan.aborted ==> e.scan.days[DayKey(d)];
      }
    }
  }

  /** The result is true only when May 2025 was confirmed and a target day was found
      selectable; when the day loop ran through, that is also enough. */
  lemma AvailableOnlyIfConfirmed(page: Page)
    ensures Intended(Core(page)).available ==>
              Core(page).Classified? && Core(page).confirmed
              && exists d :: d in TargetDays && DayOutcome(page.views(Core(page).view), d) == Done(true)
    ensures Core(page).Classified? && Core(page).confirmed && !Core(page).scan.aborted
            && (exists d :: d in TargetDays && DayOutcome(page.views(Core(page).view), d) == Done(true))
            ==> Intended(Core(page)).available
  {
    var e := Core(page);
    if e.Classified? {
      ClassifiedVerdict(e, Outcomes(page.views(e.view)));
    }
  }

  /** The result agrees with the map: true exactly when some recorded day is true. */
  lemma AvailableIffSomeDayTrue(page: Page)
    ensures Intended(Core(page)).available <==>
              exists k :: k in Intended(Core(page)).days && Intended(Core(page)).days[k]
  {
    var e := Core(page);
    if e.Classified? {
      ClassifiedVerdict(e, Outcomes(page.views(e.view)));
    }
  }

  /** When the run got as far as the day loop and no exception left it, each target day
      is recorded, with its own verdict when the month was confirmed. */
  lemma EveryDayRecorded(page: Page)
    requires Core(page).Classified? && !Core(page).scan.aborted
    ensures Intended(Core(page)).days.Keys == Keys(TargetDays)
    ensures Core(page).confirmed ==> forall d :: d in TargetDays ==>
              DayOutcome(page.views(Core(page).view), d) == Done(Intended(Core(page)).days[DayKey(d)])
  {
    ClassifiedVerdict(Core(page), Outcomes(page.views(Core(page).view)));
  }
}
