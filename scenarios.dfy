/**
 * Concrete booking pages that open straight at May 2025 through the month and year
 * dropdowns, and what the check decides on them: a page with one clean day and
 * one with four marked days.
 */
module Scenarios {
  import opened Wrappers
  import opened PyText
  import opened Browser
  import opened Selectors
  import opened Fallback
  import opened Retry
  import opened Navigation
  import opened Classifier
  import opened Check

  /** An element that is only found or clicked; clicking it keeps view 0. */
  const Plain := Node(Done("div"), Done(""), Done(None), Failed, None, Done(0))

  /** A day cell: a `td` with this text and class attribute, whose colour scripts fail. */
  function Cell(text: string, classes: Option<string>): Node
  {
    Node(Done("td"), Done(text), Done(classes), Failed, None, Done(0))
  }

  /** The cell of May 23: no class attribute, text "23". */
  const Clean := Cell("23", None)

  /** The cell of May 23 with its colours read: a white background and black text. */
  const Painted := Node(Done("td"), Done("23"), Done(None), Done(Colours("white", "black")), None, Done(0))

  /** A day cell jQuery UI marks as not selectable. */
  const Marked := Cell("", Some("ui-datepicker-unselectable"))

  /** The confirmation header of a page showing May 2025. */
  const MayHeader := Node(Done("div"), Done("May 2025"), Done(None), Failed, None, Done(0))

  /** Clickability lookups: every class-name descriptor finds `Plain`. */
  function ClickableAny(l: Locator): Lookup
  {
    if l.kind == ClassName then Done(Some(Plain)) else Done(None)
  }

  /** Presence lookups of a page whose calendar root and dropdowns are there: the
      confirmation lookup answers `header`; an XPath finds `cells(c)`, where `c` is the
      third character from its end (the second digit of the day in the first day
      descriptor); nothing else is found. */
  function Present(header: Lookup, cells: char -> Option<Node>): Locator -> Lookup
  {
    (l: Locator) =>
      if l.kind == XPath then (if |l.value| >= 3 then Done(cells(l.value[|l.value| - 3])) else Done(None))
      else if l == ConfirmHeader then header
      else if l == CalendarSelectors[0] || l == MonthDropdown || l == YearDropdown then Done(Some(Plain))
      else Done(None)
  }

  /** A page whose dropdowns select May 2025 in view 0, the only view. */
  function DropdownPage(header: Lookup, cells: char -> Option<Node>): Page
  {
    Page(true, 0, (w: ViewId) => View(Present(header, cells), ClickableAny, (l: Locator) => Done([]), Selection(true, 0), 0))
  }

  /** On such a page the first date input is clicked and view 0 is shown. */
  lemma DropdownPageOpens(header: Lookup, cells: char -> Option<Node>)
    ensures OpenCalendar(DropdownPage(header, cells)) == Done(0)
  {
    var v := DropdownPage(header, cells).views(0);
    assert FirstHit(Strict, v.clickable, DateInputSelectors) == Done(Some(Plain));
  }

  /** The calendar root and the next button are found in view 0. */
  lemma DropdownPageFinds(header: Lookup, cells: char -> Option<Node>)
    ensures var v := DropdownPage(header, cells).views(0);
      && FirstHit(Strict, v.present, CalendarSelectors) == Done(Some(Plain))
      && FirstHit(Retrying, v.clickable, NextButtonSelectors) == Done(Some(Plain))
  {
  }

  /** Both dropdowns are found and select May 2025 in view 0. */
  lemma DropdownPageSelects(header: Lookup, cells: char -> Option<Node>)
    ensures Dropdowns(DropdownPage(header, cells).views(0)) == Done(Some(Selection(true, 0)))
  {
  }

  /** So the check reaches May 2025 in view 0 without a click. */
  lemma DropdownPageReaches(header: Lookup, cells: char -> Option<Node>)
    ensures Core(DropdownPage(header, cells)) == Reached(DropdownPage(header, cells), 0)
  {
    var page := DropdownPage(header, cells);
    DropdownPageOpens(header, cells);
    DropdownPageFinds(header, cells);
    DropdownPageSelects(header, cells);
    assert AfterCalendar(page, 0) == AfterHeader(page, 0, InitialHeader(page.views(0)));
    assert Reach(page, 0, InitialHeader(page.views(0))) == Reached(page, 0);
  }

  /** The first day descriptor finds the cell the page keeps for the day's second digit. */
  lemma FirstDescriptorFinds(header: Lookup, cells: char -> Option<Node>, day: string)
    requires |day| == 2 && cells(day[1]).Some?
    ensures CellOf(DropdownPage(header, cells).views(0), day) == cells(day[1])
  {
    var first := DayXPath("//td[@data-date='2025-05-", day, "']");
    assert DaySelectors(day)[0] == first;
    assert first.value[|first.value| - 3] == day[1];
  }

  /** A cell without a class attribute carries no indicator. */
  lemma NoClassNoIndicator()
    ensures !HasIndicator("")
  {
    forall i | 0 <= i < |UnavailableIndicators|
      ensures !Contains("", UnavailableIndicators[i])
    {
    }
  }

  /** The text "23" carries no "N/A". */
  lemma PlainTextNoMarker()
    ensures !Contains(Strip("23"), "N/A")
  {
    var a :| CutFrom("23", Strip("23"), a);
    assert |Strip("23")| < |"N/A"|;
  }

  /** May 23's clean cell looks selectable. */
  lemma CleanIsSelectable(v: View)
    ensures DayVerdict(v, Clean) == Done(true)
  {
    PlainTextNoMarker();
    NoClassNoIndicator();
  }

  /** White and black are not greyed colours. */
  lemma WhiteIsNotGrey()
    ensures !LooksGreyed(Colours("white", "black"))
  {
    NotContained("white", "rgb(211, 211, 211)");
    NotContained("black", "rgba(0, 0, 0, 0.3)");
    NotContained("white", "lightgrey");
    NotContained("white", "gray");
  }

  /** A text without the first character of `sub` does not contain `sub`. */
  lemma NotContained(s: string, sub: string)
    requires |sub| > 0 && forall k :: 0 <= k < |s| ==> s[k] != sub[0]
    ensures !Contains(s, sub)
  {
    ContainsIff(s, sub);
  }

  /** May 23's cell with readable, ungreyed colours is selectable. */
  lemma PaintedIsSelectable(v: View)
    ensures DayVerdict(v, Painted) == Done(true)
  {
    PlainTextNoMarker();
    NoClassNoIndicator();
    WhiteIsNotGrey();
    NoSignalIsSelectable(v, Painted);
  }

  /** Every text contains itself. */
  lemma ContainsSelf(s: string)
    ensures Contains(s, s)
  {
    assert s[..|s|] == s;
  }

  /** A cell marked `ui-datepicker-unselectable` is not selectable. */
  lemma MarkedIsUnavailable(v: View)
    ensures DayVerdict(v, Marked) == Done(false)
  {
    ContainsSelf(UnavailableIndicators[0]);
    assert HasIndicator(UnavailableIndicators[0]);
    assert ClassesElement(v, Marked) == Done(Marked);
    AnySignalMakesUnavailable(v, Marked);
  }

  /** The header "May 2025" confirms the month. */
  lemma MayHeaderConfirms(cells: char -> Option<Node>)
    ensures Confirmation(DropdownPage(Done(Some(MayHeader)), cells).views(0)) == Done(true)
  {
    assert MonthMatches("May 2025");
  }

  /** A page under the header "May 2025" has its days classified in view 0, with the
      month confirmed. */
  lemma ConfirmedRun(cells: char -> Option<Node>)
    ensures var page := DropdownPage(Done(Some(MayHeader)), cells);
      Core(page) == Classified(0, true, DaysScan(Outcomes(page.views(0)), TargetDays))
  {
    DropdownPageReaches(Done(Some(MayHeader)), cells);
    MayHeaderConfirms(cells);
  }

  /** A confirmed run whose day loop saw no exception returns what the days yield, as
      written and as intended: available exactly when some day is selectable, with each
      day recorded under its key. */
  lemma ConfirmedScan(w: ViewId, f: string -> Outcome<bool>)
    requires forall d :: d in TargetDays ==> f(d).Done?
    ensures var e := Classified(w, true, DaysScan(f, TargetDays));
      && !e.scan.aborted
      && Reported(e) == Intended(e)
      && (Intended(e).available <==> exists d :: d in TargetDays && f(d) == Done(true))
      && Intended(e).days.Keys == Keys(TargetDays)
      && forall d :: d in TargetDays ==> f(d) == Done(Intended(e).days[DayKey(d)])
  {
    ScanAborted(f, TargetDays);
    ClassifiedVerdict(Classified(w, true, DaysScan(f, TargetDays)), f);
  }

  /** On a page under the header "May 2025", when every day yields a verdict, the check
      returns what the days yield. */
  lemma ConfirmedVerdict(cells: char -> Option<Node>, f: string -> Outcome<bool>)
    requires f == Outcomes(DropdownPage(Done(Some(MayHeader)), cells).views(0))
    requires forall d :: d in TargetDays ==> f(d).Done?
    ensures Core(DropdownPage(Done(Some(MayHeader)), cells)) == Classified(0, true, DaysScan(f, TargetDays))
  {
    ConfirmedRun(cells);
  }

  /** May 23 clean with readable colours, May 24 to 26 marked. */
  function OneCleanDay(c: char): Option<Node>
  {
    if c == '3' then Some(Painted) else if c == '4' || c == '5' || c == '6' then Some(Marked) else None
  }

  /** The page with one clean day under the header "May 2025". */
  const OneDayPage := DropdownPage(Done(Some(MayHeader)), OneCleanDay)

  /** On that page May 23 is selectable and the other three days are not. */
  lemma OneDayOutcomes(d: string)
    requires d in TargetDays
    ensures Outcomes(OneDayPage.views(0))(d) == Done(d == "23")
  {
    var v := OneDayPage.views(0);
    FirstDescriptorFinds(Done(Some(MayHeader)), OneCleanDay, d);
    if d == "23" {
      PaintedIsSelectable(v);
    } else {
      MarkedIsUnavailable(v);
    }
  }

  /** A confirmed run in which only May 23 is selectable reports it, and only it. */
  lemma OnlyFirstDaySelectable(f: string -> Outcome<bool>)
    requires forall d :: d in TargetDays ==> f(d) == Done(d == "23")
    ensures var e := Classified(0, true, DaysScan(f, TargetDays));
      && !e.scan.aborted
      && Intended(e).available && Reported(e) == Intended(e)
      && Intended(e).days.Keys == Keys(TargetDays)
      && forall d :: d in TargetDays ==> Intended(e).days[DayKey(d)] == (d == "23")
  {
    assert "23" in TargetDays && f("23") == Done(true);
    ConfirmedScan(0, f);
    var e := Classified(0, true, DaysScan(f, TargetDays));
    forall d | d in TargetDays
      ensures Intended(e).days[DayKey(d)] == (d == "23")
    {
      assert f(d) == Done(Intended(e).days[DayKey(d)]);
    }
  }

  /** A confirmed May 2025 with one clean day: the check classifies the days, finds
      May 23 selectable and the rest not, and reports availability, both as written
      and as intended. */
  lemma OneCleanDayIsAvailable()
    ensures var e := Core(OneDayPage);
      && e.Classified? && e.confirmed && !e.scan.aborted
      && Intended(e).available && Reported(e) == Intended(e)
      && Intended(e).days.Keys == Keys(TargetDays)
      && forall d :: d in TargetDays ==> Intended(e).days[DayKey(d)] == (d == "23")
  {
    var f := Outcomes(OneDayPage.views(0));
    forall d | d in TargetDays
      ensures f(d) == Done(d == "23")
    {
      OneDayOutcomes(d);
    }
    ConfirmedVerdict(OneCleanDay, f);
    OnlyFirstDaySelectable(f);
  }

  /** Every day marked `ui-datepicker-unselectable`. */
  function AllMarked(c: char): Option<Node>
  {
    Some(Marked)
  }

  /** The page with four marked days under the header "May 2025". */
  const MarkedPage := DropdownPage(Done(Some(MayHeader)), AllMarked)

  /** A confirmed May 2025 whose four days are all marked: all four are recorded as not
      selectable and there is no availability, so no notification is sent. */
  lemma AllMarkedIsUnavailable()
    ensures var e := Core(MarkedPage);
      && e.Classified? && e.confirmed && !e.scan.aborted
      && !Intended(e).available && Reported(e) == Intended(e)
      && Intended(e).days.Keys == Keys(TargetDays)
      && forall d :: d in TargetDays ==> !Intended(e).days[DayKey(d)]
  {
    var v := MarkedPage.views(0);
    var f := Outcomes(v);
    forall d | d in TargetDays
      ensures f(d) == Done(false)
    {
      FirstDescriptorFinds(Done(Some(MayHeader)), AllMarked, d);
      MarkedIsUnavailable(v);
    }
    ConfirmedVerdict(AllMarked, f);
    ConfirmedScan(0, f);
  }
}
