/**
 * Two booking pages on which the verdict the source returns departs from what its
 * override and its unreached branch are evidently meant to give.
 */
module Findings {
  import opened Wrappers
  import opened PyText
  import opened Browser
  import opened Selectors
  import opened Fallback
  import opened Retry
  import opened Navigation
  import opened Classifier
  import opened Check
  import opened Scenarios
  import opened Report

  /** The cell of May 24: reading its text raises something other than a stale error. */
  const Broken := Node(Done("td"), Failed, Done(None), Failed, None, Done(0))

  /** May 23 clean, May 24 broken, nothing else found. */
  function CellsOne(c: char): Option<Node>
  {
    if c == '3' then Some(Clean) else if c == '4' then Some(Broken) else None
  }

  /** The first page: the dropdowns select May 2025 in view 0, but no confirmation
      header is found and the first row is empty, so the month cannot be confirmed. */
  const PageOne := DropdownPage(Done(None), CellsOne)

  /** No confirmation header is found and the first row is empty. */
  lemma PageOneUnconfirmed()
    ensures Confirmation(PageOne.views(0)) == Done(false)
  {
  }

  /** On the first page the dropdowns reach May 2025 in view 0, which cannot be confirmed. */
  lemma PageOneReachesUnconfirmed()
    ensures Core(PageOne) == Reached(PageOne, 0)
    ensures Confirmation(PageOne.views(0)) == Done(false)
  {
    DropdownPageReaches(Done(None), CellsOne);
    PageOneUnconfirmed();
  }

  /** May 23 looks selectable on the first page. */
  lemma PageOneDay23()
    ensures Outcomes(PageOne.views(0))("23") == Done(true)
  {
    FirstDescriptorFinds(Done(None), CellsOne, "23");
    CleanIsSelectable(PageOne.views(0));
  }

  /** Checking May 24 on the first page raises. */
  lemma PageOneDay24()
    ensures Outcomes(PageOne.views(0))("24") == Failed
  {
    FirstDescriptorFinds(Done(None), CellsOne, "24");
  }

  /** A day loop whose first day is selectable and whose second raises records the
      first day and stops. */
  lemma SelectableThenRaise(f: string -> Outcome<bool>)
    requires f("23") == Done(true) && f("24") == Failed
    ensures DaysScan(f, TargetDays) == DayScan(true, map[DayKey("23") := true], true)
  {
    var start := DayScan(false, map[], false);
    assert TargetDays[..0] == [];
    ScanAdvance(f, TargetDays, 0, start, Done(true));
    var first := DayScan(true, map[DayKey("23") := true], false);
    ScanAdvance(f, TargetDays, 1, first, Failed);
  }

  /** The day loop on the first page records May 23 as selectable, then stops. */
  lemma PageOneScan()
    ensures DaysScan(Outcomes(PageOne.views(0)), TargetDays) == DayScan(true, map[DayKey("23") := true], true)
  {
    PageOneDay23();
    PageOneDay24();
    SelectableThenRaise(Outcomes(PageOne.views(0)));
  }

  /** As written, an exception on May 24 after May 23 looked selectable skips the
      override: the unconfirmed month is reported as available. */
  lemma AbortedDayLoopSkipsOverride()
    ensures Core(PageOne).Classified? && !Core(PageOne).confirmed && Core(PageOne).scan.aborted
    ensures Reported(Core(PageOne)).available
    ensures !Intended(Core(PageOne)).available
  {
    PageOneReachesUnconfirmed();
    PageOneScan();
    assert Core(PageOne) == PageOneEnding;
    PageOneVerdicts();
  }

  /** How the run on the first page ends: classified in view 0, unconfirmed, with May 23
      recorded as selectable and the day loop cut short. */
  const PageOneEnding := Classified(0, false, DayScan(true, map[DayKey("23") := true], true))

  /** That ending is available as written and not as intended. */
  lemma PageOneVerdicts()
    ensures Reported(PageOneEnding).available && !Intended(PageOneEnding).available
  {
  }

  /** Presence lookups of the second page: only the calendar root is there. */
  function PresentRoot(l: Locator): Lookup
  {
    if l == CalendarSelectors[0] then Done(Some(Plain)) else Done(None)
  }

  /** The second page: no dropdowns, and the next button never leaves view 0, whose
      header cannot be read. */
  const PageTwo := Page(true, 0, (w: ViewId) => View(PresentRoot, ClickableAny, (l: Locator) => Done([]), Selection(false, 0), 0))

  /** Each click on the second page comes back to the same unreadable month. */
  lemma PageTwoStep()
    ensures ClickStep(PageTwo, 0, None) == Step(Done(false), 0, None)
  {
    var v := PageTwo.views(0);
    assert FirstHit(Retrying, v.clickable, NextButtonSelectors) == Done(Some(Plain));
    RescanWithoutHeaders(v, MonthHeaderSelectors, None);
  }

  /** So each iteration of the click loop there counts one click and changes nothing else. */
  lemma PageTwoAdvance(c: nat)
    ensures Advance(PageTwo, NavState(0, None, c, false, false)) == NavState(0, None, c + 1, false, false)
  {
    PageTwoStep();
    NotStalePassesThrough(MaxStaleAttempts, Always(Done(false)));
  }

  /** The click loop on the second page runs out after 36 clicks. */
  lemma {:induction false} PageTwoLoop(c: nat)
    requires c <= MaxClicks
    ensures ClickLoop(PageTwo, NavState(0, None, c, false, false)) == NavState(0, None, MaxClicks, false, false)
    decreases MaxClicks - c
  {
    if c < MaxClicks {
      PageTwoAdvance(c);
      PageTwoLoop(c + 1);
    }
  }

  /** On the second page the first date input is clicked and view 0 is shown. */
  lemma PageTwoOpens()
    ensures OpenCalendar(PageTwo) == Done(0)
  {
    assert FirstHit(Strict, PageTwo.views(0).clickable, DateInputSelectors) == Done(Some(Plain));
  }

  /** The calendar root and the next button are found in view 0. */
  lemma PageTwoRootAndButton()
    ensures FirstHit(Strict, PageTwo.views(0).present, CalendarSelectors) == Done(Some(Plain))
    ensures FirstHit(Retrying, PageTwo.views(0).clickable, NextButtonSelectors) == Done(Some(Plain))
  {
  }

  /** No header is read and there are no dropdowns. */
  lemma PageTwoNoHeader()
    ensures InitialHeader(PageTwo.views(0)) == None
    ensures Dropdowns(PageTwo.views(0)) == Done(None)
  {
  }

  /** The second page ends with the month not reached. */
  lemma PageTwoNotReached()
    ensures Core(PageTwo) == NotReached(MaxClicks)
  {
    PageTwoOpens();
    PageTwoRootAndButton();
    PageTwoNoHeader();
    PageTwoLoop(0);
    assert Reach(PageTwo, 0, None) == NotReached(MaxClicks);
  }

  /** As written, the unreached branch raises before recording any day, so the map comes
      back empty; the intended verdict records all four days as not selectable. */
  lemma UnreachedMonthRecordsNothing()
    ensures Core(PageTwo).NotReached?
    ensures Reported(Core(PageTwo)) == Verdict(false, map[])
    ensures forall d :: d in TargetDays ==> DayKey(d) in Intended(Core(PageTwo)).days && !Intended(Core(PageTwo)).days[DayKey(d)]
  {
    PageTwoNotReached();
  }

  /** As written, `main` records the first page as "POTENTIAL AVAILABILITY" and sends a
      notification; with the corrected verdict it records "NO AVAILABILITY" and sends
      nothing. */
  lemma AsWrittenMainNotifies()
    ensures var sites := [Site("Curry Village", PageOne)];
      && Statuses(sites, AsWrittenCheck)["Curry Village"] == PotentialAvailability
      && Notices(sites, AsWrittenCheck) == [Notice("Curry Village", map[DayKey("23") := true])]
      && Statuses(sites, CheckPage)["Curry Village"] == NoAvailability
      && Notices(sites, CheckPage) == []
  {
    AbortedDayLoopSkipsOverride();
    PageOneReachesUnconfirmed();
    PageOneScan();
  }
}
