/**
 * Driving the calendar to May 2025: the month-match predicate, the header
 * re-read after a click, `click_next_and_check`, the dropdown shortcut and the
 * click loop with its cap of 36 iterations.
 */
module Navigation {
  import opened Wrappers
  import opened PyText
  import opened Browser
  import opened Selectors
  import opened Fallback
  import opened Retry

  /** `max_clicks`: three years of monthly stepping. */
  const MaxClicks := 36

  /** The header test: exactly "May 2025", or containing both "May" and "2025". The
      exact comparison adds nothing to the substring test. */
  predicate MonthMatches(h: string): (b: bool)
    ensures b <==> Contains(h, "May") && Contains(h, "2025")
  {
    if h == "May 2025" then
      assert OccursAt(h, "May", 0) && OccursAt(h, "2025", 4);
      ContainsIff(h, "May");
      ContainsIff(h, "2025");
      true
    else Contains(h, "May") && Contains(h, "2025")
  }

  /** `if current_month_year:`: a header was read and it is not empty. */
  predicate Truthy(h: Option<string>)
  {
    h.Some? && h.value != ""
  }

  /** Separate month and year elements read "May" and "2025" once trimmed; any
      exception on the way counts as no match. */
  predicate PartsMatch(v: View)
  {
    var m := FindWithRetry(v.present(MonthPart));
    var y := FindWithRetry(v.present(YearPart));
    Hits(m) && Hits(y) && m.value.value.text.Done? && y.value.value.text.Done?
    && Strip(m.value.value.text.value) == "May" && Strip(y.value.value.text.value) == "2025"
  }

  /** One header descriptor consulted after a click: whether it shows the target month
      and the header text it read, if any. */
  datatype Reading = Reading(matched: bool, text: Option<string>)

  function HeaderRead(v: View, sel: Locator): (rd: Reading)
    ensures var l := FindWithRetry(v.present(sel));
      rd.text == if Hits(l) && l.value.value.text.Done? then Some(l.value.value.text.value) else None
    ensures rd.matched ==> rd.text.Some?
    ensures rd.text.Some? && MonthMatches(rd.text.value) ==> rd.matched
    ensures rd.text.Some? && sel == TitleLocator && PartsMatch(v) ==> rd.matched
    ensures rd.matched ==> MonthMatches(rd.text.value) || (sel == TitleLocator && PartsMatch(v))
  {
    var l := FindWithRetry(v.present(sel));
    if Hits(l) && l.value.value.text.Done? then
      var s := l.value.value.text.value;
      Reading(MonthMatches(s) || (sel == TitleLocator && PartsMatch(v)), Some(s))
    else Reading(false, None)
  }

  /** The outcome of re-reading the header: whether the target month was seen, and
      `current_month_year` afterwards. */
  datatype Scan = Scan(found: bool, header: Option<string>)

  /** The header loop of `click_next_and_check`. It does not stop at the first header
      found: every descriptor is consulted until one shows the target month, and each
      header read replaces `current_month_year`. */
  function Rescan(v: View, sels: seq<Locator>, h: Option<string>): (s: Scan)
    ensures s.found <==> exists i :: 0 <= i < |sels| && HeaderRead(v, sels[i]).matched
    ensures s.header == h || exists i :: 0 <= i < |sels| && HeaderRead(v, sels[i]).text.Some? && s.header == HeaderRead(v, sels[i]).text
    ensures (forall i :: 0 <= i < |sels| ==> HeaderRead(v, sels[i]).text.None?) ==> s.header == h
    decreases |sels|
  {
    if sels == [] then Scan(false, h)
    else
      var rd := HeaderRead(v, sels[0]);
      var h' := if rd.text.Some? then rd.text else h;
      if rd.matched then Scan(true, h')
      else
        var s := Rescan(v, sels[1..], h');
        assert forall i :: 1 <= i < |sels| ==> sels[i] == sels[1..][i - 1];
        s
  }

  /** When no descriptor finds a header, the re-read reports no match and leaves
      `current_month_year` as it was. */
  lemma {:induction false} RescanWithoutHeaders(v: View, sels: seq<Locator>, h: Option<string>)
    requires forall i :: 0 <= i < |sels| ==> !Hits(v.present(sels[i]))
    ensures Rescan(v, sels, h) == Scan(false, h)
    decreases |sels|
  {
    if sels != [] {
      assert !Hits(v.present(sels[0]));
      assert forall i :: 1 <= i < |sels| ==> sels[i] == sels[1..][i - 1];
      RescanWithoutHeaders(v, sels[1..], h);
    }
  }

  /** The header loop as a `for` loop that returns on the first match. */
  method RescanHeaders(v: View, h: Option<string>) returns (s: Scan)
    ensures s == Rescan(v, MonthHeaderSelectors, h)
    ensures s.found <==> exists i :: 0 <= i < |MonthHeaderSelectors| && HeaderRead(v, MonthHeaderSelectors[i]).matched
  {
    var header := h;
    for i := 0 to |MonthHeaderSelectors|
      invariant Rescan(v, MonthHeaderSelectors, h) == Rescan(v, MonthHeaderSelectors[i..], header)
    {
      assert MonthHeaderSelectors[i..][1..] == MonthHeaderSelectors[i + 1..];
      var sel := MonthHeaderSelectors[i];
      var l := FindWithRetry(v.present(sel));
      if Hits(l) && l.value.value.text.Done? {
        var text := l.value.value.text.value;
        header := Some(text);
        if MonthMatches(text) {
          return Scan(true, header);
        }
        if sel == TitleLocator {
          var m := FindWithRetry(v.present(MonthPart));
          if !m.Failed? {
            var y := FindWithRetry(v.present(YearPart));
            if Hits(m) && Hits(y) {
              var mt, yt := m.value.value.text, y.value.value.text;
              if mt.Done? && yt.Done? && Strip(mt.value) == "May" && Strip(yt.value) == "2025" {
                return Scan(true, header);
              }
            }
          }
        }
      }
    }
    return Scan(false, header);
  }

  /** No header descriptor before the `i`-th one finds anything. */
  predicate NoHeaderBefore(v: View, i: int)
  {
    forall j :: 0 <= j < i && j < |MonthHeaderSelectors| ==> v.present(MonthHeaderSelectors[j]) == Done(None)
  }

  /** The first read of the header (before any click): the first descriptor found
      decides; a lookup or a read that raises leaves no header at all. */
  function InitialHeader(v: View): (h: Option<string>)
    ensures h.Some? ==> exists i :: 0 <= i < |MonthHeaderSelectors| && NoHeaderBefore(v, i)
                                    && Hits(v.present(MonthHeaderSelectors[i]))
                                    && v.present(MonthHeaderSelectors[i]).value.value.text == Done(h.value)
    ensures h.None? <==> forall i :: 0 <= i < |MonthHeaderSelectors| && NoHeaderBefore(v, i) ==>
                           !Hits(v.present(MonthHeaderSelectors[i]))
                           || !v.present(MonthHeaderSelectors[i]).value.value.text.Done?
  {
    var first := FirstHit(Strict, v.present, MonthHeaderSelectors);
    if first == Done(None) then
      None
    else
      var k :| 0 <= k < |MonthHeaderSelectors| && first == v.present(MonthHeaderSelectors[k])
               && !Skips(Strict, v.present(MonthHeaderSelectors[k]))
               && forall j :: 0 <= j < k ==> Skips(Strict, v.present(MonthHeaderSelectors[j]));
      assert NoHeaderBefore(v, k);
      assert forall i :: 0 <= i < |MonthHeaderSelectors| && NoHeaderBefore(v, i) ==> i <= k;
      match first
      case Done(Some(n)) => if n.text.Done? then Some(n.text.value) else None
      case _ => None
  }

  /** The header `for` loop with `break`, inside its `try`/`except Exception`. */
  method ReadInitialHeader(v: View) returns (h: Option<string>)
    ensures h == InitialHeader(v)
  {
    var l, _ := Resolve(Strict, v.present, MonthHeaderSelectors);
    h := None;
    if l.Done? && l.value.Some? {
      var text := l.value.value.text;
      if text.Done? {
        h := Some(text.value);
      }
    }
  }

  /** The month shown in `view` counts as the target: the current header matches, or
      some header descriptor of the view shows the target month. */
  predicate TargetShown(page: Page, view: ViewId, header: Option<string>)
  {
    (Truthy(header) && MonthMatches(header.value))
    || exists i :: 0 <= i < |MonthHeaderSelectors| && HeaderRead(page.views(view), MonthHeaderSelectors[i]).matched
  }

  /** What one call of `click_next_and_check` did: its result (`Failed` when it raised),
      and the view and `current_month_year` afterwards. */
  datatype Step = Step(outcome: Outcome<bool>, view: ViewId, header: Option<string>)

  /** `click_next_and_check`: true at once when the current header already matches;
      otherwise find the next button again, click it and re-read the header. A stale
      click is caught and gives false, so the function never raises a stale error. */
  function ClickStep(page: Page, view: ViewId, header: Option<string>): (s: Step)
    ensures !s.outcome.Stale?
    ensures s.outcome == Done(true) ==> TargetShown(page, s.view, s.header)
    ensures Truthy(header) && MonthMatches(header.value) ==> s == Step(Done(true), view, header)
    ensures s.view != view ==> s.outcome.Done?
    ensures !(Truthy(header) && MonthMatches(header.value)) ==>
      var b := FirstHit(Retrying, page.views(view).clickable, NextButtonSelectors);
      && (s.outcome.Failed? <==> b.Failed? || (Hits(b) && b.value.value.click.Failed?))
      && (s.outcome == Done(true) ==> Hits(b) && b.value.value.click.Done?)
      && (!(Hits(b) && b.value.value.click.Done?) ==> s.view == view && s.header == header)
      && (Hits(b) && b.value.value.click.Done? ==>
            s.view == b.value.value.click.value
            && s.header == Rescan(page.views(s.view), MonthHeaderSelectors, header).header
            && (s.outcome == Done(true) <==>
                  exists i :: 0 <= i < |MonthHeaderSelectors| && HeaderRead(page.views(s.view), MonthHeaderSelectors[i]).matched))
  {
    if Truthy(header) && MonthMatches(header.value) then Step(Done(true), view, header)
    else
      match FirstHit(Retrying, page.views(view).clickable, NextButtonSelectors)
      case Done(Some(button)) =>
        (match button.click
         case Done(w) =>
           var scan := Rescan(page.views(w), MonthHeaderSelectors, header);
           Step(Done(scan.found), w, scan.header)
         case Stale => Step(Done(false), view, header)
         case Failed => Step(Failed, view, header))
      case Done(None) => Step(Done(false), view, header)
      case _ => Step(Failed, view, header)
  }

  /** `click_next_and_check` with its loops. */
  method ClickNextAndCheck(page: Page, view: ViewId, header: Option<string>) returns (s: Step)
    ensures s == ClickStep(page, view, header)
    ensures !s.outcome.Stale?
  {
    if Truthy(header) && MonthMatches(header.value) {
      return Step(Done(true), view, header);
    }
    var button, _ := Resolve(Retrying, page.views(view).clickable, NextButtonSelectors);
    match button {
      case Done(Some(b)) =>
        match b.click {
          case Done(w) =>
            var scan := RescanHeaders(page.views(w), header);
            return Step(Done(scan.found), w, scan.header);
          case Stale =>
            return Step(Done(false), view, header);
          case Failed =>
            return Step(Failed, view, header);
        }
      case Done(None) =>
        return Step(Done(false), view, header);
      case _ =>
        return Step(Failed, view, header);
    }
  }

  /** The state of the click loop: view, `current_month_year`, `clicks`,
      `reached_target`, and whether an exception left the loop. */
  datatype NavState = NavState(view: ViewId, header: Option<string>, clicks: nat, reached: bool, aborted: bool)

  /** One iteration of the click loop: a call of the decorated `click_next_and_check`.
      Reaching the target ends the loop without counting a click; any other result
      counts one; an exception leaves the loop. */
  function Advance(page: Page, s: NavState): (r: NavState)
    ensures r.view == ClickStep(page, s.view, s.header).view && r.header == ClickStep(page, s.view, s.header).header
    ensures r.reached ==> r.clicks == s.clicks && !r.aborted && TargetShown(page, r.view, r.header)
    ensures r.aborted ==> r.clicks == s.clicks && !r.reached
    ensures !r.reached && !r.aborted ==> r.clicks == s.clicks + 1
    ensures r.reached <==> ClickStep(page, s.view, s.header).outcome == Done(true)
    ensures r.aborted <==> ClickStep(page, s.view, s.header).outcome.Failed?
  {
    var step := ClickStep(page, s.view, s.header);
    var moved := s.(view := step.view, header := step.header);
    var call := Retried(MaxStaleAttempts, Always(step.outcome));
    NotStalePassesThrough(MaxStaleAttempts, Always(step.outcome));
    if call == Done(Some(true)) then moved.(reached := true, aborted := false)
    else if call.Done? then moved.(clicks := s.clicks + 1, reached := false, aborted := false)
    else moved.(reached := false, aborted := true)
  }

  /** `while clicks < max_clicks and not reached_target`. */
  function ClickLoop(page: Page, s: NavState): (r: NavState)
    ensures s.clicks <= r.clicks
    ensures s.clicks <= MaxClicks ==> r.clicks <= MaxClicks
    ensures s.reached || s.aborted || s.clicks >= MaxClicks ==> r == s
    ensures !s.reached && !s.aborted && !r.reached && !r.aborted ==> r.clicks == MaxClicks || s.clicks > MaxClicks
    ensures !s.aborted ==> !(r.reached && r.aborted)
    ensures r.reached && !s.reached ==> TargetShown(page, r.view, r.header)
    decreases MaxClicks - s.clicks, if s.reached || s.aborted then 0 else 1
  {
    if s.reached || s.aborted || s.clicks >= MaxClicks then s
    else ClickLoop(page, Advance(page, s))
  }

  /** The click loop as the source writes it. */
  method Navigate(page: Page, view: ViewId, header: Option<string>) returns (nav: NavState)
    ensures nav == ClickLoop(page, NavState(view, header, 0, false, false))
    ensures nav.clicks <= MaxClicks && !(nav.reached && nav.aborted)
    ensures !nav.reached && !nav.aborted ==> nav.clicks == MaxClicks
    ensures nav.reached ==> TargetShown(page, nav.view, nav.header)
  {
    var clicks: nat := 0;
    var reached := false;
    var v, h := view, header;
    ghost var start := NavState(view, header, 0, false, false);
    while clicks < MaxClicks && !reached
      invariant clicks <= MaxClicks
      invariant ClickLoop(page, start) == ClickLoop(page, NavState(v, h, clicks, reached, false))
      decreases MaxClicks - clicks, if reached then 0 else 1
    {
      ghost var before := NavState(v, h, clicks, false, false);
      var step := ClickNextAndCheck(page, v, h);
      var call, _ := RetryOnStale(MaxStaleAttempts, Always(step.outcome));
      v, h := step.view, step.header;
      if !call.Done? {
        assert Advance(page, before) == NavState(v, h, clicks, false, true);
        return NavState(v, h, clicks, false, true);
      }
      reached := call.value == Some(true);
      if !reached {
        clicks := clicks + 1;
      }
      assert Advance(page, before) == NavState(v, h, clicks, reached, false);
    }
    nav := NavState(v, h, clicks, reached, false);
  }

  /** The month/year dropdown shortcut: `Done(Some(sel))` when both dropdowns were
      found and the two selections were attempted, `Done(None)` when either is missing,
      `Failed` when a lookup raised. */
  function Dropdowns(v: View): (r: Outcome<Option<Selection>>)
    ensures !r.Stale?
    ensures r.Failed? <==> FindWithRetry(v.present(MonthDropdown)).Failed? || FindWithRetry(v.present(YearDropdown)).Failed?
    ensures r.Done? && r.value.Some? <==> Hits(v.present(MonthDropdown)) && Hits(v.present(YearDropdown))
    ensures r.Done? && r.value.Some? ==> r.value.value == v.select
  {
    var m := FindWithRetry(v.present(MonthDropdown));
    if m.Failed? then Failed
    else
      var y := FindWithRetry(v.present(YearDropdown));
      if y.Failed? then Failed
      else if Hits(m) && Hits(y) then Done(Some(v.select))
      else Done(None)
  }
}
