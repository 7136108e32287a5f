# Yosemite calendar availability checker, modelled in Dafny

`calendar_check.py` opens each booking site's date picker in a browser and steps
the calendar to May 2025. It confirms that month, then decides for May 23–26
whether each day looks selectable. `main` turns each site's answer into a status
line and a notification, and a daily recap mail goes out at most once a day.

This project models the decisions that checker makes. The browser itself is not
modelled. A `Browser.Page` value is an oracle fixing every answer the browser could
give during one check: every element lookup, text read, class read, colour script
and click. Each answer is a value, a stale-element error, or some other exception
(`Outcome = Done | Stale | Failed`).

The source mixes imperative code and plain computations, and the model follows
that shape:

- Each loop of the source (the stale-retry decorator, the selector loops, the
  header re-read, the click loop, the indicator loop, the day loop, the override
  loop, `main`'s loop over the sites) is a `method` with a `while`/`for` loop. Each
  such method is proved equal to a specification function, recursive for all but
  the indicator loop. `Classifier.FindIndicator` is proved against the predicate
  `Classifier.HasIndicator`, which states that some indicator occurs in the classes.
- The properties are proved as lemmas about those functions.
- `Check.Core` follows one check to how it ends (`Ending`).
- `Check.Reported` is the verdict the source returns.
- `Check.Intended` is the verdict its override and unreached branch are evidently
  meant to give. `Check.CheckCalendarAvailability` computes it, and `main`'s model
  (`Report`) uses it.

Modules:

- `Browser` holds the oracle. `Selectors` holds the descriptor lists, with the
  source's own strings.
- `Retry` models `retry_on_stale_element`. `Fallback` models the ordered selector
  loops.
- `Navigation` covers the month match, `click_next_and_check`, the dropdowns and
  the click loop.
- `Classifier` decides one day cell. `Check` covers `check_calendar_availability`.
- `Throttle` covers the recap date file. `Report` covers `main` and
  `send_daily_recap`.
- `PyText` models Python's `in` and `strip()`.
- `Scenarios` holds concrete pages that open at May 2025, one with a selectable day
  and one with every day marked, and what the check decides on them.
- `Findings` holds the two concrete pages on which the source's verdict goes wrong.

## Model

| member | source | states |
|---|---|---|
| Browser.FindWithRetry | calendar_check.py:107-117 | a timeout or stale lookup becomes "nothing found"; never stale; other exceptions still propagate; a found element is returned unchanged |
| Retry.RetryOnStale | calendar_check.py:87-104 | the decorator loop equals `Retried`; at most `max_attempts` calls, all but the last stale; a non-stale result or other exception passes through from the call that produced it; the stale error escapes only on the `max_attempts`-th stale call |
| Retry.StaleEscapesOnlyAfterAllAttempts | calendar_check.py:92-101 | a stale error leaves the decorator only when every remaining attempt went stale |
| Retry.NotStalePassesThrough | calendar_check.py:92-96 | an operation whose first call does not go stale runs once and its value or exception passes through unchanged |
| Fallback.FirstHit | calendar_check.py:402-406 | the first descriptor that does not move on decides, and every earlier one moved on; "nothing" exactly when every descriptor moved on; stale never escapes from `find_element_with_retry` loops |
| Fallback.Resolve | calendar_check.py:197-205 | the `for`/`break` selector loop equals `FirstHit` and consults no descriptor after the deciding one |
| Navigation.MonthMatches | calendar_check.py:473-480 | the header matches exactly when it contains "May" and "2025"; the exact comparison with "May 2025" adds nothing |
| PyText.ContainsIff | calendar_check.py:710-711 | Python's `sub in s` holds exactly when `sub` occurs at some index of `s` |
| PyText.Strip | calendar_check.py:674 | `strip()` yields a slice of the text, surrounded only by whitespace, that neither starts nor ends with whitespace |
| Navigation.HeaderRead | calendar_check.py:514-542 | the header text read is the found element's text, and nothing when the lookup finds nothing or the text read raises; with a text read, the descriptor counts as the target exactly when that text matches, or it is the title whose month and year parts read "May" and "2025" after trimming |
| Navigation.Rescan | calendar_check.py:513-547 | the header re-read finds the target exactly when some header descriptor matches; `current_month_year` afterwards is the text some descriptor read, or the old value, which it keeps when no descriptor read a text |
| Navigation.RescanWithoutHeaders | calendar_check.py:513-547 | with no header found, the re-read reports no match and leaves `current_month_year` as it was |
| Navigation.RescanHeaders | calendar_check.py:513-542 | the header `for` loop with early return equals `Rescan` |
| Navigation.InitialHeader | calendar_check.py:366-387 | the header read before any click is the text of the first header descriptor that finds an element and reads its text, every earlier descriptor having found nothing; nothing exactly when no descriptor gets that far |
| Navigation.ReadInitialHeader | calendar_check.py:375-382 | the initial header loop equals `InitialHeader` |
| Navigation.ClickStep | calendar_check.py:461-547 | never raises a stale error; an already matching header returns true without clicking; otherwise it raises exactly when the next-button lookup or its click raises, is true only after a successful click, keeps the view and `current_month_year` when no click happened, and after a click has the re-read's header and is true exactly when some header descriptor of the new view counts as the target |
| Navigation.ClickNextAndCheck | calendar_check.py:486-547 | the function with its loops equals `ClickStep` |
| Navigation.Advance | calendar_check.py:550-555 | one loop iteration reaches the target exactly when `click_next_and_check` returns true, aborts exactly when it raises, and otherwise counts one click |
| Navigation.ClickLoop | calendar_check.py:457-555 | the loop never exceeds 36 clicks; if it neither reached the target nor raised, it made exactly 36; reaching means the target is shown |
| Navigation.Navigate | calendar_check.py:550-555 | the `while` loop equals `ClickLoop` from zero clicks, with at most 36 clicks and exactly 36 when it gives up |
| Navigation.Dropdowns | calendar_check.py:413-452 | never stale; raises exactly when one of the two dropdown lookups raises; the selection is made exactly when both dropdowns are found |
| Selectors.DaySelectors | calendar_check.py:620-631 | one XPath descriptor per pattern, nine in all, each holding the day right after its pattern's prefix |
| Selectors.DayXPath | calendar_check.py:620-631 | a day descriptor is an XPath holding the day right after its prefix, followed by the source's suffix |
| Classifier.FindIndicator | calendar_check.py:708-714 | the indicator loop finds one exactly when some indicator is a substring of the classes, and reports the first |
| Classifier.ClassesElement | calendar_check.py:685-700 | the cell itself unless it is an `a` or `span`; for those, the enclosing `td` when the ancestor lookup finds one, else the parent, else the cell, and the cell when that lookup raises; a stale tag read keeps the cell; any other exception from the tag read escapes |
| Classifier.DayVerdict | calendar_check.py:672-741 | never stale; raises exactly when the text read, the tag read or the class read raises an exception other than a stale error |
| Classifier.ClassifyDay | calendar_check.py:672-752 | the classification with its indicator loop equals `DayVerdict` |
| Classifier.SelectableOnlyWithoutSignals | calendar_check.py:702-752 | a selectable day had its classes read, carries no indicator, has no greyed colours and no "N/A" in text that was read |
| Classifier.NoSignalIsSelectable | calendar_check.py:702-752 | conversely, a day whose text and classes were read, with no indicator, no "N/A" and no greyed colours, is selectable |
| Classifier.AnySignalMakesUnavailable | calendar_check.py:702-734 | any one of indicator, "N/A" or grey colour makes the day unselectable |
| Classifier.StaleClassesAreUnavailable | calendar_check.py:737-740 | a stale class read makes the day unselectable |
| Classifier.StaleTextIgnoresMarker | calendar_check.py:681-683 | a stale text read skips the "N/A" test, so a clean cell is selectable whatever its text |
| Classifier.ColourFailureIgnored | calendar_check.py:720-736 | a colour script that raises is ignored |
| Check.DayKey | calendar_check.py:752 | the key is "May ", the day, then ", 2025" |
| Check.DayKeyInjective | calendar_check.py:752 | distinct days get distinct keys |
| Check.CellOf | calendar_check.py:634-648 | a cell is found exactly when some day descriptor hits, and it is that descriptor's element; the decorator never retries here |
| Check.FindDayCell | calendar_check.py:634-645 | the descriptor loop under the decorator equals `CellOf` |
| Check.DayOutcome | calendar_check.py:647-763 | a day without a cell is not selectable; a day with a cell gets that cell's verdict; never stale |
| Check.DaysScanFacts | calendar_check.py:617-763 | `calendar_available` is true exactly when some recorded day is true; each recorded value is that day's verdict; the loop is cut short exactly when some day raises; a loop that ran through records all four days |
| Check.ScanAdvance | calendar_check.py:617-763 | one more day either records its verdict under its key, setting the flag when true, or, when checking it raised, ends the loop with the days recorded so far |
| Check.ScanValues | calendar_check.py:750-763 | every recorded value is the verdict of the day recorded under that key |
| Check.ScanAvailable | calendar_check.py:750-758 | `calendar_available` is true exactly when some recorded day is true |
| Check.ScanAborted | calendar_check.py:617-799 | the day loop is cut short exactly when checking some day raises |
| Check.ScanComplete | calendar_check.py:617-763 | a day loop that ran through records all four days, each with its own verdict |
| Check.AbortSticks | calendar_check.py:617-799 | once an exception left the day loop, later days change nothing |
| Check.CheckDay | calendar_check.py:647-763 | one day's check equals `DayOutcome` |
| Check.CheckDays | calendar_check.py:617-763 | the day loop, leaving at the first exception, equals `DaysScan` |
| Check.Overridden | calendar_check.py:766-771 | the override keeps every key, adds the four target keys, and makes exactly those false |
| Check.ApplyOverride | calendar_check.py:769-770 | the override loop equals `Overridden` over the target days |
| Check.OverrideStep | calendar_check.py:769-770 | each iteration of the override loop sets one more target key to false |
| Check.Confirmation | calendar_check.py:584-611 | the month is confirmed exactly when the header contains "May" and "2025" or the fourth first-row cell reads "1"; a header lookup or read that raises anything but "not found" escapes |
| Check.OpenCalendar | calendar_check.py:181-299 | the first clickable date input is clicked; without one, the calendar icon; without the icon, the view the scripts show; a lookup or click that raises, stale or not, ends the run |
| Check.Clicked | calendar_check.py:215-298 | a click that raises, stale or not, ends the run; a click that succeeds gives the view it shows |
| Check.Opened | calendar_check.py:196-299 | given the date-input and icon lookups: the same three branches, and a click's stale error ends the run like any other exception |
| Check.OpenCalendarView | calendar_check.py:196-299 | the opening phase with its date-input loop equals `OpenCalendar` |
| Check.Reached | calendar_check.py:557-763 | once the month is shown, the run stops exactly when the confirmation raises, and otherwise classifies the days of that view with its confirmation |
| Check.Navigated | calendar_check.py:550-557 | after the click loop: a reached month goes on to `Reached` in the reached view; stops exactly when the loop aborted or the reached month's confirmation raised; unreached exactly when it neither reached nor aborted, after exactly 36 clicks |
| Check.Reach | calendar_check.py:411-455 | a raising dropdown lookup stops the run; successful dropdowns go on to `Reached` in the view they show, so they never leave the month unreached; otherwise the click loop decides (`Navigated`), started from the dropdown view when one was shown |
| Check.AfterHeader | calendar_check.py:398-410 | no next button ends the run with "no next button"; a next-button lookup that raises stops it; a found button hands over to `Reach` |
| Check.AfterButton | calendar_check.py:398-410 | given the next-button lookup: nothing found ends with "no next button", a raising lookup stops, a hit hands over to `Reach` |
| Check.AfterCalendar | calendar_check.py:366-410 | from the calendar root: the initial header, then the next button, with the same three cases; a found button hands over to `Reach` with the initial header |
| Check.Core | calendar_check.py:151-816 | a page that does not load or a calendar that does not open stops the run; no calendar root ends it with "no calendar", a raising root lookup stops it, a found root hands over to `AfterCalendar`; a classified run carries the confirmation and day scan of its view; an unreached run clicked 36 times |
| Check.Reported | calendar_check.py:772-816 | as written: every run that did not reach the day loop returns false with an empty map |
| Check.Intended | calendar_check.py:765-777 | true only when the run classified the days, the month was confirmed and some day was selectable; an unreached month records all four days as false |
| Check.ReportedDiffersOnlyThere | calendar_check.py:765-799 | the source's verdict departs from the intended one only for an unreached month or an unconfirmed month whose day loop raised |
| Check.CheckCalendarAvailability | calendar_check.py:151-816 | the check, step by step, returns `Intended(Core(page))` |
| Check.NavigateAndCheck | calendar_check.py:366-410 | the header and next-button phase returns `Intended(AfterCalendar(..))` |
| Check.FindButtonAndReach | calendar_check.py:398-410 | the next-button loop returns `Intended(AfterHeader(..))` |
| Check.ReachAndCheck | calendar_check.py:411-455 | the dropdown-or-clicking phase returns `Intended(Reach(..))` |
| Check.AfterClicking | calendar_check.py:557-777 | after the click loop, returns `Intended(Navigated(..))` |
| Check.ConfirmAndClassify | calendar_check.py:582-771 | confirmation, day loop and override return `Intended(Reached(..))` |
| Check.Settle | calendar_check.py:765-771 | after the day loop, an unconfirmed month is overridden: returns `Intended` of the classified run |
| Check.ClassifiedVerdict | calendar_check.py:750-771 | for a run that reached the day loop: true only if confirmed and some day selectable, and conversely when the loop ran through; the flag agrees with the map; the map holds each day's verdict |
| Check.AvailableOnlyIfConfirmed | calendar_check.py:757-816 | the result is true only when May 2025 was confirmed and a target day was found selectable; when the day loop ran through, that is also enough |
| Check.AvailableIffSomeDayTrue | calendar_check.py:750-816 | the result is true exactly when some recorded day is true |
| Check.EveryDayRecorded | calendar_check.py:750-763 | a day loop that ran through records all four days, each with its own verdict when confirmed |
| Throttle.ParseDate | calendar_check.py:70-71 | `strptime("%Y-%m-%d")` only yields valid dates |
| Throttle.IsoFormat | calendar_check.py:81 | `isoformat()` writes ten characters, digits around dashes at positions 4 and 7 |
| Throttle.ShouldSendRecap | calendar_check.py:58-76 | a recap is due when the file is missing or unreadable as a date, and otherwise exactly when today is later than the stored date |
| Throttle.ParseIsoFormat | calendar_check.py:70-82 | reading back the ISO date written by `update_last_recap_date` gives the same date |
| Throttle.StripIsoFormat | calendar_check.py:70 | `strip()` leaves an ISO date unchanged |
| Throttle.ReadBackIsoFormat | calendar_check.py:70-82 | the file written on a day reads back through `strip()` and `strptime` as that day |
| Throttle.DueAfterParse | calendar_check.py:69-73 | a file that parses as a date makes a recap due exactly on later days |
| Throttle.RecordRecap | calendar_check.py:79-84 | the file afterwards holds a ten-character date |
| Throttle.RecapDueAfterRecord | calendar_check.py:58-84 | once today's date is stored, a recap is due on a given day exactly when that day is later than today |
| Throttle.NoSecondRecapSameDay | calendar_check.py:58-84 | once today's date is stored, no recap is due again today |
| Report.StatusOf | calendar_check.py:1008-1014 | "POTENTIAL AVAILABILITY" exactly for a true result, "ERROR CHECKING" exactly for `None` |
| Report.LabelInjective | calendar_check.py:1008-1014 | the three status texts are distinct |
| Report.StatusesFacts | calendar_check.py:1005-1014 | the results hold exactly the site names, each with the status of its own check |
| Report.StatusesKeys | calendar_check.py:1005-1014 | the results hold exactly the site names |
| Report.StatusesValues | calendar_check.py:1005-1014 | each site name maps to the status of that site's own check |
| Report.NeverErrorChecking | calendar_check.py:1011-1012 | "ERROR CHECKING" never appears, since the check never returns `None` |
| Report.NoticesFacts | calendar_check.py:1008-1010 | notifications go out exactly for the sites whose check was true, each with that check's day map |
| Report.RunChecks | calendar_check.py:1003-1018 | `main`'s loop builds the results and notifications of `Statuses` and `Notices` |
| Report.ChecksStep | calendar_check.py:1005-1014 | checking one more site adds its status under its name and, when it is true, one notification with its day map |
| Report.CheckSite | calendar_check.py:1006 | one site's check returns `Intended(Core(page))` |
| Report.AnyAvailableIffSomeSite | calendar_check.py:882 | `any_available` is true exactly when some site's check was true |
| Report.AnyAvailable | calendar_check.py:882 | `any_available` holds exactly when some status is "POTENTIAL AVAILABILITY" |
| Report.NotifiedIffSomeSite | calendar_check.py:1008-1010 | some notification went out exactly when some site's check was true |
| Report.GoodNewsIffNotified | calendar_check.py:882-892 | the recap reports good news exactly when the same run sent a notification |
| Report.DailyRecap | calendar_check.py:867-932 | a recap is attempted exactly when one is due; an attempted recap reports good news exactly when some site shows potential availability; a delivered one stores today's date; a skipped one changes nothing; the stored date changes only when a recap was sent and delivered |
| Report.AtMostOneRecapPerDay | calendar_check.py:874-928 | after a delivered recap, no further recap is attempted that day |
| Report.RecapDueNextDay | calendar_check.py:874-928 | after a delivered recap, the next one is due on any later day |
| Report.FailedRecapIsRetried | calendar_check.py:926-932 | a recap whose delivery failed leaves the stored date, so the next run the same day tries again |
| Findings.AbortedDayLoopSkipsOverride | calendar_check.py:799 | on a concrete page, an exception on May 24 after May 23 looked selectable makes the source report an unconfirmed month as available |
| Findings.UnreachedMonthRecordsNothing | calendar_check.py:772-777 | on a concrete page whose month is never reached, the source returns an empty map; the intended verdict records all four days as false |
| Findings.PageTwoNotReached | calendar_check.py:550-555 | that page ends the click loop after exactly 36 clicks |
| Findings.PageOneScan | calendar_check.py:617-763 | on the first page the day loop records May 23 as selectable, then raises on May 24 |
| Findings.AsWrittenMainNotifies | calendar_check.py:1005-1014 | on that page, `main` as written records "POTENTIAL AVAILABILITY" and sends a notification with May 23 true; with the intended verdict it records "NO AVAILABILITY" and sends nothing |
| Scenarios.DropdownPageOpens | calendar_check.py:196-205 | on a page whose first date input is clickable, opening the calendar shows that input's view |
| Scenarios.DropdownPageFinds | calendar_check.py:366-410 | there the calendar root and the next button are found by their first descriptors |
| Scenarios.DropdownPageSelects | calendar_check.py:413-452 | both dropdowns are found and select May 2025 |
| Scenarios.DropdownPageReaches | calendar_check.py:151-455 | so the run reaches May 2025 through the dropdowns, without a click |
| Scenarios.FirstDescriptorFinds | calendar_check.py:620-645 | on such a page the day's first descriptor finds the cell the page holds for that day, and that cell is the day's cell |
| Scenarios.NoClassNoIndicator | calendar_check.py:708-714 | an empty class attribute carries no indicator |
| Scenarios.PlainTextNoMarker | calendar_check.py:674-683 | the text "23" carries no "N/A" |
| Scenarios.CleanIsSelectable | calendar_check.py:672-752 | a `td` reading "23" with no class attribute is selectable, even when its colour scripts raise |
| Scenarios.WhiteIsNotGrey | calendar_check.py:728-731 | a white background with black text matches none of the grey patterns |
| Scenarios.PaintedIsSelectable | calendar_check.py:672-752 | a `td` reading "23" with no class attribute and white/black colours is selectable |
| Scenarios.MarkedIsUnavailable | calendar_check.py:702-714 | a cell whose class is `ui-datepicker-unselectable` is not selectable |
| Scenarios.MayHeaderConfirms | calendar_check.py:584-611 | the header "May 2025" confirms the month |
| Scenarios.ConfirmedRun | calendar_check.py:557-763 | under that header the run classifies the days of the dropdown view, confirmed |
| Scenarios.ConfirmedScan | calendar_check.py:750-777 | a confirmed run whose day loop raised nothing is reported as intended: available exactly when some day is selectable, each day recorded under its key |
| Scenarios.ConfirmedVerdict | calendar_check.py:557-777 | on such a page, when every day yields a verdict, the run ends with those verdicts |
| Scenarios.OneDayOutcomes | calendar_check.py:617-763 | on the page with one clean day, May 23 (with readable colours) is selectable and May 24 to 26 are not |
| Scenarios.OnlyFirstDaySelectable | calendar_check.py:750-777 | a confirmed run with only May 23 selectable reports availability with only May 23 true |
| Scenarios.OneCleanDayIsAvailable | calendar_check.py:151-816 | the check classifies the page with one clean day as available, May 23 true and the other days false, as written and as intended |
| Scenarios.AllMarkedIsUnavailable | calendar_check.py:151-816 | the check classifies a page whose four days are all marked as not available, all four days false, as written and as intended |

## Left out

- Browser I/O. `setup_webdriver`, `driver.get`, `driver.quit`, `WebDriverWait`
  timing and `time.sleep` become the `Page` oracle. A lookup that times out and one
  that raises `NoSuchElementException` are the same answer.
- The oracle's determinism. Within one view, each descriptor always gives the same
  answer. So the stale-retry decorator at its call sites is fed a constant outcome
  (`Retry.Always`). This loses nothing, because neither decorated function ever
  raises a stale error.
- Screenshots, HTML file writes, the highlight scripts (651-670) and
  `capture_page_debug_info`. They have no effect on verdicts and are taken not to
  raise outside their own handlers.
- The JavaScript date-setting bodies (227-287). They become an opaque "view shown
  afterwards" (`View.afterScript`). Their exceptions are swallowed at 284-294.
- The loading-message wait (305-315). It only catches its own timeout and is
  taken not to raise anything else.
- The clickability check (743-749). `EC.element_to_be_clickable(..)` returns an
  always-truthy callable that is never invoked, so the check does nothing.
- The April warnings (482-483, 593-594). They only print.
- Computed colours are opaque strings; only the source's substring tests are
  applied. The two colour scripts are one outcome: if either raises, the colour
  test is skipped.
- The returned `filename` and the URLs. They do not affect any verdict.
- Dictionary insertion order of the results and day maps. The maps are unordered.
- The notification and recap message bodies, `results_summary`, and SMTP transport
  (`send_notification`, `send_daily_recap`, `minimal_email_test.py`). The recap's
  delivery is a parameter. A notification is recorded as a site name and day map.
- `EMAIL_ENABLED`. It is `True` in the source, so the disabled branches are not
  modelled.
- `datetime.now()` and the recap file. Today's date and the file content
  (`None` when the file does not exist) are parameters.
- Failures to read or write the recap file. A read failure is treated like an
  unparseable date, which also yields "due". The write is taken to succeed.
- Python `str` details: `strptime` is modelled for ASCII digits only, and the
  whitespace set is Python's `isspace` on single code points.
- Check.CheckCalendarAvailability, Report.CheckPage, Report.CheckSite and
  Report.RunChecks: compute the corrected verdict (`Check.Intended`), not the
  source's. The two differ in exactly two cases (`Check.ReportedDiffersOnlyThere`).
  In the first, an unconfirmed month's day loop raised. The source then returns true,
  and `main` records "POTENTIAL AVAILABILITY" and sends a notification. In the
  second, the month is never reached, and the source returns an empty day map. `main`
  as written is `Report.Statuses` and `Report.Notices` over `Report.AsWrittenCheck`.
  `Findings.AsWrittenMainNotifies` shows the difference on a concrete page.
- The `Scenarios` pages are fixed sample pages, not pages of a real booking site.

## Findings

| source | as written | input that shows it | evidently intended | confidence | as-written member | corrected member |
|---|---|---|---|---|---|---|
| calendar_check.py:674 | A non-stale exception while reading a day cell's text (674), tag (688) or classes (706) leaves the day loop. The general handler (799) catches it, so the override at 766-771 never runs and `calendar_available` stays true. | `Findings.PageOne`: dropdowns reach May 2025; the header is not found and the first row is empty, so the month is unconfirmed; May 23's cell is clean; reading May 24's text raises | an unconfirmed month never yields a true result | high; not executed | Findings.AbortedDayLoopSkipsOverride | Check.AvailableOnlyIfConfirmed |
| calendar_check.py:776 | The unreached branch loops over `target_days`, which is only assigned at 571 inside the reached branch. The `UnboundLocalError` goes to 799 and the day map comes back empty. | `Findings.PageTwo`: no dropdowns; the next button keeps the same unreadable month; the loop stops after 36 clicks | all four target days recorded as not selectable | high; not executed | Findings.UnreachedMonthRecordsNothing | Check.Intended |
