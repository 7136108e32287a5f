/**
 * The run over all booking sites (`main`) and the daily recap it ends with
 * (`send_daily_recap`). Mail transport is not modelled: a notification is the
 * record of what would be sent, and the recap's delivery is a parameter.
 */
module Report {
  import opened Wrappers
  import opened Browser
  import opened Check
  import opened Throttle

  /** The status `main` records for a site. */
  datatype Status = PotentialAvailability | ErrorChecking | NoAvailability

  /** The text the results dictionary holds for each status. */
  function Label(status: Status): string
  {
    match status
    case PotentialAvailability => "POTENTIAL AVAILABILITY"
    case ErrorChecking => "ERROR CHECKING"
    case NoAvailability => "NO AVAILABILITY"
  }

  /** The three texts differ, so comparing texts (as the recap does) is comparing statuses. */
  lemma LabelInjective(a: Status, b: Status)
    ensures Label(a) == Label(b) <==> a == b
  {
    if a != b {
      assert |Label(a)| != |Label(b)|;
    }
  }

  /** `main`'s status for one result: a true result is a potential availability,
      `None` an error, anything else no availability. */
  function StatusOf(available: Option<bool>): (status: Status)
    ensures status == PotentialAvailability <==> available == Some(true)
    ensures status == ErrorChecking <==> available == None
  {
    match available
    case Some(true) => PotentialAvailability
    case None => ErrorChecking
    case Some(false) => NoAvailability
  }

  /** One entry of the booking-site table: its name and the page its URL opens. */
  datatype Site = Site(name: string, page: Page)

  /** A notification `main` sends: the site and the day map the check returned. */
  datatype Notice = Notice(name: string, days: map<string, bool>)

  /** The site table is a dictionary, so no name occurs twice. */
  predicate DistinctNames(sites: seq<Site>)
  {
    forall i, j :: 0 <= i < j < |sites| ==> sites[i].name != sites[j].name
  }

  /** What the availability check answers for one page, with the corrected override
      and unreached branch. */
  function CheckPage(page: Page): Verdict
  {
    Intended(Core(page))
  }

  /** What `check_calendar_availability` answers for one page as the source writes it. */
  function AsWrittenCheck(page: Page): Verdict
  {
    Reported(Core(page))
  }

  /** The results dictionary after checking `sites` in order. */
  function Statuses(sites: seq<Site>, check: Page -> Verdict): map<string, Status>
  {
    if sites == [] then map[]
    else
      var last := sites[|sites| - 1];
      Statuses(sites[..|sites| - 1], check)[last.name := StatusOf(Some(check(last.page).available))]
  }

  /** The notifications sent while checking `sites` in order. */
  function Notices(sites: seq<Site>, check: Page -> Verdict): seq<Notice>
  {
    if sites == [] then []
    else
      var last := sites[|sites| - 1];
      var v := check(last.page);
      Notices(sites[..|sites| - 1], check) + (if v.available then [Notice(last.name, v.days)] else [])
  }

  /** The results dictionary holds exactly the sites' names. */
  lemma {:induction false} StatusesKeys(sites: seq<Site>, check: Page -> Verdict)
    ensures forall name :: name in Statuses(sites, check) <==> exists s :: s in sites && s.name == name
  {
    if sites != [] {
      StatusesKeys(sites[..|sites| - 1], check);
      assert sites == sites[..|sites| - 1] + [sites[|sites| - 1]];
    }
  }

  /** Each site's name maps to the status of its own check. */
  lemma {:induction false} StatusesValues(sites: seq<Site>, check: Page -> Verdict)
    requires DistinctNames(sites)
    ensures forall i :: 0 <= i < |sites| ==>
      sites[i].name in Statuses(sites, check)
      && Statuses(sites, check)[sites[i].name] == StatusOf(Some(check(sites[i].page).available))
  {
    if sites != [] {
      var n := |sites| - 1;
      var init := sites[..n];
      assert DistinctNames(init);
      StatusesValues(init, check);
      forall i | 0 <= i < n
        ensures Statuses(sites, check)[sites[i].name] == StatusOf(Some(check(sites[i].page).available))
      {
        assert init[i] == sites[i];
        assert sites[i].name != sites[n].name;
      }
    }
  }

  /** The results dictionary holds exactly the sites' names, each with the status of
      its own check. */
  lemma StatusesFacts(sites: seq<Site>, check: Page -> Verdict)
    requires DistinctNames(sites)
    ensures forall name :: name in Statuses(sites, check) <==> exists s :: s in sites && s.name == name
    ensures forall s :: s in sites ==> Statuses(sites, check)[s.name] == StatusOf(Some(check(s.page).available))
  {
    StatusesKeys(sites, check);
    StatusesValues(sites, check);
    forall s | s in sites
      ensures Statuses(sites, check)[s.name] == StatusOf(Some(check(s.page).available))
    {
      var i :| 0 <= i < |sites| && sites[i] == s;
    }
  }

  /** "ERROR CHECKING" never appears in the results: the check always answers a boolean. */
  lemma NeverErrorChecking(sites: seq<Site>, check: Page -> Verdict)
    requires DistinctNames(sites)
    ensures forall name :: name in Statuses(sites, check) ==> Statuses(sites, check)[name] != ErrorChecking
  {
    StatusesFacts(sites, check);
  }

  /** `n` is the notification sent for `site`. */
  predicate NoticeFor(check: Page -> Verdict, site: Site, n: Notice)
  {
    check(site.page).available && n == Notice(site.name, check(site.page).days)
  }

  /** The notifications are exactly those for the sites whose check found availability,
      each carrying that check's day map. */
  lemma {:induction false} NoticesFacts(sites: seq<Site>, check: Page -> Verdict)
    ensures forall n :: n in Notices(sites, check) <==> exists s :: s in sites && NoticeFor(check, s, n)
  {
    if sites != [] {
      var init := sites[..|sites| - 1];
      var last := sites[|sites| - 1];
      NoticesFacts(init, check);
      assert sites == init + [last];
      forall n | n in Notices(sites, check)
        ensures exists s :: s in sites && NoticeFor(check, s, n)
      {
        if n !in Notices(init, check) {
          assert NoticeFor(check, last, n);
        }
      }
      forall n, s | s in sites && NoticeFor(check, s, n)
        ensures n in Notices(sites, check)
      {
        if s != last {
          assert s in init;
        }
      }
    }
  }

  /** Checking one more site extends the results and the notifications by that site's. */
  lemma ChecksStep(sites: seq<Site>, i: nat, check: Page -> Verdict)
    requires i < |sites|
    ensures Statuses(sites[..i + 1], check)
      == Statuses(sites[..i], check)[sites[i].name := StatusOf(Some(check(sites[i].page).available))]
    ensures Notices(sites[..i + 1], check) == Notices(sites[..i], check)
      + (if check(sites[i].page).available then [Notice(sites[i].name, check(sites[i].page).days)] else [])
  {
    assert sites[..i + 1][..i] == sites[..i];
  }

  /** `main`'s loop over the booking sites: check each one, record its status and
      notify when it shows potential availability. */
  method RunChecks(sites: seq<Site>) returns (results: map<string, Status>, notices: seq<Notice>)
    ensures results == Statuses(sites, CheckPage)
    ensures notices == Notices(sites, CheckPage)
  {
    results, notices := map[], [];
    var i := 0;
    while i < |sites|
      invariant 0 <= i <= |sites|
      invariant results == Statuses(sites[..i], CheckPage)
      invariant notices == Notices(sites[..i], CheckPage)
    {
      var site := sites[i];
      var available, days := CheckSite(site);
      ChecksStep(sites, i, CheckPage);
      if available {
        results := results[site.name := PotentialAvailability];
        notices := notices + [Notice(site.name, days)];
      } else {
        results := results[site.name := NoAvailability];
      }
      i := i + 1;
    }
    assert sites[..i] == sites;
  }

  /** `check_calendar_availability` for one site. */
  method CheckSite(site: Site) returns (available: bool, days: map<string, bool>)
    ensures Verdict(available, days) == CheckPage(site.page)
  {
    available, days := CheckCalendarAvailability(site.page);
  }

  /** The recap's `any_available`: some status text equals "POTENTIAL AVAILABILITY",
      that is, some site shows potential availability. */
  predicate AnyAvailable(results: map<string, Status>): (b: bool)
    ensures b <==> exists name :: name in results && results[name] == PotentialAvailability
  {
    forall name | name in results
      ensures Label(results[name]) == "POTENTIAL AVAILABILITY" <==> results[name] == PotentialAvailability
    {
      LabelInjective(results[name], PotentialAvailability);
    }
    exists name :: name in results && Label(results[name]) == "POTENTIAL AVAILABILITY"
  }

  /** The recap reports good news exactly when some site's check found availability. */
  lemma AnyAvailableIffSomeSite(sites: seq<Site>, check: Page -> Verdict)
    requires DistinctNames(sites)
    ensures AnyAvailable(Statuses(sites, check)) <==> exists s :: s in sites && check(s.page).available
  {
    StatusesFacts(sites, check);
    if AnyAvailable(Statuses(sites, check)) {
      var name :| name in Statuses(sites, check) && Statuses(sites, check)[name] == PotentialAvailability;
      var s :| s in sites && s.name == name;
      assert check(s.page).available;
    }
    if exists s :: s in sites && check(s.page).available {
      var s :| s in sites && check(s.page).available;
      assert Statuses(sites, check)[s.name] == PotentialAvailability;
    }
  }

  /** Some notification goes out exactly when some site's check found availability. */
  lemma NotifiedIffSomeSite(sites: seq<Site>, check: Page -> Verdict)
    ensures Notices(sites, check) != [] <==> exists s :: s in sites && check(s.page).available
  {
    NoticesFacts(sites, check);
    if Notices(sites, check) != [] {
      assert Notices(sites, check)[0] in Notices(sites, check);
      var s :| s in sites && NoticeFor(check, s, Notices(sites, check)[0]);
    }
    if exists s :: s in sites && check(s.page).available {
      var s :| s in sites && check(s.page).available;
      assert NoticeFor(check, s, Notice(s.name, check(s.page).days));
    }
  }

  /** Hence the recap's good news matches the notifications sent in the same run. */
  lemma GoodNewsIffNotified(sites: seq<Site>, check: Page -> Verdict)
    requires DistinctNames(sites)
    ensures AnyAvailable(Statuses(sites, check)) <==> Notices(sites, check) != []
  {
    AnyAvailableIffSomeSite(sites, check);
    NotifiedIffSomeSite(sites, check);
  }

  /** What one call of `send_daily_recap` does. */
  datatype Recap = Recap(attempted: bool, goodNews: bool, stored: Option<string>)

  /** `send_daily_recap` with email enabled: skipped unless a recap is due; otherwise the
      message says whether any site had availability, and the recap file is rewritten
      with today's date only when the mail went out. `stored` is the recap file's
      content before the call, `delivered` whether the mail exchange succeeded. */
  function DailyRecap(results: map<string, Status>, today: Date, stored: Option<string>, delivered: bool): (r: Recap)
    requires ValidDate(today)
    ensures r.attempted <==> ShouldSendRecap(today, stored)
    ensures r.attempted ==> (r.goodNews <==> AnyAvailable(results))
    ensures r.attempted && delivered ==> r.stored == RecordRecap(today)
    ensures !r.attempted ==> !r.goodNews && r.stored == stored
    ensures r.stored != stored ==> r.attempted && delivered
  {
    if !ShouldSendRecap(today, stored) then Recap(false, false, stored)
    else Recap(true, AnyAvailable(results), if delivered then RecordRecap(today) else stored)
  }

  /** Once a recap has gone out, no further recap is attempted on the same day. */
  lemma AtMostOneRecapPerDay(first: map<string, Status>, second: map<string, Status>, today: Date,
                             stored: Option<string>, delivered: bool)
    requires ValidDate(today)
    ensures var r := DailyRecap(first, today, stored, true);
      r.attempted ==> !DailyRecap(second, today, r.stored, delivered).attempted
  {
    NoSecondRecapSameDay(today);
  }

  /** After a recap went out, the next one is due on the first later day. */
  lemma RecapDueNextDay(first: map<string, Status>, second: map<string, Status>, today: Date,
                        later: Date, stored: Option<string>, delivered: bool)
    requires ValidDate(today) && ValidDate(later) && Before(today, later)
    ensures var r := DailyRecap(first, today, stored, true);
      r.attempted ==> DailyRecap(second, later, r.stored, delivered).attempted
  {
    RecapDueAfterRecord(today, later);
  }

  /** A recap whose delivery failed leaves the file untouched, so it is attempted again. */
  lemma FailedRecapIsRetried(first: map<string, Status>, second: map<string, Status>, today: Date,
                             stored: Option<string>, delivered: bool)
    requires ValidDate(today)
    ensures var r := DailyRecap(first, today, stored, false);
      r.attempted ==> DailyRecap(second, today, r.stored, delivered).attempted
  {
  }
}
