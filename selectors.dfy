/** The descriptor lists of `check_calendar_availability`, in the order they are tried. */
module Selectors {
  import opened PyText
  import opened Browser

  const DateInputSelectors: seq<Locator> := [
    Locator(ClassName, "wxa-input-date-picker"),
    Locator(CssSelector, "input.wxa-input-date-picker"),
    Locator(CssSelector, "input[name='ArrivalDate']"),
    Locator(CssSelector, ".hasDatepicker"),
    Locator(Id, "box-widget_ArrivalDate"),
    Locator(XPath, "//input[contains(@class, 'wxa-input-date-picker')]"),
    Locator(XPath, "//input[contains(@class, 'hasDatepicker')]"),
    Locator(XPath, "//label[text()='Check-in']/following::input[1]")
  ]

  const CalendarIcon := Locator(CssSelector, ".icon-ARMKicomooncalendar, .glyphicon-calendar, .input-group-addon")

  const CalendarSelectors: seq<Locator> := [
    Locator(CssSelector, ".ui-datepicker"),
    Locator(CssSelector, ".datepicker"),
    Locator(CssSelector, ".calendar-container"),
    Locator(CssSelector, "#ui-datepicker-div")
  ]

  /** The first month header descriptor; after a click it also triggers the check of
      separate month and year elements. */
  const TitleLocator := Locator(ClassName, "ui-datepicker-title")

  const MonthHeaderSelectors: seq<Locator> := [
    TitleLocator,
    Locator(CssSelector, ".ui-datepicker-month"),
    Locator(CssSelector, ".datepicker-switch"),
    Locator(CssSelector, ".calendar-title")
  ]

  const NextButtonSelectors: seq<Locator> := [
    Locator(ClassName, "ui-datepicker-next"),
    Locator(CssSelector, ".next"),
    Locator(CssSelector, "[title='Next']"),
    Locator(CssSelector, ".ui-icon-circle-triangle-e"),
    Locator(XPath, "//a[contains(@class, 'ui-datepicker-next')]"),
    Locator(XPath, "//a[contains(@class, 'next')]"),
    Locator(XPath, "//button[contains(@class, 'next')]")
  ]

  const MonthDropdown := Locator(CssSelector, "select.ui-datepicker-month, select.month")
  const YearDropdown := Locator(CssSelector, "select.ui-datepicker-year, select.year")

  const MonthPart := Locator(ClassName, "ui-datepicker-month")
  const YearPart := Locator(ClassName, "ui-datepicker-year")

  const ConfirmHeader := Locator(CssSelector, ".ui-datepicker-title, .month, .datepicker-switch")
  const FirstRowCells := Locator(CssSelector, "tr:first-child td")

  /** Looked up from the document root, not from the day cell. */
  const AncestorTd := Locator(XPath, "./ancestor::td")

  /** The XPath `prefix + day + suffix`: the day sits right after `prefix`. */
  function DayXPath(prefix: string, day: string, suffix: string): (l: Locator)
    ensures l.kind == XPath && OccursAt(l.value, day, |prefix|)
    ensures |l.value| == |prefix| + |day| + |suffix| && l.value[|prefix| + |day|..] == suffix
  {
    var x := prefix + day + suffix;
    assert x[|prefix|..|prefix| + |day|] == day;
    assert x[|prefix| + |day|..] == suffix;
    Locator(XPath, x)
  }

  /** The nine day descriptor patterns, in order: the text before the day and the text
      after it. */
  const DayPatterns: seq<(string, string)> := [
    ("//td[@data-date='2025-05-", "']"),
    ("//td[@data-date='05/", "/2025']"),
    ("//td[@data-date='05-", "-2025']"),
    ("//td[@data-month='4'][@data-day='", "'][@data-year='2025']"),
    ("//a[text()='", "']"),
    ("//td[contains(@class, 'ui-datepicker-day')]//a[text()='", "']"),
    ("//td[not(contains(@class, 'ui-datepicker-other-month'))]//a[text()='", "']"),
    ("//td[contains(@class, 'day')]//span[text()='", "']"),
    ("//table//td[.//text()='", "']")
  ]

  /** The XPath descriptors for the cell of `day` (two digits) in May 2025: one XPath
      per pattern, in the patterns' order, each holding the day right after the
      pattern's prefix. */
  function DaySelectors(day: string): (sels: seq<Locator>)
    ensures |sels| == |DayPatterns| == 9
    ensures forall i :: 0 <= i < |sels| ==> sels[i].kind == XPath && OccursAt(sels[i].value, day, |DayPatterns[i].0|)
  {
    seq(|DayPatterns|, i requires 0 <= i < |DayPatterns| => DayXPath(DayPatterns[i].0, day, DayPatterns[i].1))
  }
}
