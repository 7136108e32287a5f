/**
 * The browser as the checker sees it: an oracle that answers each lookup, read
 * and click. Nothing here is computed; a `Page` value fixes every answer the
 * browser would give during one check.
 */
module Browser {
  import opened Wrappers

  /** What one browser call does: returns a value, raises
      `StaleElementReferenceException`, or raises any other exception. */
  datatype Outcome<+T> = Done(value: T) | Stale | Failed

  /** Which month view the calendar widget shows; clicks move between views. */
  type ViewId = nat

  /** The computed `backgroundColor` and `color` of an element. */
  datatype Colours = Colours(background: string, foreground: string)

  /** A located DOM element and the answers to everything the checker asks of it. */
  datatype Node = Node(
    tag: Outcome<string>,               // element.tag_name
    text: Outcome<string>,              // element.text
    classAttr: Outcome<Option<string>>, // element.get_attribute("class")
    colours: Outcome<Colours>,          // the two getComputedStyle scripts
    parent: Option<Node>,               // element.find_element("./.."); None when it raises
    click: Outcome<ViewId>)             // element.click(): the view shown afterwards

  /** The answer to one element lookup: `Done(Some(e))` found `e`, `Done(None)` found
      nothing (`NoSuchElementException` or `TimeoutException`, whichever the API raises). */
  type Lookup = Outcome<Option<Node>>

  datatype By = ClassName | CssSelector | Id | XPath | TagName

  /** A structural descriptor: Selenium's `(By, value)` pair. */
  datatype Locator = Locator(kind: By, value: string)

  /** The result of `select_by_visible_text("May")` then `("2025")` on the two
      dropdowns: whether both calls returned, and the view shown afterwards. */
  datatype Selection = Selection(succeeded: bool, shown: ViewId)

  /** One state of the page. `present` answers presence lookups, `clickable` answers
      lookups that wait for a clickable element, `all` answers `find_elements`. */
  datatype View = View(
    present: Locator -> Lookup,
    clickable: Locator -> Lookup,
    all: Locator -> Outcome<seq<Node>>,
    select: Selection,
    afterScript: ViewId)   // the view after the JavaScript date-setting attempts

  /** One booking page: whether `driver.get` succeeds, the view it loads, and every view. */
  datatype Page = Page(loads: bool, start: ViewId, views: ViewId -> View)

  /** `find_element_with_retry`: a timeout or a stale lookup becomes `None`; any other
      exception still propagates. */
  function FindWithRetry(l: Lookup): (r: Lookup)
    ensures !r.Stale?
    ensures r.Failed? <==> l.Failed?
    ensures r.Done? && r.value.Some? <==> l.Done? && l.value.Some?
    ensures r.Done? && r.value.Some? ==> r == l
  {
    match l
    case Stale => Done(None)
    case _ => l
  }
}
