/**
 * Deciding whether one located day cell looks selectable: the "N/A" text, the
 * unavailability class names and the greyed-out colours, each read through the
 * browser with its own exception handling.
 */
module Classifier {
  import opened Wrappers
  import opened PyText
  import opened Browser
  import opened Selectors
  import opened Fallback

  /** Class-name fragments that mark a date as not bookable. */
  const UnavailableIndicators: seq<string> := [
    "ui-datepicker-unselectable",
    "ui-state-disabled",
    "unavailable",
    "disabled",
    "booked",
    "sold-out",
    "ui-state-inactive",
    "not-available",
    "strikethrough"
  ]

  /** Some indicator occurs as a substring of the class attribute. */
  predicate HasIndicator(classes: string)
  {
    exists i :: 0 <= i < |UnavailableIndicators| && Contains(classes, UnavailableIndicators[i])
  }

  /** The indicator loop with `break`: `which` is the first indicator found. */
  method FindIndicator(classes: string) returns (found: bool, which: nat)
    ensures found <==> HasIndicator(classes)
    ensures found ==> which < |UnavailableIndicators| && Contains(classes, UnavailableIndicators[which])
    ensures found ==> forall j :: 0 <= j < which ==> !Contains(classes, UnavailableIndicators[j])
  {
    found, which := false, 0;
    while which < |UnavailableIndicators|
      invariant which <= |UnavailableIndicators|
      invariant forall j :: 0 <= j < which ==> !Contains(classes, UnavailableIndicators[j])
    {
      if Contains(classes, UnavailableIndicators[which]) {
        found := true;
        return;
      }
      which := which + 1;
    }
  }

  /** The colour test: a light-grey or gray background, or a translucent black text. */
  predicate LooksGreyed(c: Colours)
  {
    Contains(c.background, "rgb(211, 211, 211)") || Contains(c.foreground, "rgba(0, 0, 0, 0.3)")
    || Contains(c.background, "lightgrey") || Contains(c.background, "gray")
  }

  /** `parent_td`: the element whose classes are inspected. A cell that is a link or a
      span is replaced by an enclosing `td` (looked up from the document root), else by
      its parent, else kept; a stale tag read keeps the cell; any other exception from
      the tag read escapes. */
  function ClassesElement(v: View, cell: Node): (r: Outcome<Node>)
    ensures !r.Stale?
    ensures r.Failed? <==> cell.tag.Failed?
    ensures r.Done? && r.value != cell ==> cell.tag.Done? && cell.tag.value in {"a", "span"}
    ensures cell.tag.Done? && cell.tag.value !in {"a", "span"} ==> r == Done(cell)
    ensures cell.tag.Stale? ==> r == Done(cell)
    ensures cell.tag.Done? && cell.tag.value in {"a", "span"} ==>
      var anc := FindWithRetry(v.present(AncestorTd));
      && (Hits(anc) ==> r == Done(anc.value.value))
      && (anc == Done(None) && cell.parent.Some? ==> r == Done(cell.parent.value))
      && (anc == Done(None) && cell.parent.None? ==> r == Done(cell))
      && (anc.Failed? ==> r == Done(cell))
  {
    match cell.tag
    case Failed => Failed
    case Stale => Done(cell)
    case Done(t) =>
      if t == "a" || t == "span" then
        match FindWithRetry(v.present(AncestorTd))
        case Done(Some(td)) => Done(td)
        case Done(None) => Done(cell.parent.GetOr(cell))
        case _ => Done(cell)
      else Done(cell)
  }

  /** The day's verdict: `Done(selectable)`, or `Failed` when a read raised an exception
      that none of the handlers around it catches. */
  function DayVerdict(v: View, cell: Node): (r: Outcome<bool>)
    ensures !r.Stale?
    ensures r.Failed? <==> cell.text.Failed? || ClassesElement(v, cell).Failed?
                           || ClassesElement(v, cell).value.classAttr.Failed?
  {
    if cell.text.Failed? then Failed
    else
      var hasNA := cell.text.Done? && Contains(Strip(cell.text.value), "N/A");
      var el := ClassesElement(v, cell);
      if el.Failed? then Failed
      else
        match el.value.classAttr
        case Failed => Failed
        case Stale => Done(false)
        case Done(attr) =>
          var grey := el.value.colours.Done? && LooksGreyed(el.value.colours.value);
          Done(!(HasIndicator(attr.GetOr("")) || hasNA || grey))
  }

  /** The per-day classification as the source writes it, with the indicator loop. */
  method ClassifyDay(v: View, cell: Node) returns (r: Outcome<bool>)
    ensures r == DayVerdict(v, cell)
  {
    var hasNA := false;
    match cell.text {
      case Failed => return Failed;
      case Stale => hasNA := false;
      case Done(t) => hasNA := Contains(Strip(t), "N/A");
    }
    var td := cell;
    match cell.tag {
      case Failed => return Failed;
      case Stale =>
      case Done(t) =>
        if t == "a" || t == "span" {
          var anc := FindWithRetry(v.present(AncestorTd));
          if anc.Done? && anc.value.Some? {
            td := anc.value.value;
          } else if anc.Done? && cell.parent.Some? {
            td := cell.parent.value;
          }
        }
    }
    assert ClassesElement(v, cell) == Done(td);
    assert hasNA == (cell.text.Done? && Contains(Strip(cell.text.value), "N/A"));
    var unavailable := false;
    match td.classAttr {
      case Failed => return Failed;
      case Stale => unavailable := true;
      case Done(attr) =>
        var classes := attr.GetOr("");
        var found, _ := FindIndicator(classes);
        unavailable := found;
        if hasNA {
          unavailable := true;
        }
        if td.colours.Done? && LooksGreyed(td.colours.value) {
          unavailable := true;
        }
    }
    return Done(!unavailable);
  }

  /** A day counts as selectable only when its classes were read, no indicator occurs in
      them, the colours do not look greyed, and the text, when read, has no "N/A". */
  lemma SelectableOnlyWithoutSignals(v: View, cell: Node)
    requires DayVerdict(v, cell) == Done(true)
    ensures ClassesElement(v, cell).Done?
    ensures ClassesElement(v, cell).value.classAttr.Done?
    ensures forall i :: 0 <= i < |UnavailableIndicators| ==>
              !Contains(ClassesElement(v, cell).value.classAttr.value.GetOr(""), UnavailableIndicators[i])
    ensures cell.text.Done? ==> !Contains(Strip(cell.text.value), "N/A")
    ensures ClassesElement(v, cell).value.colours.Done? ==> !LooksGreyed(ClassesElement(v, cell).value.colours.value)
  {
  }

  /** Conversely, a day whose text and classes were read, with no indicator in its
      classes, no "N/A" in its text and no greyed colours, is selectable. */
  lemma NoSignalIsSelectable(v: View, cell: Node)
    requires !cell.text.Failed? && ClassesElement(v, cell).Done?
    requires ClassesElement(v, cell).value.classAttr.Done?
    requires !HasIndicator(ClassesElement(v, cell).value.classAttr.value.GetOr(""))
    requires cell.text.Done? ==> !Contains(Strip(cell.text.value), "N/A")
    requires ClassesElement(v, cell).value.colours.Done? ==> !LooksGreyed(ClassesElement(v, cell).value.colours.value)
    ensures DayVerdict(v, cell) == Done(true)
  {
  }

  /** Any one signal is enough to make a day unselectable. */
  lemma AnySignalMakesUnavailable(v: View, cell: Node)
    requires !cell.text.Failed? && !cell.tag.Failed?
    requires ClassesElement(v, cell).value.classAttr.Done?
    requires var td := ClassesElement(v, cell).value;
             HasIndicator(td.classAttr.value.GetOr(""))
             || (cell.text.Done? && Contains(Strip(cell.text.value), "N/A"))
             || (td.colours.Done? && LooksGreyed(td.colours.value))
    ensures DayVerdict(v, cell) == Done(false)
  {
  }

  /** A stale class read is taken conservatively: the day is unselectable. */
  lemma StaleClassesAreUnavailable(v: View, cell: Node)
    requires !cell.text.Failed? && !cell.tag.Failed?
    requires ClassesElement(v, cell).value.classAttr.Stale?
    ensures DayVerdict(v, cell) == Done(false)
  {
  }

  /** A stale text read, by contrast, is not conservative: the "N/A" test is skipped and
      a cell whose classes and colours are clean is selectable whatever its text. */
  lemma StaleTextIgnoresMarker(v: View, cell: Node)
    requires cell.text.Stale? && !cell.tag.Failed?
    requires ClassesElement(v, cell).value.classAttr.Done?
    requires !HasIndicator(ClassesElement(v, cell).value.classAttr.value.GetOr(""))
    requires !ClassesElement(v, cell).value.colours.Done?
    ensures DayVerdict(v, cell) == Done(true)
  {
  }

  /** A colour read that raises is ignored rather than counted against the day. */
  lemma ColourFailureIgnored(v: View, cell: Node)
    requires !cell.text.Failed? && cell.tag.Done? && cell.tag.value !in {"a", "span"}
    requires cell.classAttr.Done? && !cell.colours.Done?
    ensures DayVerdict(v, cell) == Done(!(HasIndicator(cell.classAttr.value.GetOr(""))
                                          || (cell.text.Done? && Contains(Strip(cell.text.value), "N/A"))))
  {
  }
}
