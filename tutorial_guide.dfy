/**
 * The first-run tutorial: six steps walked through with Next and Previous, a progress bar, and
 * a dialog placed beside the highlighted element of the page.
 */
module Tutorial {
  import opened Wrappers

  // ---------------------------------------------------------------- the steps

  /** A step of `tutorialSteps`: the element it points at and where the dialog goes. */
  datatype Step = Step(id: int, target: string, title: string, position: string)

  const Steps: seq<Step> := [
    Step(1, ".stats-cards", "📊 Welcome to DoDeck!", "bottom"),
    Step(2, ".mini-calendar", "📅 Mini Calendar", "bottom"),
    Step(3, ".detailed-stats", "📈 Detailed Analytics", "top"),
    Step(4, ".filter-section", "🔍 Smart Filters", "bottom"),
    Step(5, ".task-list", "✅ Task Management", "top"),
    Step(6, ".sidebar-features", "🎯 Navigation & Features", "right")
  ]

  const LastStep: int := |Steps| - 1

  /** The step Next moves to: one further, except at the last step, where Next completes instead. */
  function StepAfterNext(s: int): (r: int)
    requires 0 <= s < |Steps|
    ensures 0 <= r < |Steps|
    ensures s < LastStep ==> r == s + 1
    ensures s == LastStep ==> r == s
  {
    if s < |Steps| - 1 then s + 1 else s
  }

  /** The step Previous moves to: one back, and nowhere from the first step. */
  function StepAfterPrevious(s: int): (r: int)
    requires 0 <= s < |Steps|
    ensures 0 <= r < |Steps|
    ensures s > 0 ==> r == s - 1
    ensures s == 0 ==> r == 0
  {
    if s > 0 then s - 1 else s
  }

  /** Previous undoes Next below the last step, and Next undoes Previous above the first. */
  lemma NextPreviousInverse(s: int)
    requires 0 <= s < |Steps|
    ensures s < LastStep ==> StepAfterPrevious(StepAfterNext(s)) == s
    ensures s > 0 ==> StepAfterNext(StepAfterPrevious(s)) == s
  {}

  /** Any run of Next and Previous from any step stays among the six steps. */
  function StepAfter(s: int, presses: seq<bool>): (r: int)
    requires 0 <= s < |Steps|
    ensures 0 <= r < |Steps|
    decreases |presses|
  {
    if presses == [] then s
    else StepAfter(if presses[0] then StepAfterNext(s) else StepAfterPrevious(s), presses[1..])
  }

  /** Five presses of Next from the first step reach the last step. */
  lemma FiveNextsReachLast()
    ensures StepAfter(0, [true, true, true, true, true]) == LastStep
  {
    assert [true, true, true, true, true][1..] == [true, true, true, true];
    assert [true, true, true, true][1..] == [true, true, true];
    assert [true, true, true][1..] == [true, true];
    assert [true, true][1..] == [true];
  }

  /** `progress`: the share of steps reached, as a percentage. */
  function Progress(s: int): (r: real)
    requires 0 <= s < |Steps|
    ensures 0.0 < r <= 100.0
    ensures r == 100.0 <==> s == LastStep
    ensures r * (|Steps| as real) == ((s + 1) as real) * 100.0
  {
    ((s + 1) as real / |Steps| as real) * 100.0
  }

  /** Progress grows with every step. */
  lemma ProgressIncreases(s: int)
    requires 0 <= s < LastStep
    ensures Progress(s) < Progress(s + 1)
  {}

  /** How a step's dot looks: the current one, one already passed, or one still to come. */
  datatype Dot = Current | Passed | Ahead

  /** The step indicators. */
  function Indicators(s: int): (r: seq<Dot>)
    requires 0 <= s < |Steps|
    ensures |r| == |Steps|
    ensures forall i :: 0 <= i < |r| ==> (r[i] == Current <==> i == s)
    ensures forall i :: 0 <= i < |r| ==> (r[i] == Passed <==> i < s)
    ensures forall i :: 0 <= i < |r| ==> (r[i] == Ahead <==> i > s)
  {
    seq(|Steps|, i requires 0 <= i < |Steps| => if i == s then Current else if i < s then Passed else Ahead)
  }

  // ---------------------------------------------------------------- dialog placement

  /** The highlighted element's box in page coordinates, and the step's placement. */
  datatype Highlight = Highlight(top: real, left: real, width: real, height: real, position: string)

  /** Where the dialog goes: centred on the screen, or at a point of the page. */
  datatype Placement = Centered | At(top: real, left: real)

  const DialogWidth: real := 400.0
  const DialogHeight: real := 250.0
  const Spacing: real := 20.0
  const Margin: real := 20.0

  function Max(a: real, b: real): (r: real)
    ensures r >= a && r >= b && (r == a || r == b)
  {
    if a >= b then a else b
  }

  function Min(a: real, b: real): (r: real)
    ensures r <= a && r <= b && (r == a || r == b)
  {
    if a <= b then a else b
  }

  /** The left edge that centres the dialog on the element, kept 20 from both sides of the window. */
  function ClampedLeft(h: Highlight, innerWidth: real): (r: real)
    ensures r >= Margin
    ensures innerWidth >= DialogWidth + 2.0 * Margin ==> r + DialogWidth <= innerWidth - Margin
    ensures Margin <= h.left + h.width / 2.0 - DialogWidth / 2.0 <= innerWidth - DialogWidth - Margin ==>
      r + DialogWidth / 2.0 == h.left + h.width / 2.0
  {
    Max(Margin, Min(innerWidth - DialogWidth - Margin, h.left + h.width / 2.0 - DialogWidth / 2.0))
  }

  /** `getDialogPosition`. */
  function DialogPosition(highlight: Option<Highlight>, innerWidth: real): (r: Placement)
    ensures highlight.None? <==> r.Centered?
  {
    if highlight.None? then Centered
    else
      var h := highlight.value;
      match h.position
      case "bottom" => At(h.top + h.height + Spacing, ClampedLeft(h, innerWidth))
      case "top" => At(Max(Margin, h.top - DialogHeight - Spacing), ClampedLeft(h, innerWidth))
      case "right" => At(Max(Margin, h.top + h.height / 2.0 - DialogHeight / 2.0), h.left + h.width + Spacing)
      case "left" => At(Max(Margin, h.top + h.height / 2.0 - DialogHeight / 2.0), Max(Margin, h.left - DialogWidth - Spacing))
      case _ => At(h.top + h.height + Spacing, Max(Margin, h.left + h.width / 2.0 - DialogWidth / 2.0))
  }

  /** Above or below the element, the dialog is kept 20 from the window's left and right edges. */
  lemma VerticalPlacementsClampLeft(h: Highlight, innerWidth: real)
    requires h.position == "bottom" || h.position == "top"
    ensures DialogPosition(Some(h), innerWidth).left >= Margin
    ensures innerWidth >= DialogWidth + 2.0 * Margin ==>
      DialogPosition(Some(h), innerWidth).left + DialogWidth <= innerWidth - Margin
  {}

  /** Above, beside or to the left, the dialog's top is at least 20 down the page. */
  lemma PlacementsClampTop(h: Highlight, innerWidth: real)
    requires h.position in {"top", "right", "left"}
    ensures DialogPosition(Some(h), innerWidth).top >= Margin
  {}

  /** Below the element, the dialog starts below its bottom edge. */
  lemma BottomPlacementBelow(h: Highlight, innerWidth: real)
    requires h.position == "bottom"
    ensures DialogPosition(Some(h), innerWidth).top > h.top + h.height
  {}

  /** Above the element, when there is room, the dialog ends 20 above its top edge. */
  lemma TopPlacementAbove(h: Highlight, innerWidth: real)
    requires h.position == "top" && h.top - DialogHeight - Spacing >= Margin
    ensures DialogPosition(Some(h), innerWidth).top + DialogHeight + Spacing == h.top
  {}

  /** To the right, the dialog starts past the element's right edge. */
  lemma RightPlacementBeside(h: Highlight, innerWidth: real)
    requires h.position == "right"
    ensures DialogPosition(Some(h), innerWidth).left > h.left + h.width
  {}

  /** The steps of this tutorial only place the dialog below, above or to the right. */
  lemma StepPlacements()
    ensures forall i :: 0 <= i < |Steps| ==> Steps[i].position in {"bottom", "top", "right"}
  {}

  // ---------------------------------------------------------------- the guide's state

  /** The box `getBoundingClientRect` reports for the target element. */
  datatype Rect = Rect(top: real, left: real, width: real, height: real)

  /** The element's box in page coordinates with step `s`'s placement, as `updateHighlight` records it. */
  function PageBox(rect: Rect, scrollX: real, scrollY: real, s: int): Highlight
    requires 0 <= s < |Steps|
  {
    Highlight(rect.top + scrollY, rect.left + scrollX, rect.width, rect.height, Steps[s].position)
  }

  class TutorialGuide {
    /** `currentStep`. */
    var currentStep: int
    /** `highlightPosition`. */
    var highlight: Option<Highlight>
    /** `localStorage.tutorialCompleted === 'true'`. */
    var completed: bool
    /** The guide is shown: `isOpen`, until `onClose` is called. */
    var open: bool

    ghost predicate Valid()
      reads this
    {
      0 <= currentStep < |Steps|
    }

    /**
     * Mounting the guide at step 0; while it is open the highlight effect runs once, with the
     * first step's element as looked up by the caller.
     */
    constructor (isOpen: bool, element: Option<Rect>, scrollX: real, scrollY: real)
      ensures Valid()
      ensures currentStep == 0 && !completed && open == isOpen
      ensures isOpen && element.Some? ==> highlight == Some(PageBox(element.value, scrollX, scrollY, 0))
      ensures !isOpen || element.None? ==> highlight.None?
    {
      currentStep := 0;
      completed := false;
      open := isOpen;
      if isOpen && element.Some? {
        highlight := Some(PageBox(element.value, scrollX, scrollY, 0));
      } else {
        highlight := None;
      }
    }

    /** `updateHighlight`, with the element looked up by the caller; nothing changes if it is absent. */
    method UpdateHighlight(element: Option<Rect>, scrollX: real, scrollY: real)
      requires Valid()
      modifies this
      ensures Valid()
      ensures element.None? ==> highlight == old(highlight)
      ensures element.Some? ==> highlight == Some(Highlight(element.value.top + scrollY,
        element.value.left + scrollX, element.value.width, element.value.height,
        Steps[currentStep].position))
      ensures currentStep == old(currentStep) && completed == old(completed) && open == old(open)
    {
      if element.Some? {
        highlight := Some(PageBox(element.value, scrollX, scrollY, currentStep));
      }
    }

    /**
     * `handleNext`: on to the next step, or complete at the last one. A change of step re-runs
     * the highlight effect while the guide is open; `element` is the new step's target as the
     * caller looks it up.
     */
    method Next(element: Option<Rect>, scrollX: real, scrollY: real)
      requires Valid()
      modifies this
      ensures Valid()
      ensures currentStep == StepAfterNext(old(currentStep))
      ensures old(currentStep) < LastStep ==> completed == old(completed) && open == old(open)
      ensures old(currentStep) == LastStep ==> completed && !open && highlight == old(highlight)
      ensures old(currentStep) < LastStep && open && element.Some? ==>
        highlight == Some(PageBox(element.value, scrollX, scrollY, currentStep))
      ensures old(currentStep) < LastStep && (!open || element.None?) ==> highlight == old(highlight)
    {
      if currentStep < |Steps| - 1 {
        currentStep := currentStep + 1;
        if open {
          UpdateHighlight(element, scrollX, scrollY);
        }
      } else {
        Complete();
      }
    }

    /**
     * `handlePrevious`: back one step, and nothing at the first step. A change of step re-runs
     * the highlight effect while the guide is open, with the new step's element.
     */
    method Previous(element: Option<Rect>, scrollX: real, scrollY: real)
      requires Valid()
      modifies this
      ensures Valid()
      ensures currentStep == StepAfterPrevious(old(currentStep))
      ensures completed == old(completed) && open == old(open)
      ensures old(currentStep) > 0 && open && element.Some? ==>
        highlight == Some(PageBox(element.value, scrollX, scrollY, currentStep))
      ensures old(currentStep) == 0 || !open || element.None? ==> highlight == old(highlight)
    {
      if currentStep > 0 {
        currentStep := currentStep - 1;
        if open {
          UpdateHighlight(element, scrollX, scrollY);
        }
      }
    }

    /** `handleComplete`: record the tutorial as done and close it. */
    method Complete()
      requires Valid()
      modifies this
      ensures Valid()
      ensures completed && !open
      ensures currentStep == old(currentStep) && highlight == old(highlight)
    {
      completed := true;
      open := false;
    }

    /** `handleSkip`: the same as completing, from any step. */
    method Skip()
      requires Valid()
      modifies this
      ensures Valid()
      ensures completed && !open
      ensures currentStep == old(currentStep) && highlight == old(highlight)
    {
      Complete();
    }

    /** The Previous button is disabled exactly on the first step. */
    function PreviousDisabled(): (r: bool)
      reads this
      ensures r <==> StepAfterPrevious(currentStep) == currentStep
      requires Valid()
    {
      currentStep == 0
    }

    /** The last step shows "Got It!" (complete) where the others show Next. */
    function ShowsFinish(): (r: bool)
      reads this
      requires Valid()
      ensures r <==> Progress(currentStep) == 100.0
    {
      currentStep == |Steps| - 1
    }
  }
}
