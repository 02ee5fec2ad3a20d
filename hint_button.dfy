/** The hint control on every puzzle screen: a button that asks for
    confirmation, then reveals the room's hint at a cost in seconds. */
module Hints {
  import opened Types

  /** Seconds a hint costs when the screen names no other price. */
  const DEFAULT_COST: nat := 30

  datatype HintState = HintState(isRevealed: bool, showConfirm: bool)

  const HIDDEN: HintState := HintState(false, false)

  /** The three controls: the hint button, and the cancel and confirm buttons
      of the confirmation prompt. */
  datatype HintEvent = Click | Cancel | Confirm

  /** Which control is on screen: the hint button while nothing is revealed or
      asked, the prompt's two buttons while the prompt is up, and none once
      the hint is shown. */
  predicate Rendered(h: HintState, ev: HintEvent) {
    match ev
    case Click => !h.isRevealed && !h.showConfirm
    case Cancel => !h.isRevealed && h.showConfirm
    case Confirm => !h.isRevealed && h.showConfirm
  }

  /** Never revealed and asking at the same time. */
  predicate Consistent(h: HintState) {
    !(h.isRevealed && h.showConfirm)
  }

  /** One press of a control, if it is on screen: the new state and the
      seconds charged. `handleClick` opens the prompt; cancel closes it;
      `handleReveal` charges the cost and shows the hint. */
  function HintStep(h: HintState, ev: HintEvent, cost: nat): (r: (HintState, nat))
    ensures !Rendered(h, ev) ==> r == (h, 0)
    ensures r.1 != 0 ==> r.1 == cost && ev == Confirm
    ensures Consistent(h) ==> Consistent(r.0)
    ensures h.isRevealed ==> r.0 == h
    ensures r.0.isRevealed && !h.isRevealed <==> Rendered(h, ev) && ev == Confirm
    ensures Rendered(h, ev) && ev == Click ==> r == (h.(showConfirm := true), 0)
    ensures Rendered(h, ev) && ev == Cancel ==> r == (h.(showConfirm := false), 0)
    ensures Rendered(h, ev) && ev == Confirm ==> r == (HintState(true, false), cost)
  {
    if !Rendered(h, ev) then (h, 0)
    else
      match ev
      case Click => (if !h.isRevealed && !h.showConfirm then h.(showConfirm := true) else h, 0)
      case Cancel => (h.(showConfirm := false), 0)
      case Confirm => (HintState(true, false), cost)
  }

  /** Presses one after another: the final state and the seconds charged in
      all. */
  function HintRun(h: HintState, evs: seq<HintEvent>, cost: nat): (HintState, nat)
    decreases |evs|
  {
    if evs == [] then (h, 0)
    else
      var first := HintStep(h, evs[0], cost);
      var rest := HintRun(first.0, evs[1..], cost);
      (rest.0, first.1 + rest.1)
  }

  /** Whatever is pressed, a hint is paid for at most once: the total charged
      is the cost if the hint got revealed during the presses and nothing
      otherwise, and a revealed hint stays revealed. */
  lemma {:induction false} ChargedOnce(h: HintState, evs: seq<HintEvent>, cost: nat)
    ensures h.isRevealed ==> HintRun(h, evs, cost) == (h, 0)
    ensures HintRun(h, evs, cost).1 == if !h.isRevealed && HintRun(h, evs, cost).0.isRevealed then cost else 0
    ensures Consistent(h) ==> Consistent(HintRun(h, evs, cost).0)
    decreases |evs|
  {
    if evs != [] {
      var first := HintStep(h, evs[0], cost);
      ChargedOnce(first.0, evs[1..], cost);
    }
  }

  /** From a fresh control, the total charged never exceeds the cost, and it
      equals the cost exactly when the hint is on screen at the end. */
  lemma FreshHintCharge(evs: seq<HintEvent>, cost: nat)
    ensures HintRun(HIDDEN, evs, cost).1 <= cost
    ensures HintRun(HIDDEN, evs, cost).1 == (if HintRun(HIDDEN, evs, cost).0.isRevealed then cost else 0)
  {
    ChargedOnce(HIDDEN, evs, cost);
  }

  /** The intended use: ask, confirm, and pay once; pressing anything after
      that charges nothing more. */
  lemma AskThenConfirm(cost: nat, later: seq<HintEvent>)
    ensures HintRun(HIDDEN, [Click, Confirm] + later, cost) == (HintState(true, false), cost)
  {
    var after := HintState(true, false);
    assert HintStep(HIDDEN, Click, cost) == (HintState(false, true), 0);
    assert HintStep(HintState(false, true), Confirm, cost) == (after, cost);
    ChargedOnce(after, later, cost);
    assert ([Click, Confirm] + later)[1..] == [Confirm] + later;
    assert ([Confirm] + later)[1..] == later;
  }

  class HintButton {
    const cost: nat
    var isRevealed: bool
    var showConfirm: bool

    function State(): HintState
      reads this
    {
      HintState(isRevealed, showConfirm)
    }

    ghost predicate Valid()
      reads this
    {
      Consistent(State())
    }

    constructor (cost: nat := DEFAULT_COST)
      ensures Valid() && State() == HIDDEN && this.cost == cost
    {
      this.cost := cost;
      isRevealed := false;
      showConfirm := false;
    }

    /** `handleClick`: the hint button opens the prompt when nothing is
        revealed or asked yet, and does nothing otherwise. */
    method HandleClick()
      requires Valid()
      modifies this
      ensures Valid() && (State(), 0) == HintStep(old(State()), Click, cost)
    {
      if !isRevealed && !showConfirm {
        showConfirm := true;
      }
    }

    /** The prompt's cancel button: closes the prompt, free of charge. */
    method HandleCancel()
      requires Valid() && Rendered(State(), Cancel)
      modifies this
      ensures Valid() && (State(), 0) == HintStep(old(State()), Cancel, cost)
    {
      showConfirm := false;
    }

    /** `handleReveal`: the prompt's confirm button charges the cost and shows
        the hint. */
    method HandleReveal() returns (e: Effect)
      requires Valid() && Rendered(State(), Confirm)
      modifies this
      ensures Valid() && e == Penalty(cost)
      ensures (State(), cost) == HintStep(old(State()), Confirm, cost)
    {
      e := Penalty(cost);
      isRevealed := true;
      showConfirm := false;
    }
  }
}
