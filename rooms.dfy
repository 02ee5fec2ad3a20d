/** The six puzzle screens. Each screen keeps its own local state and answers
    a player's action with at most one request to the controller: nothing, a
    solve, or a penalty of some seconds (`Effect`). Whether the room is
    already solved is passed in by the controller (`isSolved`). */
module Rooms {
  import opened Types
  import opened Strings

  // ---------------------------------------------------------------------------
  // Room 1: the missing `await`
  // ---------------------------------------------------------------------------

  /** The listing the player inspects; one line per clickable row. */
  const ROOM1_LINES: seq<string> := [
    "async function bootSequence() {",
    "  let status = 'OFFLINE';",
    "  // CRITICAL: Check temperature async",
    "  const check = systemCheck(); // <-- BUG",
    "  if (check === true) {",
    "    status = 'ONLINE';",
    "  }",
    "  return status;",
    "}"
  ]

  /** The row holding the call that should have been awaited. */
  const BUG_LINE: nat := 3

  const ROOM1_LOG: seq<string> := [
    "> RUNNING: bootSequence()",
    "> CHECKING SYSTEM...",
    "> ERROR: Condition 'check === true' is always false.",
    "> REASON: 'check' is [object Promise], not boolean."
  ]

  const ROOM1_FIX_LOG: seq<string> := [
    "> APPLYING: await keyword...",
    "> RE-RUNNING...",
    "> SUCCESS: Status is ONLINE."
  ]

  /** The state of room 1 after clicking row `idx`: clicks are ignored once
      the room is solved; otherwise the row is selected and the fix is offered
      exactly for the faulty row. */
  function LineClick(selected: Option<nat>, showFix: bool, idx: nat, isSolved: bool): (r: (Option<nat>, bool))
    ensures isSolved ==> r == (selected, showFix)
    ensures !isSolved ==> r.0 == Some(idx) && (r.1 <==> idx == BUG_LINE)
  {
    if isSolved then (selected, showFix) else (Some(idx), idx == BUG_LINE)
  }

  /** The offered fix is the one for the faulty row: whenever the fix is on
      offer, the selected row is the bug line, and the bug line is the one
      that calls `systemCheck()` without `await`. */
  lemma FixOnlyForBugLine(selected: Option<nat>, showFix: bool, idx: nat, isSolved: bool)
    requires showFix ==> selected == Some(BUG_LINE)
    ensures var r := LineClick(selected, showFix, idx, isSolved);
            r.1 ==> r.0 == Some(BUG_LINE)
    ensures BUG_LINE < |ROOM1_LINES| && ROOM1_LINES[BUG_LINE] == "  const check = systemCheck(); // <-- BUG"
  {
  }

  class Room1 {
    var selectedLine: Option<nat>
    var showFix: bool
    var errorLog: seq<string>

    /** The fix is only on offer with the faulty row selected, and the log
        keeps its opening lines. */
    ghost predicate Valid()
      reads this
    {
      && (showFix ==> selectedLine == Some(BUG_LINE))
      && |errorLog| >= |ROOM1_LOG| && errorLog[..|ROOM1_LOG|] == ROOM1_LOG
    }

    constructor ()
      ensures Valid()
      ensures selectedLine == None && !showFix && errorLog == ROOM1_LOG
    {
      selectedLine := None;
      showFix := false;
      errorLog := ROOM1_LOG;
    }

    /** `handleLineClick(idx)` on one of the listing's rows. */
    method HandleLineClick(idx: nat, isSolved: bool)
      requires Valid() && idx < |ROOM1_LINES|
      modifies this
      ensures Valid()
      ensures (selectedLine, showFix) == LineClick(old(selectedLine), old(showFix), idx, isSolved)
      ensures errorLog == old(errorLog)
    {
      if isSolved {
        return;
      }
      selectedLine := Some(idx);
      if idx == BUG_LINE {
        showFix := true;
      } else {
        showFix := false;
      }
    }

    /** `handleFix`: the "apply fix" button, drawn while the fix is on offer
        and the room is unsolved. The log grows by three lines, the offer is
        withdrawn, and the room is solved. */
    method HandleFix() returns (e: Effect)
      requires Valid()
      modifies this
      ensures Valid()
      ensures e == Solve
      ensures errorLog == old(errorLog) + ROOM1_FIX_LOG
      ensures !showFix && selectedLine == old(selectedLine)
    {
      errorLog := errorLog + ROOM1_FIX_LOG;
      showFix := false;
      e := Solve;
    }
  }

  // ---------------------------------------------------------------------------
  // Room 2: the interlock gate
  // ---------------------------------------------------------------------------

  datatype Gate = And | Or | Xor

  /** The gate's output on two signals. */
  function Apply(g: Gate, a: bool, b: bool): bool {
    match g
    case And => a && b
    case Or => a || b
    case Xor => a != b
  }

  /** A click on gate `g`: ignored once solved; `OR` solves, any other gate
      costs ten seconds. */
  function GateEffect(g: Gate, isSolved: bool): (e: Effect)
    ensures isSolved ==> e == NoEffect
    ensures !isSolved ==> e != NoEffect
  {
    if isSolved then NoEffect
    else if g == Or then Solve
    else Penalty(10)
  }

  /** The accepted gate is exactly the one that raises the alarm when any
      danger signal is on: a gate solves the room if and only if it agrees
      with "either signal" on every input. */
  lemma GateSolvesIffAny(g: Gate)
    ensures GateEffect(g, false) == Solve <==> forall a: bool, b: bool :: Apply(g, a, b) == (a || b)
    ensures GateEffect(g, false) != Solve ==> GateEffect(g, false) == Penalty(10)
  {
    if g == And {
      assert Apply(g, true, false) != (true || false);
    } else if g == Xor {
      assert Apply(g, true, true) != (true || true);
    }
  }

  class Room2 {
    var selectedGate: Option<Gate>

    constructor ()
      ensures selectedGate == None
    {
      selectedGate := None;
    }

    /** A click on gate `g`: the click handler does nothing once solved;
        otherwise `handleGateSelect(g)` marks the gate and reports. */
    method SelectGate(g: Gate, isSolved: bool) returns (e: Effect)
      modifies this
      ensures e == GateEffect(g, isSolved)
      ensures selectedGate == if isSolved then old(selectedGate) else Some(g)
    {
      if isSolved {
        return NoEffect;
      }
      selectedGate := Some(g);
      if g == Or {
        e := Solve;
      } else {
        e := Penalty(10);
      }
    }
  }

  // ---------------------------------------------------------------------------
  // Room 3: the permission flags
  // ---------------------------------------------------------------------------

  /** The submitted text as compared: trimmed, then lower-cased. */
  function Normalize(input: string): string {
    ToLower(Trim(input))
  }

  predicate IsEasterEgg(answer: string) {
    answer == "coffee" || answer == "sudo" || answer == "42"
  }

  /** What a normalised answer asks of the controller. */
  function Classify(answer: string): (e: Effect)
    ensures e == Solve <==> answer == "4"
    ensures e == NoEffect <==> IsEasterEgg(answer)
    ensures e.Penalty? ==> e.amount == 15
  {
    if answer == "4" then Solve
    else if answer == "coffee" || answer == "sudo" || answer == "42" then NoEffect
    else Penalty(15)
  }

  /** The two messages that follow the echoed input. */
  function Messages(answer: string): (r: seq<string>)
    ensures |r| == 2
    ensures r[1] == "> ACCESS GRANTED." <==> Classify(answer) == Solve
  {
    if answer == "4" then ["> VERIFYING BITMASK...", "> ACCESS GRANTED."]
    else if answer == "coffee" then ["> CAFFEINE DETECTED. EFFICIENCY +100%.", "> (No actual effect, but tasty.)"]
    else if answer == "sudo" then ["> ADMIN PRIVILEGES: RESTRICTED.", "> NICE TRY."]
    else if answer == "42" then ["> MEANING OF LIFE DETECTED.", "> CALCULATING DEEP THOUGHT..."]
    else ["> VERIFYING BITMASK...", "> ACCESS DENIED. CHECK BINARY LOGIC."]
  }

  /** What a submission asks of the controller. */
  function Room3Verdict(input: string): Effect {
    Classify(Normalize(input))
  }

  /** The three log lines a submission adds: the raw input echoed, then the
      branch's two messages. */
  function Room3Reply(input: string): (r: seq<string>)
    ensures |r| == 3 && r[0] == "> INPUT: " + input
    ensures r[2] == "> ACCESS GRANTED." <==> Room3Verdict(input) == Solve
  {
    ["> INPUT: " + input] + Messages(Normalize(input))
  }

  /** The bit puzzle behind the answer: read|write with the write bit toggled
      off by exclusive or leaves 4, and that number, written out, is the
      answer that solves the room. */
  lemma PermissionArithmetic()
    ensures ((4 as bv3 | 2) ^ 2) == 4
    ensures Classify(Decimal(((4 as bv3 | 2) ^ 2) as nat)) == Solve
  {
  }

  /** White space around the answer and upper-case letters in it do not
      change the verdict: any padding of a word with no white space at its
      ends is judged as that word in lower case. */
  lemma VerdictIgnoresPaddingAndCase(pre: string, w: string, post: string)
    requires AllSpace(pre) && AllSpace(post)
    requires w != [] && !IsSpace(w[0]) && !IsSpace(w[|w| - 1])
    ensures Normalize(pre + w + post) == ToLower(w)
    ensures Room3Verdict(pre + w + post) == Classify(ToLower(w))
  {
    TrimPadded(pre, w, post);
  }

  /** A padded, shouted `sudo` is neither solved nor punished. */
  lemma ShoutedSudoIsHarmless()
    ensures Room3Verdict(" SUDO\n") == NoEffect
  {
    assert SkipForward(" SUDO\n", 0) == 1;
    assert SkipBackward(" SUDO\n", 1, 6) == 5;
    assert Trim(" SUDO\n") == "SUDO";
    var lower := ToLower("SUDO");
    assert lower[0] == 's' && lower[1] == 'u' && lower[2] == 'd' && lower[3] == 'o';
  }

  /** The answer with a trailing blank solves. */
  lemma PaddedAnswerSolves()
    ensures Room3Verdict("4 ") == Solve
  {
    assert SkipForward("4 ", 0) == 0;
    assert SkipBackward("4 ", 0, 2) == 1;
    assert Trim("4 ") == "4";
    assert ToLower("4")[0] == '4';
  }

  /** An answer is compared whole: `sudo` followed by more words costs fifteen
      seconds. */
  lemma LongerAnswerPenalised()
    ensures Room3Verdict("sudo rm") == Penalty(15)
  {
    assert SkipForward("sudo rm", 0) == 0;
    assert SkipBackward("sudo rm", 0, 7) == 7;
    assert Trim("sudo rm") == "sudo rm";
    assert |ToLower("sudo rm")| == 7;
  }

  const ROOM3_LOG: seq<string> := ["> CALCULATING PERMISSION FLAGS...", "> SOLVE FOR 'final_permissions'"]

  /** The log keeps its opening lines and grows three lines per submission. */
  predicate LogShape(logs: seq<string>) {
    |logs| >= |ROOM3_LOG| && logs[..|ROOM3_LOG|] == ROOM3_LOG && (|logs| - |ROOM3_LOG|) % 3 == 0
  }

  /** Appending a three-line reply keeps the log's shape and every earlier
      line. */
  lemma AppendKeepsShape(logs: seq<string>, reply: seq<string>)
    requires LogShape(logs) && |reply| == 3
    ensures LogShape(logs + reply) && (logs + reply)[..|logs|] == logs
  {
    assert (logs + reply)[..|ROOM3_LOG|] == logs[..|ROOM3_LOG|];
  }

  class Room3 {
    var inputVal: string
    var logs: seq<string>

    ghost predicate Valid()
      reads this
    {
      LogShape(logs)
    }

    constructor ()
      ensures Valid() && inputVal == "" && logs == ROOM3_LOG
    {
      inputVal := "";
      logs := ROOM3_LOG;
    }

    /** The text field's change handler. */
    method Type(text: string)
      requires Valid()
      modifies this`inputVal
      ensures Valid() && inputVal == text
    {
      inputVal := text;
    }

    /** `handleSubmit`: the form, drawn while the room is unsolved. The field
        is not cleared. */
    method HandleSubmit() returns (e: Effect)
      requires Valid()
      modifies this`logs
      ensures Valid()
      ensures e == Room3Verdict(inputVal)
      ensures logs == old(logs) + Room3Reply(inputVal)
    {
      var answer := Normalize(inputVal);
      var messages := Messages(answer);
      e := Classify(answer);
      AppendKeepsShape(logs, ["> INPUT: " + inputVal] + messages);
      logs := logs + (["> INPUT: " + inputVal] + messages);
    }
  }

  // ---------------------------------------------------------------------------
  // Room 4: the algorithm choice
  // ---------------------------------------------------------------------------

  datatype Complexity = Quadratic | Linear | Factorial

  datatype Choice = Choice(id: nat, complexity: Complexity)

  /** The three candidate algorithms, by id and advertised running time. */
  const ROOM4_OPTIONS: seq<Choice> := [Choice(1, Quadratic), Choice(2, Linear), Choice(3, Factorial)]

  const ACCEPTED_FEEDBACK: string := "OPTIMIZATION ACCEPTED. COMPLEXITY REDUCED TO LINEAR O(N)."
  const TIMEOUT_FEEDBACK: string := "TIMEOUT WARNING: ALGORITHM TOO SLOW. TRY REDUCING COMPLEXITY."

  /** A click on option `id`: ignored once solved; option 2 solves, any other
      costs twenty seconds. */
  function OptionEffect(id: nat, isSolved: bool): (e: Effect)
    ensures isSolved ==> e == NoEffect
    ensures !isSolved ==> e != NoEffect
  {
    if isSolved then NoEffect
    else if id == 2 then Solve
    else Penalty(20)
  }

  /** Among the offered algorithms, the one accepted is exactly the linear
      one; every other offered choice costs twenty seconds. */
  lemma OnlyLinearSolves()
    ensures forall c :: c in ROOM4_OPTIONS ==> (OptionEffect(c.id, false) == Solve <==> c.complexity == Linear)
    ensures forall c :: c in ROOM4_OPTIONS && c.complexity != Linear ==> OptionEffect(c.id, false) == Penalty(20)
  {
  }

  class Room4 {
    var selectedOpt: Option<nat>
    var feedback: Option<string>

    constructor ()
      ensures selectedOpt == None && feedback == None
    {
      selectedOpt := None;
      feedback := None;
    }

    /** A click on option `id`: the click handler does nothing once solved;
        otherwise `handleSelect(id)` marks it and shows the verdict. */
    method Select(id: nat, isSolved: bool) returns (e: Effect)
      modifies this
      ensures e == OptionEffect(id, isSolved)
      ensures isSolved ==> selectedOpt == old(selectedOpt) && feedback == old(feedback)
      ensures !isSolved ==> selectedOpt == Some(id)
      ensures !isSolved ==> feedback == Some(if e == Solve then ACCEPTED_FEEDBACK else TIMEOUT_FEEDBACK)
    {
      if isSolved {
        return NoEffect;
      }
      selectedOpt := Some(id);
      if id == 2 {
        feedback := Some(ACCEPTED_FEEDBACK);
        e := Solve;
      } else {
        e := Penalty(20);
        feedback := Some(TIMEOUT_FEEDBACK);
      }
    }
  }

  // ---------------------------------------------------------------------------
  // Room 5: the blocked button
  // ---------------------------------------------------------------------------

  class Room5 {
    var fixed: bool

    constructor ()
      ensures !fixed
    {
      fixed := false;
    }

    /** `handleOverride`: the override button, drawn while the room is
        unsolved. It always solves and never costs time. */
    method HandleOverride() returns (e: Effect)
      modifies this
      ensures fixed && e == Solve
    {
      fixed := true;
      e := Solve;
    }

    /** A click on the overlay in front of the shutdown button: only a sound,
        no state and no request to the controller. */
    method OverlayClick() returns (e: Effect)
      ensures e == NoEffect
    {
      e := NoEffect;
    }
  }

  // ---------------------------------------------------------------------------
  // Room 6: the release sequence
  // ---------------------------------------------------------------------------

  /** Number of buttons in the release sequence. */
  const STEPS: nat := 3

  /** `handleStep(idx)` from counter `step`: the expected button advances the
      counter (the last one solves); any other costs ten seconds and leaves
      the counter where it was. */
  function StepClick(step: nat, idx: nat): (r: (nat, Effect))
    requires idx < STEPS
    ensures idx == step ==> r.0 == step + 1 && (r.1 == Solve <==> idx == STEPS - 1) && !r.1.Penalty?
    ensures idx != step ==> r == (step, Penalty(10))
  {
    if idx == step then (step + 1, if idx == 2 then Solve else NoEffect)
    else (step, Penalty(10))
  }

  predicate AllButtons(clicks: seq<nat>) {
    forall k :: 0 <= k < |clicks| ==> clicks[k] < STEPS
  }

  /** The counter after a series of clicks. */
  function Progress(step: nat, clicks: seq<nat>): nat
    requires AllButtons(clicks)
    decreases |clicks|
  {
    if clicks == [] then step else Progress(StepClick(step, clicks[0]).0, clicks[1..])
  }

  /** The requests a series of clicks sends, in order. */
  function Requests(step: nat, clicks: seq<nat>): (r: seq<Effect>)
    requires AllButtons(clicks)
    ensures |r| == |clicks|
    decreases |clicks|
  {
    if clicks == [] then []
    else
      var next := StepClick(step, clicks[0]);
      [next.1] + Requests(next.0, clicks[1..])
  }

  /** `pattern` occurs in `xs` in order, not necessarily contiguously. */
  predicate IsSubsequence(pattern: seq<nat>, xs: seq<nat>)
    decreases |xs|
  {
    pattern == [] ||
    (xs != [] &&
      ((xs[0] == pattern[0] && IsSubsequence(pattern[1..], xs[1..])) || IsSubsequence(pattern, xs[1..])))
  }

  /** The buttons still to press from counter `step`, in order. */
  function Remaining(step: nat): (r: seq<nat>)
    requires step <= STEPS
    ensures |r| == STEPS - step
    ensures forall k :: 0 <= k < |r| ==> r[k] == step + k
    decreases STEPS - step
  {
    if step == STEPS then [] else [step] + Remaining(step + 1)
  }

  /** Dropping the first element of a pattern keeps it a subsequence. */
  lemma {:induction false} SubsequenceTail(pattern: seq<nat>, xs: seq<nat>)
    requires pattern != [] && IsSubsequence(pattern, xs)
    ensures IsSubsequence(pattern[1..], xs)
    decreases |xs|
  {
    if pattern[1..] != [] {
      if xs[0] == pattern[0] && IsSubsequence(pattern[1..], xs[1..]) {
        SubsequenceTail(pattern[1..], xs[1..]);
      } else {
        SubsequenceTail(pattern, xs[1..]);
      }
    }
  }

  /** The sequence is completed exactly when the remaining buttons occur in
      the clicks in order: wrong clicks in between cost time but do not undo
      progress. */
  lemma {:induction false} CompletesIffInOrder(step: nat, clicks: seq<nat>)
    requires step <= STEPS && AllButtons(clicks)
    ensures Progress(step, clicks) <= STEPS
    ensures Progress(step, clicks) == STEPS <==> IsSubsequence(Remaining(step), clicks)
    decreases |clicks|
  {
    if clicks != [] {
      var c, rest := clicks[0], clicks[1..];
      var next := StepClick(step, c).0;
      CompletesIffInOrder(next, rest);
      if step < STEPS {
        var pattern := Remaining(step);
        assert pattern[0] == step && pattern[1..] == Remaining(step + 1);
        if c == step && IsSubsequence(pattern, rest) {
          SubsequenceTail(pattern, rest);
        }
      }
    }
  }

  /** Counting: every click either advances the counter or costs ten
      seconds; the room is solved at most once, and exactly once from an
      unfinished counter when the sequence is completed. */
  lemma {:induction false} RequestsCount(step: nat, clicks: seq<nat>)
    requires step <= STEPS && AllButtons(clicks)
    ensures step <= Progress(step, clicks) <= STEPS
    ensures multiset(Requests(step, clicks))[Penalty(10)] == |clicks| - (Progress(step, clicks) - step)
    ensures multiset(Requests(step, clicks))[Solve] == if step < STEPS && Progress(step, clicks) == STEPS then 1 else 0
    ensures forall k :: 0 <= k < |clicks| ==> Requests(step, clicks)[k] in {NoEffect, Solve, Penalty(10)}
    decreases |clicks|
  {
    if clicks != [] {
      var next := StepClick(step, clicks[0]);
      RequestsCount(next.0, clicks[1..]);
      assert Requests(step, clicks) == [next.1] + Requests(next.0, clicks[1..]);
    }
  }

  /** The intended play: the three buttons in order solve the room once and
      cost nothing. */
  lemma InOrderPlay()
    ensures Progress(0, [0, 1, 2]) == STEPS
    ensures Requests(0, [0, 1, 2]) == [NoEffect, NoEffect, Solve]
  {
  }

  class Room6 {
    var step: nat

    ghost predicate Valid()
      reads this
    {
      step <= STEPS
    }

    constructor ()
      ensures Valid() && step == 0
    {
      step := 0;
    }

    /** `handleStep(idx)` for one of the three buttons. */
    method HandleStep(idx: nat) returns (e: Effect)
      requires Valid() && idx < STEPS
      modifies this
      ensures Valid()
      ensures (step, e) == StepClick(old(step), idx)
    {
      if idx == step {
        step := step + 1;
        if idx == 2 {
          e := Solve;
        } else {
          e := NoEffect;
        }
      } else {
        e := Penalty(10);
      }
    }
  }
}
