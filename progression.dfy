/** The progression controller: the one record of game state, the transitions
    the screens and the once-a-second timer apply to it, and the derived
    unlock and hint lookups. */
module Progression {
  import opened Types
  import opened Constants
  import opened Layout

  /** Every field the controller owns. */
  datatype GameState = GameState(
    view: View,
    solvedPuzzles: seq<string>,
    timeLeft: int,
    isActive: bool,
    konamiIndex: nat,
    hackerMode: bool)

  const KONAMI_CODE: seq<string> := [
    "ArrowUp", "ArrowUp", "ArrowDown", "ArrowDown",
    "ArrowLeft", "ArrowRight", "ArrowLeft", "ArrowRight", "b", "a"]

  /** Seconds granted by the completed key sequence. */
  const BONUS_TIME: nat := 300

  predicate NoDuplicates(xs: seq<string>) {
    forall i, j :: 0 <= i < j < |xs| ==> xs[i] != xs[j]
  }

  function Initial(): GameState {
    GameState(Landing, [], INITIAL_TIME, false, 0, false)
  }

  // ---------------------------------------------------------------------------
  // Derived lookups over the room table
  // ---------------------------------------------------------------------------

  /** `rooms.findIndex(r => r.id === id)`: the first position holding `id`, or -1. */
  function FindIndex(rooms: seq<RoomConfig>, id: string): (r: int)
    ensures -1 <= r < |rooms|
    ensures r >= 0 ==> rooms[r].id == id && forall j :: 0 <= j < r ==> rooms[j].id != id
    ensures r == -1 <==> forall j :: 0 <= j < |rooms| ==> rooms[j].id != id
  {
    if rooms == [] then -1
    else if rooms[0].id == id then 0
    else
      var rest := FindIndex(rooms[1..], id);
      if rest == -1 then -1 else rest + 1
  }

  /** `rooms.find(r => r.view === view)`: the first entry shown as `view`. */
  function FindByView(rooms: seq<RoomConfig>, v: View): (r: Option<RoomConfig>)
    ensures r.Some? ==> exists i :: 0 <= i < |rooms| && rooms[i] == r.value && rooms[i].view == v &&
                                    forall j :: 0 <= j < i ==> rooms[j].view != v
    ensures r.None? <==> forall j :: 0 <= j < |rooms| ==> rooms[j].view != v
  {
    if rooms == [] then None
    else if rooms[0].view == v then Some(rooms[0])
    else
      var rest := FindByView(rooms[1..], v);
      if rest.Some? then
        ghost var i :| 0 <= i < |rooms| - 1 && rooms[1..][i] == rest.value && rooms[1..][i].view == v &&
                       forall j :: 0 <= j < i ==> rooms[1..][j].view != v;
        assert rooms[i + 1] == rest.value;
        rest
      else rest
  }

  /** The hub's `isUnlocked` for the tile of `ROOMS[i]`: the position of its id
      is looked up, and the tile is open when that is the first position or
      the room before it is solved. */
  predicate IsUnlocked(solved: seq<string>, i: nat)
    requires i < |ROOMS|
  {
    var index := FindIndex(ROOMS, ROOMS[i].id);
    index == 0 || (index > 0 && ROOMS[index - 1].id in solved)
  }

  /** With no id twice in the table, looking up an entry's id finds that entry. */
  lemma {:induction false} FindIndexOfDistinct(rooms: seq<RoomConfig>, i: nat)
    requires i < |rooms|
    requires forall a, b :: 0 <= a < b < |rooms| ==> rooms[a].id != rooms[b].id
    ensures FindIndex(rooms, rooms[i].id) == i
  {
    var r := FindIndex(rooms, rooms[i].id);
    assert r != -1;
    assert rooms[r].id == rooms[i].id;
  }

  /** With no view twice in the table, looking up an entry's view finds that entry. */
  lemma {:induction false} FindByViewOfDistinct(rooms: seq<RoomConfig>, i: nat)
    requires i < |rooms|
    requires forall a, b :: 0 <= a < b < |rooms| ==> rooms[a].view != rooms[b].view
    ensures FindByView(rooms, rooms[i].view) == Some(rooms[i])
  {
    var r := FindByView(rooms, rooms[i].view);
    var k :| 0 <= k < |rooms| && rooms[k] == r.value && rooms[k].view == rooms[i].view &&
             forall j :: 0 <= j < k ==> rooms[j].view != rooms[i].view;
    assert rooms[k].view == rooms[i].view;
  }

  /** Room `i` of the chain is open: it is the first, or its predecessor is solved. */
  predicate UnlockChain(solved: seq<string>, i: nat)
    requires i < |ROOM_IDS|
  {
    i == 0 || ROOM_IDS[i - 1] in solved
  }

  /** The hub's lookup by id agrees with the chain: room `i` is open exactly
      when `i` is 0 or the room before it in the table has been solved. */
  lemma UnlockedIff(solved: seq<string>, i: nat)
    requires i < |ROOMS|
    ensures i < |ROOM_IDS|
    ensures IsUnlocked(solved, i) <==> UnlockChain(solved, i)
  {
    RoomsDistinct();
    FindIndexOfDistinct(ROOMS, i);
    if i > 0 {
      RoomEntry(i - 1);
    }
  }

  /** `getHint(view)`: the hint of the room shown as `view`, else the empty string. */
  function GetHint(v: View): string {
    match FindByView(ROOMS, v)
    case Some(room) => room.hint
    case None => ""
  }

  /** Every room screen has its own table entry's hint, and it is not empty;
      every other screen has none. */
  lemma GetHintLookup(v: View)
    ensures forall i :: 0 <= i < |ROOMS| && ROOMS[i].view == v ==> GetHint(v) == ROOMS[i].hint
    ensures v.IsRoom() <==> GetHint(v) != ""
  {
    RoomsDistinct();
    if v.IsRoom() {
      var k := RoomIndex(v);
      RoomOfView(v);
      RoomEntry(k);
      FindByViewOfDistinct(ROOMS, k);
    } else {
      forall j | 0 <= j < |ROOMS| ensures ROOMS[j].view != v {
        RoomEntry(j);
      }
    }
  }

  // ---------------------------------------------------------------------------
  // Transitions, each one atomic step of the event handlers
  // ---------------------------------------------------------------------------

  /** The state the controller keeps in every reachable configuration. */
  predicate Invariant(s: GameState) {
    && s.timeLeft >= 0
    && NoDuplicates(s.solvedPuzzles)
    && (forall id :: id in s.solvedPuzzles ==> id in ROOM_IDS)
    && s.konamiIndex < |KONAMI_CODE|
    && (s.isActive ==> IsActiveView(s.view))
    && (s.view.IsRoom() ==> UnlockChain(s.solvedPuzzles, RoomIndex(s.view)))
  }

  lemma InitialInvariant()
    ensures Invariant(Initial())
  {
  }

  /** `startGame`: the landing page's button opens the briefing. */
  function StartStep(s: GameState): (r: GameState)
    ensures Invariant(s) ==> Invariant(r)
  {
    s.(view := Rules)
  }

  /** `enterHub`: the briefing's button opens the hub and starts the countdown. */
  function EnterHubStep(s: GameState): (r: GameState)
    ensures Invariant(s) ==> Invariant(r)
  {
    s.(view := Hub, isActive := true)
  }

  /** A room's back button. */
  function BackStep(s: GameState): (r: GameState)
    ensures Invariant(s) ==> Invariant(r)
  {
    s.(view := Hub)
  }

  /** `handleRoomSolve(roomId)`: record the room once, then go to the hub, or
      end the game won when it is the terminal room. */
  function SolveStep(s: GameState, roomId: string): (r: GameState)
    ensures r.solvedPuzzles == if roomId in s.solvedPuzzles then s.solvedPuzzles else s.solvedPuzzles + [roomId]
    ensures Invariant(s) && roomId in ROOM_IDS ==> Invariant(r)
  {
    var solved := if roomId !in s.solvedPuzzles then s.solvedPuzzles + [roomId] else s.solvedPuzzles;
    if roomId == TERMINAL_ROOM then s.(solvedPuzzles := solved, view := Success, isActive := false)
    else s.(solvedPuzzles := solved, view := Hub)
  }

  /** `handlePenalty(amount)`: deduct, never below zero, unless the bonus mode
      waives penalties. */
  function PenaltyStep(s: GameState, amount: int): (r: GameState)
    ensures Invariant(s) ==> Invariant(r)
  {
    if !s.hackerMode then s.(timeLeft := if s.timeLeft - amount > 0 then s.timeLeft - amount else 0)
    else s
  }

  /** The hub tile's click: `isUnlocked && navigateToRoom(room.view)`. */
  function OpenRoomStep(s: GameState, i: nat): (r: GameState)
    requires i < |ROOMS|
    ensures Invariant(s) ==> Invariant(r)
  {
    UnlockedIff(s.solvedPuzzles, i);
    RoomEntry(i);
    if IsUnlocked(s.solvedPuzzles, i) then s.(view := ROOMS[i].view) else s
  }

  /** A hub tile moves to its room exactly when the room before it in the
      table is solved (or it is the first), and otherwise changes nothing. */
  lemma OpenRoomOnlyWhenUnlocked(s: GameState, i: nat)
    requires i < |ROOMS|
    ensures i < |ROOM_IDS|
    ensures OpenRoomStep(s, i) == if UnlockChain(s.solvedPuzzles, i) then s.(view := ROOMS[i].view) else s
    ensures OpenRoomStep(s, i).view == s.view || OpenRoomStep(s, i).view.IsRoom()
  {
    UnlockedIff(s.solvedPuzzles, i);
    RoomEntry(i);
  }

  /** The countdown running: every tick is armed only while this holds. */
  predicate TimerArmed(s: GameState) {
    s.isActive && s.timeLeft > 0
  }

  /** The body of the once-a-second timer callback. */
  function TickStep(s: GameState): (r: GameState)
    ensures Invariant(s) ==> Invariant(r)
  {
    if s.timeLeft <= 1 then s.(view := Failure, isActive := false, timeLeft := 0)
    else s.(timeLeft := s.timeLeft - 1)
  }

  /** `handleKeyDown(e)`: follow the secret key sequence; completing it grants
      the bonus mode and extra time. */
  function KeyStep(s: GameState, key: string): (r: GameState)
    ensures r.konamiIndex < |KONAMI_CODE|
    ensures Invariant(s) ==> Invariant(r)
  {
    if s.konamiIndex < |KONAMI_CODE| && key == KONAMI_CODE[s.konamiIndex] then
      var next := s.konamiIndex + 1;
      if next == |KONAMI_CODE| then
        s.(hackerMode := true, timeLeft := s.timeLeft + BONUS_TIME, konamiIndex := 0)
      else s.(konamiIndex := next)
    else s.(konamiIndex := 0)
  }

  // ---------------------------------------------------------------------------
  // Properties of single steps
  // ---------------------------------------------------------------------------

  /** A tick with more than one second left takes exactly one second off and
      changes nothing else; the last second ends the game lost. */
  lemma TickCountsDown(s: GameState)
    ensures s.timeLeft > 1 ==> TickStep(s) == s.(timeLeft := s.timeLeft - 1)
    ensures s.timeLeft <= 1 ==> TickStep(s) == s.(timeLeft := 0, view := Failure, isActive := false)
    ensures TimerArmed(s) ==> TickStep(s).timeLeft == s.timeLeft - 1
  {
  }

  /** A penalty removes `amount` seconds, clamped at zero, or nothing in bonus
      mode; it never touches the screen, the timer flag or anything else. */
  lemma PenaltyClamps(s: GameState, amount: nat)
    ensures !s.hackerMode ==> PenaltyStep(s, amount).timeLeft == (if s.timeLeft > amount then s.timeLeft - amount else 0)
    ensures s.hackerMode ==> PenaltyStep(s, amount) == s
    ensures PenaltyStep(s, amount) == s.(timeLeft := PenaltyStep(s, amount).timeLeft)
  {
  }

  /** A penalty that empties the clock does not end the game: the screen
      stays, the countdown flag stays set, and no tick is armed any more. */
  lemma PenaltyToZeroDisarms(s: GameState, amount: nat)
    requires TimerArmed(s) && !s.hackerMode && amount >= s.timeLeft
    ensures PenaltyStep(s, amount).timeLeft == 0
    ensures PenaltyStep(s, amount).view == s.view && PenaltyStep(s, amount).isActive
    ensures !TimerArmed(PenaltyStep(s, amount))
  {
  }

  /** Solving twice is solving once; the solved list never repeats an id. */
  lemma SolveIdempotent(s: GameState, roomId: string)
    ensures SolveStep(SolveStep(s, roomId), roomId) == SolveStep(s, roomId)
    ensures NoDuplicates(s.solvedPuzzles) ==> NoDuplicates(SolveStep(s, roomId).solvedPuzzles)
    ensures roomId in SolveStep(s, roomId).solvedPuzzles
  {
  }

  /** `handleRoomSolve` as a delayed `setTimeout(onSolve, …)` runs it: the
      membership test reads `seen`, the solved list of the render that
      scheduled the call, while the append reads the current list. With an
      up-to-date `seen` it is `SolveStep`. */
  function DelayedSolveStep(s: GameState, seen: seq<string>, roomId: string): (r: GameState)
    ensures seen == s.solvedPuzzles ==> r == SolveStep(s, roomId)
    ensures r.view == SolveStep(s, roomId).view && r.isActive == SolveStep(s, roomId).isActive
    ensures roomId !in seen ==> r.solvedPuzzles == s.solvedPuzzles + [roomId]
  {
    var solved := if roomId !in seen then s.solvedPuzzles + [roomId] else s.solvedPuzzles;
    if roomId == TERMINAL_ROOM then s.(solvedPuzzles := solved, view := Success, isActive := false)
    else s.(solvedPuzzles := solved, view := Hub)
  }

  /** Two clicks on a solving control within the delay schedule two calls
      that both saw the room unsolved: the room is recorded twice, and the
      controller invariant is lost. */
  lemma DoubleSolveDuplicates(s: GameState, roomId: string)
    requires roomId !in s.solvedPuzzles
    ensures var twice := DelayedSolveStep(DelayedSolveStep(s, s.solvedPuzzles, roomId), s.solvedPuzzles, roomId);
      twice.solvedPuzzles == s.solvedPuzzles + [roomId, roomId] && !NoDuplicates(twice.solvedPuzzles) && !Invariant(twice)
  {
    var once := DelayedSolveStep(s, s.solvedPuzzles, roomId);
    var twice := DelayedSolveStep(once, s.solvedPuzzles, roomId);
    assert twice.solvedPuzzles == s.solvedPuzzles + [roomId, roomId];
    var n := |s.solvedPuzzles|;
    assert twice.solvedPuzzles[n] == twice.solvedPuzzles[n + 1];
  }

  /** Solving the terminal room wins and stops the clock; any other room
      returns to the hub and leaves the clock as it was. */
  lemma SolveOutcome(s: GameState, roomId: string)
    ensures roomId == TERMINAL_ROOM ==> SolveStep(s, roomId).view == Success && !SolveStep(s, roomId).isActive
    ensures roomId != TERMINAL_ROOM ==> SolveStep(s, roomId).view == Hub && SolveStep(s, roomId).isActive == s.isActive
    ensures SolveStep(s, roomId).timeLeft == s.timeLeft
  {
  }

  /** A key that matches the sequence advances it; any other key, even the
      sequence's first key, starts it over. Nothing else changes on a key
      that does not complete the sequence. */
  lemma KeyAdvancesOrResets(s: GameState, key: string)
    requires s.konamiIndex < |KONAMI_CODE|
    ensures key != KONAMI_CODE[s.konamiIndex] ==> KeyStep(s, key) == s.(konamiIndex := 0)
    ensures key == KONAMI_CODE[s.konamiIndex] && s.konamiIndex + 1 < |KONAMI_CODE| ==>
              KeyStep(s, key) == s.(konamiIndex := s.konamiIndex + 1)
  {
  }

  /** A concrete case: after "ArrowUp ArrowUp", a third "ArrowUp" restarts the
      sequence from zero rather than counting as its first key. */
  lemma KeyRestartIsNotFirstKey(s: GameState)
    requires s.konamiIndex == 2
    ensures KeyStep(s, "ArrowUp").konamiIndex == 0
  {
  }

  /** Nothing a screen can still trigger on a finished game moves it off its
      terminal screen or restarts the clock: penalties, keys, and the timer,
      which is disarmed there. Only reset leaves it. */
  lemma TerminalStays(s: GameState, amount: int, key: string)
    requires Invariant(s) && s.view.IsTerminal()
    ensures !s.isActive && !TimerArmed(s)
    ensures PenaltyStep(s, amount).view == s.view && !PenaltyStep(s, amount).isActive
    ensures KeyStep(s, key).view == s.view && !KeyStep(s, key).isActive
  {
  }

  // ---------------------------------------------------------------------------
  // Properties of runs
  // ---------------------------------------------------------------------------

  /** `n` timer callbacks in a row. */
  function Ticks(s: GameState, n: nat): GameState
    decreases n
  {
    if n == 0 then s else Ticks(TickStep(s), n - 1)
  }

  /** From `n > 0` seconds, the first `n - 1` ticks only count down, the timer
      staying armed throughout, and the `n`-th ends the game lost at zero. */
  lemma {:induction false} TicksToFailure(s: GameState, n: nat)
    requires s.timeLeft == n > 0
    ensures Ticks(s, n) == s.(timeLeft := 0, view := Failure, isActive := false)
    ensures forall k :: 0 <= k < n ==> Ticks(s, k) == s.(timeLeft := n - k)
    ensures s.isActive ==> forall k :: 0 <= k < n ==> TimerArmed(Ticks(s, k))
    decreases n
  {
    if n > 1 {
      var t := TickStep(s);
      assert t == s.(timeLeft := n - 1);
      TicksToFailure(t, n - 1);
      forall k | 0 < k < n ensures Ticks(s, k) == s.(timeLeft := n - k) {
        assert Ticks(s, k) == Ticks(t, k - 1);
      }
    }
  }

  /** Key presses one after another. */
  function Keys(s: GameState, keys: seq<string>): GameState
    decreases |keys|
  {
    if keys == [] then s else Keys(KeyStep(s, keys[0]), keys[1..])
  }

  /** The expected key advances the sequence, and the last one completes it. */
  lemma ExpectedKey(s: GameState)
    requires s.konamiIndex < |KONAMI_CODE|
    ensures KeyStep(s, KONAMI_CODE[s.konamiIndex]) ==
              if s.konamiIndex + 1 == |KONAMI_CODE|
              then s.(hackerMode := true, timeLeft := s.timeLeft + BONUS_TIME, konamiIndex := 0)
              else s.(konamiIndex := s.konamiIndex + 1)
  {
  }

  /** Typing the rest of the sequence from position `j` completes it: bonus
      mode on, the bonus seconds added, the position back at zero. */
  lemma {:induction false} KonamiCompletes(s: GameState, j: nat)
    requires j == s.konamiIndex < |KONAMI_CODE|
    ensures Keys(s, KONAMI_CODE[j..]) == s.(hackerMode := true, timeLeft := s.timeLeft + BONUS_TIME, konamiIndex := 0)
    decreases |KONAMI_CODE| - j
  {
    var keys := KONAMI_CODE[j..];
    ExpectedKey(s);
    var t := KeyStep(s, KONAMI_CODE[j]);
    assert keys[0] == KONAMI_CODE[j] && keys[1..] == KONAMI_CODE[j + 1..];
    assert Keys(s, keys) == Keys(t, KONAMI_CODE[j + 1..]);
    if j + 1 < |KONAMI_CODE| {
      KonamiCompletes(t, j + 1);
    }
  }

  /** In bonus mode every later penalty is waived. */
  lemma BonusWaivesPenalties(s: GameState, amount: int)
    requires s.konamiIndex == 0
    ensures var b := Keys(s, KONAMI_CODE);
            b.hackerMode && b.timeLeft == s.timeLeft + BONUS_TIME && PenaltyStep(b, amount) == b
  {
    KonamiCompletes(s, 0);
    assert KONAMI_CODE[0..] == KONAMI_CODE;
  }

  /** One round from the hub: open the tile of room `k` and solve that room.
      A room screen reports its solution under its own name, which is the id
      of its table entry. */
  function Round(s: GameState, k: nat): GameState
    requires k < |ROOM_IDS|
  {
    RoomCount();
    SolveStep(OpenRoomStep(s, k), ROOM_IDS[k])
  }

  /** Rounds for rooms `k` to the last, one after another. */
  function PlayFrom(s: GameState, k: nat): GameState
    requires k <= |ROOM_IDS|
    decreases |ROOM_IDS| - k
  {
    if k == |ROOM_IDS| then s else PlayFrom(Round(s, k), k + 1)
  }

  /** With the rooms before `k` solved, the tile of room `k` is open. */
  lemma OpenInOrder(s: GameState, k: nat)
    requires k < |ROOMS|
    requires s.solvedPuzzles == ROOM_IDS[..k]
    ensures OpenRoomStep(s, k) == s.(view := ROOMS[k].view)
  {
    UnlockedIff(s.solvedPuzzles, k);
    if k > 0 {
      assert ROOM_IDS[k - 1] == ROOM_IDS[..k][k - 1];
    }
  }

  /** With the rooms before `k` solved, solving room `k` records it next and
      returns to the hub, or wins when it is the last. */
  lemma SolveInOrder(s: GameState, k: nat)
    requires k < |ROOM_IDS|
    requires s.solvedPuzzles == ROOM_IDS[..k]
    ensures SolveStep(s, ROOM_IDS[k]) ==
              if k == |ROOM_IDS| - 1 then s.(solvedPuzzles := ROOM_IDS, view := Success, isActive := false)
              else s.(solvedPuzzles := ROOM_IDS[..k + 1], view := Hub)
  {
    TerminalIsLast();
    RoomsDistinct();
    assert ROOM_IDS[k] !in s.solvedPuzzles by {
      forall j | 0 <= j < k ensures s.solvedPuzzles[j] != ROOM_IDS[k] {
        assert s.solvedPuzzles[j] == ROOM_IDS[j];
      }
    }
    assert ROOM_IDS[..k] + [ROOM_IDS[k]] == ROOM_IDS[..k + 1];
    if k == |ROOM_IDS| - 1 {
      assert ROOM_IDS[..k + 1] == ROOM_IDS;
    }
  }

  /** One round of play in table order, from the hub with the rooms before
      `k` solved: open room `k`, solve it, and be back at the hub with it
      recorded next, or have won if it was the last. */
  lemma RoundInOrder(s: GameState, k: nat)
    requires k < |ROOM_IDS| && s.view == Hub
    requires s.solvedPuzzles == ROOM_IDS[..k]
    ensures Round(s, k) ==
              if k == |ROOM_IDS| - 1 then s.(solvedPuzzles := ROOM_IDS, view := Success, isActive := false)
              else s.(solvedPuzzles := ROOM_IDS[..k + 1])
  {
    RoomCount();
    OpenInOrder(s, k);
    SolveInOrder(OpenRoomStep(s, k), k);
  }

  /** Playing the rooms in table order from the hub, with the first `k`
      already solved, opens every room in turn and ends the game won with all
      six ids recorded and the clock stopped. */
  lemma {:induction false} PlayInOrderWins(s: GameState, k: nat)
    requires k < |ROOM_IDS| && s.view == Hub
    requires s.solvedPuzzles == ROOM_IDS[..k]
    ensures PlayFrom(s, k) == s.(solvedPuzzles := ROOM_IDS, view := Success, isActive := false)
    decreases |ROOM_IDS| - k
  {
    RoundInOrder(s, k);
    if k + 1 < |ROOM_IDS| {
      PlayInOrderWins(Round(s, k), k + 1);
    }
  }

  /** A fresh game, started and entered, then played room by room, is won
      with the whole countdown left. */
  lemma FreshGameWins()
    ensures var s := EnterHubStep(StartStep(Initial()));
            PlayFrom(s, 0).view == Success && PlayFrom(s, 0).solvedPuzzles == ROOM_IDS &&
            PlayFrom(s, 0).timeLeft == INITIAL_TIME && !PlayFrom(s, 0).isActive
  {
    var s := EnterHubStep(StartStep(Initial()));
    assert ROOM_IDS[..0] == [];
    PlayInOrderWins(s, 0);
  }

  // ---------------------------------------------------------------------------
  // The controller object
  // ---------------------------------------------------------------------------

  class Controller {
    var view: View
    var solvedPuzzles: seq<string>
    var timeLeft: int
    var isActive: bool
    var konamiIndex: nat
    var hackerMode: bool

    function State(): GameState
      reads this
    {
      GameState(view, solvedPuzzles, timeLeft, isActive, konamiIndex, hackerMode)
    }

    ghost predicate Valid()
      reads this
    {
      Invariant(State())
    }

    constructor ()
      ensures Valid() && State() == Initial()
    {
      InitialInvariant();
      view := Landing;
      solvedPuzzles := [];
      timeLeft := INITIAL_TIME;
      isActive := false;
      konamiIndex := 0;
      hackerMode := false;
    }

    method StartGame()
      requires Valid()
      modifies this
      ensures Valid() && State() == StartStep(old(State()))
    {
      view := Rules;
    }

    method EnterHub()
      requires Valid()
      modifies this
      ensures Valid() && State() == EnterHubStep(old(State()))
    {
      view := Hub;
      isActive := true;
    }

    /** `resetGame`: from any state back to a fresh game on the landing page. */
    method ResetGame()
      requires Valid()
      modifies this
      ensures Valid() && State() == Initial()
    {
      InitialInvariant();
      isActive := false;
      timeLeft := INITIAL_TIME;
      solvedPuzzles := [];
      hackerMode := false;
      konamiIndex := 0;
      view := Landing;
    }

    method HandleRoomSolve(roomId: string)
      requires Valid() && roomId in ROOM_IDS
      modifies this
      ensures Valid() && State() == SolveStep(old(State()), roomId)
    {
      if roomId !in solvedPuzzles {
        solvedPuzzles := solvedPuzzles + [roomId];
      }
      if roomId == TERMINAL_ROOM {
        view := Success;
        isActive := false;
      } else {
        view := Hub;
      }
    }

    method HandlePenalty(amount: int)
      requires Valid()
      modifies this
      ensures Valid() && State() == PenaltyStep(old(State()), amount)
    {
      if !hackerMode {
        timeLeft := if timeLeft - amount > 0 then timeLeft - amount else 0;
      }
    }

    /** The hub tile for `ROOMS[i]`: navigates only when the room is unlocked. */
    method OpenRoom(i: nat)
      requires Valid() && i < |ROOMS|
      modifies this
      ensures Valid() && State() == OpenRoomStep(old(State()), i)
    {
      ghost var s := State();
      ghost var r := OpenRoomStep(s, i);
      assert Invariant(r);
      if IsUnlocked(solvedPuzzles, i) {
        view := ROOMS[i].view;
      }
      assert State() == r;
    }

    method Back()
      requires Valid()
      modifies this
      ensures Valid() && State() == BackStep(old(State()))
    {
      view := Hub;
    }

    /** One firing of the interval, which exists only while the timer is armed. */
    method Tick()
      requires Valid() && TimerArmed(State())
      modifies this
      ensures Valid() && State() == TickStep(old(State()))
    {
      if timeLeft <= 1 {
        view := Failure;
        isActive := false;
        timeLeft := 0;
      } else {
        timeLeft := timeLeft - 1;
      }
    }

    method HandleKeyDown(key: string)
      requires Valid()
      modifies this
      ensures Valid() && State() == KeyStep(old(State()), key)
    {
      if konamiIndex < |KONAMI_CODE| && key == KONAMI_CODE[konamiIndex] {
        var nextIndex := konamiIndex + 1;
        if nextIndex == |KONAMI_CODE| {
          hackerMode := true;
          timeLeft := timeLeft + BONUS_TIME;
          konamiIndex := 0;
        } else {
          konamiIndex := nextIndex;
        }
      } else {
        konamiIndex := 0;
      }
    }
  }
}
