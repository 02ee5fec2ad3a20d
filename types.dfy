/** The shared vocabulary of the game: the screens, the static room descriptor
    and what a puzzle screen asks of the controller through its callbacks. */
module Types {

  datatype Option<T> = None | Some(value: T)

  /** Every screen the game can show. */
  datatype View =
    | Landing | Rules | Hub
    | Room1 | Room2 | Room3 | Room4 | Room5 | Room6
    | Success | Failure
  {
    predicate IsRoom() {
      Room1? || Room2? || Room3? || Room4? || Room5? || Room6?
    }

    predicate IsTerminal() {
      Success? || Failure?
    }
  }

  /** The string literal the screen is known by, as used for room ids. */
  function ViewName(v: View): (r: string)
    ensures v.IsRoom() <==> |r| == 5 && r[..4] == "room" && '1' <= r[4] <= '6'
  {
    match v
    case Landing => "landing"
    case Rules => "rules"
    case Hub => "hub"
    case Room1 => "room1"
    case Room2 => "room2"
    case Room3 => "room3"
    case Room4 => "room4"
    case Room5 => "room5"
    case Room6 => "room6"
    case Success => "success"
    case Failure => "failure"
  }

  datatype Difficulty = Low | Medium | High | Critical

  /** One entry of the static room table, without the display texts (name,
      description, icon name) that only the hub tiles render. */
  datatype RoomConfig = RoomConfig(
    id: string,
    view: View,
    difficulty: Difficulty,
    locked: bool,
    hint: string)

  /** What one puzzle-screen event asks of the controller: nothing, `onSolve()`,
      or `onPenalty(amount)`. No handler calls both. */
  datatype Effect = NoEffect | Solve | Penalty(amount: nat)
}
