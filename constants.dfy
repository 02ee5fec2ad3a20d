/** The static configuration: the countdown length and the ordered room table,
    whose order is the unlock chain. */
module Constants {
  import opened Types

  /** Ten minutes, in seconds. */
  const INITIAL_TIME: nat := 600

  const ROOMS: seq<RoomConfig> := [
    RoomConfig("room1", Room1, Low, false,
      "The function 'systemCheck' returns a Promise. You can't use its value directly without waiting for it to resolve."),
    RoomConfig("room2", Room2, Medium, true,
      "We need the alarm to trigger if ANY danger signal is true. The current gate requires ALL of them to be true."),
    RoomConfig("room3", Room3, High, true,
      "XOR (^) toggles bits. If you start with 0110 (6) and XOR with 0010 (2), the second bit flips to 0."),
    RoomConfig("room4", Room4, Medium, true,
      "Nested loops cause O(N\U{B2}) complexity. Using a Set or Hash Map allows for O(N) lookup time."),
    RoomConfig("room5", Room5, Low, true,
      "The invisible overlay has a higher z-index than the button. You need to allow pointer events to pass through it."),
    RoomConfig("room6", Room6, Critical, true,
      "Process B is waiting for Resource 1. Terminate Process A to release Resource 1 first.")
  ]

  /** The room whose solution ends the game. */
  const TERMINAL_ROOM: string := "room6"

  /** The ids of the room table, in order. */
  const ROOM_IDS: seq<string> := ["room1", "room2", "room3", "room4", "room5", "room6"]

  /** The position in the table of the room shown as `v`. */
  function RoomIndex(v: View): (i: nat)
    requires v.IsRoom()
    ensures i < |ROOM_IDS| && ROOM_IDS[i] == ViewName(v)
  {
    match v
    case Room1 => 0 case Room2 => 1 case Room3 => 2
    case Room4 => 3 case Room5 => 4 case Room6 => 5
  }

  /** The table has six rooms, as many as there are ids. */
  lemma RoomCount()
    ensures |ROOMS| == |ROOM_IDS| == 6
  {
  }

  /** Entry `i` has id `room<i+1>`, the same name as its view, which
      `RoomIndex` maps back to `i`; only the first entry is unlocked from the
      start; every entry has a hint. */
  lemma RoomEntry(i: nat)
    requires i < |ROOMS|
    ensures i < |ROOM_IDS| && ROOMS[i].id == ROOM_IDS[i]
    ensures ROOMS[i].view.IsRoom() && ROOMS[i].id == ViewName(ROOMS[i].view) && RoomIndex(ROOMS[i].view) == i
    ensures ROOMS[i].locked <==> i > 0
    ensures ROOMS[i].hint != ""
  {
  }

  /** Every room screen has its entry in the table. */
  lemma RoomOfView(v: View)
    requires v.IsRoom()
    ensures RoomIndex(v) < |ROOMS| && ROOMS[RoomIndex(v)].view == v
  {
  }

  /** No id and no view appears twice in the table. */
  lemma RoomsDistinct()
    ensures forall i, j :: 0 <= i < j < |ROOM_IDS| ==> ROOM_IDS[i] != ROOM_IDS[j]
    ensures forall i, j :: 0 <= i < j < |ROOMS| ==> ROOMS[i].id != ROOMS[j].id && ROOMS[i].view != ROOMS[j].view
  {
    forall i, j | 0 <= i < j < |ROOM_IDS| ensures ROOM_IDS[i] != ROOM_IDS[j] {
      assert ROOM_IDS[i][4] != ROOM_IDS[j][4];
    }
  }

  /** The last entry is the room the controller treats as the end of the game. */
  lemma TerminalIsLast()
    ensures ROOMS[|ROOMS| - 1].id == TERMINAL_ROOM == ROOM_IDS[|ROOM_IDS| - 1]
    ensures forall i :: 0 <= i < |ROOM_IDS| - 1 ==> ROOM_IDS[i] != TERMINAL_ROOM
  {
  }
}
