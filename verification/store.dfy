/**
 * The room directory persisted under one local-storage key: a mapping from room code to
 * room, read and written as a whole.
 */
module Store {
  import opened Wrappers
  import opened Rooms

  /** Every room is filed under its own code, as `saveRoom` files it. */
  ghost predicate WellKeyed(rooms: map<string, Room>) {
    forall code :: code in rooms ==> rooms[code].code == code
  }

  /** `rooms[code] || null`. */
  function Lookup(rooms: map<string, Room>, code: string): Option<Room> {
    if code in rooms then Some(rooms[code]) else None
  }

  /** `rooms[room.code] = room`: the directory after saving one room. */
  function Put(rooms: map<string, Room>, room: Room): map<string, Room> {
    rooms[room.code := room]
  }

  /**
   * Saving then loading gives back the saved room under its code; the entry of every
   * other code is what it was; and no code ever leaves the directory.
   */
  lemma LookupAfterPut(rooms: map<string, Room>, room: Room, code: string)
    ensures Lookup(Put(rooms, room), code) == if code == room.code then Some(room) else Lookup(rooms, code)
    ensures Put(rooms, room).Keys == rooms.Keys + {room.code}
  {
  }

  /** Saving keeps every room filed under its own code. */
  lemma PutKeepsWellKeyed(rooms: map<string, Room>, room: Room)
    requires WellKeyed(rooms)
    ensures WellKeyed(Put(rooms, room))
  {
  }

  /** The local-storage entry shared by every session of the client on this device. */
  class RoomStore {
    var rooms: map<string, Room>

    ghost predicate Valid()
      reads this
    {
      WellKeyed(rooms)
    }

    /** An empty storage entry reads as an empty directory. */
    constructor ()
      ensures Valid() && rooms == map[]
    {
      rooms := map[];
    }

    /** `getRooms()`: the directory as stored. */
    function GetRooms(): (r: map<string, Room>)
      reads this
      requires Valid()
      ensures r == rooms
      ensures forall code :: code in r ==> r[code].code == code
    {
      rooms
    }

    /** `getRoom(code)`: the entry stored under `code`, which carries that code. */
    function GetRoom(code: string): (r: Option<Room>)
      reads this
      requires Valid()
      ensures r.Some? <==> code in rooms
      ensures r.Some? ==> r.value == rooms[code] && r.value.code == code
    {
      Lookup(rooms, code)
    }

    /** `saveRoom(room)`: merges one room into the directory and writes it back. */
    method SaveRoom(room: Room)
      requires Valid()
      modifies this
      ensures Valid()
      ensures rooms == Put(old(rooms), room)
    {
      rooms := rooms[room.code := room];
    }
  }
}
