/** Two tabs of the client on one device, sharing one room directory. */
module Scenarios {
  import opened Wrappers
  import opened Strings
  import opened Rooms
  import opened Store
  import opened Session

  /**
   * One tab creates a room, a second tab joins it and sends a message; after one poll the
   * first tab shows the same room as the second: both members and all three messages.
   */
  method TwoTabsShareARoom(code: string, creatorName: string, guestName: string, text: string)
    returns (creatorView: Option<Room>, guestView: Option<Room>)
    requires |code| == RoomCodeLength && Trim(code) == code
    requires Trim(creatorName) != [] && Trim(guestName) != [] && Trim(text) != []
    ensures creatorView.Some? && creatorView == guestView
    ensures |creatorView.value.participants| == 2 && |creatorView.value.messages| == 3
  {
    var store := new RoomStore();
    var creator := new Messenger(store);
    var guest := new Messenger(store);
    var created := creator.CreateRoom(code, creatorName, "t0", "m1", "t0", "u1");
    assert store.rooms[code].active;
    var joined := guest.JoinRoom(code, guestName, "u2", "m2", "t1");
    assert joined == Done;
    var sent := guest.SendMessage(text, "m3", "t2");
    assert sent;
    assert |store.rooms[code].participants| == 2;
    var redraw := creator.PollTick();
    creatorView, guestView := creator.currentRoom, guest.currentRoom;
  }

  /**
   * Last writer wins: a tab that sends before its poll has picked up another tab's join writes
   * back its stale copy, and the joiner's membership is lost from the directory.
   */
  method StaleWriteDropsAJoin(code: string, creatorName: string, guestName: string, text: string)
    returns (stored: Room)
    requires |code| == RoomCodeLength && Trim(code) == code
    requires Trim(creatorName) != [] && Trim(guestName) != [] && Trim(text) != []
    ensures |stored.participants| == 1 && |stored.messages| == 2
  {
    var store := new RoomStore();
    var creator := new Messenger(store);
    var guest := new Messenger(store);
    var created := creator.CreateRoom(code, creatorName, "t0", "m1", "t0", "u1");
    assert store.rooms[code].active;
    var joined := guest.JoinRoom(code, guestName, "u2", "m2", "t1");
    assert joined == Done;
    var sent := creator.SendMessage(text, "m3", "t2");
    assert sent;
    stored := store.rooms[code];
  }
}
