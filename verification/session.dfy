/**
 * The session of one browser tab: who is signed in to which room, the operations that move
 * the tab in and out of a room and add messages, and the reconciliation with the shared store.
 */
module Session {
  import opened Wrappers
  import opened Strings
  import opened Files
  import opened Durations
  import opened Rooms
  import opened Store

  /** The local-storage key the directory lives under; storage events for other keys are ignored. */
  const StorageKey: string := "prMessengerRooms"

  /** `joinRoom` accepts only codes of exactly this length. */
  const RoomCodeLength: nat := 6

  /** Why an action was refused (each is shown to the user as an error notification). */
  datatype SessionError = EmptyName | InvalidCode | RoomNotFound

  datatype Outcome = Done | Refused(error: SessionError)

  /** `generateRoomCode()`, given the draw `Math.floor(Math.random() * 900000)`. */
  function GenerateRoomCode(draw: nat): (code: string)
    requires draw < 900000
    ensures |code| == RoomCodeLength && AllDigits(code)
  {
    DecimalStringLength(100000 + draw, 5);
    DecimalString(100000 + draw)
  }

  /** The guards of `joinRoom`, in their order, applied to the trimmed code and name. */
  function JoinTarget(code: string, name: string, rooms: map<string, Room>): Result<Room, SessionError> {
    if |code| != RoomCodeLength then Failure(InvalidCode)
    else if name == [] then Failure(EmptyName)
    else match Lookup(rooms, code)
      case None => Failure(RoomNotFound)
      case Some(room) => if room.active then Success(room) else Failure(RoomNotFound)
  }

  /**
   * A well-formed request is refused as "not found" exactly when the code is missing from the
   * directory or its room is inactive; a request is granted exactly for an active stored room.
   */
  lemma JoinRefusals(code: string, name: string, rooms: map<string, Room>)
    ensures JoinTarget(code, name, rooms) == Failure(RoomNotFound)
      <==> |code| == RoomCodeLength && name != [] && (code !in rooms || !rooms[code].active)
    ensures JoinTarget(code, name, rooms).Success?
      <==> |code| == RoomCodeLength && name != [] && code in rooms && rooms[code].active
    ensures JoinTarget(code, name, rooms).Success? ==> JoinTarget(code, name, rooms).value == rooms[code]
  {
  }

  /**
   * Creating then loading: the directory holds, under the new code, an active room whose only
   * participant is its creator and whose only message is a system notice.
   */
  lemma CreateThenGet(rooms: map<string, Room>, code: string, name: string, created: string,
                      noticeId: string, noticeTime: string, userId: string)
    ensures var room := Lookup(Put(rooms, NewRoom(code, created, noticeId, noticeTime,
                                                  Participant(userId, name, code, CreatorRole))), code);
      && room.Some? && room.value.code == code && room.value.active
      && |room.value.participants| == 1 && room.value.participants[0].role == CreatorRole
      && room.value.participants[0].name == name
      && |room.value.messages| == 1 && room.value.messages[0].body.SystemNotice?
      && room.value.messages[0].sender == SystemSender
  {
  }

  /** Every code `generateRoomCode` can produce passes the length guard of `joinRoom`. */
  lemma GeneratedCodeIsJoinable(draw: nat, name: string, rooms: map<string, Room>)
    requires draw < 900000
    ensures JoinTarget(GenerateRoomCode(draw), name, rooms) != Failure(InvalidCode)
  {
  }

  /**
   * One reconciliation step, shared by the sync poll and the storage event: adopt the stored
   * copy of the current room when there is one.
   */
  function Reconcile(current: Option<Room>, rooms: map<string, Room>): (r: Option<Room>)
    ensures r.Some? <==> current.Some?
    ensures current.Some? && current.value.code in rooms ==> r == Some(rooms[current.value.code])
    ensures current.Some? && current.value.code !in rooms ==> r == current
  {
    match current
    case None => None
    case Some(room) =>
      match Lookup(rooms, room.code)
      case Some(updated) => if updated != room then Some(updated) else current
      case None => current
  }

  /** Reconciling twice against the same directory is reconciling once. */
  lemma ReconcileIdempotent(current: Option<Room>, rooms: map<string, Room>)
    requires WellKeyed(rooms)
    ensures Reconcile(Reconcile(current, rooms), rooms) == Reconcile(current, rooms)
  {
  }

  /** After another tab saves the room this tab shows, this tab's next reconciliation shows that save. */
  lemma ReconcileSeesLatestSave(current: Option<Room>, rooms: map<string, Room>, saved: Room)
    requires current.Some? && current.value.code == saved.code
    ensures Reconcile(current, Put(rooms, saved)) == Some(saved)
  {
  }

  /** The client of one tab. */
  class Messenger {
    const store: RoomStore
    var currentUser: Option<Participant>
    var currentRoom: Option<Room>
    /** Whether a call is in progress; the media behind it is not modelled. */
    var isInCall: bool
    /**
     * Whether the one-second sync poll is scheduled. It is true in every reachable state:
     * `LeaveRoom` stops the poll and restarts it in the same call.
     */
    var syncActive: bool

    ghost predicate Valid()
      reads this, store
    {
      store.Valid() && (currentUser.Some? <==> currentRoom.Some?)
    }

    /** A tab starts outside any room, out of a call, with the sync poll running. */
    constructor (store: RoomStore)
      requires store.Valid()
      ensures Valid() && this.store == store
      ensures currentUser == None && currentRoom == None && !isInCall && syncActive
    {
      this.store := store;
      currentUser, currentRoom := None, None;
      isInCall := false;
      syncActive := true;
    }

    /** `startSync()`: (re)schedules the poll. */
    method StartSync()
      modifies this`syncActive
      ensures syncActive
    {
      syncActive := true;
    }

    /** `endCall()`: safe to call when no call is in progress. */
    method EndCall()
      modifies this`isInCall
      ensures !isInCall
    {
      isInCall := false;
    }

    /**
     * `createRoom()`: with a non-empty trimmed name, files a fresh active room under `code`
     * (replacing any room already filed there) with the caller as its creator, and enters it.
     */
    method CreateRoom(code: string, nameInput: string, created: string, noticeId: string, noticeTime: string, userId: string)
      returns (outcome: Outcome)
      requires Valid()
      modifies this, store
      ensures Valid()
      ensures isInCall == old(isInCall) && syncActive == old(syncActive)
      ensures Trim(nameInput) == [] ==>
        && outcome == Refused(EmptyName)
        && currentUser == old(currentUser) && currentRoom == old(currentRoom)
        && store.rooms == old(store.rooms)
      ensures Trim(nameInput) != [] ==>
        var user := Participant(userId, Trim(nameInput), code, CreatorRole);
        var room := NewRoom(code, created, noticeId, noticeTime, user);
        && outcome == Done
        && currentUser == Some(user) && currentRoom == Some(room)
        && store.rooms == Put(old(store.rooms), room)
    {
      var userName := Trim(nameInput);
      if userName == [] {
        return Refused(EmptyName);
      }
      var user := Participant(userId, userName, code, CreatorRole);
      var room := NewRoom(code, created, noticeId, noticeTime, user);
      store.SaveRoom(room);
      currentUser := Some(user);
      currentRoom := Some(room);
      outcome := Done;
    }

    /**
     * `joinRoom()`: when the guards pass, appends the caller as a participant and a join
     * notice to the stored room, saves it and enters it; otherwise changes nothing.
     */
    method JoinRoom(codeInput: string, nameInput: string, userId: string, noticeId: string, now: string)
      returns (outcome: Outcome)
      requires Valid()
      modifies this, store
      ensures Valid()
      ensures isInCall == old(isInCall) && syncActive == old(syncActive)
      ensures var target := JoinTarget(Trim(codeInput), Trim(nameInput), old(store.rooms));
        target.Failure? ==>
          && outcome == Refused(target.error)
          && currentUser == old(currentUser) && currentRoom == old(currentRoom)
          && store.rooms == old(store.rooms)
      ensures var target := JoinTarget(Trim(codeInput), Trim(nameInput), old(store.rooms));
        target.Success? ==>
          var user := Participant(userId, Trim(nameInput), Trim(codeInput), ParticipantRole);
          var joined := AddParticipant(target.value, user, noticeId, now);
          && outcome == Done
          && joined.code == Trim(codeInput)
          && currentUser == Some(user) && currentRoom == Some(joined)
          && store.rooms == Put(old(store.rooms), joined)
    {
      var code := Trim(codeInput);
      var userName := Trim(nameInput);
      if |code| != RoomCodeLength {
        return Refused(InvalidCode);
      }
      if userName == [] {
        return Refused(EmptyName);
      }
      var found := store.GetRoom(code);
      if found.None? || !found.value.active {
        return Refused(RoomNotFound);
      }
      var user := Participant(userId, userName, code, ParticipantRole);
      var joined := AddParticipant(found.value, user, noticeId, now);
      store.SaveRoom(joined);
      currentUser := Some(user);
      currentRoom := Some(joined);
      outcome := Done;
    }

    /**
     * `leaveRoom()`: ends a call in progress, records the departure in the room and saves it
     * (the room is never removed), then leaves the tab outside any room with the poll restarted.
     */
    method LeaveRoom(noticeId: string, now: string)
      requires Valid()
      modifies this, store
      ensures Valid()
      ensures currentUser == None && currentRoom == None && !isInCall && syncActive
      ensures old(currentRoom).Some? && old(currentUser).Some? ==>
        store.rooms == Put(old(store.rooms), LeaveUpdate(old(currentRoom).value, old(currentUser).value, noticeId, now))
      ensures old(currentRoom).None? || old(currentUser).None? ==> store.rooms == old(store.rooms)
      ensures old(store.rooms).Keys <= store.rooms.Keys
    {
      if isInCall {
        EndCall();
      }
      syncActive := false;
      if currentRoom.Some? && currentUser.Some? {
        store.SaveRoom(LeaveUpdate(currentRoom.value, currentUser.value, noticeId, now));
      }
      currentRoom := None;
      currentUser := None;
      StartSync();
    }

    /**
     * `sendMessage()`: in a room and with text left after trimming, appends one text message
     * holding the trimmed text and saves the room; otherwise changes nothing.
     */
    method SendMessage(input: string, messageId: string, now: string) returns (sent: bool)
      requires Valid()
      modifies this`currentRoom, store
      ensures Valid()
      ensures sent <==> old(currentRoom).Some? && old(currentUser).Some? && Trim(input) != []
      ensures sent ==>
        var room := AppendMessage(old(currentRoom).value,
                                  Message(messageId, Text(Trim(input)), old(currentUser).value.name, now));
        currentRoom == Some(room) && store.rooms == Put(old(store.rooms), room)
      ensures !sent ==> currentRoom == old(currentRoom) && store.rooms == old(store.rooms)
    {
      sent := false;
      if currentRoom.None? || currentUser.None? {
        return;
      }
      var content := Trim(input);
      if content == [] {
        return;
      }
      var room := AppendMessage(currentRoom.value, Message(messageId, Text(content), currentUser.value.name, now));
      currentRoom := Some(room);
      store.SaveRoom(room);
      sent := true;
    }

    /**
     * `sendVoiceMessage()`: in a room, appends one voice message carrying the recording and its
     * elapsed time formatted as `M:SS`, and saves the room.
     */
    method SendVoiceMessage(audioUrl: string, elapsedMillis: int, messageId: string, now: string)
      returns (sent: bool)
      requires Valid()
      modifies this`currentRoom, store
      ensures Valid()
      ensures sent <==> old(currentRoom).Some? && old(currentUser).Some?
      ensures sent ==>
        var room := AppendMessage(old(currentRoom).value,
          Message(messageId, Voice(audioUrl, FormatDuration(elapsedMillis)), old(currentUser).value.name, now));
        currentRoom == Some(room) && store.rooms == Put(old(store.rooms), room)
      ensures !sent ==> currentRoom == old(currentRoom) && store.rooms == old(store.rooms)
    {
      sent := false;
      if currentRoom.None? || currentUser.None? {
        return;
      }
      var voice := Voice(audioUrl, FormatDuration(elapsedMillis));
      var room := AppendMessage(currentRoom.value, Message(messageId, voice, currentUser.value.name, now));
      currentRoom := Some(room);
      store.SaveRoom(room);
      sent := true;
    }

    /**
     * `processFiles(files)`: outside a room does nothing; in a room refuses every file over the
     * size limit and starts reading every other one, both in the order given.
     */
    method ProcessFiles(files: seq<FileInfo>) returns (started: seq<FileInfo>, rejected: seq<FileInfo>)
      ensures currentRoom.None? || currentUser.None? ==> started == [] && rejected == []
      ensures currentRoom.Some? && currentUser.Some? ==> started == Accepted(files) && rejected == Rejected(files)
    {
      started, rejected := [], [];
      if currentRoom.None? || currentUser.None? {
        return;
      }
      for i := 0 to |files|
        invariant started == Accepted(files[..i])
        invariant rejected == Rejected(files[..i])
      {
        assert files[..i + 1][..i] == files[..i];
        if files[i].size > MaxFileSize {
          rejected := rejected + [files[i]];
          continue;
        }
        started := started + [files[i]];
      }
      assert files[..|files|] == files;
    }

    /**
     * The completion of one file read started by `ProcessFiles`: appends the file message and
     * saves the room. Without a signed-in user the callback fails before changing anything.
     */
    method OnFileLoaded(load: FileLoad)
      requires Valid()
      modifies this`currentRoom, store
      ensures Valid()
      ensures old(currentUser).Some? ==>
        var room := AppendMessage(old(currentRoom).value,
          FileMessage(load.file, load.dataUrl, load.id, old(currentUser).value.name, load.timestamp));
        currentRoom == Some(room) && store.rooms == Put(old(store.rooms), room)
      ensures old(currentUser).None? ==> currentRoom == old(currentRoom) && store.rooms == old(store.rooms)
    {
      if currentUser.None? {
        return;
      }
      var sender := currentUser.value.name;
      var room := AppendMessage(currentRoom.value, FileMessage(load.file, load.dataUrl, load.id, sender, load.timestamp));
      currentRoom := Some(room);
      store.SaveRoom(room);
    }

    /** The body of the one-second sync poll; reports whether the view must be redrawn. */
    method PollTick() returns (rerender: bool)
      requires Valid()
      modifies this`currentRoom
      ensures Valid()
      ensures currentRoom == Reconcile(old(currentRoom), store.rooms)
      ensures rerender <==> currentRoom != old(currentRoom)
    {
      rerender := false;
      if currentRoom.Some? {
        var updated := store.GetRoom(currentRoom.value.code);
        if updated.Some? && updated.value != currentRoom.value {
          currentRoom := updated;
          rerender := true;
        }
      }
    }

    /**
     * `handleStorageChange(e)`: another tab rewrote the directory; `newValue` is its new
     * contents (`None` when the entry was removed, which reads as an empty directory).
     */
    method HandleStorageChange(key: string, newValue: Option<map<string, Room>>) returns (rerender: bool)
      requires Valid()
      modifies this`currentRoom
      ensures Valid()
      ensures var rooms := if newValue.Some? then newValue.value else map[];
        currentRoom == if key == StorageKey then Reconcile(old(currentRoom), rooms) else old(currentRoom)
      ensures var rooms := if newValue.Some? then newValue.value else map[];
        rerender <==> key == StorageKey && old(currentRoom).Some? && old(currentRoom).value.code in rooms
    {
      rerender := false;
      if key == StorageKey && currentRoom.Some? {
        var rooms := if newValue.Some? then newValue.value else map[];
        var updated := Lookup(rooms, currentRoom.value.code);
        if updated.Some? {
          currentRoom := updated;
          rerender := true;
        }
      }
    }
  }
}
