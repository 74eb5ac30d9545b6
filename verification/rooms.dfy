/**
 * The records stored per room: participants, messages and the room itself, with the
 * pure updates that the session applies to a room.
 */
module Rooms {
  import opened Files

  datatype Role = CreatorRole | ParticipantRole

  /** A user's membership of one room for one session. */
  datatype Participant = Participant(id: string, name: string, currentRoom: string, role: Role)

  /** The kinds of message, one variant per value of the stored `type` field. */
  datatype MessageBody =
    | SystemNotice(content: string)
    | Text(content: string)
    | Voice(audioUrl: string, duration: string)
    | File(fileName: string, fileSize: nat, fileType: string, fileUrl: string)

  datatype Message = Message(id: string, body: MessageBody, sender: string, timestamp: string)

  datatype Room = Room(
    code: string,
    created: string,
    participants: seq<Participant>,
    messages: seq<Message>,
    active: bool)

  /** The sender name written on every system notice. */
  const SystemSender: string := "System"

  function SystemMessage(id: string, content: string, timestamp: string): Message {
    Message(id, SystemNotice(content), SystemSender, timestamp)
  }

  function CreatedNotice(code: string): string { "Room " + code + " created" }
  function JoinedNotice(name: string): string { name + " joined the room" }
  function LeftNotice(name: string): string { name + " left the room" }

  /** The room `createRoom` builds; `created` and `noticeTime` are two separate clock readings. */
  function NewRoom(code: string, created: string, noticeId: string, noticeTime: string, creator: Participant): Room {
    Room(code, created, [creator], [SystemMessage(noticeId, CreatedNotice(code), noticeTime)], true)
  }

  /** A room with one more message at the end of its history. */
  function AppendMessage(room: Room, m: Message): Room {
    room.(messages := room.messages + [m])
  }

  /** The room after `joinRoom`: the newcomer at the end of the list, then a join notice. */
  function AddParticipant(room: Room, user: Participant, noticeId: string, timestamp: string): Room {
    AppendMessage(
      room.(participants := room.participants + [user]),
      SystemMessage(noticeId, JoinedNotice(user.name), timestamp))
  }

  /** What joining does to a room: the newcomer at the end of the list, one join notice after the unchanged history. */
  lemma JoinEffects(room: Room, user: Participant, noticeId: string, timestamp: string)
    ensures var r := AddParticipant(room, user, noticeId, timestamp);
      && r.code == room.code && r.created == room.created && r.active == room.active
      && r.participants == room.participants + [user]
      && |r.messages| == |room.messages| + 1
      && r.messages[..|room.messages|] == room.messages
      && r.messages[|room.messages|].body == SystemNotice(JoinedNotice(user.name))
  {
  }

  /** `participants.filter(p => p.id !== id)`. */
  function WithoutParticipant(ps: seq<Participant>, id: string): (r: seq<Participant>)
    ensures |r| <= |ps|
  {
    if ps == [] then []
    else (if ps[0].id == id then [] else [ps[0]]) + WithoutParticipant(ps[1..], id)
  }

  /** Exactly the participants with another id survive the filter. */
  lemma {:induction false} WithoutParticipantMembers(ps: seq<Participant>, id: string, p: Participant)
    ensures p in WithoutParticipant(ps, id) <==> p in ps && p.id != id
  {
    if ps != [] {
      WithoutParticipantMembers(ps[1..], id, p);
      assert ps == [ps[0]] + ps[1..];
    }
  }

  /** The filter keeps order: filtering a concatenation is concatenating the filtered parts. */
  lemma {:induction false} WithoutParticipantDistributes(a: seq<Participant>, b: seq<Participant>, id: string)
    ensures WithoutParticipant(a + b, id) == WithoutParticipant(a, id) + WithoutParticipant(b, id)
  {
    if a != [] {
      assert (a + b)[1..] == a[1..] + b;
      WithoutParticipantDistributes(a[1..], b, id);
    } else {
      assert a + b == b;
    }
  }

  /** A list in which nobody has the id is left exactly as it was. */
  lemma {:induction false} WithoutAbsentParticipant(ps: seq<Participant>, id: string)
    requires forall p :: p in ps ==> p.id != id
    ensures WithoutParticipant(ps, id) == ps
  {
    if ps != [] {
      assert forall p :: p in ps[1..] ==> p in ps;
      WithoutAbsentParticipant(ps[1..], id);
      assert [ps[0]] + ps[1..] == ps;
    }
  }

  /**
   * The room after `leaveRoom`: a leave notice at the end of the history, every participant
   * with the leaver's id removed, and the room deactivated when nobody is left.
   */
  function LeaveUpdate(room: Room, user: Participant, noticeId: string, timestamp: string): Room {
    var remaining := WithoutParticipant(room.participants, user.id);
    AppendMessage(
      room.(participants := remaining, active := if |remaining| == 0 then false else room.active),
      SystemMessage(noticeId, LeftNotice(user.name), timestamp))
  }

  /** What leaving does to a room, stated without the update's own shape. */
  lemma LeaveEffects(room: Room, user: Participant, noticeId: string, timestamp: string)
    ensures var r := LeaveUpdate(room, user, noticeId, timestamp);
      && r.code == room.code && r.created == room.created
      && |r.messages| == |room.messages| + 1
      && r.messages[..|room.messages|] == room.messages
      && r.messages[|room.messages|].body == SystemNotice(LeftNotice(user.name))
      && (forall p :: p in r.participants <==> p in room.participants && p.id != user.id)
      && (r.active <==> room.active && r.participants != [])
  {
    forall p {
      WithoutParticipantMembers(room.participants, user.id, p);
    }
  }

  /** The last participant to leave deactivates the room. */
  lemma LastLeaverDeactivates(room: Room, user: Participant, noticeId: string, timestamp: string)
    requires forall p :: p in room.participants ==> p.id == user.id
    ensures !LeaveUpdate(room, user, noticeId, timestamp).active
  {
    WithoutEveryone(room.participants, user.id);
  }

  lemma {:induction false} WithoutEveryone(ps: seq<Participant>, id: string)
    requires forall p :: p in ps ==> p.id == id
    ensures WithoutParticipant(ps, id) == []
  {
    if ps != [] {
      assert ps[0] in ps;
      assert forall p :: p in ps[1..] ==> p in ps;
      WithoutEveryone(ps[1..], id);
    }
  }

  /** Everybody with another id stays, in the same relative order. */
  lemma LeavingKeepsOthers(before: seq<Participant>, leaver: Participant, after: seq<Participant>)
    requires forall p :: p in before ==> p.id != leaver.id
    requires forall p :: p in after ==> p.id != leaver.id
    ensures WithoutParticipant(before + [leaver] + after, leaver.id) == before + after
  {
    var id := leaver.id;
    var front := before + [leaver];
    assert WithoutParticipant(front, id) == before by {
      WithoutParticipantDistributes(before, [leaver], id);
      WithoutAbsentParticipant(before, id);
      WithoutEveryone([leaver], id);
      assert before + [] == before;
    }
    WithoutParticipantDistributes(front, after, id);
    WithoutAbsentParticipant(after, id);
  }

  /** The message `processFiles` appends once a file has been read as a data URL. */
  function FileMessage(file: FileInfo, dataUrl: string, id: string, sender: string, timestamp: string): Message {
    Message(id, File(file.name, file.size, GetFileType(file.name), dataUrl), sender, timestamp)
  }

  /** One completed file read: the file, its contents as a data URL, and the id and time of its message. */
  datatype FileLoad = FileLoad(file: FileInfo, dataUrl: string, id: string, timestamp: string)

  function LoadedFiles(loads: seq<FileLoad>): (r: seq<FileInfo>)
    ensures |r| == |loads|
  {
    if loads == [] then [] else LoadedFiles(loads[..|loads| - 1]) + [loads[|loads| - 1].file]
  }

  /** The room after the reads complete in the order given, each appending its file message. */
  function DeliverLoads(room: Room, sender: string, loads: seq<FileLoad>): Room {
    if loads == [] then room
    else
      var l := loads[|loads| - 1];
      AppendMessage(DeliverLoads(room, sender, loads[..|loads| - 1]), FileMessage(l.file, l.dataUrl, l.id, sender, l.timestamp))
  }

  /** Name and size of every file message in a history, in order. */
  function SentFiles(ms: seq<Message>): seq<FileInfo> {
    if ms == [] then []
    else
      var m := ms[|ms| - 1];
      SentFiles(ms[..|ms| - 1]) + (if m.body.File? then [FileInfo(m.body.fileName, m.body.fileSize)] else [])
  }

  /** The file messages of a batch of reads, in completion order. */
  function FileMessages(sender: string, loads: seq<FileLoad>): (r: seq<Message>)
    ensures |r| == |loads|
    ensures forall k :: 0 <= k < |r| ==> r[k].body.File?
  {
    if loads == [] then []
    else
      var l := loads[|loads| - 1];
      FileMessages(sender, loads[..|loads| - 1]) + [FileMessage(l.file, l.dataUrl, l.id, sender, l.timestamp)]
  }

  /** Delivering the reads one by one appends their file messages and changes nothing else. */
  lemma {:induction false} DeliverLoadsAppends(room: Room, sender: string, loads: seq<FileLoad>)
    ensures DeliverLoads(room, sender, loads) == room.(messages := room.messages + FileMessages(sender, loads))
  {
    if loads == [] {
      assert room.messages + [] == room.messages;
    } else {
      var init := loads[..|loads| - 1];
      DeliverLoadsAppends(room, sender, init);
      var fm := FileMessages(sender, init);
      var l := loads[|loads| - 1];
      assert room.messages + fm + [FileMessage(l.file, l.dataUrl, l.id, sender, l.timestamp)]
          == room.messages + FileMessages(sender, loads);
    }
  }

  /** The file messages of a batch name exactly the loaded files, in the same order. */
  lemma {:induction false} SentFilesOfLoads(sender: string, loads: seq<FileLoad>)
    ensures SentFiles(FileMessages(sender, loads)) == LoadedFiles(loads)
  {
    if loads != [] {
      var init := loads[..|loads| - 1];
      SentFilesOfLoads(sender, init);
      var fm := FileMessages(sender, loads);
      assert fm[..|fm| - 1] == FileMessages(sender, init);
    }
  }

  /**
   * Whatever order the reads complete in, a batch of uploads adds exactly one file message per
   * accepted file, with its name and size, and none for a file over the limit; the earlier
   * history and every other field of the room are untouched.
   */
  lemma UploadBatch(room: Room, sender: string, files: seq<FileInfo>, loads: seq<FileLoad>)
    requires multiset(LoadedFiles(loads)) == multiset(Accepted(files))
    ensures var r := DeliverLoads(room, sender, loads);
      && r.(messages := room.messages) == room
      && |r.messages| == |room.messages| + |Accepted(files)|
      && r.messages[..|room.messages|] == room.messages
      && (forall k :: |room.messages| <= k < |r.messages| ==> r.messages[k].body.File?)
      && (forall f :: multiset(SentFiles(r.messages[|room.messages|..]))[f]
                      == if WithinLimit(f) then multiset(files)[f] else 0)
  {
    DeliverLoadsAppends(room, sender, loads);
    SentFilesOfLoads(sender, loads);
    var r := DeliverLoads(room, sender, loads);
    var added := FileMessages(sender, loads);
    assert r.messages[|room.messages|..] == added;
    assert r.messages[..|room.messages|] == room.messages;
    assert |LoadedFiles(loads)| == |Accepted(files)| by {
      assert |multiset(LoadedFiles(loads))| == |multiset(Accepted(files))|;
    }
    forall k | |room.messages| <= k < |r.messages| ensures r.messages[k].body.File? {
      assert r.messages[k] == added[k - |room.messages|];
    }
    forall f ensures multiset(SentFiles(added))[f] == if WithinLimit(f) then multiset(files)[f] else 0 {
      AcceptedCount(files, f);
    }
  }
}
