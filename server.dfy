/**
  The room synchronisation engine of the collaboration server (server.js).

  The server keeps three dictionaries keyed by room id (the latest code, the
  latest language and the chat transcript of every room) and relies on the
  socket.io adapter's per-room member sets.  Every socket event handler runs
  to completion on the single-threaded event loop, so each handler is one
  method of `RoomServer` that updates those fields and returns the outbound
  deliveries it emits.
 */
module Server {

  import opened Wrappers

  /** Room ids and socket ids are opaque strings, compared only for equality. */
  type RoomId = string
  type ConnId = string

  /** A chat message is a payload the server stores and forwards without looking inside. */
  type Message = string

  /** The events the server emits to clients. */
  datatype Event =
    | EditorInitialization(room: RoomId)
    | EditorUpdateReturn(room: RoomId, value: string)
    | ChatHistory(room: RoomId, messages: seq<Message>)
    | LanguageUpdateReturn(room: RoomId, language: string)
    | ChatMessageReturn(room: RoomId, message: Message)

  /** One outbound event addressed to one socket. */
  datatype Delivery = Delivery(to: ConnId, event: Event)

  type Rooms = map<RoomId, set<ConnId>>
  type Transcripts = map<RoomId, seq<Message>>

  // ---------------------------------------------------------------------------
  // Room membership (the socket.io adapter)
  // ---------------------------------------------------------------------------

  /** The members of room `r`; a room the adapter does not know has none. */
  function MembersOf(rooms: Rooms, r: RoomId): set<ConnId> {
    if r in rooms then rooms[r] else {}
  }

  /** `users ? users.size : 0` with `users = adapter.rooms.get(r)`. */
  function MemberCount(rooms: Rooms, r: RoomId): (n: nat)
    ensures n == |MembersOf(rooms, r)|
    ensures r !in rooms ==> n == 0
  {
    var users := if r in rooms then Some(rooms[r]) else None;
    if users.Some? then |users.value| else 0
  }

  /** The adapter never keeps a room whose member set is empty. */
  ghost predicate NoEmptyRooms(rooms: Rooms) {
    forall r :: r in rooms ==> rooms[r] != {}
  }

  /** `socket.join(r)`: add `c` to room `r`, creating the room when it is new. */
  function AddMember(rooms: Rooms, r: RoomId, c: ConnId): (rooms': Rooms)
    ensures MembersOf(rooms', r) == MembersOf(rooms, r) + {c}
    ensures forall q :: q != r ==> MembersOf(rooms', q) == MembersOf(rooms, q)
    ensures MemberCount(rooms', r) == MemberCount(rooms, r) + (if c in MembersOf(rooms, r) then 0 else 1)
    ensures NoEmptyRooms(rooms) ==> NoEmptyRooms(rooms')
  {
    rooms[r := MembersOf(rooms, r) + {c}]
  }

  /**
    What socket.io does when a socket disconnects: the socket leaves every
    room it is in, and a room left without members is dropped.
   */
  function RemoveConnection(rooms: Rooms, c: ConnId): (rooms': Rooms)
    ensures forall q :: MembersOf(rooms', q) == MembersOf(rooms, q) - {c}
    ensures forall q :: c in MembersOf(rooms, q) ==> MemberCount(rooms', q) == MemberCount(rooms, q) - 1
    ensures forall q :: c !in MembersOf(rooms, q) ==> MemberCount(rooms', q) == MemberCount(rooms, q)
    ensures NoEmptyRooms(rooms')
  {
    var rooms' := map q | q in rooms && rooms[q] - {c} != {} :: rooms[q] - {c};
    assert forall q :: MembersOf(rooms', q) == MembersOf(rooms, q) - {c} by {
      forall q ensures MembersOf(rooms', q) == MembersOf(rooms, q) - {c} {
        if q in rooms && rooms[q] - {c} == {} {
          assert MembersOf(rooms', q) == {};
        }
      }
    }
    assert forall q :: c in MembersOf(rooms, q) ==> MemberCount(rooms', q) == MemberCount(rooms, q) - 1 by {
      forall q | c in MembersOf(rooms, q)
        ensures MemberCount(rooms', q) == MemberCount(rooms, q) - 1
      {
        var s := MembersOf(rooms, q);
        assert s == (s - {c}) + {c};
      }
    }
    rooms'
  }

  // ---------------------------------------------------------------------------
  // Room state dictionaries
  // ---------------------------------------------------------------------------

  /** JavaScript truthiness of `m[r]` for a string-valued dictionary: present and non-empty. */
  predicate Truthy(m: map<RoomId, string>, r: RoomId) {
    r in m && m[r] != ""
  }

  /** The transcript of room `r`, empty when the room has none yet. */
  function TranscriptOf(t: Transcripts, r: RoomId): seq<Message> {
    if r in t then t[r] else []
  }

  /** A transcript only comes into being when its first message arrives. */
  ghost predicate TranscriptsNonEmpty(t: Transcripts) {
    forall r :: r in t ==> t[r] != []
  }

  /** The `chat-message` update: create the transcript if needed, then push `m`. */
  function AppendMessage(t: Transcripts, r: RoomId, m: Message): (t': Transcripts)
    ensures t'.Keys == t.Keys + {r}
    ensures TranscriptOf(t', r) == TranscriptOf(t, r) + [m]
    ensures forall q :: q != r ==> (q in t' <==> q in t)
    ensures forall q :: q != r ==> TranscriptOf(t', q) == TranscriptOf(t, q)
    ensures TranscriptsNonEmpty(t) ==> TranscriptsNonEmpty(t')
  {
    var t0 := if r !in t then t[r := []] else t;
    t0[r := t0[r] + [m]]
  }

  /** The transcripts after the chat messages `ms` for room `r` arrive, in that order. */
  function ReceiveAll(t: Transcripts, r: RoomId, ms: seq<Message>): Transcripts
    decreases |ms|
  {
    if ms == [] then t else ReceiveAll(AppendMessage(t, r, ms[0]), r, ms[1..])
  }

  /** The transcript lists messages in the order the server received them, after the earlier ones. */
  lemma {:induction false} TranscriptIsArrivalOrder(t: Transcripts, r: RoomId, ms: seq<Message>)
    ensures TranscriptOf(ReceiveAll(t, r, ms), r) == TranscriptOf(t, r) + ms
    decreases |ms|
  {
    if ms != [] {
      var t' := AppendMessage(t, r, ms[0]);
      TranscriptIsArrivalOrder(t', r, ms[1..]);
      assert TranscriptOf(t', r) + ms[1..] == TranscriptOf(t, r) + ms by {
        assert ms == [ms[0]] + ms[1..];
      }
    }
  }

  /** Chat messages for room `r` leave the transcripts of every other room as they were. */
  lemma {:induction false} ReceiveAllOtherRooms(t: Transcripts, r: RoomId, ms: seq<Message>, q: RoomId)
    requires q != r
    ensures TranscriptOf(ReceiveAll(t, r, ms), q) == TranscriptOf(t, q)
    ensures q in ReceiveAll(t, r, ms) <==> q in t
    decreases |ms|
  {
    if ms != [] {
      ReceiveAllOtherRooms(AppendMessage(t, r, ms[0]), r, ms[1..], q);
    }
  }

  // ---------------------------------------------------------------------------
  // What a joining socket is sent
  // ---------------------------------------------------------------------------

  function Count(b: bool): nat { if b then 1 else 0 }

  /**
    The events the `join-room` handler emits to the joiner, given the member
    count it read before the join and the three dictionaries.
   */
  function JoinReply(userCount: nat, r: RoomId, code: map<RoomId, string>,
                     transcripts: Transcripts, lang: map<RoomId, string>): (evs: seq<Event>)
    ensures forall i :: 0 <= i < |evs| ==> evs[i].room == r
    ensures userCount == 1 ==> evs == [EditorInitialization(r)]
    ensures userCount != 1 ==>
      forall i :: 0 <= i < |evs| ==>
        evs[i].EditorUpdateReturn? || evs[i].ChatHistory? || evs[i].LanguageUpdateReturn?
    ensures userCount != 1 ==>
      forall v :: EditorUpdateReturn(r, v) in evs <==> Truthy(code, r) && v == code[r]
    ensures userCount != 1 ==>
      forall h :: ChatHistory(r, h) in evs <==> r in transcripts && h == transcripts[r]
    ensures userCount != 1 ==>
      forall l :: LanguageUpdateReturn(r, l) in evs <==> Truthy(lang, r) && l == lang[r]
    ensures userCount != 1 ==>
      |evs| == Count(Truthy(code, r)) + Count(r in transcripts) + Count(Truthy(lang, r))
    ensures TranscriptsNonEmpty(transcripts) ==> forall h :: ChatHistory(r, h) in evs ==> h != []
  {
    if userCount == 1 then
      [EditorInitialization(r)]
    else
      var e0: seq<Event> := [];
      var e1 := if Truthy(code, r) then e0 + [EditorUpdateReturn(r, code[r])] else e0;
      var e2 := if r in transcripts then e1 + [ChatHistory(r, transcripts[r])] else e1;
      if Truthy(lang, r) then e2 + [LanguageUpdateReturn(r, lang[r])] else e2
  }

  /** `socket.emit(e)` for each event `e` of `evs`, in order. */
  function ToSocket(c: ConnId, evs: seq<Event>): (out: seq<Delivery>)
    ensures |out| == |evs|
    ensures forall i :: 0 <= i < |out| ==> out[i] == Delivery(c, evs[i])
  {
    seq(|evs|, i requires 0 <= i < |evs| => Delivery(c, evs[i]))
  }

  // ---------------------------------------------------------------------------
  // Broadcast to a room (`io.to(r).emit(e)`)
  // ---------------------------------------------------------------------------

  /** `out` delivers `e` exactly once to every socket in `members` and to nobody else. */
  ghost predicate IsBroadcast(out: seq<Delivery>, members: set<ConnId>, e: Event) {
    && |out| == |members|
    && (forall i :: 0 <= i < |out| ==> out[i].to in members && out[i].event == e)
    && (forall c :: c in members ==> Delivery(c, e) in out)
    && DistinctRecipients(out)
  }

  /** No socket is addressed twice. */
  ghost predicate DistinctRecipients(out: seq<Delivery>) {
    forall i, j :: 0 <= i < j < |out| ==> out[i].to != out[j].to
  }

  lemma AppendNewRecipient(out: seq<Delivery>, d: Delivery)
    requires DistinctRecipients(out)
    requires forall i :: 0 <= i < |out| ==> out[i].to != d.to
    ensures DistinctRecipients(out + [d])
  {
  }

  /** The adapter's broadcast: one delivery of `e` per member, in no particular order. */
  method FanOut(members: set<ConnId>, e: Event) returns (out: seq<Delivery>)
    ensures IsBroadcast(out, members, e)
  {
    out := [];
    var rest := members;
    ghost var done: set<ConnId> := {};
    while rest != {}
      invariant done == members - rest && rest <= members
      invariant |out| == |done|
      invariant forall i :: 0 <= i < |out| ==> out[i].to in done && out[i].event == e
      invariant forall c :: c in done ==> Delivery(c, e) in out
      invariant DistinctRecipients(out)
      decreases rest
    {
      var c :| c in rest;
      assert c !in done;
      AppendNewRecipient(out, Delivery(c, e));
      out := out + [Delivery(c, e)];
      rest := rest - {c};
      done := done + {c};
    }
  }

  // ---------------------------------------------------------------------------
  // The server
  // ---------------------------------------------------------------------------

  class RoomServer {
    /** Latest code of each room. */
    var roomData: map<RoomId, string>
    /** Latest language of each room. */
    var roomLang: map<RoomId, string>
    /** Chat transcript of each room. */
    var roomMessages: Transcripts
    /** The socket.io adapter's member set of each room. */
    var rooms: Rooms

    ghost predicate Valid()
      reads this
    {
      TranscriptsNonEmpty(roomMessages) && NoEmptyRooms(rooms)
    }

    /** The server starts with empty dictionaries and no rooms. */
    constructor ()
      ensures Valid()
      ensures roomData == map[] && roomLang == map[] && roomMessages == map[] && rooms == map[]
    {
      roomData, roomLang, roomMessages, rooms := map[], map[], map[], map[];
    }

    /** `join-room`: read the member count, join, then initialise or send the snapshot. */
    method JoinRoom(socket: ConnId, roomId: RoomId) returns (out: seq<Delivery>)
      requires Valid()
      modifies this
      ensures Valid()
      ensures rooms == AddMember(old(rooms), roomId, socket)
      ensures roomData == old(roomData) && roomLang == old(roomLang) && roomMessages == old(roomMessages)
      ensures out == ToSocket(socket, JoinReply(MemberCount(old(rooms), roomId), roomId, roomData, roomMessages, roomLang))
    {
      var userCount := MemberCount(rooms, roomId);
      rooms := AddMember(rooms, roomId, socket);
      var events: seq<Event> := [];
      if userCount == 1 {
        events := [EditorInitialization(roomId)];
      } else {
        if Truthy(roomData, roomId) {
          events := events + [EditorUpdateReturn(roomId, roomData[roomId])];
        }
        if roomId in roomMessages {
          events := events + [ChatHistory(roomId, roomMessages[roomId])];
        }
        if Truthy(roomLang, roomId) {
          events := events + [LanguageUpdateReturn(roomId, roomLang[roomId])];
        }
      }
      out := ToSocket(socket, events);
    }

    /** `chat-message`: append to the room's transcript and echo to every member, the sender included. */
    method ChatMessage(socket: ConnId, room: RoomId, message: Message) returns (out: seq<Delivery>)
      requires Valid()
      modifies this
      ensures Valid()
      ensures roomMessages == AppendMessage(old(roomMessages), room, message)
      ensures roomData == old(roomData) && roomLang == old(roomLang) && rooms == old(rooms)
      ensures IsBroadcast(out, MembersOf(rooms, room), ChatMessageReturn(room, message))
      ensures Delivery(socket, ChatMessageReturn(room, message)) in out <==> socket in MembersOf(rooms, room)
    {
      if room !in roomMessages {
        roomMessages := roomMessages[room := []];
      }
      roomMessages := roomMessages[room := roomMessages[room] + [message]];
      out := FanOut(MembersOf(rooms, room), ChatMessageReturn(room, message));
    }

    /** `editor-update`: store the code and send it to every member, the sender included. */
    method EditorUpdate(socket: ConnId, room: RoomId, value: string) returns (out: seq<Delivery>)
      requires Valid()
      modifies this
      ensures Valid()
      ensures roomData == old(roomData)[room := value]
      ensures roomLang == old(roomLang) && roomMessages == old(roomMessages) && rooms == old(rooms)
      ensures IsBroadcast(out, MembersOf(rooms, room), EditorUpdateReturn(room, value))
      ensures Delivery(socket, EditorUpdateReturn(room, value)) in out <==> socket in MembersOf(rooms, room)
    {
      roomData := roomData[room := value];
      out := FanOut(MembersOf(rooms, room), EditorUpdateReturn(room, value));
    }

    /** `language-update`: store the language and send it to every member, the sender included. */
    method LanguageUpdate(socket: ConnId, room: RoomId, language: string) returns (out: seq<Delivery>)
      requires Valid()
      modifies this
      ensures Valid()
      ensures roomLang == old(roomLang)[room := language]
      ensures roomData == old(roomData) && roomMessages == old(roomMessages) && rooms == old(rooms)
      ensures IsBroadcast(out, MembersOf(rooms, room), LanguageUpdateReturn(room, language))
      ensures Delivery(socket, LanguageUpdateReturn(room, language)) in out <==> socket in MembersOf(rooms, room)
    {
      roomLang := roomLang[room := language];
      out := FanOut(MembersOf(rooms, room), LanguageUpdateReturn(room, language));
    }

    /**
      `disconnect`: the handler itself only logs; socket.io removes the socket
      from its rooms.  No room state changes and nothing is sent.
     */
    method Disconnect(socket: ConnId) returns (out: seq<Delivery>)
      requires Valid()
      modifies this
      ensures Valid()
      ensures rooms == RemoveConnection(old(rooms), socket)
      ensures roomData == old(roomData) && roomLang == old(roomLang) && roomMessages == old(roomMessages)
      ensures out == []
    {
      rooms := RemoveConnection(rooms, socket);
      out := [];
    }
  }

  /**
    The opening of a session in a fresh server: X joins room r, X sends code,
    Y joins and Y chats.  As the handlers are written, the very first joiner
    gets nothing back from its join and the second gets `editor-initialization`
    rather than the code X sent.
   */
  method SessionOpening(x: ConnId, y: ConnId, r: RoomId, code: string, msg: Message)
    returns (s: RoomServer, x1: seq<Delivery>, x2: seq<Delivery>, y1: seq<Delivery>, y2: seq<Delivery>)
    requires x != y
    ensures fresh(s) && s.Valid()
    ensures x1 == []
    ensures x2 == [Delivery(x, EditorUpdateReturn(r, code))]
    ensures y1 == [Delivery(y, EditorInitialization(r))]
    ensures |y2| == 2
    ensures Delivery(x, ChatMessageReturn(r, msg)) in y2
    ensures Delivery(y, ChatMessageReturn(r, msg)) in y2
    ensures MembersOf(s.rooms, r) == {x, y}
    ensures r in s.roomData && s.roomData[r] == code
    ensures r in s.roomMessages && s.roomMessages[r] == [msg]
    ensures r !in s.roomLang
  {
    s := new RoomServer();
    x1 := s.JoinRoom(x, r);
    x2 := s.EditorUpdate(x, r, code);
    assert MembersOf(s.rooms, r) == {x};
    assert x2[0].to == x;
    y1 := s.JoinRoom(y, r);
    y2 := s.ChatMessage(y, r, msg);
  }

  /** A third socket joining after that opening is the first to receive the stored code and transcript. */
  method SessionThirdJoin(x: ConnId, y: ConnId, z: ConnId, r: RoomId, code: string, msg: Message)
    returns (z1: seq<Delivery>)
    requires x != y && z != x && z != y
    requires code != ""
    ensures z1 == [Delivery(z, EditorUpdateReturn(r, code)), Delivery(z, ChatHistory(r, [msg]))]
  {
    var s, _, _, _, _ := SessionOpening(x, y, r, code, msg);
    assert MemberCount(s.rooms, r) == 2;
    z1 := s.JoinRoom(z, r);
  }

  /**
    The branch a joiner takes depends on the member count it finds, not on how
    many sockets joined before it.  X joins, sends code and disconnects; the
    room empties but keeps its code, so Z, joining at count 0, receives that
    code.
   */
  method SessionRejoinEmptiedRoom(x: ConnId, z: ConnId, r: RoomId, code: string)
    returns (z1: seq<Delivery>)
    requires x != z
    requires code != ""
    ensures z1 == [Delivery(z, EditorUpdateReturn(r, code))]
  {
    var s := new RoomServer();
    var _ := s.JoinRoom(x, r);
    var _ := s.EditorUpdate(x, r, code);
    assert MembersOf(s.rooms, r) == {x};
    var _ := s.Disconnect(x);
    assert MemberCount(s.rooms, r) == 0;
    z1 := s.JoinRoom(z, r);
  }

  /** A, B and C join room r of a fresh server, then B and C disconnect: only A is left. */
  method SessionTwoLeave(a: ConnId, b: ConnId, c: ConnId, r: RoomId) returns (s: RoomServer)
    requires a != b && a != c && b != c
    ensures fresh(s) && s.Valid()
    ensures MembersOf(s.rooms, r) == {a}
  {
    s := new RoomServer();
    var _ := s.JoinRoom(a, r);
    assert MembersOf(s.rooms, r) == {a};
    var _ := s.JoinRoom(b, r);
    assert MembersOf(s.rooms, r) == {a, b};
    var _ := s.JoinRoom(c, r);
    assert MembersOf(s.rooms, r) == {a, b, c};
    var _ := s.Disconnect(b);
    assert MembersOf(s.rooms, r) == {a, c};
    var _ := s.Disconnect(c);
  }

  /**
    After that, D, the fourth socket to join, finds one member and so
    receives `editor-initialization` rather than the room's snapshot.
   */
  method SessionFourthJoinAtOne(a: ConnId, b: ConnId, c: ConnId, d: ConnId, r: RoomId)
    returns (d1: seq<Delivery>)
    requires a != b && a != c && a != d && b != c && b != d && c != d
    ensures d1 == [Delivery(d, EditorInitialization(r))]
  {
    var s := SessionTwoLeave(a, b, c, r);
    assert MemberCount(s.rooms, r) == 1;
    d1 := s.JoinRoom(d, r);
  }
}
