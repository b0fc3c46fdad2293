/** The real-time session engine of `server/src/socket/socketHandler.js`:
    the connection gate, the per-document registry of participants
    (`documentRooms`), and who receives which event from each handler.

    socket.io's own bookkeeping is modelled by each connection's set of
    channels: `io.to(d)` reaches every connected socket subscribed to `d`,
    `socket.to(d)` the same minus the sender, and `socket.emit` the sender
    alone. As in socket.io 4, a closing socket leaves all its channels
    before its `disconnect` handler runs. */
module Session {
  import opened Wrappers
  import opened Seqs
  import opened DocumentModel
  import opened Versions

  type SocketId = string

  /** The `cursorColors` palette. */
  const CursorColors: seq<string> :=
    ["#3B82F6", "#EF4444", "#10B981", "#F59E0B", "#8B5CF6", "#EC4899", "#06B6D4", "#84CC16"]

  /** The number of snapshots a socket save keeps. */
  const SaveKeepCount: nat := 50

  /** A cursor position as the client sends it (`{ x, y }`). */
  datatype Position = Position(x: int, y: int)

  /** One registry entry. `userId` is the id the client put in its
      `join-document` message (sent as the field `oduserId`), not the id the
      gate authenticated. */
  datatype Participant = Participant(
    userId: UserId,
    userName: string,
    socketId: SocketId,
    color: string,
    cursorPosition: Option<Position>)

  /** What the server knows of one connected socket: the authenticated
      user, the `documentId` and `userName` the handlers store on it, and
      the channels it is subscribed to. */
  datatype Connection = Connection(
    userId: UserId,
    documentId: Option<DocId>,
    userName: Option<string>,
    channels: set<DocId>)

  datatype OutEvent =
    | UserJoined(users: seq<Participant>)
    | UserLeft(users: seq<Participant>)
    | ContentChanged(content: string, userId: UserId)
    | UserTyping(userId: UserId, userName: string)
    | CursorMoved(userId: UserId, userName: string, position: Option<Position>, color: string)
    | DocumentSaved(savedBy: Option<string>, savedAt: nat)
    | SaveError(message: string)

  /** One `emit`: the sockets it reaches and the event. */
  datatype Delivery = Delivery(recipients: set<SocketId>, event: OutEvent)

  /** Which persistence step of a socket save throws, if any. */
  datatype SaveFault = NoFault | WriteFails | SnapshotFails | CleanupFails

  // ---------------------------------------------------------------------
  // One room: a `Map` from socket id to participant, in insertion order.

  function KeyOf(p: Participant): SocketId {
    p.socketId
  }

  /** The keys of a room, in insertion order (`room.keys()`). */
  function KeysOf(room: seq<Participant>): seq<SocketId> {
    Map(room, KeyOf)
  }

  /** `room.has(sid)`. */
  predicate HasKey(room: seq<Participant>, sid: SocketId) {
    sid in KeysOf(room)
  }

  predicate DifferentSocket(a: Participant, b: Participant) {
    a.socketId != b.socketId
  }

  /** No socket id occurs twice, as in a `Map`. */
  ghost predicate UniqueKeys(room: seq<Participant>) {
    Pairwise(room, DifferentSocket)
  }

  /** The position of `sid` in the room. */
  function KeyIndex(room: seq<Participant>, sid: SocketId): (r: Option<nat>)
    ensures r.None? <==> !HasKey(room, sid)
    ensures r.Some? ==> r.value < |room| && room[r.value].socketId == sid
    decreases |room|
  {
    if room == [] then None
    else if room[0].socketId == sid then
      assert KeysOf(room)[0] == sid;
      Some(0)
    else
      var rest := KeyIndex(room[1..], sid);
      assert forall i :: 0 < i < |room| ==> KeysOf(room)[i] == KeysOf(room[1..])[i - 1];
      match rest
      case None => None
      case Some(i) => Some(i + 1)
  }

  /** `room.set(p.socketId, p)`: a new key goes at the end; an existing key
      keeps its place and gets the new value. */
  function Upsert(room: seq<Participant>, p: Participant): (r: seq<Participant>)
    ensures HasKey(room, p.socketId) ==> KeysOf(r) == KeysOf(room) && |r| == |room|
    ensures !HasKey(room, p.socketId) ==> KeysOf(r) == KeysOf(room) + [p.socketId] && |r| == |room| + 1
    ensures p in r
    ensures forall i :: 0 <= i < |room| && room[i].socketId != p.socketId ==> r[i] == room[i]
  {
    match KeyIndex(room, p.socketId)
    case None =>
      assert KeysOf(room + [p]) == KeysOf(room) + [p.socketId];
      room + [p]
    case Some(i) =>
      assert KeysOf(room[i := p]) == KeysOf(room);
      room[i := p]
  }

  function NotSocket(sid: SocketId): Participant -> bool {
    (p: Participant) => p.socketId != sid
  }

  /** `room.delete(sid)`. */
  function Remove(room: seq<Participant>, sid: SocketId): (r: seq<Participant>)
    ensures forall p :: p in r <==> p in room && p.socketId != sid
    ensures !HasKey(r, sid)
  {
    var r := Filter(room, NotSocket(sid));
    assert forall k :: k in KeysOf(r) ==> k != sid by {
      forall k | k in KeysOf(r) ensures k != sid {
        var i :| 0 <= i < |r| && KeysOf(r)[i] == k;
        assert r[i] in r;
      }
    }
    r
  }

  /** `cursorPosition` of `sid`'s entry set to `position`; every other
      entry, and every colour, stays as it was. */
  function MoveCursor(room: seq<Participant>, sid: SocketId, position: Option<Position>): (r: seq<Participant>)
    requires HasKey(room, sid) && UniqueKeys(room)
    ensures |r| == |room| && KeysOf(r) == KeysOf(room)
    ensures forall i :: 0 <= i < |room| ==>
      r[i] == if room[i].socketId == sid then room[i].(cursorPosition := position) else room[i]
  {
    var i := KeyIndex(room, sid).value;
    var r := room[i := room[i].(cursorPosition := position)];
    assert KeysOf(r) == KeysOf(room);
    assert forall j :: 0 <= j < |room| && j != i ==> room[j].socketId != sid by {
      forall j | 0 <= j < |room| && j != i ensures room[j].socketId != sid {
        if j < i {
          assert DifferentSocket(room[j], room[i]);
        } else {
          assert DifferentSocket(room[i], room[j]);
        }
      }
    }
    r
  }

  /** The colour stored for `sid`. */
  function ColorOf(room: seq<Participant>, sid: SocketId): string
    requires HasKey(room, sid)
  {
    room[KeyIndex(room, sid).value].color
  }

  /** `cursorColors[n % cursorColors.length]`. */
  function ColorFor(n: nat): (c: string)
    ensures c in CursorColors && c == CursorColors[n % |CursorColors|]
  {
    CursorColors[n % |CursorColors|]
  }

  predicate Palette(room: seq<Participant>) {
    forall i :: 0 <= i < |room| ==> room[i].color in CursorColors
  }

  /** Each room is non-empty, keyed uniquely, and coloured from the
      palette. */
  ghost predicate RoomsOk(rooms: map<DocId, seq<Participant>>) {
    forall d :: d in rooms ==> rooms[d] != [] && UniqueKeys(rooms[d]) && Palette(rooms[d])
  }

  /** `sid` has an entry in the room of `d`. */
  predicate InRoom(rooms: map<DocId, seq<Participant>>, d: DocId, sid: SocketId) {
    d in rooms && HasKey(rooms[d], sid)
  }

  /** The room of `d`, or a fresh empty one (`documentRooms.set(d, new Map())`). */
  function RoomOf(rooms: map<DocId, seq<Participant>>, d: DocId): seq<Participant> {
    if d in rooms then rooms[d] else []
  }

  /** The entry a `join-document` stores: colour from the room's size before
      the insertion, no cursor yet. */
  function Newcomer(rooms: map<DocId, seq<Participant>>, d: DocId, sid: SocketId,
                    userId: UserId, userName: string): (p: Participant)
    ensures p.socketId == sid && p.userId == userId && p.userName == userName
    ensures p.color == CursorColors[|RoomOf(rooms, d)| % 8] && p.cursorPosition.None?
  {
    Participant(userId, userName, sid, ColorFor(|RoomOf(rooms, d)|), None)
  }

  /** The registry after `join-document`. */
  function AfterJoin(rooms: map<DocId, seq<Participant>>, d: DocId, p: Participant): (r: map<DocId, seq<Participant>>)
    ensures d in r && p in r[d] && HasKey(r[d], p.socketId)
    ensures forall e :: e != d ==> (e in r <==> e in rooms) && (e in rooms ==> r[e] == rooms[e])
  {
    var room := Upsert(RoomOf(rooms, d), p);
    assert p.socketId in KeysOf(room) by {
      var i :| 0 <= i < |room| && room[i] == p;
      assert KeysOf(room)[i] == p.socketId;
    }
    rooms[d := room]
  }

  /** The registry after `handleLeaveDocument(d)`: `sid`'s entry is gone,
      an emptied room is deleted, an unknown room is left alone. */
  function AfterLeave(rooms: map<DocId, seq<Participant>>, d: DocId, sid: SocketId): (r: map<DocId, seq<Participant>>)
    ensures !InRoom(r, d, sid)
    ensures d !in rooms ==> r == rooms
    ensures forall e :: e != d ==> (e in r <==> e in rooms) && (e in rooms ==> r[e] == rooms[e])
    ensures d in r ==> d in rooms && r[d] == Remove(rooms[d], sid) && r[d] != []
    ensures d in rooms && d !in r ==> Remove(rooms[d], sid) == []
  {
    if d !in rooms then rooms
    else
      var room := Remove(rooms[d], sid);
      if room == [] then rooms - {d} else rooms[d := room]
  }

  /** The list `handleLeaveDocument(d)` announces as `user-left`, when it
      announces one: only when the room existed and is not emptied. */
  function LeftList(rooms: map<DocId, seq<Participant>>, d: DocId, sid: SocketId): (r: Option<seq<Participant>>)
    ensures r.Some? <==> d in AfterLeave(rooms, d, sid)
    ensures r.Some? ==> r.value == AfterLeave(rooms, d, sid)[d]
  {
    if d in rooms && Remove(rooms[d], sid) != [] then Some(Remove(rooms[d], sid)) else None
  }

  /** The connected sockets subscribed to channel `d` (`io.to(d)`). */
  function Subscribers(sockets: map<SocketId, Connection>, d: DocId): (r: set<SocketId>)
    ensures forall s :: s in r <==> s in sockets && d in sockets[s].channels
  {
    set s | s in sockets && d in sockets[s].channels
  }

  /** The gate of `io.use`: a missing or empty token, or one the verifier
      rejects, refuses the connection; otherwise the decoded id is the
      socket's user. */
  function Admit(token: Option<string>, verify: string -> Option<UserId>): (r: Option<UserId>)
    ensures token.None? || token == Some("") ==> r.None?
    ensures token.Some? && token.value != "" ==> r == verify(token.value)
  {
    if token.None? || token == Some("") then None else verify(token.value)
  }

  // ---------------------------------------------------------------------
  // Facts about the registry operations.

  /** `set` keeps socket ids unique and colours in the palette, and after
      it the key holds exactly the new entry: a re-join replaces the old
      entry (its cursor included) instead of adding a second one. */
  lemma UpsertKeepsRoomOk(room: seq<Participant>, p: Participant)
    requires UniqueKeys(room) && Palette(room) && p.color in CursorColors
    ensures UniqueKeys(Upsert(room, p)) && Palette(Upsert(room, p))
    ensures forall i :: 0 <= i < |Upsert(room, p)| && Upsert(room, p)[i].socketId == p.socketId ==>
              Upsert(room, p)[i] == p
  {
    var r := Upsert(room, p);
    forall i | 0 <= i < |r| ensures r[i].socketId == KeysOf(r)[i] {
    }
    forall i, j | 0 <= i < j < |r| ensures DifferentSocket(r[i], r[j]) {
      if j < |room| {
        assert KeysOf(r)[i] == KeysOf(room)[i] && KeysOf(r)[j] == KeysOf(room)[j];
        assert DifferentSocket(room[i], room[j]);
      } else {
        assert KeysOf(r)[j] == p.socketId && KeysOf(r)[i] == KeysOf(room)[i];
        assert room[i].socketId in KeysOf(room);
      }
    }
    forall i | 0 <= i < |r| ensures r[i].color in CursorColors {
      if i < |room| && room[i].socketId != p.socketId {
        assert r[i] == room[i];
      } else {
        assert r[i].socketId == p.socketId;
        var k :| 0 <= k < |r| && r[k] == p;
      }
    }
    forall i | 0 <= i < |r| && r[i].socketId == p.socketId ensures r[i] == p {
      var k :| 0 <= k < |r| && r[k] == p;
    }
  }

  /** `delete` keeps socket ids unique and colours in the palette, and
      removes no other socket's entry. */
  lemma RemoveKeepsRoomOk(room: seq<Participant>, sid: SocketId)
    requires UniqueKeys(room) && Palette(room)
    ensures UniqueKeys(Remove(room, sid)) && Palette(Remove(room, sid))
    ensures forall s :: s != sid ==> (HasKey(Remove(room, sid), s) <==> HasKey(room, s))
  {
    var r := Remove(room, sid);
    FilterPairwise(room, NotSocket(sid), DifferentSocket);
    forall i | 0 <= i < |r| ensures r[i].color in CursorColors {
      assert r[i] in room;
    }
    forall s | s != sid ensures HasKey(r, s) <==> HasKey(room, s) {
      KeyedMember(room, s);
      KeyedMember(r, s);
    }
  }

  /** A room has key `s` exactly when one of its entries has socket id `s`. */
  lemma KeyedMember(room: seq<Participant>, s: SocketId)
    ensures HasKey(room, s) <==> exists p :: p in room && p.socketId == s
  {
    if HasKey(room, s) {
      var i :| 0 <= i < |room| && KeysOf(room)[i] == s;
      assert room[i] in room;
    }
    if p :| p in room && p.socketId == s {
      var i :| 0 <= i < |room| && room[i] == p;
      assert KeysOf(room)[i] == s;
    }
  }

  /** A join stores an entry that fits the registry's invariant. */
  lemma AfterJoinKeepsRoomsOk(rooms: map<DocId, seq<Participant>>, d: DocId, p: Participant)
    requires RoomsOk(rooms) && p.color in CursorColors
    ensures RoomsOk(AfterJoin(rooms, d, p))
  {
    UpsertKeepsRoomOk(RoomOf(rooms, d), p);
  }

  /** A leave never leaves an empty room behind. */
  lemma AfterLeaveKeepsRoomsOk(rooms: map<DocId, seq<Participant>>, d: DocId, sid: SocketId)
    requires RoomsOk(rooms)
    ensures RoomsOk(AfterLeave(rooms, d, sid))
  {
    if d in rooms {
      RemoveKeepsRoomOk(rooms[d], sid);
    }
  }

  /** A join concerns only the joining socket: every other socket is in
      exactly the rooms it was in. */
  lemma AfterJoinKeepsOthers(rooms: map<DocId, seq<Participant>>, d: DocId, p: Participant, s: SocketId, e: DocId)
    requires s != p.socketId
    ensures InRoom(AfterJoin(rooms, d, p), e, s) <==> InRoom(rooms, e, s)
  {
    if e == d {
      var room := RoomOf(rooms, d);
      var r := Upsert(room, p);
      KeyedMember(room, s);
      KeyedMember(r, s);
      if x :| x in r && x.socketId == s {
        var i :| 0 <= i < |r| && r[i] == x;
        assert KeysOf(r)[i] == s;
        assert i < |room| && KeysOf(room)[i] == s;
      }
      if x :| x in room && x.socketId == s {
        var i :| 0 <= i < |room| && room[i] == x;
        assert r[i] == x;
      }
    }
  }

  /** A leave concerns only the leaving socket. */
  lemma AfterLeaveKeepsOthers(rooms: map<DocId, seq<Participant>>, d: DocId, sid: SocketId, s: SocketId, e: DocId)
    requires s != sid
    ensures InRoom(AfterLeave(rooms, d, sid), e, s) <==> InRoom(rooms, e, s)
  {
    if e == d && d in rooms {
      var r := Remove(rooms[d], sid);
      KeyedMember(rooms[d], s);
      KeyedMember(r, s);
    }
  }

  /** Leaving twice is leaving once, but the second leave announces the
      same `user-left` list again to whoever is still in the room. */
  lemma LeaveTwice(rooms: map<DocId, seq<Participant>>, d: DocId, sid: SocketId)
    ensures AfterLeave(AfterLeave(rooms, d, sid), d, sid) == AfterLeave(rooms, d, sid)
    ensures LeftList(AfterLeave(rooms, d, sid), d, sid) == LeftList(rooms, d, sid)
  {
    var once := AfterLeave(rooms, d, sid);
    if d in once {
      var r := once[d];
      FilterKeepsAll(r, NotSocket(sid));
      assert Remove(r, sid) == r;
    }
  }

  /** Joining a second document leaves the entry in the first room where it
      was. */
  lemma JoinElsewhereKeepsEntry(rooms: map<DocId, seq<Participant>>, a: DocId, b: DocId, p: Participant)
    requires a != b && InRoom(rooms, a, p.socketId)
    ensures InRoom(AfterJoin(rooms, b, p), a, p.socketId)
    ensures AfterJoin(rooms, b, p)[a] == rooms[a]
  {
  }

  /** The registry and the channel subscriptions agree on every connected
      socket. */
  ghost predicate Consistent(rooms: map<DocId, seq<Participant>>, sockets: map<SocketId, Connection>) {
    forall s, d :: s in sockets ==> (d in sockets[s].channels <==> InRoom(rooms, d, s))
  }

  /** So whoever `io.to(d)` reaches is a connected socket with an entry in
      the room of `d`, and every such socket is reached. */
  lemma SubscribersAreRoomMembers(rooms: map<DocId, seq<Participant>>, sockets: map<SocketId, Connection>, d: DocId)
    requires Consistent(rooms, sockets)
    ensures forall s :: s in Subscribers(sockets, d) <==> s in sockets && InRoom(rooms, d, s)
  {
  }

  /** A join subscribes the joiner to exactly the room it enters, so
      channels and registry keep agreeing. */
  lemma JoinKeepsConsistent(rooms: map<DocId, seq<Participant>>, sockets: map<SocketId, Connection>,
                            d: DocId, p: Participant, c: Connection)
    requires Consistent(rooms, sockets) && p.socketId in sockets
    requires c.channels == sockets[p.socketId].channels + {d}
    ensures Consistent(AfterJoin(rooms, d, p), sockets[p.socketId := c])
  {
    var rooms' := AfterJoin(rooms, d, p);
    var sockets' := sockets[p.socketId := c];
    forall s, e | s in sockets' ensures e in sockets'[s].channels <==> InRoom(rooms', e, s) {
      if s != p.socketId {
        AfterJoinKeepsOthers(rooms, d, p, s, e);
      } else if e != d {
        assert InRoom(rooms', e, s) <==> InRoom(rooms, e, s);
      }
    }
  }

  /** The `socket.io` server and its `documentRooms` registry. */
  class SocketServer {
    var rooms: map<DocId, seq<Participant>>
    var sockets: map<SocketId, Connection>
    const docs: DocumentStore
    const versions: VersionStore

    ghost predicate Wf()
      reads this, versions
    {
      RoomsOk(rooms) && Consistent(rooms, sockets) && versions.Valid()
    }

    constructor (docs: DocumentStore, versions: VersionStore)
      requires versions.Valid()
      ensures Wf()
      ensures rooms == map[] && sockets == map[] && this.docs == docs && this.versions == versions
    {
      rooms := map[];
      sockets := map[];
      this.docs := docs;
      this.versions := versions;
    }

    /** A new connection passes through the gate of `io.use`; an admitted
        one belongs to the decoded user and is subscribed to nothing yet.
        Socket ids are fresh: never connected, never in any room. */
    method Connect(sid: SocketId, token: Option<string>, verify: string -> Option<UserId>)
      returns (admitted: bool)
      requires Wf() && sid !in sockets && forall d :: d in rooms ==> !HasKey(rooms[d], sid)
      modifies this
      ensures Wf() && rooms == old(rooms)
      ensures admitted <==> Admit(token, verify).Some?
      ensures admitted ==> sockets == old(sockets)[sid := Connection(Admit(token, verify).value, None, None, {})]
      ensures !admitted ==> sockets == old(sockets)
    {
      var user := Admit(token, verify);
      if user.None? {
        return false;
      }
      sockets := sockets[sid := Connection(user.value, None, None, {})];
      admitted := true;
    }

    /** `join-document`. */
    method Join(sid: SocketId, d: DocId, userId: UserId, userName: string) returns (out: seq<Delivery>)
      requires Wf() && sid in sockets
      modifies this
      ensures Wf()
      ensures var c := old(sockets)[sid];
        sockets == old(sockets)[sid := c.(documentId := Some(d), userName := Some(userName), channels := c.channels + {d})]
      ensures rooms == AfterJoin(old(rooms), d, Newcomer(old(rooms), d, sid, userId, userName))
      ensures out == [Delivery(Subscribers(sockets, d), UserJoined(rooms[d]))]
      ensures sid in out[0].recipients
      ensures forall s :: s in out[0].recipients <==> s in sockets && HasKey(rooms[d], s)
    {
      var p := Newcomer(rooms, d, sid, userId, userName);
      var c := sockets[sid];
      var c' := c.(documentId := Some(d), userName := Some(userName), channels := c.channels + {d});
      AfterJoinKeepsRoomsOk(rooms, d, p);
      JoinKeepsConsistent(rooms, sockets, d, p, c');
      var rooms' := AfterJoin(rooms, d, p);
      var sockets' := sockets[sid := c'];
      SubscribersAreRoomMembers(rooms', sockets', d);
      rooms := rooms';
      sockets := sockets';
      out := [Delivery(Subscribers(sockets, d), UserJoined(rooms[d]))];
    }

    /** `leave-document`, through `handleLeaveDocument`. */
    method Leave(sid: SocketId, d: DocId) returns (out: seq<Delivery>)
      requires Wf() && sid in sockets
      modifies this
      ensures Wf()
      ensures var c := old(sockets)[sid]; sockets == old(sockets)[sid := c.(channels := c.channels - {d})]
      ensures rooms == AfterLeave(old(rooms), d, sid)
      ensures out == match LeftList(old(rooms), d, sid)
                     case None => []
                     case Some(users) => [Delivery(Subscribers(sockets, d), UserLeft(users))]
      ensures forall k :: 0 <= k < |out| ==> sid !in out[k].recipients
    {
      var c := sockets[sid];
      var sockets' := sockets[sid := c.(channels := c.channels - {d})];
      var rooms' := AfterLeave(rooms, d, sid);
      AfterLeaveKeepsRoomsOk(rooms, d, sid);
      forall s, e | s in sockets' ensures e in sockets'[s].channels <==> InRoom(rooms', e, s) {
        if s != sid {
          AfterLeaveKeepsOthers(rooms, d, sid, s, e);
        }
      }
      var announced := LeftList(rooms, d, sid);
      rooms := rooms';
      sockets := sockets';
      match announced
      case None =>
        out := [];
      case Some(users) =>
        out := [Delivery(Subscribers(sockets, d), UserLeft(users))];
    }

    /** `content-change`: relayed unchanged to everyone in the channel but
        the sender; nothing is stored. */
    method ContentChange(sid: SocketId, d: DocId, content: string, userId: UserId) returns (out: seq<Delivery>)
      requires Wf() && sid in sockets
      ensures out == [Delivery(Subscribers(sockets, d) - {sid}, ContentChanged(content, userId))]
      ensures forall s :: s in out[0].recipients <==> s != sid && s in sockets && InRoom(rooms, d, s)
    {
      SubscribersAreRoomMembers(rooms, sockets, d);
      out := [Delivery(Subscribers(sockets, d) - {sid}, ContentChanged(content, userId))];
    }

    /** `typing`: relayed to everyone in the channel but the sender. */
    method Typing(sid: SocketId, d: DocId, userId: UserId, userName: string) returns (out: seq<Delivery>)
      requires Wf() && sid in sockets
      ensures out == [Delivery(Subscribers(sockets, d) - {sid}, UserTyping(userId, userName))]
      ensures forall s :: s in out[0].recipients <==> s != sid && s in sockets && InRoom(rooms, d, s)
    {
      SubscribersAreRoomMembers(rooms, sockets, d);
      out := [Delivery(Subscribers(sockets, d) - {sid}, UserTyping(userId, userName))];
    }

    /** `cursor-move`: only a socket with an entry in the room moves its
        cursor, and the others see the colour stored for it. */
    method CursorMove(sid: SocketId, d: DocId, userId: UserId, userName: string, position: Option<Position>)
      returns (out: seq<Delivery>)
      requires Wf() && sid in sockets
      modifies this
      ensures Wf() && sockets == old(sockets)
      ensures !InRoom(old(rooms), d, sid) ==> rooms == old(rooms) && out == []
      ensures InRoom(old(rooms), d, sid) ==>
        rooms == old(rooms)[d := MoveCursor(old(rooms)[d], sid, position)] &&
        out == [Delivery(Subscribers(sockets, d) - {sid},
                         CursorMoved(userId, userName, position, ColorOf(old(rooms)[d], sid)))]
    {
      if d !in rooms || !HasKey(rooms[d], sid) {
        return [];
      }
      var color := ColorOf(rooms[d], sid);
      var room' := MoveCursor(rooms[d], sid, position);
      assert UniqueKeys(room') by {
        forall i, j | 0 <= i < j < |room'| ensures DifferentSocket(room'[i], room'[j]) {
          assert DifferentSocket(rooms[d][i], rooms[d][j]);
        }
      }
      assert Palette(room') by {
        forall i | 0 <= i < |room'| ensures room'[i].color in CursorColors {
          assert room'[i].color == rooms[d][i].color;
        }
      }
      var rooms' := rooms[d := room'];
      forall s, e | s in sockets ensures e in sockets[s].channels <==> InRoom(rooms', e, s) {
        if e == d {
          assert HasKey(room', s) <==> HasKey(rooms[d], s);
        }
      }
      rooms := rooms';
      out := [Delivery(Subscribers(sockets, d) - {sid}, CursorMoved(userId, userName, position, color))];
    }

    /** `save-document`: write the document, append an `'auto'` snapshot,
        trim to the newest 50, then tell the whole channel. The first step
        that throws ends the sequence with a `save-error` to the sender
        alone, and whatever earlier steps wrote stays written. */
    method SaveDocument(sid: SocketId, d: DocId, content: string, fault: SaveFault, now: nat)
      returns (out: seq<Delivery>)
      requires Wf() && sid in sockets
      modifies docs, versions
      ensures Wf() && rooms == old(rooms) && sockets == old(sockets)
      ensures var u := sockets[sid].userId;
        var written := if d in old(docs.documents)
          then old(docs.documents)[d := old(docs.documents)[d].(content := content, lastEditedBy := Some(u))]
          else old(docs.documents);
        var snapshot := VersionRecord(old(versions.clock), d, content, u,
                                      NextVersionNumber(old(versions.records), d), Auto, old(versions.clock));
        match fault
        case WriteFails =>
          docs.documents == old(docs.documents) && versions.records == old(versions.records) &&
          out == [Delivery({sid}, SaveError("Failed to save document"))]
        case SnapshotFails =>
          docs.documents == written && versions.records == old(versions.records) &&
          out == [Delivery({sid}, SaveError("Failed to save document"))]
        case CleanupFails =>
          docs.documents == written && versions.records == old(versions.records) + [snapshot] &&
          out == [Delivery({sid}, SaveError("Failed to save document"))]
        case NoFault =>
          docs.documents == written &&
          versions.records == Trimmed(old(versions.records) + [snapshot], d, SaveKeepCount) &&
          out == [Delivery(Subscribers(sockets, d), DocumentSaved(sockets[sid].userName, now))]
    {
      var failed := [Delivery({sid}, SaveError("Failed to save document"))];
      if fault == WriteFails {
        return failed;
      }
      var u := sockets[sid].userId;
      docs.FindByIdAndUpdate(d, content, u);
      if fault == SnapshotFails {
        return failed;
      }
      var _ := versions.CreateVersion(d, content, u, Auto);
      if fault == CleanupFails {
        return failed;
      }
      versions.CleanupOldVersions(d, SaveKeepCount);
      out := [Delivery(Subscribers(sockets, d), DocumentSaved(sockets[sid].userName, now))];
    }

    /** `disconnect`: the socket is gone from every channel, and the leave
        helper runs for `socket.documentId` when that was ever set to a
        non-empty id, even if the socket already left that document. Entries
        in other rooms the socket joined stay behind. */
    method Disconnect(sid: SocketId) returns (out: seq<Delivery>)
      requires Wf() && sid in sockets
      modifies this
      ensures Wf() && sockets == old(sockets) - {sid}
      ensures var last := old(sockets)[sid].documentId;
        if last.Some? && last.value != "" then
          rooms == AfterLeave(old(rooms), last.value, sid) &&
          out == match LeftList(old(rooms), last.value, sid)
                 case None => []
                 case Some(users) => [Delivery(Subscribers(sockets, last.value), UserLeft(users))]
        else rooms == old(rooms) && out == []
    {
      var last := sockets[sid].documentId;
      var sockets' := sockets - {sid};
      if last.None? || last.value == "" {
        sockets := sockets';
        return [];
      }
      var d := last.value;
      var rooms' := AfterLeave(rooms, d, sid);
      AfterLeaveKeepsRoomsOk(rooms, d, sid);
      forall s, e | s in sockets' ensures e in sockets'[s].channels <==> InRoom(rooms', e, s) {
        AfterLeaveKeepsOthers(rooms, d, sid, s, e);
      }
      var announced := LeftList(rooms, d, sid);
      rooms := rooms';
      sockets := sockets';
      match announced
      case None =>
        out := [];
      case Some(users) =>
        out := [Delivery(Subscribers(sockets, d), UserLeft(users))];
    }
  }
}
