/** The lobby's room registry: the map from room id to seat flags and timestamps
    that the lobby server keeps, the join / leave / heartbeat requests that update
    it, the sweep that drops idle rooms, and the sorted room listing it sends out.
    The clock is a parameter (`now`, in milliseconds). */
module Registry {
  import opened Types

  /** A room with no activity for longer than this many milliseconds is dropped. */
  const RoomTimeoutMs: int := 60000

  type RoomId = string

  /** What the registry remembers about one room. */
  datatype RoomInfo = RoomInfo(redPlayer: bool, bluePlayer: bool, createdAt: int, lastActivity: int)

  type Rooms = map<RoomId, RoomInfo>

  /** Whether seat `c` of the room is taken. */
  predicate Seated(info: RoomInfo, c: Player) {
    if c == Red then info.redPlayer else info.bluePlayer
  }

  predicate BothSeated(info: RoomInfo) {
    info.redPlayer && info.bluePlayer
  }

  /** Answer to a join request: the room was full, or the player got a colour
      (`None` when the request named neither red nor blue). */
  datatype JoinResult = RoomFull | Joined(assignedColor: Option<Player>)

  datatype JoinOutcome = JoinOutcome(result: JoinResult, rooms: Rooms)

  /** The colour a join request ends up with: a taken colour is swapped for the other one. */
  function FinalColor(color: Option<Player>, info: RoomInfo): Option<Player> {
    match color
    case None => None
    case Some(c) => if Seated(info, c) then Some(Opponent(c)) else color
  }

  /** The room as it is found, or a fresh empty one created at `now`. */
  function Found(rooms: Rooms, roomId: RoomId, now: int): RoomInfo {
    if roomId in rooms then rooms[roomId] else RoomInfo(false, false, now, now)
  }

  /** A join request at time `now`. A full room answers RoomFull and nothing is
      stored; otherwise the room is touched and the assigned seat taken. */
  function JoinRoom(rooms: Rooms, roomId: RoomId, color: Option<Player>, now: int): (out: JoinOutcome)
    ensures out.result == RoomFull <==> roomId in rooms && BothSeated(rooms[roomId])
    ensures out.result == RoomFull ==> out.rooms == rooms
    ensures out.result.Joined? ==> roomId in out.rooms && out.rooms[roomId].lastActivity == now
    ensures roomId !in rooms ==> out.result.Joined? && out.rooms[roomId].createdAt == now
    ensures out.result.Joined? ==>
              var info := Found(rooms, roomId, now);
              var f := out.result.assignedColor;
              out.rooms == rooms[roomId := RoomInfo(info.redPlayer || f == Some(Red), info.bluePlayer || f == Some(Blue),
                                                    info.createdAt, now)]
  {
    var info := Found(rooms, roomId, now);
    var finalColor := FinalColor(color, info);
    if BothSeated(info) then JoinOutcome(RoomFull, rooms)
    else
      var entered := info.(lastActivity := now,
                           redPlayer := info.redPlayer || finalColor == Some(Red),
                           bluePlayer := info.bluePlayer || finalColor == Some(Blue));
      JoinOutcome(Joined(finalColor), rooms[roomId := entered])
  }

  /** The room with the seat `color` names freed, when it names one. */
  function Vacated(info: RoomInfo, color: Option<Player>): (r: RoomInfo)
    ensures forall p :: Seated(r, p) <==> Seated(info, p) && color != Some(p)
    ensures r.createdAt == info.createdAt && r.lastActivity == info.lastActivity
  {
    info.(redPlayer := info.redPlayer && color != Some(Red),
          bluePlayer := info.bluePlayer && color != Some(Blue))
  }

  /** A leave request: the named seat is freed, and a room left with no one
      seated is deleted. An unknown room is left alone. */
  function LeaveRoom(rooms: Rooms, roomId: RoomId, color: Option<Player>): (r: Rooms)
    ensures roomId !in rooms ==> r == rooms
    ensures roomId in rooms ==>
              var left := Vacated(rooms[roomId], color);
              && (roomId in r <==> left.redPlayer || left.bluePlayer)
              && (roomId in r ==> r[roomId] == left)
    ensures roomId in r ==> roomId in rooms && (r[roomId].redPlayer || r[roomId].bluePlayer)
    ensures color.Some? && roomId in r ==> !Seated(r[roomId], color.value)
    ensures forall k :: k != roomId ==> (k in r <==> k in rooms)
    ensures forall k :: k != roomId && k in r ==> r[k] == rooms[k]
  {
    if roomId !in rooms then rooms
    else
      var left := Vacated(rooms[roomId], color);
      if !left.redPlayer && !left.bluePlayer then rooms - {roomId} else rooms[roomId := left]
  }

  /** A heartbeat: a known room's activity time becomes `now`. */
  function HeartbeatRoom(rooms: Rooms, roomId: RoomId, now: int): (r: Rooms)
    ensures r.Keys == rooms.Keys
    ensures roomId in r ==> r[roomId] == rooms[roomId].(lastActivity := now)
    ensures forall k :: k != roomId && k in r ==> r[k] == rooms[k]
  {
    if roomId in rooms then rooms[roomId := rooms[roomId].(lastActivity := now)] else rooms
  }

  /** Whether a room has been idle for longer than the timeout at time `now`. */
  predicate Expired(info: RoomInfo, now: int) {
    now - info.lastActivity > RoomTimeoutMs
  }

  /** The rooms that survive a sweep at time `now`. */
  function Live(rooms: Rooms, now: int): (r: Rooms)
    ensures forall k :: k in r ==> now - r[k].lastActivity <= RoomTimeoutMs
    ensures r.Keys <= rooms.Keys
  {
    map k | k in rooms && !Expired(rooms[k], now) :: rooms[k]
  }

  /** A join that succeeds never puts a player in a seat that was already taken,
      and the player does end up seated in the colour reported. */
  lemma JoinTakesFreeSeat(rooms: Rooms, roomId: RoomId, color: Option<Player>, now: int, c: Player)
    requires JoinRoom(rooms, roomId, color, now).result == Joined(Some(c))
    ensures roomId !in rooms || !Seated(rooms[roomId], c)
    ensures Seated(JoinRoom(rooms, roomId, color, now).rooms[roomId], c)
  {
    var info := Found(rooms, roomId, now);
    assert !BothSeated(info);
  }

  /** The requested colour is honoured whenever that seat is free. */
  lemma JoinHonoursFreeColour(rooms: Rooms, roomId: RoomId, c: Player, now: int)
    requires roomId !in rooms || !Seated(rooms[roomId], c)
    ensures JoinRoom(rooms, roomId, Some(c), now).result == Joined(Some(c))
  {
  }

  /** A requested colour whose seat is taken is swapped for the other one,
      and the player is seated there. */
  lemma JoinSwapsTakenColour(rooms: Rooms, roomId: RoomId, c: Player, now: int)
    requires roomId in rooms && Seated(rooms[roomId], c) && !BothSeated(rooms[roomId])
    ensures var out := JoinRoom(rooms, roomId, Some(c), now);
            out.result == Joined(Some(Opponent(c))) && BothSeated(out.rooms[roomId])
  {
  }

  /** A join that names no colour, in a room that is not full, seats no one. */
  lemma JoinWithoutColour(rooms: Rooms, roomId: RoomId, now: int)
    requires roomId !in rooms || !BothSeated(rooms[roomId])
    ensures var out := JoinRoom(rooms, roomId, None, now);
            && out.result == Joined(None)
            && forall p :: Seated(out.rooms[roomId], p) <==> roomId in rooms && Seated(rooms[roomId], p)
  {
  }

  /** Joining touches only the joined room, and seats already taken stay taken. */
  lemma JoinKeepsOthers(rooms: Rooms, roomId: RoomId, color: Option<Player>, now: int)
    ensures var r := JoinRoom(rooms, roomId, color, now).rooms;
      && (forall k :: k != roomId ==> (k in r <==> k in rooms))
      && (forall k :: k != roomId && k in r ==> r[k] == rooms[k])
      && (roomId in rooms ==> roomId in r && r[roomId].createdAt == rooms[roomId].createdAt)
      && (forall p :: roomId in rooms && Seated(rooms[roomId], p) ==> Seated(r[roomId], p))
  {
  }

  /** The first player to join a new room and then leave with the same colour
      leaves the registry as it was. */
  lemma JoinThenLeave(rooms: Rooms, roomId: RoomId, c: Player, now: int)
    requires roomId !in rooms
    ensures var out := JoinRoom(rooms, roomId, Some(c), now);
      out.result == Joined(Some(c)) && LeaveRoom(out.rooms, roomId, Some(c)) == rooms
  {
    var out := JoinRoom(rooms, roomId, Some(c), now);
    assert out.rooms == rooms[roomId := out.rooms[roomId]];
    var left := LeaveRoom(out.rooms, roomId, Some(c));
    assert left == out.rooms - {roomId};
    assert left.Keys == rooms.Keys;
  }

  /** A sweep keeps exactly the rooms that are not expired, unchanged. */
  lemma LiveSpec(rooms: Rooms, now: int, k: RoomId)
    ensures k in Live(rooms, now) <==> k in rooms && !Expired(rooms[k], now)
    ensures k in Live(rooms, now) ==> Live(rooms, now)[k] == rooms[k]
  {
  }

  /** Sweeping twice at the same time is the same as sweeping once, and a later
      sweep keeps no room that an earlier one dropped. */
  lemma LiveIdempotentAndMonotone(rooms: Rooms, now: int, later: int)
    requires now <= later
    ensures Live(Live(rooms, now), now) == Live(rooms, now)
    ensures Live(rooms, later).Keys <= Live(rooms, now).Keys
  {
  }

  /** A room that has just had a heartbeat survives a sweep at the same time. */
  lemma HeartbeatKeepsRoom(rooms: Rooms, roomId: RoomId, now: int)
    requires roomId in rooms
    ensures roomId in Live(HeartbeatRoom(rooms, roomId, now), now)
  {
  }

  /** The registry object: a map from room id to room, updated in place. */
  class RoomRegistry {
    var rooms: Rooms

    constructor()
      ensures rooms == map[]
    {
      rooms := map[];
    }

    method Join(roomId: RoomId, color: Option<Player>, now: int) returns (result: JoinResult)
      modifies this
      ensures JoinOutcome(result, rooms) == JoinRoom(old(rooms), roomId, color, now)
    {
      var info: RoomInfo;
      if roomId in rooms {
        info := rooms[roomId];
      } else {
        info := RoomInfo(false, false, now, now);
      }
      var finalColor := color;
      if color == Some(Red) && info.redPlayer {
        finalColor := Some(Blue);
      }
      if color == Some(Blue) && info.bluePlayer {
        finalColor := Some(Red);
      }
      if info.redPlayer && info.bluePlayer {
        return RoomFull;
      }
      info := info.(lastActivity := now);
      if finalColor == Some(Red) {
        info := info.(redPlayer := true);
      }
      if finalColor == Some(Blue) {
        info := info.(bluePlayer := true);
      }
      rooms := rooms[roomId := info];
      result := Joined(finalColor);
    }

    method Leave(roomId: RoomId, color: Option<Player>)
      modifies this
      ensures rooms == LeaveRoom(old(rooms), roomId, color)
    {
      if roomId in rooms {
        var info := rooms[roomId];
        if color == Some(Red) {
          info := info.(redPlayer := false);
        }
        if color == Some(Blue) {
          info := info.(bluePlayer := false);
        }
        if !info.redPlayer && !info.bluePlayer {
          rooms := rooms - {roomId};
        } else {
          rooms := rooms[roomId := info];
        }
      }
    }

    method Heartbeat(roomId: RoomId, now: int)
      modifies this
      ensures rooms == HeartbeatRoom(old(rooms), roomId, now)
    {
      if roomId in rooms {
        rooms := rooms[roomId := rooms[roomId].(lastActivity := now)];
      }
    }

    /** Drops every expired room, one entry at a time; reports whether any went. */
    method CleanupRooms(now: int) returns (hasExpired: bool)
      modifies this
      ensures rooms == Live(old(rooms), now)
      ensures hasExpired <==> exists k :: k in old(rooms) && Expired(old(rooms)[k], now)
    {
      var pending := rooms.Keys;
      hasExpired := false;
      while pending != {}
        invariant pending <= old(rooms).Keys
        invariant rooms == map k | k in old(rooms) && (k in pending || !Expired(old(rooms)[k], now)) :: old(rooms)[k]
        invariant hasExpired <==> exists k :: k in old(rooms) && k !in pending && Expired(old(rooms)[k], now)
        decreases pending
      {
        var roomId :| roomId in pending;
        if Expired(rooms[roomId], now) {
          rooms := rooms - {roomId};
          hasExpired := true;
        }
        pending := pending - {roomId};
      }
    }
  }

  /** One entry of the room listing. */
  datatype RoomSummary = RoomSummary(roomId: RoomId, hasRed: bool, hasBlue: bool, createdAt: int,
                                     isFull: bool, isAvailable: bool)

  /** The listing sent to lobby clients. */
  datatype RoomData = RoomData(rooms: seq<RoomSummary>, totalOnlineCount: int)

  /** The entry for one room: its id, seat flags and creation time; full exactly
      when both seats are taken, available exactly when it is not full. */
  function Summarize(roomId: RoomId, info: RoomInfo): (r: RoomSummary)
    ensures r.roomId == roomId && r.createdAt == info.createdAt
    ensures r.hasRed == Seated(info, Red) && r.hasBlue == Seated(info, Blue)
    ensures r.isFull <==> BothSeated(info)
    ensures r.isAvailable <==> !r.isFull
  {
    RoomSummary(roomId, info.redPlayer, info.bluePlayer, info.createdAt,
                info.redPlayer && info.bluePlayer, !info.redPlayer || !info.bluePlayer)
  }

  /** The summaries of the rooms, in the order `order` lists their ids. */
  function Summaries(rooms: Rooms, order: seq<RoomId>): (s: seq<RoomSummary>)
    requires forall i :: 0 <= i < |order| ==> order[i] in rooms
    ensures |s| == |order|
    ensures forall i :: 0 <= i < |s| ==> s[i] == Summarize(order[i], rooms[order[i]])
  {
    if order == [] then [] else Summaries(rooms, order[..|order| - 1]) + [Summarize(order[|order| - 1], rooms[order[|order| - 1]])]
  }

  /** The listing's comparator: negative when `a` goes first. Available rooms
      come first; within a group, newer rooms come first. */
  function Compare(a: RoomSummary, b: RoomSummary): (r: int)
    ensures r < 0 <==> (a.isAvailable && !b.isAvailable) || (a.isAvailable == b.isAvailable && a.createdAt > b.createdAt)
    ensures r == 0 <==> SameClass(a, b)
  {
    if a.isAvailable && !b.isAvailable then -1
    else if !a.isAvailable && b.isAvailable then 1
    else b.createdAt - a.createdAt
  }

  /** Two entries the comparator cannot tell apart. */
  predicate SameClass(a: RoomSummary, b: RoomSummary) {
    a.isAvailable == b.isAvailable && a.createdAt == b.createdAt
  }

  predicate Sorted(s: seq<RoomSummary>) {
    forall i, j :: 0 <= i < j < |s| ==> Compare(s[i], s[j]) <= 0
  }

  /** `x` placed before the first entry it does not sort after. */
  function Insert(x: RoomSummary, s: seq<RoomSummary>): (r: seq<RoomSummary>)
    ensures |r| == |s| + 1
  {
    if s == [] then [x]
    else if Compare(x, s[0]) <= 0 then [x] + s
    else [s[0]] + Insert(x, s[1..])
  }

  /** A stable sort by `Compare`: the head is inserted ahead of every entry of
      its own class. */
  function SortRooms(s: seq<RoomSummary>): (r: seq<RoomSummary>)
    ensures |r| == |s|
  {
    if s == [] then [] else Insert(s[0], SortRooms(s[1..]))
  }

  /** The entries of `s` in the class of `x`, in order. */
  function ClassOf(s: seq<RoomSummary>, x: RoomSummary): (r: seq<RoomSummary>)
    ensures |r| <= |s|
  {
    if s == [] then []
    else (if SameClass(s[0], x) then [s[0]] else []) + ClassOf(s[1..], x)
  }

  /** `order` lists every room id once: the iteration order of the rooms map. */
  predicate ListsRooms(rooms: Rooms, order: seq<RoomId>) {
    && Distinct(order)
    && (forall i :: 0 <= i < |order| ==> order[i] in rooms)
    && (forall k :: k in rooms ==> k in order)
  }

  /** `prepareRoomData`: the summaries of the rooms in iteration order, sorted,
      with the online count passed through. */
  function PrepareRoomData(rooms: Rooms, order: seq<RoomId>, totalOnlineCount: int): (r: RoomData)
    requires ListsRooms(rooms, order)
    ensures |r.rooms| == |order| && r.totalOnlineCount == totalOnlineCount
  {
    RoomData(SortRooms(Summaries(rooms, order)), totalOnlineCount)
  }

  lemma CompareAntisymmetric(a: RoomSummary, b: RoomSummary)
    ensures Compare(b, a) == -Compare(a, b)
  {
  }

  lemma CompareTransitive(a: RoomSummary, b: RoomSummary, c: RoomSummary)
    requires Compare(a, b) <= 0 && Compare(b, c) <= 0
    ensures Compare(a, c) <= 0
  {
  }

  lemma {:induction false} InsertSpec(x: RoomSummary, s: seq<RoomSummary>)
    requires Sorted(s)
    ensures Sorted(Insert(x, s))
    ensures multiset(Insert(x, s)) == multiset{x} + multiset(s)
  {
    if s == [] {
    } else if Compare(x, s[0]) <= 0 {
      var r := [x] + s;
      forall i, j | 0 <= i < j < |r|
        ensures Compare(r[i], r[j]) <= 0
      {
        if i == 0 && j > 1 {
          CompareTransitive(x, s[0], s[j - 1]);
        }
      }
    } else {
      InsertSpec(x, s[1..]);
      var t := Insert(x, s[1..]);
      var r := [s[0]] + t;
      CompareAntisymmetric(x, s[0]);
      forall i, j | 0 <= i < j < |r|
        ensures Compare(r[i], r[j]) <= 0
      {
        if i == 0 {
          assert r[j] in multiset(t);
          assert r[j] == x || r[j] in s[1..];
          if r[j] != x {
            var m :| 0 <= m < |s[1..]| && s[1..][m] == r[j];
            assert Compare(s[0], s[m + 1]) <= 0;
          }
        }
      }
      assert s == [s[0]] + s[1..];
    }
  }

  lemma {:induction false} SortRoomsSpec(s: seq<RoomSummary>)
    ensures Sorted(SortRooms(s))
    ensures multiset(SortRooms(s)) == multiset(s)
  {
    if s != [] {
      SortRoomsSpec(s[1..]);
      InsertSpec(s[0], SortRooms(s[1..]));
      assert s == [s[0]] + s[1..];
    }
  }

  /** Inserting `x` adds it at the front of its class and leaves the other classes alone. */
  lemma {:induction false} InsertClass(x: RoomSummary, s: seq<RoomSummary>, y: RoomSummary)
    ensures ClassOf(Insert(x, s), y) == if SameClass(x, y) then [x] + ClassOf(s, y) else ClassOf(s, y)
  {
    if s == [] {
      assert ClassOf([x], y) == (if SameClass(x, y) then [x] else []) + ClassOf([], y);
    } else if Compare(x, s[0]) <= 0 {
      assert ([x] + s)[1..] == s;
    } else {
      InsertClass(x, s[1..], y);
      var r := [s[0]] + Insert(x, s[1..]);
      assert r[1..] == Insert(x, s[1..]);
      if SameClass(x, y) {
        CompareAntisymmetric(x, s[0]);
        assert !SameClass(s[0], y);
      }
    }
  }

  /** The sort is stable: the entries of every class keep their relative order. */
  lemma {:induction false} SortRoomsStable(s: seq<RoomSummary>, y: RoomSummary)
    ensures ClassOf(SortRooms(s), y) == ClassOf(s, y)
  {
    if s != [] {
      SortRoomsStable(s[1..], y);
      InsertClass(s[0], SortRooms(s[1..]), y);
    }
  }

  /** The listing holds one entry per listed room, built from that room's flags,
      sorted with available rooms first and newest first within each group, in a
      stable order. */
  lemma PrepareRoomDataSpec(rooms: Rooms, order: seq<RoomId>, totalOnlineCount: int, y: RoomSummary)
    requires ListsRooms(rooms, order)
    ensures var listing := PrepareRoomData(rooms, order, totalOnlineCount).rooms;
      && multiset(listing) == multiset(Summaries(rooms, order))
      && (forall i, j :: 0 <= i < j < |listing| && listing[j].isAvailable ==> listing[i].isAvailable)
      && (forall i, j :: 0 <= i < j < |listing| && listing[i].isAvailable == listing[j].isAvailable ==>
            listing[i].createdAt >= listing[j].createdAt)
      && ClassOf(listing, y) == ClassOf(Summaries(rooms, order), y)
  {
    var s := Summaries(rooms, order);
    SortRoomsSpec(s);
    SortRoomsStable(s, y);
    var listing := SortRooms(s);
    forall i, j | 0 <= i < j < |listing| && listing[j].isAvailable
      ensures listing[i].isAvailable
    {
      assert Compare(listing[i], listing[j]) <= 0;
    }
    forall i, j | 0 <= i < j < |listing| && listing[i].isAvailable == listing[j].isAvailable
      ensures listing[i].createdAt >= listing[j].createdAt
    {
      assert Compare(listing[i], listing[j]) <= 0;
    }
  }

  /** An element of a sequence without repetitions occurs in it once. */
  lemma {:induction false} DistinctOnce<T>(s: seq<T>, x: T)
    requires Distinct(s) && x in s
    ensures multiset(s)[x] == 1
  {
    assert s == [s[0]] + s[1..];
    if s[0] == x {
      assert x !in s[1..];
    } else {
      DistinctOnce(s[1..], x);
    }
  }

  /** A sequence without repetitions has as many distinct elements as entries. */
  lemma {:induction false} DistinctCard<T>(s: seq<T>)
    requires Distinct(s)
    ensures |set x | x in s| == |s|
  {
    if s != [] {
      var init := s[..|s| - 1];
      DistinctCard(init);
      assert (set x | x in s) == (set x | x in init) + {s[|s| - 1]};
      assert s[|s| - 1] !in init;
    }
  }

  /** The summaries of distinct ids are distinct, the summary of every room is
      among them, and each is the summary of the room it names. */
  lemma SummariesOfListedRooms(rooms: Rooms, order: seq<RoomId>)
    requires ListsRooms(rooms, order)
    ensures var s := Summaries(rooms, order);
      && Distinct(s)
      && (forall k :: k in rooms ==> Summarize(k, rooms[k]) in s)
      && (forall x :: x in s ==> x.roomId in rooms && x == Summarize(x.roomId, rooms[x.roomId]))
  {
    var s := Summaries(rooms, order);
    forall i, j | 0 <= i < j < |s|
      ensures s[i] != s[j]
    {
      assert s[i].roomId == order[i] && s[j].roomId == order[j];
    }
    forall k | k in rooms
      ensures Summarize(k, rooms[k]) in s
    {
      var i :| 0 <= i < |order| && order[i] == k;
      assert s[i] == Summarize(k, rooms[k]);
    }
  }

  /** An iteration order has one entry per room. */
  lemma ListedCount(rooms: Rooms, order: seq<RoomId>)
    requires ListsRooms(rooms, order)
    ensures |order| == |rooms|
  {
    DistinctCard(order);
    assert (set k | k in order) == rooms.Keys;
  }

  /** The listing has one entry per room and nothing else: each room's summary
      occurs exactly once, and every entry is the summary of the room it names. */
  lemma ListingHasEachRoomOnce(rooms: Rooms, order: seq<RoomId>, totalOnlineCount: int)
    requires ListsRooms(rooms, order)
    ensures var listing := PrepareRoomData(rooms, order, totalOnlineCount).rooms;
      && |listing| == |rooms|
      && (forall k :: k in rooms ==> multiset(listing)[Summarize(k, rooms[k])] == 1)
      && (forall x :: x in listing ==> x.roomId in rooms && x == Summarize(x.roomId, rooms[x.roomId]))
  {
    var s := Summaries(rooms, order);
    var listing := PrepareRoomData(rooms, order, totalOnlineCount).rooms;
    SortRoomsSpec(s);
    SummariesOfListedRooms(rooms, order);
    ListedCount(rooms, order);
    forall k | k in rooms
      ensures multiset(listing)[Summarize(k, rooms[k])] == 1
    {
      DistinctOnce(s, Summarize(k, rooms[k]));
    }
    forall x | x in listing
      ensures x in s
    {
      assert x in multiset(listing);
    }
  }
}
