/**
 * The world model of prison_game.c: the constants, the value types (items, rooms,
 * NPCs, documents), and the two structures the game updates in place, `Player` and
 * `GameState`, as classes over fixed-size arrays.
 *
 * References into the room table (`Room *` in the C code) are indices into
 * `GameState.rooms`; a NULL NPC room is `None`.
 */
module World {
  import opened Wrappers
  import opened Clock

  const MAX_HEALTH := 100
  const MAX_HUNGER := 100
  const MAX_REPUTATION := 100
  const MAX_DAYS := 365
  const MAX_NPCS := 20
  const MAX_ITEMS := 10
  const MAX_INVENTORY := 5
  /** Capacity of `Player.documents` (a literal 10 in the C code). */
  const MAX_DOCUMENTS := 10
  /** Length of the `rooms` array in `GameState`. */
  const ROOM_SLOTS := 10
  /** What `initialize_rooms` stores in `room_count`: the office, rooms[8], lies beyond it. */
  const ROOM_COUNT := 8
  const START_REPUTATION := 50
  const START_HOUR := 8

  datatype ItemType = Key | Tool | Weapon | Medicine | Food | DocumentItem
  datatype RoomType = Cell | Corridor | Cafeteria | Yard | Infirmary | Shower | Library | Workshop | Office
  datatype NpcType = Inmate | Guard | Doctor | Worker
  /** The player's role; the C code keeps it behind a heap pointer. */
  datatype Role = Prisoner | Guardian | Manager

  datatype Item = Item(name: string, kind: ItemType, value: int, isHidden: bool, isEmpty: bool)
  /** `items` stands for `items[MAX_ITEMS]` together with `item_count`. */
  datatype Room = Room(kind: RoomType, description: string, items: seq<Item>, isLocked: bool, securityLevel: int)
  datatype Npc = Npc(name: string, kind: NpcType, health: int, reputation: int, relationship: int,
                     isAlive: bool, currentRoom: Option<nat>, isBusy: bool)
  datatype Document = Document(name: string, content: string, isSecret: bool)

  /** An inventory slot as `initialize_game` leaves it. */
  const EMPTY_SLOT := Item("", Food, 0, false, true)
  /** What `search_bed` finds. */
  const HIDDEN_NOTE := Item("Hidden Note", DocumentItem, 1, false, false)

  predicate RoomRefOk(r: Option<nat>, roomSlots: nat) {
    r.None? || r.value < roomSlots
  }

  /** `strstr(hay, needle) != NULL`: needle occurs in hay (the empty needle always does). */
  predicate Contains(hay: string, needle: string)
    ensures Contains(hay, needle) ==> |needle| <= |hay|
    ensures needle == [] ==> Contains(hay, needle)
    decreases |hay|
  {
    needle <= hay || (|hay| > 0 && Contains(hay[1..], needle))
  }

  /** The needle starts at position i of hay. */
  predicate OccursAt(hay: string, needle: string, i: nat) {
    i + |needle| <= |hay| && hay[i..i + |needle|] == needle
  }

  /** `Contains` holds exactly when the needle occurs at some position of hay. */
  lemma {:induction false} ContainsIffOccurs(hay: string, needle: string)
    ensures Contains(hay, needle) <==> exists i: nat :: OccursAt(hay, needle, i)
    decreases |hay|
  {
    if needle <= hay {
      assert OccursAt(hay, needle, 0);
    } else if |hay| > 0 {
      ContainsIffOccurs(hay[1..], needle);
      if Contains(hay[1..], needle) {
        var i: nat :| OccursAt(hay[1..], needle, i);
        assert hay[i + 1..i + 1 + |needle|] == hay[1..][i..i + |needle|];
        assert OccursAt(hay, needle, i + 1);
      }
      if exists i: nat :: OccursAt(hay, needle, i) {
        var i: nat :| OccursAt(hay, needle, i);
        assert i != 0;
        assert hay[1..][i - 1..i - 1 + |needle|] == hay[i..i + |needle|];
        assert OccursAt(hay[1..], needle, i - 1);
      }
    }
  }

  /** The index a `for (i = 0; i < n; i++) if (p(s[i])) ...return;` search stops at. */
  function FirstWhere<T>(s: seq<T>, n: nat, p: T -> bool): (r: Option<nat>)
    requires n <= |s|
    ensures r.Some? ==> r.value < n && p(s[r.value]) && forall k :: 0 <= k < r.value ==> !p(s[k])
    ensures r.None? ==> forall k :: 0 <= k < n ==> !p(s[k])
  {
    if n == 0 then None
    else
      match FirstWhere(s, n - 1, p)
      case Some(i) => Some(i)
      case None => if p(s[n - 1]) then Some(n - 1) else None
  }

  /** The room `goto_room`, `lock_door` and `open_door` act on: the first of the first
      `count` rooms whose description contains `name`. */
  function FirstRoomMatching(rooms: seq<Room>, count: nat, name: string): (r: Option<nat>)
    requires count <= |rooms|
    ensures r.Some? ==> r.value < count && Contains(rooms[r.value].description, name)
    ensures r.Some? ==> forall k :: 0 <= k < r.value ==> !Contains(rooms[k].description, name)
    ensures r.None? ==> forall k :: 0 <= k < count ==> !Contains(rooms[k].description, name)
  {
    FirstWhere(rooms, count, (room: Room) => Contains(room.description, name))
  }

  /** The search depends on the descriptions alone. */
  lemma FirstRoomMatchingOnDescriptions(a: seq<Room>, b: seq<Room>, count: nat, name: string)
    requires count <= |a| && count <= |b|
    requires forall k :: 0 <= k < count ==> a[k].description == b[k].description
    ensures FirstRoomMatching(a, count, name) == FirstRoomMatching(b, count, name)
  {
  }

  /** The room table after `lock_door` (locked true) or `open_door` (locked false). */
  function WithLock(rooms: seq<Room>, count: nat, name: string, locked: bool): (r: seq<Room>)
    requires count <= |rooms|
    ensures |r| == |rooms|
    // only lock flags change, and only that of the first matching room
    ensures forall k :: 0 <= k < |rooms| ==> r[k] == rooms[k].(isLocked := r[k].isLocked)
    ensures forall k :: 0 <= k < |rooms| && r[k] != rooms[k] ==> FirstRoomMatching(rooms, count, name) == Some(k)
    ensures FirstRoomMatching(rooms, count, name).Some? ==>
      r[FirstRoomMatching(rooms, count, name).value].isLocked == locked
    ensures FirstRoomMatching(r, count, name) == FirstRoomMatching(rooms, count, name)
  {
    var r := match FirstRoomMatching(rooms, count, name)
      case None => rooms
      case Some(i) => rooms[i := rooms[i].(isLocked := locked)];
    FirstRoomMatchingOnDescriptions(rooms, r, count, name);
    r
  }

  /** Locking (or unlocking) the same room twice is the same as doing it once. */
  lemma WithLockIdempotent(rooms: seq<Room>, count: nat, name: string, locked: bool)
    requires count <= |rooms|
    ensures WithLock(WithLock(rooms, count, name, locked), count, name, locked)
         == WithLock(rooms, count, name, locked)
  {
    var once := WithLock(rooms, count, name, locked);
    var twice := WithLock(once, count, name, locked);
    assert forall k :: 0 <= k < |rooms| ==> twice[k] == once[k];
  }

  /** Of `lock_door` and `open_door` on the same name, the later one decides. */
  lemma WithLockLastWins(rooms: seq<Room>, count: nat, name: string, first: bool, second: bool)
    requires count <= |rooms|
    ensures WithLock(WithLock(rooms, count, name, first), count, name, second)
         == WithLock(rooms, count, name, second)
  {
    var a := WithLock(WithLock(rooms, count, name, first), count, name, second);
    var b := WithLock(rooms, count, name, second);
    assert forall k :: 0 <= k < |rooms| ==> a[k] == b[k];
  }

  /** The room table built by `initialize_rooms` and `initialize_items`. Slot 9 is never
      written by the C code; the model fills it with an unlocked, empty placeholder. */
  function InitialRooms(): (r: seq<Room>)
    ensures |r| == ROOM_SLOTS
    ensures r[0].kind == Cell && r[0].isLocked
    ensures forall k :: 1 <= k <= ROOM_COUNT ==> !r[k].isLocked
    ensures forall k :: 0 <= k < ROOM_COUNT ==> r[k].kind != Office
    ensures r[ROOM_COUNT].kind == Office
  {
    [ Room(Cell, "Your cell. A small, cramped space with a bed and a desk.",
           [Item("Cell Key", Key, 1, true, false)], true, 3),
      Room(Corridor, "A long corridor with security cameras and guards patrolling.", [], false, 5),
      Room(Cafeteria, "The prison cafeteria. Other inmates are eating and talking.",
           [Item("Bread", Food, 1, false, false)], false, 4),
      Room(Yard, "The prison yard. A place to socialize and exercise.", [], false, 4),
      Room(Infirmary, "The prison infirmary. Medical staff and equipment.",
           [Item("Painkillers", Medicine, 1, false, false)], false, 6),
      Room(Shower, "The prison showers. A place to clean up.", [], false, 3),
      Room(Library, "The prison library. Books and educational materials.", [], false, 4),
      Room(Workshop, "The prison workshop. Tools and materials for work.",
           [Item("Metal File", Tool, 1, true, false)], false, 5),
      Room(Office, "The manager office. A place assigned to manager", [], false, 5),
      Room(Cell, "", [], false, 0) ]
  }

  function Max(a: int, b: int): int {
    if a < b then b else a
  }

  /** The `Player` structure. `currentRoom` indexes `GameState.rooms`. */
  class Player {
    var name: string
    var health: int
    var hunger: int
    var reputation: int
    var money: int
    var sentence: int
    var inventory: array<Item>
    var inventoryCount: int
    var currentRoom: nat
    var gangAffiliation: int
    var role: Role
    var documents: array<Document>
    var documentCount: int

    ghost predicate Valid()
      reads this
    {
      && inventory.Length == MAX_INVENTORY && 0 <= inventoryCount <= MAX_INVENTORY
      && documents.Length == MAX_DOCUMENTS && 0 <= documentCount <= MAX_DOCUMENTS
    }

    /** The player half of `initialize_game`. The C code never initialises the
        document slots; the model starts them blank. */
    constructor (name: string)
      ensures Valid() && fresh(inventory) && fresh(documents)
      ensures this.name == name && role == Prisoner && currentRoom == 0
      ensures health == MAX_HEALTH && hunger == MAX_HUNGER && reputation == START_REPUTATION
      ensures money == 0 && sentence == MAX_DAYS && gangAffiliation == 0
      ensures inventoryCount == 0 && documentCount == 0
      ensures forall k :: 0 <= k < MAX_INVENTORY ==> inventory[k] == EMPTY_SLOT
    {
      this.name := name;
      role := Prisoner;
      health, hunger, reputation := MAX_HEALTH, MAX_HUNGER, START_REPUTATION;
      money, sentence, gangAffiliation := 0, MAX_DAYS, 0;
      inventory := new Item[MAX_INVENTORY](_ => EMPTY_SLOT);
      inventoryCount := 0;
      documents := new Document[MAX_DOCUMENTS](_ => Document("", "", false));
      documentCount := 0;
      currentRoom := 0;
    }

    /** `eat`: hunger goes up to the maximum, never down. */
    method Eat() returns (ate: bool)
      modifies this`hunger
      ensures ate == (old(hunger) < MAX_HUNGER)
      ensures hunger == Max(old(hunger), MAX_HUNGER)
    {
      ate := hunger < MAX_HUNGER;
      if ate {
        hunger := MAX_HUNGER;
      }
    }

    /** `work`: five more money, ten less hunger, floored at zero. */
    method Work()
      modifies this`money, this`hunger
      ensures money == old(money) + 5
      ensures hunger == Max(old(hunger) - 10, 0)
    {
      money := money + 5;
      hunger := hunger - 10;
      if hunger < 0 {
        hunger := 0;
      }
    }

    /** One iteration of `HungerThread`: ten less hunger, with no floor. */
    method HungerTick()
      modifies this`hunger
      ensures hunger == old(hunger) - 10
    {
      hunger := hunger - 10;
    }

    /** `write_document`: stores a document in the next free slot unless all ten are
        used. `is_secret` is not written by the C code, so the slot keeps its flag. */
    method WriteDocument(docName: string, content: string) returns (written: bool)
      requires Valid()
      modifies this`documentCount, documents
      ensures Valid()
      ensures written == (old(documentCount) < MAX_DOCUMENTS)
      ensures written ==> documentCount == old(documentCount) + 1
      ensures written ==> documents[..] == old(documents[..])[old(documentCount) :=
        old(documents[documentCount]).(name := docName, content := content)]
      ensures !written ==> documentCount == old(documentCount) && documents[..] == old(documents[..])
    {
      written := documentCount < MAX_DOCUMENTS;
      if written {
        documents[documentCount] := documents[documentCount].(name := docName, content := content);
        documentCount := documentCount + 1;
      }
    }
  }

  /** The `GameState` structure, without the thread handles, the lock, the formatted
      time string and the event slot. */
  class GameState {
    var currentDay: int
    var hour: int
    var minute: int
    var isGameOver: bool
    var npcs: array<Npc>
    var npcCount: int
    var isPaused: bool
    var rooms: array<Room>
    var roomCount: int

    ghost predicate Valid()
      reads this, npcs
    {
      && rooms.Length == ROOM_SLOTS && 0 < roomCount <= rooms.Length
      && npcs.Length == MAX_NPCS && 0 <= npcCount <= npcs.Length
      && forall k :: 0 <= k < npcCount ==> RoomRefOk(npcs[k].currentRoom, rooms.Length)
    }

    /** The state half of `initialize_game`. The C code fills six NPC entries, leaves
        their health, alive and busy flags uninitialised and claims eight, so the NPC
        table is a parameter here. */
    constructor (npcTable: seq<Npc>)
      requires |npcTable| <= MAX_NPCS
      requires forall k :: 0 <= k < |npcTable| ==> RoomRefOk(npcTable[k].currentRoom, ROOM_SLOTS)
      ensures Valid() && fresh(npcs) && fresh(rooms)
      ensures Now() == Time(1, START_HOUR, 0) && !isGameOver && !isPaused
      ensures rooms[..] == InitialRooms() && roomCount == ROOM_COUNT
      ensures npcCount == |npcTable| && npcs[..npcCount] == npcTable
    {
      currentDay, hour, minute := 1, START_HOUR, 0;
      isGameOver, isPaused := false, false;
      var table := InitialRooms();
      rooms := new Room[ROOM_SLOTS](k requires 0 <= k < ROOM_SLOTS => table[k]);
      roomCount := ROOM_COUNT;
      npcs := new Npc[MAX_NPCS](k =>
        if 0 <= k < |npcTable| then npcTable[k] else Npc("", Inmate, 0, 0, 0, false, None, false));
      npcCount := |npcTable|;
    }

    function Now(): Time
      reads this
    {
      Time(currentDay, hour, minute)
    }

    /** One iteration of the `TimeThread` loop. */
    method TimeStep()
      requires currentDay < LAST_DAY
      modifies this`currentDay, this`hour, this`minute
      ensures Now() == Tick(old(Now()))
    {
      if hour < HOURS_PER_DAY {
        minute := minute + 1;
        if minute == MINUTES_PER_HOUR {
          minute := 0;
          hour := hour + 1;
        }
      } else {
        hour := 0;
        currentDay := currentDay + 1;
      }
    }

    /** The `TimeThread` loop run to its end, without the one-second sleeps. */
    method RunClock()
      requires InRange(Now())
      modifies this`currentDay, this`hour, this`minute
      ensures InRange(Now()) && currentDay >= LAST_DAY
      ensures old(currentDay) < LAST_DAY ==> currentDay == LAST_DAY
      ensures old(currentDay) >= LAST_DAY ==> Now() == old(Now())
      ensures Minutes(Now()) >= Minutes(old(Now()))
      // the final time is what some number of iterations of the loop body yield
      ensures exists n: nat :: Now() == TickN(old(Now()), n)
    {
      ghost var n: nat := 0;
      while currentDay < LAST_DAY
        invariant InRange(Now())
        invariant old(currentDay) < LAST_DAY ==> currentDay <= LAST_DAY
        invariant old(currentDay) >= LAST_DAY ==> Now() == old(Now())
        invariant Minutes(Now()) >= Minutes(old(Now()))
        invariant Now() == TickN(old(Now()), n)
        decreases LAST_DAY - currentDay, HOURS_PER_DAY - hour, MINUTES_PER_HOUR - minute
      {
        TickNSplit(old(Now()), n, 1);
        TimeStep();
        n := n + 1;
      }
    }

    /** The search loop shared by `goto_room`, `lock_door` and `open_door`. */
    method LocateRoom(name: string) returns (found: Option<nat>)
      requires Valid()
      ensures found == FirstRoomMatching(rooms[..], roomCount, name)
    {
      var i := 0;
      while i < roomCount
        invariant 0 <= i <= roomCount
        invariant forall k :: 0 <= k < i ==> !Contains(rooms[k].description, name)
      {
        if Contains(rooms[i].description, name) {
          return Some(i);
        }
        i := i + 1;
      }
      return None;
    }

    /** `lock_door`: locks the first room whose description contains `name`. */
    method LockDoor(name: string) returns (found: bool)
      requires Valid()
      modifies rooms
      ensures Valid()
      ensures found == FirstRoomMatching(old(rooms[..]), roomCount, name).Some?
      ensures rooms[..] == WithLock(old(rooms[..]), roomCount, name, true)
    {
      var i := LocateRoom(name);
      if i.Some? {
        rooms[i.value] := rooms[i.value].(isLocked := true);
      }
      found := i.Some?;
    }

    /** `open_door`: unlocks the first room whose description contains `name`. */
    method OpenDoor(name: string) returns (found: bool)
      requires Valid()
      modifies rooms
      ensures Valid()
      ensures found == FirstRoomMatching(old(rooms[..]), roomCount, name).Some?
      ensures rooms[..] == WithLock(old(rooms[..]), roomCount, name, false)
    {
      var i := LocateRoom(name);
      if i.Some? {
        rooms[i.value] := rooms[i.value].(isLocked := false);
      }
      found := i.Some?;
    }

    /** `set_alarm`: "on" clears the busy flag of every inmate (and of nobody else),
        "off" changes nothing, anything else is refused. */
    method SetAlarm(status: string) returns (outcome: AlarmOutcome)
      requires Valid()
      modifies npcs
      ensures Valid()
      ensures outcome == (if status == "on" then AlarmOn else if status == "off" then AlarmOff else AlarmInvalid)
      ensures forall k :: 0 <= k < npcs.Length ==>
        npcs[k] == (if outcome == AlarmOn && k < npcCount && old(npcs[k]).kind == Inmate
                    then old(npcs[k]).(isBusy := false) else old(npcs[k]))
    {
      if status == "on" {
        var i := 0;
        while i < npcCount
          invariant 0 <= i <= npcCount
          invariant forall k :: 0 <= k < npcs.Length ==>
            npcs[k] == (if k < i && old(npcs[k]).kind == Inmate then old(npcs[k]).(isBusy := false) else old(npcs[k]))
        {
          if npcs[i].kind == Inmate {
            npcs[i] := npcs[i].(isBusy := false);
          }
          i := i + 1;
        }
        outcome := AlarmOn;
      } else if status == "off" {
        outcome := AlarmOff;
      } else {
        outcome := AlarmInvalid;
      }
    }
  }

  datatype AlarmOutcome = AlarmOn | AlarmOff | AlarmInvalid
}
