/**
 * The command routines of prison_game.c that act on both the player and the world:
 * `goto_room`, `use_item`, `search_bed`, `fight`, and the checks the main loop makes
 * after every command. The raw `rand()` value each of them draws is a parameter.
 */
module Commands {
  import opened Wrappers
  import opened World

  /** `search_bed` finds the note when `rand() % 100` is below this. */
  const SEARCH_CHANCE := 30
  /** `fight` is won when `rand() % 100` is below this. */
  const WIN_CHANCE := 50

  datatype MoveOutcome = Moved | DoorLocked | RoomNotFound
  datatype UseOutcome = UnlockedDoor | CannotUse | NoSuchItem
  datatype SearchOutcome = NoBed | FoundNothing | FoundNote(stored: bool)
  datatype FightOutcome = Won(opponent: nat) | Lost(opponent: nat) | NoOpponent
  datatype Ending = Continues | Died | Served

  /** The player and the world agree: the player's room is a slot of the room table. */
  ghost predicate Linked(player: Player, state: GameState)
    reads player, state, state.npcs
  {
    player.Valid() && state.Valid() && player.currentRoom < state.rooms.Length
  }

  /** The item `use_item` acts on: the first of the first `count` slots with that name. */
  function FirstItemNamed(items: seq<Item>, count: nat, name: string): (r: Option<nat>)
    requires count <= |items|
    ensures r.Some? ==> r.value < count && items[r.value].name == name
    ensures r.Some? ==> forall k :: 0 <= k < r.value ==> items[k].name != name
    ensures r.None? ==> forall k :: 0 <= k < count ==> items[k].name != name
  {
    FirstWhere(items, count, (item: Item) => item.name == name)
  }

  /** Whom `fight` challenges: the first inmate that is not busy (alive or not). */
  predicate IsOpponent(npc: Npc) {
    npc.kind == Inmate && !npc.isBusy
  }

  function FirstOpponent(npcs: seq<Npc>, count: nat): (r: Option<nat>)
    requires count <= |npcs|
    ensures r.Some? ==> r.value < count && IsOpponent(npcs[r.value])
    ensures r.Some? ==> forall k :: 0 <= k < r.value ==> !IsOpponent(npcs[k])
    ensures r.None? ==> forall k :: 0 <= k < count ==> !IsOpponent(npcs[k])
  {
    FirstWhere(npcs, count, IsOpponent)
  }

  /** `goto_room`: the first room (below `room_count`) whose description contains the
      name is entered if it is unlocked; a locked or missing room leaves the player
      where they are. */
  method GotoRoom(player: Player, state: GameState, roomName: string) returns (outcome: MoveOutcome)
    requires Linked(player, state)
    modifies player`currentRoom
    ensures Linked(player, state)
    ensures var target := FirstRoomMatching(state.rooms[..], state.roomCount, roomName);
      outcome == (if target.None? then RoomNotFound
                  else if state.rooms[target.value].isLocked then DoorLocked
                  else Moved)
    ensures outcome == Moved ==>
      player.currentRoom == FirstRoomMatching(state.rooms[..], state.roomCount, roomName).value
      && player.currentRoom < state.roomCount && !state.rooms[player.currentRoom].isLocked
    ensures outcome != Moved ==> player.currentRoom == old(player.currentRoom)
  {
    var target := state.LocateRoom(roomName);
    if target.None? {
      return RoomNotFound;
    }
    if state.rooms[target.value].isLocked {
      return DoorLocked;
    }
    player.currentRoom := target.value;
    return Moved;
  }

  /** `use_item`: a key used in a locked room unlocks that room; any other item the
      player holds cannot be used; an item the player lacks is reported missing. */
  method UseItem(player: Player, state: GameState, itemName: string) returns (outcome: UseOutcome)
    requires Linked(player, state)
    modifies state.rooms
    ensures Linked(player, state)
    ensures var i := FirstItemNamed(player.inventory[..], player.inventoryCount, itemName);
      outcome == (if i.None? then NoSuchItem
                  else if player.inventory[i.value].kind == Key && old(state.rooms[player.currentRoom].isLocked)
                  then UnlockedDoor
                  else CannotUse)
    ensures outcome == UnlockedDoor ==>
      state.rooms[..] == old(state.rooms[..])[player.currentRoom :=
        old(state.rooms[player.currentRoom]).(isLocked := false)]
    ensures outcome != UnlockedDoor ==> state.rooms[..] == old(state.rooms[..])
  {
    var i := 0;
    while i < player.inventoryCount
      invariant 0 <= i <= player.inventoryCount
      invariant forall k :: 0 <= k < i ==> player.inventory[k].name != itemName
    {
      if player.inventory[i].name == itemName {
        if player.inventory[i].kind == Key && state.rooms[player.currentRoom].isLocked {
          state.rooms[player.currentRoom] := state.rooms[player.currentRoom].(isLocked := false);
          return UnlockedDoor;
        }
        return CannotUse;
      }
      i := i + 1;
    }
    return NoSuchItem;
  }

  /** `search_bed`: only in a cell, and only when `roll % 100` is below 30, is the
      hidden note found; it goes into the next inventory slot when there is one, and is
      lost otherwise. */
  method SearchBed(player: Player, state: GameState, roll: nat) returns (outcome: SearchOutcome)
    requires Linked(player, state)
    modifies player`inventoryCount, player.inventory
    ensures Linked(player, state)
    ensures outcome == (if state.rooms[player.currentRoom].kind != Cell then NoBed
                        else if roll % 100 >= SEARCH_CHANCE then FoundNothing
                        else FoundNote(old(player.inventoryCount) < MAX_INVENTORY))
    ensures outcome == FoundNote(true) ==>
      player.inventoryCount == old(player.inventoryCount) + 1
      && player.inventory[..] == old(player.inventory[..])[old(player.inventoryCount) := HIDDEN_NOTE]
    ensures outcome != FoundNote(true) ==>
      player.inventoryCount == old(player.inventoryCount) && player.inventory[..] == old(player.inventory[..])
  {
    if state.rooms[player.currentRoom].kind != Cell {
      return NoBed;
    }
    if roll % 100 >= SEARCH_CHANCE {
      return FoundNothing;
    }
    if player.inventoryCount < MAX_INVENTORY {
      player.inventory[player.inventoryCount] := HIDDEN_NOTE;
      player.inventoryCount := player.inventoryCount + 1;
      return FoundNote(true);
    }
    return FoundNote(false);
  }

  /** `fight`: the first inmate that is not busy is challenged, and the player wins
      when `roll % 100` is below 50. A win gives the player five reputation and costs
      the opponent twenty relationship; a loss costs the player twenty health and five
      reputation. Nothing is clamped. */
  method Fight(player: Player, state: GameState, roll: nat) returns (outcome: FightOutcome)
    requires Linked(player, state)
    modifies player`reputation, player`health, state.npcs
    ensures Linked(player, state)
    ensures var o := FirstOpponent(old(state.npcs[..]), state.npcCount);
      outcome == (if o.None? then NoOpponent else if roll % 100 < WIN_CHANCE then Won(o.value) else Lost(o.value))
    ensures outcome.Won? ==>
      && player.reputation == old(player.reputation) + 5 && player.health == old(player.health)
      && state.npcs[..] == old(state.npcs[..])[outcome.opponent :=
           old(state.npcs[outcome.opponent]).(relationship := old(state.npcs[outcome.opponent].relationship) - 20)]
    ensures outcome.Lost? ==>
      && player.reputation == old(player.reputation) - 5 && player.health == old(player.health) - 20
      && state.npcs[..] == old(state.npcs[..])
    ensures outcome.NoOpponent? ==>
      && player.reputation == old(player.reputation) && player.health == old(player.health)
      && state.npcs[..] == old(state.npcs[..])
  {
    var i := 0;
    while i < state.npcCount
      invariant 0 <= i <= state.npcCount
      invariant forall k :: 0 <= k < i ==> !IsOpponent(state.npcs[k])
    {
      if state.npcs[i].kind == Inmate && !state.npcs[i].isBusy {
        if roll % 100 < WIN_CHANCE {
          player.reputation := player.reputation + 5;
          state.npcs[i] := state.npcs[i].(relationship := state.npcs[i].relationship - 20);
          return Won(i);
        } else {
          player.health := player.health - 20;
          player.reputation := player.reputation - 5;
          return Lost(i);
        }
      }
      i := i + 1;
    }
    return NoOpponent;
  }

  /** What the main loop does after each command: hunger is floored at zero, then death
      is tested before the served sentence, and either ends the game. */
  method EndTurn(player: Player, state: GameState) returns (ending: Ending)
    modifies player`hunger, state`isGameOver
    ensures player.hunger == Max(old(player.hunger), 0)
    ensures ending == (if player.health <= 0 then Died
                       else if state.currentDay >= player.sentence then Served
                       else Continues)
    ensures state.isGameOver == (old(state.isGameOver) || ending != Continues)
  {
    if player.hunger < 0 {
      player.hunger := 0;
    }
    if player.health <= 0 {
      state.isGameOver := true;
      return Died;
    } else if state.currentDay >= player.sentence {
      state.isGameOver := true;
      return Served;
    }
    return Continues;
  }

  /** A new player works and then eats: money 5, hunger 90, then hunger back at 100. */
  method NewPlayerWorksAndEats() {
    var player := new Player("inmate");
    player.Work();
    assert player.money == 5 && player.hunger == MAX_HUNGER - 10;
    var ate := player.Eat();
    assert ate && player.hunger == MAX_HUNGER;
  }
}
