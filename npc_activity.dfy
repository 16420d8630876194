/**
 * One pass of the `npc_main_thread` loop (prison_game.c:828-865): every NPC that is
 * alive and not busy draws a room and walks there unless an inmate drew the office or
 * either door is locked; a walking NPC may then be busy for a while with an activity
 * that only prints. The `rand()` values a pass consumes are parameters.
 */
module NpcActivity {
  import opened Wrappers
  import opened World

  /** `rand() % 100` below this starts an activity. */
  const ACTIVITY_CHANCE := 20

  /** The two `rand()` values one NPC's turn consumes: the room draw and the activity draw. */
  datatype NpcDraw = NpcDraw(roomRoll: nat, activityRoll: nat)

  /** The rule that lets an NPC into `target`: no inmate enters an office, and neither
      the room it stands in nor the target may be locked. */
  predicate MayEnter(rooms: seq<Room>, npc: Npc, target: nat)
    requires target < |rooms| && RoomRefOk(npc.currentRoom, |rooms|)
  {
    && !(npc.kind == Inmate && rooms[target].kind == Office)
    && !(npc.currentRoom.Some? && rooms[npc.currentRoom.value].isLocked)
    && !rooms[target].isLocked
  }

  /** What one NPC's turn leaves behind. The busy flag an activity sets is cleared
      again before the turn ends, so only the room can change. */
  function NpcStep(rooms: seq<Room>, roomCount: nat, npc: Npc, draw: NpcDraw): (r: Npc)
    requires 0 < roomCount <= |rooms| && RoomRefOk(npc.currentRoom, |rooms|)
    ensures r == npc.(currentRoom := r.currentRoom)
    ensures RoomRefOk(r.currentRoom, |rooms|)
    ensures !npc.isAlive || npc.isBusy ==> r == npc
    ensures r != npc ==>
      && r.currentRoom == Some(draw.roomRoll % roomCount)
      && MayEnter(rooms, npc, draw.roomRoll % roomCount)
    ensures npc.isAlive && !npc.isBusy && MayEnter(rooms, npc, draw.roomRoll % roomCount) ==>
      r.currentRoom == Some(draw.roomRoll % roomCount)
  {
    if !npc.isAlive || npc.isBusy then npc
    else
      var target := draw.roomRoll % roomCount;
      if npc.kind == Inmate && rooms[target].kind == Office then npc
      else if (npc.currentRoom.Some? && rooms[npc.currentRoom.value].isLocked) || rooms[target].isLocked then npc
      else npc.(currentRoom := Some(target))
  }

  /** With `room_count` at 8 the draw never reaches the office in slot 8, so the
      inmate-office guard never fires on the initial room table. */
  lemma OfficeNeverDrawn(draw: NpcDraw)
    ensures InitialRooms()[draw.roomRoll % ROOM_COUNT].kind != Office
  {
  }

  /** A step on the initial table: the cell in slot 0 is locked, so nobody walks into
      it or out of it, and anybody else alive and free walks wherever the draw says. */
  lemma InitialTableStep(npc: Npc, draw: NpcDraw)
    requires RoomRefOk(npc.currentRoom, ROOM_SLOTS)
    requires npc.isAlive && !npc.isBusy
    ensures var r := NpcStep(InitialRooms(), ROOM_COUNT, npc, draw);
      r.currentRoom == (if npc.currentRoom == Some(0) || draw.roomRoll % ROOM_COUNT == 0
                        then npc.currentRoom else Some(draw.roomRoll % ROOM_COUNT))
  {
    var rooms := InitialRooms();
    var target := draw.roomRoll % ROOM_COUNT;
    OfficeNeverDrawn(draw);
    if npc.currentRoom.Some? && npc.currentRoom.value != 0 {
      assert !rooms[npc.currentRoom.value].isLocked;
    }
    if target != 0 {
      assert !rooms[target].isLocked;
    }
  }

  /** One pass of the thread's `for` loop over the first `npc_count` NPCs. */
  method NpcPass(state: GameState, draws: seq<NpcDraw>)
    requires state.Valid() && |draws| == state.npcCount
    modifies state.npcs
    ensures state.Valid()
    ensures forall k :: 0 <= k < state.npcCount ==>
      state.npcs[k] == NpcStep(state.rooms[..], state.roomCount, old(state.npcs[k]), draws[k])
    ensures forall k :: state.npcCount <= k < state.npcs.Length ==> state.npcs[k] == old(state.npcs[k])
    // every NPC the pass processes (alive and free) ends it free
    ensures forall k :: 0 <= k < state.npcCount && old(state.npcs[k]).isAlive && !old(state.npcs[k]).isBusy ==>
      !state.npcs[k].isBusy
  {
    var i := 0;
    while i < state.npcCount
      invariant 0 <= i <= state.npcCount
      invariant state.Valid()
      invariant forall k :: 0 <= k < i ==>
        state.npcs[k] == NpcStep(state.rooms[..], state.roomCount, old(state.npcs[k]), draws[k])
      invariant forall k :: i <= k < state.npcs.Length ==> state.npcs[k] == old(state.npcs[k])
    {
      var npc := state.npcs[i];
      if npc.isAlive && !npc.isBusy {
        var target := draws[i].roomRoll % state.roomCount;
        if !(npc.kind == Inmate && state.rooms[target].kind == Office)
          && !((npc.currentRoom.Some? && state.rooms[npc.currentRoom.value].isLocked) || state.rooms[target].isLocked)
        {
          state.npcs[i] := npc.(currentRoom := Some(target));
          if draws[i].activityRoll % 100 < ACTIVITY_CHANCE {
            // the activity message is printed and the thread sleeps while the NPC is busy
            state.npcs[i] := state.npcs[i].(isBusy := true);
            state.npcs[i] := state.npcs[i].(isBusy := false);
          }
        }
      }
      i := i + 1;
    }
  }
}
