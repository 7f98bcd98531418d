/** SmartHostelServer.HostelManager: the room registry of the stand-alone server. It keeps
    the rooms in an ordered list and writes a snapshot of them after every change. The
    snapshot file is the field `disk`: `None` when there is no file, otherwise its text. */
module SmartHostelServer {
  import opened Wrappers
  import opened JavaString
  import opened Rooms
  import opened SnapshotJson
  import opened SnapshotRoundTrip

  /** What loadFromDisk installs for the file `disk`: nothing when the file is missing,
      blank, or names no usable room. */
  function LoadedRooms(disk: Option<string>): (r: Option<seq<Room>>)
    ensures r.Some? ==> r.value != [] && AllWellFormed(r.value)
  {
    if disk.None? then None
    else
      var raw := Trim(disk.value);
      if raw == [] then None
      else
        var loaded := DecodeRooms(raw);
        if loaded == [] then None else Some(loaded)
  }

  class HostelManager {
    /** The registry, in insertion (or snapshot) order. */
    var rooms: seq<Room>
    /** The snapshot file. */
    var disk: Option<string>

    /** Every stored room has a non-empty trimmed number and a positive capacity. */
    predicate Valid()
      reads this
    {
      AllWellFormed(rooms)
    }

    /** Loads the snapshot, or else installs the five seed rooms and writes them out. */
    constructor (snapshot: Option<string>)
      ensures Valid()
      ensures LoadedRooms(snapshot).Some? ==> rooms == LoadedRooms(snapshot).value && disk == snapshot
      ensures LoadedRooms(snapshot).None? ==> rooms == SeedRooms() && disk == Some(JsonArray(SeedRooms()))
    {
      rooms := [];
      disk := snapshot;
      new;
      var loaded := LoadFromDisk();
      if !loaded {
        var seed := SeedRooms();
        rooms := rooms + [seed[0]];
        rooms := rooms + [seed[1]];
        rooms := rooms + [seed[2]];
        rooms := rooms + [seed[3]];
        rooms := rooms + [seed[4]];
        SeedAppended(seed);
        SeedWellFormed();
        SaveToDisk();
      }
    }

    /** loadFromDisk: replaces the list by the snapshot's rooms when there are any. */
    method LoadFromDisk() returns (loaded: bool)
      modifies this
      ensures loaded == LoadedRooms(disk).Some?
      ensures rooms == if loaded then LoadedRooms(disk).value else old(rooms)
      ensures disk == old(disk)
    {
      if disk.None? {
        return false;
      }
      var raw := Trim(disk.value);
      if raw == [] {
        return false;
      }
      var parsed := ParseRoomsJsonArray(raw);
      if parsed == [] {
        return false;
      }
      rooms := parsed;
      return true;
    }

    /** saveToDisk: writes the snapshot of the current list. */
    method SaveToDisk()
      modifies this
      ensures rooms == old(rooms)
      ensures disk == Some(JsonArray(rooms))
    {
      var json := ToJsonArray(rooms);
      disk := Some(json);
    }

    /** addRoom: trims the number, rejects a blank number, a capacity below one and a number
        already stored (ignoring case); otherwise appends the room and saves. */
    method AddRoom(roomNo: Option<string>, capacity: int32, ac: bool, washroom: bool) returns (added: bool)
      requires Valid()
      modifies this
      ensures Valid()
      ensures var rNo := Trim(roomNo.GetOr(""));
              added == (rNo != [] && capacity > 0 && !HasNumber(old(rooms), rNo))
      ensures added ==> rooms == old(rooms) + [Room(Trim(roomNo.GetOr("")), capacity, ac, washroom)]
                        && disk == Some(JsonArray(rooms))
      ensures !added ==> rooms == old(rooms) && disk == old(disk)
      ensures DistinctNumbers(old(rooms)) ==> DistinctNumbers(rooms)
    {
      var rNo := if roomNo.None? then "" else Trim(roomNo.value);
      if rNo == [] || capacity <= 0 {
        return false;
      }
      var taken := HasNumberLoop(rNo);
      if taken {
        return false;
      }
      var room := Room(rNo, capacity, ac, washroom);
      assert WellFormedRoom(room) by {
        TrimIdempotent(roomNo.GetOr(""));
      }
      AppendWellFormed(rooms, room);
      if DistinctNumbers(rooms) {
        AppendDistinct(rooms, room);
      }
      rooms := rooms + [room];
      SaveToDisk();
      return true;
    }

    /** The loop of addRoom over the stored rooms: is `rNo` already taken, ignoring case? */
    method HasNumberLoop(rNo: string) returns (taken: bool)
      ensures taken == HasNumber(rooms, rNo)
    {
      for i := 0 to |rooms|
        invariant forall k | 0 <= k < i :: !EqualsIgnoreCase(rooms[k].roomNo, rNo)
      {
        if EqualsIgnoreCase(rooms[i].roomNo, rNo) {
          return true;
        }
      }
      return false;
    }

    /** getAllRooms: a copy of the list. */
    method GetAllRooms() returns (all: seq<Room>)
      ensures all == rooms
    {
      all := rooms;
    }

    /** searchRooms over the stored list; the list itself is left as it is. */
    method SearchRooms(minCapacity: int32, requireAC: bool, requireWashroom: bool) returns (found: seq<Room>)
      ensures found == Search(rooms, minCapacity, requireAC, requireWashroom)
    {
      found := Search(rooms, minCapacity, requireAC, requireWashroom);
    }

    /** allocateRoom over the stored list; the list itself is left as it is. */
    method AllocateRoom(students: int32, needsAC: bool, needsWashroom: bool) returns (room: Option<Room>)
      ensures room == Allocate(rooms, students, needsAC, needsWashroom)
    {
      var candidates := SearchRooms(students, needsAC, needsWashroom);
      if candidates == [] {
        return None;
      }
      SortedByRefines(candidates);
      SortSorted(ByCapacity, candidates);
      var sorted := Sort(ByCapacity, candidates);
      return Some(sorted[0]);
    }
  }

  /** The five appends of the seed path, one room at a time, give the seed list. */
  lemma SeedAppended(seed: seq<Room>)
    requires |seed| == 5
    ensures [] + [seed[0]] + [seed[1]] + [seed[2]] + [seed[3]] + [seed[4]] == seed
  {
  }

  /** A restart reads back what the last save wrote: nothing for an empty list, which
      leaves the seed path to run again, and otherwise only the first room. */
  lemma RestartKeepsFirstRoom(rooms: seq<Room>)
    requires AllWellFormed(rooms) && NoBackslashes(rooms)
    ensures LoadedRooms(Some(JsonArray(rooms))) == if rooms == [] then None else Some([rooms[0]])
  {
    var t := JsonArray(rooms);
    assert t == "[" + JoinObjects(rooms) + "]";
    assert t[0] == '[' && t[|t| - 1] == ']';
    TrimKeeps(t);
    DecodeSnapshot(rooms);
  }

  lemma SeedNoBackslashes()
    ensures NoBackslashes(SeedRooms())
  {
  }

  /** A server started without a snapshot, then restarted, holds room 101 alone. */
  lemma SeedRestart()
    ensures LoadedRooms(Some(JsonArray(SeedRooms()))) == Some([Room("101", 1, true, true)])
  {
    SeedWellFormed();
    SeedNoBackslashes();
    RestartKeepsFirstRoom(SeedRooms());
  }
}
