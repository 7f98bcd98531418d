/** The Spring HostelService: the same registry as HostelManager, with three differences.
    Numbers are compared after trim and lower-case, capacity is never checked, and there
    is no snapshot file. Rooms are stored as values. */
module Service {
  import opened Wrappers
  import opened JavaString
  import opened Rooms

  /** normalizeRoomNo: `null` becomes the empty text, anything else is trimmed and
      lower-cased. */
  function NormalizeRoomNo(roomNo: Option<string>): string {
    if roomNo.None? then "" else ToLower(Trim(roomNo.value))
  }

  /** The normalised number is empty exactly for `null` and for a blank number. */
  lemma NormalizeEmptyIff(roomNo: Option<string>)
    ensures NormalizeRoomNo(roomNo) == [] <==> roomNo.None? || AllTrimmable(roomNo.value)
  {
  }

  /** Lower-casing keeps the first and last characters untrimmable. */
  lemma ToLowerKeepsTrimmed(t: string)
    requires Trim(t) == t
    ensures Trim(ToLower(t)) == ToLower(t)
  {
    if t != [] {
      TrimKeeps(ToLower(t));
    }
  }

  /** A normalised number normalises to itself. */
  lemma NormalizeIdempotent(roomNo: Option<string>)
    ensures NormalizeRoomNo(Some(NormalizeRoomNo(roomNo))) == NormalizeRoomNo(roomNo)
  {
    if roomNo.Some? {
      var t := Trim(roomNo.value);
      TrimIdempotent(roomNo.value);
      ToLowerKeepsTrimmed(t);
      ToLowerIdempotent(t);
    }
  }

  /** The stored room's number normalises to a text equal to `n` ignoring case. */
  predicate NormalizedMatch(r: Room, n: string) {
    EqualsIgnoreCase(NormalizeRoomNo(Some(r.roomNo)), n)
  }

  /** Some stored number normalises to a text equal to `n` ignoring case. */
  predicate NormalizedTaken(rooms: seq<Room>, n: string) {
    exists i | 0 <= i < |rooms| :: NormalizedMatch(rooms[i], n)
  }

  /** Every stored number is non-empty and trimmed (capacities are unconstrained). */
  predicate TrimmedNumbers(rooms: seq<Room>) {
    forall i | 0 <= i < |rooms| :: rooms[i].roomNo != [] && Trim(rooms[i].roomNo) == rooms[i].roomNo
  }

  /** One stored (trimmed) number against a candidate. */
  lemma NormalizedPairIff(y: string, x: string)
    requires Trim(y) == y
    ensures EqualsIgnoreCase(NormalizeRoomNo(Some(y)), NormalizeRoomNo(Some(x))) <==> EqualsIgnoreCase(y, Trim(x))
  {
    var tx := Trim(x);
    EqualsIgnoreCaseIff(ToLower(y), ToLower(tx));
    ToLowerIdempotent(y);
    ToLowerIdempotent(tx);
    EqualsIgnoreCaseIff(y, tx);
  }

  /** Comparing normalised numbers ignoring case is comparing the trimmed numbers ignoring
      case: the Spring registry rejects the same duplicates as HostelManager. */
  lemma NormalizedTakenIff(rooms: seq<Room>, x: string)
    requires TrimmedNumbers(rooms)
    ensures NormalizedTaken(rooms, NormalizeRoomNo(Some(x))) <==> HasNumber(rooms, Trim(x))
  {
    var n := NormalizeRoomNo(Some(x));
    if NormalizedTaken(rooms, n) {
      var i :| 0 <= i < |rooms| && NormalizedMatch(rooms[i], n);
      NormalizedPairIff(rooms[i].roomNo, x);
    }
    if HasNumber(rooms, Trim(x)) {
      var i :| 0 <= i < |rooms| && EqualsIgnoreCase(rooms[i].roomNo, Trim(x));
      NormalizedPairIff(rooms[i].roomNo, x);
    }
  }

  class HostelService {
    /** The registry, in insertion order. */
    var rooms: seq<Room>

    predicate Valid()
      reads this
    {
      TrimmedNumbers(rooms)
    }

    /** The constructor adds the five seed rooms through addRoom; every add succeeds. */
    constructor ()
      ensures Valid() && rooms == SeedRooms()
    {
      rooms := [];
      new;
      var seed := SeedRooms();
      var ok;
      ok := AddSeedRoom(seed, 0);
      ok := AddSeedRoom(seed, 1);
      ok := AddSeedRoom(seed, 2);
      ok := AddSeedRoom(seed, 3);
      ok := AddSeedRoom(seed, 4);
      assert seed[..5] == seed;
    }

    /** One of the constructor's five adds: the `k`-th seed room goes in. */
    method AddSeedRoom(seed: seq<Room>, k: nat) returns (added: bool)
      requires seed == SeedRooms() && k < 5 && rooms == seed[..k]
      modifies this
      ensures added && rooms == seed[..k + 1] && Valid()
    {
      SeedStep(k);
      var r := seed[k];
      added := AddRoom(Some(r.roomNo), r.capacity, r.hasAC, r.hasAttachedWashroom);
    }

    /** addRoom: rejects a number that is `null` or blank, or one whose normalised form is
        already taken; otherwise appends the room with its number trimmed, whatever its
        capacity. */
    method AddRoom(roomNo: Option<string>, capacity: int32, ac: bool, washroom: bool) returns (added: bool)
      requires Valid()
      modifies this
      ensures Valid()
      ensures added == (NormalizeRoomNo(roomNo) != [] && !NormalizedTaken(old(rooms), NormalizeRoomNo(roomNo)))
      ensures added ==> rooms == old(rooms) + [Room(Trim(roomNo.value), capacity, ac, washroom)]
      ensures !added ==> rooms == old(rooms)
    {
      var normalized := NormalizeRoomNo(roomNo);
      if normalized == [] {
        return false;
      }
      var taken := NormalizedTakenLoop(normalized);
      if taken {
        return false;
      }
      var room := Room(Trim(roomNo.value), capacity, ac, washroom);
      TrimIdempotent(roomNo.value);
      AppendTrimmed(rooms, room);
      rooms := rooms + [room];
      return true;
    }

    /** The loop of addRoom over the stored rooms. */
    method NormalizedTakenLoop(normalized: string) returns (taken: bool)
      ensures taken == NormalizedTaken(rooms, normalized)
    {
      for i := 0 to |rooms|
        invariant forall k | 0 <= k < i :: !NormalizedMatch(rooms[k], normalized)
      {
        if NormalizedMatch(rooms[i], normalized) {
          return true;
        }
      }
      return false;
    }

    /** getAllRooms: a copy of the list. */
    method GetAllRooms() returns (all: seq<Room>)
      ensures all == rooms
    {
      all := rooms;
    }

    /** searchRooms: the same filter and order as HostelManager; read-only. */
    method SearchRooms(minCapacity: int32, requireAC: bool, requireWashroom: bool) returns (found: seq<Room>)
      ensures found == Search(rooms, minCapacity, requireAC, requireWashroom)
    {
      found := Search(rooms, minCapacity, requireAC, requireWashroom);
    }

    /** allocateRoom: empty when nothing matches, otherwise the first candidate after the
        stable re-sort on capacity. */
    method AllocateRoom(students: int32, needsAC: bool, needsWashroom: bool) returns (room: Option<Room>)
      ensures room == Allocate(rooms, students, needsAC, needsWashroom)
    {
      var candidates := SearchRooms(students, needsAC, needsWashroom);
      if candidates == [] {
        return None;
      }
      SortedByRefines(candidates);
      SortSorted(ByCapacity, candidates);
      var sorted := Sort(ByCapacity, candidates);
      return Some(sorted[0]);
    }
  }

  lemma AppendTrimmed(rooms: seq<Room>, r: Room)
    requires TrimmedNumbers(rooms) && r.roomNo != [] && Trim(r.roomNo) == r.roomNo
    ensures TrimmedNumbers(rooms + [r])
  {
    var t := rooms + [r];
    forall i | 0 <= i < |t| ensures t[i].roomNo != [] && Trim(t[i].roomNo) == t[i].roomNo {
      if i < |rooms| {
        assert t[i] == rooms[i];
      }
    }
  }

  /** Before the `k`-th add of the constructor the list is the first `k` seed rooms, and
      the `k`-th seed number is neither blank nor taken. */
  lemma SeedStep(k: nat)
    requires k < 5
    ensures var seed := SeedRooms();
            TrimmedNumbers(seed[..k]) && NormalizeRoomNo(Some(seed[k].roomNo)) != []
            && !NormalizedTaken(seed[..k], NormalizeRoomNo(Some(seed[k].roomNo)))
            && Trim(seed[k].roomNo) == seed[k].roomNo && seed[..k] + [seed[k]] == seed[..k + 1]
  {
    var seed := SeedRooms();
    SeedValid();
    var front := seed[..k];
    assert TrimmedNumbers(front) by {
      forall i | 0 <= i < k ensures front[i].roomNo != [] && Trim(front[i].roomNo) == front[i].roomNo {
        assert front[i] == seed[i];
      }
    }
    assert !AllTrimmable(seed[k].roomNo) by {
      assert !IsTrimmable(seed[k].roomNo[0]);
    }
    NormalizedTakenIff(front, seed[k].roomNo);
    forall i | 0 <= i < k ensures !EqualsIgnoreCase(front[i].roomNo, seed[k].roomNo) {
      assert front[i] == seed[i];
    }
  }

  /** Capacity is not checked: a room of capacity zero is stored. */
  lemma ZeroCapacityAccepted(rooms: seq<Room>, x: string)
    requires TrimmedNumbers(rooms) && !AllTrimmable(x) && !HasNumber(rooms, Trim(x))
    ensures NormalizeRoomNo(Some(x)) != [] && !NormalizedTaken(rooms, NormalizeRoomNo(Some(x)))
  {
    NormalizedTakenIff(rooms, x);
  }
}
