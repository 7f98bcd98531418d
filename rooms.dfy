/** The registry logic that SmartHostelServer.HostelManager and the Spring HostelService
    share: the room value, the search filter, the (capacity, room number) order,
    best-fit allocation and the five seed rooms. */
module Rooms {
  import opened Wrappers
  import opened JavaString

  /** A room as the registry stores it. */
  datatype Room = Room(roomNo: string, capacity: int32, hasAC: bool, hasAttachedWashroom: bool)

  /** Every stored number is non-empty and already trimmed, and the capacity is positive. */
  predicate WellFormedRoom(r: Room) {
    r.roomNo != [] && Trim(r.roomNo) == r.roomNo && r.capacity >= 1
  }

  predicate AllWellFormed(rooms: seq<Room>) {
    forall i | 0 <= i < |rooms| :: WellFormedRoom(rooms[i])
  }

  /** No two stored numbers are equal ignoring case. */
  predicate DistinctNumbers(rooms: seq<Room>) {
    forall i, j | 0 <= i < j < |rooms| :: !EqualsIgnoreCase(rooms[i].roomNo, rooms[j].roomNo)
  }

  /** Some stored number equals `roomNo` ignoring case. */
  predicate HasNumber(rooms: seq<Room>, roomNo: string) {
    exists i | 0 <= i < |rooms| :: EqualsIgnoreCase(rooms[i].roomNo, roomNo)
  }

  /** Appending a well-formed room keeps every room well formed. */
  lemma AppendWellFormed(rooms: seq<Room>, r: Room)
    requires AllWellFormed(rooms) && WellFormedRoom(r)
    ensures AllWellFormed(rooms + [r])
  {
    var t := rooms + [r];
    forall i | 0 <= i < |t| ensures WellFormedRoom(t[i]) {
      if i < |rooms| {
        assert t[i] == rooms[i];
      }
    }
  }

  /** Appending a room whose number is not stored yet keeps the numbers distinct. */
  lemma AppendDistinct(rooms: seq<Room>, r: Room)
    requires DistinctNumbers(rooms) && !HasNumber(rooms, r.roomNo)
    ensures DistinctNumbers(rooms + [r])
  {
    var t := rooms + [r];
    forall i, j | 0 <= i < j < |t| ensures !EqualsIgnoreCase(t[i].roomNo, t[j].roomNo) {
      assert t[i] == rooms[i];
      if j < |rooms| {
        assert t[j] == rooms[j];
      }
    }
  }

  // ---------------------------------------------------------------------------
  // Seed data
  // ---------------------------------------------------------------------------

  /** The five rooms installed when there is no usable snapshot. */
  function SeedRooms(): (rooms: seq<Room>)
    ensures |rooms| == 5
  {
    [ Room("101", 1, true, true),
      Room("102", 2, false, true),
      Room("103", 4, true, false),
      Room("104", 2, true, true),
      Room("201", 6, false, false) ]
  }

  /** The seed satisfies the registry's invariants. */
  lemma SeedValid()
    ensures AllWellFormed(SeedRooms()) && DistinctNumbers(SeedRooms())
  {
    SeedWellFormed();
    SeedDistinct();
  }

  lemma SeedWellFormed()
    ensures AllWellFormed(SeedRooms())
  {
    TrimKeeps("101"); TrimKeeps("102"); TrimKeeps("103"); TrimKeeps("104"); TrimKeeps("201");
  }

  lemma SeedDistinct()
    ensures DistinctNumbers(SeedRooms())
  {
    var s := SeedRooms();
    forall i, j | 0 <= i < j < 5 ensures !EqualsIgnoreCase(s[i].roomNo, s[j].roomNo) {
      DigitsDiffer(s[i].roomNo, s[j].roomNo);
    }
  }

  /** Two different texts without capital letters differ ignoring case too. */
  lemma DigitsDiffer(a: string, b: string)
    requires a != b && AllDigits(a) && AllDigits(b)
    ensures !EqualsIgnoreCase(a, b)
  {
    EqualsIgnoreCaseIff(a, b);
    ToLowerWithoutUpper(a);
    ToLowerWithoutUpper(b);
  }

  // ---------------------------------------------------------------------------
  // Search
  // ---------------------------------------------------------------------------

  /** The three filters of searchRooms. */
  predicate Matches(r: Room, minCapacity: int32, requireAC: bool, requireWashroom: bool) {
    r.capacity >= minCapacity && (!requireAC || r.hasAC) && (!requireWashroom || r.hasAttachedWashroom)
  }

  /** The rooms that pass the filters, in stored order. */
  function Filter(rooms: seq<Room>, minCapacity: int32, requireAC: bool, requireWashroom: bool): seq<Room>
  {
    if rooms == [] then []
    else
      var rest := Filter(rooms[1..], minCapacity, requireAC, requireWashroom);
      if Matches(rooms[0], minCapacity, requireAC, requireWashroom) then [rooms[0]] + rest else rest
  }

  /** Filtering keeps each matching room as often as it is stored and drops every other room. */
  lemma {:induction false} FilterCount(rooms: seq<Room>, minCapacity: int32, requireAC: bool, requireWashroom: bool)
    ensures forall x :: multiset(Filter(rooms, minCapacity, requireAC, requireWashroom))[x]
                        == if Matches(x, minCapacity, requireAC, requireWashroom) then multiset(rooms)[x] else 0
  {
    if rooms != [] {
      FilterCount(rooms[1..], minCapacity, requireAC, requireWashroom);
      assert rooms == [rooms[0]] + rooms[1..];
    }
  }

  /** The two comparators the source sorts with. */
  datatype Order = ByCapacity | ByCapacityThenRoomNo

  /** `compare(a, b) <= 0` for the comparator `o`. */
  predicate Le(o: Order, a: Room, b: Room) {
    a.capacity < b.capacity || (a.capacity == b.capacity && (o.ByCapacity? || LexLe(a.roomNo, b.roomNo)))
  }

  lemma LeTotal(o: Order, a: Room, b: Room)
    ensures Le(o, a, b) || Le(o, b, a)
  {
    LexLeTotal(a.roomNo, b.roomNo);
  }

  lemma LeTransitive(o: Order, a: Room, b: Room, c: Room)
    requires Le(o, a, b) && Le(o, b, c)
    ensures Le(o, a, c)
  {
    if o.ByCapacityThenRoomNo? && a.capacity == b.capacity == c.capacity {
      LexLeTransitive(a.roomNo, b.roomNo, c.roomNo);
    }
  }

  predicate SortedBy(o: Order, s: seq<Room>) {
    forall i, j | 0 <= i < j < |s| :: Le(o, s[i], s[j])
  }

  /** Inserts `x` in front of the first element it does not exceed. */
  function Insert(o: Order, x: Room, s: seq<Room>): seq<Room>
  {
    if s == [] || Le(o, x, s[0]) then [x] + s else [s[0]] + Insert(o, x, s[1..])
  }

  lemma {:induction false} InsertPermutes(o: Order, x: Room, s: seq<Room>)
    ensures multiset(Insert(o, x, s)) == multiset(s) + multiset{x}
  {
    if s != [] && !Le(o, x, s[0]) {
      InsertPermutes(o, x, s[1..]);
      assert s == [s[0]] + s[1..];
    }
  }

  /** A sorted list stays sorted behind a room that precedes all of it. */
  lemma SortedCons(o: Order, a: Room, t: seq<Room>)
    requires SortedBy(o, t)
    requires forall j | 0 <= j < |t| :: Le(o, a, t[j])
    ensures SortedBy(o, [a] + t)
  {
    var u := [a] + t;
    forall i, j | 0 <= i < j < |u| ensures Le(o, u[i], u[j]) {
      assert u[j] == t[j - 1];
      if i > 0 {
        assert u[i] == t[i - 1];
      }
    }
  }

  lemma {:induction false} InsertKeepsSorted(o: Order, x: Room, s: seq<Room>)
    requires SortedBy(o, s)
    ensures SortedBy(o, Insert(o, x, s))
  {
    if s == [] || Le(o, x, s[0]) {
      forall j | 0 <= j < |s| ensures Le(o, x, s[j]) {
        if j > 0 {
          LeTransitive(o, x, s[0], s[j]);
        }
      }
      SortedCons(o, x, s);
    } else {
      var rest := Insert(o, x, s[1..]);
      assert SortedBy(o, s[1..]);
      InsertKeepsSorted(o, x, s[1..]);
      InsertPermutes(o, x, s[1..]);
      LeTotal(o, x, s[0]);
      forall j | 0 <= j < |rest| ensures Le(o, s[0], rest[j]) {
        assert rest[j] in multiset(rest);
        assert rest[j] in multiset(s[1..]) || rest[j] == x;
        if rest[j] != x {
          var k :| 0 <= k < |s[1..]| && s[1..][k] == rest[j];
          assert s[k + 1] == rest[j];
        }
      }
      SortedCons(o, s[0], rest);
    }
  }

  /** A stable insertion sort: the model of a Java sort with comparator `o`. */
  function Sort(o: Order, s: seq<Room>): seq<Room>
  {
    if s == [] then [] else Insert(o, s[0], Sort(o, s[1..]))
  }

  /** Sorting rearranges: every room occurs as often as before. */
  lemma {:induction false} SortPermutes(o: Order, s: seq<Room>)
    ensures multiset(Sort(o, s)) == multiset(s)
  {
    if s != [] {
      SortPermutes(o, s[1..]);
      InsertPermutes(o, s[0], Sort(o, s[1..]));
      assert s == [s[0]] + s[1..];
    }
  }

  /** Sorting orders the result by the comparator. */
  lemma {:induction false} SortOrders(o: Order, s: seq<Room>)
    ensures SortedBy(o, Sort(o, s))
  {
    if s != [] {
      SortOrders(o, s[1..]);
      InsertKeepsSorted(o, s[0], Sort(o, s[1..]));
    }
  }

  /** Sorting a list that is already in order changes nothing; in particular the re-sort
      on capacity alone keeps the (capacity, room number) order of the search. */
  lemma {:induction false} SortSorted(o: Order, s: seq<Room>)
    requires SortedBy(o, s)
    ensures Sort(o, s) == s
  {
    if s != [] {
      assert SortedBy(o, s[1..]);
      SortSorted(o, s[1..]);
      assert s == [s[0]] + s[1..];
    }
  }

  /** Two rooms the comparator `o` cannot tell apart. */
  predicate Tied(o: Order, a: Room, b: Room) {
    Le(o, a, b) && Le(o, b, a)
  }

  /** Under the search comparator, rooms are tied exactly when capacity and number agree. */
  lemma TiedIff(a: Room, b: Room)
    ensures Tied(ByCapacityThenRoomNo, a, b) <==> a.capacity == b.capacity && a.roomNo == b.roomNo
  {
    if Tied(ByCapacityThenRoomNo, a, b) {
      LexLeAntisymmetric(a.roomNo, b.roomNo);
    } else if a.capacity == b.capacity && a.roomNo == b.roomNo {
      LexLeTotal(a.roomNo, b.roomNo);
    }
  }

  /** The rooms of `s` tied with `k`, in their order in `s`. */
  function TiesOf(o: Order, s: seq<Room>, k: Room): seq<Room>
  {
    if s == [] then [] else (if Tied(o, s[0], k) then [s[0]] else []) + TiesOf(o, s[1..], k)
  }

  /** Inserting puts `x` in front of every room it is tied with. */
  lemma {:induction false} InsertTies(o: Order, x: Room, s: seq<Room>, k: Room)
    ensures TiesOf(o, Insert(o, x, s), k) == (if Tied(o, x, k) then [x] else []) + TiesOf(o, s, k)
  {
    if s == [] || Le(o, x, s[0]) {
      assert ([x] + s)[1..] == s;
    } else {
      InsertTies(o, x, s[1..], k);
      assert ([s[0]] + Insert(o, x, s[1..]))[1..] == Insert(o, x, s[1..]);
      if Tied(o, x, k) && Tied(o, s[0], k) {
        LeTransitive(o, x, k, s[0]);
      }
    }
  }

  /** The sort is stable: rooms the comparator ties keep their relative order. */
  lemma {:induction false} SortStable(o: Order, s: seq<Room>, k: Room)
    ensures TiesOf(o, Sort(o, s), k) == TiesOf(o, s, k)
  {
    if s != [] {
      SortStable(o, s[1..], k);
      InsertTies(o, s[0], Sort(o, s[1..]), k);
    }
  }

  lemma SortedByRefines(s: seq<Room>)
    requires SortedBy(ByCapacityThenRoomNo, s)
    ensures SortedBy(ByCapacity, s)
  {
    assert forall i, j | 0 <= i < j < |s| :: Le(ByCapacityThenRoomNo, s[i], s[j]) ==> Le(ByCapacity, s[i], s[j]);
  }

  /** searchRooms: the matching rooms, each once per occurrence, in ascending order of
      capacity and then of room number. */
  function Search(rooms: seq<Room>, minCapacity: int32, requireAC: bool, requireWashroom: bool): (r: seq<Room>)
    ensures SortedBy(ByCapacityThenRoomNo, r)
    ensures multiset(r) == multiset(Filter(rooms, minCapacity, requireAC, requireWashroom))
    ensures forall x :: x in r <==> x in rooms && Matches(x, minCapacity, requireAC, requireWashroom)
  {
    var filtered := Filter(rooms, minCapacity, requireAC, requireWashroom);
    var sorted := Sort(ByCapacityThenRoomNo, filtered);
    FilterCount(rooms, minCapacity, requireAC, requireWashroom);
    SortPermutes(ByCapacityThenRoomNo, filtered);
    SortOrders(ByCapacityThenRoomNo, filtered);
    assert forall x :: x in sorted <==> x in multiset(filtered);
    sorted
  }

  /** Search keeps stored order among matches with the same capacity and number, which the
      load path can hold more than once. */
  lemma SearchStable(rooms: seq<Room>, minCapacity: int32, requireAC: bool, requireWashroom: bool, k: Room)
    ensures TiesOf(ByCapacityThenRoomNo, Search(rooms, minCapacity, requireAC, requireWashroom), k)
            == TiesOf(ByCapacityThenRoomNo, Filter(rooms, minCapacity, requireAC, requireWashroom), k)
  {
    SortStable(ByCapacityThenRoomNo, Filter(rooms, minCapacity, requireAC, requireWashroom), k);
  }

  // ---------------------------------------------------------------------------
  // Allocation
  // ---------------------------------------------------------------------------

  /** allocateRoom: the first search result after a stable re-sort on capacity alone,
      or no room when nothing matches. */
  function Allocate(rooms: seq<Room>, students: int32, needsAC: bool, needsWashroom: bool): (r: Option<Room>)
    ensures r.None? <==> forall x | x in rooms :: !Matches(x, students, needsAC, needsWashroom)
    ensures r.Some? ==> r.value in rooms && Matches(r.value, students, needsAC, needsWashroom)
    ensures r.Some? ==> forall x | x in rooms && Matches(x, students, needsAC, needsWashroom) ::
                          r.value.capacity <= x.capacity && (r.value.capacity == x.capacity ==> LexLe(r.value.roomNo, x.roomNo))
    ensures r.Some? ==> r.value == Search(rooms, students, needsAC, needsWashroom)[0]
  {
    var candidates := Search(rooms, students, needsAC, needsWashroom);
    if candidates == [] then None
    else
      SortedByRefines(candidates);
      SortSorted(ByCapacity, candidates);
      assert candidates[0] in candidates;
      assert forall x | x in rooms && Matches(x, students, needsAC, needsWashroom) :: Le(ByCapacityThenRoomNo, candidates[0], x) by {
        forall x | x in rooms && Matches(x, students, needsAC, needsWashroom) ensures Le(ByCapacityThenRoomNo, candidates[0], x) {
          assert x in candidates;
          var j :| 0 <= j < |candidates| && candidates[j] == x;
          if j == 0 {
            LexLeReflexive(x.roomNo);
          }
        }
      }
      Some(Sort(ByCapacity, candidates)[0])
  }

  // ---------------------------------------------------------------------------
  // The documented scenarios over the seed rooms
  // ---------------------------------------------------------------------------

  /** searchRooms(2, false, false) over the seed lists 102, 104, 103, 201. */
  lemma SeedSearchScenario()
    ensures Search(SeedRooms(), 2, false, false)
            == [Room("102", 2, false, true), Room("104", 2, true, true), Room("103", 4, true, false), Room("201", 6, false, false)]
  {
    SeedFilterAtLeastTwo();
    SeedSortAtLeastTwo();
  }

  lemma SeedFilterAtLeastTwo()
    ensures Filter(SeedRooms(), 2, false, false) == [SeedRooms()[1], SeedRooms()[2], SeedRooms()[3], SeedRooms()[4]]
  {
  }

  lemma SeedSortAtLeastTwo()
    ensures Sort(ByCapacityThenRoomNo, [SeedRooms()[1], SeedRooms()[2], SeedRooms()[3], SeedRooms()[4]])
            == [SeedRooms()[1], SeedRooms()[3], SeedRooms()[2], SeedRooms()[4]]
  {
    var s := SeedRooms();
    var o := ByCapacityThenRoomNo;
    assert [s[1], s[2], s[3], s[4]][1..] == [s[2], s[3], s[4]];
    assert Sort(o, [s[1], s[2], s[3], s[4]]) == Insert(o, s[1], Sort(o, [s[2], s[3], s[4]]));
    SeedSortTail();
    assert LexLe("102", "104");
    assert Insert(o, s[1], [s[3], s[2], s[4]]) == [s[1], s[3], s[2], s[4]];
  }

  lemma SeedSortTail()
    ensures Sort(ByCapacityThenRoomNo, [SeedRooms()[2], SeedRooms()[3], SeedRooms()[4]])
            == [SeedRooms()[3], SeedRooms()[2], SeedRooms()[4]]
  {
    var s := SeedRooms();
    var o := ByCapacityThenRoomNo;
    assert [s[2], s[3], s[4]][1..] == [s[3], s[4]] && [s[3], s[4]][1..] == [s[4]];
    assert Sort(o, [s[4]]) == [s[4]];
    assert Sort(o, [s[3], s[4]]) == [s[3], s[4]];
    assert Insert(o, s[2], [s[4]]) == [s[2], s[4]];
    assert Insert(o, s[2], [s[3], s[4]]) == [s[3], s[2], s[4]];
  }

  /** allocateRoom(2, true, true) over the seed picks room 104. */
  lemma SeedAllocateScenario()
    ensures Allocate(SeedRooms(), 2, true, true) == Some(Room("104", 2, true, true))
  {
    SeedFilterAcWashroom();
  }

  lemma SeedFilterAcWashroom()
    ensures Filter(SeedRooms(), 2, true, true) == [SeedRooms()[3]]
  {
  }
}
