/** The mutable Room bean of the Spring variant (model/Room.java): four private fields with a
    getter and a setter each. A Java `null` number is `None`. */
module Bean {
  import opened Wrappers
  import opened JavaString

  class Room {
    var roomNo: Option<string>
    var capacity: int32
    var hasAC: bool
    var hasAttachedWashroom: bool

    /** The no-argument constructor used by Jackson: Java's default field values. */
    constructor Empty()
      ensures roomNo == None && capacity == 0 && !hasAC && !hasAttachedWashroom
    {
      roomNo := None;
      capacity := 0;
      hasAC := false;
      hasAttachedWashroom := false;
    }

    /** The four-argument constructor stores exactly its arguments. */
    constructor (roomNo: Option<string>, capacity: int32, hasAC: bool, hasAttachedWashroom: bool)
      ensures this.roomNo == roomNo && this.capacity == capacity
      ensures this.hasAC == hasAC && this.hasAttachedWashroom == hasAttachedWashroom
    {
      this.roomNo := roomNo;
      this.capacity := capacity;
      this.hasAC := hasAC;
      this.hasAttachedWashroom := hasAttachedWashroom;
    }

    method GetRoomNo() returns (r: Option<string>)
      ensures r == roomNo
    {
      r := roomNo;
    }

    method SetRoomNo(roomNo: Option<string>)
      modifies this
      ensures this.roomNo == roomNo
      ensures capacity == old(capacity) && hasAC == old(hasAC) && hasAttachedWashroom == old(hasAttachedWashroom)
    {
      this.roomNo := roomNo;
    }

    method GetCapacity() returns (r: int32)
      ensures r == capacity
    {
      r := capacity;
    }

    method SetCapacity(capacity: int32)
      modifies this
      ensures this.capacity == capacity
      ensures roomNo == old(roomNo) && hasAC == old(hasAC) && hasAttachedWashroom == old(hasAttachedWashroom)
    {
      this.capacity := capacity;
    }

    method IsHasAC() returns (r: bool)
      ensures r == hasAC
    {
      r := hasAC;
    }

    method SetHasAC(hasAC: bool)
      modifies this
      ensures this.hasAC == hasAC
      ensures roomNo == old(roomNo) && capacity == old(capacity) && hasAttachedWashroom == old(hasAttachedWashroom)
    {
      this.hasAC := hasAC;
    }

    method IsHasAttachedWashroom() returns (r: bool)
      ensures r == hasAttachedWashroom
    {
      r := hasAttachedWashroom;
    }

    method SetHasAttachedWashroom(hasAttachedWashroom: bool)
      modifies this
      ensures this.hasAttachedWashroom == hasAttachedWashroom
      ensures roomNo == old(roomNo) && capacity == old(capacity) && hasAC == old(hasAC)
    {
      this.hasAttachedWashroom := hasAttachedWashroom;
    }
  }

  /** Filling an empty bean through its setters, the way Jackson does, gives the same state
      as the four-argument constructor. */
  method FillEmpty(roomNo: Option<string>, capacity: int32, hasAC: bool, hasAttachedWashroom: bool)
      returns (filled: Room)
    ensures fresh(filled)
    ensures filled.roomNo == roomNo && filled.capacity == capacity
    ensures filled.hasAC == hasAC && filled.hasAttachedWashroom == hasAttachedWashroom
  {
    filled := new Room.Empty();
    filled.SetRoomNo(roomNo);
    filled.SetCapacity(capacity);
    filled.SetHasAC(hasAC);
    filled.SetHasAttachedWashroom(hasAttachedWashroom);
  }
}
