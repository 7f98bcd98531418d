/** The hand-written JSON subset HostelManager persists its rooms with: `toJson`,
    `toJsonArray`, `jsonEscape` on the writing side, and on the reading side the two
    quote/brace state machines of `parseRoomsJsonArray` and `parseFlatJsonObject`,
    `stripQuotes`, `parseIntSafe` and `parseBoolSafe`. Of the string escapes of section 7
    of RFC 8259 only `\\` and `\"` are produced and undone. */
module SnapshotJson {
  import opened Wrappers
  import opened JavaString
  import opened Rooms

  // ===========================================================================
  // Writing
  // ===========================================================================

  /** Java string conversion of a `boolean`. */
  function BoolText(b: bool): string {
    if b then "true" else "false"
  }

  /** jsonEscape: backslashes are doubled first, then every quote gets a backslash. */
  function JsonEscape(s: string): string {
    ReplaceAll(ReplaceAll(s, "\\", "\\\\"), "\"", "\\\"")
  }

  /** One `"key":value` member; `value` is already JSON text. */
  function Member(key: string, value: string): string {
    "\"" + key + "\"" + ":" + value
  }

  /** The members, separated by commas. */
  function Members(ms: seq<(string, string)>): string
    decreases |ms|
  {
    if ms == [] then ""
    else if |ms| == 1 then Member(ms[0].0, ms[0].1)
    else Member(ms[0].0, ms[0].1) + "," + Members(ms[1..])
  }

  /** The four members toJson writes, in its order: the escaped room number as a JSON
      string, the capacity in decimal, the two flags as `true`/`false`. */
  function RoomMembers(r: Room): seq<(string, string)> {
    [("roomNo", "\"" + JsonEscape(r.roomNo) + "\""),
     ("capacity", IntToString(r.capacity as int)),
     ("hasAC", BoolText(r.hasAC)),
     ("hasAttachedWashroom", BoolText(r.hasAttachedWashroom))]
  }

  /** toJson: one room as a flat object. */
  function ToJson(r: Room): string {
    "{" + Members(RoomMembers(r)) + "}"
  }

  /** The objects of `rooms` separated by commas. */
  function JoinObjects(rooms: seq<Room>): string {
    if rooms == [] then ""
    else if |rooms| == 1 then ToJson(rooms[0])
    else JoinObjects(rooms[..|rooms| - 1]) + "," + ToJson(rooms[|rooms| - 1])
  }

  /** The snapshot text of a room list. */
  function JsonArray(rooms: seq<Room>): string {
    "[" + JoinObjects(rooms) + "]"
  }

  lemma JoinObjectsStep(rooms: seq<Room>, i: nat)
    requires i < |rooms|
    ensures JoinObjects(rooms[..i + 1])
            == if i == 0 then ToJson(rooms[i]) else JoinObjects(rooms[..i]) + "," + ToJson(rooms[i])
  {
    var prefix := rooms[..i + 1];
    assert prefix[..i] == rooms[..i] && prefix[i] == rooms[i];
  }

  /** One turn of toJsonArray's loop: a comma unless first, then the next object. */
  lemma ArrayStep(rooms: seq<Room>, i: nat, sb: string, obj: string)
    requires i < |rooms| && sb == "[" + JoinObjects(rooms[..i]) && obj == ToJson(rooms[i])
    ensures (if i > 0 then sb + "," else sb) + obj == "[" + JoinObjects(rooms[..i + 1])
  {
    JoinObjectsStep(rooms, i);
    if i > 0 {
      Regroup("[", JoinObjects(rooms[..i]), ",", obj);
    }
  }

  lemma Regroup(a: string, b: string, c: string, d: string)
    ensures a + b + c + d == a + (b + c + d)
  {
  }

  /** toJsonArray, building the text in one pass as the StringBuilder does. */
  method ToJsonArray(rooms: seq<Room>) returns (json: string)
    ensures json == JsonArray(rooms)
  {
    var sb := "[";
    for i := 0 to |rooms|
      invariant sb == "[" + JoinObjects(rooms[..i])
    {
      var obj := ToJson(rooms[i]);
      ArrayStep(rooms, i, sb, obj);
      if i > 0 {
        sb := sb + ",";
      }
      sb := sb + obj;
    }
    assert rooms[..|rooms|] == rooms;
    json := sb + "]";
  }

  // ===========================================================================
  // Reading: the value helpers
  // ===========================================================================

  /** `map.get(key)`, with `null` as `None`. */
  function Get(m: map<string, string>, key: string): Option<string> {
    if key in m then Some(m[key]) else None
  }

  /** stripQuotes: trims, drops one pair of surrounding quotes, then turns `\"` into `"`
      and after that `\\` into `\`. */
  function StripQuotes(s: string): string {
    var t := Trim(s);
    var t := if StartsWith(t, "\"") && EndsWith(t, "\"") && |t| >= 2 then t[1..|t| - 1] else t;
    ReplaceAll(ReplaceAll(t, "\\\"", "\""), "\\\\", "\\")
  }

  /** parseIntSafe: the parsed, trimmed text, or `fallback` for `null` and for anything
      `Integer.parseInt` rejects. */
  function ParseIntSafe(s: Option<string>, fallback: int32): (r: int32)
    ensures s.Some? && IsInt32Text(Trim(s.value)) ==> r as int == DecimalValue(Trim(s.value))
    ensures !(s.Some? && IsInt32Text(Trim(s.value))) ==> r == fallback
  {
    match s
    case None => fallback
    case Some(t) => ParseInt(Trim(t)).GetOr(fallback)
  }

  /** parseBoolSafe: `true` and `false` in any case, after trimming; `fallback` otherwise. */
  function ParseBoolSafe(s: Option<string>, fallback: bool): bool {
    match s
    case None => fallback
    case Some(t) =>
      var t := ToLower(Trim(t));
      if t == "true" then true
      else if t == "false" then false
      else fallback
  }

  /** parseBoolSafe reads `true` and `false` in any letter case and around any blanks, and
      falls back on everything else, `null` included. */
  lemma ParseBoolSafeCases(s: Option<string>, fallback: bool)
    ensures s.Some? && EqualsIgnoreCase(Trim(s.value), "true") ==> ParseBoolSafe(s, fallback)
    ensures s.Some? && EqualsIgnoreCase(Trim(s.value), "false") ==> !ParseBoolSafe(s, fallback)
    ensures !(s.Some? && (EqualsIgnoreCase(Trim(s.value), "true") || EqualsIgnoreCase(Trim(s.value), "false")))
            ==> ParseBoolSafe(s, fallback) == fallback
  {
    ToLowerWithoutUpper("true");
    ToLowerWithoutUpper("false");
    if s.Some? {
      EqualsIgnoreCaseIff(Trim(s.value), "true");
      EqualsIgnoreCaseIff(Trim(s.value), "false");
    }
  }

  // ===========================================================================
  // Reading: parseFlatJsonObject
  // ===========================================================================

  /** The state of the comma splitter: was the previous character a backslash, are we
      inside quotes, the part being collected, the parts already cut. */
  datatype SplitState = SplitState(prevBackslash: bool, inQuotes: bool, cur: string, parts: seq<string>)

  const SplitStart := SplitState(false, false, [], [])

  /** One character of the splitter: an unescaped quote toggles the quote state, and a comma
      outside quotes ends the current part. */
  function SplitStep(st: SplitState, c: char): SplitState {
    var inQuotes := if c == '"' && !st.prevBackslash then !st.inQuotes else st.inQuotes;
    if c == ',' && !inQuotes then SplitState(false, inQuotes, [], st.parts + [st.cur])
    else SplitState(c == '\\', inQuotes, st.cur + [c], st.parts)
  }

  function Split(s: string, st: SplitState): SplitState
    decreases |s|
  {
    if s == [] then st else Split(s[1..], SplitStep(st, s[0]))
  }

  /** The text between the braces: trimmed, then one leading `{` and one trailing `}` dropped. */
  function ObjectBody(body: string): string {
    var s := Trim(body);
    var s := if StartsWith(s, "{") then s[1..] else s;
    if EndsWith(s, "}") then s[..|s| - 1] else s
  }

  /** The comma-separated parts, the last one included. */
  function Parts(s: string): seq<string> {
    var f := Split(s, SplitStart);
    f.parts + [f.cur]
  }

  /** One part `key:value`; a part whose first colon is missing or at the front is skipped. */
  function AddPart(m: map<string, string>, p: string): map<string, string> {
    var idx := IndexOf(p, ':');
    if idx <= 0 then m
    else m[StripQuotes(Trim(p[..idx])) := StripQuotes(Trim(p[idx + 1..]))]
  }

  function BuildMap(parts: seq<string>, m: map<string, string>): map<string, string>
    decreases |parts|
  {
    if parts == [] then m else BuildMap(parts[1..], AddPart(m, parts[0]))
  }

  /** What parseFlatJsonObject returns for `body`. */
  function FlatObject(body: string): map<string, string> {
    var s := ObjectBody(body);
    if Trim(s) == [] then map[] else BuildMap(Parts(s), map[])
  }

  /** The first loop of parseFlatJsonObject: splits at the commas outside quotes. */
  method SplitParts(s: string) returns (parts: seq<string>)
    ensures parts == Parts(s)
  {
    parts := [];
    var cur: string := [];
    var inQuotes := false;
    for i := 0 to |s|
      invariant Split(s[i..], SplitState(i > 0 && s[i - 1] == '\\', inQuotes, cur, parts)) == Split(s, SplitStart)
    {
      assert s[i..][1..] == s[i + 1..];
      ghost var before := SplitState(i > 0 && s[i - 1] == '\\', inQuotes, cur, parts);
      var c := s[i];
      if c == '"' && (i == 0 || s[i - 1] != '\\') {
        inQuotes := !inQuotes;
      }
      if c == ',' && !inQuotes {
        parts := parts + [cur];
        cur := [];
      } else {
        cur := cur + [c];
      }
      assert SplitState(c == '\\', inQuotes, cur, parts) == SplitStep(before, c);
    }
    parts := parts + [cur];
  }

  /** The second loop of parseFlatJsonObject: every part with a colon past its front goes
      in under its stripped key. */
  method AddParts(parts: seq<string>) returns (m: map<string, string>)
    ensures m == BuildMap(parts, map[])
  {
    m := map[];
    for j := 0 to |parts|
      invariant BuildMap(parts[j..], m) == BuildMap(parts, map[])
    {
      assert parts[j..][1..] == parts[j + 1..];
      var p := parts[j];
      var idx := IndexOf(p, ':');
      if idx > 0 {
        var key := StripQuotes(Trim(p[..idx]));
        var valRaw := Trim(p[idx + 1..]);
        var val := StripQuotes(valRaw);
        m := m[key := val];
      }
    }
  }

  /** parseFlatJsonObject: strips the braces, splits the members and maps their keys to
      their values. */
  method ParseFlatJsonObject(body: string) returns (m: map<string, string>)
    ensures m == FlatObject(body)
  {
    m := map[];
    var s := Trim(body);
    if StartsWith(s, "{") {
      s := s[1..];
    }
    if EndsWith(s, "}") {
      s := s[..|s| - 1];
    }
    assert s == ObjectBody(body);
    if Trim(s) == [] {
      return;
    }
    var parts := SplitParts(s);
    m := AddParts(parts);
  }

  // ===========================================================================
  // Reading: parseRoomsJsonArray
  // ===========================================================================

  /** The state of the object cutter: previous character a backslash, inside quotes, the
      brace depth outside quotes, the object being collected, the objects already cut. */
  datatype ScanState = ScanState(prevBackslash: bool, inQuotes: bool, depth: int, cur: string, objs: seq<string>)

  const ScanStart := ScanState(false, false, 0, [], [])

  /** One character of the cutter: every character joins the current object, and a closing
      brace outside quotes that brings the depth back to zero ends it. */
  function ScanStep(st: ScanState, c: char): ScanState {
    var inQuotes := if c == '"' && !st.prevBackslash then !st.inQuotes else st.inQuotes;
    var depth := if inQuotes then st.depth
                 else if c == '{' then st.depth + 1
                 else if c == '}' then st.depth - 1
                 else st.depth;
    var cur := st.cur + [c];
    if !inQuotes && depth == 0 && c == '}' then ScanState(c == '\\', inQuotes, depth, [], st.objs + [Trim(cur)])
    else ScanState(c == '\\', inQuotes, depth, cur, st.objs)
  }

  function Scan(s: string, st: ScanState): ScanState
    decreases |s|
  {
    if s == [] then st else Scan(s[1..], ScanStep(st, s[0]))
  }

  /** The text between the brackets: trimmed, then one leading `[` and one trailing `]` dropped. */
  function ArrayBody(body: string): string {
    var s := Trim(body);
    var s := if StartsWith(s, "[") then s[1..] else s;
    if EndsWith(s, "]") then s[..|s| - 1] else s
  }

  /** The object texts parseRoomsJsonArray cuts out of a snapshot. */
  function ObjectTexts(body: string): seq<string> {
    var s := ArrayBody(body);
    if Trim(s) == [] then [] else Scan(s, ScanStart).objs
  }

  /** The room one object text stands for; records with an empty number or a capacity below
      one are dropped. */
  function RecordOf(obj: string): (r: Option<Room>)
    ensures r.Some? ==> WellFormedRoom(r.value)
  {
    RecordFrom(FlatObject(obj))
  }

  /** The room the key/value pairs of one object stand for, if any. */
  function RecordFrom(m: map<string, string>): (r: Option<Room>)
    ensures r.Some? ==> WellFormedRoom(r.value)
  {
    var roomNo := Trim(Get(m, "roomNo").GetOr(""));
    var capacity := ParseIntSafe(Get(m, "capacity"), -1);
    var hasAC := ParseBoolSafe(Get(m, "hasAC"), false);
    var hasWashroom := ParseBoolSafe(Get(m, "hasAttachedWashroom"), false);
    TrimIdempotent(Get(m, "roomNo").GetOr(""));
    if roomNo != [] && capacity > 0 then Some(Room(roomNo, capacity, hasAC, hasWashroom)) else None
  }

  /** The room a record stands for, as a list of zero or one rooms. */
  function Kept(r: Option<Room>): seq<Room> {
    match r
    case Some(room) => [room]
    case None => []
  }

  /** The rooms of the object texts that survive, in order. */
  function RoomsOf(objs: seq<string>): (rooms: seq<Room>)
    ensures AllWellFormed(rooms)
  {
    if objs == [] then [] else RoomsOf(objs[..|objs| - 1]) + Kept(RecordOf(objs[|objs| - 1]))
  }

  lemma RoomsOfStep(objs: seq<string>, j: nat)
    requires j < |objs|
    ensures RoomsOf(objs[..j + 1]) == RoomsOf(objs[..j]) + Kept(RecordOf(objs[j]))
  {
    assert objs[..j + 1][..j] == objs[..j] && objs[..j + 1][j] == objs[j];
  }

  /** What parseRoomsJsonArray returns for `body`. */
  function DecodeRooms(body: string): (rooms: seq<Room>)
    ensures AllWellFormed(rooms)
  {
    RoomsOf(ObjectTexts(body))
  }

  /** A cut text with the comma that separated it from the previous object dropped. */
  function DropSeparator(obj: string): string {
    if obj != [] && obj[0] == ',' then Trim(obj[1..]) else obj
  }

  /** The rooms of the object texts, each read without its separating comma: the reading
      the snapshot format calls for. */
  function SeparatedRoomsOf(objs: seq<string>): (rooms: seq<Room>)
    ensures AllWellFormed(rooms)
  {
    if objs == [] then []
    else SeparatedRoomsOf(objs[..|objs| - 1]) + Kept(RecordOf(DropSeparator(objs[|objs| - 1])))
  }

  /** The corrected reading of a snapshot, on the objects parseRoomsJsonArray cuts. */
  function CorrectedDecodeRooms(body: string): (rooms: seq<Room>)
    ensures AllWellFormed(rooms)
  {
    SeparatedRoomsOf(ObjectTexts(body))
  }

  /** The character loop of parseRoomsJsonArray: cuts `s` into top-level object texts. */
  method CutObjects(s: string) returns (objs: seq<string>)
    ensures objs == Scan(s, ScanStart).objs
  {
    objs := [];
    var cur: string := [];
    var inQuotes := false;
    var braceDepth := 0;
    for i := 0 to |s|
      invariant Scan(s[i..], ScanState(i > 0 && s[i - 1] == '\\', inQuotes, braceDepth, cur, objs)) == Scan(s, ScanStart)
    {
      assert s[i..][1..] == s[i + 1..];
      ghost var before := ScanState(i > 0 && s[i - 1] == '\\', inQuotes, braceDepth, cur, objs);
      var c := s[i];
      if c == '"' && (i == 0 || s[i - 1] != '\\') {
        inQuotes := !inQuotes;
      }
      if !inQuotes {
        if c == '{' {
          braceDepth := braceDepth + 1;
        }
        if c == '}' {
          braceDepth := braceDepth - 1;
        }
      }
      cur := cur + [c];
      if !inQuotes && braceDepth == 0 && c == '}' {
        objs := objs + [Trim(cur)];
        cur := [];
      }
      assert ScanState(c == '\\', inQuotes, braceDepth, cur, objs) == ScanStep(before, c);
    }
  }

  /** parseRoomsJsonArray: strips the brackets, cuts the objects, and keeps the records
      with a number and a positive capacity. */
  method ParseRoomsJsonArray(body: string) returns (rooms: seq<Room>)
    ensures rooms == DecodeRooms(body)
    ensures AllWellFormed(rooms)
  {
    var s := Trim(body);
    if StartsWith(s, "[") {
      s := s[1..];
    }
    if EndsWith(s, "]") {
      s := s[..|s| - 1];
    }
    assert s == ArrayBody(body);
    if Trim(s) == [] {
      return [];
    }
    var objs := CutObjects(s);
    assert objs == ObjectTexts(body);
    rooms := KeepRecords(objs);
  }

  /** The record loop of parseRoomsJsonArray: each object text through parseFlatJsonObject,
      keeping the records with a number and a positive capacity. */
  method KeepRecords(objs: seq<string>) returns (rooms: seq<Room>)
    ensures rooms == RoomsOf(objs)
  {
    rooms := [];
    for j := 0 to |objs|
      invariant rooms == RoomsOf(objs[..j])
    {
      RoomsOfStep(objs, j);
      var m := ParseFlatJsonObject(objs[j]);
      var roomNo := Trim(Get(m, "roomNo").GetOr(""));
      var capacity := ParseIntSafe(Get(m, "capacity"), -1);
      var hasAC := ParseBoolSafe(Get(m, "hasAC"), false);
      var hasWashroom := ParseBoolSafe(Get(m, "hasAttachedWashroom"), false);
      assert RecordOf(objs[j]) == RecordFrom(m);
      if roomNo != [] && capacity > 0 {
        assert RecordFrom(m) == Some(Room(roomNo, capacity, hasAC, hasWashroom));
        rooms := rooms + [Room(roomNo, capacity, hasAC, hasWashroom)];
      } else {
        assert RecordFrom(m) == None;
      }
    }
    assert objs[..|objs|] == objs;
  }
}
