/** What the snapshot reader recovers from what the snapshot writer produced. */
module SnapshotRoundTrip {
  import opened Wrappers
  import opened JavaString
  import opened Rooms
  import opened SnapshotJson

  // ===========================================================================
  // Text the two state machines pass over unchanged
  // ===========================================================================

  /** Whether `t` holds an odd number of quote characters. */
  function QuoteParity(t: string): bool
    decreases |t|
  {
    if t == [] then false else (t[0] == '"') != QuoteParity(t[1..])
  }

  lemma {:induction false} QuoteParityConcat(a: string, b: string)
    ensures QuoteParity(a + b) == (QuoteParity(a) != QuoteParity(b))
    decreases |a|
  {
    if a == [] {
      assert a + b == b;
    } else {
      assert (a + b)[0] == a[0] && (a + b)[1..] == a[1..] + b;
      QuoteParityConcat(a[1..], b);
    }
  }

  lemma {:induction false} QuoteParityFree(t: string)
    requires '"' !in t
    ensures !QuoteParity(t)
    decreases |t|
  {
    if t != [] {
      assert '"' !in t[1..] by {
        forall i | 0 <= i < |t[1..]| ensures t[1..][i] != '"' {
          assert t[1..][i] == t[i + 1];
        }
      }
      QuoteParityFree(t[1..]);
    }
  }

  /** Text without backslashes or braces: the object cutter only copies it and counts quotes. */
  predicate ScanInert(t: string) {
    '\\' !in t && '{' !in t && '}' !in t
  }

  /** Text without backslashes or commas: the comma splitter only copies it and counts quotes. */
  predicate SplitInert(t: string) {
    '\\' !in t && ',' !in t
  }

  lemma {:induction false} ScanConcat(a: string, b: string, st: ScanState)
    ensures Scan(a + b, st) == Scan(b, Scan(a, st))
    decreases |a|
  {
    if a == [] {
      assert a + b == b;
    } else {
      assert (a + b)[0] == a[0] && (a + b)[1..] == a[1..] + b;
      ScanConcat(a[1..], b, ScanStep(st, a[0]));
    }
  }

  lemma {:induction false} SplitConcat(a: string, b: string, st: SplitState)
    ensures Split(a + b, st) == Split(b, Split(a, st))
    decreases |a|
  {
    if a == [] {
      assert a + b == b;
    } else {
      assert (a + b)[0] == a[0] && (a + b)[1..] == a[1..] + b;
      SplitConcat(a[1..], b, SplitStep(st, a[0]));
    }
  }

  lemma InSuffix(t: string, c: char)
    requires t != [] && c !in t
    ensures c !in t[1..]
  {
    forall i | 0 <= i < |t[1..]| ensures t[1..][i] != c {
      assert t[1..][i] == t[i + 1];
    }
  }

  lemma {:induction false} ScanInertText(t: string, st: ScanState)
    requires ScanInert(t) && !st.prevBackslash
    ensures Scan(t, st) == ScanState(false, st.inQuotes != QuoteParity(t), st.depth, st.cur + t, st.objs)
    decreases |t|
  {
    if t == [] {
      assert st.cur + t == st.cur;
    } else {
      var next := ScanStep(st, t[0]);
      assert next == ScanState(false, st.inQuotes != (t[0] == '"'), st.depth, st.cur + [t[0]], st.objs);
      InSuffix(t, '\\');
      InSuffix(t, '{');
      InSuffix(t, '}');
      ScanInertText(t[1..], next);
      assert st.cur + [t[0]] + t[1..] == st.cur + t;
    }
  }

  lemma {:induction false} SplitInertText(t: string, st: SplitState)
    requires SplitInert(t) && !st.prevBackslash
    ensures Split(t, st) == SplitState(false, st.inQuotes != QuoteParity(t), st.cur + t, st.parts)
    decreases |t|
  {
    if t == [] {
      assert st.cur + t == st.cur;
    } else {
      var next := SplitStep(st, t[0]);
      assert next == SplitState(false, st.inQuotes != (t[0] == '"'), st.cur + [t[0]], st.parts);
      InSuffix(t, '\\');
      InSuffix(t, ',');
      SplitInertText(t[1..], next);
      assert st.cur + [t[0]] + t[1..] == st.cur + t;
    }
  }

  // ===========================================================================
  // Escaped room numbers
  // ===========================================================================

  /** A backslash before every quote: what `jsonEscape` does to text without backslashes. */
  function EscapeQuotes(x: string): string
    decreases |x|
  {
    if x == [] then [] else (if x[0] == '"' then "\\\"" else [x[0]]) + EscapeQuotes(x[1..])
  }

  lemma {:induction false} ReplaceQuotes(x: string)
    ensures ReplaceAll(x, "\"", "\\\"") == EscapeQuotes(x)
    decreases |x|
  {
    if x != [] {
      ReplaceQuotes(x[1..]);
      assert x == [x[0]] + x[1..];
      if x[0] == '"' {
        ReplaceMatchHead(x[1..], "\"", "\\\"");
      } else {
        ReplaceNoMatchHead(x[0], x[1..], "\"", "\\\"");
      }
    }
  }

  /** On a room number without backslashes, `jsonEscape` only escapes the quotes. */
  lemma JsonEscapeQuotesOnly(x: string)
    requires '\\' !in x
    ensures JsonEscape(x) == EscapeQuotes(x)
  {
    ReplaceAbsent(x, "\\", "\\\\");
    ReplaceQuotes(x);
  }

  lemma {:induction false} UnescapeQuotes(x: string)
    requires '\\' !in x
    ensures ReplaceAll(EscapeQuotes(x), "\\\"", "\"") == x
    decreases |x|
  {
    if x != [] {
      InSuffix(x, '\\');
      UnescapeQuotes(x[1..]);
      var rest := EscapeQuotes(x[1..]);
      if x[0] == '"' {
        ReplaceMatchHead(rest, "\\\"", "\"");
        assert x == "\"" + x[1..];
      } else if |[x[0]] + rest| >= 2 {
        assert ([x[0]] + rest)[0] == x[0];
        ReplaceNoMatchHead(x[0], rest, "\\\"", "\"");
        assert x == [x[0]] + x[1..];
      } else {
        assert rest == [] && x[1..] == [];
        assert x == [x[0]];
      }
    }
  }

  /** `stripQuotes` undoes `jsonEscape` on a quoted room number without backslashes. */
  lemma StripQuotesUndoesEscape(x: string)
    requires '\\' !in x
    ensures StripQuotes("\"" + JsonEscape(x) + "\"") == x
  {
    JsonEscapeQuotesOnly(x);
    var q := "\"" + EscapeQuotes(x) + "\"";
    TrimKeeps(q);
    assert q[1..|q| - 1] == EscapeQuotes(x);
    UnescapeQuotes(x);
    ReplaceAbsent(x, "\\\\", "\\");
  }

  /** An escaped quote inside quotes neither closes them nor leaves a pending backslash. */
  lemma ScanEscapedQuote(st: ScanState)
    requires st.inQuotes && !st.prevBackslash
    ensures Scan("\\\"", st) == st.(cur := st.cur + "\\\"")
  {
    var mid := ScanStep(st, '\\');
    assert mid == st.(cur := st.cur + ['\\'], prevBackslash := true);
    assert "\\\""[1..] == ['"'];
    assert Scan(['"'], mid) == ScanStep(mid, '"');
    assert ScanStep(mid, '"') == st.(cur := st.cur + "\\\"");
  }

  lemma ScanQuotedChar(c: char, st: ScanState)
    requires st.inQuotes && !st.prevBackslash && c != '"' && c != '\\'
    ensures Scan([c], st) == st.(cur := st.cur + [c])
  {
    assert Scan([c], st) == ScanStep(st, c);
  }

  lemma {:induction false} ScanEscaped(x: string, st: ScanState)
    requires '\\' !in x && st.inQuotes && !st.prevBackslash
    ensures Scan(EscapeQuotes(x), st) == st.(cur := st.cur + EscapeQuotes(x))
    decreases |x|
  {
    if x != [] {
      InSuffix(x, '\\');
      var rest := EscapeQuotes(x[1..]);
      var head := if x[0] == '"' then "\\\"" else [x[0]];
      assert EscapeQuotes(x) == head + rest;
      assert st.cur + head + rest == st.cur + (head + rest);
      ScanConcat(head, rest, st);
      if x[0] == '"' {
        ScanEscapedQuote(st);
      } else {
        ScanQuotedChar(x[0], st);
      }
      ScanEscaped(x[1..], st.(cur := st.cur + head));
    }
  }

  lemma SplitEscapedQuote(st: SplitState)
    requires st.inQuotes && !st.prevBackslash
    ensures Split("\\\"", st) == st.(cur := st.cur + "\\\"")
  {
    var mid := SplitStep(st, '\\');
    assert mid == st.(cur := st.cur + ['\\'], prevBackslash := true);
    assert "\\\""[1..] == ['"'];
    assert Split(['"'], mid) == SplitStep(mid, '"');
    assert SplitStep(mid, '"') == st.(cur := st.cur + "\\\"");
  }

  lemma SplitQuotedChar(c: char, st: SplitState)
    requires st.inQuotes && !st.prevBackslash && c != '"' && c != '\\'
    ensures Split([c], st) == st.(cur := st.cur + [c])
  {
    assert Split([c], st) == SplitStep(st, c);
  }

  lemma {:induction false} SplitEscaped(x: string, st: SplitState)
    requires '\\' !in x && st.inQuotes && !st.prevBackslash
    ensures Split(EscapeQuotes(x), st) == st.(cur := st.cur + EscapeQuotes(x))
    decreases |x|
  {
    if x != [] {
      InSuffix(x, '\\');
      var rest := EscapeQuotes(x[1..]);
      var head := if x[0] == '"' then "\\\"" else [x[0]];
      assert EscapeQuotes(x) == head + rest;
      assert st.cur + head + rest == st.cur + (head + rest);
      SplitConcat(head, rest, st);
      if x[0] == '"' {
        SplitEscapedQuote(st);
      } else {
        SplitQuotedChar(x[0], st);
      }
      SplitEscaped(x[1..], st.(cur := st.cur + head));
    }
  }

  // ===========================================================================
  // The members toJson writes
  // ===========================================================================

  /** Text neither state machine nor the key/value split reacts to. */
  predicate PlainText(t: string) {
    '"' !in t && '\\' !in t && ',' !in t && '{' !in t && '}' !in t && ':' !in t
  }

  /** ASCII letters only, as every key toJson writes. */
  predicate Word(t: string) {
    forall i | 0 <= i < |t| :: 'A' <= t[i] <= 'Z' || 'a' <= t[i] <= 'z'
  }

  lemma WordPlain(t: string)
    requires Word(t)
    ensures PlainText(t)
  {
  }

  /** The four keys of toJson are plain. */
  lemma KeysPlain()
    ensures PlainText("roomNo") && PlainText("capacity")
    ensures PlainText("hasAC") && PlainText("hasAttachedWashroom")
  {
    WordPlain("roomNo");
    WordPlain("capacity");
    WordPlain("hasAC");
    WordPlain("hasAttachedWashroom");
  }

  predicate PlainMembers(ms: seq<(string, string)>)
    decreases |ms|
  {
    ms == [] || (PlainText(ms[0].0) && PlainText(ms[0].1) && PlainMembers(ms[1..]))
  }

  /** The member texts, one per member. */
  function MemberTexts(ms: seq<(string, string)>): seq<string>
    decreases |ms|
  {
    if ms == [] then [] else [Member(ms[0].0, ms[0].1)] + MemberTexts(ms[1..])
  }

  /** The members between the braces of toJson. */
  function Inner(r: Room): string {
    Members(RoomMembers(r))
  }

  /** The decimal text of an `int` is plain, starts with `-` or a digit and ends in a digit. */
  lemma IntTextPlain(n: int)
    ensures PlainText(IntToString(n))
    ensures IntToString(n) != [] && !IsTrimmable(IntToString(n)[0])
    ensures !IsTrimmable(IntToString(n)[|IntToString(n)| - 1])
  {
    var d := NatToDigits(if n < 0 then -n else n);
    var t := IntToString(n);
    assert forall i | 0 <= i < |t| :: t[i] == '-' || IsDigit(t[i]) by {
      forall i | 0 <= i < |t| ensures t[i] == '-' || IsDigit(t[i]) {
        if n < 0 && i > 0 {
          assert t[i] == d[i - 1];
        }
      }
    }
    assert t[|t| - 1] == d[|d| - 1];
  }

  lemma BoolTextPlain(b: bool)
    ensures PlainText(BoolText(b))
    ensures Trim(BoolText(b)) == BoolText(b)
  {
    TrimKeeps(BoolText(b));
  }

  lemma MemberParity(k: string, v: string)
    requires PlainText(k) && PlainText(v)
    ensures !QuoteParity(Member(k, v))
    ensures ScanInert(Member(k, v)) && SplitInert(Member(k, v))
  {
    assert QuoteParity("\"") by {
      assert "\""[1..] == [];
    }
    assert !QuoteParity(":") by {
      assert ":"[1..] == [];
    }
    QuoteParityFree(k);
    QuoteParityFree(v);
    QuoteParityConcat("\"", k);
    QuoteParityConcat("\"" + k, "\"");
    QuoteParityConcat("\"" + k + "\"", ":");
    QuoteParityConcat("\"" + k + "\"" + ":", v);
  }

  /** The opening of a string member: an odd number of quotes and nothing else of note. */
  lemma OpeningParity(k: string)
    requires PlainText(k)
    ensures QuoteParity("\"" + k + "\"" + ":" + "\"")
    ensures ScanInert("\"" + k + "\"" + ":" + "\"") && SplitInert("\"" + k + "\"" + ":" + "\"")
  {
    assert QuoteParity("\"") by {
      assert "\""[1..] == [];
    }
    assert !QuoteParity(":") by {
      assert ":"[1..] == [];
    }
    QuoteParityFree(k);
    QuoteParityConcat("\"", k);
    QuoteParityConcat("\"" + k, "\"");
    QuoteParityConcat("\"" + k + "\"", ":");
    QuoteParityConcat("\"" + k + "\"" + ":", "\"");
  }

  lemma ScanPlainMember(k: string, v: string, st: ScanState)
    requires PlainText(k) && PlainText(v) && !st.inQuotes && !st.prevBackslash
    ensures Scan(Member(k, v), st) == st.(cur := st.cur + Member(k, v))
  {
    MemberParity(k, v);
    ScanInertText(Member(k, v), st);
  }

  lemma ScanComma(st: ScanState)
    requires !st.inQuotes && !st.prevBackslash
    ensures Scan(",", st) == st.(cur := st.cur + ",")
  {
    assert Scan(",", st) == ScanStep(st, ',');
  }

  lemma {:induction false} ScanPlainMembers(ms: seq<(string, string)>, st: ScanState)
    requires ms != [] && PlainMembers(ms) && !st.inQuotes && !st.prevBackslash
    ensures Scan(Members(ms), st) == st.(cur := st.cur + Members(ms))
    decreases |ms|
  {
    var m0 := Member(ms[0].0, ms[0].1);
    if |ms| == 1 {
      ScanPlainMember(ms[0].0, ms[0].1, st);
    } else {
      var rest := Members(ms[1..]);
      assert Members(ms) == m0 + "," + rest;
      assert st.cur + m0 + "," + rest == st.cur + (m0 + "," + rest);
      ScanConcat(m0 + ",", rest, st);
      ScanConcat(m0, ",", st);
      ScanPlainMember(ms[0].0, ms[0].1, st);
      ScanComma(st.(cur := st.cur + m0));
      ScanPlainMembers(ms[1..], st.(cur := st.cur + m0 + ","));
    }
  }

  lemma ScanStringMember(k: string, x: string, st: ScanState)
    requires PlainText(k) && '\\' !in x && !st.inQuotes && !st.prevBackslash
    ensures Scan(Member(k, "\"" + EscapeQuotes(x) + "\""), st)
            == st.(cur := st.cur + Member(k, "\"" + EscapeQuotes(x) + "\""))
  {
    var a := "\"" + k + "\"" + ":" + "\"";
    var e := EscapeQuotes(x);
    assert Member(k, "\"" + e + "\"") == a + e + "\"";
    assert st.cur + a + e + "\"" == st.cur + (a + e + "\"");
    ScanConcat(a + e, "\"", st);
    ScanConcat(a, e, st);
    OpeningParity(k);
    ScanInertText(a, st);
    var s1 := st.(inQuotes := true, cur := st.cur + a);
    ScanEscaped(x, s1);
    var s2 := s1.(cur := s1.cur + e);
    assert Scan("\"", s2) == ScanStep(s2, '"');
  }

  /** The three members after the room number. */
  function FlagMembers(r: Room): seq<(string, string)> {
    [("capacity", IntToString(r.capacity as int)),
     ("hasAC", BoolText(r.hasAC)),
     ("hasAttachedWashroom", BoolText(r.hasAttachedWashroom))]
  }

  lemma PlainTriple(a: (string, string), b: (string, string), c: (string, string))
    requires PlainText(a.0) && PlainText(a.1) && PlainText(b.0) && PlainText(b.1)
    requires PlainText(c.0) && PlainText(c.1)
    ensures PlainMembers([a, b, c])
  {
    assert [a, b, c][1..] == [b, c] && [b, c][1..] == [c] && [c][1..] == [];
    assert PlainMembers([c]);
    assert PlainMembers([b, c]);
  }

  lemma FlagMembersPlain(r: Room)
    ensures PlainMembers(FlagMembers(r))
  {
    IntTextPlain(r.capacity as int);
    BoolTextPlain(r.hasAC);
    BoolTextPlain(r.hasAttachedWashroom);
    KeysPlain();
    PlainTriple(("capacity", IntToString(r.capacity as int)), ("hasAC", BoolText(r.hasAC)),
                ("hasAttachedWashroom", BoolText(r.hasAttachedWashroom)));
  }

  lemma RoomMembersShape(r: Room)
    requires '\\' !in r.roomNo
    ensures RoomMembers(r) == [("roomNo", "\"" + EscapeQuotes(r.roomNo) + "\"")] + FlagMembers(r)
    ensures Inner(r) == Member("roomNo", "\"" + EscapeQuotes(r.roomNo) + "\"") + "," + Members(FlagMembers(r))
  {
    JsonEscapeQuotesOnly(r.roomNo);
    var ms := RoomMembers(r);
    assert ms[1..] == FlagMembers(r);
  }

  lemma ScanInner(r: Room, st: ScanState)
    requires '\\' !in r.roomNo && !st.inQuotes && !st.prevBackslash
    ensures Scan(Inner(r), st) == st.(cur := st.cur + Inner(r))
  {
    RoomMembersShape(r);
    var m0 := Member("roomNo", "\"" + EscapeQuotes(r.roomNo) + "\"");
    var rest := Members(FlagMembers(r));
    FlagMembersPlain(r);
    assert st.cur + m0 + "," + rest == st.cur + (m0 + "," + rest);
    ScanConcat(m0 + ",", rest, st);
    ScanConcat(m0, ",", st);
    KeysPlain();
    ScanStringMember("roomNo", r.roomNo, st);
    ScanComma(st.(cur := st.cur + m0));
    ScanPlainMembers(FlagMembers(r), st.(cur := st.cur + m0 + ","));
  }

  lemma ScanOne(c: char, st: ScanState)
    ensures Scan([c], st) == ScanStep(st, c)
  {
    assert [c][1..] == [];
  }

  lemma ScanOpenBrace(c0: string, objs: seq<string>)
    ensures Scan("{", ScanState(false, false, 0, c0, objs)) == ScanState(false, false, 1, c0 + "{", objs)
  {
    ScanOne('{', ScanState(false, false, 0, c0, objs));
  }

  /** The closing brace at depth one cuts the current text out, trimmed. */
  lemma ScanCloseBrace(cur: string, objs: seq<string>)
    ensures Scan("}", ScanState(false, false, 1, cur, objs)) == ScanState(false, false, 0, [], objs + [Trim(cur + "}")])
  {
    ScanOne('}', ScanState(false, false, 1, cur, objs));
  }

  /** A braced text whose inside leaves the cutter at depth one outside quotes is cut out
      whole, together with whatever preceded it in the current text. */
  lemma ScanBraced(inner: string, c0: string, objs: seq<string>)
    requires Scan(inner, ScanState(false, false, 1, c0 + "{", objs)) == ScanState(false, false, 1, c0 + "{" + inner, objs)
    ensures Scan("{" + inner + "}", ScanState(false, false, 0, c0, objs))
            == ScanState(false, false, 0, [], objs + [Trim(c0 + ("{" + inner + "}"))])
  {
    var st := ScanState(false, false, 0, c0, objs);
    var s2 := ScanState(false, false, 1, c0 + "{" + inner, objs);
    assert Scan("{" + inner, st) == s2 by {
      ScanOpenBrace(c0, objs);
      ScanConcat("{", inner, st);
    }
    ScanCloseBrace(c0 + "{" + inner, objs);
    Regroup(c0, "{", inner, "}");
    ScanConcat("{" + inner, "}", st);
  }

  /** One object written by toJson is cut out whole: the cutter ends back at depth zero,
      outside quotes, with the object (and whatever preceded it) as its newest text. */
  lemma ScanObject(r: Room, c0: string, objs: seq<string>)
    requires '\\' !in r.roomNo
    ensures Scan(ToJson(r), ScanState(false, false, 0, c0, objs))
            == ScanState(false, false, 0, [], objs + [Trim(c0 + ToJson(r))])
  {
    ScanInner(r, ScanState(false, false, 1, c0 + "{", objs));
    ScanBraced(Inner(r), c0, objs);
  }

  // ===========================================================================
  // The comma splitter on the members of one object
  // ===========================================================================

  lemma SplitPlainMember(k: string, v: string, st: SplitState)
    requires PlainText(k) && PlainText(v) && !st.inQuotes && !st.prevBackslash
    ensures Split(Member(k, v), st) == st.(cur := st.cur + Member(k, v))
  {
    MemberParity(k, v);
    SplitInertText(Member(k, v), st);
  }

  lemma SplitComma(st: SplitState)
    requires !st.inQuotes
    ensures Split(",", st) == SplitState(false, false, [], st.parts + [st.cur])
  {
    assert Split(",", st) == SplitStep(st, ',');
  }

  lemma {:induction false} SplitPlainMembers(ms: seq<(string, string)>, st: SplitState)
    requires ms != [] && PlainMembers(ms) && !st.inQuotes && !st.prevBackslash
    ensures var f := Split(Members(ms), st);
            !f.inQuotes && f.parts + [f.cur] == st.parts + [st.cur + Member(ms[0].0, ms[0].1)] + MemberTexts(ms[1..])
    decreases |ms|
  {
    var m0 := Member(ms[0].0, ms[0].1);
    if |ms| == 1 {
      SplitPlainMember(ms[0].0, ms[0].1, st);
      assert MemberTexts(ms[1..]) == [];
    } else {
      var rest := Members(ms[1..]);
      assert Members(ms) == m0 + "," + rest;
      SplitConcat(m0 + ",", rest, st);
      SplitConcat(m0, ",", st);
      SplitPlainMember(ms[0].0, ms[0].1, st);
      SplitComma(st.(cur := st.cur + m0));
      var s2 := SplitState(false, false, [], st.parts + [st.cur + m0]);
      SplitPlainMembers(ms[1..], s2);
      assert ms[1..][1..] == ms[2..];
      assert [] + Member(ms[1].0, ms[1].1) == Member(ms[1].0, ms[1].1);
      assert MemberTexts(ms[1..]) == [Member(ms[1].0, ms[1].1)] + MemberTexts(ms[2..]);
    }
  }

  lemma SplitStringMember(k: string, x: string, st: SplitState)
    requires PlainText(k) && '\\' !in x && !st.inQuotes && !st.prevBackslash
    ensures Split(Member(k, "\"" + EscapeQuotes(x) + "\""), st)
            == st.(cur := st.cur + Member(k, "\"" + EscapeQuotes(x) + "\""))
  {
    var a := "\"" + k + "\"" + ":" + "\"";
    var e := EscapeQuotes(x);
    assert Member(k, "\"" + e + "\"") == a + e + "\"";
    assert st.cur + a + e + "\"" == st.cur + (a + e + "\"");
    SplitConcat(a + e, "\"", st);
    SplitConcat(a, e, st);
    OpeningParity(k);
    SplitInertText(a, st);
    var s1 := st.(inQuotes := true, cur := st.cur + a);
    SplitEscaped(x, s1);
    var s2 := s1.(cur := s1.cur + e);
    assert Split("\"", s2) == SplitStep(s2, '"');
  }

  /** The member texts of one room, the room number's prefixed by `c0`. */
  lemma SplitInner(r: Room, st: SplitState)
    requires '\\' !in r.roomNo && !st.inQuotes && !st.prevBackslash
    ensures var f := Split(Inner(r), st);
            f.parts + [f.cur]
            == st.parts + ([st.cur + Member("roomNo", "\"" + EscapeQuotes(r.roomNo) + "\"")] + MemberTexts(FlagMembers(r)))
  {
    RoomMembersShape(r);
    var m0 := Member("roomNo", "\"" + EscapeQuotes(r.roomNo) + "\"");
    var rest := Members(FlagMembers(r));
    FlagMembersPlain(r);
    SplitConcat(m0 + ",", rest, st);
    SplitConcat(m0, ",", st);
    KeysPlain();
    SplitStringMember("roomNo", r.roomNo, st);
    SplitComma(st.(cur := st.cur + m0));
    var s2 := SplitState(false, false, [], st.parts + [st.cur + m0]);
    SplitPlainMembers(FlagMembers(r), s2);
    var fm := FlagMembers(r);
    var t0 := Member(fm[0].0, fm[0].1);
    assert [] + t0 == t0;
    assert MemberTexts(fm) == [t0] + MemberTexts(fm[1..]);
    RegroupParts(st.parts, [st.cur + m0], [t0], MemberTexts(fm[1..]));
  }

  lemma RegroupParts(a: seq<string>, b: seq<string>, c: seq<string>, d: seq<string>)
    ensures a + b + c + d == a + (b + (c + d))
  {
  }

  // ===========================================================================
  // From member texts to the key/value map
  // ===========================================================================

  /** A part whose first colon is at `i > 0` goes in under its stripped, trimmed prefix. */
  lemma AddPartAt(m: map<string, string>, p: string, key: string, value: string)
    requires IndexOf(p, ':') == |key| > 0 && p == key + ":" + value
    ensures AddPart(m, p) == m[StripQuotes(Trim(key)) := StripQuotes(Trim(value))]
  {
    var k2 := p[..|key|];
    var v2 := p[|key| + 1..];
    assert k2 == key by { assert p[..|key|] == key; }
    assert v2 == value by { assert p[|key| + 1..] == value; }
    var sk := StripQuotes(Trim(k2));
    var sv := StripQuotes(Trim(v2));
    assert AddPart(m, p) == m[sk := sv];
  }

  lemma QuotedKey(k: string)
    requires PlainText(k)
    ensures StripQuotes(Trim("\"" + k + "\"")) == k
  {
    var q := "\"" + k + "\"";
    TrimKeeps(q);
    assert q[1..|q| - 1] == k;
    ReplaceAbsent(k, "\\\"", "\"");
    ReplaceAbsent(k, "\\\\", "\\");
  }

  lemma BracedKey(k: string)
    requires PlainText(k)
    ensures StripQuotes(Trim("{" + "\"" + k + "\"")) == "{" + "\"" + k + "\""
  {
    var q := "{" + "\"" + k + "\"";
    TrimKeeps(q);
    assert '\\' !in q;
    ReplaceAbsent(q, "\\\"", "\"");
    ReplaceAbsent(q, "\\\\", "\\");
  }

  lemma PlainValue(v: string)
    requires PlainText(v) && v != [] && !IsTrimmable(v[0]) && !IsTrimmable(v[|v| - 1])
    ensures StripQuotes(Trim(v)) == v
  {
    TrimKeeps(v);
    ReplaceAbsent(v, "\\\"", "\"");
    ReplaceAbsent(v, "\\\\", "\\");
  }

  lemma StringValue(x: string)
    requires '\\' !in x
    ensures StripQuotes(Trim("\"" + EscapeQuotes(x) + "\"")) == x
  {
    var q := "\"" + EscapeQuotes(x) + "\"";
    TrimKeeps(q);
    JsonEscapeQuotesOnly(x);
    StripQuotesUndoesEscape(x);
  }

  /** A member with a plain key goes in under the key itself. */
  lemma AddKeyMember(m: map<string, string>, k: string, v: string)
    requires PlainText(k)
    ensures AddPart(m, Member(k, v)) == m[k := StripQuotes(Trim(v))]
  {
    var key := "\"" + k + "\"";
    var p := Member(k, v);
    assert p == key + (":" + v) == key + ":" + v;
    IndexOfAt(key, ":" + v, ':');
    AddPartAt(m, p, key, v);
    QuotedKey(k);
  }

  /** A member behind an opening brace goes in under the brace and the quoted key. */
  lemma AddBracedMember(m: map<string, string>, k: string, v: string)
    requires PlainText(k)
    ensures AddPart(m, "{" + Member(k, v)) == m["{" + "\"" + k + "\"" := StripQuotes(Trim(v))]
  {
    var key := "{" + "\"" + k + "\"";
    var p := "{" + Member(k, v);
    assert p == key + (":" + v) == key + ":" + v;
    IndexOfAt(key, ":" + v, ':');
    AddPartAt(m, p, key, v);
    BracedKey(k);
  }

  /** A plain member with a plain, unpadded value goes in as it was written. */
  lemma AddPlainMember(m: map<string, string>, k: string, v: string)
    requires PlainText(k) && PlainText(v) && v != [] && !IsTrimmable(v[0]) && !IsTrimmable(v[|v| - 1])
    ensures AddPart(m, Member(k, v)) == m[k := v]
  {
    AddKeyMember(m, k, v);
    PlainValue(v);
  }

  lemma BuildThree(m: map<string, string>, t0: string, t1: string, t2: string)
    ensures BuildMap([t0, t1, t2], m) == AddPart(AddPart(AddPart(m, t0), t1), t2)
  {
    assert [t0, t1, t2][1..] == [t1, t2] && [t1, t2][1..] == [t2] && [t2][1..] == [];
    var m1 := AddPart(m, t0);
    var m2 := AddPart(m1, t1);
    assert BuildMap([t2], m2) == AddPart(m2, t2);
    assert BuildMap([t1, t2], m1) == BuildMap([t2], m2);
  }

  lemma FlagTexts(r: Room)
    ensures MemberTexts(FlagMembers(r))
            == [Member("capacity", IntToString(r.capacity as int)), Member("hasAC", BoolText(r.hasAC)),
                Member("hasAttachedWashroom", BoolText(r.hasAttachedWashroom))]
  {
    var fm := FlagMembers(r);
    assert fm[1..] == [fm[1], fm[2]] && fm[1..][1..] == [fm[2]] && fm[1..][1..][1..] == [];
    assert MemberTexts(fm[1..][1..]) == [Member(fm[2].0, fm[2].1)];
    assert MemberTexts(fm[1..]) == [Member(fm[1].0, fm[1].1), Member(fm[2].0, fm[2].1)];
  }

  /** The map `m` with the three flag members of `r` added in order. */
  lemma BuildFlags(r: Room, m: map<string, string>)
    ensures BuildMap(MemberTexts(FlagMembers(r)), m)
            == m["capacity" := IntToString(r.capacity as int)]
                ["hasAC" := BoolText(r.hasAC)]
                ["hasAttachedWashroom" := BoolText(r.hasAttachedWashroom)]
  {
    var d := IntToString(r.capacity as int);
    var b1 := BoolText(r.hasAC);
    var b2 := BoolText(r.hasAttachedWashroom);
    var t0, t1, t2 := Member("capacity", d), Member("hasAC", b1), Member("hasAttachedWashroom", b2);
    FlagTexts(r);
    BuildThree(m, t0, t1, t2);
    var m1, m2 := m["capacity" := d], m["capacity" := d]["hasAC" := b1];
    assert AddPart(m, t0) == m1 by {
      KeysPlain();
      IntTextPlain(r.capacity as int);
      AddPlainMember(m, "capacity", d);
    }
    assert AddPart(m1, t1) == m2 by {
      KeysPlain();
      BoolTextPlain(r.hasAC);
      AddPlainMember(m1, "hasAC", b1);
    }
    assert AddPart(m2, t2) == m2["hasAttachedWashroom" := b2] by {
      KeysPlain();
      BoolTextPlain(r.hasAttachedWashroom);
      AddPlainMember(m2, "hasAttachedWashroom", b2);
    }
  }

  // ===========================================================================
  // One object
  // ===========================================================================

  /** The key/value map toJson's object stands for. */
  function RoomMap(r: Room): map<string, string> {
    map["roomNo" := r.roomNo]
       ["capacity" := IntToString(r.capacity as int)]
       ["hasAC" := BoolText(r.hasAC)]
       ["hasAttachedWashroom" := BoolText(r.hasAttachedWashroom)]
  }

  lemma InnerStartsWithQuote(r: Room)
    ensures Inner(r) != [] && Inner(r)[0] == '"'
  {
    var ms := RoomMembers(r);
    assert Members(ms) == Member(ms[0].0, ms[0].1) + "," + Members(ms[1..]);
  }

  lemma ObjectBodyOfRoom(r: Room)
    ensures ObjectBody(ToJson(r)) == Inner(r)
  {
    var t := ToJson(r);
    var inner := Inner(r);
    assert t == "{" + inner + "}";
    TrimKeeps(t);
    assert t[..1] == "{";
    var u := t[1..];
    assert u == inner + "}";
    assert u[|u| - 1..] == "}";
    assert u[..|u| - 1] == inner;
  }

  lemma ObjectBodyOfLaterRoom(r: Room)
    ensures ObjectBody("," + ToJson(r)) == "," + "{" + Inner(r)
  {
    var t := "," + ToJson(r);
    var inner := Inner(r);
    assert t == "," + "{" + inner + "}";
    TrimKeeps(t);
    assert t[|t| - 1..] == "}";
    assert t[..|t| - 1] == "," + "{" + inner;
  }

  lemma FlatObjectOfBody(body: string, s: string)
    requires ObjectBody(body) == s && Trim(s) != []
    ensures FlatObject(body) == BuildMap(Parts(s), map[])
  {
  }

  lemma BuildCons(t: string, ts: seq<string>, m: map<string, string>)
    ensures BuildMap([t] + ts, m) == BuildMap(ts, AddPart(m, t))
  {
    assert ([t] + ts)[1..] == ts;
  }

  lemma PartsOfInner(r: Room)
    requires '\\' !in r.roomNo
    ensures Parts(Inner(r))
            == [Member("roomNo", "\"" + EscapeQuotes(r.roomNo) + "\"")] + MemberTexts(FlagMembers(r))
  {
    SplitInner(r, SplitStart);
    var m0 := Member("roomNo", "\"" + EscapeQuotes(r.roomNo) + "\"");
    assert [] + m0 == m0;
  }

  /** parseFlatJsonObject gives back the four members toJson wrote. */
  lemma FlatObjectOfRoom(r: Room)
    requires '\\' !in r.roomNo
    ensures FlatObject(ToJson(r)) == RoomMap(r)
  {
    var inner := Inner(r);
    var m0 := Member("roomNo", "\"" + EscapeQuotes(r.roomNo) + "\"");
    var ft := MemberTexts(FlagMembers(r));
    assert FlatObject(ToJson(r)) == BuildMap(Parts(inner), map[]) by {
      ObjectBodyOfRoom(r);
      InnerStartsWithQuote(r);
      assert !AllTrimmable(inner);
      FlatObjectOfBody(ToJson(r), inner);
    }
    PartsOfInner(r);
    BuildCons(m0, ft, map[]);
    assert AddPart(map[], m0) == map["roomNo" := r.roomNo] by {
      KeysPlain();
      AddKeyMember(map[], "roomNo", "\"" + EscapeQuotes(r.roomNo) + "\"");
      StringValue(r.roomNo);
    }
    BuildFlags(r, map["roomNo" := r.roomNo]);
  }

  lemma IntFieldReads(n: int32)
    ensures ParseIntSafe(Some(IntToString(n as int)), -1) == n
  {
    IntTextPlain(n as int);
    TrimKeeps(IntToString(n as int));
    ParseIntToString(n);
  }

  lemma BoolFieldReads(b: bool)
    ensures ParseBoolSafe(Some(BoolText(b)), false) == b
  {
    BoolTextPlain(b);
    ToLowerWithoutUpper(BoolText(b));
  }

  lemma RecordFromRoomMap(r: Room)
    requires WellFormedRoom(r)
    ensures RecordFrom(RoomMap(r)) == Some(r)
  {
    var m := RoomMap(r);
    assert Get(m, "roomNo") == Some(r.roomNo);
    assert Get(m, "capacity") == Some(IntToString(r.capacity as int));
    assert Get(m, "hasAC") == Some(BoolText(r.hasAC));
    assert Get(m, "hasAttachedWashroom") == Some(BoolText(r.hasAttachedWashroom));
    IntFieldReads(r.capacity);
    BoolFieldReads(r.hasAC);
    BoolFieldReads(r.hasAttachedWashroom);
  }

  /** The first object of a snapshot reads back as the room it was written from. */
  lemma RecordOfRoom(r: Room)
    requires WellFormedRoom(r) && '\\' !in r.roomNo
    ensures RecordOf(ToJson(r)) == Some(r)
  {
    FlatObjectOfRoom(r);
    RecordFromRoomMap(r);
  }

  lemma PartsOfLaterInner(r: Room)
    requires '\\' !in r.roomNo
    ensures Parts("," + "{" + Inner(r))
            == [[]] + (["{" + Member("roomNo", "\"" + EscapeQuotes(r.roomNo) + "\"")] + MemberTexts(FlagMembers(r)))
  {
    var st := SplitState(false, false, "{", [[]]);
    assert Split("," + "{", SplitStart) == st by {
      SplitConcat(",", "{", SplitStart);
      SplitComma(SplitStart);
      assert Split("{", SplitState(false, false, [], [[]])) == SplitStep(SplitState(false, false, [], [[]]), '{');
    }
    SplitConcat("," + "{", Inner(r), SplitStart);
    SplitInner(r, st);
  }

  /** A record without a `roomNo` key is dropped. */
  lemma RecordFromWithoutRoomNo(m: map<string, string>)
    requires "roomNo" !in m
    ensures RecordFrom(m) == None
  {
  }

  /** The map a later object of a snapshot stands for: its first key keeps the brace. */
  function LaterRoomMap(r: Room): map<string, string> {
    map["{" + "\"" + "roomNo" + "\"" := r.roomNo]
       ["capacity" := IntToString(r.capacity as int)]
       ["hasAC" := BoolText(r.hasAC)]
       ["hasAttachedWashroom" := BoolText(r.hasAttachedWashroom)]
  }

  lemma LaterRoomMapKeys(r: Room)
    ensures "roomNo" !in LaterRoomMap(r)
  {
    var key := "{" + "\"" + "roomNo" + "\"";
    assert |key| == 9;
    assert |"capacity"| == 8 && |"hasAC"| == 5 && |"hasAttachedWashroom"| == 19;
  }

  /** parseFlatJsonObject on a later object of a snapshot, comma and all. */
  lemma FlatObjectOfLaterRoom(r: Room)
    requires '\\' !in r.roomNo
    ensures FlatObject("," + ToJson(r)) == LaterRoomMap(r)
  {
    var inner := Inner(r);
    var body := "," + "{" + inner;
    var m0 := Member("roomNo", "\"" + EscapeQuotes(r.roomNo) + "\"");
    var ft := MemberTexts(FlagMembers(r));
    var key := "{" + "\"" + "roomNo" + "\"";
    assert FlatObject("," + ToJson(r)) == BuildMap(Parts(body), map[]) by {
      ObjectBodyOfLaterRoom(r);
      assert body[0] == ',' && !IsTrimmable(body[0]);
      FlatObjectOfBody("," + ToJson(r), body);
    }
    var rest := ["{" + m0] + ft;
    assert Parts(body) == [[]] + rest by {
      PartsOfLaterInner(r);
    }
    var m1 := map[key := r.roomNo];
    assert BuildMap([[]] + rest, map[]) == BuildMap(rest, map[]) by {
      BuildCons([], rest, map[]);
      assert AddPart(map[], []) == map[];
    }
    assert BuildMap(rest, map[]) == BuildMap(ft, m1) by {
      BuildCons("{" + m0, ft, map[]);
      assert AddPart(map[], "{" + m0) == m1 by {
        KeysPlain();
        AddBracedMember(map[], "roomNo", "\"" + EscapeQuotes(r.roomNo) + "\"");
        StringValue(r.roomNo);
      }
    }
    BuildFlags(r, m1);
  }

  /** Every later object of a snapshot keeps the comma before it, which ends up in its
      first key: the record has no `roomNo` and is dropped. */
  lemma RecordOfLaterRoom(r: Room)
    requires '\\' !in r.roomNo
    ensures RecordOf("," + ToJson(r)) == None
  {
    FlatObjectOfLaterRoom(r);
    LaterRoomMapKeys(r);
    RecordFromWithoutRoomNo(LaterRoomMap(r));
  }

  // ===========================================================================
  // A whole snapshot
  // ===========================================================================

  /** No room number holds a backslash. */
  predicate NoBackslashes(rooms: seq<Room>) {
    forall i | 0 <= i < |rooms| :: '\\' !in rooms[i].roomNo
  }

  lemma NoBackslashesFront(rooms: seq<Room>)
    requires rooms != [] && NoBackslashes(rooms)
    ensures NoBackslashes(rooms[..|rooms| - 1]) && '\\' !in rooms[|rooms| - 1].roomNo
  {
    var front := rooms[..|rooms| - 1];
    forall i | 0 <= i < |front| ensures '\\' !in front[i].roomNo {
      assert front[i] == rooms[i];
    }
  }

  /** The texts the object cutter makes of a snapshot: the first object, then every later
      object with the comma written before it. */
  function CutTexts(rooms: seq<Room>): seq<string>
    decreases |rooms|
  {
    if rooms == [] then []
    else if |rooms| == 1 then [ToJson(rooms[0])]
    else CutTexts(rooms[..|rooms| - 1]) + ["," + ToJson(rooms[|rooms| - 1])]
  }

  lemma ToJsonEnds(r: Room)
    ensures ToJson(r) != [] && ToJson(r)[0] == '{' && ToJson(r)[|ToJson(r)| - 1] == '}'
  {
    assert ToJson(r) == "{" + Inner(r) + "}";
  }

  lemma {:induction false} JoinObjectsEnds(rooms: seq<Room>)
    requires rooms != []
    ensures JoinObjects(rooms) != [] && JoinObjects(rooms)[0] == '{'
    decreases |rooms|
  {
    if |rooms| == 1 {
      ToJsonEnds(rooms[0]);
    } else {
      JoinObjectsEnds(rooms[..|rooms| - 1]);
    }
  }

  /** The first object of a snapshot is cut out as it was written. */
  lemma ScanFirstObject(r: Room)
    requires '\\' !in r.roomNo
    ensures Scan(ToJson(r), ScanStart) == ScanState(false, false, 0, [], [ToJson(r)])
  {
    var t := ToJson(r);
    ScanObject(r, [], []);
    assert [] + t == t;
    ToJsonEnds(r);
    TrimKeeps(t);
  }

  /** A later object is cut out together with the comma before it. */
  lemma ScanLaterObject(j: string, r: Room, objs: seq<string>)
    requires Scan(j, ScanStart) == ScanState(false, false, 0, [], objs) && '\\' !in r.roomNo
    ensures Scan(j + "," + ToJson(r), ScanStart) == ScanState(false, false, 0, [], objs + ["," + ToJson(r)])
  {
    var t := ToJson(r);
    var st := ScanState(false, false, 0, [], objs);
    assert Scan(j + ",", ScanStart) == st.(cur := ",") by {
      ScanConcat(j, ",", ScanStart);
      ScanOne(',', st);
    }
    ScanConcat(j + ",", t, ScanStart);
    ScanObject(r, ",", objs);
    assert Trim("," + t) == "," + t by {
      ToJsonEnds(r);
      TrimKeeps("," + t);
    }
  }

  /** The cutter over the objects toJsonArray joins: one text per room, nothing left over. */
  lemma {:induction false} ScanJoin(rooms: seq<Room>)
    requires rooms != [] && NoBackslashes(rooms)
    ensures Scan(JoinObjects(rooms), ScanStart) == ScanState(false, false, 0, [], CutTexts(rooms))
    decreases |rooms|
  {
    if |rooms| == 1 {
      ScanFirstObject(rooms[0]);
    } else {
      var front := rooms[..|rooms| - 1];
      NoBackslashesFront(rooms);
      ScanJoin(front);
      ScanLaterObject(JoinObjects(front), rooms[|rooms| - 1], CutTexts(front));
    }
  }

  /** What is left between the brackets of a snapshot is the joined objects. */
  lemma ArrayBodyOfJson(rooms: seq<Room>)
    ensures ArrayBody(JsonArray(rooms)) == JoinObjects(rooms)
  {
    var j := JoinObjects(rooms);
    var t := JsonArray(rooms);
    assert t == "[" + j + "]";
    TrimKeeps(t);
    assert t[..1] == "[";
    var u := t[1..];
    assert u == j + "]";
    assert u[|u| - 1..] == "]";
    assert u[..|u| - 1] == j;
  }

  /** The object texts parseRoomsJsonArray cuts from a snapshot. */
  lemma ObjectTextsOfArray(rooms: seq<Room>)
    requires NoBackslashes(rooms)
    ensures ObjectTexts(JsonArray(rooms)) == CutTexts(rooms)
  {
    ArrayBodyOfJson(rooms);
    if rooms != [] {
      JoinObjectsEnds(rooms);
      var j := JoinObjects(rooms);
      assert !AllTrimmable(j) by {
        assert !IsTrimmable(j[0]);
      }
      ScanJoin(rooms);
    }
  }

  lemma RoomsOfAppend(ts: seq<string>, t: string)
    ensures RoomsOf(ts + [t]) == RoomsOf(ts) + Kept(RecordOf(t))
  {
    assert (ts + [t])[..|ts|] == ts;
  }

  lemma RoomsOfFirst(r: Room)
    requires WellFormedRoom(r) && '\\' !in r.roomNo
    ensures RoomsOf(CutTexts([r])) == [r]
  {
    var t := ToJson(r);
    assert CutTexts([r]) == [] + [t];
    RoomsOfAppend([], t);
    RecordOfRoom(r);
  }

  /** A later object text adds no room. */
  lemma RoomsOfNext(ts: seq<string>, last: Room)
    requires '\\' !in last.roomNo
    ensures RoomsOf(ts + ["," + ToJson(last)]) == RoomsOf(ts)
  {
    RoomsOfAppend(ts, "," + ToJson(last));
    RecordOfLaterRoom(last);
  }

  /** Of the cut texts only the first names a room. */
  lemma {:induction false} RoomsOfCutTexts(rooms: seq<Room>)
    requires rooms != [] && NoBackslashes(rooms) && WellFormedRoom(rooms[0])
    ensures RoomsOf(CutTexts(rooms)) == [rooms[0]]
    decreases |rooms|
  {
    if |rooms| == 1 {
      assert rooms == [rooms[0]];
      RoomsOfFirst(rooms[0]);
    } else {
      var front := rooms[..|rooms| - 1];
      NoBackslashesFront(rooms);
      assert front[0] == rooms[0];
      RoomsOfCutTexts(front);
      RoomsOfNext(CutTexts(front), rooms[|rooms| - 1]);
    }
  }

  /** Reading back a snapshot as written: an empty list comes back empty, and of any other
      list only the first room comes back. */
  lemma DecodeSnapshot(rooms: seq<Room>)
    requires NoBackslashes(rooms) && (rooms != [] ==> WellFormedRoom(rooms[0]))
    ensures DecodeRooms(JsonArray(rooms)) == if rooms == [] then [] else [rooms[0]]
  {
    ObjectTextsOfArray(rooms);
    if rooms != [] {
      RoomsOfCutTexts(rooms);
    }
  }

  /** The snapshot of two rooms reads back as the first alone. */
  lemma SecondRoomLost(a: Room, b: Room)
    requires WellFormedRoom(a) && '\\' !in a.roomNo && '\\' !in b.roomNo
    ensures DecodeRooms(JsonArray([a, b])) == [a]
    ensures DecodeRooms(JsonArray([a, b])) != [a, b]
  {
    DecodeSnapshot([a, b]);
  }

  lemma SeparatedStep(ts: seq<string>, t: string)
    ensures SeparatedRoomsOf(ts + [t]) == SeparatedRoomsOf(ts) + Kept(RecordOf(DropSeparator(t)))
  {
    assert (ts + [t])[..|ts|] == ts;
  }

  /** The first text keeps no separator; it reads back as its room. */
  lemma FirstTextReads(r: Room)
    requires WellFormedRoom(r) && '\\' !in r.roomNo
    ensures RecordOf(DropSeparator(ToJson(r))) == Some(r)
  {
    ToJsonEnds(r);
    RecordOfRoom(r);
  }

  /** A later text loses its comma and reads back as its room. */
  lemma LaterTextReads(r: Room)
    requires WellFormedRoom(r) && '\\' !in r.roomNo
    ensures RecordOf(DropSeparator("," + ToJson(r))) == Some(r)
  {
    var t := ToJson(r);
    assert DropSeparator("," + t) == t by {
      assert ("," + t)[1..] == t;
      ToJsonEnds(r);
      TrimKeeps(t);
    }
    RecordOfRoom(r);
  }

  lemma FrontAndLast(rooms: seq<Room>)
    requires rooms != []
    ensures rooms[..|rooms| - 1] + [rooms[|rooms| - 1]] == rooms
  {
  }

  lemma SeparatedFirst(r: Room)
    requires WellFormedRoom(r) && '\\' !in r.roomNo
    ensures SeparatedRoomsOf(CutTexts([r])) == [r]
  {
    var t := ToJson(r);
    assert CutTexts([r]) == [] + [t];
    SeparatedStep([], t);
    FirstTextReads(r);
  }

  /** A comma-led object text appended to texts that read back as `front` adds its room. */
  lemma SeparatedNext(ts: seq<string>, front: seq<Room>, last: Room)
    requires WellFormedRoom(last) && '\\' !in last.roomNo && SeparatedRoomsOf(ts) == front
    ensures SeparatedRoomsOf(ts + ["," + ToJson(last)]) == front + [last]
  {
    SeparatedStep(ts, "," + ToJson(last));
    LaterTextReads(last);
  }

  lemma AllWellFormedFront(rooms: seq<Room>)
    requires rooms != [] && AllWellFormed(rooms)
    ensures AllWellFormed(rooms[..|rooms| - 1]) && WellFormedRoom(rooms[|rooms| - 1])
  {
    var front := rooms[..|rooms| - 1];
    forall i | 0 <= i < |front| ensures WellFormedRoom(front[i]) {
      assert front[i] == rooms[i];
    }
  }

  /** With the separators dropped every cut text names its room again. */
  lemma {:induction false} SeparatedRoomsOfCutTexts(rooms: seq<Room>)
    requires AllWellFormed(rooms) && NoBackslashes(rooms)
    ensures SeparatedRoomsOf(CutTexts(rooms)) == rooms
    decreases |rooms|
  {
    if |rooms| == 1 {
      assert rooms == [rooms[0]];
      SeparatedFirst(rooms[0]);
    } else if |rooms| > 1 {
      NoBackslashesFront(rooms);
      AllWellFormedFront(rooms);
      var front := rooms[..|rooms| - 1];
      SeparatedRoomsOfCutTexts(front);
      SeparatedNext(CutTexts(front), front, rooms[|rooms| - 1]);
      FrontAndLast(rooms);
    }
  }

  /** The corrected reading gives every room of a snapshot back, in order. */
  lemma CorrectedSnapshotRoundTrip(rooms: seq<Room>)
    requires AllWellFormed(rooms) && NoBackslashes(rooms)
    ensures CorrectedDecodeRooms(JsonArray(rooms)) == rooms
  {
    ObjectTextsOfArray(rooms);
    SeparatedRoomsOfCutTexts(rooms);
  }
}
