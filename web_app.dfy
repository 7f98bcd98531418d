/** The pure parts of the browser client web/app.js: `escapeHtml`, `badgeYesNo` and the
    text `setOutput` writes. */
module WebApp {
  import opened Wrappers
  import opened JavaString

  // ===========================================================================
  // escapeHtml
  // ===========================================================================

  /** escapeHtml: five `replaceAll` passes, the ampersand first. */
  function EscapeHtml(str: string): string {
    ReplaceAll(ReplaceAll(ReplaceAll(ReplaceAll(ReplaceAll(str, "&", "&amp;"), "<", "&lt;"), ">", "&gt;"),
                          "\"", "&quot;"), "'", "&#039;")
  }

  /** Undoing the five passes in reverse order. */
  function UnescapeHtml(str: string): string {
    ReplaceAll(ReplaceAll(ReplaceAll(ReplaceAll(ReplaceAll(str, "&#039;", "'"), "&quot;", "\""), "&gt;", ">"),
                          "&lt;", "<"), "&amp;", "&")
  }

  /** The character reference escapeHtml writes for `c`, or `c` itself. */
  function EntityOf(c: char): string {
    if c == '&' then "&amp;"
    else if c == '<' then "&lt;"
    else if c == '>' then "&gt;"
    else if c == '"' then "&quot;"
    else if c == '\'' then "&#039;"
    else [c]
  }

  /** The reference reading of escapeHtml: every character replaced by its reference. */
  function EscapeChars(s: string): string
    decreases |s|
  {
    if s == [] then [] else EntityOf(s[0]) + EscapeChars(s[1..])
  }

  predicate IsSpecial(c: char) {
    c == '&' || c == '<' || c == '>' || c == '"' || c == '\''
  }

  /** The five characters in the order escapeHtml replaces them, and their references. */
  const Specials: seq<char> := ['&', '<', '>', '"', '\'']
  const Entities: seq<string> := ["&amp;", "&lt;", "&gt;", "&quot;", "&#039;"]

  /** What `c` has become after the first `k` passes. */
  function StageOf(k: nat, c: char): string
    requires k <= 5
  {
    if k == 0 then [c] else if c == Specials[k - 1] then Entities[k - 1] else StageOf(k - 1, c)
  }

  /** The text after the first `k` passes, character by character. */
  function Staged(k: nat, s: string): string
    requires k <= 5
    decreases |s|
  {
    if s == [] then [] else StageOf(k, s[0]) + Staged(k, s[1..])
  }

  // ---------------------------------------------------------------------------
  // replaceAll on a text that is cut into pieces the target cannot straddle
  // ---------------------------------------------------------------------------

  /** A leading character other than the target's first is copied. */
  lemma ReplaceHeadNoMatch(c: char, s: string, target: string, replacement: string)
    requires target != [] && c != target[0]
    ensures ReplaceAll([c] + s, target, replacement) == [c] + ReplaceAll(s, target, replacement)
  {
    if |[c] + s| >= |target| {
      assert ([c] + s)[..|target|][0] == c;
      ReplaceNoMatchHead(c, s, target, replacement);
    } else {
      assert |s| < |target|;
    }
  }

  /** A prefix without the target's first character is copied. */
  lemma {:induction false} ReplacePrefixFree(p: string, s: string, target: string, replacement: string)
    requires target != [] && target[0] !in p
    ensures ReplaceAll(p + s, target, replacement) == p + ReplaceAll(s, target, replacement)
    decreases |p|
  {
    if p != [] {
      assert p + s == [p[0]] + (p[1..] + s);
      ReplaceHeadNoMatch(p[0], p[1..] + s, target, replacement);
      assert target[0] !in p[1..] by {
        forall i | 0 <= i < |p[1..]| ensures p[1..][i] != target[0] {
          assert p[1..][i] == p[i + 1];
        }
      }
      ReplacePrefixFree(p[1..], s, target, replacement);
      assert p == [p[0]] + p[1..];
    } else {
      assert p + s == s;
    }
  }

  /** A reference other than the target, which differs from it at its second character, is
      copied. */
  lemma ReplaceOtherEntity(e: string, s: string, target: string, replacement: string)
    requires |e| >= 2 && |target| >= 2 && e[0] == target[0] && e[1] != target[1] && target[0] !in e[1..]
    ensures ReplaceAll(e + s, target, replacement) == e + ReplaceAll(s, target, replacement)
  {
    var t := e + s;
    if |t| >= |target| {
      assert t[..|target|][1] == e[1];
      assert t[1..] == e[1..] + s;
      ReplacePrefixFree(e[1..], s, target, replacement);
      assert e == [e[0]] + e[1..];
    } else {
      assert |s| < |target|;
    }
  }

  // ---------------------------------------------------------------------------
  // The references
  // ---------------------------------------------------------------------------

  /** The characters a reference is made of. */
  predicate EntityChar(c: char) {
    c == '&' || c == '#' || c == ';' || ('a' <= c <= 'z') || ('0' <= c <= '9')
  }

  lemma EntityShape(i: nat)
    requires i < 5
    ensures |Entities[i]| >= 2 && Entities[i][0] == '&' && '&' !in Entities[i][1..]
    ensures forall j | 0 <= j < |Entities[i]| :: EntityChar(Entities[i][j])
  {
    var e := Entities[i];
    if i == 0 {
      assert e == "&amp;";
      assert e[1..] == "amp;";
    } else if i == 1 {
      assert e == "&lt;";
      assert e[1..] == "lt;";
    } else if i == 2 {
      assert e == "&gt;";
      assert e[1..] == "gt;";
    } else if i == 3 {
      assert e == "&quot;";
      assert e[1..] == "quot;";
    } else {
      assert e == "&#039;";
      assert e[1..] == "#039;";
    }
  }

  /** The five references already differ at their second character. */
  lemma EntitiesDiffer(i: nat, j: nat)
    requires i < 5 && j < 5 && i != j
    ensures Entities[i][1] != Entities[j][1]
  {
  }

  /** What `c` is after `k` passes: its reference if it is one of the first `k` specials,
      the character alone otherwise. */
  lemma {:induction false} StageOfCases(k: nat, c: char)
    requires k <= 5
    ensures (exists i | 0 <= i < k :: Specials[i] == c) || StageOf(k, c) == [c]
    ensures forall i | 0 <= i < k && Specials[i] == c :: StageOf(k, c) == Entities[i]
    decreases k
  {
    if k > 0 {
      StageOfCases(k - 1, c);
    }
  }

  // ---------------------------------------------------------------------------
  // Forward: pass k turns the stage-k text into the stage-(k+1) text
  // ---------------------------------------------------------------------------

  lemma {:induction false} ForwardPass(k: nat, s: string)
    requires k < 5
    ensures ReplaceAll(Staged(k, s), [Specials[k]], Entities[k]) == Staged(k + 1, s)
    decreases |s|
  {
    if s != [] {
      var c := s[0];
      var p := StageOf(k, c);
      var t := [Specials[k]];
      ForwardPass(k, s[1..]);
      StageOfCases(k, c);
      if c == Specials[k] {
        assert p == [c];
        assert p == t;
        ReplaceMatchHead(Staged(k, s[1..]), t, Entities[k]);
      } else {
        assert StageOf(k + 1, c) == p;
        assert Specials[k] !in p by {
          if p != [c] {
            var i :| 0 <= i < k && Specials[i] == c;
            assert p == Entities[i];
            EntityShape(i);
            assert !EntityChar(Specials[k]) || k == 0;
          }
        }
        ReplacePrefixFree(p, Staged(k, s[1..]), t, Entities[k]);
      }
    }
  }

  lemma {:induction false} StagedZero(s: string)
    ensures Staged(0, s) == s
    decreases |s|
  {
    if s != [] {
      StagedZero(s[1..]);
      assert s == [s[0]] + s[1..];
    }
  }

  lemma StageFiveIsEntity(c: char)
    ensures StageOf(5, c) == EntityOf(c)
  {
    StageOfCases(5, c);
    if c == '&' {
      assert Specials[0] == c;
    } else if c == '<' {
      assert Specials[1] == c;
    } else if c == '>' {
      assert Specials[2] == c;
    } else if c == '"' {
      assert Specials[3] == c;
    } else if c == '\'' {
      assert Specials[4] == c;
    }
  }

  lemma {:induction false} StagedFive(s: string)
    ensures Staged(5, s) == EscapeChars(s)
    decreases |s|
  {
    if s != [] {
      StagedFive(s[1..]);
      StageFiveIsEntity(s[0]);
    }
  }

  /** Pass `k` with its target and reference written out. */
  lemma ForwardLiteral(k: nat, s: string, target: string, entity: string)
    requires k < 5 && target == [Specials[k]] && entity == Entities[k]
    ensures ReplaceAll(Staged(k, s), target, entity) == Staged(k + 1, s)
  {
    ForwardPass(k, s);
  }

  /** The five passes of escapeHtml, one stage each. */
  lemma EscapeHtmlStaged(s: string)
    ensures EscapeHtml(s) == Staged(5, s)
  {
    StagedZero(s);
    ForwardLiteral(0, s, "&", "&amp;");
    ForwardLiteral(1, s, "<", "&lt;");
    ForwardLiteral(2, s, ">", "&gt;");
    ForwardLiteral(3, s, "\"", "&quot;");
    ForwardLiteral(4, s, "'", "&#039;");
  }

  /** escapeHtml agrees with the reference reading. */
  lemma EscapeHtmlByChar(s: string)
    ensures EscapeHtml(s) == EscapeChars(s)
  {
    EscapeHtmlStaged(s);
    StagedFive(s);
  }

  // ---------------------------------------------------------------------------
  // Backward: undoing pass m - 1 turns the stage-m text into the stage-(m-1) text
  // ---------------------------------------------------------------------------

  lemma {:induction false} BackwardPass(m: nat, s: string)
    requires 1 <= m <= 5
    ensures ReplaceAll(Staged(m, s), Entities[m - 1], [Specials[m - 1]]) == Staged(m - 1, s)
    decreases |s|
  {
    if s != [] {
      var c := s[0];
      var p := StageOf(m, c);
      var t := Entities[m - 1];
      var rest := Staged(m, s[1..]);
      EntityShape(m - 1);
      BackwardPass(m, s[1..]);
      StageOfCases(m, c);
      StageOfCases(m - 1, c);
      if c == Specials[m - 1] {
        assert p == t;
        ReplaceMatchHead(rest, t, [Specials[m - 1]]);
        assert StageOf(m - 1, c) == [c];
      } else if p != [c] {
        var i :| 0 <= i < m && Specials[i] == c;
        assert i < m - 1;
        assert p == Entities[i];
        EntityShape(i);
        EntitiesDiffer(i, m - 1);
        ReplaceOtherEntity(p, rest, t, [Specials[m - 1]]);
      } else {
        assert c != '&';
        ReplaceHeadNoMatch(c, rest, t, [Specials[m - 1]]);
      }
    }
  }

  /** Undoing pass `m - 1` with its reference and character written out. */
  lemma BackwardLiteral(m: nat, s: string, entity: string, special: string)
    requires 1 <= m <= 5 && entity == Entities[m - 1] && special == [Specials[m - 1]]
    ensures ReplaceAll(Staged(m, s), entity, special) == Staged(m - 1, s)
  {
    BackwardPass(m, s);
  }

  /** Undoing the replacements in reverse order gives the input back. */
  lemma UnescapeEscape(s: string)
    ensures UnescapeHtml(EscapeHtml(s)) == s
  {
    EscapeHtmlStaged(s);
    BackwardLiteral(5, s, "&#039;", "'");
    BackwardLiteral(4, s, "&quot;", "\"");
    BackwardLiteral(3, s, "&gt;", ">");
    BackwardLiteral(2, s, "&lt;", "<");
    BackwardLiteral(1, s, "&amp;", "&");
    StagedZero(s);
  }

  // ---------------------------------------------------------------------------
  // What the output looks like
  // ---------------------------------------------------------------------------

  /** The text at `i` begins with one of the five references. */
  predicate EntityAt(r: string, i: nat)
    requires i <= |r|
  {
    StartsWith(r[i..], "&amp;") || StartsWith(r[i..], "&lt;") || StartsWith(r[i..], "&gt;")
    || StartsWith(r[i..], "&quot;") || StartsWith(r[i..], "&#039;")
  }

  lemma EntityOfShape(c: char)
    ensures |EntityOf(c)| >= 1
    ensures forall j | 0 <= j < |EntityOf(c)| :: !('<' == EntityOf(c)[j] || '>' == EntityOf(c)[j]
                                                  || '"' == EntityOf(c)[j] || '\'' == EntityOf(c)[j])
    ensures !IsSpecial(c) ==> EntityOf(c) == [c]
    ensures IsSpecial(c) ==> EntityOf(c)[0] == '&' && '&' !in EntityOf(c)[1..]
  {
    StageFiveIsEntity(c);
    StageOfCases(5, c);
    if IsSpecial(c) {
      var i :| 0 <= i < 5 && Specials[i] == c;
      EntityShape(i);
    }
  }

  /** The text escapeHtml writes for `s` holds none of `<`, `>`, `"`, `'`, and each of its
      ampersands begins a reference. */
  lemma {:induction false} EscapeCharsClean(s: string)
    ensures forall i | 0 <= i < |EscapeChars(s)| :: !(EscapeChars(s)[i] in "<>\"'")
    ensures forall i | 0 <= i < |EscapeChars(s)| && EscapeChars(s)[i] == '&' :: EntityAt(EscapeChars(s), i)
    decreases |s|
  {
    if s != [] {
      var c := s[0];
      var e := EntityOf(c);
      var rest := EscapeChars(s[1..]);
      var r := EscapeChars(s);
      EscapeCharsClean(s[1..]);
      EntityOfShape(c);
      assert r == e + rest;
      forall i | 0 <= i < |r|
        ensures !(r[i] in "<>\"'")
        ensures r[i] == '&' ==> EntityAt(r, i)
      {
        if i < |e| {
          assert r[i] == e[i];
          if IsSpecial(c) && i == 0 {
            assert r[0..] == e + rest;
            EntityPrefix(c, rest);
          } else if IsSpecial(c) {
            assert e[1..][i - 1] == e[i];
          }
        } else {
          assert r[i] == rest[i - |e|];
          assert r[i..] == rest[i - |e|..];
        }
      }
    }
  }

  lemma EntityPrefix(c: char, rest: string)
    requires IsSpecial(c)
    ensures EntityAt(EntityOf(c) + rest, 0)
  {
    var t := EntityOf(c) + rest;
    assert t[0..] == t;
    assert t[..|EntityOf(c)|] == EntityOf(c);
  }

  /** The output of escapeHtml holds none of `<`, `>`, `"`, `'`. */
  lemma EscapeHtmlClean(s: string)
    ensures forall i | 0 <= i < |EscapeHtml(s)| :: !(EscapeHtml(s)[i] in "<>\"'")
  {
    EscapeHtmlByChar(s);
    EscapeCharsClean(s);
  }

  /** Every ampersand in the output of escapeHtml begins `&amp;`, `&lt;`, `&gt;`, `&quot;`
      or `&#039;`. */
  lemma EscapeHtmlAmpersands(s: string)
    ensures forall i | 0 <= i < |EscapeHtml(s)| && EscapeHtml(s)[i] == '&' :: EntityAt(EscapeHtml(s), i)
  {
    EscapeHtmlByChar(s);
    EscapeCharsClean(s);
  }

  /** Text without any of the five specials passes through unchanged. */
  lemma {:induction false} EscapePlain(s: string)
    requires forall i | 0 <= i < |s| :: !IsSpecial(s[i])
    ensures EscapeHtml(s) == s
  {
    EscapeHtmlByChar(s);
    EscapeCharsPlain(s);
  }

  lemma {:induction false} EscapeCharsPlain(s: string)
    requires forall i | 0 <= i < |s| :: !IsSpecial(s[i])
    ensures EscapeChars(s) == s
    decreases |s|
  {
    if s != [] {
      assert !IsSpecial(s[0]);
      EscapeCharsPlain(s[1..]);
      assert s == [s[0]] + s[1..];
    }
  }

  /** escapeHtml never shortens its input. */
  lemma EscapeHtmlLonger(s: string)
    ensures |EscapeHtml(s)| >= |s|
  {
    EscapeHtmlByChar(s);
    EscapeCharsLonger(s);
  }

  lemma {:induction false} EscapeCharsLonger(s: string)
    ensures |EscapeChars(s)| >= |s|
    decreases |s|
  {
    if s != [] {
      EscapeCharsLonger(s[1..]);
      EntityOfShape(s[0]);
    }
  }

  // ===========================================================================
  // badgeYesNo
  // ===========================================================================

  function BadgeYesNo(v: bool): string {
    if v then "<span class=\"badge ok\">Yes</span>" else "<span class=\"badge no\">No</span>"
  }

  /** The two badges differ, so the badge tells the flag. */
  lemma BadgeTellsFlag(v: bool, w: bool)
    ensures BadgeYesNo(v) == BadgeYesNo(w) <==> v == w
  {
    assert |BadgeYesNo(true)| != |BadgeYesNo(false)|;
  }

  // ===========================================================================
  // setOutput
  // ===========================================================================

  /** The label for a tone; an absent tone is `"info"`. */
  function ToneLabel(tone: Option<string>): (name: string)
    ensures name == "SUCCESS" || name == "ERROR" || name == "NOTICE" || name == "INFO"
    ensures name == "INFO" <==> tone.Some? ==> tone.value != "success" && tone.value != "danger" && tone.value != "warning"
    ensures tone == Some("success") ==> name == "SUCCESS"
    ensures tone == Some("danger") ==> name == "ERROR"
    ensures tone == Some("warning") ==> name == "NOTICE"
  {
    var t := tone.GetOr("info");
    if t == "success" then "SUCCESS"
    else if t == "danger" then "ERROR"
    else if t == "warning" then "NOTICE"
    else "INFO"
  }

  /** JavaScript's `trim` removes white space and line terminators. */
  predicate IsJsSpace(c: char) {
    c == '\t' || c == '\n' || c == '\U{000B}' || c == '\U{000C}' || c == '\r' || c == ' '
    || c == '\U{00A0}' || c == '\U{1680}' || ('\U{2000}' <= c <= '\U{200A}') || c == '\U{2028}'
    || c == '\U{2029}' || c == '\U{202F}' || c == '\U{205F}' || c == '\U{3000}' || c == '\U{FEFF}'
  }

  predicate AllJsSpace(s: string) {
    forall i | 0 <= i < |s| :: IsJsSpace(s[i])
  }

  function JsTrimStart(s: string): (r: string)
    ensures |r| <= |s|
    ensures r != [] ==> !IsJsSpace(r[0]) && r[|r| - 1] == s[|s| - 1]
    ensures r == [] <==> AllJsSpace(s)
  {
    if s != [] && IsJsSpace(s[0]) then JsTrimStart(s[1..]) else s
  }

  function JsTrimEnd(s: string): (r: string)
    ensures |r| <= |s|
    ensures r != [] ==> !IsJsSpace(r[|r| - 1]) && r[0] == s[0]
    ensures r == [] <==> AllJsSpace(s)
  {
    if s != [] && IsJsSpace(s[|s| - 1]) then JsTrimEnd(s[..|s| - 1]) else s
  }

  /** JavaScript `s.trim()`: empty exactly for an all-blank text, otherwise starting and
      ending with a non-blank char. */
  function JsTrim(s: string): (r: string)
    ensures |r| <= |s|
    ensures r != [] ==> !IsJsSpace(r[0]) && !IsJsSpace(r[|r| - 1])
    ensures r == [] <==> AllJsSpace(s)
  {
    JsTrimEnd(JsTrimStart(s))
  }

  /** JsTrimStart drops a run of blanks from the front and keeps the rest. */
  lemma {:induction false} JsTrimStartSuffix(s: string) returns (i: nat)
    ensures i <= |s| && JsTrimStart(s) == s[i..] && AllJsSpace(s[..i])
    decreases |s|
  {
    if s != [] && IsJsSpace(s[0]) {
      var i' := JsTrimStartSuffix(s[1..]);
      i := i' + 1;
      assert s[1..][i'..] == s[i..];
      forall k | 0 <= k < i ensures IsJsSpace(s[k]) {
        if k > 0 {
          assert s[k] == s[1..][..i'][k - 1];
        }
      }
    } else {
      i := 0;
    }
  }

  /** JsTrimEnd drops a run of blanks from the back and keeps the rest. */
  lemma {:induction false} JsTrimEndPrefix(s: string) returns (j: nat)
    ensures j <= |s| && JsTrimEnd(s) == s[..j] && AllJsSpace(s[j..])
    decreases |s|
  {
    if s != [] && IsJsSpace(s[|s| - 1]) {
      var f := s[..|s| - 1];
      j := JsTrimEndPrefix(f);
      assert f[..j] == s[..j];
      forall k | j <= k < |s| ensures IsJsSpace(s[k]) {
        if k < |f| {
          assert s[k] == f[j..][k - j];
        }
      }
    } else {
      j := |s|;
    }
  }

  /** JavaScript's trim keeps a contiguous piece of the text and drops only blanks around it. */
  lemma JsTrimInfix(s: string)
    ensures exists i, j | 0 <= i <= j <= |s| :: JsTrim(s) == s[i..j] && AllJsSpace(s[..i]) && AllJsSpace(s[j..])
  {
    var i := JsTrimStartSuffix(s);
    var t := s[i..];
    var k := JsTrimEndPrefix(t);
    assert t[..k] == s[i..i + k] && t[k..] == s[i + k..];
    assert JsTrim(s) == s[i..i + k] && AllJsSpace(s[..i]) && AllJsSpace(s[i + k..]);
  }

  /** The text setOutput shows: `label: title`, a blank line, the body (absent or empty
      bodies show nothing), all trimmed. */
  function OutputText(title: string, body: Option<string>, tone: Option<string>): string {
    JsTrim(ToneLabel(tone) + ": " + title + "\n\n" + body.GetOr(""))
  }

  lemma {:induction false} JsTrimEndKeepsPrefix(p: string, s: string)
    requires p != [] && !IsJsSpace(p[|p| - 1])
    ensures JsTrimEnd(p + s) == p + JsTrimEnd(s) || (JsTrimEnd(p + s) == p && JsTrimEnd(s) == [])
    ensures |JsTrimEnd(p + s)| >= |p| && JsTrimEnd(p + s)[..|p|] == p
    decreases |s|
  {
    if s != [] && IsJsSpace(s[|s| - 1]) {
      assert (p + s)[..|p + s| - 1] == p + s[..|s| - 1];
      JsTrimEndKeepsPrefix(p, s[..|s| - 1]);
    } else if s == [] {
      assert p + s == p;
    } else {
      assert (p + s)[|p + s| - 1] == s[|s| - 1];
    }
  }

  lemma LabelShape(tone: Option<string>)
    ensures |ToneLabel(tone)| >= 4
    ensures forall j | 0 <= j < |ToneLabel(tone)| :: 'A' <= ToneLabel(tone)[j] <= 'Z'
  {
  }

  /** The shown text always begins with the tone's label and a colon. */
  lemma OutputStartsWithLabel(title: string, body: Option<string>, tone: Option<string>)
    ensures var name := ToneLabel(tone);
            var r := OutputText(title, body, tone);
            |r| > |name| && r[..|name| + 1] == name + ":"
  {
    var name := ToneLabel(tone);
    LabelShape(tone);
    var whole := name + ": " + title + "\n\n" + body.GetOr("");
    var p := name + ":";
    assert whole == p + (" " + title + "\n\n" + body.GetOr(""));
    assert !IsJsSpace(whole[0]);
    assert JsTrimStart(whole) == whole;
    assert p[|p| - 1] == ':';
    JsTrimEndKeepsPrefix(p, " " + title + "\n\n" + body.GetOr(""));
  }

  /** Trimming `name: title` and two line breaks, for a label that starts with a letter and
      a title that ends without a blank, removes just the line breaks. */
  lemma TrimLabelledTitle(name: string, title: string)
    requires name != [] && 'A' <= name[0] <= 'Z'
    requires title != [] && !IsJsSpace(title[|title| - 1])
    ensures JsTrim(name + ": " + title + "\n\n" + "") == name + ": " + title
  {
    var p := name + ": " + title;
    var whole := p + "\n\n" + "";
    assert whole == p + "\n\n";
    assert !IsJsSpace(whole[0]);
    assert JsTrimStart(whole) == whole;
    assert p[|p| - 1] == title[|title| - 1];
    var nl := "\n\n";
    assert JsTrimEnd(p + nl) == JsTrimEnd(p + "\n") by {
      assert (p + nl)[..|p + nl| - 1] == p + "\n";
    }
    assert JsTrimEnd(p + "\n") == JsTrimEnd(p) by {
      assert (p + "\n")[..|p + "\n"| - 1] == p;
    }
  }

  /** Without a body, and for a title without surrounding blanks, the text is exactly
      `label: title`. */
  lemma OutputWithoutBody(title: string, tone: Option<string>)
    requires title != [] && !IsJsSpace(title[|title| - 1])
    ensures OutputText(title, None, tone) == ToneLabel(tone) + ": " + title
  {
    LabelShape(tone);
    TrimLabelledTitle(ToneLabel(tone), title);
  }
}
