/** Python's `html.escape(s)` (with its default `quote=True`), which the
    generator applies to every author-written field it puts into the entry and
    group templates, together with an independent per-character definition of
    the same map and its inverse. */
module Html {

  /** `s.replace(c, rep)` for a one-character pattern. */
  function Replace(s: string, c: char, rep: string): string
  {
    if s == [] then [] else (if s[0] == c then rep else [s[0]]) + Replace(s[1..], c, rep)
  }

  lemma {:induction false} ReplaceConcat(a: string, b: string, c: char, rep: string)
    ensures Replace(a + b, c, rep) == Replace(a, c, rep) + Replace(b, c, rep)
  {
    if a != [] {
      assert (a + b)[1..] == a[1..] + b;
      ReplaceConcat(a[1..], b, c, rep);
    } else {
      assert a + b == b;
    }
  }

  lemma {:induction false} ReplaceAbsent(s: string, c: char, rep: string)
    requires c !in s
    ensures Replace(s, c, rep) == s
  {
    if s != [] {
      ReplaceAbsent(s[1..], c, rep);
    }
  }

  /** `html.escape(s)`: the ampersand is replaced first, so that the
      ampersands the later replacements introduce are not escaped again. */
  function Escape(s: string): string
  {
    var s1 := Replace(s, '&', "&amp;");
    var s2 := Replace(s1, '<', "&lt;");
    var s3 := Replace(s2, '>', "&gt;");
    var s4 := Replace(s3, '"', "&quot;");
    Replace(s4, '\'', "&#x27;")
  }

  predicate IsSpecial(c: char) {
    c == '&' || c == '<' || c == '>' || c == '"' || c == '\''
  }

  /** The entity each special character becomes; every other character stays. */
  function EscapeChar(c: char): string
  {
    match c
    case '&' => "&amp;"
    case '<' => "&lt;"
    case '>' => "&gt;"
    case '"' => "&quot;"
    case '\'' => "&#x27;"
    case _ => [c]
  }

  /** The reference definition: escape each character on its own. */
  function EscapeEach(s: string): string
  {
    if s == [] then [] else EscapeChar(s[0]) + EscapeEach(s[1..])
  }

  lemma EscapeConcat(a: string, b: string)
    ensures Escape(a + b) == Escape(a) + Escape(b)
  {
    var a1, b1 := Replace(a, '&', "&amp;"), Replace(b, '&', "&amp;");
    ReplaceConcat(a, b, '&', "&amp;");
    var a2, b2 := Replace(a1, '<', "&lt;"), Replace(b1, '<', "&lt;");
    ReplaceConcat(a1, b1, '<', "&lt;");
    var a3, b3 := Replace(a2, '>', "&gt;"), Replace(b2, '>', "&gt;");
    ReplaceConcat(a2, b2, '>', "&gt;");
    var a4, b4 := Replace(a3, '"', "&quot;"), Replace(b3, '"', "&quot;");
    ReplaceConcat(a3, b3, '"', "&quot;");
    ReplaceConcat(a4, b4, '\'', "&#x27;");
  }

  lemma ReplaceOne(c: char, d: char, rep: string)
    ensures Replace([c], d, rep) == if c == d then rep else [c]
  {
    assert [c][1..] == [];
  }

  lemma EscapeStages(s: string, s1: string, s2: string, s3: string, s4: string, s5: string)
    requires s1 == Replace(s, '&', "&amp;") && s2 == Replace(s1, '<', "&lt;")
    requires s3 == Replace(s2, '>', "&gt;") && s4 == Replace(s3, '"', "&quot;")
    requires s5 == Replace(s4, '\'', "&#x27;")
    ensures Escape(s) == s5
  {
  }

  /** One character through the five replacements: the replacement for its own
      character (if any) fires, and the later ones find nothing to replace. */
  lemma EscapeOne(c: char)
    ensures Escape([c]) == EscapeChar(c)
  {
    var e := EscapeChar(c);
    var s1 := Replace([c], '&', "&amp;");
    var s2 := Replace(s1, '<', "&lt;");
    var s3 := Replace(s2, '>', "&gt;");
    var s4 := Replace(s3, '"', "&quot;");
    var s5 := Replace(s4, '\'', "&#x27;");
    if c == '&' {
      assert s1 == e by { ReplaceOne(c, '&', "&amp;"); }
      assert s2 == e by { ReplaceAbsent(s1, '<', "&lt;"); }
      assert s3 == e by { ReplaceAbsent(s2, '>', "&gt;"); }
      assert s4 == e by { ReplaceAbsent(s3, '"', "&quot;"); }
      assert s5 == e by { ReplaceAbsent(s4, '\'', "&#x27;"); }
    } else if c == '<' {
      assert s1 == [c] by { ReplaceOne(c, '&', "&amp;"); }
      assert s2 == e by { ReplaceOne(c, '<', "&lt;"); }
      assert s3 == e by { ReplaceAbsent(s2, '>', "&gt;"); }
      assert s4 == e by { ReplaceAbsent(s3, '"', "&quot;"); }
      assert s5 == e by { ReplaceAbsent(s4, '\'', "&#x27;"); }
    } else if c == '>' {
      assert s1 == [c] by { ReplaceOne(c, '&', "&amp;"); }
      assert s2 == [c] by { ReplaceOne(c, '<', "&lt;"); }
      assert s3 == e by { ReplaceOne(c, '>', "&gt;"); }
      assert s4 == e by { ReplaceAbsent(s3, '"', "&quot;"); }
      assert s5 == e by { ReplaceAbsent(s4, '\'', "&#x27;"); }
    } else if c == '"' {
      assert s1 == [c] by { ReplaceOne(c, '&', "&amp;"); }
      assert s2 == [c] by { ReplaceOne(c, '<', "&lt;"); }
      assert s3 == [c] by { ReplaceOne(c, '>', "&gt;"); }
      assert s4 == e by { ReplaceOne(c, '"', "&quot;"); }
      assert s5 == e by { ReplaceAbsent(s4, '\'', "&#x27;"); }
    } else {
      assert s1 == [c] by { ReplaceOne(c, '&', "&amp;"); }
      assert s2 == [c] by { ReplaceOne(c, '<', "&lt;"); }
      assert s3 == [c] by { ReplaceOne(c, '>', "&gt;"); }
      assert s4 == [c] by { ReplaceOne(c, '"', "&quot;"); }
      assert s5 == e by { ReplaceOne(c, '\'', "&#x27;"); }
    }
    EscapeStages([c], s1, s2, s3, s4, s5);
  }

  /** The library's chain of replacements and the per-character definition agree
      on every string. */
  lemma {:induction false} EscapeIsPerChar(s: string)
    ensures Escape(s) == EscapeEach(s)
  {
    if s == [] {
      assert Escape(s) == [];
    } else {
      assert s == [s[0]] + s[1..];
      EscapeConcat([s[0]], s[1..]);
      EscapeOne(s[0]);
      EscapeIsPerChar(s[1..]);
    }
  }

  /** `s` holds the string `e` starting at index `i`. */
  predicate HasAt(s: string, i: nat, e: string) {
    i + |e| <= |s| && s[i..i + |e|] == e
  }

  /** One of the five entities `html.escape` produces starts at index `i`. */
  predicate EntityAt(s: string, i: nat) {
    HasAt(s, i, "&amp;") || HasAt(s, i, "&lt;") || HasAt(s, i, "&gt;")
    || HasAt(s, i, "&quot;") || HasAt(s, i, "&#x27;")
  }

  /** Text that is safe to paste into HTML, also inside a quoted attribute: no
      raw `<`, `>`, `"` or `'`, and every `&` begins one of the five entities. */
  predicate Safe(s: string) {
    forall i :: 0 <= i < |s| ==>
      s[i] != '<' && s[i] != '>' && s[i] != '"' && s[i] != '\'' && (s[i] == '&' ==> EntityAt(s, i))
  }

  lemma HasAtConcat(a: string, b: string, i: nat, e: string)
    ensures HasAt(a, i, e) ==> HasAt(a + b, i, e)
    ensures HasAt(b, i, e) ==> HasAt(a + b, |a| + i, e)
  {
    if HasAt(a, i, e) { assert (a + b)[i..i + |e|] == a[i..i + |e|]; }
    if HasAt(b, i, e) { assert (a + b)[|a| + i..|a| + i + |e|] == b[i..i + |e|]; }
  }

  lemma SafeConcat(a: string, b: string)
    requires Safe(a) && Safe(b)
    ensures Safe(a + b)
  {
    var s := a + b;
    forall i | 0 <= i < |s| && s[i] == '&' ensures EntityAt(s, i) {
      if i < |a| {
        assert a[i] == '&';
        HasAtConcat(a, b, i, "&amp;");
        HasAtConcat(a, b, i, "&lt;");
        HasAtConcat(a, b, i, "&gt;");
        HasAtConcat(a, b, i, "&quot;");
        HasAtConcat(a, b, i, "&#x27;");
      } else {
        assert b[i - |a|] == '&';
        HasAtConcat(a, b, i - |a|, "&amp;");
        HasAtConcat(a, b, i - |a|, "&lt;");
        HasAtConcat(a, b, i - |a|, "&gt;");
        HasAtConcat(a, b, i - |a|, "&quot;");
        HasAtConcat(a, b, i - |a|, "&#x27;");
      }
    }
  }

  lemma SafeEscapeChar(c: char)
    ensures Safe(EscapeChar(c))
  {
    var e := EscapeChar(c);
    if IsSpecial(c) {
      assert HasAt(e, 0, e);
    }
  }

  /** Escaping is total: whatever the input, its escaped form is safe. */
  lemma {:induction false} EscapeSafe(s: string)
    ensures Safe(Escape(s))
  {
    EscapeIsPerChar(s);
    EscapeEachSafe(s);
  }

  lemma {:induction false} EscapeEachSafe(s: string)
    ensures Safe(EscapeEach(s))
  {
    if s != [] {
      SafeEscapeChar(s[0]);
      EscapeEachSafe(s[1..]);
      SafeConcat(EscapeChar(s[0]), EscapeEach(s[1..]));
    }
  }

  /** Reads escaped text back: each of the five entities becomes its character. */
  function Unescape(s: string): string
    decreases |s|
  {
    if s == [] then []
    else if HasAt(s, 0, "&amp;") then "&" + Unescape(s[5..])
    else if HasAt(s, 0, "&lt;") then "<" + Unescape(s[4..])
    else if HasAt(s, 0, "&gt;") then ">" + Unescape(s[4..])
    else if HasAt(s, 0, "&quot;") then "\"" + Unescape(s[6..])
    else if HasAt(s, 0, "&#x27;") then "'" + Unescape(s[6..])
    else [s[0]] + Unescape(s[1..])
  }

  lemma UnescapeStep(c: char, rest: string)
    ensures Unescape(EscapeChar(c) + rest) == [c] + Unescape(rest)
  {
    var e := EscapeChar(c);
    var s := e + rest;
    assert s[..|e|] == e;
    assert s[|e|..] == rest;
    if !IsSpecial(c) {
      assert s[0] == c;
      assert !HasAt(s, 0, "&amp;") && !HasAt(s, 0, "&lt;") && !HasAt(s, 0, "&gt;");
      assert !HasAt(s, 0, "&quot;") && !HasAt(s, 0, "&#x27;");
    } else if c == '&' {
      assert HasAt(s, 0, "&amp;");
    } else if c == '<' {
      assert !HasAt(s, 0, "&amp;") by { assert s[1] == 'l'; }
      assert HasAt(s, 0, "&lt;");
    } else if c == '>' {
      assert !HasAt(s, 0, "&amp;") && !HasAt(s, 0, "&lt;") by { assert s[1] == 'g'; }
      assert HasAt(s, 0, "&gt;");
    } else if c == '"' {
      assert !HasAt(s, 0, "&amp;") && !HasAt(s, 0, "&lt;") && !HasAt(s, 0, "&gt;") by { assert s[1] == 'q'; }
      assert HasAt(s, 0, "&quot;");
    } else {
      assert !HasAt(s, 0, "&amp;") && !HasAt(s, 0, "&lt;") && !HasAt(s, 0, "&gt;")
        && !HasAt(s, 0, "&quot;") by { assert s[1] == '#'; }
      assert HasAt(s, 0, "&#x27;");
    }
  }

  /** Escaping loses nothing: unescaping the escaped text gives the input back,
      so two different fields never render the same. */
  lemma {:induction false} UnescapeEscape(s: string)
    ensures Unescape(Escape(s)) == s
  {
    EscapeIsPerChar(s);
    UnescapeEscapeEach(s);
  }

  lemma {:induction false} UnescapeEscapeEach(s: string)
    ensures Unescape(EscapeEach(s)) == s
  {
    if s != [] {
      UnescapeStep(s[0], EscapeEach(s[1..]));
      UnescapeEscapeEach(s[1..]);
      assert s == [s[0]] + s[1..];
    }
  }

  /** Escaping never shortens, and it leaves a string unchanged exactly when the
      string holds none of the five special characters. */
  lemma {:induction false} EscapeLength(s: string)
    ensures |Escape(s)| >= |s|
    ensures Escape(s) == s <==> forall i :: 0 <= i < |s| ==> !IsSpecial(s[i])
  {
    EscapeIsPerChar(s);
    EscapeEachLength(s);
  }

  lemma {:induction false} EscapeEachLength(s: string)
    ensures |EscapeEach(s)| >= |s|
    ensures EscapeEach(s) == s <==> forall i :: 0 <= i < |s| ==> !IsSpecial(s[i])
  {
    if s != [] {
      EscapeEachLength(s[1..]);
      var e := EscapeChar(s[0]);
      if IsSpecial(s[0]) {
        assert |e| > 1;
        assert |EscapeEach(s)| > |s|;
      } else {
        assert s == [s[0]] + s[1..];
        if forall i :: 0 <= i < |s| ==> !IsSpecial(s[i]) {
          assert forall i :: 0 <= i < |s[1..]| ==> !IsSpecial(s[1..][i]);
        } else {
          var i :| 0 <= i < |s| && IsSpecial(s[i]);
          assert IsSpecial(s[1..][i - 1]);
          assert EscapeEach(s[1..]) != s[1..];
        }
      }
    }
  }

  /** Why the ampersand has to go first: replacing it last escapes the
      ampersands of the other entities again, and the text no longer reads
      back. */
  lemma AmpersandLastDoubleEscapes()
    ensures Replace(Replace("<", '<', "&lt;"), '&', "&amp;") == "&amp;lt;"
    ensures Unescape(Replace(Replace("<", '<', "&lt;"), '&', "&amp;")) != "<"
  {
    assert Replace("<", '<', "&lt;") == "&lt;" by { assert "<"[1..] == []; }
    var d := Replace("&lt;", '&', "&amp;");
    assert "&lt;"[1..] == "lt;";
    assert "lt;"[1..] == "t;";
    assert "t;"[1..] == ";";
    assert ";"[1..] == [];
    assert d == "&amp;lt;";
    assert HasAt(d, 0, "&amp;");
    var u := Unescape(d[5..]);
    assert |u| > 0 by {
      assert d[5..] != [];
    }
  }

  /** A command holding a script tag is rendered without a literal tag. */
  lemma ScriptTagIsEscaped(command: string)
    requires command == "<script>"
    ensures Escape(command) == "&lt;script&gt;"
  {
    var mid := command[1..7];
    var tail := command[1..];
    assert command == [command[0]] + tail;
    assert tail == mid + [command[7]];
    assert Escape(command) == Escape([command[0]]) + Escape(tail) by { EscapeConcat([command[0]], tail); }
    assert Escape(tail) == Escape(mid) + Escape([command[7]]) by { EscapeConcat(mid, [command[7]]); }
    assert Escape([command[0]]) == "&lt;" by { EscapeOne(command[0]); }
    assert Escape([command[7]]) == "&gt;" by { EscapeOne(command[7]); }
    assert Escape(mid) == mid by { EscapeLength(mid); }
  }
}
