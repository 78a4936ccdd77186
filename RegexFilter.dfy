/** The matcher `_runFilter` builds from the filter text (src/demo-app/demo-app.js:175):
    every non-word character of the input is backslash-escaped, the result is compiled
    as a regular expression with the `i` flag, and `test` searches a country label for it.

    Only the fragment of pattern syntax that an escaped input can produce is given a
    meaning here: word characters, which match themselves, and a backslash followed by
    a non-word character, an identity escape matching that character. */
module RegexFilter {
  import opened Text

  /** `\w` in a JavaScript regular expression: an ASCII letter, a digit or `_`. */
  predicate IsWordChar(c: char)
  {
    ('a' <= c <= 'z') || ('A' <= c <= 'Z') || ('0' <= c <= '9') || c == '_'
  }

  /** `val.replace(/(\W)/g, '\\$1')`. */
  function Escape(s: string): (p: string)
    ensures |s| <= |p| <= 2 * |s|
  {
    if s == [] then []
    else (if IsWordChar(s[0]) then [s[0]] else ['\\', s[0]]) + Escape(s[1..])
  }

  /** The literal characters a pattern matches in sequence, or `None` when the pattern
      uses syntax outside the fragment described above (an unescaped metacharacter, a
      class escape such as `\d`, a trailing backslash). */
  function Compile(p: string): (r: Option<string>)
    decreases |p|
    ensures r.Some? ==> |r.value| <= |p| <= 2 * |r.value|
  {
    if p == [] then Some([])
    else if IsWordChar(p[0]) then
      match Compile(p[1..])
      case Some(rest) => Some([p[0]] + rest)
      case None => None
    else if p[0] == '\\' && |p| >= 2 && !IsWordChar(p[1]) then
      match Compile(p[2..])
      case Some(rest) => Some([p[1]] + rest)
      case None => None
    else None
  }

  /** Escaping makes every character of the input a literal: compiling the escaped
      text always succeeds and matches exactly the input's characters, so `.`, `+`,
      `*` and the like stand only for themselves. */
  lemma {:induction false} CompileEscape(s: string)
    ensures Compile(Escape(s)) == Some(s)
  {
    if s != [] {
      CompileEscape(s[1..]);
      var p := Escape(s);
      if IsWordChar(s[0]) {
        assert p[1..] == Escape(s[1..]);
      } else {
        assert p[2..] == Escape(s[1..]);
      }
      assert [s[0]] + s[1..] == s;
    }
  }

  /** `t` begins with `lits`, comparing characters case-insensitively. */
  predicate MatchHere(lits: string, t: string)
    decreases |lits|
    ensures MatchHere(lits, t) ==> |lits| <= |t|
  {
    lits == [] || (t != [] && Lower(t[0]) == Lower(lits[0]) && MatchHere(lits[1..], t[1..]))
  }

  /** The backtracking search of `test`: try every start position from `i` on. */
  predicate SearchFrom(lits: string, s: string, i: nat)
    requires i <= |s|
    decreases |s| - i
    ensures SearchFrom(lits, s, i) ==> i + |lits| <= |s|
  {
    MatchHere(lits, s[i..]) || (i < |s| && SearchFrom(lits, s, i + 1))
  }

  /** `re.test(s)` for a compiled, case-insensitive literal pattern. */
  predicate Test(lits: string, s: string)
    ensures Test(lits, s) ==> |lits| <= |s|
  {
    SearchFrom(lits, s, 0)
  }

  lemma {:induction false} MatchHereIff(lits: string, t: string)
    ensures MatchHere(lits, t) <==> OccursAt(LowerStr(t), LowerStr(lits), 0)
  {
    if lits != [] && t != [] {
      MatchHereIff(lits[1..], t[1..]);
      var lt, ll := LowerStr(t), LowerStr(lits);
      assert LowerStr(t[1..]) == lt[1..];
      assert LowerStr(lits[1..]) == ll[1..];
      if |ll| <= |lt| {
        assert lt[..|ll|] == [lt[0]] + lt[1..][..|ll| - 1];
        assert ll == [ll[0]] + ll[1..];
      }
    }
  }

  lemma {:induction false} SearchFromIff(lits: string, s: string, i: nat)
    requires i <= |s|
    decreases |s| - i
    ensures SearchFrom(lits, s, i) <==> exists j :: i <= j && OccursAt(LowerStr(s), LowerStr(lits), j)
  {
    var ls, ll := LowerStr(s), LowerStr(lits);
    MatchHereIff(lits, s[i..]);
    LowerSlice(s, i, |s|);
    assert OccursAt(LowerStr(s[i..]), ll, 0) <==> OccursAt(ls, ll, i) by {
      if i + |ll| <= |s| {
        assert LowerStr(s[i..])[..|ll|] == ls[i..i + |ll|];
      }
    }
    if i < |s| {
      SearchFromIff(lits, s, i + 1);
      if exists j :: i <= j && OccursAt(ls, ll, j) {
        var j :| i <= j && OccursAt(ls, ll, j);
        assert j == i || (i + 1 <= j && OccursAt(ls, ll, j));
      }
    } else {
      if exists j :: i <= j && OccursAt(ls, ll, j) {
        var j :| i <= j && OccursAt(ls, ll, j);
        assert j == i;
      }
    }
  }

  /** The matcher of `_runFilter` accepts a label exactly when the label contains
      the filter text as a literal substring, ignoring case. */
  lemma FilterTestIsLiteralSubstring(filter: string, text: string)
    ensures Compile(Escape(filter)).Some?
    ensures Test(Compile(Escape(filter)).value, text) <==> ContainsIgnoringCase(text, filter)
  {
    CompileEscape(filter);
    SearchFromIff(filter, text, 0);
  }

  /** The empty filter compiles to the empty pattern, which every label passes. */
  lemma EmptyFilterMatchesAll(text: string)
    ensures Compile(Escape("")).Some? && Test(Compile(Escape("")).value, text)
  {
    FilterTestIsLiteralSubstring("", text);
    assert OccursAt(LowerStr(text), LowerStr(""), 0);
  }

  /** Metacharacters are not pattern syntax: the filter `c.+` keeps a label holding
      those three characters and rejects `Chad`, which `c.+` as a regular expression
      would match. */
  lemma MetacharactersAreLiteral()
    ensures Compile(Escape("c.+")).Some?
    ensures Test(Compile(Escape("c.+")).value, "C.+ Land")
    ensures !Test(Compile(Escape("c.+")).value, "Chad")
  {
    FilterTestIsLiteralSubstring("c.+", "C.+ Land");
    FilterTestIsLiteralSubstring("c.+", "Chad");
    assert LowerStr("c.+") == "c.+";
    assert OccursAt(LowerStr("C.+ Land"), "c.+", 0);
    assert LowerStr("Chad") == "chad";
    assert forall i :: 0 <= i < 4 ==> "chad"[i] != '.';
  }
}
