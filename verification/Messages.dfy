/** Message templates: the placeholders of a message, the replacement of them by values, the
    bundle that keeps locales in step, and the derived pseudo-locale. */
module Messages {
  import opened Order
  import opened Text
  import opened Wrappers

  // ---- Templates -------------------------------------------------------------------------

  /** A message as the placeholder pattern reads it. */
  datatype Piece = Letter(c: char) | Hole(name: string)

  type Template = seq<Piece>

  predicate NameStart(c: char) { 'A' <= c <= 'Z' || 'a' <= c <= 'z' || c == '_' }

  predicate NameChar(c: char) { NameStart(c) || IsDigit(c) }

  /** `[A-Za-z_][A-Za-z0-9_]*`. */
  predicate IsName(s: string) { s != "" && NameStart(s[0]) && forall i :: 0 <= i < |s| ==> NameChar(s[i]) }

  predicate IsBrace(c: char) { c == '{' || c == '}' }

  function NameLength(s: string): (n: nat)
    ensures n <= |s| && (forall i :: 0 <= i < n ==> NameChar(s[i])) && (n < |s| ==> !NameChar(s[n]))
  {
    if s == "" || !NameChar(s[0]) then 0 else 1 + NameLength(s[1..])
  }

  /** The placeholder `s` starts with, if it starts with one. */
  function HoleAt(s: string): Option<string> {
    if s == "" || s[0] != '{' then None else
      var n := NameLength(s[1..]);
      if IsName(s[1..n + 1]) && n + 1 < |s| && s[n + 1] == '}' then Some(s[1..n + 1]) else None
  }

  /** Leftmost placeholders, and the letters between them. */
  function Scan(s: string): Template
    decreases |s|
  {
    if s == "" then [] else
      match HoleAt(s)
      case Some(name) => [Hole(name)] + Scan(s[|name| + 2..])
      case None => [Letter(s[0])] + Scan(s[1..])
  }

  function PieceText(p: Piece): string {
    match p
    case Letter(c) => [c]
    case Hole(name) => ['{'] + name + ['}']
  }

  function Render(t: Template): string { if t == [] then "" else PieceText(t[0]) + Render(t[1..]) }

  /** No brace stands outside a placeholder. */
  ghost predicate Clean(t: Template) { forall i :: 0 <= i < |t| ==> PieceClean(t[i]) }

  predicate PieceClean(p: Piece) {
    match p
    case Letter(c) => !IsBrace(c)
    case Hole(name) => IsName(name)
  }

  function HoleNames(t: Template): set<string> { set i | 0 <= i < |t| && t[i].Hole? :: t[i].name }

  lemma {:induction false} RenderScan(s: string)
    ensures Render(Scan(s)) == s
    decreases |s|
  {
    if s != "" {
      if HoleAt(s).Some? {
        var name := HoleAt(s).value;
        assert s == ['{'] + name + ['}'] + s[|name| + 2..] by { HoleIsThere(s); }
        hide HoleAt;
        RenderScan(s[|name| + 2..]);
        RenderFirst(Hole(name), Scan(s[|name| + 2..]));
      } else {
        hide HoleAt;
        RenderScan(s[1..]);
        RenderFirst(Letter(s[0]), Scan(s[1..]));
      }
    }
  }

  lemma HoleIsThere(s: string)
    requires HoleAt(s).Some?
    ensures var name := HoleAt(s).value; |name| + 2 <= |s| && s == ['{'] + name + ['}'] + s[|name| + 2..]
  {
  }

  lemma RenderFirst(p: Piece, rest: Template)
    ensures Render([p] + rest) == PieceText(p) + Render(rest)
  {
    assert ([p] + rest)[1..] == rest;
  }

  lemma NameNoBrace(name: string)
    requires IsName(name)
    ensures '{' !in name && '}' !in name
  {
  }

  lemma {:induction false} NameLengthIs(name: string, rest: string)
    requires forall i :: 0 <= i < |name| ==> NameChar(name[i])
    requires rest != "" && !NameChar(rest[0])
    ensures NameLength(name + rest) == |name|
  {
    if name == "" {
      assert name + rest == rest;
    } else {
      assert (name + rest)[1..] == name[1..] + rest;
      NameLengthIs(name[1..], rest);
    }
  }

  lemma HoleAtHole(name: string, rest: string)
    requires IsName(name)
    ensures HoleAt(['{'] + name + ['}'] + rest) == Some(name)
  {
    var s := ['{'] + name + ['}'] + rest;
    assert s[1..] == name + (['}'] + rest);
    NameLengthIs(name, ['}'] + rest);
    assert s[1..|name| + 1] == name;
  }

  /** A clean template is what its text is read as. */
  lemma {:induction false} ScanRender(t: Template)
    requires Clean(t)
    ensures Scan(Render(t)) == t
  {
    hide HoleAt;
    if t != [] {
      ScanRender(t[1..]);
      var rest := Render(t[1..]);
      match t[0]
      case Letter(c) =>
        assert Render(t) == [c] + rest && ([c] + rest)[1..] == rest;
        NotAHole([c] + rest);
      case Hole(name) =>
        assert Render(t) == ['{'] + name + ['}'] + rest;
        HoleAtHole(name, rest);
        assert (['{'] + name + ['}'] + rest)[|name| + 2..] == rest;
      assert t == [t[0]] + t[1..];
    }
  }

  lemma NotAHole(s: string)
    requires s != "" && s[0] != '{'
    ensures HoleAt(s) == None
  {
  }

  /** A message the build accepts, with the sorted names of its placeholders. */
  function Placeholders(message: string): Option<seq<string>> {
    var t := Scan(message);
    if exists i :: 0 <= i < |t| && t[i].Letter? && IsBrace(t[i].c) then None else Some(SortedKeys(HoleNames(t)))
  }

  lemma {:induction false} ScannedNames(s: string)
    ensures forall i :: 0 <= i < |Scan(s)| && Scan(s)[i].Hole? ==> IsName(Scan(s)[i].name)
    decreases |s|
  {
    if s != "" {
      match HoleAt(s)
      case Some(name) => ScannedNames(s[|name| + 2..]);
      case None => ScannedNames(s[1..]);
    }
  }

  lemma AcceptedIsClean(message: string)
    ensures Placeholders(message).Some? <==> Clean(Scan(message))
  {
    ScannedNames(message);
    hide SortedKeys, Scan, IsName;
    var t := Scan(message);
    if i :| 0 <= i < |t| && t[i].Letter? && IsBrace(t[i].c) { assert !Clean(t); }
  }

  // ---- Replacement -----------------------------------------------------------------------

  /** `strings.ReplaceAll` for a pattern that is not empty. */
  function ReplaceAll(s: string, pattern: string, value: string): string
    requires pattern != ""
    decreases |s|
  {
    if s == "" then ""
    else if StartsWith(s, pattern) then value + ReplaceAll(s[|pattern|..], pattern, value)
    else [s[0]] + ReplaceAll(s[1..], pattern, value)
  }

  function Letters(s: string): (t: Template)
    ensures |t| == |s| && forall i :: 0 <= i < |t| ==> t[i] == Letter(s[i])
  {
    if s == "" then [] else [Letter(s[0])] + Letters(s[1..])
  }

  lemma RenderCons(p: Piece, t: Template)
    ensures Render([p] + t) == PieceText(p) + Render(t)
  {
    assert ([p] + t)[1..] == t;
  }

  /** Every hole of that name filled with letters. */
  function Fill(t: Template, name: string, value: string): Template {
    if t == [] then [] else (if t[0] == Hole(name) then Letters(value) else [t[0]]) + Fill(t[1..], name, value)
  }

  lemma {:induction false} RenderLetters(s: string, rest: Template)
    ensures Render(Letters(s) + rest) == s + Render(rest)
  {
    hide Render;
    if s == "" {
      assert Letters(s) + rest == rest && s + Render(rest) == Render(rest);
    } else {
      RenderLetters(s[1..], rest);
      RenderCons(Letter(s[0]), Letters(s[1..]) + rest);
      assert Letters(s) + rest == [Letter(s[0])] + (Letters(s[1..]) + rest);
      assert s == [s[0]] + s[1..];
    }
  }

  /** Text that holds no opening brace is passed over. */
  lemma {:induction false} ReplacePasses(s: string, rest: string, pattern: string, value: string)
    requires pattern != "" && pattern[0] == '{' && '{' !in s
    ensures ReplaceAll(s + rest, pattern, value) == s + ReplaceAll(rest, pattern, value)
  {
    if s == "" {
      assert s + rest == rest;
    } else {
      assert (s + rest)[0] == s[0] && (s + rest)[1..] == s[1..] + rest;
      assert (s + rest)[0] != '{';
      ReplacePasses(s[1..], rest, pattern, value);
    }
  }

  /** A hole matches the pattern of its own name and of no other. */
  lemma HoleMatches(name: string, other: string, rest: string)
    requires IsName(name) && IsName(other)
    ensures StartsWith(['{'] + other + ['}'] + rest, ['{'] + name + ['}']) <==> name == other
  {
    var s, p := ['{'] + other + ['}'] + rest, ['{'] + name + ['}'];
    NameNoBrace(name);
    NameNoBrace(other);
    assert name == other ==> s[..|p|] == p;
    if StartsWith(s, p) {
      var tail := s[|p|..];
      assert s == p + tail;
      assert s[1..] == other + ['}'] + rest && s[1..] == name + ['}'] + tail;
      CutUnique(other, rest, name, tail, '}');
    }
  }

  /** A piece that is not the hole of that name is passed over; the hole gives way to the value. */
  lemma ReplacePiece(p: Piece, rest: string, name: string, value: string)
    requires IsName(name) && PieceClean(p)
    ensures var pattern := ['{'] + name + ['}'];
            ReplaceAll(PieceText(p) + rest, pattern, value) ==
            (if p == Hole(name) then value else PieceText(p)) + ReplaceAll(rest, pattern, value)
  {
    var pattern := ['{'] + name + ['}'];
    match p
    case Letter(c) => ReplacePasses([c], rest, pattern, value);
    case Hole(other) =>
      hide IsName, StartsWith;
      var s := ['{'] + other + ['}'] + rest;
      HoleMatches(name, other, rest);
      if other == name {
        assert s[|pattern|..] == rest;
      } else {
        NameNoBrace(other);
        assert s[1..] == (other + ['}']) + rest;
        ReplacePasses(other + ['}'], rest, pattern, value);
      }
  }

  // ---- What a replacement finds besides holes --------------------------------------------

  function Pattern(name: string): string { ['{'] + name + ['}'] }

  /** Placeholders with names, between any letters: what is left of a message once values stand in
      it. */
  ghost predicate Named(t: Template) { forall i :: 0 <= i < |t| && t[i].Hole? ==> IsName(t[i].name) }

  /** The letters the template starts with spell the placeholder. */
  predicate Spells(t: Template, name: string) {
    |t| >= |name| + 2 && t[..|name| + 2] == Letters(Pattern(name))
  }

  /** How often letters spell the placeholder. */
  function Strays(t: Template, name: string): nat
    decreases |t|
  {
    if t == [] then 0 else if Spells(t, name) then 1 + Strays(t[|name| + 2..], name) else Strays(t[1..], name)
  }

  /** Every hole of that name, and every spelling of it, filled with letters. */
  ghost function FillAll(t: Template, name: string, value: string): Template
    decreases |t|
  {
    if t == [] then []
    else if Spells(t, name) then Letters(value) + FillAll(t[|name| + 2..], name, value)
    else (if t[0] == Hole(name) then Letters(value) else [t[0]]) + FillAll(t[1..], name, value)
  }

  /** Text without an opening brace at the start of a rendering is spelled by letters. */
  lemma {:induction false} StartIsSpelled(t: Template, s: string)
    requires '{' !in s && StartsWith(Render(t), s)
    ensures |t| >= |s| && t[..|s|] == Letters(s)
  {
    if s == "" {
      assert t[..0] == [];
    } else {
      assert s[0] in s;
      FirstIsSpelled(t, s);
      hide *;
      StartIsSpelled(t[1..], s[1..]);
      LettersFirst(s);
      assert t[..|s|] == [t[0]] + t[1..][..|s| - 1];
    }
  }

  lemma FirstIsSpelled(t: Template, s: string)
    requires s != "" && s[0] != '{' && StartsWith(Render(t), s)
    ensures t != [] && t[0] == Letter(s[0]) && StartsWith(Render(t[1..]), s[1..])
  {
    var text := Render(t);
    assert text[..|s|] == s && text[0] == s[0];
    assert t[0].Letter? && text == [t[0].c] + Render(t[1..]);
    assert text[1..] == Render(t[1..]) && text[1..][..|s| - 1] == text[..|s|][1..];
  }

  lemma SpellingRenders(t: Template, name: string)
    requires Spells(t, name)
    ensures Render(t) == Pattern(name) + Render(t[|name| + 2..]) && StartsWith(Render(t), Pattern(name))
  {
    assert t == Letters(Pattern(name)) + t[|name| + 2..];
    hide Render, Letters;
    RenderLetters(Pattern(name), t[|name| + 2..]);
  }

  /** An opening brace among the letters starts an occurrence only when letters spell it. */
  lemma OpeningStarts(t: Template, name: string)
    requires IsName(name) && t != [] && t[0] == Letter('{') && StartsWith(Render(t), Pattern(name))
    ensures Spells(t, name)
  {
    NameNoBrace(name);
    var tail, text := name + ['}'], Render(t);
    assert text == ['{'] + Render(t[1..]) && text[1..] == Render(t[1..]);
    hide Render, IsName;
    assert Pattern(name) == ['{'] + tail && Pattern(name)[1..] == tail;
    assert text[1..][..|tail|] == text[..|tail| + 1][1..] == tail;
    StartIsSpelled(t[1..], tail);
    SpelledFirst(t, tail);
  }

  lemma SpelledFirst(t: Template, tail: string)
    requires t != [] && t[0] == Letter('{') && |t| > |tail| && t[1..][..|tail|] == Letters(tail)
    ensures t[..|tail| + 1] == Letters(['{'] + tail)
  {
    hide *;
    var s := ['{'] + tail;
    LettersFirst(s);
    assert s[0] == '{' && s[1..] == tail;
    assert t[..|tail| + 1] == [t[0]] + t[1..][..|tail|];
  }

  lemma FillAllFirst(t: Template, name: string, value: string)
    requires t != []
    ensures Spells(t, name) ==>
              && |t| >= |name| + 2
              && FillAll(t, name, value) == Letters(value) + FillAll(t[|name| + 2..], name, value)
              && Strays(t, name) == 1 + Strays(t[|name| + 2..], name)
              && t[0] == Letter('{')
    ensures !Spells(t, name) ==>
              && Strays(t, name) == Strays(t[1..], name)
              && FillAll(t, name, value) ==
                 (if t[0] == Hole(name) then Letters(value) else [t[0]]) + FillAll(t[1..], name, value)
    ensures Fill(t, name, value) == (if t[0] == Hole(name) then Letters(value) else [t[0]]) + Fill(t[1..], name, value)
    ensures Render(t) == PieceText(t[0]) + Render(t[1..])
  {
    SpellsBraces(t, name);
    hide Letters, Pattern, Spells;
  }

  lemma NoPiece(name: string, value: string)
    ensures Render([]) == "" && Fill([], name, value) == FillAll([], name, value) == []
    ensures ReplaceAll("", Pattern(name), value) == "" && Strays([], name) == 0
  {
  }

  lemma SpelledIsReplaced(s: string, rest: string, value: string)
    requires s != ""
    ensures ReplaceAll(s + rest, s, value) == value + ReplaceAll(rest, s, value)
  {
    assert (s + rest)[..|s|] == s && (s + rest)[|s|..] == rest;
  }

  /** Where no spelling starts, one piece is passed over or gives way to the value. */
  lemma PieceIsReplaced(t: Template, name: string, value: string)
    requires IsName(name) && Named(t) && t != [] && !Spells(t, name)
    ensures ReplaceAll(Render(t), Pattern(name), value) ==
            (if t[0] == Hole(name) then value else PieceText(t[0])) + ReplaceAll(Render(t[1..]), Pattern(name), value)
  {
    FillAllFirst(t, name, value);
    if t[0] == Letter('{') {
      if StartsWith(Render(t), Pattern(name)) { OpeningStarts(t, name); }
      assert Render(t)[1..] == Render(t[1..]);
    } else if t[0].Letter? {
      hide IsName, Spells;
      ReplacePasses([t[0].c], Render(t[1..]), Pattern(name), value);
    } else {
      assert PieceClean(t[0]);
      hide IsName, Spells, ReplaceAll;
      ReplacePiece(t[0], Render(t[1..]), name, value);
    }
  }

  /** Replacing a name finds its holes and its spellings. */
  lemma {:induction false} ReplaceFillsAll(t: Template, name: string, value: string)
    requires Named(t) && IsName(name)
    ensures ReplaceAll(Render(t), Pattern(name), value) == Render(FillAll(t, name, value))
    decreases |t|
  {
    if t == [] {
      NoPiece(name, value);
    } else {
      assert Named(t[1..]) && (Spells(t, name) ==> Named(t[|name| + 2..]));
      hide *;
      FillAllFirst(t, name, value);
      PatternNotEmpty(name);
      if Spells(t, name) {
        SpellingRenders(t, name);
        var rest := t[|name| + 2..];
        ReplaceFillsAll(rest, name, value);
        SpelledIsReplaced(Pattern(name), Render(rest), value);
        RenderLetters(value, FillAll(rest, name, value));
      } else {
        ReplaceFillsAll(t[1..], name, value);
        PieceIsReplaced(t, name, value);
        RenderLetters(value, FillAll(t[1..], name, value));
        RenderCons(t[0], FillAll(t[1..], name, value));
      }
    }
  }

  lemma PatternNotEmpty(name: string)
    ensures Pattern(name) != "" && |Pattern(name)| == |name| + 2
  {
  }

  lemma FillCons(p: Piece, rest: Template, name: string, value: string)
    ensures Fill([p] + rest, name, value) == (if p == Hole(name) then Letters(value) else [p]) + Fill(rest, name, value)
  {
    assert ([p] + rest)[1..] == rest;
    hide Letters;
  }

  lemma LettersFirst(s: string)
    ensures Letters(s) == if s == "" then [] else [Letter(s[0])] + Letters(s[1..])
  {
  }

  lemma {:induction false} FillLetters(s: string, rest: Template, name: string, value: string)
    ensures Fill(Letters(s) + rest, name, value) == Letters(s) + Fill(rest, name, value)
  {
    hide *;
    LettersFirst(s);
    if s == "" {
      assert [] + rest == rest && [] + Fill(rest, name, value) == Fill(rest, name, value);
    } else {
      var first, more := [Letter(s[0])], Letters(s[1..]);
      FillLetters(s[1..], rest, name, value);
      FillCons(Letter(s[0]), more + rest, name, value);
      assert first + more + rest == first + (more + rest);
      assert first + more + Fill(rest, name, value) == first + (more + Fill(rest, name, value));
    }
  }

  /** What `Fill` leaves of a spelling: it stays. */
  lemma SpellingStays(t: Template, name: string, value: string)
    requires Spells(t, name)
    ensures Render(Fill(t, name, value)) == Pattern(name) + Render(Fill(t[|name| + 2..], name, value))
  {
    var rest := t[|name| + 2..];
    assert t == Letters(Pattern(name)) + rest;
    hide *;
    FillLetters(Pattern(name), rest, name, value);
    RenderLetters(Pattern(name), Fill(rest, name, value));
  }

  /** Filling the spellings too makes the difference that the value and the placeholder make, as
      often as there is one. */
  lemma {:induction false} StraysCount(t: Template, name: string, value: string)
    ensures var all, holes := Render(FillAll(t, name, value)), Render(Fill(t, name, value));
            && |all| - |holes| == Strays(t, name) * (|value| - |Pattern(name)|)
            && (Strays(t, name) == 0 || value == Pattern(name) ==> all == holes)
            && (Strays(t, name) > 0 && |value| == |Pattern(name)| && value != Pattern(name) ==> all != holes)
    decreases |t|
  {
    hide *;
    if t == [] {
      NoPiece(name, value);
    } else {
      FillAllFirst(t, name, value);
      if Spells(t, name) {
        var rest := t[|name| + 2..];
        StraysCount(rest, name, value);
        SpellingStays(t, name, value);
        RenderLetters(value, FillAll(rest, name, value));
        OneMore(Strays(rest, name), |value| - |Pattern(name)|);
        if |value| == |Pattern(name)| && value != Pattern(name) {
          Differ(value, Render(FillAll(rest, name, value)), Pattern(name), Render(Fill(rest, name, value)));
        }
      } else {
        var rest := t[1..];
        StraysCount(rest, name, value);
        RenderLetters(value, FillAll(rest, name, value));
        RenderLetters(value, Fill(rest, name, value));
        RenderCons(t[0], FillAll(rest, name, value));
        RenderCons(t[0], Fill(rest, name, value));
        var first := if t[0] == Hole(name) then value else PieceText(t[0]);
        assert Render(FillAll(t, name, value)) == first + Render(FillAll(rest, name, value));
        assert Render(Fill(t, name, value)) == first + Render(Fill(rest, name, value));
        SameFirst(first, Render(FillAll(rest, name, value)), Render(Fill(rest, name, value)));
      }
    }
  }

  lemma OneMore(n: nat, d: int)
    ensures (1 + n) * d == d + n * d
  {
  }

  lemma Differ(a: string, u: string, b: string, v: string)
    requires |a| == |b| && a != b
    ensures a + u != b + v
  {
    assert (a + u)[..|a|] == a && (b + v)[..|b|] == b;
  }

  lemma SameFirst(a: string, u: string, v: string)
    ensures a + u == a + v <==> u == v
  {
    assert (a + u)[|a|..] == u && (a + v)[|a|..] == v;
  }

  /** Replacing one name fills its holes and nothing else, exactly when no letters spell the
      placeholder, or the value is the placeholder itself. */
  lemma ReplaceFillsExactly(t: Template, name: string, value: string)
    requires Named(t) && IsName(name)
    ensures ReplaceAll(Render(t), Pattern(name), value) == Render(Fill(t, name, value)) <==>
            Strays(t, name) == 0 || value == Pattern(name)
  {
    hide *;
    ReplaceFillsAll(t, name, value);
    StraysCount(t, name, value);
    if Strays(t, name) > 0 && |value| != |Pattern(name)| { NotNothing(Strays(t, name), |value| - |Pattern(name)|); }
  }

  lemma NotNothing(n: nat, d: int)
    requires n > 0 && d != 0
    ensures n * d != 0
  {
  }

  /** No letter is that brace. */
  ghost predicate NoLetter(t: Template, brace: char) { forall i :: 0 <= i < |t| ==> t[i] != Letter(brace) }

  lemma SpellsBraces(t: Template, name: string)
    ensures Spells(t, name) ==> |t| >= |name| + 2 && t[0] == Letter('{') && t[|name| + 1] == Letter('}')
  {
    if Spells(t, name) {
      var front, p := t[..|name| + 2], Pattern(name);
      assert t[0] == front[0] == Letter(p[0]) && t[|name| + 1] == front[|name| + 1] == Letter(p[|name| + 1]);
    }
  }

  /** A spelling takes both braces. */
  lemma {:induction false} SpellingTakesBoth(t: Template, name: string, brace: char)
    requires IsBrace(brace) && NoLetter(t, brace)
    ensures Strays(t, name) == 0
    decreases |t|
  {
    if t != [] {
      SpellsBraces(t, name);
      hide Spells;
      SpellingTakesBoth(t[1..], name, brace);
    }
  }

  /** Replacing one name in the text of a clean template fills its holes and nothing else. */
  lemma ReplaceFills(t: Template, name: string, value: string)
    requires Clean(t) && IsName(name)
    ensures ReplaceAll(Render(t), ['{'] + name + ['}'], value) == Render(Fill(t, name, value))
  {
    CleanIsNamed(t);
    SpellingTakesBoth(t, name, '{');
    hide Strays, Fill, Render, ReplaceAll, IsName, Named;
    ReplaceFillsExactly(t, name, value);
  }

  lemma CleanIsNamed(t: Template)
    requires Clean(t)
    ensures Named(t) && NoLetter(t, '{') && NoLetter(t, '}')
  {
    hide IsName;
    assert forall i :: 0 <= i < |t| ==> PieceClean(t[i]);
  }

  ghost predicate BraceFree(s: string) { forall i :: 0 <= i < |s| ==> !IsBrace(s[i]) }

  lemma {:induction false} FillKeepsClean(t: Template, name: string, value: string)
    requires Clean(t) && BraceFree(value)
    ensures Clean(Fill(t, name, value))
  {
    hide IsName;
    if t != [] { FillKeepsClean(t[1..], name, value); }
  }

  // ---- Formatting ------------------------------------------------------------------------

  type Values = map<string, string>

  datatype Refusal = UnknownLocale | UnknownKey | MissingValue(name: string)

  /** One name after the other, in the order of the list. */
  function ReplaceEach(message: string, names: seq<string>, values: Values): Result<string, Refusal>
    decreases names
  {
    if names == [] then Ok(message)
    else if names[0] !in values then Err(MissingValue(names[0]))
    else ReplaceEach(ReplaceAll(message, ['{'] + names[0] + ['}'], values[names[0]]), names[1..], values)
  }

  function Filled(p: Piece, values: Values): string {
    if p.Hole? && p.name in values then values[p.name] else PieceText(p)
  }

  /** Every hole at once. */
  function Substitute(t: Template, values: Values): string {
    if t == [] then "" else Filled(t[0], values) + Substitute(t[1..], values)
  }

  lemma SubstituteCons(p: Piece, t: Template, values: Values)
    ensures Substitute([p] + t, values) ==
            Filled(p, values) + Substitute(t, values)
  {
    assert ([p] + t)[1..] == t;
  }

  lemma {:induction false} SubstituteLetters(s: string, rest: Template, values: Values)
    ensures Substitute(Letters(s) + rest, values) == s + Substitute(rest, values)
  {
    hide Substitute, Letters;
    if s == "" {
      assert Letters(s) + rest == rest && s + Substitute(rest, values) == Substitute(rest, values);
    } else {
      var more := Letters(s[1..]) + rest;
      SubstituteLetters(s[1..], rest, values);
      SubstituteCons(Letter(s[0]), more, values);
      assert Letters(s) + rest == [Letter(s[0])] + more;
      assert s + Substitute(rest, values) == [s[0]] + (s[1..] + Substitute(rest, values));
    }
  }

  /** Filling a name first does not change what filling all of them at once gives. */
  lemma {:induction false} FillThenSubstitute(t: Template, name: string, values: Values)
    requires name in values
    ensures Substitute(Fill(t, name, values[name]), values) == Substitute(t, values)
  {
    if t != [] {
      FillThenSubstitute(t[1..], name, values);
      if t[0] == Hole(name) {
        SubstituteLetters(values[name], Fill(t[1..], name, values[name]), values);
      } else {
        assert ([t[0]] + Fill(t[1..], name, values[name]))[1..] == Fill(t[1..], name, values[name]);
      }
    }
  }

  lemma {:induction false} FillRemovesName(t: Template, name: string, value: string, other: string)
    requires Hole(other) in Fill(t, name, value)
    ensures other != name && Hole(other) in t
  {
    if t != [] {
      if Hole(other) in Fill(t[1..], name, value) { FillRemovesName(t[1..], name, value, other); }
      assert Fill(t, name, value) == (if t[0] == Hole(name) then Letters(value) else [t[0]]) +
             Fill(t[1..], name, value);
    }
  }

  lemma {:induction false} NoHolesLeft(t: Template, values: Values)
    requires forall i :: 0 <= i < |t| ==> t[i].Letter?
    ensures Render(t) == Substitute(t, values)
  {
    if t != [] { NoHolesLeft(t[1..], values); }
  }

  /** As the names are replaced one after the other, no value ever spells the name whose turn it
      is, unless it is replaced by itself. */
  ghost predicate NothingSpelled(t: Template, names: seq<string>, values: Values)
    decreases names
  {
    names == [] ||
    (names[0] in values && (Strays(t, names[0]) == 0 || values[names[0]] == Pattern(names[0])) &&
     NothingSpelled(Fill(t, names[0], values[names[0]]), names[1..], values))
  }

  lemma {:induction false} FillKeepsNamed(t: Template, name: string, value: string)
    requires Named(t)
    ensures Named(Fill(t, name, value))
  {
    hide IsName;
    if t != [] {
      assert Named(t[1..]);
      FillKeepsNamed(t[1..], name, value);
    }
  }

  lemma {:induction false} FillKeepsNoLetter(t: Template, name: string, value: string, brace: char)
    requires NoLetter(t, brace) && brace !in value
    ensures NoLetter(Fill(t, name, value), brace)
  {
    if t != [] {
      FillKeepsNoLetter(t[1..], name, value, brace);
      assert forall i :: 0 <= i < |value| ==> value[i] in value;
    }
  }

  /** Sequential replacement is simultaneous substitution, in any order of the names and whatever
      else the list holds, as long as no name is spelled when its turn comes. */
  lemma {:induction false} UnspelledIsSimultaneous(t: Template, names: seq<string>, values: Values)
    requires Named(t) && (forall i :: 0 <= i < |t| && t[i].Hole? ==> t[i].name in names)
    requires (forall i :: 0 <= i < |names| ==> IsName(names[i])) && NothingSpelled(t, names, values)
    ensures ReplaceEach(Render(t), names, values) == Ok(Substitute(t, values))
    decreases names
  {
    hide IsName, ReplaceAll, Named, Strays;
    if names == [] {
      NoHolesLeft(t, values);
    } else {
      var name := names[0];
      var filled := Fill(t, name, values[name]);
      ReplaceFillsExactly(t, name, values[name]);
      FillKeepsNamed(t, name, values[name]);
      forall i | 0 <= i < |filled| && filled[i].Hole? ensures filled[i].name in names[1..] {
        FillRemovesName(t, name, values[name], filled[i].name);
        assert Hole(filled[i].name) in t;
      }
      UnspelledIsSimultaneous(filled, names[1..], values);
      FillThenSubstitute(t, name, values);
    }
  }

  /** One of the two braces is in no value. */
  ghost predicate OneSided(names: seq<string>, values: Values) {
    exists brace :: IsBrace(brace) && NoneHolds(names, values, brace)
  }

  ghost predicate NoneHolds(names: seq<string>, values: Values, brace: char) {
    forall i :: 0 <= i < |names| ==> names[i] in values && brace !in values[names[i]]
  }

  lemma {:induction false} OneSidedSpellsNothing(t: Template, names: seq<string>, values: Values, brace: char)
    requires IsBrace(brace) && NoLetter(t, brace) && NoneHolds(names, values, brace)
    ensures NothingSpelled(t, names, values)
    decreases names
  {
    hide NoLetter, Strays;
    if names != [] {
      assert names[0] in values && brace !in values[names[0]];
      assert NoneHolds(names[1..], values, brace);
      SpellingTakesBoth(t, names[0], brace);
      FillKeepsNoLetter(t, names[0], values[names[0]], brace);
      OneSidedSpellsNothing(Fill(t, names[0], values[names[0]]), names[1..], values, brace);
    }
  }

  /** For a clean template it is enough that no value opens, or that none closes: only an opening
      brace of one value and a closing brace of the same or another make an occurrence. */
  lemma SequentialIsSimultaneous(t: Template, names: seq<string>, values: Values)
    requires Clean(t) && (forall i :: 0 <= i < |t| && t[i].Hole? ==> t[i].name in names)
    requires (forall i :: 0 <= i < |names| ==> IsName(names[i])) && OneSided(names, values)
    ensures ReplaceEach(Render(t), names, values) == Ok(Substitute(t, values))
  {
    CleanIsNamed(t);
    hide IsName, Clean, Named, NoLetter, NoneHolds, NothingSpelled, IsBrace;
    var brace :| IsBrace(brace) && NoneHolds(names, values, brace);
    assert NoLetter(t, brace) by { WhichBrace(brace); }
    OneSidedSpellsNothing(t, names, values, brace);
    UnspelledIsSimultaneous(t, names, values);
  }

  lemma WhichBrace(c: char)
    requires IsBrace(c)
    ensures c == '{' || c == '}'
  {
  }

  lemma {:induction false} SubstituteHasNoBrace(t: Template, values: Values)
    requires Clean(t) && forall i :: 0 <= i < |t| && t[i].Hole? ==> t[i].name in values && BraceFree(values[t[i].name])
    ensures BraceFree(Substitute(t, values))
  {
    hide IsName;
    if t != [] { SubstituteHasNoBrace(t[1..], values); }
  }

  /** An accepted message formats to its simultaneous substitution when no value opens a brace, or
      none closes one; and without braces in the values it leaves none. */
  lemma AcceptedMessageFormats(message: string, values: Values)
    requires Placeholders(message).Some? && OneSided(Placeholders(message).value, values)
    ensures ReplaceEach(message, Placeholders(message).value, values) == Ok(Substitute(Scan(message), values))
    ensures (forall n :: n in HoleNames(Scan(message)) ==> n in values && BraceFree(values[n])) ==>
              BraceFree(Substitute(Scan(message), values))
  {
    AcceptedIsClean(message);
    RenderScan(message);
    ScannedNames(message);
    var t, names := Scan(message), Placeholders(message).value;
    hide Scan, IsName, BraceFree, Substitute, ReplaceEach, OneSided;
    assert names == SortedKeys(HoleNames(t));
    forall i | 0 <= i < |t| && t[i].Hole? ensures t[i].name in names && t[i].name in HoleNames(t) {}
    forall i | 0 <= i < |names| ensures IsName(names[i]) && names[i] in HoleNames(t) {
      assert names[i] in names;
      var j :| 0 <= j < |t| && t[j].Hole? && t[j].name == names[i];
    }
    SequentialIsSimultaneous(t, names, values);
    if forall n :: n in HoleNames(t) ==> n in values && BraceFree(values[n]) { SubstituteHasNoBrace(t, values); }
  }

  /** The condition on values is needed: a value that is another placeholder is replaced again. */
  lemma ValueWithBracesIsReplacedAgain(a: string, b: string, w: string)
    requires IsName(a) && IsName(b) && a != b && BraceFree(w)
    ensures var t := [Hole(a), Hole(b)]; var values := map[a := PieceText(Hole(b)), b := w];
            && ReplaceEach(Render(t), [a, b], values) == Ok(w + w)
            && Substitute(t, values) == PieceText(Hole(b)) + w
            && Ok(Substitute(t, values)) != ReplaceEach(Render(t), [a, b], values)
  {
    var t, hole := [Hole(a), Hole(b)], PieceText(Hole(b));
    var values := map[a := hole, b := w];
    TwoHoles(a, b, hole);
    TwoHoles(b, b, w);
    hide Render, Fill, ReplaceAll, IsName;
    ReplaceFills(t, a, hole);
    ReplaceFills([Hole(b), Hole(b)], b, w);
    assert [a, b][1..] == [b] && [b][1..] == [];
    SubstituteCons(Hole(a), [Hole(b)], values);
    SubstituteCons(Hole(b), [], values);
    assert t == [Hole(a)] + [Hole(b)] && [Hole(b)] == [Hole(b)] + [];
    var once := ReplaceAll(Render(t), ['{'] + a + ['}'], hole);
    assert once == Render([Hole(b), Hole(b)]);
    var twice := ReplaceAll(once, ['{'] + b + ['}'], w);
    assert twice == w + w;
    assert ReplaceEach(twice, [], values) == Ok(twice);
    assert ReplaceEach(once, [b], values) == Ok(twice);
    assert ReplaceEach(Render(t), [a, b], values) == Ok(twice);
    assert w + "" == w;
    assert hole[0] == '{' && |hole| >= 2;
    assert (hole + w)[0] == '{' && (w != "" ==> (w + w)[0] != '{');
  }

  /** Nor is it enough that no single value holds a placeholder: one can open what another closes,
      and a third name is found between them. */
  lemma TwoValuesSpellAName(a: string, c: string, b: string, w: string)
    requires IsName(a) && IsName(c) && IsName(b) && a != c && a != b && c != b
    ensures var t := [Hole(a), Hole(c)]; var values := map[a := ['{'] + b, c := "}", b := w];
            && ReplaceEach(Render(t), [a, c, b], values) == Ok(w)
            && Substitute(t, values) == Pattern(b)
  {
    var t, opens := [Hole(a), Hole(c)], ['{'] + b;
    var values := map[a := opens, c := "}", b := w];
    hide *;
    TwoFillsSpell(a, c, b);
    PatternNotEmpty(b);
    SpelledIsReplaced(Pattern(b), "", w);
    NoPiece(b, w);
    assert Pattern(b) + "" == Pattern(b) && w + "" == w;
    ReplaceOne(Render(t), a, [c, b], values);
    ReplaceOne(ReplaceAll(Render(t), Pattern(a), opens), c, [b], values);
    ReplaceOne(Pattern(b), b, [], values);
    assert [a] + [c, b] == [a, c, b] && [c] + [b] == [c, b] && [b] + [] == [b];
    SubstituteTwo(a, c, values);
    PatternParts(b);
  }

  lemma PatternParts(b: string)
    ensures ['{'] + b + "}" == Pattern(b)
  {
  }

  lemma SubstituteTwo(a: string, c: string, values: Values)
    requires a in values && c in values
    ensures Substitute([Hole(a), Hole(c)], values) == values[a] + values[c]
  {
    SubstituteCons(Hole(a), [Hole(c)], values);
    SubstituteCons(Hole(c), [], values);
    assert [Hole(a), Hole(c)] == [Hole(a)] + [Hole(c)] && [Hole(c)] == [Hole(c)] + [];
    assert values[c] + "" == values[c];
  }

  lemma ReplaceOne(message: string, name: string, names: seq<string>, values: Values)
    requires name in values
    ensures Pattern(name) != ""
    ensures ReplaceEach(message, [name] + names, values) ==
            ReplaceEach(ReplaceAll(message, Pattern(name), values[name]), names, values)
    ensures forall done :: ReplaceEach(done, [], values) == Ok(done)
  {
    assert ([name] + names)[1..] == names;
    hide ReplaceAll;
  }

  /** The two fills leave the placeholder of the third name, spelled by letters. */
  lemma TwoFillsSpell(a: string, c: string, b: string)
    requires IsName(a) && IsName(c) && IsName(b) && a != c
    ensures Pattern(a) != "" && Pattern(c) != ""
    ensures var once := ReplaceAll(Render([Hole(a), Hole(c)]), Pattern(a), ['{'] + b);
            ReplaceAll(once, Pattern(c), "}") == Pattern(b)
  {
    var t, opens := [Hole(a), Hole(c)], ['{'] + b;
    var once := Letters(opens) + [Hole(c)];
    NameNoBrace(b);
    assert Named(once) && NoLetter(once, '}') && Clean(t);
    hide *;
    FillTwo(a, c, opens);
    FillLetters(opens, [Hole(c)], c, "}");
    FillOne(c, "}");
    ReplaceFills(t, a, opens);
    PatternIs(a);
    SpellingTakesBoth(once, c, '}');
    ReplaceFillsExactly(once, c, "}");
    RenderLetters(opens, Letters("}"));
    RenderLetters("}", []);
    assert Letters("}") + [] == Letters("}") && "}" + "" == "}";
    NoPiece(c, "}");
    PatternNotEmpty(a);
    PatternNotEmpty(c);
    PatternParts(b);
  }

  lemma PatternIs(name: string)
    ensures Pattern(name) == ['{'] + name + ['}']
  {
  }

  lemma FillOne(c: string, value: string)
    ensures Fill([Hole(c)], c, value) == Letters(value)
  {
    assert [Hole(c)][1..] == [] && Letters(value) + [] == Letters(value);
  }

  lemma FillTwo(a: string, c: string, value: string)
    requires a != c
    ensures Fill([Hole(a), Hole(c)], a, value) == Letters(value) + [Hole(c)]
  {
    assert [Hole(a), Hole(c)] == [Hole(a)] + ([Hole(c)] + []);
    FillCons(Hole(a), [Hole(c)] + [], a, value);
    FillCons(Hole(c), [], a, value);
    hide Letters;
    assert [Hole(c)] + [] == [Hole(c)];
  }

  /** The text of a hole followed by another, before and after the first is filled. */
  lemma TwoHoles(a: string, b: string, value: string)
    ensures Render(Fill([Hole(a), Hole(b)], a, value)) == value + if a == b then value else PieceText(Hole(b))
    ensures a != b ==> Render([Hole(b), Hole(b)]) == PieceText(Hole(b)) + PieceText(Hole(b))
  {
    var last := if a == b then Letters(value) else [Hole(b)];
    assert [Hole(a), Hole(b)][1..] == [Hole(b)] && [Hole(b)][1..] == [] && last + [] == last;
    assert Fill([Hole(b)], a, value) == last;
    RenderLetters(value, last);
    RenderLetters(value, []);
    RenderCons(Hole(b), []);
    RenderCons(Hole(b), [Hole(b)]);
    assert [Hole(b)] == [Hole(b)] + [] && [Hole(b), Hole(b)] == [Hole(b)] + [Hole(b)];
    assert Letters(value) + [] == Letters(value) && value + "" == value;
  }

  // ---- The catalog -----------------------------------------------------------------------

  /** The messages of every locale, and the placeholder names of every key. */
  datatype Catalog = Catalog(messages: map<string, map<string, string>>, placeholders: map<string, seq<string>>)

  function Message(catalog: Catalog, locale: string, key: string): Result<string, Refusal> {
    if locale !in catalog.messages then Err(UnknownLocale)
    else if key !in catalog.messages[locale] then Err(UnknownKey)
    else Ok(catalog.messages[locale][key])
  }

  function NamesOf(catalog: Catalog, key: string): seq<string> {
    if key in catalog.placeholders then catalog.placeholders[key] else []
  }

  lemma {:induction false} ReplaceEachAt(message: string, names: seq<string>, values: Values, i: nat)
    requires i < |names|
    ensures var text := ReplaceEach(message, names[..i], values);
            text.Ok? ==>
              if names[i] in values
              then ReplaceEach(message, names[..i + 1], values) ==
                   Ok(ReplaceAll(text.value, ['{'] + names[i] + ['}'], values[names[i]]))
              else ReplaceEach(message, names, values) == Err(MissingValue(names[i]))
    decreases names
  {
    hide ReplaceAll;
    if i == 0 {
      assert names[..0] == [] && names[..1][0] == names[0] && names[..1][1..] == [];
    } else if names[0] in values {
      assert names[..i][0] == names[0] && names[..i][1..] == names[1..][..i - 1];
      assert names[..i + 1][0] == names[0] && names[..i + 1][1..] == names[1..][..i];
      ReplaceEachAt(ReplaceAll(message, ['{'] + names[0] + ['}'], values[names[0]]), names[1..], values, i - 1);
    } else {
      assert names[..i][0] == names[0];
    }
  }

  /** The catalog holds the message and, under the key, the message's placeholder names. */
  ghost predicate HasMessage(catalog: Catalog, locale: string, key: string) {
    && locale in catalog.messages && key in catalog.messages[locale] && key in catalog.placeholders
    && Placeholders(catalog.messages[locale][key]) == Some(catalog.placeholders[key])
  }

  /** The first name without a value is the one that is reported. */
  lemma {:induction false} FirstMissing(message: string, names: seq<string>, values: Values, i: nat)
    requires i < |names| && names[i] !in values && forall j :: 0 <= j < i ==> names[j] in values
    ensures ReplaceEach(message, names, values) == Err(MissingValue(names[i]))
    decreases i
  {
    hide ReplaceAll;
    if i > 0 {
      FirstMissing(ReplaceAll(message, ['{'] + names[0] + ['}'], values[names[0]]), names[1..], values, i - 1);
    }
  }

  /** The message of a key with its placeholders replaced, one name after the other: its
      substitution when no value opens a brace, or none closes one. */
  method Format(catalog: Catalog, locale: string, key: string, values: Values) returns (r: Result<string, Refusal>)
    ensures var message := Message(catalog, locale, key);
            r == if message.Ok? then ReplaceEach(message.value, NamesOf(catalog, key), values) else message
    ensures locale !in catalog.messages ==> r == Err(UnknownLocale)
    ensures locale in catalog.messages && key !in catalog.messages[locale] ==> r == Err(UnknownKey)
    ensures HasMessage(catalog, locale, key) ==>
              var message, names := catalog.messages[locale][key], catalog.placeholders[key];
              && (OneSided(names, values) ==> r == Ok(Substitute(Scan(message), values)))
              && forall i :: 0 <= i < |names| && names[i] !in values && (forall j :: 0 <= j < i ==> names[j] in values)
                             ==> r == Err(MissingValue(names[i]))
  {
    if HasMessage(catalog, locale, key) {
      var message, names := catalog.messages[locale][key], catalog.placeholders[key];
      if OneSided(names, values) { AcceptedMessageFormats(message, values); }
      forall i | 0 <= i < |names| && names[i] !in values && forall j :: 0 <= j < i ==> names[j] in values
        ensures ReplaceEach(message, names, values) == Err(MissingValue(names[i]))
      {
        FirstMissing(message, names, values, i);
      }
    }
    r := Message(catalog, locale, key);
    if r.Err? { return; }
    hide ReplaceAll;
    var message, names := r.value, NamesOf(catalog, key);
    assert names[..0] == [];
    for i := 0 to |names|
      invariant ReplaceEach(r.value, names[..i], values) == Ok(message)
    {
      ReplaceEachAt(r.value, names, values, i);
      if names[i] !in values { return Err(MissingValue(names[i])); }
      message := ReplaceAll(message, ['{'] + names[i] + ['}'], values[names[i]]);
    }
    assert names[..|names|] == names;
    r := Ok(message);
  }

  // ---- The bundle ------------------------------------------------------------------------

  datatype Fault = Malformed | Divergence

  /** What has been read: the messages of every key by locale, and the key's placeholders. */
  datatype Locales = Locales(messages: map<(string, string), map<string, string>>,
                             placeholders: map<(string, string), seq<string>>)

  /** One message taken in, or refused. A refused message still leaves its key behind. */
  function WithMessage(s: Locales, locale: string, id: (string, string), message: string): (Locales, Option<Fault>) {
    var known := if id in s.messages then s.messages else s.messages[id := map[]];
    var names := Placeholders(message);
    if names.None? then (Locales(known, s.placeholders), Some(Malformed))
    else if id in s.placeholders && s.placeholders[id] != names.value
    then (Locales(known, s.placeholders), Some(Divergence))
    else (Locales(known[id := known[id][locale := message]], s.placeholders[id := names.value]), None)
  }

  /** Taking in a message stores it, and touches no other key. */
  lemma KeepsOthers(s: Locales, locale: string, id: (string, string), message: string)
    ensures var r := WithMessage(s, locale, id, message);
            && (r.1.None? ==> id in r.0.messages && locale in r.0.messages[id] && r.0.messages[id][locale] == message)
            && forall other :: other != id && other in s.messages ==>
                 other in r.0.messages && r.0.messages[other] == s.messages[other]
  {
    hide Placeholders;
  }

  /** The messages of a file, key by key, up to the first that is refused. */
  function WithCatalog(s: Locales, locale: string, namespace: string, catalog: map<string, string>,
      keys: seq<string>): (Locales, Option<Fault>)
    requires forall k :: k in keys ==> k in catalog
    decreases |keys|
  {
    if keys == [] then (s, None) else
      var first := WithMessage(s, locale, (namespace, keys[0]), catalog[keys[0]]);
      if first.1.Some? then first else WithCatalog(first.0, locale, namespace, catalog, keys[1..])
  }

  /** The locales tree while it is being read. A key is its namespace and its name. */
  class Bundle {
    var messages: map<(string, string), map<string, string>>
    var placeholders: map<(string, string), seq<string>>

    constructor ()
      ensures Valid() && messages == map[] && placeholders == map[]
    {
      messages, placeholders := map[], map[];
    }

    function Read(): Locales
      reads this
    {
      Locales(messages, placeholders)
    }

    /** Whatever the locale, a key's message has exactly the key's placeholders. */
    ghost predicate Valid()
      reads this
    {
      forall id, locale :: id in messages && locale in messages[id] ==>
        id in placeholders && Placeholders(messages[id][locale]) == Some(placeholders[id])
    }

    /** Takes in one message. What is refused is not stored. */
    method AbsorbMessage(locale: string, id: (string, string), message: string) returns (fault: Option<Fault>)
      requires Valid()
      modifies this
      ensures Valid() && (Read(), fault) == WithMessage(old(Read()), locale, id, message)
      ensures fault == Some(Malformed) <==> Placeholders(message).None?
      ensures fault == Some(Divergence) <==>
              && Placeholders(message).Some? && id in old(placeholders)
              && old(placeholders)[id] != Placeholders(message).value
      ensures fault.None? ==>
                Stored(locale, id, message) && placeholders == old(placeholders)[id := Placeholders(message).value]
      ensures fault.Some? ==> placeholders == old(placeholders)
    {
      hide Placeholders;
      if id !in messages { messages := messages[id := map[]]; }
      var names := Placeholders(message);
      if names.None? { return Some(Malformed); }
      if id in placeholders {
        if placeholders[id] != names.value { return Some(Divergence); }
      } else {
        placeholders := placeholders[id := names.value];
      }
      assert placeholders == old(placeholders)[id := names.value];
      messages := messages[id := messages[id][locale := message]];
      return None;
    }

    /** Takes in one parsed file, its keys in order, and stops at the first refusal. */
    method Absorb(locale: string, namespace: string, catalog: map<string, string>) returns (fault: Option<Fault>)
      requires Valid()
      modifies this
      ensures Valid()
      ensures (Read(), fault) == WithCatalog(old(Read()), locale, namespace, catalog, SortedKeys(catalog.Keys))
      ensures fault.None? ==> forall key :: key in catalog ==> Stored(locale, (namespace, key), catalog[key])
    {
      hide Placeholders, SortedKeys, WithMessage;
      var keys := SortedKeys(catalog.Keys);
      for i := 0 to |keys|
        invariant Valid()
        invariant WithCatalog(Read(), locale, namespace, catalog, keys[i..]) ==
                  WithCatalog(old(Read()), locale, namespace, catalog, keys)
        invariant forall j :: 0 <= j < i ==> Stored(locale, (namespace, keys[j]), catalog[keys[j]])
      {
        assert keys[i..][0] == keys[i] && keys[i..][1..] == keys[i + 1..];
        ghost var before := Read();
        fault := AbsorbMessage(locale, (namespace, keys[i]), catalog[keys[i]]);
        KeepsOthers(before, locale, (namespace, keys[i]), catalog[keys[i]]);
        if fault.Some? { return; }
      }
      fault := None;
      forall key | key in catalog ensures Stored(locale, (namespace, key), catalog[key]) {
        assert key in keys;
      }
    }

    ghost predicate Stored(locale: string, id: (string, string), message: string)
      reads this
    {
      id in messages && locale in messages[id] && messages[id][locale] == message
    }

    /** Whether every key of the bundle has a message in every locale. */
    method CheckKeyParity(locales: seq<string>) returns (ok: bool)
      ensures ok <==> forall id, j :: id in messages && 0 <= j < |locales| ==> locales[j] in messages[id]
    {
      var todo := messages.Keys;
      while todo != {}
        invariant todo <= messages.Keys
        invariant forall id, j :: id in messages.Keys - todo && 0 <= j < |locales| ==> locales[j] in messages[id]
      {
        var id :| id in todo;
        for j := 0 to |locales|
          invariant forall k :: 0 <= k < j ==> locales[k] in messages[id]
        {
          if locales[j] !in messages[id] { return false; }
        }
        todo := todo - {id};
      }
      ok := true;
    }

    /** Every message of a bundle formats, in every locale that has it, to its simultaneous
        substitution once each of the key's names has a value without braces. */
    lemma EveryLocaleFormats(id: (string, string), locale: string, values: Values)
      requires Valid() && id in messages && locale in messages[id] && id in placeholders
      requires OneSided(placeholders[id], values)
      ensures ReplaceEach(messages[id][locale], placeholders[id], values) ==
              Ok(Substitute(Scan(messages[id][locale]), values))
      ensures (forall n :: n in placeholders[id] ==> n in values && BraceFree(values[n])) ==>
                BraceFree(Substitute(Scan(messages[id][locale]), values))
    {
      var message := messages[id][locale];
      PlaceholdersAreHoles(message);
      AcceptedMessageFormats(message, values);
    }
  }

  lemma PlaceholdersAreHoles(message: string)
    requires Placeholders(message).Some?
    ensures forall n :: n in Placeholders(message).value <==> n in HoleNames(Scan(message))
  {
  }

  // ---- The pseudo-locale -----------------------------------------------------------------

  const OPEN: char := '\U{27E6}'
  const CLOSE: char := '\U{27E7}'
  const BULLET: char := '\U{2022}'
  const PADDING: string := [BULLET, BULLET, BULLET, BULLET]

  /** The number of bytes of a character in UTF-8. */
  function Width(c: char): nat {
    if c < '\U{80}' then 1 else if c < '\U{800}' then 2 else if c < '\U{10000}' then 3 else 4
  }

  function Bytes(s: string): nat { if s == "" then 0 else Width(s[0]) + Bytes(s[1..]) }

  /** The accented form of a letter that has one. */
  function Accent(c: char): char {
    match c
    case 'a' => '\U{E1}' case 'A' => '\U{C1}' case 'e' => '\U{E9}' case 'E' => '\U{C9}'
    case 'i' => '\U{ED}' case 'I' => '\U{CD}' case 'o' => '\U{F3}' case 'O' => '\U{D3}'
    case 'u' => '\U{FA}' case 'U' => '\U{DA}' case 'c' => '\U{E7}' case 'C' => '\U{C7}'
    case 'n' => '\U{F1}' case 'N' => '\U{D1}' case 'y' => '\U{FD}' case 'Y' => '\U{DD}'
    case _ => c
  }

  /** The letters accented outside braces, everything between braces as it is. */
  function Accented(s: string, inside: bool): string {
    if s == "" then ""
    else if s[0] == '{' then [s[0]] + Accented(s[1..], true)
    else if s[0] == '}' && inside then [s[0]] + Accented(s[1..], false)
    else [if inside then s[0] else Accent(s[0])] + Accented(s[1..], inside)
  }

  /** How many paddings: one for every twelve bytes begun of half the characters. */
  function PaddingCount(runes: nat): nat { ((runes + 1) / 2 + 11) / 12 }

  function Paddings(n: nat): string { if n == 0 then "" else PADDING + Paddings(n - 1) }

  function Pseudo(message: string): string {
    [OPEN] + Accented(message, false) + Paddings(PaddingCount(|message|)) + [CLOSE]
  }

  /** One message bracketed, accented and padded. */
  method PseudoMessage(message: string) returns (r: string)
    ensures r == Pseudo(message)
  {
    var out := [OPEN];
    var inside := false;
    for i := 0 to |message|
      invariant out + Accented(message[i..], inside) == [OPEN] + Accented(message, false)
    {
      assert message[i..][1..] == message[i + 1..];
      if message[i] == '{' {
        inside := true;
        out := out + [message[i]];
      } else if message[i] == '}' && inside {
        inside := false;
        out := out + [message[i]];
      } else if inside {
        out := out + [message[i]];
      } else {
        out := out + [Accent(message[i])];
      }
    }
    var written, half := 0, (|message| + 1) / 2;
    ghost var done, body := 0, out;
    while written < half
      invariant written == 12 * done && out == body + Paddings(done) && done <= PaddingCount(|message|)
    {
      PaddingsAppend(done);
      out := out + PADDING;
      written, done := written + 12, done + 1;
    }
    assert done == PaddingCount(|message|);
    r := out + [CLOSE];
  }

  lemma {:induction false} PaddingsAppend(n: nat)
    ensures Paddings(n) + PADDING == Paddings(n + 1)
  {
    if n > 0 { PaddingsAppend(n - 1); }
  }

  /** The pieces of the derived message. */
  function PseudoPieces(t: Template): (r: Template)
    ensures |r| == |t| && forall i :: 0 <= i < |r| ==> r[i] == PseudoPiece(t[i])
  {
    if t == [] then [] else [PseudoPiece(t[0])] + PseudoPieces(t[1..])
  }

  function PseudoPiece(p: Piece): Piece { if p.Letter? then Letter(Accent(p.c)) else p }

  lemma {:induction false} InsideIsCopied(name: string, rest: string)
    requires IsName(name) || forall i :: 0 <= i < |name| ==> NameChar(name[i])
    ensures Accented(name + ['}'] + rest, true) == name + ['}'] + Accented(rest, false)
  {
    if name == "" {
      assert name + ['}'] + rest == ['}'] + rest && (['}'] + rest)[1..] == rest;
    } else {
      assert (name + ['}'] + rest)[1..] == name[1..] + ['}'] + rest;
      InsideIsCopied(name[1..], rest);
    }
  }

  lemma {:induction false} AccentedPieces(t: Template)
    requires Clean(t)
    ensures Accented(Render(t), false) == Render(PseudoPieces(t))
  {
    hide Accented, IsName;
    if t != [] {
      AccentedPieces(t[1..]);
      AccentedPiece(t[0], Render(t[1..]));
      RenderCons(PseudoPiece(t[0]), PseudoPieces(t[1..]));
    } else {
      NothingToAccent();
    }
  }

  lemma NothingToAccent()
    ensures Accented("", false) == ""
  {
  }

  lemma AccentedPiece(p: Piece, rest: string)
    requires PieceClean(p)
    ensures Accented(PieceText(p) + rest, false) == PieceText(PseudoPiece(p)) + Accented(rest, false)
  {
    hide IsName;
    match p
    case Letter(c) =>
      assert ([c] + rest)[1..] == rest;
    case Hole(name) =>
      assert (['{'] + name + ['}'] + rest)[1..] == name + ['}'] + rest;
      InsideIsCopied(name, rest);
  }

  lemma {:induction false} RenderAppend(a: Template, b: Template)
    ensures Render(a + b) == Render(a) + Render(b)
  {
    if a == [] {
      assert a + b == b && Render(a) + Render(b) == Render(b);
    } else {
      assert (a + b)[0] == a[0] && (a + b)[1..] == a[1..] + b;
      RenderAppend(a[1..], b);
    }
  }

  function PseudoTemplate(t: Template, paddings: nat): Template {
    [Letter(OPEN)] + PseudoPieces(t) + Letters(Paddings(paddings)) + [Letter(CLOSE)]
  }

  lemma PseudoIsTemplate(message: string)
    requires Clean(Scan(message))
    ensures Render(PseudoTemplate(Scan(message), PaddingCount(|message|))) == Pseudo(message)
  {
    var t, paddings := Scan(message), Paddings(PaddingCount(|message|));
    RenderScan(message);
    AccentedPieces(t);
    hide Scan, Accented, Paddings, PseudoPieces, Letters, Clean, Render;
    var open, pieces, filler, close := [Letter(OPEN)], PseudoPieces(t), Letters(paddings), [Letter(CLOSE)];
    RenderAppend(open + pieces + filler, close);
    RenderAppend(open + pieces, filler);
    RenderAppend(open, pieces);
    RenderOnlyLetters(paddings);
    RenderOne(OPEN);
    RenderOne(CLOSE);
  }

  lemma RenderOnlyLetters(s: string)
    ensures Render(Letters(s)) == s
  {
    RenderLetters(s, []);
    assert Letters(s) + [] == Letters(s) && s + "" == s;
  }

  lemma RenderOne(c: char)
    ensures Render([Letter(c)]) == [c]
  {
    RenderOnlyLetters([c]);
    assert Letters([c]) == [Letter(c)];
  }

  lemma {:induction false} PaddingsAreBullets(n: nat)
    ensures forall i :: 0 <= i < |Paddings(n)| ==> Paddings(n)[i] == BULLET
  {
    if n > 0 { PaddingsAreBullets(n - 1); }
  }

  lemma PseudoPieceClean(p: Piece)
    requires PieceClean(p)
    ensures PieceClean(PseudoPiece(p))
  {
    hide IsName;
  }

  /** The pieces of a message stand behind the bracket, and letters around them. */
  lemma PseudoPiecesStand(t: Template, n: nat)
    ensures var u := PseudoTemplate(t, n);
            && |u| >= |t| + 2
            && (forall i :: 1 <= i <= |t| ==> u[i] == PseudoPiece(t[i - 1]))
            && forall i :: 0 <= i < |u| && !(1 <= i <= |t|) ==> u[i].Letter? && PieceClean(u[i])
  {
    PaddingsAreBullets(n);
    hide IsName, Paddings, Accent, PseudoPiece;
    var u := PseudoTemplate(t, n);
    assert forall i :: 1 <= i <= |t| ==> u[i] == PseudoPieces(t)[i - 1];
  }

  lemma PseudoTemplateIsClean(t: Template, n: nat)
    requires Clean(t)
    ensures Clean(PseudoTemplate(t, n)) && HoleNames(PseudoTemplate(t, n)) == HoleNames(t)
  {
    PseudoPiecesStand(t, n);
    hide IsName, Paddings, PseudoPieces, PseudoTemplate, PieceClean, IsBrace, Accent;
    var u := PseudoTemplate(t, n);
    forall i | 0 <= i < |u| ensures PieceClean(u[i]) {
      if 1 <= i <= |t| { PseudoPieceClean(t[i - 1]); }
    }
    forall name ensures name in HoleNames(u) <==> name in HoleNames(t) {
      if name in HoleNames(t) {
        var i :| 0 <= i < |t| && t[i] == Hole(name);
        assert u[i + 1] == Hole(name);
      }
      if name in HoleNames(u) {
        var i :| 0 <= i < |u| && u[i] == Hole(name);
        assert t[i - 1] == Hole(name);
      }
    }
  }

  /** The derived message is accepted when its source is, with the same placeholders. */
  lemma PseudoKeepsPlaceholders(message: string)
    requires Placeholders(message).Some?
    ensures Placeholders(Pseudo(message)) == Placeholders(message)
  {
    AcceptedIsClean(message);
    var t := Scan(message);
    var u := PseudoTemplate(t, PaddingCount(|message|));
    PseudoIsTemplate(message);
    PseudoTemplateIsClean(t, PaddingCount(|message|));
    ScanRender(u);
    AcceptedIsClean(Pseudo(message));
    hide Pseudo, Scan, PseudoTemplate, SortedKeys, Clean;
  }

  // ---- Growth ----------------------------------------------------------------------------

  lemma {:induction false} BytesAppend(a: string, b: string)
    ensures Bytes(a + b) == Bytes(a) + Bytes(b)
  {
    hide Width;
    if a == "" {
      assert a + b == b;
    } else {
      assert (a + b)[1..] == a[1..] + b;
      BytesAppend(a[1..], b);
    }
  }

  /** How many letters the derivation accents: each takes one byte more. */
  function AccentCount(s: string, inside: bool): nat {
    if s == "" then 0
    else if s[0] == '{' then AccentCount(s[1..], true)
    else if s[0] == '}' && inside then AccentCount(s[1..], false)
    else (if !inside && Accent(s[0]) != s[0] then 1 else 0) + AccentCount(s[1..], inside)
  }

  lemma AccentWidth(c: char)
    ensures Width(Accent(c)) == Width(c) + if Accent(c) != c then 1 else 0
  {
  }

  lemma {:induction false} AccentedBytes(s: string, inside: bool)
    ensures Bytes(Accented(s, inside)) == Bytes(s) + AccentCount(s, inside)
  {
    hide Width, Accent;
    if s != "" {
      AccentWidth(s[0]);
      AccentedBytes(s[1..], true);
      AccentedBytes(s[1..], false);
    }
  }

  lemma {:induction false} PaddingBytes(n: nat)
    ensures Bytes(Paddings(n)) == 12 * n
  {
    if n > 0 {
      PaddingBytes(n - 1);
      BytesAppend(PADDING, Paddings(n - 1));
      assert Bytes(PADDING) == 12 by {
        OneChar(BULLET);
        assert PADDING == [BULLET] + [BULLET] + ([BULLET] + [BULLET]);
        BytesAppend([BULLET], [BULLET]);
        BytesAppend([BULLET] + [BULLET], [BULLET] + [BULLET]);
      }
    }
  }

  /** The size of a derived message, to the byte, and what it has grown by at the least. */
  lemma PseudoSize(message: string)
    ensures Bytes(Pseudo(message)) == Bytes(message) + AccentCount(message, false) + 12 * PaddingCount(|message|) + 6
    ensures Bytes(Pseudo(message)) >= Bytes(message) + (|message| + 1) / 2 + 6
  {
    var paddings := Paddings(PaddingCount(|message|));
    AccentedBytes(message, false);
    PaddingBytes(PaddingCount(|message|));
    hide Accented, Paddings, AccentCount, Bytes;
    BytesAppend([OPEN] + Accented(message, false) + paddings, [CLOSE]);
    BytesAppend([OPEN] + Accented(message, false), paddings);
    BytesAppend([OPEN], Accented(message, false));
    OneChar(OPEN);
    OneChar(CLOSE);
  }

  lemma OneChar(c: char)
    ensures Bytes([c]) == Width(c)
  {
    assert [c][1..] == "";
  }

  /** The declared minimum growth of two fifths, in bytes. */
  ghost predicate GrowsEnough(message: string) { 5 * (Bytes(Pseudo(message)) - Bytes(message)) >= 2 * Bytes(message) }

  /** It is met exactly by the messages whose accents and padding make up for their bytes; in
      particular by every message that averages no more than a byte and a quarter a character. */
  lemma GrowthExactly(message: string)
    ensures GrowsEnough(message) <==>
            5 * (AccentCount(message, false) + 12 * PaddingCount(|message|) + 6) >= 2 * Bytes(message)
    ensures 4 * Bytes(message) <= 5 * |message| + 60 ==> GrowsEnough(message)
  {
    PseudoSize(message);
  }

  function Repeat(c: char, n: nat): string { if n == 0 then "" else [c] + Repeat(c, n - 1) }

  lemma {:induction false} RepeatSize(c: char, n: nat)
    ensures |Repeat(c, n)| == n && Bytes(Repeat(c, n)) == n * Width(c)
    ensures Accent(c) == c && c != '{' ==> AccentCount(Repeat(c, n), false) == 0
  {
    hide Accent, Width;
    if n > 0 {
      RepeatSize(c, n - 1);
      assert Repeat(c, n)[1..] == Repeat(c, n - 1);
    }
  }

  /** Every long enough message of characters that take three bytes or more, and no accent, falls
      short of it. */
  lemma WideTextFallsShort(c: char, n: nat)
    requires Width(c) >= 3 && Accent(c) == c && n >= 26
    ensures !GrowsEnough(Repeat(c, n))
  {
    RepeatSize(c, n);
    GrowthExactly(Repeat(c, n));
    assert c != '{';
    hide *;
    WideIsWide(n, Width(c));
    PaddingFalls(n);
  }

  lemma WideIsWide(n: nat, width: nat)
    requires width >= 3
    ensures n * width >= 3 * n
  {
  }

  lemma PaddingFalls(n: nat)
    requires n >= 26
    ensures 5 * (12 * PaddingCount(n) + 6) < 6 * n
  {
  }

  // ---- Letters and names -----------------------------------------------------------------

  /** What a placeholder name is: a letter or an underscore, then those and digits. */
  lemma NamesAre(s: string)
    ensures IsName(s) <==>
            && s != "" && ('a' <= s[0] <= 'z' || 'A' <= s[0] <= 'Z' || s[0] == '_')
            && forall i :: 0 <= i < |s| ==>
                 'a' <= s[i] <= 'z' || 'A' <= s[i] <= 'Z' || '0' <= s[i] <= '9' || s[i] == '_'
  {
  }

  /** The names of an accepted message, in ascending order. */
  lemma PlaceholdersAscend(message: string)
    requires Placeholders(message).Some?
    ensures Sorted(Placeholders(message).value)
  {
    SortedKeysAscend(HoleNames(Scan(message)));
    hide SortedKeys, Scan, Sorted;
  }

  /** The letters that are accented: vowels and y get an acute, c a cedilla, n a tilde. */
  lemma AccentsAre(c: char)
    ensures Accent('a') == 'á' && Accent('e') == 'é' && Accent('i') == 'í' && Accent('o') == 'ó'
    ensures Accent('u') == 'ú' && Accent('y') == 'ý' && Accent('c') == 'ç' && Accent('n') == 'ñ'
    ensures Accent('A') == 'Á' && Accent('E') == 'É' && Accent('I') == 'Í' && Accent('O') == 'Ó'
    ensures Accent('U') == 'Ú' && Accent('Y') == 'Ý' && Accent('C') == 'Ç' && Accent('N') == 'Ñ'
    ensures c !in {'a', 'e', 'i', 'o', 'u', 'y', 'c', 'n', 'A', 'E', 'I', 'O', 'U', 'Y', 'C', 'N'} ==> Accent(c) == c
  {
  }

  /** Whether a brace is open before a character. */
  ghost predicate BetweenBraces(s: string, inside: bool, i: nat) {
    (inside && NoneCloses(s, 0, i)) || exists j :: 0 <= j < i && j < |s| && s[j] == '{' && NoneCloses(s, j, i)
  }

  ghost predicate NoneCloses(s: string, j: nat, i: nat) { forall k :: j <= k < i && k < |s| ==> s[k] != '}' }

  lemma {:induction false} AccentedExactly(s: string, inside: bool, i: nat)
    requires i < |s|
    ensures |Accented(s, inside)| == |s|
    ensures Accented(s, inside)[i] == if BetweenBraces(s, inside, i) then s[i] else Accent(s[i])
  {
    hide Accent;
    AccentedLength(s, inside);
    assert Accent('{') == '{' && Accent('}') == '}' by { AccentsAre('{'); AccentsAre('}'); }
    if i > 0 {
      var open := s[0] == '{' || (inside && s[0] != '}');
      AccentedExactly(s[1..], open, i - 1);
      assert Accented(s, inside)[i] == Accented(s[1..], open)[i - 1];
      hide Accented;
      BracesMove(s, inside, i);
    }
  }

  lemma BracesMove(s: string, inside: bool, i: nat)
    requires 0 < i < |s|
    ensures BetweenBraces(s, inside, i) <==> BetweenBraces(s[1..], s[0] == '{' || (inside && s[0] != '}'), i - 1)
  {
    var t, open := s[1..], s[0] == '{' || (inside && s[0] != '}');
    assert forall k :: 0 <= k < |t| ==> t[k] == s[k + 1];
    forall j: nat ensures j > 0 ==> (NoneCloses(s, j, i) <==> NoneCloses(t, j - 1, i - 1)) {
      if j > 0 { assert NoneCloses(t, j - 1, i - 1) ==> forall k :: j <= k < i ==> s[k] == t[k - 1]; }
    }
    assert NoneCloses(s, 0, i) <==> s[0] != '}' && NoneCloses(s, 1, i);
    if BetweenBraces(t, open, i - 1) && !NoneCloses(t, 0, i - 1) {
      var j :| 0 <= j < i - 1 && j < |t| && t[j] == '{' && NoneCloses(t, j, i - 1);
      assert s[j + 1] == '{' && NoneCloses(s, j + 1, i);
    }
    if BetweenBraces(s, inside, i) && !(inside && NoneCloses(s, 0, i)) {
      var j :| 0 <= j < i && j < |s| && s[j] == '{' && NoneCloses(s, j, i);
      if j > 0 { assert t[j - 1] == '{' && NoneCloses(t, j - 1, i - 1); }
    }
  }

  lemma {:induction false} AccentedLength(s: string, inside: bool)
    ensures |Accented(s, inside)| == |s|
  {
    hide Accent;
    if s != "" {
      AccentedLength(s[1..], true);
      AccentedLength(s[1..], false);
    }
  }

  lemma {:induction false} PaddingsAre(n: nat)
    ensures |Paddings(n)| == 4 * n && forall c :: c in Paddings(n) ==> c == '•'
  {
    if n > 0 { PaddingsAre(n - 1); }
  }

  /** A derived message opens with a bracket, holds the message letter by letter, accented unless a
      brace is open, and is filled up with bullets before it closes: four at a time, as many times as
      twelve bytes a time make half the characters. */
  lemma PseudoReads(message: string)
    ensures var r, n := Pseudo(message), |message|;
            && |r| >= n + 2 && r[0] == '⟦' && r[|r| - 1] == '⟧'
            && (forall i :: 0 <= i < n ==>
                  r[1 + i] == if BetweenBraces(message, false, i) then message[i] else Accent(message[i]))
            && (forall i :: n < i < |r| - 1 ==> r[i] == '•')
            && var k := (|r| - 2 - n) / 4; |r| == n + 2 + 4 * k && 12 * k - 12 < (n + 1) / 2 <= 12 * k
  {
    AccentedLength(message, false);
    forall i | 0 <= i < |message|
      ensures Accented(message, false)[i] == if BetweenBraces(message, false, i) then message[i] else Accent(message[i])
    {
      AccentedExactly(message, false, i);
    }
    PaddingsAre(PaddingCount(|message|));
    var a, p, r := Accented(message, false), Paddings(PaddingCount(|message|)), Pseudo(message);
    assert r == [OPEN] + a + p + [CLOSE];
    hide Accented, Paddings, Pseudo, Accent, BetweenBraces;
    forall i | |message| < i < |r| - 1 ensures r[i] == '•' {
      assert r[i] == p[i - 1 - |message|] && p[i - 1 - |message|] in p;
    }
  }
}
