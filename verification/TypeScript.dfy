/** The TypeScript types the contract generator emits: their text, and which JSON values
    inhabit them. A type is the list of its alternatives, as a union is written. */
module TypeScript {
  import opened Text

  datatype Atom =
    | Named(name: string)
    | TString
    | TNumber
    | TBoolean
    | TNull
    | StringLiteral(text: string)
    | NumberLiteral(literal: string)
    | ReadonlyArray(element: seq<Atom>)
    | Blank    // a literal whose text is empty

  type Ts = seq<Atom>

  /** A member of an interface. */
  datatype Field = Field(name: string, optional: bool, fieldType: Ts)

  // ---- Text ------------------------------------------------------------------------------

  /** The letter of a two-character escape, if the character has one. */
  function ShortEscape(c: char): string {
    if c == '"' then "\"" else if c == '\\' then "\\" else if c == '\U{08}' then "b" else if c == '\U{0C}' then "f"
    else if c == '\n' then "n" else if c == '\r' then "r" else if c == '\t' then "t" else ""
  }

  predicate LongEscaped(c: char) {
    c < ' ' || c == '<' || c == '>' || c == '&' || c == '\U{2028}' || c == '\U{2029}'
  }

  /** One character of a string as `json.Marshal` writes it. */
  function Escape(c: char): (s: string)
    ensures |s| > 0 && s[0] != '"'
  {
    if ShortEscape(c) != "" then "\\" + ShortEscape(c)
    else if LongEscaped(c) then "\\u" + Hex(c as int, 4, 'a')
    else [c]
  }

  lemma EscapePrefixFree(c: char, d: char, u: string, v: string)
    requires Escape(c) + u == Escape(d) + v
    ensures c == d && u == v
  {
    var x, y := Escape(c) + u, Escape(d) + v;
    assert x[0] == Escape(c)[0] && y[0] == Escape(d)[0];
    assert |Escape(c)| > 1 ==> x[1] == Escape(c)[1];
    assert |Escape(d)| > 1 ==> y[1] == Escape(d)[1];
    assert |Escape(c)| == |Escape(d)|;
    assert Escape(c) == x[..|Escape(c)|] == Escape(d);
    assert u == x[|Escape(c)|..] && v == y[|Escape(d)|..];
    if |Escape(c)| == 6 {
      assert Hex(c as int, 4, 'a') == Escape(c)[2..] && Hex(d as int, 4, 'a') == Escape(d)[2..];
      assert Pow16(2) == 256 && Pow16(4) == 256 * Pow16(2);
      HexInjective(c as int, d as int, 4, 'a');
    }
  }

  function EscapeAll(s: string): string { if s == "" then "" else Escape(s[0]) + EscapeAll(s[1..]) }

  function Quoted(s: string): string { ['"'] + EscapeAll(s) + ['"'] }

  lemma FirstApart(a: string, b: string, c: string, x: string)
    ensures a + b + c + x == a + (b + c + x)
  {
  }

  lemma EscapedHead(s: string, x: string)
    ensures (EscapeAll(s) + ['"'] + x)[0] == (if s == "" then '"' else Escape(s[0])[0])
    ensures s != "" ==> EscapeAll(s) + ['"'] + x == Escape(s[0]) + (EscapeAll(s[1..]) + ['"'] + x)
    ensures s == "" ==> EscapeAll(s) + ['"'] + x == ['"'] + x
  {
    hide Escape;
    if s != "" {
      var first, rest := Escape(s[0]), EscapeAll(s[1..]);
      assert EscapeAll(s) == first + rest;
      hide *;
      FirstApart(first, rest, ['"'], x);
      assert (first + (rest + ['"'] + x))[0] == first[0];
    }
  }

  /** A quoted string ends where its text says it does. */
  lemma {:induction false} QuotedUnique(s: string, t: string, x: string, y: string)
    requires EscapeAll(s) + ['"'] + x == EscapeAll(t) + ['"'] + y
    ensures s == t && x == y
  {
    hide Escape, EscapeAll;
    EscapedHead(s, x);
    EscapedHead(t, y);
    assert s == "" <==> t == "";
    if s != "" {
      EscapePrefixFree(s[0], t[0], EscapeAll(s[1..]) + ['"'] + x, EscapeAll(t[1..]) + ['"'] + y);
      QuotedUnique(s[1..], t[1..], x, y);
      assert s == [s[0]] + s[1..] && t == [t[0]] + t[1..];
    } else {
      assert x == (['"'] + x)[1..] && y == (['"'] + y)[1..];
    }
  }

  const OR := " | "

  function PrintAtom(a: Atom): string
    decreases a, 0
  {
    match a
    case Named(name) => name
    case TString => "string"
    case TNumber => "number"
    case TBoolean => "boolean"
    case TNull => "null"
    case StringLiteral(text) => Quoted(text)
    case NumberLiteral(literal) => literal
    case ReadonlyArray(element) => "ReadonlyArray<" + Print(element) + ">"
    case Blank => ""
  }

  /** The alternatives joined by " | ". */
  function Print(t: Ts): string
    decreases t, 1
  {
    if |t| == 0 then "" else if |t| == 1 then PrintAtom(t[0]) else PrintAtom(t[0]) + OR + Print(t[1..])
  }

  // ---- Reading the text back -------------------------------------------------------------

  predicate IsWordChar(c: char) { c != ' ' && c != '<' && c != '>' && c != '"' }

  predicate IsWord(s: string) { s != "" && forall c :: c in s ==> IsWordChar(c) }

  predicate IdentifierStart(c: char) { 'A' <= c <= 'Z' || 'a' <= c <= 'z' || c == '_' || c == '$' }

  /** `^[A-Za-z_$][A-Za-z0-9_$]*$`. */
  predicate IsIdentifier(s: string) {
    s != "" && IdentifierStart(s[0]) && forall i :: 0 <= i < |s| ==> IdentifierStart(s[i]) || IsDigit(s[i])
  }

  /** What every JSON number token is: it opens with a digit or a minus sign. */
  predicate IsNumberToken(s: string) {
    s != "" && (IsDigit(s[0]) || s[0] == '-') &&
    forall i :: 0 <= i < |s| ==>
      IsDigit(s[i]) || s[i] == '-' || s[i] == '+' || s[i] == '.' || s[i] == 'e' || s[i] == 'E'
  }

  /** The words the printer uses for types that are not interfaces. */
  predicate IsPrimitiveName(s: string) { s == "string" || s == "number" || s == "boolean" || s == "null" }

  /** The other names a module cannot give to an interface that is referred to by its name: those of
      predefined types, the reserved words, the operators on types, and the generic type the
      printer itself uses. */
  const RESERVED := {
    "any", "unknown", "never", "bigint", "symbol", "void", "object", "undefined", "ReadonlyArray",
    "keyof", "infer", "unique", "readonly", "asserts",
    "break", "case", "catch", "class", "const", "continue", "debugger", "default", "delete", "do", "else", "enum",
    "export", "extends", "false", "finally", "for", "function", "if", "import", "in", "instanceof", "new", "return",
    "super", "switch", "this", "throw", "true", "try", "typeof", "var", "while", "with",
    "await", "implements", "interface", "let", "package", "private", "protected", "public", "static", "yield"}

  predicate IsReserved(s: string) { IsPrimitiveName(s) || s in RESERVED }

  predicate WellFormedAtom(a: Atom)
    decreases a, 0
  {
    match a
    case Named(name) => IsIdentifier(name) && !IsPrimitiveName(name)
    case NumberLiteral(literal) => IsNumberToken(literal)
    case ReadonlyArray(element) => WellFormed(element)
    case Blank => false
    case _ => true
  }

  predicate WellFormed(t: Ts)
    decreases t, 1
  {
    |t| > 0 && forall i :: 0 <= i < |t| ==> WellFormedAtom(t[i])
  }

  /** What can follow a type inside a longer text. */
  predicate IsTail(x: string) { x == "" || x[0] == '>' }

  predicate IsBreak(x: string) { x == "" || !IsWordChar(x[0]) }

  /** A word ends at the first character that is not one of its own. */
  lemma WordUnique(v: string, w: string, x: string, y: string)
    requires IsWord(v) && IsWord(w) && IsBreak(x) && IsBreak(y) && v + x == w + y
    ensures v == w && x == y
  {
    var a := v + x;
    assert forall i :: 0 <= i < |v| ==> a[i] == v[i] && v[i] in v;
    assert forall i :: 0 <= i < |w| ==> a[i] == w[i] && w[i] in w;
    assert |v| < |a| ==> a[|v|] == x[0];
    assert |w| < |a| ==> a[|w|] == y[0];
    assert |v| == |w|;
    assert v == a[..|v|] && x == a[|v|..];
  }

  /** The word an atom opens with, and what comes after it. */
  function Head(a: Atom): string {
    match a
    case ReadonlyArray(_) => "ReadonlyArray"
    case StringLiteral(_) => ""
    case _ => PrintAtom(a)
  }

  lemma HeadIsWord(a: Atom)
    requires WellFormedAtom(a) && !a.StringLiteral?
    ensures IsWord(Head(a))
  {
  }

  /** The text after an atom's opening word. */
  function Rest(a: Atom, x: string): string {
    if a.ReadonlyArray? then "<" + (Print(a.element) + (">" + x)) else x
  }

  lemma AtomOpens(a: Atom, x: string)
    requires WellFormedAtom(a) && !a.StringLiteral? && (IsTail(x) || x[0] == ' ')
    ensures PrintAtom(a) + x == Head(a) + Rest(a, x) && IsBreak(Rest(a, x)) && IsWord(Head(a))
    ensures (PrintAtom(a) + x)[0] != '"'
  {
    HeadIsWord(a);
    if a.ReadonlyArray? { ArrayOpens(Print(a.element), x); }
    hide Print, Quoted, WellFormedAtom;
    assert Head(a)[0] in Head(a);
    assert (PrintAtom(a) + x)[0] == Head(a)[0];
  }

  lemma ArrayOpens(element: string, x: string)
    ensures "ReadonlyArray<" + element + ">" + x == "ReadonlyArray" + ("<" + (element + (">" + x)))
  {
    assert "ReadonlyArray<" == "ReadonlyArray" + "<";
    assert "ReadonlyArray<" + element + ">" + x == "ReadonlyArray<" + (element + (">" + x));
  }

  lemma SameHeadSameAtom(a: Atom, b: Atom)
    requires WellFormedAtom(a) && WellFormedAtom(b) && !a.StringLiteral? && !b.StringLiteral?
    requires Head(a) == Head(b) && !a.ReadonlyArray? && !b.ReadonlyArray?
    ensures a == b
  {
    hide Print, Quoted;
    assert a.Named? ==> IdentifierStart(Head(a)[0]) && !IsPrimitiveName(Head(a));
    assert b.Named? ==> IdentifierStart(Head(b)[0]) && !IsPrimitiveName(Head(b));
  }

  lemma LiteralOpens(text: string, x: string)
    ensures (PrintAtom(StringLiteral(text)) + x)[0] == '"'
    ensures (PrintAtom(StringLiteral(text)) + x)[1..] == EscapeAll(text) + ['"'] + x
  {
    hide EscapeAll;
  }

  lemma LiteralUnique(a: Atom, b: Atom, x: string, y: string)
    requires WellFormedAtom(a) && WellFormedAtom(b) && (a.StringLiteral? || b.StringLiteral?)
    requires (IsTail(x) || x[0] == ' ') && (IsTail(y) || y[0] == ' ')
    requires PrintAtom(a) + x == PrintAtom(b) + y
    ensures a == b && x == y
  {
    hide PrintAtom, EscapeAll, WellFormedAtom;
    if a.StringLiteral? { LiteralOpens(a.text, x); } else { AtomOpens(a, x); }
    if b.StringLiteral? { LiteralOpens(b.text, y); } else { AtomOpens(b, y); }
    QuotedUnique(a.text, b.text, x, y);
  }

  lemma {:induction false} AtomUnique(a: Atom, b: Atom, x: string, y: string)
    requires WellFormedAtom(a) && WellFormedAtom(b)
    requires (IsTail(x) || x[0] == ' ') && (IsTail(y) || y[0] == ' ')
    requires PrintAtom(a) + x == PrintAtom(b) + y
    ensures a == b && x == y
    decreases a, 0
  {
    if a.StringLiteral? || b.StringLiteral? {
      LiteralUnique(a, b, x, y);
    } else {
      hide Print, Quoted, WellFormed, PrintAtom, Head;
      AtomOpens(a, x);
      AtomOpens(b, y);
      WordUnique(Head(a), Head(b), Rest(a, x), Rest(b, y));
      if a.ReadonlyArray? && b.ReadonlyArray? {
        assert Rest(a, x)[1..] == Print(a.element) + (">" + x) && Rest(b, y)[1..] == Print(b.element) + (">" + y);
        TypeUnique(a.element, b.element, ">" + x, ">" + y);
        assert x == (">" + x)[1..] && y == (">" + y)[1..];
      } else {
        SameHeadSameAtom(a, b);
      }
    }
  }

  /** The text after the first alternative. */
  function More(t: Ts, x: string): string
    requires |t| > 0
  {
    if |t| == 1 then x else OR + (Print(t[1..]) + x)
  }

  lemma Regrouped(a: string, b: string, c: string, x: string)
    ensures a + b + c + x == a + (b + (c + x))
  {
    assert a + b + c + x == a + (b + c + x);
    assert b + c + x == b + (c + x);
  }

  lemma TypeOpens(t: Ts, x: string)
    requires |t| > 0 && IsTail(x)
    ensures Print(t) + x == PrintAtom(t[0]) + More(t, x)
    ensures IsTail(More(t, x)) <==> |t| == 1
    ensures |t| > 1 ==> More(t, x)[0] == ' ' && More(t, x)[3..] == Print(t[1..]) + x
  {
    hide PrintAtom;
    if |t| > 1 {
      assert Print(t) == PrintAtom(t[0]) + OR + Print(t[1..]);
      assert More(t, x) == OR + (Print(t[1..]) + x);
      hide *;
      Regrouped(PrintAtom(t[0]), OR, Print(t[1..]), x);
      OrOpens(Print(t[1..]) + x);
    }
  }

  lemma OrOpens(x: string)
    ensures !IsTail(OR + x) && (OR + x)[0] == ' ' && (OR + x)[3..] == x
  {
  }

  lemma MoreShape(t: Ts, x: string)
    requires |t| > 0
    ensures |t| == 1 ==> More(t, x) == x
    ensures |t| > 1 ==> |More(t, x)| >= 3
  {
    hide Print;
  }

  lemma FirstWellFormed(t: Ts)
    requires WellFormed(t)
    ensures |t| > 0 && WellFormedAtom(t[0]) && (|t| > 1 ==> WellFormed(t[1..]))
  {
    hide WellFormedAtom;
  }

  lemma {:induction false} TypeUnique(s: Ts, t: Ts, x: string, y: string)
    requires WellFormed(s) && WellFormed(t) && IsTail(x) && IsTail(y)
    requires Print(s) + x == Print(t) + y
    ensures s == t && x == y
    decreases s, 1
  {
    hide *;
    FirstWellFormed(s);
    FirstWellFormed(t);
    TypeOpens(s, x);
    TypeOpens(t, y);
    AtomUnique(s[0], t[0], More(s, x), More(t, y));
    MoreShape(s, x);
    MoreShape(t, y);
    if |s| > 1 {
      TypeUnique(s[1..], t[1..], x, y);
      assert s == [s[0]] + s[1..] && t == [t[0]] + t[1..];
    } else {
      assert s == [s[0]] && t == [t[0]];
    }
  }

  /** Two types with the same text are the same type: removing a repeat by its text removes
      nothing else. */
  lemma PrintInjective(s: Ts, t: Ts)
    requires WellFormed(s) && WellFormed(t) && Print(s) == Print(t)
    ensures s == t
  {
    assert Print(s) + "" == Print(s) && Print(t) + "" == Print(t);
    TypeUnique(s, t, "", "");
  }

  // ---- What the text says ----------------------------------------------------------------

  /** The text of a union is the texts of its alternatives with bars between them. */
  lemma {:induction false} UnionText(s: Ts, t: Ts)
    requires s != [] && t != []
    ensures Print(s + t) == Print(s) + " | " + Print(t)
  {
    hide PrintAtom;
    if |s| == 1 {
      assert s + t == [s[0]] + t && (s + t)[1..] == t;
    } else {
      assert (s + t)[0] == s[0] && (s + t)[1..] == s[1..] + t;
      UnionText(s[1..], t);
      assert PrintAtom(s[0]) + " | " + (Print(s[1..]) + " | " + Print(t)) ==
             PrintAtom(s[0]) + " | " + Print(s[1..]) + " | " + Print(t);
    }
  }

  /** The texts of single types. */
  lemma AtomText(name: string, literal: string, element: Ts)
    ensures Print([TString]) == "string" && Print([TNumber]) == "number" && Print([TBoolean]) == "boolean"
    ensures Print([TNull]) == "null" && Print([Named(name)]) == name && Print([NumberLiteral(literal)]) == literal
    ensures Print([ReadonlyArray(element)]) == "ReadonlyArray<" + Print(element) + ">"
    ensures Print([StringLiteral(name)]) == ['"'] + EscapeAll(name) + ['"']
  {
    hide EscapeAll;
  }

  /** Reading the inside of a string literal: sections 7 and 8 of RFC 8259. */
  function ReadText(s: string): string
    decreases |s|
  {
    if s == "" then ""
    else if s[0] != '\\' || |s| == 1 then [s[0]] + ReadText(s[1..])
    else if s[1] == 'u' && |s| >= 6 then [ReadUnit(s[2..6])] + ReadText(s[6..])
    else [if s[1] == 'b' then '\U{08}' else if s[1] == 'f' then '\U{0C}' else if s[1] == 'n' then '\n'
          else if s[1] == 'r' then '\r' else if s[1] == 't' then '\t' else s[1]] + ReadText(s[2..])
  }

  /** Four hexadecimal digits. */
  function ReadUnit(s: string): char
    requires |s| == 4
  {
    var v := 4096 * HexDigitValue(s[0], 'a') + 256 * HexDigitValue(s[1], 'a') + 16 * HexDigitValue(s[2], 'a') +
             HexDigitValue(s[3], 'a');
    if 0 <= v < 0xD800 then v as char else if 0xE000 <= v < 0x1_0000 then v as char else ' '
  }

  lemma UnitReadsBack(n: nat)
    requires n < 0x1_0000
    ensures var s := Hex(n, 4, 'a');
            4096 * HexDigitValue(s[0], 'a') + 256 * HexDigitValue(s[1], 'a') + 16 * HexDigitValue(s[2], 'a') +
            HexDigitValue(s[3], 'a') == n
  {
    forall d: nat | d < 16 ensures HexDigitValue(HexDigit(d, 'a'), 'a') == d {}
    hide HexDigit, HexDigitValue;
    var a, b, c := n / 16, n / 256, n / 4096;
    assert b == a / 16 && c == b / 16;
    HexLast(n, 4);
    HexLast(a, 3);
    HexLast(b, 2);
    HexLast(c, 1);
  }

  lemma HexLast(n: nat, width: nat)
    requires width > 0
    ensures Hex(n, width, 'a') == Hex(n / 16, width - 1, 'a') + [HexDigit(n % 16, 'a')]
  {
  }

  lemma LongReadsBack(c: char, rest: string)
    requires LongEscaped(c)
    ensures ReadText("\\u" + Hex(c as int, 4, 'a') + rest) == [c] + ReadText(rest)
  {
    var hex := Hex(c as int, 4, 'a');
    UnitReadsBack(c as int);
    assert ReadUnit(hex) == c;
    hide Hex, HexDigitValue, ReadUnit, LongEscaped;
    var s := "\\u" + hex + rest;
    assert s[0] == '\\' && s[1] == 'u' && s[2..6] == hex && s[6..] == rest;
  }

  lemma ShortReadsBack(c: char, rest: string)
    requires ShortEscape(c) != ""
    ensures ReadText("\\" + ShortEscape(c) + rest) == [c] + ReadText(rest)
  {
    var s := "\\" + ShortEscape(c) + rest;
    assert s[0] == '\\' && s[1] == ShortEscape(c)[0] && s[2..] == rest;
    hide ReadUnit;
  }

  lemma EscapeReadsBack(c: char, rest: string)
    ensures ReadText(Escape(c) + rest) == [c] + ReadText(rest)
  {
    hide Hex, ReadUnit;
    if ShortEscape(c) != "" {
      ShortReadsBack(c, rest);
    } else if LongEscaped(c) {
      LongReadsBack(c, rest);
    } else {
      assert (Escape(c) + rest)[0] == c && (Escape(c) + rest)[1..] == rest;
    }
  }

  /** A string literal reads back as its text. */
  lemma {:induction false} LiteralReadsBack(s: string)
    ensures ReadText(EscapeAll(s)) == s
  {
    if s != "" {
      LiteralReadsBack(s[1..]);
      EscapeReadsBack(s[0], EscapeAll(s[1..]));
      assert s == [s[0]] + s[1..];
    }
  }

  /** What never stands in a literal as it is: a control character, a character that could open
      markup, a line separator. */
  lemma {:induction false} LiteralIsSafe(s: string)
    ensures forall c :: c in EscapeAll(s) ==> ' ' <= c && c !in {'<', '>', '&', '\U{2028}', '\U{2029}'}
  {
    if s != "" {
      LiteralIsSafe(s[1..]);
      EscapeIsSafe(s[0]);
      hide Escape;
      assert EscapeAll(s) == Escape(s[0]) + EscapeAll(s[1..]);
    }
  }

  lemma EscapeIsSafe(c: char)
    ensures forall d :: d in Escape(c) ==> ' ' <= d && d !in {'<', '>', '&', '\U{2028}', '\U{2029}'}
  {
    HexIsPlain(if c < '\U{10000}' then c as int else 0, 4);
    hide Hex;
  }

  lemma {:induction false} HexIsPlain(n: nat, width: nat)
    ensures forall d :: d in Hex(n, width, 'a') ==> '0' <= d <= 'f' && d !in {'<', '>'}
  {
    if width > 0 { HexIsPlain(n / 16, width - 1); }
  }
}
