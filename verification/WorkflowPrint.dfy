/** Documents as trees, the way they are written, and the proof that reading what was written
    gives the scalars of the tree back. */
module WorkflowPrint {
  import opened Text
  import opened Wrappers
  import opened Workflow

  // ---- Trees -----------------------------------------------------------------------------

  /** A value under a key. Texts are kept as they are written, quotes and all; `deeper` is how much
      deeper than one column what nests under the key is indented. */
  datatype Node =
    | Scalar(text: string, comment: string)
    | Script(deeper: nat, indicator: string, comment: string, lines: seq<string>)
    | Map(deeper: nat, comment: string, fields: seq<Field>)
    | List(deeper: nat, comment: string, items: seq<Item>)

  datatype Field = Field(key: string, node: Node)

  datatype Item = ScalarItem(text: string, comment: string) | MapItem(fields: seq<Field>)

  predicate OneLine(s: string) { '\n' !in s && '\r' !in s }

  predicate Trimmed(s: string) { s != "" ==> !IsSpace(s[0]) && !IsSpace(s[|s| - 1]) }

  /** Which quotes are open after a text. */
  function QuotesAfter(s: string, single: bool, double: bool): (bool, bool) {
    if s == "" then (single, double)
    else QuotesAfter(s[1..], InSingle(s[0], single, double), InDouble(s[0], single, double))
  }

  /** A text that can be written on a line before `comment`: it starts no comment of its own, and
      it leaves no quote open for one that follows. */
  predicate TextValid(text: string, comment: string) {
    OneLine(text) && Trimmed(text) && OneLine(comment) && Trimmed(comment) &&
    CommentIndex(text).None? && (comment != "" ==> QuotesAfter(text, false, false) == (false, false))
  }

  predicate KeyValid(key: string) { key != "" && StartsKey(key[0]) && forall i :: 0 <= i < |key| ==> InKey(key[i]) }

  predicate ScriptLineValid(line: string) {
    OneLine(line) && TrimRight(line) == line && (line != "" ==> TrimSpace(line) != "")
  }

  /** The lines of a block scalar: the first and the last are not blank, and the first says how
      deep the block is. */
  predicate ScriptValid(lines: seq<string>) {
    (forall i :: 0 <= i < |lines| ==> ScriptLineValid(lines[i])) &&
    |lines| > 0 && lines[0] != "" && lines[0][0] != ' ' && lines[|lines| - 1] != ""
  }

  function HeaderText(node: Node): string {
    match node
    case Scalar(text, _) => text
    case Script(_, indicator, _, _) => indicator
    case _ => ""
  }

  predicate NodeValid(node: Node)
    decreases node, 0
  {
    TextValid(HeaderText(node), node.comment) &&
    match node
    case Scalar(text, _) => !IsBlockIndicator(Unquote(text))
    case Script(_, indicator, _, lines) => IsBlockIndicator(indicator) && ScriptValid(lines)
    case Map(_, _, fields) => FieldsValid(fields)
    case List(_, _, items) => ItemsValid(items)
  }

  predicate FieldsValid(fields: seq<Field>)
    decreases fields
  {
    fields == [] || (KeyValid(fields[0].key) && NodeValid(fields[0].node) && FieldsValid(fields[1..]))
  }

  predicate ItemValid(item: Item)
    decreases item, 0
  {
    match item
    case ScalarItem(text, comment) => TextValid(text, comment) && !OpensMapping(text)
    case MapItem(fields) => fields != [] && FieldsValid(fields)
  }

  predicate ItemsValid(items: seq<Item>)
    decreases items
  {
    items == [] || (ItemValid(items[0]) && ItemsValid(items[1..]))
  }

  // ---- Writing a document ----------------------------------------------------------------

  function Spaces(n: nat): (s: string)
    ensures |s| == n && forall i :: 0 <= i < n ==> s[i] == ' '
  {
    seq(n, _ => ' ')
  }

  /** A text and the comment that trails it. */
  function Line(text: string, comment: string): string {
    if comment == "" then text else if text == "" then "# " + comment else text + (" # " + comment)
  }

  function KeyText(key: string, text: string): string { key + (if text == "" then ":" else ": " + text) }

  function FieldText(f: Field): string { Line(KeyText(f.key, HeaderText(f.node)), f.node.comment) }

  function DashText(text: string): string { if text == "" then "-" else "- " + text }

  function ScriptLines(lines: seq<string>, column: nat): (r: seq<string>)
    ensures |r| == |lines|
    ensures forall i :: 0 <= i < |r| ==> r[i] == if lines[i] == "" then "" else Spaces(column) + lines[i]
  {
    seq(|lines|, i requires 0 <= i < |lines| => if lines[i] == "" then "" else Spaces(column) + lines[i])
  }

  /** The lines under a key at `column`. */
  function NodeLines(node: Node, column: nat): (r: seq<string>)
    ensures |r| == Height(node)
    decreases node, 0
  {
    match node
    case Scalar(_, _) => []
    case Script(deeper, _, _, lines) => ScriptLines(lines, column + 1 + deeper)
    case Map(deeper, _, fields) => FieldsLines(fields, column + 1 + deeper)
    case List(deeper, _, items) => ItemsLines(items, column + 1 + deeper)
  }

  function FieldsLines(fields: seq<Field>, column: nat): (r: seq<string>)
    ensures |r| == FieldsHeight(fields)
    decreases fields
  {
    if fields == [] then [] else
      [Spaces(column) + FieldText(fields[0])] + NodeLines(fields[0].node, column) + FieldsLines(fields[1..], column)
  }

  function ItemLines(item: Item, column: nat): (r: seq<string>)
    ensures |r| == ItemHeight(item)
    decreases item, 0
  {
    match item
    case ScalarItem(text, comment) => [Spaces(column) + DashText(Line(text, comment))]
    case MapItem(fields) =>
      if fields == [] then [] else
        [Spaces(column) + DashText(FieldText(fields[0]))] + NodeLines(fields[0].node, column + 2)
        + FieldsLines(fields[1..], column + 2)
  }

  function ItemsLines(items: seq<Item>, column: nat): (r: seq<string>)
    ensures |r| == ItemsHeight(items)
    decreases items
  {
    if items == [] then [] else ItemLines(items[0], column) + ItemsLines(items[1..], column)
  }

  /** How many lines there are under a key. */
  function Height(node: Node): nat
    decreases node, 0
  {
    match node
    case Scalar(_, _) => 0
    case Script(_, _, _, lines) => |lines|
    case Map(_, _, fields) => FieldsHeight(fields)
    case List(_, _, items) => ItemsHeight(items)
  }

  function FieldsHeight(fields: seq<Field>): nat
    decreases fields
  {
    if fields == [] then 0 else 1 + Height(fields[0].node) + FieldsHeight(fields[1..])
  }

  function ItemHeight(item: Item): nat
    decreases item, 0
  {
    match item
    case ScalarItem(_, _) => 1
    case MapItem(fields) => if fields == [] then 0 else 1 + Height(fields[0].node) + FieldsHeight(fields[1..])
  }

  function ItemsHeight(items: seq<Item>): nat
    decreases items
  {
    if items == [] then 0 else ItemHeight(items[0]) + ItemsHeight(items[1..])
  }

  // ---- The scalars of a document ---------------------------------------------------------

  function Value(node: Node): string {
    match node
    case Scalar(text, _) => Unquote(text)
    case Script(_, indicator, _, lines) => Fold(lines, indicator)
    case _ => ""
  }

  function OwnEntry(f: Field, path: string, n: nat): Entry { Entry(path, f.key, Value(f.node), f.node.comment, n) }

  /** A first key of an item whose line holds no value: the reader leaves it open. */
  predicate StaysOpen(node: Node) { Value(node) == "" && !node.Script? }

  /** The scalars under a key, its own line left out, in document order with the numbers of
      their lines. `asRead` asks for what the reader makes of them: there, the other keys of an
      item whose first key stays open belong to that key instead of the item. */
  function ChildEntries(node: Node, path: string, n: nat, asRead: bool): seq<Entry>
    decreases node, 0
  {
    match node
    case Map(_, _, fields) => FieldsEntries(fields, path, n, asRead)
    case List(_, _, items) => ItemsEntries(items, path, 0, n, asRead)
    case _ => []
  }

  function FieldsEntries(fields: seq<Field>, path: string, n: nat, asRead: bool): seq<Entry>
    decreases fields
  {
    if fields == [] then [] else
      var full := Below(path, fields[0].key);
      [OwnEntry(fields[0], full, n)] + ChildEntries(fields[0].node, full, n + 1, asRead)
      + FieldsEntries(fields[1..], path, n + 1 + Height(fields[0].node), asRead)
  }

  function ItemEntries(item: Item, path: string, n: nat, asRead: bool): seq<Entry>
    decreases item, 0
  {
    match item
    case ScalarItem(text, comment) => [Entry(path, "", Unquote(text), comment, n)]
    case MapItem(fields) =>
      if fields == [] then [] else
        var full := path + "." + fields[0].key;
        [OwnEntry(fields[0], full, n)] + ChildEntries(fields[0].node, full, n + 1, asRead)
        + FieldsEntries(fields[1..], if asRead && StaysOpen(fields[0].node) then full else path,
                        n + 1 + Height(fields[0].node), asRead)
  }

  function ItemsEntries(items: seq<Item>, path: string, k: nat, n: nat, asRead: bool): seq<Entry>
    decreases items
  {
    if items == [] then [] else
      ItemEntries(items[0], path + "[" + Itoa(k) + "]", n, asRead)
      + ItemsEntries(items[1..], path, k + 1, n + ItemHeight(items[0]), asRead)
  }

  // ---- One line is read back -------------------------------------------------------------

  lemma {:induction false} SpacesTrim(n: nat, s: string)
    ensures TrimSpace(Spaces(n) + s) == TrimSpace(s)
  {
    if n == 0 {
      assert Spaces(0) + s == s;
    } else {
      assert (Spaces(n) + s)[1..] == Spaces(n - 1) + s;
      SpacesTrim(n - 1, s);
    }
  }

  lemma {:induction false} SpacesLead(n: nat, s: string)
    requires s == "" || s[0] != ' '
    ensures LeadingSpaces(Spaces(n) + s) == n
  {
    if n == 0 {
      assert Spaces(0) + s == s;
    } else {
      assert (Spaces(n) + s)[1..] == Spaces(n - 1) + s;
      SpacesLead(n - 1, s);
    }
  }

  lemma SpaceAfterIsTrimmed(s: string)
    requires Trimmed(s)
    ensures TrimSpace(s + [' ']) == s
  {
    var t := s + [' '];
    assert t[..|t| - 1] == s;
    if s != "" {
      assert t[0] == s[0] && t[|t| - 1] == ' ' && IsSpace(' ');
    } else {
      assert t == [' '] && t[1..] == "";
    }
  }

  /** Whether the character before the end of `s` is blank. */
  predicate EndsBlank(s: string, blank: bool) { if s == "" then blank else IsBlank(s[|s| - 1]) }

  predicate StartsComment(c: char, single: bool, double: bool, blank: bool) {
    c == '#' && !single && !double && blank
  }

  lemma NoCommentFirst(s: string, single: bool, double: bool, blank: bool)
    requires s != "" && CommentFrom(s, single, double, blank).None?
    ensures !StartsComment(s[0], single, double, blank)
  {
  }

  /** A text that starts no comment only moves the scan on. */
  lemma {:induction false} CommentConcat(a: string, b: string, single: bool, double: bool, blank: bool)
    requires CommentFrom(a, single, double, blank).None?
    ensures var after := QuotesAfter(a, single, double);
            CommentFrom(a + b, single, double, blank) ==
            Later(CommentFrom(b, after.0, after.1, EndsBlank(a, blank)), |a|)
  {
    if a == "" {
      assert a + b == b;
    } else {
      hide *;
      NoCommentFirst(a, single, double, blank);
      QuotesMove(a, single, double);
      BlankMoves(a, blank);
      var ab := a + b;
      FirstOfConcat(a, b);
      var s, d, k := InSingle(a[0], single, double), InDouble(a[0], single, double), IsBlank(a[0]);
      CommentMoves(a, single, double, blank);
      LaterIsNone(CommentFrom(a[1..], s, d, k), 1);
      CommentConcat(a[1..], b, s, d, k);
      CommentMoves(ab, single, double, blank);
      var after := QuotesAfter(a, single, double);
      var found := CommentFrom(b, after.0, after.1, EndsBlank(a, blank));
      LaterTwice(found, |a| - 1, 1);
      assert CommentFrom(a[1..] + b, s, d, k) == Later(found, |a| - 1);
    }
  }

  lemma FirstOfConcat(a: string, b: string)
    requires a != ""
    ensures a + b != "" && (a + b)[0] == a[0] && (a + b)[1..] == a[1..] + b
  {
  }

  lemma QuotesMove(s: string, single: bool, double: bool)
    requires s != ""
    ensures QuotesAfter(s, single, double) ==
            QuotesAfter(s[1..], InSingle(s[0], single, double), InDouble(s[0], single, double))
  {
  }

  lemma BlankMoves(s: string, blank: bool)
    requires s != ""
    ensures EndsBlank(s, blank) == EndsBlank(s[1..], IsBlank(s[0]))
  {
  }

  lemma LaterIsNone(r: Option<nat>, n: nat)
    ensures Later(r, n).None? <==> r.None?
  {
  }

  lemma CommentMoves(s: string, single: bool, double: bool, blank: bool)
    requires s != "" && !StartsComment(s[0], single, double, blank)
    ensures CommentFrom(s, single, double, blank) ==
            Later(CommentFrom(s[1..], InSingle(s[0], single, double), InDouble(s[0], single, double), IsBlank(s[0])), 1)
  {
    hide InSingle, InDouble, IsBlank;
  }

  lemma {:induction false} QuotesConcat(a: string, b: string, single: bool, double: bool)
    ensures var (s, d) := QuotesAfter(a, single, double);
            QuotesAfter(a + b, single, double) == QuotesAfter(b, s, d)
  {
    if a == "" {
      assert a + b == b;
    } else {
      assert (a + b)[1..] == a[1..] + b;
      QuotesConcat(a[1..], b, InSingle(a[0], single, double), InDouble(a[0], single, double));
    }
  }

  lemma {:induction false} NoQuotes(s: string, blank: bool)
    requires '#' !in s && '\'' !in s && '"' !in s
    ensures CommentFrom(s, false, false, blank).None? && QuotesAfter(s, false, false) == (false, false)
  {
    if s != "" { NoQuotes(s[1..], IsBlank(s[0])); }
  }

  /** The comment of a written line is found where it was put. */
  lemma LineComment(text: string, comment: string)
    requires TextValid(text, comment)
    ensures comment == "" ==> CommentIndex(Line(text, comment)).None?
    ensures comment != "" ==> CommentIndex(Line(text, comment)) == Some(if text == "" then 0 else |text| + 1)
  {
    if comment != "" && text != "" {
      var tail := " # " + comment;
      assert tail[0] == ' ' && tail[1..][0] == '#';
      CommentConcat(text, tail, false, false, true);
      assert CommentFrom(tail, false, false, IsBlank(text[|text| - 1])) ==
             Later(CommentFrom(tail[1..], false, false, true), 1);
    }
  }

  lemma CommentReads(comment: string)
    requires comment != "" && Trimmed(comment)
    ensures TrimSpace(TrimPrefix(TrimSpace("# " + comment), '#')) == comment
  {
    var c := "# " + comment;
    assert c[0] == '#' && c[|c| - 1] == comment[|comment| - 1] && !IsSpace('#');
    assert TrimSpace(c) == c;
    assert c[1..] == Spaces(1) + comment;
    SpacesTrim(1, comment);
  }

  /** A line is split at its comment: `text` before it, `comment` after the mark. */
  ghost predicate SplitsAt(line: string, text: string, comment: string) {
    var index := CommentIndex(line);
    if index.None? then line == text && comment == "" else
      TrimSpace(line[..index.value]) == text && TrimSpace(TrimPrefix(TrimSpace(line[index.value..]), '#')) == comment
  }

  lemma SplitMappingOf(line: string, text: string, comment: string)
    requires SplitsAt(line, text, comment)
    ensures SplitMapping(line) ==
            if OpensMapping(text)
            then Mapping(text[..KeyLength(text)], Unquote(TrimSpace(text[KeyLength(text) + 1..])), comment)
            else Mapping("", Unquote(text), comment)
  {
    hide CommentIndex, KeyLength, OpensMapping, Unquote, TrimSpace, TrimPrefix;
  }

  lemma LineSplitsAt(text: string, comment: string)
    requires TextValid(text, comment)
    ensures SplitsAt(Line(text, comment), text, comment)
  {
    LineComment(text, comment);
    TextIsTrimmed(text, comment);
    hide CommentIndex, TextValid, TrimSpace, TrimPrefix, Trimmed;
    var line := Line(text, comment);
    if comment != "" {
      CommentReads(comment);
      if text == "" {
        assert line[0..] == line && line[..0] == "";
        NothingToTrim();
      } else {
        SpaceAfterIsTrimmed(text);
        assert line[..|text| + 1] == text + [' '] && line[|text| + 1..] == "# " + comment;
      }
    }
  }

  lemma NothingToTrim()
    ensures TrimSpace("") == ""
  {
  }

  lemma LineSplits(text: string, comment: string)
    requires TextValid(text, comment)
    ensures SplitMapping(Line(text, comment)) ==
            if OpensMapping(text)
            then Mapping(text[..KeyLength(text)], Unquote(TrimSpace(text[KeyLength(text) + 1..])), comment)
            else Mapping("", Unquote(text), comment)
  {
    hide *;
    LineSplitsAt(text, comment);
    SplitMappingOf(Line(text, comment), text, comment);
  }

  lemma TextIsTrimmed(text: string, comment: string)
    requires TextValid(text, comment)
    ensures Trimmed(text) && Trimmed(comment)
  {
  }

  lemma {:induction false} KeyEnds(key: string, rest: string)
    requires (forall i :: 0 <= i < |key| ==> InKey(key[i])) && rest != "" && !InKey(rest[0])
    ensures KeyLength(key + rest) == |key|
  {
    if key == "" {
      assert key + rest == rest;
    } else {
      assert (key + rest)[1..] == key[1..] + rest;
      KeyEnds(key[1..], rest);
    }
  }

  lemma KeyTextOpens(key: string, text: string)
    requires KeyValid(key) && Trimmed(text)
    ensures var body := KeyText(key, text);
            OpensMapping(body) && KeyLength(body) == |key| && body[..|key|] == key &&
            TrimSpace(body[|key| + 1..]) == text
  {
    var body := KeyText(key, text);
    var rest := body[|key|..];
    assert body == key + rest && rest[0] == ':';
    KeyEnds(key, rest);
    if text == "" {
      assert body[|key| + 1..] == "";
    } else {
      assert body[|key| + 1] == ' ';
      assert body[|key| + 1..] == Spaces(1) + text;
      SpacesTrim(1, text);
    }
  }

  lemma KeyIsPlain(key: string)
    requires KeyValid(key)
    ensures forall c :: c in key ==> c !in {'#', '\'', '"', '\n', '\r', ' '} && !IsSpace(c)
  {
    forall c | c in key ensures c !in {'#', '\'', '"', '\n', '\r', ' '} && !IsSpace(c) {
      var i :| 0 <= i < |key| && key[i] == c;
      assert InKey(key[i]);
    }
  }

  lemma KeyTextValid(key: string, text: string, comment: string)
    requires KeyValid(key) && TextValid(text, comment)
    ensures TextValid(KeyText(key, text), comment)
  {
    KeyIsPlain(key);
    var lead := key + (if text == "" then ":" else ": ");
    NoQuotes(lead, true);
    var body := KeyText(key, text);
    assert body == lead + text;
    CommentConcat(lead, text, false, false, true);
    QuotesConcat(lead, text, false, false);
    assert body[0] == key[0];
    assert text == "" ==> body[|body| - 1] == ':';
    assert text != "" ==> body[|body| - 1] == text[|text| - 1] && lead[|lead| - 1] == ' ';
  }

  /** The line of a key gives back the key, the value and the comment. */
  lemma FieldSplits(f: Field)
    requires KeyValid(f.key) && NodeValid(f.node)
    ensures SplitMapping(FieldText(f)) == Mapping(f.key, Unquote(HeaderText(f.node)), f.node.comment)
  {
    var text, comment := HeaderText(f.node), f.node.comment;
    KeyTextValid(f.key, text, comment);
    LineSplits(KeyText(f.key, text), comment);
    TextIsTrimmed(text, comment);
    KeyTextOpens(f.key, text);
  }

  /** A text that starts and ends with something to see. */
  predicate Solid(body: string) {
    body != "" && !IsSpace(body[0]) && !IsSpace(body[|body| - 1]) && body[0] != '#'
  }

  lemma LineIsSolid(text: string, comment: string)
    requires TextValid(text, comment)
    ensures text != "" && text[0] != '#' ==> Solid(Line(text, comment)) && Line(text, comment)[0] == text[0]
    ensures Trimmed(Line(text, comment))
  {
  }

  lemma FieldIsSolid(f: Field)
    requires KeyValid(f.key) && NodeValid(f.node)
    ensures Solid(FieldText(f)) && FieldText(f) != "" && StartsKey(FieldText(f)[0])
  {
    var text, comment := HeaderText(f.node), f.node.comment;
    KeyTextValid(f.key, text, comment);
    LineIsSolid(KeyText(f.key, text), comment);
    assert KeyText(f.key, text)[0] == f.key[0];
  }

  lemma DashIsSolid(text: string)
    requires Trimmed(text)
    ensures Solid(DashText(text)) && IsItem(DashText(text)) && TrimSpace(TrimPrefix(DashText(text), '-')) == text
  {
    if text != "" {
      assert DashText(text)[1..] == Spaces(1) + text;
      SpacesTrim(1, text);
    }
  }

  lemma LineSeen(body: string, d: nat)
    requires Solid(body)
    ensures var raw := Spaces(d) + body;
            TrimRight(raw) == raw && TrimSpace(raw) == body && LeadingSpaces(raw) == d && raw[d..] == body &&
            raw[0] != '\t'
  {
    var raw := Spaces(d) + body;
    assert raw[|raw| - 1] == body[|body| - 1];
    assert raw[0] == if d == 0 then body[0] else ' ';
    SpacesTrim(d, body);
    SpacesLead(d, body);
  }

  /** A line at column `d` is read below the levels it does not close. */
  lemma StepAt(body: string, d: nat, rest: seq<string>, n: nat, stack: Stack)
    requires Solid(body) && !Top(Pop(stack, d)).scalar
    ensures var lines, open := [Spaces(d) + body] + rest, Pop(stack, d);
            Step(lines, n, stack) ==
            if IsItem(body) then StepItem(lines, n, open, d, body) else StepKey(lines, n, open, d, body)
  {
    LineSeen(body, d);
    hide StepItem, StepKey, Pop, TrimRight, TrimSpace, LeadingSpaces, Solid;
    assert body != "" && body[0] != '#' by { SolidSeen(body); }
    var lines := [Spaces(d) + body] + rest;
    assert lines[0] == Spaces(d) + body;
  }

  lemma SolidSeen(body: string)
    requires Solid(body)
    ensures body != "" && body[0] != '#'
  {
  }
}
