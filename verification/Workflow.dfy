/** The reader of workflow files: a strict, indentation-based subset of YAML, read line by line
    with a stack of open nesting levels into scalars addressed by path. */
module Workflow {
  import opened Text
  import opened Wrappers

  /** One scalar, addressed by its path. */
  datatype Entry = Entry(path: string, key: string, value: string, comment: string, line: nat)

  /** An open level: the indentation that opened it, the path it addresses, whether its value was
      a scalar, and how many items of a list it has emitted. */
  datatype Frame = Frame(indent: int, path: string, scalar: bool, items: nat)

  datatype Refusal = TabIndents(line: nat) | NestedUnderScalar(line: nat) | OpensNoMapping(line: nat)

  /** Indentations rise strictly from the root to the innermost open level. */
  predicate Ascending(frames: seq<Frame>) {
    |frames| > 0 && frames[0].indent == -1 &&
    forall i, j :: 0 <= i < j < |frames| ==> frames[i].indent < frames[j].indent
  }

  /** Every stack the reader holds, whatever it reads. */
  type Stack = frames: seq<Frame> | Ascending(frames) witness [Frame(-1, "", false, 0)]

  const ROOT: Stack := [Frame(-1, "", false, 0)]

  function Top(stack: Stack): Frame { stack[|stack| - 1] }

  /** Closes the levels that are not above a line at `indent`. */
  function Pop(stack: Stack, indent: nat): (r: Stack)
    ensures r <= stack && Top(r).indent < indent
    ensures |r| < |stack| ==> stack[|r|].indent >= indent
  {
    if |stack| > 1 && Top(stack).indent >= indent then Pop(stack[..|stack| - 1], indent) else stack
  }

  /** Opens a level above the top one. */
  function Push(stack: Stack, frame: Frame): (r: Stack)
    requires Top(stack).indent < frame.indent
  {
    stack + [frame]
  }

  /** Counts one more item of the list the top level holds. */
  function Bump(stack: Stack): (r: Stack)
    ensures |r| == |stack| && r[..|r| - 1] == stack[..|stack| - 1]
    ensures Top(r) == Top(stack).(items := Top(stack).items + 1)
  {
    stack[|stack| - 1 := Top(stack).(items := Top(stack).items + 1)]
  }

  // ---- Lines -----------------------------------------------------------------------------

  predicate IsBlank(c: char) { c == ' ' || c == '\t' }

  function TrimRight(s: string): (r: string)
    ensures |r| <= |s| && r == s[..|r|] && (r != "" ==> !IsBlank(r[|r| - 1]))
  {
    if s != "" && IsBlank(s[|s| - 1]) then TrimRight(s[..|s| - 1]) else s
  }

  function LeadingSpaces(s: string): (n: nat)
    ensures n <= |s| && (forall i :: 0 <= i < n ==> s[i] == ' ') && (n < |s| ==> s[n] != ' ')
  {
    if s == "" || s[0] != ' ' then 0 else 1 + LeadingSpaces(s[1..])
  }

  /** Whether single quotes are open after `c`, and double ones. */
  predicate InSingle(c: char, single: bool, double: bool) { if c == '\'' && !double then !single else single }

  predicate InDouble(c: char, single: bool, double: bool) { if c == '"' && !single then !double else double }

  /** The `#` that starts a comment: after a blank or at the start, and outside quotes. */
  function CommentFrom(s: string, single: bool, double: bool, afterBlank: bool): (r: Option<nat>)
    ensures r.Some? ==> r.value < |s| && s[r.value] == '#'
  {
    if s == "" then None
    else if s[0] == '#' && !single && !double && afterBlank then Some(0)
    else
      match CommentFrom(s[1..], InSingle(s[0], single, double), InDouble(s[0], single, double), IsBlank(s[0]))
      case Some(n) => Some(n + 1)
      case None => None
  }

  function CommentIndex(s: string): Option<nat> { CommentFrom(s, false, false, true) }

  method FindComment(line: string) returns (index: Option<nat>)
    ensures index == CommentIndex(line)
  {
    hide IsBlank;
    var single, double := false, false;
    assert line[0..] == line;
    for i := 0 to |line|
      invariant CommentIndex(line) ==
                Later(CommentFrom(line[i..], single, double, i == 0 || IsBlank(line[i - 1])), i)
    {
      ghost var rest := line[i..];
      assert rest[0] == line[i] && rest[1..] == line[i + 1..];
      LaterTwice(CommentFrom(rest[1..], InSingle(line[i], single, double), InDouble(line[i], single, double),
                             IsBlank(line[i])), 1, i);
      if line[i] == '\'' {
        if !double { single := !single; }
      } else if line[i] == '"' {
        if !single { double := !double; }
      } else if line[i] == '#' {
        if !single && !double && (i == 0 || IsBlank(line[i - 1])) { return Some(i); }
      }
    }
    index := None;
  }

  predicate IsLetter(c: char) { 'A' <= c <= 'Z' || 'a' <= c <= 'z' }

  predicate StartsKey(c: char) { IsLetter(c) || c == '_' }

  predicate InKey(c: char) { StartsKey(c) || IsDigit(c) || c == '.' || c == '-' }

  predicate IsPatternSpace(c: char) { c == '\t' || c == '\n' || c == '\U{0C}' || c == '\r' || c == ' ' }

  function KeyLength(s: string): (n: nat)
    ensures n <= |s| && (forall i :: 0 <= i < n ==> InKey(s[i])) && (n < |s| ==> !InKey(s[n]))
  {
    if s == "" || !InKey(s[0]) then 0 else 1 + KeyLength(s[1..])
  }

  /** Whether a text starts with a name, a colon, and a space or the end. */
  predicate OpensMapping(body: string) {
    var n := KeyLength(body);
    0 < n < |body| && StartsKey(body[0]) && body[n] == ':' && (n + 1 == |body| || IsPatternSpace(body[n + 1]))
  }

  function Unquote(v: string): string {
    if |v| >= 2 && (v[0] == '\'' == v[|v| - 1] || v[0] == '"' == v[|v| - 1]) then v[1..|v| - 1] else v
  }

  predicate IsBlockIndicator(value: string) { value != "" && (value[0] == '|' || value[0] == '>') }

  function TrimPrefix(s: string, c: char): string { if s != "" && s[0] == c then s[1..] else s }

  /** One line as `key: value # comment`; the key of a bare scalar is empty. */
  datatype Mapping = Mapping(key: string, value: string, comment: string)

  function SplitMapping(line: string): Mapping {
    var index := CommentIndex(line);
    var body := if index.Some? then TrimSpace(line[..index.value]) else line;
    var comment := if index.Some? then TrimSpace(TrimPrefix(TrimSpace(line[index.value..]), '#')) else "";
    if OpensMapping(body)
    then Mapping(body[..KeyLength(body)], Unquote(TrimSpace(body[KeyLength(body) + 1..])), comment)
    else Mapping("", Unquote(body), comment)
  }

  // ---- Block scalars ---------------------------------------------------------------------

  datatype Block = Block(body: seq<string>, used: nat)

  /** The lines deeper than the key, blank ones included, up to the first that is not as deep as
      the first of them. A negative `blockIndent` means that no line was seen yet. */
  function BlockLines(lines: seq<string>, keyIndent: nat, blockIndent: int): (b: Block)
    ensures b.used == |b.body| <= |lines|
  {
    if lines == [] then Block([], 0)
    else
      var line := TrimRight(lines[0]);
      var indent := LeadingSpaces(line);
      if TrimSpace(line) == "" then
        var more := BlockLines(lines[1..], keyIndent, blockIndent);
        Block([""] + more.body, 1 + more.used)
      else if indent <= keyIndent || indent < blockIndent then Block([], 0)
      else
        var column := if blockIndent < 0 then indent else blockIndent;
        var more := BlockLines(lines[1..], keyIndent, column);
        Block([line[column..]] + more.body, 1 + more.used)
  }

  function DropTrailingBlank(body: seq<string>): (r: seq<string>)
    ensures |r| <= |body| && r == body[..|r|]
  {
    if body != [] && TrimSpace(body[|body| - 1]) == "" then DropTrailingBlank(body[..|body| - 1]) else body
  }

  /** The block scalar under a key, and how many lines it takes. */
  function ReadBlock(lines: seq<string>, keyIndent: nat): (b: Block)
    ensures b.used <= |lines|
  {
    var all := BlockLines(lines, keyIndent, -1);
    Block(DropTrailingBlank(all.body), all.used)
  }

  /** `|` keeps the newlines of a block, `>` folds them. */
  function Fold(lines: seq<string>, indicator: string): string {
    if indicator != "" && indicator[0] == '>' then TrimSpace(Join(lines, ' ')) else Join(lines, '\n')
  }

  /** The loop that collects the lines of a block scalar. */
  method CollectBlock(lines: seq<string>, start: nat, keyIndent: nat) returns (body: seq<string>, j: nat)
    requires start < |lines|
    ensures var b := BlockLines(lines[start + 1..], keyIndent, -1);
            body == b.body && j == start + 1 + b.used
  {
    hide TrimRight, TrimSpace, LeadingSpaces, BlockLines;
    body := [];
    var blockIndent := -1;
    j := start + 1;
    ghost var whole := BlockLines(lines[start + 1..], keyIndent, -1).body;
    while j < |lines|
      invariant start < j <= |lines| && |body| == j - start - 1
      invariant whole == body + BlockLines(lines[j..], keyIndent, blockIndent).body
    {
      BlockUnfolds(lines[j..], keyIndent, blockIndent);
      assert lines[j..][1..] == lines[j + 1..];
      var line := TrimRight(lines[j]);
      if TrimSpace(line) == "" {
        BlockStep(body, "", BlockLines(lines[j + 1..], keyIndent, blockIndent).body);
        body, j := body + [""], j + 1;
        continue;
      }
      var indent := LeadingSpaces(line);
      if indent <= keyIndent { break; }
      if blockIndent < 0 { blockIndent := indent; }
      if indent < blockIndent { break; }
      BlockStep(body, line[blockIndent..], BlockLines(lines[j + 1..], keyIndent, blockIndent).body);
      body, j := body + [line[blockIndent..]], j + 1;
    }
    if j == |lines| { NoBlockLines(keyIndent, blockIndent); }
    assert body + [] == body;
  }

  lemma NoBlockLines(keyIndent: nat, blockIndent: int)
    ensures BlockLines([], keyIndent, blockIndent).body == []
  {
  }

  /** What the first line contributes. */
  lemma BlockUnfolds(lines: seq<string>, keyIndent: nat, blockIndent: int)
    requires lines != []
    ensures var line, all := TrimRight(lines[0]), BlockLines(lines, keyIndent, blockIndent).body;
            var indent := LeadingSpaces(line);
            var column := if blockIndent < 0 then indent else blockIndent;
            all == if TrimSpace(line) == "" then [""] + BlockLines(lines[1..], keyIndent, blockIndent).body
                   else if indent <= keyIndent || indent < blockIndent then []
                   else [line[column..]] + BlockLines(lines[1..], keyIndent, column).body
  {
    hide TrimRight, TrimSpace, LeadingSpaces;
  }

  lemma BlockStep(done: seq<string>, line: string, more: seq<string>)
    ensures done + ([line] + more) == (done + [line]) + more
  {
  }

  method EmitBlock(lines: seq<string>, start: nat, keyIndent: nat) returns (body: seq<string>, next: nat)
    requires start < |lines|
    ensures var b := ReadBlock(lines[start + 1..], keyIndent);
            body == b.body && next == start + 1 + b.used
  {
    body, next := CollectBlock(lines, start, keyIndent);
    ghost var whole := body;
    while |body| > 0 && TrimSpace(body[|body| - 1]) == ""
      invariant DropTrailingBlank(body) == DropTrailingBlank(whole)
    {
      body := body[..|body| - 1];
    }
  }

  // ---- One line --------------------------------------------------------------------------

  /** What one line does: nothing, a refusal, or an entry, the stack after it and how many lines
      it took. */
  datatype Outcome = Skip | Refuse(reason: Refusal) | Emit(entry: Entry, stack: Stack, used: nat)

  predicate IsItem(body: string) { body == "-" || (|body| >= 2 && body[0] == '-' && body[1] == ' ') }

  function ItemPath(parent: Frame): string { parent.path + "[" + Itoa(parent.items) + "]" }

  function Below(path: string, key: string): string { if path == "" then key else path + "." + key }

  function StepItem(lines: seq<string>, n: nat, stack: Stack, indent: nat, body: string): (o: Outcome)
    requires lines != [] && Top(stack).indent < indent
    ensures o.Emit? && 0 < o.used <= |lines|
  {
    var path := ItemPath(Top(stack));
    var m := SplitMapping(TrimSpace(TrimPrefix(body, '-')));
    var open := Bump(stack);
    if m.key == "" then
      Emit(Entry(path, "", m.value, m.comment, n), Push(open, Frame(indent, path, true, 0)), 1)
    else if IsBlockIndicator(m.value) then
      var b := ReadBlock(lines[1..], indent);
      Emit(Entry(path + "." + m.key, m.key, Fold(b.body, m.value), m.comment, n),
           Push(open, Frame(indent, path, false, 0)), 1 + b.used)
    else
      var item := Push(open, Frame(indent, path, false, 0));
      Emit(Entry(path + "." + m.key, m.key, m.value, m.comment, n),
           if m.value == "" then Push(item, Frame(indent + 1, path + "." + m.key, false, 0)) else item, 1)
  }

  function StepKey(lines: seq<string>, n: nat, stack: Stack, indent: nat, body: string): (o: Outcome)
    requires lines != [] && Top(stack).indent < indent
    ensures o.Emit? ==> 0 < o.used <= |lines|
    ensures !o.Skip?
  {
    var m := SplitMapping(body);
    var path := Below(Top(stack).path, m.key);
    if m.key == "" then Refuse(OpensNoMapping(n))
    else if IsBlockIndicator(m.value) then
      var b := ReadBlock(lines[1..], indent);
      Emit(Entry(path, m.key, Fold(b.body, m.value), m.comment, n), Push(stack, Frame(indent, path, true, 0)),
           1 + b.used)
    else
      Emit(Entry(path, m.key, m.value, m.comment, n), Push(stack, Frame(indent, path, m.value != "", 0)), 1)
  }

  function Step(lines: seq<string>, n: nat, stack: Stack): (o: Outcome)
    requires lines != []
    ensures o.Emit? ==> 0 < o.used <= |lines|
  {
    var raw := TrimRight(lines[0]);
    var content := TrimSpace(raw);
    if content == "" || content[0] == '#' then Skip
    else if raw[0] == '\t' then Refuse(TabIndents(n))
    else
      var indent := LeadingSpaces(raw);
      var open := Pop(stack, indent);
      if Top(open).scalar then Refuse(NestedUnderScalar(n))
      else if IsItem(raw[indent..]) then StepItem(lines, n, open, indent, raw[indent..])
      else StepKey(lines, n, open, indent, raw[indent..])
  }

  // ---- A whole file ----------------------------------------------------------------------

  type Reading = Result<seq<Entry>, Refusal>

  /** The entries of the lines from number `n` on, or the first refusal. */
  function ReadFrom(lines: seq<string>, n: nat, stack: Stack): Reading
    decreases |lines|
  {
    if lines == [] then Ok([])
    else
      match Step(lines, n, stack)
      case Skip => ReadFrom(lines[1..], n + 1, stack)
      case Refuse(reason) => Err(reason)
      case Emit(entry, next, used) => Before([entry], ReadFrom(lines[used..], n + used, next))
  }

  /** Windows line ends become newlines. */
  function NormalizeNewlines(s: string): string {
    if s == "" then "" else if s[0] == '\r' && |s| > 1 && s[1] == '\n' then ['\n'] + NormalizeNewlines(s[2..])
    else [s[0]] + NormalizeNewlines(s[1..])
  }

  function Parse(text: string): Reading { ReadFrom(Split(NormalizeNewlines(text), '\n'), 1, ROOT) }

  /** The loop that closes levels. */
  method Unwind(stack: Stack, indent: nat) returns (open: Stack)
    ensures open == Pop(stack, indent)
  {
    open := stack;
    while |open| > 1 && open[|open| - 1].indent >= indent
      invariant Pop(open, indent) == Pop(stack, indent)
      decreases |open|
    {
      open := open[..|open| - 1];
    }
  }

  /** The body of the loop over lines; the stack is updated in place there. */
  method ReadLine(lines: seq<string>, i: nat, before: Stack) returns (o: Outcome)
    requires i < |lines|
    ensures o == Step(lines[i..], i + 1, before)
  {
    hide SplitMapping, TrimSpace, TrimRight, LeadingSpaces, Pop, StepItem, StepKey, IsItem;
    assert lines[i..][0] == lines[i];
    var raw := TrimRight(lines[i]);
    var content := TrimSpace(raw);
    if content == "" || content[0] == '#' { return Skip; }
    if raw[0] == '\t' { return Refuse(TabIndents(i + 1)); }
    var indent := LeadingSpaces(raw);
    var body := raw[indent..];
    var stack := Unwind(before, indent);
    if Top(stack).scalar { return Refuse(NestedUnderScalar(i + 1)); }
    if IsItem(body) {
      o := ReadItemLine(lines, i, stack, indent, body);
    } else {
      o := ReadKeyLine(lines, i, stack, indent, body);
    }
  }

  /** The branch for an item of a list. */
  method ReadItemLine(lines: seq<string>, i: nat, open: Stack, indent: nat, body: string) returns (o: Outcome)
    requires i < |lines| && Top(open).indent < indent
    ensures o == StepItem(lines[i..], i + 1, open, indent, body)
  {
    hide SplitMapping, TrimSpace, TrimPrefix, ReadBlock, Fold, ItemPath, IsBlockIndicator;
    assert lines[i..][1..] == lines[i + 1..];
    var item := TrimSpace(TrimPrefix(body, '-'));
    var itemPath := ItemPath(Top(open));
    var stack := Bump(open);
    var m := SplitMapping(item);
    if m.key == "" {
      return Emit(Entry(itemPath, "", m.value, m.comment, i + 1), Push(stack, Frame(indent, itemPath, true, 0)), 1);
    }
    if IsBlockIndicator(m.value) {
      var block, next := EmitBlock(lines, i, indent);
      return Emit(Entry(itemPath + "." + m.key, m.key, Fold(block, m.value), m.comment, i + 1),
                  Push(stack, Frame(indent, itemPath, false, 0)), next - i);
    }
    stack := Push(stack, Frame(indent, itemPath, false, 0));
    if m.value == "" { stack := Push(stack, Frame(indent + 1, itemPath + "." + m.key, false, 0)); }
    return Emit(Entry(itemPath + "." + m.key, m.key, m.value, m.comment, i + 1), stack, 1);
  }

  /** The branch for a key of a mapping. */
  method ReadKeyLine(lines: seq<string>, i: nat, stack: Stack, indent: nat, body: string) returns (o: Outcome)
    requires i < |lines| && Top(stack).indent < indent
    ensures o == StepKey(lines[i..], i + 1, stack, indent, body)
  {
    hide SplitMapping, ReadBlock, Fold, IsBlockIndicator;
    assert lines[i..][1..] == lines[i + 1..];
    var m := SplitMapping(body);
    if m.key == "" { return Refuse(OpensNoMapping(i + 1)); }
    var full := m.key;
    if Top(stack).path != "" { full := Top(stack).path + "." + m.key; }
    if IsBlockIndicator(m.value) {
      var block, next := EmitBlock(lines, i, indent);
      return Emit(Entry(full, m.key, Fold(block, m.value), m.comment, i + 1),
                  Push(stack, Frame(indent, full, true, 0)), next - i);
    }
    return Emit(Entry(full, m.key, m.value, m.comment, i + 1), Push(stack, Frame(indent, full, m.value != "", 0)), 1);
  }

  method ParseWorkflow(text: string) returns (r: Reading)
    ensures r == Parse(text)
  {
    hide Step;
    var lines := Split(NormalizeNewlines(text), '\n');
    var entries: seq<Entry> := [];
    var stack := ROOT;
    var i := 0;
    BeforeNothing(ReadFrom(lines, 1, ROOT));
    assert lines[0..] == lines;
    while i < |lines|
      invariant i <= |lines|
      invariant Before(entries, ReadFrom(lines[i..], i + 1, stack)) == ReadFrom(lines, 1, ROOT)
    {
      assert lines[i..][1..] == lines[i + 1..];
      var o := ReadLine(lines, i, stack);
      match o
      case Skip => i := i + 1;
      case Refuse(reason) => return Err(reason);
      case Emit(entry, next, used) =>
        assert lines[i..][used..] == lines[i + used..];
        BeforeTwice(entries, [entry], ReadFrom(lines[i + used..], i + 1 + used, next));
        entries := entries + [entry];
        stack := next;
        i := i + used;
    }
    assert entries + [] == entries;
    r := Ok(entries);
  }
}
