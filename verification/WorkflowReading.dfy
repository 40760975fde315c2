/** Reading a written document: every line gives the scalar it was written for, and the stack
    comes back to the level the line was written at. */
module WorkflowReading {
  import opened Text
  import opened Wrappers
  import opened Workflow
  import opened WorkflowPrint

  // ---- Levels ----------------------------------------------------------------------------

  /** The same open level, up to the items it has counted. */
  ghost predicate SameLevel(a: Stack, b: Stack) {
    |a| == |b| && a[..|a| - 1] == b[..|b| - 1] && Top(a) == Top(b).(items := Top(a).items)
  }

  lemma {:induction false} PopTwice(stack: Stack, d: nat, e: nat)
    requires e <= d
    ensures Pop(Pop(stack, d), e) == Pop(stack, e)
    decreases |stack|
  {
    if |stack| > 1 && Top(stack).indent >= d { PopTwice(stack[..|stack| - 1], d, e); }
  }

  lemma PopLevel(a: Stack, b: Stack, e: nat)
    requires SameLevel(a, b) && e <= Top(b).indent
    ensures Pop(a, e) == Pop(b, e)
  {
    assert |a| > 1;
  }

  lemma PopPushed(stack: Stack, frame: Frame, e: nat)
    requires Top(stack).indent < frame.indent && e <= frame.indent
    ensures Pop(Push(stack, frame), e) == Pop(stack, e)
  {
    var pushed := Push(stack, frame);
    assert pushed[..|pushed| - 1] == stack;
  }

  /** A level found again below `d` is found again below anything shallower. */
  lemma Settle(last: Stack, d: nat, base: Stack, e: nat)
    requires SameLevel(Pop(last, d), base) && e <= Top(base).indent && e <= d
    ensures Pop(last, e) == Pop(base, e)
  {
    PopTwice(last, d, e);
    PopLevel(Pop(last, d), base, e);
  }

  // ---- Block scalars ---------------------------------------------------------------------

  predicate BlankLine(line: string) { TrimSpace(TrimRight(line)) == "" }

  ghost predicate AllBlank(lines: seq<string>) { forall i :: 0 <= i < |lines| ==> BlankLine(lines[i]) }

  /** What follows ends a block scalar written at `column` or deeper. */
  ghost predicate Stops(rest: seq<string>, column: nat) {
    AllBlank(rest) || (rest != [] && !BlankLine(rest[0]) && LeadingSpaces(TrimRight(rest[0])) < column)
  }

  lemma {:induction false} BlanksReadNothing(rest: seq<string>, n: nat, stack: Stack)
    requires AllBlank(rest)
    ensures ReadFrom(rest, n, stack) == Ok([])
    decreases |rest|
  {
    if rest != [] {
      assert BlankLine(rest[0]);
      assert Step(rest, n, stack) == Skip;
      BlanksReadNothing(rest[1..], n + 1, stack);
    }
  }

  ghost function Blanks(n: nat): (r: seq<string>)
    ensures |r| == n && forall i :: 0 <= i < n ==> r[i] == ""
  {
    seq(n, _ => "")
  }

  lemma {:induction false} BlanksBelong(rest: seq<string>, k: nat, column: int)
    requires AllBlank(rest)
    ensures BlockLines(rest, k, column) == Block(Blanks(|rest|), |rest|)
  {
    if rest != [] {
      assert BlankLine(rest[0]);
      hide BlankLine, TrimSpace, TrimRight;
      BlanksBelong(rest[1..], k, column);
      assert [""] + Blanks(|rest| - 1) == Blanks(|rest|);
    }
  }

  lemma TrimRightKeeps(s: string)
    requires s != "" ==> !IsBlank(s[|s| - 1])
    ensures TrimRight(s) == s
  {
  }

  lemma ScriptLineSeen(line: string, column: nat)
    requires ScriptLineValid(line) && line != ""
    ensures var raw := Spaces(column) + line;
            TrimRight(raw) == raw && TrimSpace(raw) != "" && LeadingSpaces(raw) >= column && raw[column..] == line
    ensures line[0] != ' ' ==> LeadingSpaces(Spaces(column) + line) == column
  {
    var raw := Spaces(column) + line;
    assert raw[|raw| - 1] == line[|line| - 1];
    TrimRightKeeps(raw);
    SpacesTrim(column, line);
    assert forall i :: 0 <= i < column ==> raw[i] == ' ';
  }

  /** How many lines after the script it takes: the blank lines that end the file. */
  ghost function Swallowed(rest: seq<string>): nat { if AllBlank(rest) then |rest| else 0 }

  /** One line of a script, read at its column. */
  lemma ScriptStep(line: string, column: nat, all: seq<string>, k: nat, at: int)
    requires ScriptLineValid(line) && k < column && all != []
    requires all[0] == if line == "" then "" else Spaces(column) + line
    requires at == column || (at < 0 && line != "" && line[0] != ' ')
    ensures var more := BlockLines(all[1..], k, column);
            BlockLines(all, k, at) == Block([line] + more.body, 1 + more.used)
  {
    if line == "" { EmptyIsBlank(); } else { ScriptLineSeen(line, column); }
    hide ScriptLineValid, TrimSpace, TrimRight, LeadingSpaces;
  }

  lemma ScriptFirst(lines: seq<string>, column: nat, rest: seq<string>)
    requires lines != []
    ensures var all := ScriptLines(lines, column) + rest;
            all != [] && all[0] == (if lines[0] == "" then "" else Spaces(column) + lines[0]) &&
            all[1..] == ScriptLines(lines[1..], column) + rest
  {
  }

  lemma {:induction false} ScriptCollected(lines: seq<string>, column: nat, k: nat, at: int, rest: seq<string>)
    requires forall i :: 0 <= i < |lines| ==> ScriptLineValid(lines[i])
    requires k < column && Stops(rest, column)
    requires at == column || (at < 0 && lines != [] && lines[0] != "" && lines[0][0] != ' ')
    ensures BlockLines(ScriptLines(lines, column) + rest, k, at) ==
            Block(lines + Blanks(Swallowed(rest)), |lines| + Swallowed(rest))
    decreases |lines|
  {
    var all := ScriptLines(lines, column) + rest;
    if lines == [] {
      hide TrimSpace, TrimRight, LeadingSpaces;
      assert all == rest && lines + Blanks(Swallowed(rest)) == Blanks(Swallowed(rest));
      if AllBlank(rest) { BlanksBelong(rest, k, at); } else { assert Blanks(0) == []; }
    } else {
      hide *;
      ScriptFirst(lines, column, rest);
      ScriptCollected(lines[1..], column, k, column, rest);
      assert lines + Blanks(Swallowed(rest)) == [lines[0]] + (lines[1..] + Blanks(Swallowed(rest)));
      ScriptStep(lines[0], column, all, k, at);
    }
  }

  lemma EmptyIsBlank()
    ensures TrimRight("") == "" && TrimSpace("") == ""
  {
  }

  lemma {:induction false} BlanksDropped(lines: seq<string>, n: nat)
    requires lines != [] && TrimSpace(lines[|lines| - 1]) != ""
    ensures DropTrailingBlank(lines + Blanks(n)) == lines
  {
    var all := lines + Blanks(n);
    EmptyIsBlank();
    if n > 0 {
      assert all[..|all| - 1] == lines + Blanks(n - 1);
      BlanksDropped(lines, n - 1);
    } else {
      assert all == lines;
    }
  }

  /** A written script is read back whole. */
  lemma ScriptReads(lines: seq<string>, column: nat, k: nat, rest: seq<string>)
    requires ScriptValid(lines) && k < column && Stops(rest, column)
    ensures ReadBlock(ScriptLines(lines, column) + rest, k) == Block(lines, |lines| + Swallowed(rest))
  {
    ScriptCollected(lines, column, k, -1, rest);
    assert ScriptLineValid(lines[|lines| - 1]);
    BlanksDropped(lines, Swallowed(rest));
  }

  /** After the script the reading goes on with what follows it. */
  lemma AfterScript(lines: seq<string>, rest: seq<string>, n: nat, stack: Stack)
    ensures var all := lines + rest;
            ReadFrom(all[|lines| + Swallowed(rest)..], n + |lines| + Swallowed(rest), stack) ==
            ReadFrom(rest, n + |lines|, stack)
  {
    hide ReadFrom, BlankLine;
    var all := lines + rest;
    if AllBlank(rest) {
      assert ReadFrom([], n + |lines| + |rest|, stack) == Ok([]) by {
        BlanksReadNothing([], n + |lines| + |rest|, stack);
      }
      BlanksReadNothing(rest, n + |lines|, stack);
      assert all[|lines| + |rest|..] == [];
    } else {
      assert all[|lines|..] == rest;
    }
  }

  // ---- Headers ---------------------------------------------------------------------------

  lemma ReadEmit(lines: seq<string>, n: nat, stack: Stack)
    requires lines != [] && Step(lines, n, stack).Emit?
    ensures var o := Step(lines, n, stack);
            ReadFrom(lines, n, stack) == Before([o.entry], ReadFrom(lines[o.used..], n + o.used, o.stack))
  {
  }

  lemma KeyIsNoItem(body: string)
    requires Solid(body) && body != "" && StartsKey(body[0])
    ensures !IsItem(body)
  {
  }

  lemma IndicatorStays(indicator: string)
    requires IsBlockIndicator(indicator)
    ensures Unquote(indicator) == indicator
  {
  }

  /** A header, what is written under it, and what follows. */
  ghost function Headed(header: string, node: Node, column: nat, rest: seq<string>): seq<string> {
    [header] + (NodeLines(node, column) + rest)
  }

  /** How many lines a header takes: a script and the blank lines that end a file go with it. */
  ghost function Uses(node: Node, rest: seq<string>): nat {
    if node.Script? then 1 + Height(node) + Swallowed(rest) else 1
  }

  lemma HeadedRest(header: string, node: Node, column: nat, rest: seq<string>)
    ensures var lines := Headed(header, node, column, rest);
            lines != [] && lines[0] == header && lines[1..] == NodeLines(node, column) + rest
  {
  }

  /** The level the line of a key opens. */
  ghost function Opened(f: Field, d: nat, open: Stack): (r: Stack)
    requires Top(open).indent < d
    ensures Top(r) == Frame(d, Below(Top(open).path, f.key), !StaysOpen(f.node), 0) && r[..|r| - 1] == open
  {
    Push(open, Frame(d, Below(Top(open).path, f.key), !StaysOpen(f.node), 0))
  }

  lemma StepKeyReads(f: Field, d: nat, rest: seq<string>, n: nat, open: Stack)
    requires KeyValid(f.key) && NodeValid(f.node) && Top(open).indent < d && Stops(rest, d + 1)
    ensures var lines := Headed(Spaces(d) + FieldText(f), f.node, d, rest);
            lines != [] &&
            StepKey(lines, n, open, d, FieldText(f)) ==
            Emit(OwnEntry(f, Below(Top(open).path, f.key), n), Opened(f, d, open), Uses(f.node, rest))
  {
    hide *;
    HeadedRest(Spaces(d) + FieldText(f), f.node, d, rest);
    FieldSplits(f);
    KeyNotEmpty(f.key);
    ValueSeen(f.node);
    if f.node.Script? {
      NodeScriptReads(f.node, d, d, rest);
      KeyScriptSteps(f, d, rest, n, open);
    } else {
      KeyValueSteps(f, d, rest, n, open);
    }
  }

  /** What the header of a script gives: an entry with the script, and a level of its own. */
  lemma ScriptOpens(f: Field, d: nat, rest: seq<string>, n: nat, open: Stack)
    requires f.node.Script? && Top(open).indent < d
    ensures forall path :: OwnEntry(f, path, n) ==
              Entry(path, f.key, Fold(f.node.lines, f.node.indicator), f.node.comment, n)
    ensures Opened(f, d, open) == Push(open, Frame(d, Below(Top(open).path, f.key), true, 0))
    ensures ItemOpened(f, d, open) == Push(Bump(open), Frame(d, ItemPath(Top(open)), false, 0))
    ensures Uses(f.node, rest) == 1 + Height(f.node) + Swallowed(rest)
  {
    hide Fold, Push, Bump, Below, ItemPath, Height, Swallowed;
  }

  lemma StepKeyBlock(lines: seq<string>, n: nat, open: Stack, d: nat, body: string, m: Mapping, b: Block)
    requires lines != [] && Top(open).indent < d && SplitMapping(body) == m && m.key != "" && IsBlockIndicator(m.value)
    requires ReadBlock(lines[1..], d) == b
    ensures var path := Below(Top(open).path, m.key);
            StepKey(lines, n, open, d, body) ==
            Emit(Entry(path, m.key, Fold(b.body, m.value), m.comment, n), Push(open, Frame(d, path, true, 0)),
                 1 + b.used)
  {
    hide SplitMapping, ReadBlock, Fold, IsBlockIndicator, Push, Below, Ascending;
  }

  lemma StepItemBlock(lines: seq<string>, n: nat, open: Stack, d: nat, body: string, m: Mapping, b: Block)
    requires lines != [] && Top(open).indent < d && SplitMapping(TrimSpace(TrimPrefix(body, '-'))) == m
    requires m.key != "" && IsBlockIndicator(m.value) && ReadBlock(lines[1..], d) == b
    ensures var path := ItemPath(Top(open));
            StepItem(lines, n, open, d, body) ==
            Emit(Entry(path + "." + m.key, m.key, Fold(b.body, m.value), m.comment, n),
                 Push(Bump(open), Frame(d, path, false, 0)), 1 + b.used)
  {
    hide SplitMapping, TrimSpace, TrimPrefix, ReadBlock, Fold, IsBlockIndicator, Push, Bump, ItemPath, Ascending;
  }

  lemma KeyScriptSteps(f: Field, d: nat, rest: seq<string>, n: nat, open: Stack)
    requires Top(open).indent < d && f.key != "" && f.node.Script? && IsBlockIndicator(f.node.indicator)
    requires SplitMapping(FieldText(f)) == Mapping(f.key, f.node.indicator, f.node.comment)
    requires ReadBlock(NodeLines(f.node, d) + rest, d) == Block(f.node.lines, Height(f.node) + Swallowed(rest))
    ensures var lines := Headed(Spaces(d) + FieldText(f), f.node, d, rest);
            lines != [] &&
            StepKey(lines, n, open, d, FieldText(f)) ==
            Emit(OwnEntry(f, Below(Top(open).path, f.key), n), Opened(f, d, open), Uses(f.node, rest))
  {
    HeadedRest(Spaces(d) + FieldText(f), f.node, d, rest);
    hide *;
    ScriptOpens(f, d, rest, n, open);
    StepKeyBlock(Headed(Spaces(d) + FieldText(f), f.node, d, rest), n, open, d, FieldText(f),
                 Mapping(f.key, f.node.indicator, f.node.comment),
                 Block(f.node.lines, Height(f.node) + Swallowed(rest)));
  }

  lemma KeyValueSteps(f: Field, d: nat, rest: seq<string>, n: nat, open: Stack)
    requires Top(open).indent < d && f.key != "" && !f.node.Script? && !IsBlockIndicator(Value(f.node))
    requires SplitMapping(FieldText(f)) == Mapping(f.key, Value(f.node), f.node.comment)
    ensures var lines := Headed(Spaces(d) + FieldText(f), f.node, d, rest);
            lines != [] &&
            StepKey(lines, n, open, d, FieldText(f)) ==
            Emit(OwnEntry(f, Below(Top(open).path, f.key), n), Opened(f, d, open), Uses(f.node, rest))
  {
    HeadedRest(Spaces(d) + FieldText(f), f.node, d, rest);
    hide SplitMapping, ReadBlock, Fold, IsBlockIndicator, Headed, NodeLines, FieldText, Push, Value, Spaces, Below;
  }

  lemma KeyNotEmpty(key: string)
    requires KeyValid(key)
    ensures key != ""
  {
  }

  /** A script written under a key at `column` is read back under a key or dash at `k`. */
  lemma NodeScriptReads(node: Node, column: nat, k: nat, rest: seq<string>)
    requires NodeValid(node) && node.Script? && k <= column && Stops(rest, column + 1)
    ensures ReadBlock(NodeLines(node, column) + rest, k) == Block(node.lines, Height(node) + Swallowed(rest))
  {
    hide ReadBlock, Swallowed, ScriptValid;
    StopsDeeper(rest, column + 1, column + 1 + node.deeper);
    ScriptReads(node.lines, column + 1 + node.deeper, k, rest);
  }

  lemma StopsDeeper(rest: seq<string>, column: nat, deeper: nat)
    requires Stops(rest, column) && column <= deeper
    ensures Stops(rest, deeper)
  {
  }

  /** What the reader takes the text of a header for. */
  lemma ValueSeen(node: Node)
    requires NodeValid(node)
    ensures IsBlockIndicator(Unquote(HeaderText(node))) <==> node.Script?
    ensures node.Script? ==> Unquote(HeaderText(node)) == node.indicator && ScriptValid(node.lines)
    ensures !node.Script? ==> Unquote(HeaderText(node)) == Value(node)
  {
    if node.Script? { IndicatorStays(node.indicator); }
  }

  // ---- The lines under a header ----------------------------------------------------------

  /** What the line of a key leaves to read: a script was taken with it. */
  ghost function Remaining(node: Node, column: nat, rest: seq<string>): seq<string> {
    if node.Script? then rest else NodeLines(node, column) + rest
  }

  ghost function Taken(node: Node): nat { if node.Script? then 1 + Height(node) else 1 }

  lemma KeySteps(f: Field, d: nat, rest: seq<string>, n: nat, stack: Stack)
    requires KeyValid(f.key) && NodeValid(f.node) && !Top(Pop(stack, d)).scalar && Stops(rest, d + 1)
    ensures var lines, open := Headed(Spaces(d) + FieldText(f), f.node, d, rest), Pop(stack, d);
            lines != [] &&
            Step(lines, n, stack) ==
            Emit(OwnEntry(f, Below(Top(open).path, f.key), n), Opened(f, d, open), Uses(f.node, rest))
  {
    FieldIsSolid(f);
    KeyIsNoItem(FieldText(f));
    hide KeyValid, NodeValid, Stops, Solid, IsItem, Step, StepKey, StepItem, FieldText, NodeLines, Pop, Push, Height,
         Swallowed;
    StepAt(FieldText(f), d, NodeLines(f.node, d) + rest, n, stack);
    StepKeyReads(f, d, rest, n, Pop(stack, d));
  }

  /** The levels the line of an item opens: the item's, and that of a first key without a
      value. */
  ghost function ItemOpened(f: Field, d: nat, open: Stack): (r: Stack)
    requires Top(open).indent < d
    ensures var path := ItemPath(Top(open));
            if StaysOpen(f.node) then Top(r) == Frame(d + 1, path + "." + f.key, false, 0)
            else Top(r) == Frame(d, path, false, 0)
  {
    var path := ItemPath(Top(open));
    var item := Push(Bump(open), Frame(d, path, false, 0));
    if StaysOpen(f.node) then Push(item, Frame(d + 1, path + "." + f.key, false, 0)) else item
  }

  lemma DashSplits(f: Field)
    requires KeyValid(f.key) && NodeValid(f.node)
    ensures SplitMapping(TrimSpace(TrimPrefix(DashText(FieldText(f)), '-'))) ==
            Mapping(f.key, Unquote(HeaderText(f.node)), f.node.comment)
  {
    FieldSplits(f);
    FieldIsSolid(f);
    SolidIsTrimmed(FieldText(f));
    DashIsSolid(FieldText(f));
  }

  lemma StepItemReads(f: Field, d: nat, rest: seq<string>, n: nat, open: Stack)
    requires KeyValid(f.key) && NodeValid(f.node) && Top(open).indent < d && Stops(rest, d + 3)
    ensures var body := DashText(FieldText(f));
            var lines := Headed(Spaces(d) + body, f.node, d + 2, rest);
            lines != [] &&
            StepItem(lines, n, open, d, body) ==
            Emit(OwnEntry(f, ItemPath(Top(open)) + "." + f.key, n), ItemOpened(f, d, open), Uses(f.node, rest))
  {
    hide *;
    HeadedRest(Spaces(d) + DashText(FieldText(f)), f.node, d + 2, rest);
    DashSplits(f);
    KeyNotEmpty(f.key);
    ValueSeen(f.node);
    if f.node.Script? {
      NodeScriptReads(f.node, d + 2, d, rest);
      ItemScriptSteps(f, d, rest, n, open);
    } else {
      ItemValueSteps(f, d, rest, n, open);
    }
  }

  lemma ItemScriptSteps(f: Field, d: nat, rest: seq<string>, n: nat, open: Stack)
    requires Top(open).indent < d && f.key != "" && f.node.Script? && IsBlockIndicator(f.node.indicator)
    requires SplitMapping(TrimSpace(TrimPrefix(DashText(FieldText(f)), '-'))) ==
             Mapping(f.key, f.node.indicator, f.node.comment)
    requires ReadBlock(NodeLines(f.node, d + 2) + rest, d) == Block(f.node.lines, Height(f.node) + Swallowed(rest))
    ensures var body := DashText(FieldText(f));
            var lines := Headed(Spaces(d) + body, f.node, d + 2, rest);
            lines != [] &&
            StepItem(lines, n, open, d, body) ==
            Emit(OwnEntry(f, ItemPath(Top(open)) + "." + f.key, n), ItemOpened(f, d, open), Uses(f.node, rest))
  {
    HeadedRest(Spaces(d) + DashText(FieldText(f)), f.node, d + 2, rest);
    hide *;
    ScriptOpens(f, d, rest, n, open);
    StepItemBlock(Headed(Spaces(d) + DashText(FieldText(f)), f.node, d + 2, rest), n, open, d, DashText(FieldText(f)),
                  Mapping(f.key, f.node.indicator, f.node.comment),
                  Block(f.node.lines, Height(f.node) + Swallowed(rest)));
  }

  lemma ItemValueSteps(f: Field, d: nat, rest: seq<string>, n: nat, open: Stack)
    requires Top(open).indent < d && f.key != "" && !f.node.Script? && !IsBlockIndicator(Value(f.node))
    requires SplitMapping(TrimSpace(TrimPrefix(DashText(FieldText(f)), '-'))) ==
             Mapping(f.key, Value(f.node), f.node.comment)
    ensures var body := DashText(FieldText(f));
            var lines := Headed(Spaces(d) + body, f.node, d + 2, rest);
            lines != [] &&
            StepItem(lines, n, open, d, body) ==
            Emit(OwnEntry(f, ItemPath(Top(open)) + "." + f.key, n), ItemOpened(f, d, open), Uses(f.node, rest))
  {
    HeadedRest(Spaces(d) + DashText(FieldText(f)), f.node, d + 2, rest);
    hide SplitMapping, TrimSpace, TrimPrefix, ReadBlock, Fold, ItemPath, IsBlockIndicator, Headed, NodeLines, DashText,
         FieldText, Push, Bump, Value, Spaces;
  }

  lemma ItemSteps(f: Field, d: nat, rest: seq<string>, n: nat, stack: Stack)
    requires KeyValid(f.key) && NodeValid(f.node) && !Top(Pop(stack, d)).scalar && Stops(rest, d + 3)
    ensures var lines, open := Headed(Spaces(d) + DashText(FieldText(f)), f.node, d + 2, rest), Pop(stack, d);
            lines != [] &&
            Step(lines, n, stack) ==
            Emit(OwnEntry(f, ItemPath(Top(open)) + "." + f.key, n), ItemOpened(f, d, open), Uses(f.node, rest))
  {
    FieldIsSolid(f);
    assert Trimmed(FieldText(f));
    DashIsSolid(FieldText(f));
    hide KeyValid, NodeValid, Stops, Solid, IsItem, Step, StepKey, StepItem, FieldText, NodeLines, Pop, Push, Height,
         Swallowed, DashText, ItemPath, ItemOpened;
    StepAt(DashText(FieldText(f)), d, NodeLines(f.node, d + 2) + rest, n, stack);
    StepItemReads(f, d, rest, n, Pop(stack, d));
  }

  lemma HeaderGoesOn(header: string, node: Node, column: nat, rest: seq<string>, n: nat, next: Stack)
    ensures var lines, used := Headed(header, node, column, rest), Uses(node, rest);
            used <= |lines| &&
            ReadFrom(lines[used..], n + used, next) == ReadFrom(Remaining(node, column, rest), n + Taken(node), next)
  {
    hide ReadFrom, BlankLine, NodeLines;
    var under := NodeLines(node, column);
    var lines := Headed(header, node, column, rest);
    HeadedRest(header, node, column, rest);
    if node.Script? {
      AfterScript(under, rest, n + 1, next);
      var m := |under| + Swallowed(rest);
      assert lines[1 + m..] == (under + rest)[m..];
    }
  }

  /** Reading the line of a key: its entry, and a level opened for what nests under it. */
  lemma ReadKey(f: Field, d: nat, rest: seq<string>, n: nat, stack: Stack)
    requires KeyValid(f.key) && NodeValid(f.node) && !Top(Pop(stack, d)).scalar && Stops(rest, d + 1)
    ensures var open := Pop(stack, d);
            ReadFrom(Headed(Spaces(d) + FieldText(f), f.node, d, rest), n, stack) ==
            Before([OwnEntry(f, Below(Top(open).path, f.key), n)],
                   ReadFrom(Remaining(f.node, d, rest), n + Taken(f.node), Opened(f, d, open)))
  {
    hide *;
    var header, next := Spaces(d) + FieldText(f), Opened(f, d, Pop(stack, d));
    KeySteps(f, d, rest, n, stack);
    HeaderGoesOn(header, f.node, d, rest, n, next);
    ReadEmit(Headed(header, f.node, d, rest), n, stack);
  }

  /** Reading the line of an item that is a mapping. */
  lemma ReadDash(f: Field, d: nat, rest: seq<string>, n: nat, stack: Stack)
    requires KeyValid(f.key) && NodeValid(f.node) && !Top(Pop(stack, d)).scalar && Stops(rest, d + 3)
    ensures var open := Pop(stack, d);
            ReadFrom(Headed(Spaces(d) + DashText(FieldText(f)), f.node, d + 2, rest), n, stack) ==
            Before([OwnEntry(f, ItemPath(Top(open)) + "." + f.key, n)],
                   ReadFrom(Remaining(f.node, d + 2, rest), n + Taken(f.node), ItemOpened(f, d, open)))
  {
    hide *;
    var header, next := Spaces(d) + DashText(FieldText(f)), ItemOpened(f, d, Pop(stack, d));
    ItemSteps(f, d, rest, n, stack);
    HeaderGoesOn(header, f.node, d + 2, rest, n, next);
    ReadEmit(Headed(header, f.node, d + 2, rest), n, stack);
  }

  /** The levels a scalar item leaves: nothing may nest under it. */
  ghost function ScalarOpened(d: nat, open: Stack): (r: Stack)
    requires Top(open).indent < d
    ensures Top(r).indent == d
  {
    Push(Bump(open), Frame(d, ItemPath(Top(open)), true, 0))
  }

  lemma StepScalarReads(text: string, comment: string, d: nat, lines: seq<string>, n: nat, open: Stack)
    requires TextValid(text, comment) && !OpensMapping(text) && Top(open).indent < d && lines != []
    ensures StepItem(lines, n, open, d, DashText(Line(text, comment))) ==
            Emit(Entry(ItemPath(Top(open)), "", Unquote(text), comment, n), ScalarOpened(d, open), 1)
  {
    LineSplits(text, comment);
    LineIsSolid(text, comment);
    DashIsSolid(Line(text, comment));
    hide TextValid, OpensMapping, Line, Solid, IsItem, DashText, SplitMapping, TrimSpace, TrimPrefix, ItemPath, Push,
         Bump, Unquote, Trimmed, ReadBlock;
  }

  lemma ScalarLineSeen(text: string, comment: string)
    requires TextValid(text, comment)
    ensures Solid(DashText(Line(text, comment))) && IsItem(DashText(Line(text, comment)))
  {
    LineIsSolid(text, comment);
    DashIsSolid(Line(text, comment));
  }

  /** Reading an item that is a scalar. */
  lemma ReadScalarItem(text: string, comment: string, d: nat, rest: seq<string>, n: nat, stack: Stack)
    requires TextValid(text, comment) && !OpensMapping(text) && !Top(Pop(stack, d)).scalar
    ensures var open := Pop(stack, d);
            ReadFrom([Spaces(d) + DashText(Line(text, comment))] + rest, n, stack) ==
            Before([Entry(ItemPath(Top(open)), "", Unquote(text), comment, n)],
                   ReadFrom(rest, n + 1, ScalarOpened(d, open)))
  {
    hide *;
    var body := DashText(Line(text, comment));
    var lines := [Spaces(d) + body] + rest;
    assert lines[1..] == rest;
    ScalarLineSeen(text, comment);
    StepAt(body, d, rest, n, stack);
    StepScalarReads(text, comment, d, lines, n, Pop(stack, d));
    ReadEmit(lines, n, stack);
  }

  // ---- Whole subtrees --------------------------------------------------------------------

  lemma LineStops(body: string, d: nat, more: seq<string>)
    requires Solid(body)
    ensures Stops([Spaces(d) + body] + more, d + 1)
  {
    LineSeen(body, d);
    var lines := [Spaces(d) + body] + more;
    assert lines[0] == Spaces(d) + body;
    assert !BlankLine(lines[0]);
  }

  /** Fields written out, followed by `rest`. */
  ghost function FieldsThen(fields: seq<Field>, d: nat, rest: seq<string>): seq<string> {
    FieldsLines(fields, d) + rest
  }

  ghost function ItemsThen(items: seq<Item>, d: nat, rest: seq<string>): seq<string> { ItemsLines(items, d) + rest }

  lemma FieldsUnfold(fields: seq<Field>, d: nat, rest: seq<string>)
    ensures fields == [] ==> FieldsThen(fields, d, rest) == rest
    ensures fields != [] ==>
              FieldsThen(fields, d, rest) ==
              Headed(Spaces(d) + FieldText(fields[0]), fields[0].node, d, FieldsThen(fields[1..], d, rest))
  {
    hide FieldText, NodeLines;
    if fields == [] {
      assert [] + rest == rest;
    } else {
      Regroup(Spaces(d) + FieldText(fields[0]), NodeLines(fields[0].node, d), FieldsLines(fields[1..], d), rest);
    }
  }

  lemma Regroup(header: string, under: seq<string>, more: seq<string>, rest: seq<string>)
    ensures [header] + under + more + rest == [header] + (under + (more + rest))
  {
  }

  lemma ItemsUnfold(items: seq<Item>, d: nat, rest: seq<string>)
    ensures items == [] ==> ItemsThen(items, d, rest) == rest
    ensures items != [] ==> ItemsThen(items, d, rest) == ItemLines(items[0], d) + ItemsThen(items[1..], d, rest)
  {
    if items == [] {
      assert [] + rest == rest;
    } else {
      assert ItemLines(items[0], d) + ItemsLines(items[1..], d) + rest ==
             ItemLines(items[0], d) + (ItemsLines(items[1..], d) + rest);
    }
  }

  lemma MapItemUnfolds(fields: seq<Field>, d: nat, rest: seq<string>)
    requires fields != []
    ensures ItemLines(MapItem(fields), d) + rest ==
            Headed(Spaces(d) + DashText(FieldText(fields[0])), fields[0].node, d + 2,
                   FieldsThen(fields[1..], d + 2, rest))
  {
    hide FieldText, NodeLines, DashText;
    Regroup(Spaces(d) + DashText(FieldText(fields[0])), NodeLines(fields[0].node, d + 2),
            FieldsLines(fields[1..], d + 2), rest);
  }

  lemma FieldsStop(fields: seq<Field>, d: nat, rest: seq<string>)
    requires FieldsValid(fields) && Stops(rest, d + 1)
    ensures Stops(FieldsThen(fields, d, rest), d + 1)
  {
    hide Stops, NodeValid, KeyValid, FieldText, NodeLines, FieldsThen, Solid;
    FieldsUnfold(fields, d, rest);
    if fields != [] {
      FieldIsSolid(fields[0]);
      LineStops(FieldText(fields[0]), d, NodeLines(fields[0].node, d) + FieldsThen(fields[1..], d, rest));
    }
  }

  lemma ItemStops(item: Item, d: nat, rest: seq<string>)
    requires ItemValid(item)
    ensures Stops(ItemLines(item, d) + rest, d + 1)
  {
    hide Stops, NodeValid, KeyValid, FieldText, NodeLines, Solid, DashText, OpensMapping, TextValid, Line;
    match item
    case ScalarItem(text, comment) =>
      ScalarLineSeen(text, comment);
      LineStops(DashText(Line(text, comment)), d, rest);
    case MapItem(fields) =>
      FieldIsSolid(fields[0]);
      assert Trimmed(FieldText(fields[0])) by { SolidIsTrimmed(FieldText(fields[0])); }
      DashIsSolid(FieldText(fields[0]));
      MapItemUnfolds(fields, d, rest);
      LineStops(DashText(FieldText(fields[0])), d,
                NodeLines(fields[0].node, d + 2) + FieldsThen(fields[1..], d + 2, rest));
  }

  lemma SolidIsTrimmed(body: string)
    requires Solid(body)
    ensures Trimmed(body)
  {
  }

  lemma ItemsStop(items: seq<Item>, d: nat, rest: seq<string>)
    requires ItemsValid(items) && Stops(rest, d + 1)
    ensures Stops(ItemsThen(items, d, rest), d + 1)
  {
    hide Stops, ItemValid, ItemLines, ItemsThen;
    ItemsUnfold(items, d, rest);
    if items != [] { ItemStops(items[0], d, ItemsThen(items[1..], d, rest)); }
  }

  /** The level under a key is the one below it, once the key is closed. */
  lemma OpenedCloses(f: Field, d: nat, open: Stack, last: Stack)
    requires Top(open).indent < d && SameLevel(Pop(last, d + 1), Opened(f, d, open))
    ensures Pop(last, d) == open
  {
    var base := Opened(f, d, open);
    hide Opened, Below, StaysOpen;
    Settle(last, d + 1, base, d);
    assert base[..|base| - 1] == open;
  }

  lemma ItemOpenedPops(f: Field, d: nat, open: Stack)
    requires Top(open).indent < d
    ensures d <= Top(ItemOpened(f, d, open)).indent && Pop(ItemOpened(f, d, open), d) == Bump(open)
  {
    hide ItemPath, StaysOpen, Pop, Bump;
    var path := ItemPath(Top(open));
    var frame := Frame(d, path, false, 0);
    var item := Push(Bump(open), frame);
    PopPushed(Bump(open), frame, d);
    PopPushed(item, Frame(d + 1, path + "." + f.key, false, 0), d);
    PopNothing(Bump(open), d);
  }

  lemma ItemOpenedCloses(f: Field, d: nat, open: Stack, last: Stack)
    requires Top(open).indent < d && SameLevel(Pop(last, d + 2), ItemOpened(f, d, open))
    ensures Pop(last, d) == Bump(open)
  {
    hide *;
    ItemOpenedPops(f, d, open);
    Settle(last, d + 2, ItemOpened(f, d, open), d);
  }

  lemma ScalarCloses(d: nat, open: Stack)
    requires Top(open).indent < d
    ensures Pop(ScalarOpened(d, open), d) == Bump(open)
  {
    PopPushed(Bump(open), Frame(d, ItemPath(Top(open)), true, 0), d);
  }

  /** A level met again just below `d` is met again below anything that is still above it. */
  lemma StillOpen(last: Stack, d: nat, base: Stack, e: nat)
    requires SameLevel(Pop(last, d), base) && Top(base).indent < e <= d
    ensures Pop(last, e) == Pop(last, d)
  {
    PopTwice(last, d, e);
  }

  lemma SameLevelTwice(a: Stack, b: Stack, c: Stack)
    requires SameLevel(a, b) && SameLevel(b, c)
    ensures SameLevel(a, c)
  {
  }

  lemma SameAsItself(a: Stack)
    ensures SameLevel(a, a)
  {
  }

  lemma BumpIsSameLevel(a: Stack)
    ensures SameLevel(Bump(a), a)
  {
  }

  /** Nothing nests under a scalar, and a script was taken with its header. */
  lemma NothingUnder(node: Node, column: nat, rest: seq<string>, n: nat, base: Stack)
    requires node.Scalar? || node.Script?
    ensures ReadFrom(Remaining(node, column, rest), n + Taken(node), base) ==
            Before(ChildEntries(node, Top(base).path, n + 1, true), ReadFrom(rest, n + 1 + Height(node), base))
  {
    hide ReadFrom, Before;
    if node.Scalar? { assert NodeLines(node, column) + rest == rest; }
    BeforeNothing(ReadFrom(rest, n + 1 + Height(node), base));
  }

  lemma UnderMap(node: Node, column: nat, rest: seq<string>)
    requires node.Map? && NodeValid(node)
    ensures FieldsValid(node.fields) && Taken(node) == 1 && Height(node) == FieldsHeight(node.fields)
    ensures Remaining(node, column, rest) == FieldsThen(node.fields, column + 1 + node.deeper, rest)
    ensures forall path, n :: ChildEntries(node, path, n, true) == FieldsEntries(node.fields, path, n, true)
  {
  }

  lemma UnderList(node: Node, column: nat, rest: seq<string>)
    requires node.List? && NodeValid(node)
    ensures ItemsValid(node.items) && Taken(node) == 1 && Height(node) == ItemsHeight(node.items)
    ensures Remaining(node, column, rest) == ItemsThen(node.items, column + 1 + node.deeper, rest)
    ensures forall path, n :: ChildEntries(node, path, n, true) == ItemsEntries(node.items, path, 0, n, true)
  {
  }

  /** What nests under a key is read into its scalars, and the key's level is met again. */
  lemma {:induction false} ReadChildren(node: Node, column: nat, rest: seq<string>, n: nat, base: Stack)
    returns (last: Stack)
    requires NodeValid(node) && Stops(rest, column + 1) && Top(base).indent <= column
    requires node.Map? || node.List? ==> !Top(base).scalar && Top(base).items == 0
    ensures ReadFrom(Remaining(node, column, rest), n + Taken(node), base) ==
            Before(ChildEntries(node, Top(base).path, n + 1, true), ReadFrom(rest, n + 1 + Height(node), last))
    ensures SameLevel(Pop(last, column + 1), base)
    decreases node, 0
  {
    hide *;
    last := base;
    PopNothing(base, column + 1);
    SameAsItself(base);
    match node
    case Map(deeper, _, fields) =>
      var d := column + 1 + deeper;
      PopNothing(base, d);
      StopsDeeper(rest, column + 1, d + 1);
      UnderMap(node, column, rest);
      last := ReadFields(fields, d, rest, n + 1, base);
      StillOpen(last, d, base, column + 1);
    case List(deeper, _, items) =>
      var d := column + 1 + deeper;
      PopNothing(base, d);
      StopsDeeper(rest, column + 1, d + 1);
      UnderList(node, column, rest);
      last := ReadItems(items, 0, d, rest, n + 1, base);
      StillOpen(last, d, base, column + 1);
    case _ => NothingUnder(node, column, rest, n, base);
  }

  lemma PopNothing(stack: Stack, d: nat)
    requires Top(stack).indent < d
    ensures Pop(stack, d) == stack
  {
  }

  lemma {:induction false} ReadFields(fields: seq<Field>, d: nat, rest: seq<string>, n: nat, stack: Stack)
    returns (last: Stack)
    requires FieldsValid(fields) && Stops(rest, d + 1) && !Top(Pop(stack, d)).scalar
    ensures ReadFrom(FieldsThen(fields, d, rest), n, stack) ==
            Before(FieldsEntries(fields, Top(Pop(stack, d)).path, n, true),
                   ReadFrom(rest, n + FieldsHeight(fields), last))
    ensures Pop(last, d) == Pop(stack, d)
    decreases fields
  {
    hide *;
    FieldsUnfold(fields, d, rest);
    last := stack;
    var open := Pop(stack, d);
    if fields == [] {
      NoFieldsLeft(Top(open).path, n);
      BeforeNothing(ReadFrom(rest, n, stack));
    } else {
      var f := fields[0];
      FirstValid(fields);
      FieldsFirst(fields, Top(open).path, n);
      var more := FieldsThen(fields[1..], d, rest);
      FieldsStop(fields[1..], d, rest);
      ReadKey(f, d, more, n, stack);
      var base := Opened(f, d, open);
      NestedStaysOpen(f.node);
      var inner := ReadChildren(f.node, d, more, n, base);
      OpenedCloses(f, d, open, inner);
      last := ReadFields(fields[1..], d, rest, n + 1 + Height(f.node), inner);
      BeforeThrice([OwnEntry(f, Top(base).path, n)], ChildEntries(f.node, Top(base).path, n + 1, true),
                   FieldsEntries(fields[1..], Top(open).path, n + 1 + Height(f.node), true),
                   ReadFrom(rest, n + FieldsHeight(fields), last));
    }
  }

  lemma NestedStaysOpen(node: Node)
    ensures node.Map? || node.List? ==> StaysOpen(node)
  {
  }

  lemma BeforeThrice(a: seq<Entry>, b: seq<Entry>, c: seq<Entry>, more: Reading)
    ensures Before(a, Before(b, Before(c, more))) == Before(a + b + c, more)
  {
    BeforeTwice(b, c, more);
    BeforeTwice(a, b + c, more);
    assert a + (b + c) == a + b + c;
  }

  lemma {:induction false} ReadItem(item: Item, d: nat, rest: seq<string>, n: nat, stack: Stack) returns (last: Stack)
    requires ItemValid(item) && Stops(rest, d + 1) && !Top(Pop(stack, d)).scalar
    ensures ReadFrom(ItemLines(item, d) + rest, n, stack) ==
            Before(ItemEntries(item, ItemPath(Top(Pop(stack, d))), n, true), ReadFrom(rest, n + ItemHeight(item), last))
    ensures Pop(last, d) == Bump(Pop(stack, d))
    decreases item, 0
  {
    hide Stops, Pop, ReadFrom, ChildEntries, NodeLines, NodeValid, KeyValid, SameLevel, OwnEntry, StaysOpen, FieldsThen,
         FieldsLines, FieldsEntries, Remaining, Headed, ItemOpened, ScalarOpened, Height, Taken, ItemPath, Bump,
         TextValid, OpensMapping, DashText, FieldsValid, Unquote, Line;
    var open := Pop(stack, d);
    match item
    case ScalarItem(text, comment) =>
      ReadScalarItem(text, comment, d, rest, n, stack);
      last := ScalarOpened(d, open);
      ScalarCloses(d, open);
    case MapItem(fields) =>
      last := ReadMapItem(fields, d, rest, n, stack);
  }

  lemma {:induction false} ReadMapItem(fields: seq<Field>, d: nat, rest: seq<string>, n: nat, stack: Stack)
    returns (last: Stack)
    requires fields != [] && FieldsValid(fields) && Stops(rest, d + 1) && !Top(Pop(stack, d)).scalar
    ensures ReadFrom(ItemLines(MapItem(fields), d) + rest, n, stack) ==
            Before(ItemEntries(MapItem(fields), ItemPath(Top(Pop(stack, d))), n, true),
                   ReadFrom(rest, n + ItemHeight(MapItem(fields)), last))
    ensures Pop(last, d) == Bump(Pop(stack, d))
    decreases fields
  {
    hide *;
    var open := Pop(stack, d);
    var f, path := fields[0], ItemPath(Top(open));
    var full := path + "." + f.key;
    var more := FieldsThen(fields[1..], d + 2, rest);
    FirstValid(fields);
    MapItemUnfolds(fields, d, rest);
    MapItemEntries(fields, path, n);
    StopsDeeper(rest, d + 1, d + 3);
    FieldsStop(fields[1..], d + 2, rest);
    ReadDash(f, d, more, n, stack);
    var base := ItemOpened(f, d, open);
    NestedStaysOpen(f.node);
    var inner := ReadChildren(f.node, d + 2, more, n, base);
    StillOpen(inner, d + 3, base, d + 2);
    SameLevelPath(Pop(inner, d + 2), base);
    last := ReadFields(fields[1..], d + 2, rest, n + 1 + Height(f.node), inner);
    ItemOpenedCloses(f, d, open, last);
    NoChildren(f.node, full, path, n + 1);
    BeforeThrice([OwnEntry(f, full, n)], ChildEntries(f.node, full, n + 1, true),
                 FieldsEntries(fields[1..], Top(base).path, n + 1 + Height(f.node), true),
                 ReadFrom(rest, n + ItemHeight(MapItem(fields)), last));
  }

  lemma FirstValid(fields: seq<Field>)
    requires fields != [] && FieldsValid(fields)
    ensures KeyValid(fields[0].key) && NodeValid(fields[0].node) && FieldsValid(fields[1..])
  {
  }

  lemma MapItemEntries(fields: seq<Field>, path: string, n: nat)
    requires fields != []
    ensures var f, full := fields[0], path + "." + fields[0].key;
            ItemEntries(MapItem(fields), path, n, true) ==
            [OwnEntry(f, full, n)] + ChildEntries(f.node, full, n + 1, true)
            + FieldsEntries(fields[1..], if StaysOpen(f.node) then full else path, n + 1 + Height(f.node), true)
    ensures ItemHeight(MapItem(fields)) == 1 + Height(fields[0].node) + FieldsHeight(fields[1..])
  {
    hide ChildEntries, OwnEntry, FieldsEntries, Height, FieldsHeight, StaysOpen;
  }

  lemma NoFieldsLeft(path: string, n: nat)
    ensures FieldsEntries([], path, n, true) == [] && FieldsHeight([]) == 0
  {
  }

  lemma FieldsFirst(fields: seq<Field>, path: string, n: nat)
    requires fields != []
    ensures var f, full := fields[0], Below(path, fields[0].key);
            FieldsEntries(fields, path, n, true) ==
            [OwnEntry(f, full, n)] + ChildEntries(f.node, full, n + 1, true)
            + FieldsEntries(fields[1..], path, n + 1 + Height(f.node), true)
    ensures FieldsHeight(fields) == 1 + Height(fields[0].node) + FieldsHeight(fields[1..])
  {
    hide ChildEntries, OwnEntry, Below, Height;
  }

  lemma SameLevelPath(a: Stack, b: Stack)
    requires SameLevel(a, b)
    ensures Top(a).path == Top(b).path && Top(a).scalar == Top(b).scalar
  {
  }

  /** A key that does not stay open has nothing under it. */
  lemma NoChildren(node: Node, path: string, other: string, n: nat)
    ensures !StaysOpen(node) ==> ChildEntries(node, path, n, true) == ChildEntries(node, other, n, true)
  {
  }

  lemma {:induction false} ReadItems(items: seq<Item>, k: nat, d: nat, rest: seq<string>, n: nat, stack: Stack)
    returns (last: Stack)
    requires ItemsValid(items) && Stops(rest, d + 1) && !Top(Pop(stack, d)).scalar && Top(Pop(stack, d)).items == k
    ensures ReadFrom(ItemsThen(items, d, rest), n, stack) ==
            Before(ItemsEntries(items, Top(Pop(stack, d)).path, k, n, true),
                   ReadFrom(rest, n + ItemsHeight(items), last))
    ensures SameLevel(Pop(last, d), Pop(stack, d))
    decreases items
  {
    hide Stops, Pop, ReadFrom, ItemLines, ItemValid, SameLevel, ItemsThen, ItemHeight, ItemEntries, Itoa, Bump;
    ItemsUnfold(items, d, rest);
    last := stack;
    var open := Pop(stack, d);
    if items == [] {
      BeforeNothing(ReadFrom(rest, n, stack));
      SameAsItself(open);
    } else {
      var more := ItemsThen(items[1..], d, rest);
      ItemsStop(items[1..], d, rest);
      var inner := ReadItem(items[0], d, more, n, stack);
      last := ReadItems(items[1..], k + 1, d, rest, n + ItemHeight(items[0]), inner);
      BumpIsSameLevel(open);
      SameLevelTwice(Pop(last, d), Bump(open), open);
      BeforeTwice(ItemEntries(items[0], ItemPath(Top(open)), n, true),
                  ItemsEntries(items[1..], Top(open).path, k + 1, n + ItemHeight(items[0]), true),
                  ReadFrom(rest, n + ItemsHeight(items), last));
    }
  }

  /** A list written at its key's own column, which YAML allows: the reader closes the key before
      the first dash and counts the items under the mapping that holds the key. They are read
      whole, under paths that do not name it. */
  lemma FlatListReads(key: string, comment: string, items: seq<Item>, d: nat, rest: seq<string>, n: nat, stack: Stack)
    returns (last: Stack)
    requires KeyValid(key) && TextValid("", comment) && ItemsValid(items) && Stops(rest, d + 1)
    requires !Top(Pop(stack, d)).scalar
    ensures var owner := Top(Pop(stack, d));
            ReadFrom([Spaces(d) + Line(key + ":", comment)] + ItemsThen(items, d, rest), n, stack) ==
            Before([Entry(Below(owner.path, key), key, "", comment, n)] +
                   ItemsEntries(items, owner.path, owner.items, n + 1, true),
                   ReadFrom(rest, n + 1 + ItemsHeight(items), last))
    ensures SameLevel(Pop(last, d), Pop(stack, d))
  {
    hide *;
    var f, open := Field(key, Scalar("", comment)), Pop(stack, d);
    BareKey(f, d, ItemsThen(items, d, rest), n, Below(Top(open).path, key));
    ItemsStop(items, d, rest);
    ReadKey(f, d, ItemsThen(items, d, rest), n, stack);
    var base := Opened(f, d, open);
    OpenedPops(f, d, open);
    last := ReadItems(items, Top(open).items, d, rest, n + 1, base);
    BeforeTwice([OwnEntry(f, Below(Top(open).path, key), n)],
                ItemsEntries(items, Top(open).path, Top(open).items, n + 1, true),
                ReadFrom(rest, n + 1 + ItemsHeight(items), last));
  }

  /** A key with nothing on its line. */
  lemma BareKey(f: Field, d: nat, rest: seq<string>, n: nat, path: string)
    requires f.node.Scalar? && f.node.text == "" && TextValid("", f.node.comment)
    ensures NodeValid(f.node) && FieldText(f) == Line(f.key + ":", f.node.comment)
    ensures Headed(Spaces(d) + FieldText(f), f.node, d, rest) == [Spaces(d) + FieldText(f)] + rest
    ensures Remaining(f.node, d, rest) == rest && Taken(f.node) == 1
    ensures OwnEntry(f, path, n) == Entry(path, f.key, "", f.node.comment, n)
  {
    hide TextValid, Line, Spaces;
    assert [] + rest == rest;
  }

  lemma OpenedPops(f: Field, d: nat, open: Stack)
    requires Top(open).indent < d
    ensures Pop(Opened(f, d, open), d) == open
  {
    hide Below, StaysOpen;
    PopPushed(open, Top(Opened(f, d, open)), d);
    PopNothing(open, d);
  }

  // ---- Whole documents -------------------------------------------------------------------

  /** A document: its fields, and the line end it is written with. */
  datatype Document = Document(fields: seq<Field>, windows: bool)

  function LineEnd(windows: bool): string { if windows then "\r\n" else "\n" }

  /** The text of a document; nothing is indented at its top. */
  function Write(doc: Document): string { Unlines(FieldsLines(doc.fields, 0), LineEnd(doc.windows)) }

  function Scalars(doc: Document): seq<Entry> { FieldsEntries(doc.fields, "", 1, false) }

  ghost predicate OneLineEach(lines: seq<string>) { forall i :: 0 <= i < |lines| ==> OneLine(lines[i]) }

  lemma {:induction false} NormalizeLine(line: string, rest: string)
    requires OneLine(line)
    ensures NormalizeNewlines(line + rest) == line + NormalizeNewlines(rest)
  {
    if line == "" {
      assert "" + rest == rest;
    } else {
      assert (line + rest)[1..] == line[1..] + rest && (line + rest)[0] == line[0];
      NormalizeLine(line[1..], rest);
    }
  }

  lemma FirstLineBack(line: string, rest: string, windows: bool)
    requires OneLine(line)
    ensures Split(NormalizeNewlines(line + LineEnd(windows) + rest), '\n') ==
            [line] + Split(NormalizeNewlines(rest), '\n')
  {
    hide NormalizeNewlines, Split;
    var end := LineEnd(windows);
    assert line + end + rest == line + (end + rest);
    NormalizeLine(line, end + rest);
    EndNormalized(rest, windows);
    SplitFirst(line, NormalizeNewlines(rest), '\n');
    assert line + (['\n'] + NormalizeNewlines(rest)) == line + ['\n'] + NormalizeNewlines(rest);
  }

  /** Both line ends give the lines back, and an empty one after the last. */
  lemma {:induction false} LinesBack(lines: seq<string>, windows: bool)
    requires OneLineEach(lines)
    ensures Split(NormalizeNewlines(Unlines(lines, LineEnd(windows))), '\n') == lines + [""]
  {
    hide *;
    UnlinesFirst(lines, windows);
    if lines == [] {
      NoLinesBack(windows);
      assert [] + [""] == [""];
    } else {
      OneLineFirst(lines);
      LinesBack(lines[1..], windows);
      FirstLineBack(lines[0], Unlines(lines[1..], LineEnd(windows)), windows);
      assert lines + [""] == [lines[0]] + (lines[1..] + [""]);
    }
  }

  lemma UnlinesFirst(lines: seq<string>, windows: bool)
    ensures lines != [] ==>
              Unlines(lines, LineEnd(windows)) == lines[0] + LineEnd(windows) + Unlines(lines[1..], LineEnd(windows))
  {
  }

  lemma NoLinesBack(windows: bool)
    ensures Split(NormalizeNewlines(Unlines([], LineEnd(windows))), '\n') == [""]
  {
  }

  lemma OneLineFirst(lines: seq<string>)
    requires OneLineEach(lines) && lines != []
    ensures OneLine(lines[0]) && OneLineEach(lines[1..])
  {
    hide OneLine;
  }

  lemma EndNormalized(rest: string, windows: bool)
    ensures NormalizeNewlines(LineEnd(windows) + rest) == ['\n'] + NormalizeNewlines(rest)
  {
    var text := LineEnd(windows) + rest;
    if windows {
      assert text[0] == '\r' && text[1] == '\n' && text[2..] == rest;
    } else {
      assert text[0] == '\n' && text[1..] == rest;
    }
  }

  lemma SpacesOneLine(n: nat, s: string)
    requires OneLine(s)
    ensures OneLine(Spaces(n) + s)
  {
    assert forall c :: c in Spaces(n) ==> c == ' ';
  }

  lemma LineOneLine(text: string, comment: string)
    requires TextValid(text, comment)
    ensures OneLine(Line(text, comment)) && OneLine(DashText(Line(text, comment)))
  {
  }

  lemma FieldOneLine(f: Field)
    requires KeyValid(f.key) && NodeValid(f.node)
    ensures OneLine(FieldText(f)) && OneLine(DashText(FieldText(f)))
  {
    KeyTextValid(f.key, HeaderText(f.node), f.node.comment);
    LineOneLine(KeyText(f.key, HeaderText(f.node)), f.node.comment);
  }

  lemma {:induction false} NodeOneLine(node: Node, column: nat)
    requires NodeValid(node)
    ensures OneLineEach(NodeLines(node, column))
    decreases node, 0
  {
    hide OneLineEach, FieldsLines, ItemsLines, FieldsValid, ItemsValid, ScriptLines, ScriptValid, TextValid,
         IsBlockIndicator, HeaderText;
    match node
    case Scalar(_, _) => NoLineIsOneLine();
    case Script(deeper, _, _, lines) => ScriptOneLine(lines, column + 1 + deeper);
    case Map(deeper, _, fields) => FieldsOneLine(fields, column + 1 + deeper);
    case List(deeper, _, items) => ItemsOneLine(items, column + 1 + deeper);
  }

  lemma NoLineIsOneLine()
    ensures OneLineEach([])
  {
  }

  lemma ScriptOneLine(lines: seq<string>, column: nat)
    requires ScriptValid(lines)
    ensures OneLineEach(ScriptLines(lines, column))
  {
    hide TrimRight, TrimSpace;
    forall i | 0 <= i < |lines| ensures OneLine(ScriptLines(lines, column)[i]) {
      assert ScriptLineValid(lines[i]);
      SpacesOneLine(column, lines[i]);
    }
  }

  lemma {:induction false} FieldsOneLine(fields: seq<Field>, column: nat)
    requires FieldsValid(fields)
    ensures OneLineEach(FieldsLines(fields, column))
    decreases fields
  {
    hide OneLine, NodeLines, NodeValid, KeyValid, FieldText;
    if fields != [] {
      FieldOneLine(fields[0]);
      SpacesOneLine(column, FieldText(fields[0]));
      NodeOneLine(fields[0].node, column);
      FieldsOneLine(fields[1..], column);
    }
  }

  lemma {:induction false} ItemOneLine(item: Item, column: nat)
    requires ItemValid(item)
    ensures OneLineEach(ItemLines(item, column))
    decreases item, 0
  {
    hide OneLine, NodeLines, NodeValid, KeyValid, FieldText, FieldsLines, DashText, TextValid, OpensMapping, Line;
    match item
    case ScalarItem(text, comment) =>
      LineOneLine(text, comment);
      SpacesOneLine(column, DashText(Line(text, comment)));
    case MapItem(fields) =>
      FieldOneLine(fields[0]);
      SpacesOneLine(column, DashText(FieldText(fields[0])));
      NodeOneLine(fields[0].node, column + 2);
      FieldsOneLine(fields[1..], column + 2);
  }

  lemma {:induction false} ItemsOneLine(items: seq<Item>, column: nat)
    requires ItemsValid(items)
    ensures OneLineEach(ItemsLines(items, column))
    decreases items
  {
    hide OneLine, ItemLines, ItemValid;
    if items != [] {
      ItemOneLine(items[0], column);
      ItemsOneLine(items[1..], column);
    }
  }

  lemma WrittenLines(doc: Document)
    requires FieldsValid(doc.fields)
    ensures Parse(Write(doc)) == ReadFrom(FieldsThen(doc.fields, 0, [""]), 1, ROOT)
  {
    FieldsOneLine(doc.fields, 0);
    hide FieldsValid, FieldsLines, OneLineEach, ReadFrom, Split, NormalizeNewlines, Unlines;
    LinesBack(FieldsLines(doc.fields, 0), doc.windows);
  }

  lemma EndIsBlank()
    ensures AllBlank([""]) && Stops([""], 1) && Pop(ROOT, 0) == ROOT && Top(ROOT) == Frame(-1, "", false, 0)
  {
    EmptyIsBlank();
    assert BlankLine("");
  }

  /** What reading a written document gives, whatever its shape. */
  lemma WriteReads(doc: Document)
    requires FieldsValid(doc.fields)
    ensures Parse(Write(doc)) == Ok(FieldsEntries(doc.fields, "", 1, true))
  {
    hide *;
    EndIsBlank();
    WrittenLines(doc);
    var last := ReadFields(doc.fields, 0, [""], 1, ROOT);
    BlanksReadNothing([""], 1 + FieldsHeight(doc.fields), last);
    BeforeEnd<Entry, Refusal>(FieldsEntries(doc.fields, "", 1, true));
  }

  // ---- Exactly the scalars of the tree ---------------------------------------------------

  /** The first key of an item, when others follow it, holds a value on its own line. */
  predicate NodeShaped(node: Node)
    decreases node, 0
  {
    match node
    case Map(_, _, fields) => FieldsShaped(fields)
    case List(_, _, items) => ItemsShaped(items)
    case _ => true
  }

  predicate FieldsShaped(fields: seq<Field>)
    decreases fields
  {
    fields == [] || (NodeShaped(fields[0].node) && FieldsShaped(fields[1..]))
  }

  predicate ItemShaped(item: Item)
    decreases item, 0
  {
    item.MapItem? ==>
      (|item.fields| > 1 ==> !StaysOpen(item.fields[0].node)) &&
      (item.fields != [] ==> NodeShaped(item.fields[0].node) && FieldsShaped(item.fields[1..]))
  }

  predicate ItemsShaped(items: seq<Item>)
    decreases items
  {
    items == [] || (ItemShaped(items[0]) && ItemsShaped(items[1..]))
  }

  lemma SplitEqual(a: seq<Entry>, b: seq<Entry>, c: seq<Entry>, d: seq<Entry>)
    requires |a| == |c|
    ensures a + b == c + d <==> a == c && b == d
  {
    if a + b == c + d {
      assert (a + b)[..|a|] == a && (c + d)[..|a|] == c;
      assert (a + b)[|a|..] == b && (c + d)[|a|..] == d;
    }
  }

  lemma {:induction false} SameCountChildren(node: Node, p: string, q: string, n: nat)
    ensures |ChildEntries(node, p, n, true)| == |ChildEntries(node, q, n, false)|
    decreases node, 0
  {
    match node
    case Map(_, _, fields) => SameCountFields(fields, p, q, n);
    case List(_, _, items) => SameCountItems(items, p, q, 0, n);
    case _ =>
  }

  lemma {:induction false} SameCountFields(fields: seq<Field>, p: string, q: string, n: nat)
    ensures |FieldsEntries(fields, p, n, true)| == |FieldsEntries(fields, q, n, false)|
    decreases fields
  {
    hide ChildEntries, OwnEntry, Below, Height;
    if fields != [] {
      SameCountChildren(fields[0].node, Below(p, fields[0].key), Below(q, fields[0].key), n + 1);
      SameCountFields(fields[1..], p, q, n + 1 + Height(fields[0].node));
    }
  }

  lemma {:induction false} SameCountItem(item: Item, p: string, q: string, n: nat)
    ensures |ItemEntries(item, p, n, true)| == |ItemEntries(item, q, n, false)|
    decreases item, 0
  {
    hide FieldsEntries, ChildEntries, OwnEntry, StaysOpen, Height;
    if item.MapItem? && item.fields != [] {
      var f := item.fields[0];
      SameCountChildren(f.node, p + "." + f.key, q + "." + f.key, n + 1);
      SameCountFields(item.fields[1..], if StaysOpen(f.node) then p + "." + f.key else p, q, n + 1 + Height(f.node));
    }
  }

  lemma {:induction false} SameCountItems(items: seq<Item>, p: string, q: string, k: nat, n: nat)
    ensures |ItemsEntries(items, p, k, n, true)| == |ItemsEntries(items, q, k, n, false)|
    decreases items
  {
    hide ItemEntries, Itoa, ItemHeight;
    if items != [] {
      SameCountItem(items[0], p + "[" + Itoa(k) + "]", q + "[" + Itoa(k) + "]", n);
      SameCountItems(items[1..], p, q, k + 1, n + ItemHeight(items[0]));
    }
  }

  lemma {:induction false} ChildrenExactly(node: Node, path: string, n: nat)
    requires NodeValid(node)
    ensures ChildEntries(node, path, n, true) == ChildEntries(node, path, n, false) <==> NodeShaped(node)
    decreases node, 0
  {
    match node
    case Map(_, _, fields) => FieldsExactly(fields, path, n);
    case List(_, _, items) => ItemsExactly(items, path, 0, n);
    case _ =>
  }

  lemma {:induction false} FieldsExactly(fields: seq<Field>, path: string, n: nat)
    requires FieldsValid(fields)
    ensures FieldsEntries(fields, path, n, true) == FieldsEntries(fields, path, n, false) <==> FieldsShaped(fields)
    decreases fields
  {
    hide ChildEntries, NodeShaped, NodeValid, KeyValid, OwnEntry, Below, Height;
    if fields != [] {
      var f, full := fields[0], Below(path, fields[0].key);
      var m := n + 1 + Height(f.node);
      var own := [OwnEntry(f, full, n)];
      var read, meant := ChildEntries(f.node, full, n + 1, true), ChildEntries(f.node, full, n + 1, false);
      ChildrenExactly(f.node, full, n + 1);
      FieldsExactly(fields[1..], path, m);
      SameCountChildren(f.node, full, full, n + 1);
      SplitEqual(own + read, FieldsEntries(fields[1..], path, m, true),
                 own + meant, FieldsEntries(fields[1..], path, m, false));
      SplitEqual(own, read, own, meant);
    }
  }

  lemma FirstPath(fields: seq<Field>, path: string, n: nat, asRead: bool)
    requires fields != []
    ensures FieldsEntries(fields, path, n, asRead) != []
    ensures FieldsEntries(fields, path, n, asRead)[0].path == Below(path, fields[0].key)
  {
  }

  lemma {:induction false} ItemExactly(item: Item, path: string, n: nat)
    requires ItemValid(item) && path != ""
    ensures ItemEntries(item, path, n, true) == ItemEntries(item, path, n, false) <==> ItemShaped(item)
    decreases item, 0
  {
    hide ChildEntries, NodeShaped, NodeValid, KeyValid, FieldsEntries, OwnEntry, StaysOpen, TextValid, OpensMapping,
         Height, FieldsShaped, FieldsValid;
    if item.MapItem? {
      var f, full, rest := item.fields[0], path + "." + item.fields[0].key, item.fields[1..];
      var m := n + 1 + Height(f.node);
      var place := if StaysOpen(f.node) then full else path;
      var own := [OwnEntry(f, full, n)];
      var read, meant := ChildEntries(f.node, full, n + 1, true), ChildEntries(f.node, full, n + 1, false);
      FirstValid(item.fields);
      ChildrenExactly(f.node, full, n + 1);
      FieldsExactly(rest, path, m);
      SameCountChildren(f.node, full, full, n + 1);
      SplitEqual(own + read, FieldsEntries(rest, place, m, true), own + meant, FieldsEntries(rest, path, m, false));
      SplitEqual(own, read, own, meant);
      if rest == [] {
        NoFields(place, path, m);
        NoFields(path, path, m);
      } else {
        FirstPath(rest, place, m, true);
        FirstPath(rest, path, m, false);
        assert StaysOpen(f.node) ==> |Below(full, rest[0].key)| > |Below(path, rest[0].key)|;
      }
    }
  }

  lemma NoFields(p: string, q: string, n: nat)
    ensures FieldsEntries([], p, n, true) == FieldsEntries([], q, n, false)
  {
  }

  lemma {:induction false} ItemsExactly(items: seq<Item>, path: string, k: nat, n: nat)
    requires ItemsValid(items)
    ensures ItemsEntries(items, path, k, n, true) == ItemsEntries(items, path, k, n, false) <==> ItemsShaped(items)
    decreases items
  {
    hide ItemEntries, ItemShaped, ItemValid, Itoa;
    if items != [] {
      var full, m := path + "[" + Itoa(k) + "]", n + ItemHeight(items[0]);
      ItemExactly(items[0], full, n);
      ItemsExactly(items[1..], path, k + 1, m);
      SameCountItem(items[0], full, full, n);
      SplitEqual(ItemEntries(items[0], full, n, true), ItemsEntries(items[1..], path, k + 1, m, true),
                 ItemEntries(items[0], full, n, false), ItemsEntries(items[1..], path, k + 1, m, false));
    }
  }

  /** Writing and reading back gives exactly the scalars of the tree, with their paths, comments
      and lines in document order, when and only when the first key of every item with several
      keys holds a value on its own line. */
  lemma WriteReadRoundTrip(doc: Document)
    requires FieldsValid(doc.fields)
    ensures Parse(Write(doc)) == Ok(Scalars(doc)) <==> FieldsShaped(doc.fields)
  {
    WriteReads(doc);
    FieldsExactly(doc.fields, "", 1);
  }

  // ---- What is read, in the words of the file --------------------------------------------

  /** A block scalar under `|` keeps its lines, one under `>` is one line with a space where a line
      ended, trimmed. */
  lemma ScriptValue(deeper: nat, indicator: string, comment: string, lines: seq<string>)
    requires indicator != "" && TextValid(indicator, comment) && ScriptValid(lines)
    ensures indicator[0] == '|' ==>
              var node := Script(deeper, indicator, comment, lines);
              NodeValid(node) && Split(Value(node), '\n') == lines && Value(node) + "\n" == Unlines(lines, "\n")
    ensures indicator[0] == '>' ==>
              var node := Script(deeper, indicator, comment, lines);
              NodeValid(node) && Value(node) == TrimSpace(Spaced(lines)) && '\n' !in Value(node)
  {
    LinesHaveNoEnd(lines);
    hide ScriptValid, TextValid, TrimSpace, Split, ScriptLineValid;
    SplitJoin(lines, '\n');
    JoinIsUnlines(lines);
    JoinIsSpaced(lines);
    SpacedHasNoEnd(lines);
  }

  /** The lines with one space between any two. */
  ghost function Spaced(lines: seq<string>): string {
    if lines == [] then "" else if |lines| == 1 then lines[0] else lines[0] + " " + Spaced(lines[1..])
  }

  lemma LinesHaveNoEnd(lines: seq<string>)
    requires ScriptValid(lines)
    ensures |lines| > 0 && forall i :: 0 <= i < |lines| ==> '\n' !in lines[i]
  {
    forall i | 0 <= i < |lines| ensures '\n' !in lines[i] { assert ScriptLineValid(lines[i]); }
  }

  lemma {:induction false} JoinIsUnlines(lines: seq<string>)
    requires lines != []
    ensures Join(lines, '\n') + "\n" == Unlines(lines, "\n")
  {
    if |lines| == 1 {
      assert Unlines(lines[1..], "\n") == "" && lines[0] + "\n" + "" == lines[0] + "\n";
    } else {
      JoinIsUnlines(lines[1..]);
      assert lines[0] + ['\n'] + Join(lines[1..], '\n') + "\n" == lines[0] + "\n" + (Join(lines[1..], '\n') + "\n");
    }
  }

  lemma {:induction false} JoinIsSpaced(lines: seq<string>)
    ensures Join(lines, ' ') == Spaced(lines)
  {
    if |lines| > 1 {
      JoinIsSpaced(lines[1..]);
      assert [' '] == " ";
    }
  }

  lemma {:induction false} SpacedHasNoEnd(lines: seq<string>)
    requires forall i :: 0 <= i < |lines| ==> '\n' !in lines[i]
    ensures '\n' !in Spaced(lines)
  {
    if |lines| > 1 {
      SpacedHasNoEnd(lines[1..]);
    }
  }

  /** A text in matching quotes is read as what is between them, any other as it stands. */
  lemma QuotesAreTaken(inner: string, text: string)
    ensures Unquote("'" + inner + "'") == inner && Unquote("\"" + inner + "\"") == inner
    ensures (forall between :: text != "'" + between + "'" && text != "\"" + between + "\"") ==> Unquote(text) == text
  {
    var single, double := "'" + inner + "'", "\"" + inner + "\"";
    assert single[1..|single| - 1] == inner && double[1..|double| - 1] == inner;
    if |text| >= 2 && text[0] == text[|text| - 1] && (text[0] == '\'' || text[0] == '"') {
      var between := text[1..|text| - 1];
      assert text == [text[0]] + between + [text[0]];
    }
  }

  /** The keys there are, and what may follow their colon. */
  lemma MappingOpensExactly(body: string)
    ensures OpensMapping(body) <==>
            exists key, tail :: IsKeyText(key) && MayFollow(tail) && body == key + ":" + tail
  {
    if OpensMapping(body) {
      var n := KeyLength(body);
      var key, tail := body[..n], body[n + 1..];
      assert tail != "" ==> tail[0] == body[n + 1];
      assert IsKeyText(key) && MayFollow(tail) && body == key + ":" + tail;
    }
    if key, tail :| IsKeyText(key) && MayFollow(tail) && body == key + ":" + tail { KeyOpens(key, tail); }
  }

  /** White space, or nothing. */
  ghost predicate MayFollow(tail: string) { tail == "" || tail[0] in {' ', '\t', '\n', '\U{0C}', '\r'} }

  lemma KeyOpens(key: string, tail: string)
    requires IsKeyText(key) && MayFollow(tail)
    ensures OpensMapping(key + ":" + tail)
  {
    var body := key + ":" + tail;
    assert forall i :: 0 <= i < |key| ==> InKey(key[i]);
    KeyEnds(key, ":" + tail);
    assert key + (":" + tail) == body;
    hide KeyLength, InKey;
    assert body[0] == key[0] && body[|key|] == ':' && (tail != "" ==> body[|key| + 1] == tail[0]);
  }

  ghost predicate IsKeyText(key: string) {
    && key != "" && ('a' <= key[0] <= 'z' || 'A' <= key[0] <= 'Z' || key[0] == '_')
    && forall i :: 0 <= i < |key| ==>
         'a' <= key[i] <= 'z' || 'A' <= key[i] <= 'Z' || '0' <= key[i] <= '9' || key[i] in {'_', '.', '-'}
  }

  lemma KeysAre(key: string)
    ensures KeyValid(key) <==> IsKeyText(key)
  {
  }

  /** Only spaces and tabs are taken off the end of a line. */
  lemma {:induction false} TrimRightExactly(text: string, after: string)
    requires forall i :: 0 <= i < |after| ==> after[i] == ' ' || after[i] == '\t'
    requires text != "" ==> text[|text| - 1] != ' ' && text[|text| - 1] != '\t'
    ensures TrimRight(text + after) == text
    decreases |after|
  {
    var s := text + after;
    if after == "" {
      assert s == text;
    } else {
      assert s[|s| - 1] == after[|after| - 1];
      assert s[..|s| - 1] == text + after[..|after| - 1];
      TrimRightExactly(text, after[..|after| - 1]);
    }
  }

  /** Only a carriage return before a newline is dropped. */
  lemma {:induction false} ReturnsStay(s: string)
    requires '\n' !in s
    ensures NormalizeNewlines(s) == s
  {
    if s != "" {
      ReturnsStay(s[1..]);
      assert s == [s[0]] + s[1..];
    }
  }

  /** An item starts with a dash that stands alone or before a space. */
  lemma ItemsStart(body: string)
    ensures IsItem(body) <==> body == "-" || exists text :: body == "- " + text
  {
    if |body| >= 2 && body[0] == '-' && body[1] == ' ' { assert body == "- " + body[2..]; }
  }
}
