/** Which lines of the new file a zero-context unified diff inserts. */
module DiffLines {
  import opened Text
  import opened Wrappers

  const MAX_INT := 0x7FFF_FFFF_FFFF_FFFF

  /** The successor in 64 bits. */
  function Next(n: int): int { if n == MAX_INT then -0x8000_0000_0000_0000 else n + 1 }

  // ---- The hunk header -------------------------------------------------------------------

  predicate AllDigits(s: string) { forall i :: 0 <= i < |s| ==> IsDigit(s[i]) }

  /** `strconv.Atoi`: an optional sign and decimal digits, in 64 bits. */
  function Atoi(s: string): Option<int> {
    var digits := if s != "" && (s[0] == '-' || s[0] == '+') then s[1..] else s;
    if digits == "" || !AllDigits(digits) then None
    else
      var value := if s[0] == '-' then -DigitsValue(digits) else DigitsValue(digits);
      if -0x8000_0000_0000_0000 <= value <= MAX_INT then Some(value) else None
  }

  /** The text before the first space or at sign, if there is one. */
  function BeforeSpaceOrAt(s: string): Option<string> {
    if s == "" then None
    else if s[0] == ' ' || s[0] == '@' then Some("")
    else
      var rest := BeforeSpaceOrAt(s[1..]);
      if rest.None? then None else Some([s[0]] + rest.value)
  }

  function ParseHunkNewStart(header: string): int {
    if '+' !in header then 0 else
      var segment := BeforeSpaceOrAt(header[FirstIndex(header, '+') + 1..]);
      if segment.None? then 0 else
        var start := if ',' in segment.value then segment.value[..FirstIndex(segment.value, ',')] else segment.value;
        var parsed := Atoi(TrimSpace(start));
        if parsed.None? then 0 else parsed.value
  }

  // ---- Reading the diff ------------------------------------------------------------------

  datatype State = State(current: int, added: set<int>)

  /** What one line does to the counter and to the lines found. */
  function Step(s: State, line: string): State {
    if StartsWith(line, "@@") then s.(current := ParseHunkNewStart(line))
    else if line == "" then s
    else if line[0] == '+' then
      if StartsWith(line, "+++") then s
      else State(Next(s.current), if s.current > 0 then s.added + {s.current} else s.added)
    else if line[0] == ' ' then s.(current := Next(s.current))
    else s
  }

  function Run(s: State, lines: seq<string>): State
    decreases |lines|
  {
    if lines == [] then s else Run(Step(s, lines[0]), lines[1..])
  }

  function Added(output: string): set<int> { Run(State(0, {}), Split(output, '\n')).added }

  method AddedLines(output: string) returns (added: set<int>)
    ensures added == Added(output)
  {
    hide ParseHunkNewStart;
    var lines := Split(output, '\n');
    added := {};
    var current := 0;
    for i := 0 to |lines|
      invariant Run(State(current, added), lines[i..]) == Run(State(0, {}), lines)
    {
      var line := lines[i];
      assert lines[i..][0] == line && lines[i..][1..] == lines[i + 1..];
      if |line| >= 2 && line[..2] == "@@" {
        current := ParseHunkNewStart(line);
        continue;
      }
      if |line| == 0 {
        continue;
      }
      assert !StartsWith(line, "@@");
      if line[0] == '+' {
        if |line| >= 3 && line[..3] == "+++" {
          continue;
        }
        assert !StartsWith(line, "+++");
        if current > 0 {
          added := added + {current};
        }
        current := Next(current);
      } else if line[0] == ' ' {
        current := Next(current);
      }
    }
  }

  // ---- The diffs there are ---------------------------------------------------------------

  /** One change: `removed` lines give way to `inserted` ones. `section` is what follows the
      ranges of the header, and a note follows the last line of a file without a final
      newline. */
  datatype Hunk = Hunk(oldStart: nat, removed: seq<string>, newStart: nat, inserted: seq<string>,
                       section: string, oldNote: bool, newNote: bool)

  /** A zero-context diff of one file: the lines that name it and its hunks. */
  datatype Diff = Diff(prelude: seq<string>, hunks: seq<Hunk>)

  function Range(start: nat, count: nat): string { if count == 1 then Itoa(start) else Itoa(start) + "," + Itoa(count) }

  function Header(h: Hunk): string {
    "@@ -" + Range(h.oldStart, |h.removed|) + " +" + (Range(h.newStart, |h.inserted|) + " @@" + h.section)
  }

  function Marked(mark: char, lines: seq<string>): (r: seq<string>)
    ensures |r| == |lines| && forall i :: 0 <= i < |r| ==> r[i] == [mark] + lines[i]
  {
    seq(|lines|, i requires 0 <= i < |lines| => [mark] + lines[i])
  }

  function Note(present: bool): seq<string> { if present then ["\\ No newline at end of file"] else [] }

  function HunkLines(h: Hunk): seq<string> {
    [Header(h)] + (Marked('-', h.removed) + Note(h.oldNote)) + (Marked('+', h.inserted) + Note(h.newNote))
  }

  function HunksLines(hunks: seq<Hunk>): seq<string> {
    if hunks == [] then [] else HunkLines(hunks[0]) + HunksLines(hunks[1..])
  }

  /** Every line of the diff, each ended by a newline. */
  function DiffText(d: Diff): string { Unlines(d.prelude + HunksLines(d.hunks), "\n") }

  predicate OneLine(s: string) { '\n' !in s }

  /** A line of the prelude: it names the files or their modes. */
  predicate NamesFile(line: string) {
    OneLine(line) && line != "" &&
    (StartsWith(line, "+++") || StartsWith(line, "---") || line[0] !in {'+', '-', ' ', '@'})
  }

  predicate HunkValid(h: Hunk) {
    (h.inserted != [] ==> h.newStart > 0) && h.newStart + |h.inserted| <= MAX_INT && OneLine(h.section) &&
    (forall i :: 0 <= i < |h.removed| ==> OneLine(h.removed[i])) &&
    forall i :: 0 <= i < |h.inserted| ==> OneLine(h.inserted[i])
  }

  /** A diff of a file whose lines can be counted in 64 bits; its hunks do not overlap. */
  ghost predicate Valid(d: Diff) {
    (forall i :: 0 <= i < |d.prelude| ==> NamesFile(d.prelude[i])) &&
    (forall i :: 0 <= i < |d.hunks| ==> HunkValid(d.hunks[i])) &&
    forall i, j :: 0 <= i < j < |d.hunks| ==> d.hunks[i].newStart + |d.hunks[i].inserted| <= d.hunks[j].newStart
  }

  /** `count` line numbers from `start`. */
  ghost function Lines(start: int, count: nat): (r: set<int>)
    ensures forall n :: n in r <==> start <= n < start + count
  {
    if count == 0 then {} else Lines(start, count - 1) + {start + count - 1}
  }

  /** The numbers the inserted lines have in the new file. */
  ghost function Inserted(hunks: seq<Hunk>): set<int> {
    if hunks == [] then {} else Lines(hunks[0].newStart, |hunks[0].inserted|) + Inserted(hunks[1..])
  }

  predicate LooksLikeHeader(line: string) { StartsWith(line, "++") }

  /** An inserted line that starts with two plus signs reads as a file name. */
  ghost predicate NoneLooksLikeHeader(hunks: seq<Hunk>) {
    forall i :: 0 <= i < |hunks| ==> NoneIn(hunks[i].inserted)
  }

  ghost predicate NoneIn(lines: seq<string>) { forall j :: 0 <= j < |lines| ==> !LooksLikeHeader(lines[j]) }

  // ---- The header is read back -----------------------------------------------------------

  lemma {:induction false} SegmentRead(s: string, rest: string)
    requires ' ' !in s && '@' !in s
    ensures BeforeSpaceOrAt(s + [' '] + rest) == Some(s)
  {
    var text := s + [' '] + rest;
    if s != "" {
      assert text[1..] == s[1..] + [' '] + rest && text[0] == s[0];
      SegmentRead(s[1..], rest);
      assert s == [s[0]] + s[1..];
    }
  }

  lemma RangeIsDigits(start: nat, count: nat)
    ensures forall c :: c in Range(start, count) ==> IsDigit(c) || c == ','
  {
  }

  lemma AtoiReads(n: nat)
    requires n <= MAX_INT
    ensures Atoi(TrimSpace(Itoa(n))) == Some(n)
  {
    var s := Itoa(n);
    assert IsDigit(s[0]) && IsDigit(s[|s| - 1]);
    assert !IsSpace(s[0]) && !IsSpace(s[|s| - 1]);
    assert TrimSpace(s) == s;
    DigitsRoundTrip(n);
  }

  lemma HeaderParsed(before: string, segment: string, rest: string, start: nat)
    requires '+' !in before && BeforeSpaceOrAt(segment + [' '] + rest) == Some(segment)
    requires Atoi(TrimSpace(if ',' in segment then segment[..FirstIndex(segment, ',')] else segment)) == Some(start)
    ensures ParseHunkNewStart(before + ['+'] + (segment + [' '] + rest)) == start
  {
    hide Atoi, TrimSpace, BeforeSpaceOrAt, FirstIndex;
    var after := segment + [' '] + rest;
    var header := before + ['+'] + after;
    FirstIndexIs(before, after, '+');
    assert header[|before|] == '+' && header[|before| + 1..] == after;
  }

  lemma HeaderShape(h: Hunk)
    ensures var removed, added := Range(h.oldStart, |h.removed|), Range(h.newStart, |h.inserted|);
            Header(h) == ("@@ -" + removed + " ") + ['+'] + (added + [' '] + ("@@" + h.section))
  {
    hide Range;
    var added := Range(h.newStart, |h.inserted|);
    assert added + " @@" + h.section == added + [' '] + ("@@" + h.section);
  }

  lemma RangeAvoids(start: nat, count: nat)
    ensures '+' !in Range(start, count) && ' ' !in Range(start, count) && '@' !in Range(start, count)
  {
    RangeIsDigits(start, count);
    hide Range;
  }

  lemma HeaderStarts(h: Hunk)
    ensures StartsWith(Header(h), "@@")
  {
    hide Range;
  }

  lemma HeaderReadsBack(h: Hunk)
    requires h.newStart <= MAX_INT
    ensures StartsWith(Header(h), "@@") && ParseHunkNewStart(Header(h)) == h.newStart
  {
    hide *;
    HeaderStarts(h);
    HeaderShape(h);
    RangeAvoids(h.oldStart, |h.removed|);
    RangeAvoids(h.newStart, |h.inserted|);
    var removed, added := Range(h.oldStart, |h.removed|), Range(h.newStart, |h.inserted|);
    AtoiReads(h.newStart);
    SegmentRead(added, "@@" + h.section);
    SegmentStart(h.newStart, |h.inserted|);
    HeaderParsed("@@ -" + removed + " ", added, "@@" + h.section, h.newStart);
  }

  lemma SegmentStart(start: nat, count: nat)
    ensures var s := Range(start, count);
            (if ',' in s then s[..FirstIndex(s, ',')] else s) == Itoa(start)
  {
    if count != 1 {
      var s := Range(start, count);
      assert s == Itoa(start) + [','] + Itoa(count);
      assert s[|Itoa(start)|] == ',';
      FirstIndexIs(Itoa(start), Itoa(count), ',');
    }
  }

  // ---- The run over a diff ---------------------------------------------------------------

  lemma {:induction false} RunConcat(s: State, a: seq<string>, b: seq<string>)
    ensures Run(s, a + b) == Run(Run(s, a), b)
    decreases |a|
  {
    hide Step;
    if a == [] {
      assert a + b == b;
    } else {
      assert (a + b)[1..] == a[1..] + b;
      RunConcat(Step(s, a[0]), a[1..], b);
    }
  }

  /** Lines the reader passes over. */
  predicate Idle(line: string) {
    !StartsWith(line, "@@") && (line == "" || line[0] !in {'+', ' '} || StartsWith(line, "+++"))
  }

  lemma {:induction false} RunIdle(s: State, lines: seq<string>)
    requires forall i :: 0 <= i < |lines| ==> Idle(lines[i])
    ensures Run(s, lines) == s
  {
    if lines != [] {
      assert Step(s, lines[0]) == s;
      hide Step, Idle;
      RunIdle(s, lines[1..]);
    }
  }

  /** How many inserted lines are seen. */
  function Seen(lines: seq<string>): (n: nat)
    ensures n <= |lines|
  {
    if lines == [] then 0 else (if LooksLikeHeader(lines[0]) then 0 else 1) + Seen(lines[1..])
  }

  lemma {:induction false} SeenAll(lines: seq<string>)
    ensures Seen(lines) == |lines| <==> NoneIn(lines)
  {
    hide LooksLikeHeader;
    if lines != [] {
      SeenAll(lines[1..]);
      assert NoneIn(lines) <==> !LooksLikeHeader(lines[0]) && NoneIn(lines[1..]);
    }
  }

  lemma StepPlus(s: State, x: string)
    requires 0 < s.current < MAX_INT
    ensures Step(s, ['+'] + x) ==
            if LooksLikeHeader(x) then s else State(s.current + 1, s.added + {s.current})
  {
    var line := ['+'] + x;
    assert !StartsWith(line, "@@") by { assert line[0] != "@@"[0]; }
    if StartsWith(line, "+++") {
      assert x == line[1..] && |x| >= 2 && x[0] == line[1] == "+++"[1] && x[1] == line[2] == "+++"[2];
    }
    if LooksLikeHeader(x) {
      assert x[0] == "++"[0] && x[1] == "++"[1];
      assert line[..3] == "+++";
    }
  }

  /** Inserted lines are numbered from the start of the hunk, the unseen ones left out. */
  lemma {:induction false} RunInserted(s: State, lines: seq<string>)
    requires lines != [] ==> 0 < s.current && s.current + |lines| <= MAX_INT
    ensures Run(s, Marked('+', lines)) == State(s.current + Seen(lines), s.added + Lines(s.current, Seen(lines)))
    decreases |lines|
  {
    hide Step, LooksLikeHeader;
    if lines == [] {
      assert s.added + Lines(s.current, 0) == s.added;
    } else {
      var next := Step(s, ['+'] + lines[0]);
      StepPlus(s, lines[0]);
      assert Marked('+', lines)[1..] == Marked('+', lines[1..]);
      RunInserted(next, lines[1..]);
      assert !LooksLikeHeader(lines[0]) ==>
             Lines(s.current, Seen(lines)) == {s.current} + Lines(s.current + 1, Seen(lines[1..]));
    }
  }

  lemma RunHunk(s: State, h: Hunk)
    requires HunkValid(h)
    ensures Run(s, HunkLines(h)) ==
            State(h.newStart + Seen(h.inserted), s.added + Lines(h.newStart, Seen(h.inserted)))
  {
    var head, gone, ins, note := Header(h), Marked('-', h.removed) + Note(h.oldNote), Marked('+', h.inserted),
                                Note(h.newNote);
    HeaderReadsBack(h);
    var s1 := State(h.newStart, s.added);
    assert Run(s, [head]) == s1 by { assert Step(s, head) == s1; assert [head][1..] == []; }
    IdleLines(h);
    hide Run, Step, HunkValid, Marked, Header, Idle, Note;
    RunConcat(s, [head] + gone, ins + note);
    RunConcat(s, [head], gone);
    RunConcat(s1, ins, note);
    RunIdle(s1, gone);
    assert h.inserted != [] ==> 0 < s1.current && s1.current + |h.inserted| <= MAX_INT by { HunkBounds(h); }
    RunInserted(s1, h.inserted);
    RunIdle(Run(s1, ins), note);
  }

  lemma HunkBounds(h: Hunk)
    requires HunkValid(h)
    ensures h.inserted != [] ==> 0 < h.newStart && h.newStart + |h.inserted| <= MAX_INT
  {
  }

  lemma IdleLines(h: Hunk)
    ensures var gone := Marked('-', h.removed) + Note(h.oldNote);
            forall i :: 0 <= i < |gone| ==> Idle(gone[i])
    ensures forall i :: 0 <= i < |Note(h.newNote)| ==> Idle(Note(h.newNote)[i])
  {
    var gone := Marked('-', h.removed) + Note(h.oldNote);
    forall i | 0 <= i < |gone| ensures Idle(gone[i]) {
      assert gone[i][0] == '-' || gone[i][0] == '\\';
      assert "@@"[0] == '@';
    }
    assert "@@"[0] == '@';
  }

  /** The lines found in a run of hunks. */
  ghost function Found(hunks: seq<Hunk>): set<int> {
    if hunks == [] then {} else Lines(hunks[0].newStart, Seen(hunks[0].inserted)) + Found(hunks[1..])
  }

  lemma {:induction false} RunHunks(s: State, hunks: seq<Hunk>)
    requires forall i :: 0 <= i < |hunks| ==> HunkValid(hunks[i])
    ensures Run(s, HunksLines(hunks)).added == s.added + Found(hunks)
    decreases |hunks|
  {
    hide HunkValid, HunkLines, Lines;
    if hunks != [] {
      RunConcat(s, HunkLines(hunks[0]), HunksLines(hunks[1..]));
      RunHunk(s, hunks[0]);
      var next := Run(s, HunkLines(hunks[0]));
      hide Run;
      RunHunks(next, hunks[1..]);
    }
  }

  lemma NoLines()
    ensures Split("", '\n') == [""]
  {
  }

  lemma {:induction false} SplitUnlines(lines: seq<string>)
    requires AllLines(lines)
    ensures Split(Unlines(lines, "\n"), '\n') == lines + [""]
  {
    hide Split;
    if lines == [] {
      NoLines();
    } else {
      SplitUnlines(lines[1..]);
      SplitFirst(lines[0], Unlines(lines[1..], "\n"), '\n');
      assert lines + [""] == [lines[0]] + (lines[1..] + [""]);
    }
  }

  ghost predicate AllLines(lines: seq<string>) { forall i :: 0 <= i < |lines| ==> OneLine(lines[i]) }

  lemma HeaderIsLine(h: Hunk)
    requires OneLine(h.section)
    ensures OneLine(Header(h))
  {
    RangeIsDigits(h.oldStart, |h.removed|);
    RangeIsDigits(h.newStart, |h.inserted|);
    hide Range;
  }

  lemma MarkedAreLines(mark: char, lines: seq<string>)
    requires mark != '\n' && AllLines(lines)
    ensures AllLines(Marked(mark, lines))
  {
    forall i | 0 <= i < |lines| ensures OneLine(Marked(mark, lines)[i]) { assert OneLine(lines[i]); }
  }

  lemma NoteIsLine(present: bool)
    ensures AllLines(Note(present))
  {
  }

  lemma HunkIsLines(h: Hunk)
    requires HunkValid(h)
    ensures AllLines(HunkLines(h))
  {
    HeaderIsLine(h);
    MarkedAreLines('-', h.removed);
    MarkedAreLines('+', h.inserted);
    NoteIsLine(h.oldNote);
    NoteIsLine(h.newNote);
    hide OneLine, Header, Marked, Note;
  }

  lemma {:induction false} HunksAreLines(hunks: seq<Hunk>)
    requires forall i :: 0 <= i < |hunks| ==> HunkValid(hunks[i])
    ensures AllLines(HunksLines(hunks))
  {
    hide HunkValid, HunkLines, OneLine;
    if hunks != [] {
      HunkIsLines(hunks[0]);
      HunksAreLines(hunks[1..]);
    }
  }

  /** What the reader finds in the text of a diff. */
  lemma AddedIsFound(d: Diff)
    requires Valid(d)
    ensures Added(DiffText(d)) == Found(d.hunks)
  {
    HunksAreLines(d.hunks);
    var lines := d.prelude + HunksLines(d.hunks);
    assert forall i :: 0 <= i < |d.prelude| ==> OneLine(d.prelude[i]) by {
      forall i | 0 <= i < |d.prelude| ensures OneLine(d.prelude[i]) { assert NamesFile(d.prelude[i]); }
    }
    SplitUnlines(lines);
    var start := State(0, {});
    forall i | 0 <= i < |d.prelude| ensures Idle(d.prelude[i]) { PreludeIdle(d.prelude[i]); }
    hide Step, Idle, Unlines, Split, NamesFile, HunkValid;
    RunConcat(start, lines, [""]);
    RunConcat(start, d.prelude, HunksLines(d.hunks));
    RunIdle(start, d.prelude);
    RunHunks(start, d.hunks);
    RunEmptyLine(Run(start, lines));
  }

  lemma RunEmptyLine(s: State)
    ensures Run(s, [""]) == s
  {
    assert Step(s, "") == s;
    assert [""][1..] == [];
  }

  lemma PreludeIdle(line: string)
    requires NamesFile(line)
    ensures Idle(line)
  {
    assert "@@"[0] == '@' && "+++"[0] == '+' && "---"[0] == '-';
  }

  // ---- Exactly the inserted lines --------------------------------------------------------

  lemma {:induction false} FoundWithin(hunks: seq<Hunk>, low: int)
    requires forall i :: 0 <= i < |hunks| ==> low <= hunks[i].newStart
    ensures Found(hunks) <= Inserted(hunks) && forall n :: n in Inserted(hunks) ==> low <= n
  {
    if hunks != [] { FoundWithin(hunks[1..], low); }
  }

  lemma {:induction false} FoundExactly(hunks: seq<Hunk>)
    requires forall i, j :: 0 <= i < j < |hunks| ==> hunks[i].newStart + |hunks[i].inserted| <= hunks[j].newStart
    ensures Found(hunks) == Inserted(hunks) <==> NoneLooksLikeHeader(hunks)
  {
    if hunks != [] {
      var h, rest := hunks[0], hunks[1..];
      var end := h.newStart + |h.inserted|;
      FoundExactly(rest);
      FoundWithin(rest, end);
      SeenAll(h.inserted);
      assert Found(rest) == Found(hunks) - Lines(h.newStart, |h.inserted|);
      assert Inserted(rest) == Inserted(hunks) - Lines(h.newStart, |h.inserted|);
      assert NoneLooksLikeHeader(hunks) <==> NoneIn(h.inserted) && NoneLooksLikeHeader(rest);
      if Seen(h.inserted) < |h.inserted| { assert end - 1 in Inserted(hunks) && end - 1 !in Found(hunks); }
    }
  }

  /** The reader finds the lines the headers speak for, across any number of hunks, when and only
      when no inserted line starts with two plus signs. */
  lemma HunksExactly(d: Diff)
    requires Valid(d)
    ensures Added(DiffText(d)) == Inserted(d.hunks) <==> NoneLooksLikeHeader(d.hunks)
    ensures Added(DiffText(d)) <= Inserted(d.hunks)
  {
    AddedIsFound(d);
    FoundExactly(d.hunks);
    FoundWithin(d.hunks, 0);
  }

  // ---- Two files and the edits between them ----------------------------------------------

  /** One step of the way from the old file to the new one. */
  datatype Edit = Keep(line: string) | Delete(line: string) | Insert(line: string)

  type Script = seq<Edit>

  /** The edits that leave a line in the new file, one for each of its lines. */
  function NewSide(script: Script): Script {
    if script == [] then [] else (if script[0].Delete? then [] else [script[0]]) + NewSide(script[1..])
  }

  function LinesOf(edits: Script): (r: seq<string>)
    ensures |r| == |edits| && forall i :: 0 <= i < |r| ==> r[i] == edits[i].line
  {
    seq(|edits|, i requires 0 <= i < |edits| => edits[i].line)
  }

  /** The file the script arrives at. */
  function NewFile(script: Script): seq<string> { LinesOf(NewSide(script)) }

  /** The numbers, from `before + 1` on, of the inserted among the edits of a new side. */
  ghost function Places(side: Script, before: nat): set<int> {
    set i | 0 <= i < |side| && side[i].Insert? :: before + i + 1
  }

  /** The positions of the inserted lines in the new file, counted from one. */
  ghost function Positions(script: Script): set<int> { Places(NewSide(script), 0) }

  function RemovedIn(run: Script): seq<string> {
    if run == [] then [] else (if run[0].Delete? then [run[0].line] else []) + RemovedIn(run[1..])
  }

  function InsertedIn(run: Script): seq<string> {
    if run == [] then [] else (if run[0].Insert? then [run[0].line] else []) + InsertedIn(run[1..])
  }

  /** How many edits from the front keep nothing. */
  function RunLength(script: Script): (n: nat)
    ensures n <= |script| && (forall i :: 0 <= i < n ==> !script[i].Keep?) && (n < |script| ==> script[n].Keep?)
  {
    if script == [] || script[0].Keep? then 0 else 1 + RunLength(script[1..])
  }

  /** The header of a hunk names the first line of a side, or where that side is empty the line
      before it. */
  function StartAfter(before: nat, lines: seq<string>): nat { if lines == [] then before else before + 1 }

  /** The hunk reports one run of changes, after `oldBefore` lines of the old file and `newBefore`
      of the new one. Its section and its notes are free. */
  ghost predicate ReportsRun(run: Script, h: Hunk, oldBefore: nat, newBefore: nat) {
    && h.removed == RemovedIn(run) && h.inserted == InsertedIn(run)
    && h.oldStart == StartAfter(oldBefore, h.removed) && h.newStart == StartAfter(newBefore, h.inserted)
    && OneLine(h.section)
  }

  /** The hunks report the script: one for each run of edits between kept lines. */
  ghost predicate Reports(script: Script, hunks: seq<Hunk>, oldBefore: nat, newBefore: nat)
    decreases |script|
  {
    if script == [] then hunks == []
    else if script[0].Keep? then Reports(script[1..], hunks, oldBefore + 1, newBefore + 1)
    else
      var n := RunLength(script);
      && hunks != [] && ReportsRun(script[..n], hunks[0], oldBefore, newBefore)
      && Reports(script[n..], hunks[1..], oldBefore + |hunks[0].removed|, newBefore + |hunks[0].inserted|)
  }

  ghost predicate ScriptIsLines(script: Script) { forall i :: 0 <= i < |script| ==> OneLine(script[i].line) }

  /** The diff reports the script, on a file whose lines can be counted in 64 bits. */
  ghost predicate IsDiffOf(d: Diff, script: Script) {
    && (forall i :: 0 <= i < |d.prelude| ==> NamesFile(d.prelude[i]))
    && ScriptIsLines(script) && |NewFile(script)| < MAX_INT && Reports(script, d.hunks, 0, 0)
  }

  ghost predicate NoInsertLooksLikeHeader(script: Script) {
    forall i :: 0 <= i < |script| && script[i].Insert? ==> !LooksLikeHeader(script[i].line)
  }

  /** The hunks that report a script, with nothing after their ranges. */
  function HunksOf(script: Script, oldBefore: nat, newBefore: nat): seq<Hunk>
    decreases |script|
  {
    if script == [] then []
    else if script[0].Keep? then HunksOf(script[1..], oldBefore + 1, newBefore + 1)
    else
      var n := RunLength(script);
      var removed, inserted := RemovedIn(script[..n]), InsertedIn(script[..n]);
      [Hunk(StartAfter(oldBefore, removed), removed, StartAfter(newBefore, inserted), inserted, "", false, false)] +
      HunksOf(script[n..], oldBefore + |removed|, newBefore + |inserted|)
  }

  /** Every script is reported by some hunks. */
  lemma {:induction false} EveryScriptIsReported(script: Script, oldBefore: nat, newBefore: nat)
    ensures Reports(script, HunksOf(script, oldBefore, newBefore), oldBefore, newBefore)
    decreases |script|
  {
    if script != [] {
      if script[0].Keep? {
        EveryScriptIsReported(script[1..], oldBefore + 1, newBefore + 1);
      } else {
        var n := RunLength(script);
        var removed, inserted := RemovedIn(script[..n]), InsertedIn(script[..n]);
        EveryScriptIsReported(script[n..], oldBefore + |removed|, newBefore + |inserted|);
      }
    }
  }

  /** The first run of a reported script, its hunk, and what is reported behind it. */
  lemma ReportsFirst(script: Script, hunks: seq<Hunk>, oldBefore: nat, newBefore: nat)
    returns (run: Script, rest: Script)
    requires Reports(script, hunks, oldBefore, newBefore) && script != [] && !script[0].Keep?
    ensures script == run + rest && hunks != [] && |rest| < |script| && (rest != [] ==> rest[0].Keep?)
    ensures ReportsRun(run, hunks[0], oldBefore, newBefore)
    ensures forall i :: 0 <= i < |run| ==> !run[i].Keep?
    ensures Reports(rest, hunks[1..], oldBefore + |hunks[0].removed|, newBefore + |hunks[0].inserted|)
    ensures NewSide(script) == NewSide(run) + NewSide(rest) && |NewSide(run)| == |hunks[0].inserted|
    ensures forall i :: 0 <= i < |NewSide(run)| ==> NewSide(run)[i].Insert?
  {
    hide RemovedIn, InsertedIn, NewSide;
    var n := RunLength(script);
    run, rest := script[..n], script[n..];
    assert script == run + rest;
    RunIsInserted(run);
    NewSideConcat(run, rest);
  }

  /** The line kept first, and what is reported behind it. */
  lemma ReportsKept(script: Script, hunks: seq<Hunk>, oldBefore: nat, newBefore: nat)
    requires Reports(script, hunks, oldBefore, newBefore) && script != [] && script[0].Keep?
    ensures Reports(script[1..], hunks, oldBefore + 1, newBefore + 1)
    ensures NewSide(script) == [script[0]] + NewSide(script[1..])
  {
  }

  lemma {:induction false} NewSideConcat(a: Script, b: Script)
    ensures NewSide(a + b) == NewSide(a) + NewSide(b)
  {
    if a == [] {
      assert a + b == b;
    } else {
      assert (a + b)[1..] == a[1..] + b && (a + b)[0] == a[0];
      NewSideConcat(a[1..], b);
    }
  }

  /** A run of changes leaves its inserted lines in the new file. */
  lemma {:induction false} RunIsInserted(run: Script)
    requires forall i :: 0 <= i < |run| ==> !run[i].Keep?
    ensures (forall i :: 0 <= i < |NewSide(run)| ==> NewSide(run)[i].Insert?)
    ensures LinesOf(NewSide(run)) == InsertedIn(run)
  {
    if run != [] { RunIsInserted(run[1..]); }
  }

  lemma PlacesConcat(a: Script, b: Script, before: nat)
    ensures Places(a + b, before) == Places(a, before) + Places(b, before + |a|)
  {
    forall n ensures n in Places(a + b, before) <==> n in Places(a, before) + Places(b, before + |a|) {
      if n in Places(b, before + |a|) { assert (a + b)[n - before - 1].Insert?; }
      if n in Places(a, before) { assert (a + b)[n - before - 1].Insert?; }
    }
  }

  lemma PlacesOfRun(side: Script, before: nat)
    requires forall i :: 0 <= i < |side| ==> side[i].Insert?
    ensures Places(side, before) == Lines(before + 1, |side|)
  {
    forall n ensures n in Places(side, before) <==> n in Lines(before + 1, |side|) {
      if n in Lines(before + 1, |side|) { assert side[n - before - 1].Insert?; }
    }
  }

  /** The numbers the headers give are the positions in the new file. */
  lemma {:induction false} ReportedPlaces(script: Script, hunks: seq<Hunk>, oldBefore: nat, newBefore: nat)
    requires Reports(script, hunks, oldBefore, newBefore)
    ensures Inserted(hunks) == Places(NewSide(script), newBefore)
    decreases |script|
  {
    hide *;
    if script == [] {
      NothingReported(hunks, oldBefore, newBefore);
    } else if script[0].Keep? {
      ReportsKept(script, hunks, oldBefore, newBefore);
      ReportedPlaces(script[1..], hunks, oldBefore + 1, newBefore + 1);
      PlacesConcat([script[0]], NewSide(script[1..]), newBefore);
      KeptIsNoPlace(script[0], newBefore);
    } else {
      var run, rest := ReportsFirst(script, hunks, oldBefore, newBefore);
      var h := hunks[0];
      ReportedPlaces(rest, hunks[1..], oldBefore + |h.removed|, newBefore + |h.inserted|);
      PlacesConcat(NewSide(run), NewSide(rest), newBefore);
      PlacesOfRun(NewSide(run), newBefore);
      InsertedFirst(run, hunks, oldBefore, newBefore);
    }
  }

  lemma NothingReported(hunks: seq<Hunk>, oldBefore: nat, newBefore: nat)
    requires Reports([], hunks, oldBefore, newBefore)
    ensures hunks == [] && Inserted(hunks) == Places(NewSide([]), newBefore) == {}
  {
  }

  lemma InsertedFirst(run: Script, hunks: seq<Hunk>, oldBefore: nat, newBefore: nat)
    requires hunks != [] && ReportsRun(run, hunks[0], oldBefore, newBefore)
    ensures Inserted(hunks) == Lines(newBefore + 1, |hunks[0].inserted|) + Inserted(hunks[1..])
  {
    if hunks[0].inserted == [] { EmptyRun(hunks[0].newStart, newBefore + 1); }
  }

  lemma KeptIsNoPlace(edit: Edit, before: nat)
    requires edit.Keep?
    ensures Places([edit], before) == {}
  {
  }

  lemma EmptyRun(a: int, b: int)
    ensures Lines(a, 0) == Lines(b, 0)
  {
  }

  lemma {:induction false} PartsAreLines(run: Script)
    requires ScriptIsLines(run)
    ensures AllLines(RemovedIn(run)) && AllLines(InsertedIn(run))
  {
    if run != [] {
      assert OneLine(run[0].line) && ScriptIsLines(run[1..]);
      hide OneLine;
      PartsAreLines(run[1..]);
    }
  }

  /** What is reported lies in order and within the new file. */
  lemma {:induction false} ReportedInOrder(script: Script, hunks: seq<Hunk>, oldBefore: nat, newBefore: nat)
    requires Reports(script, hunks, oldBefore, newBefore) && ScriptIsLines(script)
    requires newBefore + |NewSide(script)| < MAX_INT
    ensures forall i :: 0 <= i < |hunks| ==> HunkValid(hunks[i])
    ensures forall i :: 0 <= i < |hunks| ==>
              newBefore + (if script[0].Keep? then 1 else 0) <= hunks[i].newStart
    ensures forall i, j :: 0 <= i < j < |hunks| ==> hunks[i].newStart + |hunks[i].inserted| <= hunks[j].newStart
    decreases |script|
  {
    hide *;
    if script == [] {
      NothingReported(hunks, oldBefore, newBefore);
    } else if script[0].Keep? {
      ReportsKept(script, hunks, oldBefore, newBefore);
      assert [script[0]] + script[1..] == script;
      LinesInParts([script[0]], script[1..]);
      ReportedInOrder(script[1..], hunks, oldBefore + 1, newBefore + 1);
    } else {
      var run, rest := ReportsFirst(script, hunks, oldBefore, newBefore);
      var h := hunks[0];
      LinesInParts(run, rest);
      RunIsValid(run, h, oldBefore, newBefore);
      ReportedInOrder(rest, hunks[1..], oldBefore + |h.removed|, newBefore + |h.inserted|);
      if rest == [] { NothingReported(hunks[1..], oldBefore + |h.removed|, newBefore + |h.inserted|); }
      forall j | 0 < j < |hunks| ensures HunkValid(hunks[j]) && newBefore + |h.inserted| + 1 <= hunks[j].newStart {
        assert hunks[j] == hunks[1..][j - 1];
      }
      forall i, j | 0 < i < j < |hunks| ensures hunks[i].newStart + |hunks[i].inserted| <= hunks[j].newStart {
        assert hunks[i] == hunks[1..][i - 1] && hunks[j] == hunks[1..][j - 1];
      }
    }
  }

  lemma LinesInParts(a: Script, b: Script)
    requires ScriptIsLines(a + b)
    ensures ScriptIsLines(a) && ScriptIsLines(b)
  {
    hide OneLine;
    assert forall i :: 0 <= i < |a| ==> (a + b)[i] == a[i];
    assert forall i :: 0 <= i < |b| ==> (a + b)[|a| + i] == b[i];
  }

  lemma RunIsValid(run: Script, h: Hunk, oldBefore: nat, newBefore: nat)
    requires ReportsRun(run, h, oldBefore, newBefore) && ScriptIsLines(run)
    requires newBefore + |h.inserted| < MAX_INT
    ensures HunkValid(h) && newBefore <= h.newStart && h.newStart + |h.inserted| <= newBefore + |h.inserted| + 1
    ensures h.inserted == [] ==> h.newStart == newBefore
  {
    PartsAreLines(run);
  }

  lemma {:induction false} InsertedMembers(run: Script)
    ensures NoneIn(InsertedIn(run)) <==> NoInsertLooksLikeHeader(run)
  {
    hide LooksLikeHeader, NoneIn, NoInsertLooksLikeHeader;
    if run == [] {
      NothingInserted();
    } else {
      var first := if run[0].Insert? then [run[0].line] else [];
      InsertedMembers(run[1..]);
      NoneInConcat(first, InsertedIn(run[1..]));
      NoInsertConcat([run[0]], run[1..]);
      OneInserted(run[0]);
      assert [run[0]] + run[1..] == run && InsertedIn(run) == first + InsertedIn(run[1..]);
    }
  }

  lemma NothingInserted()
    ensures NoneIn([]) && NoInsertLooksLikeHeader([])
  {
  }

  lemma OneInserted(edit: Edit)
    ensures NoneIn(if edit.Insert? then [edit.line] else []) <==> NoInsertLooksLikeHeader([edit])
  {
    hide LooksLikeHeader;
    if edit.Insert? { assert [edit.line][0] == edit.line && [edit][0] == edit; }
  }

  lemma NoneInConcat(a: seq<string>, b: seq<string>)
    ensures NoneIn(a + b) <==> NoneIn(a) && NoneIn(b)
  {
    hide LooksLikeHeader;
    forall j | 0 <= j < |a| ensures (a + b)[j] == a[j] {}
    forall j | 0 <= j < |b| ensures (a + b)[|a| + j] == b[j] {}
  }

  lemma NoInsertConcat(a: Script, b: Script)
    ensures NoInsertLooksLikeHeader(a + b) <==> NoInsertLooksLikeHeader(a) && NoInsertLooksLikeHeader(b)
  {
    hide LooksLikeHeader;
    forall j | 0 <= j < |a| ensures (a + b)[j] == a[j] {}
    forall j | 0 <= j < |b| ensures (a + b)[|a| + j] == b[j] {}
  }

  lemma {:induction false} ReportedHeaders(script: Script, hunks: seq<Hunk>, oldBefore: nat, newBefore: nat)
    requires Reports(script, hunks, oldBefore, newBefore)
    ensures NoneLooksLikeHeader(hunks) <==> NoInsertLooksLikeHeader(script)
    decreases |script|
  {
    hide LooksLikeHeader, NoneIn;
    if script != [] {
      if script[0].Keep? {
        ReportedHeaders(script[1..], hunks, oldBefore + 1, newBefore + 1);
        NoInsertConcat([script[0]], script[1..]);
        assert [script[0]] + script[1..] == script;
      } else {
        var n, h := RunLength(script), hunks[0];
        InsertedMembers(script[..n]);
        ReportedHeaders(script[n..], hunks[1..], oldBefore + |h.removed|, newBefore + |h.inserted|);
        NoInsertConcat(script[..n], script[n..]);
        assert script[..n] + script[n..] == script;
      }
    }
  }

  /** From the diff of any two files the reader finds positions of inserted lines only, and all
      of them exactly when no inserted line starts with two plus signs. */
  lemma AddedExactly(d: Diff, script: Script)
    requires IsDiffOf(d, script)
    ensures Added(DiffText(d)) <= Positions(script)
    ensures Added(DiffText(d)) == Positions(script) <==> NoInsertLooksLikeHeader(script)
  {
    hide LooksLikeHeader, NamesFile, HunkValid, Added, DiffText;
    ReportedPlaces(script, d.hunks, 0, 0);
    ReportedInOrder(script, d.hunks, 0, 0);
    ReportedHeaders(script, d.hunks, 0, 0);
    HunksExactly(d);
  }

  // ---- Numbers and headers that are not as expected --------------------------------------

  /** The counter is a 64-bit integer: the successor, up to a multiple of two to the 64th. */
  lemma NextWraps(n: int)
    requires -0x8000_0000_0000_0000 <= n < 0x8000_0000_0000_0000
    ensures -0x8000_0000_0000_0000 <= Next(n) < 0x8000_0000_0000_0000
    ensures Next(n) == n + 1 || Next(n) == n + 1 - 0x1_0000_0000_0000_0000
  {
  }

  /** Every 64-bit integer is read from its decimal text, and no larger one. */
  lemma AtoiExactly(n: int)
    ensures Atoi(Itoa(n)) == if -0x8000_0000_0000_0000 <= n < 0x8000_0000_0000_0000 then Some(n) else None
    ensures n >= 0 ==> Atoi("+" + Itoa(n)) == Atoi(Itoa(n))
  {
    hide *;
    ItoaIs(n);
    SignedReads(if n < 0 then -n else n);
  }

  lemma ItoaIs(n: int)
    ensures Itoa(n) == if n < 0 then "-" + Digits(-n) else Digits(n)
  {
  }

  lemma SignedReads(n: nat)
    ensures Atoi(Digits(n)) == Atoi("+" + Digits(n)) == if n < 0x8000_0000_0000_0000 then Some(n) else None
    ensures Atoi("-" + Digits(n)) == if n <= 0x8000_0000_0000_0000 then Some(0 - n) else None
  {
    var digits := Digits(n);
    DigitsRoundTrip(n);
    assert IsDigit(digits[0]);
    hide Digits, DigitsValue;
    assert ("-" + digits)[1..] == digits && ("+" + digits)[1..] == digits;
    assert ("-" + digits)[0] == '-' && ("+" + digits)[0] == '+';
  }

  lemma AtoiIsDigits(s: string)
    ensures Atoi(s).Some? ==>
              var digits := if s != "" && (s[0] == '-' || s[0] == '+') then s[1..] else s;
              digits != "" && forall i :: 0 <= i < |digits| ==> '0' <= digits[i] <= '9'
  {
    hide DigitsValue;
  }

  /** A header without a plus sign, without an end of its new range, or whose start is no number,
      starts nowhere: its lines are not counted. */
  lemma MalformedStartsNowhere(before: string, range: string, rest: string)
    requires '+' !in before
    ensures ParseHunkNewStart(before) == 0
    ensures ' ' !in range && '@' !in range ==> ParseHunkNewStart(before + ['+'] + range) == 0
    ensures ' ' !in range && '@' !in range && ',' !in range && Atoi(TrimSpace(range)).None? ==>
              ParseHunkNewStart(before + ['+'] + (range + [' '] + rest)) == 0
  {
    FirstIndexIs(before, range, '+');
    FirstIndexIs(before, range + [' '] + rest, '+');
    var a, b := before + ['+'] + range, before + ['+'] + (range + [' '] + rest);
    assert a[|before|] == '+' && b[|before|] == '+';
    assert a[|before| + 1..] == range && b[|before| + 1..] == range + [' '] + rest;
    hide Atoi, TrimSpace, BeforeSpaceOrAt;
    if ' ' !in range && '@' !in range {
      NothingBefore(range);
      SegmentRead(range, rest);
    }
  }

  lemma {:induction false} NothingBefore(s: string)
    requires ' ' !in s && '@' !in s
    ensures BeforeSpaceOrAt(s) == None
  {
    if s != "" { NothingBefore(s[1..]); }
  }
}
