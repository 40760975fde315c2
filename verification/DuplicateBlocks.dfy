/** The finder of copied blocks: a sliding window over the corpus, an index from window text to
    its occurrences, and runs of windows that are extended in place while they are found. */
module DuplicateBlocks {
  import opened Text
  import opened Order
  import opened Findings

  /** The shortest run of normalized lines that counts as a copied block. */
  const WINDOW: nat := 20

  const METRIC_DUPLICATION := "duplication"

  datatype DupLine = DupLine(path: string, line: nat, text: string)

  type Corpus = seq<DupLine>

  // ---- Normalization ---------------------------------------------------------------------

  /** `strings.Fields`: the maximal runs of characters that are not white space. `word` is the
      run being read. */
  function FieldsFrom(word: string, s: string): (r: seq<string>)
    requires forall c :: c in word ==> !IsSpace(c)
    ensures forall i :: 0 <= i < |r| ==> r[i] != "" && forall c :: c in r[i] ==> !IsSpace(c)
    decreases |s|
  {
    if s == "" then (if word == "" then [] else [word])
    else if IsSpace(s[0]) then (if word == "" then [] else [word]) + FieldsFrom("", s[1..])
    else FieldsFrom(word + [s[0]], s[1..])
  }

  function Collapsed(s: string): string { Join(FieldsFrom("", s), ' ') }

  /** A line that counts: neither blank nor only a comment. */
  predicate Counts(raw: string) {
    var trimmed := TrimSpace(raw);
    trimmed != "" && !(|trimmed| >= 2 && trimmed[..2] == "//")
  }

  /** The corpus lines of the raw lines, the first of which is number `number`. */
  function NormalizedFrom(path: string, raws: seq<string>, number: nat): Corpus {
    if raws == [] then [] else
      (if Counts(raws[0]) then [DupLine(path, number, Collapsed(TrimSpace(raws[0])))] else []) +
      NormalizedFrom(path, raws[1..], number + 1)
  }

  function Texts(lines: Corpus): (r: seq<string>)
    ensures |r| == |lines| && forall i :: 0 <= i < |r| ==> r[i] == lines[i].text
  {
    seq(|lines|, i requires 0 <= i < |lines| => lines[i].text)
  }

  /** The corpus never holds a newline inside a line. */
  ghost predicate Normalized(lines: Corpus) {
    forall i :: 0 <= i < |lines| ==> '\n' !in lines[i].text
  }

  lemma {:induction false} JoinHolds(parts: seq<string>, sep: char, c: char)
    requires c in Join(parts, sep)
    ensures c == sep || exists i :: 0 <= i < |parts| && c in parts[i]
  {
    if |parts| > 1 && c !in parts[0] && c != sep {
      JoinHolds(parts[1..], sep, c);
      var i :| 0 <= i < |parts[1..]| && c in parts[1..][i];
      assert c in parts[i + 1];
    }
  }

  lemma {:induction false} NormalizedFromIsNormalized(path: string, raws: seq<string>, number: nat)
    ensures Normalized(NormalizedFrom(path, raws, number))
  {
    if raws != [] {
      NormalizedFromIsNormalized(path, raws[1..], number + 1);
      var fields := FieldsFrom("", TrimSpace(raws[0]));
      if '\n' in Join(fields, ' ') { JoinHolds(fields, ' ', '\n'); }
    }
  }

  /** The corpus of one file. */
  method NormalizedLines(path: string, source: string) returns (lines: Corpus)
    ensures lines == NormalizedFrom(path, Split(source, '\n'), 1) && Normalized(lines)
  {
    var raws := Split(source, '\n');
    lines := [];
    for index := 0 to |raws|
      invariant NormalizedFrom(path, raws, 1) == lines + NormalizedFrom(path, raws[index..], index + 1)
    {
      if Counts(raws[index]) {
        lines := lines + [DupLine(path, index + 1, Collapsed(TrimSpace(raws[index])))];
      }
      assert raws[index..][1..] == raws[index + 1..];
    }
    NormalizedFromIsNormalized(path, raws, 1);
  }

  /** What the normalization is for: the texts of a block stay the same when a blank line or a
      comment line is put into it and when a line is indented deeper. */
  lemma {:induction false} CopiesSurviveCommentsAndIndentation(
      path: string, above: seq<string>, extra: string, indent: string, raw: string, below: seq<string>, n: nat, m: nat)
    requires !Counts(extra) && forall c :: c in indent ==> IsSpace(c)
    ensures Texts(NormalizedFrom(path, above + [extra, indent + raw] + below, n)) ==
            Texts(NormalizedFrom(path, above + [raw] + below, m))
  {
    hide NormalizedFrom, Texts, Collapsed, TrimSpace;
    if above == [] {
      TrimsBefore(indent, raw);
      var longer, shorter := [extra, indent + raw] + below, [raw] + below;
      assert above + [extra, indent + raw] + below == longer && above + [raw] + below == shorter;
      assert longer[1..] == [indent + raw] + below && longer[1..][1..] == below && shorter[1..] == below;
      TextsPrepend(path, longer, n);
      TextsPrepend(path, longer[1..], n + 1);
      TextsPrepend(path, shorter, m);
      LineNumbersDoNotCount(path, below, n + 2, m + 1);
    } else {
      var longer, shorter := above + [extra, indent + raw] + below, above + [raw] + below;
      assert longer[1..] == above[1..] + [extra, indent + raw] + below && shorter[1..] == above[1..] + [raw] + below;
      CopiesSurviveCommentsAndIndentation(path, above[1..], extra, indent, raw, below, n + 1, m + 1);
      TextsPrepend(path, longer, n);
      TextsPrepend(path, shorter, m);
    }
  }

  lemma TextsPrepend(path: string, raws: seq<string>, n: nat)
    requires raws != []
    ensures Texts(NormalizedFrom(path, raws, n)) ==
            (if Counts(raws[0]) then [Collapsed(TrimSpace(raws[0]))] else []) +
            Texts(NormalizedFrom(path, raws[1..], n + 1))
  {
  }

  lemma {:induction false} LineNumbersDoNotCount(path: string, raws: seq<string>, n: nat, m: nat)
    ensures Texts(NormalizedFrom(path, raws, n)) == Texts(NormalizedFrom(path, raws, m))
  {
    if raws != [] {
      LineNumbersDoNotCount(path, raws[1..], n + 1, m + 1);
      TextsPrepend(path, raws, n);
      TextsPrepend(path, raws, m);
    }
  }

  // ---- Windows and their occurrences -----------------------------------------------------

  /** Every line's text followed by a newline. */
  function WindowText(window: Corpus): string {
    if window == [] then "" else window[0].text + ['\n'] + WindowText(window[1..])
  }

  predicate OneFile(window: Corpus) {
    forall i :: 0 < i < |window| ==> window[i].path == window[0].path
  }

  /** `s` starts a window that stays inside one file. */
  predicate IsWindow(lines: Corpus, s: int) {
    0 <= s && s + WINDOW <= |lines| && OneFile(lines[s..s + WINDOW])
  }

  function TextAt(lines: Corpus, s: int): string
    requires 0 <= s && s + WINDOW <= |lines|
  {
    WindowText(lines[s..s + WINDOW])
  }

  /** The windows below `k` that carry `text`, in corpus order. */
  function OccurrencesBelow(lines: Corpus, text: string, k: nat): seq<int> {
    if k == 0 then []
    else OccurrencesBelow(lines, text, k - 1) +
         (if IsWindow(lines, k - 1) && TextAt(lines, k - 1) == text then [k - 1] else [])
  }

  function StartCount(lines: Corpus): nat {
    if |lines| < WINDOW then 0 else |lines| - WINDOW + 1
  }

  /** Everywhere the window starting at `s` occurs. */
  function Occurrences(lines: Corpus, s: int): seq<int>
    requires IsWindow(lines, s)
  {
    OccurrencesBelow(lines, TextAt(lines, s), StartCount(lines))
  }

  /** A window that occurs at least twice. */
  predicate IsCopied(lines: Corpus, s: int) {
    IsWindow(lines, s) && |Occurrences(lines, s)| >= 2
  }

  ghost predicate Increasing(s: seq<int>) {
    forall i, j :: 0 <= i < j < |s| ==> s[i] < s[j]
  }

  lemma {:induction false} OccurrencesBelowMembers(lines: Corpus, text: string, k: nat)
    ensures Increasing(OccurrencesBelow(lines, text, k))
    ensures forall t :: t in OccurrencesBelow(lines, text, k) <==>
                        0 <= t < k && IsWindow(lines, t) && TextAt(lines, t) == text
  {
    hide TextAt, OneFile;
    if k > 0 {
      OccurrencesBelowMembers(lines, text, k - 1);
      var before := OccurrencesBelow(lines, text, k - 1);
      assert forall i :: 0 <= i < |before| ==> before[i] in before;
    }
  }

  /** The occurrence list of `s` is the increasing list of exactly the windows with its text,
      and every one of those windows has that same list. */
  lemma OccurrencesExact(lines: Corpus, s: int)
    requires IsWindow(lines, s)
    ensures Increasing(Occurrences(lines, s))
    ensures forall t :: t in Occurrences(lines, s) <==> IsWindow(lines, t) && TextAt(lines, t) == TextAt(lines, s)
    ensures forall t :: t in Occurrences(lines, s) ==> Occurrences(lines, t) == Occurrences(lines, s)
    ensures s in Occurrences(lines, s) && Occurrences(lines, s)[0] <= s
  {
    OccurrencesBelowMembers(lines, TextAt(lines, s), StartCount(lines));
  }

  /** Window texts compare as lists of lines: the concatenation loses nothing. */
  lemma {:induction false} WindowTextInjective(a: Corpus, b: Corpus)
    requires Normalized(a) && Normalized(b) && WindowText(a) == WindowText(b)
    ensures |a| == |b| && forall i :: 0 <= i < |a| ==> a[i].text == b[i].text
  {
    if a != [] && b != [] {
      CutUnique(a[0].text, WindowText(a[1..]), b[0].text, WindowText(b[1..]), '\n');
      WindowTextInjective(a[1..], b[1..]);
      forall i | 0 <= i < |a| ensures a[i].text == b[i].text {
        assert i > 0 ==> a[i] == a[1..][i - 1] && b[i] == b[1..][i - 1];
      }
    }
  }

  // ---- Keys ------------------------------------------------------------------------------

  function Shift(values: seq<int>, delta: int): (r: seq<int>)
    ensures |r| == |values| && forall i :: 0 <= i < |r| ==> r[i] == values[i] + delta
  {
    seq(|values|, i requires 0 <= i < |values| => values[i] + delta)
  }

  function Decimals(values: seq<int>): (r: seq<string>)
    ensures |r| == |values| && forall i :: 0 <= i < |r| ==> r[i] == Itoa(values[i])
  {
    seq(|values|, i requires 0 <= i < |values| => Itoa(values[i]))
  }

  function JoinInts(values: seq<int>): string { Join(Decimals(values), ',') }

  /** The map key of an occurrence list names that list and no other. */
  lemma JoinIntsInjective(a: seq<int>, b: seq<int>)
    requires a != [] && b != [] && JoinInts(a) == JoinInts(b)
    ensures a == b
  {
    JoinInjective(Decimals(a), Decimals(b), ',');
    forall i | 0 <= i < |a| ensures a[i] == b[i] {
      assert Decimals(a)[i] == Decimals(b)[i];
      ItoaInjective(a[i], b[i]);
    }
  }

  // ---- Runs ------------------------------------------------------------------------------

  /** A maximal run of windows that all occur in the same places. */
  datatype Run = Run(starts: seq<int>, length: nat) {
    /** The number of windows in the run. */
    function Windows(): int { length - WINDOW + 1 }
  }

  /** Where a window belongs: which run, and how many lines into it. */
  datatype Slot = Slot(run: nat, offset: nat)

  type Index = map<seq<int>, Slot>

  /** Every copied window below `k` has its occurrence list indexed. */
  ghost predicate Covered(lines: Corpus, k: nat, index: Index) {
    forall s :: 0 <= s < k && IsCopied(lines, s) ==> Occurrences(lines, s) in index
  }

  /** Every indexed list is the occurrence list of its own first window, which is below `k`. */
  ghost predicate Keyed(lines: Corpus, k: nat, index: Index) {
    forall l :: l in index ==> IsKey(lines, k, l)
  }

  ghost predicate IsKey(lines: Corpus, k: nat, l: seq<int>) {
    |l| >= 2 && 0 <= l[0] < k && IsCopied(lines, l[0]) && Occurrences(lines, l[0]) == l
  }

  /** The index sends a list to a run that holds it at that offset. */
  ghost predicate Slotted(runs: seq<Run>, index: Index) {
    forall l :: l in index ==> InSlot(runs, l, index[l])
  }

  ghost predicate InSlot(runs: seq<Run>, l: seq<int>, at: Slot) {
    at.run < |runs| && at.offset < runs[at.run].Windows() && l == Shift(runs[at.run].starts, at.offset)
  }

  /** Every window of every run is indexed, at that run and that offset. */
  ghost predicate Filled(runs: seq<Run>, index: Index) {
    forall i, d :: 0 <= i < |runs| && 0 <= d < runs[i].Windows() ==> Holds(index, Shift(runs[i].starts, d), Slot(i, d))
  }

  ghost predicate Holds(index: Index, l: seq<int>, at: Slot) { l in index && index[l] == at }

  /** Every run is at least a window long and opens where nothing precedes it. */
  ghost predicate Opened(lines: Corpus, runs: seq<Run>) {
    forall i :: 0 <= i < |runs| ==> runs[i].length >= WINDOW && OpensARun(lines, runs[i].starts)
  }

  /** No window occurs exactly one line before `starts`. */
  ghost predicate OpensARun(lines: Corpus, starts: seq<int>) {
    forall s :: IsCopied(lines, s) ==> Occurrences(lines, s) != Shift(starts, -1)
  }

  /** What holds when every window start below `k` has been looked at. */
  ghost predicate Built(lines: Corpus, k: nat, runs: seq<Run>, index: Index) {
    Covered(lines, k, index) && Keyed(lines, k, index) && Slotted(runs, index) && Filled(runs, index) &&
    Opened(lines, runs)
  }

  lemma BuiltEmpty(lines: Corpus)
    ensures Built(lines, 0, [], map[])
  {
  }

  lemma NewKeyStartsHere(lines: Corpus, k: nat, index: Index)
    requires Covered(lines, k, index) && IsCopied(lines, k) && Occurrences(lines, k) !in index
    ensures IsKey(lines, k + 1, Occurrences(lines, k)) && Occurrences(lines, k)[0] == k
  {
    OccurrencesExact(lines, k);
    var first := Occurrences(lines, k)[0];
    assert first in Occurrences(lines, k);
  }

  lemma IndexGrows(lines: Corpus, k: nat, index: Index, at: Slot)
    requires Covered(lines, k, index) && Keyed(lines, k, index)
    requires IsCopied(lines, k) && Occurrences(lines, k) !in index
    ensures var after := index[Occurrences(lines, k) := at]; Covered(lines, k + 1, after) && Keyed(lines, k + 1, after)
  {
    NewKeyStartsHere(lines, k, index);
    assert forall l :: IsKey(lines, k, l) ==> IsKey(lines, k + 1, l);
  }

  ghost function Extended(runs: seq<Run>, i: nat): seq<Run>
    requires i < |runs|
  {
    runs[i := Run(runs[i].starts, runs[i].length + 1)]
  }

  lemma SlotsExtend(runs: seq<Run>, index: Index, l: seq<int>, at: Slot)
    requires Slotted(runs, index) && Filled(runs, index) && l !in index
    requires Holds(index, Shift(l, -1), at)
    ensures var after := index[l := Slot(at.run, at.offset + 1)];
            Slotted(Extended(runs, at.run), after) && Filled(Extended(runs, at.run), after)
  {
    var starts := runs[at.run].starts;
    assert InSlot(runs, Shift(l, -1), at);
    assert l == Shift(starts, at.offset + 1);
    assert at.offset + 1 == runs[at.run].Windows() by {
      var next := Slot(at.run, at.offset + 1);
      assert next.offset < runs[next.run].Windows() ==> Holds(index, Shift(starts, next.offset), next);
    }
    var after := index[l := Slot(at.run, at.offset + 1)];
    var more := Extended(runs, at.run);
    forall m | m in after ensures InSlot(more, m, after[m]) {
      assert m != l ==> InSlot(runs, m, index[m]);
    }
    forall i, d | 0 <= i < |more| && 0 <= d < more[i].Windows()
      ensures Holds(after, Shift(more[i].starts, d), Slot(i, d))
    {
      if i == at.run && d == at.offset + 1 {
      } else {
        assert Holds(index, Shift(runs[i].starts, d), Slot(i, d));
      }
    }
  }

  lemma SlotsOpen(runs: seq<Run>, index: Index, l: seq<int>)
    requires Slotted(runs, index) && Filled(runs, index) && l !in index
    ensures var after := index[l := Slot(|runs|, 0)];
            Slotted(runs + [Run(l, WINDOW)], after) && Filled(runs + [Run(l, WINDOW)], after)
  {
    assert Shift(l, 0) == l;
    var after := index[l := Slot(|runs|, 0)];
    var more := runs + [Run(l, WINDOW)];
    forall m | m in after ensures InSlot(more, m, after[m]) {
      assert m != l ==> InSlot(runs, m, index[m]);
    }
    forall i, d | 0 <= i < |more| && 0 <= d < more[i].Windows()
      ensures Holds(after, Shift(more[i].starts, d), Slot(i, d))
    {
      if i < |runs| { assert Holds(index, Shift(runs[i].starts, d), Slot(i, d)); }
    }
  }

  lemma NothingPrecedes(lines: Corpus, k: nat, index: Index)
    requires Covered(lines, k, index) && IsCopied(lines, k)
    requires Occurrences(lines, k) !in index && Shift(Occurrences(lines, k), -1) !in index
    ensures OpensARun(lines, Occurrences(lines, k))
  {
    var l := Occurrences(lines, k);
    NewKeyStartsHere(lines, k, index);
    forall s | IsCopied(lines, s) ensures Occurrences(lines, s) != Shift(l, -1) {
      OccurrencesExact(lines, s);
      var m := Occurrences(lines, s);
      assert m[0] in m;
      assert IsCopied(lines, m[0]) && Occurrences(lines, m[0]) == m;
    }
  }

  /** A window already indexed, or not copied at all, changes nothing. */
  lemma BuiltSkips(lines: Corpus, k: nat, runs: seq<Run>, index: Index)
    requires Built(lines, k, runs, index)
    requires IsCopied(lines, k) ==> Occurrences(lines, k) in index
    ensures Built(lines, k + 1, runs, index)
  {
    assert forall l :: IsKey(lines, k, l) ==> IsKey(lines, k + 1, l);
  }

  /** A window one line after an indexed one lengthens that window's run. */
  lemma BuiltExtends(lines: Corpus, k: nat, runs: seq<Run>, index: Index)
    requires Built(lines, k, runs, index) && IsCopied(lines, k)
    requires Occurrences(lines, k) !in index && Shift(Occurrences(lines, k), -1) in index
    ensures var l := Occurrences(lines, k); var at := index[Shift(l, -1)];
            at.run < |runs| && Built(lines, k + 1, Extended(runs, at.run), index[l := Slot(at.run, at.offset + 1)])
  {
    hide Covered, Keyed, Filled, OccurrencesBelow, WindowText, OneFile;
    var l := Occurrences(lines, k);
    var at := index[Shift(l, -1)];
    assert InSlot(runs, Shift(l, -1), at);
    IndexGrows(lines, k, index, Slot(at.run, at.offset + 1));
    SlotsExtend(runs, index, l, at);
  }

  /** Any other copied window opens a run of its own. */
  lemma BuiltOpens(lines: Corpus, k: nat, runs: seq<Run>, index: Index)
    requires Built(lines, k, runs, index) && IsCopied(lines, k)
    requires Occurrences(lines, k) !in index && Shift(Occurrences(lines, k), -1) !in index
    ensures var l := Occurrences(lines, k);
            Built(lines, k + 1, runs + [Run(l, WINDOW)], index[l := Slot(|runs|, 0)])
  {
    IndexGrows(lines, k, index, Slot(|runs|, 0));
    SlotsOpen(runs, index, Occurrences(lines, k));
    NothingPrecedes(lines, k, index);
  }

  // ---- What the finished runs are --------------------------------------------------------

  /** `s` is the window `offset` lines into run `i`. */
  ghost predicate InRun(runs: seq<Run>, s: int, i: int, offset: int) {
    0 <= i < |runs| && 0 <= offset < runs[i].Windows() && (s - offset) in runs[i].starts
  }

  /** The windows of a run occur at the run's own places, shifted, and nowhere else. */
  ghost predicate SamePlaces(lines: Corpus, run: Run) {
    && |run.starts| >= 2 && Increasing(run.starts) && run.length >= WINDOW
    && forall d :: 0 <= d < run.Windows() ==> OccursAt(lines, run.starts[0] + d, Shift(run.starts, d))
  }

  ghost predicate OccursAt(lines: Corpus, s: int, places: seq<int>) {
    IsCopied(lines, s) && Occurrences(lines, s) == places
  }

  /** Every place of a run carries the same `length` lines, inside one file. */
  ghost predicate SameBlock(lines: Corpus, run: Run) {
    forall a, b :: a in run.starts && b in run.starts ==> SameLines(lines, a, b, run.length)
  }

  ghost predicate SameLines(lines: Corpus, a: int, b: int, length: nat) {
    && 0 <= a && a + length <= |lines| && 0 <= b && b + length <= |lines|
    && forall e :: 0 <= e < length ==> SameLine(lines, a, b, e)
  }

  /** Line `e` of the two copies has the same text, and has not left the first copy's file. */
  ghost predicate SameLine(lines: Corpus, a: nat, b: nat, e: nat)
    requires a + e < |lines| && b + e < |lines|
  {
    lines[a + e].text == lines[b + e].text && lines[a + e].path == lines[a].path
  }

  /** No run can grow by a line at either end and still occur in the same places. */
  ghost predicate Maximal(lines: Corpus, run: Run) {
    forall s :: IsCopied(lines, s) ==>
      Occurrences(lines, s) != Shift(run.starts, -1) && Occurrences(lines, s) != Shift(run.starts, run.Windows())
  }

  /** Every window that occurs twice is in a run, every window of a run occurs twice, and the
      run and the offset are unique. */
  ghost predicate Partitioned(lines: Corpus, runs: seq<Run>) {
    && (forall s :: IsCopied(lines, s) ==> exists i, d :: InRun(runs, s, i, d))
    && (forall s, i, d :: InRun(runs, s, i, d) ==> IsCopied(lines, s))
    && (forall s, i, d, j, e :: InRun(runs, s, i, d) && InRun(runs, s, j, e) ==> i == j && d == e)
  }

  ghost predicate Exact(lines: Corpus, runs: seq<Run>) {
    && Partitioned(lines, runs)
    && forall i :: 0 <= i < |runs| ==> RunIsExact(lines, runs[i])
  }

  ghost predicate RunIsExact(lines: Corpus, run: Run) {
    Fits(lines, run) && SamePlaces(lines, run) && SameBlock(lines, run) && Maximal(lines, run)
  }

  /** The run has places, and every one of them stays inside the corpus. */
  ghost predicate Fits(lines: Corpus, run: Run) {
    run.length >= WINDOW && run.starts != [] &&
    forall i :: 0 <= i < |run.starts| ==> 0 <= run.starts[i] && run.starts[i] + run.length <= |lines|
  }

  lemma RunWindowsOccur(lines: Corpus, k: nat, runs: seq<Run>, index: Index, i: nat)
    requires Built(lines, k, runs, index) && i < |runs|
    ensures SamePlaces(lines, runs[i])
  {
    hide Covered, Slotted, OpensARun, OccurrencesBelow, WindowText, OneFile;
    var run := runs[i];
    forall d | 0 <= d < run.Windows()
      ensures |run.starts| >= 2 && OccursAt(lines, run.starts[0] + d, Shift(run.starts, d))
    {
      assert Holds(index, Shift(run.starts, d), Slot(i, d));
      assert IsKey(lines, k, Shift(run.starts, d));
    }
    assert Holds(index, Shift(run.starts, 0), Slot(i, 0));
    assert IsKey(lines, k, Shift(run.starts, 0));
    assert Shift(run.starts, 0) == run.starts;
    OccurrencesExact(lines, run.starts[0]);
  }

  lemma RunMemberOccurs(lines: Corpus, runs: seq<Run>, s: int, i: nat, d: nat)
    requires i < |runs| && SamePlaces(lines, runs[i]) && InRun(runs, s, i, d)
    ensures OccursAt(lines, s, Shift(runs[i].starts, d))
  {
    hide OccurrencesBelow, WindowText, OneFile;
    var run := runs[i];
    assert OccursAt(lines, run.starts[0] + d, Shift(run.starts, d));
    var j :| 0 <= j < |run.starts| && run.starts[j] == s - d;
    assert Shift(run.starts, d)[j] == s;
    OccurrencesExact(lines, run.starts[0] + d);
  }

  lemma CopiedWindowIsInARun(lines: Corpus, runs: seq<Run>, index: Index, s: int)
    requires Built(lines, StartCount(lines), runs, index) && IsCopied(lines, s)
    ensures exists i, d :: InRun(runs, s, i, d)
  {
    hide Keyed, Filled, Opened, OccurrencesBelow, WindowText, OneFile;
    var l := Occurrences(lines, s);
    OccurrencesExact(lines, s);
    var at := index[l];
    assert InSlot(runs, l, at);
    var j :| 0 <= j < |l| && l[j] == s;
    assert runs[at.run].starts[j] == s - at.offset;
    assert InRun(runs, s, at.run, at.offset);
  }

  lemma RunIsUnique(lines: Corpus, k: nat, runs: seq<Run>, index: Index, s: int, i: nat, d: nat, j: nat, e: nat)
    requires Built(lines, k, runs, index)
    requires InRun(runs, s, i, d) && InRun(runs, s, j, e)
    ensures i == j && d == e && IsCopied(lines, s)
  {
    RunWindowsOccur(lines, k, runs, index, i);
    RunWindowsOccur(lines, k, runs, index, j);
    RunMemberOccurs(lines, runs, s, i, d);
    RunMemberOccurs(lines, runs, s, j, e);
    assert Holds(index, Shift(runs[i].starts, d), Slot(i, d));
    assert Holds(index, Shift(runs[j].starts, e), Slot(j, e));
  }

  lemma RunsPartition(lines: Corpus, runs: seq<Run>, index: Index)
    requires Built(lines, StartCount(lines), runs, index)
    ensures Partitioned(lines, runs)
  {
    forall s | IsCopied(lines, s) ensures exists i, d :: InRun(runs, s, i, d) {
      CopiedWindowIsInARun(lines, runs, index, s);
    }
    forall s, i, d | InRun(runs, s, i, d) ensures IsCopied(lines, s) {
      RunIsUnique(lines, StartCount(lines), runs, index, s, i, d, i, d);
    }
    forall s, i, d, j, e | InRun(runs, s, i, d) && InRun(runs, s, j, e) ensures i == j && d == e {
      RunIsUnique(lines, StartCount(lines), runs, index, s, i, d, j, e);
    }
  }

  lemma RunsMaximal(lines: Corpus, runs: seq<Run>, index: Index, i: nat)
    requires Built(lines, StartCount(lines), runs, index) && i < |runs|
    ensures Maximal(lines, runs[i])
  {
    hide OccurrencesBelow, WindowText, OneFile;
    assert OpensARun(lines, runs[i].starts);
    forall s | IsCopied(lines, s) ensures Occurrences(lines, s) != Shift(runs[i].starts, runs[i].Windows()) {
      NothingFollows(lines, runs, index, i, s);
    }
  }

  lemma ShiftsBack(a: seq<int>, d: int, b: seq<int>, e: int)
    ensures Shift(a, d) == Shift(b, e) ==> Shift(a, d - 1) == Shift(b, e - 1)
  {
    if Shift(a, d) == Shift(b, e) {
      assert forall i :: 0 <= i < |a| ==> Shift(a, d)[i] == a[i] + d && Shift(b, e)[i] == b[i] + e;
      assert Shift(a, d - 1) == Shift(b, e - 1);
    }
  }

  /** A list one past the end is itself in some slot. At offset zero the run's last window would
      precede it; at a later offset it would be in this run. */
  lemma NothingFollows(lines: Corpus, runs: seq<Run>, index: Index, i: nat, s: int)
    requires Built(lines, StartCount(lines), runs, index) && i < |runs| && IsCopied(lines, s)
    ensures Occurrences(lines, s) != Shift(runs[i].starts, runs[i].Windows())
  {
    hide OccurrencesBelow, WindowText, OneFile;
    RunWindowsOccur(lines, StartCount(lines), runs, index, i);
    var run, l := runs[i], Occurrences(lines, s);
    var last := run.Windows() - 1;
    assert InSlot(runs, l, index[l]);
    var at := index[l];
    assert Holds(index, Shift(run.starts, last), Slot(i, last));
    assert OccursAt(lines, run.starts[0] + last, Shift(run.starts, last));
    hide Keyed, Covered, Slotted;
    var before := Shift(runs[at.run].starts, at.offset - 1);
    ShiftsBack(runs[at.run].starts, at.offset, run.starts, run.Windows());
    hide Shift;
    if at.offset > 0 {
      assert Holds(index, before, Slot(at.run, at.offset - 1));
    } else {
      assert OpensARun(lines, runs[at.run].starts);
    }
  }

  lemma WindowCarriesLines(lines: Corpus, a: int, b: int)
    requires Normalized(lines) && IsWindow(lines, a) && b in Occurrences(lines, a)
    ensures SameLines(lines, a, b, WINDOW)
  {
    OccurrencesExact(lines, a);
    var x, y := lines[a..a + WINDOW], lines[b..b + WINDOW];
    WindowTextInjective(x, y);
    forall e | 0 <= e < WINDOW ensures SameLine(lines, a, b, e) {
      assert x[e] == lines[a + e] && y[e] == lines[b + e];
    }
  }

  lemma OneMoreLine(lines: Corpus, a: int, b: int, n: nat)
    requires WINDOW < n && SameLines(lines, a, b, n - 1)
    requires SameLines(lines, a + n - WINDOW, b + n - WINDOW, WINDOW)
    ensures SameLines(lines, a, b, n)
  {
    var d := n - WINDOW;
    assert SameLine(lines, a, b, d);
    assert SameLine(lines, a + d, b + d, WINDOW - 1);
    assert SameLine(lines, a, b, n - 1);
  }

  lemma RunWindowCarriesLines(lines: Corpus, run: Run, a: int, b: int, d: nat)
    requires Normalized(lines) && SamePlaces(lines, run) && a in run.starts && b in run.starts
    requires d < run.Windows()
    ensures SameLines(lines, a + d, b + d, WINDOW)
  {
    hide OccurrencesBelow, WindowText, OneFile, SameLines, Normalized, TextAt;
    RunMemberOccurs(lines, [run], a + d, 0, d);
    RunMemberOccurs(lines, [run], b + d, 0, d);
    OccurrencesExact(lines, a + d);
    OccurrencesExact(lines, b + d);
    WindowCarriesLines(lines, a + d, b + d);
  }

  lemma {:induction false} WindowsCarryLines(lines: Corpus, run: Run, a: int, b: int, n: nat)
    requires Normalized(lines) && SamePlaces(lines, run) && a in run.starts && b in run.starts
    requires WINDOW <= n <= run.length
    ensures SameLines(lines, a, b, n)
  {
    RunWindowCarriesLines(lines, run, a, b, n - WINDOW);
    if n > WINDOW {
      WindowsCarryLines(lines, run, a, b, n - 1);
      OneMoreLine(lines, a, b, n);
    }
  }

  /** The runs the finder builds are exactly the maximal runs of copied windows. */
  lemma RunsExact(lines: Corpus, runs: seq<Run>, index: Index)
    requires Normalized(lines) && Built(lines, StartCount(lines), runs, index)
    ensures Exact(lines, runs)
  {
    RunsPartition(lines, runs, index);
    forall i | 0 <= i < |runs| ensures RunIsExact(lines, runs[i]) {
      RunWindowsOccur(lines, StartCount(lines), runs, index, i);
      RunsMaximal(lines, runs, index, i);
      forall a, b | a in runs[i].starts && b in runs[i].starts ensures SameLines(lines, a, b, runs[i].length) {
        WindowsCarryLines(lines, runs[i], a, b, runs[i].length);
      }
      assert forall j :: 0 <= j < |runs[i].starts| ==>
             SameLines(lines, runs[i].starts[j], runs[i].starts[j], runs[i].length);
    }
  }

  // ---- The finder ------------------------------------------------------------------------

  /** A run while it is being extended; the finder holds several references to one region. */
  class Region {
    const starts: seq<int>
    var length: nat

    constructor (starts: seq<int>)
      ensures this.starts == starts && length == WINDOW
    {
      this.starts := starts;
      length := WINDOW;
    }

    function AsRun(): Run
      reads this
    {
      Run(starts, length)
    }
  }

  /** Reading a key a map does not hold gives the empty list. */
  function At(occurrences: map<string, seq<int>>, text: string): seq<int> {
    if text in occurrences then occurrences[text] else []
  }

  /** The index from window text to everywhere the text occurs. */
  method IndexWindows(lines: Corpus) returns (occurrences: map<string, seq<int>>)
    ensures forall text :: At(occurrences, text) == OccurrencesBelow(lines, text, StartCount(lines))
  {
    hide WindowText, OneFile;
    occurrences := map[];
    var start := 0;
    while start + WINDOW <= |lines|
      invariant 0 <= start <= StartCount(lines)
      invariant forall text :: At(occurrences, text) == OccurrencesBelow(lines, text, start)
    {
      var window := lines[start..start + WINDOW];
      assert IsWindow(lines, start) == OneFile(window);
      if OneFile(window) {
        var text := WindowText(window);
        occurrences := occurrences[text := At(occurrences, text) + [start]];
      }
      start := start + 1;
    }
  }

  ghost predicate Mirrors(told: seq<Region>, runs: seq<Run>)
    reads told
  {
    |told| == |runs| && forall i :: 0 <= i < |told| ==> told[i].AsRun() == runs[i]
  }

  ghost predicate Separate(told: seq<Region>) {
    forall i, j :: 0 <= i < j < |told| ==> told[i] != told[j]
  }

  /** The string-keyed map of regions says what the index of lists says. */
  ghost predicate Tracks(heads: map<string, Region>, told: seq<Region>, index: Index) {
    && (forall l :: l in index ==> Heads(heads, told, l, index[l].run))
    && (forall key :: key in heads ==> Named(index, key))
  }

  ghost predicate Heads(heads: map<string, Region>, told: seq<Region>, l: seq<int>, run: nat) {
    l != [] && run < |told| && JoinInts(l) in heads && heads[JoinInts(l)] == told[run]
  }

  ghost predicate Named(index: Index, key: string) { exists l :: l in index && JoinInts(l) == key }

  lemma KeyKnown(heads: map<string, Region>, told: seq<Region>, index: Index, l: seq<int>)
    requires Tracks(heads, told, index) && l != []
    ensures JoinInts(l) in heads <==> l in index
    ensures l in index ==> Heads(heads, told, l, index[l].run)
  {
    assert l in index ==> Heads(heads, told, l, index[l].run);
    if JoinInts(l) in heads {
      assert Named(index, JoinInts(l));
      var m :| m in index && JoinInts(m) == JoinInts(l);
      assert Heads(heads, told, m, index[m].run);
      JoinIntsInjective(l, m);
    }
  }

  lemma TracksNothing()
    ensures Tracks(map[], [], map[])
  {
  }

  lemma TracksGrows(heads: map<string, Region>, told: seq<Region>, more: seq<Region>, index: Index, l: seq<int>,
      at: Slot)
    requires Tracks(heads, told, index) && told <= more && at.run < |more|
    requires l != [] && l !in index
    ensures Tracks(heads[JoinInts(l) := more[at.run]], more, index[l := at])
  {
    var key := JoinInts(l);
    KeyKnown(heads, told, index, l);
    var grown, after := heads[key := more[at.run]], index[l := at];
    forall m | m in after ensures Heads(grown, more, m, after[m].run) {
      assert m != l ==> Heads(heads, told, m, index[m].run);
    }
    forall k | k in grown ensures Named(after, k) {
      if k == key {
        assert l in after;
      } else {
        assert Named(index, k);
        var m :| m in index && JoinInts(m) == k;
        assert m in after;
      }
    }
  }

  /** The finder's regions are exactly the maximal runs of copied windows. */
  method FindRegions(lines: Corpus) returns (told: seq<Region>, ghost runs: seq<Run>)
    requires Normalized(lines)
    ensures Exact(lines, runs) && Mirrors(told, runs)
  {
    hide Built, Exact, OccurrencesBelow, WindowText, JoinInts, Tracks, OneFile;
    var occurrences := IndexWindows(lines);
    var heads: map<string, Region> := map[];
    told, runs := [], [];
    ghost var index: Index := map[];
    BuiltEmpty(lines);
    TracksNothing();
    var start := 0;
    while start + WINDOW <= |lines|
      invariant 0 <= start <= StartCount(lines)
      invariant Built(lines, start, runs, index)
      invariant Mirrors(told, runs) && Separate(told) && Tracks(heads, told, index)
      invariant forall i :: 0 <= i < |told| ==> fresh(told[i])
    {
      var window := lines[start..start + WINDOW];
      assert IsWindow(lines, start) == OneFile(window);
      var starts := if OneFile(window) then At(occurrences, WindowText(window)) else [];
      if |starts| < 2 {
        BuiltSkips(lines, start, runs, index);
      } else {
        var key := JoinInts(starts);
        var before := JoinInts(Shift(starts, -1));
        KeyKnown(heads, told, index, starts);
        KeyKnown(heads, told, index, Shift(starts, -1));
        if key in heads {
          BuiltSkips(lines, start, runs, index);
        } else if before in heads {
          var previous := heads[before];
          ghost var at := index[Shift(starts, -1)];
          BuiltExtends(lines, start, runs, index);
          TracksGrows(heads, told, told, index, starts, Slot(at.run, at.offset + 1));
          previous.length := previous.length + 1;
          heads := heads[key := previous];
          runs, index := Extended(runs, at.run), index[starts := Slot(at.run, at.offset + 1)];
        } else {
          var entry := new Region(starts);
          BuiltOpens(lines, start, runs, index);
          TracksGrows(heads, told, told + [entry], index, starts, Slot(|told|, 0));
          heads := heads[key := entry];
          told := told + [entry];
          runs, index := runs + [Run(starts, WINDOW)], index[starts := Slot(|runs|, 0)];
        }
      }
      start := start + 1;
    }
    RunsExact(lines, runs, index);
  }

  // ---- Copies, in the words of the lines -------------------------------------------------

  /** Twenty lines of one file, and the same twenty texts in one file somewhere else. */
  ghost predicate TwentyAlike(lines: Corpus, s: int, t: int) {
    && s != t && 0 <= s && s + 20 <= |lines| && 0 <= t && t + 20 <= |lines|
    && forall e :: 0 <= e < 20 ==> AlikeAt(lines, s, t, e)
  }

  ghost predicate AlikeAt(lines: Corpus, s: nat, t: nat, e: nat)
    requires s + e < |lines| && t + e < |lines|
  {
    lines[s + e].text == lines[t + e].text && lines[s + e].path == lines[s].path && lines[t + e].path == lines[t].path
  }

  lemma {:induction false} SameTexts(a: Corpus, b: Corpus)
    requires |a| == |b| && forall i :: 0 <= i < |a| ==> a[i].text == b[i].text
    ensures WindowText(a) == WindowText(b)
  {
    if a != [] { SameTexts(a[1..], b[1..]); }
  }

  ghost predicate StaysAt(lines: Corpus, s: nat, e: nat)
    requires s + e < |lines|
  {
    lines[s + e].path == lines[s].path
  }

  lemma InOneFile(lines: Corpus, s: int)
    ensures IsWindow(lines, s) <==>
            0 <= s && s + 20 <= |lines| && forall e :: 0 <= e < 20 ==> StaysAt(lines, s, e)
  {
    if 0 <= s && s + WINDOW <= |lines| {
      var w := lines[s..s + WINDOW];
      assert forall e :: 0 <= e < 20 ==> w[e] == lines[s + e];
      if OneFile(w) {
        forall e | 0 <= e < 20 ensures StaysAt(lines, s, e) { assert e > 0 ==> w[e].path == w[0].path; }
      } else {
        var e :| 0 < e < |w| && w[e].path != w[0].path;
        assert !StaysAt(lines, s, e);
      }
    }
  }

  /** Alike are windows with one text, and no others. */
  lemma AlikeExactly(lines: Corpus, s: int, t: int)
    requires Normalized(lines)
    ensures TwentyAlike(lines, s, t) <==>
            s != t && IsWindow(lines, s) && IsWindow(lines, t) && TextAt(lines, s) == TextAt(lines, t)
  {
    InOneFile(lines, s);
    InOneFile(lines, t);
    hide IsWindow;
    if 0 <= s && s + 20 <= |lines| && 0 <= t && t + 20 <= |lines| {
      var a, b := lines[s..s + WINDOW], lines[t..t + WINDOW];
      assert forall e :: 0 <= e < 20 ==> a[e] == lines[s + e] && b[e] == lines[t + e];
      if TwentyAlike(lines, s, t) {
        forall e | 0 <= e < 20 ensures a[e].text == b[e].text { assert AlikeAt(lines, s, t, e); }
        forall e | 0 <= e < 20 ensures StaysAt(lines, s, e) && StaysAt(lines, t, e) { assert AlikeAt(lines, s, t, e); }
        SameTexts(a, b);
      } else if IsWindow(lines, s) && IsWindow(lines, t) && TextAt(lines, s) == TextAt(lines, t) {
        WindowTextInjective(a, b);
        forall e | 0 <= e < 20 ensures AlikeAt(lines, s, t, e) {
          assert StaysAt(lines, s, e) && StaysAt(lines, t, e) && a[e].text == b[e].text;
        }
      }
    }
  }

  lemma TwoMembers(l: seq<int>, s: int)
    requires Increasing(l) && s in l
    ensures |l| >= 2 <==> exists t :: t in l && t != s
  {
    if |l| >= 2 {
      var t := if l[0] == s then l[1] else l[0];
      assert t in l && t != s;
    } else {
      assert l == [s];
    }
  }

  /** Counted as copied are exactly the lines that start twenty lines which some other place has
      too. */
  lemma CopiedExactly(lines: Corpus, s: int)
    requires Normalized(lines)
    ensures IsCopied(lines, s) <==> exists t :: TwentyAlike(lines, s, t)
  {
    forall t
      ensures TwentyAlike(lines, s, t) <==>
              s != t && IsWindow(lines, s) && IsWindow(lines, t) && TextAt(lines, s) == TextAt(lines, t)
    {
      AlikeExactly(lines, s, t);
    }
    hide TwentyAlike, IsWindow, TextAt, Normalized;
    if IsWindow(lines, s) {
      OccurrencesExact(lines, s);
      TwoMembers(Occurrences(lines, s), s);
      hide Occurrences;
      if t :| TwentyAlike(lines, s, t) { assert t in Occurrences(lines, s); }
      if t :| t in Occurrences(lines, s) && t != s { assert TwentyAlike(lines, s, t); }
    }
  }

  /** So in an exact report every such line is in one region at one place, and every region is
      made of such lines only. */
  lemma ReportedExactly(lines: Corpus, runs: seq<Run>, s: int)
    requires Normalized(lines) && Exact(lines, runs)
    ensures (exists t :: TwentyAlike(lines, s, t)) <==> exists i, d :: InRun(runs, s, i, d)
    ensures forall i, d, j, e :: InRun(runs, s, i, d) && InRun(runs, s, j, e) ==> i == j && d == e
    ensures forall i :: 0 <= i < |runs| ==> runs[i].length >= 20 && |runs[i].starts| >= 2
  {
    CopiedExactly(lines, s);
    assert forall i :: 0 <= i < |runs| ==> RunIsExact(lines, runs[i]);
    hide IsCopied, TwentyAlike, InRun;
  }

  /** A line counts unless it is blank or starts a comment; indentation does not matter. */
  lemma CountsExactly(before: string, text: string, after: string)
    requires (forall c :: c in before ==> IsSpace(c)) && (forall c :: c in after ==> IsSpace(c))
    requires text != "" ==> !IsSpace(text[0]) && !IsSpace(text[|text| - 1])
    ensures Counts(before + text + after) <==>
            text != "" && (|text| == 1 || text[0] != '/' || text[1] != '/')
  {
    TrimSpaceExactly(before, text, after);
    hide TrimSpace, IsSpace;
    assert "//" == ['/', '/'] && (|text| >= 2 ==> text[..2] == [text[0], text[1]]);
  }

  /** Words with white space between them. */
  ghost predicate WordsValid(words: seq<string>, gaps: seq<string>) {
    |gaps| == |words| && forall i :: 0 <= i < |words| ==> WordValid(words[i], gaps[i])
  }

  ghost predicate WordValid(word: string, gap: string) {
    word != "" && gap != "" && (forall c :: c in word ==> !IsSpace(c)) && forall c :: c in gap ==> IsSpace(c)
  }

  ghost function Gapped(words: seq<string>, gaps: seq<string>): string
    requires |gaps| == |words|
  {
    if words == [] then "" else words[0] + (gaps[0] + Gapped(words[1..], gaps[1..]))
  }

  lemma {:induction false} FieldsInWord(word: string, more: string, rest: string)
    requires (forall c :: c in word ==> !IsSpace(c)) && (forall c :: c in more ==> !IsSpace(c))
    ensures FieldsFrom(word, more + rest) == FieldsFrom(word + more, rest)
    decreases |more|
  {
    hide IsSpace;
    if more == "" {
      assert more + rest == rest && word + more == word;
    } else {
      var s := more + rest;
      assert s[0] == more[0] && more[0] in more && s[1..] == more[1..] + rest;
      assert word + [more[0]] + more[1..] == word + more;
      FieldsInWord(word + [more[0]], more[1..], rest);
    }
  }

  lemma {:induction false} FieldsInGap(gap: string, rest: string)
    requires forall c :: c in gap ==> IsSpace(c)
    ensures FieldsFrom("", gap + rest) == FieldsFrom("", rest)
  {
    hide IsSpace;
    if gap == "" {
      assert gap + rest == rest;
    } else {
      var s := gap + rest;
      assert s[0] == gap[0] && gap[0] in gap && s[1..] == gap[1..] + rest;
      FieldsInGap(gap[1..], rest);
      assert [] + FieldsFrom("", s[1..]) == FieldsFrom("", s[1..]);
    }
  }

  lemma FieldEnds(word: string, gap: string, rest: string)
    requires WordValid(word, gap)
    ensures FieldsFrom(word, gap + rest) == [word] + FieldsFrom("", rest)
  {
    hide IsSpace;
    var s := gap + rest;
    assert s[0] == gap[0] && gap[0] in gap && s[1..] == gap[1..] + rest;
    FieldsInGap(gap[1..], rest);
  }

  lemma {:induction false} FieldsRead(words: seq<string>, gaps: seq<string>, rest: string)
    requires WordsValid(words, gaps)
    ensures FieldsFrom("", Gapped(words, gaps) + rest) == words + FieldsFrom("", rest)
  {
    if words == [] {
      assert Gapped(words, gaps) + rest == rest && words + FieldsFrom("", rest) == FieldsFrom("", rest);
    } else {
      assert WordValid(words[0], gaps[0]);
      assert WordsValid(words[1..], gaps[1..]) by {
        forall i | 0 <= i < |words[1..]| ensures WordValid(words[1..][i], gaps[1..][i]) {
          assert WordValid(words[i + 1], gaps[i + 1]);
        }
      }
      var tail := Gapped(words[1..], gaps[1..]) + rest;
      assert Gapped(words, gaps) + rest == words[0] + (gaps[0] + tail);
      hide IsSpace, FieldsFrom, Gapped;
      FieldsRead(words[1..], gaps[1..], rest);
      FieldsInWord("", words[0], gaps[0] + tail);
      assert "" + words[0] == words[0];
      FieldEnds(words[0], gaps[0], tail);
      assert [words[0]] + (words[1..] + FieldsFrom("", rest)) == words + FieldsFrom("", rest);
    }
  }

  lemma LastField(word: string)
    requires word != "" && forall c :: c in word ==> !IsSpace(c)
    ensures FieldsFrom("", word) == [word]
  {
    FieldsInWord("", word, "");
    hide IsSpace;
    assert word + "" == word && "" + word == word;
  }

  lemma GappedStarts(words: seq<string>, gaps: seq<string>, last: string)
    requires WordsValid(words, gaps) && last != "" && !IsSpace(last[0])
    ensures var text := Gapped(words, gaps) + last; text != "" && !IsSpace(text[0])
  {
    if words != [] {
      assert WordValid(words[0], gaps[0]) && words[0][0] in words[0];
    }
  }

  /** White space between words, however much and of whatever kind, becomes one space, and at the
      ends of a line nothing. */
  lemma SpacesCollapse(before: string, words: seq<string>, gaps: seq<string>, last: string, after: string)
    requires WordsValid(words, gaps) && last != "" && forall c :: c in last ==> !IsSpace(c)
    requires (forall c :: c in before ==> IsSpace(c)) && (forall c :: c in after ==> IsSpace(c))
    ensures Collapsed(TrimSpace(before + (Gapped(words, gaps) + last) + after)) == Join(words + [last], ' ')
  {
    var text := Gapped(words, gaps) + last;
    assert last[0] in last && text[|text| - 1] == last[|last| - 1] && last[|last| - 1] in last;
    hide IsSpace, TrimSpace, FieldsFrom, Gapped;
    GappedStarts(words, gaps, last);
    TrimSpaceExactly(before, text, after);
    FieldsRead(words, gaps, last);
    LastField(last);
  }

  /** The lines of a file: each that counts, once, under its path and number, in order. */
  lemma {:induction false} LinesExactly(path: string, raws: seq<string>, number: nat, l: DupLine)
    ensures var lines := NormalizedFrom(path, raws, number);
            && (l in lines <==>
                && l.path == path && number <= l.line < number + |raws|
                && Counts(raws[l.line - number]) && l.text == Collapsed(TrimSpace(raws[l.line - number])))
            && forall i, j :: 0 <= i < j < |lines| ==> lines[i].line < lines[j].line
  {
    hide Counts, Collapsed, TrimSpace;
    if raws != [] {
      var rest := NormalizedFrom(path, raws[1..], number + 1);
      LinesExactly(path, raws[1..], number + 1, l);
      forall i | 0 <= i < |rest| ensures number < rest[i].line {
        LinesExactly(path, raws[1..], number + 1, rest[i]);
      }
      assert l.line > number && l.line < number + |raws| ==>
               raws[1..][l.line - (number + 1)] == raws[l.line - number];
    }
  }

  // ---- The report ------------------------------------------------------------------------

  function PlacesOf(lines: Corpus, run: Run): (r: seq<string>)
    requires Fits(lines, run)
    ensures |r| == |run.starts|
    ensures forall i :: 0 <= i < |r| ==> r[i] == Place(lines[run.starts[i]].path, lines[run.starts[i]].line)
  {
    seq(|run.starts|, i requires 0 <= i < |run.starts| => Place(lines[run.starts[i]].path, lines[run.starts[i]].line))
  }

  /** One run as a refusal: filed at its first place, owned by its least one. */
  function FindingOf(digestOf: string -> string, lines: Corpus, run: Run): Finding
    requires Fits(lines, run)
  {
    var first := lines[run.starts[0]];
    var places := Sort(PlacesOf(lines, run));
    SortSorts(PlacesOf(lines, run));
    assert |places| == |multiset(places)| == |run.starts|;
    Finding(KIND_DUPLICATION, first.path, "", first.line, METRIC_DUPLICATION, run.length,
            OwnerOf(places[0]), digestOf(TextAt(lines, run.starts[0])), places)
  }

  ghost predicate Reports(digestOf: string -> string, lines: Corpus, runs: seq<Run>, findings: seq<Finding>) {
    |findings| == |runs| &&
    forall i :: 0 <= i < |runs| ==> Fits(lines, runs[i]) && findings[i] == FindingOf(digestOf, lines, runs[i])
  }

  /** The findings of the duplication measure, one for each maximal run. */
  method DuplicatedBlocks(digestOf: string -> string, lines: Corpus)
    returns (findings: seq<Finding>, ghost runs: seq<Run>)
    requires Normalized(lines)
    ensures Exact(lines, runs) && |findings| == |runs|
    ensures forall i :: 0 <= i < |runs| ==>
              findings[i] == FindingOf(digestOf, lines, runs[i])
  {
    hide OccurrencesBelow, WindowText, OneFile, FindingOf, Partitioned, SamePlaces, SameBlock, Maximal;
    var told;
    told, runs := FindRegions(lines);
    findings := [];
    for i := 0 to |told|
      invariant |findings| == i && Mirrors(told, runs)
      invariant forall j :: 0 <= j < i ==>
                  findings[j] == FindingOf(digestOf, lines, runs[j])
    {
      findings := findings + [FindingOf(digestOf, lines, told[i].AsRun())];
    }
    assert Reports(digestOf, lines, runs, findings);
  }

  lemma {:induction false} WindowIsLines(window: Corpus)
    ensures WindowText(window) == Unlines(Texts(window), "\n")
  {
    if window != [] {
      WindowIsLines(window[1..]);
      assert Texts(window)[1..] == Texts(window[1..]) && ['\n'] == "\n";
    }
  }

  /** What a finding says of its run: where the first copy is, how long it is, all its places in
      order, the directory of the least, and the digest of its first twenty lines. */
  lemma FindingSays(digestOf: string -> string, lines: Corpus, run: Run)
    requires Fits(lines, run)
    ensures var f, first := FindingOf(digestOf, lines, run), lines[run.starts[0]];
            && f.kind == "duplication" && f.metric == "duplication" && f.func == ""
            && f.path == first.path && f.line == first.line && f.value == run.length
            && Sorted(f.places) && multiset(f.places) == multiset(PlacesOf(lines, run))
            && f.places != [] && f.owner == OwnerOf(f.places[0])
            && f.digest == digestOf(Unlines(Texts(lines[run.starts[0]..run.starts[0] + 20]), "\n"))
    ensures forall i :: 0 <= i < |run.starts| ==>
              PlacesOf(lines, run)[i] == lines[run.starts[i]].path + ":" + Itoa(lines[run.starts[i]].line)
  {
    SortSorts(PlacesOf(lines, run));
    WindowIsLines(lines[run.starts[0]..run.starts[0] + 20]);
    hide Sort, Sorted, WindowText, Texts, Unlines;
  }

  /** The text of its first window tells a run from every other. */
  lemma FirstWindowNamesTheRun(lines: Corpus, runs: seq<Run>, i: nat, j: nat)
    requires Exact(lines, runs) && i < |runs| && j < |runs|
    requires RunIsExact(lines, runs[i]) && RunIsExact(lines, runs[j])
    requires TextAt(lines, runs[i].starts[0]) == TextAt(lines, runs[j].starts[0])
    ensures i == j
  {
    var a, b := runs[i].starts[0], runs[j].starts[0];
    assert InRun(runs, a, i, 0) && InRun(runs, b, j, 0);
    RunMemberOccurs(lines, runs, a, i, 0);
    RunMemberOccurs(lines, runs, b, j, 0);
    OccurrencesExact(lines, a);
    assert Shift(runs[i].starts, 0) == runs[i].starts && Shift(runs[j].starts, 0) == runs[j].starts;
    assert InRun(runs, a, j, 0);
  }

  lemma IdentityHoldsDigest(f: Finding, g: Finding)
    requires f.kind == g.kind == KIND_DUPLICATION && NUL !in f.digest && NUL !in g.digest
    requires f.Identity() == g.Identity()
    ensures f.digest == g.digest
  {
    hide Sort, Distinct, Join;
    var n := |KIND_DUPLICATION| + 1;
    assert f.digest + [NUL] + Join(f.Paths(), NUL) == f.Identity()[n..];
    assert g.digest + [NUL] + Join(g.Paths(), NUL) == g.Identity()[n..];
    CutUnique(f.digest, Join(f.Paths(), NUL), g.digest, Join(g.Paths(), NUL), NUL);
  }

  /** Two different regions are never one entry of the baseline: with a digest that tells texts
      apart their identities differ. */
  lemma RegionsHaveDistinctIdentities(digestOf: string -> string, lines: Corpus, runs: seq<Run>, i: nat, j: nat)
    requires Exact(lines, runs) && i < j < |runs|
    requires forall x, y :: digestOf(x) == digestOf(y) ==> x == y
    requires forall x :: NUL !in digestOf(x)
    ensures FindingOf(digestOf, lines, runs[i]).Identity() != FindingOf(digestOf, lines, runs[j]).Identity()
  {
    assert RunIsExact(lines, runs[i]) && RunIsExact(lines, runs[j]);
    var f, g := FindingOf(digestOf, lines, runs[i]), FindingOf(digestOf, lines, runs[j]);
    hide Exact, RunIsExact, Sort, Distinct, Join, WindowText;
    if f.Identity() == g.Identity() {
      IdentityHoldsDigest(f, g);
      FirstWindowNamesTheRun(lines, runs, i, j);
    }
  }
}
