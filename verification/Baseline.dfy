/** The complexity baseline: the list of accepted findings and the ratchet it is held to. */
module Baseline {
  import DuplicateBlocks
  import opened Findings
  import opened Order
  import opened Text
  import opened Wrappers

  const SCHEMA := 1

  // ---- Budgets ---------------------------------------------------------------------------

  predicate HasSuffix(s: string, suffix: string) { |s| >= |suffix| && s[|s| - |suffix|..] == suffix }

  datatype Scope = Product | Tooling | Tests

  /** Tests win over the root they live under. */
  function ScopeOf(path: string): Option<Scope> {
    if HasSuffix(path, "_test.go") then Some(Tests)
    else if "internal/" <= path || "cmd/" <= path then Some(Product)
    else if "tools/" <= path then Some(Tooling)
    else None
  }

  function BudgetFor(scope: Scope, metric: string): Option<int> {
    if metric == "cyclomatic" then Some(match scope case Product => 20 case Tooling => 25 case Tests => 40)
    else if metric == "nesting" then Some(match scope case Product => 4 case Tooling => 4 case Tests => 5)
    else if metric == "parameters" then Some(match scope case Product => 6 case Tooling => 6 case Tests => 8)
    else if metric == "lines" then Some(match scope case Product => 120 case Tooling => 150 case Tests => 200)
    else if metric == "statements" then Some(match scope case Product => 60 case Tooling => 60 case Tests => 120)
    else None
  }

  function MetricBudget(path: string, metric: string): Option<int> {
    match ScopeOf(path)
    case Some(scope) => BudgetFor(scope, metric)
    case None => None
  }

  // ---- Entries ---------------------------------------------------------------------------

  /** One accepted finding. */
  datatype Entry = Entry(
    kind: string, path: string, func: string, metric: string, value: int, owner: string, digest: string,
    paths: seq<string>)
  {
    /** The identity the comparison matches on, derived as a finding's is. */
    function Key(): string {
      if kind == KIND_DUPLICATION then KIND_DUPLICATION + [NUL] + digest + [NUL] + Join(Sort(paths), NUL)
      else KIND_FUNCTION + [NUL] + path + [NUL] + func + [NUL] + metric
    }

    /** The value the line has to exceed. */
    function Floor(): int {
      if kind == KIND_DUPLICATION then DuplicateBlocks.WINDOW - 1
      else match MetricBudget(path, metric)
           case Some(budget) => budget
           case None => 0
    }

    /** The owner the line has to name, empty when there is nothing to derive it from. */
    function DerivedOwner(): string {
      if kind == KIND_DUPLICATION then
        (if paths == [] then ""
         else SortSorts(paths); assert |Sort(paths)| == |multiset(Sort(paths))| == |paths|; OwnerOf(Sort(paths)[0]))
      else if path == "" then "" else OwnerOf(path)
    }
  }

  function EntryOf(f: Finding): Entry {
    if f.kind == KIND_DUPLICATION then Entry(KIND_DUPLICATION, "", "", "", f.value, f.owner, f.digest, f.Paths())
    else Entry(KIND_FUNCTION, f.path, f.func, f.metric, f.value, f.owner, "", [])
  }

  /** A finding and the line that accepts it have one identity. */
  lemma EntryOfKeepsIdentity(f: Finding)
    requires f.kind == KIND_DUPLICATION || f.kind == KIND_FUNCTION
    ensures EntryOf(f).Key() == f.Identity()
  {
    var distinct := Distinct(PathsOf(f.places));
    SortSorts(distinct);
    SortSorts(Sort(distinct));
    SortedUnique(Sort(Sort(distinct)), Sort(distinct));
  }

  // ---- The document ----------------------------------------------------------------------

  datatype DocumentFault =
    | WrongSchema | Incomplete(entry: Entry) | UnknownMeasure(entry: Entry) | UnknownKind(entry: Entry)
    | ValueBelowOne(entry: Entry) | NoOwner(entry: Entry) | ListedTwice(entry: Entry)

  function EntryFaults(e: Entry): set<DocumentFault> {
    (if e.kind == KIND_FUNCTION then
       (if e.path == "" || e.func == "" || e.metric == "" then {Incomplete(e)} else {}) +
       (if MetricBudget(e.path, e.metric).None? then {UnknownMeasure(e)} else {})
     else if e.kind == KIND_DUPLICATION then (if e.digest == "" || |e.paths| < 1 then {Incomplete(e)} else {})
     else {UnknownKind(e)}) +
    (if e.value < 1 then {ValueBelowOne(e)} else {}) +
    (if TrimSpace(e.owner) == "" then {NoOwner(e)} else {})
  }

  function KeysOf(entries: seq<Entry>): (r: seq<string>)
    ensures |r| == |entries| && forall i :: 0 <= i < |r| ==> r[i] == entries[i].Key()
  {
    seq(|entries|, i requires 0 <= i < |entries| => entries[i].Key())
  }

  ghost predicate NoRepeat(keys: seq<string>) { forall i, j :: 0 <= i < j < |keys| ==> keys[i] != keys[j] }

  lemma NoRepeatAppend(keys: seq<string>, key: string)
    ensures NoRepeat(keys + [key]) <==> NoRepeat(keys) && key !in keys
  {
    var more := keys + [key];
    if NoRepeat(more) {
      assert forall i :: 0 <= i < |keys| ==> keys[i] == more[i];
      assert more[|keys|] == key;
    }
  }

  /** Every line of the document is complete. */
  ghost predicate Complete(entries: seq<Entry>) { forall i :: 0 <= i < |entries| ==> EntryFaults(entries[i]) == {} }

  lemma CompleteGrows(entries: seq<Entry>, i: nat)
    requires i < |entries|
    ensures Complete(entries[..i + 1]) <==> Complete(entries[..i]) && EntryFaults(entries[i]) == {}
  {
    hide EntryFaults;
    assert forall j :: 0 <= j < i ==> entries[..i + 1][j] == entries[..i][j];
    assert entries[..i + 1][i] == entries[i];
  }

  /** What is wrong with the lines of a document: each by itself, and those whose key an earlier
      line has. */
  function LineFaults(entries: seq<Entry>): set<DocumentFault> {
    if entries == [] then {} else
      var init, e := entries[..|entries| - 1], entries[|entries| - 1];
      LineFaults(init) + EntryFaults(e) + if e.Key() in KeysOf(init) then {ListedTwice(e)} else {}
  }

  function DocumentFaults(schema: int, entries: seq<Entry>): set<DocumentFault> {
    (if schema != SCHEMA then {WrongSchema} else {}) + LineFaults(entries)
  }

  /** The document is held to its own shape, line by line. */
  method JudgeDocument(schema: int, entries: seq<Entry>) returns (faults: set<DocumentFault>)
    ensures faults == DocumentFaults(schema, entries)
  {
    hide EntryFaults, Entry.Key;
    faults := if schema != SCHEMA then {WrongSchema} else {};
    var seen: set<string> := {};
    for i := 0 to |entries|
      invariant forall k :: k in seen <==> k in KeysOf(entries[..i])
      invariant faults == DocumentFaults(schema, entries[..i])
    {
      var e := entries[i];
      assert entries[..i + 1][..i] == entries[..i];
      assert KeysOf(entries[..i + 1]) == KeysOf(entries[..i]) + [e.Key()];
      faults := faults + EntryFaults(e) + if e.Key() in seen then {ListedTwice(e)} else {};
      seen := seen + {e.Key()};
    }
    assert entries[..|entries|] == entries;
  }

  /** A document is clean exactly when its schema is the one read, every line is complete, and no
      finding has two lines. */
  lemma DocumentIsCleanExactly(schema: int, entries: seq<Entry>)
    ensures DocumentFaults(schema, entries) == {} <==>
            schema == SCHEMA && NoRepeat(KeysOf(entries)) && Complete(entries)
  {
    hide LineFaults, NoRepeat, Complete;
    LinesAreCleanExactly(entries);
    assert WrongSchema in {WrongSchema};
  }

  lemma {:induction false} LinesAreCleanExactly(entries: seq<Entry>)
    ensures LineFaults(entries) == {} <==> NoRepeat(KeysOf(entries)) && Complete(entries)
  {
    hide EntryFaults, Entry.Key, NoRepeat, Complete;
    if entries == [] {
      NothingYet();
    } else {
      var last := |entries| - 1;
      var init, e := entries[..last], entries[last];
      LinesAreCleanExactly(init);
      assert KeysOf(entries) == KeysOf(init) + [e.Key()];
      NoRepeatAppend(KeysOf(init), e.Key());
      CompleteGrows(entries, last);
      assert entries[..last + 1] == entries;
      var twice := if e.Key() in KeysOf(init) then {ListedTwice(e)} else {};
      assert twice == {} <==> e.Key() !in KeysOf(init);
      assert LineFaults(entries) == LineFaults(init) + EntryFaults(e) + twice;
    }
  }

  lemma NothingYet()
    ensures NoRepeat(KeysOf([])) && Complete([])
  {
  }

  // ---- The ratchet -----------------------------------------------------------------------

  datatype Violation =
    | Hole(entry: Entry) | WrongOwner(entry: Entry) | NotAccepted(finding: Finding)
    | Grew(finding: Finding, accepted: int) | Shrank(finding: Finding, accepted: int) | Outlived(entry: Entry)

  /** The entry a map that is filled in order ends up holding for a key. */
  function Accepted(entries: seq<Entry>, key: string): Option<Entry> {
    if entries == [] then None
    else if entries[|entries| - 1].Key() == key then Some(entries[|entries| - 1])
    else Accepted(entries[..|entries| - 1], key)
  }

  function EntryViolations(e: Entry): set<Violation> {
    (if e.value <= e.Floor() then {Hole(e)} else {}) +
    (if e.DerivedOwner() != "" && e.DerivedOwner() != e.owner then {WrongOwner(e)} else {})
  }

  function FindingViolations(entries: seq<Entry>, f: Finding): set<Violation> {
    match Accepted(entries, f.Identity())
    case None => {NotAccepted(f)}
    case Some(e) =>
      if f.value > e.value then {Grew(f, e.value)} else if f.value < e.value then {Shrank(f, e.value)} else {}
  }

  function IdentitiesOf(findings: seq<Finding>): (r: seq<string>)
    ensures |r| == |findings| && forall i :: 0 <= i < |r| ==> r[i] == findings[i].Identity()
  {
    seq(|findings|, i requires 0 <= i < |findings| => findings[i].Identity())
  }

  function Get(accepted: map<string, Entry>, key: string): Option<Entry> {
    if key in accepted then Some(accepted[key]) else None
  }

  /** The lines that are holes or misname their owner. */
  function Holes(entries: seq<Entry>): set<Violation> {
    if entries == [] then {} else Holes(entries[..|entries| - 1]) + EntryViolations(entries[|entries| - 1])
  }

  /** The findings that are new, grew or shrank. */
  function Moved(findings: seq<Finding>, entries: seq<Entry>): set<Violation> {
    if findings == [] then {} else
      Moved(findings[..|findings| - 1], entries) + FindingViolations(entries, findings[|findings| - 1])
  }

  /** The lines whose finding is gone. */
  function Gone(findings: seq<Finding>, entries: seq<Entry>): set<Violation> {
    if entries == [] then {} else
      var e := entries[|entries| - 1];
      Gone(findings, entries[..|entries| - 1]) + if e.Key() in IdentitiesOf(findings) then {} else {Outlived(e)}
  }

  /** All that the document and the tree disagree about. */
  function Judged(findings: seq<Finding>, entries: seq<Entry>): set<Violation> {
    Holes(entries) + Moved(findings, entries) + Gone(findings, entries)
  }

  /** The document against the floors, and the index of what it accepts. */
  method IndexEntries(entries: seq<Entry>) returns (accepted: map<string, Entry>, violations: set<Violation>)
    ensures forall k :: Get(accepted, k) == Accepted(entries, k)
    ensures violations == Holes(entries)
  {
    hide Entry.Key, Entry.Floor, Entry.DerivedOwner;
    accepted, violations := map[], {};
    for i := 0 to |entries|
      invariant forall k :: Get(accepted, k) == Accepted(entries[..i], k)
      invariant violations == Holes(entries[..i])
    {
      var e := entries[i];
      assert entries[..i + 1][..i] == entries[..i];
      accepted := accepted[KeysOf(entries)[i] := e];
      if e.value <= e.Floor() { violations := violations + {Hole(e)}; }
      if e.DerivedOwner() != "" && e.DerivedOwner() != e.owner { violations := violations + {WrongOwner(e)}; }
    }
    assert entries[..|entries|] == entries;
  }

  /** Every finding against the line that accepts it. */
  method JudgeFindings(findings: seq<Finding>, entries: seq<Entry>, accepted: map<string, Entry>)
    returns (current: set<string>, violations: set<Violation>)
    requires forall k :: Get(accepted, k) == Accepted(entries, k)
    ensures forall k :: k in current <==> k in IdentitiesOf(findings)
    ensures violations == Moved(findings, entries)
  {
    hide Accepted, Finding.Identity;
    current, violations := {}, {};
    for i := 0 to |findings|
      invariant forall k :: k in current <==> k in IdentitiesOf(findings)[..i]
      invariant violations == Moved(findings[..i], entries)
    {
      var f, identity := findings[i], IdentitiesOf(findings)[i];
      assert findings[..i + 1][..i] == findings[..i];
      assert Get(accepted, identity) == Accepted(entries, f.Identity());
      current := current + {identity};
      if identity !in accepted {
        violations := violations + {NotAccepted(f)};
        continue;
      }
      var entry := accepted[identity];
      if f.value > entry.value {
        violations := violations + {Grew(f, entry.value)};
      } else if f.value < entry.value {
        violations := violations + {Shrank(f, entry.value)};
      }
    }
    assert IdentitiesOf(findings)[..|findings|] == IdentitiesOf(findings) && findings[..|findings|] == findings;
  }

  /** The loop over the lines that no finding answers to. */
  method FindOutlived(findings: seq<Finding>, entries: seq<Entry>, current: set<string>)
    returns (outlived: set<Violation>)
    requires forall k :: k in current <==> k in IdentitiesOf(findings)
    ensures outlived == Gone(findings, entries)
  {
    hide Entry.Key, Finding.Identity;
    outlived := {};
    for i := 0 to |entries|
      invariant outlived == Gone(findings, entries[..i])
    {
      assert entries[..i + 1][..i] == entries[..i];
      if entries[i].Key() !in current { outlived := outlived + {Outlived(entries[i])}; }
    }
    assert entries[..|entries|] == entries;
  }

  /** Holds the document against the floors and against the tree. */
  method JudgeEntries(findings: seq<Finding>, entries: seq<Entry>) returns (violations: set<Violation>)
    ensures violations == Judged(findings, entries)
  {
    hide Accepted, Holes, Moved, Gone, IdentitiesOf;
    var accepted, holes := IndexEntries(entries);
    var current, misses := JudgeFindings(findings, entries, accepted);
    var outlived := FindOutlived(findings, entries, current);
    violations := holes + misses + outlived;
  }

  /** No line is a hole or names another owner than the one it derives. */
  ghost predicate NoHoles(entries: seq<Entry>) { forall i :: 0 <= i < |entries| ==> EntryViolations(entries[i]) == {} }

  /** No finding is new, and none grew or shrank. */
  ghost predicate NothingMoved(findings: seq<Finding>, entries: seq<Entry>) {
    forall i :: 0 <= i < |findings| ==> FindingViolations(entries, findings[i]) == {}
  }

  /** No line outlived its finding. */
  ghost predicate NoneOutlived(findings: seq<Finding>, entries: seq<Entry>) {
    forall i :: 0 <= i < |entries| ==> KeysOf(entries)[i] in IdentitiesOf(findings)
  }

  lemma {:induction false} NoHolesIfEmpty(entries: seq<Entry>)
    ensures Holes(entries) == {} <==> NoHoles(entries)
  {
    hide EntryViolations;
    if entries != [] {
      var init := entries[..|entries| - 1];
      NoHolesIfEmpty(init);
      assert forall i :: 0 <= i < |init| ==> init[i] == entries[i];
    }
  }

  lemma {:induction false} NothingMovedIfEmpty(findings: seq<Finding>, entries: seq<Entry>)
    ensures Moved(findings, entries) == {} <==> NothingMoved(findings, entries)
  {
    hide FindingViolations;
    if findings != [] {
      var init := findings[..|findings| - 1];
      NothingMovedIfEmpty(init, entries);
      assert forall i :: 0 <= i < |init| ==> init[i] == findings[i];
    }
  }

  lemma {:induction false} NoneOutlivedIfEmpty(findings: seq<Finding>, entries: seq<Entry>)
    ensures Gone(findings, entries) == {} <==> NoneOutlived(findings, entries)
  {
    hide Entry.Key, IdentitiesOf;
    if entries != [] {
      var last := |entries| - 1;
      var init, e := entries[..last], entries[last];
      NoneOutlivedIfEmpty(findings, init);
      assert forall i :: 0 <= i < |init| ==> KeysOf(init)[i] == KeysOf(entries)[i];
      var gone := if e.Key() in IdentitiesOf(findings) then {} else {Outlived(e)};
      assert gone == {} <==> KeysOf(entries)[last] in IdentitiesOf(findings);
      assert Gone(findings, entries) == Gone(findings, init) + gone;
    }
  }

  lemma JudgedIsEmpty(findings: seq<Finding>, entries: seq<Entry>)
    ensures Judged(findings, entries) == {} <==>
            NoHoles(entries) && NothingMoved(findings, entries) && NoneOutlived(findings, entries)
  {
    hide NoHoles, NothingMoved, NoneOutlived, Holes, Moved, Gone;
    NoHolesIfEmpty(entries);
    NothingMovedIfEmpty(findings, entries);
    NoneOutlivedIfEmpty(findings, entries);
  }

  // ---- What silence means ----------------------------------------------------------------

  lemma NoRepeatBefore(entries: seq<Entry>)
    requires entries != [] && NoRepeat(KeysOf(entries))
    ensures NoRepeat(KeysOf(entries[..|entries| - 1]))
  {
    hide Entry.Key;
    assert KeysOf(entries[..|entries| - 1]) == KeysOf(entries)[..|entries| - 1];
  }

  lemma {:induction false} AcceptedOfDistinct(entries: seq<Entry>, key: string, i: nat)
    requires NoRepeat(KeysOf(entries)) && i < |entries| && entries[i].Key() == key
    ensures Accepted(entries, key) == Some(entries[i])
  {
    hide Entry.Key;
    var last := |entries| - 1;
    if i < last {
      assert KeysOf(entries)[i] != KeysOf(entries)[last];
      NoRepeatBefore(entries);
      AcceptedOfDistinct(entries[..last], key, i);
    }
  }

  lemma {:induction false} AcceptedIsAnEntry(entries: seq<Entry>, key: string)
    requires Accepted(entries, key).Some?
    ensures exists i :: 0 <= i < |entries| && entries[i].Key() == key && Accepted(entries, key) == Some(entries[i])
  {
    if entries[|entries| - 1].Key() != key {
      AcceptedIsAnEntry(entries[..|entries| - 1], key);
      var i :| 0 <= i < |entries| - 1 && entries[..|entries| - 1][i].Key() == key &&
               Accepted(entries, key) == Some(entries[..|entries| - 1][i]);
      assert entries[i].Key() == key;
    }
  }

  /** One entry and one finding of the same identity carry the same value, and each side has all
      the identities of the other. */
  ghost predicate Matches(findings: seq<Finding>, entries: seq<Entry>) {
    && (forall k :: k in IdentitiesOf(findings) <==> k in KeysOf(entries))
    && (forall i, j :: 0 <= i < |findings| && 0 <= j < |entries| && IdentitiesOf(findings)[i] == KeysOf(entries)[j] ==>
          findings[i].value == entries[j].value)
  }

  ghost predicate EntryIsSound(e: Entry) {
    e.value > e.Floor() && (e.DerivedOwner() == "" || e.DerivedOwner() == e.owner)
  }

  /** The ratchet. For a document without repeats the comparison is silent exactly when the
      document is the tree's findings, value for value, every line exceeds its floor and names
      the owner it derives. */
  lemma RatchetIsExact(findings: seq<Finding>, entries: seq<Entry>)
    requires NoRepeat(KeysOf(entries))
    ensures Judged(findings, entries) == {} <==> Matches(findings, entries) && AllSound(entries)
  {
    hide Judged;
    JudgedIsEmpty(findings, entries);
    NoHolesExactly(entries);
    NothingMovedExactly(findings, entries);
    hide NoHoles, NothingMoved, AllSound;
    if NothingMoved(findings, entries) && NoneOutlived(findings, entries) { MovedNothingMatches(findings, entries); }
    if Matches(findings, entries) { MatchesMovedNothing(findings, entries); }
  }

  /** Every line exceeds its floor and names the owner it derives. */
  ghost predicate AllSound(entries: seq<Entry>) { forall i :: 0 <= i < |entries| ==> EntryIsSound(entries[i]) }

  ghost predicate AllMatch(findings: seq<Finding>, entries: seq<Entry>) {
    forall i :: 0 <= i < |findings| ==> FindingMatches(findings[i], entries)
  }

  lemma NoHolesExactly(entries: seq<Entry>)
    ensures NoHoles(entries) <==> AllSound(entries)
  {
    forall i | 0 <= i < |entries|
      ensures EntryViolations(entries[i]) == {} <==> EntryIsSound(entries[i])
    {
      SoundEntry(entries[i]);
    }
    hide EntryViolations, EntryIsSound;
  }

  lemma NothingMovedExactly(findings: seq<Finding>, entries: seq<Entry>)
    requires NoRepeat(KeysOf(entries))
    ensures NothingMoved(findings, entries) <==> AllMatch(findings, entries)
  {
    hide FindingViolations, FindingMatches, NoRepeat;
    forall i | 0 <= i < |findings|
      ensures FindingViolations(entries, findings[i]) == {} <==> FindingMatches(findings[i], entries)
    {
      FindingIsMatched(findings[i], entries);
    }
  }

  lemma MovedNothingMatches(findings: seq<Finding>, entries: seq<Entry>)
    requires AllMatch(findings, entries) && NoneOutlived(findings, entries)
    ensures Matches(findings, entries)
  {
    hide Entry.Key, Finding.Identity;
    forall k ensures k in IdentitiesOf(findings) <==> k in KeysOf(entries) {
      if k in IdentitiesOf(findings) {
        var i :| 0 <= i < |findings| && IdentitiesOf(findings)[i] == k;
        assert FindingMatches(findings[i], entries);
      }
    }
    forall i, j | 0 <= i < |findings| && 0 <= j < |entries| && IdentitiesOf(findings)[i] == KeysOf(entries)[j]
      ensures findings[i].value == entries[j].value
    {
      assert FindingMatches(findings[i], entries);
    }
  }

  lemma MatchesMovedNothing(findings: seq<Finding>, entries: seq<Entry>)
    requires Matches(findings, entries)
    ensures AllMatch(findings, entries) && NoneOutlived(findings, entries)
  {
    hide Entry.Key, Finding.Identity;
    forall i | 0 <= i < |findings| ensures FindingMatches(findings[i], entries) {
      assert IdentitiesOf(findings)[i] in KeysOf(entries);
    }
    forall j | 0 <= j < |entries| ensures KeysOf(entries)[j] in IdentitiesOf(findings) {
      assert KeysOf(entries)[j] in KeysOf(entries);
    }
  }

  lemma SoundEntry(e: Entry)
    ensures EntryViolations(e) == {} <==> EntryIsSound(e)
  {
    var holes := if e.value <= e.Floor() then {Hole(e)} else {};
    var owners := if e.DerivedOwner() != "" && e.DerivedOwner() != e.owner then {WrongOwner(e)} else {};
    assert EntryViolations(e) == holes + owners;
  }

  ghost predicate FindingMatches(f: Finding, entries: seq<Entry>) {
    f.Identity() in KeysOf(entries) &&
    forall j :: 0 <= j < |entries| && KeysOf(entries)[j] == f.Identity() ==> f.value == entries[j].value
  }

  lemma FindingIsMatched(f: Finding, entries: seq<Entry>)
    requires NoRepeat(KeysOf(entries))
    ensures FindingViolations(entries, f) == {} <==> FindingMatches(f, entries)
  {
    var key := f.Identity();
    if Accepted(entries, key).Some? {
      AcceptedIsAnEntry(entries, key);
      var i :| 0 <= i < |entries| && entries[i].Key() == key && Accepted(entries, key) == Some(entries[i]);
      assert KeysOf(entries)[i] == key;
    }
    forall i | 0 <= i < |entries| && KeysOf(entries)[i] == key ensures Accepted(entries, key) == Some(entries[i]) {
      AcceptedOfDistinct(entries, key, i);
    }
  }

  // ---- The printed document --------------------------------------------------------------

  /** A finding as the measures produce it: over its budget, at a place, owned by the directory of
      the place it is filed at. */
  ghost predicate Measured(f: Finding) {
    && TrimSpace(f.owner) != ""
    && (f.kind == KIND_FUNCTION ==>
          && f.path != "" && f.func != "" && f.metric != "" && f.owner == OwnerOf(f.path)
          && MetricBudget(f.path, f.metric).Some? && f.value > MetricBudget(f.path, f.metric).value)
    && (f.kind == KIND_DUPLICATION ==>
          f.digest != "" && f.value >= DuplicateBlocks.WINDOW && f.places != [] && "" !in f.places &&
          f.owner == OwnerOf(f.places[0]))
    && (f.kind == KIND_FUNCTION || f.kind == KIND_DUPLICATION)
  }

  /** The owner taken from the least place is the owner taken from the least path. */
  ghost predicate OwnersAgree(f: Finding)
    requires Measured(f)
  {
    f.kind == KIND_DUPLICATION ==> (PathsNotEmpty(f); OwnerOf(f.places[0]) == OwnerOf(f.Paths()[0]))
  }

  lemma PathsNotEmpty(f: Finding)
    ensures f.places != [] ==> f.Paths() != []
    ensures Sort(f.Paths()) == f.Paths() && Sorted(f.Paths()) && forall x :: x in f.Paths() <==> x in PathsOf(f.places)
  {
    var paths := PathsOf(f.places);
    var distinct := Distinct(paths);
    SortSorts(distinct);
    SortSorts(f.Paths());
    SortedUnique(Sort(f.Paths()), f.Paths());
    assert f.places != [] ==> paths[0] in distinct;
    forall x ensures x in f.Paths() <==> x in distinct {
      assert x in multiset(f.Paths()) <==> x in multiset(distinct);
    }
  }

  lemma MeasuredEntry(f: Finding)
    requires Measured(f)
    ensures EntryFaults(EntryOf(f)) == {} && (EntryIsSound(EntryOf(f)) <==> OwnersAgree(f))
  {
    PathsNotEmpty(f);
    BudgetsArePositive(f.path, f.metric);
    hide TrimSpace, LastIndex, Sort, Distinct, MetricBudget;
    if f.kind == KIND_FUNCTION {
      assert EntryOf(f).DerivedOwner() == OwnerOf(f.path);
    } else {
      assert EntryOf(f).DerivedOwner() == OwnerOf(f.Paths()[0]);
      OwnerIsNotEmpty(f.places[0]);
      assert f.Paths()[0] in PathsOf(f.places);
      var i :| 0 <= i < |f.places| && PathsOf(f.places)[i] == f.Paths()[0];
      assert f.places[i] != "" && f.Paths()[0] != "";
      OwnerIsNotEmpty(f.Paths()[0]);
    }
  }

  lemma BudgetsArePositive(path: string, metric: string)
    ensures MetricBudget(path, metric).Some? ==> MetricBudget(path, metric).value >= 4
  {
  }

  lemma OwnerIsNotEmpty(path: string)
    ensures OwnerOf(path) == "" <==> path == ""
  {
  }

  function EntriesOf(findings: seq<Finding>): (r: seq<Entry>)
    ensures |r| == |findings| && forall i :: 0 <= i < |r| ==> r[i] == EntryOf(findings[i])
  {
    seq(|findings|, i requires 0 <= i < |findings| => EntryOf(findings[i]))
  }

  /** Nothing is found against the document, by itself or against the tree. */
  ghost predicate Accepts(findings: seq<Finding>, entries: seq<Entry>) {
    DocumentFaults(SCHEMA, entries) == {} && Judged(findings, entries) == {}
  }

  /** The document a tree prints, in whatever order, is accepted by that same tree exactly when no
      two findings have one identity and the owner of every copied block can be read off either
      its least place or its least path. */
  lemma PrintedDocumentIsAccepted(findings: seq<Finding>, printed: seq<Finding>)
    requires forall f :: f in findings <==> f in printed
    requires forall i :: 0 <= i < |printed| ==> Measured(printed[i])
    ensures Accepts(findings, EntriesOf(printed)) <==>
            NoRepeat(IdentitiesOf(printed)) && forall i :: 0 <= i < |printed| ==> OwnersAgree(printed[i])
  {
    var entries := EntriesOf(printed);
    PrintedLines(printed);
    hide Measured, OwnersAgree, Complete, AllSound, DocumentFaults, Judged, Matches, Entry.Key, Finding.Identity,
         NoRepeat, EntryOf;
    DocumentIsCleanExactly(SCHEMA, entries);
    if NoRepeat(IdentitiesOf(printed)) {
      RatchetIsExact(findings, entries);
      PrintedMatches(findings, printed, entries);
    }
  }

  /** The lines printed from measured findings. */
  lemma PrintedLines(printed: seq<Finding>)
    requires forall i :: 0 <= i < |printed| ==> Measured(printed[i])
    ensures var entries := EntriesOf(printed);
            KeysOf(entries) == IdentitiesOf(printed) && Complete(entries) &&
            (AllSound(entries) <==> forall i :: 0 <= i < |printed| ==> OwnersAgree(printed[i]))
  {
    hide OwnersAgree, EntryFaults, EntryIsSound, Entry.Key, Finding.Identity, EntryOf;
    var entries := EntriesOf(printed);
    forall i | 0 <= i < |printed|
      ensures EntryFaults(entries[i]) == {} && (EntryIsSound(entries[i]) <==> OwnersAgree(printed[i]))
      ensures KeysOf(entries)[i] == IdentitiesOf(printed)[i]
    {
      MeasuredEntry(printed[i]);
      EntryOfKeepsIdentity(printed[i]);
    }
  }

  lemma PrintedMatches(findings: seq<Finding>, printed: seq<Finding>, entries: seq<Entry>)
    requires (forall f :: f in findings <==> f in printed) && entries == EntriesOf(printed)
    requires KeysOf(entries) == IdentitiesOf(printed) && NoRepeat(IdentitiesOf(printed))
    ensures Matches(findings, entries)
  {
    hide Entry.Key, Finding.Identity;
    forall k ensures k in IdentitiesOf(findings) <==> k in KeysOf(entries) {
      if k in IdentitiesOf(findings) {
        var i :| 0 <= i < |findings| && IdentitiesOf(findings)[i] == k;
        assert findings[i] in printed;
        var j :| 0 <= j < |printed| && printed[j] == findings[i];
        assert IdentitiesOf(printed)[j] == k;
      }
      if k in KeysOf(entries) {
        var j :| 0 <= j < |printed| && IdentitiesOf(printed)[j] == k;
        assert printed[j] in findings;
        var i :| 0 <= i < |findings| && findings[i] == printed[j];
        assert IdentitiesOf(findings)[i] == k;
      }
    }
    forall i, j | 0 <= i < |findings| && 0 <= j < |entries| && IdentitiesOf(findings)[i] == KeysOf(entries)[j]
      ensures findings[i].value == entries[j].value
    {
      assert findings[i] in printed;
      var l :| 0 <= l < |printed| && printed[l] == findings[i];
      assert IdentitiesOf(printed)[l] == IdentitiesOf(printed)[j];
      assert l == j;
    }
  }

  // ---- When the owners agree -------------------------------------------------------------

  lemma {:induction false} LessBeforeTails(a: string, b: string, x: string, y: string)
    requires Less(a, b) && !(a <= b)
    ensures Less(a + x, b + y)
  {
    assert a != "" && b != "";
    assert (a + x)[0] == a[0] && (b + y)[0] == b[0];
    if a[0] == b[0] {
      assert (a + x)[1..] == a[1..] + x && (b + y)[1..] == b[1..] + y;
      assert a == [a[0]] + a[1..] && b == [b[0]] + b[1..];
      LessBeforeTails(a[1..], b[1..], x, y);
    }
  }

  lemma {:induction false} LessCommonPrefix(p: string, a: string, b: string)
    ensures Less(p + a, p + b) <==> Less(a, b)
  {
    if p == "" {
      assert p + a == a && p + b == b;
    } else {
      assert (p + a)[1..] == p[1..] + a && (p + b)[1..] == p[1..] + b;
      LessCommonPrefix(p[1..], a, b);
    }
  }

  /** What follows the last slash of a place is what follows the last slash of its path. */
  lemma OwnerOfPlace(path: string, line: nat)
    requires '/' in path && path[0] != '/'
    ensures OwnerOf(Place(path, line)) == OwnerOf(path) == path[..LastIndex(path, '/')]
  {
    hide LastIndex, FirstIndex, Place;
    PlaceParts(path, line);
    var tail := ":" + Itoa(line);
    LastIndexBeforeTail(path, tail, '/');
    assert (path + tail)[..LastIndex(path, '/')] == path[..LastIndex(path, '/')];
  }

  lemma LastIndexBeforeTail(path: string, tail: string, c: char)
    requires c in path && path[0] != c && c !in tail
    ensures LastIndex(path + tail, c) == LastIndex(path, c) > 0
  {
    hide LastIndex;
    var at, whole := LastIndex(path, c), path + tail;
    var i := FirstIndex(path, c);
    assert at >= i > 0;
    assert forall j :: |path| <= j < |whole| ==> whole[j] == tail[j - |path|] && tail[j - |path|] in tail;
    LastIndexIs(whole, c, at);
  }

  /** The condition on owners holds of a tree in which no path begins another. */
  lemma UnnestedPathsAgree(f: Finding, paths: seq<string>, lines: seq<nat>)
    requires Measured(f) && f.kind == KIND_DUPLICATION && Sorted(f.places)
    requires |paths| == |lines| == |f.places|
    requires forall i :: 0 <= i < |paths| ==>
             f.places[i] == Place(paths[i], lines[i]) && '/' in paths[i] && paths[i][0] != '/'
    requires forall i, j :: 0 <= i < |paths| && 0 <= j < |paths| && paths[i] <= paths[j] ==> paths[i] == paths[j]
    ensures OwnersAgree(f)
  {
    hide Less, Place, Finding.Paths, LastIndex, OwnerOf, Measured;
    forall i | 0 <= i < |paths| ensures PathsOf(f.places)[i] == paths[i] { PlaceRoundTrip(paths[i], lines[i]); }
    PathsNotEmpty(f);
    assert f.places != [] by { MeasuredHasPlaces(f); }
    var least := f.Paths()[0];
    assert least in PathsOf(f.places) && PathsOf(f.places)[0] in f.Paths();
    var i :| 0 <= i < |paths| && paths[i] == least;
    LeastOfSorted(f.Paths(), paths[0]);
    LeastOfSorted(f.places, f.places[i]);
    OwnerOfPlace(paths[0], lines[0]);
    if least != paths[0] {
      LeqNotEqual(least, paths[0]);
      assert !(least <= paths[0]);
      LessBeforeTails(least, paths[0], ":" + Itoa(lines[i]), ":" + Itoa(lines[0]));
      PlaceParts(least, lines[i]);
      PlaceParts(paths[0], lines[0]);
    }
  }

  lemma PlaceParts(path: string, line: nat)
    ensures Place(path, line) == path + (":" + Itoa(line))
  {
  }

  lemma MeasuredHasPlaces(f: Finding)
    requires Measured(f) && f.kind == KIND_DUPLICATION
    ensures f.places != []
  {
    hide TrimSpace, LastIndex;
  }

  lemma LeastOfSorted(s: seq<string>, x: string)
    requires Sorted(s) && x in s
    ensures Leq(s[0], x)
  {
    LeqReflexive(x);
  }

  lemma LeqNotEqual(a: string, b: string)
    requires Leq(a, b) && a != b
    ensures Less(a, b)
  {
    if !Less(a, b) { LeqAntisymmetric(a, b); }
  }

  /** Where it fails: a copy in a file and in a directory whose name extends the file's by a
      character below the colon. The finding is owned by the longer directory, and the document
      printed from it names an owner the gate does not derive. */
  lemma NestedPathsDisagree(f: Finding, path: string, rest: string, line: nat, other: nat)
    requires Measured(f) && f.kind == KIND_DUPLICATION
    requires '/' in path && path[0] != '/' && rest != "" && rest[0] < ':' && '/' in rest
    requires f.places == [Place(path + rest, other), Place(path, line)]
    ensures Sorted(f.places) && !OwnersAgree(f)
  {
    hide Place, Finding.Paths, LastIndex, OwnerOf, Measured, Less, FirstIndex;
    NestedIsSorted(path, rest, line, other);
    NestedPaths(f, path, rest, line, other);
    var longer := path + rest;
    assert longer[0] == path[0];
    assert '/' in longer by { var i := FirstIndex(path, '/'); assert longer[i] == '/'; }
    OwnerOfPlace(longer, other);
    OwnerOfPlace(path, line);
    OwnersDiffer(path, rest);
  }

  /** The longer path comes first: what follows the shorter one in its place is the colon. */
  lemma NestedIsSorted(path: string, rest: string, line: nat, other: nat)
    requires rest != "" && rest[0] < ':'
    ensures Leq(Place(path + rest, other), Place(path, line))
  {
    hide Place;
    PlaceParts(path + rest, other);
    PlaceParts(path, line);
    var x, y := rest + (":" + Itoa(other)), ":" + Itoa(line);
    assert path + rest + (":" + Itoa(other)) == path + x;
    assert x[0] == rest[0] && y[0] == ':';
    LessCommonPrefix(path, x, y);
    LeqIfLess(path + x, path + y);
  }

  /** Among the paths the shorter one is the least. */
  lemma NestedPaths(f: Finding, path: string, rest: string, line: nat, other: nat)
    requires path != "" && rest != "" && f.places == [Place(path + rest, other), Place(path, line)]
    ensures f.Paths() != [] && f.Paths()[0] == path
  {
    hide Place, Finding.Paths, Less;
    var longer := path + rest;
    PlaceRoundTrip(longer, other);
    PlaceRoundTrip(path, line);
    assert PathsOf(f.places) == [longer, path];
    PathsNotEmpty(f);
    assert path in PathsOf(f.places) && f.Paths()[0] in PathsOf(f.places);
    LeastOfSorted(f.Paths(), path);
    ShorterIsLess(path, rest);
  }

  lemma ShorterIsLess(path: string, rest: string)
    requires rest != ""
    ensures Less(path, path + rest) && !Leq(path + rest, path)
  {
    LessCommonPrefix(path, "", rest);
    assert path + "" == path;
  }

  lemma LeqIfLess(a: string, b: string)
    requires Less(a, b)
    ensures Leq(a, b)
  {
    LeqTotal(a, b);
  }

  lemma OwnersDiffer(path: string, rest: string)
    requires '/' in path && '/' in rest
    ensures LastIndex(path + rest, '/') > LastIndex(path, '/')
  {
    var i := FirstIndex(rest, '/');
    assert (path + rest)[|path| + i] == '/';
  }

  /** What the finder of copied blocks reports is a measured finding. */
  lemma CopiedBlockIsMeasured(digestOf: string -> string, lines: DuplicateBlocks.Corpus, run: DuplicateBlocks.Run)
    requires DuplicateBlocks.Fits(lines, run)
    requires digestOf(DuplicateBlocks.TextAt(lines, run.starts[0])) != ""
    requires TrimSpace(DuplicateBlocks.FindingOf(digestOf, lines, run).owner) != ""
    ensures Measured(DuplicateBlocks.FindingOf(digestOf, lines, run))
  {
    var places := DuplicateBlocks.PlacesOf(lines, run);
    SortSorts(places);
    assert "" !in places by {
      forall i | 0 <= i < |places| ensures places[i] != "" {}
    }
    assert "" in Sort(places) ==> "" in multiset(places);
    assert |Sort(places)| == |multiset(places)| == |places|;
    hide TrimSpace, Sort, OwnerOf, Place;
  }

  // ---- What is found, in the words of the document ---------------------------------------

  /** Each fault of a document, and when it is found. */
  lemma FaultsExactly(e: Entry)
    ensures Incomplete(e) in EntryFaults(e) <==>
            || (e.kind == "function" && (e.path == "" || e.func == "" || e.metric == ""))
            || (e.kind == "duplication" && (e.digest == "" || e.paths == []))
    ensures UnknownMeasure(e) in EntryFaults(e) <==> e.kind == "function" && MetricBudget(e.path, e.metric).None?
    ensures UnknownKind(e) in EntryFaults(e) <==> e.kind != "function" && e.kind != "duplication"
    ensures ValueBelowOne(e) in EntryFaults(e) <==> e.value <= 0
    ensures NoOwner(e) in EntryFaults(e) <==> TrimSpace(e.owner) == ""
    ensures forall fault :: fault in EntryFaults(e) ==>
              fault in {Incomplete(e), UnknownMeasure(e), UnknownKind(e), ValueBelowOne(e), NoOwner(e)}
  {
    hide TrimSpace, MetricBudget;
  }

  /** The one document version that is read. */
  lemma SchemaIsOne(schema: int, entries: seq<Entry>)
    ensures WrongSchema in DocumentFaults(schema, entries) <==> schema != 1
  {
    NoWrongSchema(entries);
    hide LineFaults;
  }

  lemma {:induction false} NoWrongSchema(entries: seq<Entry>)
    ensures WrongSchema !in LineFaults(entries)
  {
    hide EntryFaults, Entry.Key;
    if entries != [] {
      NoWrongSchema(entries[..|entries| - 1]);
      FaultsNameTheirLine(entries[|entries| - 1]);
    }
  }

  lemma FaultsNameTheirLine(e: Entry)
    ensures WrongSchema !in EntryFaults(e)
  {
    hide TrimSpace, MetricBudget;
  }

  lemma {:induction false} HolesFound(entries: seq<Entry>, v: Violation)
    ensures v in Holes(entries) <==> exists i :: 0 <= i < |entries| && v in EntryViolations(entries[i])
  {
    hide EntryViolations;
    if entries != [] {
      var init := entries[..|entries| - 1];
      HolesFound(init, v);
      assert forall i :: 0 <= i < |init| ==> init[i] == entries[i];
    }
  }

  lemma {:induction false} MovedFound(findings: seq<Finding>, entries: seq<Entry>, v: Violation)
    ensures v in Moved(findings, entries) <==>
            exists i :: 0 <= i < |findings| && v in FindingViolations(entries, findings[i])
  {
    hide FindingViolations;
    if findings != [] {
      var init := findings[..|findings| - 1];
      MovedFound(init, entries, v);
      assert forall i :: 0 <= i < |init| ==> init[i] == findings[i];
    }
  }

  lemma {:induction false} GoneFound(findings: seq<Finding>, entries: seq<Entry>, e: Entry)
    ensures Outlived(e) in Gone(findings, entries) <==> e in entries && e.Key() !in IdentitiesOf(findings)
    ensures forall v :: v in Gone(findings, entries) ==> v.Outlived?
  {
    hide Entry.Key, IdentitiesOf;
    if entries != [] {
      GoneFound(findings, entries[..|entries| - 1], e);
      assert entries == entries[..|entries| - 1] + [entries[|entries| - 1]];
    }
  }

  /** The last line of a key is what accepts its finding. */
  ghost predicate LastLine(entries: seq<Entry>, e: Entry, key: string) {
    exists i :: LastLineAt(entries, i, key) && entries[i] == e
  }

  ghost predicate LastLineAt(entries: seq<Entry>, i: int, key: string) {
    0 <= i < |entries| && entries[i].Key() == key && forall j :: i < j < |entries| ==> entries[j].Key() != key
  }

  lemma LastLineStep(entries: seq<Entry>, e: Entry, key: string)
    requires entries != []
    ensures var init, last := entries[..|entries| - 1], entries[|entries| - 1];
            LastLine(entries, e, key) <==> if last.Key() == key then e == last else LastLine(init, e, key)
  {
    hide Entry.Key;
    var init, last := entries[..|entries| - 1], entries[|entries| - 1];
    assert entries == init + [last];
    if last.Key() == key {
      assert LastLineAt(entries, |init|, key);
    } else {
      if i :| LastLineAt(init, i, key) && init[i] == e { assert LastLineAt(entries, i, key); }
      if i :| LastLineAt(entries, i, key) && entries[i] == e { assert LastLineAt(init, i, key); }
    }
  }

  lemma {:induction false} LastLineExactly(entries: seq<Entry>, key: string)
    ensures Accepted(entries, key).None? <==> forall i :: 0 <= i < |entries| ==> entries[i].Key() != key
    ensures forall e :: Accepted(entries, key) == Some(e) <==> LastLine(entries, e, key)
  {
    hide Entry.Key;
    if entries != [] {
      var init := entries[..|entries| - 1];
      LastLineExactly(init, key);
      assert forall i :: 0 <= i < |init| ==> init[i] == entries[i];
      hide LastLine;
      forall e ensures Accepted(entries, key) == Some(e) <==> LastLine(entries, e, key) {
        LastLineStep(entries, e, key);
      }
    }
  }

  /** Each violation, and when it is found: a line that accepts what is allowed, a line with another
      owner, a finding without a line, one that is more than its line accepts or less, and a line
      without a finding. */
  lemma ViolationsExactly(findings: seq<Finding>, entries: seq<Entry>, e: Entry, f: Finding, n: int)
    ensures Hole(e) in Judged(findings, entries) <==> e in entries && e.value <= e.Floor()
    ensures WrongOwner(e) in Judged(findings, entries) <==>
            e in entries && e.DerivedOwner() != "" && e.DerivedOwner() != e.owner
    ensures NotAccepted(f) in Judged(findings, entries) <==>
            f in findings && forall i :: 0 <= i < |entries| ==> entries[i].Key() != f.Identity()
    ensures Grew(f, n) in Judged(findings, entries) <==>
            f in findings && n < f.value && exists a :: LastLine(entries, a, f.Identity()) && a.value == n
    ensures Shrank(f, n) in Judged(findings, entries) <==>
            f in findings && f.value < n && exists a :: LastLine(entries, a, f.Identity()) && a.value == n
    ensures Outlived(e) in Judged(findings, entries) <==> e in entries && e.Key() !in IdentitiesOf(findings)
  {
    HolesFound(entries, Hole(e));
    HolesFound(entries, WrongOwner(e));
    HolesFound(entries, NotAccepted(f));
    HolesFound(entries, Grew(f, n));
    HolesFound(entries, Shrank(f, n));
    HolesFound(entries, Outlived(e));
    MovedFound(findings, entries, Hole(e));
    MovedFound(findings, entries, WrongOwner(e));
    MovedFound(findings, entries, NotAccepted(f));
    MovedFound(findings, entries, Grew(f, n));
    MovedFound(findings, entries, Shrank(f, n));
    MovedFound(findings, entries, Outlived(e));
    GoneFound(findings, entries, e);
    LastLineExactly(entries, f.Identity());
    OneFinding(entries, f);
    hide Holes, Moved, Gone, LastLine, Accepted, Entry.Key, Entry.Floor, Entry.DerivedOwner, Finding.Identity,
         IdentitiesOf;
  }

  lemma OneFinding(entries: seq<Entry>, f: Finding)
    ensures forall v :: v in FindingViolations(entries, f) ==>
              (v.NotAccepted? || v.Grew? || v.Shrank?) && v.finding == f
  {
    hide Accepted, Finding.Identity;
  }

  /** The budgets, measure by measure: of the product, of its tools, and of the tests of either. */
  lemma BudgetsAre(path: string)
    ensures ("internal/" <= path || "cmd/" <= path) && !HasSuffix(path, "_test.go") ==>
              Budgets(path) == [Some(20), Some(4), Some(6), Some(120), Some(60)]
    ensures "tools/" <= path && !HasSuffix(path, "_test.go") ==>
              Budgets(path) == [Some(25), Some(4), Some(6), Some(150), Some(60)]
    ensures HasSuffix(path, "_test.go") ==> Budgets(path) == [Some(40), Some(5), Some(8), Some(200), Some(120)]
  {
    if "tools/" <= path { assert path[0] == "tools/"[0]; }
    if "internal/" <= path { assert path[0] == "internal/"[0]; }
    if "cmd/" <= path { assert path[0] == "cmd/"[0]; }
  }

  ghost function Budgets(path: string): seq<Option<int>> {
    [MetricBudget(path, "cyclomatic"), MetricBudget(path, "nesting"), MetricBudget(path, "parameters"),
     MetricBudget(path, "lines"), MetricBudget(path, "statements")]
  }

  /** What a line has to exceed: the budget of its measure where its file lies, and for a copied
      block one line less than the shortest there is. */
  lemma FloorsAre(e: Entry)
    ensures e.kind == "duplication" ==> e.Floor() == 19
    ensures e.kind == "function" && MetricBudget(e.path, e.metric).Some? ==>
              Some(e.Floor()) == MetricBudget(e.path, e.metric)
    ensures e.kind == "function" && MetricBudget(e.path, e.metric).None? ==> e.Floor() == 0
  {
    hide MetricBudget;
  }

  /** A line of a function accepts a finding exactly when file, name and measure are the same, a line
      of a copied block when digest and files are, in whatever order it lists them. */
  lemma AcceptsExactly(e: Entry, f: Finding)
    requires HasPaths(f) && Without(HeldBy(f), NUL) && f.kind in {"function", "duplication"}
    requires Without([e.path, e.func, e.metric, e.digest] + e.paths, NUL)
    ensures e.kind != "duplication" ==>
              (e.Key() == f.Identity() <==>
               f.kind == "function" && e.path == f.path && e.func == f.func && e.metric == f.metric)
    ensures e.kind == "duplication" && e.paths != [] ==>
              (e.Key() == f.Identity() <==>
               f.kind == "duplication" && e.digest == f.digest && multiset(e.paths) == multiset(f.Paths()))
  {
    var all := [e.path, e.func, e.metric, e.digest] + e.paths;
    assert all[0] == e.path && all[1] == e.func && all[2] == e.metric && all[3] == e.digest;
    forall i | 0 <= i < |e.paths| ensures NUL !in e.paths[i] { assert all[i + 4] == e.paths[i]; }
    IdentityIsJoined(f);
    if e.kind != "duplication" {
      JoinFour("function", e.path, e.func, e.metric);
      var held := ["function", e.path, e.func, e.metric];
      assert Without(held, NUL);
      hide *;
      if Join(held, NUL) == Join(HeldBy(f), NUL) { JoinInjective(held, HeldBy(f), NUL); }
    } else if e.paths != [] {
      var held := BlockHeld(e);
      SameFiles(e.paths, f);
      hide *;
      if Join(held, NUL) == Join(HeldBy(f), NUL) { JoinInjective(held, HeldBy(f), NUL); }
      HeldAlike(held, e, f);
    }
  }

  /** What a line of a copied block is held by. */
  lemma BlockHeld(e: Entry) returns (held: seq<string>)
    requires e.kind == "duplication" && e.paths != [] && NUL !in e.digest && Without(e.paths, NUL)
    ensures held == ["duplication", e.digest] + Sort(e.paths) && Without(held, NUL)
    ensures e.Key() == Join(held, NUL)
  {
    var sorted := Sort(e.paths);
    SortSorts(e.paths);
    assert |sorted| == |multiset(sorted)| == |e.paths|;
    hide Sort, Sorted;
    JoinTwo("duplication", e.digest, sorted);
    held := ["duplication", e.digest] + sorted;
    forall i | 0 <= i < |held| ensures NUL !in held[i] {
      if i >= 2 { assert held[i] in multiset(sorted) && held[i] in e.paths; }
    }
  }

  lemma HeldAlike(held: seq<string>, e: Entry, f: Finding)
    requires held == ["duplication", e.digest] + Sort(e.paths) && f.kind in {"function", "duplication"}
    ensures held == HeldBy(f) <==> f.kind == "duplication" && e.digest == f.digest && Sort(e.paths) == f.Paths()
  {
    hide Sort;
    var paths := f.Paths();
    assert held[0] == "duplication" && held[1] == e.digest && held[2..] == Sort(e.paths);
    assert (["duplication", f.digest] + paths)[2..] == paths;
  }

  lemma SameFiles(paths: seq<string>, f: Finding)
    ensures Sort(paths) == f.Paths() <==> multiset(paths) == multiset(f.Paths())
  {
    SortSorts(paths);
    SortSorts(Distinct(PathsOf(f.places)));
    if multiset(paths) == multiset(f.Paths()) { SortedUnique(Sort(paths), f.Paths()); }
  }
}
