/** What a line of a workflow file is taken for: which lines are skipped, which are refused and for
    what, and where comments start. */
module WorkflowRefusals {
  import opened Text
  import opened Wrappers
  import opened Workflow

  // ---- Lines that say nothing ------------------------------------------------------------

  /** Nothing but white space, or white space and then a hash. */
  ghost predicate SaysNothing(line: string) {
    exists k :: SpaceUpTo(line, k) && (k == |line| || line[k] == '#')
  }

  ghost predicate SpaceUpTo(line: string, k: int) {
    0 <= k <= |line| && forall i :: 0 <= i < k ==> IsSpace(line[i])
  }

  /** The white space at both ends of a text, and what is between. */
  lemma {:induction false} Ends(s: string) returns (before: string, text: string, after: string)
    ensures s == before + text + after
    ensures (forall c :: c in before ==> IsSpace(c)) && (forall c :: c in after ==> IsSpace(c))
    ensures text != "" ==> !IsSpace(text[0]) && !IsSpace(text[|text| - 1])
    decreases |s|
  {
    hide IsSpace;
    before, text, after := "", s, "";
    if s != "" && IsSpace(s[0]) {
      before, text, after := Ends(s[1..]);
      before := [s[0]] + before;
    } else if s != "" && IsSpace(s[|s| - 1]) {
      before, text, after := Ends(s[..|s| - 1]);
      after := after + [s[|s| - 1]];
    }
  }

  lemma {:induction false} TrimmedOff(s: string) returns (after: string)
    ensures s == TrimRight(s) + after && forall c :: c in after ==> IsSpace(c)
    decreases |s|
  {
    after := "";
    if s != "" && IsBlank(s[|s| - 1]) {
      after := TrimmedOff(s[..|s| - 1]);
      after := after + [s[|s| - 1]];
    }
  }

  lemma SaysNothingExactly(line: string)
    ensures var content := TrimSpace(TrimRight(line)); SaysNothing(line) <==> content == "" || content[0] == '#'
  {
    var blanks := TrimmedOff(line);
    var before, text, after := Ends(TrimRight(line));
    TrimSpaceExactly(before, text, after);
    hide IsSpace, TrimSpace, TrimRight;
    assert line == before + text + (after + blanks);
    assert forall i :: 0 <= i < |before| ==> line[i] in before;
    if text == "" {
      assert forall i :: 0 <= i < |line| ==> line[i] in before || line[i] in after + blanks;
      assert SpaceUpTo(line, |line|);
    } else {
      assert line[|before|] == text[0];
      assert SpaceUpTo(line, |before|);
      FirstSaid(line, |before|);
    }
  }

  /** The first character that is not white space decides. */
  lemma FirstSaid(line: string, k: nat)
    requires k < |line| && SpaceUpTo(line, k) && !IsSpace(line[k])
    ensures SaysNothing(line) <==> line[k] == '#'
  {
    assert !IsSpace('#');
    hide IsSpace;
    assert forall j :: SpaceUpTo(line, j) ==> j <= k;
    assert forall j :: 0 <= j < k ==> IsSpace(line[j]);
  }

  lemma SomethingSaid(line: string)
    requires !SaysNothing(line)
    ensures var raw := TrimRight(line); raw != "" && raw[0] == line[0] && LeadingSpaces(raw) == LeadingSpaces(line)
  {
    var raw := TrimRight(line);
    if raw == "" {
      var blanks := TrimmedOff(line);
      assert line == blanks && SpaceUpTo(line, |line|);
    } else {
      var k := LeadingSpaces(raw);
      assert k < |raw|;
      LeadingExactly(line, k);
    }
  }

  lemma {:induction false} LeadingExactly(s: string, k: nat)
    requires k < |s| && s[k] != ' ' && forall i :: 0 <= i < k ==> s[i] == ' '
    ensures LeadingSpaces(s) == k
  {
    if k > 0 { LeadingExactly(s[1..], k - 1); }
  }

  // ---- Lines that are refused ------------------------------------------------------------

  /** The level a line is read at has a value already. */
  ghost predicate BelowScalar(stack: Stack, line: string) { Top(Pop(stack, LeadingSpaces(line))).scalar }

  /** What a line says, without the white space around it. */
  ghost function Said(line: string): string { TrimRight(line)[Min(LeadingSpaces(line), |TrimRight(line)|)..] }

  ghost function Min(a: nat, b: nat): nat { if a < b then a else b }

  /** A line is skipped when it says nothing; it is refused for a tab in front, else for being below
      a value, else for being neither an item nor a key. */
  lemma RefusedExactly(lines: seq<string>, n: nat, stack: Stack)
    requires lines != []
    ensures var o, line := Step(lines, n, stack), lines[0];
            && (o.Skip? <==> SaysNothing(line))
            && (o == Refuse(TabIndents(n)) <==> !SaysNothing(line) && line[0] == '\t')
            && (o == Refuse(NestedUnderScalar(n)) <==>
                !SaysNothing(line) && line[0] != '\t' && BelowScalar(stack, line))
            && (o == Refuse(OpensNoMapping(n)) <==>
                && !SaysNothing(line) && line[0] != '\t' && !BelowScalar(stack, line)
                && !IsItem(Said(line)) && SplitMapping(Said(line)).key == "")
            && (o.Refuse? ==> o.reason in {TabIndents(n), NestedUnderScalar(n), OpensNoMapping(n)})
  {
    var line := lines[0];
    SaysNothingExactly(line);
    if !SaysNothing(line) { SomethingSaid(line); }
    hide SaysNothing, Pop, TrimSpace, TrimRight, LeadingSpaces, StepItem, StepKey, IsItem;
    if !SaysNothing(line) && line[0] != '\t' && !BelowScalar(stack, line) {
      var indent := LeadingSpaces(line);
      var open := Pop(stack, indent);
      assert Said(line) == TrimRight(line)[indent..];
      if !IsItem(Said(line)) { KeyRefused(lines, n, open, indent, Said(line)); }
    }
  }

  lemma KeyRefused(lines: seq<string>, n: nat, stack: Stack, indent: nat, body: string)
    requires lines != [] && Top(stack).indent < indent
    ensures SplitMapping(body).key == "" ==> StepKey(lines, n, stack, indent, body) == Refuse(OpensNoMapping(n))
    ensures StepKey(lines, n, stack, indent, body).Refuse? <==> SplitMapping(body).key == ""
  {
    hide SplitMapping, ReadBlock, Fold, Push;
  }

  /** Without a comment a line is a key exactly when it opens a mapping. */
  lemma KeyExactly(body: string)
    requires CommentIndex(body).None?
    ensures SplitMapping(body).key != "" <==> OpensMapping(body)
    ensures OpensMapping(body) ==>
              var key := SplitMapping(body).key;
              && key + ":" <= body && (forall i :: 0 <= i < |key| ==> InKey(key[i]))
              && SplitMapping(body).value == Unquote(TrimSpace(body[|key| + 1..]))
    ensures !OpensMapping(body) ==> SplitMapping(body).value == Unquote(body)
    ensures SplitMapping(body).comment == ""
  {
    hide CommentIndex, Unquote, TrimSpace;
  }

  // ---- Where comments start --------------------------------------------------------------

  /** A hash in matching quotes starts no comment: the search goes on behind them. */
  lemma {:induction false} QuotesHideComments(quote: char, inner: string, rest: string, afterBlank: bool)
    requires quote in {'"', '\''} && quote !in inner
    ensures CommentFrom([quote] + inner + [quote] + rest, false, false, afterBlank) ==
            Later(CommentFrom(rest, false, false, false), |inner| + 2)
  {
    var s := [quote] + inner + [quote] + rest;
    assert s[0] == quote && s[1..] == inner + ([quote] + rest);
    var single, double := quote == '\'', quote == '"';
    InQuotes(quote, inner, rest, false);
    var found := CommentFrom(rest, false, false, false);
    LaterTwice(found, |inner| + 1, 1);
    hide CommentFrom;
  }

  lemma {:induction false} InQuotes(quote: char, inner: string, rest: string, afterBlank: bool)
    requires quote in {'"', '\''} && quote !in inner
    ensures CommentFrom(inner + ([quote] + rest), quote == '\'', quote == '"', afterBlank) ==
            Later(CommentFrom(rest, false, false, false), |inner| + 1)
    decreases |inner|
  {
    var s := inner + ([quote] + rest);
    var found := CommentFrom(rest, false, false, false);
    if inner == "" {
      assert s[0] == quote && s[1..] == rest;
    } else {
      assert s[0] == inner[0] && s[1..] == inner[1..] + ([quote] + rest);
      assert inner[0] in inner;
      InQuotes(quote, inner[1..], rest, IsBlank(inner[0]));
      LaterTwice(found, |inner|, 1);
      hide CommentFrom;
    }
  }

  lemma OneOn(s: string, afterBlank: bool)
    requires s != "" && s[0] != '"' && s[0] != '\'' && !(s[0] == '#' && afterBlank)
    ensures CommentFrom(s, false, false, afterBlank) == Later(CommentFrom(s[1..], false, false, IsBlank(s[0])), 1)
  {
  }

  /** Outside quotes a hash starts a comment exactly behind a space or a tab, or in front. */
  lemma {:induction false} CommentsStart(text: string, rest: string, afterBlank: bool)
    requires (forall c :: c in text ==> c != '"' && c != '\'') && rest != "" && rest[0] == '#'
    requires text != "" && text[0] == '#' ==> !afterBlank
    requires forall i :: 0 < i < |text| && text[i] == '#' ==> text[i - 1] != ' ' && text[i - 1] != '\t'
    ensures (if text == "" then afterBlank else text[|text| - 1] == ' ' || text[|text| - 1] == '\t') ==>
              CommentFrom(text + rest, false, false, afterBlank) == Some(|text|)
    ensures CommentFrom(text, false, false, afterBlank).None?
    decreases |text|
  {
    if text == "" {
      assert text + rest == rest;
    } else {
      var s := text + rest;
      assert s[0] == text[0] && s[1..] == text[1..] + rest && text[0] in text;
      assert forall i :: 0 <= i < |text| - 1 ==> text[1..][i] == text[i + 1] && text[i + 1] in text;
      CommentsStart(text[1..], rest, IsBlank(text[0]));
      assert |text| > 1 ==> text[1..][|text| - 2] == text[|text| - 1];
      assert !InSingle(text[0], false, false) && !InDouble(text[0], false, false);
      assert !(text[0] == '#' && afterBlank);
      OneOn(s, afterBlank);
      OneOn(text, afterBlank);
      hide CommentFrom;
    }
  }
}
