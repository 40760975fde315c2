/** The reader of Caddyfiles: a lexer that keeps line numbers, and a parser of nested statements
    over its tokens. */
module Caddyfile {
  import opened Text
  import opened Wrappers

  datatype Token = Token(text: string, line: nat)

  datatype Block = NoBlock | Block(statements: seq<Statement>)

  /** The tokens of one line, and the block it opens, if it opens one. */
  datatype Statement = Statement(args: seq<string>, line: nat, block: Block)

  datatype Refusal = NeverClosed | AfterLastBlock

  // ---- The lexer -------------------------------------------------------------------------

  predicate IsSeparator(c: char) { c == ' ' || c == '\t' || c == '\r' || c == '\n' }

  /** What is left when the line ends. */
  function DropLine(s: string): (r: string)
    ensures |r| <= |s|
  {
    if s == "" || s[0] == '\n' then s else DropLine(s[1..])
  }

  /** A brace delimits a block only when it stands alone. */
  predicate StandsAlone(s: string)
    requires s != ""
  {
    (s[0] == '{' || s[0] == '}') && (|s| == 1 || IsSeparator(s[1]))
  }

  /** Where the quoted value ends, if it does: a backslash escapes inside double quotes only. */
  function QuotedEnd(s: string, quote: char, escaped: bool): (r: Option<nat>)
    ensures r.Some? ==> r.value < |s| && s[r.value] == quote
  {
    if s == "" then None
    else if !escaped && s[0] == quote then Some(0)
    else
      match QuotedEnd(s[1..], quote, !escaped && s[0] == '\\' && quote == '"')
      case Some(n) => Some(n + 1)
      case None => None
  }

  function Newlines(s: string): nat { if s == "" then 0 else (if s[0] == '\n' then 1 else 0) + Newlines(s[1..]) }

  /** Backslashes are dropped and what follows one is kept. */
  function Unescape(s: string, escaped: bool): string {
    if s == "" then ""
    else if escaped then [s[0]] + Unescape(s[1..], false)
    else if s[0] == '\\' then Unescape(s[1..], true)
    else [s[0]] + Unescape(s[1..], false)
  }

  function WordLength(s: string): (n: nat)
    ensures n <= |s| && (forall i :: 0 <= i < n ==> !IsSeparator(s[i])) && (n < |s| ==> IsSeparator(s[n]))
  {
    if s == "" || IsSeparator(s[0]) then 0 else 1 + WordLength(s[1..])
  }

  /** The tokens of `s`, which starts on `line`; `atStart` says that a token may start here. */
  function Lex(s: string, atStart: bool, line: nat): Result<seq<Token>, Refusal>
    decreases |s|
  {
    if s == "" then Ok([])
    else if s[0] == '\n' then Lex(s[1..], true, line + 1)
    else if IsSeparator(s[0]) then Lex(s[1..], true, line)
    else if s[0] == '#' && atStart then Lex(DropLine(s[1..]), true, line)
    else if StandsAlone(s) then
      var rest :- Lex(s[1..], false, line);
      Ok([Token([s[0]], line)] + rest)
    else if s[0] == '"' || s[0] == '`' then
      match QuotedEnd(s[1..], s[0], false)
      case None => Err(NeverClosed)
      case Some(n) =>
        var value := s[1..n + 1];
        var ends := line + Newlines(value);
        var rest :- Lex(s[n + 2..], false, ends);
        Ok([Token(Unescape(value, false), ends)] + rest)
    else
      var n := WordLength(s);
      var rest :- Lex(s[n..], false, line);
      Ok([Token(s[..n], line)] + rest)
  }

  // ---- The parser ------------------------------------------------------------------------

  predicate IsBrace(text: string) { text == "{" || text == "}" }

  /** How many tokens from the front are arguments of a statement on `line`. */
  function ArgCount(tokens: seq<Token>, line: nat): (n: nat)
    ensures n <= |tokens| && forall i :: 0 <= i < n ==> !IsBrace(tokens[i].text)
  {
    if tokens == [] || IsBrace(tokens[0].text) || tokens[0].line != line then 0 else 1 + ArgCount(tokens[1..], line)
  }

  function TextsOf(tokens: seq<Token>): (r: seq<string>)
    ensures |r| == |tokens| && forall i :: 0 <= i < |r| ==> r[i] == tokens[i].text
  {
    seq(|tokens|, i requires 0 <= i < |tokens| => tokens[i].text)
  }

  datatype Parsed = Parsed(statements: seq<Statement>, rest: seq<Token>)

  /** Statements up to the end or to a closing brace, which is consumed. */
  function ParseStatements(tokens: seq<Token>): (r: Parsed)
    ensures |r.rest| <= |tokens|
    decreases |tokens|
  {
    if tokens == [] then Parsed([], [])
    else if tokens[0].text == "}" then Parsed([], tokens[1..])
    else
      var line := tokens[0].line;
      var n := ArgCount(tokens, line);
      var opens := n < |tokens| && tokens[n].text == "{";
      var inner := if opens then ParseStatements(tokens[n + 1..]) else Parsed([], tokens[n..]);
      var statement := Statement(TextsOf(tokens[..n]), line, if opens then Block(inner.statements) else NoBlock);
      var more := ParseStatements(inner.rest);
      Parsed([statement] + more.statements, more.rest)
  }

  function Parse(source: string): Result<seq<Statement>, Refusal> {
    var tokens :- Lex(source, true, 1);
    var parsed := ParseStatements(tokens);
    if parsed.rest != [] then Err(AfterLastBlock) else Ok(parsed.statements)
  }

  // ---- Nothing is lost -------------------------------------------------------------------

  /** Every argument, in the order it is written. */
  function Arguments(statements: seq<Statement>): seq<string>
    decreases statements
  {
    if statements == [] then [] else
      statements[0].args +
      (if statements[0].block.Block? then Arguments(statements[0].block.statements) else []) +
      Arguments(statements[1..])
  }

  function NotBraces(tokens: seq<Token>): seq<string> {
    if tokens == [] then [] else (if IsBrace(tokens[0].text) then [] else [tokens[0].text]) + NotBraces(tokens[1..])
  }

  lemma {:induction false} NotBracesAppend(a: seq<Token>, b: seq<Token>)
    ensures NotBraces(a + b) == NotBraces(a) + NotBraces(b)
  {
    if a == [] {
      assert a + b == b;
    } else {
      assert (a + b)[1..] == a[1..] + b;
      NotBracesAppend(a[1..], b);
    }
  }

  lemma {:induction false} ArgumentsAreNotBraces(tokens: seq<Token>)
    requires forall i :: 0 <= i < |tokens| ==> !IsBrace(tokens[i].text)
    ensures NotBraces(tokens) == TextsOf(tokens)
  {
    if tokens != [] {
      ArgumentsAreNotBraces(tokens[1..]);
      assert TextsOf(tokens) == [tokens[0].text] + TextsOf(tokens[1..]);
    }
  }

  lemma BraceIsSkipped(tokens: seq<Token>)
    requires tokens != [] && IsBrace(tokens[0].text)
    ensures NotBraces(tokens) == NotBraces(tokens[1..])
  {
  }

  lemma NoArguments(texts: seq<string>)
    ensures Arguments([]) + texts == texts
  {
  }

  lemma ArgumentsOfFirst(first: Statement, rest: seq<Statement>)
    ensures Arguments([first] + rest) ==
            first.args + (if first.block.Block? then Arguments(first.block.statements) else []) + Arguments(rest)
  {
    assert ([first] + rest)[1..] == rest;
  }

  lemma ParseStops(tokens: seq<Token>)
    requires tokens == [] || tokens[0].text == "}"
    ensures ParseStatements(tokens) == Parsed([], if tokens == [] then [] else tokens[1..])
  {
  }

  /** One statement of a parse: how many arguments it has, whether it opens a block, and the
      parse of what is inside. */
  lemma ParseUnfolds(tokens: seq<Token>) returns (n: nat, opens: bool, inner: Parsed)
    requires tokens != [] && tokens[0].text != "}"
    ensures n == ArgCount(tokens, tokens[0].line) && opens == (n < |tokens| && tokens[n].text == "{")
    ensures inner == if opens then ParseStatements(tokens[n + 1..]) else Parsed([], tokens[n..])
    ensures n == 0 ==> tokens[0].text == "{"
    ensures |inner.rest| < |tokens|
    ensures var more := ParseStatements(inner.rest);
            ParseStatements(tokens) ==
            Parsed([Statement(TextsOf(tokens[..n]), tokens[0].line,
                              if opens then Block(inner.statements) else NoBlock)] + more.statements, more.rest)
  {
    n := ArgCount(tokens, tokens[0].line);
    opens := n < |tokens| && tokens[n].text == "{";
    inner := if opens then ParseStatements(tokens[n + 1..]) else Parsed([], tokens[n..]);
  }

  lemma Regroup(a: seq<string>, b: seq<string>, c: seq<string>, d: seq<string>)
    ensures (a + b + c) + d == a + (b + (c + d))
  {
  }

  lemma NotBracesAfter(tokens: seq<Token>, n: nat)
    requires n <= |tokens| && forall i :: 0 <= i < n ==> !IsBrace(tokens[i].text)
    ensures NotBraces(tokens) == TextsOf(tokens[..n]) + NotBraces(tokens[n..])
  {
    assert tokens == tokens[..n] + tokens[n..];
    NotBracesAppend(tokens[..n], tokens[n..]);
    ArgumentsAreNotBraces(tokens[..n]);
  }

  /** What a statement's block contributes: nothing, or the arguments inside the brace. */
  lemma {:induction false} BlockKeepsArguments(tokens: seq<Token>, n: nat, opens: bool, inner: Parsed)
    returns (block: seq<string>)
    requires n <= |tokens| && opens == (n < |tokens| && tokens[n].text == "{")
    requires inner == if opens then ParseStatements(tokens[n + 1..]) else Parsed([], tokens[n..])
    ensures block == if opens then Arguments(inner.statements) else []
    ensures block + NotBraces(inner.rest) == NotBraces(tokens[n..])
    decreases |tokens|, 0
  {
    hide ParseStatements, NotBraces, Arguments;
    block := [];
    if opens {
      block := Arguments(inner.statements);
      ParseKeepsArguments(tokens[n + 1..]);
      BraceIsSkipped(tokens[n..]);
      assert tokens[n..][1..] == tokens[n + 1..];
    }
  }

  lemma {:induction false} ParseKeepsArguments(tokens: seq<Token>)
    ensures var r := ParseStatements(tokens);
            Arguments(r.statements) + NotBraces(r.rest) == NotBraces(tokens)
    decreases |tokens|, 1
  {
    hide ParseStatements, NotBraces, Arguments, ArgCount;
    if tokens == [] || tokens[0].text == "}" {
      ParseStops(tokens);
      if tokens != [] { BraceIsSkipped(tokens); }
      NoArguments(NotBraces(ParseStatements(tokens).rest));
    } else {
      var n, opens, inner := ParseUnfolds(tokens);
      var more := ParseStatements(inner.rest);
      var block := BlockKeepsArguments(tokens, n, opens, inner);
      NotBracesAfter(tokens, n);
      ParseKeepsArguments(inner.rest);
      var args := TextsOf(tokens[..n]);
      Regroup(args, block, Arguments(more.statements), NotBraces(more.rest));
      ArgumentsOfFirst(Statement(args, tokens[0].line, if opens then Block(inner.statements) else NoBlock),
                       more.statements);
    }
  }

  /** The arguments of an accepted file, in preorder, are exactly its tokens that are not braces. */
  lemma AcceptedKeepsEveryToken(source: string)
    requires Parse(source).Ok?
    ensures Arguments(Parse(source).value) == NotBraces(Lex(source, true, 1).value)
  {
    ParseKeepsArguments(Lex(source, true, 1).value);
  }

  // ---- Which braces are accepted ---------------------------------------------------------

  /** A brace opens a block or closes one. */
  function Weight(token: Token): int { if token.text == "{" then 1 else if token.text == "}" then -1 else 0 }

  /** How many more blocks the tokens open than they close. */
  function Balance(tokens: seq<Token>): int {
    if tokens == [] then 0 else Weight(tokens[0]) + Balance(tokens[1..])
  }

  /** The first closing brace that closes nothing, when `depth` blocks are open. */
  ghost function Unmatched(tokens: seq<Token>, depth: nat): (r: Option<nat>)
    ensures r.Some? ==> r.value < |tokens|
  {
    if tokens == [] then None
    else if depth + Weight(tokens[0]) < 0 then Some(0)
    else Later(Unmatched(tokens[1..], depth + Weight(tokens[0])), 1)
  }

  lemma BalanceFirst(tokens: seq<Token>, k: nat)
    requires 0 < k <= |tokens|
    ensures Balance(tokens[..k]) == Weight(tokens[0]) + Balance(tokens[1..][..k - 1])
  {
    assert tokens[..k][1..] == tokens[1..][..k - 1];
  }

  lemma {:induction false} UnmatchedIsFirstBelow(tokens: seq<Token>, depth: nat)
    ensures var r := Unmatched(tokens, depth);
            && (r.None? ==> forall k :: 0 <= k <= |tokens| ==> depth + Balance(tokens[..k]) >= 0)
            && (r.Some? ==> depth + Balance(tokens[..r.value + 1]) < 0)
            && (r.Some? ==> forall k :: 0 <= k <= r.value ==> depth + Balance(tokens[..k]) >= 0)
  {
    hide Weight;
    forall k | 0 < k <= |tokens| ensures Balance(tokens[..k]) == Weight(tokens[0]) + Balance(tokens[1..][..k - 1]) {
      BalanceFirst(tokens, k);
    }
    if tokens != [] {
      if depth + Weight(tokens[0]) >= 0 {
        UnmatchedIsFirstBelow(tokens[1..], depth + Weight(tokens[0]));
      } else {
        assert tokens[1..][..0] == [];
      }
    }
  }

  /** One more open block lasts up to the brace that closes it. */
  lemma {:induction false} UnmatchedDeeper(tokens: seq<Token>, depth: nat)
    ensures var closes := Unmatched(tokens, depth);
            Unmatched(tokens, depth + 1) ==
            if closes.None? then None else Later(Unmatched(tokens[closes.value + 1..], 0), closes.value + 1)
  {
    hide *;
    if tokens == [] {
      NoTokens(depth);
      NoTokens(depth + 1);
    } else {
      var after := depth + Weight(tokens[0]);
      UnmatchedStep(tokens, depth);
      UnmatchedStep(tokens, depth + 1);
      if after >= 0 {
        UnmatchedDeeper(tokens[1..], after);
        var closes := Unmatched(tokens[1..], after);
        if closes.Some? {
          assert tokens[1..][closes.value + 1..] == tokens[closes.value + 2..];
          LaterTwice(Unmatched(tokens[closes.value + 2..], 0), closes.value + 1, 1);
        }
      }
    }
  }

  lemma UnmatchedStep(tokens: seq<Token>, depth: nat)
    requires tokens != []
    ensures var after := depth + Weight(tokens[0]);
            after >= -1 &&
            Unmatched(tokens, depth) == if after < 0 then Some(0) else Later(Unmatched(tokens[1..], after), 1)
    ensures forall r: Option<nat>, n: nat :: Later(r, n) == if r.None? then None else Some(r.value + n)
  {
  }

  lemma {:induction false} UnmatchedSkips(tokens: seq<Token>, n: nat)
    requires n <= |tokens| && forall i :: 0 <= i < n ==> !IsBrace(tokens[i].text)
    ensures Unmatched(tokens, 0) == Later(Unmatched(tokens[n..], 0), n)
  {
    if n > 0 {
      UnmatchedSkips(tokens[1..], n - 1);
      assert tokens[1..][n - 1..] == tokens[n..];
      LaterTwice(Unmatched(tokens[n..], 0), n - 1, 1);
    } else {
      assert tokens[0..] == tokens;
    }
  }

  /** What is left behind the brace at `at`, if there is one. */
  ghost function Behind(tokens: seq<Token>, at: Option<nat>): seq<Token>
    requires at.Some? ==> at.value < |tokens|
  {
    if at.None? then [] else tokens[at.value + 1..]
  }

  lemma BehindLater(tokens: seq<Token>, n: nat, at: Option<nat>)
    requires n <= |tokens| && (at.Some? ==> at.value < |tokens[n..]|)
    ensures Behind(tokens, Later(at, n)) == Behind(tokens[n..], at)
  {
  }

  /** A parse stops behind the first closing brace that closes nothing. */
  lemma {:induction false} ParseStopsUnmatched(tokens: seq<Token>)
    ensures ParseStatements(tokens).rest == Behind(tokens, Unmatched(tokens, 0))
    decreases |tokens|
  {
    if tokens == [] || tokens[0].text == "}" {
      ParseStops(tokens);
    } else {
      var n, opens, inner := ParseUnfolds(tokens);
      hide *;
      UnmatchedSkips(tokens, n);
      BehindLater(tokens, n, Unmatched(tokens[n..], 0));
      ParseStopsUnmatched(inner.rest);
      if opens {
        assert tokens[n..][0] == tokens[n] && tokens[n..][1..] == tokens[n + 1..];
        ParseStopsUnmatched(tokens[n + 1..]);
        BlockCloses(tokens[n..]);
      }
    }
  }

  /** A block is closed by the first brace inside that closes nothing there. */
  lemma BlockCloses(tokens: seq<Token>)
    requires tokens != [] && tokens[0].text == "{"
    ensures var block := tokens[1..];
            var rest := Behind(block, Unmatched(block, 0));
            Behind(tokens, Unmatched(tokens, 0)) == Behind(rest, Unmatched(rest, 0))
  {
    var block := tokens[1..];
    assert Unmatched(tokens, 0) == Later(Unmatched(block, 1), 1);
    UnmatchedDeeper(block, 0);
    BehindLater(tokens, 1, Unmatched(block, 1));
    var closes := Unmatched(block, 0);
    hide Unmatched;
    if closes.Some? { BehindLater(block, closes.value + 1, Unmatched(block[closes.value + 1..], 0)); }
    else { NoTokens(0); }
  }

  lemma NoTokens(depth: nat)
    ensures Unmatched([], depth).None?
  {
  }

  /** Accepted are exactly the token lists of which no proper beginning closes more blocks than
      it opens. */
  lemma AcceptedBraces(tokens: seq<Token>)
    ensures ParseStatements(tokens).rest == [] <==> forall k :: 0 <= k < |tokens| ==> Balance(tokens[..k]) >= 0
  {
    hide ParseStatements, Unmatched, Balance;
    ParseStopsUnmatched(tokens);
    UnmatchedIsFirstBelow(tokens, 0);
  }

  /** Every closing brace closes a block, and every block is closed. */
  ghost predicate Balanced(tokens: seq<Token>) {
    (forall k :: 0 <= k <= |tokens| ==> Balance(tokens[..k]) >= 0) && Balance(tokens) == 0
  }

  /** So an accepted file balances its braces, or ends inside a block, or is balanced up to one
      last closing brace that closes nothing: these three are accepted and nothing else. */
  lemma AcceptedIsBalancedExactly(source: string)
    requires Lex(source, true, 1).Ok?
    ensures var tokens := Lex(source, true, 1).value;
            && (Parse(source).Ok? <==> forall k :: 0 <= k < |tokens| ==> Balance(tokens[..k]) >= 0)
            && (Parse(source).Ok? ==> (Balanced(tokens) <==> Balance(tokens) == 0) && Balance(tokens) >= -1)
            && (Parse(source).Ok? && Balance(tokens) == -1 ==>
                  tokens != [] && tokens[|tokens| - 1].text == "}" && Balanced(tokens[..|tokens| - 1]))
  {
    hide ParseStatements, Lex;
    var tokens := Lex(source, true, 1).value;
    AcceptedBraces(tokens);
    assert tokens[..|tokens|] == tokens;
    if tokens != [] {
      var front, last := tokens[..|tokens| - 1], [tokens[|tokens| - 1]];
      BalanceConcat(front, last);
      assert front + last == tokens && last[1..] == [];
      assert forall k :: 0 <= k <= |front| ==> front[..k] == tokens[..k];
    }
  }

  /** The two shortest such files. */
  lemma UnbalancedIsAccepted()
    ensures Parse("}") == Ok([])
    ensures Parse("{") == Ok([Statement([], 1, Block([]))])
  {
    assert "}"[1..] == "" && "{"[1..] == "" && "}"[0] == '}' && "{"[0] == '{';
    assert StandsAlone("}") && StandsAlone("{");
    assert [Token("}", 1)] + [] == [Token("}", 1)] && [Token("{", 1)] + [] == [Token("{", 1)];
    assert ["}"[0]] == "}" && ["{"[0]] == "{";
    assert Lex("}", true, 1) == Ok([Token("}", 1)]);
    assert Lex("{", true, 1) == Ok([Token("{", 1)]);
    assert [Token("}", 1)][1..] == [] && [Token("{", 1)][1..] == [];
    assert ParseStatements([Token("{", 1)]) == Parsed([Statement([], 1, Block([]))], []);
  }

  lemma {:induction false} BalanceConcat(a: seq<Token>, b: seq<Token>)
    ensures Balance(a + b) == Balance(a) + Balance(b)
  {
    if a == [] {
      assert a + b == b;
    } else {
      assert (a + b)[1..] == a[1..] + b;
      BalanceConcat(a[1..], b);
    }
  }

  // ---- Which trees a parser can return ---------------------------------------------------

  /** No argument is a brace; every statement has an argument or a block; and a statement without
      arguments is first in its list or follows one with a block, since otherwise its block would
      be read as the block of the statement before it. `after` says what precedes the list. */
  predicate Parsable(statements: seq<Statement>, after: bool)
    decreases statements
  {
    statements == [] ||
    var s := statements[0];
    && (forall i :: 0 <= i < |s.args| ==> !IsBrace(s.args[i]))
    && (s.args == [] ==> s.block.Block? && after)
    && (s.block.Block? ==> Parsable(s.block.statements, true))
    && Parsable(statements[1..], s.block.Block?)
  }

  lemma ParsableFirst(first: Statement, more: seq<Statement>, after: bool)
    requires forall i :: 0 <= i < |first.args| ==> !IsBrace(first.args[i])
    requires first.args == [] ==> first.block.Block? && after
    requires first.block.Block? ==> Parsable(first.block.statements, true)
    requires Parsable(more, first.block.Block?)
    ensures Parsable([first] + more, after)
  {
    var all := [first] + more;
    assert all[0] == first && all[1..] == more;
  }

  lemma NothingIsParsable(after: bool)
    ensures Parsable([], after)
  {
  }

  /** Whatever is parsed is parsable, however the statements were laid out. */
  lemma {:induction false} ParsedIsParsable(tokens: seq<Token>, after: bool)
    requires tokens != [] && tokens[0].text == "{" ==> after
    ensures Parsable(ParseStatements(tokens).statements, after)
    decreases |tokens|
  {
    hide *;
    if tokens == [] || tokens[0].text == "}" {
      ParseStops(tokens);
      NothingIsParsable(after);
    } else {
      var n, opens, inner := ParseUnfolds(tokens);
      if opens { ParsedIsParsable(tokens[n + 1..], true); }
      ParsedIsParsable(inner.rest, opens);
      var more := ParseStatements(inner.rest).statements;
      var first := Statement(TextsOf(tokens[..n]), tokens[0].line, if opens then Block(inner.statements) else NoBlock);
      ParsableFirst(first, more, after);
    }
  }

  // ---- Printing --------------------------------------------------------------------------

  function EscapeAll(s: string): string {
    if s == "" then "" else (if s[0] == '"' || s[0] == '\\' then ['\\', s[0]] else [s[0]]) + EscapeAll(s[1..])
  }

  /** A word that needs no quotes: it holds no white space, opens no quotes and no comment, and is not
      a brace alone. It may begin with a brace, as a placeholder does. */
  predicate IsBare(word: string) {
    && word != "" && word[0] !in {'"', '`', '#'} && word != "{" && word != "}"
    && forall i :: 0 <= i < |word| ==> word[i] !in {' ', '\t', '\r', '\n'}
  }

  function PrintArg(arg: string): string { if IsBare(arg) then arg else ['"'] + EscapeAll(arg) + ['"'] }

  /** Arguments separated by spaces, in quotes where they need them. */
  function PrintArgs(args: seq<string>): string {
    if args == [] then "" else PrintArg(args[0]) + [' '] + PrintArgs(args[1..])
  }

  /** One statement a line, a block opened on its statement's line and closed on its own. */
  function Print(statements: seq<Statement>): string
    decreases statements
  {
    if statements == [] then "" else
      PrintArgs(statements[0].args) +
      (if statements[0].block.Block? then "{\n" + Print(statements[0].block.statements) + "}\n" else "\n") +
      Print(statements[1..])
  }

  function LineCount(statements: seq<Statement>): nat
    decreases statements
  {
    if statements == [] then 0 else
      (if statements[0].block.Block? then 2 + LineCount(statements[0].block.statements) else 1) +
      LineCount(statements[1..])
  }

  /** The same statements, each with the line it is printed on. */
  function Located(statements: seq<Statement>, line: nat): seq<Statement>
    decreases statements
  {
    if statements == [] then [] else
      var s := statements[0];
      var block := if s.block.Block? then Block(Located(s.block.statements, line + 1)) else NoBlock;
      var next := line + if s.block.Block? then 2 + LineCount(s.block.statements) else 1;
      [Statement(s.args, line, block)] + Located(statements[1..], next)
  }

  function ArgTokens(args: seq<string>, line: nat): (r: seq<Token>)
    ensures |r| == |args| && forall i :: 0 <= i < |r| ==> r[i] == Token(args[i], line)
  {
    seq(|args|, i requires 0 <= i < |args| => Token(args[i], line))
  }

  /** The tokens the printed statements consist of. */
  function Tokens(statements: seq<Statement>, line: nat): seq<Token>
    decreases statements
  {
    if statements == [] then [] else
      var s := statements[0];
      if s.block.Block? then
        var closes := line + 1 + LineCount(s.block.statements);
        ArgTokens(s.args, line) + [Token("{", line)] + Tokens(s.block.statements, line + 1) + [Token("}", closes)] +
        Tokens(statements[1..], closes + 1)
      else ArgTokens(s.args, line) + Tokens(statements[1..], line + 1)
  }

  ghost predicate OneLine(statements: seq<Statement>)
    decreases statements
  {
    statements != [] ==>
      && Without(statements[0].args, '\n')
      && (statements[0].block.Block? ==> OneLine(statements[0].block.statements))
      && OneLine(statements[1..])
  }

  lemma EscapeFirst(s: string)
    requires s != ""
    ensures EscapeAll(s) == (if s[0] == '"' || s[0] == '\\' then ['\\', s[0]] else [s[0]]) + EscapeAll(s[1..])
  {
  }

  lemma {:induction false} UnescapesBack(s: string)
    ensures Unescape(EscapeAll(s), false) == s
  {
    if s != "" {
      UnescapesBack(s[1..]);
      var text, tail := EscapeAll(s), EscapeAll(s[1..]);
      EscapeFirst(s);
      hide EscapeAll;
      if s[0] == '"' || s[0] == '\\' {
        assert text[0] == '\\' && text[1..][0] == s[0] && text[1..][1..] == tail;
      } else {
        assert text[0] == s[0] && text[1..] == tail;
      }
    }
  }

  lemma {:induction false} QuotedReadsBack(s: string, rest: string)
    ensures QuotedEnd(EscapeAll(s) + ['"'] + rest, '"', false) == Some(|EscapeAll(s)|)
    ensures Unescape(EscapeAll(s), false) == s
  {
    UnescapesBack(s);
    hide Unescape;
    var text := EscapeAll(s) + ['"'] + rest;
    if s == "" {
      assert text[0] == '"';
    } else {
      var tail := EscapeAll(s[1..]) + ['"'] + rest;
      QuotedReadsBack(s[1..], rest);
      EscapeFirst(s);
      hide EscapeAll;
      if s[0] == '"' || s[0] == '\\' {
        assert text[0] == '\\' && text[1..][0] == s[0] && text[1..][1..] == tail;
      } else {
        assert text[0] == s[0] && text[1..] == tail;
      }
    }
  }

  lemma {:induction false} EscapedNewlines(s: string)
    requires '\n' !in s
    ensures Newlines(EscapeAll(s)) == 0
  {
    if s != "" {
      EscapedNewlines(s[1..]);
      if s[0] == '"' || s[0] == '\\' {
        assert EscapeAll(s)[1..][1..] == EscapeAll(s[1..]);
      } else {
        assert EscapeAll(s)[1..] == EscapeAll(s[1..]);
      }
    }
  }

  /** What a lexer result is with more tokens in front. */
  lemma LexOneQuoted(s: string, n: nat, atStart: bool, line: nat)
    requires s != "" && s[0] == '"' && QuotedEnd(s[1..], '"', false) == Some(n) && Newlines(s[1..n + 1]) == 0
    ensures Lex(s, atStart, line) == Before([Token(Unescape(s[1..n + 1], false), line)], Lex(s[n + 2..], false, line))
  {
    hide QuotedEnd, Unescape, Newlines, WordLength, DropLine;
  }

  lemma LexQuoted(arg: string, rest: string, atStart: bool, line: nat)
    requires '\n' !in arg
    ensures Lex(['"'] + EscapeAll(arg) + ['"'] + rest, atStart, line) ==
            Before([Token(arg, line)], Lex(rest, false, line))
  {
    var escaped := EscapeAll(arg);
    var s := ['"'] + escaped + ['"'] + rest;
    QuotedReadsBack(arg, rest);
    EscapedNewlines(arg);
    hide EscapeAll, QuotedEnd, Unescape, Newlines, WordLength, DropLine, Lex;
    assert s[0] == '"' && s[1..] == escaped + ['"'] + rest;
    assert s[1..|escaped| + 1] == escaped && s[|escaped| + 2..] == rest;
    LexOneQuoted(s, |escaped|, atStart, line);
  }

  lemma {:induction false} WordEndsAt(word: string, rest: string)
    requires (forall i :: 0 <= i < |word| ==> !IsSeparator(word[i])) && (rest == "" || IsSeparator(rest[0]))
    ensures WordLength(word + rest) == |word|
  {
    hide IsSeparator;
    if word == "" {
      assert word + rest == rest;
    } else {
      assert (word + rest)[0] == word[0] && (word + rest)[1..] == word[1..] + rest;
      WordEndsAt(word[1..], rest);
    }
  }

  /** A word without quotes is one token, up to the white space after it. */
  lemma LexBare(word: string, rest: string, atStart: bool, line: nat)
    requires IsBare(word) && (rest == "" || rest[0] == ' ' || rest[0] == '\t' || rest[0] == '\r' || rest[0] == '\n')
    ensures Lex(word + rest, atStart, line) == Before([Token(word, line)], Lex(rest, false, line))
  {
    var s := word + rest;
    assert s[0] == word[0] && (|word| > 1 ==> s[1] == word[1]) && (|word| == 1 ==> s[0] != '{' && s[0] != '}') by {
      if |word| == 1 { assert word == [word[0]]; }
    }
    assert !StandsAlone(s) && !IsSeparator(s[0]);
    WordEndsAt(word, rest);
    assert s[..|word|] == word && s[|word|..] == rest;
    hide WordLength, StandsAlone, IsSeparator;
    LexWord(s, atStart, line);
  }

  /** Any white space inside a line only lets the next token start. */
  lemma {:induction false} LexGap(gap: string, rest: string, atStart: bool, line: nat)
    requires gap != "" && forall i :: 0 <= i < |gap| ==> gap[i] == ' ' || gap[i] == '\t' || gap[i] == '\r'
    ensures Lex(gap + rest, atStart, line) == Lex(rest, true, line)
  {
    var s := gap + rest;
    assert s[0] == gap[0] && s[1..] == gap[1..] + rest;
    LexSeparator(s, atStart, line);
    hide Lex;
    if |gap| > 1 { LexGap(gap[1..], rest, true, line); } else { assert gap[1..] + rest == rest; }
  }

  /** A word, and the white space after it. */
  datatype Spaced = Spaced(word: string, gap: string)

  ghost predicate SpacedValid(w: Spaced) {
    IsBare(w.word) && w.gap != "" && forall i :: 0 <= i < |w.gap| ==> w.gap[i] in {' ', '\t', '\r'}
  }

  ghost function SpacedText(words: seq<Spaced>): string {
    if words == [] then "" else words[0].word + (words[0].gap + SpacedText(words[1..]))
  }

  ghost function SpacedTokens(words: seq<Spaced>, line: nat): (r: seq<Token>)
    ensures |r| == |words| && forall i :: 0 <= i < |r| ==> r[i] == Token(words[i].word, line)
  {
    seq(|words|, i requires 0 <= i < |words| => Token(words[i].word, line))
  }

  /** A line of words without quotes gives exactly its words, whatever white space is between them. */
  lemma {:induction false} LexWords(words: seq<Spaced>, rest: string, line: nat)
    requires forall i :: 0 <= i < |words| ==> SpacedValid(words[i])
    ensures Lex(SpacedText(words) + rest, true, line) == Before(SpacedTokens(words, line), Lex(rest, true, line))
  {
    hide *;
    SpacedFirst(words, rest, line);
    if words == [] {
      BeforeNothing(Lex(rest, true, line));
    } else {
      var w, tail := words[0], SpacedText(words[1..]) + rest;
      SpacedIsBare(w);
      LexBare(w.word, w.gap + tail, true, line);
      LexGap(w.gap, tail, false, line);
      LexWords(words[1..], rest, line);
      BeforeTwice([Token(w.word, line)], SpacedTokens(words[1..], line), Lex(rest, true, line));
    }
  }

  lemma SpacedIsBare(w: Spaced)
    requires SpacedValid(w)
    ensures IsBare(w.word) && w.gap != ""
    ensures forall i :: 0 <= i < |w.gap| ==> w.gap[i] == ' ' || w.gap[i] == '\t' || w.gap[i] == '\r'
    ensures forall tail :: (w.gap + tail)[0] == w.gap[0]
  {
  }

  lemma SpacedFirst(words: seq<Spaced>, rest: string, line: nat)
    ensures words == [] ==> SpacedText(words) + rest == rest && SpacedTokens(words, line) == []
    ensures words != [] ==>
              && SpacedText(words) + rest == words[0].word + (words[0].gap + (SpacedText(words[1..]) + rest))
              && SpacedTokens(words, line) == [Token(words[0].word, line)] + SpacedTokens(words[1..], line)
  {
  }

  /** A comment starts where a token could, and ends with its line. */
  lemma LexCommentLine(text: string, rest: string, line: nat)
    requires '\n' !in text
    ensures Lex("#" + text + "\n" + rest, true, line) == Lex(rest, true, line + 1)
    ensures Lex("#" + text, true, line) == Ok([])
  {
    var s, t := "#" + text + "\n" + rest, "#" + text;
    assert s[1..] == text + ("\n" + rest) && (text + ("\n" + rest))[|text|] == '\n' && t[1..] == text;
    LexComment(s, line);
    LexComment(t, line);
    DropLineSkips(s[1..], |text|);
    DropLineSkips(text, |text|);
    assert s[1..][|text|..] == "\n" + rest && text[|text|..] == "";
    hide DropLine;
    LexNewline(rest, line);
    assert ['\n'] + rest == "\n" + rest;
    LexEmpty(true, line);
  }

  /** Back quotes hold any text without backslashes and back quotes as it stands, line ends and
      all. */
  lemma {:induction false} RawEnds(text: string, rest: string)
    requires '`' !in text
    ensures QuotedEnd(text + ['`'] + rest, '`', false) == Some(|text|)
  {
    var s := text + ['`'] + rest;
    if text == "" {
      assert s[0] == '`';
    } else {
      assert s[0] == text[0] && s[1..] == text[1..] + ['`'] + rest;
      RawEnds(text[1..], rest);
    }
  }

  lemma LexRaw(text: string, rest: string, atStart: bool, line: nat)
    requires '`' !in text && '\\' !in text
    ensures var ends := line + Newlines(text);
            Lex(['`'] + text + ['`'] + rest, atStart, line) == Before([Token(text, ends)], Lex(rest, false, ends))
  {
    var s := ['`'] + text + ['`'] + rest;
    assert s[0] == '`' && s[1..] == text + ['`'] + rest;
    assert s[1..|text| + 1] == text && s[|text| + 2..] == rest;
    hide QuotedEnd, Unescape, Newlines;
    RawEnds(text, rest);
    UnescapePlain(text);
    LexQuote(s, atStart, line);
  }

  lemma {:induction false} NoEnd(text: string, quote: char, escaped: bool)
    requires quote !in text
    ensures QuotedEnd(text, quote, escaped).None?
  {
    if text != "" {
      NoEnd(text[1..], quote, false);
      NoEnd(text[1..], quote, true);
    }
  }

  /** A value whose quote does not come again is refused, whatever it holds. */
  lemma LexUnclosed(quote: char, text: string, atStart: bool, line: nat)
    requires quote in {'"', '`'} && quote !in text
    ensures Lex([quote] + text, atStart, line) == Err(NeverClosed)
  {
    var s := [quote] + text;
    assert s[0] == quote && s[1..] == text;
    NoEnd(text, quote, false);
    hide QuotedEnd, Unescape, Newlines;
    LexQuote(s, atStart, line);
  }

  lemma LexArg(arg: string, rest: string, atStart: bool, line: nat)
    requires '\n' !in arg
    ensures Lex(PrintArg(arg) + ([' '] + rest), atStart, line) == Before([Token(arg, line)], Lex(rest, true, line))
  {
    var tail := [' '] + rest;
    assert tail[0] == ' ' && tail[1..] == rest;
    LexSeparator(tail, false, line);
    if IsBare(arg) {
      LexBare(arg, tail, atStart, line);
    } else {
      LexQuoted(arg, tail, atStart, line);
    }
  }

  lemma {:induction false} LexArgs(args: seq<string>, rest: string, line: nat)
    requires Without(args, '\n')
    ensures Lex(PrintArgs(args) + rest, true, line) == Before(ArgTokens(args, line), Lex(rest, true, line))
  {
    hide PrintArg, Lex;
    if args == [] {
      assert PrintArgs(args) + rest == rest;
      BeforeNothing(Lex(rest, true, line));
    } else {
      var tail := PrintArgs(args[1..]) + rest;
      assert PrintArgs(args) + rest == PrintArg(args[0]) + ([' '] + tail);
      LexArg(args[0], tail, true, line);
      LexArgs(args[1..], rest, line);
      assert ArgTokens(args, line) == [Token(args[0], line)] + ArgTokens(args[1..], line);
      BeforeTwice([Token(args[0], line)], ArgTokens(args[1..], line), Lex(rest, true, line));
    }
  }

  lemma BeforeFour(a: seq<Token>, b: seq<Token>, c: seq<Token>, d: seq<Token>, e: seq<Token>,
      more: Result<seq<Token>, Refusal>)
    ensures Before(a, Before(b, Before(c, Before(d, Before(e, more))))) == Before(a + b + c + d + e, more)
  {
    hide Before;
    BeforeTwice(a, b, Before(c, Before(d, Before(e, more))));
    BeforeTwice(a + b, c, Before(d, Before(e, more)));
    BeforeTwice(a + b + c, d, Before(e, more));
    BeforeTwice(a + b + c + d, e, more);
  }

  lemma LexBrace(brace: char, rest: string, line: nat)
    requires brace == '{' || brace == '}'
    ensures Lex([brace, '\n'] + rest, true, line) == Before([Token([brace], line)], Lex(rest, true, line + 1))
  {
    var s := [brace, '\n'] + rest;
    assert s[1..][1..] == rest && s[1..][0] == '\n';
  }

  /** Lexing printed statements gives their tokens, and then whatever follows. */
  lemma {:induction false} LexPrinted(statements: seq<Statement>, rest: string, line: nat)
    requires OneLine(statements)
    ensures Lex(Print(statements) + rest, true, line) ==
            Before(Tokens(statements, line), Lex(rest, true, line + LineCount(statements)))
    decreases statements
  {
    hide *;
    if statements == [] {
      PrintNothing(rest, line);
      BeforeNothing(Lex(rest, true, line));
    } else if statements[0].block.Block? {
      var s, inner := statements[0], statements[0].block.statements;
      var closes := line + 1 + LineCount(inner);
      var after := Print(statements[1..]) + rest;
      var body := Print(inner) + (['}', '\n'] + after);
      OneLineParts(statements);
      PrintBlock(statements, rest, line);
      LexArgs(s.args, ['{', '\n'] + body, line);
      LexBrace('{', body, line);
      LexPrinted(inner, ['}', '\n'] + after, line + 1);
      LexBrace('}', after, closes);
      LexPrinted(statements[1..], rest, closes + 1);
      BeforeFour(ArgTokens(s.args, line), [Token("{", line)], Tokens(inner, line + 1), [Token("}", closes)],
                 Tokens(statements[1..], closes + 1), Lex(rest, true, line + LineCount(statements)));
    } else {
      var s := statements[0];
      var after := Print(statements[1..]) + rest;
      OneLineParts(statements);
      PrintLine(statements, rest, line);
      LexArgs(s.args, ['\n'] + after, line);
      LexNewline(after, line);
      LexPrinted(statements[1..], rest, line + 1);
      BeforeTwice(ArgTokens(s.args, line), Tokens(statements[1..], line + 1),
                  Lex(rest, true, line + LineCount(statements)));
    }
  }

  lemma OneLineParts(statements: seq<Statement>)
    requires OneLine(statements) && statements != []
    ensures Without(statements[0].args, '\n') && OneLine(statements[1..])
    ensures statements[0].block.Block? ==> OneLine(statements[0].block.statements)
  {
    hide Without;
  }

  lemma PrintNothing(rest: string, line: nat)
    ensures Print([]) + rest == rest && Tokens([], line) == [] && LineCount([]) == 0
  {
  }

  lemma BlockShape(args: string, inner: string, more: string, rest: string)
    ensures args + ("{\n" + inner + "}\n") + more + rest ==
            args + (['{', '\n'] + (inner + (['}', '\n'] + (more + rest))))
  {
    var block := "{\n" + inner + "}\n";
    var after := more + rest;
    assert block + after == ['{', '\n'] + (inner + (['}', '\n'] + after));
    assert args + block + more + rest == args + (block + after);
  }

  lemma PrintBlockText(statements: seq<Statement>, rest: string)
    requires statements != [] && statements[0].block.Block?
    ensures var s, inner := statements[0], statements[0].block.statements;
            Print(statements) + rest ==
            PrintArgs(s.args) + (['{', '\n'] + (Print(inner) + (['}', '\n'] + (Print(statements[1..]) + rest))))
  {
    var args, inner, more := PrintArgs(statements[0].args), Print(statements[0].block.statements),
                             Print(statements[1..]);
    assert Print(statements) == args + ("{\n" + inner + "}\n") + more;
    hide *;
    BlockShape(args, inner, more, rest);
  }

  lemma PrintBlock(statements: seq<Statement>, rest: string, line: nat)
    requires statements != [] && statements[0].block.Block?
    ensures var s, inner := statements[0], statements[0].block.statements;
            var closes := line + 1 + LineCount(inner);
            && LineCount(statements) == 2 + LineCount(inner) + LineCount(statements[1..])
            && Print(statements) + rest ==
               PrintArgs(s.args) + (['{', '\n'] + (Print(inner) + (['}', '\n'] + (Print(statements[1..]) + rest))))
            && Tokens(statements, line) ==
               ArgTokens(s.args, line) + [Token("{", line)] + Tokens(inner, line + 1) + [Token("}", closes)]
               + Tokens(statements[1..], closes + 1)
  {
    hide PrintArgs, ArgTokens, Print;
    PrintBlockText(statements, rest);
  }

  lemma PrintLine(statements: seq<Statement>, rest: string, line: nat)
    requires statements != [] && statements[0].block.NoBlock?
    ensures LineCount(statements) == 1 + LineCount(statements[1..])
    ensures Print(statements) + rest == PrintArgs(statements[0].args) + (['\n'] + (Print(statements[1..]) + rest))
    ensures Tokens(statements, line) == ArgTokens(statements[0].args, line) + Tokens(statements[1..], line + 1)
  {
    hide PrintArgs, ArgTokens;
  }

  lemma LexNewline(rest: string, line: nat)
    ensures Lex(['\n'] + rest, true, line) == Lex(rest, true, line + 1)
  {
    assert (['\n'] + rest)[1..] == rest;
  }

  // ---- Print, lex, parse -----------------------------------------------------------------

  /** The tokens of a line after which the line or a brace comes are the arguments. */
  lemma {:induction false} CountsArgs(args: seq<string>, rest: seq<Token>, line: nat)
    requires forall i :: 0 <= i < |args| ==> !IsBrace(args[i])
    requires rest != [] ==> IsBrace(rest[0].text) || rest[0].line != line
    ensures ArgCount(ArgTokens(args, line) + rest, line) == |args|
  {
    var tokens := ArgTokens(args, line) + rest;
    if args == [] {
      assert tokens == rest;
    } else {
      assert tokens[1..] == ArgTokens(args[1..], line) + rest;
      CountsArgs(args[1..], rest, line);
    }
  }

  /** The first token of printed statements is the first argument, or the brace of a block. */
  lemma FirstToken(statements: seq<Statement>, line: nat)
    requires statements != [] && (statements[0].args != [] || statements[0].block.Block?)
    ensures var tokens := Tokens(statements, line);
            tokens != [] && tokens[0] == Token(if statements[0].args != [] then statements[0].args[0] else "{", line)
  {
    hide LineCount;
  }

  /** A statement's tokens parse to the statement, and then to whatever the rest parses to. */
  lemma {:induction false} ParseOne(s: Statement, line: nat, rest: seq<Token>)
    requires Parsable([s], true) && s.block.NoBlock?
    requires rest != [] ==> rest[0].text == "}" || (!IsBrace(rest[0].text) && rest[0].line != line)
    ensures var more := ParseStatements(rest);
            ParseStatements(ArgTokens(s.args, line) + rest) ==
            Parsed([Statement(s.args, line, NoBlock)] + more.statements, more.rest)
  {
    var tokens := ArgTokens(s.args, line) + rest;
    assert tokens[0] == Token(s.args[0], line);
    assert !IsBrace(s.args[0]);
    hide ParseStatements, ArgCount;
    CountsArgs(s.args, rest, line);
    var n, opens, inner := ParseUnfolds(tokens);
    assert tokens[..n] == ArgTokens(s.args, line) && tokens[n..] == rest;
    assert TextsOf(tokens[..n]) == s.args;
  }

  /** Where things are in a line that opens a block. */
  lemma OpensBlock(args: seq<string>, line: nat, body: seq<Token>)
    requires forall i :: 0 <= i < |args| ==> !IsBrace(args[i])
    ensures var tokens := ArgTokens(args, line) + ([Token("{", line)] + body);
            && tokens[0].line == line && tokens[0].text != "}"
            && ArgCount(tokens, line) == |args| && tokens[|args|] == Token("{", line)
            && TextsOf(tokens[..|args|]) == args && tokens[|args| + 1..] == body
  {
    var after := [Token("{", line)] + body;
    var tokens := ArgTokens(args, line) + after;
    assert tokens[0] == if args == [] then Token("{", line) else Token(args[0], line);
    assert args != [] ==> !IsBrace(args[0]);
    hide ArgCount;
    CountsArgs(args, after, line);
    assert tokens[..|args|] == ArgTokens(args, line);
  }

  lemma ParseBlock(s: Statement, line: nat, inner: seq<Statement>, body: seq<Token>, rest: seq<Token>)
    requires forall i :: 0 <= i < |s.args| ==> !IsBrace(s.args[i])
    requires ParseStatements(body) == Parsed(inner, rest)
    ensures var more := ParseStatements(rest);
            ParseStatements(ArgTokens(s.args, line) + ([Token("{", line)] + body)) ==
            Parsed([Statement(s.args, line, Block(inner))] + more.statements, more.rest)
  {
    hide ParseStatements, ArgCount, ArgTokens, TextsOf;
    OpensBlock(s.args, line, body);
    var n, opens, parsed := ParseUnfolds(ArgTokens(s.args, line) + ([Token("{", line)] + body));
  }

  /** Parsing the tokens of a parsable list gives the list, and consumes the brace after it. */
  lemma {:induction false} ParsePrinted(statements: seq<Statement>, line: nat, tail: seq<Token>, after: bool)
    requires Parsable(statements, after)
    requires tail != [] ==> tail[0].text == "}"
    ensures ParseStatements(Tokens(statements, line) + tail) ==
            Parsed(Located(statements, line), if tail == [] then [] else tail[1..])
    decreases statements
  {
    hide *;
    if statements == [] {
      PrintedNothing(line, tail);
      ParseStops(tail);
    } else if statements[0].block.Block? {
      var s, inner := statements[0], statements[0].block.statements;
      var closes := line + 1 + LineCount(inner);
      var rest := Tokens(statements[1..], closes + 1) + tail;
      var closed := [Token("}", closes)] + rest;
      ParsableParts(statements, after);
      ParsePrinted(inner, line + 1, closed, true);
      assert closed[1..] == rest;
      ParseBlock(s, line, Located(inner, line + 1), Tokens(inner, line + 1) + closed, rest);
      ParsePrinted(statements[1..], closes + 1, tail, true);
      PrintedBlock(statements, line, tail, Tokens(inner, line + 1) + closed);
    } else {
      var rest := Tokens(statements[1..], line + 1) + tail;
      ParsableParts(statements, after);
      NextIsApart(statements[1..], line, tail);
      OneIsParsable(statements, after);
      ParseOne(statements[0], line, rest);
      ParsePrinted(statements[1..], line + 1, tail, false);
      PrintedLine(statements, line, tail);
    }
  }

  lemma ParsableParts(statements: seq<Statement>, after: bool)
    requires statements != [] && Parsable(statements, after)
    ensures var s := statements[0];
            && (forall i :: 0 <= i < |s.args| ==> !IsBrace(s.args[i]))
            && (s.block.Block? ==> Parsable(s.block.statements, true))
            && Parsable(statements[1..], s.block.Block?)
  {
    hide IsBrace;
  }

  /** What follows a statement without a block is not taken for more of it. */
  lemma NextIsApart(statements: seq<Statement>, line: nat, tail: seq<Token>)
    requires Parsable(statements, false) && (tail != [] ==> tail[0].text == "}")
    ensures var rest := Tokens(statements, line + 1) + tail;
            rest != [] ==> rest[0].text == "}" || (!IsBrace(rest[0].text) && rest[0].line != line)
  {
    hide Tokens, IsBrace, Parsable;
    if statements == [] {
      PrintedNothing(line + 1, tail);
    } else {
      FirstIsNoBrace(statements);
      FirstToken(statements, line + 1);
      assert (Tokens(statements, line + 1) + tail)[0] == Tokens(statements, line + 1)[0];
    }
  }

  lemma PrintedNothing(line: nat, tail: seq<Token>)
    ensures Tokens([], line) + tail == tail && Located([], line) == []
  {
  }

  lemma OneIsParsable(statements: seq<Statement>, after: bool)
    requires statements != [] && Parsable(statements, after) && statements[0].block.NoBlock?
    ensures Parsable([statements[0]], true)
  {
    assert [statements[0]][0] == statements[0] && [statements[0]][1..] == [];
  }

  lemma PrintedLine(statements: seq<Statement>, line: nat, tail: seq<Token>)
    requires statements != [] && statements[0].block.NoBlock?
    ensures Tokens(statements, line) + tail ==
            ArgTokens(statements[0].args, line) + (Tokens(statements[1..], line + 1) + tail)
    ensures Located(statements, line) ==
            [Statement(statements[0].args, line, NoBlock)] + Located(statements[1..], line + 1)
  {
    hide LineCount;
  }

  lemma FirstIsNoBrace(statements: seq<Statement>)
    requires statements != [] && Parsable(statements, false)
    ensures statements[0].args != [] && !IsBrace(statements[0].args[0])
  {
  }

  lemma BlockUnfolds(statements: seq<Statement>, line: nat)
    requires statements != [] && statements[0].block.Block?
    ensures var s := statements[0];
            var inner := s.block.statements;
            var closes := line + 1 + LineCount(inner);
            && Tokens(statements, line) ==
               ArgTokens(s.args, line) + [Token("{", line)] + Tokens(inner, line + 1) + [Token("}", closes)] +
               Tokens(statements[1..], closes + 1)
            && Located(statements, line) ==
               [Statement(s.args, line, Block(Located(inner, line + 1)))] + Located(statements[1..], closes + 1)
  {
    hide LineCount, ArgTokens;
  }

  lemma PrintedBlock(statements: seq<Statement>, line: nat, tail: seq<Token>, body: seq<Token>)
    requires statements != [] && statements[0].block.Block?
    requires var inner := statements[0].block.statements; var closes := line + 1 + LineCount(inner);
             body == Tokens(inner, line + 1) + ([Token("}", closes)] + (Tokens(statements[1..], closes + 1) + tail))
    ensures Tokens(statements, line) + tail == ArgTokens(statements[0].args, line) + ([Token("{", line)] + body)
    ensures var inner := statements[0].block.statements; var closes := line + 1 + LineCount(inner);
            Located(statements, line) ==
            [Statement(statements[0].args, line, Block(Located(inner, line + 1)))] +
            Located(statements[1..], closes + 1)
  {
    BlockUnfolds(statements, line);
    hide *;
    var args, inner := ArgTokens(statements[0].args, line), statements[0].block.statements;
    var closes := line + 1 + LineCount(inner);
    FiveParts(args, [Token("{", line)], Tokens(inner, line + 1), [Token("}", closes)],
              Tokens(statements[1..], closes + 1), tail);
  }

  lemma FiveParts(a: seq<Token>, b: seq<Token>, c: seq<Token>, d: seq<Token>, e: seq<Token>, tail: seq<Token>)
    ensures a + b + c + d + e + tail == a + (b + (c + (d + (e + tail))))
  {
    assert c + (d + (e + tail)) == c + d + e + tail;
    assert a + b + (c + d + e + tail) == a + (b + (c + d + e + tail));
  }

  lemma {:induction false} LocatedIsParsable(statements: seq<Statement>, line: nat, after: bool)
    ensures Parsable(Located(statements, line), after) <==> Parsable(statements, after)
    decreases statements
  {
    hide LineCount;
    if statements != [] {
      var s := statements[0];
      var next := line + if s.block.Block? then 2 + LineCount(s.block.statements) else 1;
      if s.block.Block? { LocatedIsParsable(s.block.statements, line + 1, true); }
      LocatedIsParsable(statements[1..], next, s.block.Block?);
      var first := Located(statements, line)[0];
      assert Located(statements, line) == [first] + Located(statements[1..], next);
      assert Located(statements, line)[1..] == Located(statements[1..], next);
    }
  }

  /** Printing a tree whose arguments stay on one line, then lexing and parsing it, gives the
      tree back, each statement with the line it was printed on, exactly when the tree is one a
      parser can return. */
  lemma PrintParseRoundTrip(statements: seq<Statement>)
    requires OneLine(statements)
    ensures Parse(Print(statements)) == Ok(Located(statements, 1)) <==> Parsable(statements, true)
  {
    hide Lex, Print, Tokens, Located, Parsable, ParseStatements;
    LexPrinted(statements, "", 1);
    LexEmpty(true, 1 + LineCount(statements));
    assert Print(statements) + "" == Print(statements);
    var tokens := Tokens(statements, 1);
    assert Lex(Print(statements), true, 1) == Ok(tokens) by { assert tokens + [] == tokens; }
    if Parsable(statements, true) {
      ParsePrinted(statements, 1, [], true);
      assert tokens + [] == tokens;
    }
    if Parse(Print(statements)) == Ok(Located(statements, 1)) {
      ParsedIsParsable(tokens, true);
      LocatedIsParsable(statements, 1, true);
    }
  }

  lemma LexEmpty(atStart: bool, line: nat)
    ensures Lex("", atStart, line) == Ok([])
  {
  }

  // ---- The reader's loops ----------------------------------------------------------------

  predicate AtStart(source: string, index: nat)
    requires index <= |source|
  {
    index == 0 || IsSeparator(source[index - 1])
  }

  lemma {:induction false} DropLineSkips(s: string, n: nat)
    requires n <= |s| && forall i :: 0 <= i < n ==> s[i] != '\n'
    requires n == |s| || s[n] == '\n'
    ensures DropLine(s) == s[n..]
  {
    if n > 0 { DropLineSkips(s[1..], n - 1); }
  }

  /** Copies what is not an unpaired backslash, keeping what follows one. */
  method EmitUnescaped(value: string) returns (r: string)
    ensures r == Unescape(value, false)
  {
    if '\\' !in value {
      UnescapePlain(value);
      return value;
    }
    r := "";
    var escaped := false;
    for i := 0 to |value|
      invariant r + Unescape(value[i..], escaped) == Unescape(value, false)
    {
      assert value[i..][1..] == value[i + 1..];
      if escaped {
        r := r + [value[i]];
        escaped := false;
      } else if value[i] == '\\' {
        escaped := true;
      } else {
        r := r + [value[i]];
      }
    }
  }

  lemma {:induction false} UnescapePlain(s: string)
    requires '\\' !in s
    ensures Unescape(s, false) == s
  {
    if s != "" { UnescapePlain(s[1..]); }
  }

  /** Scans a quoted value from `start`: where its closing quote is, and the line it is on. */
  method ScanQuoted(source: string, start: nat, quote: char, line: nat) returns (index: nat, ends: nat)
    requires start <= |source| && (quote == '"' || quote == '`')
    ensures start <= index <= |source|
    ensures QuotedEnd(source[start..], quote, false) == if index < |source| then Some(index - start) else None
    ensures index < |source| ==> ends == line + Newlines(source[start..index])
  {
    hide Newlines, QuotedEnd;
    index, ends := start, line;
    var escaped := false;
    assert source[start..start] == "";
    NoNewlines();
    while index < |source|
      invariant start <= index <= |source| && ends == line + Newlines(source[start..index])
      invariant QuotedEnd(source[start..], quote, false) ==
                Later(QuotedEnd(source[index..], quote, escaped), index - start)
    {
      ghost var rest := source[index..];
      assert rest[1..] == source[index + 1..] && rest[0] == source[index];
      QuotedStops(rest, quote, escaped);
      if !escaped && source[index] == quote { return; }
      QuotedMoves(rest, quote, escaped);
      LaterTwice(QuotedEnd(rest[1..], quote, !escaped && rest[0] == '\\' && quote == '"'), 1, index - start);
      NewlinesAppend(source[start..index], source[index]);
      assert source[start..index + 1] == source[start..index] + [source[index]];
      if source[index] == '\n' { ends := ends + 1; }
      escaped := !escaped && source[index] == '\\' && quote == '"';
      index := index + 1;
    }
    QuotedStops(source[index..], quote, escaped);
  }

  lemma QuotedStops(s: string, quote: char, escaped: bool)
    ensures s == "" ==> QuotedEnd(s, quote, escaped).None?
    ensures s != "" && !escaped && s[0] == quote ==> QuotedEnd(s, quote, escaped) == Some(0)
  {
  }

  lemma QuotedMoves(s: string, quote: char, escaped: bool)
    requires s != "" && (escaped || s[0] != quote)
    ensures QuotedEnd(s, quote, escaped) ==
            Later(QuotedEnd(s[1..], quote, !escaped && s[0] == '\\' && quote == '"'), 1)
  {
  }

  lemma NoNewlines()
    ensures Newlines("") == 0
  {
  }

  lemma {:induction false} NewlinesAppend(s: string, c: char)
    ensures Newlines(s + [c]) == Newlines(s) + if c == '\n' then 1 else 0
  {
    if s == "" {
      assert [c][1..] == "";
    } else {
      assert (s + [c])[1..] == s[1..] + [c];
      NewlinesAppend(s[1..], c);
    }
  }

  /** The end of the comment that starts at `index`. */
  method SkipComment(source: string, start: nat) returns (index: nat)
    requires start < |source| && source[start] == '#'
    ensures start < index <= |source| && DropLine(source[start + 1..]) == source[index..]
    ensures index < |source| ==> source[index] == '\n'
  {
    index := start + 1;
    while index < |source| && source[index] != '\n'
      invariant start < index <= |source| && forall i :: start < i < index ==> source[i] != '\n'
    {
      index := index + 1;
    }
    DropLineSkips(source[start + 1..], index - start - 1);
    assert source[start + 1..][index - start - 1..] == source[index..];
  }

  /** The end of the word that starts at `start`. */
  method ScanWord(source: string, start: nat) returns (index: nat)
    requires start < |source| && !IsSeparator(source[start])
    ensures start < index <= |source| && WordLength(source[start..]) == index - start
  {
    index := start;
    while index < |source| && !IsSeparator(source[index])
      invariant start <= index <= |source| && forall i :: start <= i < index ==> !IsSeparator(source[i])
    {
      index := index + 1;
    }
  }

  /** The lexer's loop over the source. */
  method Tokenize(source: string) returns (r: Result<seq<Token>, Refusal>)
    ensures r == Lex(source, true, 1)
  {
    hide Lex, Before, DropLine, QuotedEnd, Unescape, Newlines, WordLength;
    var tokens: seq<Token>, line, index := [], 1, 0;
    assert source[0..] == source;
    BeforeNothing(Lex(source, true, 1));
    while index < |source|
      invariant 0 <= index <= |source|
      invariant Lex(source, true, 1) == Before(tokens, Lex(source[index..], AtStart(source, index), line))
    {
      var rest, atStart := source[index..], AtStart(source, index);
      assert rest[1..] == source[index + 1..];
      if source[index] == '\n' {
        LexSeparator(rest, atStart, line);
        line, index := line + 1, index + 1;
      } else if IsSeparator(source[index]) {
        LexSeparator(rest, atStart, line);
        index := index + 1;
      } else if source[index] == '#' && atStart {
        LexComment(rest, line);
        index := SkipComment(source, index);
        LineEndRestarts(source[index..], AtStart(source, index), line);
      } else {
        var token, next, ends := NextToken(source, index, line);
        if token.None? {
          BeforeRefusal(tokens);
          return Err(NeverClosed);
        }
        BeforeTwice(tokens, [token.value], Lex(source[next..], false, ends));
        tokens := tokens + [token.value];
        line, index := ends, next;
        LexAfterToken(source[index..], AtStart(source, index), line);
      }
    }
    assert source[index..] == "";
    LexEmpty(AtStart(source, index), line);
    BeforeEnd<Token, Refusal>(tokens);
    r := Ok(tokens);
  }

  /** A token that is not white space and not a comment: a brace, a quoted value or a word. */
  method NextToken(source: string, index: nat, line: nat) returns (token: Option<Token>, next: nat, ends: nat)
    requires index < |source| && !IsSeparator(source[index]) && !(source[index] == '#' && AtStart(source, index))
    ensures token.None? ==> Lex(source[index..], AtStart(source, index), line) == Err(NeverClosed)
    ensures token.Some? ==>
              && index < next <= |source|
              && Lex(source[index..], AtStart(source, index), line) ==
                 Before([token.value], Lex(source[next..], false, ends))
              && (next < |source| && source[next] == '#' ==> !AtStart(source, next))
  {
    hide Lex, Before, QuotedEnd, Unescape, Newlines, WordLength;
    var rest, atStart := source[index..], AtStart(source, index);
    assert rest[1..] == source[index + 1..];
    if StandsAlone(rest) {
      LexStandsAlone(rest, atStart, line);
      token, next, ends := Some(Token([source[index]], line)), index + 1, line;
    } else if source[index] == '"' || source[index] == '`' {
      var end;
      end, ends := ScanQuoted(source, index + 1, source[index], line);
      LexQuote(rest, atStart, line);
      if end >= |source| { return None, index, ends; }
      assert rest[1..end - index] == source[index + 1..end] && rest[end - index + 1..] == source[end + 1..];
      var value := EmitUnescaped(source[index + 1..end]);
      token, next := Some(Token(value, ends)), end + 1;
    } else {
      next := ScanWord(source, index);
      LexWord(rest, atStart, line);
      assert rest[..next - index] == source[index..next] && rest[next - index..] == source[next..];
      assert next < |source| ==> IsSeparator(rest[next - index]) by { WordEnds(rest); }
      token, ends := Some(Token(source[index..next], line)), line;
    }
  }

  lemma WordEnds(s: string)
    ensures WordLength(s) < |s| ==> IsSeparator(s[WordLength(s)])
  {
  }

  lemma LexSeparator(s: string, atStart: bool, line: nat)
    requires s != "" && IsSeparator(s[0])
    ensures Lex(s, atStart, line) == Lex(s[1..], true, if s[0] == '\n' then line + 1 else line)
  {
  }

  lemma LexComment(s: string, line: nat)
    requires s != "" && s[0] == '#'
    ensures Lex(s, true, line) == Lex(DropLine(s[1..]), true, line)
  {
  }

  /** Only before a hash does it matter whether a token may start. */
  lemma LexAfterToken(s: string, atStart: bool, line: nat)
    requires s != "" && s[0] == '#' ==> !atStart
    ensures Lex(s, atStart, line) == Lex(s, false, line)
  {
  }

  lemma LineEndRestarts(rest: string, atStart: bool, line: nat)
    requires rest == "" || rest[0] == '\n'
    ensures Lex(rest, atStart, line) == Lex(rest, true, line)
  {
  }

  lemma BeforeRefusal(tokens: seq<Token>)
    ensures Before(tokens, Err(NeverClosed)) == Err(NeverClosed)
  {
  }

  lemma LexStandsAlone(s: string, atStart: bool, line: nat)
    requires s != "" && StandsAlone(s)
    ensures Lex(s, atStart, line) == Before([Token([s[0]], line)], Lex(s[1..], false, line))
  {
  }

  lemma LexQuote(s: string, atStart: bool, line: nat)
    requires s != "" && (s[0] == '"' || s[0] == '`')
    ensures QuotedEnd(s[1..], s[0], false).None? ==> Lex(s, atStart, line) == Err(NeverClosed)
    ensures QuotedEnd(s[1..], s[0], false).Some? ==>
              var n := QuotedEnd(s[1..], s[0], false).value;
              var ends := line + Newlines(s[1..n + 1]);
              Lex(s, atStart, line) == Before([Token(Unescape(s[1..n + 1], false), ends)], Lex(s[n + 2..], false, ends))
  {
    assert !IsSeparator(s[0]) && !StandsAlone(s);
    hide QuotedEnd, Unescape, Newlines, StandsAlone, IsSeparator, DropLine, WordLength;
  }

  lemma LexWord(s: string, atStart: bool, line: nat)
    requires s != "" && !IsSeparator(s[0]) && !(s[0] == '#' && atStart) && !StandsAlone(s) && s[0] != '"' && s[0] != '`'
    ensures var n := WordLength(s); Lex(s, atStart, line) == Before([Token(s[..n], line)], Lex(s[n..], false, line))
  {
  }

  /** Statements in front of what a parse finds. */
  function Following(statements: seq<Statement>, more: Parsed): Parsed {
    Parsed(statements + more.statements, more.rest)
  }

  /** The arguments from `first` on that are on its line. */
  method ReadArgs(tokens: seq<Token>, first: nat) returns (args: seq<string>, cursor: nat)
    requires first < |tokens|
    ensures first <= cursor <= |tokens| && cursor - first == ArgCount(tokens[first..], tokens[first].line)
    ensures args == TextsOf(tokens[first..cursor])
  {
    hide ArgCount;
    var line := tokens[first].line;
    args, cursor := [], first;
    while cursor < |tokens| && tokens[cursor].text != "{" && tokens[cursor].text != "}" && tokens[cursor].line == line
      invariant first <= cursor <= |tokens| && args == TextsOf(tokens[first..cursor])
      invariant ArgCount(tokens[first..], line) == (cursor - first) + ArgCount(tokens[cursor..], line)
    {
      CountsOne(tokens[cursor..], line);
      assert tokens[cursor..][1..] == tokens[cursor + 1..];
      assert TextsOf(tokens[first..cursor + 1]) == TextsOf(tokens[first..cursor]) + [tokens[cursor].text];
      args := args + [tokens[cursor].text];
      cursor := cursor + 1;
    }
    CountsOne(tokens[cursor..], line);
  }

  /** One statement, with a call for its block. */
  method ReadStatement(tokens: seq<Token>, start: nat) returns (statement: Statement, cursor: nat)
    requires start < |tokens| && tokens[start].text != "}"
    ensures start < cursor <= |tokens|
    ensures ParseStatements(tokens[start..]) == Following([statement], ParseStatements(tokens[cursor..]))
    decreases |tokens| - start, 0
  {
    hide ParseStatements, ArgCount, IsBrace;
    var rest := tokens[start..];
    ghost var n, opens, inner := ParseUnfolds(rest);
    var args;
    args, cursor := ReadArgs(tokens, start);
    assert rest[..n] == tokens[start..cursor] && rest[n..] == tokens[cursor..];
    var block := NoBlock;
    if cursor < |tokens| && tokens[cursor].text == "{" {
      assert rest[n + 1..] == tokens[cursor + 1..];
      var children, after := ReadStatements(tokens, cursor + 1);
      block, cursor := Block(children), after;
    }
    statement := Statement(args, tokens[start].line, block);
  }

  /** The parser's loop: a cursor that moves over the tokens to the end or past a closing brace. */
  method ReadStatements(tokens: seq<Token>, start: nat) returns (statements: seq<Statement>, cursor: nat)
    requires start <= |tokens|
    ensures start <= cursor <= |tokens| && ParseStatements(tokens[start..]) == Parsed(statements, tokens[cursor..])
    decreases |tokens| - start, 1
  {
    hide ParseStatements;
    statements, cursor := [], start;
    while cursor < |tokens|
      invariant start <= cursor <= |tokens|
      invariant ParseStatements(tokens[start..]) == Following(statements, ParseStatements(tokens[cursor..]))
    {
      if tokens[cursor].text == "}" {
        ParseStops(tokens[cursor..]);
        assert tokens[cursor..][1..] == tokens[cursor + 1..];
        cursor := cursor + 1;
        assert statements + [] == statements;
        return;
      }
      var statement;
      statement, cursor := ReadStatement(tokens, cursor);
      FollowingTwice(statements, [statement], ParseStatements(tokens[cursor..]));
      statements := statements + [statement];
    }
    ParseStops(tokens[cursor..]);
    assert statements + [] == statements;
  }

  lemma FollowingTwice(a: seq<Statement>, b: seq<Statement>, more: Parsed)
    ensures Following(a, Following(b, more)) == Following(a + b, more)
  {
    assert a + (b + more.statements) == (a + b) + more.statements;
  }

  lemma CountsOne(tokens: seq<Token>, line: nat)
    ensures ArgCount(tokens, line) ==
            if tokens == [] || IsBrace(tokens[0].text) || tokens[0].line != line then 0
            else 1 + ArgCount(tokens[1..], line)
  {
  }

  /** A whole file. */
  method ReadFile(source: string) returns (r: Result<seq<Statement>, Refusal>)
    ensures r == Parse(source)
  {
    hide Lex, ParseStatements;
    var tokens := Tokenize(source);
    if tokens.Err? { return Err(tokens.error); }
    assert tokens.value[0..] == tokens.value;
    var statements, cursor := ReadStatements(tokens.value, 0);
    r := if cursor != |tokens.value| then Err(AfterLastBlock) else Ok(statements);
  }
}
