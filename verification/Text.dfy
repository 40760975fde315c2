/** String helpers shared by the models: decimal rendering, joining with a separator byte,
    and the byte-wise order Go compares strings with. */
module Text {

  /** Cutting at the first `c` is unambiguous when neither head holds one. */
  lemma CutUnique(x: string, u: string, y: string, v: string, c: char)
    requires c !in x && c !in y
    requires x + [c] + u == y + [c] + v
    ensures x == y && u == v
  {
    var s, t := x + [c] + u, y + [c] + v;
    assert s[|x|] == c && s[|y|] == c;
    assert forall i :: 0 <= i < |x| ==> s[i] == x[i];
    assert forall i :: 0 <= i < |y| ==> s[i] == y[i];
    assert |x| == |y|;
    assert x == s[..|x|] && y == t[..|y|] && u == s[|x| + 1..] && v == t[|y| + 1..];
  }

  /** `strings.Join` with a one-byte separator. */
  function Join(parts: seq<string>, sep: char): string {
    if |parts| == 0 then "" else if |parts| == 1 then parts[0] else parts[0] + [sep] + Join(parts[1..], sep)
  }

  ghost predicate Without(parts: seq<string>, sep: char) {
    forall i :: 0 <= i < |parts| ==> sep !in parts[i]
  }

  /** Joining is injective on non-empty lists whose parts do not hold the separator. */
  lemma {:induction false} JoinInjective(a: seq<string>, b: seq<string>, sep: char)
    requires 0 < |a| && 0 < |b| && Without(a, sep) && Without(b, sep)
    requires Join(a, sep) == Join(b, sep)
    ensures a == b
  {
    assert |a| > 1 ==> Join(a, sep)[|a[0]|] == sep;
    assert |b| > 1 ==> Join(b, sep)[|b[0]|] == sep;
    if |a| == 1 || |b| == 1 {
    } else {
      CutUnique(a[0], Join(a[1..], sep), b[0], Join(b[1..], sep), sep);
      JoinInjective(a[1..], b[1..], sep);
      assert a == [a[0]] + a[1..] && b == [b[0]] + b[1..];
    }
  }

  predicate IsDigit(c: char) { '0' <= c <= '9' }

  /** The decimal digits of a natural number, most significant first. */
  function Digits(n: nat): (s: string)
    ensures |s| > 0 && forall i :: 0 <= i < |s| ==> IsDigit(s[i])
  {
    if n < 10 then ['0' + n as char] else Digits(n / 10) + ['0' + (n % 10) as char]
  }

  function DigitsValue(s: string): int
  {
    if |s| == 0 then 0 else DigitsValue(s[..|s| - 1]) * 10 + (s[|s| - 1] as int - '0' as int)
  }

  lemma {:induction false} DigitsRoundTrip(n: nat)
    ensures DigitsValue(Digits(n)) == n
  {
    if n >= 10 {
      DigitsRoundTrip(n / 10);
      assert Digits(n)[..|Digits(n)| - 1] == Digits(n / 10);
    } else {
      assert Digits(n)[..0] == "";
    }
  }

  /** `strconv.Itoa`. */
  function Itoa(n: int): (s: string)
    ensures |s| > 0 && ',' !in s && ':' !in s && '/' !in s
  {
    if n < 0 then "-" + Digits(-n) else Digits(n)
  }

  lemma ItoaInjective(m: int, n: int)
    requires Itoa(m) == Itoa(n)
    ensures m == n
  {
    if m >= 0 { DigitsRoundTrip(m); } else { DigitsRoundTrip(-m); assert Itoa(m)[1..] == Digits(-m); }
    if n >= 0 { DigitsRoundTrip(n); } else { DigitsRoundTrip(-n); assert Itoa(n)[1..] == Digits(-n); }
    assert (m < 0 <==> Itoa(m)[0] == '-') && (n < 0 <==> Itoa(n)[0] == '-');
  }

  /** `strings.LastIndex` for a one-byte pattern: -1 when it is absent. */
  function LastIndex(s: string, c: char): (r: int)
    ensures -1 <= r < |s|
    ensures r >= 0 ==> s[r] == c
    ensures forall i :: r < i < |s| ==> s[i] != c
  {
    if |s| == 0 then -1 else if s[|s| - 1] == c then |s| - 1 else LastIndex(s[..|s| - 1], c)
  }

  /** The last `c` of a string whose tail does not hold it. */
  lemma LastIndexIs(s: string, c: char, i: int)
    requires 0 <= i < |s| && s[i] == c && forall j :: i < j < |s| ==> s[j] != c
    ensures LastIndex(s, c) == i
  {
    var r := LastIndex(s, c);
    assert r >= i;
    assert s[r] == c;
  }

  /** `strings.Split` with a one-byte separator: never empty, and no part holds it. */
  function Split(s: string, sep: char): (r: seq<string>)
    ensures |r| > 0 && Without(r, sep)
  {
    if sep !in s then [s] else
      var i := FirstIndex(s, sep);
      [s[..i]] + Split(s[i + 1..], sep)
  }

  function FirstIndex(s: string, c: char): (i: nat)
    requires c in s
    ensures i < |s| && s[i] == c && c !in s[..i]
  {
    if s[0] == c then 0 else 1 + FirstIndex(s[1..], c)
  }

  lemma FirstIndexIs(s: string, t: string, c: char)
    requires c !in s
    ensures FirstIndex(s + [c] + t, c) == |s|
  {
    var text := s + [c] + t;
    assert text[|s|] == c;
    var i := FirstIndex(text, c);
    assert text == text[..i] + [c] + text[i + 1..];
    CutUnique(s, t, text[..i], text[i + 1..], c);
  }

  /** Splitting takes the first part off. */
  lemma SplitFirst(part: string, rest: string, sep: char)
    requires sep !in part
    ensures Split(part + [sep] + rest, sep) == [part] + Split(rest, sep)
  {
    var text := part + [sep] + rest;
    FirstIndexIs(part, rest, sep);
    assert text[|part|] == sep;
    assert text[..|part|] == part && text[|part| + 1..] == rest;
  }

  /** Lines with the line end after each. */
  function Unlines(lines: seq<string>, end: string): string {
    if lines == [] then "" else lines[0] + end + Unlines(lines[1..], end)
  }

  /** `strings.HasPrefix`. */
  predicate StartsWith(s: string, prefix: string) { |prefix| <= |s| && s[..|prefix|] == prefix }

  /** Splitting a joined list gives the list back. */
  lemma {:induction false} SplitJoin(parts: seq<string>, sep: char)
    requires |parts| > 0 && Without(parts, sep)
    ensures Split(Join(parts, sep), sep) == parts
  {
    if |parts| > 1 {
      var tail := Join(parts[1..], sep);
      SplitJoin(parts[1..], sep);
      assert Join(parts, sep) == parts[0] + [sep] + tail && sep !in parts[0];
      hide *;
      SplitFirst(parts[0], tail, sep);
      assert parts == [parts[0]] + parts[1..];
    } else {
      assert Join(parts, sep) == parts[0] && parts == [parts[0]];
    }
  }

  /** Joining what was split gives the string back. */
  lemma {:induction false} JoinSplit(s: string, sep: char)
    ensures Join(Split(s, sep), sep) == s
  {
    if sep in s {
      var i := FirstIndex(s, sep);
      JoinSplit(s[i + 1..], sep);
      assert Split(s, sep)[1..] == Split(s[i + 1..], sep);
      assert s == s[..i] + [sep] + s[i + 1..];
    }
  }

  /** `unicode.IsSpace`. */
  predicate IsSpace(c: char) {
    c == '\t' || c == '\n' || c == '\U{0B}' || c == '\U{0C}' || c == '\r' || c == ' ' || c == '\U{85}' ||
    c == '\U{A0}' || c == '\U{1680}' || '\U{2000}' <= c <= '\U{200A}' || c == '\U{2028}' || c == '\U{2029}' ||
    c == '\U{202F}' || c == '\U{205F}' || c == '\U{3000}'
  }

  /** `strings.TrimSpace`. */
  function TrimSpace(s: string): (r: string)
    ensures |r| <= |s| && forall c :: c in r ==> c in s
    ensures r != "" ==> !IsSpace(r[0]) && !IsSpace(r[|r| - 1])
  {
    if s == "" then "" else if IsSpace(s[0]) then TrimSpace(s[1..])
    else if IsSpace(s[|s| - 1]) then TrimSpace(s[..|s| - 1]) else s
  }

  /** The characters with the property White_Space in Unicode, by code point. */
  lemma SpacesAre(c: char)
    ensures IsSpace(c) <==>
            || 9 <= c as int <= 13 || c as int in {0x20, 0x85, 0xA0, 0x1680, 0x2028, 0x2029, 0x202F, 0x205F, 0x3000}
            || 0x2000 <= c as int <= 0x200A
  {
  }

  lemma {:induction false} TrimsBefore(before: string, s: string)
    requires forall c :: c in before ==> IsSpace(c)
    ensures TrimSpace(before + s) == TrimSpace(s)
  {
    hide IsSpace;
    if before == "" {
      assert before + s == s;
    } else {
      assert before[0] in before && (before + s)[1..] == before[1..] + s;
      assert TrimSpace(before + s) == TrimSpace(before[1..] + s);
      hide TrimSpace;
      TrimsBefore(before[1..], s);
    }
  }

  lemma {:induction false} TrimsAfter(text: string, after: string)
    requires text != "" && !IsSpace(text[0]) && !IsSpace(text[|text| - 1])
    requires forall c :: c in after ==> IsSpace(c)
    ensures TrimSpace(text + after) == text
  {
    hide IsSpace;
    var s := text + after;
    if after == "" {
      assert s == text;
    } else {
      assert s[|s| - 1] == after[|after| - 1] && after[|after| - 1] in after && s[0] == text[0];
      assert s[..|s| - 1] == text + after[..|after| - 1];
      assert TrimSpace(s) == TrimSpace(text + after[..|after| - 1]);
      hide TrimSpace;
      TrimsAfter(text, after[..|after| - 1]);
    }
  }

  /** Trimming takes the white space off both ends and nothing else. */
  lemma TrimSpaceExactly(before: string, text: string, after: string)
    requires (forall c :: c in before ==> IsSpace(c)) && (forall c :: c in after ==> IsSpace(c))
    requires text != "" ==> !IsSpace(text[0]) && !IsSpace(text[|text| - 1])
    ensures TrimSpace(before + text + after) == text
  {
    assert before + text + after == before + (text + after);
    hide IsSpace;
    TrimsBefore(before, text + after);
    if text == "" {
      assert text + after == after + "";
      TrimsBefore(after, "");
    } else {
      TrimsAfter(text, after);
    }
  }

  /** Decimal digits have no leading zeros. */
  lemma {:induction false} NoLeadingZero(n: nat)
    ensures n < 10 ==> |Digits(n)| == 1
    ensures n > 0 ==> Digits(n)[0] != '0'
  {
    if n >= 10 {
      NoLeadingZero(n / 10);
      assert Digits(n)[0] == Digits(n / 10)[0];
    }
  }

  // ---- Hexadecimal -----------------------------------------------------------------------

  /** One hexadecimal digit; `ten` is the letter that stands for ten. */
  function HexDigit(d: nat, ten: char): char
    requires d < 16 && (ten == 'a' || ten == 'A')
  {
    if d < 10 then '0' + d as char else ten + (d - 10) as char
  }

  predicate IsUpperHex(c: char) { IsDigit(c) || 'A' <= c <= 'F' }

  function HexDigitValue(c: char, ten: char): int {
    if c <= '9' then c as int - '0' as int else c as int - ten as int + 10
  }

  /** `width` hexadecimal digits of `n`, most significant first. */
  function Hex(n: nat, width: nat, ten: char): (s: string)
    requires ten == 'a' || ten == 'A'
    ensures |s| == width
  {
    if width == 0 then "" else Hex(n / 16, width - 1, ten) + [HexDigit(n % 16, ten)]
  }

  function Pow16(width: nat): nat { if width == 0 then 1 else 16 * Pow16(width - 1) }

  lemma {:induction false} HexInjective(m: nat, n: nat, width: nat, ten: char)
    requires ten == 'a' || ten == 'A'
    requires m < Pow16(width) && n < Pow16(width) && Hex(m, width, ten) == Hex(n, width, ten)
    ensures m == n
  {
    if width > 0 {
      var a, b := Hex(m, width, ten), Hex(n, width, ten);
      assert a[..width - 1] == Hex(m / 16, width - 1, ten) && b[..width - 1] == Hex(n / 16, width - 1, ten);
      assert a[width - 1] == HexDigit(m % 16, ten) && b[width - 1] == HexDigit(n % 16, ten);
      HexInjective(m / 16, n / 16, width - 1, ten);
      assert HexDigitValue(HexDigit(m % 16, ten), ten) == m % 16;
      assert HexDigitValue(HexDigit(n % 16, ten), ten) == n % 16;
    }
  }
}
