/** The percent encoding a signed request needs, and the canonical form of its query. A string
    here is a string of bytes. */
module CanonicalQuery {
  import opened Order
  import opened Text
  import opened Wrappers

  predicate IsBytes(s: string) { forall i :: 0 <= i < |s| ==> s[i] < '\U{100}' }

  // ---- Percent encoding ------------------------------------------------------------------

  /** The unreserved characters of section 2.3 of RFC 3986. */
  predicate Unreserved(c: char) {
    'A' <= c <= 'Z' || 'a' <= c <= 'z' || IsDigit(c) || c == '-' || c == '_' || c == '.' || c == '~'
  }

  function EncodeByte(c: char): string {
    if Unreserved(c) then [c] else "%" + Hex(c as int, 2, 'A')
  }

  function EncodeKey(text: string): string {
    if text == "" then "" else EncodeByte(text[0]) + EncodeKey(text[1..])
  }

  /** Unreserved characters and percent-encoded triples, and nothing else (section 2.1). */
  predicate IsEncoded(s: string) {
    s == "" || (if s[0] == '%' then |s| >= 3 && IsUpperHex(s[1]) && IsUpperHex(s[2]) && IsEncoded(s[3..])
                else Unreserved(s[0]) && IsEncoded(s[1..]))
  }

  /** The bytes an encoded text stands for. */
  function Decode(s: string): string {
    if s == "" then ""
    else if s[0] == '%' && |s| >= 3 && IsUpperHex(s[1]) && IsUpperHex(s[2])
    then [(16 * HexDigitValue(s[1], 'A') + HexDigitValue(s[2], 'A')) as char] + Decode(s[3..])
    else [s[0]] + Decode(s[1..])
  }

  lemma EncodedTriple(c: char)
    requires c < '\U{100}'
    ensures var s := Hex(c as int, 2, 'A');
            IsUpperHex(s[0]) && IsUpperHex(s[1]) && 16 * HexDigitValue(s[0], 'A') + HexDigitValue(s[1], 'A') == c as int
  {
    var n := c as int;
    assert Hex(n, 2, 'A') == Hex(n / 16, 1, 'A') + [HexDigit(n % 16, 'A')];
    assert Hex(n / 16, 1, 'A') == Hex(n / 16 / 16, 0, 'A') + [HexDigit(n / 16 % 16, 'A')];
  }

  /** Encoding emits only what it may, and loses nothing. */
  lemma {:induction false} EncodeRoundTrip(text: string)
    requires IsBytes(text)
    ensures IsEncoded(EncodeKey(text)) && Decode(EncodeKey(text)) == text
  {
    if text != "" {
      EncodeRoundTrip(text[1..]);
      var rest := EncodeKey(text[1..]);
      var c := text[0];
      if Unreserved(c) {
        assert ([c] + rest)[1..] == rest;
      } else {
        EncodedTriple(c);
        var s := Hex(c as int, 2, 'A');
        assert EncodeKey(text) == ['%', s[0], s[1]] + rest;
        assert (['%', s[0], s[1]] + rest)[3..] == rest;
      }
    }
  }

  lemma EncodeInjective(a: string, b: string)
    requires IsBytes(a) && IsBytes(b) && EncodeKey(a) == EncodeKey(b)
    ensures a == b
  {
    EncodeRoundTrip(a);
    EncodeRoundTrip(b);
  }

  lemma {:induction false} EncodeAvoids(text: string, c: char)
    requires IsBytes(text) && c != '%' && !Unreserved(c)
    ensures c !in EncodeKey(text)
  {
    if text != "" {
      EncodeAvoids(text[1..], c);
      EncodedTriple(text[0]);
      var s := Hex(text[0] as int, 2, 'A');
      assert !Unreserved(text[0]) ==> EncodeByte(text[0]) == ['%', s[0], s[1]];
    }
  }

  /** The encoder's loop over bytes. */
  method EmitKey(text: string) returns (r: string)
    ensures r == EncodeKey(text)
  {
    r := "";
    for i := 0 to |text|
      invariant r + EncodeKey(text[i..]) == EncodeKey(text)
    {
      assert text[i..][1..] == text[i + 1..];
      r := r + EncodeByte(text[i]);
    }
  }

  function EncodeAll(parts: seq<string>): (r: seq<string>)
    ensures |r| == |parts| && forall i :: 0 <= i < |r| ==> r[i] == EncodeKey(parts[i])
  {
    seq(|parts|, i requires 0 <= i < |parts| => EncodeKey(parts[i]))
  }

  function EncodePath(key: string): string { Join(EncodeAll(Split(key, '/')), '/') }

  lemma SplitBytes(s: string, parts: seq<string>)
    requires parts == Split(s, '/') && IsBytes(s)
    ensures forall i :: 0 <= i < |parts| ==> IsBytes(parts[i])
    decreases |s|
  {
    if '/' in s { SplitBytes(s[FirstIndex(s, '/') + 1..], parts[1..]); }
  }

  /** The encoder of paths overwrites the segments one by one. */
  method EmitPath(key: string) returns (r: string)
    ensures r == EncodePath(key)
  {
    hide EncodeKey, Split, Join;
    var parts := Split(key, '/');
    var segments := new string[|parts|](i requires 0 <= i < |parts| => parts[i]);
    for index := 0 to segments.Length
      invariant forall i :: 0 <= i < index ==> segments[i] == EncodeKey(parts[i])
      invariant forall i :: index <= i < segments.Length ==> segments[i] == parts[i]
    {
      var encoded := EmitKey(segments[index]);
      segments[index] := encoded;
    }
    assert segments[..] == EncodeAll(parts);
    r := Join(segments[..], '/');
  }

  /** Two keys are never sent to one path: the slashes are kept and each segment can be read
      back. */
  lemma EncodePathInjective(a: string, b: string)
    requires IsBytes(a) && IsBytes(b) && EncodePath(a) == EncodePath(b)
    ensures a == b && Split(EncodePath(a), '/') == EncodeAll(Split(a, '/'))
  {
    var x, y := Split(a, '/'), Split(b, '/');
    SplitBytes(a, x);
    SplitBytes(b, y);
    forall i | 0 <= i < |x| ensures '/' !in EncodeAll(x)[i] { EncodeAvoids(x[i], '/'); }
    forall i | 0 <= i < |y| ensures '/' !in EncodeAll(y)[i] { EncodeAvoids(y[i], '/'); }
    hide EncodeKey, Split, Join;
    JoinInjective(EncodeAll(x), EncodeAll(y), '/');
    SplitJoin(EncodeAll(x), '/');
    forall i | 0 <= i < |x| ensures x[i] == y[i] {
      assert EncodeAll(x)[i] == EncodeAll(y)[i];
      EncodeInjective(x[i], y[i]);
    }
    assert x == y;
    JoinSplit(a, '/');
    JoinSplit(b, '/');
  }

  // ---- The query -------------------------------------------------------------------------

  /** Decoded parameters: every key with its values, in the order they were given. */
  type Parameters = map<string, seq<string>>

  function PairText(key: string, value: string): string { EncodeKey(key) + ['='] + EncodeKey(value) }

  function ValueTexts(key: string, values: seq<string>): (r: seq<string>)
    ensures |r| == |values| && forall i :: 0 <= i < |r| ==> r[i] == PairText(key, values[i])
  {
    seq(|values|, i requires 0 <= i < |values| => PairText(key, values[i]))
  }

  function Parts(params: Parameters, keys: seq<string>): seq<string>
    requires forall i :: 0 <= i < |keys| ==> keys[i] in params
  {
    if keys == [] then [] else
      Parts(params, keys[..|keys| - 1]) + ValueTexts(keys[|keys| - 1], Sort(params[keys[|keys| - 1]]))
  }

  /** Keys in order, the values of each in order, encoded and joined. */
  function Canonical(params: Parameters): string { Join(Parts(params, SortedKeys(params.Keys)), '&') }

  /** The canonical text of a query; one that does not parse stays as it is. */
  method CanonicalQuery(raw: string, parsed: Option<Parameters>) returns (r: string)
    ensures parsed.None? ==> r == raw
    ensures parsed.Some? ==> r == Canonical(parsed.value)
  {
    hide PairText, Sort, SortedKeys;
    if parsed.None? { return raw; }
    var params := parsed.value;
    var keys := SortedKeys(params.Keys);
    SortedKeysAreKeys(params);
    var parts: seq<string> := [];
    for k := 0 to |keys|
      invariant parts == Parts(params, keys[..k])
    {
      assert keys[k] in params;
      var sorted := Sort(params[keys[k]]);
      for v := 0 to |sorted|
        invariant parts == Parts(params, keys[..k]) + ValueTexts(keys[k], sorted)[..v]
      {
        parts := parts + [PairText(keys[k], sorted[v])];
      }
      assert keys[..k + 1][..k] == keys[..k];
      assert ValueTexts(keys[k], sorted)[..|sorted|] == ValueTexts(keys[k], sorted);
    }
    assert keys[..|keys|] == keys;
    r := Join(parts, '&');
  }

  lemma SortedKeysAreKeys(params: Parameters)
    ensures forall i :: 0 <= i < |SortedKeys(params.Keys)| ==> SortedKeys(params.Keys)[i] in params
  {
    var keys := SortedKeys(params.Keys);
    forall i | 0 <= i < |keys| ensures keys[i] in params { assert keys[i] in keys; }
  }

  /** What reading a query yields: byte strings, and a key only with at least one value. */
  ghost predicate FromQuery(params: Parameters) {
    forall k :: k in params ==> IsBytes(k) && params[k] != [] && forall v :: v in params[k] ==> IsBytes(v)
  }

  /** The same parameters: every key with the same values as often, in whatever order. */
  ghost predicate SameParameters(p: Parameters, q: Parameters) {
    p.Keys == q.Keys && forall k :: k in p ==> multiset(p[k]) == multiset(q[k])
  }

  datatype Pair = Pair(key: string, value: string)

  ghost function PairsOfKey(key: string, values: seq<string>): (r: seq<Pair>)
    ensures |r| == |values| && forall i :: 0 <= i < |r| ==> r[i] == Pair(key, values[i])
  {
    seq(|values|, i requires 0 <= i < |values| => Pair(key, values[i]))
  }

  /** The pairs a query lists, in its order. */
  ghost function Pairs(params: Parameters, keys: seq<string>): seq<Pair>
    requires forall i :: 0 <= i < |keys| ==> keys[i] in params
  {
    if keys == [] then [] else
      Pairs(params, keys[..|keys| - 1]) + PairsOfKey(keys[|keys| - 1], Sort(params[keys[|keys| - 1]]))
  }

  /** The values a list of pairs gives one key. */
  ghost function ValuesFor(pairs: seq<Pair>, key: string): seq<string> {
    if pairs == [] then [] else
      ValuesFor(pairs[..|pairs| - 1], key) + (if pairs[|pairs| - 1].key == key then [pairs[|pairs| - 1].value] else [])
  }

  lemma {:induction false} ValuesForConcat(a: seq<Pair>, b: seq<Pair>, key: string)
    ensures ValuesFor(a + b, key) == ValuesFor(a, key) + ValuesFor(b, key)
  {
    if b == [] {
      assert a + b == a;
      assert ValuesFor(a, key) + [] == ValuesFor(a, key);
    } else {
      assert (a + b)[..|a + b| - 1] == a + b[..|b| - 1];
      ValuesForConcat(a, b[..|b| - 1], key);
    }
  }

  lemma {:induction false} ValuesForOneKey(key: string, values: seq<string>, other: string)
    ensures ValuesFor(PairsOfKey(key, values), other) == if key == other then values else []
  {
    if values == [] {
      NoValues(key, other);
    } else {
      var init, last := values[..|values| - 1], values[|values| - 1];
      PairsOfLast(key, values);
      hide *;
      ValuesForOneKey(key, init, other);
      ValuesForConcat(PairsOfKey(key, init), [Pair(key, last)], other);
      ValuesForPair(Pair(key, last), other);
      assert values == init + [last];
    }
  }

  lemma NoValues(key: string, other: string)
    ensures PairsOfKey(key, []) == [] && ValuesFor([], other) == []
  {
  }

  lemma ValuesForPair(pair: Pair, key: string)
    ensures ValuesFor([pair], key) == if pair.key == key then [pair.value] else []
  {
    assert [pair][..0] == [];
  }

  lemma PairsOfLast(key: string, values: seq<string>)
    requires values != []
    ensures PairsOfKey(key, values) == PairsOfKey(key, values[..|values| - 1]) + [Pair(key, values[|values| - 1])]
  {
  }

  lemma {:induction false} ValuesForKeys(params: Parameters, keys: seq<string>, key: string)
    requires forall i :: 0 <= i < |keys| ==> keys[i] in params
    requires forall i, j :: 0 <= i < j < |keys| ==> keys[i] != keys[j]
    ensures ValuesFor(Pairs(params, keys), key) == if key in keys then Sort(params[key]) else []
  {
    hide *;
    if keys == [] {
      NoPairs(params, key);
    } else {
      var init, last := keys[..|keys| - 1], keys[|keys| - 1];
      var values := Sort(params[last]);
      LastIsApart(keys, key);
      PairsLast(params, keys);
      ValuesForKeys(params, init, key);
      ValuesForConcat(Pairs(params, init), PairsOfKey(last, values), key);
      ValuesForOneKey(last, values, key);
      assert [] + values == values;
      if key in init { assert Sort(params[key]) + [] == Sort(params[key]); }
    }
  }

  lemma NoPairs(params: Parameters, key: string)
    ensures ValuesFor(Pairs(params, []), key) == []
  {
  }

  lemma PairsLast(params: Parameters, keys: seq<string>)
    requires keys != [] && forall i :: 0 <= i < |keys| ==> keys[i] in params
    ensures var last := keys[|keys| - 1];
            Pairs(params, keys) == Pairs(params, keys[..|keys| - 1]) + PairsOfKey(last, Sort(params[last]))
  {
    hide Sort, PairsOfKey;
  }

  lemma LastIsApart(keys: seq<string>, key: string)
    requires keys != [] && forall i, j :: 0 <= i < j < |keys| ==> keys[i] != keys[j]
    ensures var init, last := keys[..|keys| - 1], keys[|keys| - 1];
            last !in init && (key in keys <==> key in init || key == last)
  {
    assert keys == keys[..|keys| - 1] + [keys[|keys| - 1]];
  }

  ghost predicate PairBytes(pairs: seq<Pair>) {
    forall i :: 0 <= i < |pairs| ==> IsBytes(pairs[i].key) && IsBytes(pairs[i].value)
  }

  lemma SortedBytes(values: seq<string>)
    requires forall v :: v in values ==> IsBytes(v)
    ensures |Sort(values)| == |values| && forall i :: 0 <= i < |Sort(values)| ==> IsBytes(Sort(values)[i])
  {
    hide IsBytes, Sort;
    SortSorts(values);
    assert |multiset(Sort(values))| == |multiset(values)|;
    forall i | 0 <= i < |Sort(values)| ensures IsBytes(Sort(values)[i]) {
      assert Sort(values)[i] in multiset(Sort(values));
    }
  }

  /** Every part of a query is the text of one pair. */
  lemma {:induction false} PartsArePairs(params: Parameters, keys: seq<string>)
    requires FromQuery(params) && forall i :: 0 <= i < |keys| ==> keys[i] in params
    ensures var parts, pairs := Parts(params, keys), Pairs(params, keys);
            |parts| == |pairs| && PairBytes(pairs) &&
            forall i :: 0 <= i < |parts| ==> parts[i] == PairText(pairs[i].key, pairs[i].value)
  {
    hide IsBytes, PairText, Sort;
    if keys != [] {
      var last := keys[|keys| - 1];
      PartsArePairs(params, keys[..|keys| - 1]);
      SortedBytes(params[last]);
    }
  }

  lemma PairTextInjective(a: Pair, b: Pair)
    requires IsBytes(a.key) && IsBytes(a.value) && IsBytes(b.key) && IsBytes(b.value)
    requires PairText(a.key, a.value) == PairText(b.key, b.value)
    ensures a == b
  {
    EncodeAvoids(a.key, '=');
    EncodeAvoids(b.key, '=');
    CutUnique(EncodeKey(a.key), EncodeKey(a.value), EncodeKey(b.key), EncodeKey(b.value), '=');
    EncodeInjective(a.key, b.key);
    EncodeInjective(a.value, b.value);
  }

  lemma PairTextAvoids(key: string, value: string)
    requires IsBytes(key) && IsBytes(value)
    ensures '&' !in PairText(key, value) && '=' in PairText(key, value)
  {
    EncodeAvoids(key, '&');
    EncodeAvoids(value, '&');
    assert PairText(key, value)[|EncodeKey(key)|] == '=';
  }

  lemma JoinIsEmpty(parts: seq<string>, sep: char)
    requires forall i :: 0 <= i < |parts| ==> parts[i] != ""
    ensures Join(parts, sep) == "" <==> parts == []
  {
  }

  /** Equal queries list the same pairs in the same order. */
  lemma QueryDeterminesPairs(p: Parameters, x: seq<string>, q: Parameters, y: seq<string>)
    requires FromQuery(p) && forall i :: 0 <= i < |x| ==> x[i] in p
    requires FromQuery(q) && forall i :: 0 <= i < |y| ==> y[i] in q
    requires Join(Parts(p, x), '&') == Join(Parts(q, y), '&')
    ensures Pairs(p, x) == Pairs(q, y)
  {
    hide FromQuery, PairText, Join, Parts, Pairs, IsBytes;
    PartsArePairs(p, x);
    PartsArePairs(q, y);
    var a, b := Parts(p, x), Parts(q, y);
    var c, d := Pairs(p, x), Pairs(q, y);
    forall i | 0 <= i < |a| ensures '&' !in a[i] && a[i] != "" { PairTextAvoids(c[i].key, c[i].value); }
    forall i | 0 <= i < |b| ensures '&' !in b[i] && b[i] != "" { PairTextAvoids(d[i].key, d[i].value); }
    JoinIsEmpty(a, '&');
    JoinIsEmpty(b, '&');
    if a != [] && b != [] { JoinInjective(a, b, '&'); }
    forall i | 0 <= i < |c| ensures c[i] == d[i] { PairTextInjective(c[i], d[i]); }
  }

  lemma {:induction false} SameParts(p: Parameters, q: Parameters, keys: seq<string>)
    requires SameParameters(p, q) && forall i :: 0 <= i < |keys| ==> keys[i] in p
    ensures Parts(p, keys) == Parts(q, keys)
  {
    hide Sort, PairText;
    if keys != [] {
      var last := keys[|keys| - 1];
      SameParts(p, q, keys[..|keys| - 1]);
      SortSorts(p[last]);
      SortSorts(q[last]);
      SortedUnique(Sort(p[last]), Sort(q[last]));
    }
  }

  lemma QueryGivesValues(p: Parameters, q: Parameters, key: string)
    requires FromQuery(p) && FromQuery(q) && Canonical(p) == Canonical(q) && key in p
    ensures key in q && multiset(p[key]) == multiset(q[key])
  {
    var x, y := SortedKeys(p.Keys), SortedKeys(q.Keys);
    SortedKeysAreKeys(p);
    SortedKeysAreKeys(q);
    hide Join, Parts, Pairs, Sort, IsBytes, SortedKeys, ValuesFor;
    QueryDeterminesPairs(p, x, q, y);
    ValuesForKeys(p, x, key);
    ValuesForKeys(q, y, key);
    assert key in x;
    SortSorts(p[key]);
    assert |multiset(Sort(p[key]))| == |multiset(p[key])| == |p[key]| > 0;
    assert key in y <==> key in q;
    if key in q { SortSorts(q[key]); }
  }

  /** The canonical query is a canonical form: two queries get one text exactly when they hold
      the same parameters. */
  lemma CanonicalExactly(p: Parameters, q: Parameters)
    requires FromQuery(p) && FromQuery(q)
    ensures Canonical(p) == Canonical(q) <==> SameParameters(p, q)
  {
    hide FromQuery, Parts, Join, SortedKeys;
    if Canonical(p) == Canonical(q) {
      forall k | k in p ensures k in q && multiset(p[k]) == multiset(q[k]) { QueryGivesValues(p, q, k); }
      forall k | k in q ensures k in p { QueryGivesValues(q, p, k); }
    }
    if SameParameters(p, q) {
      SortedKeysAreKeys(p);
      SameParts(p, q, SortedKeys(p.Keys));
    }
  }

  // ---- What the text says ----------------------------------------------------------------

  /** Letters, digits and four marks stand for themselves; any other byte is a percent sign and its
      two upper-case hexadecimal digits (section 2.1 of RFC 3986). */
  lemma EncodeByteExactly(c: char)
    requires c < '\U{100}'
    ensures 65 <= c as int <= 90 || 97 <= c as int <= 122 || 48 <= c as int <= 57 || c in {'-', '.', '_', '~'} ==>
              EncodeByte(c) == [c]
    ensures !(65 <= c as int <= 90 || 97 <= c as int <= 122 || 48 <= c as int <= 57 || c in {'-', '.', '_', '~'}) ==>
              var s := EncodeByte(c);
              && |s| == 3 && s[0] == '%' && IsUpperHex(s[1]) && IsUpperHex(s[2])
              && 16 * HexDigitValue(s[1], 'A') + HexDigitValue(s[2], 'A') == c as int
  {
    EncodedTriple(c);
    hide Hex, HexDigitValue, IsUpperHex;
  }

  /** The text of a pair, taken apart at its first equals sign and decoded. */
  ghost function ReadPair(text: string): Pair
    requires '=' in text
  {
    var cut := FirstIndex(text, '=');
    Pair(Decode(text[..cut]), Decode(text[cut + 1..]))
  }

  lemma PairReadsBack(key: string, value: string)
    requires IsBytes(key) && IsBytes(value)
    ensures '=' in PairText(key, value) && ReadPair(PairText(key, value)) == Pair(key, value)
  {
    var text, k, v := PairText(key, value), EncodeKey(key), EncodeKey(value);
    EncodeAvoids(key, '=');
    EncodeRoundTrip(key);
    EncodeRoundTrip(value);
    hide EncodeKey, Decode;
    FirstIndexIs(k, v, '=');
    assert text == k + ['='] + v && text[|k|] == '=' && text[..|k|] == k && text[|k| + 1..] == v;
  }

  /** Pairs by key, and those of one key by value. */
  ghost predicate InOrder(pairs: seq<Pair>) {
    forall i, j :: 0 <= i < j < |pairs| ==> Comes(pairs[i], pairs[j])
  }

  ghost predicate Comes(a: Pair, b: Pair) { Less(a.key, b.key) || (a.key == b.key && Leq(a.value, b.value)) }

  ghost predicate Ascending(keys: seq<string>) {
    forall i, j :: 0 <= i < j < |keys| ==> Less(keys[i], keys[j])
  }

  lemma OneKeyInOrder(key: string, values: seq<string>)
    requires Sorted(values)
    ensures InOrder(PairsOfKey(key, values))
  {
    hide Less, Leq;
  }

  lemma {:induction false} PairsHaveKeys(params: Parameters, keys: seq<string>)
    requires forall i :: 0 <= i < |keys| ==> keys[i] in params
    ensures forall i :: 0 <= i < |Pairs(params, keys)| ==> Pairs(params, keys)[i].key in keys
  {
    hide Sort;
    if keys != [] {
      var init := keys[..|keys| - 1];
      PairsHaveKeys(params, init);
      assert keys == init + [keys[|keys| - 1]];
    }
  }

  lemma {:induction false} PairsInOrder(params: Parameters, keys: seq<string>)
    requires forall i :: 0 <= i < |keys| ==> keys[i] in params
    requires Ascending(keys)
    ensures InOrder(Pairs(params, keys))
  {
    hide Less, Sort;
    if keys != [] {
      var init, last := keys[..|keys| - 1], keys[|keys| - 1];
      PairsInOrder(params, init);
      PairsHaveKeys(params, init);
      PairsLast(params, keys);
      SortSorts(params[last]);
      OneKeyInOrder(last, Sort(params[last]));
      var a, b := Pairs(params, init), PairsOfKey(last, Sort(params[last]));
      hide Pairs;
      forall i, j | 0 <= i < |a| && 0 <= j < |b| ensures Comes(a[i], b[j]) {
        var k :| 0 <= k < |init| && init[k] == a[i].key;
        assert Less(keys[k], keys[|keys| - 1]);
      }
    }
  }

  lemma KeysAscend(params: Parameters)
    ensures Ascending(SortedKeys(params.Keys))
  {
    var keys := SortedKeys(params.Keys);
    SortedKeysAscend(params.Keys);
    hide Less;
    forall i, j | 0 <= i < j < |keys| ensures Less(keys[i], keys[j]) {
      assert Leq(keys[i], keys[j]) && keys[i] != keys[j];
      if !Less(keys[i], keys[j]) { LeqAntisymmetric(keys[i], keys[j]); }
    }
  }

  /** The canonical text, split at the ampersands and each part read at its equals sign, lists the
      parameters: every key with its values, by key and then by value. */
  lemma CanonicalReadsBack(params: Parameters)
    requires FromQuery(params) && params != map[]
    ensures var parts, pairs := Split(Canonical(params), '&'), Pairs(params, SortedKeys(params.Keys));
            && |parts| == |pairs| && InOrder(pairs)
            && (forall i :: 0 <= i < |parts| ==> '=' in parts[i] && ReadPair(parts[i]) == pairs[i])
            && forall key ::
                 multiset(ValuesFor(pairs, key)) == if key in params then multiset(params[key]) else multiset{}
  {
    var keys := SortedKeys(params.Keys);
    SortedKeysAreKeys(params);
    hide *;
    KeysAscend(params);
    PairsInOrder(params, keys);
    PartsArePairs(params, keys);
    var parts, pairs := Parts(params, keys), Pairs(params, keys);
    forall i | 0 <= i < |parts|
      ensures '=' in parts[i] && ReadPair(parts[i]) == pairs[i] && '&' !in parts[i]
    {
      BytesOf(pairs, i);
      PairReadsBack(pairs[i].key, pairs[i].value);
      PairTextAvoids(pairs[i].key, pairs[i].value);
      assert Pair(pairs[i].key, pairs[i].value) == pairs[i];
    }
    PartsAreThere(params);
    CanonicalIsJoined(params);
    AvoidsEach(parts, '&');
    SplitJoin(parts, '&');
    forall key
      ensures multiset(ValuesFor(pairs, key)) == if key in params then multiset(params[key]) else multiset{}
    {
      KeysDiffer(params);
      ValuesForKeys(params, keys, key);
      if key in params { SortSorts(params[key]); }
    }
  }

  lemma BytesOf(pairs: seq<Pair>, i: nat)
    requires PairBytes(pairs) && i < |pairs|
    ensures IsBytes(pairs[i].key) && IsBytes(pairs[i].value)
  {
  }

  lemma AvoidsEach(parts: seq<string>, sep: char)
    requires forall i :: 0 <= i < |parts| ==> sep !in parts[i]
    ensures Without(parts, sep)
  {
  }

  lemma CanonicalIsJoined(params: Parameters)
    ensures forall i :: 0 <= i < |SortedKeys(params.Keys)| ==> SortedKeys(params.Keys)[i] in params
    ensures Canonical(params) == Join(Parts(params, SortedKeys(params.Keys)), '&')
  {
    SortedKeysAreKeys(params);
  }

  lemma KeysDiffer(params: Parameters)
    ensures var keys := SortedKeys(params.Keys);
            && (forall i, j :: 0 <= i < j < |keys| ==> keys[i] != keys[j])
            && forall key :: key in keys <==> key in params
  {
  }

  /** A query with parameters has a part. */
  lemma PartsAreThere(params: Parameters)
    requires FromQuery(params) && params != map[]
    ensures forall i :: 0 <= i < |SortedKeys(params.Keys)| ==> SortedKeys(params.Keys)[i] in params
    ensures Parts(params, SortedKeys(params.Keys)) != []
  {
    var keys := SortedKeys(params.Keys);
    SortedKeysAreKeys(params);
    var k :| k in params;
    assert k in keys && keys != [];
    var last := keys[|keys| - 1];
    SortSorts(params[last]);
    assert |multiset(Sort(params[last]))| == |multiset(params[last])| == |params[last]| > 0;
    hide Sort, SortedKeys, PairText;
  }
}
