/** Retention of backups: which base backups stay, and which WAL segments nothing that stays can
    need. */
module Retention {
  import opened Order
  import opened Text
  import opened Wrappers

  const TWO32: nat := 0x1_0000_0000
  const DAY: int := 86_400_000_000_000    // nanoseconds
  const ZERO_TIME: int := 0               // the instant of a date that cannot be read

  /** What a base backup says about itself; `created` is absent when its date cannot be read. */
  datatype Manifest = Manifest(name: string, created: Option<int>, startLSN: string, timeline: nat) {
    function CreatedAt(): int { if created.Some? then created.value else ZERO_TIME }
  }

  // ---- Newest first ----------------------------------------------------------------------

  /** Moves `m` forward past every backup older than it. */
  function Insert(s: seq<Manifest>, m: Manifest): seq<Manifest> {
    if s != [] && m.CreatedAt() > s[|s| - 1].CreatedAt() then Insert(s[..|s| - 1], m) + [s[|s| - 1]] else s + [m]
  }

  function NewestFirst(s: seq<Manifest>): seq<Manifest> {
    if s == [] then [] else Insert(NewestFirst(s[..|s| - 1]), s[|s| - 1])
  }

  ghost predicate Descending(s: seq<Manifest>) {
    forall i, j :: 0 <= i < j < |s| ==> s[i].CreatedAt() >= s[j].CreatedAt()
  }

  /** The backups of one instant, in order. */
  function At(s: seq<Manifest>, t: int): seq<Manifest> {
    if s == [] then [] else At(s[..|s| - 1], t) + if s[|s| - 1].CreatedAt() == t then [s[|s| - 1]] else []
  }

  lemma {:induction false} InsertKeeps(s: seq<Manifest>, m: Manifest)
    ensures multiset(Insert(s, m)) == multiset(s) + multiset{m}
  {
    if s != [] && m.CreatedAt() > s[|s| - 1].CreatedAt() {
      var before, last := s[..|s| - 1], s[|s| - 1];
      InsertKeeps(before, m);
      assert s == before + [last];
    }
  }

  lemma InsertMembers(s: seq<Manifest>, m: Manifest, x: Manifest)
    requires x in Insert(s, m)
    ensures x == m || x in s
  {
    InsertKeeps(s, m);
    assert x in multiset(Insert(s, m));
  }

  lemma AppendDescends(s: seq<Manifest>, m: Manifest)
    requires Descending(s) && forall x :: x in s ==> x.CreatedAt() >= m.CreatedAt()
    ensures Descending(s + [m])
  {
  }

  lemma {:induction false} InsertSorts(s: seq<Manifest>, m: Manifest)
    requires Descending(s)
    ensures Descending(Insert(s, m))
  {
    if s != [] && m.CreatedAt() > s[|s| - 1].CreatedAt() {
      var before, last := s[..|s| - 1], s[|s| - 1];
      InsertSorts(before, m);
      forall x | x in Insert(before, m) ensures x.CreatedAt() >= last.CreatedAt() { InsertMembers(before, m, x); }
      AppendDescends(Insert(before, m), last);
    } else {
      AppendDescends(s, m);
    }
  }

  lemma {:induction false} AtAppend(s: seq<Manifest>, m: Manifest, t: int)
    ensures At(s + [m], t) == At(s, t) + if m.CreatedAt() == t then [m] else []
  {
    assert (s + [m])[..|s|] == s;
  }

  lemma {:induction false} AtIsLater(s: seq<Manifest>, t: int)
    requires forall i :: 0 <= i < |s| ==> s[i].CreatedAt() != t
    ensures At(s, t) == []
  {
    if s != [] { AtIsLater(s[..|s| - 1], t); }
  }

  lemma {:induction false} InsertIsStable(s: seq<Manifest>, m: Manifest, t: int)
    ensures At(Insert(s, m), t) == At(s, t) + if m.CreatedAt() == t then [m] else []
  {
    if s != [] && m.CreatedAt() > s[|s| - 1].CreatedAt() {
      var before, last := s[..|s| - 1], s[|s| - 1];
      InsertIsStable(before, m, t);
      AtAppend(Insert(before, m), last, t);
    } else {
      AtAppend(s, m, t);
    }
  }

  lemma NewestFirstLast(s: seq<Manifest>)
    ensures s != [] ==> NewestFirst(s) == Insert(NewestFirst(s[..|s| - 1]), s[|s| - 1])
    ensures s == [] ==> NewestFirst(s) == s
  {
    hide Insert;
  }

  lemma LastApart(s: seq<Manifest>)
    requires s != []
    ensures multiset(s) == multiset(s[..|s| - 1]) + multiset{s[|s| - 1]}
  {
    assert s == s[..|s| - 1] + [s[|s| - 1]];
  }

  lemma {:induction false} NewestFirstKeeps(s: seq<Manifest>)
    ensures multiset(NewestFirst(s)) == multiset(s)
  {
    hide *;
    NewestFirstLast(s);
    if s != [] {
      var before, last := s[..|s| - 1], s[|s| - 1];
      NewestFirstLast(s);
      NewestFirstKeeps(before);
      InsertKeeps(NewestFirst(before), last);
      LastApart(s);
    }
  }

  lemma {:induction false} NewestFirstSorts(s: seq<Manifest>)
    ensures Descending(NewestFirst(s))
  {
    if s != [] {
      NewestFirstSorts(s[..|s| - 1]);
      InsertSorts(NewestFirst(s[..|s| - 1]), s[|s| - 1]);
    }
  }

  /** The order is stable: the backups of one instant stay in the order they were given. */
  lemma {:induction false} NewestFirstIsStable(s: seq<Manifest>, t: int)
    ensures At(NewestFirst(s), t) == At(s, t)
  {
    if s != [] {
      NewestFirstIsStable(s[..|s| - 1], t);
      InsertIsStable(NewestFirst(s[..|s| - 1]), s[|s| - 1], t);
    }
  }

  lemma {:induction false} InsertPastSuffix(s: seq<Manifest>, m: Manifest, j: nat)
    requires j < |s| && forall k :: j <= k < |s| ==> m.CreatedAt() > s[k].CreatedAt()
    ensures Insert(s, m) == Insert(s[..j], m) + s[j..]
  {
    var before, last := s[..|s| - 1], s[|s| - 1];
    if j < |s| - 1 {
      InsertPastSuffix(before, m, j);
      assert before[..j] == s[..j] && before[j..] + [last] == s[j..];
    } else {
      assert s[..j] == before && s[j..] == [last];
    }
  }

  /** Swaps the backup at `i` towards the front while it is newer than its neighbour. */
  method Rise(a: array<Manifest>, i: nat)
    requires i < a.Length
    modifies a
    ensures a[..i + 1] == Insert(old(a[..i]), old(a[i])) && a[i + 1..] == old(a[i + 1..])
  {
    hide Insert, Manifest.CreatedAt;
    ghost var sorted, m := a[..i], a[i];
    var j := i;
    while j > 0
      invariant 0 <= j <= i
      invariant a[j] == m && forall k :: 0 <= k < j ==> a[k] == sorted[k]
      invariant forall k :: j < k <= i ==> a[k] == sorted[k - 1]
      invariant forall k :: i < k < a.Length ==> a[k] == old(a[k])
      invariant forall k :: j <= k < i ==> m.CreatedAt() > sorted[k].CreatedAt()
    {
      var earlier, later := a[j - 1].CreatedAt(), a[j].CreatedAt();
      if later <= earlier { break; }
      a[j - 1], a[j] := a[j], a[j - 1];
      j := j - 1;
    }
    Placed(sorted, m, j);
    assert a[..i + 1] == sorted[..j] + [m] + sorted[j..];
  }

  /** The in-place sort. */
  method SortNewestFirst(a: array<Manifest>)
    modifies a
    ensures a[..] == NewestFirst(old(a[..]))
  {
    ghost var was := a[..];
    NewestFirstOfOne(was);
    hide Insert, NewestFirst;
    if a.Length == 0 { return; }
    for i := 1 to a.Length
      invariant a[..i] == NewestFirst(was[..i]) && a[i..] == was[i..]
    {
      assert a[i] == a[i..][0] == was[i] && a[i + 1..] == a[i..][1..];
      NewestFirstStep(was, i);
      Rise(a, i);
    }
    assert was[..a.Length] == was && a[..a.Length] == a[..];
  }

  lemma NewestFirstOfOne(s: seq<Manifest>)
    ensures if s == [] then NewestFirst(s) == [] else NewestFirst(s[..1]) == s[..1]
  {
    if s != [] { assert s[..1][..0] == []; }
  }

  lemma NewestFirstStep(s: seq<Manifest>, i: nat)
    requires i < |s|
    ensures NewestFirst(s[..i + 1]) == Insert(NewestFirst(s[..i]), s[i])
  {
    assert s[..i + 1][..i] == s[..i];
  }

  lemma Placed(s: seq<Manifest>, m: Manifest, j: nat)
    requires j <= |s| && (forall k :: j <= k < |s| ==> m.CreatedAt() > s[k].CreatedAt())
    requires j > 0 ==> m.CreatedAt() <= s[j - 1].CreatedAt()
    ensures Insert(s, m) == s[..j] + [m] + s[j..]
  {
    if j < |s| {
      InsertPastSuffix(s, m, j);
      assert Insert(s[..j], m) == s[..j] + [m];
    } else {
      assert s[..j] == s && s[j..] == [];
    }
  }

  // ---- Which backups stay ----------------------------------------------------------------

  function Cutoff(now: int, keepDays: int): int { now - keepDays * DAY }

  predicate Stays(m: Manifest, index: nat, cutoff: int, keepMin: int) { index < keepMin || m.CreatedAt() > cutoff }

  /** How many of the sorted backups stay: the floor, or all that are newer than the cutoff. */
  function KeptCount(sorted: seq<Manifest>, cutoff: int, keepMin: int): (k: nat)
    ensures k <= |sorted|
  {
    if sorted == [] then 0
    else if Stays(sorted[|sorted| - 1], |sorted| - 1, cutoff, keepMin) then |sorted|
    else KeptCount(sorted[..|sorted| - 1], cutoff, keepMin)
  }

  lemma {:induction false} KeptCountSplits(sorted: seq<Manifest>, cutoff: int, keepMin: int, i: nat)
    requires Descending(sorted) && i < |sorted|
    ensures Stays(sorted[i], i, cutoff, keepMin) <==> i < KeptCount(sorted, cutoff, keepMin)
  {
    if !Stays(sorted[|sorted| - 1], |sorted| - 1, cutoff, keepMin) && i < |sorted| - 1 {
      KeptCountSplits(sorted[..|sorted| - 1], cutoff, keepMin, i);
    }
  }

  /** The split of a sorted list, one backup at a time. */
  method Divide(sorted: seq<Manifest>, cutoff: int, keepMin: int) returns (keep: seq<Manifest>, remove: seq<Manifest>)
    requires Descending(sorted)
    ensures var k := KeptCount(sorted, cutoff, keepMin); keep == sorted[..k] && remove == sorted[k..]
  {
    ghost var k := KeptCount(sorted, cutoff, keepMin);
    hide KeptCount, Descending;
    keep, remove := [], [];
    for index := 0 to |sorted|
      invariant index <= k ==> keep == sorted[..index] && remove == []
      invariant index > k ==> keep == sorted[..k] && remove == sorted[k..index]
    {
      KeptCountSplits(sorted, cutoff, keepMin, index);
      if Stays(sorted[index], index, cutoff, keepMin) {
        assert sorted[..index + 1] == sorted[..index] + [sorted[index]];
        keep := keep + [sorted[index]];
      } else {
        assert sorted[k..index + 1] == sorted[k..index] + [sorted[index]];
        assert index == k ==> sorted[k..index] == [];
        remove := remove + [sorted[index]];
      }
    }
    assert sorted[k..|sorted|] == sorted[k..];
  }

  /** Splits the backups: what stays is the front of the stable newest-first order, what goes is
      the rest of it. */
  method SelectBackups(manifests: seq<Manifest>, now: int, keepDays: int, keepMin: int)
    returns (keep: seq<Manifest>, remove: seq<Manifest>)
    ensures var k := KeptCount(NewestFirst(manifests), Cutoff(now, keepDays), keepMin);
            keep == NewestFirst(manifests)[..k] && remove == NewestFirst(manifests)[k..]
  {
    var a := new Manifest[|manifests|](i requires 0 <= i < |manifests| => manifests[i]);
    assert a[..] == manifests;
    SortNewestFirst(a);
    NewestFirstSorts(manifests);
    keep, remove := Divide(a[..], Cutoff(now, keepDays), keepMin);
  }

  /** What the split promises: nothing is lost or duplicated; everything newer than the cutoff
      stays, and at least the floor does; nothing that goes is newer than anything that stays. */
  lemma SelectionKeeps(manifests: seq<Manifest>, now: int, keepDays: int, keepMin: int)
    ensures var sorted := NewestFirst(manifests);
            var k := KeptCount(sorted, Cutoff(now, keepDays), keepMin);
            var keep, remove := sorted[..k], sorted[k..];
            && multiset(keep) + multiset(remove) == multiset(manifests)
            && (remove != [] ==> |keep| >= keepMin)
            && (forall i :: 0 <= i < |remove| ==> remove[i].CreatedAt() <= Cutoff(now, keepDays))
            && (forall i, j :: 0 <= i < |remove| && 0 <= j < |keep| ==> remove[i].CreatedAt() <= keep[j].CreatedAt())
  {
    NewestFirstSorts(manifests);
    NewestFirstKeeps(manifests);
    hide NewestFirst;
    var sorted := NewestFirst(manifests);
    var cutoff := Cutoff(now, keepDays);
    var k := KeptCount(sorted, cutoff, keepMin);
    assert sorted == sorted[..k] + sorted[k..];
    forall i | k <= i < |sorted|
      ensures !Stays(sorted[i], i, cutoff, keepMin)
    {
      KeptCountSplits(sorted, cutoff, keepMin, i);
    }
    assert k < |sorted| ==> !Stays(sorted[k], k, cutoff, keepMin);
    hide KeptCount;
  }

  /** Which backups stay, in days of 24 hours: by their place in the order, the newest `keepMin`, and
      all that are younger than `keepDays` days. One whose date cannot be read counts as the oldest
      there is. */
  lemma KeptExactly(manifests: seq<Manifest>, now: int, keepDays: int, keepMin: int, i: nat)
    requires i < |NewestFirst(manifests)|
    ensures var m := NewestFirst(manifests)[i];
            i < KeptCount(NewestFirst(manifests), Cutoff(now, keepDays), keepMin) <==>
            i < keepMin || (if m.created.Some? then m.created.value else 0) > now - keepDays * 24 * 3600 * 1_000_000_000
  {
    NewestFirstSorts(manifests);
    KeptCountSplits(NewestFirst(manifests), Cutoff(now, keepDays), keepMin, i);
  }

  /** Keeping for longer, or keeping more, never removes more. */
  lemma {:induction false} RaisingAKnobKeepsMore(sorted: seq<Manifest>, cutoff: int, earlier: int, keepMin: int,
      more: int)
    requires earlier <= cutoff && keepMin <= more
    ensures KeptCount(sorted, cutoff, keepMin) <= KeptCount(sorted, earlier, more)
  {
    if sorted != [] { RaisingAKnobKeepsMore(sorted[..|sorted| - 1], cutoff, earlier, keepMin, more); }
  }

  // ---- Segments --------------------------------------------------------------------------

  /** The value of one hexadecimal digit of either case. */
  function DigitOf(c: char): Option<nat> {
    if '0' <= c <= '9' then Some((c - '0') as nat)
    else if 'a' <= c <= 'f' then Some((c - 'a') as nat + 10)
    else if 'A' <= c <= 'F' then Some((c - 'A') as nat + 10)
    else None
  }

  function HexValue(s: string): Option<nat> {
    if s == "" then Some(0) else
      match (HexValue(s[..|s| - 1]), DigitOf(s[|s| - 1]))
      case (Some(n), Some(d)) => Some(16 * n + d)
      case _ => None
  }

  /** `strconv.ParseUint(s, 16, 32)`. */
  function ParseHex32(s: string): Option<nat> {
    if s == "" then None else
      match HexValue(s)
      case Some(n) => if n < TWO32 then Some(n) else None
      case None => None
  }

  /** The name of a 16 MiB segment: timeline, log and segment, eight upper-case digits each. */
  function SegmentName(timeline: nat, log: nat, offset: nat): string {
    Hex(timeline, 8, 'A') + Hex(log, 8, 'A') + Hex(offset / 0x100_0000, 8, 'A')
  }

  datatype Refusal = NotALSN | NothingKept | NoStart | NoTimeline | NoBackup

  function SegmentOfLSN(timeline: nat, lsn: string): Result<string, Refusal> {
    var text := TrimSpace(lsn);
    if '/' !in text then Err(NotALSN) else
      var cut := FirstIndex(text, '/');
      match (ParseHex32(text[..cut]), ParseHex32(text[cut + 1..]))
      case (Some(log), Some(offset)) => Ok(SegmentName(timeline, log, offset))
      case _ => Err(NotALSN)
  }

  /** Exactly 24 upper-case hexadecimal digits. */
  predicate ValidSegmentName(name: string) { |name| == 24 && forall i :: 0 <= i < |name| ==> IsUpperHex(name[i]) }

  lemma {:induction false} HexIsUpper(n: nat, width: nat)
    ensures forall i :: 0 <= i < width ==> IsUpperHex(Hex(n, width, 'A')[i])
  {
    if width > 0 { HexIsUpper(n / 16, width - 1); }
  }

  /** Every name the conversion gives is one the policy compares. */
  lemma SegmentOfLSNIsValid(timeline: nat, lsn: string)
    requires SegmentOfLSN(timeline, lsn).Ok?
    ensures ValidSegmentName(SegmentOfLSN(timeline, lsn).value)
  {
    var text := TrimSpace(lsn);
    var cut := FirstIndex(text, '/');
    var log, offset := ParseHex32(text[..cut]).value, ParseHex32(text[cut + 1..]).value;
    HexIsUpper(timeline, 8);
    HexIsUpper(log, 8);
    HexIsUpper(offset / 0x100_0000, 8);
  }

  lemma DigitOrder(c: nat, d: nat, x: string, y: string)
    requires c < 16 && d < 16
    ensures Less([HexDigit(c, 'A')] + x, [HexDigit(d, 'A')] + y) <==> c < d || (c == d && Less(x, y))
  {
    var a, b := [HexDigit(c, 'A')] + x, [HexDigit(d, 'A')] + y;
    assert a[1..] == x && b[1..] == y;
    hide Hex;
  }

  /** The byte order of equally wide hexadecimal numbers is their numeric order. */
  lemma {:induction false} HexOrder(m: nat, n: nat, width: nat, x: string, y: string)
    requires m < Pow16(width) && n < Pow16(width)
    ensures Less(Hex(m, width, 'A') + x, Hex(n, width, 'A') + y) <==> m < n || (m == n && Less(x, y))
  {
    hide Less, HexDigit;
    if width == 0 {
      assert Hex(m, 0, 'A') + x == x && Hex(n, 0, 'A') + y == y;
    } else {
      var c, d := [HexDigit(m % 16, 'A')] + x, [HexDigit(n % 16, 'A')] + y;
      assert Hex(m, width, 'A') + x == Hex(m / 16, width - 1, 'A') + c;
      assert Hex(n, width, 'A') + y == Hex(n / 16, width - 1, 'A') + d;
      HexOrder(m / 16, n / 16, width - 1, c, d);
      DigitOrder(m % 16, n % 16, x, y);
    }
  }

  lemma Pow16Of8()
    ensures Pow16(8) == TWO32
  {
    assert Pow16(2) == 256 && Pow16(4) == 256 * Pow16(2) && Pow16(6) == 256 * Pow16(4) && Pow16(8) == 256 * Pow16(6);
  }

  /** (timeline, log, segment) before (timeline, log, segment). */
  predicate Precedes(t: nat, l: nat, o: nat, u: nat, m: nat, p: nat) {
    t < u || (t == u && (l < m || (l == m && o / 0x100_0000 < p / 0x100_0000)))
  }

  /** Comparing names as strings compares the positions in the log they name. */
  lemma SegmentOrder(t: nat, l: nat, o: nat, u: nat, m: nat, p: nat)
    requires t < TWO32 && l < TWO32 && o < TWO32 && u < TWO32 && m < TWO32 && p < TWO32
    ensures Less(SegmentName(t, l, o), SegmentName(u, m, p)) <==> Precedes(t, l, o, u, m, p)
  {
    hide Less, Hex;
    Pow16Of8();
    var a, b := Hex(o / 0x100_0000, 8, 'A'), Hex(p / 0x100_0000, 8, 'A');
    assert SegmentName(t, l, o) == Hex(t, 8, 'A') + (Hex(l, 8, 'A') + (a + ""));
    assert SegmentName(u, m, p) == Hex(u, 8, 'A') + (Hex(m, 8, 'A') + (b + ""));
    HexOrder(t, u, 8, Hex(l, 8, 'A') + (a + ""), Hex(m, 8, 'A') + (b + ""));
    HexOrder(l, m, 8, a + "", b + "");
    HexOrder(o / 0x100_0000, p / 0x100_0000, 8, "", "");
    assert !Less("", "") by { LeqReflexive(""); }
  }

  // ---- Names and positions ---------------------------------------------------------------

  /** Digits of either case are read back to the number they were written for. */
  lemma {:induction false} HexReadsBack(n: nat, width: nat, ten: char)
    requires (ten == 'a' || ten == 'A') && n < Pow16(width)
    ensures HexValue(Hex(n, width, ten)) == Some(n)
  {
    if width > 0 {
      assert Hex(n, width, ten) == Hex(n / 16, width - 1, ten) + [HexDigit(n % 16, ten)];
      assert n / 16 < Pow16(width - 1);
      hide *;
      HexReadsBack(n / 16, width - 1, ten);
      DigitReadsBack(n % 16, ten);
      HexValueLast(Hex(n / 16, width - 1, ten), HexDigit(n % 16, ten));
    }
  }

  lemma HexValueLast(s: string, c: char)
    requires HexValue(s).Some? && DigitOf(c).Some?
    ensures HexValue(s + [c]) == Some(16 * HexValue(s).value + DigitOf(c).value)
  {
    assert (s + [c])[..|s|] == s;
    hide DigitOf;
  }

  lemma DigitReadsBack(d: nat, ten: char)
    requires (ten == 'a' || ten == 'A') && d < 16
    ensures DigitOf(HexDigit(d, ten)) == Some(d)
  {
  }

  /** Upper-case digits are what their number is written as. */
  lemma {:induction false} HexWritesBack(s: string)
    requires forall i :: 0 <= i < |s| ==> IsUpperHex(s[i])
    ensures HexValue(s).Some? && HexValue(s).value < Pow16(|s|) && Hex(HexValue(s).value, |s|, 'A') == s
  {
    if s != "" {
      var front, last := s[..|s| - 1], s[|s| - 1];
      HexWritesBack(front);
      assert IsUpperHex(last) && DigitOf(last).Some? && HexDigit(DigitOf(last).value, 'A') == last;
      assert HexValue(s).value / 16 == HexValue(front).value && HexValue(s).value % 16 == DigitOf(last).value;
      assert s == front + [last];
    }
  }

  /** Text that is read as a number is made of digits, and text that is not is not. */
  lemma {:induction false} HexValueExactly(s: string)
    ensures HexValue(s).Some? <==>
            forall i :: 0 <= i < |s| ==> '0' <= s[i] <= '9' || 'a' <= s[i] <= 'f' || 'A' <= s[i] <= 'F'
  {
    if s != "" {
      HexValueExactly(s[..|s| - 1]);
      assert DigitOf(s[|s| - 1]).Some? <==>
             '0' <= s[|s| - 1] <= '9' || 'a' <= s[|s| - 1] <= 'f' || 'A' <= s[|s| - 1] <= 'F';
      assert forall i :: 0 <= i < |s| - 1 ==> s[..|s| - 1][i] == s[i];
    }
  }

  /** What a name says: timeline, log and the number of its 16 MiB segment. */
  datatype Named = Named(timeline: nat, log: nat, segment: nat)

  /** Whether 24 upper-case digits are read as these three numbers. */
  predicate ReadsAs(name: string, n: Named) {
    |name| == 24 && (forall i :: 0 <= i < 24 ==> '0' <= name[i] <= '9' || 'A' <= name[i] <= 'F') &&
    HexValue(name[..8]) == Some(n.timeline) && HexValue(name[8..16]) == Some(n.log) &&
    HexValue(name[16..]) == Some(n.segment)
  }

  /** The name of a position reads back: as its timeline, its log, and the 16 MiB that hold it. */
  lemma SegmentReadsBack(timeline: nat, log: nat, offset: nat)
    requires timeline < 0x1_0000_0000 && log < 0x1_0000_0000 && offset < 0x1_0000_0000
    ensures exists n: Named ::
              && ReadsAs(SegmentName(timeline, log, offset), n) && n.timeline == timeline && n.log == log
              && n.segment * 16 * 1024 * 1024 <= offset < (n.segment + 1) * 16 * 1024 * 1024
  {
    var segment := offset / 0x100_0000;
    var name := SegmentName(timeline, log, offset);
    Pow16Of8();
    HexReadsBack(timeline, 8, 'A');
    HexReadsBack(log, 8, 'A');
    HexReadsBack(segment, 8, 'A');
    HexIsUpper(timeline, 8);
    HexIsUpper(log, 8);
    HexIsUpper(segment, 8);
    hide Hex, HexValue, Pow16;
    assert name[..8] == Hex(timeline, 8, 'A') && name[8..16] == Hex(log, 8, 'A') && name[16..] == Hex(segment, 8, 'A');
    assert forall i :: 0 <= i < 24 ==>
             name[i] == if i < 8 then name[..8][i] else if i < 16 then name[8..16][i - 8] else name[16..][i - 16];
    assert ReadsAs(name, Named(timeline, log, segment));
  }

  /** A name that is compared reads as three numbers and is what they are written as. */
  lemma ValidNameReads(name: string) returns (n: Named)
    requires ValidSegmentName(name)
    ensures ReadsAs(name, n) && n.timeline < TWO32 && n.log < TWO32 && n.segment < TWO32
    ensures name == Hex(n.timeline, 8, 'A') + (Hex(n.log, 8, 'A') + (Hex(n.segment, 8, 'A') + ""))
  {
    Pow16Of8();
    hide Hex, HexValue, Pow16;
    var a, b, c := name[..8], name[8..16], name[16..];
    HexWritesBack(a);
    HexWritesBack(b);
    HexWritesBack(c);
    n := Named(HexValue(a).value, HexValue(b).value, HexValue(c).value);
    assert name == a + (b + (c + ""));
  }

  lemma ReadsAsOne(name: string, m: Named, n: Named)
    requires ReadsAs(name, m) && ReadsAs(name, n)
    ensures m == n
  {
  }

  /** Names are ordered like what they say. */
  lemma NameOrder(a: string, b: string, m: Named, n: Named)
    requires ValidSegmentName(a) && ValidSegmentName(b) && ReadsAs(a, m) && ReadsAs(b, n)
    ensures Less(a, b) <==>
            m.timeline < n.timeline ||
            (m.timeline == n.timeline && (m.log < n.log || (m.log == n.log && m.segment < n.segment)))
  {
    hide Less, Hex, HexValue;
    Pow16Of8();
    var x := ValidNameReads(a);
    var y := ValidNameReads(b);
    ReadsAsOne(a, m, x);
    ReadsAsOne(b, n, y);
    HexOrder(m.timeline, n.timeline, 8, Hex(m.log, 8, 'A') + (Hex(m.segment, 8, 'A') + ""),
             Hex(n.log, 8, 'A') + (Hex(n.segment, 8, 'A') + ""));
    HexOrder(m.log, n.log, 8, Hex(m.segment, 8, 'A') + "", Hex(n.segment, 8, 'A') + "");
    HexOrder(m.segment, n.segment, 8, "", "");
    assert !Less("", "") by { LeqReflexive(""); }
  }

  /** All the 16 MiB of the segment come before the position. */
  predicate LiesBefore(n: Named, p: Start) {
    n.timeline < p.timeline ||
    (n.timeline == p.timeline &&
     (n.log < p.log || (n.log == p.log && (n.segment + 1) * 16 * 1024 * 1024 <= p.offset)))
  }

  // ---- The WAL floor ---------------------------------------------------------------------

  /** The first of the oldest. */
  function Oldest(keep: seq<Manifest>): Manifest
    requires keep != []
  {
    if |keep| == 1 then keep[0] else
      var oldest := Oldest(keep[..|keep| - 1]);
      if keep[|keep| - 1].CreatedAt() < oldest.CreatedAt() then keep[|keep| - 1] else oldest
  }

  lemma {:induction false} OldestIsOldest(keep: seq<Manifest>)
    requires keep != []
    ensures Oldest(keep) in keep && forall i :: 0 <= i < |keep| ==> Oldest(keep).CreatedAt() <= keep[i].CreatedAt()
  {
    if |keep| > 1 { OldestIsOldest(keep[..|keep| - 1]); }
  }

  /** The segment a backup needs to be restored, if it says. */
  function StartSegment(m: Manifest): Result<string, Refusal> {
    if m.startLSN == "" then Err(NoStart) else if m.timeline == 0 then Err(NoTimeline)
    else SegmentOfLSN(m.timeline, m.startLSN)
  }

  /** The retention floor. */
  method OldestSegmentOf(keep: seq<Manifest>) returns (r: Result<string, Refusal>)
    ensures r == if keep == [] then Err(NothingKept) else StartSegment(Oldest(keep))
  {
    if keep == [] { return Err(NothingKept); }
    var oldest := keep[0];
    assert keep[..1] == [keep[0]];
    for i := 1 to |keep|
      invariant oldest == Oldest(keep[..i])
    {
      assert keep[..i + 1][..i] == keep[..i];
      if keep[i].CreatedAt() < oldest.CreatedAt() { oldest := keep[i]; }
    }
    assert keep[..|keep|] == keep;
    if oldest.startLSN == "" { return Err(NoStart); }
    if oldest.timeline == 0 { return Err(NoTimeline); }
    r := SegmentOfLSN(oldest.timeline, oldest.startLSN);
  }

  /** Which of the archived names go: segments, and only those before the floor. */
  function Pruned(names: seq<string>, floor: string): seq<string> {
    if names == [] then [] else
      Pruned(names[..|names| - 1], floor) +
      if ValidSegmentName(names[|names| - 1]) && Less(names[|names| - 1], floor) then [names[|names| - 1]] else []
  }

  lemma {:induction false} PrunedExact(names: seq<string>, floor: string, name: string)
    ensures name in Pruned(names, floor) <==> name in names && ValidSegmentName(name) && Less(name, floor)
  {
    hide Less, ValidSegmentName;
    if names != [] {
      PrunedExact(names[..|names| - 1], floor, name);
      assert names == names[..|names| - 1] + [names[|names| - 1]];
    }
  }

  /** The WAL names that are deleted for a set of base backups and a listing of the archive. */
  method PruneWAL(manifests: seq<Manifest>, names: seq<string>, now: int, keepDays: int, keepMin: int)
      returns (r: Result<seq<string>, Refusal>, ghost keep: seq<Manifest>)
    ensures keep == NewestFirst(manifests)[..KeptCount(NewestFirst(manifests), Cutoff(now, keepDays), keepMin)]
    ensures manifests == [] ==> r == Err(NoBackup)
    ensures manifests != [] && keep == [] ==> r == Err(NothingKept)
    ensures keep != [] ==> var floor := StartSegment(Oldest(keep));
                           r == if floor.Ok? then Ok(Pruned(names, floor.value)) else Err(floor.error)
    ensures r.Ok? ==> keep != [] && StartOf(Oldest(keep)).Some?
    ensures r.Ok? && Oldest(keep).timeline < 0x1_0000_0000 ==>
              forall name :: name in r.value <==>
                name in names && exists n: Named :: ReadsAs(name, n) && LiesBefore(n, StartOf(Oldest(keep)).value)
  {
    var kept, removed := SelectBackups(manifests, now, keepDays, keepMin);
    keep := kept;
    if manifests == [] { return Err(NoBackup), keep; }
    var floor := OldestSegmentOf(kept);
    if floor.Err? { return Err(floor.error), keep; }
    var deleted: seq<string> := [];
    for i := 0 to |names|
      invariant deleted == Pruned(names[..i], floor.value)
    {
      assert names[..i + 1][..i] == names[..i];
      if ValidSegmentName(names[i]) && Less(names[i], floor.value) { deleted := deleted + [names[i]]; }
    }
    assert names[..|names|] == names;
    r := Ok(deleted);
    SegmentIsStart(Oldest(keep));
    hide *;
    if Oldest(keep).timeline < 0x1_0000_0000 {
      forall name ensures name in r.value <==>
                            name in names &&
                            exists n: Named :: ReadsAs(name, n) && LiesBefore(n, StartOf(Oldest(keep)).value)
      {
        PrunedByPosition(names, Oldest(keep), name);
      }
    }
  }

  lemma SegmentIsStart(m: Manifest)
    ensures StartSegment(m).Ok? <==> StartOf(m).Some?
  {
    hide HexValue, TrimSpace, FirstIndex, SegmentName;
  }

  /** No kept backup that says where it starts needs a segment before the floor. */
  ghost predicate FloorHolds(keep: seq<Manifest>, floor: string) {
    forall i :: 0 <= i < |keep| && StartSegment(keep[i]).Ok? ==> Leq(floor, StartSegment(keep[i]).value)
  }

  /** Every name deleted from the archive strictly precedes what every kept backup starts from. */
  ghost predicate PruningIsSafe(keep: seq<Manifest>, floor: string, names: seq<string>) {
    forall name, i :: name in Pruned(names, floor) && 0 <= i < |keep| && StartSegment(keep[i]).Ok? ==>
      Less(name, StartSegment(keep[i]).value)
  }

  /** Pruning is safe for every archive exactly when no kept backup starts before the floor. */
  lemma SafeExactly(keep: seq<Manifest>, floor: string)
    ensures FloorHolds(keep, floor) <==> forall names :: PruningIsSafe(keep, floor, names)
  {
    hide Less, Pruned, StartSegment, ValidSegmentName;
    if FloorHolds(keep, floor) {
      forall names ensures PruningIsSafe(keep, floor, names) {
        forall name, i | name in Pruned(names, floor) && 0 <= i < |keep| && StartSegment(keep[i]).Ok?
          ensures Less(name, StartSegment(keep[i]).value)
        {
          PrunedExact(names, floor, name);
          LessLeqTransitive(name, floor, StartSegment(keep[i]).value);
        }
      }
    }
    if !FloorHolds(keep, floor) {
      var i :| 0 <= i < |keep| && StartSegment(keep[i]).Ok? && !Leq(floor, StartSegment(keep[i]).value);
      var segment := StartSegment(keep[i]).value;
      StartSegmentIsValid(keep[i]);
      PrunedExact([segment], floor, segment);
      LeqReflexive(segment);
      assert !PruningIsSafe(keep, floor, [segment]);
    }
  }

  lemma LessLeqTransitive(a: string, b: string, c: string)
    requires Less(a, b) && Leq(b, c)
    ensures Less(a, c)
  {
    if !Less(a, c) { LeqTransitive(b, c, a); }
  }

  lemma StartSegmentIsValid(m: Manifest)
    requires StartSegment(m).Ok?
    ensures ValidSegmentName(StartSegment(m).value)
  {
    SegmentOfLSNIsValid(m.timeline, m.startLSN);
  }

  /** Where a backup starts in the log, if it says. */
  datatype Start = Start(timeline: nat, log: nat, offset: nat)

  function StartOf(m: Manifest): Option<Start> {
    var text := TrimSpace(m.startLSN);
    if m.startLSN == "" || m.timeline == 0 || '/' !in text then None else
      var cut := FirstIndex(text, '/');
      match (ParseHex32(text[..cut]), ParseHex32(text[cut + 1..]))
      case (Some(log), Some(offset)) => Some(Start(m.timeline, log, offset))
      case _ => None
  }

  /** A backup created no later than another started no later in the log: (timeline, LSN) is
      monotone in creation time, ties included. */
  ghost predicate StartsInOrder(keep: seq<Manifest>) {
    forall i, j :: 0 <= i < |keep| && 0 <= j < |keep| && keep[i].CreatedAt() <= keep[j].CreatedAt() ==>
      !StartsBefore(keep[j], keep[i])
  }

  ghost predicate StartsBefore(a: Manifest, b: Manifest) {
    StartOf(a).Some? && StartOf(b).Some? &&
    var s, t := StartOf(a).value, StartOf(b).value;
    Precedes(s.timeline, s.log, s.offset, t.timeline, t.log, t.offset)
  }

  lemma StartSegmentOrder(a: Manifest, b: Manifest)
    requires a.timeline < TWO32 && b.timeline < TWO32 && StartSegment(a).Ok? && StartSegment(b).Ok?
    ensures Less(StartSegment(a).value, StartSegment(b).value) <==> StartsBefore(a, b)
  {
    hide Less, HexValue, SegmentName, TrimSpace, FirstIndex, Precedes;
    var s, t := StartOf(a).value, StartOf(b).value;
    SegmentOrder(s.timeline, s.log, s.offset, t.timeline, t.log, t.offset);
  }

  /** No WAL a kept backup needs is deleted: when the kept backups start in the log in the order
      they were created, the floor taken from the oldest of them holds for all. */
  lemma PruningKeepsWhatIsNeeded(keep: seq<Manifest>, names: seq<string>)
    requires keep != [] && StartSegment(Oldest(keep)).Ok? && StartsInOrder(keep)
    requires forall i :: 0 <= i < |keep| ==> keep[i].timeline < TWO32
    ensures PruningIsSafe(keep, StartSegment(Oldest(keep)).value, names)
  {
    OldestIsOldest(keep);
    var floor := StartSegment(Oldest(keep)).value;
    var o :| 0 <= o < |keep| && keep[o] == Oldest(keep);
    hide StartSegment, StartsBefore, Less, Oldest, PruningIsSafe;
    forall i | 0 <= i < |keep| && StartSegment(keep[i]).Ok? ensures Leq(floor, StartSegment(keep[i]).value) {
      StartSegmentOrder(keep[i], keep[o]);
    }
    SafeExactly(keep, floor);
  }

  /** The order matters: two backups of one instant that start in different segments, and the
      archive loses the earlier one's. */
  lemma TiesAreNotSafe(a: Manifest, b: Manifest)
    requires a.CreatedAt() == b.CreatedAt() && a.timeline < TWO32 && b.timeline < TWO32
    requires StartSegment(a).Ok? && StartSegment(b).Ok? && StartsBefore(b, a)
    ensures Oldest([a, b]) == a && StartSegment(b).value in Pruned([StartSegment(b).value], StartSegment(a).value)
  {
    hide StartSegment, StartsBefore, Less;
    assert [a, b][..1] == [a];
    StartSegmentOrder(b, a);
    StartSegmentIsValid(b);
    PrunedExact([StartSegment(b).value], StartSegment(a).value, StartSegment(b).value);
  }

  // ---- Pruning in positions of the log ---------------------------------------------------

  /** The way a server writes a position: two hexadecimal numbers and a slash. */
  function Lsn(log: nat, offset: nat, width: nat, length: nat, ten: char): string
    requires ten == 'a' || ten == 'A'
  {
    Hex(log, width, ten) + ['/'] + Hex(offset, length, ten)
  }

  lemma {:induction false} HexIsDigits(n: nat, width: nat, ten: char)
    requires ten == 'a' || ten == 'A'
    ensures forall i :: 0 <= i < width ==> Hex(n, width, ten)[i] != '/' && !IsSpace(Hex(n, width, ten)[i])
  {
    if width > 0 { HexIsDigits(n / 16, width - 1, ten); }
  }

  lemma LsnIsTrimmed(log: nat, offset: nat, width: nat, length: nat, ten: char)
    requires (ten == 'a' || ten == 'A') && width > 0 && length > 0
    ensures var text := Lsn(log, offset, width, length, ten);
            && TrimSpace(text) == text && '/' in text && FirstIndex(text, '/') == width
            && text[..width] == Hex(log, width, ten) && text[width + 1..] == Hex(offset, length, ten)
  {
    HexIsDigits(log, width, ten);
    HexIsDigits(offset, length, ten);
    var text, a, b := Lsn(log, offset, width, length, ten), Hex(log, width, ten), Hex(offset, length, ten);
    hide Hex, IsSpace;
    assert text[0] == a[0] && text[|text| - 1] == b[length - 1] && text[width] == '/';
    FirstIndexIs(a, b, '/');
  }

  /** A backup's start is the position its manifest writes, with digits of either case and any
      number of leading zeros. */
  lemma StartReadsBack(m: Manifest, log: nat, offset: nat, width: nat, length: nat, ten: char)
    requires (ten == 'a' || ten == 'A') && width > 0 && length > 0 && m.timeline > 0
    requires log < Pow16(width) && offset < Pow16(length) && log < 0x1_0000_0000 && offset < 0x1_0000_0000
    requires m.startLSN == Lsn(log, offset, width, length, ten)
    ensures StartOf(m) == Some(Start(m.timeline, log, offset))
    ensures StartSegment(m) == Ok(SegmentName(m.timeline, log, offset))
  {
    hide *;
    LsnIsTrimmed(log, offset, width, length, ten);
    ParseReads(log, width, ten);
    ParseReads(offset, length, ten);
    StartIsParsed(m, width, log, offset);
  }

  lemma ParseReads(n: nat, width: nat, ten: char)
    requires (ten == 'a' || ten == 'A') && width > 0 && n < Pow16(width)
    ensures ParseHex32(Hex(n, width, ten)) == if n < 0x1_0000_0000 then Some(n) else None
  {
    HexReadsBack(n, width, ten);
    hide Hex, HexValue;
  }

  lemma StartIsParsed(m: Manifest, cut: nat, log: nat, offset: nat)
    requires m.timeline > 0 && cut < |m.startLSN|
    requires TrimSpace(m.startLSN) == m.startLSN && '/' in m.startLSN && FirstIndex(m.startLSN, '/') == cut
    requires ParseHex32(m.startLSN[..cut]) == Some(log) && ParseHex32(m.startLSN[cut + 1..]) == Some(offset)
    ensures StartOf(m) == Some(Start(m.timeline, log, offset))
    ensures StartSegment(m) == Ok(SegmentName(m.timeline, log, offset))
  {
    hide ParseHex32, TrimSpace, FirstIndex, SegmentName;
  }

  lemma StartOfSegment(m: Manifest)
    requires StartOf(m).Some? && m.timeline < TWO32
    ensures StartOf(m).value.timeline == m.timeline
    ensures var p := StartOf(m).value;
            && p.log < TWO32 && p.offset < TWO32
            && StartSegment(m) == Ok(SegmentName(p.timeline, p.log, p.offset))
  {
    hide HexValue, TrimSpace, FirstIndex, SegmentName;
  }

  /** A name is less than the name a backup starts in exactly when all of its segment comes before
      the backup's start. */
  lemma NameBeforeStart(name: string, n: Named, m: Manifest)
    requires ValidSegmentName(name) && ReadsAs(name, n) && StartOf(m).Some? && m.timeline < TWO32
    ensures StartSegment(m).Ok?
    ensures Less(name, StartSegment(m).value) <==> LiesBefore(n, StartOf(m).value)
  {
    StartOfSegment(m);
    var p := StartOf(m).value;
    StartSegmentIsValid(m);
    SegmentReadsBack(p.timeline, p.log, p.offset);
    hide StartSegment, StartOf, ReadsAs, ValidSegmentName, Less;
    var k: Named :| ReadsAs(SegmentName(p.timeline, p.log, p.offset), k) &&
                    k.timeline == p.timeline && k.log == p.log &&
                    k.segment * 16 * 1024 * 1024 <= p.offset < (k.segment + 1) * 16 * 1024 * 1024;
    NameOrder(name, StartSegment(m).value, n, k);
  }

  /** Deleted are exactly the archived names of 24 upper-case digits that say a segment all of which
      comes before the start of the oldest kept backup. */
  lemma PrunedByPosition(names: seq<string>, oldest: Manifest, name: string)
    requires StartOf(oldest).Some? && oldest.timeline < 0x1_0000_0000
    ensures StartSegment(oldest).Ok?
    ensures name in Pruned(names, StartSegment(oldest).value) <==>
            name in names && exists n: Named :: ReadsAs(name, n) && LiesBefore(n, StartOf(oldest).value)
  {
    StartOfSegment(oldest);
    var floor := StartSegment(oldest).value;
    PrunedExact(names, floor, name);
    hide StartSegment, StartOf, Less, Pruned, LiesBefore, HexValue;
    if ValidSegmentName(name) {
      var n := ValidNameReads(name);
      NameBeforeStart(name, n, oldest);
      if m: Named :| ReadsAs(name, m) && LiesBefore(m, StartOf(oldest).value) { ReadsAsOne(name, m, n); }
    }
    if n: Named :| ReadsAs(name, n) && LiesBefore(n, StartOf(oldest).value) { NamesAreValid(name, n); }
  }

  lemma NamesAreValid(name: string, n: Named)
    requires ReadsAs(name, n)
    ensures ValidSegmentName(name)
  {
    hide HexValue;
  }

  /** Safety in positions: when kept backups start in the order they were created, all of every
      deleted segment comes before the start of every kept backup. */
  lemma DeletedLiesBeforeEveryStart(keep: seq<Manifest>, names: seq<string>, name: string, i: nat)
    requires keep != [] && StartOf(Oldest(keep)).Some? && StartsInOrder(keep)
    requires forall j :: 0 <= j < |keep| ==> keep[j].timeline < 0x1_0000_0000
    requires i < |keep| && StartOf(keep[i]).Some?
    ensures StartSegment(Oldest(keep)).Ok?
    ensures name in Pruned(names, StartSegment(Oldest(keep)).value) ==>
              exists n: Named :: ReadsAs(name, n) && LiesBefore(n, StartOf(keep[i]).value)
  {
    OldestIsOldest(keep);
    hide Less, ReadsAs, LiesBefore, StartOf, StartSegment, Oldest, Pruned, ValidSegmentName;
    StartOfSegment(Oldest(keep));
    var floor := StartSegment(Oldest(keep)).value;
    if name in Pruned(names, floor) {
      PruningKeepsWhatIsNeeded(keep, names);
      PrunedExact(names, floor, name);
      var n := ValidNameReads(name);
      NameBeforeStart(name, n, keep[i]);
    }
  }

  /** Hexadecimal digits of either case, at least one, that say less than two to the 32nd. */
  ghost predicate IsNumber(s: string) {
    && s != "" && (forall i :: 0 <= i < |s| ==> '0' <= s[i] <= '9' || 'a' <= s[i] <= 'f' || 'A' <= s[i] <= 'F')
    && HexValue(s).Some? && HexValue(s).value < 0x1_0000_0000
  }

  ghost predicate IsPosition(text: string, log: string, offset: string) {
    text == log + "/" + offset && IsNumber(log) && IsNumber(offset)
  }

  lemma NumbersAre(s: string)
    ensures ParseHex32(s).Some? <==> IsNumber(s)
    ensures IsNumber(s) ==> ParseHex32(s) == HexValue(s) && '/' !in s
  {
    HexValueExactly(s);
    hide HexValue;
  }

  lemma PositionIsCut(text: string, log: string, offset: string)
    requires IsPosition(text, log, offset)
    ensures '/' in text && text[..FirstIndex(text, '/')] == log && text[FirstIndex(text, '/') + 1..] == offset
  {
    NumbersAre(log);
    hide IsNumber, FirstIndex;
    FirstIndexIs(log, offset, '/');
    assert text == log + ['/'] + offset && text[|log|] == '/';
  }

  lemma CutIsPosition(text: string)
    requires '/' in text
    requires ParseHex32(text[..FirstIndex(text, '/')]).Some? && ParseHex32(text[FirstIndex(text, '/') + 1..]).Some?
    ensures exists log, offset :: IsPosition(text, log, offset)
  {
    hide *;
    var log, offset := text[..FirstIndex(text, '/')], text[FirstIndex(text, '/') + 1..];
    NumbersAre(log);
    NumbersAre(offset);
    assert text == log + "/" + offset;
    PartsArePosition(text, log, offset);
  }

  lemma PartsArePosition(text: string, log: string, offset: string)
    requires text == log + "/" + offset && IsNumber(log) && IsNumber(offset)
    ensures IsPosition(text, log, offset)
  {
    hide IsNumber;
  }

  lemma StartUnfolds(m: Manifest)
    ensures var text := TrimSpace(m.startLSN);
            StartOf(m) ==
            if m.timeline == 0 || '/' !in text then None
            else
              var cut := FirstIndex(text, '/');
              var log, offset := ParseHex32(text[..cut]), ParseHex32(text[cut + 1..]);
              if log.Some? && offset.Some? then Some(Start(m.timeline, log.value, offset.value)) else None
  {
    assert TrimSpace("") == "";
    hide ParseHex32, FirstIndex, TrimSpace;
  }

  /** The start of a backup is the position its manifest writes. */
  ghost predicate StartsAs(m: Manifest, log: string, offset: string) {
    && HexValue(log).Some? && HexValue(offset).Some?
    && StartOf(m) == Some(Start(m.timeline, HexValue(log).value, HexValue(offset).value))
  }

  /** What a manifest may say for its start: two numbers and a slash, with white space around. A
      backup with any other start, or without a timeline, has none. */
  lemma StartExactly(m: Manifest)
    ensures StartOf(m).Some? <==>
            m.timeline != 0 && exists log, offset :: IsPosition(TrimSpace(m.startLSN), log, offset)
    ensures forall log, offset :: m.timeline != 0 && IsPosition(TrimSpace(m.startLSN), log, offset) ==>
              StartsAs(m, log, offset)
  {
    var text := TrimSpace(m.startLSN);
    StartUnfolds(m);
    hide *;
    if StartOf(m).Some? { CutIsPosition(text); }
    forall log, offset
      ensures IsPosition(text, log, offset) && m.timeline != 0 ==> StartOf(m).Some? && StartsAs(m, log, offset)
    {
      if IsPosition(text, log, offset) && m.timeline != 0 { PositionStarts(m, log, offset); }
    }
  }

  lemma PositionStarts(m: Manifest, log: string, offset: string)
    requires m.timeline != 0 && IsPosition(TrimSpace(m.startLSN), log, offset)
    ensures StartOf(m).Some? && StartsAs(m, log, offset)
  {
    StartUnfolds(m);
    PositionIsCut(TrimSpace(m.startLSN), log, offset);
    NumbersAre(log);
    NumbersAre(offset);
    hide HexValue, ParseHex32, FirstIndex, TrimSpace, StartOf;
  }

  /** Why no floor is derived from a backup. */
  lemma NoFloorExactly(m: Manifest)
    ensures StartSegment(m) == Err(NoStart) <==> m.startLSN == ""
    ensures StartSegment(m) == Err(NoTimeline) <==> m.startLSN != "" && m.timeline == 0
    ensures StartSegment(m) == Err(NotALSN) <==> m.startLSN != "" && m.timeline != 0 && StartOf(m).None?
    ensures StartSegment(m).Err? ==> StartSegment(m).error in {NoStart, NoTimeline, NotALSN}
  {
    hide ParseHex32, FirstIndex, TrimSpace, SegmentName;
  }
}
