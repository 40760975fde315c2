/** The refusals of the complexity gate and the identity the baseline holds them by. */
module Findings {
  import opened Text
  import opened Order

  const KIND_FUNCTION := "function"
  const KIND_DUPLICATION := "duplication"
  const NUL := '\U{0}'

  datatype Finding = Finding(
    kind: string, path: string, func: string, line: nat, metric: string, value: int,
    owner: string, digest: string, places: seq<string>)
  {
    /** The key the baseline holds the finding by; the line is not part of it. */
    function Identity(): string {
      if kind == KIND_DUPLICATION then kind + [NUL] + digest + [NUL] + Join(Paths(), NUL)
      else kind + [NUL] + path + [NUL] + func + [NUL] + metric
    }

    /** The files of a duplicated block, sorted and without repetition. */
    function Paths(): seq<string> { Sort(Distinct(PathsOf(places))) }
  }

  /** A place is `path:line`; what precedes the last colon is the path. */
  function PathOf(place: string): string {
    var index := LastIndex(place, ':');
    if index > 0 then place[..index] else place
  }

  function PathsOf(places: seq<string>): (r: seq<string>)
    ensures |r| == |places| && forall i :: 0 <= i < |r| ==> r[i] == PathOf(places[i])
  {
    seq(|places|, i requires 0 <= i < |places| => PathOf(places[i]))
  }

  /** The first occurrence of every element, in order. */
  function Distinct(s: seq<string>): (r: seq<string>)
    ensures forall x :: x in r <==> x in s
    ensures forall i, j :: 0 <= i < j < |r| ==> r[i] != r[j]
  {
    if s == [] then [] else
      var before := s[..|s| - 1];
      var last := s[|s| - 1];
      assert s == before + [last];
      if last in before then Distinct(before) else Distinct(before) + [last]
  }

  /** The package directory of a file. */
  function OwnerOf(path: string): string {
    var index := LastIndex(path, '/');
    if index > 0 then path[..index] else path
  }

  function Place(path: string, line: nat): string { path + ":" + Itoa(line) }

  /** A place gives its path back. */
  lemma PlaceRoundTrip(path: string, line: nat)
    requires path != ""
    ensures PathOf(Place(path, line)) == path
  {
    var s := Place(path, line);
    assert s == path + [':'] + Itoa(line);
    assert forall j :: |path| < j < |s| ==> s[j] == Itoa(line)[j - |path| - 1];
    assert s[|path|] == ':';
    LastIndexIs(s, ':', |path|);
    assert s[..|path|] == path;
  }

  /** The owner of a file is the directory that holds it, and a file that no directory holds is its
      own. */
  lemma OwnerExactly(directory: string, file: string)
    requires '/' !in file
    ensures directory != "" ==> OwnerOf(directory + "/" + file) == directory
    ensures OwnerOf(file) == file
  {
    var s := directory + "/" + file;
    assert s[|directory|] == '/' && forall j :: |directory| < j < |s| ==> s[j] == file[j - |directory| - 1];
    LastIndexIs(s, '/', |directory|);
    assert s[..|directory|] == directory;
  }

  /** What a finding is held by: for a function its file, its name and the measure, for a copied
      block its text's digest and its files. Line, value and owner are no part of it. */
  ghost function HeldBy(f: Finding): seq<string> {
    if f.kind == "duplication" then ["duplication", f.digest] + f.Paths() else [f.kind, f.path, f.func, f.metric]
  }

  ghost predicate HasPaths(f: Finding) { f.kind == "duplication" ==> f.Paths() != [] }

  lemma IdentityIsJoined(f: Finding)
    requires HasPaths(f)
    ensures HeldBy(f) != [] && f.Identity() == Join(HeldBy(f), NUL)
  {
    if f.kind == "duplication" {
      JoinTwo("duplication", f.digest, f.Paths());
    } else {
      JoinFour(f.kind, f.path, f.func, f.metric);
    }
  }

  lemma JoinTwo(a: string, b: string, rest: seq<string>)
    requires rest != []
    ensures Join([a, b] + rest, NUL) == a + [NUL] + b + [NUL] + Join(rest, NUL)
  {
    assert ([a, b] + rest)[1..] == [b] + rest && ([b] + rest)[1..] == rest;
    assert a + [NUL] + (b + [NUL] + Join(rest, NUL)) == a + [NUL] + b + [NUL] + Join(rest, NUL);
  }

  lemma JoinFour(a: string, b: string, c: string, d: string)
    ensures Join([a, b, c, d], NUL) == a + [NUL] + b + [NUL] + c + [NUL] + d
  {
    JoinTwo(a, b, [c, d]);
    assert [a, b] + [c, d] == [a, b, c, d] && [c, d][1..] == [d] && Join([d], NUL) == d;
    assert Join([c, d], NUL) == c + [NUL] + d;
  }

  /** Two findings have one identity exactly when they are held by the same. */
  lemma IdentityExactly(f: Finding, g: Finding)
    requires HasPaths(f) && HasPaths(g) && Without(HeldBy(f), NUL) && Without(HeldBy(g), NUL)
    ensures f.Identity() == g.Identity() <==> HeldBy(f) == HeldBy(g)
  {
    IdentityIsJoined(f);
    IdentityIsJoined(g);
    hide *;
    if f.Identity() == g.Identity() { JoinInjective(HeldBy(f), HeldBy(g), NUL); }
  }
}
