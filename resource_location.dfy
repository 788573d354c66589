/** `namespace:path` identifiers for textures, tiles and widgets. */
module ResourceLocations {
  import opened Primitives

  const SEPARATOR: char := ':'

  /** A resource location is a plain value: it is cloned wherever it is stored,
      so the in-place setters of the source are functional updates here. */
  datatype ResourceLocation = ResourceLocation(namespace: string, path: string)
  {
    /** `set_namespace`: replaces the namespace and keeps the path. */
    function SetNamespace(ns: string): (r: ResourceLocation)
      ensures r.namespace == ns && r.path == path
    {
      this.(namespace := ns)
    }

    /** `set_path`: replaces the path and keeps the namespace. */
    function SetPath(p: string): (r: ResourceLocation)
      ensures r.path == p && r.namespace == namespace
    {
      this.(path := p)
    }

    /** `to_string`: the namespace, a colon and the path. */
    function ToString(): (s: string)
      ensures |s| == |namespace| + 1 + |path|
      ensures s[..|namespace|] == namespace && s[|namespace|] == SEPARATOR
      ensures s[|namespace| + 1..] == path
    {
      namespace + [SEPARATOR] + path
    }
  }

  /** `ResourceLocation::new` stores both arguments as given. */
  function New(namespace: string, path: string): (r: ResourceLocation)
    ensures r.namespace == namespace && r.path == path
  {
    ResourceLocation(namespace, path)
  }

  /** `ResourceLocation::empty`. */
  function Empty(): (r: ResourceLocation)
    ensures r.namespace == "none" && r.path == "none"
  {
    New("none", "none")
  }

  /** `PartialEq::eq` exactly as the source writes it: the first path is
      compared with the second path AND with the second namespace. */
  function Eq(a: ResourceLocation, b: ResourceLocation): (r: bool)
    ensures r ==> b.namespace == b.path
    ensures r ==> (a == b <==> a.namespace == a.path)
  {
    a.path == b.path && a.path == b.namespace
  }

  /** The position of the first occurrence of `c` in `s`. */
  function IndexOf(s: string, c: char): (i: nat)
    requires c in s
    ensures i < |s| && s[i] == c && c !in s[..i]
  {
    if s[0] == c then 0 else 1 + IndexOf(s[1..], c)
  }

  /** `str::split` on one separator character: the pieces between separators,
      in order, empty pieces included. */
  function Split(s: string, sep: char): (parts: seq<string>)
    ensures |parts| >= 1
    ensures forall i :: 0 <= i < |parts| ==> sep !in parts[i]
    decreases |s|
  {
    if sep !in s then [s]
    else
      var i := IndexOf(s, sep);
      [s[..i]] + Split(s[i + 1..], sep)
  }

  /** Gluing pieces back together with the separator. */
  function Join(parts: seq<string>, sep: char): string
    requires |parts| >= 1
  {
    if |parts| == 1 then parts[0] else parts[0] + [sep] + Join(parts[1..], sep)
  }

  /** `parse`: the first two pieces of a split on ':'. The source unwraps the
      second piece, so an input without a colon is the error case `None`;
      pieces after the second are dropped. */
  function Parse(value: string): (r: Option<ResourceLocation>)
    ensures r.None? <==> SEPARATOR !in value
  {
    var parts := Split(value, SEPARATOR);
    SplitSingle(value, SEPARATOR);
    if |parts| < 2 then None else Some(New(parts[0], parts[1]))
  }

  /** A split yields a single piece exactly when there is no separator. */
  lemma SplitSingle(s: string, sep: char)
    ensures |Split(s, sep)| == 1 <==> sep !in s
  {
  }

  /** Splitting and joining again gives back the input. */
  lemma {:induction false} JoinSplit(s: string, sep: char)
    ensures Join(Split(s, sep), sep) == s
    decreases |s|
  {
    if sep in s {
      var i := IndexOf(s, sep);
      var rest := s[i + 1..];
      JoinSplit(rest, sep);
      var parts := Split(s, sep);
      assert parts == [s[..i]] + Split(rest, sep);
      assert parts[1..] == Split(rest, sep);
      assert Join(parts, sep) == s[..i] + [sep] + Join(Split(rest, sep), sep);
      assert s == s[..i] + [sep] + rest;
    }
  }

  /** Splitting a string whose first separator follows `a` yields `a` first. */
  lemma {:induction false} SplitAfterPiece(a: string, sep: char, rest: string)
    requires sep !in a
    ensures Split(a + [sep] + rest, sep) == [a] + Split(rest, sep)
  {
    var s := a + [sep] + rest;
    assert s[|a|] == sep;
    var i := IndexOf(s, sep);
    assert s[..|a|] == a;
    assert i == |a|;
    assert s[i + 1..] == rest;
  }

  /** The first piece of a split runs up to the first separator. */
  lemma SplitHead(s: string, sep: char)
    ensures Split(s, sep)[0] == if sep in s then s[..IndexOf(s, sep)] else s
  {
  }

  /** Parsing the printed form gives back the location, provided neither part
      contains the separator. */
  lemma {:induction false} ParseToString(r: ResourceLocation)
    requires SEPARATOR !in r.namespace && SEPARATOR !in r.path
    ensures Parse(r.ToString()) == Some(r)
  {
    SplitAfterPiece(r.namespace, SEPARATOR, r.path);
    assert Split(r.path, SEPARATOR) == [r.path];
  }

  /** What a successful parse means: the printed form of the result is a
      prefix of the input and ends there or at a further separator. */
  lemma {:induction false} ParseIsPrefix(value: string)
    requires SEPARATOR in value
    ensures Parse(value).Some?
    ensures var r := Parse(value).value;
      var printed := r.ToString();
      && SEPARATOR !in r.namespace && SEPARATOR !in r.path
      && |printed| <= |value| && value[..|printed|] == printed
      && (|printed| == |value| || value[|printed|] == SEPARATOR)
  {
    var i := IndexOf(value, SEPARATOR);
    var rest := value[i + 1..];
    var parts := Split(value, SEPARATOR);
    assert parts == [value[..i]] + Split(rest, SEPARATOR);
    SplitHead(rest, SEPARATOR);
    var r := Parse(value).value;
    assert r.namespace == value[..i];
    var n := |r.path|;
    assert r.path == rest[..n];
    assert value[..i + 1 + n] == value[..i] + [SEPARATOR] + rest[..n];
    if SEPARATOR in rest {
      assert rest[n] == SEPARATOR;
      assert value[i + 1 + n] == SEPARATOR;
    }
  }

  /** Because `Eq` compares a path with a namespace, a location equals itself
      only when its namespace and path coincide. */
  lemma EqReflexiveIff(a: ResourceLocation)
    ensures Eq(a, a) <==> a.namespace == a.path
  {
  }

  /** `empty()` is one of the locations that do equal themselves. */
  lemma EmptyEqualsItself()
    ensures Eq(Empty(), Empty())
  {
  }

  /** A location the source itself builds (the nav tile's) is not equal to
      itself under `Eq`. */
  lemma NavLocationNotEqualToItself()
    ensures !Eq(New("game", "tiles/nav"), New("game", "tiles/nav"))
  {
  }
}
