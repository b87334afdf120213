/**
 Slash-separated names: Python's `split("/")` and `"/".join`, the parts of a `PurePosixPath`, and the storage
 keys of `portal/storage_backend.py`.
 */
module Paths {

  predicate NoSlash(s: string) {
    '/' !in s
  }

  /** `s.split("/")`: never empty. */
  function Split(s: string): (parts: seq<string>)
    ensures parts != []
  {
    if s == "" then [""]
    else if s[0] == '/' then [""] + Split(s[1..])
    else
      var rest := Split(s[1..]);
      [[s[0]] + rest[0]] + rest[1..]
  }

  /** `"/".join(parts)`. */
  function Join(parts: seq<string>): string {
    if parts == [] then "" else if |parts| == 1 then parts[0] else parts[0] + "/" + Join(parts[1..])
  }

  lemma {:induction false} SplitHasNoSlash(s: string)
    ensures forall i :: 0 <= i < |Split(s)| ==> NoSlash(Split(s)[i])
  {
    if s != "" {
      SplitHasNoSlash(s[1..]);
    }
  }

  lemma {:induction false} SplitFirst(seg: string, rest: string)
    requires NoSlash(seg)
    ensures Split(seg + "/" + rest) == [seg] + Split(rest)
  {
    if seg == "" {
      assert (seg + "/" + rest)[1..] == rest;
    } else {
      assert NoSlash(seg[1..]);
      SplitFirst(seg[1..], rest);
      assert (seg + "/" + rest)[1..] == seg[1..] + "/" + rest;
      assert [seg[0]] + seg[1..] == seg;
    }
  }

  lemma {:induction false} SplitPlain(seg: string)
    requires NoSlash(seg)
    ensures Split(seg) == [seg]
  {
    if seg != "" {
      assert NoSlash(seg[1..]);
      SplitPlain(seg[1..]);
      assert [seg[0]] + seg[1..] == seg;
    }
  }

  /** Splitting undoes joining. */
  lemma {:induction false} SplitOfJoin(parts: seq<string>)
    requires parts != [] && forall i :: 0 <= i < |parts| ==> NoSlash(parts[i])
    ensures Split(Join(parts)) == parts
  {
    if |parts| == 1 {
      SplitPlain(parts[0]);
    } else {
      SplitOfJoin(parts[1..]);
      SplitFirst(parts[0], Join(parts[1..]));
    }
  }

  /** Joining undoes splitting. */
  lemma {:induction false} JoinOfSplit(s: string)
    ensures Join(Split(s)) == s
  {
    if s != "" {
      JoinOfSplit(s[1..]);
      var rest := Split(s[1..]);
      if s[0] == '/' {
        assert ([""] + rest)[1..] == rest;
      } else {
        var parts := [[s[0]] + rest[0]] + rest[1..];
        assert parts[1..] == rest[1..];
      }
    }
  }

  // ----- parts of a path -----

  predicate Real(seg: string) {
    seg != "" && seg != "."
  }

  function RealOnly(parts: seq<string>): seq<string> {
    if parts == [] then [] else (if Real(parts[0]) then [parts[0]] else []) + RealOnly(parts[1..])
  }

  /** `Path(name).parts` of a relative name; also what `os.path.normpath` keeps when there is no "..". */
  function Parts(name: string): seq<string> {
    RealOnly(Split(name))
  }

  /** A path in normal form. */
  ghost predicate Clean(path: seq<string>) {
    forall i :: 0 <= i < |path| ==> Real(path[i]) && NoSlash(path[i])
  }

  lemma {:induction false} RealOnlyFacts(parts: seq<string>)
    ensures forall seg :: seg in RealOnly(parts) <==> seg in parts && Real(seg)
    ensures (forall i :: 0 <= i < |parts| ==> Real(parts[i])) ==> RealOnly(parts) == parts
  {
    if parts != [] {
      RealOnlyFacts(parts[1..]);
    }
  }

  lemma PartsAreClean(name: string)
    ensures Clean(Parts(name))
  {
    RealOnlyFacts(Split(name));
    SplitHasNoSlash(name);
    forall i | 0 <= i < |Parts(name)|
      ensures Real(Parts(name)[i]) && NoSlash(Parts(name)[i])
    {
      assert Parts(name)[i] in Parts(name);
    }
  }

  /** A clean path survives being written as a name and parsed again. */
  lemma PartsOfJoin(path: seq<string>)
    requires Clean(path)
    ensures Parts(Join(path)) == path
  {
    if path != [] {
      SplitOfJoin(path);
      RealOnlyFacts(path);
    }
  }

  // ----- storage keys -----

  datatype Key = Key(path: seq<string>) | EmptyKey | UnsafeKey

  /** What `str.strip()` takes off. */
  predicate IsSpace(c: char) {
    c in {' ', '\t', '\n', '\r', '\U{0B}', '\U{0C}', '\U{1C}', '\U{1D}', '\U{1E}', '\U{1F}', '\U{85}', '\U{A0}',
          '\U{1680}', '\U{2028}', '\U{2029}', '\U{202F}', '\U{205F}', '\U{3000}'}
    || '\U{2000}' <= c <= '\U{200A}'
  }

  /** The same by code point: tab to carriage return, the separators to space, and the Unicode spaces. */
  lemma SpaceCodePoints(c: char)
    ensures var n := c as int;
            IsSpace(c) <==>
            || 9 <= n <= 13 || 28 <= n <= 32 || n == 0x85 || n == 0xA0 || n == 0x1680
            || 0x2000 <= n <= 0x200A || 0x2028 <= n <= 0x2029 || n == 0x202F || n == 0x205F || n == 0x3000
  {
  }

  function StripLeft(s: string): string {
    if s != "" && IsSpace(s[0]) then StripLeft(s[1..]) else s
  }

  function StripRight(s: string): string {
    if s != "" && IsSpace(s[|s| - 1]) then StripRight(s[..|s| - 1]) else s
  }

  function StripSlashes(s: string): string {
    if s != "" && s[0] == '/' then StripSlashes(s[1..]) else s
  }

  /** `_normalize_key`, its result as a path. */
  function NormalizeKey(key: string): Key {
    var path := Parts(StripSlashes(StripRight(StripLeft(key))));
    if path == [] then EmptyKey
    else if ".." in path then UnsafeKey
    else Key(path)
  }

  /** The prefix `_obj_prefix` lists under, for a clean prefix and no bucket-wide prefix. */
  function ObjectPrefix(prefix: seq<string>): string {
    Join(prefix) + "/"
  }

  predicate StartsWith(s: string, p: string) {
    |p| <= |s| && s[..|p|] == p
  }

  /**
   A normalized key stays inside the data directory: it is a non-empty path of real segments, none of which
   steps up.
   */
  lemma NormalizedKeyIsConfined(key: string)
    requires NormalizeKey(key).Key?
    ensures var path := NormalizeKey(key).path; path != [] && Clean(path) && ".." !in path
  {
    PartsAreClean(StripSlashes(StripRight(StripLeft(key))));
  }

  lemma {:induction false} StripsShrink(s: string)
    ensures |StripLeft(s)| <= |s| && |StripRight(s)| <= |s| && |StripSlashes(s)| <= |s|
    decreases |s|
  {
    if s != "" {
      StripsShrink(s[1..]);
      StripsShrink(s[..|s| - 1]);
    }
  }

  lemma {:induction false} RealOnlyShrinks(parts: seq<string>)
    ensures |Join(RealOnly(parts))| <= |Join(parts)|
    ensures RealOnly(parts) != [] && parts != [] && !Real(parts[0]) ==> |Join(RealOnly(parts))| < |Join(parts)|
  {
    if parts != [] {
      RealOnlyShrinks(parts[1..]);
      if Real(parts[0]) {
        assert RealOnly(parts)[1..] == RealOnly(parts[1..]);
      } else {
        assert RealOnly(parts) == RealOnly(parts[1..]);
      }
    }
  }

  lemma JoinStartsWithFirst(path: seq<string>)
    requires path != [] && Clean(path)
    ensures Join(path) != "" && Join(path)[0] == path[0][0] != '/'
  {
    assert path[0][0] in path[0];
  }

  /**
   Normalizing a normalized key again changes nothing exactly when its text neither begins nor ends with
   white space: stripping comes before the slashes go, so "/ a" becomes " a", and that becomes "a".
   */
  lemma NormalizeAgainIff(path: seq<string>)
    requires path != [] && Clean(path) && ".." !in path
    ensures Join(path) != ""
    ensures NormalizeKey(Join(path)) == Key(path) <==>
            !IsSpace(Join(path)[0]) && !IsSpace(Join(path)[|Join(path)| - 1])
  {
    var j := Join(path);
    JoinStartsWithFirst(path);
    if !IsSpace(j[0]) && !IsSpace(j[|j| - 1]) {
      assert StripSlashes(StripRight(StripLeft(j))) == j;
      PartsOfJoin(path);
    } else {
      var stripped := StripRight(StripLeft(j));
      StripsShrink(j[1..]);
      StripsShrink(StripLeft(j));
      StripsShrink(stripped);
      StripsShrink(j[..|j| - 1]);
      var x := StripSlashes(stripped);
      assert |x| < |j|;
      RealOnlyShrinks(Split(x));
      JoinOfSplit(x);
    }
  }

  lemma {:induction false} JoinConcat(p: seq<string>, q: seq<string>)
    requires p != [] && q != []
    ensures Join(p + q) == Join(p) + "/" + Join(q)
  {
    if |p| == 1 {
      assert (p + q)[1..] == q;
    } else {
      JoinConcat(p[1..], q);
      assert (p + q)[1..] == p[1..] + q;
    }
  }

  lemma SplitAfterJoin(p: seq<string>, rest: string)
    requires p != [] && forall i :: 0 <= i < |p| ==> NoSlash(p[i])
    ensures Split(Join(p) + "/" + rest) == p + Split(rest)
  {
    JoinConcat(p, Split(rest));
    JoinOfSplit(rest);
    SplitHasNoSlash(rest);
    SplitOfJoin(p + Split(rest));
  }

  /**
   Why the listing prefix ends in a slash: a key's text starts with it exactly when the key lies below the
   prefix, segment by segment. `apps/foo` does not list `apps/foobar/x`.
   */
  lemma ListedIffBelow(prefix: seq<string>, key: seq<string>)
    requires prefix != [] && key != [] && Clean(prefix) && Clean(key)
    ensures StartsWith(Join(key), ObjectPrefix(prefix)) <==> |prefix| < |key| && key[..|prefix|] == prefix
  {
    if |prefix| < |key| && key[..|prefix|] == prefix {
      assert key == prefix + key[|prefix|..];
      JoinConcat(prefix, key[|prefix|..]);
    }
    if StartsWith(Join(key), ObjectPrefix(prefix)) {
      var rest := Join(key)[|ObjectPrefix(prefix)|..];
      assert Join(key) == Join(prefix) + "/" + rest;
      SplitAfterJoin(prefix, rest);
      SplitOfJoin(key);
    }
  }

  /** Different directories of the same depth never contain each other's keys. */
  lemma SiblingsAreDisjoint(a: seq<string>, b: seq<string>)
    requires a != [] && |a| == |b| && a != b && Clean(a) && Clean(b)
    ensures !StartsWith(ObjectPrefix(a), ObjectPrefix(b))
  {
    if StartsWith(ObjectPrefix(a), ObjectPrefix(b)) {
      var below := a + ["x"];
      JoinConcat(a, ["x"]);
      assert Join(below) == ObjectPrefix(a) + "x";
      assert Join(below)[..|ObjectPrefix(b)|] == ObjectPrefix(a)[..|ObjectPrefix(b)|];
      assert Clean(below) by {
        forall i | 0 <= i < |below| ensures Real(below[i]) && NoSlash(below[i]) {}
      }
      assert below[..|b|] == a;
      ListedIffBelow(b, below);
    }
  }
}
