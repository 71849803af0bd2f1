/**
 * How the SignalFx reporter names what it exports: the registry name with
 * every run of spaces turned into one underscore, an optional `prefix.` in
 * front, and the field name after a dot, with one leading `get_` dropped.
 */
module Naming {
  import opened Options

  /**
   * The scan `gsub(/ +/, '_')` performs: `inRun` says whether the character
   * before `s` was a space that already produced its underscore.
   */
  function Collapse(s: string, inRun: bool): (r: string)
    ensures ' ' !in r
    ensures |r| <= |s|
  {
    if s == [] then []
    else if s[0] == ' ' then (if inRun then Collapse(s[1..], true) else "_" + Collapse(s[1..], true))
    else [s[0]] + Collapse(s[1..], false)
  }

  /**
   * `name.gsub(/ +/, '_')`: each maximal run of one or more spaces becomes a
   * single underscore; every other character is kept, in order.
   */
  function Sanitize(s: string): (r: string)
    ensures ' ' !in r
    ensures r == [] <==> s == []
  {
    Collapse(s, false)
  }

  /** Does `key` begin with the accessor marker `get_`? */
  predicate HasGetMarker(key: string) {
    |key| >= 4 && key[..4] == "get_"
  }

  /** `key.to_s.gsub(/^get_/, '')` for a key without line breaks. */
  function FieldName(key: string): (r: string)
    ensures HasGetMarker(key) ==> "get_" + r == key
    ensures !HasGetMarker(key) ==> r == key
  {
    if HasGetMarker(key) then key[4..] else key
  }

  /** The base name of one registry entry: the sanitised name, behind `prefix.` when a prefix is set. */
  function BaseName(prefix: Option<string>, name: string): (r: string)
    ensures prefix.None? ==> ' ' !in r && (r == [] <==> name == [])
    ensures prefix.Some? ==>
      |prefix.value| < |r| && r[..|prefix.value| + 1] == prefix.value + "." && ' ' !in r[|prefix.value| + 1..]
  {
    var base := Sanitize(name);
    match prefix
    case None => base
    case Some(p) => p + "." + base
  }

  /** The exported name of one field of an entry whose base name is `baseName`. */
  function FullName(baseName: string, key: string): string {
    baseName + "." + FieldName(key)
  }

  /** The two shapes every exported metric name has, written out in one piece. */
  function MetricName(prefix: Option<string>, name: string, key: string): string {
    match prefix
    case None => Sanitize(name) + "." + FieldName(key)
    case Some(p) => p + "." + Sanitize(name) + "." + FieldName(key)
  }

  /** A run of `n` spaces. */
  function Spaces(n: nat): (r: string)
    ensures |r| == n && forall i | 0 <= i < n :: r[i] == ' '
  {
    if n == 0 then [] else " " + Spaces(n - 1)
  }

  lemma FullNameHasOneOfTwoShapes(prefix: Option<string>, name: string, key: string)
    ensures FullName(BaseName(prefix, name), key) == MetricName(prefix, name, key)
  {
  }

  lemma {:induction false} CollapseInsideRun(n: nat)
    ensures Collapse(Spaces(n), true) == []
  {
    if n > 0 {
      assert Spaces(n)[1..] == Spaces(n - 1);
      CollapseInsideRun(n - 1);
    }
  }

  /** A run of spaces alone, of any length, becomes exactly one underscore. */
  lemma SanitizeSpaceRun(n: nat)
    requires n >= 1
    ensures Sanitize(Spaces(n)) == "_"
  {
    assert Spaces(n)[1..] == Spaces(n - 1);
    CollapseInsideRun(n - 1);
  }

  /** A character other than a space ends any run: the text on each side of it is rewritten on its own. */
  lemma {:induction false} CollapseSplitsAtNonSpace(a: string, c: char, b: string, inRun: bool)
    requires c != ' '
    ensures Collapse(a + [c] + b, inRun) == Collapse(a, inRun) + [c] + Collapse(b, false)
    decreases |a|
  {
    if a == [] {
      assert a + [c] + b == [c] + b;
      assert ([c] + b)[1..] == b;
    } else {
      assert (a + [c] + b)[1..] == a[1..] + [c] + b;
      CollapseSplitsAtNonSpace(a[1..], c, b, a[0] == ' ');
    }
  }

  /**
   * Together with `SanitizeSpaceRun` this pins `Sanitize` down: a name is
   * rewritten piece by piece, non-space characters kept where they are.
   */
  lemma SanitizeSplitsAtNonSpace(a: string, c: char, b: string)
    requires c != ' '
    ensures Sanitize(a + [c] + b) == Sanitize(a) + [c] + Sanitize(b)
  {
    CollapseSplitsAtNonSpace(a, c, b, false);
  }

  /** A name without spaces is exported unchanged. */
  lemma {:induction false} SanitizeKeepsSpaceFreeNames(s: string)
    requires ' ' !in s
    ensures Sanitize(s) == s
    decreases |s|
  {
    if s != [] {
      assert s[0] in s;
      assert forall ch | ch in s[1..] :: ch in s;
      SanitizeKeepsSpaceFreeNames(s[1..]);
    }
  }

  /** Sanitising an already sanitised name changes nothing. */
  lemma SanitizeIsIdempotent(s: string)
    ensures Sanitize(Sanitize(s)) == Sanitize(s)
  {
    SanitizeKeepsSpaceFreeNames(Sanitize(s));
  }

  /** Exactly one leading `get_` is dropped, so `get_95th_percentile` is exported as `95th_percentile`. */
  lemma FieldNameDropsOneMarker(key: string)
    ensures FieldName("get_" + key) == key
    ensures !HasGetMarker(key) ==> FieldName(key) == key
    ensures FieldName("get_95th_percentile") == "95th_percentile"
  {
    assert ("get_" + key)[..4] == "get_";
  }
}
