/** The limit patterns of internal/route/route.go.

    fold is the case folding of strings.EqualFold on one character; every claim holds for any folding.
  */
module RouteLimits {
  import opened Prelude
  import opened Paths
  import Router

  datatype Pattern = Pattern(
    verb: string, segments: seq<string>, raw: string, limit: nat, group: string, unlimited: bool)

  type Folding = char -> char

  predicate EqualFold(fold: Folding, a: string, b: string) {
    |a| == |b| && forall i :: 0 <= i < |a| ==> fold(a[i]) == fold(b[i])
  }

  /** needle matches the last segments of haystack. */
  predicate MatchesSuffix(fold: Folding, haystack: seq<string>, needle: seq<string>) {
    && |needle| <= |haystack|
    && forall j :: 0 <= j < |needle| ==> EqualFold(fold, haystack[|haystack| - |needle| + j], needle[j])
  }

  predicate Matches(fold: Folding, p: Pattern, verb: string, tokens: seq<string>) {
    && EqualFold(fold, verb, p.verb)
    && (if p.segments == [] then tokens == [] else MatchesSuffix(fold, tokens, p.segments))
  }

  method ComputeEqualFold(fold: Folding, a: string, b: string) returns (equal: bool)
    ensures equal <==> EqualFold(fold, a, b)
  {
    if |a| != |b| {
      return false;
    }
    for i := 0 to |a|
      invariant forall k :: 0 <= k < i ==> fold(a[k]) == fold(b[k])
    {
      if fold(a[i]) != fold(b[i]) {
        return false;
      }
    }
    return true;
  }

  method MatchesSuffixSegments(fold: Folding, haystack: seq<string>, needle: seq<string>) returns (found: bool)
    ensures found <==> MatchesSuffix(fold, haystack, needle)
  {
    if needle == [] {
      return true;
    }
    var start := |haystack| - |needle|;
    if start < 0 {
      return false;
    }
    for j := 0 to |needle|
      invariant forall k :: 0 <= k < j ==> EqualFold(fold, haystack[start + k], needle[k])
    {
      var equal := ComputeEqualFold(fold, haystack[start + j], needle[j]);
      if !equal {
        return false;
      }
    }
    return true;
  }

  method Match(fold: Folding, p: Pattern, verb: string, path: string) returns (found: bool)
    ensures found <==> Matches(fold, p, verb, SplitSegments(path))
  {
    var sameVerb := ComputeEqualFold(fold, verb, p.verb);
    if !sameVerb {
      return false;
    }
    var tokens := ComputeSplitSegments(path);
    if p.segments == [] {
      return tokens == [];
    }
    found := MatchesSuffixSegments(fold, tokens, p.segments);
  }

  /** The matcher: patterns in configuration order, the first match deciding. */
  class Matcher {
    var patterns: seq<Pattern>

    constructor (patterns: seq<Pattern>)
      ensures this.patterns == patterns
    {
      this.patterns := patterns;
    }

    method AddPattern(p: Pattern)
      modifies this
      ensures patterns == old(patterns) + [p]
    {
      patterns := patterns + [p];
    }

    method FindMatch(fold: Folding, verb: string, path: string) returns (found: Option<nat>)
      ensures match found
              case Some(i) =>
                && i < |patterns| && Matches(fold, patterns[i], verb, SplitSegments(path))
                && forall k :: 0 <= k < i ==> !Matches(fold, patterns[k], verb, SplitSegments(path))
              case None => forall k :: 0 <= k < |patterns| ==> !Matches(fold, patterns[k], verb, SplitSegments(path))
      ensures found == FirstMatch(fold, patterns, verb, SplitSegments(path))
    {
      for i := 0 to |patterns|
        invariant forall k :: 0 <= k < i ==> !Matches(fold, patterns[k], verb, SplitSegments(path))
      {
        var matches := Match(fold, patterns[i], verb, path);
        if matches {
          FirstMatchIs(fold, patterns, verb, SplitSegments(path), i);
          return Some(i);
        }
      }
      FirstMatchIs(fold, patterns, verb, SplitSegments(path), |patterns|);
      return None;
    }

    /** Exempt from limiting: the first matching pattern is an unlimited one. */
    method IsUnlimited(fold: Folding, verb: string, path: string) returns (unlimited: bool)
      ensures var m := FirstMatch(fold, patterns, verb, SplitSegments(path));
              unlimited <==> m.Some? && patterns[m.value].unlimited
    {
      var found := FindMatch(fold, verb, path);
      return found.Some? && patterns[found.value].unlimited;
    }
  }

  function FirstMatch(fold: Folding, patterns: seq<Pattern>, verb: string, tokens: seq<string>): (found: Option<nat>)
    ensures found.Some? ==> found.value < |patterns|
  {
    if patterns == [] then None
    else if Matches(fold, patterns[0], verb, tokens) then Some(0)
    else match FirstMatch(fold, patterns[1..], verb, tokens)
         case Some(i) => Some(i + 1)
         case None => None
  }

  lemma {:induction false} FirstMatchIs(fold: Folding, patterns: seq<Pattern>, verb: string, tokens: seq<string>,
                                        i: nat)
    requires i <= |patterns|
    requires i < |patterns| ==> Matches(fold, patterns[i], verb, tokens)
    requires forall k :: 0 <= k < i ==> !Matches(fold, patterns[k], verb, tokens)
    ensures FirstMatch(fold, patterns, verb, tokens) == if i < |patterns| then Some(i) else None
  {
    if i > 0 {
      FirstMatchIs(fold, patterns[1..], verb, tokens, i - 1);
    }
  }

  // ----- Patterns and mounts agree -----

  /** The rebuilding of a path by the router never changes which pattern limits it. */
  lemma RebuildingKeepsLimits(fold: Folding, patterns: seq<Pattern>, verb: string, path: string)
    ensures FirstMatch(fold, patterns, verb, SplitSegments(Join(Segments(path)))) ==
            FirstMatch(fold, patterns, verb, SplitSegments(path))
  {
    RebuildingIsInvisible(path);
  }

  /** Patterns match by suffix: one that matches behind a mount matches the whole path too, exactly unless it is a
      pattern without segments, which matches the root, and the prefix of the mount has tokens. */
  lemma MatchBehindMountMatchesWhole(fold: Folding, table: seq<Router.Provider>, p: Pattern, verb: string, path: string)
    requires Router.Dispatch(table, Segments(path)).Some?
    requires Matches(fold, p, verb, SplitSegments(Router.Dispatch(table, Segments(path)).value.path))
    ensures var mount := SplitSegments(Router.Dispatch(table, Segments(path)).value.provider.prefix);
            Matches(fold, p, verb, SplitSegments(path)) <==> !(p.segments == [] && mount != [])
  {
    Router.MountAddsUp(table, path);
    var d := Router.Dispatch(table, Segments(path)).value;
    ColonSplitAppend(Segments(d.provider.prefix), Segments(d.path));
    var front, back := ColonSplit(Segments(d.provider.prefix)), SplitSegments(d.path);
    assert SplitSegments(path) == front + back;
    if MatchesSuffix(fold, back, p.segments) {
      SuffixOfLonger(fold, front, back, p.segments);
    }
  }

  /** A request for the mount "/a" itself: the pattern without segments limits it behind the mount only. */
  lemma RootPatternMatchesOnlyBehindMount(fold: Folding) returns (table: seq<Router.Provider>, p: Pattern)
    ensures Router.Dispatch(table, Segments("/a")).Some?
    ensures Matches(fold, p, "GET", SplitSegments(Router.Dispatch(table, Segments("/a")).value.path))
    ensures !Matches(fold, p, "GET", SplitSegments("/a"))
  {
    table, p := [Router.Provider("a", "/a", Some(0))], Pattern("GET", [], "", 1, "", false);
    assert Join(["a"]) == "/a";
    SegmentsOfJoin(["a"]);
    SegmentsOfJoin([]);
    assert Join(["a"][1..]) == Join([]);
    assert Split("a", ':') == ["a"];
    assert ColonSplit(["a"]) == ["a"];
  }

  lemma SuffixOfLonger(fold: Folding, front: seq<string>, back: seq<string>, needle: seq<string>)
    requires MatchesSuffix(fold, back, needle)
    ensures MatchesSuffix(fold, front + back, needle)
  {
    var n := |front + back| - |needle|;
    forall j | 0 <= j < |needle|
      ensures EqualFold(fold, (front + back)[n + j], needle[j])
    {
      assert (front + back)[n + j] == back[|back| - |needle| + j];
    }
  }

  // ----- What a match means -----

  /** Equal but for case, whatever the folding takes for case. */
  predicate SameButCase(fold: Folding, a: string, b: string) {
    |a| == |b| && forall i :: 0 <= i < |a| ==> fold(a[i]) == fold(b[i])
  }

  lemma SuffixMatchesExactlyWhen(fold: Folding, front: seq<string>, back: seq<string>, needle: seq<string>)
    requires |back| == |needle|
    ensures MatchesSuffix(fold, front + back, needle) <==>
            forall j :: 0 <= j < |back| ==> SameButCase(fold, back[j], needle[j])
  {
    var tokens := front + back;
    assert forall j :: 0 <= j < |back| ==> tokens[|tokens| - |needle| + j] == back[j];
    if MatchesSuffix(fold, tokens, needle) {
      forall j | 0 <= j < |back|
        ensures SameButCase(fold, back[j], needle[j])
      {
        assert EqualFold(fold, tokens[|tokens| - |needle| + j], needle[j]);
      }
    }
  }

  /** A pattern matches a request with its method, whose path ends with the pattern's segments, all but for case; a
      pattern without segments matches the root alone. */
  lemma MatchesExactlyWhen(fold: Folding, p: Pattern, verb: string, front: seq<string>, back: seq<string>)
    requires |back| == |p.segments|
    ensures Matches(fold, p, verb, front + back) <==>
              && SameButCase(fold, verb, p.verb)
              && (p.segments == [] ==> front == [])
              && forall j :: 0 <= j < |back| ==> SameButCase(fold, back[j], p.segments[j])
  {
    if p.segments == [] {
      assert front + back == [] <==> front == [];
    } else {
      SuffixMatchesExactlyWhen(fold, front, back, p.segments);
    }
  }

  /** A path with fewer tokens than the pattern does not match it. */
  lemma ShorterPathDoesNotMatch(fold: Folding, p: Pattern, verb: string, tokens: seq<string>)
    requires |tokens| < |p.segments|
    ensures !Matches(fold, p, verb, tokens)
  {
  }
}
