/** `_match_exclude`, which scanner.py and mft_scanner.py define with the
    same meaning: a path is excluded when some pattern, stripped of
    surrounding blanks and not empty, occurs in it, both lowercased. */
module Exclude {
  import opened Text

  predicate PatternMatches(path: string, pattern: string)
  {
    Strip(pattern) != [] && Contains(Lower(path), Lower(Strip(pattern)))
  }

  predicate Excluded(path: string, patterns: seq<string>)
  {
    exists i | 0 <= i < |patterns| :: PatternMatches(path, patterns[i])
  }

  /** One step of the loop: the stripped pattern `p` is not empty and occurs
      in the already lowercased path. */
  predicate Hit(lower: string, p: string)
  {
    p != [] && Contains(lower, Lower(p))
  }

  /** The early-return loop over the patterns. */
  method MatchExclude(path: string, patterns: seq<string>) returns (b: bool)
    ensures b == Excluded(path, patterns)
  {
    var lower := Lower(path);
    var i := 0;
    while i < |patterns|
      invariant 0 <= i <= |patterns|
      invariant forall j | 0 <= j < i :: !PatternMatches(path, patterns[j])
    {
      var hit := Hit(lower, Strip(patterns[i]));
      HitMatches(path, lower, patterns[i]);
      if hit {
        return true;
      }
      i := i + 1;
    }
    return false;
  }

  lemma HitMatches(path: string, lower: string, pattern: string)
    requires lower == Lower(path)
    ensures Hit(lower, Strip(pattern)) == PatternMatches(path, pattern)
  {
  }

  /** Exclusion is monotone: a path that is excluded stays excluded however
      it is extended, so an excluded directory excludes everything below it. */
  lemma ExcludedExtends(path: string, ext: string, patterns: seq<string>)
    requires Excluded(path, patterns)
    ensures Excluded(path + ext, patterns)
  {
    var i :| 0 <= i < |patterns| && PatternMatches(path, patterns[i]);
    LowerConcat(path, ext);
    ContainsInLonger(Lower(path), Lower(ext), Lower(Strip(patterns[i])));
    assert PatternMatches(path + ext, patterns[i]);
  }

  /** A blank pattern never matches, so adding one changes nothing. */
  lemma BlankPatternIgnored(path: string, patterns: seq<string>, blank: string)
    requires forall k | 0 <= k < |blank| :: IsSpace(blank[k])
    ensures Excluded(path, patterns + [blank]) == Excluded(path, patterns)
  {
    StripEmptyIffBlank(blank);
    var ps := patterns + [blank];
    if Excluded(path, ps) {
      var i :| 0 <= i < |ps| && PatternMatches(path, ps[i]);
      assert i < |patterns| && ps[i] == patterns[i];
    }
    if Excluded(path, patterns) {
      var i :| 0 <= i < |patterns| && PatternMatches(path, patterns[i]);
      assert ps[i] == patterns[i];
    }
  }

  /** The test ignores the case of the path. */
  lemma ExcludedIgnoresCase(path: string, patterns: seq<string>)
    ensures Excluded(Lower(path), patterns) == Excluded(path, patterns)
  {
    LowerIdempotent(path);
  }
}
