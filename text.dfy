/** The few string operations the helpers use (Java's `String` methods). */
module Text {

  /** `s.startsWith(prefix)`. */
  predicate StartsWith(s: string, prefix: string) {
    |prefix| <= |s| && s[..|prefix|] == prefix
  }

  /** `t` occurs in `s` starting at position `i`. */
  predicate OccursAt(s: string, t: string, i: nat) {
    i + |t| <= |s| && s[i..i + |t|] == t
  }

  /** `s.contains(t)`. */
  predicate Contains(s: string, t: string) {
    exists i: nat | i <= |s| :: OccursAt(s, t, i)
  }

  /** Lower-casing of one character; only the ASCII letters A-Z are mapped. */
  function LowerChar(c: char): (l: char)
    ensures 'A' <= c <= 'Z' ==> 'a' <= l <= 'z' && l as int - c as int == 32
    ensures !('A' <= c <= 'Z') ==> l == c
  {
    if 'A' <= c <= 'Z' then (c as int + 32) as char else c
  }

  /** `s.toLowerCase()`, restricted to ASCII letters. */
  function ToLower(s: string): (l: string)
    ensures |l| == |s|
    ensures forall i :: 0 <= i < |s| ==> l[i] == LowerChar(s[i])
    ensures forall i :: 0 <= i < |l| ==> !('A' <= l[i] <= 'Z')
  {
    seq(|s|, i requires 0 <= i < |s| => LowerChar(s[i]))
  }

  const AssetsPrefix: string := "assets/"

  /** The path normalisation both loaders apply: a leading "assets/" is dropped
      (`path.substring(7)`), any other path is kept as it is. */
  function StripAssets(path: string): (r: string)
    ensures StartsWith(path, AssetsPrefix) ==> AssetsPrefix + r == path
    ensures !StartsWith(path, AssetsPrefix) ==> r == path
    ensures |r| + 7 == |path| <==> StartsWith(path, AssetsPrefix)
  {
    if StartsWith(path, AssetsPrefix) then path[7..] else path
  }

  /** Prefixing a path with "assets/" and stripping it again gives the path back. */
  lemma StripAssetsInverse(p: string)
    ensures StripAssets(AssetsPrefix + p) == p
  {
    assert (AssetsPrefix + p)[..7] == AssetsPrefix;
  }
}
