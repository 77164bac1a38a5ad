/** The two string operations the handlers rely on: `String.prototype.endsWith`
    and the first piece of `String.prototype.split('@')`. */
module Text {

  /** `s.endsWith(suffix)`: `s` is some string followed by `suffix`. */
  predicate EndsWith(s: string, suffix: string)
  {
    |suffix| <= |s| && s[|s| - |suffix|..] == suffix
  }

  /** A string ends with `suffix` exactly when it is some head followed by `suffix`. */
  lemma EndsWithIsConcat(s: string, suffix: string)
    ensures EndsWith(s, suffix) <==> exists head :: s == head + suffix
  {
    if EndsWith(s, suffix) {
      var head := s[..|s| - |suffix|];
      assert s == head + suffix;
    }
    if exists head :: s == head + suffix {
      var head :| s == head + suffix;
      assert s[|s| - |suffix|..] == suffix;
    }
  }

  /** `s.split('@')[0]`: the part of `s` before its first '@', or all of `s`
      when it has none. */
  function LocalPart(s: string): (local: string)
    ensures local <= s
    ensures '@' !in local
    ensures |local| < |s| ==> s[|local|] == '@'
  {
    if s == [] || s[0] == '@' then [] else [s[0]] + LocalPart(s[1..])
  }

  /** Splitting at the first '@': the local part, then '@', then the rest. */
  lemma {:induction false} LocalPartSplit(local: string, rest: string)
    requires '@' !in local
    ensures LocalPart(local + ['@'] + rest) == local
    ensures LocalPart(local) == local
  {
    if local != [] {
      assert (local + ['@'] + rest)[1..] == local[1..] + ['@'] + rest;
      LocalPartSplit(local[1..], rest);
    }
  }
}
