/**
 Driver names and driver paths (lib/ptolemy/poller/managers.py:129-133).
 */
module DriverPaths {
  /** str.replace(pattern, ''): every occurrence goes, from the left, none overlapping. */
  function RemoveAll(s: string, pattern: string): string
    requires pattern != ""
  {
    if |s| < |pattern| then s
    else if s[..|pattern|] == pattern then RemoveAll(s[|pattern|..], pattern)
    else [s[0]] + RemoveAll(s[1..], pattern)
  }

  ghost predicate OccursAt(s: string, pattern: string, i: int) {
    0 <= i <= |s| - |pattern| && s[i..i + |pattern|] == pattern
  }

  ghost predicate Occurs(s: string, pattern: string) {
    exists i :: OccursAt(s, pattern, i)
  }

  function Prefix(dir: string, spec: string): (p: string)
    ensures p != ""
  {
    dir + spec + "/"
  }

  /** _get_driver_path */
  function GetPath(dir: string, spec: string, driver: string): string {
    Prefix(dir, spec) + driver
  }

  /** _strip_driver_path */
  function StripPath(dir: string, spec: string, path: string): string {
    RemoveAll(path, Prefix(dir, spec))
  }

  lemma {:induction false} RemoveAllShrinks(s: string, pattern: string)
    requires pattern != ""
    ensures |RemoveAll(s, pattern)| <= |s|
    ensures Occurs(s, pattern) ==> |RemoveAll(s, pattern)| < |s|
    ensures !Occurs(s, pattern) ==> RemoveAll(s, pattern) == s
    decreases |s|
  {
    if |s| >= |pattern| {
      if s[..|pattern|] == pattern {
        RemoveAllShrinks(s[|pattern|..], pattern);
        assert OccursAt(s, pattern, 0);
      } else {
        RemoveAllShrinks(s[1..], pattern);
        forall i ensures OccursAt(s, pattern, i) <==> OccursAt(s[1..], pattern, i - 1) {
          if 1 <= i <= |s| - |pattern| {
            assert s[1..][i - 1..i - 1 + |pattern|] == s[i..i + |pattern|];
          }
        }
        assert Occurs(s, pattern) ==> Occurs(s[1..], pattern);
        if i :| OccursAt(s[1..], pattern, i) {
          assert OccursAt(s, pattern, i + 1);
        }
      }
    }
  }

  /** Stripping the path of a driver gives its name back if and only if the directory prefix does not
      occur in the name itself. */
  lemma StripUndoesGetPath(dir: string, spec: string, driver: string)
    ensures StripPath(dir, spec, GetPath(dir, spec, driver)) == driver <==> !Occurs(driver, Prefix(dir, spec))
  {
    var p := Prefix(dir, spec);
    assert (p + driver)[..|p|] == p && (p + driver)[|p|..] == driver;
    RemoveAllShrinks(driver, p);
  }

  /** The name of a driver in a directory that repeats the prefix does not survive. */
  lemma NameIsLost()
    ensures StripPath("d/", "s", GetPath("d/", "s", "d/s/x")) == "x"
  {
    var p := Prefix("d/", "s");
    assert p == "d/s/" && |p| == 4;
    assert GetPath("d/", "s", "d/s/x")[4..] == "d/s/x" && "d/s/x"[4..] == "x";
    assert RemoveAll("d/s/x", p) == RemoveAll("x", p);
  }

  /** Two drivers of a spec have different paths. */
  lemma PathsAreDistinct(dir: string, spec: string, a: string, b: string)
    requires GetPath(dir, spec, a) == GetPath(dir, spec, b)
    ensures a == b
  {
    var p := Prefix(dir, spec);
    assert (p + a)[|p|..] == a && (p + b)[|p|..] == b;
  }
}
