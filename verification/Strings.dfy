/** String helpers that several components share. */
module Strings {
  predicate All(s: string, p: char -> bool) {
    forall i | 0 <= i < |s| :: p(s[i])
  }

  /** The length of the longest prefix whose characters satisfy `p`. */
  function RunLength(s: string, p: char -> bool): (n: nat)
    ensures n <= |s| && All(s[..n], p) && (n < |s| ==> !p(s[n]))
  {
    if s == "" || !p(s[0]) then 0
    else
      var n := RunLength(s[1..], p);
      assert s[..n + 1] == [s[0]] + s[1..][..n];
      n + 1
  }

  lemma {:induction false} RunStops(run: string, rest: string, p: char -> bool)
    requires All(run, p) && (rest == "" || !p(rest[0]))
    ensures RunLength(run + rest, p) == |run|
  {
    if run == "" {
      assert run + rest == rest;
    } else {
      assert (run + rest)[1..] == run[1..] + rest;
      RunStops(run[1..], rest, p);
    }
  }

  function LowerChar(c: char): char {
    if 'A' <= c <= 'Z' then (c as int + 32) as char else c
  }

  /** ASCII letters in lower case. */
  function Lower(s: string): string {
    if s == "" then "" else [LowerChar(s[0])] + Lower(s[1..])
  }

  function AfterLastSlash(path: string): string {
    if path == "" then "" else if path[|path| - 1] == '/' then "" else AfterLastSlash(path[..|path| - 1]) + [path[|path| - 1]]
  }

  /** The last segment of a path, trailing slashes aside. */
  function Basename(path: string): string {
    if path != "" && path[|path| - 1] == '/' then Basename(path[..|path| - 1]) else AfterLastSlash(path)
  }

  /** Lower-casing goes letter by letter and leaves everything else. */
  lemma {:induction false} LowerExact(s: string)
    ensures |Lower(s)| == |s|
    ensures forall i | 0 <= i < |s| ::
              Lower(s)[i] == if 'A' <= s[i] <= 'Z' then "abcdefghijklmnopqrstuvwxyz"[s[i] as int - 'A' as int] else s[i]
  {
    if s != "" {
      LowerExact(s[1..]);
    }
  }

  predicate Slashes(s: string) { forall i | 0 <= i < |s| :: s[i] == '/' }

  /** A directory, empty or ending in a slash, a last segment, and slashes after it. */
  predicate IsLastSegment(path: string, directory: string, name: string, slashes: string) {
    && path == directory + name + slashes && Slashes(slashes) && '/' !in name
    && (directory == "" || directory[|directory| - 1] == '/')
  }

  lemma {:induction false} SegmentAfterSlash(directory: string, name: string)
    requires '/' !in name && (directory == "" || directory[|directory| - 1] == '/')
    ensures AfterLastSlash(directory + name) == name
  {
    var path := directory + name;
    if name == "" {
      assert path == directory;
    } else {
      assert path[..|path| - 1] == directory + name[..|name| - 1];
      SegmentAfterSlash(directory, name[..|name| - 1]);
    }
  }

  lemma {:induction false} BasenameOf(path: string, directory: string, name: string, slashes: string)
    requires IsLastSegment(path, directory, name, slashes) && name != ""
    ensures Basename(path) == name
    decreases |slashes|
  {
    if slashes == "" {
      assert path == directory + name;
      SegmentAfterSlash(directory, name);
    } else {
      assert path[..|path| - 1] == directory + name + slashes[..|slashes| - 1];
      BasenameOf(path[..|path| - 1], directory, name, slashes[..|slashes| - 1]);
    }
  }

  lemma {:induction false} SegmentSplit(path: string) returns (directory: string)
    ensures path == directory + AfterLastSlash(path) && '/' !in AfterLastSlash(path)
    ensures directory == "" || directory[|directory| - 1] == '/'
  {
    if path == "" || path[|path| - 1] == '/' {
      directory := path;
    } else {
      directory := SegmentSplit(path[..|path| - 1]);
    }
  }

  lemma {:induction false} BasenameSplit(path: string) returns (directory: string, slashes: string)
    ensures IsLastSegment(path, directory, Basename(path), slashes)
  {
    if path != "" && path[|path| - 1] == '/' {
      directory, slashes := BasenameSplit(path[..|path| - 1]);
      slashes := slashes + "/";
    } else {
      directory := SegmentSplit(path);
      slashes := "";
    }
  }

  /** The base name is the last segment that is not empty. */
  lemma BasenameExact(path: string, name: string)
    requires name != ""
    ensures Basename(path) == name <==> exists directory, slashes :: IsLastSegment(path, directory, name, slashes)
  {
    if Basename(path) == name {
      var directory, slashes := BasenameSplit(path);
    }
    if directory, slashes :| IsLastSegment(path, directory, name, slashes) {
      BasenameOf(path, directory, name, slashes);
    }
  }
}
