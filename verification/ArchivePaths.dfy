/** Archive member names as paths, and links that stay inside the archive. */
module ArchivePaths {
  import opened Wrappers

  type Path = seq<string>

  /** Text up to the first "/", and what follows it. */
  function Head(s: string): (r: string)
    ensures |r| <= |s| && (|r| < |s| ==> s[|r|] == '/') && r == s[..|r|]
    ensures '/' !in r
  {
    if s == "" || s[0] == '/' then "" else [s[0]] + Head(s[1..])
  }

  function Rest(s: string): (r: string)
    ensures |r| <= |s| && (s != "" ==> |r| < |s|)
  {
    var n := |Head(s)|;
    if n == |s| then "" else s[n + 1..]
  }

  /** The parts of a relative path; empty and "." parts vanish. */
  function Parts(s: string): (p: Path)
    ensures forall i :: 0 <= i < |p| ==> p[i] !in {"", "."} && '/' !in p[i]
    decreases |s|
  {
    if s == "" then []
    else (if Head(s) in {"", "."} then [] else [Head(s)]) + Parts(Rest(s))
  }

  function Joined(p: Path): string {
    if p == [] then "." else if |p| == 1 then p[0] else p[0] + "/" + Joined(p[1..])
  }

  /** The name is spelled as its parts joined. */
  predicate Canonical(name: string) {
    Joined(Parts(name)) == name
  }

  predicate Absolute(s: string) {
    s != "" && s[0] == '/'
  }

  /** Lexical normalization from the root: what is left on the way, or nothing once ".."
      leaves the root. */
  function Normalized(from: Path, parts: Path): Option<Path>
    decreases |parts|
  {
    if parts == [] then Some(from)
    else if parts[0] == ".." then
      if from == [] then None else Normalized(from[..|from| - 1], parts[1..])
    else Normalized(from + [parts[0]], parts[1..])
  }

  predicate Portable(member: Path, link: string) {
    && !Absolute(link) && '\\' !in link
    && member != []
    && Normalized([], member[..|member| - 1] + Parts(link)).Some?
  }

  /** `_portable_symlink` counts depth instead of keeping the path; it accepts exactly the
      links whose lexical normalization never leaves the root. */
  method PortableSymlink(member: Path, link: string) returns (ok: bool)
    requires member != []
    ensures ok == Portable(member, link)
  {
    if Absolute(link) || '\\' in link {
      return false;
    }
    var parts, depth := member[..|member| - 1] + Parts(link), 0;
    ghost var at: Path := [];
    for i := 0 to |parts|
      invariant depth == |at|
      invariant Normalized(at, parts[i..]) == Normalized([], parts)
    {
      assert parts[i..][1..] == parts[i + 1..];
      if parts[i] == ".." {
        depth := depth - 1;
        if depth < 0 {
          return false;
        }
        at := at[..|at| - 1];
      } else {
        depth := depth + 1;
        at := at + [parts[i]];
      }
    }
    ok := true;
  }

  /** A member whose normalization succeeds normalizes to a path without "..". */
  lemma {:induction false} NormalizedIsPlain(from: Path, parts: Path)
    requires Normalized(from, parts).Some? && ".." !in from
    ensures ".." !in Normalized(from, parts).value
    decreases |parts|
  {
    if parts != [] {
      if parts[0] == ".." {
        NormalizedIsPlain(from[..|from| - 1], parts[1..]);
      } else {
        NormalizedIsPlain(from + [parts[0]], parts[1..]);
      }
    }
  }

  lemma {:induction false} HeadOf(part: string, s: string)
    requires '/' !in part && (s == "" || s[0] == '/')
    ensures Head(part + s) == part
  {
    if part == "" {
      assert part + s == s;
    } else {
      assert (part + s)[1..] == part[1..] + s;
      HeadOf(part[1..], s);
    }
  }

  /** Joining parts and splitting again gives the parts back. */
  lemma {:induction false} PartsJoined(p: Path)
    requires forall i :: 0 <= i < |p| ==> p[i] !in {"", "."} && '/' !in p[i]
    ensures Parts(Joined(p)) == p
  {
    if p == [] {
      assert Parts(".") == Parts(Rest(".")) by {
        assert Head(".") == ".";
      }
      assert Rest(".") == "";
    } else if |p| == 1 {
      assert p[0] + "" == p[0];
      HeadOf(p[0], "");
      assert Parts(p[0]) == [p[0]] + Parts("");
      assert p == [p[0]];
    } else {
      var tail := "/" + Joined(p[1..]);
      assert Joined(p) == p[0] + tail;
      HeadOf(p[0], tail);
      assert Rest(p[0] + tail) == Joined(p[1..]);
      PartsJoined(p[1..]);
      assert p == [p[0]] + p[1..];
    }
  }

  lemma OnePart(s: string)
    requires '/' !in s && s !in {"", "."}
    ensures Parts(s) == [s]
  {
    PartsJoined([s]);
  }

  /** So every list of parts has exactly one canonical spelling. */
  lemma CanonicalIsUnique(name: string, p: Path)
    requires forall i :: 0 <= i < |p| ==> p[i] !in {"", "."} && '/' !in p[i]
    ensures Canonical(name) && Parts(name) == p <==> name == Joined(p)
  {
    PartsJoined(p);
  }
}
