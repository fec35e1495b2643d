/** The two ways the file manager reads a target path, and conflict names.

    A path is the list of its "/"-separated parts.  Every path built by the sync
    service starts with the fixed root folder, so only the end of the text can be
    touched by the whitespace stripping in the file manager. */
module SyncPaths {
  import opened Decimals
  import opened Texts

  type Path = seq<string>

  const MAX_SEGMENT_LENGTH := 180
  const MAX_ATTEMPTS := 1000

  /** `FileManager._resolve` on the joined text: trailing whitespace of the whole
      path is removed, then dot parts are folded. */
  function Resolved(p: Path): Path {
    if p == [] then []
    else
      var init, last := p[..|p| - 1], RStrip(p[|p| - 1]);
      if last == "" || last == "." then init
      else if last == ".." then (if init == [] then [] else init[..|init| - 1])
      else init + [last]
  }

  /** Where `create_upload_session(parent, name)` will put the file: the parent
      text is resolved on its own, and the name is stripped on both sides. */
  function UploadPath(p: Path): Path
    requires p != []
  {
    Resolved(p[..|p| - 1]) + [Strip(p[|p| - 1])]
  }

  predicate StartsWith(s: string, prefix: string) {
    prefix <= s
  }

  /** Upload names refused by `_upload_destination`. */
  predicate GoodName(name: string) {
    name !in {"", ".", "..", ".echo-trash"} && !StartsWith(name, ".echo-upload-")
  }

  /** No stripping and no folding happens anywhere in the path: its folder does not
      end in whitespace and its name neither starts nor ends with it. */
  predicate Trimmed(p: Path) {
    && p != []
    && TrimmedName(p[|p| - 1])
    && (|p| >= 2 ==> p[|p| - 2] !in {"", ".", ".."} && !IsSpace(p[|p| - 2][|p[|p| - 2]| - 1]))
  }

  /** Both readings of a trimmed path agree with the path itself, and no other path
      is read as itself by an upload. */
  lemma UploadPathFixed(p: Path)
    requires p != []
    ensures UploadPath(p) == p <==> Trimmed(p)
    ensures UploadPath(p) == p && GoodName(p[|p| - 1]) ==> Resolved(p) == p
  {
    var init, name := p[..|p| - 1], p[|p| - 1];
    StripFixed(name);
    assert p == init + [name];
    assert UploadPath(p) == p <==> Resolved(init) == init && Strip(name) == name by {
      assert UploadPath(p)[|UploadPath(p)| - 1] == Strip(name);
      assert UploadPath(p)[..|UploadPath(p)| - 1] == Resolved(init);
    }
    if init != [] {
      var folder := init[|init| - 1];
      assert init == init[..|init| - 1] + [folder];
      assert folder == p[|p| - 2];
      ResolvedFixed(init);
    }
  }

  lemma ResolvedFixed(p: Path)
    requires p != []
    ensures Resolved(p) == p <==>
            p[|p| - 1] !in {"", ".", ".."} && !IsSpace(p[|p| - 1][|p[|p| - 1]| - 1])
  {
    var init, name := p[..|p| - 1], p[|p| - 1];
    assert p == init + [name];
    var last := RStrip(name);
    if last !in {"", ".", ".."} {
      assert Resolved(p)[|p| - 1] == last;
    } else {
      assert |Resolved(p)| < |p|;
    }
  }

  // ----- conflict names -----

  /** Index of the last dot, or -1. */
  function LastDot(s: string): (i: int)
    ensures -1 <= i < |s|
    ensures 0 <= i ==> s[i] == '.' && '.' !in s[i + 1..]
    ensures i == -1 ==> '.' !in s
  {
    if s == "" then -1
    else if s[|s| - 1] == '.' then |s| - 1
    else
      var i := LastDot(s[..|s| - 1]);
      assert s == s[..|s| - 1] + [s[|s| - 1]];
      assert 0 <= i ==> s[i + 1..] == s[..|s| - 1][i + 1..] + [s[|s| - 1]];
      i
  }

  function Suffix(name: string): string {
    var i := LastDot(name);
    if 0 < i < |name| - 1 then name[i..] else ""
  }

  function Stem(name: string): string {
    var i := LastDot(name);
    if 0 < i < |name| - 1 then name[..i] else name
  }

  function Marker(attempt: nat): string {
    if attempt == 1 then "" else "-" + Decimal(attempt)
  }

  /** The attempt-th keep-both name beside `target`. */
  function ConflictName(target: Path, digest: string, attempt: nat): (r: Path)
    requires target != []
    ensures |r| == |target| && r[..|r| - 1] == target[..|target| - 1]
  {
    var name := target[|target| - 1];
    var suffix := Suffix(name);
    var room := MAX_SEGMENT_LENGTH - |suffix| - 21;
    var stem := Take(Stem(name), if room < 1 then 1 else room);
    target[..|target| - 1] + [stem + " (conflict " + Take(digest, 8) + ")" + Marker(attempt) + suffix]
  }

  lemma LastDotAt(s: string, i: nat)
    requires i < |s| && s[i] == '.' && '.' !in s[i + 1..]
    ensures LastDot(s) == i
  {
    var j := LastDot(s);
    assert s[i] in s;
    Inside(s, i, if j < i then j + 1 else i);
    Inside(s, if j > i then j else i, if j > i then i + 1 else i);
  }

  lemma Inside(s: string, i: nat, m: nat)
    requires m <= i < |s|
    ensures s[i] in s[m..]
  {
    assert s[m..][i - m] == s[i];
  }

  /** The wanted name up to its `k`-th character, the digest, and the extension. */
  predicate Shaped(name: string, digest: string, attempt: nat, k: nat, other: string)
    requires |digest| >= 8
  {
    k <= |name| && other == name[..k] + " (conflict " + digest[..8] + ")" + Marker(attempt) + Suffix(name)
  }

  /** A keep-both name stays in the folder and is the wanted name with the digest before its
      extension; the rest is cut so that the first one has less than 180 characters, but never to
      nothing. */
  lemma ConflictNameShape(target: Path, digest: string, attempt: nat)
    requires target != [] && target[|target| - 1] != "" && |digest| >= 8
    ensures var name, other := target[|target| - 1], ConflictName(target, digest, attempt)[|target| - 1];
            var whole, room := |name| - |Suffix(name)|, 159 - |Suffix(name)|;
            && ConflictName(target, digest, attempt) == target[..|target| - 1] + [other]
            && Shaped(name, digest, attempt, if whole <= room then whole else if room >= 1 then room else 1, other)
            && (room >= 1 ==> |other| <= 179 + |Marker(attempt)|)
  {
    hide Marker, Suffix, Stem;
    StemAndSuffix(target[|target| - 1]);
  }

  lemma StemAndSuffix(name: string)
    ensures name == Stem(name) + Suffix(name) && (name != "" ==> Stem(name) != "")
  {
  }

  /** Its extension is that of the wanted name. */
  lemma ConflictKeepsSuffix(name: string, digest: string, attempt: nat, k: nat, other: string)
    requires |digest| >= 8 && Shaped(name, digest, attempt, k, other) && Suffix(name) != ""
    ensures Suffix(other) == Suffix(name)
  {
    hide Marker;
    var suffix := Suffix(name);
    var front := name[..k] + " (conflict " + digest[..8] + ")" + Marker(attempt);
    assert suffix[1..] == name[LastDot(name) + 1..] && |suffix| >= 2;
    SuffixAt(front, suffix);
  }

  lemma SuffixAt(front: string, suffix: string)
    requires front != "" && |suffix| >= 2 && suffix[0] == '.' && '.' !in suffix[1..]
    ensures Suffix(front + suffix) == suffix
  {
    var other := front + suffix;
    assert other[|front| + 1..] == suffix[1..];
    LastDotAt(other, |front|);
    assert other[|front|..] == suffix;
  }

  /** Two attempts never propose the same name, so the search really tries
      `MAX_ATTEMPTS - 1` different files. */
  lemma ConflictNamesDiffer(target: Path, digest: string, a: nat, b: nat)
    requires target != [] && 1 <= a < b
    ensures ConflictName(target, digest, a) != ConflictName(target, digest, b)
  {
    var x, y := ConflictName(target, digest, a), ConflictName(target, digest, b);
    if x == y {
      var name := target[|target| - 1];
      var suffix := Suffix(name);
      var room := MAX_SEGMENT_LENGTH - |suffix| - 21;
      var head := Take(Stem(name), if room < 1 then 1 else room) + " (conflict " + Take(digest, 8) + ")";
      assert x[|target| - 1] == head + Marker(a) + suffix;
      assert y[|target| - 1] == head + Marker(b) + suffix;
      MiddleEqual(head, Marker(a), Marker(b), suffix);
      assert Marker(b)[1..] == Decimal(b);
      if a != 1 {
        assert Marker(a)[1..] == Decimal(a);
        DecimalInjective(a, b);
      }
    }
  }

  lemma MiddleEqual(head: string, a: string, b: string, tail: string)
    requires head + a + tail == head + b + tail
    ensures a == b
  {
    var s, t := head + a + tail, head + b + tail;
    assert |a| == |b|;
    assert s[|head|..|head| + |a|] == a;
    assert t[|head|..|head| + |b|] == b;
  }
}
