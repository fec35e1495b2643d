/** Text hygiene: whitespace, control characters and case. */
module Texts {
  predicate IsSpace(c: char) {
    var n := c as int;
    9 <= n <= 13 || 28 <= n <= 32 || n == 0x85 || n == 0xA0 || n == 0x1680 ||
    0x2000 <= n <= 0x200A || n == 0x2028 || n == 0x2029 || n == 0x202F || n == 0x205F || n == 0x3000
  }

  function RStrip(s: string): (r: string)
    ensures r <= s
    ensures r == s <==> s == "" || !IsSpace(s[|s| - 1])
  {
    if s != "" && IsSpace(s[|s| - 1]) then RStrip(s[..|s| - 1]) else s
  }

  function LStrip(s: string): (r: string)
    ensures |r| <= |s|
    ensures r == s <==> s == "" || !IsSpace(s[0])
  {
    if s != "" && IsSpace(s[0]) then LStrip(s[1..]) else s
  }

  function Strip(s: string): string {
    LStrip(RStrip(s))
  }

  predicate TrimmedName(name: string) {
    name != "" ==> !IsSpace(name[0]) && !IsSpace(name[|name| - 1])
  }

  lemma StripFixed(s: string)
    ensures Strip(s) == s <==> TrimmedName(s)
  {
    if RStrip(s) != s {
      assert |Strip(s)| < |s|;
    }
  }

  function Printable(s: string): (r: string)
    ensures |r| <= |s| && forall c :: c in r ==> c >= ' '
  {
    if s == "" then "" else (if s[0] >= ' ' then [s[0]] else "") + Printable(s[1..])
  }

  lemma {:induction false} PrintableKeeps(s: string)
    requires forall c :: c in s ==> c >= ' '
    ensures Printable(s) == s
  {
    if s != "" {
      assert s[0] in s && forall c :: c in s[1..] ==> c in s;
      PrintableKeeps(s[1..]);
    }
  }

  /** `_safe_text`: drop control characters, then cut. */
  function SafeText(s: string, maximum: nat): (r: string)
    ensures BoundedText(r, maximum)
  {
    var p := Printable(s);
    assert |p| > maximum ==> forall c :: c in p[..maximum] ==> c in p;
    if |p| <= maximum then p else p[..maximum]
  }

  /** `_bounded_text` accepts it. */
  predicate BoundedText(s: string, maximum: nat) {
    |s| <= maximum && forall c :: c in s ==> c >= ' '
  }

  /** Text within the bounds is not changed by cleaning it. */
  lemma SafeTextKeeps(s: string, maximum: nat)
    requires BoundedText(s, maximum)
    ensures SafeText(s, maximum) == s
  {
    PrintableKeeps(s);
  }

  function LowerChar(c: char): char {
    if 'A' <= c <= 'Z' then (c as int + 32) as char else c
  }

  /** Lower case of the ASCII letters. */
  function Lower(s: string): (r: string)
    ensures |r| == |s| && forall i :: 0 <= i < |s| ==> r[i] == LowerChar(s[i])
  {
    if s == "" then "" else [LowerChar(s[0])] + Lower(s[1..])
  }

  /** `casefold` of one character.  The characters listed are all those that fold to ASCII
      letters; any other one folds to text that is not ASCII, and stands for itself. */
  function FoldChar(c: char): string {
    match c
    case '\U{17F}' => "s"
    case '\U{212A}' => "k"
    case '\U{DF}' => "ss"
    case '\U{1E9E}' => "ss"
    case '\U{FB00}' => "ff"
    case '\U{FB01}' => "fi"
    case '\U{FB02}' => "fl"
    case '\U{FB03}' => "ffi"
    case '\U{FB04}' => "ffl"
    case '\U{FB05}' => "st"
    case '\U{FB06}' => "st"
    case _ => [LowerChar(c)]
  }

  /** `casefold`, as far as a comparison with ASCII words can tell. */
  function Folded(s: string): string {
    if s == "" then "" else FoldChar(s[0]) + Folded(s[1..])
  }

  predicate IsHex(c: char) {
    '0' <= c <= '9' || 'a' <= c <= 'f' || 'A' <= c <= 'F'
  }

  predicate IsUuid(s: string) {
    |s| == 36 && forall i :: 0 <= i < 36 ==> if i in {8, 13, 18, 23} then s[i] == '-' else IsHex(s[i])
  }

  lemma LowerUuid(s: string)
    requires IsUuid(s)
    ensures IsUuid(Lower(s)) && Lower(Lower(s)) == Lower(s)
  {
  }

  function Take<T>(s: seq<T>, n: nat): (r: seq<T>)
    ensures r <= s && |r| == if n <= |s| then n else |s|
  {
    if n <= |s| then s[..n] else s
  }

  predicate Alnum(c: char) {
    '0' <= c <= '9' || 'A' <= c <= 'Z' || 'a' <= c <= 'z'
  }

  predicate OccursAt(s: string, part: string, i: int) {
    0 <= i <= |s| - |part| && s[i..i + |part|] == part
  }

  /** `part in s`. */
  predicate Contains(s: string, part: string) {
    exists i :: 0 <= i <= |s| - |part| && OccursAt(s, part, i)
  }

  /** Text around `s` that has neither end of `part` adds no occurrence of it. */
  lemma ContainsFramed(before: string, s: string, after: string, part: string)
    requires part != "" && part[0] !in before && part[0] !in after && part[|part| - 1] !in after
    ensures Contains(before + s + after, part) <==> Contains(s, part)
  {
    hide OccursAt;
    var m, n := before + s + after, |part|;
    if i :| 0 <= i <= |m| - n && OccursAt(m, part, i) {
      OccursInside(before, s, after, part, i);
    }
    if i :| 0 <= i <= |s| - n && OccursAt(s, part, i) {
      OccursFramed(before, s, after, part, i);
    }
  }

  lemma OccursFramed(before: string, s: string, after: string, part: string, i: int)
    requires OccursAt(s, part, i)
    ensures OccursAt(before + s + after, part, i + |before|)
  {
    var m, k := before + s + after, |before|;
    assert m[i + k..i + k + |part|] == s[i..i + |part|];
  }

  lemma OccursInside(before: string, s: string, after: string, part: string, i: int)
    requires part != "" && part[0] !in before && part[0] !in after && part[|part| - 1] !in after
    requires OccursAt(before + s + after, part, i)
    ensures OccursAt(s, part, i - |before|)
  {
    var m, n, k := before + s + after, |part|, |before|;
    assert m[i..i + n][0] == m[i] && m[i..i + n][n - 1] == m[i + n - 1];
    FramePart(before, s, after, i);
    FramePart(before, s, after, i + n - 1);
    assert s[i - k..i - k + n] == m[i..i + n];
  }

  lemma FramePart(before: string, s: string, after: string, j: int)
    requires 0 <= j < |before + s + after|
    ensures var m := before + s + after;
            (j < |before| ==> m[j] in before) && (j >= |before| + |s| ==> m[j] in after)
  {
    var m, k := before + s + after, |before|;
    assert m[j] == if j < k then before[j] else if j < k + |s| then s[j - k] else after[j - k - |s|];
  }
}
