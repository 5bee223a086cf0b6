/** The string operations the core relies on: ToLower, IsNullOrEmpty, the
    Replace("-", "") and Regex.Replace(s, @"\s+", "") of the MFA secret, and
    the ", " join of the UPDATE command builders. */
module Text {
  import opened Wrappers
  import Seqs

  /** ASCII lower-casing of one character. */
  function LowerChar(c: char): char
  {
    if 'A' <= c <= 'Z' then (c as int + 32) as char else c
  }

  function ToLower(s: string): (r: string)
    ensures |r| == |s|
    ensures forall i :: 0 <= i < |s| ==> r[i] == LowerChar(s[i])
  {
    seq(|s|, i requires 0 <= i < |s| => LowerChar(s[i]))
  }

  /** string.IsNullOrEmpty */
  predicate IsNullOrEmpty(s: Option<string>)
  {
    s.None? || s.value == ""
  }

  /** The characters the .NET class \s matches. */
  predicate IsWhiteSpace(c: char)
  {
    var n := c as int;
    n in {9, 10, 11, 12, 13, 32, 0x85, 0xA0, 0x1680, 0x2028, 0x2029, 0x202F, 0x205F, 0x3000}
    || 0x2000 <= n <= 0x200A
  }

  /** s.Replace("-", "") */
  function RemoveDashes(s: string): (r: string)
    ensures forall i :: 0 <= i < |r| ==> r[i] != '-'
    ensures (forall i :: 0 <= i < |s| ==> s[i] != '-') ==> r == s
    ensures |s| == 1 ==> r == if s[0] == '-' then "" else s
  {
    var keep := c => c != '-';
    var r := Seqs.Filter(s, keep);
    Seqs.FilterMembers(s, keep);
    assert forall i :: 0 <= i < |r| ==> r[i] in r;
    Seqs.FilterAll(s, keep);
    r
  }

  /** Regex.Replace(s, @"\s+", ""): every run of white space, hence every
      white-space character, is removed. */
  function RemoveWhiteSpace(s: string): (r: string)
    ensures forall i :: 0 <= i < |r| ==> !IsWhiteSpace(r[i])
    ensures (forall i :: 0 <= i < |s| ==> !IsWhiteSpace(s[i])) ==> r == s
    ensures |s| == 1 ==> r == if IsWhiteSpace(s[0]) then "" else s
  {
    var keep := c => !IsWhiteSpace(c);
    var r := Seqs.Filter(s, keep);
    Seqs.FilterMembers(s, keep);
    assert forall i :: 0 <= i < |r| ==> r[i] in r;
    Seqs.FilterAll(s, keep);
    r
  }

  lemma {:induction false} RemoveDashesAppend(a: string, b: string)
    ensures RemoveDashes(a + b) == RemoveDashes(a) + RemoveDashes(b)
  {
    Seqs.FilterAppend(a, b, c => c != '-');
  }

  lemma {:induction false} RemoveWhiteSpaceAppend(a: string, b: string)
    ensures RemoveWhiteSpace(a + b) == RemoveWhiteSpace(a) + RemoveWhiteSpace(b)
  {
    Seqs.FilterAppend(a, b, c => !IsWhiteSpace(c));
  }

  /** string.EndsWith */
  predicate EndsWith(s: string, suffix: string)
  {
    |suffix| <= |s| && s[|s| - |suffix|..] == suffix
  }

  /** `if (s.EndsWith(suffix)) s = s.Substring(0, s.Length - suffix.Length)` */
  function DropSuffix(s: string, suffix: string): (r: string)
    ensures EndsWith(s, suffix) ==> r + suffix == s
    ensures !EndsWith(s, suffix) ==> r == s
  {
    if EndsWith(s, suffix) then s[..|s| - |suffix|] else s
  }

  /** The parts separated by `sep`, with no separator after the last part. */
  function Join(parts: seq<string>, sep: string): string
    decreases |parts|
  {
    if |parts| == 0 then ""
    else if |parts| == 1 then parts[0]
    else parts[0] + sep + Join(parts[1..], sep)
  }
}
