/** System.Guid as the 32 hexadecimal digits of its string form, in order.
    ToString() gives the "D" form (8-4-4-4-12, lower case); Guid.Parse is
    modelled for that form, upper- or lower-case. */
module Guids {
  import opened Wrappers
  import Text

  type Nibble = n: int | 0 <= n < 16

  type Guid = s: seq<Nibble> | |s| == 32 witness seq(32, _ => 0)

  function HexChar(n: Nibble): char
  {
    if n < 10 then ('0' as int + n) as char else ('a' as int + n - 10) as char
  }

  predicate IsLowerHex(c: char)
  {
    '0' <= c <= '9' || 'a' <= c <= 'f'
  }

  /** The value of a hexadecimal digit of either case. */
  function HexValue(c: char): Option<Nibble>
  {
    if '0' <= c <= '9' then Some(c as int - '0' as int)
    else if 'a' <= c <= 'f' then Some(c as int - 'a' as int + 10)
    else if 'A' <= c <= 'F' then Some(c as int - 'A' as int + 10)
    else None
  }

  function Hex(s: seq<Nibble>): (r: string)
    ensures |r| == |s|
    ensures forall i :: 0 <= i < |s| ==> r[i] == HexChar(s[i])
  {
    seq(|s|, i requires 0 <= i < |s| => HexChar(s[i]))
  }

  /** Guid.ToString(): the "D" form. */
  function Format(g: Guid): string
  {
    Hex(g[..8]) + "-" + (Hex(g[8..12]) + "-" + (Hex(g[12..16]) + "-" + (Hex(g[16..20]) + "-" + Hex(g[20..]))))
  }

  function ParseHex(s: string): (r: Option<seq<Nibble>>)
    ensures r.Some? ==> |r.value| == |s|
    decreases |s|
  {
    if |s| == 0 then Some([])
    else
      match (HexValue(s[0]), ParseHex(s[1..]))
      case (Some(n), Some(rest)) => Some([n] + rest)
      case _ => None
  }

  /** Guid.Parse for the "D" form; None where Parse throws. */
  function Parse(s: string): (r: Option<Guid>)
  {
    if |s| == 36 && s[8] == '-' && s[13] == '-' && s[18] == '-' && s[23] == '-' then
      match ParseHex(s[..8] + s[9..13] + s[14..18] + s[19..23] + s[24..])
      case Some(digits) => Some(digits)
      case None => None
    else None
  }

  lemma {:induction false} ParseHexOfHex(s: seq<Nibble>)
    ensures ParseHex(Hex(s)) == Some(s)
    decreases |s|
  {
    if |s| > 0 {
      assert Hex(s)[1..] == Hex(s[1..]);
      ParseHexOfHex(s[1..]);
      assert HexValue(HexChar(s[0])) == Some(s[0]);
      assert [s[0]] + s[1..] == s;
    }
  }

  /** The sid claim of a token, Format(id), parses back to the same id. */
  lemma {:induction false} ParseFormat(g: Guid)
    ensures Parse(Format(g)) == Some(g)
  {
    var a, b, c, d, e := Hex(g[..8]), Hex(g[8..12]), Hex(g[12..16]), Hex(g[16..20]), Hex(g[20..]);
    var s := Format(g);
    assert s == a + "-" + (b + "-" + (c + "-" + (d + "-" + e)));
    assert s[..8] == a && s[9..13] == b && s[14..18] == c && s[19..23] == d && s[24..] == e;
    assert a + b + c + d + e == Hex(g);
    ParseHexOfHex(g);
  }

  predicate NoDash(x: string)
  {
    forall i :: 0 <= i < |x| ==> x[i] != '-'
  }

  lemma {:induction false} RemoveDashesOfGroup(x: string, rest: string)
    requires NoDash(x)
    ensures Text.RemoveDashes(x + "-" + rest) == x + Text.RemoveDashes(rest)
  {
    Text.RemoveDashesAppend(x + "-", rest);
    Text.RemoveDashesAppend(x, "-");
    assert Text.RemoveDashes("-") == "";
  }

  lemma {:induction false} RemoveDashesOfGroups(a: string, b: string, c: string, d: string, e: string)
    requires NoDash(a) && NoDash(b) && NoDash(c) && NoDash(d) && NoDash(e)
    ensures Text.RemoveDashes(a + "-" + (b + "-" + (c + "-" + (d + "-" + e)))) == a + (b + (c + (d + e)))
  {
    RemoveDashesOfGroup(d, e);
    RemoveDashesOfGroup(c, d + "-" + e);
    RemoveDashesOfGroup(b, c + "-" + (d + "-" + e));
    RemoveDashesOfGroup(a, b + "-" + (c + "-" + (d + "-" + e)));
  }

  /** Guid.ToString().Replace("-", "") is the 32 hex digits, in lower case. */
  lemma {:induction false} RemoveDashesOfFormat(g: Guid)
    ensures Text.RemoveDashes(Format(g)) == Hex(g)
  {
    var a, b, c, d, e := Hex(g[..8]), Hex(g[8..12]), Hex(g[12..16]), Hex(g[16..20]), Hex(g[20..]);
    assert NoDash(a) && NoDash(b) && NoDash(c) && NoDash(d) && NoDash(e);
    RemoveDashesOfGroups(a, b, c, d, e);
    assert a + (b + (c + (d + e))) == Hex(g);
  }
}
