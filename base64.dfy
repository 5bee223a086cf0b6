/** Convert.ToBase64String and Convert.FromBase64String: the base 64 encoding
    of section 4 of RFC 4648 (alphabet A-Z a-z 0-9 + /, "=" padding). */
module Base64 {
  import opened Wrappers

  type byte = b: int | 0 <= b < 256
  type Sextet = n: int | 0 <= n < 64

  function Digit(n: Sextet): char
  {
    if n < 26 then ('A' as int + n) as char
    else if n < 52 then ('a' as int + n - 26) as char
    else if n < 62 then ('0' as int + n - 52) as char
    else if n == 62 then '+'
    else '/'
  }

  function DigitValue(c: char): Option<Sextet>
  {
    if 'A' <= c <= 'Z' then Some(c as int - 'A' as int)
    else if 'a' <= c <= 'z' then Some(c as int - 'a' as int + 26)
    else if '0' <= c <= '9' then Some(c as int - '0' as int + 52)
    else if c == '+' then Some(62)
    else if c == '/' then Some(63)
    else None
  }

  predicate IsDigit(c: char)
  {
    DigitValue(c).Some?
  }

  lemma {:induction false} DigitRoundTrip(n: Sextet)
    ensures DigitValue(Digit(n)) == Some(n)
  {
  }

  /** Three bytes as four digits. */
  function EncodeGroup(b0: byte, b1: byte, b2: byte): string
  {
    [Digit(b0 / 4), Digit((b0 % 4) * 16 + b1 / 16), Digit((b1 % 16) * 4 + b2 / 64), Digit(b2 % 64)]
  }

  /** The last one or two bytes, padded with "=". */
  function EncodeFinal(b: seq<byte>): (r: string)
    requires 1 <= |b| <= 2
    ensures |r| == 4 && r[3] == '='
    ensures |b| == 1 ==> r[2] == '='
  {
    if |b| == 1 then [Digit(b[0] / 4), Digit((b[0] % 4) * 16), '=', '=']
    else [Digit(b[0] / 4), Digit((b[0] % 4) * 16 + b[1] / 16), Digit((b[1] % 16) * 4), '=']
  }

  function Encode(b: seq<byte>): string
    decreases |b|
  {
    if |b| == 0 then ""
    else if |b| <= 2 then EncodeFinal(b)
    else EncodeGroup(b[0], b[1], b[2]) + Encode(b[3..])
  }

  /** One block of four characters; padding is accepted only in the last. */
  function DecodeBlock(q: string, isLast: bool): Option<seq<byte>>
    requires |q| == 4
  {
    match (DigitValue(q[0]), DigitValue(q[1]))
    case (Some(d0), Some(d1)) =>
      if isLast && q[2] == '=' && q[3] == '=' then
        Some([d0 * 4 + d1 / 16])
      else (
        match DigitValue(q[2])
        case None => None
        case Some(d2) =>
          if isLast && q[3] == '=' then
            Some([d0 * 4 + d1 / 16, (d1 % 16) * 16 + d2 / 4])
          else (
            match DigitValue(q[3])
            case None => None
            case Some(d3) => Some([d0 * 4 + d1 / 16, (d1 % 16) * 16 + d2 / 4, (d2 % 4) * 64 + d3])
          )
      )
    case _ => None
  }

  /** None stands for the FormatException of malformed input. */
  function Decode(s: string): Option<seq<byte>>
    decreases |s|
  {
    if |s| == 0 then Some([])
    else if |s| < 4 then None
    else if |s| == 4 then DecodeBlock(s, true)
    else
      match (DecodeBlock(s[..4], false), Decode(s[4..]))
      case (Some(head), Some(tail)) => Some(head + tail)
      case _ => None
  }

  lemma {:induction false} EncodeLength(b: seq<byte>)
    ensures |Encode(b)| == 4 * ((|b| + 2) / 3)
    decreases |b|
  {
    if 1 <= |b| <= 2 {
      assert Encode(b) == EncodeFinal(b);
    } else if |b| >= 3 {
      var tail := b[3..];
      EncodeLength(tail);
      assert |Encode(b)| == 4 + |Encode(tail)|;
      assert (|tail| + 5) / 3 == (|tail| + 2) / 3 + 1;
    }
  }

  /** Input whose length leaves remainder 1 modulo 3 ends in "==". */
  lemma {:induction false} EncodePadding(b: seq<byte>)
    requires |b| % 3 == 1
    ensures |Encode(b)| >= 4 && Encode(b)[|Encode(b)| - 2..] == "=="
    decreases |b|
  {
    var e := Encode(b);
    if |b| == 1 {
      assert e == EncodeFinal(b);
      assert e[2..] == [e[2], e[3]];
    } else {
      EncodePadding(b[3..]);
      var g, rest := EncodeGroup(b[0], b[1], b[2]), Encode(b[3..]);
      assert e == g + rest && |g| == 4;
      assert e[|e| - 2..] == rest[|rest| - 2..] by {
        assert e[|e| - 2] == rest[|rest| - 2] && e[|e| - 1] == rest[|rest| - 1];
      }
    }
  }

  lemma {:induction false} FinalRoundTrip(b: seq<byte>)
    requires 1 <= |b| <= 2
    ensures DecodeBlock(EncodeFinal(b), true) == Some(b)
  {
    if |b| == 1 {
      FinalOneRoundTrip(b[0]);
      assert [b[0]] == b;
    } else {
      FinalTwoRoundTrip(b[0], b[1]);
      assert [b[0], b[1]] == b;
    }
  }

  lemma {:induction false} FinalOneRoundTrip(b0: byte)
    ensures DecodeBlock(EncodeFinal([b0]), true) == Some([b0])
  {
    var d0, d1 := b0 / 4, (b0 % 4) * 16;
    DigitRoundTrip(d0);
    DigitRoundTrip(d1);
    assert EncodeFinal([b0]) == [Digit(d0), Digit(d1), '=', '='];
    assert d1 / 16 == b0 % 4;
    assert d0 * 4 + b0 % 4 == b0;
  }

  lemma {:induction false} FinalTwoRoundTrip(b0: byte, b1: byte)
    ensures DecodeBlock(EncodeFinal([b0, b1]), true) == Some([b0, b1])
  {
    var d0, d1, d2 := b0 / 4, (b0 % 4) * 16 + b1 / 16, (b1 % 16) * 4;
    DigitRoundTrip(d0);
    DigitRoundTrip(d1);
    DigitRoundTrip(d2);
    assert EncodeFinal([b0, b1]) == [Digit(d0), Digit(d1), Digit(d2), '='];
    assert Digit(d2) != '=';
    assert d1 / 16 == b0 % 4 && d1 % 16 == b1 / 16 && d2 / 4 == b1 % 16;
    assert d0 * 4 + b0 % 4 == b0 && (b1 / 16) * 16 + b1 % 16 == b1;
  }

  lemma {:induction false} GroupRoundTrip(b0: byte, b1: byte, b2: byte)
    ensures DecodeBlock(EncodeGroup(b0, b1, b2), false) == Some([b0, b1, b2])
    ensures DecodeBlock(EncodeGroup(b0, b1, b2), true) == Some([b0, b1, b2])
  {
    var d0, d1, d2, d3 := b0 / 4, (b0 % 4) * 16 + b1 / 16, (b1 % 16) * 4 + b2 / 64, b2 % 64;
    DigitRoundTrip(d0);
    DigitRoundTrip(d1);
    DigitRoundTrip(d2);
    DigitRoundTrip(d3);
    assert d1 / 16 == b0 % 4 && d1 % 16 == b1 / 16;
    assert d2 / 4 == b1 % 16 && d2 % 4 == b2 / 64;
  }

  lemma {:induction false} EncodeNotShort(b: seq<byte>)
    requires |b| > 0
    ensures |Encode(b)| >= 4
  {
    if |b| <= 2 {
      assert Encode(b) == EncodeFinal(b);
    }
  }

  /** A full block followed by more input decodes block by block. */
  lemma {:induction false} DecodeBlockThenRest(q: string, rest: string, head: seq<byte>, tail: seq<byte>)
    requires |q| == 4 && |rest| >= 4
    requires DecodeBlock(q, false) == Some(head) && Decode(rest) == Some(tail)
    ensures Decode(q + rest) == Some(head + tail)
  {
    var s := q + rest;
    assert s[..4] == q && s[4..] == rest;
  }

  /** FromBase64String(ToBase64String(b)) == b. */
  lemma {:induction false} DecodeEncode(b: seq<byte>)
    ensures Decode(Encode(b)) == Some(b)
    decreases |b|
  {
    if 1 <= |b| <= 2 {
      FinalRoundTrip(b);
    } else if |b| == 3 {
      SingleGroupRoundTrip(b);
    } else if |b| > 3 {
      DecodeEncode(b[3..]);
      GroupThenRestRoundTrip(b);
    }
  }

  lemma {:induction false} SingleGroupRoundTrip(b: seq<byte>)
    requires |b| == 3
    ensures Decode(Encode(b)) == Some(b)
  {
    var g := EncodeGroup(b[0], b[1], b[2]);
    GroupRoundTrip(b[0], b[1], b[2]);
    assert Encode(b[3..]) == [];
    assert Encode(b) == g + [] == g;
    assert b == [b[0], b[1], b[2]];
  }

  /** The induction step: a full group, then an encoding that round-trips. */
  lemma {:induction false} GroupThenRestRoundTrip(b: seq<byte>)
    requires |b| > 3 && Decode(Encode(b[3..])) == Some(b[3..])
    ensures Decode(Encode(b)) == Some(b)
  {
    var g, tail := EncodeGroup(b[0], b[1], b[2]), b[3..];
    var rest, head := Encode(tail), [b[0], b[1], b[2]];
    GroupRoundTrip(b[0], b[1], b[2]);
    EncodeNotShort(tail);
    DecodeBlockThenRest(g, rest, head, tail);
    assert b == head + tail;
    assert Encode(b) == g + rest;
  }

  /** Every character of the encoding is an alphabet digit except the
      padding at the end. */
  lemma {:induction false} EncodeDigits(b: seq<byte>)
    ensures forall i :: 0 <= i < |Encode(b)| && Encode(b)[i] != '=' ==> IsDigit(Encode(b)[i])
    ensures forall i :: 0 <= i < |Encode(b)| - 2 ==> IsDigit(Encode(b)[i])
    decreases |b|
  {
    if 1 <= |b| <= 2 {
      var r := EncodeFinal(b);
      DigitRoundTrip(b[0] / 4);
      if |b| == 1 {
        DigitRoundTrip((b[0] % 4) * 16);
      } else {
        DigitRoundTrip((b[0] % 4) * 16 + b[1] / 16);
        DigitRoundTrip((b[1] % 16) * 4);
      }
    } else if |b| >= 3 {
      EncodeDigits(b[3..]);
      DigitRoundTrip(b[0] / 4);
      DigitRoundTrip((b[0] % 4) * 16 + b[1] / 16);
      DigitRoundTrip((b[1] % 16) * 4 + b[2] / 64);
      DigitRoundTrip(b[2] % 64);
      var g, rest := EncodeGroup(b[0], b[1], b[2]), Encode(b[3..]);
      assert Encode(b) == g + rest;
      assert forall i :: 4 <= i < |g + rest| ==> (g + rest)[i] == rest[i - 4];
    }
  }
}
