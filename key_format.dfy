/** The correlation table's string key, `fmt.Sprintf("%d:%d:%d", ...)`,
    and a parser that inverts it, so that distinct triples are known to
    give distinct keys. */
module KeyFormat {
  import opened Types

  predicate IsDigit(c: char) {
    '0' <= c <= '9'
  }

  predicate AllDigits(s: string) {
    forall i :: 0 <= i < |s| ==> IsDigit(s[i])
  }

  function DigitChar(d: nat): (c: char)
    requires d < 10
    ensures IsDigit(c) && c as int - '0' as int == d
  {
    ('0' as int + d) as char
  }

  /** Decimal digits of `n`, most significant first, as `%d` prints them. */
  function NatToDecimal(n: nat): (s: string)
    ensures |s| > 0 && AllDigits(s)
    decreases n
  {
    if n < 10 then [DigitChar(n)] else NatToDecimal(n / 10) + [DigitChar(n % 10)]
  }

  /** `%d` of a signed integer: a minus sign, then the digits of its magnitude. */
  function IntToDecimal(x: int): (s: string)
    ensures |s| > 0 && ':' !in s
  {
    if x < 0 then "-" + NatToDecimal(-x) else NatToDecimal(x)
  }

  /** The key `setMessageId` and `getMessageId` build for a triple. */
  function FormatKey(srcChatId: int, srcMessageId: int, dstChatId: int): string {
    IntToDecimal(srcChatId) + ":" + IntToDecimal(srcMessageId) + ":" + IntToDecimal(dstChatId)
  }

  function DecimalToNat(s: string): nat
    requires AllDigits(s)
    decreases |s|
  {
    if s == [] then 0 else DecimalToNat(s[..|s| - 1]) * 10 + (s[|s| - 1] as int - '0' as int)
  }

  /** Reads back what `IntToDecimal` writes. */
  function ParseDecimal(s: string): Option<int> {
    if |s| > 1 && s[0] == '-' && AllDigits(s[1..]) then Some(0 - DecimalToNat(s[1..]) as int)
    else if |s| > 0 && AllDigits(s) then Some(DecimalToNat(s))
    else None
  }

  /** Position of the first ':' in `s`, or `|s|` when there is none. */
  function ColonIndex(s: string): (i: nat)
    ensures i <= |s|
    ensures i < |s| ==> s[i] == ':'
    ensures forall j :: 0 <= j < i ==> s[j] != ':'
  {
    if s == [] || s[0] == ':' then 0 else 1 + ColonIndex(s[1..])
  }

  /** Splits a key at its first two colons and reads the three numbers. */
  function ParseKey(s: string): Option<(int, int, int)> {
    var i := ColonIndex(s);
    if i == |s| then None
    else
      var rest := s[i + 1..];
      var j := ColonIndex(rest);
      if j == |rest| then None
      else
        match (ParseDecimal(s[..i]), ParseDecimal(rest[..j]), ParseDecimal(rest[j + 1..]))
        case (Some(a), Some(b), Some(c)) => Some((a, b, c))
        case _ => None
  }

  lemma {:induction false} NatRoundTrip(n: nat)
    ensures DecimalToNat(NatToDecimal(n)) == n
    decreases n
  {
    if n >= 10 {
      var s := NatToDecimal(n);
      assert s[..|s| - 1] == NatToDecimal(n / 10);
      NatRoundTrip(n / 10);
    }
  }

  lemma IntRoundTrip(x: int)
    ensures ParseDecimal(IntToDecimal(x)) == Some(x)
  {
    var d := NatToDecimal(if x < 0 then -x else x);
    NatRoundTrip(if x < 0 then -x else x);
    if x < 0 {
      assert ("-" + d)[1..] == d;
    } else {
      assert IsDigit(d[0]);
    }
  }

  lemma {:induction false} ColonIndexOfPrefix(u: string, v: string)
    requires ':' !in u
    ensures ColonIndex(u + v) == ColonIndex(v) + |u|
    decreases |u|
  {
    if u != [] {
      assert (u + v)[0] == u[0] != ':';
      assert (u + v)[1..] == u[1..] + v;
      assert ':' !in u[1..] by {
        forall j | 0 <= j < |u| - 1 ensures u[1..][j] != ':' {
          assert u[1..][j] == u[j + 1];
        }
      }
      ColonIndexOfPrefix(u[1..], v);
      assert ColonIndex(u + v) == 1 + ColonIndex(u[1..] + v);
    } else {
      assert u + v == v;
    }
  }

  /** A field without colons, a colon, then the rest: the first colon
      splits the string back into the two. */
  lemma SplitAtFirstColon(u: string, v: string)
    requires ':' !in u
    ensures ColonIndex(u + ":" + v) == |u|
    ensures (u + ":" + v)[..|u|] == u
    ensures (u + ":" + v)[|u| + 1..] == v
  {
    assert u + ":" + v == u + (":" + v);
    ColonIndexOfPrefix(u, ":" + v);
  }

  /** Every key `FormatKey` builds parses back to the triple it came from. */
  lemma ParseFormatKey(a: int, b: int, c: int)
    ensures ParseKey(FormatKey(a, b, c)) == Some((a, b, c))
  {
    var sa, sb, sc := IntToDecimal(a), IntToDecimal(b), IntToDecimal(c);
    var tail := sb + ":" + sc;
    assert FormatKey(a, b, c) == sa + ":" + tail;
    SplitAtFirstColon(sa, tail);
    SplitAtFirstColon(sb, sc);
    IntRoundTrip(a);
    IntRoundTrip(b);
    IntRoundTrip(c);
  }

  /** The key encoding is injective on integer triples. */
  lemma FormatKeyInjective(a: int, b: int, c: int, a': int, b': int, c': int)
    requires FormatKey(a, b, c) == FormatKey(a', b', c')
    ensures a == a' && b == b' && c == c'
  {
    ParseFormatKey(a, b, c);
    ParseFormatKey(a', b', c');
  }
}
