/** Printing integers in decimal, digit by digit from the right and then reversed. */
module Decimal {
  const DIGITS: string := "9876543210123456789"
  const ZERO: nat := 9
  const MAX_NUMERIC_SIZE: nat := 32

  /** The values of the 64-bit types, signed and unsigned. */
  predicate Printable(v: int) {
    -0x8000_0000_0000_0000 <= v < 0x1_0000_0000_0000_0000
  }

  function Abs(v: int): nat { if v < 0 then -v else v }

  /** Division and remainder as the machine does them: towards zero. */
  function Quotient(v: int, d: nat): int
    requires d > 0
  {
    if v < 0 then -(-v / d) else v / d
  }

  function Remainder(v: int, d: nat): int
    requires d > 0
  {
    if v < 0 then -(-v % d) else v % d
  }

  function DigitChar(d: nat): (c: char)
    requires d < 10
    ensures c == '0' + d as char
  {
    DIGITS[ZERO + d]
  }

  /** The table is the same on both sides of its middle. */
  lemma MirroredDigits(r: int)
    requires -10 < r < 10
    ensures DIGITS[ZERO + r] == DigitChar(Abs(r))
  {
  }

  /** The decimal digits, the last one first. */
  function Backward(n: nat): string {
    if n < 10 then [DigitChar(n)] else [DigitChar(n % 10)] + Backward(n / 10)
  }

  function Reversed(s: string): (t: string)
    ensures |t| == |s| && forall i :: 0 <= i < |s| ==> t[i] == s[|s| - 1 - i]
  {
    if s == "" then "" else Reversed(s[1..]) + [s[0]]
  }

  /** What is printed: a minus sign for negative values, then the digits. */
  function Text(v: int): string {
    Reversed(Backward(Abs(v)) + if v < 0 then "-" else "")
  }

  // Reading it back

  predicate IsNumeral(s: string) {
    s != "" && forall i :: 0 <= i < |s| ==> '0' <= s[i] <= '9'
  }

  function ParseNat(s: string): nat
    requires forall i :: 0 <= i < |s| ==> '0' <= s[i] <= '9'
  {
    if s == "" then 0 else 10 * ParseNat(s[..|s| - 1]) + (s[|s| - 1] - '0') as nat
  }

  datatype Parsed = Number(value: int) | NoNumber

  function Parse(s: string): Parsed {
    if IsNumeral(s) then Number(ParseNat(s))
    else if s != "" && s[0] == '-' && IsNumeral(s[1..]) then Number(0 - ParseNat(s[1..]))
    else NoNumber
  }

  lemma {:induction false} BackwardReads(n: nat)
    ensures IsNumeral(Reversed(Backward(n))) && ParseNat(Reversed(Backward(n))) == n
  {
    if n >= 10 {
      BackwardReads(n / 10);
      var s, t := Reversed(Backward(n)), Reversed(Backward(n / 10));
      assert s == t + [DigitChar(n % 10)];
      assert s[..|s| - 1] == t;
    }
  }

  lemma ParseSigned(t: string)
    requires IsNumeral(t)
    ensures Parse("-" + t) == Number(0 - ParseNat(t))
  {
    var s := "-" + t;
    assert s[0] == '-' && s[1..] == t;
  }

  /** Reading what was printed gives the value back, the smallest 64-bit integer included. */
  lemma RoundTrip(v: int)
    ensures Parse(Text(v)) == Number(v)
  {
    var t := Reversed(Backward(Abs(v)));
    BackwardReads(Abs(v));
    TextIs(v);
    if v < 0 {
      ParseSigned(t);
    } else {
      assert "" + t == t;
    }
  }

  lemma TextIs(v: int)
    ensures Text(v) == (if v < 0 then "-" else "") + Reversed(Backward(Abs(v)))
  {
    var s := Backward(Abs(v));
    if v < 0 {
      ReversedSnoc(s, '-');
    } else {
      assert s + "" == s;
    }
  }

  /** Printing a value without its sign loses it exactly when there is one. */
  lemma SignLost(v: int)
    ensures Parse(Text(Abs(v))) == Number(v) <==> v >= 0
  {
    RoundTrip(Abs(v));
  }

  lemma {:induction false} ReversedSnoc(s: string, c: char)
    ensures Reversed(s + [c]) == [c] + Reversed(s)
  {
    if s == "" {
      assert Reversed([c]) == Reversed([c][1..]) + [c];
    } else {
      assert (s + [c])[1..] == s[1..] + [c];
      ReversedSnoc(s[1..], c);
      assert [c] + (Reversed(s[1..]) + [s[0]]) == [c] + Reversed(s[1..]) + [s[0]];
    }
  }

  /** Nothing is printed with a leading zero but zero itself. */
  lemma {:induction false} NoLeadingZero(n: nat)
    ensures |Backward(n)| > 0 && (n > 0 ==> Backward(n)[|Backward(n)| - 1] != '0')
  {
    if n >= 10 {
      NoLeadingZero(n / 10);
      var t := Backward(n / 10);
      assert n / 10 > 0 && Backward(n) == [DigitChar(n % 10)] + t;
      assert Backward(n)[|Backward(n)| - 1] == t[|t| - 1];
    }
  }

  lemma {:induction false} Length(n: nat, k: nat, bound: nat)
    requires k > 0 && n < bound && bound == Power(k)
    ensures |Backward(n)| <= k
  {
    if n >= 10 {
      assert k > 1;
      assert n / 10 < Power(k - 1);
      Length(n / 10, k - 1, Power(k - 1));
    }
  }

  function Power(k: nat): nat { if k == 0 then 1 else 10 * Power(k - 1) }

  /** No 64-bit integer takes more than 20 characters. */
  lemma FitsTwenty(v: int)
    requires Printable(v)
    ensures |Text(v)| <= 20
  {
    assert Power(5) == 100000;
    assert Power(10) == 10000000000;
    assert Power(19) == 10000000000000000000;
    if v < 0 {
      Length(Abs(v), 19, Power(19));
    } else {
      Length(v, 20, Power(20));
    }
  }

  /** Reverses `buf[start..end]` in place. */
  method Reverse(buf: array<char>, start: nat, end: nat)
    requires start <= end <= buf.Length
    modifies buf
    ensures buf[start..end] == Reversed(old(buf[start..end]))
    ensures buf[..start] == old(buf[..start]) && buf[end..] == old(buf[end..])
  {
    var lo, hi := start, end;
    while lo < hi && lo < hi - 1
      invariant start <= lo <= hi <= end && lo - start == end - hi
      invariant forall k :: start <= k < lo ==> buf[k] == old(buf[start + end - 1 - k])
      invariant forall k :: hi <= k < end ==> buf[k] == old(buf[start + end - 1 - k])
      invariant forall k :: lo <= k < hi ==> buf[k] == old(buf[k])
      invariant buf[..start] == old(buf[..start]) && buf[end..] == old(buf[end..])
    {
      hi := hi - 1;
      buf[lo], buf[hi] := buf[hi], buf[lo];
      lo := lo + 1;
    }
    ghost var s, t := old(buf[start..end]), buf[start..end];
    forall i | 0 <= i < |s| ensures t[i] == s[|s| - 1 - i] {
      assert t[i] == buf[start + i] == old(buf[start + end - 1 - (start + i)]);
    }
    ReversedIs(s, t);
  }

  lemma ReversedIs(s: string, t: string)
    requires |t| == |s| && forall i :: 0 <= i < |s| ==> t[i] == s[|s| - 1 - i]
    ensures t == Reversed(s)
  {
  }

  /** One digit printed, the rest to come. */
  lemma BackwardStep(i: int)
    ensures var lsd, q := Remainder(i, 10), Quotient(i, 10);
      && -10 < lsd < 10
      && Backward(Abs(i)) == [DigitChar(Abs(lsd))] + if q == 0 then "" else Backward(Abs(q))
    ensures i != 0 ==> Abs(Quotient(i, 10)) < Abs(i)
  {
    assert [DigitChar(Abs(Remainder(i, 10)))] + "" == [DigitChar(Abs(Remainder(i, 10)))];
  }

  lemma Grow(s: string, c: char, rest: string, whole: string)
    requires s + ([c] + rest) == whole
    ensures s + [c] + rest == whole && |s| < |whole| && (rest == "" ==> s + [c] == whole)
  {
  }

  /** Writes the digits of `value` at `start`, the last one first; `i` is what is left of the number, nothing. */
  method PutDigits(buf: array<char>, start: nat, value: int) returns (p: nat, i: int)
    requires start + |Backward(Abs(value))| <= buf.Length
    modifies buf
    ensures p == start + |Backward(Abs(value))| && buf[start..p] == Backward(Abs(value)) && i == 0
    ensures buf[..start] == old(buf[..start]) && buf[p..] == old(buf[p..])
  {
    ghost var whole := Backward(Abs(value));
    var more := true;
    p, i := start, value;
    ghost var rest := whole;
    assert buf[start..p] + rest == whole;
    while more
      invariant start <= p <= buf.Length && buf[..start] == old(buf[..start]) && buf[p..] == old(buf[p..])
      invariant buf[start..p] + rest == whole && rest == if more then Backward(Abs(i)) else ""
      invariant !more ==> i == 0
      decreases more, Abs(i)
    {
      var lsd := Remainder(i, 10);
      BackwardStep(i);
      MirroredDigits(lsd);
      i := Quotient(i, 10);
      more := i != 0;
      rest := if more then Backward(Abs(i)) else "";
      Grow(buf[start..p], DIGITS[ZERO + lsd], rest, whole);
      assert buf[p..][1..] == buf[p + 1..] && old(buf[p..])[1..] == old(buf[p + 1..]);
      p := PutChar(buf, start, p, DIGITS[ZERO + lsd]);
    }
    assert buf[start..p] + "" == buf[start..p];
  }

  lemma TextIsReversed(v: int)
    ensures Text(v) == Reversed(if v < 0 then Backward(Abs(v)) + "-" else Backward(Abs(v)))
  {
    assert Backward(Abs(v)) + "" == Backward(Abs(v));
  }

  method PutChar(buf: array<char>, ghost start: nat, p: nat, c: char) returns (q: nat)
    requires start <= p < buf.Length
    modifies buf
    ensures q == p + 1 && buf[start..q] == old(buf[start..p]) + [c]
    ensures buf[..start] == old(buf[..start]) && buf[q..] == old(buf[q..])
  {
    buf[p] := c;
    q := p + 1;
  }

  method PutSign(buf: array<char>, ghost start: nat, p: nat, value: int) returns (q: nat)
    requires start <= p < buf.Length
    modifies buf
    ensures q == p + (if value < 0 then 1 else 0)
    ensures buf[start..q] == if value < 0 then old(buf[start..p]) + "-" else old(buf[start..p])
    ensures buf[..start] == old(buf[..start]) && buf[q..] == old(buf[q..])
  {
    q := p;
    if value < 0 {
      q := PutChar(buf, start, p, '-');
    }
  }

  /** Closes the text with NUL and turns it round. */
  method Finish(buf: array<char>, start: nat, p: nat, ghost s: string) returns (len: nat)
    requires start <= p < buf.Length && buf[start..p] == s
    modifies buf
    ensures len == |s| && start + len == p && buf[start..start + len] == Reversed(s) && buf[start + len] == '\0'
    ensures buf[..start] == old(buf[..start]) && buf[p + 1..] == old(buf[p + 1..])
  {
    buf[p] := '\0';
    ghost var tail := buf[p..];
    assert buf[start..p] == old(buf[start..p]);
    Reverse(buf, start, p);
    assert buf[p] == buf[p..][0] && buf[p + 1..] == buf[p..][1..];
    len := p - start;
  }

  /** The signed conversion: returns how many characters it wrote before the closing NUL. */
  method Convert(buf: array<char>, start: nat, value: int) returns (len: nat)
    requires Printable(value) && start + 21 <= buf.Length
    modifies buf
    ensures len <= 20 && buf[start..start + len] == Text(value) && buf[start + len] == '\0'
    ensures buf[..start] == old(buf[..start])
  {
    FitsTwenty(value);
    var p, i := PutDigits(buf, start, value);
    p := PutSign(buf, start, p, value);
    ghost var digits := Backward(Abs(value));
    TextIsReversed(value);
    len := Finish(buf, start, p, if value < 0 then digits + "-" else digits);
  }

  /** The newer conversion tests the sign of what is left of the number, which is zero by then. */
  method IntToString(buf: array<char>, start: nat, value: int) returns (len: nat)
    requires Printable(value) && start + 21 <= buf.Length
    modifies buf
    ensures len <= 20 && buf[start..start + len] == Text(Abs(value)) && buf[start + len] == '\0'
    ensures buf[..start] == old(buf[..start])
  {
    FitsTwenty(value);
    var p, number := PutDigits(buf, start, value);
    p := PutSign(buf, start, p, number);
    TextIsReversed(Abs(value));
    len := Finish(buf, start, p, Backward(Abs(value)));
  }

  /** The stream's buffer: numbers that might not fit are dropped. */
  class LineBuffer {
    const data: array<char>
    var length: nat

    ghost predicate Valid()
      reads this
    {
      length <= data.Length
    }

    ghost function Line(): string
      requires Valid()
      reads this, data
    {
      data[..length]
    }

    constructor (size: nat)
      ensures Valid() && Line() == "" && data.Length == size && fresh(data)
    {
      data := new char[size](_ => '\0');
      length := 0;
    }

    method FormatInteger(value: int)
      requires Valid() && Printable(value)
      modifies this, data
      ensures Valid()
      ensures Line() == old(Line()) + if data.Length - old(length) >= MAX_NUMERIC_SIZE then Text(value) else ""
    {
      if data.Length - length >= MAX_NUMERIC_SIZE {
        ghost var line := Line();
        var len := Convert(data, length, value);
        assert data[..length] == line;
        assert data[..length + len] == data[..length] + data[length..length + len];
        length := length + len;
      } else {
        assert Line() + "" == Line();
      }
    }
  }
}
