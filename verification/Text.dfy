/** Decimal numbers, and splitting and joining of strings. */
module Text {
  import opened Common

  predicate IsDigit(c: char) { '0' <= c <= '9' }

  /** One or more ASCII digits. */
  predicate IsUnsigned(s: string) { s != "" && forall i :: 0 <= i < |s| ==> IsDigit(s[i]) }

  predicate IsSigned(s: string) { IsUnsigned(s) || (s != "" && s[0] == '-' && IsUnsigned(s[1..])) }

  function NatText(n: nat): (s: string)
    ensures IsUnsigned(s)
  {
    var last := "0123456789"[n % 10];
    if n < 10 then [last] else NatText(n / 10) + [last]
  }

  function IntText(n: int): (s: string)
    ensures IsSigned(s) && (IsUnsigned(s) <==> n >= 0)
  {
    if n < 0 then "-" + NatText(-n) else NatText(n)
  }

  function DigitValue(c: char): nat
    requires IsDigit(c)
  {
    c as int - '0' as int
  }

  function NatValue(s: string): nat
    requires forall i :: 0 <= i < |s| ==> IsDigit(s[i])
  {
    if s == "" then 0 else 10 * NatValue(s[..|s| - 1]) + DigitValue(s[|s| - 1])
  }

  function IntValue(s: string): int
    requires IsSigned(s)
  {
    if !IsUnsigned(s) then 0 - NatValue(s[1..]) else NatValue(s)
  }

  /** The digits of a number, from the left: those of a tenth of it, and the one that remains. */
  lemma NatTextDigits(n: nat, d: nat)
    requires d < 10
    ensures NatText(d) == [('0' as int + d) as char]
    ensures n > 0 ==> NatText(10 * n + d) == NatText(n) + [('0' as int + d) as char]
  {
    var digits := "0123456789";
    assert digits[d] == ('0' as int + d) as char;
    assert (10 * n + d) / 10 == n && (10 * n + d) % 10 == d;
  }

  /** A further digit, leading zeros or not. */
  lemma NatValueDigits(s: string, c: char)
    requires (forall i :: 0 <= i < |s| ==> '0' <= s[i] <= '9') && '0' <= c <= '9'
    ensures NatValue("") == 0 && NatValue(s + [c]) == 10 * NatValue(s) + (c as int - '0' as int)
  {
    assert (s + [c])[..|s|] == s;
  }

  lemma SignedValues(s: string)
    requires s != "" && forall i :: 0 <= i < |s| ==> '0' <= s[i] <= '9'
    ensures IsSigned(s) && IsSigned("-" + s) && IntValue(s) == NatValue(s) && IntValue("-" + s) == 0 - NatValue(s)
  {
    assert ("-" + s)[1..] == s && !IsDigit(("-" + s)[0]);
  }

  lemma {:induction false} NatRoundTrip(n: nat)
    ensures NatValue(NatText(n)) == n
  {
    var s := NatText(n);
    if n >= 10 {
      assert s[..|s| - 1] == NatText(n / 10);
      NatRoundTrip(n / 10);
    } else {
      assert s[..|s| - 1] == "";
    }
  }

  lemma IntRoundTrip(n: int)
    ensures IntValue(IntText(n)) == n
  {
    NatRoundTrip(if n < 0 then -n else n);
  }

  /** str.split for one separator character. */
  function Split(s: string, separator: char): (parts: seq<string>)
    ensures parts != []
  {
    if s == "" then [""] else
      var rest := Split(s[1..], separator);
      if s[0] == separator then [""] + rest else [[s[0]] + rest[0]] + rest[1..]
  }

  /** str.join for one separator character. */
  function JoinBy(parts: seq<string>, separator: char): string {
    if parts == [] then ""
    else if |parts| == 1 then parts[0]
    else parts[0] + [separator] + JoinBy(parts[1..], separator)
  }

  lemma {:induction false} SplitFirst(s: string, separator: char, rest: string)
    requires separator !in s
    ensures Split(s, separator) == [s]
    ensures Split(s + [separator] + rest, separator) == [s] + Split(rest, separator)
  {
    if s == "" {
      assert s + [separator] + rest == [separator] + rest;
    } else {
      assert separator !in s[1..];
      SplitFirst(s[1..], separator, rest);
      assert (s + [separator] + rest)[1..] == s[1..] + [separator] + rest;
      assert [s[0]] + s[1..] == s;
    }
  }

  lemma {:induction false} SplitJoin(parts: seq<string>, separator: char)
    requires parts != [] && forall p :: p in parts ==> separator !in p
    ensures Split(JoinBy(parts, separator), separator) == parts
  {
    if |parts| == 1 {
      SplitFirst(parts[0], separator, "");
    } else {
      SplitJoin(parts[1..], separator);
      SplitFirst(parts[0], separator, JoinBy(parts[1..], separator));
    }
  }

  lemma {:induction false} JoinSplit(s: string, separator: char)
    ensures JoinBy(Split(s, separator), separator) == s
    ensures forall p :: p in Split(s, separator) ==> separator !in p
  {
    if s != "" {
      JoinSplit(s[1..], separator);
      var rest := Split(s[1..], separator);
      var parts := Split(s, separator);
      if s[0] == separator {
        assert parts[1..] == rest;
      } else {
        assert parts[1..] == rest[1..];
        forall p | p in parts ensures separator !in p {
          assert p == parts[0] || p in rest[1..];
          assert rest[0] in rest;
        }
      }
      assert s == [s[0]] + s[1..];
    }
  }
}
