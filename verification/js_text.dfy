/** The JavaScript string and array built-ins the tracks rely on:
    `String.prototype.split` with a one-character separator, its inverse
    `join`, number-to-text conversion of integers, the prefix-parsing
    `parseInt`/`parseFloat` (radix 10, no exponent), `includes` and
    `findIndex` with strict equality. */
module JsText {
  import opened Wrappers

  predicate IsDigit(c: char) {
    '0' <= c <= '9'
  }

  predicate AllDigits(s: string) {
    forall k :: 0 <= k < |s| ==> IsDigit(s[k])
  }

  function DigitValue(c: char): (d: nat)
    requires IsDigit(c)
    ensures d < 10
  {
    (c as int) - ('0' as int)
  }

  function DigitChar(d: nat): (c: char)
    requires d < 10
    ensures IsDigit(c) && DigitValue(c) == d
  {
    (('0' as int) + d) as char
  }

  // ---------------------------------------------------------------------
  // split / join

  /** `s.split(sep)`: the maximal pieces between occurrences of `sep`;
      there is always at least one piece, and a separator at either end
      yields an empty piece there. */
  function Split(s: string, sep: char): (r: seq<string>)
    ensures |r| >= 1
    ensures forall k :: 0 <= k < |r| ==> sep !in r[k]
    decreases |s|
  {
    if |s| == 0 then [""]
    else
      var rest := Split(s[1..], sep);
      if s[0] == sep then [""] + rest
      else [[s[0]] + rest[0]] + rest[1..]
  }

  /** `pieces.join(sep)`. */
  function Join(pieces: seq<string>, sep: char): string
    requires |pieces| >= 1
    decreases |pieces|
  {
    if |pieces| == 1 then pieces[0]
    else pieces[0] + [sep] + Join(pieces[1..], sep)
  }

  /** Joining the pieces of a split gives back the original text. */
  lemma {:induction false} JoinSplit(s: string, sep: char)
    ensures Join(Split(s, sep), sep) == s
    decreases |s|
  {
    if |s| > 0 {
      var rest := Split(s[1..], sep);
      JoinSplit(s[1..], sep);
      if s[0] != sep {
        var r := Split(s, sep);
        assert r == [[s[0]] + rest[0]] + rest[1..];
        if |rest| == 1 {
          assert Join(r, sep) == [s[0]] + rest[0];
        } else {
          assert r[1..] == rest[1..];
          assert Join(rest, sep) == rest[0] + [sep] + Join(rest[1..], sep);
          assert Join(r, sep) == ([s[0]] + rest[0]) + [sep] + Join(rest[1..], sep);
        }
        assert s == [s[0]] + s[1..];
      } else {
        assert Split(s, sep)[1..] == rest;
        assert s == [sep] + s[1..];
      }
    }
  }

  /** A piece without the separator, followed by the separator, is split off whole. */
  lemma {:induction false} SplitPrefix(t: string, sep: char, rest: string)
    requires sep !in t
    ensures Split(t + [sep] + rest, sep) == [t] + Split(rest, sep)
    decreases |t|
  {
    var s := t + [sep] + rest;
    if |t| == 0 {
      assert s[1..] == rest;
    } else {
      assert s[1..] == t[1..] + [sep] + rest;
      SplitPrefix(t[1..], sep, rest);
      assert [t[0]] + t[1..] == t;
    }
  }

  /** A text without the separator splits into itself. */
  lemma {:induction false} SplitWhole(t: string, sep: char)
    requires sep !in t
    ensures Split(t, sep) == [t]
    decreases |t|
  {
    if |t| > 0 {
      SplitWhole(t[1..], sep);
      assert [t[0]] + t[1..] == t;
    }
  }

  /** Splitting a join of separator-free pieces gives the pieces back. */
  lemma {:induction false} SplitJoin(pieces: seq<string>, sep: char)
    requires |pieces| >= 1
    requires forall k :: 0 <= k < |pieces| ==> sep !in pieces[k]
    ensures Split(Join(pieces, sep), sep) == pieces
    decreases |pieces|
  {
    if |pieces| == 1 {
      SplitWhole(pieces[0], sep);
    } else {
      SplitJoin(pieces[1..], sep);
      SplitPrefix(pieces[0], sep, Join(pieces[1..], sep));
      assert [pieces[0]] + pieces[1..] == pieces;
    }
  }

  // ---------------------------------------------------------------------
  // integers as text

  /** Decimal digits of a natural number, without leading zeros. */
  function NatToString(n: nat): (s: string)
    ensures |s| >= 1 && AllDigits(s)
    decreases n
  {
    if n < 10 then [DigitChar(n)] else NatToString(n / 10) + [DigitChar(n % 10)]
  }

  /** `String(i)` (or `i + ""`) for an integer. */
  function IntToString(i: int): (s: string)
    ensures |s| >= 1
    ensures i >= 0 <==> IsDigit(s[0])
  {
    if i >= 0 then NatToString(i) else "-" + NatToString(-i)
  }

  /** Value of a run of decimal digits, most significant first. */
  function DigitsValue(ds: string): nat
    requires AllDigits(ds)
    decreases |ds|
  {
    if |ds| == 0 then 0 else DigitsValue(ds[..|ds| - 1]) * 10 + DigitValue(ds[|ds| - 1])
  }

  /** Value of the digits after a decimal point. */
  function FracValue(ds: string): (r: real)
    requires AllDigits(ds)
    ensures 0.0 <= r < 1.0
    decreases |ds|
  {
    if |ds| == 0 then 0.0 else (DigitValue(ds[0]) as real + FracValue(ds[1..])) / 10.0
  }

  /** The longest prefix of `s` made of decimal digits. */
  function DigitPrefix(s: string): (r: string)
    ensures r <= s && AllDigits(r)
    ensures |r| == |s| || !IsDigit(s[|r|])
    decreases |s|
  {
    if |s| > 0 && IsDigit(s[0]) then [s[0]] + DigitPrefix(s[1..]) else ""
  }

  /** An optional leading sign: its factor and the text after it. */
  function SignOf(s: string): (r: (int, string))
    ensures r.0 == 1 || r.0 == -1
    ensures |r.1| >= |s| - 1
  {
    if |s| > 0 && s[0] == '-' then (-1, s[1..])
    else if |s| > 0 && s[0] == '+' then (1, s[1..])
    else (1, s)
  }

  /** `parseInt(s)`: an optional sign and the longest run of digits after
      it; any text that follows is ignored, and no digit at all gives NaN
      (`None`). Leading white space and `0x` prefixes are not modelled. */
  function ParseInt(s: string): (r: Option<int>)
    ensures r.Some? <==> (|s| > 0 && IsDigit(s[0])) || (|s| > 1 && (s[0] == '-' || s[0] == '+') && IsDigit(s[1]))
    ensures r.Some? && s[0] != '-' ==> r.value >= 0
    ensures r.Some? && s[0] == '-' ==> r.value <= 0
  {
    var ds := DigitPrefix(SignOf(s).1);
    if |ds| == 0 then None else Some(SignOf(s).0 * DigitsValue(ds))
  }

  /** The number `parseFloat` reads after the sign: integer digits, and
      optionally a point followed by fraction digits; at least one digit is
      needed. */
  function UnsignedFloat(rest: string): (r: Option<real>)
    ensures r.Some? <==> (|rest| > 0 && IsDigit(rest[0])) || (|rest| > 1 && rest[0] == '.' && IsDigit(rest[1]))
    ensures r.Some? ==> r.value >= 0.0
  {
    var ip := DigitPrefix(rest);
    var after := rest[|ip|..];
    var fp := if |after| > 0 && after[0] == '.' then DigitPrefix(after[1..]) else "";
    if |ip| == 0 && |fp| == 0 then None
    else Some(DigitsValue(ip) as real + FracValue(fp))
  }

  /** `parseFloat(s)`: an optional sign and the unsigned number after it.
      Exponents and `Infinity` are not modelled. */
  function ParseFloat(s: string): (r: Option<real>)
    ensures var t := if |s| > 0 && (s[0] == '-' || s[0] == '+') then s[1..] else s;
      r.Some? <==> (|t| > 0 && IsDigit(t[0])) || (|t| > 1 && t[0] == '.' && IsDigit(t[1]))
    ensures r.Some? && s[0] != '-' ==> r.value >= 0.0
    ensures r.Some? && s[0] == '-' ==> r.value <= 0.0
  {
    var (sign, rest) := SignOf(s);
    var u := UnsignedFloat(rest);
    if u.Some? then Some(sign as real * u.value) else None
  }

  lemma {:induction false} DigitsValueOfNat(n: nat)
    ensures DigitsValue(NatToString(n)) == n
    decreases n
  {
    var s := NatToString(n);
    if n >= 10 {
      DigitsValueOfNat(n / 10);
      assert s[..|s| - 1] == NatToString(n / 10);
    }
  }

  /** The digit prefix stops exactly at the end of a digit run. */
  lemma {:induction false} DigitPrefixOfRun(ds: string, tail: string)
    requires AllDigits(ds)
    requires |tail| == 0 || !IsDigit(tail[0])
    ensures DigitPrefix(ds + tail) == ds
    decreases |ds|
  {
    if |ds| > 0 {
      assert (ds + tail)[1..] == ds[1..] + tail;
      DigitPrefixOfRun(ds[1..], tail);
      assert [ds[0]] + ds[1..] == ds;
    } else {
      assert ds + tail == tail;
    }
  }

  /** `parseInt` reads back an integer written by `IntToString`, whatever
      non-digit text follows it. */
  lemma ParseIntOfIntToString(i: int, tail: string)
    requires |tail| == 0 || !IsDigit(tail[0])
    ensures ParseInt(IntToString(i) + tail) == Some(i)
  {
    var n: nat := if i >= 0 then i else -i;
    var ds := NatToString(n);
    var text := IntToString(i) + tail;
    assert SignOf(text) == (if i >= 0 then 1 else -1, ds + tail) by {
      SignOfIntToString(i, tail);
    }
    assert DigitPrefix(ds + tail) == ds && DigitsValue(ds) == n by {
      DigitPrefixOfRun(ds, tail);
      DigitsValueOfNat(n);
    }
    if i >= 0 {
      assert ParseInt(text) == Some(1 * n);
    } else {
      assert ParseInt(text) == Some(-1 * n);
    }
  }

  /** `parseFloat` reads back an integer written by `IntToString`, whatever
      text follows it that neither continues the digits nor starts a
      fraction. */
  lemma ParseFloatOfIntToString(i: int, tail: string)
    requires |tail| == 0 || (!IsDigit(tail[0]) && tail[0] != '.')
    ensures ParseFloat(IntToString(i) + tail) == Some(i as real)
  {
    var n: nat := if i >= 0 then i else -i;
    var ds := NatToString(n);
    var text := IntToString(i) + tail;
    assert SignOf(text) == (if i >= 0 then 1 else -1, ds + tail) by {
      SignOfIntToString(i, tail);
    }
    assert UnsignedFloat(ds + tail) == Some(n as real) by {
      UnsignedFloatOfRun(ds, tail);
      DigitsValueOfNat(n);
    }
    if i >= 0 {
      assert ParseFloat(text) == Some(1.0 * n as real);
    } else {
      assert ParseFloat(text) == Some(-1.0 * n as real);
    }
  }

  /** The unsigned number of a digit run followed by a tail that neither
      continues the digits nor starts a fraction is the run's value. */
  lemma UnsignedFloatOfRun(ds: string, tail: string)
    requires AllDigits(ds) && |ds| > 0
    requires |tail| == 0 || (!IsDigit(tail[0]) && tail[0] != '.')
    ensures UnsignedFloat(ds + tail) == Some(DigitsValue(ds) as real)
  {
    var rest := ds + tail;
    assert DigitPrefix(rest) == ds by {
      DigitPrefixOfRun(ds, tail);
    }
    assert |rest| == |ds| || rest[|ds|] == tail[0];
    UnsignedFloatOfInteger(rest, ds);
  }

  /** A text whose digits are not followed by a point reads as the value of
      those digits. */
  lemma UnsignedFloatOfInteger(rest: string, ds: string)
    requires DigitPrefix(rest) == ds && |ds| > 0
    requires |rest| == |ds| || rest[|ds|] != '.'
    ensures UnsignedFloat(rest) == Some(DigitsValue(ds) as real)
  {
    var after := rest[|ds|..];
    assert |after| == 0 || after[0] == rest[|ds|];
    assert FracValue("") == 0.0;
  }

  /** The sign `IntToString` writes, and the digits and text after it. */
  lemma SignOfIntToString(i: int, tail: string)
    ensures SignOf(IntToString(i) + tail) ==
      (if i >= 0 then 1 else -1, NatToString(if i >= 0 then i else -i) + tail)
  {
    var ds := NatToString(if i >= 0 then i else -i);
    var text := IntToString(i) + tail;
    if i >= 0 {
      assert text == ds + tail;
      assert text[0] == ds[0];
    } else {
      assert text == ['-'] + (ds + tail);
      assert text[1..] == ds + tail;
    }
  }

  /** Where `parseInt` reads a number, `parseFloat` reads one too, and the
      two differ only by the fraction: `parseInt` truncates towards zero. */
  lemma ParseFloatExtendsParseInt(s: string)
    requires ParseInt(s).Some?
    ensures ParseFloat(s).Some?
    ensures var i, x := ParseInt(s).value as real, ParseFloat(s).value;
      if s[0] == '-' then i - 1.0 < x <= i else i <= x < i + 1.0
  {
    var (sign, rest) := SignOf(s);
    var n := DigitsValue(DigitPrefix(rest)) as real;
    var u := UnsignedFloat(rest).value;
    assert n <= u < n + 1.0 by {
      UnsignedFloatAfterDigits(rest);
    }
    if s[0] == '-' {
      assert ParseInt(s).value as real == -n && ParseFloat(s).value == -u;
    } else {
      assert ParseInt(s).value as real == n && ParseFloat(s).value == u;
    }
  }

  /** After a run of digits, the unsigned number is that run's value plus
      a fraction below 1. */
  lemma UnsignedFloatAfterDigits(rest: string)
    requires |DigitPrefix(rest)| > 0
    ensures UnsignedFloat(rest).Some?
    ensures var n := DigitsValue(DigitPrefix(rest)) as real;
      n <= UnsignedFloat(rest).value < n + 1.0
  {
  }

  /** Distinct integers have distinct texts. */
  lemma IntToStringInjective(i: int, j: int)
    requires IntToString(i) == IntToString(j)
    ensures i == j
  {
    ParseIntOfIntToString(i, "");
    ParseIntOfIntToString(j, "");
    assert IntToString(i) + "" == IntToString(i);
    assert IntToString(j) + "" == IntToString(j);
  }

  // ---------------------------------------------------------------------
  // includes / findIndex

  /** `sub` occurs in `s` starting at index `i`. */
  predicate OccursAt(s: string, sub: string, i: int) {
    0 <= i && i + |sub| <= |s| && s[i..i + |sub|] == sub
  }

  /** `s.includes(sub)`. */
  function Includes(s: string, sub: string): (r: bool)
    ensures r <==> exists i :: OccursAt(s, sub, i)
    decreases |s|
  {
    if sub <= s then
      assert OccursAt(s, sub, 0);
      true
    else if |s| == 0 then false
    else
      var r := Includes(s[1..], sub);
      if r then
        var i :| OccursAt(s[1..], sub, i);
        assert OccursAt(s, sub, i + 1);
        true
      else
        assert forall i :: OccursAt(s, sub, i) ==> i == 0 || OccursAt(s[1..], sub, i - 1);
        false
  }

  /** `s.findIndex(x => x == v)`: the first index holding `v`, or -1. */
  function FindIndex<T(==)>(s: seq<T>, v: T): (r: int)
    ensures -1 <= r < |s|
    ensures r == -1 <==> v !in s
    ensures r >= 0 ==> s[r] == v && v !in s[..r]
    decreases |s|
  {
    if |s| == 0 then -1
    else if s[0] == v then 0
    else
      var k := FindIndex(s[1..], v);
      if k == -1 then -1
      else
        assert s[..k + 1] == [s[0]] + s[1..][..k];
        k + 1
  }
}
