/** Scalar parsers of the report reader (analyze.py `_parse_money`,
    `_parse_int`, `_parse_dt`) and the renderings they invert. */
module Scalars {
  import opened Basics
  import opened Text

  predicate IsDigit(c: char)
  {
    '0' <= c <= '9'
  }

  predicate AllDigits(s: string)
  {
    forall i :: 0 <= i < |s| ==> IsDigit(s[i])
  }

  predicate HasDigit(s: string)
  {
    exists i :: 0 <= i < |s| && IsDigit(s[i])
  }

  function DigitValue(c: char): nat
    requires IsDigit(c)
  {
    c as int - '0' as int
  }

  function DigitChar(d: nat): (c: char)
    requires d < 10
    ensures IsDigit(c) && DigitValue(c) == d
  {
    ('0' as int + d) as char
  }

  /** The number a string of decimal digits denotes. */
  function DigitsValue(s: string): nat
    requires AllDigits(s)
  {
    if s == [] then 0 else DigitsValue(s[..|s| - 1]) * 10 + DigitValue(s[|s| - 1])
  }

  /** `10^n` as a real. */
  function Pow10(n: nat): (r: real)
    ensures r >= 1.0
  {
    if n == 0 then 1.0 else 10.0 * Pow10(n - 1)
  }

  /** The value of `k` digits after a decimal point that read `d` as an
      integer: `d / 10^k`. */
  function Fraction(d: nat, k: nat): real
  {
    d as real / Pow10(k)
  }

  /** The end of the run of digits that starts at `i`. */
  function DigitRunEnd(s: string, i: nat): (e: nat)
    requires i <= |s|
    ensures i <= e <= |s| && AllDigits(s[i..e])
    ensures e < |s| ==> !IsDigit(s[e])
    decreases |s| - i
  {
    if i < |s| && IsDigit(s[i]) then
      var e := DigitRunEnd(s, i + 1);
      assert s[i..e] == [s[i]] + s[i + 1..e];
      e
    else i
  }

  /** A run of digits that stops at a non-digit (or at the end) is the run
      `DigitRunEnd` finds. */
  lemma {:induction false} DigitRunEndAt(s: string, i: nat, e: nat)
    requires i <= e <= |s| && AllDigits(s[i..e])
    requires e < |s| ==> !IsDigit(s[e])
    ensures DigitRunEnd(s, i) == e
    decreases e - i
  {
    if i < e {
      assert s[i] == s[i..e][0];
      assert s[i + 1..e] == s[i..e][1..];
      DigitRunEndAt(s, i + 1, e);
    }
  }

  /** The first index `k >= from` holding a digit. */
  function FirstDigit(s: string, from: nat): (r: Option<nat>)
    ensures r.Some? ==> from <= r.value < |s| && IsDigit(s[r.value])
    ensures r.Some? ==> forall k :: from <= k < r.value ==> !IsDigit(s[k])
    ensures r.None? ==> forall k :: from <= k < |s| ==> !IsDigit(s[k])
    decreases |s| - from
  {
    if from >= |s| then None
    else if IsDigit(s[from]) then Some(from)
    else FirstDigit(s, from + 1)
  }

  /** `s.replace(" ", "").replace(",", "")`. */
  function Compact(s: string): string
  {
    if s == [] then [] else (if s[0] == ' ' || s[0] == ',' then [] else [s[0]]) + Compact(s[1..])
  }

  lemma {:induction false} CompactAppend(a: string, b: string)
    ensures Compact(a + b) == Compact(a) + Compact(b)
    decreases |a|
  {
    if a == [] {
      assert a + b == b;
    } else {
      assert (a + b)[1..] == a[1..] + b;
      CompactAppend(a[1..], b);
    }
  }

  /** What the number parsers look at: the text with every whitespace
      character and every comma removed. */
  function Clean(s: string): string
  {
    Compact(NonSpace(s))
  }

  lemma {:induction false} CompactPlainSpaces(x: string)
    requires OnlyPlainSpaces(x)
    ensures Compact(x) == Compact(NonSpace(x))
    decreases |x|
  {
    if x != [] {
      assert OnlyPlainSpaces(x[1..]) by {
        forall i | 0 <= i < |x[1..]| && IsSpace(x[1..][i]) ensures x[1..][i] == ' ' {
          assert x[1..][i] == x[i + 1];
        }
      }
      CompactPlainSpaces(x[1..]);
      CompactAppend(if IsSpace(x[0]) then [] else [x[0]], NonSpace(x[1..]));
    }
  }

  /** Normalising and then dropping spaces and commas drops exactly the
      whitespace and the commas. */
  lemma CompactNorm(s: string)
    ensures Compact(Norm(s)) == Clean(s)
  {
    CompactPlainSpaces(Norm(s));
    NormKeepsText(s);
  }

  lemma {:induction false} HasDigitNonSpace(s: string)
    ensures HasDigit(NonSpace(s)) <==> HasDigit(s)
    decreases |s|
  {
    if s != [] {
      HasDigitNonSpace(s[1..]);
      var head := if IsSpace(s[0]) then [] else [s[0]];
      HasDigitAppend(head, NonSpace(s[1..]));
      HasDigitAppend([s[0]], s[1..]);
      assert s == [s[0]] + s[1..];
    }
  }

  lemma {:induction false} HasDigitCompact(s: string)
    ensures HasDigit(Compact(s)) <==> HasDigit(s)
    decreases |s|
  {
    if s != [] {
      HasDigitCompact(s[1..]);
      var head := if s[0] == ' ' || s[0] == ',' then [] else [s[0]];
      HasDigitAppend(head, Compact(s[1..]));
      HasDigitAppend([s[0]], s[1..]);
      assert s == [s[0]] + s[1..];
    }
  }

  lemma HasDigitAppend(a: string, b: string)
    ensures HasDigit(a + b) <==> HasDigit(a) || HasDigit(b)
  {
    if HasDigit(a + b) {
      var i :| 0 <= i < |a + b| && IsDigit((a + b)[i]);
      if i < |a| {
        assert IsDigit(a[i]);
      } else {
        assert IsDigit(b[i - |a|]);
      }
    }
    if HasDigit(a) {
      var i :| 0 <= i < |a| && IsDigit(a[i]);
      assert (a + b)[i] == a[i];
    }
    if HasDigit(b) {
      var i :| 0 <= i < |b| && IsDigit(b[i]);
      assert (a + b)[|a| + i] == b[i];
    }
  }

  /** The first match of `-?\d+` in `t`, as an integer. */
  function FirstInt(t: string): (r: Option<int>)
    ensures r.None? <==> !HasDigit(t)
  {
    match FirstDigit(t, 0)
    case None => None
    case Some(j) =>
      var e := DigitRunEnd(t, j);
      var v: int := DigitsValue(t[j..e]);
      Some(if j > 0 && t[j - 1] == '-' then -v else v)
  }

  /** `_parse_int` (analyze.py:200-211). Its result depends only on the text
      with whitespace and commas removed, and it is absent exactly when the
      text holds no digit. */
  function ParseInt(s: string): (r: Option<int>)
    ensures r == FirstInt(Clean(s))
    ensures r.None? <==> !HasDigit(s)
  {
    var n := Norm(s);
    CompactNorm(s);
    HasDigitNonSpace(s);
    HasDigitCompact(NonSpace(s));
    if n == [] then
      assert Clean(s) == [];
      None
    else
      FirstInt(Compact(n))
  }

  /** The digits of a `float()` literal starting at `i0`: `5`, `5.`, `.5`
      or `5.25`; their value and the index after them. */
  function Mantissa(t: string, i0: nat): (r: Option<(real, nat)>)
    requires i0 <= |t|
  {
    var ie := DigitRunEnd(t, i0);
    var whole := DigitsValue(t[i0..ie]) as real;
    if ie < |t| && t[ie] == '.' then
      var fe := DigitRunEnd(t, ie + 1);
      if ie == i0 && fe == ie + 1 then None
      else Some((whole + Fraction(DigitsValue(t[ie + 1..fe]), fe - ie - 1), fe))
    else if ie == i0 then None
    else Some((whole, ie))
  }

  /** Applies the exponent that `t[p..]` must consist of (or nothing) to
      the signed mantissa `m`. */
  function Exponent(t: string, p: nat, m: real): (r: Option<real>)
    requires p <= |t|
  {
    if p == |t| then Some(m)
    else if t[p] != 'e' && t[p] != 'E' then None
    else
      var q := if p + 1 < |t| && (t[p + 1] == '-' || t[p + 1] == '+') then p + 2 else p + 1;
      var qe := DigitRunEnd(t, q);
      if qe == q || qe != |t| then None
      else
        var x := DigitsValue(t[q..qe]);
        if t[p + 1] == '-' then Some(m / Pow10(x)) else Some(m * Pow10(x))
  }

  /** A Python `float()` literal without underscores, `inf` or `nan`:
      an optional sign, a mantissa and an optional exponent. */
  function ParseFloat(t: string): (r: Option<real>)
  {
    var i0 := if t != [] && (t[0] == '-' || t[0] == '+') then 1 else 0;
    var mt := Mantissa(t, i0);
    if mt.None? then None
    else
      var (m, p) := mt.value;
      Exponent(t, p, if t != [] && t[0] == '-' then -m else m)
  }

  /** `_parse_money` (analyze.py:189-197): `float()` of the text with its
      whitespace and commas removed; absent for blank text and for anything
      `float()` rejects. */
  function ParseMoney(s: string): (r: Option<real>)
    ensures r == ParseFloat(Clean(s))
    ensures r.Some? ==> HasDigit(s)
  {
    var n := Norm(s);
    CompactNorm(s);
    if n == [] then
      assert Clean(s) == [];
      None
    else
      var r := ParseFloat(Compact(n));
      if r.Some? then
        FloatNeedsDigit(Compact(n));
        HasDigitCompact(NonSpace(s));
        HasDigitNonSpace(s);
        r
      else r
  }

  lemma FloatNeedsDigit(t: string)
    requires ParseFloat(t).Some?
    ensures HasDigit(t)
  {
    var i0 := if t != [] && (t[0] == '-' || t[0] == '+') then 1 else 0;
    var ie := DigitRunEnd(t, i0);
    if ie > i0 {
      assert IsDigit(t[i0..ie][0]);
      assert IsDigit(t[i0]);
    } else {
      assert Mantissa(t, i0).Some?;
      var fe := DigitRunEnd(t, ie + 1);
      assert IsDigit(t[ie + 1..fe][0]);
      assert IsDigit(t[ie + 1]);
    }
  }

  /** Decimal digits of a natural number, most significant first. */
  function NatToString(n: nat): (s: string)
    ensures s != [] && AllDigits(s) && DigitsValue(s) == n
  {
    if n < 10 then [DigitChar(n)]
    else
      var p := NatToString(n / 10);
      var s := p + [DigitChar(n % 10)];
      assert s[..|s| - 1] == p;
      s
  }

  /** `str(n)` for an integer. */
  function IntToString(n: int): string
  {
    if n < 0 then "-" + NatToString(-n) else NatToString(n)
  }

  /** An amount of cents written as Python prints money, `-1234.05`. */
  function CentsToString(c: int): string
  {
    var a := if c < 0 then -c else c;
    (if c < 0 then "-" else "") + NatToString(a / 100) + "." + [DigitChar(a % 100 / 10), DigitChar(a % 10)]
  }

  /** A rendered amount is a sign, digits and a decimal point, and nothing
      else. */
  lemma CentsPlain(c: int)
    ensures CentsToString(c) != []
    ensures var t := CentsToString(c);
      forall i :: 0 <= i < |t| ==> IsDigit(t[i]) || t[i] == '-' || t[i] == '.'
  {
    var t := CentsToString(c);
    var a := if c < 0 then -c else c;
    var w := NatToString(a / 100);
    var f := [DigitChar(a % 100 / 10), DigitChar(a % 10)];
    var i0 := if c < 0 then 1 else 0;
    var ie := i0 + |w|;
    assert t == (if c < 0 then "-" else "") + w + "." + f;
    forall i | 0 <= i < |t| ensures IsDigit(t[i]) || t[i] == '-' || t[i] == '.' {
      if i0 <= i < ie {
        assert t[i] == w[i - i0];
      } else if i > ie {
        assert t[i] == f[i - ie - 1];
      }
    }
  }

  /** A rendered integer is a sign and digits, and nothing else. */
  lemma IntPlain(n: int)
    ensures IntToString(n) != []
    ensures var t := IntToString(n);
      forall i :: 0 <= i < |t| ==> IsDigit(t[i]) || t[i] == '-'
  {
    var t := IntToString(n);
    var j := if n < 0 then 1 else 0;
    var d := NatToString(if n < 0 then -n else n);
    assert t[j..] == d;
    forall i | 0 <= i < |t| ensures IsDigit(t[i]) || t[i] == '-' {
      if i >= j {
        assert t[i] == d[i - j];
      }
    }
  }

  /** Text without whitespace is already normal. */
  lemma NoSpaceIsNormal(t: string)
    requires forall i :: 0 <= i < |t| ==> !IsSpace(t[i])
    ensures Norm(t) == t && Clean(t) == Compact(t)
  {
    NormalIsFixed(t);
    NonSpaceNone(t);
  }

  lemma {:induction false} NonSpaceNone(t: string)
    requires forall i :: 0 <= i < |t| ==> !IsSpace(t[i])
    ensures NonSpace(t) == t
    decreases |t|
  {
    if t != [] {
      NonSpaceNone(t[1..]);
    }
  }

  lemma {:induction false} CompactNone(t: string)
    requires forall i :: 0 <= i < |t| ==> t[i] != ' ' && t[i] != ','
    ensures Compact(t) == t
    decreases |t|
  {
    if t != [] {
      CompactNone(t[1..]);
    }
  }

  /** `_parse_int` reads back every integer `str()` writes. */
  lemma ParseIntRendered(n: int)
    ensures ParseInt(IntToString(n)) == Some(n)
  {
    var t := IntToString(n);
    var j := if n < 0 then 1 else 0;
    assert t[j..] == NatToString(if n < 0 then -n else n);
    RenderedParse(t, n, j);
  }

  /** A sign where `n` needs one, then the digits of its magnitude: the text
      reads back as `n`. */
  lemma RenderedParse(t: string, n: int, j: nat)
    requires j == (if n < 0 then 1 else 0) && j <= |t|
    requires n < 0 ==> t[0] == '-'
    requires t[j..] == NatToString(if n < 0 then -n else n)
    ensures ParseInt(t) == Some(n)
  {
    RenderedChars(t, n, j);
    NonSpaceNone(t);
    CompactNone(t);
    RenderedFirstInt(t, n, j);
  }

  /** A rendered integer holds no blank and no thousands separator. */
  lemma RenderedChars(t: string, n: int, j: nat)
    requires j == (if n < 0 then 1 else 0) && j <= |t|
    requires n < 0 ==> t[0] == '-'
    requires t[j..] == NatToString(if n < 0 then -n else n)
    ensures forall i :: 0 <= i < |t| ==> !IsSpace(t[i]) && t[i] != ' ' && t[i] != ','
  {
    var d := t[j..];
    forall i | 0 <= i < |t| ensures !IsSpace(t[i]) && t[i] != ' ' && t[i] != ',' {
      if i >= j {
        assert t[i] == d[i - j];
      }
    }
  }

  /** The first run of digits of a rendered integer, with its sign, is the
      integer. */
  lemma RenderedFirstInt(t: string, n: int, j: nat)
    requires j == (if n < 0 then 1 else 0) && j <= |t|
    requires n < 0 ==> t[0] == '-'
    requires t[j..] == NatToString(if n < 0 then -n else n)
    ensures FirstInt(t) == Some(n)
  {
    var d := t[j..];
    assert t[j..|t|] == d;
    assert IsDigit(t[j]) by {
      assert t[j] == d[0];
    }
    assert FirstDigit(t, 0) == Some(j) by {
      if j == 1 {
        assert !IsDigit(t[0]);
        assert FirstDigit(t, 1) == Some(1);
      }
    }
    DigitRunEndAt(t, j, |t|);
  }

  /** `ParseFloat` on `[sign] digits "." digits`. */
  lemma ParseFloatFixedPoint(t: string, i0: nat, ie: nat, m: real)
    requires i0 == (if t != [] && t[0] == '-' then 1 else 0)
    requires i0 < ie < |t| - 1
    requires AllDigits(t[i0..ie]) && t[ie] == '.' && AllDigits(t[ie + 1..])
    requires m == DigitsValue(t[i0..ie]) as real + Fraction(DigitsValue(t[ie + 1..]), |t| - ie - 1)
    ensures ParseFloat(t) == Some(if i0 == 1 then -m else m)
  {
    DigitRunEndAt(t, i0, ie);
    assert t[ie + 1..|t|] == t[ie + 1..];
    DigitRunEndAt(t, ie + 1, |t|);
    MantissaFixedPoint(t, i0, ie, |t|, m);
    if i0 == 0 {
      assert t[0] == t[i0..ie][0];
    }
    ParseFloatWhole(t, i0, m);
  }

  /** A literal whose mantissa runs to the end has no exponent. */
  lemma ParseFloatWhole(t: string, i0: nat, m: real)
    requires i0 == (if t != [] && t[0] == '-' then 1 else 0) && i0 < |t|
    requires i0 == 0 ==> t[0] != '+'
    requires Mantissa(t, i0) == Some((m, |t|))
    ensures ParseFloat(t) == Some(if i0 == 1 then -m else m)
  {
    ParseFloatUnfold(t, i0, |t|, m);
    ExponentAtEnd(t, if i0 == 1 then -m else m);
  }

  lemma ExponentAtEnd(t: string, m: real)
    ensures Exponent(t, |t|, m) == Some(m)
  {
  }

  lemma ParseFloatUnfold(t: string, i0: nat, p: nat, m: real)
    requires i0 <= |t|
    requires i0 == (if t != [] && (t[0] == '-' || t[0] == '+') then 1 else 0)
    requires Mantissa(t, i0) == Some((m, p))
    ensures ParseFloat(t) == Exponent(t, p, if t != [] && t[0] == '-' then -m else m)
  {
  }

  lemma MantissaFixedPoint(t: string, i0: nat, ie: nat, fe: nat, m: real)
    requires i0 < ie < fe <= |t| && ie + 1 < fe
    requires DigitRunEnd(t, i0) == ie && t[ie] == '.' && DigitRunEnd(t, ie + 1) == fe
    requires m == DigitsValue(t[i0..ie]) as real + Fraction(DigitsValue(t[ie + 1..fe]), fe - ie - 1)
    ensures Mantissa(t, i0) == Some((m, fe))
  {
  }

  /** `_parse_money` reads back every amount of cents written with two
      decimals. */
  lemma ParseMoneyRendered(c: int)
    ensures ParseMoney(CentsToString(c)) == Some(c as real / 100.0)
  {
    CentsClean(c);
    CentsFloat(c);
  }

  lemma CentsClean(c: int)
    ensures Clean(CentsToString(c)) == CentsToString(c)
  {
    var t := CentsToString(c);
    var a := if c < 0 then -c else c;
    var w := NatToString(a / 100);
    var f := [DigitChar(a % 100 / 10), DigitChar(a % 10)];
    var i0 := if c < 0 then 1 else 0;
    var ie := i0 + |w|;
    assert t == (if c < 0 then "-" else "") + w + "." + f;
    forall i | 0 <= i < |t| ensures !IsSpace(t[i]) && t[i] != ' ' && t[i] != ',' {
      if i0 <= i < ie {
        assert t[i] == w[i - i0];
      } else if i > ie {
        assert t[i] == f[i - ie - 1];
      }
    }
    NonSpaceNone(t);
    CompactNone(t);
  }

  lemma CentsFloat(c: int)
    ensures ParseFloat(CentsToString(c)) == Some(c as real / 100.0)
  {
    var i0, ie := CentsLayout(c);
    CentsTextFloat(CentsToString(c), c, i0, ie);
  }

  /** A text laid out as `CentsToString` lays out `c` reads back as `c`
      hundredths. */
  lemma CentsTextFloat(t: string, c: int, i0: nat, ie: nat)
    requires var a := if c < 0 then -c else c;
      && i0 == (if t != [] && t[0] == '-' then 1 else 0)
      && (i0 == 1 <==> c < 0)
      && i0 < ie && ie + 3 == |t|
      && t[i0..ie] == NatToString(a / 100) && t[ie] == '.'
      && t[ie + 1..] == [DigitChar(a % 100 / 10), DigitChar(a % 10)]
    ensures ParseFloat(t) == Some(c as real / 100.0)
  {
    var a := if c < 0 then -c else c;
    CentsDigits(t[i0..ie], t[ie + 1..], a);
    var m := (a / 100) as real + Fraction(a % 100, 2);
    CentsValue(c, m);
    ParseFloatFixedPoint(t, i0, ie, m);
  }

  /** The digit runs of a rendered amount read back as its units and
      hundredths. */
  lemma CentsDigits(w: string, f: string, a: nat)
    requires w == NatToString(a / 100)
    requires f == [DigitChar(a % 100 / 10), DigitChar(a % 10)]
    ensures AllDigits(w) && DigitsValue(w) == a / 100
    ensures AllDigits(f) && DigitsValue(f) == a % 100 && |f| == 2
  {
    TwoDigits(DigitChar(a % 100 / 10), DigitChar(a % 10));
  }

  /** Whole units plus two decimals, signed, make up the amount. */
  lemma CentsValue(c: int, m: real)
    requires var a := if c < 0 then -c else c;
      m == (a / 100) as real + Fraction(a % 100, 2)
    ensures (if c < 0 then -m else m) == c as real / 100.0
  {
    var a := if c < 0 then -c else c;
    assert Pow10(2) == 100.0;
    CentsSplit(a);
  }

  /** Where the sign, the whole part, the point and the two decimals of a
      rendered amount lie. */
  lemma CentsLayout(c: int) returns (i0: nat, ie: nat)
    ensures var t := CentsToString(c);
      var a := if c < 0 then -c else c;
      && i0 == (if t != [] && t[0] == '-' then 1 else 0)
      && (i0 == 1 <==> c < 0)
      && i0 < ie && ie + 3 == |t|
      && t[i0..ie] == NatToString(a / 100) && t[ie] == '.'
      && t[ie + 1..] == [DigitChar(a % 100 / 10), DigitChar(a % 10)]
  {
    var t := CentsToString(c);
    var a := if c < 0 then -c else c;
    var w := NatToString(a / 100);
    var f := [DigitChar(a % 100 / 10), DigitChar(a % 10)];
    i0 := if c < 0 then 1 else 0;
    ie := i0 + |w|;
    assert t == (if c < 0 then "-" else "") + w + "." + f;
    assert t[i0..ie] == w;
    assert t[ie + 1..] == f;
    if c >= 0 {
      assert t[0] == w[0];
    }
  }

  /** Whole units plus hundredths make up the amount. */
  lemma CentsSplit(a: nat)
    ensures (a / 100) as real + (a % 100) as real / 100.0 == a as real / 100.0
  {
    assert a == (a / 100) * 100 + a % 100;
    assert a as real == ((a / 100) * 100) as real + (a % 100) as real;
  }

  /** A calendar timestamp as `datetime.strptime` builds it. */
  datatype DateTime = DateTime(year: int, month: int, day: int, hour: int, minute: int, second: int)

  predicate IsLeapYear(y: int)
  {
    (y % 4 == 0 && y % 100 != 0) || y % 400 == 0
  }

  function DaysInMonth(y: int, m: int): int
  {
    if m == 2 then (if IsLeapYear(y) then 29 else 28)
    else if m == 4 || m == 6 || m == 9 || m == 11 then 30
    else 31
  }

  /** The values `datetime` accepts for a four-digit year. */
  predicate ValidDateTime(d: DateTime)
  {
    && 1 <= d.year <= 9999
    && 1 <= d.month <= 12
    && 1 <= d.day <= DaysInMonth(d.year, d.month)
    && 0 <= d.hour < 24
    && 0 <= d.minute < 60
    && 0 <= d.second < 60
  }

  /** `YYYY.MM.DD HH:MM:SS`, the layout of a report timestamp. */
  predicate DtShape(t: string)
  {
    && |t| == 19
    && AllDigits(t[0..4]) && t[4] == '.' && AllDigits(t[5..7]) && t[7] == '.'
    && AllDigits(t[8..10]) && t[10] == ' ' && AllDigits(t[11..13]) && t[13] == ':'
    && AllDigits(t[14..16]) && t[16] == ':' && AllDigits(t[17..19])
  }

  /** `_parse_dt` (analyze.py:261-268) on the timestamps the report holds:
      `strptime(s, "%Y.%m.%d %H:%M:%S")`, absent when the text does not
      have that layout or names no valid calendar instant. */
  function ParseDt(s: string): (r: Option<DateTime>)
    ensures r.Some? ==> ValidDateTime(r.value)
  {
    var t := Norm(s);
    if !DtShape(t) then None
    else
      var d := DateTime(DigitsValue(t[0..4]), DigitsValue(t[5..7]), DigitsValue(t[8..10]),
                        DigitsValue(t[11..13]), DigitsValue(t[14..16]), DigitsValue(t[17..19]));
      if ValidDateTime(d) then Some(d) else None
  }

  lemma TwoDigits(a: char, b: char)
    requires IsDigit(a) && IsDigit(b)
    ensures DigitsValue([a, b]) == DigitValue(a) * 10 + DigitValue(b)
  {
    assert [a, b][..1] == [a];
    assert [a][..0] == [];
    assert DigitsValue([a]) == DigitValue(a);
  }

  function Pad2(n: nat): (s: string)
    requires n < 100
    ensures |s| == 2 && AllDigits(s) && DigitsValue(s) == n
  {
    var s := [DigitChar(n / 10), DigitChar(n % 10)];
    TwoDigits(DigitChar(n / 10), DigitChar(n % 10));
    s
  }

  function Pad4(n: nat): (s: string)
    requires n < 10000
    ensures |s| == 4 && AllDigits(s) && DigitsValue(s) == n
  {
    var hi := Pad2(n / 100);
    var lo := Pad2(n % 100);
    var s := hi + lo;
    assert s[..3] == hi + [lo[0]];
    assert s[..2] == hi;
    assert s[..3][..2] == hi;
    s
  }

  /** A timestamp as the report prints it. */
  function FormatDt(d: DateTime): (t: string)
    requires ValidDateTime(d)
    ensures DtShape(t)
  {
    Pad4(d.year) + "." + Pad2(d.month) + "." + Pad2(d.day) + " "
      + Pad2(d.hour) + ":" + Pad2(d.minute) + ":" + Pad2(d.second)
  }

  /** Text laid out as a timestamp is already normal: its one space sits
      between two digits. */
  lemma DtShapeNormal(t: string)
    requires DtShape(t)
    ensures Normal(t)
  {
    forall i | 0 <= i < |t| && i != 10 ensures !IsSpace(t[i]) {
      if i < 4 { assert t[i] == t[0..4][i]; }
      else if 5 <= i < 7 { assert t[i] == t[5..7][i - 5]; }
      else if 8 <= i < 10 { assert t[i] == t[8..10][i - 8]; }
      else if 11 <= i < 13 { assert t[i] == t[11..13][i - 11]; }
      else if 14 <= i < 16 { assert t[i] == t[14..16][i - 14]; }
      else if 17 <= i { assert t[i] == t[17..19][i - 17]; }
    }
  }

  /** `_parse_dt` reads back every valid timestamp the report prints. */
  lemma ParseDtRendered(d: DateTime)
    requires ValidDateTime(d)
    ensures ParseDt(FormatDt(d)) == Some(d)
  {
    var t := FormatDt(d);
    DtShapeNormal(t);
    NormalIsFixed(t);
    assert t[0..4] == Pad4(d.year);
    assert t[5..7] == Pad2(d.month);
    assert t[8..10] == Pad2(d.day);
    assert t[11..13] == Pad2(d.hour);
    assert t[14..16] == Pad2(d.minute);
    assert t[17..19] == Pad2(d.second);
  }
}
