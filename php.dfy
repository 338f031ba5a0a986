/**
 * The few PHP built-ins the advanced-reports handler relies on, stated over
 * Dafny values: `empty()` and `isset()` on a query-string parameter,
 * `explode()` with a one-character delimiter, and the `(string)` cast of an
 * integer.
 */
module Php {

  /** The query string (`$_GET`): every parameter value is a string. */
  type Query = map<string, string>

  /** PHP `empty()` on a string: `""` and `"0"` are empty. */
  predicate EmptyString(s: string) {
    s == "" || s == "0"
  }

  /** PHP `empty($_GET[key])`: the parameter is absent or its value is `""` or `"0"`. */
  predicate IsEmpty(q: Query, key: string): (b: bool)
    ensures key !in q ==> b
    ensures key in q ==> (b <==> q[key] == "" || q[key] == "0")
  {
    key !in q || EmptyString(q[key])
  }

  /** Only `""` and `"0"` are empty strings; `"00"`, `" "` and `"false"` are not. */
  lemma EmptyValues(key: string)
    ensures IsEmpty(map[], key)
    ensures IsEmpty(map[key := ""], key) && IsEmpty(map[key := "0"], key)
    ensures !IsEmpty(map[key := "00"], key) && !IsEmpty(map[key := " "], key)
    ensures !IsEmpty(map[key := "false"], key) && !IsEmpty(map[key := "t"], key)
  {
  }

  /** PHP `isset($_GET[key]) && $_GET[key] === v`: presence and literal equality. */
  predicate IsSetTo(q: Query, key: string, v: string): (b: bool)
    ensures b ==> key in q
    ensures key in q ==> (b <==> q[key] == v)
  {
    key in q && q[key] == v
  }

  // ---------------------------------------------------------------------------
  // explode() and its inverse implode()
  // ---------------------------------------------------------------------------

  /**
   * PHP `explode(sep, s)`: the pieces of `s` between occurrences of `sep`, in
   * order, keeping empty pieces; the empty string gives one empty piece.
   */
  function Explode(sep: char, s: string): (r: seq<string>)
    ensures |r| >= 1
    ensures forall i :: 0 <= i < |r| ==> sep !in r[i]
    decreases |s|
  {
    if |s| == 0 then [""]
    else
      var rest := Explode(sep, s[1..]);
      if s[0] == sep then [""] + rest
      else [[s[0]] + rest[0]] + rest[1..]
  }

  /** PHP `implode(sep, pieces)`: the pieces joined with `sep` between them. */
  function Implode(sep: char, pieces: seq<string>): string
    decreases |pieces|
  {
    if |pieces| == 0 then ""
    else if |pieces| == 1 then pieces[0]
    else pieces[0] + [sep] + Implode(sep, pieces[1..])
  }

  /** Joining the pieces of `s` gives `s` back: explode loses nothing. */
  lemma {:induction false} ImplodeExplode(sep: char, s: string)
    ensures Implode(sep, Explode(sep, s)) == s
    decreases |s|
  {
    if |s| > 0 {
      var rest := Explode(sep, s[1..]);
      ImplodeExplode(sep, s[1..]);
      if s[0] == sep {
        assert ([""] + rest)[1..] == rest;
      } else if |rest| == 1 {
        assert Implode(sep, rest) == rest[0];
      } else {
        var r := [[s[0]] + rest[0]] + rest[1..];
        assert r[1..] == rest[1..];
        assert Implode(sep, rest) == rest[0] + [sep] + Implode(sep, rest[1..]);
        assert s == [s[0]] + s[1..];
      }
    }
  }

  /** A piece free of `sep` is one whole piece. */
  lemma {:induction false} ExplodeNoSep(sep: char, t: string)
    requires sep !in t
    ensures Explode(sep, t) == [t]
    decreases |t|
  {
    if |t| > 0 {
      assert sep !in t[1..] by {
        forall k | 0 <= k < |t[1..]| ensures t[1..][k] != sep { assert t[1..][k] == t[k + 1]; }
      }
      ExplodeNoSep(sep, t[1..]);
      assert [t[0]] + t[1..] == t;
    }
  }

  /** A separator-free prefix glues onto the first piece of what follows. */
  lemma {:induction false} ExplodePrefix(sep: char, t: string, s: string)
    requires sep !in t
    ensures Explode(sep, t + s) == [t + Explode(sep, s)[0]] + Explode(sep, s)[1..]
    decreases |t|
  {
    if |t| > 0 {
      assert sep !in t[1..] by {
        forall k | 0 <= k < |t[1..]| ensures t[1..][k] != sep { assert t[1..][k] == t[k + 1]; }
      }
      ExplodePrefix(sep, t[1..], s);
      assert (t + s)[0] == t[0];
      assert (t + s)[1..] == t[1..] + s;
      assert [t[0]] + (t[1..] + Explode(sep, s)[0]) == t + Explode(sep, s)[0];
    } else {
      var e := Explode(sep, s);
      assert t + s == s && t + e[0] == e[0];
      assert [e[0]] + e[1..] == e;
    }
  }

  /** Exploding a join of separator-free pieces gives the pieces back. */
  lemma {:induction false} ExplodeImplode(sep: char, pieces: seq<string>)
    requires |pieces| >= 1
    requires forall i :: 0 <= i < |pieces| ==> sep !in pieces[i]
    ensures Explode(sep, Implode(sep, pieces)) == pieces
    decreases |pieces|
  {
    if |pieces| == 1 {
      ExplodeNoSep(sep, pieces[0]);
    } else {
      var tail := Implode(sep, pieces[1..]);
      ExplodeImplode(sep, pieces[1..]);
      assert pieces[0] + [sep] + tail == pieces[0] + ([sep] + tail);
      ExplodePrefix(sep, pieces[0], [sep] + tail);
      assert ([sep] + tail)[0] == sep && ([sep] + tail)[1..] == tail;
      var e := Explode(sep, [sep] + tail);
      assert e == [""] + pieces[1..];
      assert e[0] == "" && e[1..] == pieces[1..];
      assert pieces[0] + e[0] == pieces[0];
      assert [pieces[0]] + pieces[1..] == pieces;
    }
  }

  // ---------------------------------------------------------------------------
  // (string) cast of an integer, and its inverse
  // ---------------------------------------------------------------------------

  predicate IsDigit(c: char) {
    '0' as int <= c as int <= '9' as int
  }

  function DigitChar(d: nat): (c: char)
    requires d < 10
    ensures IsDigit(c) && c as int - '0' as int == d
  {
    ('0' as int + d) as char
  }

  /** Decimal digits of `n`, most significant first, with no leading zero. */
  function NatToString(n: nat): (s: string)
    ensures |s| >= 1 && forall i :: 0 <= i < |s| ==> IsDigit(s[i])
    ensures |s| > 1 ==> s[0] != '0'
    decreases n
  {
    if n < 10 then [DigitChar(n)] else NatToString(n / 10) + [DigitChar(n % 10)]
  }

  /** An optional `-` followed by one or more decimal digits. */
  predicate IsDecimal(s: string) {
    && |s| >= 1
    && (s[0] == '-' ==> |s| >= 2 && forall i :: 1 <= i < |s| ==> IsDigit(s[i]))
    && (s[0] != '-' ==> forall i :: 0 <= i < |s| ==> IsDigit(s[i]))
  }

  /** The digits of a decimal string, without its sign. */
  function Magnitude(s: string): string
    requires |s| >= 1
  {
    if s[0] == '-' then s[1..] else s
  }

  /** A digit string with no leading zero. */
  predicate NoLeadingZero(d: string) {
    |d| > 1 ==> d[0] != '0'
  }

  /** The form PHP prints: no leading zero, and no `-0`. */
  predicate IsCanonicalDecimal(s: string) {
    && IsDecimal(s)
    && NoLeadingZero(Magnitude(s))
    && (s[0] == '-' ==> Magnitude(s) != "0")
  }

  /**
   * PHP `(string) $n` for an integer: decimal with no leading zero, and a
   * leading `-` exactly when negative; reading it back gives `n`.
   */
  function IntToString(n: int): (s: string)
    ensures IsCanonicalDecimal(s) && (s[0] == '-' <==> n < 0)
    ensures StringToInt(s) == n
  {
    var digits := NatToString(if n < 0 then -n else n);
    NatToStringValue(if n < 0 then -n else n);
    var s := if n < 0 then "-" + digits else digits;
    assert n < 0 ==> s[1..] == digits;
    assert n < 0 ==> digits != "0";
    s
  }

  /** The value of a string of decimal digits. */
  function DigitsValue(s: string): nat
    requires forall i :: 0 <= i < |s| ==> IsDigit(s[i])
    decreases |s|
  {
    if |s| == 0 then 0
    else
      assert IsDigit(s[|s| - 1]);
      10 * DigitsValue(s[..|s| - 1]) + (s[|s| - 1] as int - '0' as int)
  }

  /** The integer a decimal string denotes: an optional `-` then digits. */
  function StringToInt(s: string): int
    requires IsDecimal(s)
  {
    if s[0] == '-' then -(DigitsValue(s[1..]) as int) else DigitsValue(s)
  }

  lemma {:induction false} NatToStringValue(n: nat)
    ensures DigitsValue(NatToString(n)) == n
    decreases n
  {
    if n >= 10 {
      var s := NatToString(n);
      NatToStringValue(n / 10);
      assert s[..|s| - 1] == NatToString(n / 10);
    }
  }

  /** A digit string of two or more digits without a leading zero is at least 10. */
  lemma {:induction false} NoLeadingZeroAtLeastTen(d: string)
    requires forall i :: 0 <= i < |d| ==> IsDigit(d[i])
    requires |d| >= 2 && d[0] != '0'
    ensures DigitsValue(d) >= 10
    decreases |d|
  {
    var p := d[..|d| - 1];
    assert p[0] == d[0];
    if |p| >= 2 {
      NoLeadingZeroAtLeastTen(p);
    } else {
      assert DigitsValue(p) == p[0] as int - '0' as int >= 1;
    }
  }

  /** Two digit strings without leading zeros that have the same value are equal. */
  lemma {:induction false} DigitsUnique(d: string, e: string)
    requires forall i :: 0 <= i < |d| ==> IsDigit(d[i])
    requires forall i :: 0 <= i < |e| ==> IsDigit(e[i])
    requires |d| >= 1 && |e| >= 1 && NoLeadingZero(d) && NoLeadingZero(e)
    requires DigitsValue(d) == DigitsValue(e)
    ensures d == e
    decreases |d|
  {
    if |d| == 1 && |e| == 1 {
      assert DigitsValue(d) == d[0] as int - '0' as int;
      assert DigitsValue(e) == e[0] as int - '0' as int;
    } else if |d| == 1 {
      NoLeadingZeroAtLeastTen(e);
    } else if |e| == 1 {
      NoLeadingZeroAtLeastTen(d);
    } else {
      var dp, ep := d[..|d| - 1], e[..|e| - 1];
      assert IsDigit(d[|d| - 1]) && IsDigit(e[|e| - 1]);
      var x, y := d[|d| - 1] as int - '0' as int, e[|e| - 1] as int - '0' as int;
      LastDigit(DigitsValue(dp), x, DigitsValue(ep), y);
      assert dp[0] == d[0] && ep[0] == e[0];
      DigitsUnique(dp, ep);
      assert d == dp + [d[|d| - 1]] && e == ep + [e[|e| - 1]];
    }
  }

  lemma LastDigit(a: int, x: int, b: int, y: int)
    requires 0 <= x < 10 && 0 <= y < 10
    requires 10 * a + x == 10 * b + y
    ensures a == b && x == y
  {
  }

  /** The decimal string of an integer is the only canonical decimal string denoting it. */
  lemma CanonicalDecimalUnique(s: string, n: int)
    requires IsCanonicalDecimal(s) && StringToInt(s) == n
    ensures s == IntToString(n)
  {
    var t := IntToString(n);
    var d, e := Magnitude(s), Magnitude(t);
    assert forall i :: 0 <= i < |d| ==> IsDigit(d[i]) by {
      if s[0] == '-' { forall i | 0 <= i < |d| ensures IsDigit(d[i]) { assert d[i] == s[i + 1]; } }
    }
    assert forall i :: 0 <= i < |e| ==> IsDigit(e[i]) by {
      if t[0] == '-' { forall i | 0 <= i < |e| ensures IsDigit(e[i]) { assert e[i] == t[i + 1]; } }
    }
    if s[0] == '-' {
      if |d| >= 2 { NoLeadingZeroAtLeastTen(d); } else { assert d[0] != '0'; assert DigitsValue(d) == d[0] as int - '0' as int; }
      assert n < 0;
    }
    assert DigitsValue(d) == DigitsValue(e);
    DigitsUnique(d, e);
    assert s == (if s[0] == '-' then "-" + d else d);
    assert t == (if t[0] == '-' then "-" + e else e);
  }
}
