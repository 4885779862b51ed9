/**
 * Decoding of one telemetry frame (sdl_orbitsim.cpp:200-211).
 *
 * The received bytes are NUL-terminated, split by strtok on "," (runs of
 * commas collapse, so no token is empty) and every token is converted by
 * atoi and appended to the parameter vector, however many tokens there are.
 * The pure functions below are the specification; DecodeInPlace is the loop
 * the client runs over its char buffer, including the NUL bytes strtok
 * writes into that buffer.
 */
module Telemetry {

  // ---------------------------------------------------------------------
  // C strings

  /** Index of the first occurrence of c in s, or |s| when c does not occur. */
  function IndexOrEnd(s: seq<char>, c: char): (n: nat)
    ensures n <= |s|
    ensures forall k :: 0 <= k < n ==> s[k] != c
    ensures n == |s| || s[n] == c
  {
    if s == [] || s[0] == c then 0 else 1 + IndexOrEnd(s[1..], c)
  }

  /** The first occurrence is unique: any index with the two properties is it. */
  lemma IndexOrEndUnique(s: seq<char>, c: char, n: nat)
    requires n <= |s|
    requires forall k :: 0 <= k < n ==> s[k] != c
    requires n == |s| || s[n] == c
    ensures IndexOrEnd(s, c) == n
  {
  }

  /** The C string held in a char buffer: everything before the first NUL. */
  function CStr(s: seq<char>): seq<char>
  {
    s[..IndexOrEnd(s, '\0')]
  }

  predicate NoNul(s: seq<char>)
  {
    forall k :: 0 <= k < |s| ==> s[k] != '\0'
  }

  /** A string without NUL in front of a buffer is part of the C string. */
  lemma CStrAppend(a: seq<char>, b: seq<char>)
    requires NoNul(a)
    ensures CStr(a + b) == a + CStr(b)
  {
    var n := IndexOrEnd(b, '\0');
    IndexOrEndUnique(a + b, '\0', |a| + n);
  }

  /** Writing NUL at index n ends the C string at or before n. */
  lemma {:induction false} CStrTerminated(f: seq<char>, n: nat)
    requires n < |f| && f[n] == '\0'
    ensures CStr(f) == CStr(f[..n])
    ensures IndexOrEnd(f, '\0') <= n
  {
    var m := IndexOrEnd(f[..n], '\0');
    IndexOrEndUnique(f, '\0', m);
  }

  /** A NUL byte received inside a frame hides everything after it. */
  lemma CStrStopsAtNul(a: seq<char>, b: seq<char>)
    ensures CStr(a + ['\0'] + b) == CStr(a)
  {
    CStrTerminated(a + ['\0'] + b, |a|);
    assert (a + ['\0'] + b)[..|a|] == a;
  }

  // ---------------------------------------------------------------------
  // strtok on ","

  /**
   * The tokens strtok(buf, ",") returns one after the other: leading commas
   * are skipped, a token runs up to the next comma or to the end.
   */
  function Tokens(s: seq<char>): seq<seq<char>>
    decreases |s|
  {
    if s == [] then []
    else if s[0] == ',' then Tokens(s[1..])
    else
      var k := IndexOrEnd(s, ',');
      [s[..k]] + Tokens(s[k..])
  }

  predicate IsToken(t: seq<char>)
  {
    t != [] && forall k :: 0 <= k < |t| ==> t[k] != ','
  }

  /** Every token is a non-empty comma-free piece no longer than the input. */
  lemma {:induction false} TokensShape(s: seq<char>)
    ensures forall i :: 0 <= i < |Tokens(s)| ==> IsToken(Tokens(s)[i]) && |Tokens(s)[i]| <= |s|
    decreases |s|
  {
    if s == [] {
    } else if s[0] == ',' {
      TokensShape(s[1..]);
    } else {
      var k := IndexOrEnd(s, ',');
      TokensShape(s[k..]);
    }
  }

  /** A non-empty comma-free string is exactly one token. */
  lemma TokensOfToken(t: seq<char>)
    requires IsToken(t)
    ensures Tokens(t) == [t]
  {
    IndexOrEndUnique(t, ',', |t|);
    assert t[..|t|] == t;
    assert t[|t|..] == [];
  }

  /**
   * Cutting the input at any comma cuts the token list there: this is the
   * whole meaning of "split on commas, drop empty fields". Leading, trailing
   * and repeated commas contribute nothing (take a or b empty or a comma).
   */
  lemma {:induction false} TokensConcat(a: seq<char>, b: seq<char>)
    ensures Tokens(a + [','] + b) == Tokens(a) + Tokens(b)
    decreases |a|
  {
    if a == [] {
      TokensLeadingComma(a, b);
    } else if a[0] == ',' {
      TokensLeadingComma(a, b);
      TokensConcat(a[1..], b);
    } else {
      var k := IndexOrEnd(a, ',');
      TokensFirst(a, b, k);
      TokensConcat(a[k..], b);
      SeqAssoc([a[..k]], Tokens(a[k..]), Tokens(b));
    }
  }

  /** A comma in front, whether a's own or the one joining an empty a to b, is skipped. */
  lemma TokensLeadingComma(a: seq<char>, b: seq<char>)
    requires a == [] || a[0] == ','
    ensures a == [] ==> Tokens(a + [','] + b) == Tokens(b)
    ensures a != [] ==> Tokens(a + [','] + b) == Tokens(a[1..] + [','] + b) && Tokens(a) == Tokens(a[1..])
  {
    var s := a + [','] + b;
    assert s[0] == ',';
    if a == [] {
      assert s[1..] == b;
    } else {
      assert s[1..] == a[1..] + [','] + b;
    }
  }

  /** The first token of a + [','] + b, when a starts with one. */
  lemma TokensFirst(a: seq<char>, b: seq<char>, k: nat)
    requires a != [] && a[0] != ',' && k == IndexOrEnd(a, ',')
    ensures Tokens(a + [','] + b) == [a[..k]] + Tokens(a[k..] + [','] + b)
    ensures Tokens(a) == [a[..k]] + Tokens(a[k..])
  {
    var s := a + [','] + b;
    IndexOrEndUnique(s, ',', k);
    assert s[..k] == a[..k];
    assert s[k..] == a[k..] + [','] + b;
  }

  lemma SeqAssoc(x: seq<seq<char>>, y: seq<seq<char>>, z: seq<seq<char>>)
    ensures x + (y + z) == (x + y) + z
  {
  }

  /** One strtok call at index i of s, when s[i] starts a token ending at j. */
  lemma TokensAt(s: seq<char>, i: nat, j: nat)
    requires i < j <= |s|
    requires forall k :: i <= k < j ==> s[k] != ','
    requires j == |s| || s[j] == ','
    ensures Tokens(s[i..]) == [s[i..j]] + Tokens(s[j..])
  {
    var u := s[i..];
    IndexOrEndUnique(u, ',', j - i);
    assert u[..j - i] == s[i..j];
    assert u[j - i..] == s[j..];
  }

  /** strtok skips a delimiter without producing a token. */
  lemma TokensSkip(s: seq<char>, i: nat)
    requires i < |s| && s[i] == ','
    ensures Tokens(s[i..]) == Tokens(s[i + 1..])
  {
    assert s[i..][1..] == s[i + 1..];
  }

  /** A strtok token count bound: every token but the last takes a comma after it. */
  lemma {:induction false} TokensCount(s: seq<char>)
    ensures 2 * |Tokens(s)| <= |s| + 1
    decreases |s|
  {
    if s == [] {
    } else if s[0] == ',' {
      TokensCount(s[1..]);
    } else {
      var k := IndexOrEnd(s, ',');
      if k < |s| {
        TokensSkip(s, k);
        TokensCount(s[k + 1..]);
      }
    }
  }

  // ---------------------------------------------------------------------
  // atoi

  /** isspace in the C locale. */
  predicate IsSpace(c: char)
  {
    c == ' ' || c == '\t' || c == '\n' || c == '\U{B}' || c == '\U{C}' || c == '\r'
  }

  predicate IsDigit(c: char)
  {
    '0' <= c <= '9'
  }

  predicate AllDigits(d: seq<char>)
  {
    forall k :: 0 <= k < |d| ==> IsDigit(d[k])
  }

  /** Drops the leading white space atoi skips; the result is a suffix of t. */
  function SkipSpace(t: seq<char>): (u: seq<char>)
    ensures |u| <= |t| && u == t[|t| - |u|..]
    ensures u == [] || !IsSpace(u[0])
  {
    if t != [] && IsSpace(t[0]) then SkipSpace(t[1..]) else t
  }

  /** Number of leading decimal digits of u. */
  function DigitCount(u: seq<char>): (n: nat)
    ensures n <= |u| && AllDigits(u[..n])
    ensures n == |u| || !IsDigit(u[n])
  {
    if u != [] && IsDigit(u[0]) then 1 + DigitCount(u[1..]) else 0
  }

  /** Value of a string of decimal digits, most significant first. */
  function DigitsValue(d: seq<char>): nat
    requires AllDigits(d)
  {
    if d == [] then 0 else 10 * DigitsValue(d[..|d| - 1]) + (d[|d| - 1] as int - '0' as int)
  }

  /** Value of the leading digits of u; 0 when u does not start with a digit. */
  function Magnitude(u: seq<char>): nat
  {
    DigitsValue(u[..DigitCount(u)])
  }

  /**
   * atoi: leading white space is skipped, one optional sign is read, then as
   * many decimal digits as follow. Anything else ends the number; no digit
   * at all gives 0. Overflow is not modelled (see AtoiBound).
   */
  function Atoi(t: seq<char>): int
  {
    var u := SkipSpace(t);
    if u != [] && u[0] == '-' then -(Magnitude(u[1..]) as int)
    else if u != [] && u[0] == '+' then Magnitude(u[1..])
    else Magnitude(u)
  }

  function Pow10(n: nat): (p: int)
    ensures p >= 1
  {
    if n == 0 then 1 else 10 * Pow10(n - 1)
  }

  lemma {:induction false} Pow10Monotone(a: nat, b: nat)
    requires a <= b
    ensures Pow10(a) <= Pow10(b)
    decreases b
  {
    if a < b {
      Pow10Monotone(a, b - 1);
    }
  }

  lemma {:induction false} DigitsValueBound(d: seq<char>)
    requires AllDigits(d)
    ensures DigitsValue(d) < Pow10(|d|)
    decreases |d|
  {
    if d != [] {
      DigitsValueBound(d[..|d| - 1]);
    }
  }

  /** A token of n characters converts to a number of at most n digits. */
  lemma AtoiBound(t: seq<char>)
    ensures -Pow10(|t|) < Atoi(t) < Pow10(|t|)
  {
    var u := SkipSpace(t);
    if u != [] && (u[0] == '-' || u[0] == '+') {
      var v := u[1..];
      DigitsValueBound(v[..DigitCount(v)]);
      Pow10Monotone(DigitCount(v), |t|);
    } else {
      DigitsValueBound(u[..DigitCount(u)]);
      Pow10Monotone(DigitCount(u), |t|);
    }
  }

  /**
   * A token whose first character after the white space and the optional
   * sign is not a digit, such as "abc", "-" or " x5", converts to 0.
   */
  lemma AtoiWithoutLeadingDigit(t: seq<char>)
    requires var u := SkipSpace(t);
      var v := if u != [] && (u[0] == '-' || u[0] == '+') then u[1..] else u;
      v == [] || !IsDigit(v[0])
    ensures Atoi(t) == 0
  {
    var u := SkipSpace(t);
    if u != [] && (u[0] == '-' || u[0] == '+') {
      assert DigitCount(u[1..]) == 0;
    } else {
      assert DigitCount(u) == 0;
    }
  }

  /** In particular a token without any digit converts to 0. */
  lemma AtoiWithoutDigits(t: seq<char>)
    requires forall k :: 0 <= k < |t| ==> !IsDigit(t[k])
    ensures Atoi(t) == 0
  {
    var u := SkipSpace(t);
    if |u| > 1 {
      assert u[1] == t[|t| - |u| + 1];
    }
    if u != [] {
      assert u[0] == t[|t| - |u|];
    }
    AtoiWithoutLeadingDigit(t);
  }

  // ---------------------------------------------------------------------
  // Decimal numerals, as the producer formats its integers

  function DigitChar(d: nat): (c: char)
    requires d < 10
    ensures IsDigit(c) && c as int - '0' as int == d
  {
    ('0' as int + d) as char
  }

  /** Decimal digits of n without leading zeros. */
  function DecimalDigits(n: nat): (r: seq<char>)
    ensures r != [] && AllDigits(r)
  {
    if n < 10 then [DigitChar(n)] else DecimalDigits(n / 10) + [DigitChar(n % 10)]
  }

  /** The decimal numeral of n, with a leading '-' when n is negative. */
  function Numeral(n: int): (r: seq<char>)
    ensures r != [] && !IsSpace(r[0])
    ensures forall k :: 0 <= k < |r| ==> r[k] == '-' || IsDigit(r[k])
  {
    if n < 0 then ['-'] + DecimalDigits(-n) else DecimalDigits(n)
  }

  lemma {:induction false} DigitsRoundTrip(n: nat)
    ensures DigitsValue(DecimalDigits(n)) == n
    decreases n
  {
    if n >= 10 {
      var d := DecimalDigits(n);
      assert d[..|d| - 1] == DecimalDigits(n / 10);
      DigitsRoundTrip(n / 10);
    }
  }

  lemma {:induction false} SkipSpacePrefix(pad: seq<char>, t: seq<char>)
    requires AllSpace(pad)
    requires t == [] || !IsSpace(t[0])
    ensures SkipSpace(pad + t) == t
    decreases |pad|
  {
    if pad != [] {
      assert (pad + t)[1..] == pad[1..] + t;
      SkipSpacePrefix(pad[1..], t);
    }
  }

  /** The digits counted in front of a non-digit are exactly the leading digit string. */
  lemma {:induction false} DigitCountPrefix(d: seq<char>, rest: seq<char>)
    requires AllDigits(d) && (rest == [] || !IsDigit(rest[0]))
    ensures DigitCount(d + rest) == |d|
    decreases |d|
  {
    if d == [] {
      assert d + rest == rest;
    } else {
      assert (d + rest)[0] == d[0] && IsDigit(d[0]);
      assert (d + rest)[1..] == d[1..] + rest;
      DigitCountPrefix(d[1..], rest);
    }
  }

  /** The magnitude of a digit string followed by a non-digit is the string's value. */
  lemma MagnitudeOfDigits(d: seq<char>, rest: seq<char>)
    requires AllDigits(d) && (rest == [] || !IsDigit(rest[0]))
    ensures Magnitude(d + rest) == DigitsValue(d)
  {
    DigitCountPrefix(d, rest);
    assert (d + rest)[..|d|] == d;
  }

  /** atoi of white space, a digit string and a tail that does not start with a digit. */
  lemma AtoiDigits(pad: seq<char>, d: seq<char>, rest: seq<char>)
    requires AllSpace(pad) && d != [] && AllDigits(d) && (rest == [] || !IsDigit(rest[0]))
    ensures Atoi(pad + d + rest) == DigitsValue(d)
  {
    var u := d + rest;
    assert u[0] == d[0];
    assert pad + d + rest == pad + u;
    SkipSpacePrefix(pad, u);
    AtoiUnsigned(pad + u, u);
    MagnitudeOfDigits(d, rest);
  }

  /** Without a sign, atoi reads the digits that follow the white space. */
  lemma AtoiUnsigned(t: seq<char>, u: seq<char>)
    requires SkipSpace(t) == u && u != [] && IsDigit(u[0])
    ensures Atoi(t) == Magnitude(u)
  {
  }

  /** The same with a minus sign in front of the digits. */
  lemma AtoiNegativeDigits(pad: seq<char>, d: seq<char>, rest: seq<char>)
    requires AllSpace(pad) && AllDigits(d) && (rest == [] || !IsDigit(rest[0]))
    ensures Atoi(pad + (['-'] + d) + rest) == -(DigitsValue(d) as int)
  {
    var u := ['-'] + (d + rest);
    assert pad + (['-'] + d) + rest == pad + u;
    SkipSpacePrefix(pad, u);
    assert u[1..] == d + rest by {
      DropHead('-', d + rest);
    }
    MagnitudeOfDigits(d, rest);
  }

  /** The same with a plus sign in front of the digits, which atoi accepts and ignores. */
  lemma AtoiPositiveDigits(pad: seq<char>, d: seq<char>, rest: seq<char>)
    requires AllSpace(pad) && AllDigits(d) && (rest == [] || !IsDigit(rest[0]))
    ensures Atoi(pad + (['+'] + d) + rest) == DigitsValue(d)
  {
    var u := ['+'] + (d + rest);
    assert pad + (['+'] + d) + rest == pad + u;
    SkipSpacePrefix(pad, u);
    assert u[1..] == d + rest by {
      DropHead('+', d + rest);
    }
    MagnitudeOfDigits(d, rest);
  }

  lemma DropHead(c: char, s: seq<char>)
    ensures ([c] + s)[1..] == s
  {
  }

  /**
   * atoi reads back any integer's numeral, also after leading white space,
   * and stops at the first non-digit after it.
   */
  lemma AtoiNumeral(pad: seq<char>, n: int, rest: seq<char>)
    requires AllSpace(pad)
    requires rest == [] || !IsDigit(rest[0])
    ensures Atoi(pad + Numeral(n) + rest) == n
  {
    var d := DecimalDigits(if n < 0 then -n else n);
    DigitsRoundTrip(if n < 0 then -n else n);
    if n < 0 {
      NegativeNumeral(pad, n, rest);
      AtoiNegativeDigits(pad, d, rest);
    } else {
      assert Numeral(n) == d;
      AtoiDigits(pad, d, rest);
    }
  }

  lemma NegativeNumeral(pad: seq<char>, n: int, rest: seq<char>)
    requires n < 0
    ensures pad + Numeral(n) + rest == pad + (['-'] + DecimalDigits(-n)) + rest
  {
  }

  // ---------------------------------------------------------------------
  // The decoder

  function AtoiAll(ts: seq<seq<char>>): (r: seq<int>)
  {
    seq(|ts|, i requires 0 <= i < |ts| => Atoi(ts[i]))
  }

  lemma AtoiAllConcat(a: seq<seq<char>>, b: seq<seq<char>>)
    ensures AtoiAll(a + b) == AtoiAll(a) + AtoiAll(b)
  {
  }

  lemma AtoiAllSnoc(ts: seq<seq<char>>, t: seq<char>)
    ensures AtoiAll(ts + [t]) == AtoiAll(ts) + [Atoi(t)]
  {
    AtoiAllConcat(ts, [t]);
  }

  /** The parameter vector decoded from the bytes of one receive. */
  function Decode(bytes: seq<char>): seq<int>
  {
    AtoiAll(Tokens(CStr(bytes)))
  }

  /** Decoding splits at every comma of the received bytes. */
  lemma DecodeConcat(a: seq<char>, b: seq<char>)
    requires NoNul(a)
    ensures Decode(a + [','] + b) == Decode(a) + Decode(b)
  {
    CStrAppend(a + [','], b);
    CStrAppend(a, []);
    assert a + [','] + CStr(b) == (a + [','] + b)[..0] + a + [','] + CStr(b);
    TokensConcat(a, CStr(b));
    AtoiAllConcat(Tokens(a), Tokens(CStr(b)));
  }

  /** Bytes after a received NUL are never decoded. */
  lemma DecodeStopsAtNul(a: seq<char>, b: seq<char>)
    ensures Decode(a + ['\0'] + b) == Decode(a)
  {
    CStrStopsAtNul(a, b);
  }

  /** Every decoded value has at most as many digits as the frame has bytes. */
  lemma DecodeBound(bytes: seq<char>)
    ensures forall i :: 0 <= i < |Decode(bytes)| ==>
      -Pow10(|bytes|) < Decode(bytes)[i] < Pow10(|bytes|)
  {
    var ts := Tokens(CStr(bytes));
    TokensShape(CStr(bytes));
    forall i | 0 <= i < |ts|
      ensures -Pow10(|bytes|) < Atoi(ts[i]) < Pow10(|bytes|)
    {
      AtoiBound(ts[i]);
      Pow10Monotone(|ts[i]|, |bytes|);
    }
  }

  /** A frame of integers joined by "," followed by the white space pad. */
  function Join(ns: seq<int>, pad: seq<char>): seq<char>
  {
    if ns == [] then []
    else if |ns| == 1 then Numeral(ns[0])
    else Numeral(ns[0]) + [','] + pad + Join(ns[1..], pad)
  }

  predicate AllSpace(pad: seq<char>)
  {
    forall k :: 0 <= k < |pad| ==> IsSpace(pad[k])
  }

  lemma NumeralToken(p: seq<char>, n: int)
    requires AllSpace(p)
    ensures IsToken(p + Numeral(n)) && NoNul(p + Numeral(n))
  {
  }

  /** One padded numeral is one token and decodes to its value. */
  lemma DecodeNumeral(p: seq<char>, n: int)
    requires AllSpace(p)
    ensures NoNul(p + Numeral(n))
    ensures Decode(p + Numeral(n)) == [n]
  {
    var t := p + Numeral(n);
    NumeralToken(p, n);
    TokensOfToken(t);
    CStrAppend(t, []);
    assert t + [] == t;
    AtoiNumeral(p, n, []);
    assert p + Numeral(n) + [] == t;
  }

  lemma JoinCons(p: seq<char>, ns: seq<int>, pad: seq<char>)
    requires |ns| > 1
    ensures p + Join(ns, pad) == (p + Numeral(ns[0])) + [','] + (pad + Join(ns[1..], pad))
  {
    var a, j := Numeral(ns[0]), Join(ns[1..], pad);
    assert Join(ns, pad) == a + [','] + pad + j;
    Regroup(p, a, [','], pad, j);
  }

  lemma Regroup(p: seq<char>, a: seq<char>, c: seq<char>, q: seq<char>, j: seq<char>)
    ensures p + (a + c + q + j) == (p + a) + c + (q + j)
  {
  }

  lemma {:induction false} DecodePaddedJoin(p: seq<char>, ns: seq<int>, pad: seq<char>)
    requires AllSpace(p) && AllSpace(pad) && ns != []
    ensures Decode(p + Join(ns, pad)) == ns
    decreases |ns|
  {
    var head := p + Numeral(ns[0]);
    DecodeNumeral(p, ns[0]);
    if |ns| == 1 {
      assert Join(ns, pad) == Numeral(ns[0]);
    } else {
      var rest := pad + Join(ns[1..], pad);
      JoinCons(p, ns, pad);
      DecodeConcat(head, rest);
      DecodePaddedJoin(pad, ns[1..], pad);
      assert [ns[0]] + ns[1..] == ns;
    }
  }

  /**
   * Round trip with the producer: integers written as decimal numerals and
   * separated by "," plus optional white space decode to exactly those
   * integers, however many there are.
   */
  lemma DecodeJoin(ns: seq<int>, pad: seq<char>)
    requires AllSpace(pad)
    ensures Decode(Join(ns, pad)) == ns
  {
    if ns != [] {
      DecodePaddedJoin([], ns, pad);
      assert [] + Join(ns, pad) == Join(ns, pad);
    }
  }

  /** The numerals of the sample frames below. */
  lemma SampleNumerals()
    ensures Numeral(5) == "5" && Numeral(120) == "120" && Numeral(999) == "999"
  {
    assert DecimalDigits(12) == DecimalDigits(1) + ['2'];
    assert DecimalDigits(120) == DecimalDigits(12) + ['0'];
    assert DecimalDigits(99) == DecimalDigits(9) + ['9'];
    assert DecimalDigits(999) == DecimalDigits(99) + ['9'];
  }

  lemma ProducerFrame()
    ensures Join([5, 120], " ") == "5, 120"
  {
    SampleNumerals();
    assert [5, 120][1..] == [120];
  }

  lemma RetrogradeFrame()
    ensures Join([-5, 120], " ") == "-5, 120"
  {
    SampleNumerals();
    assert Numeral(-5) == "-5";
    assert [-5, 120][1..] == [120];
  }

  /** The producer's frame "5, 120" decodes to [5, 120]. */
  lemma DecodeProducerSample()
    ensures Decode("5, 120") == [5, 120]
  {
    calc {
      Decode("5, 120");
      { ProducerFrame(); }
      Decode(Join([5, 120], " "));
      { DecodeJoin([5, 120], " "); }
      [5, 120];
    }
  }

  lemma ExtraFieldsFrame()
    ensures Join([5, 120, 999], "") == "5,120,999"
  {
    SampleNumerals();
    assert [5, 120, 999][1..] == [120, 999];
    assert [120, 999][1..] == [999];
  }

  /** Fields beyond the second are kept. */
  lemma DecodeExtraFields()
    ensures Decode("5,120,999") == [5, 120, 999]
  {
    calc {
      Decode("5,120,999");
      { ExtraFieldsFrame(); }
      Decode(Join([5, 120, 999], ""));
      { DecodeJoin([5, 120, 999], ""); }
      [5, 120, 999];
    }
  }

  /** A frame holding one token decodes to that token's value. */
  lemma DecodeToken(t: seq<char>)
    requires IsToken(t) && NoNul(t)
    ensures Decode(t) == [Atoi(t)]
  {
    TokensOfToken(t);
    CStrAppend(t, []);
    assert t + [] == t;
  }

  lemma DecodeWord()
    ensures Decode("abc") == [0]
  {
    var t := "abc";
    assert IsToken(t) && NoNul(t);
    DecodeToken(t);
    AtoiWithoutDigits(t);
  }

  lemma DecodeSingle()
    ensures Decode("120") == [120]
  {
    DecodeNumeral([], 120);
    SampleNumerals();
    assert [] + Numeral(120) == "120";
  }

  /** A field without digits decodes to 0. */
  lemma DecodeNonNumeric()
    ensures Decode("abc,120") == [0, 120]
  {
    DecodeWord();
    DecodeSingle();
    assert "abc,120" == "abc" + [','] + "120";
    DecodeConcat("abc", "120");
  }

  /** Leading, repeated and trailing commas produce no entries. */
  lemma DecodeEmptyFields(a: seq<char>, b: seq<char>)
    requires NoNul(a)
    ensures Decode([','] + b) == Decode(b)
    ensures Decode(a + [',']) == Decode(a)
    ensures Decode(a + [','] + [','] + b) == Decode(a + [','] + b)
  {
    assert Decode([]) == [];
    assert Decode([','] + b) == Decode([]) + Decode(b) by {
      DecodeConcat([], b);
      assert [] + [','] + b == [','] + b;
    }
    assert Decode(a + [',']) == Decode(a) + Decode([]) by {
      DecodeConcat(a, []);
      assert a + [','] + [] == a + [','];
    }
    assert Decode(a + [','] + [','] + b) == Decode(a) + Decode([','] + b) by {
      DecodeConcat(a, [','] + b);
      assert a + [','] + ([','] + b) == a + [','] + [','] + b;
    }
    DecodeConcat(a, b);
  }

  // ---------------------------------------------------------------------
  // The in-place loop over the client's buffer

  /** The byte at index k after strtok: a comma right after a token becomes NUL. */
  function Marked(f: seq<char>, len: nat, k: nat): char
    requires k < |f|
  {
    if 0 < k < len && f[k] == ',' && f[k - 1] != ',' then '\0' else f[k]
  }

  /** The whole buffer after strtok has tokenised the C string it holds. */
  function Strtokked(f: seq<char>): (r: seq<char>)
  {
    var len := IndexOrEnd(f, '\0');
    seq(|f|, k requires 0 <= k < |f| => Marked(f, len, k))
  }

  /** strtok skips a run of delimiters without producing a token. */
  lemma {:induction false} TokensSkipRun(s: seq<char>, i: nat, k: nat)
    requires i <= k <= |s|
    requires forall m :: i <= m < k ==> s[m] == ','
    ensures Tokens(s[i..]) == Tokens(s[k..])
    decreases k - i
  {
    if i < k {
      TokensSkip(s, i);
      TokensSkipRun(s, i + 1, k);
    }
  }

  /**
   * strtok's scan over the delimiters in front of the next token. The buffer
   * holds the C string s from index i on.
   */
  method SkipDelimiters(buf: array<char>, i: nat, ghost s: seq<char>) returns (k: nat)
    requires i <= |s| < buf.Length && buf[|s|] == '\0'
    requires forall m :: i <= m < |s| ==> buf[m] == s[m]
    ensures i <= k <= |s| && buf[k] != ','
    ensures forall m :: i <= m < k ==> buf[m] == ','
    ensures Tokens(s[i..]) == Tokens(s[k..])
  {
    k := i;
    while buf[k] == ','
      invariant i <= k <= |s|
      invariant forall m :: i <= m < k ==> buf[m] == ','
      decreases |s| - k
    {
      k := k + 1;
    }
    TokensSkipRun(s, i, k);
  }

  /**
   * strtok's scan to the end of the token starting at k: the next delimiter
   * or the terminator. The token's value is the next entry of the decoding.
   */
  method TokenEnd(buf: array<char>, k: nat, ghost s: seq<char>) returns (j: nat)
    requires k < |s| < buf.Length && buf[|s|] == '\0' && NoNul(s) && s[k] != ','
    requires forall m :: k <= m < |s| ==> buf[m] == s[m]
    ensures k < j <= |s| && (j == |s| || buf[j] == ',')
    ensures forall m :: k <= m < j ==> buf[m] != ','
    ensures buf[k..j] == s[k..j]
    ensures Tokens(s[k..]) == [s[k..j]] + Tokens(s[j..])
  {
    j := k + 1;
    while buf[j] != '\0' && buf[j] != ','
      invariant k < j <= |s|
      invariant forall m :: k <= m < j ==> buf[m] != ','
      decreases |s| - j
    {
      j := j + 1;
    }
    TokensAt(s, k, j);
  }

  /**
   * The state of strtok's scan of a buffer b that held the string frame when
   * the scan began, saved pointer at index save: the delimiters it has passed
   * are overwritten as strtok does, the rest is untouched.
   */
  ghost predicate Scanned(b: seq<char>, frame: seq<char>, save: nat)
  {
    var len := IndexOrEnd(frame, '\0');
    |frame| == |b| && len < |frame| &&
    save <= len && (save == 0 || save == len || frame[save - 1] == ',') &&
    (forall m :: 0 <= m < save ==> b[m] == Marked(frame, len, m)) &&
    (forall m :: save <= m < |b| ==> b[m] == frame[m])
  }

  /** Passing a run of delimiters leaves them in place. */
  lemma ScanDelimiters(b: seq<char>, frame: seq<char>, save: nat, k: nat)
    requires Scanned(b, frame, save) && save <= k <= IndexOrEnd(frame, '\0')
    requires forall m :: save <= m < k ==> b[m] == ','
    ensures Scanned(b, frame, k)
  {
    var len := IndexOrEnd(frame, '\0');
    forall m | save <= m < k
      ensures b[m] == Marked(frame, len, m)
    {
      if m > save {
        assert b[m - 1] == frame[m - 1];
      }
    }
  }

  /** Passing a token and NUL-terminating it at its delimiter. */
  lemma ScanToken(b: seq<char>, frame: seq<char>, k: nat, j: nat)
    requires Scanned(b, frame, k) && k < j <= IndexOrEnd(frame, '\0')
    requires forall m :: k <= m < j ==> b[m] != ','
    requires j == IndexOrEnd(frame, '\0') || b[j] == ','
    ensures j < IndexOrEnd(frame, '\0') ==> Scanned(b[j := '\0'], frame, j + 1)
    ensures j == IndexOrEnd(frame, '\0') ==> Scanned(b, frame, j)
  {
    var len := IndexOrEnd(frame, '\0');
    assert forall m :: k <= m < j ==> b[m] == Marked(frame, len, m);
    if j < len {
      assert Marked(frame, len, j) == '\0' by {
        assert b[j - 1] == frame[j - 1];
      }
    }
  }

  /** At the terminator the scan has produced the strtok image of the frame. */
  lemma ScanComplete(b: seq<char>, frame: seq<char>)
    requires Scanned(b, frame, IndexOrEnd(frame, '\0'))
    ensures b == Strtokked(frame)
  {
  }

  /**
   * Reads the token that starts at k and overwrites the comma after it, if
   * any, with NUL; next is where the following scan starts.
   */
  method CutToken(buf: array<char>, k: nat, ghost frame: seq<char>) returns (token: seq<char>, next: nat)
    requires Scanned(buf[..], frame, k) && k < IndexOrEnd(frame, '\0') && buf[k] != ','
    modifies buf
    ensures Scanned(buf[..], frame, next) && k < next <= IndexOrEnd(frame, '\0')
    ensures Tokens(CStr(frame)[k..]) == [token] + Tokens(CStr(frame)[next..])
  {
    ghost var s := CStr(frame);
    var j := TokenEnd(buf, k, s);
    token := buf[k..j];
    if buf[j] == ',' {
      Terminate(buf, k, j, frame);
      next := j + 1;
      TokensSkip(s, j);
    } else {
      ScanToken(buf[..], frame, k, j);
      next := j;
    }
  }

  /** Overwrites the comma that ends the token [k, j) with NUL. */
  method Terminate(buf: array<char>, k: nat, j: nat, ghost frame: seq<char>)
    requires Scanned(buf[..], frame, k) && k < j < IndexOrEnd(frame, '\0')
    requires forall m :: k <= m < j ==> buf[m] != ','
    requires buf[j] == ','
    modifies buf
    ensures Scanned(buf[..], frame, j + 1)
  {
    ScanToken(buf[..], frame, k, j);
    buf[j] := '\0';
  }

  /**
   * strtok(NULL, ","): finds the next token from the saved pointer on,
   * terminates it with NUL and returns it with the new saved pointer;
   * found is false when only delimiters are left (strtok returns NULL).
   */
  method Strtok(buf: array<char>, save: nat, ghost frame: seq<char>)
    returns (found: bool, token: seq<char>, next: nat)
    requires Scanned(buf[..], frame, save)
    modifies buf
    ensures Scanned(buf[..], frame, next)
    ensures var s := CStr(frame);
      next <= |s| &&
      if found then save < next && Tokens(s[save..]) == [token] + Tokens(s[next..])
      else next == |s| && Tokens(s[save..]) == []
  {
    ghost var s := CStr(frame);
    var k := SkipDelimiters(buf, save, s);
    ScanDelimiters(buf[..], frame, save, k);
    if buf[k] == '\0' {
      assert s[k..] == [];
      return false, [], k;
    }
    token, next := CutToken(buf, k, frame);
    found := true;
  }

  /**
   * buf[n] = '\0', then the strtok/atoi/push_back loop. The result is the
   * decoding of the first n bytes; the buffer is left NUL-terminated at n
   * with the comma after each token overwritten by NUL.
   */
  method DecodeInPlace(buf: array<char>, n: nat) returns (values: seq<int>)
    requires n < buf.Length
    modifies buf
    ensures values == Decode(old(buf[..n]))
    ensures buf[..] == Strtokked(old(buf[..])[n := '\0'])
  {
    buf[n] := '\0';
    ghost var frame := buf[..];
    assert Decode(old(buf[..n])) == Decode(frame) by {
      CStrTerminated(frame, n);
      assert frame[..n] == old(buf[..n]);
    }
    assert frame == old(buf[..])[n := '\0'];
    values := TokenLoop(buf, frame);
  }

  /** Bookkeeping of the tokens read so far, across one more call of strtok. */
  lemma TokensStep(done: seq<seq<char>>, last: seq<char>, rest: seq<seq<char>>, all: seq<seq<char>>,
                   found: bool, token: seq<char>, after: seq<seq<char>>)
    requires done + [last] + rest == all
    requires if found then rest == [token] + after else rest == []
    ensures found ==> done + [last] + [token] + after == all
    ensures !found ==> done + [last] == all
  {
    if found {
      assert done + [last] + [token] + after == done + [last] + rest;
    } else {
      assert done + [last] + rest == done + [last];
    }
  }

  /** The loop over strtok's tokens, from strtok(buf, ",") until it returns NULL. */
  method TokenLoop(buf: array<char>, ghost frame: seq<char>) returns (values: seq<int>)
    requires Scanned(buf[..], frame, 0)
    modifies buf
    ensures values == Decode(frame)
    ensures buf[..] == Strtokked(frame)
  {
    ghost var s := CStr(frame);
    values := [];
    ghost var done: seq<seq<char>> := [];
    var found, token, save := Strtok(buf, 0, frame);
    while found
      invariant Scanned(buf[..], frame, save) && save <= |s|
      invariant values == AtoiAll(done)
      invariant found ==> done + [token] + Tokens(s[save..]) == Tokens(s)
      invariant !found ==> done == Tokens(s) && save == |s|
      decreases |s| - save, found
    {
      AtoiAllSnoc(done, token);
      values := values + [Atoi(token)];
      ghost var rest, last := Tokens(s[save..]), token;
      found, token, save := Strtok(buf, save, frame);
      TokensStep(done, last, rest, Tokens(s), found, token, Tokens(s[save..]));
      done := done + [last];
    }
    ScanComplete(buf[..], frame);
  }
}
