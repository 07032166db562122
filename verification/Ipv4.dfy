/** The one-pass recogniser of IPv4 addresses, against the IPv4address rule in section 3.2.2 of RFC 3986. */
module Ipv4 {

  /** A C pointer to a string. */
  datatype Pointer = Null | Text(s: string)

  predicate IsDigit(c: char) {
    '0' <= c <= '9'
  }

  function DigitValue(c: char): (v: nat)
    requires IsDigit(c)
    ensures v <= 9
  {
    c as int - '0' as int
  }

  function DigitChar(v: nat): (c: char)
    requires v <= 9
    ensures IsDigit(c) && DigitValue(c) == v
  {
    ('0' as int + v) as char
  }

  ghost predicate AllDigits(s: string) {
    forall i :: 0 <= i < |s| ==> IsDigit(s[i])
  }

  function Value(s: string): nat
    requires forall i :: 0 <= i < |s| ==> IsDigit(s[i])
  {
    if s == "" then 0 else Value(s[..|s| - 1]) * 10 + DigitValue(s[|s| - 1])
  }

  // ---------------------------------------------------------------- the grammar

  /** The rule dec-octet: its five alternatives in order. */
  predicate DecOctet(d: string) {
    || (|d| == 1 && IsDigit(d[0]))
    || (|d| == 2 && '1' <= d[0] <= '9' && IsDigit(d[1]))
    || (|d| == 3 && d[0] == '1' && IsDigit(d[1]) && IsDigit(d[2]))
    || (|d| == 3 && d[0] == '2' && '0' <= d[1] <= '4' && IsDigit(d[2]))
    || (|d| == 3 && d[0] == '2' && d[1] == '5' && '0' <= d[2] <= '5')
  }

  function Dotted(a: string, b: string, c: string, d: string): string {
    a + ("." + (b + ("." + (c + ("." + d)))))
  }

  /** The rule IPv4address. */
  ghost predicate Ipv4Address(s: string) {
    exists a, b, c, d ::
      DecOctet(a) && DecOctet(b) && DecOctet(c) && DecOctet(d) && s == Dotted(a, b, c, d)
  }

  // ---------------------------------------------------------------- the grammar, read from the left

  /** The length of the run of digits `s` begins with. */
  function DigitRun(s: string): (k: nat)
    ensures k <= |s|
    ensures forall i :: 0 <= i < k ==> IsDigit(s[i])
    ensures k < |s| ==> !IsDigit(s[k])
  {
    if s == "" || !IsDigit(s[0]) then 0 else 1 + DigitRun(s[1..])
  }

  /** `s` is `n` dec-octets separated by dots. */
  predicate Fields(s: string, n: nat) {
    if n == 0 then false
    else
      var k := DigitRun(s);
      && DecOctet(s[..k])
      && if n == 1 then k == |s| else k < |s| && s[k] == '.' && Fields(s[k + 1..], n - 1)
  }

  lemma DigitRunIs(s: string, k: nat)
    requires k <= |s| && AllDigits(s[..k]) && (k < |s| ==> !IsDigit(s[k]))
    ensures DigitRun(s) == k
  {
    forall i | 0 <= i < k ensures IsDigit(s[i]) {
      assert s[..k][i] == s[i];
    }
  }

  lemma OctetDigits(d: string)
    requires DecOctet(d)
    ensures 1 <= |d| <= 3 && AllDigits(d)
  {
  }

  /** One field more in front. */
  lemma FieldsCons(d: string, rest: string, n: nat)
    requires DecOctet(d) && n >= 1
    ensures Fields(d + ("." + rest), n + 1) <==> Fields(rest, n)
  {
    var s := d + ("." + rest);
    RunBeforeDot(d, rest);
    hide DecOctet, DigitRun;
    assert s[..|d|] == d && s[|d|] == '.' && s[|d| + 1..] == rest;
  }

  lemma RunBeforeDot(d: string, rest: string)
    requires DecOctet(d)
    ensures DigitRun(d + ("." + rest)) == |d| && |d| < |d + ("." + rest)|
  {
    var s := d + ("." + rest);
    OctetDigits(d);
    hide DecOctet, DigitRun;
    assert s[..|d|] == d && s[|d|] == '.';
    DigitRunIs(s, |d|);
  }

  lemma FieldsOne(d: string)
    ensures Fields(d, 1) <==> DecOctet(d)
  {
    if DecOctet(d) {
      OctetDigits(d);
      assert d[..|d|] == d;
      DigitRunIs(d, |d|);
    } else {
      assert d[..|d|] == d;
    }
  }

  lemma FieldsUncons(s: string, n: nat) returns (d: string, rest: string)
    requires n >= 1 && Fields(s, n + 1)
    ensures DecOctet(d) && Fields(rest, n) && s == d + ("." + rest)
  {
    var k := DigitRun(s);
    d, rest := s[..k], s[k + 1..];
    assert s == s[..k] + ([s[k]] + s[k + 1..]);
  }

  /** Reading from the left recognises the grammar. */
  lemma FieldsMeetGrammar(s: string)
    ensures Fields(s, 4) <==> Ipv4Address(s)
  {
    if Fields(s, 4) {
      var a, s3 := FieldsUncons(s, 3);
      var b, s2 := FieldsUncons(s3, 2);
      var c, d := FieldsUncons(s2, 1);
      FieldsOne(d);
      assert s == Dotted(a, b, c, d);
    }
    if Ipv4Address(s) {
      var a, b, c, d :|
        DecOctet(a) && DecOctet(b) && DecOctet(c) && DecOctet(d) && s == Dotted(a, b, c, d);
      FieldsOne(d);
      FieldsCons(c, d, 1);
      FieldsCons(b, c + ("." + d), 2);
      FieldsCons(a, b + ("." + (c + ("." + d))), 3);
    }
  }

  // ---------------------------------------------------------------- printing

  type Octet = v: nat | v <= 255

  /** The canonical decimal of an octet. */
  function Decimal(v: Octet): string {
    if v < 10 then [DigitChar(v)]
    else if v < 100 then [DigitChar(v / 10), DigitChar(v % 10)]
    else [DigitChar(v / 100), DigitChar(v / 10 % 10), DigitChar(v % 10)]
  }

  datatype Quad = Quad(a: Octet, b: Octet, c: Octet, d: Octet)

  function Show(q: Quad): string {
    Dotted(Decimal(q.a), Decimal(q.b), Decimal(q.c), Decimal(q.d))
  }

  /** The dec-octets are the canonical decimals, and their values are the octets. */
  lemma DecimalIsOctet(v: Octet)
    ensures DecOctet(Decimal(v)) && AllDigits(Decimal(v)) && Value(Decimal(v)) == v
  {
    hide *;
    if v < 10 {
      OneDigitOctet(v);
    } else if v < 100 {
      TwoDigitOctet(v);
    } else {
      ThreeDigitOctet(v);
    }
  }

  lemma OneDigitOctet(v: Octet)
    requires v < 10
    ensures DecOctet(Decimal(v)) && AllDigits(Decimal(v)) && Value(Decimal(v)) == v
  {
    hide Value, DigitValue, DigitChar;
    ValueOne(Decimal(v));
  }

  lemma TwoDigitOctet(v: Octet)
    requires 10 <= v < 100
    ensures DecOctet(Decimal(v)) && AllDigits(Decimal(v)) && Value(Decimal(v)) == v
  {
    hide Value, DigitValue, DigitChar, DecOctet;
    ValueTwo(Decimal(v));
    OctetTestTwo(Decimal(v));
  }

  lemma ThreeDigitOctet(v: Octet)
    requires 100 <= v
    ensures DecOctet(Decimal(v)) && AllDigits(Decimal(v)) && Value(Decimal(v)) == v
  {
    hide Value, DigitValue, DigitChar, DecOctet;
    ValueThree(Decimal(v));
    OctetTestThree(Decimal(v));
    assert v / 100 * 10 + v / 10 % 10 == v / 10;
  }

  lemma ValueOne(d: string)
    requires |d| == 1 && AllDigits(d)
    ensures Value(d) == DigitValue(d[0])
  {
    assert d[..0] == "";
  }

  lemma ValueTwo(d: string)
    requires |d| == 2 && AllDigits(d)
    ensures Value(d) == DigitValue(d[0]) * 10 + DigitValue(d[1])
  {
    ValueOne(d[..1]);
  }

  lemma ValueThree(d: string)
    requires |d| == 3 && AllDigits(d)
    ensures Value(d) == (DigitValue(d[0]) * 10 + DigitValue(d[1])) * 10 + DigitValue(d[2])
  {
    ValueTwo(d[..2]);
  }

  lemma DigitRoundTrip(c: char)
    requires IsDigit(c)
    ensures DigitChar(DigitValue(c)) == c
    ensures c == '0' <==> DigitValue(c) == 0
  {
  }

  lemma OctetTestTwo(d: string)
    requires AllDigits(d) && |d| == 2
    ensures DecOctet(d) <==> DigitValue(d[0]) >= 1
    ensures DecOctet(d) ==> d == Decimal(DigitValue(d[0]) * 10 + DigitValue(d[1]))
  {
    var x, y := DigitValue(d[0]), DigitValue(d[1]);
    DigitRoundTrip(d[0]);
    DigitRoundTrip(d[1]);
    assert (x * 10 + y) / 10 == x && (x * 10 + y) % 10 == y;
  }

  lemma OctetTestThree(d: string)
    requires AllDigits(d) && |d| == 3
    ensures DecOctet(d) <==> DigitValue(d[0]) >= 1
                             && (DigitValue(d[0]) * 10 + DigitValue(d[1])) * 10 + DigitValue(d[2]) <= 255
  {
  }

  lemma DecimalThree(d: string)
    requires AllDigits(d) && |d| == 3 && DigitValue(d[0]) >= 1
    requires (DigitValue(d[0]) * 10 + DigitValue(d[1])) * 10 + DigitValue(d[2]) <= 255
    ensures d == Decimal((DigitValue(d[0]) * 10 + DigitValue(d[1])) * 10 + DigitValue(d[2]))
  {
    hide DigitValue, DigitChar, IsDigit;
    var x, y, z := DigitValue(d[0]), DigitValue(d[1]), DigitValue(d[2]);
    DigitRoundTrip(d[0]);
    DigitRoundTrip(d[1]);
    DigitRoundTrip(d[2]);
    var v := (x * 10 + y) * 10 + z;
    assert v / 100 == x && v / 10 == x * 10 + y && v / 10 % 10 == y && v % 10 == z;
  }

  /** The recogniser's three tests of a segment of at most three digits are the rule dec-octet. */
  lemma OctetTest(d: string)
    requires AllDigits(d) && |d| <= 3
    ensures DecOctet(d) <==> |d| != 0 && Value(d) <= 255 && !(|d| > 1 && d[0] == '0')
    ensures DecOctet(d) ==> Value(d) <= 255 && d == Decimal(Value(d))
  {
    hide Value, DigitValue, DigitChar;
    if |d| == 1 {
      ValueOne(d);
      DigitRoundTrip(d[0]);
      hide Value, DigitValue, DigitChar;
    } else if |d| == 2 {
      ValueTwo(d);
      OctetTestTwo(d);
      DigitRoundTrip(d[0]);
      hide DecOctet, Decimal;
    } else if |d| == 3 {
      ValueThree(d);
      OctetTestThree(d);
      DigitRoundTrip(d[0]);
      if DecOctet(d) {
        DecimalThree(d);
      }
      hide DecOctet, Decimal;
    }
  }

  lemma OctetParse(d: string)
    requires DecOctet(d)
    ensures AllDigits(d) && Value(d) <= 255 && d == Decimal(Value(d))
  {
    OctetDigits(d);
    OctetTest(d);
  }

  /** Every print of four octets is accepted, and every accepted string is such a print. */
  lemma AddressIffPrint(s: string)
    ensures Ipv4Address(s) <==> exists q :: s == Show(q)
  {
    hide DecOctet, Decimal, Value, Dotted;
    if Ipv4Address(s) {
      var a, b, c, d :|
        DecOctet(a) && DecOctet(b) && DecOctet(c) && DecOctet(d) && s == Dotted(a, b, c, d);
      OctetParse(a);
      OctetParse(b);
      OctetParse(c);
      OctetParse(d);
      assert s == Show(Quad(Value(a), Value(b), Value(c), Value(d)));
    }
    if exists q :: s == Show(q) {
      var q :| s == Show(q);
      DecimalIsOctet(q.a);
      DecimalIsOctet(q.b);
      DecimalIsOctet(q.c);
      DecimalIsOctet(q.d);
    }
  }

  /** A dec-octet in front of a dot is determined by the string. */
  lemma FirstOctet(d: string, e: string, x: string, y: string)
    requires DecOctet(d) && DecOctet(e) && d + ("." + x) == e + ("." + y)
    ensures d == e && x == y
  {
    OctetDigits(d);
    OctetDigits(e);
    var s := d + ("." + x);
    assert s[..|d|] == d && s[|d|] == '.' && s[|d| + 1..] == x;
    assert s[..|e|] == e && s[|e|] == '.' && s[|e| + 1..] == y;
    DigitRunIs(s, |d|);
    DigitRunIs(s, |e|);
  }

  /** No string is the print of two quadruples. */
  lemma ShowIsInjective(p: Quad, q: Quad)
    requires Show(p) == Show(q)
    ensures p == q
  {
    DecimalIsOctet(p.a);
    DecimalIsOctet(p.b);
    DecimalIsOctet(p.c);
    DecimalIsOctet(p.d);
    DecimalIsOctet(q.a);
    DecimalIsOctet(q.b);
    DecimalIsOctet(q.c);
    DecimalIsOctet(q.d);
    hide Decimal, DecOctet, Value;
    FirstOctet(Decimal(p.a), Decimal(q.a),
               Decimal(p.b) + ("." + (Decimal(p.c) + ("." + Decimal(p.d)))),
               Decimal(q.b) + ("." + (Decimal(q.c) + ("." + Decimal(q.d)))));
    FirstOctet(Decimal(p.b), Decimal(q.b),
               Decimal(p.c) + ("." + Decimal(p.d)), Decimal(q.c) + ("." + Decimal(q.d)));
    FirstOctet(Decimal(p.c), Decimal(q.c), Decimal(p.d), Decimal(q.d));
  }

  // ---------------------------------------------------------------- the recogniser

  /** Where the recogniser stands before character `i`: `count` fields done, `len` digits of value `num` of the
      next one read. */
  ghost predicate Standing(s: string, i: nat, count: nat, num: nat, len: nat) {
    && len <= i <= |s| && len <= 3 && count <= 4
    && AllDigits(s[i - len..i]) && num == Value(s[i - len..i])
    && (Fields(s, 4) <==> Fields(s[i - len..], 4 - count))
  }

  lemma FourDigits(s: string, i: nat)
    requires 3 <= i < |s| && AllDigits(s[i - 3..i]) && IsDigit(s[i])
    ensures DigitRun(s[i - 3..]) >= 4
  {
    var u := s[i - 3..];
    var k := DigitRun(u);
    assert u[0] == s[i - 3..i][0] && u[1] == s[i - 3..i][1] && u[2] == s[i - 3..i][2] && u[3] == s[i];
    assert k != 0 && k != 1 && k != 2 && k != 3;
  }

  lemma LongRun(s: string, n: nat)
    requires DigitRun(s) >= 4
    ensures !Fields(s, n)
  {
  }

  lemma DigitStep(s: string, i: nat, count: nat, num: nat, len: nat)
    requires Standing(s, i, count, num, len) && i < |s| && IsDigit(s[i])
    ensures len == 3 ==> !Fields(s, 4)
    ensures len < 3 ==> Standing(s, i + 1, count, num * 10 + DigitValue(s[i]), len + 1)
  {
    hide Fields, DigitValue, IsDigit, Value, DigitRun, AllDigits;
    if len == 3 {
      FourDigits(s, i);
      LongRun(s[i - len..], 4 - count);
    } else {
      OneDigitMore(s, i, num, len);
      assert (i + 1) - (len + 1) == i - len;
    }
  }

  lemma OneDigitMore(s: string, i: nat, num: nat, len: nat)
    requires len <= i < |s| && IsDigit(s[i]) && AllDigits(s[i - len..i]) && num == Value(s[i - len..i])
    ensures AllDigits(s[i - len..i + 1]) && num * 10 + DigitValue(s[i]) == Value(s[i - len..i + 1])
  {
    hide DigitValue, IsDigit;
    var d := s[i - len..i + 1];
    assert d[..len] == s[i - len..i] && d[len] == s[i];
    assert forall k :: 0 <= k < len ==> d[k] == s[i - len..i][k];
  }

  /** The digits read so far are the whole run, and the tests decide whether they are a dec-octet. */
  lemma SegmentEnds(s: string, i: nat, count: nat, num: nat, len: nat)
    requires Standing(s, i, count, num, len) && (i < |s| ==> !IsDigit(s[i]))
    ensures DigitRun(s[i - len..]) == len && s[i - len..][..len] == s[i - len..i]
    ensures DecOctet(s[i - len..i]) <==> !(len == 0 || num > 255 || (len > 1 && s[i - len] == '0'))
  {
    assert s[i - len..][..len] == s[i - len..i];
    DigitRunIs(s[i - len..], len);
    OctetTest(s[i - len..i]);
  }

  lemma DotStep(s: string, i: nat, count: nat, num: nat, len: nat)
    requires Standing(s, i, count, num, len) && i < |s| && s[i] == '.'
    ensures !DecOctet(s[i - len..i]) ==> !Fields(s, 4)
    ensures DecOctet(s[i - len..i]) && count == 4 ==> !Fields(s, 4)
    ensures DecOctet(s[i - len..i]) && count < 4 ==> Standing(s, i + 1, count + 1, 0, 0)
  {
    hide DecOctet, DigitRun;
    SegmentEnds(s, i, count, num, len);
    var u := s[i - len..];
    assert u[len] == s[i] && u[len + 1..] == s[i + 1..];
    assert s[i + 1..i + 1] == "";
  }

  lemma EndStep(s: string, count: nat, num: nat, len: nat)
    requires Standing(s, |s|, count, num, len)
    ensures Fields(s, 4) <==> DecOctet(s[|s| - len..]) && count == 3
  {
    hide DecOctet, Value, DigitRun, AllDigits;
    SegmentEnds(s, |s|, count, num, len);
    assert s[|s| - len..|s|] == s[|s| - len..];
  }

  /** The state of the recogniser before position `i`, where position |s| is the terminating null character and
      |s| + 1 is past it. */
  ghost predicate Recognised(s: string, i: nat, count: nat, num: nat, len: nat) {
    if i <= |s| then Standing(s, i, count, num, len) else i == |s| + 1 && (Fields(s, 4) <==> count == 4)
  }

  /** The tests at the end of a segment. */
  predicate BadSegment(s: string, i: nat, num: nat, len: nat)
    requires len <= i <= |s|
  {
    len == 0 || num > 255 || (len > 1 && s[i - len] == '0')
  }

  /** One turn of the loop over a digit. */
  lemma DigitTurn(s: string, i: nat, count: nat, num: nat, len: nat)
    requires Recognised(s, i, count, num, len) && i < |s| && IsDigit(s[i])
    ensures len + 1 > 3 ==> !Fields(s, 4)
    ensures len + 1 <= 3 ==> Recognised(s, i + 1, count, num * 10 + DigitValue(s[i]), len + 1)
  {
    hide Fields, DigitValue, IsDigit, Standing;
    StandingBounds(s, i, count, num, len);
    DigitStep(s, i, count, num, len);
  }

  /** One turn of the loop over a dot or the terminating null character. */
  lemma SegmentTurn(s: string, i: nat, count: nat, num: nat, len: nat)
    requires Recognised(s, i, count, num, len) && i <= |s| && (i < |s| ==> s[i] == '.')
    ensures len <= i
    ensures BadSegment(s, i, num, len) || count + 1 > 4 ==> !Fields(s, 4)
    ensures !BadSegment(s, i, num, len) && count + 1 <= 4 ==> Recognised(s, i + 1, count + 1, 0, 0)
  {
    hide Fields, Standing, DecOctet, Value, DigitRun;
    StandingBounds(s, i, count, num, len);
    SegmentEnds(s, i, count, num, len);
    if i < |s| {
      DotStep(s, i, count, num, len);
    } else {
      EndStep(s, count, num, len);
      assert s[|s| - len..] == s[i - len..i];
    }
  }

  /** One turn of the loop over any other character. */
  lemma IllegalTurn(s: string, i: nat, count: nat, num: nat, len: nat)
    requires Recognised(s, i, count, num, len) && i < |s| && !IsDigit(s[i]) && s[i] != '.'
    ensures !Fields(s, 4)
  {
    hide Fields, Standing, IsDigit;
    IllegalStep(s, i, count, num, len);
  }

  lemma RecognisedBounds(s: string, i: nat, count: nat, num: nat, len: nat)
    requires Recognised(s, i, count, num, len)
    ensures i <= |s| ==> len <= i
    ensures i == |s| + 1 ==> (Fields(s, 4) <==> count == 4)
  {
    hide Fields, Value;
  }

  lemma NullIsNone()
    ensures !IsDigit('\0')
  {
  }

  /** True exactly for the addresses of the grammar. */
  method IsValidIpv4(ip: Pointer) returns (valid: bool)
    requires ip.Text? ==> '\0' !in ip.s
    ensures valid <==> ip.Text? && Ipv4Address(ip.s)
  {
    hide *;
    if ip.Null? {
      return false;
    }
    var s := ip.s;
    FieldsMeetGrammar(s);
    RecognisedStart(s);
    if s == "" {
      NoFields(s);
      return false;
    }
    NullIsNone();
    var numCount: nat, currentNum: nat, segmentLen: nat := 0, 0, 0;
    var i: nat := 0;
    while i <= |s|
      invariant i <= |s| + 1 && Recognised(s, i, numCount, currentNum, segmentLen)
    {
      RecognisedBounds(s, i, numCount, currentNum, segmentLen);
      var ch := if i < |s| then s[i] else '\0';
      if IsDigit(ch) && ch != '\0' {
        DigitTurn(s, i, numCount, currentNum, segmentLen);
        currentNum := currentNum * 10 + DigitValue(ch);
        segmentLen := segmentLen + 1;
        if segmentLen > 3 {
          return false;
        }
      } else if ch == '.' || ch == '\0' {
        SegmentTurn(s, i, numCount, currentNum, segmentLen);
        BadSegmentIs(s, i, currentNum, segmentLen);
        numCount := numCount + 1;
        if segmentLen == 0 || currentNum > 255 || (segmentLen > 1 && s[i - segmentLen] == '0') {
          return false;
        }
        currentNum := 0;
        segmentLen := 0;
        if numCount > 4 {
          return false;
        }
      } else {
        IllegalTurn(s, i, numCount, currentNum, segmentLen);
        return false;
      }
      i := i + 1;
    }
    RecognisedBounds(s, i, numCount, currentNum, segmentLen);
    valid := numCount == 4;
  }

  lemma BadSegmentIs(s: string, i: nat, num: nat, len: nat)
    requires len <= i <= |s|
    ensures BadSegment(s, i, num, len) <==> len == 0 || num > 255 || (len > 1 && s[i - len] == '0')
  {
  }

  lemma NoFields(s: string)
    requires s == ""
    ensures !Fields(s, 4)
  {
  }

  lemma RecognisedStart(s: string)
    ensures Recognised(s, 0, 0, 0, 0)
  {
    hide Standing;
    StandingStart(s);
  }

  lemma StandingStart(s: string)
    ensures Standing(s, 0, 0, 0, 0)
  {
    assert s[0..0] == "" && s[0..] == s;
  }

  lemma StandingBounds(s: string, i: nat, count: nat, num: nat, len: nat)
    requires Standing(s, i, count, num, len)
    ensures len <= i <= |s| && len <= 3 && count <= 4
  {
  }

  lemma IllegalStep(s: string, i: nat, count: nat, num: nat, len: nat)
    requires Standing(s, i, count, num, len) && i < |s| && !IsDigit(s[i]) && s[i] != '.'
    ensures !Fields(s, 4)
  {
    SegmentEnds(s, i, count, num, len);
    assert s[i - len..][len] == s[i];
  }
}
