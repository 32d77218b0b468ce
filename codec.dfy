/** The on-disk coordinate format. The dataset build stores each position as
    `'%0.3f %0.3f' % (lat - 49.5, lng + 8.5)`; a lookup splits the string on
    its space and adds the offsets back. Coordinates are held in integer
    thousandths of a degree, the precision of the stored format. */
module Codec {
  import opened Results

  /** Latitude and longitude in thousandths of a degree. */
  datatype Coord = Coord(lat: int, lng: int)

  /** 49.5 degrees, subtracted from the latitude before storage. */
  const LatOffset: int := 49500
  /** 8.5 degrees, added to the longitude before storage. */
  const LngOffset: int := 8500

  /** What Python raises while decoding a stored string (both are `ValueError`). */
  datatype DecodeError =
    | WrongTokenCount(count: nat)   // `lat, lng = coords.split(' ')` unpacks the wrong number
    | BadNumber(token: string)      // `float(token)` rejects the token

  predicate IsDigit(c: char) {
    '0' <= c <= '9'
  }

  predicate AllDigits(s: string) {
    forall i :: 0 <= i < |s| ==> IsDigit(s[i])
  }

  function DigitChar(d: nat): (c: char)
    requires d < 10
    ensures IsDigit(c)
  {
    ('0' as int + d) as char
  }

  function DigitValue(c: char): (d: nat)
    requires IsDigit(c)
    ensures d < 10
  {
    c as int - '0' as int
  }

  /** The decimal digits of `n`, with no leading zero. */
  function NatDigits(n: nat): (r: string)
    ensures |r| > 0 && AllDigits(r)
  {
    if n < 10 then [DigitChar(n)] else NatDigits(n / 10) + [DigitChar(n % 10)]
  }

  /** The value of a string of decimal digits. */
  function DigitsValue(s: string): nat
    requires AllDigits(s)
  {
    if s == [] then 0 else DigitsValue(s[..|s| - 1]) * 10 + DigitValue(s[|s| - 1])
  }

  lemma {:induction false} DigitsRoundTrip(n: nat)
    ensures DigitsValue(NatDigits(n)) == n
  {
    if n >= 10 {
      DigitsRoundTrip(n / 10);
      var s := NatDigits(n);
      assert s[..|s| - 1] == NatDigits(n / 10);
    }
  }

  /** The three digits after the decimal point. */
  function Fraction3(m: nat): (r: string)
    requires m < 1000
    ensures |r| == 3 && AllDigits(r) && DigitsValue(r) == m
  {
    var hundreds, rest := m / 100, m % 100;
    var r := [DigitChar(hundreds), DigitChar(rest / 10), DigitChar(rest % 10)];
    assert r[..2] == [r[0], r[1]] && r[..2][..1] == [r[0]] && [r[0]][..0] == [];
    assert DigitsValue([r[0]]) == hundreds;
    assert DigitsValue(r[..2]) == hundreds * 10 + rest / 10;
    assert DigitsValue(r) == (hundreds * 10 + rest / 10) * 10 + rest % 10;
    r
  }


  /** `'%0.3f' % (n / 1000.0)` */
  function FormatFixed3(n: int): (r: string)
    ensures |r| >= 5 && r[|r| - 4] == '.' && ' ' !in r
    ensures r[0] == '-' <==> n < 0
  {
    if n < 0 then "-" + FormatUnsigned(-n) else FormatUnsigned(n)
  }

  /** The unsigned part of a formatted number: whole digits, a point, three digits. */
  function FormatUnsigned(v: nat): (r: string)
    ensures |r| >= 5 && r[0] != '-' && r[|r| - 4] == '.' && ' ' !in r
  {
    FormatBody(v / 1000, v % 1000);
    NatDigits(v / 1000) + "." + Fraction3(v % 1000)
  }

  /** `float(t)`, as thousandths, for tokens of the form `[-]digits.ddd`. */
  function ParseFixed3(t: string): (r: Option<int>)
    ensures r.Some? ==> |t| >= 5 && t[|t| - 4] == '.' && (r.value < 0 ==> t[0] == '-')
  {
    var negative := |t| > 0 && t[0] == '-';
    var start := if negative then 1 else 0;
    if |t| < start + 5 || t[|t| - 4] != '.' then None
    else
      var whole := t[start..|t| - 4];
      var frac := t[|t| - 3..];
      if !AllDigits(whole) || !AllDigits(frac) then None
      else
        var v := DigitsValue(whole) * 1000 + DigitsValue(frac);
        Some(if negative then -v else v)
  }

  /** Where the point, the whole digits and the fraction digits sit in a
      formatted unsigned number. */
  lemma FormatBody(q: nat, m: nat)
    requires m < 1000
    ensures var body := NatDigits(q) + "." + Fraction3(m);
      && |body| >= 5 && body[0] != '-' && body[|body| - 4] == '.'
      && body[..|body| - 4] == NatDigits(q) && body[|body| - 3..] == Fraction3(m)
      && ' ' !in body
  {
    var body := NatDigits(q) + "." + Fraction3(m);
    assert body[..|body| - 4] == NatDigits(q);
    assert body[|body| - 3..] == Fraction3(m);
    assert body[0] == NatDigits(q)[0];
    assert forall i :: 0 <= i < |body| ==> body[i] != ' ' by {
      forall i | 0 <= i < |body| ensures body[i] != ' ' {
        if i < |NatDigits(q)| {
          assert body[i] == NatDigits(q)[i];
        } else if i > |NatDigits(q)| {
          assert body[i] == Fraction3(m)[i - |NatDigits(q)| - 1];
        }
      }
    }
  }

  /** A formatted number parses back to itself, and holds no space. */
  lemma ParseFormatFixed3(n: int)
    ensures ParseFixed3(FormatFixed3(n)) == Some(n)
    ensures ' ' !in FormatFixed3(n)
  {
    if n < 0 {
      ParseNegative(n);
    } else {
      ParseUnsigned(n);
    }
  }

  /** A negative number is written as a minus sign and its magnitude. */
  lemma ParseNegative(n: int)
    requires n < 0
    ensures ParseFixed3("-" + FormatUnsigned(-n)) == Some(n)
    ensures ' ' !in "-" + FormatUnsigned(-n)
  {
    ParseUnsigned(-n);
    ParseNegated(FormatUnsigned(-n));
  }

  /** The unsigned part parses to its value. */
  lemma ParseUnsigned(v: nat)
    ensures var body := FormatUnsigned(v);
      && ParseFixed3(body) == Some(v)
      && |body| > 0 && body[0] != '-' && ' ' !in body
  {
    FormatBody(v / 1000, v % 1000);
    DigitsRoundTrip(v / 1000);
  }

  /** A leading minus sign negates what the rest parses to, and adds no space. */
  lemma ParseNegated(body: string)
    requires |body| > 0 && body[0] != '-'
    ensures ParseFixed3("-" + body) == match ParseFixed3(body) { case Some(v) => Some(-v) case None => None }
    ensures ' ' in "-" + body <==> ' ' in body
  {
    var t := "-" + body;
    if |body| >= 5 {
      assert t[1..|t| - 4] == body[..|body| - 4];
      assert t[|t| - 3..] == body[|body| - 3..];
    }
  }

  /** `s.split(' ')`: the pieces between single spaces, empty ones included. */
  function Split(s: string): (r: seq<string>)
    ensures |r| > 0
  {
    SplitFrom(s, 0)
  }

  /** The pieces of `s[i..]`. */
  function SplitFrom(s: string, i: nat): (r: seq<string>)
    requires i <= |s|
    ensures |r| > 0
    decreases |s| - i
  {
    if i == |s| then [""]
    else
      var rest := SplitFrom(s, i + 1);
      if s[i] == ' ' then [""] + rest else rest[0 := [s[i]] + rest[0]]
  }

  /** Text with no space is one piece. */
  lemma {:induction false} SplitFromNoSpace(s: string, i: nat)
    requires i <= |s| && ' ' !in s[i..]
    ensures SplitFrom(s, i) == [s[i..]]
    decreases |s| - i
  {
    if i < |s| {
      assert s[i] == s[i..][0];
      assert s[i + 1..] == s[i..][1..];
      SplitFromNoSpace(s, i + 1);
      assert s[i..] == [s[i]] + s[i + 1..];
    } else {
      assert s[i..] == "";
    }
  }

  /** Splitting `a + " " + b` from inside `a` gives the rest of `a`, then `b`. */
  lemma {:induction false} SplitFromPair(a: string, b: string, i: nat)
    requires ' ' !in a && ' ' !in b && i <= |a|
    ensures SplitFrom(a + " " + b, i) == [a[i..], b]
    decreases |a| - i
  {
    var s := a + " " + b;
    if i == |a| {
      assert s[i + 1..] == b;
      SplitFromNoSpace(s, i + 1);
    } else {
      assert s[i] == a[i];
      SplitFromPair(a, b, i + 1);
      assert a[i..] == [a[i]] + a[i + 1..];
    }
  }

  lemma SplitPair(a: string, b: string)
    requires ' ' !in a && ' ' !in b
    ensures Split(a + " " + b) == [a, b]
  {
    SplitFromPair(a, b, 0);
  }

  /** The build step's encoding (`'%0.3f %0.3f' % (lat - 49.5, lng + 8.5)`). */
  function Encode(c: Coord): (s: string)
    ensures Split(s) == [FormatFixed3(c.lat - LatOffset), FormatFixed3(c.lng + LngOffset)]
  {
    var lat, lng := FormatFixed3(c.lat - LatOffset), FormatFixed3(c.lng + LngOffset);
    SplitPair(lat, lng);
    lat + " " + lng
  }

  /** The lookup's decoding: `lat, lng = coords.split(' ')`, then
      `float(lat) + 49.5, float(lng) - 8.5`. */
  function Decode(s: string): (r: Result<Coord, DecodeError>)
    ensures r.Success? ==> |Split(s)| == 2
    ensures r.Failure? && r.error.WrongTokenCount? ==> r.error.count == |Split(s)| != 2
    ensures |Split(s)| != 2 ==> r == Failure(WrongTokenCount(|Split(s)|))
  {
    var parts := Split(s);
    if |parts| != 2 then Failure(WrongTokenCount(|parts|))
    else match (ParseFixed3(parts[0]), ParseFixed3(parts[1]))
      case (Some(lat), Some(lng)) => Success(Coord(lat + LatOffset, lng - LngOffset))
      case (None, _) => Failure(BadNumber(parts[0]))
      case (_, None) => Failure(BadNumber(parts[1]))
  }

  /** Decoding undoes encoding exactly. */
  lemma DecodeEncode(c: Coord)
    ensures Decode(Encode(c)) == Success(c)
  {
    var x, y := c.lat - LatOffset, c.lng + LngOffset;
    ParseFormatFixed3(x);
    ParseFormatFixed3(y);
    assert Split(Encode(c)) == [FormatFixed3(x), FormatFixed3(y)];
  }

  /** Encoding is injective: distinct coordinates are stored differently. */
  lemma EncodeInjective(c: Coord, d: Coord)
    requires Encode(c) == Encode(d)
    ensures c == d
  {
    DecodeEncode(c);
    DecodeEncode(d);
  }

  /** The postcode SW8 1HL at (51.475, -0.121) is stored as "1.975 8.379". */
  lemma EncodeSample(c: Coord, s: string)
    requires c == Coord(51475, -121) && s == "1.975 8.379"
    ensures Encode(c) == s
  {
    SampleLatitude();
    SampleLongitude();
  }

  /** 51.475 - 49.5 is written "1.975". */
  lemma SampleLatitude()
    ensures FormatFixed3(51475 - LatOffset) == "1.975"
  {
    assert NatDigits(1) == "1" && Fraction3(975) == "975";
  }

  /** -0.121 + 8.5 is written "8.379". */
  lemma SampleLongitude()
    ensures FormatFixed3(-121 + LngOffset) == "8.379"
  {
    assert NatDigits(8) == "8" && Fraction3(379) == "379";
  }
}
