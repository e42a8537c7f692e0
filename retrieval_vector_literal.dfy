/** `_as_vector_literal`: the pgvector text form `[v1,v2,...]` of the query embedding,
    each component written with eight decimals. A component is represented by its value
    scaled by 10^8 (the integer the eight-decimal rounding produces). */
module VectorLiteral {
  import opened Common
  import opened Decimal

  const Scale: nat := 100000000

  lemma ScaleIsPow10()
    ensures Pow10(8) == Scale
  {
  }

  /** `f"{x:.8f}"` for the component `v / 10^8`: a sign for negative values, then the
      unsigned text of the magnitude. */
  function FormatFixed(v: int): (s: string)
    ensures s != [] && ',' !in s && '[' !in s && ']' !in s
  {
    var u := Unsigned(if v < 0 then -v else v);
    assert forall c :: c in u ==> IsAsciiDigit(c) || c == '.';
    if v < 0 then "-" + u else u
  }

  /** The integer part of `a / 10^8`, a point and exactly eight fractional digits. */
  function Unsigned(a: nat): (s: string)
    ensures |s| >= 1 && IsAsciiDigit(s[0])
    ensures forall i :: 0 <= i < |s| ==> IsAsciiDigit(s[i]) || s[i] == '.'
  {
    var ip := NatToString(a / Scale);
    var fp := ZeroPad(a % Scale, 8);
    ScaleIsPow10();
    ZeroPadValue(a % Scale, 8);
    assert forall i :: 0 <= i < |ip| ==> IsAsciiDigit(ip[i]);
    ip + "." + fp
  }

  /** `"[" + ",".join(...) + "]"`. */
  function Literal(vec: seq<int>): (s: string)
  {
    "[" + Join(seq(|vec|, i requires 0 <= i < |vec| => FormatFixed(vec[i])), ",") + "]"
  }

  /** Reads one component back: optional `-`, then the unsigned form. */
  function ParseFixed(s: string): Option<int> {
    if s != [] && s[0] == '-' then
      match ParseUnsigned(s[1..])
      case Some(a) => Some(-a)
      case None => None
    else ParseUnsigned(s)
  }

  /** Digits, `.`, eight digits. */
  function ParseUnsigned(body: string): Option<int> {
    var parts := Split(body, '.');
    if |parts| != 2 || parts[0] == [] || !AllDigits(parts[0]) || |parts[1]| != 8 || !AllDigits(parts[1]) then None
    else Some(FixedValue(parts[0], parts[1]))
  }

  /** The scaled value of the digits before and after the point. */
  function FixedValue(ip: string, fp: string): int
    requires AllDigits(ip) && AllDigits(fp)
  {
    DigitsValue(ip) * Scale + DigitsValue(fp)
  }

  function ParseAll(parts: seq<string>): Option<seq<int>>
  {
    if parts == [] then Some([])
    else
      match (ParseFixed(parts[0]), ParseAll(parts[1..]))
      case (Some(v), Some(rest)) => Some([v] + rest)
      case _ => None
  }

  /** Reads a literal back: brackets around comma-separated components; `[]` is empty. */
  function ParseLiteral(s: string): Option<seq<int>> {
    if |s| < 2 || s[0] != '[' || Last(s) != ']' then None
    else
      var inner := s[1..|s| - 1];
      if inner == [] then Some([]) else ParseAll(Split(inner, ','))
  }

  /** Each component reads back as the value it was written from. */
  lemma FormatFixedRoundTrip(v: int)
    ensures ParseFixed(FormatFixed(v)) == Some(v)
  {
    var u := Unsigned(if v < 0 then -v else v);
    UnsignedRoundTrip(if v < 0 then -v else v);
    if v < 0 {
      assert ("-" + u)[1..] == u;
    }
  }

  /** The unsigned text reads back as its magnitude. */
  lemma UnsignedRoundTrip(a: nat)
    ensures ParseUnsigned(Unsigned(a)) == Some(a)
  {
    var ip := NatToString(a / Scale);
    var fp := ZeroPad(a % Scale, 8);
    ScaleIsPow10();
    ZeroPadValue(a % Scale, 8);
    NatToStringValue(a / Scale);
    UnsignedParts(ip, fp);
    assert FixedValue(ip, fp) == a by {
      assert (a / Scale) * Scale + a % Scale == a;
    }
  }

  /** Non-empty digits, a point and eight digits read back as their value. */
  lemma UnsignedParts(ip: string, fp: string)
    requires ip != [] && AllDigits(ip) && AllDigits(fp) && |fp| == 8
    ensures ParseUnsigned(ip + "." + fp) == Some(FixedValue(ip, fp))
  {
    DigitsHaveNoPoint(ip);
    DigitsHaveNoPoint(fp);
    SplitNoSep(ip, '.');
    SplitAfterSep(ip, fp, '.');
    assert ip + "." + fp == ip + ['.'] + fp;
    assert [ip] + [fp] == [ip, fp];
  }

  lemma DigitsHaveNoPoint(s: string)
    requires AllDigits(s)
    ensures '.' !in s
  {
    assert forall i :: 0 <= i < |s| ==> IsAsciiDigit(s[i]);
  }

  lemma ParseAllFormatted(vec: seq<int>)
    ensures ParseAll(seq(|vec|, i requires 0 <= i < |vec| => FormatFixed(vec[i]))) == Some(vec)
  {
    var parts := seq(|vec|, i requires 0 <= i < |vec| => FormatFixed(vec[i]));
    forall i | 0 <= i < |vec| ensures ParseFixed(parts[i]) == Some(vec[i]) {
      FormatFixedRoundTrip(vec[i]);
    }
    ParseAllOf(parts, vec);
  }

  /** Components that each read back as their value read back as the vector. */
  lemma {:induction false} ParseAllOf(parts: seq<string>, vec: seq<int>)
    requires |parts| == |vec|
    requires forall i :: 0 <= i < |parts| ==> ParseFixed(parts[i]) == Some(vec[i])
    ensures ParseAll(parts) == Some(vec)
  {
    if parts != [] {
      ParseAllOf(parts[1..], vec[1..]);
      assert vec == [vec[0]] + vec[1..];
    }
  }

  /** The literal pgvector receives denotes exactly the query vector. */
  lemma LiteralRoundTrip(vec: seq<int>)
    ensures ParseLiteral(Literal(vec)) == Some(vec)
  {
    var parts := seq(|vec|, i requires 0 <= i < |vec| => FormatFixed(vec[i]));
    var inner := Join(parts, ",");
    BracketsRead(inner);
    ParseAllFormatted(vec);
    if vec != [] {
      JoinNonEmpty(parts, ",");
      SplitJoin(parts, ',');
    }
  }

  /** The brackets are removed and the inside is split at the commas. */
  lemma BracketsRead(inner: string)
    ensures ParseLiteral("[" + inner + "]") == if inner == [] then Some([]) else ParseAll(Split(inner, ','))
  {
    var s := "[" + inner + "]";
    assert s[1..|s| - 1] == inner;
  }

  lemma JoinNonEmpty(groups: seq<string>, sep: string)
    requires groups != [] && Last(groups) != []
    ensures Join(groups, sep) != []
  {
    if |groups| > 1 {
      assert |Join(groups, sep)| >= |Last(groups)|;
    }
  }

  /** The literal is bracketed and has one comma between consecutive components. */
  lemma LiteralShape(vec: seq<int>)
    ensures var s := Literal(vec); |s| >= 2 && s[0] == '[' && Last(s) == ']'
    ensures multiset(Literal(vec))[','] == if vec == [] then 0 else |vec| - 1
  {
    var parts := seq(|vec|, i requires 0 <= i < |vec| => FormatFixed(vec[i]));
    JoinCommas(parts);
    var s := Literal(vec);
    assert multiset(s) == multiset("[") + multiset(Join(parts, ",")) + multiset("]");
  }

  lemma {:induction false} JoinCommas(parts: seq<string>)
    requires forall i :: 0 <= i < |parts| ==> ',' !in parts[i]
    ensures multiset(Join(parts, ","))[','] == if parts == [] then 0 else |parts| - 1
  {
    if |parts| > 1 {
      var p := AllButLast(parts);
      assert forall i :: 0 <= i < |p| ==> p[i] == parts[i];
      JoinCommas(p);
      assert ',' !in Last(parts);
      assert multiset(Join(parts, ",")) == multiset(Join(p, ",")) + multiset(",") + multiset(Last(parts));
      assert multiset(Last(parts))[','] == 0;
    } else if |parts| == 1 {
      assert multiset(parts[0])[','] == 0;
    }
  }
}
