/**
 * Properties of the format-spec parser: the outcome on the documented valid
 * and invalid inputs, integer overflow, identifiers, and a round trip from a
 * rendered spec back to the parsed value.
 */
module FormatSpecProofs {
  import opened Wrappers
  import opened Text
  import opened FormatSpec
  import opened Integers

  // ---------------------------------------------------------------------------
  // Identifiers: the cursor and the checker agree
  // ---------------------------------------------------------------------------

  /** A maximal run of continue characters is the one `ContinueEnd` finds. */
  lemma ContinueEndAt(x: XidTables, s: string, i: nat, j: nat)
    requires i <= j <= |s|
    requires AllContinue(x, s[i..j])
    requires j == |s| || !x.cont(s[j])
    ensures ContinueEnd(x, s, i) == j
  {
    var k := ContinueEnd(x, s, i);
    forall m | i <= m < j ensures x.cont(s[m]) {
      assert s[i..j][m - i] == s[m];
    }
    forall m | i <= m < k ensures x.cont(s[m]) {
      assert s[i..k][m - i] == s[m];
    }
  }

  /** A maximal run of digits is the one `DigitsEnd` finds. */
  lemma DigitsEndAt(s: string, i: nat, j: nat)
    requires i <= j <= |s|
    requires AllDigits(s[i..j])
    requires j == |s| || !IsAsciiDigit(s[j])
    ensures DigitsEnd(s, i) == j
  {
  }

  /** A valid identifier that no continue character extends is what `consume_identifier` takes. */
  lemma IdentEndAt(x: XidTables, s: string, i: nat, e: nat)
    requires i < e <= |s|
    requires IsValidIdentifier(x, s[i..e])
    requires e == |s| || !x.cont(s[e])
    ensures IdentEnd(x, s, i) == Some(e)
  {
    var id := s[i..e];
    assert id[0] == s[i];
    assert id[1..] == s[i + 1..e];
    if s[i] == '_' {
      assert s[i + 1] == id[1];
      assert s[i + 2..e] == id[2..];
      ContinueEndAt(x, s, i + 2, e);
    } else {
      ContinueEndAt(x, s, i + 1, e);
    }
  }

  /** `is_valid_identifier` holds exactly when `consume_identifier` takes the whole text. */
  lemma ValidIdentifierIsConsumed(x: XidTables, s: string)
    ensures IsValidIdentifier(x, s) <==> IdentEnd(x, s, 0) == Some(|s|)
  {
    if IsValidIdentifier(x, s) {
      IdentEndAt(x, s, 0, |s|);
    }
    if IdentEnd(x, s, 0) == Some(|s|) {
      assert s[0..|s|] == s;
    }
  }

  // ---------------------------------------------------------------------------
  // Rendering a parsed spec, and parsing it back
  // ---------------------------------------------------------------------------

  function RenderSign(sign: Option<Sign>): string {
    match sign
    case None => ""
    case Some(Plus) => "+"
    case Some(Minus) => "-"
  }

  function RenderArgument(a: Argument): string {
    match a
    case Position(n) => NatToDecimal(n)
    case Identifier(name) => name
  }

  function RenderCount(c: Count): string {
    match c
    case Integer(n) => NatToDecimal(n)
    case Parameter(a) => RenderArgument(a) + "$"
  }

  function RenderPrecision(p: Precision): string {
    match p
    case Asterisk => "*"
    case Counted(c) => RenderCount(c)
  }

  /** Text of a width: always after the '0' flag, so that a leading zero of the width is not taken for it. */
  function WidthText(width: Option<Count>): string {
    match width
    case None => ""
    case Some(c) => "0" + RenderCount(c)
  }

  function PrecisionText(precision: Option<Precision>): string {
    match precision
    case None => ""
    case Some(p) => "." + RenderPrecision(p)
  }

  /** Format-spec text that stands for `spec`. */
  function Render(spec: ParsedFormatSpec): string {
    RenderSign(spec.sign) + WidthText(spec.width) + PrecisionText(spec.precision)
  }

  /** Positions fit a `usize`; names are valid identifiers. */
  predicate CountOk(x: XidTables, c: Count) {
    match c
    case Integer(n) => n <= USIZE_MAX
    case Parameter(Position(n)) => n <= USIZE_MAX
    case Parameter(Identifier(name)) => IsValidIdentifier(x, name)
  }

  predicate SpecOk(x: XidTables, spec: ParsedFormatSpec) {
    && (spec.width.Some? ==> CountOk(x, spec.width.value))
    && (spec.precision.Some? && spec.precision.value.Counted? ==> CountOk(x, spec.precision.value.count))
  }

  /** The first character of a rendered count is a digit or starts an identifier. */
  lemma RenderCountHead(x: XidTables, c: Count)
    requires WellFormed(x) && CountOk(x, c)
    ensures |RenderCount(c)| > 0
    ensures var h := RenderCount(c)[0]; h != '*' && h != '.' && h != '$' && !IsAlign(h) && h != '#'
    ensures var h := RenderCount(c)[0]; IsAsciiDigit(h) <==> !(c.Parameter? && c.argument.Identifier?)
  {
    if c.Parameter? && c.argument.Identifier? {
      var name := c.argument.name;
      assert RenderCount(c)[0] == name[0];
      if name[0] != '_' {
        assert x.cont(name[0]);
      }
    }
  }

  /** Parsing the text of a well-formed argument gives the argument back. */
  lemma ArgumentRoundTrip(x: XidTables, a: Argument, field: string)
    requires WellFormed(x) && CountOk(x, Parameter(a))
    ensures ParseArgument(x, RenderArgument(a), field) == Success(a)
  {
    if a.Identifier? {
      var name := a.name;
      if name[0] != '_' {
        assert x.start(name[0]);
      }
      assert !IsAsciiDigit(name[0]);
    }
  }

  /** Parsing the text of a well-formed count gives the count back. */
  lemma CountRoundTrip(x: XidTables, c: Count, field: string)
    requires WellFormed(x) && CountOk(x, c)
    ensures ParseCount(x, RenderCount(c), field) == Success(c)
  {
    match c
    case Integer(n) =>
      var d := NatToDecimal(n);
      assert IsAsciiDigit(d[|d| - 1]);
    case Parameter(a) =>
      var t := RenderArgument(a) + "$";
      assert t[..|t| - 1] == RenderArgument(a);
      ArgumentRoundTrip(x, a, field);
  }

  /** Parsing the text of a well-formed precision gives the precision back. */
  lemma PrecisionRoundTrip(x: XidTables, p: Precision)
    requires WellFormed(x) && (p.Counted? ==> CountOk(x, p.count))
    ensures ParsePrecision(x, RenderPrecision(p)) == Success(p)
  {
    if p.Counted? {
      RenderCountHead(x, p.count);
      CountRoundTrip(x, p.count, "precision");
    }
  }

  /** Whatever `parse_count` accepts is a well-formed count: a `usize` or a valid name. */
  lemma ParsedCountIsOk(x: XidTables, raw: string, field: string)
    requires ParseCount(x, raw, field).Success?
    ensures CountOk(x, ParseCount(x, raw, field).value)
  {
    if EndsWithDollar(raw) {
      var arg := raw[..|raw| - 1];
      if AllDigits(arg) {
        assert ParseArgument(x, arg, field).value == Position(DecimalValue(arg));
      }
    }
  }

  /** Reading a rendered count as a width, or as a required count. */
  lemma CountAt(x: XidTables, s: string, i: nat, c: Count, field: string)
    requires WellFormed(x) && CountOk(x, c)
    requires i + |RenderCount(c)| <= |s| && s[i..i + |RenderCount(c)|] == RenderCount(c)
    requires var e := i + |RenderCount(c)|; e == |s| || s[e] == '.'
    ensures WidthStep(x, s, i) == Step(Success(Some(c)), i + |RenderCount(c)|)
    ensures RequiredCountStep(x, s, i, field) == Step(Success(c), i + |RenderCount(c)|)
  {
    match c
    case Integer(n) => IntegerAt(x, s, i, n, field);
    case Parameter(Position(n)) => PositionAt(x, s, i, n, field);
    case Parameter(Identifier(name)) => IdentifierAt(x, s, i, name, field);
  }

  lemma IntegerAt(x: XidTables, s: string, i: nat, n: nat, field: string)
    requires n <= USIZE_MAX
    requires var d := NatToDecimal(n); i + |d| <= |s| && s[i..i + |d|] == d
    requires var e := i + |NatToDecimal(n)|; e == |s| || (!IsAsciiDigit(s[e]) && s[e] != '$')
    ensures WidthStep(x, s, i) == Step(Success(Some(Integer(n))), i + |NatToDecimal(n)|)
    ensures RequiredCountStep(x, s, i, field) == Step(Success(Integer(n)), i + |NatToDecimal(n)|)
  {
    var d := NatToDecimal(n);
    var e := i + |d|;
    assert s[i] == d[0];
    DigitsEndAt(s, i, e);
    ParseUnsignedRoundTrip(n, USIZE_MAX);
    assert DigitCount(s, i, field) == Step(Success(Integer(n)), e);
  }

  lemma PositionAt(x: XidTables, s: string, i: nat, n: nat, field: string)
    requires n <= USIZE_MAX
    requires var d := NatToDecimal(n) + "$"; i + |d| <= |s| && s[i..i + |d|] == d
    ensures WidthStep(x, s, i) == Step(Success(Some(Parameter(Position(n)))), i + |NatToDecimal(n)| + 1)
    ensures RequiredCountStep(x, s, i, field) == Step(Success(Parameter(Position(n))), i + |NatToDecimal(n)| + 1)
  {
    var d := NatToDecimal(n);
    var r := d + "$";
    assert s[i] == d[0];
    assert s[i..i + |d|] == d by { assert s[i..i + |d|] == r[..|d|]; }
    assert s[i + |d|] == r[|d|];
    DigitsEndAt(s, i, i + |d|);
    ParseUnsignedRoundTrip(n, USIZE_MAX);
    assert DigitCount(s, i, field) == Step(Success(Parameter(Position(n))), i + |d| + 1);
  }

  lemma IdentifierAt(x: XidTables, s: string, i: nat, name: string, field: string)
    requires WellFormed(x) && IsValidIdentifier(x, name)
    requires var r := name + "$"; i + |r| <= |s| && s[i..i + |r|] == r
    ensures WidthStep(x, s, i) == Step(Success(Some(Parameter(Identifier(name)))), i + |name| + 1)
    ensures RequiredCountStep(x, s, i, field) == Step(Success(Parameter(Identifier(name))), i + |name| + 1)
  {
    var r := name + "$";
    assert s[i] == name[0];
    if name[0] != '_' {
      assert x.cont(name[0]);
    }
    assert s[i..i + |name|] == name by { assert s[i..i + |name|] == r[..|name|]; }
    assert s[i + |name|] == r[|name|];
    IdentEndAt(x, s, i, i + |name|);
  }

  /** The first two characters of a rendered spec: no fill, no align, the sign, no '#', then the '0' flag of a width. */
  lemma RenderHead(x: XidTables, spec: ParsedFormatSpec)
    requires WellFormed(x) && SpecOk(x, spec)
    ensures var s := Render(spec); AlignEnd(s, 0) == 0 && SignAt(s, 0) == spec.sign
    ensures var s, i2 := Render(spec), |RenderSign(spec.sign)|;
      && SkipIf(s, i2, '#') == i2
      && SkipIf(s, i2, '0') == if spec.width.Some? then i2 + 1 else i2
  {
    var s := Render(spec);
    var sg, w, p := RenderSign(spec.sign), WidthText(spec.width), PrecisionText(spec.precision);
    assert s == sg + w + p;
    if spec.width.Some? {
      RenderCountHead(x, spec.width.value);
    }
    if spec.precision.Some? && spec.precision.value.Counted? {
      RenderCountHead(x, spec.precision.value.count);
    }
    var i2 := |sg|;
    assert i2 < |s| ==> s[i2] == (if w != [] then '0' else '.') by {
      if i2 < |s| {
        if w != [] { assert s[i2] == w[0]; } else { assert s[i2] == p[0]; }
      }
    }
    assert |s| > 0 ==> s[0] in {'+', '-', '0', '.'} by {
      if |s| > 0 {
        if sg != [] { assert s[0] == sg[0]; }
      }
    }
    assert |s| > 1 ==> !IsAlign(s[1]) by {
      if |s| > 1 {
        if sg != [] {
          assert s[1] == s[i2];
        } else if w != [] {
          assert s[1] == w[1] == RenderCount(spec.width.value)[0];
        } else {
          assert s[1] == p[1];
          if spec.precision.value.Counted? {
            assert p[1] == RenderCount(spec.precision.value.count)[0];
          }
        }
      }
    }
  }

  /** The width part of a rendered spec reads back as its width. */
  lemma RenderWidth(x: XidTables, spec: ParsedFormatSpec)
    requires WellFormed(x) && SpecOk(x, spec)
    ensures var s, i2 := Render(spec), |RenderSign(spec.sign)|;
      var i4 := if spec.width.Some? then i2 + 1 else i2;
      i4 <= |s| && WidthStep(x, s, i4) == Step(Success(spec.width), i2 + |WidthText(spec.width)|)
  {
    var s := Render(spec);
    var sg, w, p := RenderSign(spec.sign), WidthText(spec.width), PrecisionText(spec.precision);
    assert s == sg + w + p;
    var j := |sg| + |w|;
    assert j < |s| ==> s[j] == '.' by { if j < |s| { assert s[j] == p[0]; } }
    if spec.width.Some? {
      var c := spec.width.value;
      var i4 := |sg| + 1;
      assert s[i4..i4 + |RenderCount(c)|] == RenderCount(c) by {
        assert s[|sg|..j] == w;
        assert s[i4..i4 + |RenderCount(c)|] == w[1..];
      }
      CountAt(x, s, i4, c, "width");
    }
  }

  /** A precision's text after any prefix reads back as that precision. */
  lemma PrecisionAfter(x: XidTables, head: string, precision: Option<Precision>)
    requires WellFormed(x)
    requires precision.Some? && precision.value.Counted? ==> CountOk(x, precision.value.count)
    ensures var s := head + PrecisionText(precision);
      PrecisionStep(x, s, |head|) == Step(Success(precision), |s|)
  {
    var s := head + PrecisionText(precision);
    assert s[|head|..] == PrecisionText(precision);
    PrecisionTextAt(x, s, |head|, precision);
  }

  /** The text of a precision, up to the end, reads back as that precision. */
  lemma PrecisionTextAt(x: XidTables, s: string, j: nat, precision: Option<Precision>)
    requires WellFormed(x)
    requires precision.Some? && precision.value.Counted? ==> CountOk(x, precision.value.count)
    requires j <= |s| && s[j..] == PrecisionText(precision)
    ensures PrecisionStep(x, s, j) == Step(Success(precision), |s|)
  {
    var p := PrecisionText(precision);
    match precision
    case None =>
    case Some(Asterisk) =>
      assert s[j] == p[0] && s[j + 1] == p[1];
    case Some(Counted(c)) =>
      assert s[j] == p[0];
      assert s[j + 1..] == p[1..] == RenderCount(c);
      PrecisionCountAt(x, s, j, c);
  }

  /** '.' and then a rendered count up to the end read as that precision. */
  lemma PrecisionCountAt(x: XidTables, s: string, j: nat, c: Count)
    requires WellFormed(x) && CountOk(x, c)
    requires j < |s| && s[j] == '.' && s[j + 1..] == RenderCount(c)
    ensures PrecisionStep(x, s, j) == Step(Success(Some(Counted(c))), |s|)
  {
    RenderCountHead(x, c);
    assert s[j + 1] == RenderCount(c)[0];
    assert s[j + 1..j + 1 + |RenderCount(c)|] == RenderCount(c);
    CountAt(x, s, j + 1, c, "precision");
  }

  /** Parsing rendered text gives back the spec it was rendered from. */
  lemma ParseRender(x: XidTables, spec: ParsedFormatSpec)
    requires WellFormed(x) && SpecOk(x, spec)
    ensures ParseSpec(x, Render(spec)) == Success(spec)
  {
    var s := Render(spec);
    var i2 := |RenderSign(spec.sign)|;
    var i4 := if spec.width.Some? then i2 + 1 else i2;
    var j := i2 + |WidthText(spec.width)|;
    RenderHead(x, spec);
    RenderWidth(x, spec);
    var head := RenderSign(spec.sign) + WidthText(spec.width);
    assert s == head + PrecisionText(spec.precision);
    PrecisionAfter(x, head, spec.precision);
    assert WidthStep(x, s, i4) == Step(Success(spec.width), j);
    assert PrecisionStep(x, s, j) == Step(Success(spec.precision), |s|);
    assert TypeStep(x, s, |s|) == Step(Success(()), |s|);
  }

  // ---------------------------------------------------------------------------
  // Integers too large for a usize
  // ---------------------------------------------------------------------------

  /** Digits up to the end whose value is too large for a `usize`: the count is an invalid integer. */
  lemma OverflowAt(x: XidTables, s: string, i: nat, field: string)
    requires i < |s| && AllDigits(s[i..]) && DecimalValue(s[i..]) > USIZE_MAX
    ensures DigitCount(s, i, field) == Step(Failure(InvalidInteger(field, s[i..])), |s|)
    ensures RequiredCountStep(x, s, i, field) == Step(Failure(InvalidInteger(field, s[i..])), |s|)
  {
    assert s[i..|s|] == s[i..];
    assert s[i] == s[i..][0];
    DigitsEndAt(s, i, |s|);
  }

  /** A width too large for a `usize` is reported as an invalid integer in "width". */
  lemma WidthOverflow(x: XidTables, d: string)
    requires WellFormed(x)
    requires |d| > 0 && AllDigits(d) && d[0] != '0' && DecimalValue(d) > USIZE_MAX
    ensures ParseSpec(x, d) == Failure(InvalidInteger("width", d))
  {
    assert !IsAlign(d[0]) && (|d| > 1 ==> !IsAlign(d[1]));
    assert d[0..] == d;
    OverflowAt(x, d, 0, "width");
    assert WidthStep(x, d, 0) == Step(Failure(InvalidInteger("width", d)), |d|);
  }

  /** The "1" in front of an overflowing precision is read as the width. */
  lemma LeadingWidthOne(x: XidTables, d: string)
    requires |d| > 0 && AllDigits(d)
    ensures var s := "1." + d;
      && AlignEnd(s, 0) == 0 && SignAt(s, 0) == None
      && SkipIf(s, 0, '#') == 0 && SkipIf(s, 0, '0') == 0
      && WidthStep(x, s, 0) == Step(Success(Some(Integer(1))), 1)
  {
    var s := "1." + d;
    assert s[0] == '1' && s[1] == '.';
    assert s[0..1] == NatToDecimal(1);
    IntegerAt(x, s, 0, 1, "width");
  }

  /** A precision too large for a `usize` is reported as an invalid integer in "precision". */
  lemma PrecisionOverflow(x: XidTables, d: string)
    requires WellFormed(x)
    requires |d| > 0 && AllDigits(d) && DecimalValue(d) > USIZE_MAX
    ensures ParseSpec(x, "1." + d) == Failure(InvalidInteger("precision", d))
  {
    var s := "1." + d;
    LeadingWidthOne(x, d);
    assert s[2..] == d;
    assert s[1] == '.' && IsAsciiDigit(s[2]) by { assert s[2] == d[0]; }
    OverflowAt(x, s, 2, "precision");
    assert PrecisionStep(x, s, 1) == Step(Failure(InvalidInteger("precision", d)), |s|);
  }

  /** The text of `n` nines. */
  function Nines(n: nat): (s: string)
    ensures |s| == n && AllDigits(s)
  {
    if n == 0 then [] else Nines(n - 1) + ['9']
  }

  function Pow10(n: nat): nat {
    if n == 0 then 1 else 10 * Pow10(n - 1)
  }

  lemma {:induction false} NinesValue(n: nat)
    ensures DecimalValue(Nines(n)) + 1 == Pow10(n)
  {
    if n > 0 {
      var s := Nines(n);
      assert s[..|s| - 1] == Nines(n - 1);
      NinesValue(n - 1);
    }
  }

  lemma {:induction false} Pow10Grows(m: nat, n: nat)
    requires m <= n
    ensures Pow10(m) <= Pow10(n)
  {
    if m < n {
      Pow10Grows(m, n - 1);
    }
  }

  lemma {:induction false} Pow10Add(a: nat, b: nat)
    ensures Pow10(a + b) == Pow10(a) * Pow10(b)
  {
    if b > 0 {
      Pow10Add(a, b - 1);
    }
  }

  /** A hundred nines overflow a `usize`, as a width and as a precision. */
  lemma HundredNines(x: XidTables)
    requires WellFormed(x)
    ensures ParseSpec(x, Nines(100)) == Failure(InvalidInteger("width", Nines(100)))
    ensures ParseSpec(x, "1." + Nines(100)) == Failure(InvalidInteger("precision", Nines(100)))
  {
    HundredNinesOverflow();
    WidthOverflow(x, Nines(100));
    PrecisionOverflow(x, Nines(100));
  }

  /** A hundred nines start with a nonzero digit and exceed `usize::MAX`. */
  lemma HundredNinesOverflow()
    ensures Nines(100)[0] == '9' && DecimalValue(Nines(100)) > USIZE_MAX
  {
    NinesValue(100);
    Pow10Grows(20, 100);
    Pow10Add(1, 1);
    Pow10Add(2, 2);
    Pow10Add(4, 1);
    Pow10Add(5, 5);
    Pow10Add(10, 10);
    assert Pow10(20) == 100000000000000000000;
    NinesHead(100);
  }

  lemma {:induction false} NinesHead(n: nat)
    requires n > 0
    ensures Nines(n)[0] == '9'
  {
    if n > 1 {
      NinesHead(n - 1);
    }
  }

  // ---------------------------------------------------------------------------
  // The documented inputs
  // ---------------------------------------------------------------------------

  lemma ParsesEmpty(x: XidTables)
    ensures ParseSpec(x, "") == Success(ParsedFormatSpec(None, None, None))
  {
  }

  /** The parse of a text whose steps are known and all succeed. */
  lemma ParseSpecAccepts(x: XidTables, s: string, sign: Option<Sign>, i4: nat, width: Option<Count>,
                         j: nat, precision: Option<Precision>, e: nat)
    requires var i1 := AlignEnd(s, 0);
      && SignAt(s, i1) == sign
      && SkipIf(s, SkipIf(s, if sign.Some? then i1 + 1 else i1, '#'), '0') == i4
    requires i4 <= |s| && WidthStep(x, s, i4) == Step(Success(width), j)
    requires j <= |s| && PrecisionStep(x, s, j) == Step(Success(precision), e)
    requires e <= |s| && TypeStep(x, s, e) == Step(Success(()), |s|)
    ensures ParseSpec(x, s) == Success(ParsedFormatSpec(sign, width, precision))
  {
  }

  /** The parse of a text whose precision step fails. */
  lemma ParseSpecRejectsPrecision(x: XidTables, s: string, sign: Option<Sign>, i4: nat, width: Option<Count>, j: nat)
    requires var i1 := AlignEnd(s, 0);
      && SignAt(s, i1) == sign
      && SkipIf(s, SkipIf(s, if sign.Some? then i1 + 1 else i1, '#'), '0') == i4
    requires i4 <= |s| && WidthStep(x, s, i4) == Step(Success(width), j)
    requires j <= |s| && PrecisionStep(x, s, j).result == Failure(InvalidFormatSpec(s))
    ensures ParseSpec(x, s) == Failure(InvalidFormatSpec(s))
  {
  }

  /** The parse of a text with something left after the type. */
  lemma ParseSpecRejectsRest(x: XidTables, s: string, sign: Option<Sign>, i4: nat, width: Option<Count>,
                             j: nat, precision: Option<Precision>, e: nat)
    requires var i1 := AlignEnd(s, 0);
      && SignAt(s, i1) == sign
      && SkipIf(s, SkipIf(s, if sign.Some? then i1 + 1 else i1, '#'), '0') == i4
    requires i4 <= |s| && WidthStep(x, s, i4) == Step(Success(width), j)
    requires j <= |s| && PrecisionStep(x, s, j) == Step(Success(precision), e)
    requires e <= |s| && TypeStep(x, s, e).next < |s|
    ensures ParseSpec(x, s) == Failure(InvalidFormatSpec(s))
  {
  }

  // ">8.*" and ">+8.*"

  lemma AlignWidthAsteriskSteps(x: XidTables)
    ensures var s := ">8.*";
      && AlignEnd(s, 0) == 1 && SignAt(s, 1) == None && SkipIf(s, 1, '#') == 1 && SkipIf(s, 1, '0') == 1
      && PrecisionStep(x, s, 2) == Step(Success(Some(Asterisk)), 4) && TypeStep(x, s, 4) == Step(Success(()), 4)
    ensures var s := ">+8.*";
      && AlignEnd(s, 0) == 1 && SignAt(s, 1) == Some(Plus) && SkipIf(s, 2, '#') == 2 && SkipIf(s, 2, '0') == 2
      && PrecisionStep(x, s, 3) == Step(Success(Some(Asterisk)), 5) && TypeStep(x, s, 5) == Step(Success(()), 5)
  {
  }

  lemma AlignWidthAsteriskCounts(x: XidTables)
    ensures WidthStep(x, ">8.*", 1) == Step(Success(Some(Integer(8))), 2)
    ensures WidthStep(x, ">+8.*", 2) == Step(Success(Some(Integer(8))), 3)
  {
    assert NatToDecimal(8) == "8";
    IntegerAt(x, ">8.*", 1, 8, "width");
    IntegerAt(x, ">+8.*", 2, 8, "width");
  }

  lemma ParsesAlignWidthAsterisk(x: XidTables)
    ensures ParseSpec(x, ">8.*") == Success(ParsedFormatSpec(None, Some(Integer(8)), Some(Asterisk)))
    ensures ParseSpec(x, ">+8.*") == Success(ParsedFormatSpec(Some(Plus), Some(Integer(8)), Some(Asterisk)))
  {
    AlignWidthAsteriskSteps(x);
    AlignWidthAsteriskCounts(x);
    ParseSpecAccepts(x, ">8.*", None, 1, Some(Integer(8)), 2, Some(Asterisk), 4);
    ParseSpecAccepts(x, ">+8.*", Some(Plus), 2, Some(Integer(8)), 3, Some(Asterisk), 5);
  }

  // "-.1$x"

  lemma SignPositionalPrecisionSteps(x: XidTables)
    requires WellFormed(x)
    ensures var s := "-.1$x";
      && AlignEnd(s, 0) == 0 && SignAt(s, 0) == Some(Minus) && SkipIf(s, 1, '#') == 1 && SkipIf(s, 1, '0') == 1
      && WidthStep(x, s, 1) == Step(Success(None), 1)
  {
    assert !x.start('.');
  }

  lemma SignPositionalPrecisionCounts(x: XidTables)
    requires WellFormed(x)
    ensures PrecisionStep(x, "-.1$x", 1) == Step(Success(Some(Counted(Parameter(Position(1))))), 4)
    ensures TypeStep(x, "-.1$x", 4) == Step(Success(()), 5)
  {
    var s := "-.1$x";
    assert NatToDecimal(1) == "1";
    assert s[2..4] == "1" + "$";
    PositionAt(x, s, 2, 1, "precision");
    assert s[4..5] == "x";
    IdentEndAt(x, s, 4, 5);
  }

  lemma ParsesSignPositionalPrecision(x: XidTables)
    requires WellFormed(x)
    ensures ParseSpec(x, "-.1$x") == Success(ParsedFormatSpec(Some(Minus), None, Some(Counted(Parameter(Position(1))))))
  {
    SignPositionalPrecisionSteps(x);
    SignPositionalPrecisionCounts(x);
    ParseSpecAccepts(x, "-.1$x", Some(Minus), 1, None, 1, Some(Counted(Parameter(Position(1)))), 4);
  }

  // "a^#043.8?"

  lemma FillFlagsSteps(x: XidTables)
    ensures var s := "a^#043.8?";
      && AlignEnd(s, 0) == 2 && SignAt(s, 2) == None && SkipIf(s, 2, '#') == 3 && SkipIf(s, 3, '0') == 4
      && TypeStep(x, s, 8) == Step(Success(()), 9)
  {
  }

  lemma FillFlagsCounts(x: XidTables)
    ensures var s := "a^#043.8?";
      && WidthStep(x, s, 4) == Step(Success(Some(Integer(43))), 6)
      && PrecisionStep(x, s, 6) == Step(Success(Some(Counted(Integer(8)))), 8)
  {
    var s := "a^#043.8?";
    assert NatToDecimal(43) == "43" && NatToDecimal(8) == "8";
    IntegerAt(x, s, 4, 43, "width");
    IntegerAt(x, s, 7, 8, "precision");
  }

  lemma ParsesFillFlagsAndDebugType(x: XidTables)
    ensures ParseSpec(x, "a^#043.8?") == Success(ParsedFormatSpec(None, Some(Integer(43)), Some(Counted(Integer(8)))))
  {
    FillFlagsSteps(x);
    FillFlagsCounts(x);
    ParseSpecAccepts(x, "a^#043.8?", None, 4, Some(Integer(43)), 6, Some(Counted(Integer(8))), 8);
  }

  // "λ<+12.user$"

  lemma FillNamedPrecisionSteps(x: XidTables)
    ensures var s := "\U{3BB}<+12.user$";
      && AlignEnd(s, 0) == 2 && SignAt(s, 2) == Some(Plus) && SkipIf(s, 3, '#') == 3 && SkipIf(s, 3, '0') == 3
      && TypeStep(x, s, 11) == Step(Success(()), 11)
  {
  }

  lemma FillNamedPrecisionWidth(x: XidTables)
    ensures WidthStep(x, "\U{3BB}<+12.user$", 3) == Step(Success(Some(Integer(12))), 5)
  {
    var s := "\U{3BB}<+12.user$";
    assert NatToDecimal(12) == "12";
    assert s[3..5] == "12";
    IntegerAt(x, s, 3, 12, "width");
  }

  lemma FillNamedPrecisionCount(x: XidTables)
    requires WellFormed(x)
    ensures PrecisionStep(x, "\U{3BB}<+12.user$", 5) == Step(Success(Some(Counted(Parameter(Identifier("user"))))), 11)
  {
    var s := "\U{3BB}<+12.user$";
    assert s[6..11] == "user" + "$";
    IdentifierAt(x, s, 6, "user", "precision");
  }

  lemma ParsesFillAndNamedPrecision(x: XidTables)
    requires WellFormed(x)
    ensures ParseSpec(x, "\U{3BB}<+12.user$")
      == Success(ParsedFormatSpec(Some(Plus), Some(Integer(12)), Some(Counted(Parameter(Identifier("user"))))))
  {
    FillNamedPrecisionSteps(x);
    FillNamedPrecisionWidth(x);
    FillNamedPrecisionCount(x);
    ParseSpecAccepts(x, "\U{3BB}<+12.user$", Some(Plus), 3, Some(Integer(12)), 5,
                     Some(Counted(Parameter(Identifier("user")))), 11);
  }

  // "name$" and "_tmp$.*"

  lemma NamedWidthsSteps(x: XidTables)
    ensures var s := "name$";
      && AlignEnd(s, 0) == 0 && SignAt(s, 0) == None && SkipIf(s, 0, '#') == 0 && SkipIf(s, 0, '0') == 0
      && PrecisionStep(x, s, 5) == Step(Success(None), 5) && TypeStep(x, s, 5) == Step(Success(()), 5)
    ensures var s := "_tmp$.*";
      && AlignEnd(s, 0) == 0 && SignAt(s, 0) == None && SkipIf(s, 0, '#') == 0 && SkipIf(s, 0, '0') == 0
      && PrecisionStep(x, s, 5) == Step(Success(Some(Asterisk)), 7) && TypeStep(x, s, 7) == Step(Success(()), 7)
  {
  }

  lemma NamedWidth(x: XidTables, s: string, name: string)
    requires WellFormed(x) && IsValidIdentifier(x, name)
    requires |name| + 1 <= |s| && s[..|name| + 1] == name + "$"
    ensures WidthStep(x, s, 0) == Step(Success(Some(Parameter(Identifier(name)))), |name| + 1)
  {
    assert s[0..|name| + 1] == s[..|name| + 1];
    IdentifierAt(x, s, 0, name, "width");
  }

  lemma ParsesNamedWidths(x: XidTables)
    requires WellFormed(x)
    ensures ParseSpec(x, "name$") == Success(ParsedFormatSpec(None, Some(Parameter(Identifier("name"))), None))
    ensures ParseSpec(x, "_tmp$.*") == Success(ParsedFormatSpec(None, Some(Parameter(Identifier("_tmp"))), Some(Asterisk)))
  {
    NamedWidthsSteps(x);
    NamedWidth(x, "name$", "name");
    NamedWidth(x, "_tmp$.*", "_tmp");
    ParseSpecAccepts(x, "name$", None, 0, Some(Parameter(Identifier("name"))), 5, None, 5);
    ParseSpecAccepts(x, "_tmp$.*", None, 0, Some(Parameter(Identifier("_tmp"))), 5, Some(Asterisk), 7);
  }

  // "8name"

  lemma BareIdentifierSteps(x: XidTables)
    ensures var s := "8name";
      && AlignEnd(s, 0) == 0 && SignAt(s, 0) == None && SkipIf(s, 0, '#') == 0 && SkipIf(s, 0, '0') == 0
      && PrecisionStep(x, s, 1) == Step(Success(None), 1)
  {
  }

  lemma BareIdentifierCounts(x: XidTables)
    requires WellFormed(x)
    ensures WidthStep(x, "8name", 0) == Step(Success(Some(Integer(8))), 1)
    ensures TypeStep(x, "8name", 1) == Step(Success(()), 5)
  {
    var s := "8name";
    assert NatToDecimal(8) == "8";
    IntegerAt(x, s, 0, 8, "width");
    assert s[1..5] == "name";
    IdentEndAt(x, s, 1, 5);
  }

  lemma ParsesBareIdentifierAfterWidth(x: XidTables)
    requires WellFormed(x)
    ensures ParseSpec(x, "8name") == Success(ParsedFormatSpec(None, Some(Integer(8)), None))
  {
    BareIdentifierSteps(x);
    BareIdentifierCounts(x);
    ParseSpecAccepts(x, "8name", None, 0, Some(Integer(8)), 1, None, 1);
  }

  // "5.01$X?"

  lemma LeadingZeroSteps(x: XidTables)
    ensures var s := "5.01$X?";
      && AlignEnd(s, 0) == 0 && SignAt(s, 0) == None && SkipIf(s, 0, '#') == 0 && SkipIf(s, 0, '0') == 0
      && TypeStep(x, s, 5) == Step(Success(()), 7)
  {
  }

  lemma LeadingZeroCounts(x: XidTables)
    ensures WidthStep(x, "5.01$X?", 0) == Step(Success(Some(Integer(5))), 1)
    ensures PrecisionStep(x, "5.01$X?", 1) == Step(Success(Some(Counted(Parameter(Position(1))))), 5)
  {
    var s := "5.01$X?";
    assert NatToDecimal(5) == "5";
    IntegerAt(x, s, 0, 5, "width");
    assert s[2..4] == "01";
    DigitsEndAt(s, 2, 4);
    assert DecimalValue("01") == 1 by { assert "01"[..1] == "0"; }
    assert DigitCount(s, 2, "precision") == Step(Success(Parameter(Position(1))), 5);
  }

  lemma ParsesLeadingZeroPosition(x: XidTables)
    ensures ParseSpec(x, "5.01$X?") == Success(ParsedFormatSpec(None, Some(Integer(5)), Some(Counted(Parameter(Position(1))))))
  {
    LeadingZeroSteps(x);
    LeadingZeroCounts(x);
    ParseSpecAccepts(x, "5.01$X?", None, 0, Some(Integer(5)), 1, Some(Counted(Parameter(Position(1)))), 5);
  }

  /** The valid inputs documented beside the parser, and what they parse to. */
  lemma ParsesDocumentedValidInputs(x: XidTables)
    requires WellFormed(x)
    ensures ParseSpec(x, "") == Success(ParsedFormatSpec(None, None, None))
    ensures ParseSpec(x, ">8.*") == Success(ParsedFormatSpec(None, Some(Integer(8)), Some(Asterisk)))
    ensures ParseSpec(x, ">+8.*") == Success(ParsedFormatSpec(Some(Plus), Some(Integer(8)), Some(Asterisk)))
    ensures ParseSpec(x, "-.1$x") == Success(ParsedFormatSpec(Some(Minus), None, Some(Counted(Parameter(Position(1))))))
    ensures ParseSpec(x, "a^#043.8?") == Success(ParsedFormatSpec(None, Some(Integer(43)), Some(Counted(Integer(8)))))
    ensures ParseSpec(x, "\U{3BB}<+12.user$")
      == Success(ParsedFormatSpec(Some(Plus), Some(Integer(12)), Some(Counted(Parameter(Identifier("user"))))))
    ensures ParseSpec(x, "name$") == Success(ParsedFormatSpec(None, Some(Parameter(Identifier("name"))), None))
    ensures ParseSpec(x, "8name") == Success(ParsedFormatSpec(None, Some(Integer(8)), None))
    ensures ParseSpec(x, "_tmp$.*") == Success(ParsedFormatSpec(None, Some(Parameter(Identifier("_tmp"))), Some(Asterisk)))
    ensures ParseSpec(x, "5.01$X?") == Success(ParsedFormatSpec(None, Some(Integer(5)), Some(Counted(Parameter(Position(1))))))
  {
    ParsesEmpty(x);
    ParsesAlignWidthAsterisk(x);
    ParsesSignPositionalPrecision(x);
    ParsesFillFlagsAndDebugType(x);
    ParsesFillAndNamedPrecision(x);
    ParsesNamedWidths(x);
    ParsesBareIdentifierAfterWidth(x);
    ParsesLeadingZeroPosition(x);
  }

  // Invalid inputs

  lemma MissingPrecisionSteps(x: XidTables)
    ensures var s := ".";
      && AlignEnd(s, 0) == 0 && SignAt(s, 0) == None && SkipIf(s, 0, '#') == 0 && SkipIf(s, 0, '0') == 0
      && WidthStep(x, s, 0) == Step(Success(None), 0) && PrecisionStep(x, s, 0).result == Failure(InvalidFormatSpec(s))
    ensures var s := "-.";
      && AlignEnd(s, 0) == 0 && SignAt(s, 0) == Some(Minus) && SkipIf(s, 1, '#') == 1 && SkipIf(s, 1, '0') == 1
      && WidthStep(x, s, 1) == Step(Success(None), 1) && PrecisionStep(x, s, 1).result == Failure(InvalidFormatSpec(s))
    ensures var s := "a^#043.";
      && AlignEnd(s, 0) == 2 && SignAt(s, 2) == None && SkipIf(s, 2, '#') == 3 && SkipIf(s, 3, '0') == 4
      && PrecisionStep(x, s, 6).result == Failure(InvalidFormatSpec(s))
  {
  }

  lemma MissingPrecisionWidth(x: XidTables)
    ensures WidthStep(x, "a^#043.", 4) == Step(Success(Some(Integer(43))), 6)
  {
    assert NatToDecimal(43) == "43";
    IntegerAt(x, "a^#043.", 4, 43, "width");
  }

  lemma RejectsMissingPrecision(x: XidTables)
    ensures ParseSpec(x, ".") == Failure(InvalidFormatSpec("."))
    ensures ParseSpec(x, "-.") == Failure(InvalidFormatSpec("-."))
    ensures ParseSpec(x, "a^#043.") == Failure(InvalidFormatSpec("a^#043."))
  {
    MissingPrecisionSteps(x);
    MissingPrecisionWidth(x);
    ParseSpecRejectsPrecision(x, ".", None, 0, None, 0);
    ParseSpecRejectsPrecision(x, "-.", Some(Minus), 1, None, 1);
    ParseSpecRejectsPrecision(x, "a^#043.", None, 4, Some(Integer(43)), 6);
  }

  lemma StrayCharacterSteps(x: XidTables)
    requires WellFormed(x)
    ensures var s := "++1";
      && AlignEnd(s, 0) == 0 && SignAt(s, 0) == Some(Plus) && SkipIf(s, 1, '#') == 1 && SkipIf(s, 1, '0') == 1
      && WidthStep(x, s, 1) == Step(Success(None), 1) && PrecisionStep(x, s, 1) == Step(Success(None), 1)
      && TypeStep(x, s, 1).next == 1
    ensures var s := "_";
      && AlignEnd(s, 0) == 0 && SignAt(s, 0) == None && SkipIf(s, 0, '#') == 0 && SkipIf(s, 0, '0') == 0
      && WidthStep(x, s, 0) == Step(Success(None), 0) && PrecisionStep(x, s, 0) == Step(Success(None), 0)
      && TypeStep(x, s, 0).next == 0
    ensures var s := "1$$";
      && AlignEnd(s, 0) == 0 && SignAt(s, 0) == None && SkipIf(s, 0, '#') == 0 && SkipIf(s, 0, '0') == 0
      && PrecisionStep(x, s, 2) == Step(Success(None), 2) && TypeStep(x, s, 2).next == 2
  {
    assert !x.start('+') && !x.start('$');
  }

  lemma StrayCharacterWidth(x: XidTables)
    ensures WidthStep(x, "1$$", 0) == Step(Success(Some(Parameter(Position(1)))), 2)
  {
    assert NatToDecimal(1) == "1";
    PositionAt(x, "1$$", 0, 1, "width");
  }

  lemma RejectsStrayCharacters(x: XidTables)
    requires WellFormed(x)
    ensures ParseSpec(x, "++1") == Failure(InvalidFormatSpec("++1"))
    ensures ParseSpec(x, "_") == Failure(InvalidFormatSpec("_"))
    ensures ParseSpec(x, "1$$") == Failure(InvalidFormatSpec("1$$"))
  {
    StrayCharacterSteps(x);
    StrayCharacterWidth(x);
    ParseSpecRejectsRest(x, "++1", Some(Plus), 1, None, 1, None, 1);
    ParseSpecRejectsRest(x, "_", None, 0, None, 0, None, 0);
    ParseSpecRejectsRest(x, "1$$", None, 0, Some(Parameter(Position(1))), 2, None, 2);
  }

  lemma BadPrecisionCountSteps(x: XidTables)
    requires WellFormed(x)
    ensures var s := "name$.";
      && AlignEnd(s, 0) == 0 && SignAt(s, 0) == None && SkipIf(s, 0, '#') == 0 && SkipIf(s, 0, '0') == 0
      && PrecisionStep(x, s, 5).result == Failure(InvalidFormatSpec(s))
    ensures var s := "name$._";
      && AlignEnd(s, 0) == 0 && SignAt(s, 0) == None && SkipIf(s, 0, '#') == 0 && SkipIf(s, 0, '0') == 0
      && PrecisionStep(x, s, 5).result == Failure(InvalidFormatSpec(s))
    ensures var s := "1.$x";
      && AlignEnd(s, 0) == 0 && SignAt(s, 0) == None && SkipIf(s, 0, '#') == 0 && SkipIf(s, 0, '0') == 0
      && PrecisionStep(x, s, 1).result == Failure(InvalidFormatSpec(s))
  {
    assert !x.start('$');
  }

  lemma BadPrecisionCountWidths(x: XidTables)
    requires WellFormed(x)
    ensures WidthStep(x, "name$.", 0) == Step(Success(Some(Parameter(Identifier("name")))), 5)
    ensures WidthStep(x, "name$._", 0) == Step(Success(Some(Parameter(Identifier("name")))), 5)
    ensures WidthStep(x, "1.$x", 0) == Step(Success(Some(Integer(1))), 1)
  {
    NamedWidth(x, "name$.", "name");
    NamedWidth(x, "name$._", "name");
    assert NatToDecimal(1) == "1";
    IntegerAt(x, "1.$x", 0, 1, "width");
  }

  lemma RejectsBadPrecisionCounts(x: XidTables)
    requires WellFormed(x)
    ensures ParseSpec(x, "name$.") == Failure(InvalidFormatSpec("name$."))
    ensures ParseSpec(x, "name$._") == Failure(InvalidFormatSpec("name$._"))
    ensures ParseSpec(x, "1.$x") == Failure(InvalidFormatSpec("1.$x"))
  {
    BadPrecisionCountSteps(x);
    BadPrecisionCountWidths(x);
    ParseSpecRejectsPrecision(x, "name$.", None, 0, Some(Parameter(Identifier("name"))), 5);
    ParseSpecRejectsPrecision(x, "name$._", None, 0, Some(Parameter(Identifier("name"))), 5);
    ParseSpecRejectsPrecision(x, "1.$x", None, 0, Some(Integer(1)), 1);
  }

  /** The invalid inputs documented beside the parser are all rejected. */
  lemma RejectsDocumentedInvalidInputs(x: XidTables)
    requires WellFormed(x)
    ensures ParseSpec(x, ".").Failure? && ParseSpec(x, "++1").Failure? && ParseSpec(x, "-.").Failure?
    ensures ParseSpec(x, "_").Failure? && ParseSpec(x, "name$.").Failure? && ParseSpec(x, "name$._").Failure?
    ensures ParseSpec(x, "1$$").Failure? && ParseSpec(x, "1.$x").Failure? && ParseSpec(x, "a^#043.").Failure?
    ensures ParseSpec(x, Nines(100)) == Failure(InvalidInteger("width", Nines(100)))
    ensures ParseSpec(x, "1." + Nines(100)) == Failure(InvalidInteger("precision", Nines(100)))
  {
    RejectsMissingPrecision(x);
    RejectsStrayCharacters(x);
    RejectsBadPrecisionCounts(x);
    HundredNines(x);
  }
}
