/**
 * A hand-written parser for the `format_spec` part of Rust's formatting
 * syntax:
 *
 *   [[fill]align][sign]['#']['0'][width]['.' precision][type]
 *
 * The parser is a cursor (`CustomParser`) that steps through the input. Each
 * of its steps is specified by a pure function of the input and the cursor
 * position (`AlignEnd`, `WidthStep`, ...), and `ParseSpec` chains those steps
 * the way `parse_custom` does. The Unicode identifier tables (`XID_Start`,
 * `XID_Continue`) are a parameter; `WellFormed` is what the model relies on
 * about them.
 */
module FormatSpec {
  import opened Wrappers
  import opened Text
  import opened Integers

  datatype Sign = Plus | Minus

  /** A reference to a formatting argument. */
  datatype Argument = Position(position: nat) | Identifier(name: string)

  /** A width or precision: a literal number or an argument that holds it. */
  datatype Count = Integer(value: nat) | Parameter(argument: Argument)

  /** `Precision::Count` is `Counted` here. */
  datatype Precision = Counted(count: Count) | Asterisk

  /** What `parse_custom` reports: the sign, width and precision of the spec. */
  datatype ParsedFormatSpec = ParsedFormatSpec(sign: Option<Sign>, width: Option<Count>, precision: Option<Precision>)

  datatype ParseError =
    | InvalidFormatSpec(input: string)
    | InvalidInteger(field: string, raw: string)

  /** The `XID_Start` and `XID_Continue` character classes of Unicode. */
  datatype XidTables = XidTables(start: char -> bool, cont: char -> bool)

  predicate IsAsciiLetter(c: char) {
    ('a' <= c <= 'z') || ('A' <= c <= 'Z')
  }

  /**
   * What Unicode fixes about the two classes and the parser relies on: on
   * ASCII, `XID_Start` is the letters and `XID_Continue` the letters, digits
   * and '_'; and every start character is a continue character.
   */
  predicate WellFormed(x: XidTables) {
    && (forall c: char | c < '\U{80}' :: x.start(c) <==> IsAsciiLetter(c))
    && (forall c: char | c < '\U{80}' :: x.cont(c) <==> IsAsciiLetter(c) || IsAsciiDigit(c) || c == '_')
    && (forall c: char :: x.start(c) ==> x.cont(c))
  }

  /** `is_align`. */
  predicate IsAlign(c: char) {
    c == '<' || c == '^' || c == '>'
  }

  /** `is_identifier_start`. */
  predicate IsIdentifierStart(x: XidTables, c: char) {
    c == '_' || x.start(c)
  }

  predicate AllContinue(x: XidTables, s: string) {
    forall i | 0 <= i < |s| :: x.cont(s[i])
  }

  /**
   * `is_valid_identifier`: an `XID_Start` character followed by `XID_Continue`
   * characters, or '_' followed by at least one `XID_Continue` character.
   */
  predicate IsValidIdentifier(x: XidTables, s: string) {
    if s == [] then false
    else if s[0] == '_' then |s| >= 2 && AllContinue(x, s[1..])
    else x.start(s[0]) && AllContinue(x, s[1..])
  }

  // ---------------------------------------------------------------------------
  // Number and argument helpers
  // ---------------------------------------------------------------------------

  /** `parse_usize`: Rust's `usize` parsing, with the failure tagged by the field. */
  function ParseUsize(raw: string, field: string): (r: Result<nat, ParseError>)
    ensures r.Success? <==> IsUnsignedLiteral(raw) && LiteralValue(raw) <= USIZE_MAX
    ensures r.Success? ==> r.value == LiteralValue(raw)
    ensures r.Failure? ==> r.error == InvalidInteger(field, raw)
  {
    match ParseUnsigned(raw, USIZE_MAX)
    case Some(n) => Success(n)
    case None => Failure(InvalidInteger(field, raw))
  }

  /**
   * `parse_argument`: all digits (the empty text included) is a position,
   * refused with `InvalidInteger` when empty or beyond `usize::MAX`; other
   * text is a name when it is a valid identifier and is refused otherwise.
   */
  function ParseArgument(x: XidTables, raw: string, field: string): (r: Result<Argument, ParseError>)
    ensures AllDigits(raw) ==>
      (r.Success? <==> |raw| > 0 && DecimalValue(raw) <= USIZE_MAX)
    ensures AllDigits(raw) && r.Success? ==> r.value == Position(DecimalValue(raw))
    ensures AllDigits(raw) && r.Failure? ==> r.error == InvalidInteger(field, raw)
    ensures !AllDigits(raw) ==> (r.Success? <==> IsValidIdentifier(x, raw))
    ensures !AllDigits(raw) && r.Success? ==> r.value == Identifier(raw)
    ensures !AllDigits(raw) && r.Failure? ==> r.error == InvalidFormatSpec(raw)
  {
    if AllDigits(raw) then
      match ParseUsize(raw, field)
      case Success(n) => Success(Position(n))
      case Failure(e) => Failure(e)
    else if IsValidIdentifier(x, raw) then Success(Identifier(raw))
    else Failure(InvalidFormatSpec(raw))
  }

  /** A count text that ends in '$', the mark of an argument reference. */
  predicate EndsWithDollar(raw: string) {
    |raw| > 0 && raw[|raw| - 1] == '$'
  }

  /**
   * `parse_count`: a trailing '$' makes a reference to the argument that the
   * text before it names, with that argument's error if it names none;
   * otherwise the text is a literal `usize`, refused with `InvalidInteger`.
   */
  function ParseCount(x: XidTables, raw: string, field: string): (r: Result<Count, ParseError>)
    ensures EndsWithDollar(raw) ==>
      (r.Success? <==> ParseArgument(x, raw[..|raw| - 1], field).Success?)
    ensures EndsWithDollar(raw) && r.Success? ==>
      r.value.Parameter? && ParseArgument(x, raw[..|raw| - 1], field) == Success(r.value.argument)
    ensures EndsWithDollar(raw) && r.Failure? ==>
      ParseArgument(x, raw[..|raw| - 1], field) == Failure(r.error)
    ensures !EndsWithDollar(raw) ==>
      (r.Success? <==> IsUnsignedLiteral(raw) && LiteralValue(raw) <= USIZE_MAX)
    ensures !EndsWithDollar(raw) && r.Success? ==> r.value == Integer(LiteralValue(raw))
    ensures !EndsWithDollar(raw) && r.Failure? ==> r.error == InvalidInteger(field, raw)
  {
    if EndsWithDollar(raw) then
      match ParseArgument(x, raw[..|raw| - 1], field)
      case Success(a) => Success(Parameter(a))
      case Failure(e) => Failure(e)
    else
      match ParseUsize(raw, field)
      case Success(n) => Success(Integer(n))
      case Failure(e) => Failure(e)
  }

  /**
   * `parse_precision`: "*" is `Asterisk`; any other text is the count it
   * reads as, tagged "precision", or that count's error.
   */
  function ParsePrecision(x: XidTables, raw: string): (r: Result<Precision, ParseError>)
    ensures r == Success(Asterisk) <==> raw == "*"
    ensures raw != "*" ==> (r.Success? <==> ParseCount(x, raw, "precision").Success?)
    ensures raw != "*" && r.Success? ==> Success(r.value.count) == ParseCount(x, raw, "precision")
    ensures raw != "*" && r.Failure? ==> Failure(r.error) == ParseCount(x, raw, "precision")
  {
    if raw == "*" then Success(Asterisk)
    else
      match ParseCount(x, raw, "precision")
      case Success(c) => Success(Counted(c))
      case Failure(e) => Failure(e)
  }

  // ---------------------------------------------------------------------------
  // The steps of the cursor, as functions of the input and the position
  // ---------------------------------------------------------------------------

  /** The outcome of one parsing step and where it leaves the cursor. */
  datatype Step<T> = Step(result: Result<T, ParseError>, next: nat)

  /** `consume_if`: the position after `c` when it is the next character. */
  function SkipIf(s: string, i: nat, c: char): (j: nat)
    requires i <= |s|
    ensures j == i || j == i + 1
    ensures j == i + 1 <==> i < |s| && s[i] == c
  {
    if i < |s| && s[i] == c then i + 1 else i
  }

  /**
   * `parse_alignment`: an align character is consumed on its own, or after
   * one fill character; otherwise nothing is consumed.
   */
  function AlignEnd(s: string, i: nat): (j: nat)
    requires i <= |s|
    ensures i <= j <= i + 2 && j <= |s|
    ensures j > i ==> IsAlign(s[j - 1])
    ensures j == i + 2 ==> !IsAlign(s[i])
  {
    if i < |s| && IsAlign(s[i]) then i + 1
    else if i + 1 < |s| && IsAlign(s[i + 1]) then i + 2
    else i
  }

  /** `parse_sign`: the sign at the cursor, if any. */
  function SignAt(s: string, i: nat): (sign: Option<Sign>)
    requires i <= |s|
    ensures sign == Some(Plus) <==> i < |s| && s[i] == '+'
    ensures sign == Some(Minus) <==> i < |s| && s[i] == '-'
  {
    if i < |s| && s[i] == '+' then Some(Plus)
    else if i < |s| && s[i] == '-' then Some(Minus)
    else None
  }

  /** `consume_digits`: the end of the longest run of ASCII digits from `i`. */
  function DigitsEnd(s: string, i: nat): (j: nat)
    requires i <= |s|
    ensures i <= j <= |s|
    ensures AllDigits(s[i..j])
    ensures j == |s| || !IsAsciiDigit(s[j])
    decreases |s| - i
  {
    if i < |s| && IsAsciiDigit(s[i]) then
      var j := DigitsEnd(s, i + 1);
      assert s[i..j] == [s[i]] + s[i + 1..j];
      j
    else i
  }

  /** The end of the longest run of `XID_Continue` characters from `i`. */
  function ContinueEnd(x: XidTables, s: string, i: nat): (j: nat)
    requires i <= |s|
    ensures i <= j <= |s|
    ensures AllContinue(x, s[i..j])
    ensures j == |s| || !x.cont(s[j])
    decreases |s| - i
  {
    if i < |s| && x.cont(s[i]) then
      var j := ContinueEnd(x, s, i + 1);
      assert s[i..j] == [s[i]] + s[i + 1..j];
      j
    else i
  }

  /**
   * `consume_identifier`: the end of the longest identifier at `i`, or
   * `None` when no identifier starts there.
   */
  function IdentEnd(x: XidTables, s: string, i: nat): (e: Option<nat>)
    requires i <= |s|
    ensures e.Some? ==> i < e.value <= |s| && IsValidIdentifier(x, s[i..e.value])
    ensures e.Some? ==> e.value == |s| || !x.cont(s[e.value])
    ensures e.None? ==> forall k | i < k <= |s| :: !IsValidIdentifier(x, s[i..k])
  {
    if i == |s| then None
    else if s[i] == '_' then
      if i + 1 < |s| && x.cont(s[i + 1]) then
        var j := ContinueEnd(x, s, i + 2);
        assert s[i..j][1..] == [s[i + 1]] + s[i + 2..j];
        Some(j)
      else
        assert forall k | i < k <= |s| :: s[i..k][0] == '_' && (|s[i..k]| >= 2 ==> s[i..k][1] == s[i + 1]);
        None
    else if x.start(s[i]) then
      var j := ContinueEnd(x, s, i + 1);
      assert s[i..j][1..] == s[i + 1..j];
      Some(j)
    else
      assert forall k | i < k <= |s| :: s[i..k][0] == s[i];
      None
  }

  /** Digits at the cursor, then an optional '$': a literal count or a position. */
  function DigitCount(s: string, i: nat, field: string): (r: Step<Count>)
    requires i <= |s|
    ensures i <= r.next <= |s|
  {
    var j := DigitsEnd(s, i);
    var dollar := j < |s| && s[j] == '$';
    var next := if dollar then j + 1 else j;
    match ParseUsize(s[i..j], field)
    case Failure(e) => Step(Failure(e), next)
    case Success(n) => Step(Success(if dollar then Parameter(Position(n)) else Integer(n)), next)
  }

  /**
   * `parse_optional_width`: digits (with or without '$'), or an identifier
   * followed by '$'. An identifier without '$' is not a width: the cursor
   * goes back to where the identifier started.
   */
  function WidthStep(x: XidTables, s: string, i: nat): (r: Step<Option<Count>>)
    requires i <= |s|
    ensures i <= r.next <= |s|
    ensures r.result == Success(None) ==> r.next == i
  {
    if i == |s| then Step(Success(None), i)
    else if IsAsciiDigit(s[i]) then
      var c := DigitCount(s, i, "width");
      match c.result
      case Success(v) => Step(Success(Some(v)), c.next)
      case Failure(e) => Step(Failure(e), c.next)
    else if !IsIdentifierStart(x, s[i]) then Step(Success(None), i)
    else
      match IdentEnd(x, s, i)
      case None => Step(Success(None), i)
      case Some(e) =>
        if e < |s| && s[e] == '$' then Step(Success(Some(Parameter(Identifier(s[i..e])))), e + 1)
        else Step(Success(None), i)
  }

  /** `parse_required_count`: like a width, but a missing count is an error. */
  function RequiredCountStep(x: XidTables, s: string, i: nat, field: string): (r: Step<Count>)
    requires i <= |s|
    ensures i <= r.next <= |s|
  {
    if i == |s| then Step(Failure(InvalidFormatSpec(s)), i)
    else if IsAsciiDigit(s[i]) then DigitCount(s, i, field)
    else if !IsIdentifierStart(x, s[i]) then Step(Failure(InvalidFormatSpec(s)), i)
    else
      match IdentEnd(x, s, i)
      case None => Step(Failure(InvalidFormatSpec(s)), i)
      case Some(e) =>
        if e < |s| && s[e] == '$' then Step(Success(Parameter(Identifier(s[i..e]))), e + 1)
        else Step(Failure(InvalidFormatSpec(s)), e)
  }

  /** `parse_optional_precision`: nothing, or '.' then '*' or a required count. */
  function PrecisionStep(x: XidTables, s: string, i: nat): (r: Step<Option<Precision>>)
    requires i <= |s|
    ensures i <= r.next <= |s|
    ensures r.result == Success(None) <==> r.next == i
  {
    if !(i < |s| && s[i] == '.') then Step(Success(None), i)
    else if i + 1 < |s| && s[i + 1] == '*' then Step(Success(Some(Asterisk)), i + 2)
    else
      var c := RequiredCountStep(x, s, i + 1, "precision");
      match c.result
      case Success(v) => Step(Success(Some(Counted(v))), c.next)
      case Failure(e) => Step(Failure(e), c.next)
  }

  /** `parse_type`: nothing, "x?", "X?", "?" or an identifier. */
  function TypeStep(x: XidTables, s: string, i: nat): (r: Step<()>)
    requires i <= |s|
    ensures i <= r.next <= |s|
    ensures r.result.Failure? ==> r.next == i && r.result.error == InvalidFormatSpec(s)
  {
    if i == |s| then Step(Success(()), i)
    else if i + 1 < |s| && (s[i] == 'x' || s[i] == 'X') && s[i + 1] == '?' then Step(Success(()), i + 2)
    else if s[i] == '?' then Step(Success(()), i + 1)
    else
      match IdentEnd(x, s, i)
      case Some(e) => Step(Success(()), e)
      case None => Step(Failure(InvalidFormatSpec(s)), i)
  }

  /** `parse_custom`: the steps in order; input left after the type is an error. */
  function ParseSpec(x: XidTables, s: string): Result<ParsedFormatSpec, ParseError> {
    var i1 := AlignEnd(s, 0);
    var sign := SignAt(s, i1);
    var i2 := if sign.Some? then i1 + 1 else i1;
    var i3 := SkipIf(s, i2, '#');
    var i4 := SkipIf(s, i3, '0');
    var w := WidthStep(x, s, i4);
    if w.result.Failure? then Failure(w.result.error)
    else
      var p := PrecisionStep(x, s, w.next);
      if p.result.Failure? then Failure(p.result.error)
      else
        var t := TypeStep(x, s, p.next);
        if t.result.Failure? then Failure(t.result.error)
        else if t.next < |s| then Failure(InvalidFormatSpec(s))
        else Success(ParsedFormatSpec(sign, w.result.value, p.result.value))
  }

  // ---------------------------------------------------------------------------
  // The cursor
  // ---------------------------------------------------------------------------

  /** `CustomParser`: the input and a cursor into it. */
  class CustomParser {
    const input: string
    const xid: XidTables
    var index: nat

    ghost predicate Valid()
      reads this
    {
      index <= |input|
    }

    /** `CustomParser::new`: the cursor at the start. */
    constructor (input: string, xid: XidTables)
      ensures Valid() && this.input == input && this.xid == xid && index == 0
    {
      this.input := input;
      this.xid := xid;
      index := 0;
    }

    /** `peek_char`: the character at the cursor. */
    function PeekChar(): (c: Option<char>)
      reads this
      requires Valid()
      ensures c.Some? <==> index < |input|
      ensures c.Some? ==> c.value == input[index]
    {
      if index < |input| then Some(input[index]) else None
    }

    /** `is_eof`. */
    function IsEof(): (b: bool)
      reads this
      requires Valid()
      ensures b <==> PeekChar().None?
    {
      index >= |input|
    }

    /** `bump_char`: steps over the character at the cursor, if there is one. */
    method BumpChar()
      requires Valid()
      modifies this`index
      ensures Valid()
      ensures index == if old(index) < |input| then old(index) + 1 else old(index)
    {
      if index < |input| {
        index := index + 1;
      }
    }

    /** `consume_if`: steps over `expected` when it is the next character. */
    method ConsumeIf(expected: char) returns (b: bool)
      requires Valid()
      modifies this`index
      ensures Valid() && index == SkipIf(input, old(index), expected)
      ensures b <==> index != old(index)
    {
      var c := PeekChar();
      if c.None? || c.value != expected {
        return false;
      }
      BumpChar();
      b := true;
    }

    /** `consume_str`: steps over `token` when the rest of the input starts with it. */
    method ConsumeStr(token: string) returns (b: bool)
      requires Valid()
      modifies this`index
      ensures Valid()
      ensures b <==> token <= input[old(index)..]
      ensures index == if b then old(index) + |token| else old(index)
    {
      if !(token <= input[index..]) {
        return false;
      }
      index := index + |token|;
      b := true;
    }

    /** `consume_digits`: steps over the run of digits at the cursor and returns it. */
    method ConsumeDigits() returns (digits: string)
      requires Valid()
      modifies this`index
      ensures Valid() && index == DigitsEnd(input, old(index))
      ensures digits == input[old(index)..index]
    {
      var end := index;
      while end < |input| && IsAsciiDigit(input[end])
        invariant index <= end <= |input|
        invariant DigitsEnd(input, end) == DigitsEnd(input, index)
        decreases |input| - end
      {
        end := end + 1;
      }
      digits := input[index..end];
      index := end;
    }

    /** `consume_identifier`: steps over the identifier at the cursor and returns it. */
    method ConsumeIdentifier() returns (identifier: Option<string>)
      requires Valid()
      modifies this`index
      ensures Valid()
      ensures identifier.Some? <==> IdentEnd(xid, input, old(index)).Some?
      ensures identifier.Some? ==>
        index == IdentEnd(xid, input, old(index)).value && identifier.value == input[old(index)..index]
      ensures identifier.None? ==> index == old(index)
    {
      if index == |input| {
        return None;
      }
      var end: nat;
      if input[index] == '_' {
        if index + 1 == |input| || !xid.cont(input[index + 1]) {
          return None;
        }
        end := index + 2;
      } else {
        if !xid.start(input[index]) {
          return None;
        }
        end := index + 1;
      }
      ghost var stop := ContinueEnd(xid, input, end);
      while end < |input| && xid.cont(input[end])
        invariant index < end <= |input|
        invariant ContinueEnd(xid, input, end) == stop
        decreases |input| - end
      {
        end := end + 1;
      }
      identifier := Some(input[index..end]);
      index := end;
    }

    /** `parse_alignment`. */
    method ParseAlignment()
      requires Valid()
      modifies this`index
      ensures Valid() && index == AlignEnd(input, old(index))
    {
      var first := PeekChar();
      if first.None? {
        return;
      }
      if IsAlign(first.value) {
        BumpChar();
        return;
      }
      if index + 1 < |input| && IsAlign(input[index + 1]) {
        BumpChar();
        BumpChar();
      }
    }

    /** `parse_sign`. */
    method ParseSign() returns (sign: Option<Sign>)
      requires Valid()
      modifies this`index
      ensures Valid() && sign == SignAt(input, old(index))
      ensures index == if sign.Some? then old(index) + 1 else old(index)
    {
      var c := PeekChar();
      sign := if c == Some('+') then Some(Plus) else if c == Some('-') then Some(Minus) else None;
      if sign.Some? {
        BumpChar();
      }
    }

    /** The digit branch shared by `parse_optional_width` and `parse_required_count`. */
    method ParseDigitCount(field: string) returns (r: Result<Count, ParseError>)
      requires Valid()
      modifies this`index
      ensures Valid() && Step(r, index) == DigitCount(input, old(index), field)
    {
      var number := ConsumeDigits();
      var dollar := ConsumeIf('$');
      var n := ParseUsize(number, field);
      if n.Failure? {
        return Failure(n.error);
      }
      r := Success(if dollar then Parameter(Position(n.value)) else Integer(n.value));
    }

    /** `parse_optional_width`, with the checkpoint reset. */
    method ParseOptionalWidth() returns (r: Result<Option<Count>, ParseError>)
      requires Valid()
      modifies this`index
      ensures Valid() && Step(r, index) == WidthStep(xid, input, old(index))
    {
      var first := PeekChar();
      if first.None? {
        return Success(None);
      }
      if IsAsciiDigit(first.value) {
        var c := ParseDigitCount("width");
        if c.Failure? {
          return Failure(c.error);
        }
        return Success(Some(c.value));
      }
      if !IsIdentifierStart(xid, first.value) {
        return Success(None);
      }
      var checkpoint := index;
      var identifier := ConsumeIdentifier();
      if identifier.None? {
        return Success(None);
      }
      var dollar := ConsumeIf('$');
      if dollar {
        return Success(Some(Parameter(Identifier(identifier.value))));
      }
      index := checkpoint;
      r := Success(None);
    }

    /** `parse_required_count`. */
    method ParseRequiredCount(field: string) returns (r: Result<Count, ParseError>)
      requires Valid()
      modifies this`index
      ensures Valid() && Step(r, index) == RequiredCountStep(xid, input, old(index), field)
    {
      var first := PeekChar();
      if first.None? {
        return Failure(InvalidFormatSpec(input));
      }
      if IsAsciiDigit(first.value) {
        r := ParseDigitCount(field);
        return;
      }
      if !IsIdentifierStart(xid, first.value) {
        return Failure(InvalidFormatSpec(input));
      }
      var identifier := ConsumeIdentifier();
      if identifier.None? {
        return Failure(InvalidFormatSpec(input));
      }
      var dollar := ConsumeIf('$');
      if !dollar {
        return Failure(InvalidFormatSpec(input));
      }
      r := Success(Parameter(Identifier(identifier.value)));
    }

    /** `parse_optional_precision`. */
    method ParseOptionalPrecision() returns (r: Result<Option<Precision>, ParseError>)
      requires Valid()
      modifies this`index
      ensures Valid() && Step(r, index) == PrecisionStep(xid, input, old(index))
    {
      var dot := ConsumeIf('.');
      if !dot {
        return Success(None);
      }
      var star := ConsumeIf('*');
      if star {
        return Success(Some(Asterisk));
      }
      var c := ParseRequiredCount("precision");
      if c.Failure? {
        return Failure(c.error);
      }
      r := Success(Some(Counted(c.value)));
    }

    /** `parse_type`. */
    method ParseType() returns (r: Result<(), ParseError>)
      requires Valid()
      modifies this`index
      ensures Valid() && Step(r, index) == TypeStep(xid, input, old(index))
    {
      if IsEof() {
        return Success(());
      }
      var b := ConsumeStr("x?");
      if !b {
        b := ConsumeStr("X?");
      }
      if !b {
        b := ConsumeIf('?');
      }
      if b {
        return Success(());
      }
      var identifier := ConsumeIdentifier();
      if identifier.Some? {
        return Success(());
      }
      r := Failure(InvalidFormatSpec(input));
    }
  }

  /** `parse_custom`, run on a fresh cursor. */
  method ParseCustom(input: string, xid: XidTables) returns (r: Result<ParsedFormatSpec, ParseError>)
    ensures r == ParseSpec(xid, input)
  {
    var parser := new CustomParser(input, xid);
    parser.ParseAlignment();
    var sign := parser.ParseSign();
    var _ := parser.ConsumeIf('#');
    var _ := parser.ConsumeIf('0');
    var width := parser.ParseOptionalWidth();
    if width.Failure? {
      return Failure(width.error);
    }
    var precision := parser.ParseOptionalPrecision();
    if precision.Failure? {
      return Failure(precision.error);
    }
    var t := parser.ParseType();
    if t.Failure? {
      return Failure(t.error);
    }
    if !parser.IsEof() {
      return Failure(InvalidFormatSpec(input));
    }
    r := Success(ParsedFormatSpec(sign, width.value, precision.value));
  }
}
