/**
 * The guess-the-number game of `3_ecosystem/3_1_testing`. Standard input is a
 * sequence of lines (each as `read_line` returns it, an empty one standing
 * for the zero-byte read at end of input), standard output is a sequence of
 * the lines the game writes, and the command line is a sequence of
 * arguments whose first is the program name.
 */
module GuessingGame {
  import opened Wrappers
  import opened Integers
  import opened Text

  /** `SecretNumberError`. */
  datatype SecretNumberError = NotANumber

  /** `parse_secret_number`: the trimmed input, parsed as a `u32`. */
  function ParseSecretNumber(input: string): (r: Result<U32, SecretNumberError>)
    ensures r.Success? <==> IsUnsignedLiteral(Trim(input)) && LiteralValue(Trim(input)) <= U32_MAX
    ensures r.Success? ==> r.value == LiteralValue(Trim(input))
  {
    match ParseUnsigned(Trim(input), U32_MAX)
    case Some(n) => Success(n)
    case None => Failure(NotANumber)
  }

  /** `parse_guess`: the same parse, with the error dropped. */
  function ParseGuess(input: string): Option<U32> {
    match ParseSecretNumber(input)
    case Success(n) => Some(n)
    case Failure(_) => None
  }

  /**
   * `parse_guess` accepts exactly what `parse_secret_number` accepts: the
   * trimmed line is an optional '+' and digits of a value that fits a `u32`.
   */
  lemma ParseGuessAccepts(input: string)
    ensures ParseGuess(input).Some? <==> IsUnsignedLiteral(Trim(input)) && LiteralValue(Trim(input)) <= U32_MAX
    ensures ParseGuess(input).Some? ==> ParseGuess(input).value == LiteralValue(Trim(input))
    ensures ParseGuess(input).None? <==> ParseSecretNumber(input) == Failure(NotANumber)
  {
  }

  /** Every `u32`, written in decimal with any whitespace around it, parses back to itself. */
  lemma ParsesPaddedNumber(pre: string, n: U32, post: string)
    requires AllWhitespace(pre) && AllWhitespace(post)
    ensures ParseSecretNumber(pre + NatToDecimal(n) + post) == Success(n)
    ensures ParseGuess(pre + NatToDecimal(n) + post) == Some(n)
  {
    var d := NatToDecimal(n);
    TrimPadded(pre, d, post);
    ParseUnsignedRoundTrip(n, U32_MAX);
  }

  /** A number above `u32::MAX` is refused, however it is written. */
  lemma RefusesAboveMax(input: string)
    requires IsUnsignedLiteral(Trim(input)) && LiteralValue(Trim(input)) > U32_MAX
    ensures ParseSecretNumber(input) == Failure(NotANumber)
    ensures ParseGuess(input) == None
  {
  }

  /** An input holding a character that is neither a digit, '+' nor whitespace is refused. */
  lemma RefusesNonNumeric(input: string, i: int)
    requires 0 <= i < |input|
    requires !IsAsciiDigit(input[i]) && input[i] != '+' && !IsWhitespace(input[i])
    ensures ParseSecretNumber(input) == Failure(NotANumber)
    ensures ParseGuess(input) == None
  {
    TrimKeeps(input, i);
  }

  /** `AppError`, without the I/O variant (writes to the output never fail here). */
  datatype AppError = MissingSecretNumber | InvalidSecretNumber | InputEnded
  {
    /** `Display for AppError`: the line `main` writes to standard error. */
    function Text(): string {
      match this
      case MissingSecretNumber => "No secret number is specified"
      case InvalidSecretNumber => "Secret number is not a number"
      case InputEnded => "Input ended before guessing the number"
    }
  }

  /** A line the game writes. */
  datatype Line = Welcome | Prompt | Guessed(guess: U32) | TooSmall | TooBig | Win
  {
    /** The text of the line, as `writeln!` writes it. */
    function Text(): string {
      match this
      case Welcome => "Guess the number!"
      case Prompt => "Please input your guess."
      case Guessed(n) => "You guessed: " + NatToDecimal(n)
      case TooSmall => "Too small!"
      case TooBig => "Too big!"
      case Win => "You win!"
    }
  }

  /** `read_guess`: the next line, parsed; `InputEnded` when nothing is left to read. */
  function ReadGuess(input: seq<string>): (r: Result<Option<U32>, AppError>)
    ensures r.Failure? <==> input == [] || input[0] == []
    ensures r.Failure? ==> r.error == InputEnded
    ensures r.Success? ==> r.value == ParseGuess(input[0])
  {
    if input == [] || input[0] == [] then Failure(InputEnded) else Success(ParseGuess(input[0]))
  }

  /** What a guess earns: smaller, bigger or equal to the secret. */
  function Verdict(guess: U32, secret: U32): Line {
    if guess < secret then TooSmall else if guess > secret then TooBig else Win
  }

  /** What the game writes and how it ends. */
  datatype Transcript = Transcript(output: seq<Line>, result: Outcome<AppError>)

  /**
   * What `read_guess` gives for each line until the end of input: the
   * parse of every line read, in order.
   */
  function Reads(input: seq<string>): (got: seq<Option<U32>>)
    ensures |got| <= |input|
    decreases |input|
  {
    if input == [] || input[0] == [] then [] else [ParseGuess(input[0])] + Reads(input[1..])
  }

  /** `Reads` parses the lines one by one and stops exactly at the first empty read. */
  lemma {:induction false} ReadsAreParses(input: seq<string>)
    ensures var got := Reads(input);
      && (forall i | 0 <= i < |got| :: input[i] != [] && got[i] == ParseGuess(input[i]))
      && (|got| < |input| ==> input[|got|] == [])
    decreases |input|
  {
    if input != [] && input[0] != [] {
      ReadsAreParses(input[1..]);
      var got := Reads(input);
      forall i | 0 < i < |got|
        ensures input[i] != [] && got[i] == ParseGuess(input[i])
      {
        assert got[i] == Reads(input[1..])[i - 1] && input[i] == input[1..][i - 1];
      }
    }
  }

  /**
   * The rounds of the game loop over what is read: a prompt, then nothing
   * more for an unparseable line, or the guess and its verdict, until a win
   * or the end of input.
   */
  function Rounds(secret: U32, got: seq<Option<U32>>): Transcript
    decreases |got|
  {
    if got == [] then Transcript([Prompt], Fail(InputEnded))
    else
      match got[0]
      case None =>
        var rest := Rounds(secret, got[1..]);
        Transcript([Prompt] + rest.output, rest.result)
      case Some(g) =>
        if g == secret then Transcript([Prompt, Guessed(g), Win], Pass)
        else
          var rest := Rounds(secret, got[1..]);
          Transcript([Prompt, Guessed(g), Verdict(g, secret)] + rest.output, rest.result)
  }

  /** `run_game`: the welcome line, then the rounds over what is read from the input. */
  function Game(secret: U32, input: seq<string>): Transcript {
    var rounds := Rounds(secret, Reads(input));
    Transcript([Welcome] + rounds.output, rounds.result)
  }

  /** `run_game`: reads lines and writes the transcript until a win or the end of input. */
  method RunGame(secret: U32, input: seq<string>) returns (output: seq<Line>, result: Outcome<AppError>)
    ensures Transcript(output, result) == Game(secret, input)
  {
    output := [Welcome];
    var pos := 0;
    while true
      invariant 0 <= pos <= |input|
      invariant Game(secret, input).output == output + Rounds(secret, Reads(input[pos..])).output
      invariant Game(secret, input).result == Rounds(secret, Reads(input[pos..])).result
      decreases |input| - pos
    {
      ghost var got := Reads(input[pos..]);
      var read := ReadGuess(input[pos..]);
      if read.Failure? {
        assert got == [];
        return output + [Prompt], Fail(read.error);
      }
      assert input[pos..][1..] == input[pos + 1..];
      assert got == [read.value] + Reads(input[pos + 1..]);
      assert got[1..] == Reads(input[pos + 1..]);
      ghost var rest := Rounds(secret, got[1..]);
      pos := pos + 1;
      var lines: seq<Line>;
      if read.value.None? {
        lines := [Prompt];
      } else {
        var guess := read.value.value;
        if guess == secret {
          assert Rounds(secret, got) == Transcript([Prompt, Guessed(guess), Win], Pass);
          return output + [Prompt, Guessed(guess), Win], Pass;
        }
        lines := [Prompt, Guessed(guess), Verdict(guess, secret)];
      }
      assert Rounds(secret, got) == Transcript(lines + rest.output, rest.result);
      assert output + (lines + rest.output) == (output + lines) + rest.output;
      output := output + lines;
    }
  }

  /** The game is won exactly when the secret is among the numbers read; otherwise the input ran out. */
  lemma {:induction false} WinsIffSecretGuessed(secret: U32, got: seq<Option<U32>>)
    ensures Rounds(secret, got).result == Pass <==> Some(secret) in got
    ensures Rounds(secret, got).result != Pass ==> Rounds(secret, got).result == Fail(InputEnded)
    decreases |got|
  {
    if got != [] && got[0] != Some(secret) {
      WinsIffSecretGuessed(secret, got[1..]);
      assert got == [got[0]] + got[1..];
    }
  }

  /**
   * Every guess written is followed at once by its verdict, and `You win!`
   * is written only as the last line, exactly when the game is won.
   */
  lemma {:induction false} VerdictFollowsGuess(secret: U32, got: seq<Option<U32>>)
    ensures var t := Rounds(secret, got);
      && |t.output| > 0
      && (forall i | 0 <= i < |t.output| && t.output[i].Guessed? ::
            i + 1 < |t.output| && t.output[i + 1] == Verdict(t.output[i].guess, secret))
      && (forall i | 0 <= i < |t.output| - 1 :: t.output[i] != Win)
      && (t.result == Pass <==> t.output[|t.output| - 1] == Win)
    decreases |got|
  {
    if got != [] && (got[0].None? || got[0] != Some(secret)) {
      VerdictFollowsGuess(secret, got[1..]);
    }
  }

  /** An unparseable line adds a prompt and nothing else: no guess is written for it. */
  lemma SkipsUnparseableLine(secret: U32, line: string, input: seq<string>)
    requires line != [] && ParseGuess(line) == None
    ensures Game(secret, [line] + input)
         == Transcript([Welcome, Prompt] + Rounds(secret, Reads(input)).output, Rounds(secret, Reads(input)).result)
  {
    ReadsLine(line, input);
    var got := Reads(input);
    SkipsUnparseableRead(secret, got);
    assert [Welcome] + ([Prompt] + Rounds(secret, got).output) == [Welcome, Prompt] + Rounds(secret, got).output;
  }

  /** The same on what is read: a `None` adds a prompt and nothing else. */
  lemma SkipsUnparseableRead(secret: U32, got: seq<Option<U32>>)
    ensures Rounds(secret, [None] + got) == Transcript([Prompt] + Rounds(secret, got).output, Rounds(secret, got).result)
  {
    assert ([None] + got)[1..] == got;
  }

  /** A line read before the rest of the input contributes its parse before the rest's. */
  lemma ReadsLine(line: string, input: seq<string>)
    requires line != []
    ensures Reads([line] + input) == [ParseGuess(line)] + Reads(input)
  {
    assert ([line] + input)[1..] == input;
  }

  /** `run_app`: the second argument is the secret number; without a good one the game does not start. */
  function App(args: seq<string>, input: seq<string>): (t: Transcript)
    ensures |args| < 2 ==> t == Transcript([], Fail(MissingSecretNumber))
    ensures |args| >= 2 && ParseSecretNumber(args[1]).Failure? ==> t == Transcript([], Fail(InvalidSecretNumber))
    ensures |args| >= 2 && ParseSecretNumber(args[1]).Success? ==> t == Game(ParseSecretNumber(args[1]).value, input)
  {
    if |args| < 2 then Transcript([], Fail(MissingSecretNumber))
    else
      match ParseSecretNumber(args[1])
      case Failure(_) => Transcript([], Fail(InvalidSecretNumber))
      case Success(secret) => Game(secret, input)
  }

  /** `run_app`, running the game loop when the secret number is good. */
  method RunApp(args: seq<string>, input: seq<string>) returns (output: seq<Line>, result: Outcome<AppError>)
    ensures Transcript(output, result) == App(args, input)
  {
    if |args| < 2 {
      return [], Fail(MissingSecretNumber);
    }
    var secret := ParseSecretNumber(args[1]);
    if secret.Failure? {
      return [], Fail(InvalidSecretNumber);
    }
    output, result := RunGame(secret.value, input);
  }

  /** " 7 " parses to 7. */
  lemma TrimsAndParses(s: string)
    requires s == " 7 "
    ensures ParseSecretNumber(s) == Success(7)
  {
    assert NatToDecimal(7) == "7";
    assert s == " " + NatToDecimal(7) + " ";
    ParsesPaddedNumber(" ", 7, " ");
  }

  /** "nope" is not a number. */
  lemma RejectsNope(s: string)
    requires s == "nope"
    ensures ParseSecretNumber(s) == Failure(NotANumber) && ParseGuess(s) == None
  {
    RefusesNonNumeric(s, 0);
  }

  /** "4294967296" is one more than `u32::MAX`. */
  lemma RejectsOverflow()
    ensures ParseSecretNumber(NatToDecimal(U32_MAX + 1)) == Failure(NotANumber)
  {
    ParseUnsignedRoundTrip(U32_MAX + 1, U32_MAX + 1);
    TrimPadded([], NatToDecimal(U32_MAX + 1), []);
    assert [] + NatToDecimal(U32_MAX + 1) + [] == NatToDecimal(U32_MAX + 1);
  }

  /** Without a secret number, or with one that is not a number, the game does not start. */
  lemma AppRefusesBadArguments(prog: string, bad: string, input: seq<string>)
    requires bad == "abc"
    ensures App([prog], input) == Transcript([], Fail(MissingSecretNumber))
    ensures App([prog, bad], input) == Transcript([], Fail(InvalidSecretNumber))
  {
    RefusesNonNumeric(bad, 0);
  }

  /** With nothing to read, the game prompts once and ends with `InputEnded`. */
  lemma EndOfInputExample(secret: U32)
    ensures Game(secret, []) == Transcript([Welcome, Prompt], Fail(InputEnded))
  {
  }

  /** A number on a line of its own parses, the newline being whitespace. */
  lemma NumberLineParses(n: U32)
    ensures NatToDecimal(n) + "\n" != [] && ParseGuess(NatToDecimal(n) + "\n") == Some(n)
  {
    TrimDigitsLine(NatToDecimal(n));
    ParseUnsignedRoundTrip(n, U32_MAX);
  }

  /** A line of digits trims to the digits. */
  lemma TrimDigitsLine(d: string)
    requires d != [] && AllDigits(d)
    ensures Trim(d + "\n") == d
  {
    assert [] + d + "\n" == d + "\n";
    TrimPadded([], d, "\n");
  }

  /** The line "nope" does not parse. */
  lemma NopeLineRefused(line: string)
    requires line == "nope\n"
    ensures line != [] && ParseGuess(line) == None
  {
    RefusesNonNumeric(line, 0);
  }

  /** An unparseable line, then the secret: no guess is written for the first line, and the game is won. */
  lemma InvalidThenWinExample()
    ensures Rounds(10, [None, Some(10)]) == Transcript([Prompt, Prompt, Guessed(10), Win], Pass)
  {
    assert [None, Some(10)][1..] == [Some(10)];
  }

  /** Too small, too big, then right. */
  lemma SmallBigWinExample()
    ensures Rounds(10, [Some(5), Some(15), Some(10)])
         == Transcript([Prompt, Guessed(5), TooSmall, Prompt, Guessed(15), TooBig, Prompt, Guessed(10), Win], Pass)
  {
    assert [Some(5), Some(15), Some(10)][1..] == [Some(15), Some(10)];
    assert [Some(15), Some(10)][1..] == [Some(10)];
  }

  /** Two lines, both read, give their two parses. */
  lemma ReadsOfTwo(a: string, b: string)
    requires a != [] && b != []
    ensures Reads([a, b]) == [ParseGuess(a), ParseGuess(b)]
  {
    assert [a, b] == [a] + [b] && [b] == [b] + [];
    ReadsLine(a, [b]);
    ReadsLine(b, []);
  }

  /** Three lines, all read, give their three parses. */
  lemma ReadsOfThree(a: string, b: string, c: string)
    requires a != [] && b != [] && c != []
    ensures Reads([a, b, c]) == [ParseGuess(a), ParseGuess(b), ParseGuess(c)]
  {
    assert [a, b, c] == [a] + [b, c];
    ReadsLine(a, [b, c]);
    ReadsOfTwo(b, c);
  }

  /** What is read from the lines "nope" and "10". */
  lemma InvalidThenWinReads(nope: string)
    requires nope == "nope\n"
    ensures Reads([nope, NatToDecimal(10) + "\n"]) == [None, Some(10)]
  {
    NopeLineRefused(nope);
    NumberLineParses(10);
    ReadsOfTwo(nope, NatToDecimal(10) + "\n");
  }

  /** What is read from the lines "5", "15" and "10". */
  lemma SmallBigWinReads()
    ensures Reads([NatToDecimal(5) + "\n", NatToDecimal(15) + "\n", NatToDecimal(10) + "\n"]) == [Some(5), Some(15), Some(10)]
  {
    NumberLineParses(5);
    NumberLineParses(15);
    NumberLineParses(10);
    ReadsOfThree(NatToDecimal(5) + "\n", NatToDecimal(15) + "\n", NatToDecimal(10) + "\n");
  }

  /** The games of the tests, on the lines "nope", "5", "15" and "10", are won. */
  lemma TestGames(nope: string)
    requires nope == "nope\n"
    ensures Game(10, [nope, NatToDecimal(10) + "\n"]).result == Pass
    ensures Game(10, [NatToDecimal(5) + "\n", NatToDecimal(15) + "\n", NatToDecimal(10) + "\n"]).result == Pass
  {
    InvalidThenWinReads(nope);
    SmallBigWinReads();
    InvalidThenWinExample();
    SmallBigWinExample();
  }
}
