/**
 * The validated email address of `1_concepts/1_5_convert_cast_deref`:
 * `EmailString` can only be built by a fallible conversion that runs an
 * ordered list of checks, converts back to the exact string it was made
 * from, and compares and orders as that string does.
 */
module Email {
  import opened Wrappers
  import opened Text

  /** Why `EmailString::validate` refuses a string, in the order it checks. */
  datatype Reason = Empty | MissingAt | MissingDot | NotExactlyOneAt | EmptyLocalPart | EmptyDomainPart
  {
    /** The `&'static str` the source reports. */
    function Text(): string {
      match this
      case Empty => "email cannot be empty"
      case MissingAt => "email must contain '@'"
      case MissingDot => "email must contain '.'"
      case NotExactlyOneAt => "email must have exactly one '@'"
      case EmptyLocalPart => "local part cannot be empty"
      case EmptyDomainPart => "domain part cannot be empty"
    }
  }

  /** `EmailString::validate`: the first check that fails, or `Pass`. */
  function Validate(email: string): (r: Outcome<Reason>)
    ensures r == Fail(Empty) <==> email == []
    ensures r == Fail(MissingAt) <==> email != [] && '@' !in email
    ensures r == Fail(MissingDot) <==> '@' in email && '.' !in email
    ensures r == Fail(NotExactlyOneAt) <==> '@' in email && '.' in email && Count(email, '@') > 1
  {
    if email == [] then Fail(Empty)
    else if '@' !in email then Fail(MissingAt)
    else if '.' !in email then Fail(MissingDot)
    else
      var parts := Split(email, '@');
      SplitCount(email, '@');
      AtCounted(email);
      if |parts| != 2 then Fail(NotExactlyOneAt)
      else if parts[0] == [] then Fail(EmptyLocalPart)
      else if parts[1] == [] then Fail(EmptyDomainPart)
      else Pass
  }

  /** A string holding '@' holds it at least once. */
  lemma AtCounted(s: string)
    ensures '@' in s <==> Count(s, '@') >= 1
  {
  }

  /**
   * What a well-formed address is, stated without splitting: exactly one
   * '@', neither first nor last, and a '.' somewhere.
   */
  predicate WellFormed(email: string) {
    && Count(email, '@') == 1
    && '.' in email
    && email[0] != '@'
    && email[|email| - 1] != '@'
  }

  /** With one '@', its two sides are the two pieces of the split. */
  lemma SplitAtOne(email: string)
    requires Count(email, '@') == 1
    ensures |Split(email, '@')| == 2
    ensures email == Split(email, '@')[0] + "@" + Split(email, '@')[1]
    ensures '@' !in Split(email, '@')[0] && '@' !in Split(email, '@')[1]
  {
    SplitCount(email, '@');
    JoinSplit(email, '@');
    var parts := Split(email, '@');
    assert parts[1..] == [parts[1]];
  }

  /** `validate` accepts exactly the well-formed addresses. */
  lemma ValidateAcceptsWellFormed(email: string)
    ensures Validate(email) == Pass <==> email != [] && WellFormed(email)
  {
    if email != [] && '@' in email && '.' in email && Count(email, '@') == 1 {
      SplitAtOne(email);
      var parts := Split(email, '@');
      assert parts[0] == [] <==> email[0] == '@' by {
        if parts[0] != [] {
          assert email[0] == parts[0][0];
        }
      }
      assert parts[1] == [] <==> email[|email| - 1] == '@' by {
        if parts[1] != [] {
          assert email[|email| - 1] == parts[1][|parts[1]| - 1];
        }
      }
    } else if email != [] && WellFormed(email) {
      AtCounted(email);
    }
  }

  /** The error of a failed conversion: the input as given, and the first failing check. */
  datatype InvalidEmailError = InvalidEmailError(invalidInput: string, reason: Reason)

  /** `EmailString`: a string that passed `validate`. */
  datatype EmailString = EmailString(inner: string)
  {
    /** `AsRef<str>`, `Borrow<str>`, `Display` and `From<EmailString> for String`: the inner string. */
    function AsStr(): string {
      inner
    }

    /** `Ord for EmailString`: the order of the inner strings. */
    function Cmp(other: EmailString): Ordering {
      Compare(inner, other.inner)
    }
  }

  /**
   * `TryFrom<String>` and `TryFrom<&str>` (which converts and delegates):
   * the string is kept unchanged when it validates, and reported with the
   * reason otherwise.
   */
  function TryFrom(value: string): (r: Result<EmailString, InvalidEmailError>)
    ensures r.Success? <==> value != [] && WellFormed(value)
    ensures r.Success? ==> r.value.AsStr() == value
    ensures r.Failure? ==> r.error.invalidInput == value && Validate(value) == Fail(r.error.reason)
  {
    ValidateAcceptsWellFormed(value);
    match Validate(value)
    case Fail(reason) => Failure(InvalidEmailError(value, reason))
    case Pass => Success(EmailString(value))
  }

  /** Converting an address to a `String` and back gives the same address. */
  lemma IntoStringRoundTrip(value: string)
    requires TryFrom(value).Success?
    ensures TryFrom(TryFrom(value).value.AsStr()) == TryFrom(value)
  {
  }

  /** `Ordering`. */
  datatype Ordering = Less | Equal | Greater

  /** `Ord for str`: lexicographic, character by character. */
  function Compare(s: string, t: string): Ordering {
    if s == [] && t == [] then Equal
    else if s == [] then Less
    else if t == [] then Greater
    else if s[0] < t[0] then Less
    else if t[0] < s[0] then Greater
    else Compare(s[1..], t[1..])
  }

  /** Strings compare `Equal` exactly when they are the same string. */
  lemma {:induction false} CompareEqual(s: string, t: string)
    ensures Compare(s, t) == Equal <==> s == t
  {
    if s != [] && t != [] && s[0] == t[0] {
      CompareEqual(s[1..], t[1..]);
      assert s == [s[0]] + s[1..] && t == [t[0]] + t[1..];
    }
  }

  /** Swapping the operands swaps `Less` and `Greater`. */
  lemma {:induction false} CompareFlips(s: string, t: string)
    ensures Compare(s, t) == Less <==> Compare(t, s) == Greater
  {
    if s != [] && t != [] && s[0] == t[0] {
      CompareFlips(s[1..], t[1..]);
    }
  }

  /** `PartialEq`, `Eq` and `Ord` of `EmailString` agree with one another and with the inner strings. */
  lemma EmailOrderIsStringOrder(a: EmailString, b: EmailString)
    ensures a == b <==> a.AsStr() == b.AsStr()
    ensures a.Cmp(b) == Equal <==> a == b
    ensures a.Cmp(b) == Less <==> b.Cmp(a) == Greater
  {
    CompareEqual(a.inner, b.inner);
    CompareFlips(a.inner, b.inner);
  }

  /** An address made of a local part, '@' and a domain part, neither with an '@'. */
  lemma SplitExample(local: string, domain: string)
    requires '@' !in local && '@' !in domain
    ensures Split(local + "@" + domain, '@') == [local, domain]
    ensures Count(local + "@" + domain, '@') == 1
  {
    SplitCons(local, domain, '@');
    SplitFree(domain, '@');
    SplitCount(local + "@" + domain, '@');
  }

  /**
   * An address written as a non-empty local part, '@', domain name, '.' and
   * a non-empty top-level domain, with no other '@', is accepted.
   */
  lemma AcceptsParts(local: string, name: string, tld: string)
    requires local != [] && tld != []
    requires '@' !in local && '@' !in name && '@' !in tld
    ensures TryFrom(local + "@" + name + "." + tld) == Success(EmailString(local + "@" + name + "." + tld))
  {
    var domain := name + "." + tld;
    assert '@' !in domain;
    SplitExample(local, domain);
    assert local + "@" + name + "." + tld == local + "@" + domain;
    var email := local + "@" + domain;
    assert email[0] == local[0];
    assert email[|email| - 1] == tld[|tld| - 1];
    assert email[|local| + 1 + |name|] == '.';
  }

  /** The same shape with nothing before the '@' is refused for its empty local part. */
  lemma RejectsEmptyLocalPart(name: string, tld: string)
    requires '@' !in name && '@' !in tld
    ensures TryFrom("@" + name + "." + tld) == Failure(InvalidEmailError("@" + name + "." + tld, EmptyLocalPart))
  {
    var domain := name + "." + tld;
    assert '@' !in domain;
    SplitExample([], domain);
    assert [] + "@" + domain == "@" + name + "." + tld;
    var email := "@" + domain;
    assert email[0] == '@';
    assert email[1 + |name|] == '.';
  }

  /** "a@b.c", the shortest address the tests accept. */
  lemma AcceptsShortest()
    ensures TryFrom("a" + "@" + "b" + "." + "c").Success?
  {
    AcceptsParts("a", "b", "c");
  }

  /** "user@example.com" is accepted. */
  lemma AcceptsUserAtExample()
    ensures TryFrom("user" + "@" + "example" + "." + "com").Success?
  {
    AcceptsParts("user", "example", "com");
  }

  /** "test.user@sub.domain.com" is accepted. */
  lemma AcceptsDottedParts()
    ensures TryFrom("test.user" + "@" + "sub.domain" + "." + "com").Success?
  {
    AcceptsParts("test.user", "sub.domain", "com");
  }

  /** "@nodomain.com" is refused for its empty local part. */
  lemma RejectsNoDomain()
    ensures TryFrom("@" + "nodomain" + "." + "com").error.reason == EmptyLocalPart
  {
    RejectsEmptyLocalPart("nodomain", "com");
  }

  /** The empty string is refused first of all. */
  lemma RejectsEmpty()
    ensures TryFrom("") == Failure(InvalidEmailError("", Empty))
  {
  }

  /** "notanemail" has no '@'. */
  lemma RejectsNotAnEmail(s: string)
    requires s == "notanemail"
    ensures TryFrom(s) == Failure(InvalidEmailError(s, MissingAt))
  {
    assert '@' !in s;
  }

  /** "noat.com" has no '@'. */
  lemma RejectsNoAt(s: string)
    requires s == "noat.com"
    ensures TryFrom(s) == Failure(InvalidEmailError(s, MissingAt))
  {
    assert '@' !in s;
  }

  /** "missing@domain" has an '@' but no '.'. */
  lemma RejectsMissingDot(s: string)
    requires s == "missing@domain"
    ensures TryFrom(s) == Failure(InvalidEmailError(s, MissingDot))
  {
    assert s[7] == '@';
    assert '.' !in s;
  }

  /** Equal and unequal addresses of the equality test. */
  lemma EqualityExamples()
    ensures EmailString("same@test.com") == EmailString("same@test.com")
    ensures EmailString("same@test.com") != EmailString("different@test.com")
    ensures EmailString("same@test.com").Cmp(EmailString("different@test.com")) == Greater
  {
    assert "same@test.com"[0] == 's' && "different@test.com"[0] == 'd';
  }
}
