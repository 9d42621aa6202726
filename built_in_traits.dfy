/**
 * The `User` record of the built-in traits tutorial: construction, the
 * `Default` and `Display` implementations, and `FromStr`, which parses
 * "name:age" with a `u8` age.
 */
module BuiltInTraits {
  import opened Wrappers
  import opened Numbers
  import opened Text

  /** Rejection of an input that does not split into exactly two parts on ':'. */
  const FORMAT_ERROR: string := "Ge\U{e7}ersiz format, 'name:age' bekleniyor"

  /** Prefix of the rejection of an age that does not parse as a `u8`. */
  const AGE_ERROR_PREFIX: string := "Ya\U{15f} parse hatas\U{131}: "

  datatype User = User(name: string, age: u8)
  {
    static function New(name: string, age: u8): (u: User)
      ensures u.name == name && u.age == age
    {
      User(name, age)
    }

    static function Default(): (u: User)
      ensures u.name == "Default" && u.age == 0
    {
      User("Default", 0)
    }

    /** The `Display` text. */
    function ToString(): string
    {
      "User(name: " + name + ", age: " + NatToString(age) + ")"
    }
  }

  /** The longest run of digits at the end of a string. */
  function DigitSuffix(s: string): string
  {
    if s == [] || !IsDigit(s[|s| - 1]) then [] else DigitSuffix(s[..|s| - 1]) + [s[|s| - 1]]
  }

  lemma {:induction false} DigitSuffixAfterSpace(x: string, d: string)
    requires AllDigits(d)
    ensures DigitSuffix(x + [' '] + d) == d
    decreases |d|
  {
    var s := x + [' '] + d;
    if d != [] {
      assert s[..|s| - 1] == x + [' '] + d[..|d| - 1];
      DigitSuffixAfterSpace(x, d[..|d| - 1]);
      assert d[..|d| - 1] + [d[|d| - 1]] == d;
    }
  }

  /** The `Display` text without its closing ')': everything before the age, a space, the age's digits. */
  lemma ToStringShape(u: User)
    ensures var s := u.ToString();
      |s| > 0 && s[..|s| - 1] == ("User(name: " + u.name + ", age:") + [' '] + NatToString(u.age)
  {
    var p, m, d := "User(name: ", ", age: ", NatToString(u.age);
    assert ", age: " == ", age:" + [' '];
    assert u.ToString() == p + u.name + m + d + ")";
  }

  /** The name sits verbatim right after the 11-character "User(name: ". */
  lemma ToStringName(u: User)
    ensures |u.ToString()| == 19 + |u.name| + |NatToString(u.age)|
    ensures u.ToString()[11..11 + |u.name|] == u.name
  {
    var p, m, d := "User(name: ", ", age: ", NatToString(u.age);
    assert |p| == 11 && |m| == 7;
    assert u.ToString() == p + u.name + m + d + ")";
  }

  /** Two users print differently unless they are equal, whatever the names contain. */
  lemma DisplayInjective(u: User, v: User)
    requires u.ToString() == v.ToString()
    ensures u == v
  {
    ToStringShape(u);
    ToStringShape(v);
    DigitSuffixAfterSpace("User(name: " + u.name + ", age:", NatToString(u.age));
    DigitSuffixAfterSpace("User(name: " + v.name + ", age:", NatToString(v.age));
    NatToStringInjective(u.age, v.age);
    ToStringName(u);
    ToStringName(v);
  }

  // ---------------------------------------------------------------------
  // `FromStr for User`
  // ---------------------------------------------------------------------

  /**
   * `s.parse::<User>()`: split on ':', demand exactly two pieces, keep the
   * first as the name verbatim and parse the second as a `u8` age.
   */
  function FromStr(s: string): (r: Result<User, string>)
  {
    var parts := Split(s, ':');
    if |parts| != 2 then Err(FORMAT_ERROR)
    else
      match ParseU8(parts[1])
      case Ok(age) => Ok(User(parts[0], age))
      case Err(kind) => Err(AGE_ERROR_PREFIX + IntErrorMessage(kind))
  }

  /**
   * The parser, stated on the input string: anything but exactly one ':' is
   * a format error; otherwise the name is the text before the ':' and the
   * text after it must parse as a `u8`, else the error names the parse
   * failure after the age prefix.
   */
  lemma FromStrSpec(s: string)
    ensures multiset(s)[':'] != 1 ==> FromStr(s) == Err(FORMAT_ERROR)
    ensures forall k | 0 <= k < |s| && s[k] == ':' && multiset(s)[':'] == 1 ::
      FromStr(s) == match ParseU8(s[k + 1..])
                    case Ok(age) => Ok(User(s[..k], age))
                    case Err(kind) => Err(AGE_ERROR_PREFIX + IntErrorMessage(kind))
  {
    SplitCount(s, ':');
    forall k | 0 <= k < |s| && s[k] == ':' && multiset(s)[':'] == 1
      ensures FromStr(s) == match ParseU8(s[k + 1..])
                            case Ok(age) => Ok(User(s[..k], age))
                            case Err(kind) => Err(AGE_ERROR_PREFIX + IntErrorMessage(kind))
    {
      OnlyColon(s, k);
      assert s == s[..k] + [':'] + s[k + 1..];
      FromStrAtColon(s[..k], s[k + 1..]);
    }
  }

  /** With a single ':' at `k`, neither side of it holds another. */
  lemma OnlyColon(s: string, k: nat)
    requires k < |s| && s[k] == ':' && multiset(s)[':'] == 1
    ensures ':' !in s[..k] && ':' !in s[k + 1..]
  {
    assert s == s[..k] + [s[k]] + s[k + 1..];
    assert multiset(s) == multiset(s[..k]) + multiset{':'} + multiset(s[k + 1..]);
  }

  /** A successful parse gives a name without ':'. */
  lemma FromStrNameHasNoColon(s: string)
    requires FromStr(s).Ok?
    ensures ':' !in FromStr(s).value.name
  {
    SplitProperties(s, ':');
  }

  /** Round trip: a name without ':' and any `u8` age come back from "name:age". */
  lemma FromStrRoundTrip(name: string, age: u8)
    requires ':' !in name
    ensures FromStr(name + ":" + NatToString(age)) == Ok(User(name, age))
  {
    var digits := NatToString(age);
    assert ':' !in digits by {
      forall i | 0 <= i < |digits| ensures digits[i] != ':' {
        assert IsDigit(digits[i]);
      }
    }
    assert name + ":" + digits == name + [':'] + digits;
    FromStrAtColon(name, digits);
    ParseU8RoundTrip(age);
  }

  /** The tutorial's input "Alice:25". */
  lemma FromStrAlice()
    ensures FromStr("Alice:25") == Ok(User("Alice", 25))
  {
    var name, digits := "Alice", NatToString(25);
    assert digits == "25";
    FromStrRoundTrip(name, 25);
    assert name + ":" + digits == "Alice:25";
  }

  /** Inputs without a ':' or with two of them are format errors. */
  lemma FromStrFormatErrors()
    ensures FromStr("abc") == Err(FORMAT_ERROR)
    ensures FromStr("a:1:2") == Err(FORMAT_ERROR)
  {
    SplitNone("abc", ':');
    assert "a:1:2" == "a" + [':'] + ("1" + [':'] + "2");
    SplitAfter("a", ':', "1" + [':'] + "2");
    SplitAfter("1", ':', "2");
  }

  /** With exactly one ':' the name is what precedes it and the age is parsed from what follows. */
  lemma FromStrAtColon(name: string, rest: string)
    requires ':' !in name && ':' !in rest
    ensures FromStr(name + [':'] + rest) == match ParseU8(rest)
                    case Ok(age) => Ok(User(name, age))
                    case Err(kind) => Err(AGE_ERROR_PREFIX + IntErrorMessage(kind))
  {
    SplitAfter(name, ':', rest);
    SplitNone(rest, ':');
  }

  /** An age past 255 is a parse error with the standard library's overflow message. */
  lemma FromStrAgeOverflow()
    ensures FromStr("Bob:256") == Err(AGE_ERROR_PREFIX + IntErrorMessage(PosOverflow))
  {
    var name, big := "Bob", "256";
    assert "Bob:256" == name + [':'] + big;
    FromStrAtColon(name, big);
    assert ScanU8(big[2..], 25) == Err(PosOverflow);
    assert ScanU8(big, 0) == ScanU8(big[1..], 2);
  }

  /** A missing age is a parse error with the standard library's empty-string message. */
  lemma FromStrAgeMissing()
    ensures FromStr("Bob:") == Err(AGE_ERROR_PREFIX + IntErrorMessage(Empty))
  {
    var name := "Bob";
    assert "Bob:" == name + [':'] + "";
    FromStrAtColon(name, "");
  }

  /** `create_user_from_str`: the parse result, passed on unchanged by `?`. */
  function CreateUserFromStr(input: string): (r: Result<User, string>)
    ensures r == FromStr(input)
  {
    match FromStr(input)
    case Ok(user) => Ok(user)
    case Err(e) => Err(e)
  }

  /** `mut_example`: the caller's string gains the suffix " Jr." and keeps what it had. */
  method MutExample(name: string) returns (name': string)
    ensures name <= name' && name'[|name|..] == " Jr."
  {
    name' := name + " Jr.";
  }

  /** The tutorial's values: "Dave" becomes "Dave Jr.", equal users compare equal, and `Display`. */
  method Scenario() returns (user1: User, user2: User, modified: string)
    ensures user1 == user2 && user1.ToString() == "User(name: Bob, age: 25)"
    ensures modified == "Dave Jr."
  {
    user1 := User.New("Bob", 25);
    user2 := User.New("Bob", 25);
    assert NatToString(25) == "25";
    modified := MutExample("Dave");
    assert modified == "Dave" + modified[4..];
  }
}
