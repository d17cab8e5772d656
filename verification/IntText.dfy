/** Reading and printing 64-bit integers in a base. */
module IntText {
  import opened Wrappers

  const INT64_MIN: int := -0x8000_0000_0000_0000
  const INT64_MAX: int := 0x7FFF_FFFF_FFFF_FFFF

  /** The value of a character as a digit, in any base; `base` itself if it is none. */
  function DigitOr(c: char, base: int): (d: int)
    ensures d == base || d >= 0
  {
    if '0' <= c <= '9' then (c - '0') as int
    else if 'A' <= c <= 'Z' then (c - 'A') as int + 10
    else if 'a' <= c <= 'z' then (c - 'a') as int + 10
    else base
  }

  predicate AllDigits(s: string, base: nat) {
    forall k | 0 <= k < |s| :: DigitOr(s[k], base) < base
  }

  /** The positional value. */
  function Value(s: string, base: nat): nat {
    if s == "" then 0
    else
      Natural(Value(s[..|s| - 1], base), base);
      Value(s[..|s| - 1], base) * base + DigitOr(s[|s| - 1], base)
  }

  lemma Natural(x: nat, y: nat)
    ensures x * y >= 0
  {
  }

  predicate HasSign(s: string) {
    s != "" && (s[0] == '-' || s[0] == '+')
  }

  function Magnitude(s: string): string {
    if HasSign(s) then s[1..] else s
  }

  /**
   The integer that a text stands for: an optional sign and at least one digit below the base,
   whose value fits.
   */
  function Parsed(s: string, base: nat): Option<int> {
    var digits := Magnitude(s);
    if digits == "" || !AllDigits(digits, base) then None
    else
      var n: int := if s[0] == '-' then 0 - Value(digits, base) else Value(digits, base);
      if INT64_MIN <= n <= INT64_MAX then Some(n) else None
  }

  // ----- Reading -----

  lemma ValueNext(s: string, base: nat, k: nat)
    requires k < |s|
    ensures Value(s[..k + 1], base) == Value(s[..k], base) * base + DigitOr(s[k], base)
    ensures AllDigits(s[..k + 1], base) <==> AllDigits(s[..k], base) && DigitOr(s[k], base) < base
  {
    var t := s[..k + 1];
    assert t[..|t| - 1] == s[..k] && t[k] == s[k];
    assert forall j | 0 <= j < k :: s[..k][j] == t[j];
  }

  lemma {:induction false} ValueGrows(s: string, base: nat, k: nat)
    requires base > 0 && k <= |s|
    ensures Value(s[..k], base) <= Value(s, base)
    decreases |s| - k
  {
    hide Value;
    if k < |s| {
      ValueNext(s, base, k);
      Grows(Value(s[..k], base), base);
      ValueGrows(s, base, k + 1);
    } else {
      assert s[..k] == s;
    }
  }

  lemma Grows(x: nat, base: nat)
    requires base > 0
    ensures x <= x * base
  {
  }

  /** The next digit fits exactly if the check before it says so; the check cannot underflow. */
  lemma NextFits(x: nat, b: nat, base: nat, limit: nat)
    requires b < base && base <= limit
    ensures limit - b >= 0 && (x > (limit - b) / base <==> x * base + b > limit)
  {
    var q := (limit - b) / base;
    assert q * base <= limit - b < (q + 1) * base;
    if x > q {
      Times(q + 1, x, base);
    } else {
      Times(x, q, base);
    }
  }

  lemma Times(x: nat, y: nat, base: nat)
    requires x <= y
    ensures x * base <= y * base
  {
  }

  lemma TooLarge(s: string, base: nat, k: nat)
    requires base > 0 && k <= |Magnitude(s)|
    requires Value(Magnitude(s)[..k], base) > INT64_MAX + if HasSign(s) && s[0] == '-' then 1 else 0
    ensures Parsed(s, base) == None
  {
    ValueGrows(Magnitude(s), base, k);
  }

  /** The sign of a text is its first character; all arithmetic stays within 64 bits. No digit is below a negative base. */
  method StringToInt(characters: string, base: int) returns (r: Option<int>)
    requires INT64_MIN <= base <= INT64_MAX
    ensures r == if base < 0 then None else Parsed(characters, base)
  {
    hide Value, DigitOr;
    if |characters| == 0 {
      return None;
    }
    var negative := characters[0] == '-';
    var limit: nat := INT64_MAX + if negative then 1 else 0;
    var x: nat := 0;
    var start := if HasSign(characters) then 1 else 0;
    ghost var digits := Magnitude(characters);
    assert digits[..0] == "";
    if base >= 0 { NoValue(base); }
    for i := 0 to |characters|
      invariant x <= limit && (i < start ==> x == 0)
      invariant base < 0 ==> i <= start
      invariant base >= 0 && start <= i ==> AllDigits(digits[..i - start], base) && x == Value(digits[..i - start], base)
      invariant i > 0 && |characters| < 2 ==> start == 0
    {
      if i == 0 && (characters[i] == '-' || characters[i] == '+') {
        if |characters| < 2 {
          return None;
        }
        continue;
      }
      var b := DigitOr(characters[i], base);
      if base >= 0 {
        assert digits[i - start] == characters[i];
        ValueNext(digits, base, i - start);
      }
      if b >= base {
        return None;
      }
      NextFits(x, b, base, limit);
      if x > (limit - b) / base {
        TooLarge(characters, base, i - start + 1);
        return None;
      }
      x := x * base + b;
    }
    assert digits[..|characters| - start] == digits;
    r := Some(if negative then 0 - x else x);
  }

  lemma NoValue(base: nat)
    ensures Value("", base) == 0
  {
  }

  // ----- Printing -----

  /** There are only 35 of them: one letter is missing. */
  const ALPHABET := "0123456789abcdefghijklmnopqrstuvxyz"

  function DigitChar(d: nat): char {
    ALPHABET[d % 35]
  }

  /** The digits of a number, most significant first. */
  function Digits(a: nat, base: nat): (r: seq<nat>)
    requires base >= 2
    ensures r != []
  {
    if a < base then [a]
    else
      DivideSmall(a, base);
      Digits(a / base, base) + [a % base]
  }

  function Chars(digits: seq<nat>): (r: string)
    ensures |r| == |digits|
  {
    if digits == [] then "" else Chars(digits[..|digits| - 1]) + [DigitChar(digits[|digits| - 1])]
  }

  lemma NoChars(digits: seq<nat>)
    requires digits == []
    ensures Chars(digits) == ""
  {
  }

  lemma Shorten(digits: seq<nat>)
    requires digits != []
    ensures Chars(digits) == Chars(digits[..|digits| - 1]) + [DigitChar(digits[|digits| - 1])]
  {
  }

  function Abs(n: int): nat {
    if n < 0 then -n else n
  }

  function Printed(n: int, base: nat): string
    requires base >= 2
  {
    (if n < 0 then "-" else "") + Chars(Digits(Abs(n), base))
  }

  /** Division rounds towards zero. */
  function Divide(n: int, base: nat): int
    requires base > 0
  {
    if n < 0 then -(-n / base) else n / base
  }

  /** The buffer is as long as what is written: digits from its end, and the sign. */
  method IntToString(integer: int, base: nat) returns (characters: array<char>)
    requires 2 <= base && INT64_MIN < integer <= INT64_MAX
    ensures fresh(characters) && characters[..] == Printed(integer, base)
  {
    hide Digits, Chars;
    var length := CountDigits(integer, base);
    if integer < 0 { length := length + 1; }
    characters := new char[length](_ => '0');
    var at := WriteDigits(characters, Abs(integer), base);
    if integer < 0 {
      characters[at - 1] := '-';
      assert characters[..] == "-" + characters[at..];
    }
  }

  /** Writes from the end, at least one digit. */
  method WriteDigits(characters: array<char>, n: nat, base: nat) returns (at: nat)
    requires 2 <= base && characters.Length >= |Digits(n, base)|
    modifies characters
    ensures at == characters.Length - |Digits(n, base)| && characters[at..] == Chars(Digits(n, base))
  {
    hide Digits, Chars, DigitChar;
    ghost var text, left := Chars(Digits(n, base)), Digits(n, base);
    at := characters.Length;
    var a: nat := n;
    while true
      invariant left == Digits(a, base) && at == characters.Length - |text| + |left| && |left| <= |text|
      invariant Chars(left) + characters[at..] == text
      decreases a
    {
      Shorten(left);
      LastDigit(a, base);
      ghost var rest := characters[at..];
      var digit := a % base;
      a := a / base;
      at := at - 1;
      characters[at] := DigitChar(digit);
      left := left[..|left| - 1];
      assert characters[at..] == [DigitChar(digit)] + rest;
      if a == 0 {
        break;
      }
    }
    NoChars(left);
  }

  lemma LastDigit(a: nat, base: nat)
    requires base >= 2
    ensures var digits := Digits(a, base);
      && digits[|digits| - 1] == a % base
      && digits[..|digits| - 1] == (if a / base == 0 then [] else Digits(a / base, base))
    ensures a > 0 ==> a / base < a
    ensures a / base == 0 <==> a < base
  {
    DivideSmall(a, base);
  }

  lemma DivideSmall(a: nat, base: nat)
    requires base >= 2
    ensures a / base == 0 <==> a < base
    ensures a > 0 ==> a / base < a
  {
    var q, r := a / base, a % base;
    assert a == q * base + r;
    if q > 0 { Times(2, base, q); }
  }

  lemma Divided(n: int, base: nat)
    requires 2 <= base
    ensures Abs(Divide(n, base)) == Abs(n) / base && (n != 0 ==> Abs(n) / base < Abs(n))
    ensures Divide(n, base) == 0 <==> Abs(n) < base
    ensures |Digits(Abs(n), base)| == if Abs(n) < base then 1 else |Digits(Abs(n) / base, base)| + 1
  {
    hide Digits;
    LastDigit(Abs(n), base);
  }

  method CountDigits(integer: int, base: nat) returns (d: nat)
    requires 2 <= base
    ensures d == |Digits(Abs(integer), base)|
  {
    hide Divide, Digits;
    Divided(integer, base);
    d := 1;
    var n := Divide(integer, base);
    while n != 0
      invariant |Digits(Abs(integer), base)| == d + if n == 0 then 0 else |Digits(Abs(n), base)|
      decreases Abs(n)
    {
      Divided(n, base);
      d := d + 1;
      n := Divide(n, base);
    }
  }

  // ----- Reading what was printed -----

  /** What a digit is read as after it was printed: the letters are reused, and those behind the missing one are too high. */
  function Reread(d: nat): nat {
    if d % 35 < 32 then d % 35 else d % 35 + 1
  }

  lemma AlphabetIs(k: nat)
    requires k < 35
    ensures ALPHABET[k] == if k < 10 then '0' + k as char else if k < 32 then 'a' + (k - 10) as char else 'a' + (k - 9) as char
  {
    if k < 10 { FirstDigits(k); } else if k < 20 { FirstLetters(k); } else { LastLetters(k); }
  }

  lemma FirstDigits(k: nat)
    requires k < 10
    ensures ALPHABET[k] == '0' + k as char
  {
    if k == 0 {} else if k == 1 {} else if k == 2 {} else if k == 3 {} else if k == 4 {} else if k == 5 {}
    else if k == 6 {} else if k == 7 {} else if k == 8 {} else if k == 9 {}
  }

  lemma FirstLetters(k: nat)
    requires 10 <= k < 20
    ensures ALPHABET[k] == 'a' + (k - 10) as char
  {
    if k == 10 {} else if k == 11 {} else if k == 12 {} else if k == 13 {} else if k == 14 {} else if k == 15 {}
    else if k == 16 {} else if k == 17 {} else if k == 18 {} else if k == 19 {}
  }

  lemma LastLetters(k: nat)
    requires 20 <= k < 35
    ensures ALPHABET[k] == if k < 32 then 'a' + (k - 10) as char else 'a' + (k - 9) as char
  {
    if k == 20 {} else if k == 21 {} else if k == 22 {} else if k == 23 {} else if k == 24 {} else if k == 25 {}
    else if k == 26 {} else if k == 27 {} else if k == 28 {} else if k == 29 {} else if k == 30 {} else if k == 31 {}
    else if k == 32 {} else if k == 33 {} else if k == 34 {}
  }

  lemma DigitBack(d: nat, base: nat)
    requires d < base
    ensures DigitOr(DigitChar(d), base) == Reread(d) && DigitChar(d) != '-' && DigitChar(d) != '+'
  {
    AlphabetIs(d % 35);
  }

  function ValueOf(digits: seq<nat>, base: nat): nat {
    if digits == [] then 0
    else
      Natural(ValueOf(digits[..|digits| - 1], base), base);
      ValueOf(digits[..|digits| - 1], base) * base + digits[|digits| - 1]
  }

  function RereadAll(digits: seq<nat>): (r: seq<nat>)
    ensures |r| == |digits|
  {
    if digits == [] then [] else RereadAll(digits[..|digits| - 1]) + [Reread(digits[|digits| - 1])]
  }

  predicate AllBelow(digits: seq<nat>, bound: nat) {
    forall k | 0 <= k < |digits| :: digits[k] < bound
  }

  lemma BelowLast(digits: seq<nat>, bound: nat)
    requires digits != []
    ensures AllBelow(digits, bound) <==> AllBelow(digits[..|digits| - 1], bound) && digits[|digits| - 1] < bound
  {
  }

  lemma RereadLast(digits: seq<nat>, base: nat)
    requires digits != []
    ensures var (n, reread) := (|digits| - 1, RereadAll(digits));
      && reread[..n] == RereadAll(digits[..n]) && reread[n] == Reread(digits[n])
      && ValueOf(reread, base) == ValueOf(reread[..n], base) * base + reread[n]
  {
    hide Reread;
  }

  lemma NothingRead(base: nat)
    ensures Value(Chars([]), base) == ValueOf(RereadAll([]), base)
    ensures AllDigits(Chars([]), base) && AllBelow(RereadAll([]), base) && Chars([]) == ""
  {
  }

  /** The printed digits are read as these digits. */
  lemma {:induction false} CharsRead(digits: seq<nat>, base: nat)
    requires AllBelow(digits, base)
    ensures Value(Chars(digits), base) == ValueOf(RereadAll(digits), base)
    ensures AllDigits(Chars(digits), base) <==> AllBelow(RereadAll(digits), base)
    ensures forall c | c in Chars(digits) :: c != '-' && c != '+'
    decreases |digits|
  {
    hide DigitOr, DigitChar, Reread, Value, ValueOf, Chars, RereadAll, AllDigits, AllBelow;
    if digits != [] {
      var n := |digits| - 1;
      var chars := Chars(digits);
      BelowLast(digits, base);
      CharsRead(digits[..n], base);
      LastBelow(digits, base);
      DigitBack(digits[n], base);
      Shorten(digits);
      RereadLast(digits, base);
      BelowLast(RereadAll(digits), base);
      assert chars[..n] == Chars(digits[..n]) && chars[..n + 1] == chars;
      ValueNext(chars, base, n);
    } else {
      NothingRead(base);
    }
  }

  lemma LastBelow(digits: seq<nat>, bound: nat)
    requires digits != [] && AllBelow(digits, bound)
    ensures digits[|digits| - 1] < bound
  {
  }

  /** The digits of a number are below the base, and their value is the number. */
  lemma {:induction false} DigitsAreValue(a: nat, base: nat)
    requires base >= 2
    ensures ValueOf(Digits(a, base), base) == a && AllBelow(Digits(a, base), base)
    decreases a
  {
    hide Digits;
    var digits := Digits(a, base);
    LastDigit(a, base);
    BelowLast(digits, base);
    Remainder(a, base);
    if a >= base {
      DigitsAreValue(a / base, base);
    }
  }

  lemma Remainder(a: nat, base: nat)
    requires base >= 2
    ensures a == a / base * base + a % base && a % base < base
  {
  }

  lemma SameRemainder(x: nat, r: nat, y: nat, d: nat, base: nat)
    requires r < base && d < base && x * base + r == y * base + d
    ensures x == y && r == d
  {
    if x < y {
      Times(x + 1, y, base);
    } else if y < x {
      Times(y + 1, x, base);
    }
  }

  /** Digits are read as the same number exactly if none is behind the missing letter. */
  lemma {:induction false} RereadIsSame(digits: seq<nat>, base: nat)
    requires AllBelow(digits, base)
    ensures AllBelow(RereadAll(digits), base) && ValueOf(RereadAll(digits), base) == ValueOf(digits, base) <==>
            AllBelow(digits, 32)
    decreases |digits|
  {
    if digits != [] {
      var n := |digits| - 1;
      var again := RereadAll(digits);
      assert again[..n] == RereadAll(digits[..n]);
      BelowLast(digits, base);
      BelowLast(digits, 32);
      BelowLast(again, base);
      RereadIsSame(digits[..n], base);
      if AllBelow(again, base) && ValueOf(again, base) == ValueOf(digits, base) {
        SameRemainder(ValueOf(again[..n], base), again[n], ValueOf(digits[..n], base), digits[n], base);
      }
    }
  }

  /**
   A printed integer is read back exactly if it has no digit from 32 on. In the bases up to 32 that
   is every integer.
   */
  lemma ReadsPrinted(n: int, base: nat)
    requires 2 <= base && INT64_MIN < n <= INT64_MAX
    ensures Parsed(Printed(n, base), base) == Some(n) <==> AllBelow(Digits(Abs(n), base), 32)
    ensures base <= 32 ==> Parsed(Printed(n, base), base) == Some(n)
  {
    hide Value, ValueOf, RereadAll, Digits, Chars;
    var digits := Digits(Abs(n), base);
    var chars := Chars(digits);
    DigitsAreValue(Abs(n), base);
    CharsRead(digits, base);
    RereadIsSame(digits, base);
    if n < 0 {
      assert Printed(n, base)[0] == '-' && Magnitude(Printed(n, base)) == chars;
    } else {
      assert Printed(n, base) == chars && chars[0] in chars;
    }
  }

  /** In every larger base there is an integer that is not. */
  lemma MissingLetter(base: nat)
    requires 33 <= base
    ensures Parsed(Printed(32, base), base) != Some(32)
  {
    hide Parsed, Printed;
    ReadsPrinted(32, base);
    assert Digits(32, base) == [32] && [32][0] >= 32;
  }

  // ----- Digits in either case -----

  /** The alphabet with the letter that is missing. */
  const ALL_DIGITS := ALPHABET[..32] + "w" + ALPHABET[32..]

  function Small(c: char): char {
    if 'A' <= c <= 'Z' then 'a' + (c - 'A') else c
  }

  function AllSmall(s: string): (r: string)
    ensures |r| == |s| && forall k | 0 <= k < |s| :: r[k] == Small(s[k])
  {
    seq(|s|, k requires 0 <= k < |s| => Small(s[k]))
  }

  /** A digit has its place as value, capital letters too, and nothing else is a digit. */
  lemma DigitIsPlace(c: char, k: nat, base: nat)
    requires k < 36 <= base
    ensures DigitOr(c, base) == k <==> Small(c) == ALL_DIGITS[k]
    ensures DigitOr(c, base) < 36 || DigitOr(c, base) == base
  {
    if k < 32 { AlphabetIs(k); } else if k > 32 { AlphabetIs(k - 1); }
  }

  lemma {:induction false} SmallValue(s: string, base: nat)
    ensures Value(AllSmall(s), base) == Value(s, base)
    ensures AllDigits(AllSmall(s), base) <==> AllDigits(s, base)
  {
    forall k | 0 <= k < |s| ensures DigitOr(AllSmall(s)[k], base) == DigitOr(s[k], base) {
    }
    if s != "" {
      var rest := s[..|s| - 1];
      assert AllSmall(s)[..|s| - 1] == AllSmall(rest);
      SmallValue(rest, base);
    }
  }

  /** A text stands for the same integer in either case. */
  lemma ParsedInEitherCase(s: string, base: nat)
    ensures Parsed(AllSmall(s), base) == Parsed(s, base)
  {
    hide Value, AllDigits;
    assert HasSign(AllSmall(s)) <==> HasSign(s);
    if HasSign(s) { assert AllSmall(s)[1..] == AllSmall(s[1..]); }
    SmallValue(Magnitude(s), base);
  }

  /** Only digits below the base stand for an integer, behind at most one sign, and a plus makes no difference. */
  lemma OnlyDigits(s: string, base: nat)
    requires base <= 36
    ensures Parsed(s, base).Some? ==> Magnitude(s) != ""
    ensures Parsed(s, base).Some? ==>
              forall j | 0 <= j < |Magnitude(s)| :: exists k: nat :: k < base && Small(Magnitude(s)[j]) == ALL_DIGITS[k]
    ensures !HasSign(s) ==> Parsed("+" + s, base) == Parsed(s, base)
  {
    hide Value;
    if Parsed(s, base).Some? {
      forall j | 0 <= j < |Magnitude(s)| ensures exists k: nat :: k < base && Small(Magnitude(s)[j]) == ALL_DIGITS[k] {
        var c := Magnitude(s)[j];
        assert DigitOr(c, base) < base;
        DigitIsPlace(c, DigitOr(c, base), 36);
      }
    }
    assert ("+" + s)[1..] == s;
  }
}
