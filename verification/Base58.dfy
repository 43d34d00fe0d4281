/**
 Base58 (`src/base58.cpp`): byte strings as text. A byte string is written as one '1' per leading zero
 byte, followed by the base-58 digits of the number that the rest of it is in base 256.

 Bytes are numbers below 256. Characters are taken one at a time and never zero inside a text that is
 decoded. Lengths are unbounded.
 */
module Base58s {
  import opened Basics
  import opened Positional

  /** All digits and letters except "0", "I", "O" and "l". */
  const ALPHABET := "123456789" + "ABCDEFGHJKLMNPQRSTUVWXYZ" + "abcdefghijkmnopqrstuvwxyz"

  /** The table from characters to digits; -1 for a character that is not in the alphabet. */
  function DigitOf(c: char): int {
    if '1' <= c <= '9' then c as int - '1' as int
    else if 'A' <= c <= 'H' then c as int - 'A' as int + 9
    else if 'J' <= c <= 'N' then c as int - 'J' as int + 17
    else if 'P' <= c <= 'Z' then c as int - 'P' as int + 22
    else if 'a' <= c <= 'k' then c as int - 'a' as int + 33
    else if 'm' <= c <= 'z' then c as int - 'm' as int + 44
    else -1
  }

  predicate IsSpace(c: char) {
    c == ' ' || c == '\U{0C}' || c == '\n' || c == '\r' || c == '\t' || c == '\U{0B}'
  }

  lemma AlphabetLow(d: nat)
    requires d < 17
    ensures DigitOf(ALPHABET[d]) == d && !IsSpace(ALPHABET[d]) && ALPHABET[d] != '\0'
  {
    assert d == 0 || d == 1 || d == 2 || d == 3 || d == 4 || d == 5 || d == 6 || d == 7 || d == 8 || d == 9
        || d == 10 || d == 11 || d == 12 || d == 13 || d == 14 || d == 15 || d == 16;
  }

  lemma AlphabetMiddle(d: nat)
    requires 17 <= d < 33
    ensures DigitOf(ALPHABET[d]) == d && !IsSpace(ALPHABET[d]) && ALPHABET[d] != '\0'
  {
    assert d == 17 || d == 18 || d == 19 || d == 20 || d == 21 || d == 22 || d == 23 || d == 24 || d == 25 || d == 26
        || d == 27 || d == 28 || d == 29 || d == 30 || d == 31 || d == 32;
  }

  lemma AlphabetHigh(d: nat)
    requires 33 <= d < 58
    ensures DigitOf(ALPHABET[d]) == d && !IsSpace(ALPHABET[d]) && ALPHABET[d] != '\0'
  {
    assert d == 33 || d == 34 || d == 35 || d == 36 || d == 37 || d == 38 || d == 39 || d == 40 || d == 41 || d == 42
        || d == 43 || d == 44 || d == 45 || d == 46 || d == 47 || d == 48 || d == 49 || d == 50 || d == 51 || d == 52
        || d == 53 || d == 54 || d == 55 || d == 56 || d == 57;
  }

  /** The table inverts the alphabet. */
  lemma LetterDigit(d: nat)
    requires d < 58
    ensures DigitOf(ALPHABET[d]) == d && !IsSpace(ALPHABET[d]) && ALPHABET[d] != '\0'
  {
    if d < 17 { AlphabetLow(d); } else if d < 33 { AlphabetMiddle(d); } else { AlphabetHigh(d); }
  }

  lemma DigitLetter(c: char)
    requires DigitOf(c) >= 0
    ensures DigitOf(c) < 58 && ALPHABET[DigitOf(c)] == c
  {
    var d := DigitOf(c);
    LetterDigit(d);
    SameDigit(ALPHABET[d], c);
  }

  lemma SameDigit(a: char, b: char)
    requires DigitOf(a) == DigitOf(b) >= 0
    ensures a == b
  {
    assert a as int == b as int;
  }

  function Letter(d: nat): char
    requires d < 58
  {
    ALPHABET[d]
  }

  /** The alphabet is the digits and letters but "0", "I", "O" and "l" ... */
  lemma AlphabetExact(c: char)
    ensures (exists d :: 0 <= d < 58 && Letter(d) == c) <==>
              || '1' <= c <= '9'
              || ('A' <= c <= 'Z' && c != 'I' && c != 'O')
              || ('a' <= c <= 'z' && c != 'l')
  {
    hide ALPHABET;
    if d :| 0 <= d < 58 && Letter(d) == c {
      LetterDigit(d);
    }
    if DigitOf(c) >= 0 {
      DigitLetter(c);
      assert Letter(DigitOf(c)) == c;
    }
  }

  /** ... in the order of ASCII. */
  lemma AlphabetAscending(a: nat, b: nat)
    requires a < b < 58
    ensures Letter(a) < Letter(b)
  {
    hide ALPHABET;
    LetterDigit(a);
    LetterDigit(b);
  }

  // ----- What encoding and decoding mean -----

  /** How many elements at the front are `x`. */
  function Leading<T(==)>(s: seq<T>, x: T): (n: nat)
    ensures n <= |s| && (forall i :: 0 <= i < n ==> s[i] == x) && (n < |s| ==> s[n] != x)
  {
    if s == [] || s[0] != x then 0 else 1 + Leading(s[1..], x)
  }

  /** How many characters at the front are spaces, or are not. */
  function Run(s: string, spaces: bool): (n: nat)
    ensures n <= |s| && (forall i :: 0 <= i < n ==> IsSpace(s[i]) == spaces) && (n < |s| ==> IsSpace(s[n]) != spaces)
  {
    if s == [] || IsSpace(s[0]) != spaces then 0 else 1 + Run(s[1..], spaces)
  }

  predicate AllSpace(s: string) {
    forall i :: 0 <= i < |s| ==> IsSpace(s[i])
  }

  predicate AllDigits(s: string) {
    forall i :: 0 <= i < |s| ==> DigitOf(s[i]) >= 0
  }

  function Digits(s: string): (digits: seq<nat>)
    requires AllDigits(s)
    ensures |digits| == |s| && forall i :: 0 <= i < |s| ==> digits[i] == DigitOf(s[i])
  {
    seq(|s|, i requires 0 <= i < |s| => DigitOf(s[i]))
  }

  ghost function Text(digits: seq<nat>): (s: string)
    requires AllBelow(58, digits)
    ensures |s| == |digits| && forall i :: 0 <= i < |s| ==> s[i] == Letter(digits[i])
  {
    seq(|digits|, i requires 0 <= i < |digits| => Letter(digits[i]))
  }

  ghost function Encode(x: seq<nat>): string {
    var z := Leading(x, 0);
    ToDigitsVal(58, Val(256, x[z..]));
    Repeat<char>('1', z) + Text(ToDigits(58, Val(256, x[z..])))
  }

  /** A result of length `n` is within the limit; an empty one always is. */
  predicate Fits(n: nat, maxRetLen: int) {
    n == 0 || n <= maxRetLen
  }

  ghost function Decode(s: string, maxRetLen: int): Option<seq<nat>> {
    var t := s[Run(s, true)..];
    var z := Leading(t, '1');
    var rest := t[z..];
    var core, tail := rest[..Run(rest, false)], rest[Run(rest, false)..];
    if !AllDigits(core) || !AllSpace(tail) then None
    else
      var bytes := Repeat<nat>(0, z) + ToDigits(256, Val(58, Digits(core)));
      if Fits(|bytes|, maxRetLen) then Some(bytes) else None
  }

  // ----- They undo each other -----

  lemma LetterFacts(d: nat)
    requires d < 58
    ensures DigitOf(Letter(d)) == d && !IsSpace(Letter(d)) && Letter(d) != '\0' && (Letter(d) == '1' <==> d == 0)
  {
    LetterDigit(d);
    LetterDigit(0);
  }

  lemma TextFacts(digits: seq<nat>)
    requires AllBelow(58, digits)
    ensures AllDigits(Text(digits)) && Digits(Text(digits)) == digits
    ensures forall i :: 0 <= i < |digits| ==> !IsSpace(Text(digits)[i]) && Text(digits)[i] != '\0'
  {
    hide Letter, DigitOf, IsSpace;
    forall i | 0 <= i < |digits|
      ensures DigitOf(Text(digits)[i]) == digits[i] && !IsSpace(Text(digits)[i]) && Text(digits)[i] != '\0'
    {
      LetterFacts(digits[i]);
    }
  }

  lemma DigitsFacts(s: string)
    requires AllDigits(s)
    ensures AllBelow(58, Digits(s)) && Text(Digits(s)) == s
  {
    hide DigitOf;
    forall i | 0 <= i < |s| ensures DigitOf(s[i]) < 58 && Letter(DigitOf(s[i])) == s[i] {
      DigitLetter(s[i]);
    }
    hide Letter;
  }

  lemma {:induction false} LeadingIs<T>(s: seq<T>, x: T, n: nat)
    requires n <= |s| && (forall i :: 0 <= i < n ==> s[i] == x) && (n < |s| ==> s[n] != x)
    ensures Leading(s, x) == n
  {
  }

  lemma {:induction false} RunIs(s: string, spaces: bool, n: nat)
    requires n <= |s| && (forall i :: 0 <= i < n ==> IsSpace(s[i]) == spaces) && (n < |s| ==> IsSpace(s[n]) != spaces)
    ensures Run(s, spaces) == n
  {
  }

  lemma CutSpaces(a: string, rest: string)
    requires AllSpace(a) && (rest != [] ==> !IsSpace(rest[0]))
    ensures Run(a + rest, true) == |a| && (a + rest)[|a|..] == rest
  {
    hide IsSpace, Run;
    RunIs(a + rest, true, |a|);
  }

  lemma CutOnes(z: nat, rest: string)
    requires rest != [] ==> rest[0] != '1'
    ensures Leading(Repeat<char>('1', z) + rest, '1') == z && (Repeat<char>('1', z) + rest)[z..] == rest
  {
    hide Leading;
    LeadingIs(Repeat<char>('1', z) + rest, '1', z);
  }

  lemma CutWord(text: string, b: string)
    requires AllSpace(b) && forall i :: 0 <= i < |text| ==> !IsSpace(text[i])
    ensures Run(text + b, false) == |text|
  {
    hide IsSpace, Run;
    RunIs(text + b, false, |text|);
  }

  lemma OneIsNoSpace()
    ensures !IsSpace('1')
  {
  }

  lemma SpaceIsNotOne(b: string)
    requires AllSpace(b)
    ensures b != [] ==> b[0] != '1'
  {
  }

  /** The parts into which decoding cuts spaces, an encoding and spaces. */
  lemma CutEncoded(a: string, z: nat, text: string, b: string)
    requires AllSpace(a) && AllSpace(b) && (forall i :: 0 <= i < |text| ==> !IsSpace(text[i])) &&
             (text != [] ==> text[0] != '1')
    requires z == 0 && text == [] ==> b == []
    ensures var s := a + (Repeat<char>('1', z) + text) + b;
            && Run(s, true) == |a|
            && var t := s[|a|..];
            && Leading(t, '1') == z && t[z..] == text + b && Run(text + b, false) == |text|
  {
    hide IsSpace, Leading, Run, AllSpace;
    var ones, rest := Repeat<char>('1', z), text + b;
    OneIsNoSpace();
    SpaceIsNotOne(b);
    Regroup(a, ones, text, b);
    assert ones + rest != [] ==> (ones + rest)[0] == if z > 0 then '1' else text[0];
    CutSpaces(a, ones + rest);
    CutOnes(z, rest);
    CutWord(text, b);
  }

  lemma Regroup(a: string, ones: string, text: string, b: string)
    ensures a + (ones + text) + b == a + (ones + (text + b))
  {
  }

  lemma EncodeDigits(x: seq<nat>) returns (z: nat, digits: seq<nat>)
    requires AllBelow(256, x)
    ensures AllBelow(58, digits) && Encode(x) == Repeat<char>('1', z) + Text(digits)
    ensures Repeat<nat>(0, z) + ToDigits(256, Val(58, digits)) == x
    ensures digits != [] ==> digits[0] > 0
  {
    hide ToDigits, Val, Text;
    z := Leading(x, 0);
    var v := Val(256, x[z..]);
    digits := ToDigits(58, v);
    ToDigitsVal(58, v);
    ValToDigits(256, x[z..]);
    assert x == Repeat<nat>(0, z) + x[z..];
    if v == 0 { NoDigits(58); }
  }

  lemma DecodeEncoded(a: string, x: seq<nat>, b: string, maxRetLen: int)
    requires AllSpace(a) && AllSpace(b) && AllBelow(256, x)
    ensures Decode(a + Encode(x) + b, maxRetLen) == if Fits(|x|, maxRetLen) then Some(x) else None
  {
    hide Encode, ToDigits, Val, Text, Digits, Leading, Run, DigitOf, IsSpace, Letter, AllBelow;
    var z, digits := EncodeDigits(x);
    var text := Text(digits);
    TextFacts(digits);
    if digits != [] { FirstLetter(digits); }
    if z == 0 && digits == [] {
      NothingEncoded(a, b, x, maxRetLen, digits);
    } else {
      CutEncoded(a, z, text, b);
      assert (text + b)[..|text|] == text && (text + b)[|text|..] == b;
    }
  }

  lemma FirstLetter(digits: seq<nat>)
    requires AllBelow(58, digits) && digits != [] && digits[0] > 0
    ensures Text(digits)[0] != '1'
  {
    LetterFacts(digits[0]);
  }

  lemma NothingEncoded(a: string, b: string, x: seq<nat>, maxRetLen: int, digits: seq<nat>)
    requires AllSpace(a) && AllSpace(b) && AllBelow(256, x) && digits == [] &&
             Encode(x) == Repeat<char>('1', 0) + Text(digits)
    requires Repeat<nat>(0, 0) + ToDigits(256, Val(58, digits)) == x
    ensures Decode(a + Encode(x) + b, maxRetLen) == Some(x) && x == []
  {
    hide DigitOf, Encode, Leading, Run;
    NoDigits(256);
    assert Val(58, digits) == 0;
    var s := a + Encode(x) + b;
    assert s == a + b;
    RunIs(s, true, |s|);
    var t := s[|s|..];
    LeadingIs(t, '1', 0);
    RunIs(t, false, 0);
    assert t[0..] == [] && Digits(t) == [];
  }

  /** Where decoding cuts a text: spaces, ones, the core, and what follows. */
  ghost function CoreOf(s: string): string {
    var t := s[Run(s, true)..];
    var rest := t[Leading(t, '1')..];
    rest[..Run(rest, false)]
  }

  ghost function TailOf(s: string): string {
    var t := s[Run(s, true)..];
    var rest := t[Leading(t, '1')..];
    rest[Run(rest, false)..]
  }

  lemma CutText(s: string)
    ensures s == s[..Run(s, true)] + (Repeat<char>('1', Leading(s[Run(s, true)..], '1')) + CoreOf(s)) + TailOf(s)
    ensures CoreOf(s) != [] ==> CoreOf(s)[0] != '1'
    ensures AllSpace(s[..Run(s, true)])
  {
    hide Leading, Run, AllSpace;
    SpacesInFront(s);
    var a, t := s[..Run(s, true)], s[Run(s, true)..];
    OnesInFront(t);
    var rest := t[Leading(t, '1')..];
    assert s == a + t && rest == CoreOf(s) + TailOf(s);
    Regroup(a, Repeat<char>('1', Leading(t, '1')), CoreOf(s), TailOf(s));
  }

  lemma DecodeValue(s: string, maxRetLen: int)
    requires Decode(s, maxRetLen).Some?
    ensures AllDigits(CoreOf(s)) && AllSpace(TailOf(s)) && Fits(|Decode(s, maxRetLen).value|, maxRetLen)
    ensures Decode(s, maxRetLen).value ==
            Repeat<nat>(0, Leading(s[Run(s, true)..], '1')) + ToDigits(256, Val(58, Digits(CoreOf(s))))
  {
    hide ToDigits, Val, Digits, Leading, Run, AllSpace, AllDigits, Repeat;
  }

  lemma SpacesInFront(s: string)
    ensures AllSpace(s[..Run(s, true)])
  {
    hide IsSpace, Run;
  }

  lemma OnesInFront(t: string)
    ensures t == Repeat<char>('1', Leading(t, '1')) + t[Leading(t, '1')..]
  {
    hide Leading;
  }

  /** The encoding of what a core of digits stands for. */
  lemma EncodeOf(z: nat, core: string)
    requires AllDigits(core) && (core != [] ==> core[0] != '1')
    ensures var x := Repeat<nat>(0, z) + ToDigits(256, Val(58, Digits(core)));
            AllBelow(256, x) && Encode(x) == Repeat<char>('1', z) + core
  {
    hide ToDigits, Val, Text, Digits, Leading, DigitOf, Letter;
    DigitsFacts(core);
    var digits := Digits(core);
    var v := Val(58, digits);
    var bytes := ToDigits(256, v);
    var x := Repeat<nat>(0, z) + bytes;
    ToDigitsVal(256, v);
    if core != [] { NotOne(core[0]); }
    ValToDigits(58, digits);
    if v == 0 { NoDigits(256); }
    LeadingIs(x, 0, z);
    assert x[z..] == bytes;
  }

  /** A decoded text is the encoding of the result between spaces. */
  lemma EncodeDecoded(s: string, maxRetLen: int) returns (a: string, b: string)
    requires Decode(s, maxRetLen).Some?
    ensures var x := Decode(s, maxRetLen).value;
            AllSpace(a) && AllSpace(b) && AllBelow(256, x) && Fits(|x|, maxRetLen) && s == a + Encode(x) + b
  {
    hide *;
    CutText(s);
    DecodeValue(s, maxRetLen);
    a, b := s[..Run(s, true)], TailOf(s);
    EncodeOf(Leading(s[Run(s, true)..], '1'), CoreOf(s));
  }

  lemma NotOne(c: char)
    requires DigitOf(c) >= 0 && c != '1'
    ensures DigitOf(c) > 0
  {
  }

  /**
   Decoding succeeds with `x` exactly when the text is the encoding of `x` between spaces and `x` is
   within the limit.
   */
  lemma DecodeIff(s: string, maxRetLen: int, x: seq<nat>)
    ensures Decode(s, maxRetLen) == Some(x) <==>
            && AllBelow(256, x) && Fits(|x|, maxRetLen)
            && exists a, b :: AllSpace(a) && AllSpace(b) && s == a + Encode(x) + b
  {
    hide Encode, Decode, AllBelow;
    if Decode(s, maxRetLen) == Some(x) {
      var a, b := EncodeDecoded(s, maxRetLen);
      assert AllSpace(a) && AllSpace(b) && s == a + Encode(x) + b;
    }
    if AllBelow(256, x) && Fits(|x|, maxRetLen) && exists a, b :: AllSpace(a) && AllSpace(b) && s == a + Encode(x) + b {
      var a, b :| AllSpace(a) && AllSpace(b) && s == a + Encode(x) + b;
      DecodeEncoded(a, x, b, maxRetLen);
    }
  }

  lemma RoundTrip(x: seq<nat>, maxRetLen: int)
    requires AllBelow(256, x) && |x| <= maxRetLen
    ensures Decode(Encode(x), maxRetLen) == Some(x)
  {
    hide Encode, Decode;
    DecodeEncoded([], x, [], maxRetLen);
    assert [] + Encode(x) + [] == Encode(x);
  }

  // ----- What an encoding stands for -----

  /** One '1' per leading zero byte, then the digits of the same number without a leading zero. */
  lemma EncodeMeans(x: seq<nat>)
    ensures var s, z := Encode(x), Leading(x, 0);
            && z <= |s| && (forall i :: 0 <= i < z ==> s[i] == '1') && (z < |s| ==> s[z] != '1')
            && AllDigits(s[z..]) && Val(58, Digits(s[z..])) == Val(256, x)
  {
    hide ALPHABET, Val, ToDigits, DigitOf;
    var s, z := Encode(x), Leading(x, 0);
    var v := Val(256, x[z..]);
    ToDigitsVal(58, v);
    var digits := ToDigits(58, v);
    var front := Repeat<char>('1', z);
    assert s == front + Text(digits) && s[z..] == Text(digits);
    forall i | 0 <= i < |digits| ensures DigitOf(Text(digits)[i]) == digits[i] {
      LetterDigit(digits[i]);
    }
    assert Digits(s[z..]) == digits;
    assert x == Repeat<nat>(0, z) + x[z..];
    ValLeadingZeros(256, z, x[z..]);
    OneIsZero();
    if v == 0 { NoDigits(58); }
  }

  lemma OneIsZero()
    ensures DigitOf('1') == 0
  {
  }

  /** A known text: the letter "a" behind a zero byte. */
  lemma KnownText()
    ensures Encode([0, 97]) == "12g"
  {
    hide ALPHABET, Leading, Val, ToDigits, Text, Letter;
    var x: seq<nat> := [0, 97];
    LeadingIs(x, 0, 1);
    assert x[1..] == [97];
    KnownDigits();
    ToDigitsVal(58, 97);
    KnownLetters();
    assert Text([1, 39]) == "2g";
    assert Repeat<char>('1', 1) == "1";
  }

  lemma KnownLetters()
    ensures Letter(1) == '2' && Letter(39) == 'g'
  {
  }

  lemma KnownDigits()
    ensures Val(256, [97]) == 97 && ToDigits(58, 97) == [1, 39]
  {
    ValSnoc(256, [], 97);
    assert [] + [97] == [97];
    assert 97 / 58 == 1 && 97 % 58 == 39 && 1 / 58 == 0 && 1 % 58 == 1;
    assert ToDigits(58, 0) == [] && ToDigits(58, 1) == ToDigits(58, 0) + [1];
    assert ToDigits(58, 97) == ToDigits(58, 1) + [39];
  }
}
