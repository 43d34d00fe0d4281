/** `EncodeBase58` and `DecodeBase58` with their digit buffers rewritten in place (`src/base58.cpp:40-135`). */
module Base58Codecs {
  import opened Basics
  import opened Positional
  import opened Base58s

  /** The last `length` digits are the canonical ones, and the others are zero. */
  ghost predicate Canonical(b: nat, digits: seq<nat>, length: nat) {
    && length <= |digits|
    && AllBelow(b, digits)
    && (forall i :: 0 <= i < |digits| - length ==> digits[i] == 0)
    && (length > 0 ==> digits[|digits| - length] > 0)
  }

  lemma CanonicalDigits(b: nat, digits: seq<nat>, length: nat)
    requires b > 1 && Canonical(b, digits, length)
    ensures digits[|digits| - length..] == ToDigits(b, Val(b, digits))
  {
    hide ToDigits, Val;
    var k := |digits| - length;
    assert digits == Repeat<nat>(0, k) + digits[k..];
    ValLeadingZeros(b, k, digits[k..]);
    ValToDigits(b, digits[k..]);
  }

  // ----- Multiply and add in place -----

  /** The digits below position `i` from the back are done; `carry` is what is left to add there. */
  ghost predicate Carrying(b: nat, before: seq<nat>, digits: seq<nat>, mult: nat, add: nat, i: nat, carry: nat) {
    && |digits| == |before| && i <= |digits|
    && AllBelow(b, digits)
    && digits[..|digits| - i] == before[..|digits| - i]
    && Val(b, digits[|digits| - i..]) + carry * Pow(b, i) == mult * Val(b, before[|digits| - i..]) + add
  }

  lemma CarryStart(b: nat, digits: seq<nat>, mult: nat, add: nat, length: nat)
    requires Canonical(b, digits, length)
    ensures Carrying(b, digits, digits, mult, add, 0, add)
  {
    assert digits[|digits|..] == [];
    assert mult * 0 == 0 && Pow(b, 0) == 1;
  }

  lemma ValOne(b: nat, d: nat)
    ensures Val(b, [d]) == d
  {
    ValSnoc(b, [], d);
    assert [] + [d] == [d];
    assert Val(b, []) * b == 0;
  }

  lemma ValCons(b: nat, d: nat, rest: seq<nat>)
    ensures Val(b, [d] + rest) == d * Pow(b, |rest|) + Val(b, rest)
  {
    ValConcat(b, [d], rest);
    ValOne(b, d);
    hide Val, Pow;
  }

  lemma CarryArithmetic(low: nat, carry: nat, p: nat, mult: nat, lowBefore: nat, add: nat, d: nat, b: nat, q: nat,
                        r: nat)
    requires low + carry * p == mult * lowBefore + add && carry + mult * d == q * b + r
    ensures (r * p + low) + q * (b * p) == mult * (d * p + lowBefore) + add
  {
    assert q * (b * p) + r * p == (q * b + r) * p;
    assert (carry + mult * d) * p == carry * p + mult * d * p;
    assert mult * (d * p + lowBefore) == mult * d * p + mult * lowBefore;
  }

  lemma CarryStep(b: nat, before: seq<nat>, digits: seq<nat>, mult: nat, add: nat, i: nat, carry: nat, q: nat, r: nat)
    requires Carrying(b, before, digits, mult, add, i, carry) && i < |digits|
    requires r < b && carry + mult * digits[|digits| - 1 - i] == q * b + r
    ensures Carrying(b, before, digits[|digits| - 1 - i := r], mult, add, i + 1, q)
  {
    hide Val;
    var k := |digits| - 1 - i;
    var d, digits' := digits[k], digits[k := r];
    assert d == digits[..k + 1][k] == before[..k + 1][k] == before[k];
    assert digits'[..k] == digits[..k + 1][..k] == before[..k];
    assert digits'[k..] == [r] + digits[k + 1..];
    assert before[k..] == [d] + before[k + 1..];
    ValCons(b, r, digits[k + 1..]);
    ValCons(b, d, before[k + 1..]);
    CarryArithmetic(Val(b, digits[k + 1..]), carry, Pow(b, i), mult, Val(b, before[k + 1..]), add, d, b, q, r);
  }

  lemma CarryEnd(b: nat, before: seq<nat>, digits: seq<nat>, mult: nat, add: nat, i: nat, length: nat)
    requires Carrying(b, before, digits, mult, add, i, 0) && Canonical(b, before, length) && length <= i
    ensures Val(b, digits) == mult * Val(b, before) + add
  {
    hide Val;
    var k := |digits| - i;
    assert forall j :: 0 <= j < k ==> digits[j] == digits[..k][j] == before[..k][j] == 0;
    assert digits == Repeat<nat>(0, k) + digits[k..];
    assert before == Repeat<nat>(0, k) + before[k..];
    ValLeadingZeros(b, k, digits[k..]);
    ValLeadingZeros(b, k, before[k..]);
    assert 0 * Pow(b, i) == 0;
  }

  /** When the buffer is exhausted the number still fits, so nothing is left to carry. */
  lemma NoCarryLeft(b: nat, before: seq<nat>, digits: seq<nat>, mult: nat, add: nat, carry: nat)
    requires Carrying(b, before, digits, mult, add, |digits|, carry)
    requires mult * Val(b, before) + add < Pow(b, |digits|)
    ensures carry == 0
  {
    assert digits[0..] == digits && before[0..] == before;
    AtLeastOnce(carry, Pow(b, |digits|));
  }

  lemma AtLeastOnce(k: nat, p: nat)
    ensures k > 0 ==> k * p >= p
  {
    if k > 0 { Scale(p, 1, k); }
  }

  lemma LeadingAtLeast(b: nat, digits: seq<nat>, length: nat)
    requires Canonical(b, digits, length) && length > 0
    ensures Val(b, digits) >= Pow(b, length - 1)
  {
    hide Val, Pow;
    var k := |digits| - length;
    assert digits == Repeat<nat>(0, k) + digits[k..];
    ValLeadingZeros(b, k, digits[k..]);
    assert digits[k..] == [digits[k]] + digits[k + 1..];
    ValCons(b, digits[k], digits[k + 1..]);
    Scale(Pow(b, length - 1), 1, digits[k]);
  }

  lemma ZerosBound(b: nat, digits: seq<nat>, k: nat)
    requires AllBelow(b, digits) && k <= |digits| && forall i :: 0 <= i < k ==> digits[i] == 0
    ensures Val(b, digits) < Pow(b, |digits| - k)
  {
    hide Val, Pow;
    assert digits == Repeat<nat>(0, k) + digits[k..];
    ValLeadingZeros(b, k, digits[k..]);
    ValBound(b, digits[k..]);
  }

  /** A number that did not shrink still has a leading digit. */
  lemma StillLeading(b: nat, before: seq<nat>, digits: seq<nat>, length: nat)
    requires b > 1 && Canonical(b, before, length) && length > 0 && |digits| == |before| && AllBelow(b, digits)
    requires forall i :: 0 <= i < |digits| - length ==> digits[i] == 0
    requires Val(b, digits) >= Val(b, before)
    ensures digits[|digits| - length] > 0
  {
    hide Val, Pow;
    LeadingAtLeast(b, before, length);
    if digits[|digits| - length] == 0 {
      ZerosBound(b, digits, |digits| - length + 1);
    }
  }

  /** digits := digits * mult + add, in place; the return value is the number of digits then used. */
  method MultiplyAdd(b: nat, digits: array<nat>, mult: nat, add: nat, length: nat) returns (length': nat)
    requires b > 1 && mult >= 1 && Canonical(b, digits[..], length)
    requires mult * Val(b, digits[..]) + add < Pow(b, digits.Length)
    modifies digits
    ensures Val(b, digits[..]) == mult * old(Val(b, digits[..])) + add
    ensures Canonical(b, digits[..], length')
  {
    hide *;
    ghost var before := digits[..];
    var carry, i := add, 0;
    var n := digits.Length;
    CarryStart(b, before, mult, add, length);
    while (carry != 0 || i < length) && i < n
      invariant 0 <= i <= n && carry >= 0
      invariant Carrying(b, before, digits[..], mult, add, i, carry)
      invariant i > length ==> carry > 0 || digits[n - i] > 0
      decreases n - i
    {
      ghost var now, was := digits[..], carry;
      carry := carry + mult * digits[n - 1 - i];
      NonNegative(mult, now[n - 1 - i]);
      ghost var q, r := DivideSplit(b, carry);
      CarryStep(b, before, now, mult, add, i, was, q, r);
      digits[n - 1 - i] := carry % b;
      assert digits[..] == now[n - 1 - i := r];
      carry := carry / b;
      i := i + 1;
    }
    if i == n {
      NoCarryLeft(b, before, digits[..], mult, add, carry);
    }
    assert carry == 0;
    length' := i;
    CanonicalLength(b, before, length);
    CarryEnd(b, before, digits[..], mult, add, i, length);
    Finish(b, before, digits[..], mult, add, length, i);
  }

  lemma CanonicalLength(b: nat, digits: seq<nat>, length: nat)
    requires Canonical(b, digits, length)
    ensures length <= |digits|
  {
  }

  lemma DivideSplit(b: nat, v: nat) returns (q: nat, r: nat)
    requires b > 1
    ensures q == v / b && r == v % b && r < b && v == q * b + r && (v > 0 ==> q > 0 || r > 0)
  {
    QuotientBelow(b, v);
    q, r := v / b, v % b;
    assert v == b * q + r;
    assert q == 0 ==> q * b == 0;
  }

  lemma {:induction false} Finish(b: nat, before: seq<nat>, digits: seq<nat>, mult: nat, add: nat, length: nat, i: nat)
    requires b > 1 && mult >= 1 && Canonical(b, before, length) && length <= i
    requires Carrying(b, before, digits, mult, add, i, 0) && Val(b, digits) == mult * Val(b, before) + add
    requires i > length ==> digits[|digits| - i] > 0
    ensures Canonical(b, digits, i)
  {
    hide Val;
    var k := |digits| - i;
    assert forall j :: 0 <= j < k ==> digits[j] == digits[..k][j] == before[..k][j];
    Scale(Val(b, before), 1, mult);
    if i == length && length > 0 {
      StillLeading(b, before, digits, length);
    }
  }

  // ----- Encoding -----

  /** The next digit of a longer prefix. */
  lemma NextPrefix(b: nat, digits: seq<nat>, k: nat, room: nat)
    requires b > 0 && k < |digits| && AllBelow(b, digits) && Pow(b, |digits|) < room
    ensures Val(b, digits[..k + 1]) == b * Val(b, digits[..k]) + digits[k] < room
  {
    hide Pow, Val;
    assert digits[..k + 1] == digits[..k] + [digits[k]];
    ValSnoc(b, digits[..k], digits[k]);
    ValBound(b, digits[..k + 1]);
    PowGrows(b, k + 1, |digits|);
  }

  lemma ZeroDigits(b: nat, n: nat)
    requires b > 0
    ensures Canonical(b, Repeat<nat>(0, n), 0) && Val(b, Repeat<nat>(0, n)) == 0 && Val(b, []) == 0
  {
    ValZeros(b, n);
  }

  /** A buffer of `n` zero digits. */
  method Zeroed(n: nat, ghost b: nat) returns (digits: array<nat>)
    requires b > 0
    ensures fresh(digits) && digits.Length == n && Canonical(b, digits[..], 0) && Val(b, digits[..]) == 0
  {
    digits := new nat[n](_ => 0);
    assert digits[..] == Repeat<nat>(0, n);
    ZeroDigits(b, n);
  }

  method EncodeBase58(input: seq<nat>) returns (str: string)
    requires AllBelow(256, input)
    ensures str == Encode(input)
  {
    hide *;
    var zeroes := 0;
    LeadingBounds(input, 0);
    while zeroes < |input| && input[zeroes] == 0
      invariant 0 <= zeroes <= |input|
      invariant forall i :: 0 <= i < zeroes ==> input[i] == 0
    {
      zeroes := zeroes + 1;
    }
    LeadingIs(input, 0, zeroes);
    var rest := input[zeroes..];
    RestBelow(256, input, zeroes);
    var size := |rest| * 138 / 100 + 1;
    var b58 := Zeroed(size, 58);
    var length := 0;
    ValNothing(256);
    Base58Room(|rest|);
    for k := 0 to |rest|
      invariant b58.Length == size && Canonical(58, b58[..], length) && Val(58, b58[..]) == Val(256, rest[..k])
    {
      NextPrefix(256, rest, k, Pow(58, size));
      length := MultiplyAdd(58, b58, 256, rest[k], length);
    }
    assert rest[..|rest|] == rest;
    CanonicalDigits(58, b58[..], length);
    CanonicalLength(58, b58[..], length);
    str := WriteText(zeroes, b58, size - length, Val(256, rest));
    EncodeIs(input, zeroes);
  }

  lemma LeadingBounds(input: seq<nat>, x: nat)
    ensures Leading(input, x) <= |input|
  {
  }

  lemma RestBelow(b: nat, digits: seq<nat>, k: nat)
    requires AllBelow(b, digits) && k <= |digits|
    ensures AllBelow(b, digits[k..])
  {
  }

  lemma ValNothing(b: nat)
    ensures Val(b, []) == 0
  {
  }

  lemma EncodeIs(x: seq<nat>, z: nat)
    requires z == Leading(x, 0)
    ensures AllBelow(58, ToDigits(58, Val(256, x[z..])))
    ensures Encode(x) == Repeat<char>('1', z) + Text(ToDigits(58, Val(256, x[z..])))
  {
    hide Val, ToDigits, Text;
    ToDigitsVal(58, Val(256, x[z..]));
  }

  method SkipZeros(digits: array<nat>, start: nat) returns (it: nat)
    requires start <= digits.Length
    ensures start <= it <= digits.Length && (it < digits.Length ==> digits[it] != 0)
    ensures forall k :: start <= k < it ==> digits[k] == 0
  {
    it := start;
    while it != digits.Length && digits[it] == 0
      invariant start <= it <= digits.Length
      invariant forall k :: start <= k < it ==> digits[k] == 0
    {
      it := it + 1;
    }
  }

  /** Canonical digits have no zero in front. */
  lemma NothingSkipped(digits: seq<nat>, start: nat, it: nat, v: nat)
    requires start <= it <= |digits| && digits[start..] == ToDigits(58, v)
    requires forall k :: start <= k < it ==> digits[k] == 0
    ensures it == start
  {
    hide ToDigits, Val;
    ToDigitsVal(58, v);
    if v == 0 { NoDigits(58); }
    assert start < |digits| ==> digits[start] == digits[start..][0];
  }

  /** The text of the digits of `v`, which start at `start`. */
  method WriteText(zeroes: nat, digits: array<nat>, start: nat, ghost v: nat) returns (str: string)
    requires start <= digits.Length && digits[start..] == ToDigits(58, v)
    ensures AllBelow(58, ToDigits(58, v)) && str == Repeat<char>('1', zeroes) + Text(ToDigits(58, v))
  {
    hide ToDigits, Letter, Val, Text;
    ToDigitsVal(58, v);
    ghost var ds := ToDigits(58, v);
    var it := SkipZeros(digits, start);
    NothingSkipped(digits[..], start, it, v);
    str := Repeat<char>('1', zeroes);
    while it != digits.Length
      invariant start <= it <= digits.Length
      invariant str == Repeat<char>('1', zeroes) + Text(ds)[..it - start]
    {
      assert digits[it] == digits[start..][it - start] == ds[it - start];
      str := str + [Letter(digits[it])];
      it := it + 1;
    }
    assert Text(ds)[..|ds|] == Text(ds);
  }

  // ----- Decoding -----

  /** `a` spaces in front, and something else after them. */
  ghost predicate SpacesFirst(s: string, a: nat) {
    a <= |s| && AllSpace(s[..a]) && (a < |s| ==> !IsSpace(s[a]))
  }

  /** Then `z` ones; then `k` characters that are not spaces. */
  ghost predicate Scanned(s: string, a: nat, z: nat, k: nat) {
    && SpacesFirst(s, a) && a + z + k <= |s|
    && (forall i :: a <= i < a + z ==> s[i] == '1')
    && (forall i :: a + z <= i < a + z + k ==> !IsSpace(s[i]))
  }

  ghost predicate Parts(s: string, a: nat, z: nat, n: nat) {
    && Scanned(s, a, z, n)
    && (a + z < |s| ==> s[a + z] != '1')
    && (a + z + n < |s| ==> IsSpace(s[a + z + n]))
  }

  lemma PartsDecode(s: string, a: nat, z: nat, n: nat, maxRetLen: int)
    requires Parts(s, a, z, n)
    ensures var core, tail := s[a + z..a + z + n], s[a + z + n..];
            Decode(s, maxRetLen) ==
              if AllDigits(core) && AllSpace(tail) && Fits(z + |ToDigits(256, Val(58, Digits(core)))|, maxRetLen)
              then Some(Repeat<nat>(0, z) + ToDigits(256, Val(58, Digits(core)))) else None
  {
    hide ToDigits, Val, Digits, Leading, Run, AllSpace, AllDigits, Parts;
    PartsRuns(s, a, z, n);
    var t := s[a..];
    var rest := t[z..];
    assert rest == s[a + z..];
    assert rest[..n] == s[a + z..a + z + n] && rest[n..] == s[a + z + n..];
  }

  lemma PartsRuns(s: string, a: nat, z: nat, n: nat)
    requires Parts(s, a, z, n)
    ensures a + z + n <= |s| && Run(s, true) == a && Leading(s[a..], '1') == z && Run(s[a + z..], false) == n
  {
    hide Leading, Run, IsSpace;
    assert forall i :: 0 <= i < a ==> s[i] == s[..a][i];
    RunIs(s, true, a);
    LeadingIs(s[a..], '1', z);
    RunIs(s[a + z..], false, n);
  }

  /** Every text is cut in one way, and what has been scanned is a part of it. */
  lemma AllParts(s: string, a: nat, z: nat) returns (z': nat, n: nat)
    requires Scanned(s, a, z, 0)
    ensures z <= z' && Parts(s, a, z', n)
  {
    hide IsSpace, Leading, Run;
    var t := s[a..];
    z' := Leading(t, '1');
    forall i | 0 <= i < z ensures t[i] == '1' { assert t[i] == s[a + i]; }
    var rest := t[z'..];
    n := Run(rest, false);
    forall i | a <= i < a + z' ensures s[i] == '1' { assert s[i] == t[i - a]; }
    forall i | a + z' <= i < a + z' + n ensures !IsSpace(s[i]) { assert s[i] == rest[i - a - z']; }
    assert a + z' < |s| ==> s[a + z'] == t[z'];
    assert a + z' + n < |s| ==> s[a + z' + n] == rest[n];
  }

  lemma TooManyOnes(s: string, a: nat, z: nat, maxRetLen: int)
    requires Scanned(s, a, z, 0) && z > 0 && z > maxRetLen
    ensures Decode(s, maxRetLen) == None
  {
    hide Decode, ToDigits, Val, Digits, Parts, Scanned, AllDigits, AllSpace;
    var z', n := AllParts(s, a, z);
    PartsBounds(s, a, z', n);
    PartsDecode(s, a, z', n, maxRetLen);
  }

  lemma PartsBounds(s: string, a: nat, z: nat, n: nat)
    requires Parts(s, a, z, n)
    ensures a + z + n <= |s|
  {
  }

  /** All ones have been scanned, so the core starts here; `k` characters of it are digits. */
  ghost predicate InCore(s: string, a: nat, z: nat, k: nat) {
    && Scanned(s, a, z, k)
    && (a + z < |s| ==> s[a + z] != '1')
    && AllDigits(s[a + z..a + z + k])
  }

  lemma CoreParts(s: string, a: nat, z: nat, k: nat) returns (n: nat)
    requires InCore(s, a, z, k)
    ensures k <= n && Parts(s, a, z, n) && (a + z + k < |s| && !IsSpace(s[a + z + k]) ==> k < n)
  {
    hide IsSpace, DigitOf, Run;
    var rest := s[a + z + k..];
    var m := Run(rest, false);
    n := k + m;
    forall i | a + z <= i < a + z + n ensures !IsSpace(s[i]) { assert i >= a + z + k ==> s[i] == rest[i - a - z - k]; }
    assert a + z + n < |s| ==> s[a + z + n] == rest[m];
    assert a + z + k < |s| ==> s[a + z + k] == rest[0];
  }

  lemma BadDigit(s: string, a: nat, z: nat, k: nat, maxRetLen: int)
    requires InCore(s, a, z, k) && a + z + k < |s| && !IsSpace(s[a + z + k]) && DigitOf(s[a + z + k]) < 0
    ensures Decode(s, maxRetLen) == None
  {
    hide Decode, ToDigits, Val, Digits, IsSpace, DigitOf;
    var n := CoreParts(s, a, z, k);
    PartsDecode(s, a, z, n, maxRetLen);
    assert s[a + z..a + z + n][k] == s[a + z + k];
  }

  lemma {:induction false} ToDigitsGrows(b: nat, v: nat, w: nat)
    requires b > 1 && v <= w
    ensures |ToDigits(b, v)| <= |ToDigits(b, w)|
    decreases v
  {
    hide ToDigits;
    if v == 0 {
      NoDigits(b);
    } else {
      var q, r := SplitLast(b, v);
      var q', r' := SplitLast(b, w);
      QuotientOrder(b, q, r, q', r');
      ToDigitsGrows(b, q, q');
    }
  }

  lemma QuotientOrder(b: nat, q: nat, r: nat, q': nat, r': nat)
    requires q * b + r <= q' * b + r' && r' < b
    ensures q <= q'
  {
    if q > q' {
      Scale(b, q' + 1, q);
    }
  }

  lemma {:induction false} ValPrefix(b: nat, digits: seq<nat>, k: nat)
    requires b > 0 && k <= |digits|
    ensures Val(b, digits[..k]) <= Val(b, digits)
  {
    hide Val;
    assert digits == digits[..k] + digits[k..];
    ValConcat(b, digits[..k], digits[k..]);
    Scale(Val(b, digits[..k]), 1, Pow(b, |digits| - k));
  }

  lemma TooLong(s: string, a: nat, z: nat, k: nat, maxRetLen: int)
    requires InCore(s, a, z, k)
    requires var length := |ToDigits(256, Val(58, Digits(s[a + z..a + z + k])))|;
             z + length > maxRetLen && z + length > 0
    ensures Decode(s, maxRetLen) == None
  {
    hide Decode, ToDigits, Val, IsSpace, DigitOf;
    var n := CoreParts(s, a, z, k);
    PartsDecode(s, a, z, n, maxRetLen);
    var core := s[a + z..a + z + n];
    if AllDigits(core) {
      assert core[..k] == s[a + z..a + z + k];
      assert Digits(core)[..k] == Digits(s[a + z..a + z + k]);
      ValPrefix(58, Digits(core), k);
      ToDigitsGrows(256, Val(58, Digits(core)[..k]), Val(58, Digits(core)));
    }
  }

  lemma CoreStep(s: string, a: nat, z: nat, k: nat)
    requires InCore(s, a, z, k) && a + z + k < |s| && !IsSpace(s[a + z + k]) && DigitOf(s[a + z + k]) >= 0
    ensures InCore(s, a, z, k + 1) &&
            Digits(s[a + z..a + z + k + 1]) == Digits(s[a + z..a + z + k]) + [DigitOf(s[a + z + k])]
    ensures Val(58, Digits(s[a + z..a + z + k + 1])) ==
            58 * Val(58, Digits(s[a + z..a + z + k])) + DigitOf(s[a + z + k])
    ensures Val(58, Digits(s[a + z..a + z + k + 1])) < Pow(58, k + 1)
  {
    hide Val, IsSpace, DigitOf, Pow;
    var core, c := s[a + z..a + z + k], s[a + z + k];
    assert s[a + z..a + z + k + 1] == core + [c];
    assert AllDigits(core + [c]);
    assert Digits(core + [c]) == Digits(core) + [DigitOf(c)];
    ValSnoc(58, Digits(core), DigitOf(c));
    DigitsFacts(core + [c]);
    ValBound(58, Digits(core + [c]));
  }

  lemma CoreEnd(s: string, a: nat, z: nat, k: nat, maxRetLen: int)
    requires InCore(s, a, z, k) && (a + z + k < |s| ==> IsSpace(s[a + z + k]))
    requires Fits(z + |ToDigits(256, Val(58, Digits(s[a + z..a + z + k])))|, maxRetLen)
    ensures Decode(s, maxRetLen) ==
              if AllSpace(s[a + z + k..]) then
                Some(Repeat<nat>(0, z) + ToDigits(256, Val(58, Digits(s[a + z..a + z + k]))))
              else
                None
  {
    hide Decode, ToDigits, Val, Digits, IsSpace, DigitOf;
    PartsDecode(s, a, z, k, maxRetLen);
  }

  lemma CoreBounds(s: string, a: nat, z: nat, k: nat)
    requires InCore(s, a, z, k)
    ensures a + z + k <= |s| && AllDigits(s[a + z..a + z + k])
  {
  }

  lemma CoreNothing(s: string, start: nat)
    requires start <= |s|
    ensures AllDigits(s[start..start]) && Val(58, Digits(s[start..start])) == 0
  {
  }

  lemma DigitRange(c: char)
    ensures -1 <= DigitOf(c) < 58
  {
  }

  /** The core does not start with a zero digit. */
  lemma CorePositive(s: string, a: nat, z: nat, k: nat)
    requires InCore(s, a, z, k) && k > 0
    ensures AllDigits(s[a + z..a + z + k]) && Val(58, Digits(s[a + z..a + z + k])) > 0
  {
    hide Val, IsSpace, DigitOf;
    var core := s[a + z..a + z + k];
    assert core[0] == s[a + z];
    NotOne(core[0]);
    ValPositive(58, Digits(core));
  }

  lemma LengthPositive(b: nat, digits: seq<nat>, length: nat)
    requires Canonical(b, digits, length) && Val(b, digits) > 0
    ensures length > 0
  {
    hide Val;
    if length == 0 {
      ZerosBound(b, digits, |digits|);
    }
  }

  lemma FitsWithin(n: nat, maxRetLen: int)
    requires n <= maxRetLen
    ensures Fits(n, maxRetLen)
  {
  }

  method SkipSpaces(s: string, start: nat) returns (p: nat)
    requires start <= |s|
    ensures start <= p <= |s| && AllSpace(s[start..p]) && (p < |s| ==> !IsSpace(s[p]))
  {
    hide IsSpace;
    p := start;
    while p < |s| && IsSpace(s[p])
      invariant start <= p <= |s|
      invariant forall i :: start <= i < p ==> IsSpace(s[i])
    {
      p := p + 1;
    }
  }

  method SkipOnes(s: string, start: nat, maxRetLen: int) returns (zeroes: nat, ok: bool)
    requires SpacesFirst(s, start)
    ensures ok ==> InCore(s, start, zeroes, 0) && Fits(zeroes, maxRetLen)
    ensures !ok ==> Decode(s, maxRetLen) == None
  {
    hide Decode, IsSpace, DigitOf;
    zeroes := 0;
    var p := start;
    while p < |s| && s[p] == '1'
      invariant p == start + zeroes && Scanned(s, start, zeroes, 0) && Fits(zeroes, maxRetLen)
    {
      zeroes := zeroes + 1;
      if zeroes > maxRetLen {
        TooManyOnes(s, start, zeroes, maxRetLen);
        return zeroes, false;
      }
      p := p + 1;
    }
    ok := true;
  }

  /** Read the digits of the core into a fresh buffer. */
  method ReadCore(s: string, a: nat, zeroes: nat, maxRetLen: int)
    returns (ok: bool, k: nat, b256: array<nat>, length: nat)
    requires InCore(s, a, zeroes, 0) && Fits(zeroes, maxRetLen)
    ensures !ok ==> Decode(s, maxRetLen) == None
    ensures ok ==> InCore(s, a, zeroes, k) && (a + zeroes + k < |s| ==> IsSpace(s[a + zeroes + k]))
    ensures ok ==>
              Canonical(256, b256[..], length) && Val(256, b256[..]) == Val(58, Digits(s[a + zeroes..a + zeroes + k]))
    ensures ok ==> Fits(zeroes + length, maxRetLen)
  {
    hide *;
    CoreBounds(s, a, zeroes, 0);
    var start := a + zeroes;
    var size := (|s| - start) * 733 / 1000 + 1;
    b256 := Zeroed(size, 256);
    length, k := 0, 0;
    CoreNothing(s, start);
    Base256Room(|s| - start);
    while start + k < |s| && !IsSpace(s[start + k])
      invariant start + k <= |s| && InCore(s, a, zeroes, k) && b256.Length == size
      invariant AllDigits(s[start..start + k])
      invariant Canonical(256, b256[..], length) && Val(256, b256[..]) == Val(58, Digits(s[start..start + k]))
      invariant Fits(zeroes + length, maxRetLen)
      decreases |s| - k
    {
      var carry := DigitOf(s[start + k]);
      DigitRange(s[start + k]);
      if carry == -1 {
        BadDigit(s, a, zeroes, k, maxRetLen);
        return false, k, b256, length;
      }
      CoreStep(s, a, zeroes, k);
      PowGrows(58, k + 1, |s| - start);
      length := MultiplyAdd(256, b256, 58, carry, length);
      CoreBounds(s, a, zeroes, k + 1);
      k := k + 1;
      if length + zeroes > maxRetLen {
        CanonicalDigits(256, b256[..], length);
        CanonicalLength(256, b256[..], length);
        CorePositive(s, a, zeroes, k);
        LengthPositive(256, b256[..], length);
        TooLong(s, a, zeroes, k, maxRetLen);
        return false, k, b256, length;
      }
      FitsWithin(zeroes + length, maxRetLen);
    }
    ok := true;
  }

  method DecodeCString(s: string, maxRetLen: int) returns (r: Option<seq<nat>>)
    ensures r == Decode(s, maxRetLen)
  {
    hide *;
    var a := SkipSpaces(s, 0);
    StartScan(s, a);
    var zeroes, few := SkipOnes(s, a, maxRetLen);
    if !few {
      return None;
    }
    var ok, k, b256, length := ReadCore(s, a, zeroes, maxRetLen);
    if !ok {
      return None;
    }
    CoreBounds(s, a, zeroes, k);
    CanonicalDigits(256, b256[..], length);
    CanonicalLength(256, b256[..], length);
    CoreEnd(s, a, zeroes, k, maxRetLen);
    var p := SkipSpaces(s, a + zeroes + k);
    RestSpaces(s, a + zeroes + k, p);
    if p < |s| {
      return None;
    }
    var vch: seq<nat> := Repeat<nat>(0, zeroes);
    for it := b256.Length - length to b256.Length
      invariant vch == Repeat<nat>(0, zeroes) + b256[b256.Length - length..it]
    {
      vch := vch + [b256[it]];
    }
    assert b256[b256.Length - length..b256.Length] == b256[b256.Length - length..];
    return Some(vch);
  }

  lemma StartScan(s: string, a: nat)
    requires a <= |s| && AllSpace(s[0..a]) && (a < |s| ==> !IsSpace(s[a]))
    ensures SpacesFirst(s, a)
  {
    assert s[0..a] == s[..a];
  }

  lemma RestSpaces(s: string, start: nat, p: nat)
    requires start <= p <= |s| && AllSpace(s[start..p]) && (p < |s| ==> !IsSpace(s[p]))
    ensures AllSpace(s[start..]) <==> p == |s|
  {
    hide IsSpace;
    assert p < |s| ==> s[start..][p - start] == s[p];
    assert p == |s| ==> s[start..p] == s[start..];
  }

  method ContainsNoNUL(s: string) returns (clean: bool)
    ensures clean <==> '\0' !in s
  {
    for i := 0 to |s|
      invariant '\0' !in s[..i]
    {
      if s[i] == '\0' {
        return false;
      }
    }
    return true;
  }

  method DecodeBase58(s: string, maxRetLen: int) returns (r: Option<seq<nat>>)
    ensures r == Decode(s, maxRetLen)
  {
    var clean := ContainsNoNUL(s);
    if !clean {
      NulUndecodable(s, maxRetLen);
      return None;
    }
    r := DecodeCString(s, maxRetLen);
  }

  lemma NulUndecodable(s: string, maxRetLen: int)
    requires '\0' in s
    ensures Decode(s, maxRetLen) == None
  {
    hide Decode, Encode;
    if Decode(s, maxRetLen) != None {
      var x := Decode(s, maxRetLen).value;
      var a, b := EncodeDecoded(s, maxRetLen);
      NoNul(a, x, b);
    }
  }

  lemma NoNul(a: string, x: seq<nat>, b: string)
    requires AllSpace(a) && AllSpace(b) && AllBelow(256, x)
    ensures '\0' !in a + Encode(x) + b
  {
    hide Encode, ToDigits, Val, Text;
    var z, digits := EncodeDigits(x);
    TextFacts(digits);
  }

  // ----- With a checksum -----

  const INT_MAX := 0x7FFF_FFFF

  /** The first four bytes of a hash; `Hash` gives 32 bytes. */
  ghost predicate IsHash(hash: seq<nat> -> seq<nat>) {
    forall x :: |hash(x)| == 32 && AllBelow(256, hash(x))
  }

  function Limit(maxRetLen: int): int {
    if maxRetLen > INT_MAX - 4 then INT_MAX else maxRetLen + 4
  }

  method EncodeBase58Check(hash: seq<nat> -> seq<nat>, input: seq<nat>) returns (str: string)
    requires IsHash(hash) && AllBelow(256, input)
    ensures str == Encode(input + hash(input)[..4])
  {
    var vch := input;
    var h := hash(vch);
    vch := vch + h[..4];
    str := EncodeBase58(vch);
  }

  /** Succeeds exactly with the input of a checked encoding, between spaces and within the limit. */
  method DecodeBase58Check(hash: seq<nat> -> seq<nat>, s: string, maxRetLen: int) returns (r: Option<seq<nat>>)
    requires IsHash(hash)
    ensures r.Some? ==> Decode(s, Limit(maxRetLen)) == Some(r.value + hash(r.value)[..4]) && AllBelow(256, r.value)
    ensures r.None? ==> forall x :: Decode(s, Limit(maxRetLen)) != Some(x + hash(x)[..4])
  {
    hide Decode;
    var decoded := DecodeBase58(s, Limit(maxRetLen));
    if decoded.None? || |decoded.value| < 4 {
      return None;
    }
    var vch := decoded.value;
    var n := |vch| - 4;
    var h := hash(vch[..n]);
    if h[..4] != vch[n..] {
      forall x ensures vch != x + hash(x)[..4] {
        var y := x + hash(x)[..4];
        assert y[..|x|] == x && y[|x|..] == hash(x)[..4];
      }
      return None;
    }
    assert vch == vch[..n] + h[..4];
    ghost var a, b := EncodeDecoded(s, Limit(maxRetLen));
    return Some(vch[..n]);
  }

  lemma CheckRoundTrip(hash: seq<nat> -> seq<nat>, s: string, maxRetLen: int, x: seq<nat>)
    requires IsHash(hash)
    ensures Decode(s, Limit(maxRetLen)) == Some(x + hash(x)[..4]) <==>
            && AllBelow(256, x) && |x| + 4 <= Limit(maxRetLen)
            && exists a, b :: AllSpace(a) && AllSpace(b) && s == a + Encode(x + hash(x)[..4]) + b
  {
    hide Decode, Encode, IsSpace, Limit;
    var y := x + hash(x)[..4];
    DecodeIff(s, Limit(maxRetLen), y);
    assert y[..|x|] == x;
    BelowConcat(256, x, hash(x)[..4]);
  }

  lemma BelowConcat(b: nat, x: seq<nat>, y: seq<nat>)
    ensures AllBelow(b, x + y) <==> AllBelow(b, x) && AllBelow(b, y)
  {
    assert forall i :: 0 <= i < |x| ==> x[i] == (x + y)[i];
    assert forall i :: 0 <= i < |y| ==> y[i] == (x + y)[|x| + i];
  }
}
