/** The loops of `src/bech32.cpp:130-216` and `281-400`, each computing what the text and its checksum mean. */
module Bech32Codecs {
  import opened Bech32Polys
  import opened Bech32s

  lemma SumSwap(a: bv32, b: bv32, c: bv32)
    ensures Sum(Sum(a, b), c) == Sum(Sum(a, c), b)
  {
    hide Sum;
    SumFacts(a, b, c, 0);
    SumZero(b);
    SumZero(c);
  }

  /** Add a multiple of the generator if the bit of the leading coefficient is set. */
  method AddTerm(c: bv32, c0: bv32, bit: bv32, g: bv32) returns (c': bv32)
    ensures c' == Sum(c, Term(c0, bit, g))
  {
    hide Sum, Has;
    SumZero(c);
    c' := c;
    if Has(c0, bit) {
      c' := Sum(c, g);
    }
  }

  /** One round of the loop: move up, add the value, then reduce the leading coefficient. */
  method Advance(c0: bv32, v: bv8) returns (c: bv32)
    ensures c == Sum(Next(c0), Wide(v))
  {
    hide Sum, Shift, Term, Wide;
    ghost var w, s0 := Wide(v), Shift(c0);
    c := Sum(Shift(c0), Wide(v));
    c := AddTerm(c, c0, 1, 0x3b6a57b2);
    ghost var s1 := Sum(s0, Term(c0, 1, 0x3b6a57b2));
    SumSwap(s0, w, Term(c0, 1, 0x3b6a57b2));
    c := AddTerm(c, c0, 2, 0x26508e6d);
    ghost var s2 := Sum(s1, Term(c0, 2, 0x26508e6d));
    SumSwap(s1, w, Term(c0, 2, 0x26508e6d));
    c := AddTerm(c, c0, 4, 0x1ea119fa);
    ghost var s3 := Sum(s2, Term(c0, 4, 0x1ea119fa));
    SumSwap(s2, w, Term(c0, 4, 0x1ea119fa));
    c := AddTerm(c, c0, 8, 0x3d4233dd);
    ghost var s4 := Sum(s3, Term(c0, 8, 0x3d4233dd));
    SumSwap(s3, w, Term(c0, 8, 0x3d4233dd));
    c := AddTerm(c, c0, 16, 0x2a1462b3);
    SumSwap(s4, w, Term(c0, 16, 0x2a1462b3));
  }

  lemma SumZero(c: bv32)
    ensures Sum(c, 0) == c
  {
  }

  method ComputePolyMod(v: seq<bv8>) returns (c: bv32)
    ensures c == PolyMod(v)
  {
    hide Sum, Next, Wide;
    c := 1;
    for i := 0 to |v|
      invariant c == Run(1, v[..i])
    {
      assert v[..i + 1] == v[..i] + [v[i]];
      RunSnoc(1, v[..i], v[i]);
      c := Advance(c, v[i]);
    }
    assert v[..|v|] == v;
  }

  method PreparePolynomialCoefficients(hrp: seq<bv8>, values: seq<bv8>) returns (ret: seq<bv8>)
    ensures ret == Prepare(hrp, values)
    ensures |ret| == 2 * |hrp| + 1 + |values| && ret[|hrp|] == 0 && ret[2 * |hrp| + 1..] == values
    ensures forall i :: 0 <= i < |hrp| ==> ret[i] == hrp[i] >> 5 && ret[|hrp| + 1 + i] == hrp[i] & 0x1f
  {
    ret := [];
    for i := 0 to |hrp|
      invariant ret == Highs(hrp)[..i]
    {
      ret := ret + [HighBits(hrp[i])];
    }
    ret := ret + [0];
    for i := 0 to |hrp|
      invariant ret == Highs(hrp) + [0] + Lows(hrp)[..i]
    {
      ret := ret + [LowBits(hrp[i])];
    }
    ret := ret + values;
  }

  method VerifyChecksum(hrp: seq<bv8>, values: seq<bv8>) returns (encoding: Encoding)
    ensures encoding == Verify(hrp, values)
  {
    hide PolyMod, Prepare;
    var enc := PreparePolynomialCoefficients(hrp, values);
    var check := ComputePolyMod(enc);
    if check == EncodingConstant(BECH32) {
      return BECH32;
    }
    if check == EncodingConstant(BECH32M) {
      return BECH32M;
    }
    return INVALID;
  }

  /** Shift to the right by `k` groups of five bits. */
  function DownBy(m: bv32, k: nat): bv32 {
    if k == 0 then m else Down(DownBy(m, k - 1))
  }

  lemma DownIs(m: bv32)
    ensures Down(m) == m >> 5 && Down(m >> 5) == m >> 10 && Down(m >> 10) == m >> 15
    ensures Down(m >> 15) == m >> 20 && Down(m >> 20) == m >> 25
  {
  }

  lemma DownSteps(m: bv32)
    ensures DownBy(m, 0) == m && DownBy(m, 1) == Down(m) && DownBy(m, 2) == Down(DownBy(m, 1))
    ensures DownBy(m, 3) == Down(DownBy(m, 2)) && DownBy(m, 4) == Down(DownBy(m, 3)) &&
            DownBy(m, 5) == Down(DownBy(m, 4))
  {
    hide Down;
  }

  lemma GroupIs(m: bv32, i: nat)
    requires i < 6
    ensures Narrow(DownBy(m, 5 - i)) == Unpack(m)[i]
  {
    hide Narrow, Down, DownBy;
    DownSteps(m);
    DownIs(m);
  }

  method CreateChecksum(encoding: Encoding, hrp: seq<bv8>, values: seq<bv8>) returns (ret: seq<bv8>)
    requires !encoding.INVALID?
    ensures ret == Checksum(encoding, hrp, values)
  {
    hide PolyMod, Prepare, Sum, Unpack, DownBy, Narrow;
    var enc := PreparePolynomialCoefficients(hrp, values);
    enc := enc + Zeros(6);
    var poly := ComputePolyMod(enc);
    var mod := Sum(poly, EncodingConstant(encoding));
    ret := [];
    for i := 0 to 6
      invariant ret == Unpack(mod)[..i]
    {
      GroupIs(mod, i);
      ret := ret + [Narrow(DownBy(mod, 5 - i))];
    }
  }

  // ----- Checking characters -----

  /** The case of the first letter: +1 for lower, -1 for upper, 0 for none. */
  function FirstCase(s: seq<bv8>): int {
    if s == [] then 0
    else
      var before := FirstCase(s[..|s| - 1]);
      if before != 0 then before
      else if IsLower(s[|s| - 1]) then 1 else if IsUpper(s[|s| - 1]) then -1 else 0
  }

  /** An unprintable character, or a letter of another case than the first letter. */
  predicate Bad(s: seq<bv8>, i: nat)
    requires i < |s|
  {
    || !Printable(s[i])
    || (IsLower(s[i]) && FirstCase(s[..i]) == -1)
    || (IsUpper(s[i]) && FirstCase(s[..i]) == 1)
  }

  lemma CaseFacts(c: bv8)
    ensures !(IsLower(c) && IsUpper(c)) && (IsLower(c) || IsUpper(c) ==> Printable(c))
  {
  }

  /** The positions of the invalid characters, in order. */
  method CheckCharacters(s: seq<bv8>) returns (ok: bool, errors: seq<nat>)
    ensures ok == CharactersOk(s) == (errors == [])
    ensures forall i :: i in errors <==> 0 <= i < |s| && Bad(s, i)
    ensures forall j, k :: 0 <= j < k < |errors| ==> errors[j] < errors[k]
  {
    hide IsLower, IsUpper, Printable;
    var lower, upper := false, false;
    errors := [];
    for i := 0 to |s|
      invariant lower == (FirstCase(s[..i]) == 1) && upper == (FirstCase(s[..i]) == -1)
      invariant forall k :: k in errors <==> 0 <= k < i && Bad(s, k)
      invariant forall j :: 0 <= j < |errors| ==> errors[j] < i
      invariant forall j, k :: 0 <= j < k < |errors| ==> errors[j] < errors[k]
    {
      var c := s[i];
      CaseFacts(c);
      assert s[..i + 1][..i] == s[..i];
      CaseRange(s[..i]);
      if IsLower(c) {
        if upper {
          errors := errors + [i];
        } else {
          lower := true;
        }
      } else if IsUpper(c) {
        if lower {
          errors := errors + [i];
        } else {
          upper := true;
        }
      } else if !Printable(c) {
        errors := errors + [i];
      }
    }
    ok := errors == [];
    assert ok <==> forall i :: 0 <= i < |s| ==> !Bad(s, i) by {
      assert errors != [] ==> errors[0] in errors;
    }
    NoBad(s);
  }

  /** No character is bad exactly when all are printable and of one case. */
  lemma NoBad(s: seq<bv8>)
    ensures CharactersOk(s) <==> forall i :: 0 <= i < |s| ==> !Bad(s, i)
  {
    hide IsLower, IsUpper, Printable, FirstCase;
    if CharactersOk(s) {
      forall i | 0 <= i < |s| ensures !Bad(s, i) {
        CaseOfPrefix(s, i);
      }
    }
    if forall i :: 0 <= i < |s| ==> !Bad(s, i) {
      OneCase(s);
    }
  }

  lemma {:induction false} CaseOfPrefix(s: seq<bv8>, i: nat)
    requires i <= |s|
    ensures FirstCase(s[..i]) == 1 ==> exists k :: 0 <= k < i && IsLower(s[k])
    ensures FirstCase(s[..i]) == -1 ==> exists k :: 0 <= k < i && IsUpper(s[k])
  {
    hide IsLower, IsUpper;
    if i > 0 {
      CaseOfPrefix(s, i - 1);
      assert s[..i][..i - 1] == s[..i - 1];
    }
  }

  lemma {:induction false} CaseStays(s: seq<bv8>, i: nat, j: nat)
    requires i <= j <= |s| && FirstCase(s[..i]) != 0
    ensures FirstCase(s[..j]) == FirstCase(s[..i])
    decreases j
  {
    hide IsLower, IsUpper;
    if i < j {
      CaseStays(s, i, j - 1);
      assert s[..j][..j - 1] == s[..j - 1];
    }
  }

  /** After a letter that is not bad, its case is the case of the text. */
  lemma LetterSetsCase(s: seq<bv8>, i: nat)
    requires i < |s| && !Bad(s, i)
    ensures IsLower(s[i]) ==> FirstCase(s) == 1
    ensures IsUpper(s[i]) ==> FirstCase(s) == -1
  {
    hide IsLower, IsUpper, Printable;
    CaseFacts(s[i]);
    assert s[..i + 1][..i] == s[..i] && s[..|s|] == s;
    CaseRange(s[..i]);
    if IsLower(s[i]) || IsUpper(s[i]) {
      CaseStays(s, i + 1, |s|);
    }
  }

  lemma {:induction false} CaseRange(s: seq<bv8>)
    ensures -1 <= FirstCase(s) <= 1
  {
    if s != [] {
      CaseRange(s[..|s| - 1]);
    }
  }

  lemma OneCase(s: seq<bv8>)
    requires forall i :: 0 <= i < |s| ==> !Bad(s, i)
    ensures CharactersOk(s)
  {
    hide IsLower, IsUpper, Printable, FirstCase;
    forall i | 0 <= i < |s|
      ensures Printable(s[i]) && (IsLower(s[i]) ==> FirstCase(s) == 1) && (IsUpper(s[i]) ==> FirstCase(s) == -1)
    {
      LetterSetsCase(s, i);
    }
  }

  // ----- Encoding and decoding -----

  method EncodeText(encoding: Encoding, hrp: seq<bv8>, values: seq<bv8>) returns (ret: seq<bv8>)
    requires !encoding.INVALID? && FiveBits(values) && forall i :: 0 <= i < |hrp| ==> !IsUpper(hrp[i])
    ensures ret == Encode(encoding, hrp, values)
  {
    hide Symbol, Checksum;
    ret := hrp;
    ret := ret + [49];
    for i := 0 to |values|
      invariant ret == hrp + [49] + Symbols(values)[..i]
    {
      ret := ret + [Symbol(values[i])];
    }
    var check := CreateChecksum(encoding, hrp, values);
    for i := 0 to |check|
      invariant ret == hrp + [49] + Symbols(values) + Symbols(check)[..i]
    {
      ret := ret + [Symbol(check[i])];
    }
  }

  /** The values of the characters, unless one has none. */
  method ReadValues(s: seq<bv8>, pos: nat) returns (ok: bool, values: seq<bv8>)
    requires pos < |s|
    ensures ok == AllRev(s[pos + 1..]) && (ok ==> values == Revs(s[pos + 1..]))
  {
    hide Rev;
    var tail := s[pos + 1..];
    values := [];
    for i := 0 to |tail|
      invariant values == Revs(tail)[..i]
      invariant forall j :: 0 <= j < i ==> Rev(tail[j]) != 0xFF
    {
      var rev := Rev(s[i + pos + 1]);
      assert s[i + pos + 1] == tail[i];
      if rev == 0xFF {
        return false, [];
      }
      values := values + [rev];
    }
    ok := true;
  }

  method DecodeText(s: seq<bv8>, limit: nat) returns (result: DecodeResult)
    ensures result == Decode(s, limit)
  {
    hide CharactersOk, AllRev, Revs, Verify, LastIndex, Bad;
    var clean, _ := CheckCharacters(s);
    if !clean {
      return FAILED;
    }
    var pos := LastIndex(s, 49);
    if |s| > limit {
      return FAILED;
    }
    if pos == -1 || pos == 0 || pos + 6 >= |s| {
      return FAILED;
    }
    var ok, values := ReadValues(s, pos);
    if !ok {
      return FAILED;
    }
    var hrp := [];
    hide LowerCase;
    for i := 0 to pos
      invariant hrp == Lower(s[..pos])[..i]
    {
      hrp := hrp + [LowerCase(s[i])];
    }
    assert hrp == Lower(s[..pos]);
    var encoding := VerifyChecksum(hrp, values);
    if encoding.INVALID? {
      return FAILED;
    }
    return DecodeResult(encoding, hrp, values[..|values| - 6]);
  }
}
