/**
 Bech32 and Bech32m text (`src/bech32.cpp:281-400`): a human-readable part, the separator '1', and
 characters for 5-bit values of which the last six are the checksum.

 Text is a list of bytes in ASCII, and `char` is taken to be unsigned. The final constants are those of
 BIP 173 (section "Bech32", subsection "Checksum") and BIP 350.
 */
module Bech32s {
  import opened Bech32Polys

  datatype Encoding = INVALID | BECH32 | BECH32M

  datatype DecodeResult = DecodeResult(encoding: Encoding, hrp: seq<bv8>, data: seq<bv8>)

  const FAILED := DecodeResult(INVALID, [], [])

  // ----- Characters -----

  function LowerCase(c: bv8): bv8 {
    if 65 <= c <= 90 then (c - 65) + 97 else c
  }

  /** The character set: "qpzry9x8gf2tvdw0s3jn54khce6mua7l". */
  function Symbol(v: bv8): bv8 {
    if v == 0 then 113 else if v == 1 then 112 else if v == 2 then 122 else if v == 3 then 114
    else if v == 4 then 121 else if v == 5 then 57 else if v == 6 then 120 else if v == 7 then 56
    else if v == 8 then 103 else if v == 9 then 102 else if v == 10 then 50 else if v == 11 then 116
    else if v == 12 then 118 else if v == 13 then 100 else if v == 14 then 119 else if v == 15 then 48
    else if v == 16 then 115 else if v == 17 then 51 else if v == 18 then 106 else if v == 19 then 110
    else if v == 20 then 53 else if v == 21 then 52 else if v == 22 then 107 else if v == 23 then 104
    else if v == 24 then 99 else if v == 25 then 101 else if v == 26 then 54 else if v == 27 then 109
    else if v == 28 then 117 else if v == 29 then 97 else if v == 30 then 55 else if v == 31 then 108
    else 0
  }

  /** The value of a character of the set, and 0xFF (that is, -1) for any other. */
  function RevLower(c: bv8): bv8 {
    if c == 48 then 15 else if c == 50 then 10 else if c == 51 then 17 else if c == 52 then 21
    else if c == 53 then 20 else if c == 54 then 26 else if c == 55 then 30 else if c == 56 then 7
    else if c == 57 then 5 else if c == 97 then 29 else if c == 99 then 24 else if c == 100 then 13
    else if c == 101 then 25 else if c == 102 then 9 else if c == 103 then 8 else if c == 104 then 23
    else if c == 106 then 18 else if c == 107 then 22 else if c == 108 then 31 else if c == 109 then 27
    else if c == 110 then 19 else if c == 112 then 1 else if c == 113 then 0 else if c == 114 then 3
    else if c == 115 then 16 else if c == 116 then 11 else if c == 117 then 28 else if c == 118 then 12
    else if c == 119 then 14 else if c == 120 then 6 else if c == 121 then 4 else if c == 122 then 2
    else 0xFF
  }

  /** The table for decoding has the same entries for upper and lower case. */
  function Rev(c: bv8): bv8 {
    RevLower(LowerCase(c))
  }

  predicate IsLower(c: bv8) {
    97 <= c <= 122
  }

  predicate IsUpper(c: bv8) {
    65 <= c <= 90
  }

  predicate Printable(c: bv8) {
    33 <= c <= 126
  }

  lemma SymbolTo8(v: bv8)
    requires v < 8
    ensures RevLower(Symbol(v)) == v && Printable(Symbol(v)) && !IsUpper(Symbol(v)) && Symbol(v) != 49
  {
  }

  lemma SymbolTo16(v: bv8)
    requires 8 <= v < 16
    ensures RevLower(Symbol(v)) == v && Printable(Symbol(v)) && !IsUpper(Symbol(v)) && Symbol(v) != 49
  {
  }

  lemma SymbolTo24(v: bv8)
    requires 16 <= v < 24
    ensures RevLower(Symbol(v)) == v && Printable(Symbol(v)) && !IsUpper(Symbol(v)) && Symbol(v) != 49
  {
  }

  lemma SymbolTo32(v: bv8)
    requires 24 <= v < 32
    ensures RevLower(Symbol(v)) == v && Printable(Symbol(v)) && !IsUpper(Symbol(v)) && Symbol(v) != 49
  {
  }

  lemma SymbolFacts(v: bv8)
    requires v < 32
    ensures RevLower(Symbol(v)) == v && Printable(Symbol(v)) && !IsUpper(Symbol(v)) && Symbol(v) != 49
  {
    hide RevLower, Symbol, Printable, IsUpper;
    if v < 8 {
      SymbolTo8(v);
    } else if v < 16 {
      SymbolTo16(v);
    } else if v < 24 {
      SymbolTo24(v);
    } else {
      SymbolTo32(v);
    }
  }

  lemma RevTo57(c: bv8)
    requires RevLower(c) != 0xFF && c <= 57
    ensures RevLower(c) < 32 && Symbol(RevLower(c)) == c
  {
  }

  lemma RevTo106(c: bv8)
    requires RevLower(c) != 0xFF && 57 < c <= 106
    ensures RevLower(c) < 32 && Symbol(RevLower(c)) == c
  {
  }

  lemma RevTo114(c: bv8)
    requires RevLower(c) != 0xFF && 106 < c <= 114
    ensures RevLower(c) < 32 && Symbol(RevLower(c)) == c
  {
  }

  lemma RevTo122(c: bv8)
    requires RevLower(c) != 0xFF && 114 < c
    ensures RevLower(c) < 32 && Symbol(RevLower(c)) == c
  {
  }

  lemma RevFacts(c: bv8)
    requires RevLower(c) != 0xFF
    ensures RevLower(c) < 32 && Symbol(RevLower(c)) == c
  {
    hide RevLower, Symbol;
    if c <= 57 { RevTo57(c); } else if c <= 106 { RevTo106(c); } else if c <= 114 { RevTo114(c); } else { RevTo122(c); }
  }

  lemma LowerFacts(c: bv8)
    ensures !IsUpper(LowerCase(c)) && (Printable(c) <==> Printable(LowerCase(c)))
    ensures (LowerCase(c) == 49 <==> c == 49) && (!IsUpper(c) ==> LowerCase(c) == c)
  {
  }

  // ----- Text -----

  function Lower(s: seq<bv8>): (t: seq<bv8>)
    ensures |t| == |s| && forall i :: 0 <= i < |s| ==> t[i] == LowerCase(s[i])
  {
    seq(|s|, i requires 0 <= i < |s| => LowerCase(s[i]))
  }

  function Symbols(values: seq<bv8>): (t: seq<bv8>)
    ensures |t| == |values| && forall i :: 0 <= i < |t| ==> t[i] == Symbol(values[i])
  {
    seq(|values|, i requires 0 <= i < |values| => Symbol(values[i]))
  }

  function Revs(s: seq<bv8>): (values: seq<bv8>)
    ensures |values| == |s| && forall i :: 0 <= i < |s| ==> values[i] == Rev(s[i])
  {
    seq(|s|, i requires 0 <= i < |s| => Rev(s[i]))
  }

  /** Printable, and not both in upper and in lower case. */
  predicate CharactersOk(s: seq<bv8>) {
    && (forall i :: 0 <= i < |s| ==> Printable(s[i]))
    && ((forall i :: 0 <= i < |s| ==> !IsLower(s[i])) || (forall i :: 0 <= i < |s| ==> !IsUpper(s[i])))
  }

  /** The last position of `c` in `s`, or -1. */
  function LastIndex(s: seq<bv8>, c: bv8): (p: int)
    ensures -1 <= p < |s| && (p >= 0 ==> s[p] == c) && (forall i :: p < i < |s| ==> s[i] != c)
  {
    if s == [] then -1 else if s[|s| - 1] == c then |s| - 1 else LastIndex(s[..|s| - 1], c)
  }

  // ----- The checksum of a text -----

  function HighBits(c: bv8): bv8 {
    c >> 5
  }

  function LowBits(c: bv8): bv8 {
    c & 0x1f
  }

  function Highs(hrp: seq<bv8>): (t: seq<bv8>)
    ensures |t| == |hrp| && forall i :: 0 <= i < |hrp| ==> t[i] == HighBits(hrp[i])
  {
    seq(|hrp|, i requires 0 <= i < |hrp| => HighBits(hrp[i]))
  }

  function Lows(hrp: seq<bv8>): (t: seq<bv8>)
    ensures |t| == |hrp| && forall i :: 0 <= i < |hrp| ==> t[i] == LowBits(hrp[i])
  {
    seq(|hrp|, i requires 0 <= i < |hrp| => LowBits(hrp[i]))
  }

  /** The human-readable part expanded, then the values. */
  function Prepare(hrp: seq<bv8>, values: seq<bv8>): seq<bv8> {
    Highs(hrp) + [0] + Lows(hrp) + values
  }

  function EncodingConstant(encoding: Encoding): bv32 {
    if encoding.BECH32? then 1 else 0x2bc830a3
  }

  function Verify(hrp: seq<bv8>, values: seq<bv8>): Encoding {
    var check := PolyMod(Prepare(hrp, values));
    if check == EncodingConstant(BECH32) then BECH32
    else if check == EncodingConstant(BECH32M) then BECH32M
    else INVALID
  }

  function Checksum(encoding: Encoding, hrp: seq<bv8>, values: seq<bv8>): (check: seq<bv8>)
    ensures |check| == 6
  {
    Unpack(Sum(PolyMod(Prepare(hrp, values) + Zeros(6)), EncodingConstant(encoding)))
  }

  function Encode(encoding: Encoding, hrp: seq<bv8>, values: seq<bv8>): seq<bv8> {
    hrp + [49] + Symbols(values) + Symbols(Checksum(encoding, hrp, values))
  }

  predicate AllRev(s: seq<bv8>) {
    forall i :: 0 <= i < |s| ==> Rev(s[i]) != 0xFF
  }

  function Decode(s: seq<bv8>, limit: nat): DecodeResult {
    var pos := LastIndex(s, 49);
    if !CharactersOk(s) || |s| > limit || pos < 1 || pos + 6 >= |s| || !AllRev(s[pos + 1..]) then FAILED
    else
      var values, hrp := Revs(s[pos + 1..]), Lower(s[..pos]);
      var encoding := Verify(hrp, values);
      if encoding.INVALID? then FAILED else DecodeResult(encoding, hrp, values[..|values| - 6])
  }

  // ----- Encoding and decoding undo each other -----

  predicate HrpOk(hrp: seq<bv8>) {
    forall i :: 0 <= i < |hrp| ==> Printable(hrp[i]) && !IsUpper(hrp[i])
  }

  lemma HrpBits(c: bv8)
    requires Printable(c)
    ensures HighBits(c) < 32 && LowBits(c) < 32
  {
  }

  lemma PrepareFacts(hrp: seq<bv8>, values: seq<bv8>, more: seq<bv8>)
    requires HrpOk(hrp) && FiveBits(values)
    ensures FiveBits(Prepare(hrp, values)) && Prepare(hrp, values + more) == Prepare(hrp, values) + more
  {
    hide Printable, IsUpper, HighBits, LowBits;
    forall i | 0 <= i < |hrp| ensures HighBits(hrp[i]) < 32 && LowBits(hrp[i]) < 32 { HrpBits(hrp[i]); }
    assert Prepare(hrp, values + more) == Prepare(hrp, values) + more;
  }

  /** The values are accepted as an encoding exactly when they end in its checksum. */
  lemma VerifyIff(encoding: Encoding, hrp: seq<bv8>, data: seq<bv8>, check: seq<bv8>)
    requires !encoding.INVALID? && HrpOk(hrp) && FiveBits(data) && FiveBits(check) && |check| == 6
    ensures Verify(hrp, data + check) == encoding <==> check == Checksum(encoding, hrp, data)
  {
    hide Prepare, PolyMod, Sum, Unpack, HrpOk;
    PrepareFacts(hrp, data, check);
    ChecksumIff(Prepare(hrp, data), check, EncodingConstant(encoding));
  }

  lemma SymbolsRevs(s: seq<bv8>)
    requires AllRev(s)
    ensures FiveBits(Revs(s)) && Symbols(Revs(s)) == Lower(s)
  {
    hide RevLower, Symbol, LowerCase;
    forall i | 0 <= i < |s|
      ensures Rev(s[i]) < 32 && Symbol(Rev(s[i])) == LowerCase(s[i])
    {
      RevFacts(LowerCase(s[i]));
    }
  }

  lemma RevsSymbols(s: seq<bv8>, values: seq<bv8>)
    requires FiveBits(values) && Lower(s) == Symbols(values)
    ensures AllRev(s) && Revs(s) == values && forall i :: 0 <= i < |s| ==> s[i] != 49
  {
    hide RevLower, Symbol, LowerCase;
    forall i | 0 <= i < |s| ensures Rev(s[i]) == values[i] && values[i] != 0xFF && s[i] != 49 {
      assert LowerCase(s[i]) == Lower(s)[i] == Symbols(values)[i] == Symbol(values[i]);
      SymbolFacts(values[i]);
      LowerFacts(s[i]);
    }
  }

  lemma LowerHrp(s: seq<bv8>)
    requires forall i :: 0 <= i < |s| ==> Printable(s[i])
    ensures HrpOk(Lower(s))
  {
    hide LowerCase, Printable, IsUpper;
    forall i | 0 <= i < |s| ensures Printable(LowerCase(s[i])) && !IsUpper(LowerCase(s[i])) { LowerFacts(s[i]); }
  }

  lemma LowerConcat(a: seq<bv8>, b: seq<bv8>)
    ensures Lower(a + b) == Lower(a) + Lower(b)
  {
    hide LowerCase;
  }

  lemma LowerParts(s: seq<bv8>, pos: nat)
    requires pos < |s| && s[pos] == 49
    ensures Lower(s) == Lower(s[..pos]) + [49] + Lower(s[pos + 1..])
  {
    hide LowerCase, Lower;
    var tail := s[pos + 1..];
    assert s == s[..pos] + [s[pos]] + tail;
    LowerConcat(s[..pos] + [s[pos]], tail);
    LowerConcat(s[..pos], [s[pos]]);
    LowerSeparator();
  }

  lemma LowerSeparator()
    ensures Lower([49]) == [49]
  {
    LowerFacts(49);
  }

  /** A decoded text is, in lower case, the encoding of the result. */
  lemma EncodeDecoded(s: seq<bv8>, limit: nat)
    requires !Decode(s, limit).encoding.INVALID?
    ensures var r := Decode(s, limit);
            CharactersOk(s) && |s| <= limit && r.hrp != [] && FiveBits(r.data) &&
            Lower(s) == Encode(r.encoding, r.hrp, r.data)
  {
    hide Lower, Revs, Symbols, Verify, Checksum, AllRev, HrpOk, CharactersOk;
    var pos := LastIndex(s, 49);
    var tail := s[pos + 1..];
    SymbolsRevs(tail);
    PrintablePrefix(s, pos);
    LowerHrp(s[..pos]);
    var values, hrp := Revs(tail), Lower(s[..pos]);
    var data, check := values[..|values| - 6], values[|values| - 6..];
    assert values == data + check;
    VerifyIff(Verify(hrp, values), hrp, data, check);
    LowerParts(s, pos);
    SymbolsConcat(data, check);
    var front := hrp + [49];
    assert front + (Symbols(data) + Symbols(check)) == front + Symbols(data) + Symbols(check);
  }

  lemma PrintablePrefix(s: seq<bv8>, pos: nat)
    requires pos <= |s| && CharactersOk(s)
    ensures forall i :: 0 <= i < pos ==> Printable(s[..pos][i])
  {
  }

  /** How decoding cuts a text that is, in lower case, a human-readable part, the separator and values. */
  lemma CutEncoded(s: seq<bv8>, hrp: seq<bv8>, values: seq<bv8>)
    requires CharactersOk(s) && FiveBits(values) && Lower(s) == hrp + [49] + Symbols(values)
    ensures |s| == |hrp| + 1 + |values| && LastIndex(s, 49) == |hrp| && HrpOk(hrp) && Lower(s[..|hrp|]) == hrp
    ensures AllRev(s[|hrp| + 1..]) && Revs(s[|hrp| + 1..]) == values
  {
    hide LowerCase, Rev, Symbol, IsLower, IsUpper, Printable, Lower, Revs, AllRev, HrpOk;
    var pos := |hrp|;
    CutLower(s, hrp, Symbols(values));
    var tail := s[pos + 1..];
    RevsSymbols(tail, values);
    LowerFacts(s[pos]);
    forall i | pos < i < |s| ensures s[i] != 49 { assert s[i] == tail[i - pos - 1]; }
    LastIndexIs(s, pos);
    LowerHrp(s[..pos]);
  }

  /** A text that is the encoding in lower case, within the limit, decodes to what was encoded. */
  lemma DecodeEncoded(s: seq<bv8>, limit: nat, encoding: Encoding, hrp: seq<bv8>, data: seq<bv8>)
    requires !encoding.INVALID? && CharactersOk(s) && |s| <= limit && hrp != [] && FiveBits(data)
    requires Lower(s) == Encode(encoding, hrp, data)
    ensures Decode(s, limit) == DecodeResult(encoding, hrp, data)
  {
    hide *;
    var check := Checksum(encoding, hrp, data);
    ChecksumRange(encoding, hrp, data);
    EncodeWhole(encoding, hrp, data);
    FiveBitsConcat(data, check);
    CutEncoded(s, hrp, data + check);
    VerifyIff(encoding, hrp, data, check);
    DecodeCut(s, limit, encoding, hrp, data, check);
  }

  lemma EncodeWhole(encoding: Encoding, hrp: seq<bv8>, data: seq<bv8>)
    ensures Encode(encoding, hrp, data) == hrp + [49] + Symbols(data + Checksum(encoding, hrp, data))
  {
    hide Checksum, Symbols;
    var check := Checksum(encoding, hrp, data);
    SymbolsConcat(data, check);
    var front := hrp + [49];
    assert front + (Symbols(data) + Symbols(check)) == front + Symbols(data) + Symbols(check);
  }

  lemma FiveBitsConcat(a: seq<bv8>, b: seq<bv8>)
    requires FiveBits(a) && FiveBits(b)
    ensures FiveBits(a + b)
  {
  }

  /** Decoding a text whose parts are known. */
  lemma DecodeCut(s: seq<bv8>, limit: nat, encoding: Encoding, hrp: seq<bv8>, data: seq<bv8>, check: seq<bv8>)
    requires CharactersOk(s) && |s| <= limit && hrp != [] && !encoding.INVALID? && |check| == 6
    requires |s| == |hrp| + 1 + |data + check| && LastIndex(s, 49) == |hrp| && Lower(s[..|hrp|]) == hrp
    requires AllRev(s[|hrp| + 1..]) && Revs(s[|hrp| + 1..]) == data + check && Verify(hrp, data + check) == encoding
    ensures Decode(s, limit) == DecodeResult(encoding, hrp, data)
  {
    hide Verify, CharactersOk, Lower, Revs, AllRev, LastIndex;
    assert (data + check)[..|data|] == data;
  }

  lemma SymbolsConcat(a: seq<bv8>, b: seq<bv8>)
    ensures Symbols(a + b) == Symbols(a) + Symbols(b)
  {
    hide Symbol;
  }

  lemma ChecksumRange(encoding: Encoding, hrp: seq<bv8>, data: seq<bv8>)
    ensures FiveBits(Checksum(encoding, hrp, data))
  {
    hide Sum, PolyMod, Unpack, Prepare;
    UnpackRange(Sum(PolyMod(Prepare(hrp, data) + Zeros(6)), EncodingConstant(encoding)));
  }

  lemma CutLower(s: seq<bv8>, hrp: seq<bv8>, rest: seq<bv8>)
    requires Lower(s) == hrp + [49] + rest
    ensures |s| == |hrp| + 1 + |rest| && Lower(s[..|hrp|]) == hrp && LowerCase(s[|hrp|]) == 49 &&
            Lower(s[|hrp| + 1..]) == rest
  {
    hide LowerCase;
    var t := Lower(s);
    assert t[..|hrp|] == hrp && t[|hrp|] == 49 && t[|hrp| + 1..] == rest;
    assert Lower(s[..|hrp|]) == t[..|hrp|] && Lower(s[|hrp| + 1..]) == t[|hrp| + 1..];
  }

  lemma LastIndexIs(s: seq<bv8>, pos: nat)
    requires pos < |s| && s[pos] == 49 && forall i :: pos < i < |s| ==> s[i] != 49
    ensures LastIndex(s, 49) == pos
  {
  }

  /** Decoding gives `(encoding, hrp, data)` exactly for the texts that are its encoding up to case. */
  lemma DecodeIff(s: seq<bv8>, limit: nat, encoding: Encoding, hrp: seq<bv8>, data: seq<bv8>)
    requires !encoding.INVALID?
    ensures Decode(s, limit) == DecodeResult(encoding, hrp, data) <==>
            CharactersOk(s) && |s| <= limit && hrp != [] && FiveBits(data) && Lower(s) == Encode(encoding, hrp, data)
  {
    hide Decode, Encode, Lower, CharactersOk;
    if Decode(s, limit) == DecodeResult(encoding, hrp, data) {
      EncodeDecoded(s, limit);
    }
    if CharactersOk(s) && |s| <= limit && hrp != [] && FiveBits(data) && Lower(s) == Encode(encoding, hrp, data) {
      DecodeEncoded(s, limit, encoding, hrp, data);
    }
  }

  lemma EncodedText(encoding: Encoding, hrp: seq<bv8>, data: seq<bv8>)
    requires HrpOk(hrp) && FiveBits(data)
    ensures HrpOk(Encode(encoding, hrp, data))
  {
    hide Symbol, Checksum, Printable, IsUpper;
    var check := Checksum(encoding, hrp, data);
    ChecksumRange(encoding, hrp, data);
    SymbolsOk(data);
    SymbolsOk(check);
    SeparatorOk();
  }

  lemma SeparatorOk()
    ensures Printable(49) && !IsUpper(49)
  {
  }

  lemma SymbolsOk(values: seq<bv8>)
    requires FiveBits(values)
    ensures HrpOk(Symbols(values))
  {
    hide Symbol, Printable, IsUpper;
    forall i | 0 <= i < |values|
      ensures Printable(Symbol(values[i])) && !IsUpper(Symbol(values[i]))
    {
      SymbolFacts(values[i]);
    }
  }

  lemma HrpText(s: seq<bv8>)
    requires HrpOk(s)
    ensures CharactersOk(s) && Lower(s) == s
  {
    hide LowerCase, Printable, IsUpper, IsLower;
    forall i | 0 <= i < |s| ensures LowerCase(s[i]) == s[i] { LowerFacts(s[i]); }
  }

  /** Every non-empty printable human-readable part without upper case and every list of 5-bit values survive. */
  lemma RoundTrip(encoding: Encoding, hrp: seq<bv8>, data: seq<bv8>, limit: nat)
    requires !encoding.INVALID? && hrp != [] && HrpOk(hrp) && FiveBits(data) && |hrp| + 1 + |data| + 6 <= limit
    ensures Decode(Encode(encoding, hrp, data), limit) == DecodeResult(encoding, hrp, data)
  {
    hide Decode, HrpOk, Checksum, CharactersOk;
    var s := Encode(encoding, hrp, data);
    EncodedText(encoding, hrp, data);
    HrpText(s);
    DecodeIff(s, limit, encoding, hrp, data);
  }

  /**
   Otherwise something is lost: with no upper case in it, a human-readable part survives only if it is as
   required.
   */
  lemma RoundTripIff(encoding: Encoding, hrp: seq<bv8>, data: seq<bv8>, limit: nat)
    requires !encoding.INVALID? && FiveBits(data) && forall i :: 0 <= i < |hrp| ==> !IsUpper(hrp[i])
    ensures Decode(Encode(encoding, hrp, data), limit) == DecodeResult(encoding, hrp, data) <==>
            hrp != [] && HrpOk(hrp) && |hrp| + 1 + |data| + 6 <= limit
  {
    hide Decode, Checksum, Printable, IsUpper, IsLower;
    var s := Encode(encoding, hrp, data);
    if Decode(s, limit) == DecodeResult(encoding, hrp, data) {
      DecodeIff(s, limit, encoding, hrp, data);
      forall i | 0 <= i < |hrp| ensures Printable(hrp[i]) { assert s[i] == hrp[i]; }
    }
    if hrp != [] && HrpOk(hrp) && |hrp| + 1 + |data| + 6 <= limit {
      RoundTrip(encoding, hrp, data, limit);
    }
  }
}
