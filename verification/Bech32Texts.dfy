/**
 What pins the Bech32 text format down (`src/bech32.cpp:22-23`, `121-125`; BIP 173, section "Bech32";
 BIP 350): the character set, and one known text for each encoding.
 */
module Bech32Texts {
  import opened Bech32Polys
  import opened Bech32s

  /** The characters of the values 0 to 31. */
  const CHARACTERS := "qpzry9x8" + "gf2tvdw0" + "s3jn54kh" + "ce6mua7l"

  lemma CharactersTo8()
    ensures Symbol(0) as int == CHARACTERS[0] as int && Symbol(1) as int == CHARACTERS[1] as int
    ensures Symbol(2) as int == CHARACTERS[2] as int && Symbol(3) as int == CHARACTERS[3] as int
    ensures Symbol(4) as int == CHARACTERS[4] as int && Symbol(5) as int == CHARACTERS[5] as int
    ensures Symbol(6) as int == CHARACTERS[6] as int && Symbol(7) as int == CHARACTERS[7] as int
  {
  }

  lemma CharactersTo16()
    ensures Symbol(8) as int == CHARACTERS[8] as int && Symbol(9) as int == CHARACTERS[9] as int
    ensures Symbol(10) as int == CHARACTERS[10] as int && Symbol(11) as int == CHARACTERS[11] as int
    ensures Symbol(12) as int == CHARACTERS[12] as int && Symbol(13) as int == CHARACTERS[13] as int
    ensures Symbol(14) as int == CHARACTERS[14] as int && Symbol(15) as int == CHARACTERS[15] as int
  {
  }

  lemma CharactersTo24()
    ensures Symbol(16) as int == CHARACTERS[16] as int && Symbol(17) as int == CHARACTERS[17] as int
    ensures Symbol(18) as int == CHARACTERS[18] as int && Symbol(19) as int == CHARACTERS[19] as int
    ensures Symbol(20) as int == CHARACTERS[20] as int && Symbol(21) as int == CHARACTERS[21] as int
    ensures Symbol(22) as int == CHARACTERS[22] as int && Symbol(23) as int == CHARACTERS[23] as int
  {
  }

  lemma CharactersTo32()
    ensures Symbol(24) as int == CHARACTERS[24] as int && Symbol(25) as int == CHARACTERS[25] as int
    ensures Symbol(26) as int == CHARACTERS[26] as int && Symbol(27) as int == CHARACTERS[27] as int
    ensures Symbol(28) as int == CHARACTERS[28] as int && Symbol(29) as int == CHARACTERS[29] as int
    ensures Symbol(30) as int == CHARACTERS[30] as int && Symbol(31) as int == CHARACTERS[31] as int
  {
  }

  /** The symbols are the characters of the set, in order. */
  lemma SymbolsAreCharacters(v: bv8)
    requires v < 32
    ensures Symbol(v) as int == CHARACTERS[v as int] as int
  {
    hide Symbol;
    CharactersTo8();
    CharactersTo16();
    CharactersTo24();
    CharactersTo32();
    assert v == 0 || v == 1 || v == 2 || v == 3 || v == 4 || v == 5 || v == 6 || v == 7 || v == 8 || v == 9 ||
           v == 10 || v == 11 || v == 12 || v == 13 || v == 14 || v == 15 || v == 16 || v == 17 || v == 18 ||
           v == 19 || v == 20 || v == 21 || v == 22 || v == 23 || v == 24 || v == 25 || v == 26 || v == 27 ||
           v == 28 || v == 29 || v == 30 || v == 31;
  }

  // ----- Two known texts -----

  function Step(c: bv32, v: bv8): bv32 {
    Sum(Next(c), Wide(v))
  }

  lemma RunStep(c: bv32, values: seq<bv8>, k: nat)
    requires k < |values|
    ensures Run(c, values[..k + 1]) == Step(Run(c, values[..k]), values[k])
  {
    hide Next, Sum, Wide;
    assert values[..k + 1] == values[..k] + [values[k]];
    RunSnoc(c, values[..k], values[k]);
  }

  lemma RunNone(c: bv32, values: seq<bv8>)
    ensures Run(c, values[..0]) == c
  {
  }

  /** The human-readable part "a" without values, and room for the checksum. */
  lemma PreparedA()
    ensures Prepare([97], []) + Zeros(6) == [3, 0, 1, 0, 0, 0, 0, 0, 0]
  {
    assert HighBits(97) == 3 && LowBits(97) == 1;
    assert Highs([97]) == [3] && Lows([97]) == [1];
  }

  lemma StepsOfA()
    ensures Step(1, 3) == 0x23 && Step(0x23, 0) == 0x460 && Step(0x460, 1) == 0x8c01 && Step(0x8c01, 0) == 0x118020
    ensures Step(0x118020, 0) == 0x2300400 && Step(0x2300400, 0) == 0x3d6ad7b2
  {
  }

  lemma MoreStepsOfA()
    ensures Step(0x3d6ad7b2, 0) == 0x2fd30b9 && Step(0x2fd30b9, 0) == 0x24cc4092 && Step(0x24cc4092, 0) == 0x15ccfe9e
  {
  }

  lemma RemainderOfA()
    ensures PolyMod(Prepare([97], []) + Zeros(6)) == 0x15ccfe9e
  {
    hide Run, Step, Prepare;
    PreparedA();
    var v: seq<bv8> := [3, 0, 1, 0, 0, 0, 0, 0, 0];
    RunNone(1, v);
    RunStep(1, v, 0);
    RunStep(1, v, 1);
    RunStep(1, v, 2);
    RunStep(1, v, 3);
    RunStep(1, v, 4);
    RunStep(1, v, 5);
    RunStep(1, v, 6);
    RunStep(1, v, 7);
    RunStep(1, v, 8);
    StepsOfA();
    MoreStepsOfA();
    assert v[..9] == v;
  }

  lemma UnpackedA()
    ensures Sum(0x15ccfe9e, 1) == 0x15ccfe9f && Unpack(0x15ccfe9f) == [10, 28, 25, 31, 20, 31]
    ensures Sum(0x15ccfe9e, 0x2bc830a3) == 0x3e04ce3d && Unpack(0x3e04ce3d) == [31, 0, 9, 19, 17, 29]
  {
  }

  /** "a12uel5l" is the Bech32 text of the human-readable part "a" without values. */
  lemma KnownBech32()
    ensures Encode(BECH32, [97], []) == [97, 49, 50, 117, 101, 108, 53, 108]
  {
    hide Prepare, PolyMod, Sum, Unpack;
    RemainderOfA();
    UnpackedA();
    assert Checksum(BECH32, [97], []) == [10, 28, 25, 31, 20, 31];
    hide Checksum;
    assert Symbols([10, 28, 25, 31, 20, 31]) == [50, 117, 101, 108, 53, 108] && Symbols([]) == [];
  }

  /** "a1lqfn3a" is its Bech32m text. */
  lemma KnownBech32m()
    ensures Encode(BECH32M, [97], []) == [97, 49, 108, 113, 102, 110, 51, 97]
  {
    hide Prepare, PolyMod, Sum, Unpack;
    RemainderOfA();
    UnpackedA();
    assert Checksum(BECH32M, [97], []) == [31, 0, 9, 19, 17, 29];
    hide Checksum;
    assert Symbols([31, 0, 9, 19, 17, 29]) == [108, 113, 102, 110, 51, 97] && Symbols([]) == [];
  }
}
