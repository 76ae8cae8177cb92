// A known answer of XTEA, from "Tea extensions" by Needham and Wheeler as it is commonly
// published: it fixes the mixing, the order of the key words, the constant and the number of
// rounds of per_id.h, and the byte order of per_id.cpp.
module KnownAnswer {
  import opened Words
  import opened Cipher

  const KEY: Key := [0x00010203, 0x04050607, 0x08090A0B, 0x0C0D0E0F]
  const PLAIN := Block(0x41424344, 0x45464748)

  // The block and the sum after n rounds.
  predicate Reaches(n: nat, b: Block, sum: u32) {
    Enciphered(n, PLAIN, KEY) == b && SumAfter(n) == sum
  }

  lemma NextRound(n: nat, b: Block, sum: u32, c: Block, next: u32)
    requires Reaches(n, b, sum) && Forward(b, sum, KEY) == c && Add(sum, DELTA) == next
    ensures Reaches(n + 1, c, next)
  {
    hide Forward, Add;
  }

  lemma Rounds2()
    ensures Reaches(2, Block(0xFC26AF53, 0xCD4278CF), 0x3C6EF372)
  {
    hide Mix;
    assert Reaches(0, PLAIN, 0);
    hide Reaches;
    MixLaw(0x45464748, 0x00000000, 0x00010203);
    MixLaw(0xDCD7CF45, 0x9E3779B9, 0x0C0D0E0F);
    NextRound(0, Block(0x41424344, 0x45464748), 0x00000000, Block(0xDCD7CF45, 0x477CE5EF), 0x9E3779B9);
    MixLaw(0x477CE5EF, 0x9E3779B9, 0x04050607);
    MixLaw(0xFC26AF53, 0x3C6EF372, 0x08090A0B);
    NextRound(1, Block(0xDCD7CF45, 0x477CE5EF), 0x9E3779B9, Block(0xFC26AF53, 0xCD4278CF), 0x3C6EF372);
  }

  lemma Rounds4()
    ensures Reaches(4, Block(0xA3DE6C88, 0xF1E7792D), 0x78DDE6E4)
  {
    hide Mix, Reaches;
    Rounds2();
    MixLaw(0xCD4278CF, 0x3C6EF372, 0x08090A0B);
    MixLaw(0xD80E94CB, 0xDAA66D2B, 0x04050607);
    NextRound(2, Block(0xFC26AF53, 0xCD4278CF), 0x3C6EF372, Block(0xD80E94CB, 0x4DDF38A2), 0xDAA66D2B);
    MixLaw(0x4DDF38A2, 0xDAA66D2B, 0x0C0D0E0F);
    MixLaw(0xA3DE6C88, 0x78DDE6E4, 0x00010203);
    NextRound(3, Block(0xD80E94CB, 0x4DDF38A2), 0xDAA66D2B, Block(0xA3DE6C88, 0xF1E7792D), 0x78DDE6E4);
  }

  lemma Rounds6()
    ensures Reaches(6, Block(0xCC8C1344, 0xEBEEAA9A), 0xB54CDA56)
  {
    hide Mix, Reaches;
    Rounds4();
    MixLaw(0xF1E7792D, 0x78DDE6E4, 0x00010203);
    MixLaw(0x171D3729, 0x1715609D, 0x00010203);
    NextRound(4, Block(0xA3DE6C88, 0xF1E7792D), 0x78DDE6E4, Block(0x171D3729, 0x91862A1F), 0x1715609D);
    MixLaw(0x91862A1F, 0x1715609D, 0x04050607);
    MixLaw(0xCC8C1344, 0xB54CDA56, 0x0C0D0E0F);
    NextRound(5, Block(0x171D3729, 0x91862A1F), 0x1715609D, Block(0xCC8C1344, 0xEBEEAA9A), 0xB54CDA56);
  }

  lemma Rounds8()
    ensures Reaches(8, Block(0x8F65016F, 0xCE368FE5), 0xF1BBCDC8)
  {
    hide Mix, Reaches;
    Rounds6();
    MixLaw(0xEBEEAA9A, 0xB54CDA56, 0x08090A0B);
    MixLaw(0xE57D7733, 0x5384540F, 0x08090A0B);
    NextRound(6, Block(0xCC8C1344, 0xEBEEAA9A), 0xB54CDA56, Block(0xE57D7733, 0x59E5FC40), 0x5384540F);
    MixLaw(0x59E5FC40, 0x5384540F, 0x0C0D0E0F);
    MixLaw(0x8F65016F, 0xF1BBCDC8, 0x04050607);
    NextRound(7, Block(0xE57D7733, 0x59E5FC40), 0x5384540F, Block(0x8F65016F, 0xCE368FE5), 0xF1BBCDC8);
  }

  lemma Rounds10()
    ensures Reaches(10, Block(0x165E0567, 0x9E717B10), 0x2E2AC13A)
  {
    hide Mix, Reaches;
    Rounds8();
    MixLaw(0xCE368FE5, 0xF1BBCDC8, 0x00010203);
    MixLaw(0xD258174E, 0x8FF34781, 0x00010203);
    NextRound(8, Block(0x8F65016F, 0xCE368FE5), 0xF1BBCDC8, Block(0xD258174E, 0x48D61211), 0x8FF34781);
    MixLaw(0x48D61211, 0x8FF34781, 0x04050607);
    MixLaw(0x165E0567, 0x2E2AC13A, 0x00010203);
    NextRound(9, Block(0xD258174E, 0x48D61211), 0x8FF34781, Block(0x165E0567, 0x9E717B10), 0x2E2AC13A);
  }

  lemma Rounds12()
    ensures Reaches(12, Block(0xEB8E9954, 0x24E5DFEF), 0x6A99B4AC)
  {
    hide Mix, Reaches;
    Rounds10();
    MixLaw(0x9E717B10, 0x2E2AC13A, 0x08090A0B);
    MixLaw(0xCAC48414, 0xCC623AF3, 0x0C0D0E0F);
    NextRound(10, Block(0x165E0567, 0x9E717B10), 0x2E2AC13A, Block(0xCAC48414, 0x4AFF1B86), 0xCC623AF3);
    MixLaw(0x4AFF1B86, 0xCC623AF3, 0x0C0D0E0F);
    MixLaw(0xEB8E9954, 0x6A99B4AC, 0x08090A0B);
    NextRound(11, Block(0xCAC48414, 0x4AFF1B86), 0xCC623AF3, Block(0xEB8E9954, 0x24E5DFEF), 0x6A99B4AC);
  }

  lemma Rounds14()
    ensures Reaches(14, Block(0x47F0B53D, 0x52CC1B88), 0xA708A81E)
  {
    hide Mix, Reaches;
    Rounds12();
    MixLaw(0x24E5DFEF, 0x6A99B4AC, 0x00010203);
    MixLaw(0x0A88B2A5, 0x08D12E65, 0x04050607);
    NextRound(12, Block(0xEB8E9954, 0x24E5DFEF), 0x6A99B4AC, Block(0x0A88B2A5, 0xE4A3F5F5), 0x08D12E65);
    MixLaw(0xE4A3F5F5, 0x08D12E65, 0x04050607);
    MixLaw(0x47F0B53D, 0xA708A81E, 0x04050607);
    NextRound(13, Block(0x0A88B2A5, 0xE4A3F5F5), 0x08D12E65, Block(0x47F0B53D, 0x52CC1B88), 0xA708A81E);
  }

  lemma Rounds16()
    ensures Reaches(16, Block(0xDEA0B0B4, 0x0966B066), 0xE3779B90)
  {
    hide Mix, Reaches;
    Rounds14();
    MixLaw(0x52CC1B88, 0xA708A81E, 0x08090A0B);
    MixLaw(0x7622F70A, 0x454021D7, 0x00010203);
    NextRound(14, Block(0x47F0B53D, 0x52CC1B88), 0xA708A81E, Block(0x7622F70A, 0xE54C9980), 0x454021D7);
    MixLaw(0xE54C9980, 0x454021D7, 0x0C0D0E0F);
    MixLaw(0xDEA0B0B4, 0xE3779B90, 0x0C0D0E0F);
    NextRound(15, Block(0x7622F70A, 0xE54C9980), 0x454021D7, Block(0xDEA0B0B4, 0x0966B066), 0xE3779B90);
  }

  lemma Rounds18()
    ensures Reaches(18, Block(0x10771C15, 0xE45E1448), 0x1FE68F02)
  {
    hide Mix, Reaches;
    Rounds16();
    MixLaw(0x0966B066, 0xE3779B90, 0x00010203);
    MixLaw(0x5B9F2A8E, 0x81AF1549, 0x08090A0B);
    NextRound(16, Block(0xDEA0B0B4, 0x0966B066), 0xE3779B90, Block(0x5B9F2A8E, 0xA8DC137C), 0x81AF1549);
    MixLaw(0xA8DC137C, 0x81AF1549, 0x04050607);
    MixLaw(0x10771C15, 0x1FE68F02, 0x04050607);
    NextRound(17, Block(0x5B9F2A8E, 0xA8DC137C), 0x81AF1549, Block(0x10771C15, 0xE45E1448), 0x1FE68F02);
  }

  lemma Rounds20()
    ensures Reaches(20, Block(0x97856208, 0x1099631C), 0x5C558274)
  {
    hide Mix, Reaches;
    Rounds18();
    MixLaw(0xE45E1448, 0x1FE68F02, 0x08090A0B);
    MixLaw(0x11456D7C, 0xBE1E08BB, 0x04050607);
    NextRound(18, Block(0x10771C15, 0xE45E1448), 0x1FE68F02, Block(0x11456D7C, 0xC85F792D), 0xBE1E08BB);
    MixLaw(0xC85F792D, 0xBE1E08BB, 0x0C0D0E0F);
    MixLaw(0x97856208, 0x5C558274, 0x00010203);
    NextRound(19, Block(0x11456D7C, 0xC85F792D), 0xBE1E08BB, Block(0x97856208, 0x1099631C), 0x5C558274);
  }

  lemma Rounds22()
    ensures Reaches(22, Block(0x522C00DD, 0x9E3F7329), 0x98C475E6)
  {
    hide Mix, Reaches;
    Rounds20();
    MixLaw(0x1099631C, 0x5C558274, 0x00010203);
    MixLaw(0xDD803B8B, 0xFA8CFC2D, 0x0C0D0E0F);
    NextRound(20, Block(0x97856208, 0x1099631C), 0x5C558274, Block(0xDD803B8B, 0xCB8F61E7), 0xFA8CFC2D);
    MixLaw(0xCB8F61E7, 0xFA8CFC2D, 0x04050607);
    MixLaw(0x522C00DD, 0x98C475E6, 0x08090A0B);
    NextRound(21, Block(0xDD803B8B, 0xCB8F61E7), 0xFA8CFC2D, Block(0x522C00DD, 0x9E3F7329), 0x98C475E6);
  }

  lemma Rounds24()
    ensures Reaches(24, Block(0xC1CDCCFE, 0x6F593666), 0xD5336958)
  {
    hide Mix, Reaches;
    Rounds22();
    MixLaw(0x9E3F7329, 0x98C475E6, 0x08090A0B);
    MixLaw(0x77B744A0, 0x36FBEF9F, 0x04050607);
    NextRound(22, Block(0x522C00DD, 0x9E3F7329), 0x98C475E6, Block(0x77B744A0, 0x69C1348C), 0x36FBEF9F);
    MixLaw(0x69C1348C, 0x36FBEF9F, 0x0C0D0E0F);
    MixLaw(0xC1CDCCFE, 0xD5336958, 0x04050607);
    NextRound(23, Block(0x77B744A0, 0x69C1348C), 0x36FBEF9F, Block(0xC1CDCCFE, 0x6F593666), 0xD5336958);
  }

  lemma Rounds26()
    ensures Reaches(26, Block(0xF4887559, 0x8BB651D7), 0x11A25CCA)
  {
    hide Mix, Reaches;
    Rounds24();
    MixLaw(0x6F593666, 0xD5336958, 0x00010203);
    MixLaw(0x75445A60, 0x736AE311, 0x00010203);
    NextRound(24, Block(0xC1CDCCFE, 0x6F593666), 0xD5336958, Block(0x75445A60, 0x2DB1708D), 0x736AE311);
    MixLaw(0x2DB1708D, 0x736AE311, 0x04050607);
    MixLaw(0xF4887559, 0x11A25CCA, 0x0C0D0E0F);
    NextRound(25, Block(0x75445A60, 0x2DB1708D), 0x736AE311, Block(0xF4887559, 0x8BB651D7), 0x11A25CCA);
  }

  lemma Rounds28()
    ensures Reaches(28, Block(0xC471004F, 0x5097C822), 0x4E11503C)
  {
    hide Mix, Reaches;
    Rounds26();
    MixLaw(0x8BB651D7, 0x11A25CCA, 0x08090A0B);
    MixLaw(0x47CCDC59, 0xAFD9D683, 0x08090A0B);
    NextRound(26, Block(0xF4887559, 0x8BB651D7), 0x11A25CCA, Block(0x47CCDC59, 0xFCD8F11C), 0xAFD9D683);
    MixLaw(0xFCD8F11C, 0xAFD9D683, 0x0C0D0E0F);
    MixLaw(0xC471004F, 0x4E11503C, 0x08090A0B);
    NextRound(27, Block(0x47CCDC59, 0xFCD8F11C), 0xAFD9D683, Block(0xC471004F, 0x5097C822), 0x4E11503C);
  }

  lemma Rounds30()
    ensures Reaches(30, Block(0xD53DE450, 0xA10822D4), 0x8A8043AE)
  {
    hide Mix, Reaches;
    Rounds28();
    MixLaw(0x5097C822, 0x4E11503C, 0x00010203);
    MixLaw(0xD6F3570B, 0xEC48C9F5, 0x04050607);
    NextRound(28, Block(0xC471004F, 0x5097C822), 0x4E11503C, Block(0xD6F3570B, 0x00D35711), 0xEC48C9F5);
    MixLaw(0x00D35711, 0xEC48C9F5, 0x04050607);
    MixLaw(0xD53DE450, 0x8A8043AE, 0x00010203);
    NextRound(29, Block(0xD6F3570B, 0x00D35711), 0xEC48C9F5, Block(0xD53DE450, 0xA10822D4), 0x8A8043AE);
  }

  lemma Rounds32()
    ensures Reaches(32, Block(0x497DF3D0, 0x72612CB5), 0xC6EF3720)
  {
    hide Mix, Reaches;
    Rounds30();
    MixLaw(0xA10822D4, 0x8A8043AE, 0x08090A0B);
    MixLaw(0xF959A6E3, 0x28B7BD67, 0x0C0D0E0F);
    NextRound(30, Block(0xD53DE450, 0xA10822D4), 0x8A8043AE, Block(0xF959A6E3, 0x6076A570), 0x28B7BD67);
    MixLaw(0x6076A570, 0x28B7BD67, 0x0C0D0E0F);
    MixLaw(0x497DF3D0, 0xC6EF3720, 0x08090A0B);
    NextRound(31, Block(0xF959A6E3, 0x6076A570), 0x28B7BD67, Block(0x497DF3D0, 0x72612CB5), 0xC6EF3720);
  }

  // 32 rounds, with the sum that xtea_decipher starts from.
  lemma XteaVector()
    ensures Enciphered(32, PLAIN, KEY) == Block(0x497DF3D0, 0x72612CB5)
    ensures Deciphered(32, Block(0x497DF3D0, 0x72612CB5), KEY) == PLAIN
    ensures SumAfter(32) == 0xC6EF3720
  {
    Rounds32();
    DecipherUndoesEncipher(32, PLAIN, KEY);
  }

  // The same on the bytes of a buffer, least significant first.
  lemma XteaBytes()
    ensures Crypted([0x44, 0x43, 0x42, 0x41, 0x48, 0x47, 0x46, 0x45], KEY, true)
         == [0xD0, 0xF3, 0x7D, 0x49, 0xB5, 0x2C, 0x61, 0x72]
  {
    XteaVector();
    hide Enciphered, Deciphered;
    var s: seq<byte> := [0x44, 0x43, 0x42, 0x41, 0x48, 0x47, 0x46, 0x45];
    assert s[..4] == [0x44, 0x43, 0x42, 0x41] && s[4..] == [0x48, 0x47, 0x46, 0x45];
    assert ToBlock(s) == PLAIN;
    AnswerBytes();
    hide Le32, FromLe32;
  }

  lemma AnswerBytes()
    ensures Le32(0x497DF3D0) == [0xD0, 0xF3, 0x7D, 0x49] && Le32(0x72612CB5) == [0xB5, 0x2C, 0x61, 0x72]
  {
  }
}
