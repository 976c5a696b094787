/**
  Known outputs of the generator of Mt64.dfy: the first three for the key 0x12345, 0x23456,
  0x34567, 0x45678, as published with Nishimura's implementation (mt19937-64.out.txt). The words
  on the way are written out, position by position: as seeded, as the first loop leaves it, and
  as the second does. Each is checked against the step that it comes from.
 */
module Mt64KeyVector {

  import opened Mt64
  import opened Mt64Vectors

  const KEY: Key := [0x12345, 0x23456, 0x34567, 0x45678]

  // ---------------------------------------------------------------- two kinds of steps

  /** The steps with a key of four words: one kind in the first loop, the other in the second. */
  function Steps<W>(add: (W, W, nat) -> W, take: (W, W, Small) -> W): (W, W, nat) -> W {
    (word, prev, n: nat) => if n < NN then add(word, prev, n % 4) else take(word, prev, Position(n))
  }

  /** The word at position i when it is first written, and when it is written again. */
  function Once<W>(add: (W, W, nat) -> W, take: (W, W, Small) -> W, init: seq<W>, i: nat): W
    requires 0 < i < NN == |init|
  {
    Stirred(Steps(add, take), init, i + 311)
  }

  function Twice<W>(add: (W, W, nat) -> W, take: (W, W, Small) -> W, init: seq<W>, i: nat): W
    requires 0 < i <= NN == |init|
  {
    Stirred(Steps(add, take), init, i + 622)
  }

  lemma OnceNext<W>(add: (W, W, nat) -> W, take: (W, W, Small) -> W, init: seq<W>, i: nat, word: W, prev: W, j: nat,
      next: W)
    requires 1 < i < NN == |init| && init[i] == word && Once(add, take, init, i - 1) == prev
    requires j == (i - 1) % 4 && add(word, prev, j) == next
    ensures Once(add, take, init, i) == next
  {
    assert Stirred(Steps(add, take), init, i) == word && i + 311 - NN == i - 1;
    assert Steps(add, take)(word, prev, i - 1) == next;
  }

  lemma TwiceNext<W>(add: (W, W, nat) -> W, take: (W, W, Small) -> W, init: seq<W>, i: nat, word: W, prev: W, next: W)
    requires 1 < i < NN == |init| && Once(add, take, init, i) == word && Twice(add, take, init, i - 1) == prev
    requires take(word, prev, i) == next
    ensures Twice(add, take, init, i) == next
  {
    assert Position(i + 310) == i;
  }

  /** Four positions: their numbers, and the words there. */
  lemma {:induction false} KeyFour<W>(seedStep: (W, Index) -> W, add: (W, W, nat) -> W, take: (W, W, Small) -> W,
      seed: W,
      i0: Index, a0: W, b0: W, c0: W, i1: Index, a1: W, b1: W, c1: W, i2: Index, a2: W, b2: W, c2: W,
      i3: Index, a3: W, b3: W, c3: W, i4: Index, a4: W, b4: W, c4: W)
    requires i0 % 4 == 1 && i1 == i0 + 1 && i2 == i0 + 2 && i3 == i0 + 3 && i4 == i0 + 4
    requires SeedTerm(seedStep, seed, i0) == a0 && Once(add, take, SeedTerms(seedStep, seed), i0) == b0
    requires seedStep(a0, i1) == a1 && seedStep(a1, i2) == a2 && seedStep(a2, i3) == a3 && seedStep(a3, i4) == a4
    requires add(a1, b0, 1) == b1 && add(a2, b1, 2) == b2 && add(a3, b2, 3) == b3 && add(a4, b3, 0) == b4
    requires take(b1, c0, i1) == c1 && take(b2, c1, i2) == c2 && take(b3, c2, i3) == c3 && take(b4, c3, i4) == c4
    ensures SeedTerm(seedStep, seed, i4) == a4 && Once(add, take, SeedTerms(seedStep, seed), i4) == b4
    ensures var init := SeedTerms(seedStep, seed);
      Twice(add, take, init, i0) == c0 ==>
      && Twice(add, take, init, i1) == c1 && Twice(add, take, init, i2) == c2
      && Twice(add, take, init, i3) == c3 && Twice(add, take, init, i4) == c4
  {
    var init := SeedTerms(seedStep, seed);
    SeedFour(seedStep, seed, i0, a0, i1, a1, i2, a2, i3, a3, i4, a4);
    OnceNext(add, take, init, i1, a1, b0, 1, b1);
    OnceNext(add, take, init, i2, a2, b1, 2, b2);
    OnceNext(add, take, init, i3, a3, b2, 3, b3);
    OnceNext(add, take, init, i4, a4, b3, 0, b4);
    if Twice(add, take, init, i0) == c0 {
      TwiceNext(add, take, init, i1, b1, c0, c1);
      TwiceNext(add, take, init, i2, b2, c1, c2);
      TwiceNext(add, take, init, i3, b3, c2, c3);
      TwiceNext(add, take, init, i4, b4, c3, c4);
    }
  }

  // ---------------------------------------------------------------- positions 1 to 309

  /** The step of the first loop, on word j of the key. */
  function Add(word: bv64, prev: bv64, j: nat): bv64 {
    if j == 0 then AddKey(word, prev, 0x12345, 0)
    else if j == 1 then AddKey(word, prev, 0x23456, 1)
    else if j == 2 then AddKey(word, prev, 0x34567, 2)
    else AddKey(word, prev, 0x45678, 3)
  }

  /** The words at position i: as seeded, and as the loops leave them. */
  ghost predicate At(i: Index, a: bv64, b: bv64) {
    i > 0 && SeedTerm(SeedStep, KEY_SEED, i) == a && Once(Add, TakePosition, Seeded(KEY_SEED), i) == b
  }

  ghost predicate Again(i: nat, c: bv64) {
    0 < i <= NN && Twice(Add, TakePosition, Seeded(KEY_SEED), i) == c
  }

  lemma FirstOnce<W>(seedStep: (W, Index) -> W, add: (W, W, nat) -> W, take: (W, W, Small) -> W, seed: W, word: W,
      next: W)
    requires SeedTerm(seedStep, seed, 1) == word && add(word, seed, 0) == next
    ensures Once(add, take, SeedTerms(seedStep, seed), 1) == next
  {
    var init := SeedTerms(seedStep, seed);
    assert init[0] == seed && Stirred(Steps(add, take), init, 1) == word;
    assert Steps(add, take)(word, seed, 0) == next;
  }

  lemma KeyTo1()
    ensures At(1, 0x597276B55D2511E3, 0xFF376B2D160A70F6)
  {
    SeedNext(SeedStep, KEY_SEED, 1, KEY_SEED, 0x597276B55D2511E3);
    FirstOnce(SeedStep, Add, TakePosition, KEY_SEED, 0x597276B55D2511E3, 0xFF376B2D160A70F6);
  }

  lemma KeyTo13()
    ensures At(13, 0x61C2A6072D17C7C5, 0xFFC02353E278AAC7)
    ensures Again(1, 0x927C8F0A01A393EE) ==> Again(2, 0x20D8FFBDC1559D6E)
    ensures Again(1, 0x927C8F0A01A393EE) ==> Again(3, 0xE6DAA62627F3F13)
    ensures Again(1, 0x927C8F0A01A393EE) ==> Again(13, 0x90395B8A11045362)
  {
    KeyTo1();
    KeyFour(SeedStep, Add, TakePosition, KEY_SEED, 1, 0x597276B55D2511E3, 0xFF376B2D160A70F6, 0x927C8F0A01A393EE, 2,
      0x7E4A9BB343ED42BC, 0xC4C5103EFBCEED4C, 0x20D8FFBDC1559D6E, 3, 0x37FA255698D17E3C, 0x6E52D34A49070AA0,
      0xE6DAA62627F3F13, 4, 0x7A6409FD135EF490, 0x31A4486F445A26B0, 0x3106A5AC71744373, 5, 0x3942F674E769EC82,
      0x4FCC8107B6A3A937, 0x37A25D39A4F6118B);
    KeyFour(SeedStep, Add, TakePosition, KEY_SEED, 5, 0x3942F674E769EC82, 0x4FCC8107B6A3A937, 0x37A25D39A4F6118B, 6,
      0x97F3EF11799D10E0, 0x74BDD0ECF6E65845, 0xF64D7C437928BE14, 7, 0x2AF67A8F378615C1, 0xF41013B9EAC1C7FE,
      0xCFC9F75C7A026B3E, 8, 0x77567E253CB191F5, 0x831F1E79C5490EFF, 0x358B9F32E644E5AE, 9, 0x5500E83A25A2B3ED,
      0xF40EFBA2AA15E2E1, 0x4A2F6DCF338B7E0E);
    KeyFour(SeedStep, Add, TakePosition, KEY_SEED, 9, 0x5500E83A25A2B3ED, 0xF40EFBA2AA15E2E1, 0x4A2F6DCF338B7E0E, 10,
      0x9024707D1D37B486, 0x744035920EBFE43, 0x6BAAEF494A3E1A86, 11, 0xC050EDB4062C373F, 0xB06CD9AEE473E859,
      0x534B19DC9B1EEF27, 12, 0x1429B562FB187998, 0x54A6EEFA9F19BC5A, 0x235B31CA9905C4C8, 13, 0x61C2A6072D17C7C5,
      0xFFC02353E278AAC7, 0x90395B8A11045362);
  }

  lemma KeyTo25()
    ensures At(25, 0x6CBD75807BF7F865, 0xB1FEDD9745CDD8EC)
    ensures Again(1, 0x927C8F0A01A393EE) ==> Again(25, 0x602E2454322B4A60)
  {
    KeyTo13();
    KeyFour(SeedStep, Add, TakePosition, KEY_SEED, 13, 0x61C2A6072D17C7C5, 0xFFC02353E278AAC7, 0x90395B8A11045362, 14,
      0xAFBDFA3B2E5C5982, 0x31F6C37AC158DEAD, 0x7C77452C7DC0BB3F, 15, 0xD6C77A390E223B8F, 0x1C80E95DFA5EBED7,
      0xC7EC8102CE8D1282, 16, 0xDE2C1540B00AEBAC, 0x469281E13BCE3B9A, 0x3706208AE61DC2D7, 17, 0x9421C1CA7DB23ED4,
      0x5A73D8EF95064598, 0x3861E436A32B1BD2);
    KeyFour(SeedStep, Add, TakePosition, KEY_SEED, 17, 0x9421C1CA7DB23ED4, 0x5A73D8EF95064598, 0x3861E436A32B1BD2, 18,
      0x1F2D9BF7A00F35B0, 0x8579438EBBF32F24, 0xE619FDA978E9F19C, 19, 0x84911FA92DBEC003, 0xC3AE77CF0AD45E26,
      0xAEB72E77417543F2, 20, 0xE51D73A1B85D3F41, 0x58C85AEA1E0891F3, 0xDA94B3048A91B5AF, 21, 0x2EF7918B142FDCAF,
      0xD29A08220D78DF5A, 0x9CF64E61B45E1591);
    KeyFour(SeedStep, Add, TakePosition, KEY_SEED, 21, 0x2EF7918B142FDCAF, 0xD29A08220D78DF5A, 0x9CF64E61B45E1591, 22,
      0x38C92098B0BF9BD9, 0x2297FC780CA2A03B, 0xD8F6F0C94542C266, 23, 0xA9C07575414C0C3C, 0x87CF391967C21504,
      0xFCE4CCB726CD98BE, 24, 0xA362A4CCBC86E8FE, 0x7F540CFFE15DE55B, 0xC621889EBE7C077A, 25, 0x6CBD75807BF7F865,
      0xB1FEDD9745CDD8EC, 0x602E2454322B4A60);
  }

  lemma KeyTo37()
    ensures At(37, 0x1BFFB05FD6640E7D, 0x2D079FD464E80AE2)
    ensures Again(1, 0x927C8F0A01A393EE) ==> Again(37, 0xD2AD4D9D51C2B735)
  {
    KeyTo25();
    KeyFour(SeedStep, Add, TakePosition, KEY_SEED, 25, 0x6CBD75807BF7F865, 0xB1FEDD9745CDD8EC, 0x602E2454322B4A60, 26,
      0xBE2823BB110445AE, 0xC834DC525AC0345F, 0xD53C8087FB5B0568, 27, 0xE74A70BAB96C9357, 0xA8E75CD377688A04,
      0x71FC3510545560A0, 28, 0x33D29082251091E0, 0x46FB5FE7FA3A1579, 0x1DE0358C9A453A48, 29, 0xC747999723A7C47D,
      0xF77CD83A3A6B8E6A, 0xC1D1AC322D979725);
    KeyFour(SeedStep, Add, TakePosition, KEY_SEED, 29, 0xC747999723A7C47D, 0xF77CD83A3A6B8E6A, 0xC1D1AC322D979725, 30,
      0x77F92B62444E0C44, 0x7F5E113EF0DA1420, 0x8E1E873ECA009490, 31, 0x1F0A395B59F76340, 0x2238FC0A4F763CCE,
      0xC68D45D364610865, 32, 0xA76A7644EF93260, 0xB92288B04ED7D1E1, 0x9937EC04371CBD0F, 33, 0x3EEB7CAE53AB7B01,
      0x38EF2D3D9EBFC033, 0x23294C0D93F005C9);
    KeyFour(SeedStep, Add, TakePosition, KEY_SEED, 33, 0x3EEB7CAE53AB7B01, 0x38EF2D3D9EBFC033, 0x23294C0D93F005C9, 34,
      0x9E3F94A6AABF1E4F, 0x68F05D4E777AD87, 0x7F7A1213D6284A00, 35, 0x9674A5C5527186AC, 0x61C4B01031992BF8,
      0xC7191665F1F8F8E2, 36, 0x80713C3ADB0AFEBA, 0xAE20D763ADEE3862, 0xCF8430C8A2369E1B, 37, 0x1BFFB05FD6640E7D,
      0x2D079FD464E80AE2, 0xD2AD4D9D51C2B735);
  }

  lemma KeyTo49()
    ensures At(49, 0x23373C8E8FA2178E, 0xFAD0667E30B1A066)
    ensures Again(1, 0x927C8F0A01A393EE) ==> Again(49, 0xC78AA2FF81B05FDC)
  {
    KeyTo37();
    KeyFour(SeedStep, Add, TakePosition, KEY_SEED, 37, 0x1BFFB05FD6640E7D, 0x2D079FD464E80AE2, 0xD2AD4D9D51C2B735, 38,
      0x7AD1B8B6DD878F1F, 0x367441B91164FECC, 0x1B424E160BE0CE6C, 39, 0x2B6E1EB4654A0A6D, 0x7B72BF8B4CE5DEFA,
      0x58E457EE65B39E1F, 40, 0xD5188C4EF6A0E851, 0x1A615599BEB7CBB1, 0xA338B6C13B6027EF, 41, 0x27C22544BD438493,
      0x977F07E5C7F308AB, 0x2BF67604F0996D69);
    KeyFour(SeedStep, Add, TakePosition, KEY_SEED, 41, 0x27C22544BD438493, 0x977F07E5C7F308AB, 0x2BF67604F0996D69, 42,
      0x808D447891323B01, 0x5D9042B10F626223, 0x15A0C67FD56B32BC, 43, 0x6D1A8081ADD9DCB2, 0x46A74B745BF7CA81,
      0x382CE61FF8E5A922, 44, 0x30C930D43BF798A3, 0xEBFA58D9FCEA829E, 0xFA9BEB81E87503D8, 45, 0xAB7F78219A1DB1D4,
      0x333FA5F6C237F28A, 0x658DC08693ECADB8);
    KeyFour(SeedStep, Add, TakePosition, KEY_SEED, 45, 0xAB7F78219A1DB1D4, 0x333FA5F6C237F28A, 0x658DC08693ECADB8, 46,
      0x80BE880EDBFF6CCC, 0x5C02B89EB34FCFD5, 0xF4FB27A255C90FD2, 47, 0x1DBBA1EDDEC65265, 0x67A666D58A89BCAA,
      0x5DD2ED1493CDECF8, 48, 0x263FC1F97C8596F1, 0x99723C0848B5E5A1, 0xF076723B972B8784, 49, 0x23373C8E8FA2178E,
      0xFAD0667E30B1A066, 0xC78AA2FF81B05FDC);
  }

  lemma KeyTo61()
    ensures At(61, 0xE61D718EC4A2181F, 0x2046D555B3CDBC5B)
    ensures Again(1, 0x927C8F0A01A393EE) ==> Again(61, 0xD0AD8A73497ABBC6)
  {
    KeyTo49();
    KeyFour(SeedStep, Add, TakePosition, KEY_SEED, 49, 0x23373C8E8FA2178E, 0xFAD0667E30B1A066, 0xC78AA2FF81B05FDC, 50,
      0x2B3D929C86D39628, 0x9A26F5393E0BEDA8, 0x1D93EAEFD183E299, 51, 0x93A73B28EFF73D3B, 0x45292F0D0BB9B7D2,
      0xE82196A038E996B4, 52, 0x4CA8DD5664020A39, 0xDF58B8BFCDBEBE21, 0x7FD1244B38F97CC6, 53, 0xBA46BFDD2A05940D,
      0x6D243A47C8C9D4EC, 0x597214D846E0F412);
    KeyFour(SeedStep, Add, TakePosition, KEY_SEED, 53, 0xBA46BFDD2A05940D, 0x6D243A47C8C9D4EC, 0x597214D846E0F412, 54,
      0xE0A9E18FC82977D9, 0x5F03F8E05E2DBA4F, 0x21FFA008D803FC52, 55, 0x4E5EA39C3BA13789, 0xF69C8DEE0B451078,
      0x56EBCA56E48DAD3B, 56, 0xCBBC3845280B3B20, 0x43D80A172C424642, 0x5FF690CAD8BE53D8, 57, 0xF48D98446BAEC260,
      0x4BDE1C41024A62F4, 0x51535DC323A46F48);
    KeyFour(SeedStep, Add, TakePosition, KEY_SEED, 57, 0xF48D98446BAEC260, 0x4BDE1C41024A62F4, 0x51535DC323A46F48, 58,
      0x3389CB4627C648A1, 0xA49E9D20C31313F, 0x295CA7F4B0519E0, 59, 0xDCB9C5556D97A388, 0x41892CA650E2FA9C,
      0x78A64A61DF3668C1, 60, 0x7F521AA0F1B0B4AB, 0xEC5FF66847DB8B5, 0x6BAB7032C0B43D39, 61, 0xE61D718EC4A2181F,
      0x2046D555B3CDBC5B, 0xD0AD8A73497ABBC6);
  }

  lemma KeyTo73()
    ensures At(73, 0x2B43CF3B8E634C7, 0xADBB9DF62669D73D)
    ensures Again(1, 0x927C8F0A01A393EE) ==> Again(73, 0xF204C520D1DA2E05)
  {
    KeyTo61();
    KeyFour(SeedStep, Add, TakePosition, KEY_SEED, 61, 0xE61D718EC4A2181F, 0x2046D555B3CDBC5B, 0xD0AD8A73497ABBC6, 62,
      0xD950481152C0212A, 0xBEAC20D38E2695C4, 0x7D304C0477F59437, 63, 0x5EDD5EF955162B74, 0x1775BCFE9296E813,
      0xE77FB59B502E710E, 64, 0xD9BEA568FB8DAED1, 0x49CF8E497953E689, 0x66489EC6DD4F10, 65, 0xE54848699DBE92B,
      0x1E2C91B5D222F8C8, 0xE0E8D36FA830D9D7);
    KeyFour(SeedStep, Add, TakePosition, KEY_SEED, 65, 0xE54848699DBE92B, 0x1E2C91B5D222F8C8, 0xE0E8D36FA830D9D7, 66,
      0xBF1EE0C39E5B51D1, 0xD99918CEF6195A90, 0x3B57F129ADD05BD2, 67, 0x1A9A537A67740F5A, 0x600BA41AFB44796E,
      0xED153C1C1F2F67A1, 68, 0xC3018BC46A665916, 0x25010C7F826A9538, 0xDCA2697A94125DDE, 69, 0x5D0EFF048F6813F6,
      0x8CEBDE46E598133, 0x66E1B77B67C73215);
    KeyFour(SeedStep, Add, TakePosition, KEY_SEED, 69, 0x5D0EFF048F6813F6, 0x8CEBDE46E598133, 0x66E1B77B67C73215, 70,
      0x35DA62DDC9F60BB1, 0xE2C632E0ADDEDC25, 0x5E9D1441D1D4E19B, 71, 0xBFE0C1F7EA11DD64, 0xEFCDD572BD65AA43,
      0xC691F38CB7397F2A, 72, 0x2F3C2C126578536, 0xB48CE1D443A50CF1, 0xFB0CB7A0E5CBD72C, 73, 0x2B43CF3B8E634C7,
      0xADBB9DF62669D73D, 0xF204C520D1DA2E05);
  }

  lemma KeyTo85()
    ensures At(85, 0xF8E5138879FF2EA4, 0x87269332537633D7)
    ensures Again(1, 0x927C8F0A01A393EE) ==> Again(85, 0x71A8915668672306)
  {
    KeyTo73();
    KeyFour(SeedStep, Add, TakePosition, KEY_SEED, 73, 0x2B43CF3B8E634C7, 0xADBB9DF62669D73D, 0xF204C520D1DA2E05, 74,
      0xBE66883480790045, 0x1B8953454BEB8955, 0x89AD701B79881271, 75, 0x9A4A67F3D9BB45C6, 0x74347530E94B4758,
      0xF4334E7D15720CB4, 76, 0x25A5A50AF89B7FC0, 0xADE9F3C38A0DE78, 0x7CBB5EDFE1E4BE57, 77, 0x7107C5713275B50D,
      0xC2D94AF46FDFCC9A, 0x52235B81D8D4F617);
    KeyFour(SeedStep, Add, TakePosition, KEY_SEED, 77, 0x7107C5713275B50D, 0xC2D94AF46FDFCC9A, 0x52235B81D8D4F617, 78,
      0xB73A704C337DC76A, 0x1B7B90A96948696E, 0x156CB0F1158E3A82, 79, 0xF5B207A06290A597, 0x67844D98E4E9C31A,
      0x42EB111A39C0F111, 80, 0x4C2627364B58754, 0x90B342F3B6CDBCE, 0x60ECE2EBDF05E6CE, 81, 0x3E8AE8D775EF7615,
      0x6196E4A0B685B558, 0xFA49898FF856DF7A);
    KeyFour(SeedStep, Add, TakePosition, KEY_SEED, 81, 0x3E8AE8D775EF7615, 0x6196E4A0B685B558, 0xFA49898FF856DF7A, 82,
      0xF0A152807CE52D03, 0x2BFAD804DA926795, 0xE53D2648433C6CAE, 83, 0x1E52E24AD69BE953, 0x4D4774700B10D7A3,
      0x4B54279BE44E8107, 84, 0xF283939837730EB, 0xA0A51BB461522C3C, 0x81B4B6D9193B8E7E, 85, 0xF8E5138879FF2EA4,
      0x87269332537633D7, 0x71A8915668672306);
  }

  lemma KeyTo97()
    ensures At(97, 0x54BA3DB57657F1D7, 0x7F120C39E003402E)
    ensures Again(1, 0x927C8F0A01A393EE) ==> Again(97, 0x66810EB17D3A7168)
  {
    KeyTo85();
    KeyFour(SeedStep, Add, TakePosition, KEY_SEED, 85, 0xF8E5138879FF2EA4, 0x87269332537633D7, 0x71A8915668672306, 86,
      0x1CC5463DC5330CB1, 0xC15944786542886F, 0x7153AAAEBE90E52E, 87, 0x5317DB47EC4A0A74, 0x991E328D78F8C3D1,
      0x4C44AAE434EA0C4B, 88, 0xDFD16A1164CE1E9, 0xB58C17D2BD259EF1, 0xF723FC1A11849B7B, 89, 0xC7A67C26B8334D4E,
      0x7594BBD7C47C4FB6, 0x352F312610C69D5);
    KeyFour(SeedStep, Add, TakePosition, KEY_SEED, 89, 0xC7A67C26B8334D4E, 0x7594BBD7C47C4FB6, 0x352F312610C69D5, 90,
      0xA5227387AE2EC9E3, 0x15AC6209BA0AEF47, 0x5E0519913D7DE86C, 91, 0x12E1D3FA20551BE8, 0x4B97EC22080A1874,
      0x92F0DEFD9323BB72, 92, 0x5E00769C05D60024, 0xE136FD2FD47ED668, 0x91D6C1E43C53EB7C, 93, 0xDDED786C423961DE,
      0x8B869258089AFE8E, 0x6582E846A1ECA4AB);
    KeyFour(SeedStep, Add, TakePosition, KEY_SEED, 93, 0xDDED786C423961DE, 0x8B869258089AFE8E, 0x6582E846A1ECA4AB, 94,
      0x50714C2EAD43D737, 0xC89C8683D42799E2, 0xB8FF31E046D40582, 95, 0x5172D507671E9EDD, 0x738486DB516C13A1,
      0x65866BD95A3D7BC2, 96, 0xAC31D71D173D110C, 0x73514ED83B2BD9A7, 0xCCBCFB4B65C285B0, 97, 0x54BA3DB57657F1D7,
      0x7F120C39E003402E, 0x66810EB17D3A7168);
  }

  lemma KeyTo109()
    ensures At(109, 0xAD147FDC7C52C8D, 0x45FC8EB56F0E7C74)
    ensures Again(1, 0x927C8F0A01A393EE) ==> Again(109, 0x812DD70F04576980)
  {
    KeyTo97();
    KeyFour(SeedStep, Add, TakePosition, KEY_SEED, 97, 0x54BA3DB57657F1D7, 0x7F120C39E003402E, 0x66810EB17D3A7168, 98,
      0xC7C55634B7FCAD00, 0xDFA04603C3C78C2, 0x99B133B37BD63BA5, 99, 0xC906AD7F47FDE6EA, 0x196A6F3863D4E189,
      0xB7E75B74DC5F251F, 100, 0x3A2396602ECC2E59, 0xBCE7A724F9AF23EF, 0x508F512DFBD4BDE2, 101, 0xBF4FA5DEAAF4D0A,
      0xB87ADA10BC3BD370, 0x419557FBD8E069C2);
    KeyFour(SeedStep, Add, TakePosition, KEY_SEED, 101, 0xBF4FA5DEAAF4D0A, 0xB87ADA10BC3BD370, 0x419557FBD8E069C2,
      102, 0x63024F9806DA8128, 0x20FD8922984F9D69, 0xCC541362B1C10878, 103, 0x6FE60CD9F3590B9C, 0x833A52D4B5A2DA7A,
      0xEEF4E9BBA68B2B8E, 104, 0x454F22E851CAEE01, 0x282E3EED69823CD4, 0x344365ABF8E8C625, 105, 0xD43E132E92BDD669,
      0x55C7767E34F93392, 0x320437A6F64C709A);
    KeyFour(SeedStep, Add, TakePosition, KEY_SEED, 105, 0xD43E132E92BDD669, 0x55C7767E34F93392, 0x320437A6F64C709A,
      106, 0x1B5EF6C33C6F470C, 0xAE742F76058AF3AA, 0xF0F46CD6935FDB2E, 107, 0xCBC25E44BDCA7187, 0x57CDEBFCFBA7E538,
      0xEA321FB60DFD6DD6, 108, 0x1FD500F80CBA70A0, 0xBE4CBA32BADEC3B8, 0x3EA80D3C5EB937CD, 109, 0xAD147FDC7C52C8D,
      0x45FC8EB56F0E7C74, 0x812DD70F04576980);
  }

  lemma KeyTo121()
    ensures At(121, 0x32E2531672834041, 0x4263E8B1FA045CE7)
    ensures Again(1, 0x927C8F0A01A393EE) ==> Again(121, 0x719B10FF1454B0D8)
  {
    KeyTo109();
    KeyFour(SeedStep, Add, TakePosition, KEY_SEED, 109, 0xAD147FDC7C52C8D, 0x45FC8EB56F0E7C74, 0x812DD70F04576980,
      110, 0x9440957CB8D3C837, 0x6DA4F4E66745F055, 0x29DECBD1D0954C1, 111, 0xACB4EA1D0657CC0, 0x9D4DF1BC07FF40CD,
      0x258D41E22FD23201, 112, 0x654972AE967A2E30, 0x8090931BCA850936, 0xB6BEE22B6649135B, 113, 0x2F1972C77EE96E0E,
      0xB80F2613A80E1D4F, 0x5701B08E27BB5349);
    KeyFour(SeedStep, Add, TakePosition, KEY_SEED, 113, 0x2F1972C77EE96E0E, 0xB80F2613A80E1D4F, 0x5701B08E27BB5349,
      114, 0x5D90000652C74AE8, 0xC078BCCF3AED9B40, 0x67E0A8FD7C0F54F6, 115, 0x12BBBB5E30CEC268, 0x1C4C58ADCB1C2A10,
      0xFC1238BD1B7CE198, 116, 0x59CEC01B2D51C4BC, 0xE384FB718D1E6567, 0xFFF9AAE500BE2D4, 117, 0x5A9BA07B25FA58AE,
      0x576812EF6CC9339F, 0x8F24F66069B9D7A6);
    KeyFour(SeedStep, Add, TakePosition, KEY_SEED, 117, 0x5A9BA07B25FA58AE, 0x576812EF6CC9339F, 0x8F24F66069B9D7A6,
      118, 0x99D31D4970DB6839, 0xCB6FC9B3FBCD0F86, 0x361962780667D21C, 119, 0xD777F5E9DD9D97D6, 0xBCD8EE8E6391A238,
      0xACF127D48FDC471D, 120, 0x5DCDB94ABDFF5BE9, 0x726C3581870D2C46, 0xC3673D445CEAB56D, 121, 0x32E2531672834041,
      0x4263E8B1FA045CE7, 0x719B10FF1454B0D8);
  }

  lemma KeyTo133()
    ensures At(133, 0x6D4C586596A2C2A6, 0xAA38C64C6E581405)
    ensures Again(1, 0x927C8F0A01A393EE) ==> Again(133, 0x64BEA5B4E730A4E9)
  {
    KeyTo121();
    KeyFour(SeedStep, Add, TakePosition, KEY_SEED, 121, 0x32E2531672834041, 0x4263E8B1FA045CE7, 0x719B10FF1454B0D8,
      122, 0x25F19AA5EFC78AE7, 0x1A07C3AA329B8BF0, 0xD4616D2967EC7D0B, 123, 0x7E82E41A906F0416, 0xC84A64E023840D0F,
      0xE32823F35BA91D6C, 124, 0x3932F031ABEE2187, 0xA0F0874E0C66F136, 0xEAA7EA4793C89709, 125, 0x1398314EF310DE38,
      0xB8CDEC64C24CE581, 0x6C1C7285D3B8C0E6);
    KeyFour(SeedStep, Add, TakePosition, KEY_SEED, 125, 0x1398314EF310DE38, 0xB8CDEC64C24CE581, 0x6C1C7285D3B8C0E6,
      126, 0x72CFC0180ECCD856, 0x1723004CD013D6B0, 0x2EC7FE556216A27D, 127, 0x64F21450F7F830CA, 0xC01C781EFC6F2F23,
      0x49D9A741DD6BAA2B, 128, 0x10BCCEDF60FC492F, 0x2C67C8186104690A, 0x7E47CAD69A406208, 129, 0x26983034C1022EC4,
      0x5A409027DB954A3B, 0xB011220901A2585D);
    KeyFour(SeedStep, Add, TakePosition, KEY_SEED, 129, 0x26983034C1022EC4, 0x5A409027DB954A3B, 0xB011220901A2585D,
      130, 0x2EA4A9A16AA974F6, 0x48438233A99ED72B, 0xD0C785A4BD1C7246, 131, 0x5ED04FE1EBFD99C1, 0xB64E5A7B0579CC7C,
      0xF7C433DA636591CA, 132, 0x6AABC9C8C79A4744, 0xEA0F8E817B4ECEAD, 0xD16DEFF433858C84, 133, 0x6D4C586596A2C2A6,
      0xAA38C64C6E581405, 0x64BEA5B4E730A4E9);
  }

  lemma KeyTo145()
    ensures At(145, 0xBC6FEE03DC70C125, 0x72C081A48D3369D6)
    ensures Again(1, 0x927C8F0A01A393EE) ==> Again(145, 0x846BB3E2C6D06CC2)
  {
    KeyTo133();
    KeyFour(SeedStep, Add, TakePosition, KEY_SEED, 133, 0x6D4C586596A2C2A6, 0xAA38C64C6E581405, 0x64BEA5B4E730A4E9,
      134, 0x4D195176186010E1, 0xD969309658556499, 0xEC04A307FBA71D4B, 135, 0xC5AE142643A217E7, 0x927C3A0C7AC6834E,
      0xA4A7C7E7CB0FF2DF, 136, 0x835985CAE50C4F9C, 0x2EC600F02A65FC5B, 0x31D1D8B602CF07AA, 137, 0x1B3DBADE9D9F614F,
      0x5F4BDD4DAC24044D, 0xEDC70AA6AA9B76C6);
    KeyFour(SeedStep, Add, TakePosition, KEY_SEED, 137, 0x1B3DBADE9D9F614F, 0x5F4BDD4DAC24044D, 0xEDC70AA6AA9B76C6,
      138, 0xD3ADBEDDDD454C6D, 0x882519E94187D768, 0x8FA5646A463C074F, 139, 0x4CE241216A1F01E1, 0xE385DC6FF0FA475C,
      0x50917FF2BEB25FBA, 140, 0x6325D37FA0C174EC, 0x391E9C8058175832, 0x545A81A0DDBE7371, 141, 0x4B04EF27A4F42136,
      0x8CA2ED1149FC6211, 0xD26081CCC8697714);
    KeyFour(SeedStep, Add, TakePosition, KEY_SEED, 141, 0x4B04EF27A4F42136, 0x8CA2ED1149FC6211, 0xD26081CCC8697714,
      142, 0xB287736BC4672039, 0xC1E7F5D5A1E9B53D, 0x3FED6DF6330333F8, 143, 0xB9D9456F574EFEE, 0x8A8E389CA592CA41,
      0x7749CA5285F615CA, 144, 0xB350D02E761B3F66, 0x315B0E4F23280524, 0x96EA92F9B8971C2B, 145, 0xBC6FEE03DC70C125,
      0x72C081A48D3369D6, 0x846BB3E2C6D06CC2);
  }

  lemma KeyTo157()
    ensures At(157, 0xFAA9460640ED9849, 0x2B3CC609DAA0DDFE)
    ensures Again(1, 0x927C8F0A01A393EE) ==> Again(156, 0xF31356765166FA3)
    ensures Again(1, 0x927C8F0A01A393EE) ==> Again(157, 0x7A390165D25CB94C)
  {
    KeyTo145();
    KeyFour(SeedStep, Add, TakePosition, KEY_SEED, 145, 0xBC6FEE03DC70C125, 0x72C081A48D3369D6, 0x846BB3E2C6D06CC2,
      146, 0x11B3A7DCAF574D6D, 0x822ECBE7CE05DD35, 0x6DC7B71604BAA463, 147, 0x73FC75BC8E32AFBC, 0xD76055C51BE11E98,
      0xC5D058CAB536C9AF, 148, 0x3F514958918A7CD, 0x78378DD8CE8102C5, 0xA0CE22AFD28A8BA5, 149, 0xD028CD7FDAE5329E,
      0xCD7BE5E08FEEBC8F, 0x7B7C9491E95067EF);
    KeyFour(SeedStep, Add, TakePosition, KEY_SEED, 149, 0xD028CD7FDAE5329E, 0xCD7BE5E08FEEBC8F, 0x7B7C9491E95067EF,
      150, 0x4FB989173FC6C92F, 0x7AD2A557E66ED5EA, 0x7EB3B3D337E48346, 151, 0xE555F93C93852FAD, 0x7B5C62BA4A391D23,
      0xB8F7F2F042DF8F71, 152, 0xC8B87D176956B42E, 0x7DDDCC7A8F9B8AFF, 0xF6F9636C82045DC0, 153, 0x3298373CC1D0FF82,
      0x90603DFDD76A6BB9, 0x7751EEBE1EBCD175);
    KeyFour(SeedStep, Add, TakePosition, KEY_SEED, 153, 0x3298373CC1D0FF82, 0x90603DFDD76A6BB9, 0x7751EEBE1EBCD175,
      154, 0x6576862E0F286874, 0xC00BA7215A7DC9AA, 0x1C02C6A306277574, 155, 0xDA6421B63E05682C, 0x833C9A9A74E5794A,
      0xB6D7513B559BAA53, 156, 0xF6EE26242CFDA1DF, 0x8F05A27D0B897232, 0xF31356765166FA3, 157, 0xFAA9460640ED9849,
      0x2B3CC609DAA0DDFE, 0x7A390165D25CB94C);
  }

  lemma KeyTo169()
    ensures At(169, 0x3A16ACC644C9C1BD, 0x76AD6B58937227FB)
    ensures Again(1, 0x927C8F0A01A393EE) ==> Again(158, 0xC33700CF9972F016)
    ensures Again(1, 0x927C8F0A01A393EE) ==> Again(169, 0x8493B8C93469C744)
  {
    KeyTo157();
    KeyFour(SeedStep, Add, TakePosition, KEY_SEED, 157, 0xFAA9460640ED9849, 0x2B3CC609DAA0DDFE, 0x7A390165D25CB94C,
      158, 0x24BD09D0E3627BA0, 0xA122382A3D8AE1AD, 0xC33700CF9972F016, 159, 0xEAF32AAB47C41BBF, 0xA1A828A55CBB90BD,
      0x7CE6338291AE23DD, 160, 0x8C4C8621DBA724AC, 0xA46D0AA4EB8F6712, 0x7E7662DFB68FD6DE, 161, 0x154E21AD88D9C537,
      0x335D2C13A1F5E1AC, 0x2E942C3403C54B2E);
    KeyFour(SeedStep, Add, TakePosition, KEY_SEED, 161, 0x154E21AD88D9C537, 0x335D2C13A1F5E1AC, 0x2E942C3403C54B2E,
      162, 0x8CB9665C3420F44D, 0x38AAF99333059A68, 0x435A1A0F7C4F757C, 163, 0xB12819AA28F92386, 0xFA09EDE0670D38F7,
      0x90F125484B3033DB, 164, 0xC364CAFDA83DBAD8, 0xE0ECEA579C1F6E97, 0xE9CD1C31A67033E, 165, 0x9D3E58F2F8037E24,
      0x7CF7EEFA89EEC405, 0x195C19C95F460F9E);
    KeyFour(SeedStep, Add, TakePosition, KEY_SEED, 165, 0x9D3E58F2F8037E24, 0x7CF7EEFA89EEC405, 0x195C19C95F460F9E,
      166, 0x6000F3E908500754, 0x2F1D7D298D8F0997, 0xD884B6F7EC15060B, 167, 0xC53861C8AA2D7598, 0xE4F8158479D59754,
      0xA64D90A15BB9E215, 168, 0xDBDCB050EE8C91E7, 0x1DCB24DAE0C9EF4F, 0xB61813EDE23DAF4C, 169, 0x3A16ACC644C9C1BD,
      0x76AD6B58937227FB, 0x8493B8C93469C744);
  }

  lemma KeyTo181()
    ensures At(181, 0xC46F03D5DB576C58, 0x7B86681EABCBC17E)
    ensures Again(1, 0x927C8F0A01A393EE) ==> Again(181, 0x8689EB4475FC72D3)
  {
    KeyTo169();
    KeyFour(SeedStep, Add, TakePosition, KEY_SEED, 169, 0x3A16ACC644C9C1BD, 0x76AD6B58937227FB, 0x8493B8C93469C744,
      170, 0x8A70DC250D94D1E3, 0x3C10930B5DD5CF58, 0x30E9F39F327FDECC, 171, 0x700A82BA2B3C8438, 0x9411AC1FF2F329E9,
      0x5FA79CA4633845CA, 172, 0xF99709AB806885B1, 0xE5C6A4438F787021, 0xAAC940CF4850F912, 173, 0x768B4AA154CCEF7,
      0x876197D6E05974A2, 0x60290A222E184FC5);
    KeyFour(SeedStep, Add, TakePosition, KEY_SEED, 173, 0x768B4AA154CCEF7, 0x876197D6E05974A2, 0x60290A222E184FC5,
      174, 0x3C442307A2EFEB19, 0xB43DB134FFA55090, 0x919059638838C376, 175, 0x58552900EB5ABB14, 0x22CA98F9B48DB837,
      0x30F055AC86B550E4, 176, 0x2C9F7BF580FB4E61, 0x294D06097096CA6D, 0xC140214CD11B7A89, 177, 0x56487DBAC283E6BE,
      0xFA911C542DEC3E64, 0x2B4CC178BCAAC355);
    KeyFour(SeedStep, Add, TakePosition, KEY_SEED, 177, 0x56487DBAC283E6BE, 0xFA911C542DEC3E64, 0x2B4CC178BCAAC355,
      178, 0x541CBB2CA1D35145, 0xB769B56B4FABCA1D, 0xA79009A6B7D6B06A, 179, 0x2D0B1032C40A05A7, 0xDBC402A71BF5EC25,
      0x7BDDF2907C063A3A, 180, 0x1CB7460B4CC3D80F, 0x7CAA6CAACAA1282C, 0x74AAEAA7356133AF, 181, 0xC46F03D5DB576C58,
      0x7B86681EABCBC17E, 0x8689EB4475FC72D3);
  }

  lemma KeyTo193()
    ensures At(193, 0x84F0AF862810645C, 0xB00E4AEA19C62CC0)
    ensures Again(1, 0x927C8F0A01A393EE) ==> Again(193, 0x450133AC51C8BCC4)
  {
    KeyTo181();
    KeyFour(SeedStep, Add, TakePosition, KEY_SEED, 181, 0xC46F03D5DB576C58, 0x7B86681EABCBC17E, 0x8689EB4475FC72D3,
      182, 0xC5712A74021631B5, 0x3ABAE17069452AA5, 0x8ECB66D739580172, 183, 0xCEF60618577E07B5, 0x659337AF90BC0A75,
      0xFE83EDACA94A610E, 184, 0xB5804F516BE8A5B6, 0x943418202F3B66D, 0xCC6FD8707D96EFC, 185, 0xE91CE61643DD6D5D,
      0xA15000B1B0201841, 0x271D71F2DF4FF694);
    KeyFour(SeedStep, Add, TakePosition, KEY_SEED, 185, 0xE91CE61643DD6D5D, 0xA15000B1B0201841, 0x271D71F2DF4FF694,
      186, 0xBC3C8B7356E3DC40, 0x2322E29A8A39FFE6, 0xD84D8B1DB7758EE8, 187, 0x5C9E92FE1ABC7655, 0x56CEBCDB11E93F94,
      0xDCA7160A5E16F0F0, 188, 0x951E458400B87980, 0xDBB266F134692164, 0xE6DDB0E7BA0A1087, 189, 0xF73927DAF55EDA97,
      0x766FEBCAD688C59, 0x82F6179E13659D70);
    KeyFour(SeedStep, Add, TakePosition, KEY_SEED, 189, 0xF73927DAF55EDA97, 0x766FEBCAD688C59, 0x82F6179E13659D70,
      190, 0x95F01654583FD8C2, 0x9A0E377D080A3E56, 0xDC3BD7A36C00C73E, 191, 0x72222FDD57805A7F, 0x706303BEA5509D44,
      0x4AA11494CFFE494E, 192, 0x413D410921CA6AE6, 0x489061DC6DC91BBA, 0xC3CAD591DCDD7E9, 193, 0x84F0AF862810645C,
      0xB00E4AEA19C62CC0, 0x450133AC51C8BCC4);
  }

  lemma KeyTo205()
    ensures At(205, 0x52FD042EF3995678, 0x1816C092148E2375)
    ensures Again(1, 0x927C8F0A01A393EE) ==> Again(205, 0x6C4CDB042911519D)
  {
    KeyTo193();
    KeyFour(SeedStep, Add, TakePosition, KEY_SEED, 193, 0x84F0AF862810645C, 0xB00E4AEA19C62CC0, 0x450133AC51C8BCC4,
      194, 0x7EA5D4517F624748, 0x648BD2F05B62EDD9, 0xBAF04CE224FB12A6, 195, 0x30C2DB74F20BF98, 0xD2ADDEF938084C09,
      0xD0A4A14D4DBA5F5A, 196, 0x99774E22CB46167C, 0xDDD936E3D83637C9, 0x4F88D9D6B6DB5C78, 197, 0xEEF52993FFD076EB,
      0x2E531299B4C8EA5E, 0x73770CAB5C457906);
    KeyFour(SeedStep, Add, TakePosition, KEY_SEED, 197, 0xEEF52993FFD076EB, 0x2E531299B4C8EA5E, 0x73770CAB5C457906,
      198, 0xCC30895677A9FF8E, 0x753E96631D0F4FAF, 0x9122F3CAC4A2237E, 199, 0xF7957728F7B9DF90, 0x8CFD92DD71132E5F,
      0x1722A2F7E4F17F0C, 200, 0x2A0E0B7E86253A9F, 0xCDC419F1A07A1A49, 0xE53A90C05638D3CD, 201, 0xE15CC4CF5F2B2FBC,
      0x11429D8D8B41513, 0x87BBFEEB5FD2E6BC);
    KeyFour(SeedStep, Add, TakePosition, KEY_SEED, 201, 0xE15CC4CF5F2B2FBC, 0x11429D8D8B41513, 0x87BBFEEB5FD2E6BC,
      202, 0x676D1F8CA572265D, 0x5B16C6B8BB91EDD9, 0x1A348D673D214355, 203, 0x138BEECC59A462F7, 0x3EAB099359382138,
      0x89DB075F3CA1D96E, 204, 0x2AFD25DE3CC0EF37, 0x94BFBB8D77B33BAA, 0x65E6314EE81D234A, 205, 0x52FD042EF3995678,
      0x1816C092148E2375, 0x6C4CDB042911519D);
  }

  lemma KeyTo217()
    ensures At(217, 0x929652984363CD71, 0x856D8557FFD99D92)
    ensures Again(1, 0x927C8F0A01A393EE) ==> Again(217, 0x81322929057766E3)
  {
    KeyTo205();
    KeyFour(SeedStep, Add, TakePosition, KEY_SEED, 205, 0x52FD042EF3995678, 0x1816C092148E2375, 0x6C4CDB042911519D,
      206, 0x67DADC4A24473B13, 0xD910A57EC3BE4231, 0xDF29A20F1EC6A44F, 207, 0x34324E30704D50F9, 0x65EF1871B015266C,
      0x1B5FA3E6B391B8A1, 208, 0xAAB7A70925AFC395, 0x2FDBBECC752160AF, 0x21EF0F690E8346E2, 209, 0xFEC151367CD04B5C,
      0x5F39A2679C3E23FC, 0xE746561C1DE64DD5);
    KeyFour(SeedStep, Add, TakePosition, KEY_SEED, 209, 0xFEC151367CD04B5C, 0x5F39A2679C3E23FC, 0xE746561C1DE64DD5,
      210, 0x1A8C95CE584C6185, 0x94C643C54E7AC94B, 0x33C192387144C463, 211, 0xC1CCACDCA8372034, 0xF51FF21F1A5AEF42,
      0xD8DF5F6F6B50C9C2, 212, 0xEEE6358DFEAEF37F, 0xBDCE715646AF0F35, 0x47AE4F6C53931BB4, 213, 0xB559043716B751A1,
      0xA4745C1835944477, 0x19B336F90F4A94C1);
    KeyFour(SeedStep, Add, TakePosition, KEY_SEED, 213, 0xB559043716B751A1, 0xA4745C1835944477, 0x19B336F90F4A94C1,
      214, 0x6D276C89D798377D, 0x9DAC0C100D3A10B, 0xF83079046E7A12E0, 215, 0xFFE2130C847445A3, 0x4B1F3854EDE25F7D,
      0xFD54837D2152E453, 216, 0x1238E860FD1A9DF8, 0xCAC92A7C6E21D90F, 0x6FBC32AA7CC37947, 217, 0x929652984363CD71,
      0x856D8557FFD99D92, 0x81322929057766E3);
  }

  lemma KeyTo229()
    ensures At(229, 0xA7EF61DC45F63823, 0xCA101BFD066327EC)
    ensures Again(1, 0x927C8F0A01A393EE) ==> Again(229, 0x88B97B56B87097B2)
  {
    KeyTo217();
    KeyFour(SeedStep, Add, TakePosition, KEY_SEED, 217, 0x929652984363CD71, 0x856D8557FFD99D92, 0x81322929057766E3,
      218, 0x1FC6A17E13662B11, 0xE7BBF9F784C59518, 0x3A98F3E5BAEC86B, 219, 0xCE8E5406353801D8, 0x6702C2BAEA8A6348,
      0x6F7B2F1E169FC21C, 220, 0x450583233C3AF95B, 0x475FDD6EE35FC931, 0x190774E413190EBC, 221, 0x48EBB53EB1737BAF,
      0x49D755A13E4651A4, 0xD9C0FACE61629D8B);
    KeyFour(SeedStep, Add, TakePosition, KEY_SEED, 221, 0x48EBB53EB1737BAF, 0x49D755A13E4651A4, 0xD9C0FACE61629D8B,
      222, 0xFC11C921FEE1074, 0x3A7A4224C3194A24, 0x1ED9EFDDD35A646E, 223, 0x2DE13A5CBA867143, 0x92C805EAF8135760,
      0xE614829DEB13B6F7, 224, 0x17AC817C4BD126A7, 0xA8C5B072F36AFBC8, 0xB6A9519DA769740C, 225, 0x50DB9C062923A53C,
      0x74C7249D949F4413, 0x437ADB38A3E14E4);
    KeyFour(SeedStep, Add, TakePosition, KEY_SEED, 225, 0x50DB9C062923A53C, 0x74C7249D949F4413, 0x437ADB38A3E14E4,
      226, 0x41DD320432BE4F9B, 0x4CEB72988A8B918, 0xE115292D6EDFDB6A, 227, 0x1A40AE61619364F5, 0x347027AB0841BAF6,
      0x6A5C14BAB905BB50, 228, 0xE82DC659C4974AF5, 0xAB58AC2DC92637B6, 0x3A7342168307F7D7, 229, 0xA7EF61DC45F63823,
      0xCA101BFD066327EC, 0x88B97B56B87097B2);
  }

  lemma KeyTo241()
    ensures At(241, 0x9D458E1E178A7772, 0x2ECB349068CCDEFD)
    ensures Again(1, 0x927C8F0A01A393EE) ==> Again(241, 0xFB0E554D786644C6)
  {
    KeyTo229();
    KeyFour(SeedStep, Add, TakePosition, KEY_SEED, 229, 0xA7EF61DC45F63823, 0xCA101BFD066327EC, 0x88B97B56B87097B2,
      230, 0xB4D29D32E9553DB3, 0xE7A029A7DD39E1EF, 0x5F56B0A015B70839, 231, 0x80B28CBEC19BA804, 0x6F131FB937602101,
      0xF5639D274D69BD72, 232, 0x5E1E861CD43583F6, 0xF79A903C6629FD71, 0x1E7042136E4414F4, 233, 0x4603E515FCA2BC54,
      0x4A5259D3690C29B3, 0xFC5953C6B27C5BAE);
    KeyFour(SeedStep, Add, TakePosition, KEY_SEED, 233, 0x4603E515FCA2BC54, 0x4A5259D3690C29B3, 0xFC5953C6B27C5BAE,
      234, 0x6D22A6C3FD8246DB, 0xCC1C792C7ECE65F8, 0xF9315A755B13EB17, 235, 0xB590016525EE9B3D, 0x8B5E8AF157F7A0C3,
      0xF83575C889FAB11C, 236, 0xFFBACA319A08BFF, 0x37782D14283FDF35, 0xD15D24B3FCE983AA, 237, 0xAC27E3656171DC0,
      0x17BD6C69F5523F8E, 0x24F0DCF9D529709E);
    KeyFour(SeedStep, Add, TakePosition, KEY_SEED, 237, 0xAC27E3656171DC0, 0x17BD6C69F5523F8E, 0x24F0DCF9D529709E,
      238, 0x8C27574BEA927BAE, 0x1B7190A13F78C1BF, 0xB728EE9D9782CAB, 239, 0x9B17B2EBF236122B, 0xE5ED7A6BD2B70079,
      0xA93EBA06BFBEB397, 240, 0x27F2CCB424608925, 0x31BD49A40EB822C2, 0x70A9B78FAAE5C793, 241, 0x9D458E1E178A7772,
      0x2ECB349068CCDEFD, 0xFB0E554D786644C6);
  }

  lemma KeyTo253()
    ensures At(253, 0x9AEDFE55FD31EE45, 0xBEDAD0511CB0F63D)
    ensures Again(1, 0x927C8F0A01A393EE) ==> Again(253, 0x5B73FDC72C7DD36B)
  {
    KeyTo241();
    KeyFour(SeedStep, Add, TakePosition, KEY_SEED, 241, 0x9D458E1E178A7772, 0x2ECB349068CCDEFD, 0xFB0E554D786644C6,
      242, 0x34D976B498C78FA2, 0x697898EA9BA8C82A, 0x2BCCEB0DED61ADA9, 243, 0x12D247CE8C9F9E6D, 0x38569F012A3952A3,
      0xB11E66896E2581B3, 244, 0x3119102A7917ED1D, 0x8CBFA65F83F3D2D, 0x47AD5FDADCD5E5CC, 245, 0x2A79D0F4C5B7120E,
      0x2377D2D8565FECB4, 0x6B16CC52330EE638);
    KeyFour(SeedStep, Add, TakePosition, KEY_SEED, 245, 0x2A79D0F4C5B7120E, 0x2377D2D8565FECB4, 0x6B16CC52330EE638,
      246, 0xF40E1A7C3D491F6C, 0xEC752C2842558F3F, 0x56A1571B48653874, 247, 0xC40EFDA54C0D987A, 0xB511CAF41E55FBBF,
      0xAFC077C2B81CBF27, 248, 0xC441053BC774D53D, 0x58250DC39E08EF87, 0x87905A123A4AB71E, 249, 0xBF6EEDA98A693EDF,
      0x6FF28D53DE9E7786, 0xFDA41C7F7E644031);
    KeyFour(SeedStep, Add, TakePosition, KEY_SEED, 249, 0xBF6EEDA98A693EDF, 0x6FF28D53DE9E7786, 0xFDA41C7F7E644031,
      250, 0xD783613BBD50B0D3, 0x7D48297335941747, 0x1B7E15E46001C533, 251, 0x4D3336FF7F6458B, 0x2CC62E645A415A3E,
      0x9654C4DFCB23A85E, 252, 0xE6FABB1C80B12F6B, 0x7056CB7C81B261D8, 0x50CF66B4088EC238, 253, 0x9AEDFE55FD31EE45,
      0xBEDAD0511CB0F63D, 0x5B73FDC72C7DD36B);
  }

  lemma KeyTo265()
    ensures At(265, 0xCCD149A0F8C4084F, 0xA4F5F72B25037BD)
    ensures Again(1, 0x927C8F0A01A393EE) ==> Again(265, 0x1695F118C17FB7CF)
  {
    KeyTo253();
    KeyFour(SeedStep, Add, TakePosition, KEY_SEED, 253, 0x9AEDFE55FD31EE45, 0xBEDAD0511CB0F63D, 0x5B73FDC72C7DD36B,
      254, 0xC1931D010A4F1C79, 0x485D8C14306DA819, 0x82AB26B388FF66DD, 255, 0x5C90633DDA0A8871, 0xA1B5D897CEC7F972,
      0x8FF0D25983B60212, 256, 0xFACE55D36B98CB0, 0xE23788AEEFD301FB, 0x7D062732C898072B, 257, 0x2F12FA3BCDD90BF1,
      0x177429EB8F2E296E, 0xA7339ECB5925DCEB);
    KeyFour(SeedStep, Add, TakePosition, KEY_SEED, 257, 0x2F12FA3BCDD90BF1, 0x177429EB8F2E296E, 0xA7339ECB5925DCEB,
      258, 0xC42EB3DE5B58A95F, 0xD6C06460DA4D65D0, 0x3329317D3B36E693, 259, 0x2117DF74ED266A2F, 0x85F78AB39768FF19,
      0x50C6B652DABE0F5B, 260, 0x7C572E587FC8FC47, 0x340ABFFE687828BB, 0x2247061DB43B2245, 261, 0x43B02820C8391353,
      0xC37229342BC460B9, 0x68FE97CF93B42D83);
    KeyFour(SeedStep, Add, TakePosition, KEY_SEED, 261, 0x43B02820C8391353, 0xC37229342BC460B9, 0x68FE97CF93B42D83,
      262, 0x45C9597619581470, 0x89B8E0AA1BF04729, 0x48206CF1B44A1D4D, 263, 0xC182879864A7E4, 0x64158CC5276E6F1C,
      0x519B55447ECD59F9, 264, 0x94C99DF120AFA01C, 0xDC8EA4B7F4CBD388, 0x5D679CF9D587B888, 265, 0xCCD149A0F8C4084F,
      0xA4F5F72B25037BD, 0x1695F118C17FB7CF);
  }

  lemma KeyTo277()
    ensures At(277, 0xA2CF6E9E8A323681, 0x5DFEDD9C6497227A)
    ensures Again(1, 0x927C8F0A01A393EE) ==> Again(277, 0xDDCE00B5DFE26D3)
  {
    KeyTo265();
    KeyFour(SeedStep, Add, TakePosition, KEY_SEED, 265, 0xCCD149A0F8C4084F, 0xA4F5F72B25037BD, 0x1695F118C17FB7CF,
      266, 0xCB45AEA05ECF2A66, 0xE412B04A25FC86AE, 0x2BE9B27FB51A7033, 267, 0xCD25A824193B8FCC, 0xC60305AFD2EF4A96,
      0x97269A4DE2BCB7E6, 268, 0x2F91689C234AF96F, 0x1EACE3E23403E981, 0xDFD143884FAD94C9, 269, 0x7ADA4A278786EA90,
      0xC8B4A43FAA2408DA, 0x54821AF94F92E26B);
    KeyFour(SeedStep, Add, TakePosition, KEY_SEED, 269, 0x7ADA4A278786EA90, 0xC8B4A43FAA2408DA, 0x54821AF94F92E26B,
      270, 0x429103D5537A2B8B, 0xA0B76E412CBB088D, 0xC726DEF70209A941, 271, 0x88F98B3397651E51, 0xA382A25CB0180283,
      0xFB6435E96351A3AA, 272, 0x53D5A39F112082A7, 0x2CC1F29FA220E51D, 0x81E38BAC49420A08, 273, 0x93277A587625523F,
      0x8FA075CEFA109C73, 0xB6CC0881001A5680);
    KeyFour(SeedStep, Add, TakePosition, KEY_SEED, 273, 0x93277A587625523F, 0x8FA075CEFA109C73, 0xB6CC0881001A5680,
      274, 0x4070D50541DCB8CB, 0x4942652372CE1D5, 0x9BF204470BCC3E9D, 275, 0xB4F6ED6E990AB295, 0x4154D583902A51A5,
      0x6C416D1E6A1D6173, 276, 0xD8E02B26FB5D4E9F, 0xB0512871A99EDF26, 0x80EB137487F97178, 277, 0xA2CF6E9E8A323681,
      0x5DFEDD9C6497227A, 0xDDCE00B5DFE26D3);
  }

  lemma KeyTo289()
    ensures At(289, 0xCA500B3D8E4AB461, 0xC1265BCBF5D7C366)
    ensures Again(1, 0x927C8F0A01A393EE) ==> Again(289, 0x510D20EE7A4C6340)
  {
    KeyTo277();
    KeyFour(SeedStep, Add, TakePosition, KEY_SEED, 277, 0xA2CF6E9E8A323681, 0x5DFEDD9C6497227A, 0xDDCE00B5DFE26D3,
      278, 0x67DFE0DCD21D931D, 0x131135E5EA57F251, 0x213599457EBA9BC0, 279, 0xD14B1DC8A79C103, 0xBE8500329A01577F,
      0xA75D3789477EBAA8, 280, 0xCA93427F8E66B9F, 0xC75B41385F31B3E9, 0x96ACC1269C42E8D3, 281, 0x7829BC83E76FCD0C,
      0xF7CAB2668885E6E3, 0xD1DF6D443C5A1F55);
    KeyFour(SeedStep, Add, TakePosition, KEY_SEED, 281, 0x7829BC83E76FCD0C, 0xF7CAB2668885E6E3, 0xD1DF6D443C5A1F55,
      282, 0x4C8AE73B59F17F63, 0x3A243647D635A15A, 0xB232B3EAA989B58A, 283, 0x8C3EEEA7D9AF0355, 0xD17503656C404000,
      0x1A4DDA6AD325A64D, 284, 0xA54062A4DC0EC067, 0x88952B8F3E229563, 0x384DBBF04058DE5E, 285, 0xAE76AB9AF6D2EDDE,
      0xD20B5CDC55EEBB00, 0x5792F3A176BAD8C9);
    KeyFour(SeedStep, Add, TakePosition, KEY_SEED, 285, 0xAE76AB9AF6D2EDDE, 0xD20B5CDC55EEBB00, 0x5792F3A176BAD8C9,
      286, 0xBCDBD1BDC81FF4CA, 0x3827EEC848E6459C, 0x71654A6105D7F716, 287, 0x80C4A310E0754047, 0x179CB0F0A43E13B4,
      0x19DD8EA8E52110F0, 288, 0x5E9E8CC583A78841, 0x7181E0141BE5740, 0xC41476BA23ECE950, 289, 0xCA500B3D8E4AB461,
      0xC1265BCBF5D7C366, 0x510D20EE7A4C6340);
  }

  lemma KeyTo301()
    ensures At(301, 0x24322D798FB45826, 0x50606A1D95A1EE49)
    ensures Again(1, 0x927C8F0A01A393EE) ==> Again(301, 0xD697AE9B85E9C288)
  {
    KeyTo289();
    KeyFour(SeedStep, Add, TakePosition, KEY_SEED, 289, 0xCA500B3D8E4AB461, 0xC1265BCBF5D7C366, 0x510D20EE7A4C6340,
      290, 0x10C89FAB27A8545C, 0xD1F0F87230F13E7C, 0x58F14F76D59BF81F, 291, 0xF2F88BF2E3FC794F, 0x298A2EB18171071D,
      0xF39F8BE33D29D198, 292, 0xCB35811D7CCA0780, 0xC26A6CE14FE8290C, 0x64A3D3CA46169DFF, 293, 0x11CA1CEF6C7C502C,
      0xAA250EF89720792C, 0x2AEC1CD0F6B8BC05);
    KeyFour(SeedStep, Add, TakePosition, KEY_SEED, 293, 0x11CA1CEF6C7C502C, 0xAA250EF89720792C, 0x2AEC1CD0F6B8BC05,
      294, 0x5CA0F0CB773BECE2, 0x115749E21D6EDE5B, 0xA601492AA12B9D84, 295, 0xBCB57405F42C420E, 0xB8C11A14BAD7EDB2,
      0x60FE1C7580511FB5, 296, 0x9CEFA6A7E1879144, 0xE358931CF99FB3AF, 0x646E2891B427A623, 297, 0x32E958BB3BA44477,
      0x6B569B598CB10B70, 0x5068FD1DFE7783C1);
    KeyFour(SeedStep, Add, TakePosition, KEY_SEED, 297, 0x32E958BB3BA44477, 0x6B569B598CB10B70, 0x5068FD1DFE7783C1,
      298, 0x8F806B5A271A1315, 0xC9812D4B8DBD07F7, 0xD862B1F0F70C320D, 299, 0xD9F75F21BF70C536, 0x4BE577E843222E5B,
      0xB81B3FB016353862, 300, 0x2CB58C671C80F67D, 0x1662B33A78B1233A, 0xB3EC88E193EB94AE, 301, 0x24322D798FB45826,
      0x50606A1D95A1EE49, 0xD697AE9B85E9C288);
  }

  lemma KeyTo309()
    ensures At(309, 0x394CD50D80669AC8, 0xF1D5E4F0DEC7A437)
    ensures Again(1, 0x927C8F0A01A393EE) ==> Again(309, 0xC77FE4C81780BEED)
  {
    KeyTo301();
    KeyFour(SeedStep, Add, TakePosition, KEY_SEED, 301, 0x24322D798FB45826, 0x50606A1D95A1EE49, 0xD697AE9B85E9C288,
      302, 0xEA893179508C59DC, 0x4FD5AE1AA3A30F0B, 0x4C2A3AE9B9F7DB26, 303, 0x1F11C5DA4C0C6E62, 0x48D97071F3D36DB9,
      0xFC522EA89FBD0703, 304, 0x124FD654DFFC066A, 0x580965167B90A56D, 0x2D85B00BD90F4D3D, 305, 0xD23620429A2DB7D3,
      0xE3E6EA0D8F5B5614, 0x44142DF3C172122C);
    KeyFour(SeedStep, Add, TakePosition, KEY_SEED, 305, 0xD23620429A2DB7D3, 0xE3E6EA0D8F5B5614, 0x44142DF3C172122C,
      306, 0xB01994EF844980C2, 0x86FD76EB5C421688, 0x313DF9BF8868EFBF, 307, 0x7C72737BA78AE2F3, 0x8F1B3581855C8EAA,
      0x126A63BF0584B036, 308, 0x6668F09A48D9F3BE, 0xCC41B37062A4DD71, 0xA907034D2EC396FB, 309, 0x394CD50D80669AC8,
      0xF1D5E4F0DEC7A437, 0xC77FE4C81780BEED);
  }

  // ---------------------------------------------------------------- the rest, and the first outputs

  lemma {:induction false} LastOnes<W>(seedStep: (W, Index) -> W, add: (W, W, nat) -> W, take: (W, W, Small) -> W,
      seed: W, i0: Index,
      a0: W, b0: W, c0: W, i1: Index, a1: W, b1: W, c1: W, i2: Index, a2: W, b2: W, c2: W, first: W, again: W, last: W)
    requires i0 == 309 && i1 == 310 && i2 == 311
    requires SeedTerm(seedStep, seed, i0) == a0 && Once(add, take, SeedTerms(seedStep, seed), i0) == b0
    requires seedStep(a0, i1) == a1 && seedStep(a1, i2) == a2 && add(a1, b0, 1) == b1 && add(a2, b1, 2) == b2
    requires Once(add, take, SeedTerms(seedStep, seed), 1) == first && add(first, b2, 3) == again
    requires take(b1, c0, i1) == c1 && take(b2, c1, i2) == c2 && take(again, c2, 1) == last
    ensures var init := SeedTerms(seedStep, seed);
      && Twice(add, take, init, 1) == again
      && (Twice(add, take, init, i0) == c0 ==> Twice(add, take, init, NN) == last)
  {
    var init := SeedTerms(seedStep, seed);
    SeedNext(seedStep, seed, i1, a0, a1);
    SeedNext(seedStep, seed, i2, a1, a2);
    OnceNext(add, take, init, i1, a1, b0, 1, b1);
    OnceNext(add, take, init, i2, a2, b1, 2, b2);
    FirstAgain(add, take, init, first, b2, again);
    if Twice(add, take, init, i0) == c0 {
      TwiceNext(add, take, init, i1, b1, c0, c1);
      TwiceNext(add, take, init, i2, b2, c1, c2);
      LastAgain(add, take, init, again, c2, last);
    }
  }

  /** After the last position comes the first one again. */
  lemma FirstAgain<W>(add: (W, W, nat) -> W, take: (W, W, Small) -> W, init: seq<W>, word: W, prev: W, next: W)
    requires |init| == NN && Once(add, take, init, 1) == word && Once(add, take, init, 311) == prev
    requires add(word, prev, 3) == next
    ensures Twice(add, take, init, 1) == next
  {
    assert Steps(add, take)(word, prev, 311) == next;
  }

  lemma LastAgain<W>(add: (W, W, nat) -> W, take: (W, W, Small) -> W, init: seq<W>, word: W, prev: W, next: W)
    requires |init| == NN && Twice(add, take, init, 1) == word && Twice(add, take, init, 311) == prev
    requires take(word, prev, 1) == next
    ensures Twice(add, take, init, NN) == next
  {
    assert Position(622) == 1;
    assert Steps(add, take)(word, prev, 622) == next;
  }

  lemma KeyToEnd()
    ensures Again(1, 0x927C8F0A01A393EE) && Again(NN, 0xA53DA00C269CD27C)
  {
    KeyTo1();
    KeyTo309();
    LastOnes(SeedStep, Add, TakePosition, KEY_SEED, 309, 0x394CD50D80669AC8, 0xF1D5E4F0DEC7A437, 0xC77FE4C81780BEED,
      310, 0x4A052CE5EF3A6E5E, 0x6D0C00F847A1A9B1, 0xB3740416C481F751, 311, 0x4B8F7E927B5188EA, 0xA236F60975823603,
      0x81A384FB290849CD, 0xFF376B2D160A70F6, 0x927C8F0A01A393EE, 0xA53DA00C269CD27C);
  }

  lemma {:induction false} AroundFour(n: nat)
    ensures Around(n, 4) == n % 4
  {
    if n >= 4 { AroundFour(n - 4); }
  }

  /** One step with this key. */
  lemma KeyAdds(word: bv64, prev: bv64, n: nat, j: nat)
    requires n < NN && j == n % 4
    ensures KeyStep(KEY, word, prev, n) == Add(word, prev, j)
  {
    AroundFour(n);
    assert |KEY| == 4 && KeyRounds(|KEY|) == NN && Around(n, |KEY|) == j;
    if j == 0 {
      assert KEY[j] == 0x12345;
    } else if j == 1 {
      assert KEY[j] == 0x23456;
    } else if j == 2 {
      assert KEY[j] == 0x34567;
    } else {
      assert KEY[j] == 0x45678;
    }
  }

  lemma KeyTakes(word: bv64, prev: bv64, n: nat)
    requires n >= NN
    ensures KeyStep(KEY, word, prev, n) == TakePosition(word, prev, Position(n))
  {
  }

  lemma KeyStepIs(word: bv64, prev: bv64, n: nat)
    ensures KeySteps(KEY)(word, prev, n) == Steps(Add, TakePosition)(word, prev, n)
  {
    if n < NN { KeyAdds(word, prev, n, n % 4); } else { KeyTakes(word, prev, n); }
  }

  /** Steps that agree lead to the same words. */
  lemma {:induction false} SameStirred<W(!new)>(f: (W, W, nat) -> W, g: (W, W, nat) -> W, init: seq<W>, m: nat)
    requires |init| == NN && forall w, p, n: nat :: f(w, p, n) == g(w, p, n)
    ensures Stirred(f, init, m) == Stirred(g, init, m)
  {
    if m >= NN {
      SameStirred(f, g, init, m - (NN - 1));
      if m > NN { SameStirred(f, g, init, m - 1); }
    }
  }

  lemma SameSteps()
    ensures forall w, p, n: nat :: KeySteps(KEY)(w, p, n) == Steps(Add, TakePosition)(w, p, n)
  {
    forall w, p, n: nat ensures KeySteps(KEY)(w, p, n) == Steps(Add, TakePosition)(w, p, n) { KeyStepIs(w, p, n); }
  }

  lemma {:induction false} SameWord(init: seq<bv64>, m: nat)
    requires |init| == NN
    ensures Stirred(KeySteps(KEY), init, m) == Stirred(Steps(Add, TakePosition), init, m)
  {
    SameSteps();
    SameStirred(KeySteps(KEY), Steps(Add, TakePosition), init, m);
  }

  /** The words after seeding by the key, from the second word on. */
  lemma {:induction false} KeyWord(p: Index, m: nat)
    requires 0 < p && m == WordAt(KeyRounds(4) + 311, Position(KeyRounds(4) + 311), p)
    ensures KeySeeded(KEY)[p] == Stirred(Steps(Add, TakePosition), Seeded(KEY_SEED), m)
  {
    SameWord(Seeded(KEY_SEED), m);
  }

  lemma WordIs(p: Index, c: bv64)
    requires 0 < p && Again(if p == 1 then NN else p, c)
    ensures KeySeeded(KEY)[p] == c
  {
    KeyWord(p, if p == 1 then 934 else p + 622);
  }

  /** The words that the first outputs come from. */
  lemma KeyWords()
    ensures KeySeeded(KEY)[1] == 0xA53DA00C269CD27C && KeySeeded(KEY)[2] == 0x20D8FFBDC1559D6E
    ensures KeySeeded(KEY)[3] == 0xE6DAA62627F3F13 && KeySeeded(KEY)[156] == 0xF31356765166FA3
    ensures KeySeeded(KEY)[157] == 0x7A390165D25CB94C && KeySeeded(KEY)[158] == 0xC33700CF9972F016
  {
    KeyToEnd();
    KeyTo13();
    KeyTo157();
    KeyTo169();
    WordIs(1, 0xA53DA00C269CD27C);
    WordIs(2, 0x20D8FFBDC1559D6E);
    WordIs(3, 0xE6DAA62627F3F13);
    WordIs(156, 0xF31356765166FA3);
    WordIs(157, 0x7A390165D25CB94C);
    WordIs(158, 0xC33700CF9972F016);
  }

  /** The first outputs for the key. */
  lemma KeyOutputs()
    ensures Temper(Term(Step, KeySeeded(KEY), 312)) == 7266447313870364031
    ensures Temper(Term(Step, KeySeeded(KEY), 313)) == 4946485549665804864
    ensures Temper(Term(Step, KeySeeded(KEY), 314)) == 16945909448695747420
  {
    KeyWords();
    FirstOutputs(KeySeeded(KEY), MSB, 0xA53DA00C269CD27C, 0x20D8FFBDC1559D6E, 0xE6DAA62627F3F13, 0xF31356765166FA3,
      0x7A390165D25CB94C, 0xC33700CF9972F016);
  }
}
