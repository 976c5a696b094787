/**
  Known outputs of the generator of Mt64.dfy: the first three for the default seed, as other
  implementations of the 64-bit Mersenne Twister give them. The words on the way are written out,
  and each is checked against the one it comes from.
 */
module Mt64Vectors {

  import opened Mt64

  lemma SeedNext<W>(step: (W, Index) -> W, seed: W, i: Index, prev: W, next: W)
    requires i > 0 && SeedTerm(step, seed, i - 1) == prev && step(prev, i) == next
    ensures SeedTerm(step, seed, i) == next
  {
  }

  /** Four steps of the seeding: words and their numbers. */
  lemma {:induction false} SeedFour<W>(step: (W, Index) -> W, seed: W, i0: Index, w0: W, i1: Index, w1: W, i2: Index,
      w2: W,
      i3: Index, w3: W, i4: Index, w4: W)
    requires SeedTerm(step, seed, i0) == w0 && i1 == i0 + 1 && i2 == i0 + 2 && i3 == i0 + 3 && i4 == i0 + 4
    requires step(w0, i1) == w1 && step(w1, i2) == w2 && step(w2, i3) == w3 && step(w3, i4) == w4
    ensures SeedTerm(step, seed, i1) == w1 && SeedTerm(step, seed, i2) == w2
    ensures SeedTerm(step, seed, i3) == w3 && SeedTerm(step, seed, i4) == w4
  {
    SeedNext(step, seed, i1, w0, w1);
    SeedNext(step, seed, i2, w1, w2);
    SeedNext(step, seed, i3, w2, w3);
    SeedNext(step, seed, i4, w3, w4);
  }

  // ---------------------------------------------------------------- words 0 to 160 for the seed 5489

  lemma WordsTo20()
    ensures SeedTerm(SeedStep, 5489, 1) == 0xB5347F47116BD3DE
    ensures SeedTerm(SeedStep, 5489, 2) == 0x9165B5762D1A61AE
    ensures SeedTerm(SeedStep, 5489, 3) == 0xD139B6BBED337F3F
    ensures SeedTerm(SeedStep, 5489, 20) == 0xE21A56B927CC049E
  {
    SeedFour(SeedStep, 5489, 0, 0x1571, 1, 0xB5347F47116BD3DE, 2, 0x9165B5762D1A61AE, 3, 0xD139B6BBED337F3F, 4,
      0x37E740001C182190);
    SeedFour(SeedStep, 5489, 4, 0x37E740001C182190, 5, 0xE398F84731B45655, 6, 0x97392E1FB95D724, 7,
      0x102FF8F17705AD5B, 8, 0xAFD3B741A6F69E07);
    SeedFour(SeedStep, 5489, 8, 0xAFD3B741A6F69E07, 9, 0x3673B7B326A741EA, 10, 0x967BEFB79A4BAC2C, 11,
      0x81579A10887E1621, 12, 0xFA4F68BAD1844133);
    SeedFour(SeedStep, 5489, 12, 0xFA4F68BAD1844133, 13, 0xD26A818BA186457D, 14, 0x58EA399ADB69B934, 15,
      0x7BE61CE78C4FD960, 16, 0x6520FC5E9855551D);
    SeedFour(SeedStep, 5489, 16, 0x6520FC5E9855551D, 17, 0xC641EF0DF584D9FD, 18, 0xE8B0B2F1595553B8, 19,
      0x2ACC772248607CF2, 20, 0xE21A56B927CC049E);
  }

  lemma WordsTo40()
    ensures SeedTerm(SeedStep, 5489, 40) == 0x7F7D617ACECC3F45
  {
    WordsTo20();
    SeedFour(SeedStep, 5489, 20, 0xE21A56B927CC049E, 21, 0x222B48008087B2AE, 22, 0xCFFD407690C4BAAC, 23,
      0x185E6D58A70CA1DA, 24, 0xA47F692D8D65996A);
    SeedFour(SeedStep, 5489, 24, 0xA47F692D8D65996A, 25, 0xD80BA31C6B7E8F61, 26, 0xB35584C73A6AD254, 27,
      0x92AAD4BC372DA339, 28, 0x59C35BD9DC56F67B);
    SeedFour(SeedStep, 5489, 28, 0x59C35BD9DC56F67B, 29, 0x5FEEE4D68C91D98F, 30, 0xA20C5CE2D836B014, 31,
      0x6EE0DD1C27C5DDFD, 32, 0x8A81EF0B2A94096C);
    SeedFour(SeedStep, 5489, 32, 0x8A81EF0B2A94096C, 33, 0xA161CA6211B93A77, 34, 0x2A3A52C2C3A851B3, 35,
      0x8CD8FCFC964D299A, 36, 0x39559F108AAB7DC);
    SeedFour(SeedStep, 5489, 36, 0x39559F108AAB7DC, 37, 0xAA981E498A4475D1, 38, 0x47B66D6F7C4B633D, 39,
      0x9FF6E624D16735B3, 40, 0x7F7D617ACECC3F45);
  }

  lemma WordsTo60()
    ensures SeedTerm(SeedStep, 5489, 60) == 0x3E32761E6D7FA19A
  {
    WordsTo40();
    SeedFour(SeedStep, 5489, 40, 0x7F7D617ACECC3F45, 41, 0x38FCFDCAAFDDDB1D, 42, 0x14928B261D93E743, 43,
      0xFE6000E410B8E3F2, 44, 0xB208B107E0D9A089);
    SeedFour(SeedStep, 5489, 44, 0xB208B107E0D9A089, 45, 0x82F135B131CD2D9C, 46, 0x987DDA96FFA866F4, 47,
      0xE1EBB23270DC236D, 48, 0x2F775D6534BCC86);
    SeedFour(SeedStep, 5489, 48, 0x2F775D6534BCC86, 49, 0x2916B16310C76DBF, 50, 0x8BB8A2F776AB0BC5, 51,
      0x7ED20066A5BBCB2E, 52, 0xBF99B825822A0877);
    SeedFour(SeedStep, 5489, 52, 0xBF99B825822A0877, 53, 0x175137B563AE87C6, 54, 0x8ED13207E9471804, 55,
      0xC8BE8AAF09E83345, 56, 0xD6F2A55B8EFEBD86);
    SeedFour(SeedStep, 5489, 56, 0xD6F2A55B8EFEBD86, 57, 0x33EC6BF14D354B9A, 58, 0x1AA08340BB81B04C, 59,
      0x658C3F94787DB197, 60, 0x3E32761E6D7FA19A);
  }

  lemma WordsTo80()
    ensures SeedTerm(SeedStep, 5489, 80) == 0x23044078EFC82346
  {
    WordsTo60();
    SeedFour(SeedStep, 5489, 60, 0x3E32761E6D7FA19A, 61, 0xB6DFAB00573CCE4F, 62, 0xC4EDB5826ED976C7, 63,
      0x9E186133AE391CB3, 64, 0xC8B2D463344ADA5D);
    SeedFour(SeedStep, 5489, 64, 0xC8B2D463344ADA5D, 65, 0x1182F4C543304C7, 66, 0xB99FD847F829903D, 67,
      0xB5ADE6D9E6889C56, 68, 0x53F2F45B38752708);
    SeedFour(SeedStep, 5489, 68, 0x53F2F45B38752708, 69, 0x9E6E49666F3253DA, 70, 0xFC88FE527028E53E, 71,
      0xB8275B6896A8F00, 72, 0x6964FFBB3FAC2348);
    SeedFour(SeedStep, 5489, 72, 0x6964FFBB3FAC2348, 73, 0x957EC9FFCC406B1E, 74, 0x8149ED8183C1B836, 75,
      0xB6423B4E9B32D6F, 76, 0x8FEA06065DA40DCF);
    SeedFour(SeedStep, 5489, 76, 0x8FEA06065DA40DCF, 77, 0x737C3D30BD002056, 78, 0x800B954BEFB3D899, 79,
      0xF91A17D7148F88E, 80, 0x23044078EFC82346);
  }

  lemma WordsTo100()
    ensures SeedTerm(SeedStep, 5489, 100) == 0x429CFBFCEE91AE31
  {
    WordsTo80();
    SeedFour(SeedStep, 5489, 80, 0x23044078EFC82346, 81, 0xD2413979BF6BED9F, 82, 0x3C786924CCA528BE, 83,
      0x147B229D06D46BB9, 84, 0xCAC949203374B6D9);
    SeedFour(SeedStep, 5489, 84, 0xCAC949203374B6D9, 85, 0xB47359B9171C4AA7, 86, 0x7AB3D4A18709FA57, 87,
      0x82C40AA0EBFFAB75, 88, 0x877A85FE72442D43);
    SeedFour(SeedStep, 5489, 88, 0x877A85FE72442D43, 89, 0xDAB66FF48B4433C6, 90, 0x4BF32AC4EE54D4FB, 91,
      0x6A57D5662813764D, 92, 0xF2E186A51D577FB8);
    SeedFour(SeedStep, 5489, 92, 0xF2E186A51D577FB8, 93, 0x368B524C6C96393C, 94, 0x4BFA6D46BCB8D3EA, 95,
      0x5D423FDAF965D5AE, 96, 0x19C09AAFAEC36123);
    SeedFour(SeedStep, 5489, 96, 0x19C09AAFAEC36123, 97, 0xF8BB804992E77088, 98, 0xDF7875C686ABDD1, 99,
      0x7741AB42D5930D20, 100, 0x429CFBFCEE91AE31);
  }

  lemma WordsTo120()
    ensures SeedTerm(SeedStep, 5489, 120) == 0x8B1F37B4EDEDB9A3
  {
    WordsTo100();
    SeedFour(SeedStep, 5489, 100, 0x429CFBFCEE91AE31, 101, 0xBE763EC0D6F56ED5, 102, 0x9AC91415E2442531, 103,
      0x2CCA75C45F1DD75E, 104, 0xC5CDCA88C7CC7DEE);
    SeedFour(SeedStep, 5489, 104, 0xC5CDCA88C7CC7DEE, 105, 0xB0887B3A385BB612, 106, 0x2B73D36F1EC0F13A, 107,
      0xB73E27E5BE582D9D, 108, 0x113C84A0F5ACE65F);
    SeedFour(SeedStep, 5489, 108, 0x113C84A0F5ACE65F, 109, 0x8F1386E53EF8A020, 110, 0xCD9074C2B4EF0468, 111,
      0x5B702538B77BDC3E, 112, 0xDC4A018B97B3F883);
    SeedFour(SeedStep, 5489, 112, 0xDC4A018B97B3F883, 113, 0x9B0BEDD1956A2EF1, 114, 0xAAB8206B6863CE29, 115,
      0x999B98859FD99302, 116, 0x9E999210982BD774);
    SeedFour(SeedStep, 5489, 116, 0x9E999210982BD774, 117, 0x46B1D5A1EF466A33, 118, 0x6F16177A5297940, 119,
      0x248F3E5A2DB110B7, 120, 0x8B1F37B4EDEDB9A3);
  }

  lemma WordsTo140()
    ensures SeedTerm(SeedStep, 5489, 140) == 0x1EDAA63E5ADBEF14
  {
    WordsTo120();
    SeedFour(SeedStep, 5489, 120, 0x8B1F37B4EDEDB9A3, 121, 0x8FB8B09C989580C6, 122, 0x9A8C5EEB1F3CDEEE, 123,
      0x4BAB3EB7FA643F7, 124, 0x68327B16CEB47BE7);
    SeedFour(SeedStep, 5489, 124, 0x68327B16CEB47BE7, 125, 0x652AD6D0440EE1EB, 126, 0xF57FDA3C4DE2CCA0, 127,
      0x247245A5B341D626, 128, 0xE8012FA117ED7F2E);
    SeedFour(SeedStep, 5489, 128, 0xE8012FA117ED7F2E, 129, 0x31E6F8156807AE6A, 130, 0x5524BF4114923F24, 131,
      0x89ECA903E7917504, 132, 0x9D78E605C21D8C92);
    SeedFour(SeedStep, 5489, 132, 0x9D78E605C21D8C92, 133, 0x8213008D57BD25D5, 134, 0x2845027D1C285051, 135,
      0x88CF2E81BE134DC4, 136, 0xE59A4A3B0937E656);
    SeedFour(SeedStep, 5489, 136, 0xE59A4A3B0937E656, 137, 0xA14CCCCEA590A87A, 138, 0x8A7FD0C38BD925A2, 139,
      0xC505AE6EB4F5FDAB, 140, 0x1EDAA63E5ADBEF14);
  }

  lemma WordsTo160()
    ensures SeedTerm(SeedStep, 5489, 156) == 0x245B1C66FA082BFF
    ensures SeedTerm(SeedStep, 5489, 157) == 0x252CFC850AE3D70
    ensures SeedTerm(SeedStep, 5489, 158) == 0x16CD2293A14B5D4E
    ensures SeedTerm(SeedStep, 5489, 160) == 0x411AA452B9119F91
  {
    WordsTo140();
    SeedFour(SeedStep, 5489, 140, 0x1EDAA63E5ADBEF14, 141, 0x48086B892AE7F311, 142, 0x2CE7C25ED4AAAA5E, 143,
      0x6A9E329B1D3A9515, 144, 0xBE9684A2E7E52114);
    SeedFour(SeedStep, 5489, 144, 0xBE9684A2E7E52114, 145, 0xEAB0E8BA387EBB6F, 146, 0xE7CBAE25F31D868E, 147,
      0x5581BF318E019A5C, 148, 0xB07E184435FD45ED);
    SeedFour(SeedStep, 5489, 148, 0xB07E184435FD45ED, 149, 0x20BACEF5CB51DC98, 150, 0xAAAA9BECDE4B2F4E, 151,
      0x898B5F1376EA04F3, 152, 0xCB65A0736BDB6DF5);
    SeedFour(SeedStep, 5489, 152, 0xCB65A0736BDB6DF5, 153, 0x47E02E65D94D5ED7, 154, 0x99EAC4824F33D638, 155,
      0xA1C29D298B256ECD, 156, 0x245B1C66FA082BFF);
    SeedFour(SeedStep, 5489, 156, 0x245B1C66FA082BFF, 157, 0x252CFC850AE3D70, 158, 0x16CD2293A14B5D4E, 159,
      0x3EE1503E33EF1955, 160, 0x411AA452B9119F91);
  }

  // ---------------------------------------------------------------- and the first outputs

  /** The three steps after 312 words of which these are known. */
  lemma {:induction false} FirstOutputs(init: seq<bv64>, w0: bv64, w1: bv64, w2: bv64, w3: bv64, w156: bv64,
      w157: bv64, w158: bv64)
    requires |init| == NN && init[0] == w0 && init[1] == w1 && init[2] == w2 && init[3] == w3
    requires init[156] == w156 && init[157] == w157 && init[158] == w158
    ensures Temper(Term(Step, init, 312)) == Temper(Step(w156, w0, w1))
    ensures Temper(Term(Step, init, 313)) == Temper(Step(w157, w1, w2))
    ensures Temper(Term(Step, init, 314)) == Temper(Step(w158, w2, w3))
  {
  }

  /** The first outputs for the seed 5489. */
  lemma DefaultOutputs()
    ensures Temper(Term(Step, Seeded(DEFAULT_SEED), 312)) == 14514284786278117030
    ensures Temper(Term(Step, Seeded(DEFAULT_SEED), 313)) == 4620546740167642908
    ensures Temper(Term(Step, Seeded(DEFAULT_SEED), 314)) == 13109570281517897720
  {
    WordsTo20();
    WordsTo160();
    FirstOutputs(Seeded(DEFAULT_SEED), 5489, 0xB5347F47116BD3DE, 0x9165B5762D1A61AE, 0xD139B6BBED337F3F,
      0x245B1C66FA082BFF, 0x252CFC850AE3D70, 0x16CD2293A14B5D4E);
  }
}
