/**
 2^255 - 19 is prime. In a chain of primes that ends at a small one, each is a factor of the one before less
 one, and a number of that order certifies the one before. The tables are powers of that number.
 */
module FieldPrime {
  import opened Powers
  import opened Primes
  import opened FieldArithmetic

  const Q1: nat := 0xabaf8c6b094_fd0f32c2ccabab86_4dbecd99144679c1_adf804898fb2042b
  const Q2: nat := 0xe87c2a477b815_a1793787395b23e1
  const Q3: nat := 0x6d1cafa129d0b
  const Q4: nat := 0x82d4b5

  lemma SmallPrime()
    ensures Prime(991)
  {
    assert NoDivisor(991, 2, 10) && NoDivisor(991, 12, 10) && NoDivisor(991, 22, 10);
    var p := LeastDivisor(991);
    if p < 12 {
      NoDivisorAt(991, 2, 10, p);
    } else if p < 22 {
      NoDivisorAt(991, 12, 10, p);
    } else if p < 32 {
      NoDivisorAt(991, 22, 10, p);
    }
  }

  // --- Q4

  /** It has order 991 modulo Q4. */
  const B4: nat := 0x346cd1

  const V1: nat := 0x159ed7

  lemma FourthSteps()
    ensures Raise(B4, B4, 1, 1, 1, 2) % Q4 == V1
    ensures Raise(V1, B4, 1, 1, 1, 1) % Q4 == 1
  {
  }

  lemma FourthPowers()
    ensures IsPower(Q4, B4, 1, 991)
  {
    hide Raise, IsPower, Pow;
    FirstPower(Q4, B4);
    FourthSteps();
    var m1 := Advance(Q4, B4, B4, V1, 1, 1, 1, 1, 2);
    var m2 := Advance(Q4, B4, V1, 1, m1, 1, 1, 1, 1);
  }

  lemma FourthIsPrime()
    ensures Prime(Q4)
  {
    hide *;
    SmallPrime();
    FourthPowers();
    FourthNumbers();
    Certified(Q4, 991, 0x21cc, B4, 0xf79eb);
  }

  lemma FourthNumbers()
    ensures Q4 - 1 == 0x21cc * 991 && ((B4 - 1) * 0xf79eb) % Q4 == 1
    ensures 0x21cc < 991 * (991 - 1) && 0x21cc % 991 > 0x21cc / 991 + 1
  {
  }

  // --- Q3

  /** It has order Q4 modulo Q3. */
  const B3: nat := 0x3c3ffdef7c0b1

  const U1: nat := 0x2c250f4ecd406
  const U2: nat := 0x3e3bdbc06dca4
  const U3: nat := 0x11a52cb514f6b

  lemma ThirdSteps1()
    ensures Raise(B3, B3, 6, 0, 0, 0) % Q3 == U1
    ensures Raise(U1, B3, 2, 1, 2, 2) % Q3 == U2
  {
  }

  lemma ThirdSteps2()
    ensures Raise(U2, B3, 3, 2, 1, 0) % Q3 == U3
    ensures Raise(U3, B3, 2, 2, 0, 0) % Q3 == 1
  {
  }

  lemma ThirdPowers()
    ensures IsPower(Q3, B3, 1, Q4)
  {
    hide Raise, IsPower, Pow;
    FirstPower(Q3, B3);
    ThirdSteps1();
    ThirdSteps2();
    var m1 := Advance(Q3, B3, B3, U1, 1, 6, 0, 0, 0);
    var m2 := Advance(Q3, B3, U1, U2, m1, 2, 1, 2, 2);
    var m3 := Advance(Q3, B3, U2, U3, m2, 3, 2, 1, 0);
    var m4 := Advance(Q3, B3, U3, 1, m3, 2, 2, 0, 0);
  }

  lemma ThirdIsPrime()
    ensures Prime(Q3)
  {
    hide *;
    FourthIsPrime();
    ThirdPowers();
    ThirdNumbers();
    Certified(Q3, Q4, 0xd580922, B3, 0x495bef080ea35);
  }

  lemma ThirdNumbers()
    ensures Q3 - 1 == 0xd580922 * Q4 && ((B3 - 1) * 0x495bef080ea35) % Q3 == 1
    ensures 0xd580922 < Q4 * (Q4 - 1) && 0xd580922 % Q4 > 0xd580922 / Q4 + 1
  {
  }

  // --- Q2

  /** It has order Q3 modulo Q2. */
  const B2: nat := 0xaedd80ab27e8d_e3ca5f2fb22d5403

  const Z1: nat := 0x53d31a0a415a6_47d81ba17c64cb9c
  const Z2: nat := 0xb93588d98b4_1cdea0a321d17728
  const Z3: nat := 0x195189d68cb92_80e581c0ea0d2fe2
  const Z4: nat := 0x2fa31f134f23b_d7fd36f5d18337bc
  const Z5: nat := 0x523c96f162978_ca422a4dfdd98edb
  const Z6: nat := 0x8cda73d5157a5_b35948e623134b41
  const Z7: nat := 0xdd5967d7f1594_8d246efbdead218c
  const Z8: nat := 0xa4f5edfceeba5_f3a9bd38539b0d94

  lemma SecondSteps1()
    ensures Raise(B2, B2, 1, 2, 1, 2) % Q2 == Z1
  {
  }

  lemma SecondSteps2()
    ensures Raise(Z1, B2, 4, 1, 1, 0) % Q2 == Z2
    ensures Raise(Z2, B2, 3, 2, 2, 0) % Q2 == Z3
  {
  }

  lemma SecondSteps3()
    ensures Raise(Z3, B2, 1, 1, 1, 1) % Q2 == Z4
    ensures Raise(Z4, B2, 2, 5, 0, 0) % Q2 == Z5
  {
  }

  lemma SecondSteps4()
    ensures Raise(Z5, B2, 3, 2, 0, 0) % Q2 == Z6
    ensures Raise(Z6, B2, 3, 1, 1, 2) % Q2 == Z7
  {
  }

  lemma SecondSteps5()
    ensures Raise(Z7, B2, 5, 2, 0, 0) % Q2 == Z8
    ensures Raise(Z8, B2, 1, 0, 0, 0) % Q2 == 1
  {
  }

  lemma SecondPowers1()
    ensures IsPower(Q2, B2, Z4, 0xda395f)
  {
    hide Raise, IsPower, Pow;
    FirstPower(Q2, B2);
    SecondSteps1();
    SecondSteps2();
    SecondSteps3();
    var m1 := Advance(Q2, B2, B2, Z1, 1, 1, 2, 1, 2);
    var m2 := Advance(Q2, B2, Z1, Z2, m1, 4, 1, 1, 0);
    var m3 := Advance(Q2, B2, Z2, Z3, m2, 3, 2, 2, 0);
    var m4 := Advance(Q2, B2, Z3, Z4, m3, 1, 1, 1, 1);
  }

  lemma SecondPowers2()
    ensures IsPower(Q2, B2, 1, Q3)
  {
    hide Raise, IsPower, Pow;
    SecondPowers1();
    SecondSteps3();
    SecondSteps4();
    SecondSteps5();
    var m5 := Advance(Q2, B2, Z4, Z5, 0xda395f, 2, 5, 0, 0);
    var m6 := Advance(Q2, B2, Z5, Z6, m5, 3, 2, 0, 0);
    var m7 := Advance(Q2, B2, Z6, Z7, m6, 3, 1, 1, 2);
    var m8 := Advance(Q2, B2, Z7, Z8, m7, 5, 2, 0, 0);
    var m9 := Advance(Q2, B2, Z8, 1, m8, 1, 0, 0, 0);
  }

  lemma SecondIsPrime()
    ensures Prime(Q2)
  {
    hide *;
    ThirdIsPrime();
    SecondPowers2();
    SecondNumbers();
    Certified(Q2, Q3, 0x2_217588b6b4f717a0, B2, 0xe5e342b4c0a3d_507894bab5f20e8b);
  }

  lemma SecondNumbers()
    ensures Q2 - 1 == 0x2_217588b6b4f717a0 * Q3 && ((B2 - 1) * 0xe5e342b4c0a3d_507894bab5f20e8b) % Q2 == 1
    ensures 0x2_217588b6b4f717a0 < Q3 * (Q3 - 1) && 0x2_217588b6b4f717a0 % Q3 > 0x2_217588b6b4f717a0 / Q3 + 1
  {
  }

  // --- Q1

  /** It has order Q2 modulo Q1. */
  const B1: nat := 0xa118eb0f9d8_184bab59e8e45df7_36d65fba3c64f4aa_855bc8921ac18308

  const Y1: nat := 0x655b44735be_a9793d26cfbf9ca0_8b390404b9898b7c_f1e07232912a8115
  const Y2: nat := 0x23d6a1da936_a6f2e2c3d154bbd7_25a5227612211b8f_ad6a6ae7b8c04b12
  const Y3: nat := 0x23f1ac0147d_e32b6d27b265ee0c_64efc7feafb559ea_73d02b864e47663d
  const Y4: nat := 0x45deae5d173_3e9e844d8f1737a4_66b03c3269c73dc1_2c13607bd020f10c
  const Y5: nat := 0x8c4e4b1bd51_e029a05cebe12fcd_639608ca9d69136c_13fec807f0df59f1
  const Y6: nat := 0x88399345eba_7ddb31ce1dbc6603_2b1c2f14a87c2650_0aca741141a040ba
  const Y7: nat := 0x5a7ae6b6510_5339b61c12d319c3_c1057b4b930f763c_5b98b7d5373db59c
  const Y8: nat := 0x5bc94b0f9f6_1f6290a8e318de81_76e243bf0ac26d08_70c5dc8fc7072899
  const Y9: nat := 0x22fb53421c8_4439ebc0659b177c_b219085ba041bffb_4b250c37468e8cdb
  const Y10: nat := 0x42a137b599d_4ccaff49da9f7f91_a3595e00e3c24721_375b63d046801884
  const Y11: nat := 0x4dbda4b7be7_c597933d2c2e02ed_65b14f8b8beb749f_b71e27a01b85eac5
  const Y12: nat := 0x894e47a3ad0_1834d18fe42e9715_023a1e148048095e_f7e52e8cdc825f73
  const Y13: nat := 0x25f1bebb0dd_9b80cc0aa701df7c_2f76d1e3076919f7_c7b0f234463399d8
  const Y14: nat := 0x42a75d74dd5_854e48c5bc6f3120_861bfa26cdc4b107_213726e674ef60d3
  const Y15: nat := 0x3640de1fdec_fb7b133784f9091e_75f84e8a6fe8cff6_469f06a72a559eac
  const Y16: nat := 0x231fd691256_47c9c3524a011dce_fd665c1ec24fd926_19a6b2314f466802
  const Y17: nat := 0x593999941d5_3fa862093b8c1312_ed5dd5da4c9cfee9_77a895d43bdb4496
  const Y18: nat := 0x65daae495d_f8bf03f796cd0fb1_7417360decc82863_4efa5843fcb38975

  lemma FirstSteps1()
    ensures Raise(B1, B1, 1, 1, 2, 0) % Q1 == Y1
  {
  }

  lemma FirstSteps2()
    ensures Raise(Y1, B1, 5, 1, 1, 0) % Q1 == Y2
    ensures Raise(Y2, B1, 1, 1, 5, 0) % Q1 == Y3
  {
  }

  lemma FirstSteps3()
    ensures Raise(Y3, B1, 2, 2, 3, 0) % Q1 == Y4
    ensures Raise(Y4, B1, 4, 1, 1, 0) % Q1 == Y5
  {
  }

  lemma FirstSteps4()
    ensures Raise(Y5, B1, 2, 1, 1, 1) % Q1 == Y6
    ensures Raise(Y6, B1, 2, 1, 1, 0) % Q1 == Y7
  {
  }

  lemma FirstSteps5()
    ensures Raise(Y7, B1, 7, 0, 0, 0) % Q1 == Y8
    ensures Raise(Y8, B1, 2, 2, 1, 2) % Q1 == Y9
  {
  }

  lemma FirstSteps6()
    ensures Raise(Y9, B1, 5, 2, 0, 0) % Q1 == Y10
    ensures Raise(Y10, B1, 1, 1, 1, 3) % Q1 == Y11
  {
  }

  lemma FirstSteps7()
    ensures Raise(Y11, B1, 3, 1, 2, 1) % Q1 == Y12
    ensures Raise(Y12, B1, 1, 1, 5, 0) % Q1 == Y13
  {
  }

  lemma FirstSteps8()
    ensures Raise(Y13, B1, 1, 1, 3, 1) % Q1 == Y14
    ensures Raise(Y14, B1, 1, 3, 2, 0) % Q1 == Y15
  {
  }

  lemma FirstSteps9()
    ensures Raise(Y15, B1, 2, 1, 2, 1) % Q1 == Y16
    ensures Raise(Y16, B1, 3, 4, 0, 0) % Q1 == Y17
  {
  }

  lemma FirstSteps10()
    ensures Raise(Y17, B1, 1, 1, 1, 1) % Q1 == Y18
    ensures Raise(Y18, B1, 5, 0, 0, 0) % Q1 == 1
  {
  }

  lemma FirstPowers1()
    ensures IsPower(Q1, B1, Y4, 0x3a1f0a9)
  {
    hide Raise, IsPower, Pow;
    FirstPower(Q1, B1);
    FirstSteps1();
    FirstSteps2();
    FirstSteps3();
    var m1 := Advance(Q1, B1, B1, Y1, 1, 1, 1, 2, 0);
    var m2 := Advance(Q1, B1, Y1, Y2, m1, 5, 1, 1, 0);
    var m3 := Advance(Q1, B1, Y2, Y3, m2, 1, 1, 5, 0);
    var m4 := Advance(Q1, B1, Y3, Y4, m3, 2, 2, 3, 0);
  }

  lemma FirstPowers2()
    ensures IsPower(Q1, B1, Y9, 0x743e1523bdc0ad)
  {
    hide Raise, IsPower, Pow;
    FirstPowers1();
    FirstSteps3();
    FirstSteps4();
    FirstSteps5();
    var m5 := Advance(Q1, B1, Y4, Y5, 0x3a1f0a9, 4, 1, 1, 0);
    var m6 := Advance(Q1, B1, Y5, Y6, m5, 2, 1, 1, 1);
    var m7 := Advance(Q1, B1, Y6, Y7, m6, 2, 1, 1, 0);
    var m8 := Advance(Q1, B1, Y7, Y8, m7, 7, 0, 0, 0);
    var m9 := Advance(Q1, B1, Y8, Y9, m8, 2, 2, 1, 2);
  }

  lemma FirstPowers3()
    ensures IsPower(Q1, B1, Y14, 0xe87c2a_477b815a17937873)
  {
    hide Raise, IsPower, Pow;
    FirstPowers2();
    FirstSteps6();
    FirstSteps7();
    FirstSteps8();
    var m10 := Advance(Q1, B1, Y9, Y10, 0x743e1523bdc0ad, 5, 2, 0, 0);
    var m11 := Advance(Q1, B1, Y10, Y11, m10, 1, 1, 1, 3);
    var m12 := Advance(Q1, B1, Y11, Y12, m11, 3, 1, 2, 1);
    var m13 := Advance(Q1, B1, Y12, Y13, m12, 1, 1, 5, 0);
    var m14 := Advance(Q1, B1, Y13, Y14, m13, 1, 1, 3, 1);
  }

  lemma FirstPowers4()
    ensures IsPower(Q1, B1, 1, Q2)
  {
    hide Raise, IsPower, Pow;
    FirstPowers3();
    FirstSteps8();
    FirstSteps9();
    FirstSteps10();
    var m15 := Advance(Q1, B1, Y14, Y15, 0xe87c2a_477b815a17937873, 1, 3, 2, 0);
    var m16 := Advance(Q1, B1, Y15, Y16, m15, 2, 1, 2, 1);
    var m17 := Advance(Q1, B1, Y16, Y17, m16, 3, 4, 0, 0);
    var m18 := Advance(Q1, B1, Y17, Y18, m17, 1, 1, 1, 1);
    var m19 := Advance(Q1, B1, Y18, 1, m18, 5, 0, 0, 0);
  }

  lemma FirstIsPrime()
    ensures Prime(Q1)
  {
    hide *;
    SecondIsPrime();
    FirstPowers4();
    FirstNumbers();
    Certified(Q1, Q2, 0xbd0d14cf78e752_1a329188e9fa496a, B1, 0xa35a14fb145_2ddd0fca6eef50ac_9bd9a369cab89410_4fc366d4fa595e38);
  }

  lemma FirstNumbers()
    ensures Q1 - 1 == 0xbd0d14cf78e752_1a329188e9fa496a * Q2 && ((B1 - 1) * 0xa35a14fb145_2ddd0fca6eef50ac_9bd9a369cab89410_4fc366d4fa595e38) % Q1 == 1
    ensures 0xbd0d14cf78e752_1a329188e9fa496a < Q2 * (Q2 - 1) && 0xbd0d14cf78e752_1a329188e9fa496a % Q2 > 0xbd0d14cf78e752_1a329188e9fa496a / Q2 + 1
  {
  }

  // --- the modulus

  /** It has order Q1 modulo P. */
  const B0: nat := 0xf1ba0c491eeef8_3c49fc1b744331bb_096d4893142c1874_31f7b03e61a75a49

  const X1: nat := 0x206fd5b3d4c68b4e_2d908036ae1b16e4_911d221e05170272_58ca8648cae9df61
  const X2: nat := 0x1b1fd343b4c5dd12_d86f1aa9dcd532e0_25ffed3b0ad1f12f_2eda876d7a634642
  const X3: nat := 0x2db19c30ffa03765_ee0ce31d1ad72bc2_143ebe5dcc9242fb_da66af683e75a90c
  const X4: nat := 0x5da44e87f253f8a_cf1f3f9d71da7281_7c5a27765deaca07_93443f55d141df32
  const X5: nat := 0x5679a457f3f9d312_d133adc8fdef7161_de05d229f96e741a_1616a1d3bbb18c7a
  const X6: nat := 0x77298a8a57aedb56_b4dc6a912b407714_cfe9ba880998daef_31c56c139522a7c0
  const X7: nat := 0x25077c77a63c5734_190e06c2f38e153a_da52c9208983a49e_c3e83e39ca650d0d
  const X8: nat := 0x471f152bf9b3873b_869c9330df042660_bcddabf5cfe9571c_7ab8e09dd6276132
  const X9: nat := 0x56a706447989e113_3d5a4b694e77dc0f_b5766dae4ca20bad_5ac7428ce030ba65
  const X10: nat := 0x7d986e685fb31232_060c80d7deb458c4_a1dbc790dd7b037a_54d6c51055955be7
  const X11: nat := 0x408bb1af6f2e580b_0e1b2810ab3dd9cb_f8766a3093981657_14a58144c3f56e75
  const X12: nat := 0x6a6071a7dcea1af2_065a435440a0f69f_10605d6e4fbc49a7_4fbe68c0520e6df9
  const X13: nat := 0x782f22fffe936fa1_25c3ea8e84d7dc67_5cb4bd5fb2c41861_0414741adb67f65e
  const X14: nat := 0x20fde7fc9957dd11_a867a2c4b307c7c9_1963ea072b897998_cdb7069db572793d
  const X15: nat := 0x1d195d06b273bcc8_2e61e90bde48be28_925c10c7324c09f6_689300f5673d0b77
  const X16: nat := 0x69393507a6f478a3_572216f6bca96457_e9a90e344f912dc6_6f5f1fdcac41d9d2
  const X17: nat := 0x2435441ace3107bb_452c944b643468bd_8fc12a3b2393df1d_92f6681acd02e7a6
  const X18: nat := 0x32018dbca6c2d15_a87ecacb643fb5b2_2717ffe896d86cdf_b62aa032e8d4ef0d
  const X19: nat := 0x7aec489208ba02e9_1257d345b6ff9cda_eaf37db31c57c05b_786554b186a99333
  const X20: nat := 0x5e08c0e904ecf69c_6d01bf9e0dd74977_e4cb5b552c0cf454_8878a1fe608f73cd
  const X21: nat := 0x1df39c337485e2d1_f5829b0fccac0410_fe5d806e49965096_611eb5b27088edb9
  const X22: nat := 0x6540220c2ff6f077_27e06770a7f9ce29_69acf5697655c874_3cdb340367468cad
  const X23: nat := 0x375b8bb9867b766b_8bf1e874a48fdd7f_28cc015deafd91de_7af634d34e37eb67
  const X24: nat := 0x5810a04f1cd81ed8_e7cd3241f4285462_560e114366e53b1b_55eb4d07055dfab2
  const X25: nat := 0x6049bb9862b7dad5_420b469e9c5f643a_3d67fb1933538f3a_9ac6c2bb90c260b6
  const X26: nat := 0x1db381927f44ae1e_9dd744d1726181f0_9da6ed1c763351fb_9d1f5c5c8d2664ce
  const X27: nat := 0x5f8984f906d5441c_391eb22925f43727_c64cb6d8d120c7c0_28480661a0aad9ed
  const X28: nat := 0x666085ad24b2f2d_da30823d0e147b54_d255a48d44dca787_9c43a4beb6437f04
  const X29: nat := 0x6802e818520dd786_8199b56365b3dce6_7be4bbbc6538f375_33ae47823af5af44
  const X30: nat := 0x18100f62e51ce4c7_74066aa84638363a_32143223b97da968_c57cf8def22821b7
  const X31: nat := 0x77c29d3540fd172d_bf616ad4b0fb57df_65ca9d768f847a9c_e2e179347a7f7470
  const X32: nat := 0x38f96d9178f90c40_c2bec85fa2235803_82cb67d690d087dc_a234e40de8baf2cb
  const X33: nat := 0x5e0c9d13f09097a5_7f414fa5a04d4f8a_4dec605213e9c732_df7c1cd2d4d0b1fb
  const X34: nat := 0x113aa7bd93e66392_711b5defb34db615_092fc9052e3f68d0_3b557cb65ca9389b
  const X35: nat := 0x355de6543e533591_bab9e6fd9baf068c_4fb0cb2dbc762eab_424f0bab06056382
  const X36: nat := 0x1e2bef643f7a1603_77e7dd036a4d6c06_42b4dd24b17dbea3_ed3b352f889d2c95
  const X37: nat := 0x6beb2e87c09f3ee5_50f7818cfc860128_9022ed61e88a508a_cf5568b12972c6a2
  const X38: nat := 0x2aeee574e88f8307_56938e64f44f4c34_4bce1b27cc1b9230_6eb01732303e843b
  const X39: nat := 0x5be0842af386f226_59e14cd4374779e2_d818ed268a24b8e9_23d4f1a5bd75b33d

  lemma FieldSteps1()
    ensures Raise(B0, B0, 2, 2, 2, 1) % P == X1
    ensures Raise(X1, B0, 1, 2, 2, 1) % P == X2
  {
  }

  lemma FieldSteps2()
    ensures Raise(X2, B0, 1, 1, 1, 4) % P == X3
    ensures Raise(X3, B0, 1, 4, 1, 0) % P == X4
  {
  }

  lemma FieldSteps3()
    ensures Raise(X4, B0, 2, 2, 1, 0) % P == X5
    ensures Raise(X5, B0, 5, 0, 0, 0) % P == X6
  {
  }

  lemma FieldSteps4()
    ensures Raise(X6, B0, 3, 2, 0, 0) % P == X7
    ensures Raise(X7, B0, 3, 1, 1, 1) % P == X8
  {
  }

  lemma FieldSteps5()
    ensures Raise(X8, B0, 1, 1, 2, 0) % P == X9
    ensures Raise(X9, B0, 5, 1, 1, 0) % P == X10
  {
  }

  lemma FieldSteps6()
    ensures Raise(X10, B0, 1, 3, 1, 0) % P == X11
    ensures Raise(X11, B0, 3, 2, 1, 0) % P == X12
  {
  }

  lemma FieldSteps7()
    ensures Raise(X12, B0, 5, 2, 0, 0) % P == X13
    ensures Raise(X13, B0, 1, 3, 1, 0) % P == X14
  {
  }

  lemma FieldSteps8()
    ensures Raise(X14, B0, 3, 2, 2, 0) % P == X15
    ensures Raise(X15, B0, 2, 1, 1, 2) % P == X16
  {
  }

  lemma FieldSteps9()
    ensures Raise(X16, B0, 2, 2, 1, 1) % P == X17
    ensures Raise(X17, B0, 5, 1, 0, 0) % P == X18
  {
  }

  lemma FieldSteps10()
    ensures Raise(X18, B0, 3, 3, 1, 0) % P == X19
    ensures Raise(X19, B0, 2, 1, 2, 1) % P == X20
  {
  }

  lemma FieldSteps11()
    ensures Raise(X20, B0, 1, 1, 1, 2) % P == X21
    ensures Raise(X21, B0, 1, 3, 1, 2) % P == X22
  {
  }

  lemma FieldSteps12()
    ensures Raise(X22, B0, 1, 3, 1, 0) % P == X23
    ensures Raise(X23, B0, 3, 4, 0, 0) % P == X24
  {
  }

  lemma FieldSteps13()
    ensures Raise(X24, B0, 2, 4, 0, 0) % P == X25
    ensures Raise(X25, B0, 4, 1, 0, 0) % P == X26
  {
  }

  lemma FieldSteps14()
    ensures Raise(X26, B0, 3, 1, 1, 1) % P == X27
    ensures Raise(X27, B0, 3, 1, 1, 0) % P == X28
  {
  }

  lemma FieldSteps15()
    ensures Raise(X28, B0, 6, 1, 0, 0) % P == X29
    ensures Raise(X29, B0, 2, 2, 1, 2) % P == X30
  {
  }

  lemma FieldSteps16()
    ensures Raise(X30, B0, 1, 1, 1, 1) % P == X31
    ensures Raise(X31, B0, 1, 0, 0, 0) % P == X32
  {
  }

  lemma FieldSteps17()
    ensures Raise(X32, B0, 9, 0, 0, 0) % P == X33
    ensures Raise(X33, B0, 3, 4, 0, 0) % P == X34
  {
  }

  lemma FieldSteps18()
    ensures Raise(X34, B0, 3, 1, 0, 0) % P == X35
    ensures Raise(X35, B0, 4, 1, 1, 1) % P == X36
  {
  }

  lemma FieldSteps19()
    ensures Raise(X36, B0, 1, 2, 1, 3) % P == X37
    ensures Raise(X37, B0, 7, 0, 0, 0) % P == X38
  {
  }

  lemma FieldSteps20()
    ensures Raise(X38, B0, 5, 2, 0, 0) % P == X39
    ensures Raise(X39, B0, 2, 1, 0, 0) % P == 1
  {
  }

  lemma FieldPowers1()
    ensures IsPower(P, B0, X5, 0xabaf8c6b)
  {
    hide Raise, IsPower, Pow;
    FirstPower(P, B0);
    FieldSteps1();
    FieldSteps2();
    FieldSteps3();
    var m1 := Advance(P, B0, B0, X1, 1, 2, 2, 2, 1);
    var m2 := Advance(P, B0, X1, X2, m1, 1, 2, 2, 1);
    var m3 := Advance(P, B0, X2, X3, m2, 1, 1, 1, 4);
    var m4 := Advance(P, B0, X3, X4, m3, 1, 4, 1, 0);
    var m5 := Advance(P, B0, X4, X5, m4, 2, 2, 1, 0);
  }

  lemma FieldPowers2()
    ensures IsPower(P, B0, X11, 0xabaf8c6b094fd0f3)
  {
    hide Raise, IsPower, Pow;
    FieldPowers1();
    FieldSteps3();
    FieldSteps4();
    FieldSteps5();
    FieldSteps6();
    var m6 := Advance(P, B0, X5, X6, 0xabaf8c6b, 5, 0, 0, 0);
    var m7 := Advance(P, B0, X6, X7, m6, 3, 2, 0, 0);
    var m8 := Advance(P, B0, X7, X8, m7, 3, 1, 1, 1);
    var m9 := Advance(P, B0, X8, X9, m8, 1, 1, 2, 0);
    var m10 := Advance(P, B0, X9, X10, m9, 5, 1, 1, 0);
    var m11 := Advance(P, B0, X10, X11, m10, 1, 3, 1, 0);
  }

  lemma FieldPowers3()
    ensures IsPower(P, B0, X17, 0x1575f18d61_29fa1e6585995757)
  {
    hide Raise, IsPower, Pow;
    FieldPowers2();
    FieldSteps6();
    FieldSteps7();
    FieldSteps8();
    FieldSteps9();
    var m12 := Advance(P, B0, X11, X12, 0xabaf8c6b094fd0f3, 3, 2, 1, 0);
    var m13 := Advance(P, B0, X12, X13, m12, 5, 2, 0, 0);
    var m14 := Advance(P, B0, X13, X14, m13, 1, 3, 1, 0);
    var m15 := Advance(P, B0, X14, X15, m14, 3, 2, 2, 0);
    var m16 := Advance(P, B0, X15, X16, m15, 2, 1, 1, 2);
    var m17 := Advance(P, B0, X16, X17, m16, 2, 2, 1, 1);
  }

  lemma FieldPowers4()
    ensures IsPower(P, B0, X22, 0xa_baf8c6b094fd0f32_c2ccabab864dbecd)
  {
    hide Raise, IsPower, Pow;
    FieldPowers3();
    FieldSteps9();
    FieldSteps10();
    FieldSteps11();
    var m18 := Advance(P, B0, X17, X18, 0x1575f18d61_29fa1e6585995757, 5, 1, 0, 0);
    var m19 := Advance(P, B0, X18, X19, m18, 3, 3, 1, 0);
    var m20 := Advance(P, B0, X19, X20, m19, 2, 1, 2, 1);
    var m21 := Advance(P, B0, X20, X21, m20, 1, 1, 1, 2);
    var m22 := Advance(P, B0, X21, X22, m21, 1, 3, 1, 2);
  }

  lemma FieldPowers5()
    ensures IsPower(P, B0, X28, 0x2aebe31ac2_53f43ccb0b32aeae_1936fb36645119e7)
  {
    hide Raise, IsPower, Pow;
    FieldPowers4();
    FieldSteps12();
    FieldSteps13();
    FieldSteps14();
    var m23 := Advance(P, B0, X22, X23, 0xa_baf8c6b094fd0f32_c2ccabab864dbecd, 1, 3, 1, 0);
    var m24 := Advance(P, B0, X23, X24, m23, 3, 4, 0, 0);
    var m25 := Advance(P, B0, X24, X25, m24, 2, 4, 0, 0);
    var m26 := Advance(P, B0, X25, X26, m25, 4, 1, 0, 0);
    var m27 := Advance(P, B0, X26, X27, m26, 3, 1, 1, 1);
    var m28 := Advance(P, B0, X27, X28, m27, 3, 1, 1, 0);
  }

  lemma FieldPowers6()
    ensures IsPower(P, B0, X34, 0x157_5f18d6129fa1e658_59957570c9b7d9b3_2288cf3835bf0091)
  {
    hide Raise, IsPower, Pow;
    FieldPowers5();
    FieldSteps15();
    FieldSteps16();
    FieldSteps17();
    var m29 := Advance(P, B0, X28, X29, 0x2aebe31ac2_53f43ccb0b32aeae_1936fb36645119e7, 6, 1, 0, 0);
    var m30 := Advance(P, B0, X29, X30, m29, 2, 2, 1, 2);
    var m31 := Advance(P, B0, X30, X31, m30, 1, 1, 1, 1);
    var m32 := Advance(P, B0, X31, X32, m31, 1, 0, 0, 0);
    var m33 := Advance(P, B0, X32, X33, m32, 9, 0, 0, 0);
    var m34 := Advance(P, B0, X33, X34, m33, 3, 4, 0, 0);
  }

  lemma FieldPowers7()
    ensures IsPower(P, B0, 1, Q1)
  {
    hide Raise, IsPower, Pow;
    FieldPowers6();
    FieldSteps18();
    FieldSteps19();
    FieldSteps20();
    var m35 := Advance(P, B0, X34, X35, 0x157_5f18d6129fa1e658_59957570c9b7d9b3_2288cf3835bf0091, 3, 1, 0, 0);
    var m36 := Advance(P, B0, X35, X36, m35, 4, 1, 1, 1);
    var m37 := Advance(P, B0, X36, X37, m36, 1, 2, 1, 3);
    var m38 := Advance(P, B0, X37, X38, m37, 7, 0, 0, 0);
    var m39 := Advance(P, B0, X38, X39, m38, 5, 2, 0, 0);
    var m40 := Advance(P, B0, X39, 1, m39, 2, 1, 0, 0);
  }

  /** The modulus of the field is prime. */
  lemma FieldIsPrime()
    ensures Prime(P)
  {
    hide *;
    FirstIsPrime();
    FieldPowers7();
    FieldNumbers();
    Certified(P, Q1, 0xbedc4, B0, 0x7acaff384090e983_b641a51e1df08070_78e467d06ab81645_55f0f7fd51653bdc);
  }

  lemma FieldNumbers()
    ensures P - 1 == 0xbedc4 * Q1 && ((B0 - 1) * 0x7acaff384090e983_b641a51e1df08070_78e467d06ab81645_55f0f7fd51653bdc) % P == 1
    ensures 0xbedc4 < Q1 * (Q1 - 1) && 0xbedc4 % Q1 > 0xbedc4 / Q1 + 1
  {
  }
}
