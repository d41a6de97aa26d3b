/** Known answers of sections 8 and 9 of RFC 7914, with the octets as little-endian words. */
module ScryptVectors {
  import opened ScryptSpec

  const SALSA_INPUT: Block := [
    0x219a877e, 0x86c93e4f, 0xe640a97c, 0x268f7141, 0x5b55eeba, 0xb5c1618c, 0x1146f80d, 0x1d3bcd6d,
    0x19f324ee, 0x853d9bdf, 0x4b1e1214, 0x32aac55a, 0x291d0276, 0x2948c709, 0x8dc6ebed, 0x5ec2b8b8]

  const SALSA_OUTPUT: Block := [
    0x9c851fa4, 0x99cc0866, 0xcbca813b, 0x05ef0c02, 0x81214b04, 0x7d33fda2, 0x631c7bfd, 0x292f6896,
    0x683139b4, 0xbce6c9e3, 0xb7c56bfe, 0xba966da0, 0x10cc24e4, 0x5c74912c, 0x3d67ad24, 0x818f61c7]

  const MIX_FIRST: Block := [
    0x650bcef7, 0xa4722d3d, 0xabf58c10, 0xddff12e9, 0xdb167677, 0x0ea727bb, 0xaef30482, 0xad6f0f2d,
    0x488ff689, 0x7be8d111, 0x40d73bcc, 0x29fd9f0a, 0x84014f09, 0xf3749563, 0x31a1e59a, 0xd7bc1752]

  const MIX_SECOND: Block := [
    0x44914989, 0x22bb1372, 0x4db5256c, 0xfb7063a8, 0x804398cd, 0xbb664637, 0xbfb5fc8f, 0xb054c240,
    0x517cd267, 0xfed54ace, 0x0bc929d8, 0x1b575a50, 0xad1c4d7f, 0xda3c526a, 0xbc670e77, 0x897eafea]

  const MIX_OUTPUT: Block := [
    0x75c9ed20, 0xa8813832, 0x4cf64005, 0x3ccd2d16, 0xfe7c0721, 0xe25f8d5f, 0x8f16a4b1, 0xb7783695,
    0x803d3b7d, 0xabe4603b, 0xe5960992, 0xb6534d9b, 0x58222a5d, 0xf5edd577, 0xf1b92c84, 0x25e4ef4e]

  /** A single bit passes each of the four rotations. */
  lemma QuarterRoundOfOne()
    ensures QuarterRound(Row(1, 0, 0, 0)) == Row(0x08008145, 0x80, 0x10200, 0x20500000)
  {
    assert Mix7(0, Plus(1, 0)) == 0x80 && Mix9(0, Plus(0x80, 1)) == 0x10200;
    assert Mix13(0, Plus(0x10200, 0x80)) == 0x20500000;
    assert Mix18(1, Plus(0x20500000, 0x10200)) == 0x08008145;
  }

  function First1(): Matrix {
    Matrix(
      Row(0x482665b1, 0xe6b639e8, 0x5528d0b6, 0x7163bf72),
      Row(0x93580e01, 0x0c50b5fd, 0xea23785c, 0xead125ec),
      Row(0xf701a95d, 0xd590a7ea, 0x209aedeb, 0x965705b9),
      Row(0xd6e1a597, 0x6f4dbdbc, 0x53299386, 0x10a42604))
  }

  function First2(): Matrix {
    Matrix(
      Row(0xe9e67835, 0x5a0e63c0, 0x85bf1cf2, 0xbce03a58),
      Row(0x95e02c9d, 0x10a33116, 0x91024ee3, 0xa399c709),
      Row(0x678d68da, 0x70e69077, 0x3dffe364, 0xc393c734),
      Row(0xf3fc17d5, 0x8805fb7c, 0x4e709f83, 0x64b0ce84))
  }

  function First3(): Matrix {
    Matrix(
      Row(0x28f2a180, 0x5e3bb01c, 0x03040a5c, 0x69e5ea6b),
      Row(0x997f9f3c, 0x1c650ad9, 0x9a28760a, 0x1c5778b3),
      Row(0x89e18946, 0x5055ce7c, 0x3fec3108, 0x20123a83),
      Row(0x764c0e51, 0x44dda9f5, 0xf8616b01, 0x5632c6dc))
  }

  function First4(): Matrix {
    Matrix(
      Row(0x7aea9826, 0x1302ca17, 0xe589d7bf, 0xdf5f9ac1),
      Row(0x25cb5c4a, 0xc7729c16, 0x51d583f0, 0x0bf39b29),
      Row(0x4e3e14c6, 0x37a92e04, 0x6ca759ea, 0x87eba846),
      Row(0xe7af226e, 0x332bca23, 0xafa0c137, 0x22cca90f))
  }

  lemma FirstRound1()
    ensures DoubleRound(ToMatrix(SALSA_INPUT)) == First1()
  {
    var m := ToMatrix(SALSA_INPUT);
    assert RowRound(Transpose(m)) == Matrix(
      Row(0x08857f83, 0x0091149f, 0x4ecb1eaa, 0xaf742b9d),
      Row(0xbc4dffa4, 0xc3e54d59, 0xc0727641, 0x4ee75de5),
      Row(0x225a0768, 0xd113843e, 0x6585dfa2, 0xbf43fb43),
      Row(0x90307809, 0xfb5a4eb0, 0x6a7df42b, 0x55af2fd9));
  }

  lemma FirstRound2()
    ensures DoubleRound(First1()) == First2()
  {
    var m := First1();
    assert RowRound(Transpose(m)) == Matrix(
      Row(0xb4cf7248, 0x175daa0e, 0xff1ed7e2, 0x46dfa758),
      Row(0xb8e79720, 0xde3bd4f1, 0x56e75513, 0x1f5b9d7a),
      Row(0x3e130cef, 0x5dbd3119, 0xd8b882ab, 0x0c1ab003),
      Row(0x0cf661a1, 0xdfde6fd7, 0x0c781823, 0x0f4f975e));
  }

  lemma FirstRound3()
    ensures DoubleRound(First2()) == First3()
  {
    var m := First2();
    assert RowRound(Transpose(m)) == Matrix(
      Row(0xfbef1227, 0x64a829f3, 0x7ac93847, 0xdfbb4c3b),
      Row(0x12c789d1, 0x43dbdd85, 0x282cfb42, 0x285d4b0d),
      Row(0x56808ce8, 0xd82bca5e, 0x60e759d5, 0xcf69bc64),
      Row(0x9eaae64c, 0x14f0670f, 0xaa38b147, 0x05ea3220));
  }

  lemma FirstRound4()
    ensures DoubleRound(First3()) == First4()
  {
    var m := First3();
    assert RowRound(Transpose(m)) == Matrix(
      Row(0xb0e98b83, 0x062877f3, 0xbfd36f18, 0x0aad76ee),
      Row(0x346a63e9, 0x1abe5aed, 0x0008b4c1, 0x9fa29dcd),
      Row(0x3d22e238, 0x22bcf3e0, 0x678d4e77, 0xf232e26c),
      Row(0x4b6545d0, 0x2c4e21f0, 0x4cea3475, 0x0fa7223d));
  }

  /** The core of section 8: eight rounds and the feed-forward. */
  lemma SalsaVector()
    ensures Salsa(SALSA_INPUT) == SALSA_OUTPUT
  {
    hide DoubleRound;
    FirstRound1();
    FirstRound2();
    FirstRound3();
    FirstRound4();
    var m := ToMatrix(SALSA_INPUT);
    assert DoubleRounds(m, 1) == First1() && DoubleRounds(m, 2) == First2() && DoubleRounds(m, 3) == First3();
    assert FromMatrix(AddMatrices(First4(), m)) == SALSA_OUTPUT;
  }

  const MIX_SUM: Block := [
    0xd814562d, 0xbb771b14, 0x867fa457, 0xfe9f6faa, 0x0162d3c9, 0xc655bb95, 0xdca98772, 0x997baad6,
    0x394debd3, 0x4233832d, 0xbc0c4226, 0xa1c137f0, 0xbdd0699b, 0x8648c346, 0x8100a353, 0x08f1ce2d]

  function Second1(): Matrix {
    Matrix(
      Row(0x7c1ebc98, 0xcd9b42d1, 0xf52ed246, 0xe5be9926),
      Row(0x9d459a4e, 0xad1c2ec4, 0x250e87c1, 0x495cec04),
      Row(0x1310a8b2, 0xa2372efb, 0x9893cd5b, 0xb59f8acd),
      Row(0xd314e75f, 0x67893a55, 0x1fd2e84c, 0x9acf916f))
  }

  function Second2(): Matrix {
    Matrix(
      Row(0xafb7c3f9, 0x7c65e889, 0x5450a3d8, 0x03bcbd18),
      Row(0xc62b1bcc, 0x46671c68, 0xf424a1f7, 0xdd097404),
      Row(0x80010bad, 0xf809c632, 0x3ca675e7, 0x939f0084),
      Row(0x49eddc94, 0x67b8f9dd, 0x14365026, 0x30b3c0ea))
  }

  function Second3(): Matrix {
    Matrix(
      Row(0xaad84ddb, 0x57092a1f, 0x79c50ce9, 0xec3d1063),
      Row(0x127e7056, 0xe880388f, 0x0c703368, 0x5ec000c1),
      Row(0x02b60010, 0x81ab2161, 0x9a51903c, 0xfadaf8f4),
      Row(0x5cdca357, 0xce393a7d, 0xca073a5c, 0x04af1982))
  }

  function Second4(): Matrix {
    Matrix(
      Row(0x9db596f3, 0xed0a1d1e, 0xc6769bae, 0x3e2dbd6c),
      Row(0xfd193358, 0x1c09d1ca, 0xb26d1d3f, 0x1dfc8bbf),
      Row(0x46ef4faa, 0x69b0dd0e, 0x2989c76c, 0x149215ab),
      Row(0x9a51c0c2, 0x6fa51231, 0x70b88931, 0x1cf32121))
  }

  lemma SecondRound1()
    ensures DoubleRound(ToMatrix(MIX_SUM)) == Second1()
  {
    var m := ToMatrix(MIX_SUM);
    assert RowRound(Transpose(m)) == Matrix(
      Row(0xd1add72d, 0xf33d3783, 0x9a568a45, 0xc5e97829),
      Row(0xa88714ed, 0xb457b44e, 0xa458d7ed, 0xdb6fc793),
      Row(0x671d2f78, 0xef7b6f12, 0xc6251844, 0xdbe46f1f),
      Row(0xa71c617f, 0x8524f3b6, 0x8b679278, 0x10498c1f));
  }

  lemma SecondRound2()
    ensures DoubleRound(Second1()) == Second2()
  {
    var m := Second1();
    assert RowRound(Transpose(m)) == Matrix(
      Row(0x2c76a3cc, 0x049461e9, 0x752dabb3, 0x92a76867),
      Row(0x2ff085f6, 0x792590ba, 0xf98fe446, 0x3faf2f18),
      Row(0xed480889, 0x28ddf049, 0x7bdb95cc, 0xcef86612),
      Row(0xd230870e, 0x496c16de, 0x262209be, 0x18be2f57));
  }

  lemma SecondRound3()
    ensures DoubleRound(Second2()) == Second3()
  {
    var m := Second2();
    assert RowRound(Transpose(m)) == Matrix(
      Row(0xdfe9d5d3, 0x14fb5d30, 0xe6435824, 0x9f4743f3),
      Row(0x35f90c9a, 0x2cddfc76, 0x9e8bbed3, 0x820e8e14),
      Row(0x9c3ae884, 0xe0dce048, 0x1f9781b8, 0x71bdbf3e),
      Row(0x2adc0a7a, 0xc29fbcb3, 0xeb7abd2b, 0xd7c97883));
  }

  lemma SecondRound4()
    ensures DoubleRound(Second3()) == Second4()
  {
    var m := Second3();
    assert RowRound(Transpose(m)) == Matrix(
      Row(0xf9dd8462, 0xc806e955, 0xbcd860f5, 0xb595f3cc),
      Row(0x65dda20f, 0xe055bd9c, 0x451a767e, 0xfb672026),
      Row(0x09359a63, 0x9c3e65eb, 0x9b6b05ec, 0xaae6e80f),
      Row(0x29342b1c, 0x98493c9a, 0x562c20db, 0x7178a057));
  }

  lemma SecondSalsa()
    ensures Salsa(MIX_SUM) == MIX_OUTPUT
  {
    hide DoubleRound;
    SecondRound1();
    SecondRound2();
    SecondRound3();
    SecondRound4();
    var m := ToMatrix(MIX_SUM);
    assert DoubleRounds(m, 1) == Second1() && DoubleRounds(m, 2) == Second2() && DoubleRounds(m, 3) == Second3();
    assert FromMatrix(AddMatrices(Second4(), m)) == MIX_OUTPUT;
  }

  lemma SameWords(x: Block, y: Block)
    requires |x| == |y| == 16 && ToMatrix(x) == ToMatrix(y)
    ensures x == y
  {
  }

  lemma FirstSum()
    ensures Xor(MIX_SECOND, MIX_FIRST) == SALSA_INPUT
  {
    SameWords(Xor(MIX_SECOND, MIX_FIRST), SALSA_INPUT);
  }

  lemma SecondSum()
    ensures Xor(SALSA_OUTPUT, MIX_SECOND) == MIX_SUM
  {
    SameWords(Xor(SALSA_OUTPUT, MIX_SECOND), MIX_SUM);
  }

  /** The block mix of section 9, of two blocks. */
  lemma BlockMixVector()
    ensures BlockMix(MIX_FIRST + MIX_SECOND, 1) == SALSA_OUTPUT + MIX_OUTPUT
  {
    hide Salsa, Xor;
    SalsaVector();
    SecondSalsa();
    FirstSum();
    SecondSum();
    MixOfTwo(MIX_FIRST, MIX_SECOND);
  }

  lemma MixOfTwo(first: Block, second: Block)
    requires |first| == |second| == 16
    ensures var y := Salsa(Xor(second, first));
      BlockMix(first + second, 1) == y + Salsa(Xor(y, second))
  {
    hide Salsa, Xor;
    var b := first + second;
    assert At(b, 0) == first && At(b, 1) == second;
    assert Running(b, 1, 2) == Salsa(Xor(Running(b, 1, 1), At(b, 1)));
    assert Evens(b, 1, 1) == [] + Running(b, 1, 1) && Odds(b, 1, 1) == [] + Running(b, 1, 2);
  }
}
