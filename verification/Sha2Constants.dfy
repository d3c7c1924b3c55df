// Where the constants of FIPS 180-4 come from: sections 4.2.2, 4.2.3 and 5.3.

module Sha2Constants {
  import Bits
  import opened Bytes
  import opened Sha2
  import Sha256Blocks
  import Sha512Blocks

  const LIMIT32: nat := 0x1_0000_0000
  const LIMIT64: nat := 0x1_0000_0000_0000_0000

  /** `whole` and `part / limit` make the cube root of `p`, cut off. */
  predicate CubeRoot(p: nat, limit: nat, whole: nat, part: nat)
  {
    var m := whole * limit + part;
    part < limit && m * m * m <= p * limit * limit * limit < (m + 1) * (m + 1) * (m + 1)
  }

  predicate SquareRoot(p: nat, limit: nat, whole: nat, part: nat)
  {
    var m := whole * limit + part;
    part < limit && m * m <= p * limit * limit < (m + 1) * (m + 1)
  }

  /** `part` is what the first bits behind the point of the cube root of `p` are. */
  ghost predicate OfCubeRoot(p: nat, limit: nat, part: nat)
  {
    exists whole: nat :: CubeRoot(p, limit, whole, part)
  }

  ghost predicate OfSquareRoot(p: nat, limit: nat, part: nat)
  {
    exists whole: nat :: SquareRoot(p, limit, whole, part)
  }

  /** The first eighty primes, eight to a row */
  function Primes(r: nat): (primes: seq<nat>)
    ensures |primes| == 8
  {
    match r
    case 0 => [2, 3, 5, 7, 11, 13, 17, 19]
    case 1 => [23, 29, 31, 37, 41, 43, 47, 53]
    case 2 => [59, 61, 67, 71, 73, 79, 83, 89]
    case 3 => [97, 101, 103, 107, 109, 113, 127, 131]
    case 4 => [137, 139, 149, 151, 157, 163, 167, 173]
    case 5 => [179, 181, 191, 193, 197, 199, 211, 223]
    case 6 => [227, 229, 233, 239, 241, 251, 257, 263]
    case 7 => [269, 271, 277, 281, 283, 293, 307, 311]
    case 8 => [313, 317, 331, 337, 347, 349, 353, 359]
    case _ => [367, 373, 379, 383, 389, 397, 401, 409]
  }

  ghost predicate AllOfCubeRoots(primes: seq<nat>, limit: nat, parts: seq<nat>)
  {
    |primes| == |parts| == 8 && forall j :: 0 <= j < 8 ==> OfCubeRoot(primes[j], limit, parts[j])
  }

  ghost predicate AllOfSquareRoots(primes: seq<nat>, limit: nat, parts: seq<nat>)
  {
    |primes| == |parts| == 8 && forall j :: 0 <= j < 8 ==> OfSquareRoot(primes[j], limit, parts[j])
  }

  lemma AllEight(primes: seq<nat>, limit: nat, p: seq<nat>)
    requires |primes| == |p| == 8
    requires OfCubeRoot(primes[0], limit, p[0]) && OfCubeRoot(primes[1], limit, p[1])
    requires OfCubeRoot(primes[2], limit, p[2]) && OfCubeRoot(primes[3], limit, p[3])
    requires OfCubeRoot(primes[4], limit, p[4]) && OfCubeRoot(primes[5], limit, p[5])
    requires OfCubeRoot(primes[6], limit, p[6]) && OfCubeRoot(primes[7], limit, p[7])
    ensures AllOfCubeRoots(primes, limit, p)
  {
  }

  lemma Roots256Row0()
    ensures AllOfCubeRoots(Primes(0), LIMIT32,
              [0x428A2F98, 0x71374491, 0xB5C0FBCF, 0xE9B5DBA5, 0x3956C25B, 0x59F111F1, 0x923F82A4, 0xAB1C5ED5])
  {
    hide AllOfCubeRoots;
    assert OfCubeRoot(2, LIMIT32, 0x428A2F98) by { assert CubeRoot(2, LIMIT32, 1, 0x428A2F98); }
    assert OfCubeRoot(3, LIMIT32, 0x71374491) by { assert CubeRoot(3, LIMIT32, 1, 0x71374491); }
    assert OfCubeRoot(5, LIMIT32, 0xB5C0FBCF) by { assert CubeRoot(5, LIMIT32, 1, 0xB5C0FBCF); }
    assert OfCubeRoot(7, LIMIT32, 0xE9B5DBA5) by { assert CubeRoot(7, LIMIT32, 1, 0xE9B5DBA5); }
    assert OfCubeRoot(11, LIMIT32, 0x3956C25B) by { assert CubeRoot(11, LIMIT32, 2, 0x3956C25B); }
    assert OfCubeRoot(13, LIMIT32, 0x59F111F1) by { assert CubeRoot(13, LIMIT32, 2, 0x59F111F1); }
    assert OfCubeRoot(17, LIMIT32, 0x923F82A4) by { assert CubeRoot(17, LIMIT32, 2, 0x923F82A4); }
    assert OfCubeRoot(19, LIMIT32, 0xAB1C5ED5) by { assert CubeRoot(19, LIMIT32, 2, 0xAB1C5ED5); }
    AllEight(Primes(0), LIMIT32,
      [0x428A2F98, 0x71374491, 0xB5C0FBCF, 0xE9B5DBA5, 0x3956C25B, 0x59F111F1, 0x923F82A4, 0xAB1C5ED5]);
  }

  lemma Constants256Row0()
    ensures AllOfCubeRoots(Primes(0), LIMIT32, Numbers32(Sha256Blocks.Row(0)))
  {
    hide Pow256, AllOfCubeRoots, Primes;
    Roots256Row0();
    assert Numbers32(Sha256Blocks.Row(0)) ==
           [0x428A2F98, 0x71374491, 0xB5C0FBCF, 0xE9B5DBA5, 0x3956C25B, 0x59F111F1, 0x923F82A4, 0xAB1C5ED5];
  }

  lemma Roots256Row1()
    ensures AllOfCubeRoots(Primes(1), LIMIT32,
              [0xD807AA98, 0x12835B01, 0x243185BE, 0x550C7DC3, 0x72BE5D74, 0x80DEB1FE, 0x9BDC06A7, 0xC19BF174])
  {
    hide AllOfCubeRoots;
    assert OfCubeRoot(23, LIMIT32, 0xD807AA98) by { assert CubeRoot(23, LIMIT32, 2, 0xD807AA98); }
    assert OfCubeRoot(29, LIMIT32, 0x12835B01) by { assert CubeRoot(29, LIMIT32, 3, 0x12835B01); }
    assert OfCubeRoot(31, LIMIT32, 0x243185BE) by { assert CubeRoot(31, LIMIT32, 3, 0x243185BE); }
    assert OfCubeRoot(37, LIMIT32, 0x550C7DC3) by { assert CubeRoot(37, LIMIT32, 3, 0x550C7DC3); }
    assert OfCubeRoot(41, LIMIT32, 0x72BE5D74) by { assert CubeRoot(41, LIMIT32, 3, 0x72BE5D74); }
    assert OfCubeRoot(43, LIMIT32, 0x80DEB1FE) by { assert CubeRoot(43, LIMIT32, 3, 0x80DEB1FE); }
    assert OfCubeRoot(47, LIMIT32, 0x9BDC06A7) by { assert CubeRoot(47, LIMIT32, 3, 0x9BDC06A7); }
    assert OfCubeRoot(53, LIMIT32, 0xC19BF174) by { assert CubeRoot(53, LIMIT32, 3, 0xC19BF174); }
    AllEight(Primes(1), LIMIT32,
      [0xD807AA98, 0x12835B01, 0x243185BE, 0x550C7DC3, 0x72BE5D74, 0x80DEB1FE, 0x9BDC06A7, 0xC19BF174]);
  }

  lemma Constants256Row1()
    ensures AllOfCubeRoots(Primes(1), LIMIT32, Numbers32(Sha256Blocks.Row(1)))
  {
    hide Pow256, AllOfCubeRoots, Primes;
    Roots256Row1();
    assert Numbers32(Sha256Blocks.Row(1)) ==
           [0xD807AA98, 0x12835B01, 0x243185BE, 0x550C7DC3, 0x72BE5D74, 0x80DEB1FE, 0x9BDC06A7, 0xC19BF174];
  }

  lemma Roots256Row2()
    ensures AllOfCubeRoots(Primes(2), LIMIT32,
              [0xE49B69C1, 0xEFBE4786, 0x0FC19DC6, 0x240CA1CC, 0x2DE92C6F, 0x4A7484AA, 0x5CB0A9DC, 0x76F988DA])
  {
    hide AllOfCubeRoots;
    assert OfCubeRoot(59, LIMIT32, 0xE49B69C1) by { assert CubeRoot(59, LIMIT32, 3, 0xE49B69C1); }
    assert OfCubeRoot(61, LIMIT32, 0xEFBE4786) by { assert CubeRoot(61, LIMIT32, 3, 0xEFBE4786); }
    assert OfCubeRoot(67, LIMIT32, 0x0FC19DC6) by { assert CubeRoot(67, LIMIT32, 4, 0x0FC19DC6); }
    assert OfCubeRoot(71, LIMIT32, 0x240CA1CC) by { assert CubeRoot(71, LIMIT32, 4, 0x240CA1CC); }
    assert OfCubeRoot(73, LIMIT32, 0x2DE92C6F) by { assert CubeRoot(73, LIMIT32, 4, 0x2DE92C6F); }
    assert OfCubeRoot(79, LIMIT32, 0x4A7484AA) by { assert CubeRoot(79, LIMIT32, 4, 0x4A7484AA); }
    assert OfCubeRoot(83, LIMIT32, 0x5CB0A9DC) by { assert CubeRoot(83, LIMIT32, 4, 0x5CB0A9DC); }
    assert OfCubeRoot(89, LIMIT32, 0x76F988DA) by { assert CubeRoot(89, LIMIT32, 4, 0x76F988DA); }
    AllEight(Primes(2), LIMIT32,
      [0xE49B69C1, 0xEFBE4786, 0x0FC19DC6, 0x240CA1CC, 0x2DE92C6F, 0x4A7484AA, 0x5CB0A9DC, 0x76F988DA]);
  }

  lemma Constants256Row2()
    ensures AllOfCubeRoots(Primes(2), LIMIT32, Numbers32(Sha256Blocks.Row(2)))
  {
    hide Pow256, AllOfCubeRoots, Primes;
    Roots256Row2();
    assert Numbers32(Sha256Blocks.Row(2)) ==
           [0xE49B69C1, 0xEFBE4786, 0x0FC19DC6, 0x240CA1CC, 0x2DE92C6F, 0x4A7484AA, 0x5CB0A9DC, 0x76F988DA];
  }

  lemma Roots256Row3()
    ensures AllOfCubeRoots(Primes(3), LIMIT32,
              [0x983E5152, 0xA831C66D, 0xB00327C8, 0xBF597FC7, 0xC6E00BF3, 0xD5A79147, 0x06CA6351, 0x14292967])
  {
    hide AllOfCubeRoots;
    assert OfCubeRoot(97, LIMIT32, 0x983E5152) by { assert CubeRoot(97, LIMIT32, 4, 0x983E5152); }
    assert OfCubeRoot(101, LIMIT32, 0xA831C66D) by { assert CubeRoot(101, LIMIT32, 4, 0xA831C66D); }
    assert OfCubeRoot(103, LIMIT32, 0xB00327C8) by { assert CubeRoot(103, LIMIT32, 4, 0xB00327C8); }
    assert OfCubeRoot(107, LIMIT32, 0xBF597FC7) by { assert CubeRoot(107, LIMIT32, 4, 0xBF597FC7); }
    assert OfCubeRoot(109, LIMIT32, 0xC6E00BF3) by { assert CubeRoot(109, LIMIT32, 4, 0xC6E00BF3); }
    assert OfCubeRoot(113, LIMIT32, 0xD5A79147) by { assert CubeRoot(113, LIMIT32, 4, 0xD5A79147); }
    assert OfCubeRoot(127, LIMIT32, 0x06CA6351) by { assert CubeRoot(127, LIMIT32, 5, 0x06CA6351); }
    assert OfCubeRoot(131, LIMIT32, 0x14292967) by { assert CubeRoot(131, LIMIT32, 5, 0x14292967); }
    AllEight(Primes(3), LIMIT32,
      [0x983E5152, 0xA831C66D, 0xB00327C8, 0xBF597FC7, 0xC6E00BF3, 0xD5A79147, 0x06CA6351, 0x14292967]);
  }

  lemma Constants256Row3()
    ensures AllOfCubeRoots(Primes(3), LIMIT32, Numbers32(Sha256Blocks.Row(3)))
  {
    hide Pow256, AllOfCubeRoots, Primes;
    Roots256Row3();
    assert Numbers32(Sha256Blocks.Row(3)) ==
           [0x983E5152, 0xA831C66D, 0xB00327C8, 0xBF597FC7, 0xC6E00BF3, 0xD5A79147, 0x06CA6351, 0x14292967];
  }

  lemma Roots256Row4()
    ensures AllOfCubeRoots(Primes(4), LIMIT32,
              [0x27B70A85, 0x2E1B2138, 0x4D2C6DFC, 0x53380D13, 0x650A7354, 0x766A0ABB, 0x81C2C92E, 0x92722C85])
  {
    hide AllOfCubeRoots;
    assert OfCubeRoot(137, LIMIT32, 0x27B70A85) by { assert CubeRoot(137, LIMIT32, 5, 0x27B70A85); }
    assert OfCubeRoot(139, LIMIT32, 0x2E1B2138) by { assert CubeRoot(139, LIMIT32, 5, 0x2E1B2138); }
    assert OfCubeRoot(149, LIMIT32, 0x4D2C6DFC) by { assert CubeRoot(149, LIMIT32, 5, 0x4D2C6DFC); }
    assert OfCubeRoot(151, LIMIT32, 0x53380D13) by { assert CubeRoot(151, LIMIT32, 5, 0x53380D13); }
    assert OfCubeRoot(157, LIMIT32, 0x650A7354) by { assert CubeRoot(157, LIMIT32, 5, 0x650A7354); }
    assert OfCubeRoot(163, LIMIT32, 0x766A0ABB) by { assert CubeRoot(163, LIMIT32, 5, 0x766A0ABB); }
    assert OfCubeRoot(167, LIMIT32, 0x81C2C92E) by { assert CubeRoot(167, LIMIT32, 5, 0x81C2C92E); }
    assert OfCubeRoot(173, LIMIT32, 0x92722C85) by { assert CubeRoot(173, LIMIT32, 5, 0x92722C85); }
    AllEight(Primes(4), LIMIT32,
      [0x27B70A85, 0x2E1B2138, 0x4D2C6DFC, 0x53380D13, 0x650A7354, 0x766A0ABB, 0x81C2C92E, 0x92722C85]);
  }

  lemma Constants256Row4()
    ensures AllOfCubeRoots(Primes(4), LIMIT32, Numbers32(Sha256Blocks.Row(4)))
  {
    hide Pow256, AllOfCubeRoots, Primes;
    Roots256Row4();
    assert Numbers32(Sha256Blocks.Row(4)) ==
           [0x27B70A85, 0x2E1B2138, 0x4D2C6DFC, 0x53380D13, 0x650A7354, 0x766A0ABB, 0x81C2C92E, 0x92722C85];
  }

  lemma Roots256Row5()
    ensures AllOfCubeRoots(Primes(5), LIMIT32,
              [0xA2BFE8A1, 0xA81A664B, 0xC24B8B70, 0xC76C51A3, 0xD192E819, 0xD6990624, 0xF40E3585, 0x106AA070])
  {
    hide AllOfCubeRoots;
    assert OfCubeRoot(179, LIMIT32, 0xA2BFE8A1) by { assert CubeRoot(179, LIMIT32, 5, 0xA2BFE8A1); }
    assert OfCubeRoot(181, LIMIT32, 0xA81A664B) by { assert CubeRoot(181, LIMIT32, 5, 0xA81A664B); }
    assert OfCubeRoot(191, LIMIT32, 0xC24B8B70) by { assert CubeRoot(191, LIMIT32, 5, 0xC24B8B70); }
    assert OfCubeRoot(193, LIMIT32, 0xC76C51A3) by { assert CubeRoot(193, LIMIT32, 5, 0xC76C51A3); }
    assert OfCubeRoot(197, LIMIT32, 0xD192E819) by { assert CubeRoot(197, LIMIT32, 5, 0xD192E819); }
    assert OfCubeRoot(199, LIMIT32, 0xD6990624) by { assert CubeRoot(199, LIMIT32, 5, 0xD6990624); }
    assert OfCubeRoot(211, LIMIT32, 0xF40E3585) by { assert CubeRoot(211, LIMIT32, 5, 0xF40E3585); }
    assert OfCubeRoot(223, LIMIT32, 0x106AA070) by { assert CubeRoot(223, LIMIT32, 6, 0x106AA070); }
    AllEight(Primes(5), LIMIT32,
      [0xA2BFE8A1, 0xA81A664B, 0xC24B8B70, 0xC76C51A3, 0xD192E819, 0xD6990624, 0xF40E3585, 0x106AA070]);
  }

  lemma Constants256Row5()
    ensures AllOfCubeRoots(Primes(5), LIMIT32, Numbers32(Sha256Blocks.Row(5)))
  {
    hide Pow256, AllOfCubeRoots, Primes;
    Roots256Row5();
    assert Numbers32(Sha256Blocks.Row(5)) ==
           [0xA2BFE8A1, 0xA81A664B, 0xC24B8B70, 0xC76C51A3, 0xD192E819, 0xD6990624, 0xF40E3585, 0x106AA070];
  }

  lemma Roots256Row6()
    ensures AllOfCubeRoots(Primes(6), LIMIT32,
              [0x19A4C116, 0x1E376C08, 0x2748774C, 0x34B0BCB5, 0x391C0CB3, 0x4ED8AA4A, 0x5B9CCA4F, 0x682E6FF3])
  {
    hide AllOfCubeRoots;
    assert OfCubeRoot(227, LIMIT32, 0x19A4C116) by { assert CubeRoot(227, LIMIT32, 6, 0x19A4C116); }
    assert OfCubeRoot(229, LIMIT32, 0x1E376C08) by { assert CubeRoot(229, LIMIT32, 6, 0x1E376C08); }
    assert OfCubeRoot(233, LIMIT32, 0x2748774C) by { assert CubeRoot(233, LIMIT32, 6, 0x2748774C); }
    assert OfCubeRoot(239, LIMIT32, 0x34B0BCB5) by { assert CubeRoot(239, LIMIT32, 6, 0x34B0BCB5); }
    assert OfCubeRoot(241, LIMIT32, 0x391C0CB3) by { assert CubeRoot(241, LIMIT32, 6, 0x391C0CB3); }
    assert OfCubeRoot(251, LIMIT32, 0x4ED8AA4A) by { assert CubeRoot(251, LIMIT32, 6, 0x4ED8AA4A); }
    assert OfCubeRoot(257, LIMIT32, 0x5B9CCA4F) by { assert CubeRoot(257, LIMIT32, 6, 0x5B9CCA4F); }
    assert OfCubeRoot(263, LIMIT32, 0x682E6FF3) by { assert CubeRoot(263, LIMIT32, 6, 0x682E6FF3); }
    AllEight(Primes(6), LIMIT32,
      [0x19A4C116, 0x1E376C08, 0x2748774C, 0x34B0BCB5, 0x391C0CB3, 0x4ED8AA4A, 0x5B9CCA4F, 0x682E6FF3]);
  }

  lemma Constants256Row6()
    ensures AllOfCubeRoots(Primes(6), LIMIT32, Numbers32(Sha256Blocks.Row(6)))
  {
    hide Pow256, AllOfCubeRoots, Primes;
    Roots256Row6();
    assert Numbers32(Sha256Blocks.Row(6)) ==
           [0x19A4C116, 0x1E376C08, 0x2748774C, 0x34B0BCB5, 0x391C0CB3, 0x4ED8AA4A, 0x5B9CCA4F, 0x682E6FF3];
  }

  lemma Roots256Row7()
    ensures AllOfCubeRoots(Primes(7), LIMIT32,
              [0x748F82EE, 0x78A5636F, 0x84C87814, 0x8CC70208, 0x90BEFFFA, 0xA4506CEB, 0xBEF9A3F7, 0xC67178F2])
  {
    hide AllOfCubeRoots;
    assert OfCubeRoot(269, LIMIT32, 0x748F82EE) by { assert CubeRoot(269, LIMIT32, 6, 0x748F82EE); }
    assert OfCubeRoot(271, LIMIT32, 0x78A5636F) by { assert CubeRoot(271, LIMIT32, 6, 0x78A5636F); }
    assert OfCubeRoot(277, LIMIT32, 0x84C87814) by { assert CubeRoot(277, LIMIT32, 6, 0x84C87814); }
    assert OfCubeRoot(281, LIMIT32, 0x8CC70208) by { assert CubeRoot(281, LIMIT32, 6, 0x8CC70208); }
    assert OfCubeRoot(283, LIMIT32, 0x90BEFFFA) by { assert CubeRoot(283, LIMIT32, 6, 0x90BEFFFA); }
    assert OfCubeRoot(293, LIMIT32, 0xA4506CEB) by { assert CubeRoot(293, LIMIT32, 6, 0xA4506CEB); }
    assert OfCubeRoot(307, LIMIT32, 0xBEF9A3F7) by { assert CubeRoot(307, LIMIT32, 6, 0xBEF9A3F7); }
    assert OfCubeRoot(311, LIMIT32, 0xC67178F2) by { assert CubeRoot(311, LIMIT32, 6, 0xC67178F2); }
    AllEight(Primes(7), LIMIT32,
      [0x748F82EE, 0x78A5636F, 0x84C87814, 0x8CC70208, 0x90BEFFFA, 0xA4506CEB, 0xBEF9A3F7, 0xC67178F2]);
  }

  lemma Constants256Row7()
    ensures AllOfCubeRoots(Primes(7), LIMIT32, Numbers32(Sha256Blocks.Row(7)))
  {
    hide Pow256, AllOfCubeRoots, Primes;
    Roots256Row7();
    assert Numbers32(Sha256Blocks.Row(7)) ==
           [0x748F82EE, 0x78A5636F, 0x84C87814, 0x8CC70208, 0x90BEFFFA, 0xA4506CEB, 0xBEF9A3F7, 0xC67178F2];
  }

  lemma Roots512Row0()
    ensures AllOfCubeRoots(Primes(0), LIMIT64,
              [0x428A2F98D728AE22, 0x7137449123EF65CD, 0xB5C0FBCFEC4D3B2F, 0xE9B5DBA58189DBBC,
               0x3956C25BF348B538, 0x59F111F1B605D019, 0x923F82A4AF194F9B, 0xAB1C5ED5DA6D8118])
  {
    hide AllOfCubeRoots;
    assert OfCubeRoot(2, LIMIT64, 0x428A2F98D728AE22) by { assert CubeRoot(2, LIMIT64, 1, 0x428A2F98D728AE22); }
    assert OfCubeRoot(3, LIMIT64, 0x7137449123EF65CD) by { assert CubeRoot(3, LIMIT64, 1, 0x7137449123EF65CD); }
    assert OfCubeRoot(5, LIMIT64, 0xB5C0FBCFEC4D3B2F) by { assert CubeRoot(5, LIMIT64, 1, 0xB5C0FBCFEC4D3B2F); }
    assert OfCubeRoot(7, LIMIT64, 0xE9B5DBA58189DBBC) by { assert CubeRoot(7, LIMIT64, 1, 0xE9B5DBA58189DBBC); }
    assert OfCubeRoot(11, LIMIT64, 0x3956C25BF348B538) by { assert CubeRoot(11, LIMIT64, 2, 0x3956C25BF348B538); }
    assert OfCubeRoot(13, LIMIT64, 0x59F111F1B605D019) by { assert CubeRoot(13, LIMIT64, 2, 0x59F111F1B605D019); }
    assert OfCubeRoot(17, LIMIT64, 0x923F82A4AF194F9B) by { assert CubeRoot(17, LIMIT64, 2, 0x923F82A4AF194F9B); }
    assert OfCubeRoot(19, LIMIT64, 0xAB1C5ED5DA6D8118) by { assert CubeRoot(19, LIMIT64, 2, 0xAB1C5ED5DA6D8118); }
    AllEight(Primes(0), LIMIT64,
      [0x428A2F98D728AE22, 0x7137449123EF65CD, 0xB5C0FBCFEC4D3B2F, 0xE9B5DBA58189DBBC,
       0x3956C25BF348B538, 0x59F111F1B605D019, 0x923F82A4AF194F9B, 0xAB1C5ED5DA6D8118]);
  }

  lemma Constants512Row0()
    ensures AllOfCubeRoots(Primes(0), LIMIT64, Numbers64(Sha512Blocks.Row(0)))
  {
    hide Pow256, AllOfCubeRoots, Primes;
    Roots512Row0();
    assert Numbers64(Sha512Blocks.Row(0)) ==
           [0x428A2F98D728AE22, 0x7137449123EF65CD, 0xB5C0FBCFEC4D3B2F, 0xE9B5DBA58189DBBC,
            0x3956C25BF348B538, 0x59F111F1B605D019, 0x923F82A4AF194F9B, 0xAB1C5ED5DA6D8118];
  }

  lemma Roots512Row1()
    ensures AllOfCubeRoots(Primes(1), LIMIT64,
              [0xD807AA98A3030242, 0x12835B0145706FBE, 0x243185BE4EE4B28C, 0x550C7DC3D5FFB4E2,
               0x72BE5D74F27B896F, 0x80DEB1FE3B1696B1, 0x9BDC06A725C71235, 0xC19BF174CF692694])
  {
    hide AllOfCubeRoots;
    assert OfCubeRoot(23, LIMIT64, 0xD807AA98A3030242) by { assert CubeRoot(23, LIMIT64, 2, 0xD807AA98A3030242); }
    assert OfCubeRoot(29, LIMIT64, 0x12835B0145706FBE) by { assert CubeRoot(29, LIMIT64, 3, 0x12835B0145706FBE); }
    assert OfCubeRoot(31, LIMIT64, 0x243185BE4EE4B28C) by { assert CubeRoot(31, LIMIT64, 3, 0x243185BE4EE4B28C); }
    assert OfCubeRoot(37, LIMIT64, 0x550C7DC3D5FFB4E2) by { assert CubeRoot(37, LIMIT64, 3, 0x550C7DC3D5FFB4E2); }
    assert OfCubeRoot(41, LIMIT64, 0x72BE5D74F27B896F) by { assert CubeRoot(41, LIMIT64, 3, 0x72BE5D74F27B896F); }
    assert OfCubeRoot(43, LIMIT64, 0x80DEB1FE3B1696B1) by { assert CubeRoot(43, LIMIT64, 3, 0x80DEB1FE3B1696B1); }
    assert OfCubeRoot(47, LIMIT64, 0x9BDC06A725C71235) by { assert CubeRoot(47, LIMIT64, 3, 0x9BDC06A725C71235); }
    assert OfCubeRoot(53, LIMIT64, 0xC19BF174CF692694) by { assert CubeRoot(53, LIMIT64, 3, 0xC19BF174CF692694); }
    AllEight(Primes(1), LIMIT64,
      [0xD807AA98A3030242, 0x12835B0145706FBE, 0x243185BE4EE4B28C, 0x550C7DC3D5FFB4E2,
       0x72BE5D74F27B896F, 0x80DEB1FE3B1696B1, 0x9BDC06A725C71235, 0xC19BF174CF692694]);
  }

  lemma Constants512Row1()
    ensures AllOfCubeRoots(Primes(1), LIMIT64, Numbers64(Sha512Blocks.Row(1)))
  {
    hide Pow256, AllOfCubeRoots, Primes;
    Roots512Row1();
    assert Numbers64(Sha512Blocks.Row(1)) ==
           [0xD807AA98A3030242, 0x12835B0145706FBE, 0x243185BE4EE4B28C, 0x550C7DC3D5FFB4E2,
            0x72BE5D74F27B896F, 0x80DEB1FE3B1696B1, 0x9BDC06A725C71235, 0xC19BF174CF692694];
  }

  lemma Roots512Row2()
    ensures AllOfCubeRoots(Primes(2), LIMIT64,
              [0xE49B69C19EF14AD2, 0xEFBE4786384F25E3, 0x0FC19DC68B8CD5B5, 0x240CA1CC77AC9C65,
               0x2DE92C6F592B0275, 0x4A7484AA6EA6E483, 0x5CB0A9DCBD41FBD4, 0x76F988DA831153B5])
  {
    hide AllOfCubeRoots;
    assert OfCubeRoot(59, LIMIT64, 0xE49B69C19EF14AD2) by { assert CubeRoot(59, LIMIT64, 3, 0xE49B69C19EF14AD2); }
    assert OfCubeRoot(61, LIMIT64, 0xEFBE4786384F25E3) by { assert CubeRoot(61, LIMIT64, 3, 0xEFBE4786384F25E3); }
    assert OfCubeRoot(67, LIMIT64, 0x0FC19DC68B8CD5B5) by { assert CubeRoot(67, LIMIT64, 4, 0x0FC19DC68B8CD5B5); }
    assert OfCubeRoot(71, LIMIT64, 0x240CA1CC77AC9C65) by { assert CubeRoot(71, LIMIT64, 4, 0x240CA1CC77AC9C65); }
    assert OfCubeRoot(73, LIMIT64, 0x2DE92C6F592B0275) by { assert CubeRoot(73, LIMIT64, 4, 0x2DE92C6F592B0275); }
    assert OfCubeRoot(79, LIMIT64, 0x4A7484AA6EA6E483) by { assert CubeRoot(79, LIMIT64, 4, 0x4A7484AA6EA6E483); }
    assert OfCubeRoot(83, LIMIT64, 0x5CB0A9DCBD41FBD4) by { assert CubeRoot(83, LIMIT64, 4, 0x5CB0A9DCBD41FBD4); }
    assert OfCubeRoot(89, LIMIT64, 0x76F988DA831153B5) by { assert CubeRoot(89, LIMIT64, 4, 0x76F988DA831153B5); }
    AllEight(Primes(2), LIMIT64,
      [0xE49B69C19EF14AD2, 0xEFBE4786384F25E3, 0x0FC19DC68B8CD5B5, 0x240CA1CC77AC9C65,
       0x2DE92C6F592B0275, 0x4A7484AA6EA6E483, 0x5CB0A9DCBD41FBD4, 0x76F988DA831153B5]);
  }

  lemma Constants512Row2()
    ensures AllOfCubeRoots(Primes(2), LIMIT64, Numbers64(Sha512Blocks.Row(2)))
  {
    hide Pow256, AllOfCubeRoots, Primes;
    Roots512Row2();
    assert Numbers64(Sha512Blocks.Row(2)) ==
           [0xE49B69C19EF14AD2, 0xEFBE4786384F25E3, 0x0FC19DC68B8CD5B5, 0x240CA1CC77AC9C65,
            0x2DE92C6F592B0275, 0x4A7484AA6EA6E483, 0x5CB0A9DCBD41FBD4, 0x76F988DA831153B5];
  }

  lemma Roots512Row3()
    ensures AllOfCubeRoots(Primes(3), LIMIT64,
              [0x983E5152EE66DFAB, 0xA831C66D2DB43210, 0xB00327C898FB213F, 0xBF597FC7BEEF0EE4,
               0xC6E00BF33DA88FC2, 0xD5A79147930AA725, 0x06CA6351E003826F, 0x142929670A0E6E70])
  {
    hide AllOfCubeRoots;
    assert OfCubeRoot(97, LIMIT64, 0x983E5152EE66DFAB) by { assert CubeRoot(97, LIMIT64, 4, 0x983E5152EE66DFAB); }
    assert OfCubeRoot(101, LIMIT64, 0xA831C66D2DB43210) by { assert CubeRoot(101, LIMIT64, 4, 0xA831C66D2DB43210); }
    assert OfCubeRoot(103, LIMIT64, 0xB00327C898FB213F) by { assert CubeRoot(103, LIMIT64, 4, 0xB00327C898FB213F); }
    assert OfCubeRoot(107, LIMIT64, 0xBF597FC7BEEF0EE4) by { assert CubeRoot(107, LIMIT64, 4, 0xBF597FC7BEEF0EE4); }
    assert OfCubeRoot(109, LIMIT64, 0xC6E00BF33DA88FC2) by { assert CubeRoot(109, LIMIT64, 4, 0xC6E00BF33DA88FC2); }
    assert OfCubeRoot(113, LIMIT64, 0xD5A79147930AA725) by { assert CubeRoot(113, LIMIT64, 4, 0xD5A79147930AA725); }
    assert OfCubeRoot(127, LIMIT64, 0x06CA6351E003826F) by { assert CubeRoot(127, LIMIT64, 5, 0x06CA6351E003826F); }
    assert OfCubeRoot(131, LIMIT64, 0x142929670A0E6E70) by { assert CubeRoot(131, LIMIT64, 5, 0x142929670A0E6E70); }
    AllEight(Primes(3), LIMIT64,
      [0x983E5152EE66DFAB, 0xA831C66D2DB43210, 0xB00327C898FB213F, 0xBF597FC7BEEF0EE4,
       0xC6E00BF33DA88FC2, 0xD5A79147930AA725, 0x06CA6351E003826F, 0x142929670A0E6E70]);
  }

  lemma Constants512Row3()
    ensures AllOfCubeRoots(Primes(3), LIMIT64, Numbers64(Sha512Blocks.Row(3)))
  {
    hide Pow256, AllOfCubeRoots, Primes;
    Roots512Row3();
    assert Numbers64(Sha512Blocks.Row(3)) ==
           [0x983E5152EE66DFAB, 0xA831C66D2DB43210, 0xB00327C898FB213F, 0xBF597FC7BEEF0EE4,
            0xC6E00BF33DA88FC2, 0xD5A79147930AA725, 0x06CA6351E003826F, 0x142929670A0E6E70];
  }

  lemma Roots512Row4()
    ensures AllOfCubeRoots(Primes(4), LIMIT64,
              [0x27B70A8546D22FFC, 0x2E1B21385C26C926, 0x4D2C6DFC5AC42AED, 0x53380D139D95B3DF,
               0x650A73548BAF63DE, 0x766A0ABB3C77B2A8, 0x81C2C92E47EDAEE6, 0x92722C851482353B])
  {
    hide AllOfCubeRoots;
    assert OfCubeRoot(137, LIMIT64, 0x27B70A8546D22FFC) by { assert CubeRoot(137, LIMIT64, 5, 0x27B70A8546D22FFC); }
    assert OfCubeRoot(139, LIMIT64, 0x2E1B21385C26C926) by { assert CubeRoot(139, LIMIT64, 5, 0x2E1B21385C26C926); }
    assert OfCubeRoot(149, LIMIT64, 0x4D2C6DFC5AC42AED) by { assert CubeRoot(149, LIMIT64, 5, 0x4D2C6DFC5AC42AED); }
    assert OfCubeRoot(151, LIMIT64, 0x53380D139D95B3DF) by { assert CubeRoot(151, LIMIT64, 5, 0x53380D139D95B3DF); }
    assert OfCubeRoot(157, LIMIT64, 0x650A73548BAF63DE) by { assert CubeRoot(157, LIMIT64, 5, 0x650A73548BAF63DE); }
    assert OfCubeRoot(163, LIMIT64, 0x766A0ABB3C77B2A8) by { assert CubeRoot(163, LIMIT64, 5, 0x766A0ABB3C77B2A8); }
    assert OfCubeRoot(167, LIMIT64, 0x81C2C92E47EDAEE6) by { assert CubeRoot(167, LIMIT64, 5, 0x81C2C92E47EDAEE6); }
    assert OfCubeRoot(173, LIMIT64, 0x92722C851482353B) by { assert CubeRoot(173, LIMIT64, 5, 0x92722C851482353B); }
    AllEight(Primes(4), LIMIT64,
      [0x27B70A8546D22FFC, 0x2E1B21385C26C926, 0x4D2C6DFC5AC42AED, 0x53380D139D95B3DF,
       0x650A73548BAF63DE, 0x766A0ABB3C77B2A8, 0x81C2C92E47EDAEE6, 0x92722C851482353B]);
  }

  lemma Constants512Row4()
    ensures AllOfCubeRoots(Primes(4), LIMIT64, Numbers64(Sha512Blocks.Row(4)))
  {
    hide Pow256, AllOfCubeRoots, Primes;
    Roots512Row4();
    assert Numbers64(Sha512Blocks.Row(4)) ==
           [0x27B70A8546D22FFC, 0x2E1B21385C26C926, 0x4D2C6DFC5AC42AED, 0x53380D139D95B3DF,
            0x650A73548BAF63DE, 0x766A0ABB3C77B2A8, 0x81C2C92E47EDAEE6, 0x92722C851482353B];
  }

  lemma Roots512Row5()
    ensures AllOfCubeRoots(Primes(5), LIMIT64,
              [0xA2BFE8A14CF10364, 0xA81A664BBC423001, 0xC24B8B70D0F89791, 0xC76C51A30654BE30,
               0xD192E819D6EF5218, 0xD69906245565A910, 0xF40E35855771202A, 0x106AA07032BBD1B8])
  {
    hide AllOfCubeRoots;
    assert OfCubeRoot(179, LIMIT64, 0xA2BFE8A14CF10364) by { assert CubeRoot(179, LIMIT64, 5, 0xA2BFE8A14CF10364); }
    assert OfCubeRoot(181, LIMIT64, 0xA81A664BBC423001) by { assert CubeRoot(181, LIMIT64, 5, 0xA81A664BBC423001); }
    assert OfCubeRoot(191, LIMIT64, 0xC24B8B70D0F89791) by { assert CubeRoot(191, LIMIT64, 5, 0xC24B8B70D0F89791); }
    assert OfCubeRoot(193, LIMIT64, 0xC76C51A30654BE30) by { assert CubeRoot(193, LIMIT64, 5, 0xC76C51A30654BE30); }
    assert OfCubeRoot(197, LIMIT64, 0xD192E819D6EF5218) by { assert CubeRoot(197, LIMIT64, 5, 0xD192E819D6EF5218); }
    assert OfCubeRoot(199, LIMIT64, 0xD69906245565A910) by { assert CubeRoot(199, LIMIT64, 5, 0xD69906245565A910); }
    assert OfCubeRoot(211, LIMIT64, 0xF40E35855771202A) by { assert CubeRoot(211, LIMIT64, 5, 0xF40E35855771202A); }
    assert OfCubeRoot(223, LIMIT64, 0x106AA07032BBD1B8) by { assert CubeRoot(223, LIMIT64, 6, 0x106AA07032BBD1B8); }
    AllEight(Primes(5), LIMIT64,
      [0xA2BFE8A14CF10364, 0xA81A664BBC423001, 0xC24B8B70D0F89791, 0xC76C51A30654BE30,
       0xD192E819D6EF5218, 0xD69906245565A910, 0xF40E35855771202A, 0x106AA07032BBD1B8]);
  }

  lemma Constants512Row5()
    ensures AllOfCubeRoots(Primes(5), LIMIT64, Numbers64(Sha512Blocks.Row(5)))
  {
    hide Pow256, AllOfCubeRoots, Primes;
    Roots512Row5();
    assert Numbers64(Sha512Blocks.Row(5)) ==
           [0xA2BFE8A14CF10364, 0xA81A664BBC423001, 0xC24B8B70D0F89791, 0xC76C51A30654BE30,
            0xD192E819D6EF5218, 0xD69906245565A910, 0xF40E35855771202A, 0x106AA07032BBD1B8];
  }

  lemma Roots512Row6()
    ensures AllOfCubeRoots(Primes(6), LIMIT64,
              [0x19A4C116B8D2D0C8, 0x1E376C085141AB53, 0x2748774CDF8EEB99, 0x34B0BCB5E19B48A8,
               0x391C0CB3C5C95A63, 0x4ED8AA4AE3418ACB, 0x5B9CCA4F7763E373, 0x682E6FF3D6B2B8A3])
  {
    hide AllOfCubeRoots;
    assert OfCubeRoot(227, LIMIT64, 0x19A4C116B8D2D0C8) by { assert CubeRoot(227, LIMIT64, 6, 0x19A4C116B8D2D0C8); }
    assert OfCubeRoot(229, LIMIT64, 0x1E376C085141AB53) by { assert CubeRoot(229, LIMIT64, 6, 0x1E376C085141AB53); }
    assert OfCubeRoot(233, LIMIT64, 0x2748774CDF8EEB99) by { assert CubeRoot(233, LIMIT64, 6, 0x2748774CDF8EEB99); }
    assert OfCubeRoot(239, LIMIT64, 0x34B0BCB5E19B48A8) by { assert CubeRoot(239, LIMIT64, 6, 0x34B0BCB5E19B48A8); }
    assert OfCubeRoot(241, LIMIT64, 0x391C0CB3C5C95A63) by { assert CubeRoot(241, LIMIT64, 6, 0x391C0CB3C5C95A63); }
    assert OfCubeRoot(251, LIMIT64, 0x4ED8AA4AE3418ACB) by { assert CubeRoot(251, LIMIT64, 6, 0x4ED8AA4AE3418ACB); }
    assert OfCubeRoot(257, LIMIT64, 0x5B9CCA4F7763E373) by { assert CubeRoot(257, LIMIT64, 6, 0x5B9CCA4F7763E373); }
    assert OfCubeRoot(263, LIMIT64, 0x682E6FF3D6B2B8A3) by { assert CubeRoot(263, LIMIT64, 6, 0x682E6FF3D6B2B8A3); }
    AllEight(Primes(6), LIMIT64,
      [0x19A4C116B8D2D0C8, 0x1E376C085141AB53, 0x2748774CDF8EEB99, 0x34B0BCB5E19B48A8,
       0x391C0CB3C5C95A63, 0x4ED8AA4AE3418ACB, 0x5B9CCA4F7763E373, 0x682E6FF3D6B2B8A3]);
  }

  lemma Constants512Row6()
    ensures AllOfCubeRoots(Primes(6), LIMIT64, Numbers64(Sha512Blocks.Row(6)))
  {
    hide Pow256, AllOfCubeRoots, Primes;
    Roots512Row6();
    assert Numbers64(Sha512Blocks.Row(6)) ==
           [0x19A4C116B8D2D0C8, 0x1E376C085141AB53, 0x2748774CDF8EEB99, 0x34B0BCB5E19B48A8,
            0x391C0CB3C5C95A63, 0x4ED8AA4AE3418ACB, 0x5B9CCA4F7763E373, 0x682E6FF3D6B2B8A3];
  }

  lemma Roots512Row7()
    ensures AllOfCubeRoots(Primes(7), LIMIT64,
              [0x748F82EE5DEFB2FC, 0x78A5636F43172F60, 0x84C87814A1F0AB72, 0x8CC702081A6439EC,
               0x90BEFFFA23631E28, 0xA4506CEBDE82BDE9, 0xBEF9A3F7B2C67915, 0xC67178F2E372532B])
  {
    hide AllOfCubeRoots;
    assert OfCubeRoot(269, LIMIT64, 0x748F82EE5DEFB2FC) by { assert CubeRoot(269, LIMIT64, 6, 0x748F82EE5DEFB2FC); }
    assert OfCubeRoot(271, LIMIT64, 0x78A5636F43172F60) by { assert CubeRoot(271, LIMIT64, 6, 0x78A5636F43172F60); }
    assert OfCubeRoot(277, LIMIT64, 0x84C87814A1F0AB72) by { assert CubeRoot(277, LIMIT64, 6, 0x84C87814A1F0AB72); }
    assert OfCubeRoot(281, LIMIT64, 0x8CC702081A6439EC) by { assert CubeRoot(281, LIMIT64, 6, 0x8CC702081A6439EC); }
    assert OfCubeRoot(283, LIMIT64, 0x90BEFFFA23631E28) by { assert CubeRoot(283, LIMIT64, 6, 0x90BEFFFA23631E28); }
    assert OfCubeRoot(293, LIMIT64, 0xA4506CEBDE82BDE9) by { assert CubeRoot(293, LIMIT64, 6, 0xA4506CEBDE82BDE9); }
    assert OfCubeRoot(307, LIMIT64, 0xBEF9A3F7B2C67915) by { assert CubeRoot(307, LIMIT64, 6, 0xBEF9A3F7B2C67915); }
    assert OfCubeRoot(311, LIMIT64, 0xC67178F2E372532B) by { assert CubeRoot(311, LIMIT64, 6, 0xC67178F2E372532B); }
    AllEight(Primes(7), LIMIT64,
      [0x748F82EE5DEFB2FC, 0x78A5636F43172F60, 0x84C87814A1F0AB72, 0x8CC702081A6439EC,
       0x90BEFFFA23631E28, 0xA4506CEBDE82BDE9, 0xBEF9A3F7B2C67915, 0xC67178F2E372532B]);
  }

  lemma Constants512Row7()
    ensures AllOfCubeRoots(Primes(7), LIMIT64, Numbers64(Sha512Blocks.Row(7)))
  {
    hide Pow256, AllOfCubeRoots, Primes;
    Roots512Row7();
    assert Numbers64(Sha512Blocks.Row(7)) ==
           [0x748F82EE5DEFB2FC, 0x78A5636F43172F60, 0x84C87814A1F0AB72, 0x8CC702081A6439EC,
            0x90BEFFFA23631E28, 0xA4506CEBDE82BDE9, 0xBEF9A3F7B2C67915, 0xC67178F2E372532B];
  }

  lemma Roots512Row8()
    ensures AllOfCubeRoots(Primes(8), LIMIT64,
              [0xCA273ECEEA26619C, 0xD186B8C721C0C207, 0xEADA7DD6CDE0EB1E, 0xF57D4F7FEE6ED178,
               0x06F067AA72176FBA, 0x0A637DC5A2C898A6, 0x113F9804BEF90DAE, 0x1B710B35131C471B])
  {
    hide AllOfCubeRoots;
    assert OfCubeRoot(313, LIMIT64, 0xCA273ECEEA26619C) by { assert CubeRoot(313, LIMIT64, 6, 0xCA273ECEEA26619C); }
    assert OfCubeRoot(317, LIMIT64, 0xD186B8C721C0C207) by { assert CubeRoot(317, LIMIT64, 6, 0xD186B8C721C0C207); }
    assert OfCubeRoot(331, LIMIT64, 0xEADA7DD6CDE0EB1E) by { assert CubeRoot(331, LIMIT64, 6, 0xEADA7DD6CDE0EB1E); }
    assert OfCubeRoot(337, LIMIT64, 0xF57D4F7FEE6ED178) by { assert CubeRoot(337, LIMIT64, 6, 0xF57D4F7FEE6ED178); }
    assert OfCubeRoot(347, LIMIT64, 0x06F067AA72176FBA) by { assert CubeRoot(347, LIMIT64, 7, 0x06F067AA72176FBA); }
    assert OfCubeRoot(349, LIMIT64, 0x0A637DC5A2C898A6) by { assert CubeRoot(349, LIMIT64, 7, 0x0A637DC5A2C898A6); }
    assert OfCubeRoot(353, LIMIT64, 0x113F9804BEF90DAE) by { assert CubeRoot(353, LIMIT64, 7, 0x113F9804BEF90DAE); }
    assert OfCubeRoot(359, LIMIT64, 0x1B710B35131C471B) by { assert CubeRoot(359, LIMIT64, 7, 0x1B710B35131C471B); }
    AllEight(Primes(8), LIMIT64,
      [0xCA273ECEEA26619C, 0xD186B8C721C0C207, 0xEADA7DD6CDE0EB1E, 0xF57D4F7FEE6ED178,
       0x06F067AA72176FBA, 0x0A637DC5A2C898A6, 0x113F9804BEF90DAE, 0x1B710B35131C471B]);
  }

  lemma Constants512Row8()
    ensures AllOfCubeRoots(Primes(8), LIMIT64, Numbers64(Sha512Blocks.Row(8)))
  {
    hide Pow256, AllOfCubeRoots, Primes;
    Roots512Row8();
    assert Numbers64(Sha512Blocks.Row(8)) ==
           [0xCA273ECEEA26619C, 0xD186B8C721C0C207, 0xEADA7DD6CDE0EB1E, 0xF57D4F7FEE6ED178,
            0x06F067AA72176FBA, 0x0A637DC5A2C898A6, 0x113F9804BEF90DAE, 0x1B710B35131C471B];
  }

  lemma Roots512Row9()
    ensures AllOfCubeRoots(Primes(9), LIMIT64,
              [0x28DB77F523047D84, 0x32CAAB7B40C72493, 0x3C9EBE0A15C9BEBC, 0x431D67C49C100D4C,
               0x4CC5D4BECB3E42B6, 0x597F299CFC657E2A, 0x5FCB6FAB3AD6FAEC, 0x6C44198C4A475817])
  {
    hide AllOfCubeRoots;
    assert OfCubeRoot(367, LIMIT64, 0x28DB77F523047D84) by { assert CubeRoot(367, LIMIT64, 7, 0x28DB77F523047D84); }
    assert OfCubeRoot(373, LIMIT64, 0x32CAAB7B40C72493) by { assert CubeRoot(373, LIMIT64, 7, 0x32CAAB7B40C72493); }
    assert OfCubeRoot(379, LIMIT64, 0x3C9EBE0A15C9BEBC) by { assert CubeRoot(379, LIMIT64, 7, 0x3C9EBE0A15C9BEBC); }
    assert OfCubeRoot(383, LIMIT64, 0x431D67C49C100D4C) by { assert CubeRoot(383, LIMIT64, 7, 0x431D67C49C100D4C); }
    assert OfCubeRoot(389, LIMIT64, 0x4CC5D4BECB3E42B6) by { assert CubeRoot(389, LIMIT64, 7, 0x4CC5D4BECB3E42B6); }
    assert OfCubeRoot(397, LIMIT64, 0x597F299CFC657E2A) by { assert CubeRoot(397, LIMIT64, 7, 0x597F299CFC657E2A); }
    assert OfCubeRoot(401, LIMIT64, 0x5FCB6FAB3AD6FAEC) by { assert CubeRoot(401, LIMIT64, 7, 0x5FCB6FAB3AD6FAEC); }
    assert OfCubeRoot(409, LIMIT64, 0x6C44198C4A475817) by { assert CubeRoot(409, LIMIT64, 7, 0x6C44198C4A475817); }
    AllEight(Primes(9), LIMIT64,
      [0x28DB77F523047D84, 0x32CAAB7B40C72493, 0x3C9EBE0A15C9BEBC, 0x431D67C49C100D4C,
       0x4CC5D4BECB3E42B6, 0x597F299CFC657E2A, 0x5FCB6FAB3AD6FAEC, 0x6C44198C4A475817]);
  }

  lemma Constants512Row9()
    ensures AllOfCubeRoots(Primes(9), LIMIT64, Numbers64(Sha512Blocks.Row(9)))
  {
    hide Pow256, AllOfCubeRoots, Primes;
    Roots512Row9();
    assert Numbers64(Sha512Blocks.Row(9)) ==
           [0x28DB77F523047D84, 0x32CAAB7B40C72493, 0x3C9EBE0A15C9BEBC, 0x431D67C49C100D4C,
            0x4CC5D4BECB3E42B6, 0x597F299CFC657E2A, 0x5FCB6FAB3AD6FAEC, 0x6C44198C4A475817];
  }

  /** The table holds the first 32 bits of the fractional parts of the cube roots of the primes, in order. */
  lemma Constants256(i: nat)
    requires i < Sha256Blocks.ROUNDS
    ensures OfCubeRoot(Primes(i / 8)[i % 8], LIMIT32, Number32(Sha256Blocks.Table(i)))
  {
    hide OfCubeRoot, Primes, Pow256, Sha256Blocks.Row;
    match i / 8
    case 0 => Constants256Row0();
    case 1 => Constants256Row1();
    case 2 => Constants256Row2();
    case 3 => Constants256Row3();
    case 4 => Constants256Row4();
    case 5 => Constants256Row5();
    case 6 => Constants256Row6();
    case _ => Constants256Row7();
  }

  /** The table holds the first 64 bits of the fractional parts of the cube roots of the primes, in order. */
  lemma Constants512(i: nat)
    requires i < Sha512Blocks.ROUNDS
    ensures OfCubeRoot(Primes(i / 8)[i % 8], LIMIT64, Number64(Sha512Blocks.Table(i)))
  {
    hide OfCubeRoot, Primes, Pow256, Sha512Blocks.Row;
    match i / 8
    case 0 => Constants512Row0();
    case 1 => Constants512Row1();
    case 2 => Constants512Row2();
    case 3 => Constants512Row3();
    case 4 => Constants512Row4();
    case 5 => Constants512Row5();
    case 6 => Constants512Row6();
    case 7 => Constants512Row7();
    case 8 => Constants512Row8();
    case _ => Constants512Row9();
  }

  // Initial states

  lemma AllEightSquare(primes: seq<nat>, limit: nat, p: seq<nat>)
    requires |primes| == |p| == 8
    requires OfSquareRoot(primes[0], limit, p[0]) && OfSquareRoot(primes[1], limit, p[1])
    requires OfSquareRoot(primes[2], limit, p[2]) && OfSquareRoot(primes[3], limit, p[3])
    requires OfSquareRoot(primes[4], limit, p[4]) && OfSquareRoot(primes[5], limit, p[5])
    requires OfSquareRoot(primes[6], limit, p[6]) && OfSquareRoot(primes[7], limit, p[7])
    ensures AllOfSquareRoots(primes, limit, p)
  {
  }

  lemma Initial256()
    ensures AllOfSquareRoots(Primes(0), LIMIT32, Initial(SHA256))
  {
    hide AllOfSquareRoots;
    assert OfSquareRoot(2, LIMIT32, 0x6A09E667) by { assert SquareRoot(2, LIMIT32, 1, 0x6A09E667); }
    assert OfSquareRoot(3, LIMIT32, 0xBB67AE85) by { assert SquareRoot(3, LIMIT32, 1, 0xBB67AE85); }
    assert OfSquareRoot(5, LIMIT32, 0x3C6EF372) by { assert SquareRoot(5, LIMIT32, 2, 0x3C6EF372); }
    assert OfSquareRoot(7, LIMIT32, 0xA54FF53A) by { assert SquareRoot(7, LIMIT32, 2, 0xA54FF53A); }
    assert OfSquareRoot(11, LIMIT32, 0x510E527F) by { assert SquareRoot(11, LIMIT32, 3, 0x510E527F); }
    assert OfSquareRoot(13, LIMIT32, 0x9B05688C) by { assert SquareRoot(13, LIMIT32, 3, 0x9B05688C); }
    assert OfSquareRoot(17, LIMIT32, 0x1F83D9AB) by { assert SquareRoot(17, LIMIT32, 4, 0x1F83D9AB); }
    assert OfSquareRoot(19, LIMIT32, 0x5BE0CD19) by { assert SquareRoot(19, LIMIT32, 4, 0x5BE0CD19); }
    AllEightSquare(Primes(0), LIMIT32,
      [0x6A09E667, 0xBB67AE85, 0x3C6EF372, 0xA54FF53A, 0x510E527F, 0x9B05688C, 0x1F83D9AB, 0x5BE0CD19]);
  }

  lemma Initial512()
    ensures AllOfSquareRoots(Primes(0), LIMIT64, Initial(SHA512))
  {
    hide AllOfSquareRoots;
    assert OfSquareRoot(2, LIMIT64, 0x6A09E667F3BCC908) by { assert SquareRoot(2, LIMIT64, 1, 0x6A09E667F3BCC908); }
    assert OfSquareRoot(3, LIMIT64, 0xBB67AE8584CAA73B) by { assert SquareRoot(3, LIMIT64, 1, 0xBB67AE8584CAA73B); }
    assert OfSquareRoot(5, LIMIT64, 0x3C6EF372FE94F82B) by { assert SquareRoot(5, LIMIT64, 2, 0x3C6EF372FE94F82B); }
    assert OfSquareRoot(7, LIMIT64, 0xA54FF53A5F1D36F1) by { assert SquareRoot(7, LIMIT64, 2, 0xA54FF53A5F1D36F1); }
    assert OfSquareRoot(11, LIMIT64, 0x510E527FADE682D1) by { assert SquareRoot(11, LIMIT64, 3, 0x510E527FADE682D1); }
    assert OfSquareRoot(13, LIMIT64, 0x9B05688C2B3E6C1F) by { assert SquareRoot(13, LIMIT64, 3, 0x9B05688C2B3E6C1F); }
    assert OfSquareRoot(17, LIMIT64, 0x1F83D9ABFB41BD6B) by { assert SquareRoot(17, LIMIT64, 4, 0x1F83D9ABFB41BD6B); }
    assert OfSquareRoot(19, LIMIT64, 0x5BE0CD19137E2179) by { assert SquareRoot(19, LIMIT64, 4, 0x5BE0CD19137E2179); }
    AllEightSquare(Primes(0), LIMIT64,
      [0x6A09E667F3BCC908, 0xBB67AE8584CAA73B, 0x3C6EF372FE94F82B, 0xA54FF53A5F1D36F1,
       0x510E527FADE682D1, 0x9B05688C2B3E6C1F, 0x1F83D9ABFB41BD6B, 0x5BE0CD19137E2179]);
  }

  lemma Initial384()
    ensures AllOfSquareRoots(Primes(1), LIMIT64, Initial(SHA384))
  {
    hide AllOfSquareRoots;
    assert OfSquareRoot(23, LIMIT64, 0xCBBB9D5DC1059ED8) by { assert SquareRoot(23, LIMIT64, 4, 0xCBBB9D5DC1059ED8); }
    assert OfSquareRoot(29, LIMIT64, 0x629A292A367CD507) by { assert SquareRoot(29, LIMIT64, 5, 0x629A292A367CD507); }
    assert OfSquareRoot(31, LIMIT64, 0x9159015A3070DD17) by { assert SquareRoot(31, LIMIT64, 5, 0x9159015A3070DD17); }
    assert OfSquareRoot(37, LIMIT64, 0x152FECD8F70E5939) by { assert SquareRoot(37, LIMIT64, 6, 0x152FECD8F70E5939); }
    assert OfSquareRoot(41, LIMIT64, 0x67332667FFC00B31) by { assert SquareRoot(41, LIMIT64, 6, 0x67332667FFC00B31); }
    assert OfSquareRoot(43, LIMIT64, 0x8EB44A8768581511) by { assert SquareRoot(43, LIMIT64, 6, 0x8EB44A8768581511); }
    assert OfSquareRoot(47, LIMIT64, 0xDB0C2E0D64F98FA7) by { assert SquareRoot(47, LIMIT64, 6, 0xDB0C2E0D64F98FA7); }
    assert OfSquareRoot(53, LIMIT64, 0x47B5481DBEFA4FA4) by { assert SquareRoot(53, LIMIT64, 7, 0x47B5481DBEFA4FA4); }
    AllEightSquare(Primes(1), LIMIT64,
      [0xCBBB9D5DC1059ED8, 0x629A292A367CD507, 0x9159015A3070DD17, 0x152FECD8F70E5939,
       0x67332667FFC00B31, 0x8EB44A8768581511, 0xDB0C2E0D64F98FA7, 0x47B5481DBEFA4FA4]);
  }

  predicate LowHalf(wide: nat, word: nat)
  {
    wide % LIMIT32 == word
  }

  lemma LowHalves()
    ensures LowHalf(0xCBBB9D5DC1059ED8, 0xC1059ED8)
    ensures LowHalf(0x629A292A367CD507, 0x367CD507)
    ensures LowHalf(0x9159015A3070DD17, 0x3070DD17)
    ensures LowHalf(0x152FECD8F70E5939, 0xF70E5939)
    ensures LowHalf(0x67332667FFC00B31, 0xFFC00B31)
    ensures LowHalf(0x8EB44A8768581511, 0x68581511)
    ensures LowHalf(0xDB0C2E0D64F98FA7, 0x64F98FA7)
    ensures LowHalf(0x47B5481DBEFA4FA4, 0xBEFA4FA4)
  {
  }

  /** The second 32 bits of the same roots */
  lemma Initial224(j: nat)
    requires j < 8
    ensures LowHalf(Initial(SHA384)[j], Initial(SHA224)[j])
  {
    hide LowHalf;
    LowHalves();
  }
}
