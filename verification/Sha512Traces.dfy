// Published examples of section 6.4.2 of FIPS 180-4, traced eight rounds at a time.

module Sha512Traces {
  import opened Sha512Blocks

  /** Blocks, and the states in which they are met */
  datatype Message = Abc

  datatype Example = Abc384Trace | Abc512Trace

  const ROWS: nat := 10

  /** The message schedule of "abc", padded */
  function AbcWords(r: nat): (row: seq<Word>)
    ensures |row| == 8
  {
    match r
    case 0 =>
      [0x6162638000000000, 0x0000000000000000, 0x0000000000000000, 0x0000000000000000,
       0x0000000000000000, 0x0000000000000000, 0x0000000000000000, 0x0000000000000000]
    case 1 =>
      [0x0000000000000000, 0x0000000000000000, 0x0000000000000000, 0x0000000000000000,
       0x0000000000000000, 0x0000000000000000, 0x0000000000000000, 0x0000000000000018]
    case 2 =>
      [0x6162638000000000, 0x00030000000000C0, 0x0A9699A24C700003, 0x00000C0060000603,
       0x549EF62639858996, 0x00C0003300003C00, 0x1497007A8A0E9DBC, 0x62E56500CC0780F0]
    case 3 =>
      [0x7760DD475A538797, 0xF1554B711C1C0003, 0xCA2993A4345D9FF2, 0x5E0E66B5C783DD32,
       0xE25A625D00494B62, 0x9F44486FB1E4FBD2, 0xB31B8C2B06085F2F, 0x0E987660934142F6]
    case 4 =>
      [0xA4AF2CFD09FBB924, 0xAD289E2E0BD53186, 0x3C74563AA2F9673E, 0x6CCDCD14CC14B53F,
       0xC3F925B337F22BDE, 0x5BCC77A75AD95B54, 0x3EC2257ADCA09A52, 0x28246960001FC5EB]
    case 5 =>
      [0x04E33A75CE2BE88A, 0x7D5314B3C359E0E7, 0xAEF7A285FF251266, 0x0B8472581DEEA04F,
       0xB174E26EDDC7B033, 0x5D63BAE58DDD88DE, 0x4C044007B744CCBB, 0xE6A9AA4D74DC7D43]
    case 6 =>
      [0xEBEAF1237248019C, 0x361E80B2D00F3193, 0x2E9839125DF3B175, 0x3319629293AD5363,
       0x9CBC5D89AC1B89D5, 0x275E23FFEECA50B7, 0x3B80D680BF69EF58, 0x0D0696933945A125]
    case 7 =>
      [0x7533EABCB786FF00, 0xB89826CEE6FBF0E5, 0x249B4FBCAD623E9F, 0x4AEA9DF2B02D6F1E,
       0x2CC57475A55E8D8F, 0xB2574AE938D8BE89, 0xC1B35A57B16D6AEA, 0xCC4918B5949206BB]
    case 8 =>
      [0x5099C3ADD79F90EC, 0x5EA81D78E7660BF1, 0xEBEE6267405AC2A9, 0xB01F21926108A4AB,
       0x786433DD2FE65556, 0xC54A6EAA24A0552C, 0xB3C8F1530BDBAA9E, 0xBB8ABFE56F469338]
    case _ =>
      [0xF63D4265CC1C5A78, 0xBE8355EA73129AFB, 0x49E2DB8EBDCFBEB5, 0x82269D4A883A3D99,
       0xFDF53DF3011F362B, 0x464AF5671D71C12E, 0xE449B68198EC611C, 0x92AEEED1A7BCF7D2]
  }

  /** SHA-384 of "abc": the working variables after every eight rounds, then the sums */
  function Abc384States(r: nat): (row: seq<Word>)
    ensures |row| == 8
  {
    match r
    case 0 =>
      [0xCBBB9D5DC1059ED8, 0x629A292A367CD507, 0x9159015A3070DD17, 0x152FECD8F70E5939,
       0x67332667FFC00B31, 0x8EB44A8768581511, 0xDB0C2E0D64F98FA7, 0x47B5481DBEFA4FA4]
    case 1 =>
      [0x02F2A04D3AAB1629, 0x76F0741213DD2EF6, 0x333199A85F92B052, 0x3A7A023C593D8479,
       0x1688B9BF14980FC0, 0x74063CBA385F0675, 0x7A6316F0EF047CE7, 0x8AA1144850633794]
    case 2 =>
      [0x1EAB6159AE87EF6D, 0x7E32DC0E9F414783, 0xE5F06744C0D7563A, 0x185F9FF038A50F39,
       0x153B895CFBC436C5, 0x3A9950AAA5E75884, 0x2FA93D1CE9523015, 0x8B4ACFC4D2B8AFE6]
    case 3 =>
      [0xCCF99A80F92BF002, 0x7799C75ACC748C0F, 0x042C2DC9A5BF558A, 0x9BA737AE88A72C64,
       0xE52A24FAE4E8FC9B, 0xA7BBD65BF64F58C8, 0x19316BEBC88E01F2, 0x3FC2614C43906C0F]
    case 4 =>
      [0x4BA456EC244033ED, 0x4C5C38DF7EC8BAF4, 0xBBED541A5128088C, 0xE428BB43AFE3D63E,
       0x7CF40857056D86B0, 0x422CEEA0200E9EE4, 0x7973AADBDE294BE9, 0x6A8527525F898726]
    case 5 =>
      [0xDB24F9A03F4FFF6B, 0x54078334358573B4, 0xD6F41E25A8B634D6, 0xD48D97CE438CF4F0,
       0xD30E99B4B394B090, 0x0E419FB0802B0EFC, 0x25755CB8179DD0B0, 0xA239E00B8BAA0410]
    case 6 =>
      [0xA6998D63A5D09E04, 0xEB3753F4283F4818, 0xEF5E3885A2F238DF, 0x51DCAA36995C301D,
       0xE21095012EE0B72A, 0x0AE48CF840BB8BE9, 0x740E347F24E18FDA, 0xE37F778353998050]
    case 7 =>
      [0x54DE8857B24AFAF7, 0x073775C2456DC7DB, 0xEDB4448879391DBB, 0xC87E9168DB9E97DE,
       0x8DE51CFF2AE4B068, 0xA9CCA0B6266B1D77, 0x7729C85475DD318F, 0x65CF7F6A829ACA04]
    case 8 =>
      [0x24A1124262A331C7, 0x56FB5883F1C87A05, 0x3DC764F89E54043A, 0x1CA93A293D544328,
       0x06EDACAE6E7B54AD, 0xF5198A41EB80E022, 0xA57784945550CF94, 0xEFBEF83A35C0319E]
    case 9 =>
      [0xBCD5061679BE7336, 0x32E5ED8655871E9B, 0x8C5D3B7FDAD66E70, 0x1E6E0255AB88079F,
       0x454B99F654443AD0, 0x51105F6241313777, 0x90D18EC8B69F0345, 0xF2001138439902B1]
    case 10 =>
      [0xFF44D7E1849DBFB3, 0x5306143F64497B00, 0x95D33150DE6DF44C, 0x055B73814CF102B4,
       0x1952E0C3A227C0F2, 0xCA06A219CC701096, 0xC7F7BFF08EBF0D30, 0xC4B149710F5D6A71]
    case _ =>
      [0xCB00753F45A35E8B, 0xB5A03D699AC65007, 0x272C32AB0EDED163, 0x1A8B605A43FF5BED,
       0x8086072BA1E7CC23, 0x58BAECA134C825A7, 0xA303EDFDF3B89CD7, 0x0C66918ECE57BA15]
  }

  /** SHA-512 of "abc" */
  function Abc512States(r: nat): (row: seq<Word>)
    ensures |row| == 8
  {
    match r
    case 0 =>
      [0x6A09E667F3BCC908, 0xBB67AE8584CAA73B, 0x3C6EF372FE94F82B, 0xA54FF53A5F1D36F1,
       0x510E527FADE682D1, 0x9B05688C2B3E6C1F, 0x1F83D9ABFB41BD6B, 0x5BE0CD19137E2179]
    case 1 =>
      [0x8093D195E0054FA3, 0xC4875B0C7ABC076B, 0xAF573B02403E89CD, 0xB680953951604860,
       0x86F67263A0F0EC0A, 0x5A6C781F54DCC00C, 0x96F60209B6DC35BA, 0x745ACA4A342ED2E2]
    case 2 =>
      [0x0AE07C86B1181C75, 0xFA967EED85A08028, 0x44249631255D2CA0, 0x5E41214388186C14,
       0xA77B7C035DD4C161, 0x874BFE5F6AAE9F2F, 0x860ACF9EFFBA6F61, 0xCDF3BFF2883FC9D9]
    case 3 =>
      [0x4F6877B58FE55484, 0x3E2644567B709A78, 0xDA34D6673D452DCF, 0x8DC5AE65569D3855,
       0xC66005F87DB55233, 0x0AC2B11DA8F571C6, 0x8E30FF09AD488753, 0x4BB9E66D1145BFDC]
    case 4 =>
      [0xFF4D3F1F0D46A736, 0x4C4FBBB75F1873A6, 0x74BF40F869094C63, 0xE62349090F47D30A,
       0x3CD388E119E8162E, 0x73E025D91B9EFEA3, 0xF0AEC2FE1437F085, 0x0FCDF99710F21584]
    case 5 =>
      [0x8E01E125B855D225, 0xB3BB8542B3376DE5, 0x002BB8E4CD989567, 0x88DF85B0BBE77514,
       0x0C710A47BA6A567B, 0xB49596C20FEBA7DE, 0x66ADCFA249AC7BBD, 0x8FBFD0162BBF4675]
    case 6 =>
      [0x6B69FC1BB482FEAC, 0xF61E672694DE2D67, 0x021FBADBABAB5AC6, 0xC47C9D5C7EA8A234,
       0x35264334C03AC8AD, 0xC6BC35740D8DAA9A, 0xE95C2A57572D64D9, 0x858D832AE0E8911C]
    case 7 =>
      [0x63B460E42748817E, 0xF650857B5BABDA4D, 0xD63F68037DDF06AA, 0x03DF11B32D42E203,
       0xC6B4DD2A9931C509, 0x9CCFB31A86DF0F86, 0xA6781EFE1AA1CE02, 0x504F94E40591CFFA]
    case 8 =>
      [0xAB44E86276478D85, 0xA81DEDBB9F19E643, 0xCFCD928C5424E2B6, 0x3857DFD2FC37D3BA,
       0xCD881EE59CA6BC53, 0x84058865D60A05FA, 0x09AEE5BDA1644DE5, 0xA6AF4E9C9F807E51]
    case 9 =>
      [0xF15E9664B2803575, 0x7652C579CB60F19C, 0xFB6AAAE5D0B6A447, 0x181839D609C79748,
       0x947C3DFAFEE570EF, 0xAFF62C9665FF80FA, 0xE3711CB6564D112D, 0x0ADA78BA2D446140]
    case 10 =>
      [0x73A54F399FA4B1B2, 0x10D9C4C4295599F6, 0xD67806DB8B148677, 0x654EF9ABEC389CA9,
       0xD08446AA79693ED7, 0x9BB4D39778C07F9E, 0x25C96A7768FB2AA3, 0xCEB9FC3691CE8326]
    case _ =>
      [0xDDAF35A193617ABA, 0xCC417349AE204131, 0x12E6FA4E89A97EA2, 0x0A9EEEE64B55D39A,
       0x2192992A274FC1A8, 0x36BA3C23A3FEEBBD, 0x454D4423643CE80E, 0x2A9AC94FA54CA49F]
  }

  /** Eight words of the schedule of a block */
  function Words(m: Message, r: nat): (row: seq<Word>)
    ensures |row| == 8
  {
    match m
    case Abc => AbcWords(r)
  }

  function MessageOf(e: Example): Message
  {
    match e
    case Abc384Trace => Abc
    case Abc512Trace => Abc
  }

  /** The working variables before round 8 * r; behind the last round, what they are with those at the start added */
  function States(e: Example, r: nat): (row: seq<Word>)
    ensures |row| == 8
  {
    match e
    case Abc384Trace => Abc384States(r)
    case Abc512Trace => Abc512States(r)
  }

  // What the rows have to do with each other

  function Eight(v: seq<Word>, k: seq<Word>, w: seq<Word>): (u: seq<Word>)
    requires |v| == |k| == |w| == 8
    ensures |u| == 8
  {
    var u := Turn(Turn(Turn(Turn(v, k[0], w[0]), k[1], w[1]), k[2], w[2]), k[3], w[3]);
    Turn(Turn(Turn(Turn(u, k[4], w[4]), k[5], w[5]), k[6], w[6]), k[7], w[7])
  }

  /** Row `q` of the states, which is the next, holds what eight rounds make of row `r`. */
  predicate Follows(e: Example, r: nat, q: nat)
    requires r < ROWS
  {
    Eight(States(e, r), Row(r), Words(MessageOf(e), r)) == States(e, q)
  }

  function Next(a: Word, b: Word, c: Word, d: Word): Word
  {
    Plus(Plus(SmallSigma1(d), c), Plus(SmallSigma0(b), a))
  }

  predicate FirstFour(a: seq<Word>, b: seq<Word>, c: seq<Word>)
    requires |a| == |b| == |c| == 8
  {
    && c[0] == Next(a[0], a[1], b[1], b[6]) && c[1] == Next(a[1], a[2], b[2], b[7])
    && c[2] == Next(a[2], a[3], b[3], c[0]) && c[3] == Next(a[3], a[4], b[4], c[1])
  }

  predicate LastFour(a: seq<Word>, b: seq<Word>, c: seq<Word>)
    requires |a| == |b| == |c| == 8
  {
    && c[4] == Next(a[4], a[5], b[5], c[2]) && c[5] == Next(a[5], a[6], b[6], c[3])
    && c[6] == Next(a[6], a[7], b[7], c[4]) && c[7] == Next(a[7], b[0], c[0], c[5])
  }

  /** A row of words comes from the two before it. */
  predicate Scheduled(m: Message, r: nat)
    requires 2 <= r
  {
    FirstFour(Words(m, r - 2), Words(m, r - 1), Words(m, r)) && LastFour(Words(m, r - 2), Words(m, r - 1), Words(m, r))
  }

  // The traces, row by row

  lemma AbcFirst2() ensures FirstFour(Words(Abc, 0), Words(Abc, 1), Words(Abc, 2)) {}
  lemma AbcLast2() ensures LastFour(Words(Abc, 0), Words(Abc, 1), Words(Abc, 2)) {}
  lemma AbcFirst3() ensures FirstFour(Words(Abc, 1), Words(Abc, 2), Words(Abc, 3)) {}
  lemma AbcLast3() ensures LastFour(Words(Abc, 1), Words(Abc, 2), Words(Abc, 3)) {}
  lemma AbcFirst4() ensures FirstFour(Words(Abc, 2), Words(Abc, 3), Words(Abc, 4)) {}
  lemma AbcLast4() ensures LastFour(Words(Abc, 2), Words(Abc, 3), Words(Abc, 4)) {}
  lemma AbcFirst5() ensures FirstFour(Words(Abc, 3), Words(Abc, 4), Words(Abc, 5)) {}
  lemma AbcLast5() ensures LastFour(Words(Abc, 3), Words(Abc, 4), Words(Abc, 5)) {}
  lemma AbcFirst6() ensures FirstFour(Words(Abc, 4), Words(Abc, 5), Words(Abc, 6)) {}
  lemma AbcLast6() ensures LastFour(Words(Abc, 4), Words(Abc, 5), Words(Abc, 6)) {}
  lemma AbcFirst7() ensures FirstFour(Words(Abc, 5), Words(Abc, 6), Words(Abc, 7)) {}
  lemma AbcLast7() ensures LastFour(Words(Abc, 5), Words(Abc, 6), Words(Abc, 7)) {}
  lemma AbcFirst8() ensures FirstFour(Words(Abc, 6), Words(Abc, 7), Words(Abc, 8)) {}
  lemma AbcLast8() ensures LastFour(Words(Abc, 6), Words(Abc, 7), Words(Abc, 8)) {}
  lemma AbcFirst9() ensures FirstFour(Words(Abc, 7), Words(Abc, 8), Words(Abc, 9)) {}
  lemma AbcLast9() ensures LastFour(Words(Abc, 7), Words(Abc, 8), Words(Abc, 9)) {}

  lemma Abc384Row0() ensures Follows(Abc384Trace, 0, 1) {}
  lemma Abc384Row1() ensures Follows(Abc384Trace, 1, 2) {}
  lemma Abc384Row2() ensures Follows(Abc384Trace, 2, 3) {}
  lemma Abc384Row3() ensures Follows(Abc384Trace, 3, 4) {}
  lemma Abc384Row4() ensures Follows(Abc384Trace, 4, 5) {}
  lemma Abc384Row5() ensures Follows(Abc384Trace, 5, 6) {}
  lemma Abc384Row6() ensures Follows(Abc384Trace, 6, 7) {}
  lemma Abc384Row7() ensures Follows(Abc384Trace, 7, 8) {}
  lemma Abc384Row8() ensures Follows(Abc384Trace, 8, 9) {}
  lemma Abc384Row9() ensures Follows(Abc384Trace, 9, 10) {}

  lemma Abc512Row0() ensures Follows(Abc512Trace, 0, 1) {}
  lemma Abc512Row1() ensures Follows(Abc512Trace, 1, 2) {}
  lemma Abc512Row2() ensures Follows(Abc512Trace, 2, 3) {}
  lemma Abc512Row3() ensures Follows(Abc512Trace, 3, 4) {}
  lemma Abc512Row4() ensures Follows(Abc512Trace, 4, 5) {}
  lemma Abc512Row5() ensures Follows(Abc512Trace, 5, 6) {}
  lemma Abc512Row6() ensures Follows(Abc512Trace, 6, 7) {}
  lemma Abc512Row7() ensures Follows(Abc512Trace, 7, 8) {}
  lemma Abc512Row8() ensures Follows(Abc512Trace, 8, 9) {}
  lemma Abc512Row9() ensures Follows(Abc512Trace, 9, 10) {}

  lemma Abc384Sums() ensures Sums(States(Abc384Trace, 0), States(Abc384Trace, ROWS)) == States(Abc384Trace, ROWS + 1) {}
  lemma Abc512Sums() ensures Sums(States(Abc512Trace, 0), States(Abc512Trace, ROWS)) == States(Abc512Trace, ROWS + 1) {}

  lemma AbcScheduled(r: nat)
    requires 2 <= r < ROWS
    ensures Scheduled(Abc, r)
  {
    hide FirstFour, LastFour, Words;
    if r == 2 { AbcFirst2(); AbcLast2(); }
    else if r == 3 { AbcFirst3(); AbcLast3(); }
    else if r == 4 { AbcFirst4(); AbcLast4(); }
    else if r == 5 { AbcFirst5(); AbcLast5(); }
    else if r == 6 { AbcFirst6(); AbcLast6(); }
    else if r == 7 { AbcFirst7(); AbcLast7(); }
    else if r == 8 { AbcFirst8(); AbcLast8(); }
    else { AbcFirst9(); AbcLast9(); }
  }

  lemma Abc384Follows(r: nat)
    requires r < ROWS
    ensures Follows(Abc384Trace, r, r + 1)
  {
    hide Follows;
    if r == 0 { Abc384Row0(); }
    else if r == 1 { Abc384Row1(); }
    else if r == 2 { Abc384Row2(); }
    else if r == 3 { Abc384Row3(); }
    else if r == 4 { Abc384Row4(); }
    else if r == 5 { Abc384Row5(); }
    else if r == 6 { Abc384Row6(); }
    else if r == 7 { Abc384Row7(); }
    else if r == 8 { Abc384Row8(); }
    else { Abc384Row9(); }
  }

  lemma Abc512Follows(r: nat)
    requires r < ROWS
    ensures Follows(Abc512Trace, r, r + 1)
  {
    hide Follows;
    if r == 0 { Abc512Row0(); }
    else if r == 1 { Abc512Row1(); }
    else if r == 2 { Abc512Row2(); }
    else if r == 3 { Abc512Row3(); }
    else if r == 4 { Abc512Row4(); }
    else if r == 5 { Abc512Row5(); }
    else if r == 6 { Abc512Row6(); }
    else if r == 7 { Abc512Row7(); }
    else if r == 8 { Abc512Row8(); }
    else { Abc512Row9(); }
  }

  lemma AllScheduled(m: Message, r: nat)
    requires 2 <= r < ROWS
    ensures Scheduled(m, r)
  {
    hide Scheduled;
    match m
    case Abc => AbcScheduled(r);
  }

  lemma AllFollow(e: Example, r: nat)
    requires r < ROWS
    ensures Follows(e, r, r + 1)
  {
    hide Follows;
    match e
    case Abc384Trace => Abc384Follows(r);
    case Abc512Trace => Abc512Follows(r);
  }

  lemma AllSums(e: Example)
    ensures Sums(States(e, 0), States(e, ROWS)) == States(e, ROWS + 1)
  {
    hide Sums, States;
    match e
    case Abc384Trace => Abc384Sums();
    case Abc512Trace => Abc512Sums();
  }

  // What a trace shows

  function Block(m: Message): (block: seq<Word>)
    ensures |block| == 16
  {
    Words(m, 0) + Words(m, 1)
  }

  predicate RowIs(m: Message, r: nat)
  {
    forall i :: 0 <= i < 8 ==> W(Block(m), 8 * r + i) == Words(m, r)[i]
  }

  lemma FirstRows(m: Message)
    ensures RowIs(m, 0) && RowIs(m, 1)
  {
    hide Words;
  }

  lemma NextWord(block: seq<Word>, t: nat)
    requires |block| == 16
    ensures W(block, t + 16) == Next(W(block, t), W(block, t + 1), W(block, t + 9), W(block, t + 14))
  {
    hide Plus, SmallSigma0, SmallSigma1;
  }

  lemma NextRow(m: Message, r: nat)
    requires RowIs(m, r) && RowIs(m, r + 1) && Scheduled(m, r + 2)
    ensures RowIs(m, r + 2)
  {
    hide W, Words, Next, Block;
    var block, t := Block(m), 8 * r;
    NextWord(block, t);
    NextWord(block, t + 1);
    NextWord(block, t + 2);
    NextWord(block, t + 3);
    NextWord(block, t + 4);
    NextWord(block, t + 5);
    NextWord(block, t + 6);
    NextWord(block, t + 7);
    OneRow(m, r);
    OneRow(m, r + 1);
  }

  lemma OneRow(m: Message, r: nat)
    requires RowIs(m, r)
    ensures var b, t, w := Block(m), 8 * r, Words(m, r);
            && W(b, t) == w[0] && W(b, t + 1) == w[1] && W(b, t + 2) == w[2] && W(b, t + 3) == w[3]
            && W(b, t + 4) == w[4] && W(b, t + 5) == w[5] && W(b, t + 6) == w[6] && W(b, t + 7) == w[7]
  {
    hide W, Words, Block;
    assert W(Block(m), 8 * r + 0) == Words(m, r)[0];
  }

  lemma {:induction false} RowsAre(m: Message, r: nat)
    requires r < ROWS
    ensures RowIs(m, r)
  {
    hide RowIs, Scheduled;
    FirstRows(m);
    if r >= 2 {
      RowsAre(m, r - 2);
      RowsAre(m, r - 1);
      AllScheduled(m, r);
      NextRow(m, r - 2);
    }
  }

  lemma OneRound(block: seq<Word>, state: seq<Word>, r: nat, i: nat, w: Word)
    requires |block| == 16 && |state| == 8 && r < ROWS && i < 8 && W(block, 8 * r + i) == w
    ensures Rounds(block, state, 8 * r + i + 1) == Turn(Rounds(block, state, 8 * r + i), Row(r)[i], w)
  {
    hide W, Turn, Row;
    assert (8 * r + i) / 8 == r && (8 * r + i) % 8 == i;
  }

  lemma EightRounds(m: Message, state: seq<Word>, r: nat)
    requires |state| == 8 && r < ROWS && RowIs(m, r)
    ensures Rounds(Block(m), state, 8 * r + 8) == Eight(Rounds(Block(m), state, 8 * r), Row(r), Words(m, r))
  {
    hide W, Turn, Row, Rounds, Words, Block, RowIs;
    var block, w := Block(m), Words(m, r);
    OneRow(m, r);
    OneRound(block, state, r, 0, w[0]);
    OneRound(block, state, r, 1, w[1]);
    OneRound(block, state, r, 2, w[2]);
    OneRound(block, state, r, 3, w[3]);
    OneRound(block, state, r, 4, w[4]);
    OneRound(block, state, r, 5, w[5]);
    OneRound(block, state, r, 6, w[6]);
    OneRound(block, state, r, 7, w[7]);
  }

  lemma NoRound(block: seq<Word>, state: seq<Word>)
    requires |block| == 16 && |state| == 8
    ensures Rounds(block, state, 0) == state
  {
    hide W, Turn, Row;
  }

  lemma {:induction false} RoundsAre(e: Example, r: nat)
    requires r <= ROWS
    ensures Rounds(Block(MessageOf(e)), States(e, 0), 8 * r) == States(e, r)
  {
    hide Words, States, Eight, W, RowIs, Row, Block, MessageOf, Rounds;
    NoRound(Block(MessageOf(e)), States(e, 0));
    if r > 0 {
      RoundsAre(e, r - 1);
      RowsAre(MessageOf(e), r - 1);
      AllFollow(e, r - 1);
      EightRounds(MessageOf(e), States(e, 0), r - 1);
    }
  }

  /** Each trace ends with what the standard makes of its block. */
  lemma TraceCompresses(e: Example)
    ensures Compress(States(e, 0), Block(MessageOf(e))) == States(e, ROWS + 1)
  {
    hide Words, States, Rounds, Block, Sums, MessageOf;
    RoundsAre(e, ROWS);
    AllSums(e);
  }
}
