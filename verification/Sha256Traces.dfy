// Published examples of section 6.2.2 of FIPS 180-4, traced eight rounds at a time.

module Sha256Traces {
  import opened Sha256Blocks

  /** Blocks, and the states in which they are met */
  datatype Message = Abc | InnerKey | InnerText | OuterKey | OuterText

  datatype Example = Abc224Trace | Abc256Trace | InnerKeyTrace | InnerTextTrace | OuterKeyTrace | OuterTextTrace

  const ROWS: nat := 8

  /** The message schedule of "abc", padded */
  function AbcWords(r: nat): (row: seq<Word>)
    ensures |row| == 8
  {
    match r
    case 0 => [0x61626380, 0x00000000, 0x00000000, 0x00000000, 0x00000000, 0x00000000, 0x00000000, 0x00000000]
    case 1 => [0x00000000, 0x00000000, 0x00000000, 0x00000000, 0x00000000, 0x00000000, 0x00000000, 0x00000018]
    case 2 => [0x61626380, 0x000F0000, 0x7DA86405, 0x600003C6, 0x3E9D7B78, 0x0183FC00, 0x12DCBFDB, 0xE2E2C38E]
    case 3 => [0xC8215C1A, 0xB73679A2, 0xE5BC3909, 0x32663C5B, 0x9D209D67, 0xEC8726CB, 0x702138A4, 0xD3B7973B]
    case 4 => [0x93F5997F, 0x3B68BA73, 0xAFF4FFC1, 0xF10A5C62, 0x0A8B3996, 0x72AF830A, 0x9409E33E, 0x24641522]
    case 5 => [0x9F47BF94, 0xF0A64F5A, 0x3E246A79, 0x27333BA3, 0x0C4763F2, 0x840ABF27, 0x7A290D5D, 0x065C43DA]
    case 6 => [0xFB3E89CB, 0xCC7617DB, 0xB9E66C34, 0xA9993667, 0x84BADEDD, 0xC21462BC, 0x1487472C, 0xB20F7A99]
    case _ => [0xEF57B9CD, 0xEBE6B238, 0x9FE3095E, 0x78BC8D4B, 0xA43FCF15, 0x668B2FF8, 0xEEABA2CC, 0x12B1EDEB]
  }

  /** SHA-224 of "abc": the working variables after every eight rounds, then the sums */
  function Abc224States(r: nat): (row: seq<Word>)
    ensures |row| == 8
  {
    match r
    case 0 => [0xC1059ED8, 0x367CD507, 0x3070DD17, 0xF70E5939, 0xFFC00B31, 0x68581511, 0x64F98FA7, 0xBEFA4FA4]
    case 1 => [0xF09D116D, 0x0B6B9023, 0xB2CA3A91, 0x08A0DC0C, 0x7A84120D, 0xA2E49147, 0x898DC7BB, 0x05B557DB]
    case 2 => [0x9F341A45, 0x1D80D178, 0xBE316902, 0xFC4F023E, 0x6A61C411, 0x4545F53A, 0x65141125, 0x87BEA51A]
    case 3 => [0x57206FB8, 0xE62A812E, 0xDECE98A4, 0x07D55CCB, 0xC76084EA, 0x28FE0FD9, 0x293FFB5D, 0x9BA5A6EA]
    case 4 => [0xCCE1951D, 0x0D7CCE07, 0xFE3C8658, 0x2D1576C4, 0x4BE9475C, 0xA4A4A3A4, 0xFC4B36C5, 0x01641929]
    case 5 => [0xF3C80288, 0x7902369C, 0x0D275CA8, 0x2A2E32F4, 0x00E3A7BB, 0xD9F8C2E0, 0xF6C39382, 0x22E15C59]
    case 6 => [0x847EA00E, 0xFB3777D9, 0x131D4C09, 0xA3701BD9, 0x503A7B95, 0x1D601F44, 0xECB77E1B, 0xAF1BEF5F]
    case 7 => [0x8D25BD94, 0x909CC059, 0x308B8799, 0x0DF9857A, 0x1273C622, 0x6F2A444A, 0x02524F02, 0x2D864D9F]
    case 8 => [0x6203DE4A, 0xFD89031B, 0x55D1C760, 0xC693FC7A, 0x2AEDB1B3, 0x55489EE6, 0x7E730E00, 0x13DFB889]
    case _ => [0x23097D22, 0x3405D822, 0x8642A477, 0xBDA255B3, 0x2AADBCE4, 0xBDA0B3F7, 0xE36C9DA7, 0xD2DA082D]
  }

  /** SHA-256 of "abc" */
  function Abc256States(r: nat): (row: seq<Word>)
    ensures |row| == 8
  {
    match r
    case 0 => [0x6A09E667, 0xBB67AE85, 0x3C6EF372, 0xA54FF53A, 0x510E527F, 0x9B05688C, 0x1F83D9AB, 0x5BE0CD19]
    case 1 => [0x85A07B5F, 0xE5030380, 0x2B4209F5, 0x04409A6A, 0x0C657A79, 0x9B27A401, 0x714260AD, 0x43ADA245]
    case 2 => [0xB0FA238E, 0xC0645FDE, 0xD932EB16, 0x87912990, 0x07590DCD, 0x0B92F20C, 0x745A48DE, 0x1E578218]
    case 3 => [0xC5D53D8D, 0xA7A3623F, 0xC2606D6D, 0x9DC68B63, 0xAA47C347, 0x49F5114A, 0xE1257970, 0x8ADA8930]
    case 4 => [0x73B33BF5, 0xEA992A22, 0xA0060B30, 0x363482C9, 0xBA591112, 0x0109AB3A, 0xADE79437, 0x6112A3B7]
    case 5 => [0x79EA687A, 0x6DC57A8A, 0x34DF1604, 0x41A65CB1, 0x1EFBC0A0, 0xF0781BC8, 0xA507A53D, 0x0772A26B]
    case 6 => [0x4172328D, 0xA14C14B0, 0x72AB4B91, 0x26628815, 0xFECF0BC6, 0xD57B94A9, 0xB7755DA1, 0xA80F11F0]
    case 7 => [0x38CC9913, 0x3EC45CDB, 0xF5702FDB, 0x101FD28F, 0x54CB266B, 0xE50E1B4F, 0x9F4787C3, 0x529E7D00]
    case 8 => [0x506E3058, 0xD39A2165, 0x04D24D6C, 0xB85E2CE9, 0x5EF50F24, 0xFB121210, 0x948D25B6, 0x961F4894]
    case _ => [0xBA7816BF, 0x8F01CFEA, 0x414140DE, 0x5DAE2223, 0xB00361A3, 0x96177A9C, 0xB410FF61, 0xF20015AD]
  }

  /** The message schedule of a key of twenty bytes 0x0B, inverted for the inner hash */
  function InnerKeyWords(r: nat): (row: seq<Word>)
    ensures |row| == 8
  {
    match r
    case 0 => [0x3D3D3D3D, 0x3D3D3D3D, 0x3D3D3D3D, 0x3D3D3D3D, 0x3D3D3D3D, 0x36363636, 0x36363636, 0x36363636]
    case 1 => [0x36363636, 0x36363636, 0x36363636, 0x36363636, 0x36363636, 0x36363636, 0x36363636, 0x36363636]
    case 2 => [0x83D65655, 0x83D65655, 0x87C68A09, 0x87C68A09, 0xEEFE9D53, 0xE7F7964C, 0xF0CBC89A, 0xDB09C692]
    case 3 => [0x3E95C840, 0x80D1DBFA, 0x024BA550, 0xE2FE1EB4, 0xAB57872E, 0xDADD789E, 0x2BBF790F, 0xB71E0674]
    case 4 => [0x873CD858, 0xEB704436, 0x034082B0, 0x7B1C5B2D, 0x7B8D0BF1, 0x94833806, 0x1BF5DEA0, 0x532CF446]
    case 5 => [0x126E3965, 0xB1EB6AEA, 0x4B39B8C5, 0xE08793F5, 0xA40D251E, 0xF7F32031, 0x3302C428, 0x55AF3D1C]
    case 6 => [0xD57B7564, 0xF0A55A2B, 0xFB52B288, 0xD51114E5, 0x5464A6E1, 0xA5426731, 0xF53108FE, 0xEE307FFF]
    case _ => [0xC25593FE, 0xCB39BADA, 0xAF277F26, 0x7F7F4555, 0x4EC9D7B1, 0x1E504A7D, 0xEFCA2DA1, 0x52D83722]
  }

  /** Its state */
  function InnerKeyStates(r: nat): (row: seq<Word>)
    ensures |row| == 8
  {
    match r
    case 0 => [0x6A09E667, 0xBB67AE85, 0x3C6EF372, 0xA54FF53A, 0x510E527F, 0x9B05688C, 0x1F83D9AB, 0x5BE0CD19]
    case 1 => [0x1A5A8C04, 0xC6A488E5, 0xB8400306, 0xBA938604, 0xCBC23CD3, 0x2F80792B, 0x72A6DC02, 0x3E1A087F]
    case 2 => [0x3CB5EEA0, 0xE7BBDB4A, 0x1C4EE0BB, 0x30CF6137, 0xCD45C4DE, 0x9EF1AA08, 0x5E2BC040, 0x0A66E9A1]
    case 3 => [0x34BAE976, 0xC6904C45, 0x11FED411, 0xBC841005, 0x5BF4DAA8, 0x99CEE3C5, 0x63EE67E3, 0x61FF708F]
    case 4 => [0x89C99F7F, 0x421F94E7, 0x94973530, 0xD7F8F942, 0x5860FD1C, 0xF416698F, 0x47B3E625, 0x8C3269BC]
    case 5 => [0xC1370725, 0x4D57F16B, 0xB48302F8, 0xC0DE7D8C, 0x814B8026, 0x91D64179, 0x6D479276, 0xDC41E25E]
    case 6 => [0x6F531CBC, 0xD0D0B35F, 0xF906089E, 0x335EDC8B, 0x1EA9CE99, 0x59F06A6B, 0x41C1983C, 0xA7EE4566]
    case 7 => [0xE51EF32D, 0xECEF4474, 0xB989964D, 0xDA50CEC8, 0xDC0FA4F8, 0x5D840FD2, 0xF9943F4F, 0xB0EAFB95]
    case 8 => [0xC1A8319D, 0x6851AD74, 0x7879321A, 0x5565F11A, 0xC0E43F9F, 0xB4E61062, 0x790D0C53, 0x08D6B31D]
    case _ => [0x2BB21804, 0x23B95BF9, 0xB4E8258C, 0xFAB5E654, 0x11F2921E, 0x4FEB78EE, 0x9890E5FE, 0x64B78036]
  }

  /** The message schedule of "Hi There" behind one block, padded */
  function InnerTextWords(r: nat): (row: seq<Word>)
    ensures |row| == 8
  {
    match r
    case 0 => [0x48692054, 0x68657265, 0x80000000, 0x00000000, 0x00000000, 0x00000000, 0x00000000, 0x00000000]
    case 1 => [0x00000000, 0x00000000, 0x00000000, 0x00000000, 0x00000000, 0x00000000, 0x00000000, 0x00000240]
    case 2 => [0xE3AE5F05, 0x7ACD9265, 0x645AA635, 0x7B60A15B, 0x07C5080F, 0x44980AF4, 0x25079498, 0xE7E3EBE2]
    case 3 => [0xB3A3EA2B, 0xED0F7E2C, 0x03DCE8BA, 0x58ADB108, 0x2DE2C1A3, 0x93BAA0C7, 0xA162782B, 0x3877B122]
    case 4 => [0xE52C510F, 0x7D347A94, 0xF173A815, 0xB8404A00, 0x1F5AE3C0, 0xE435D354, 0xAEEA240B, 0xDCA3F752]
    case 5 => [0x2378475A, 0xB249E7AA, 0x5F52B9E4, 0x3AA488AB, 0x5353CB9B, 0xF5577BA3, 0xC9E71E09, 0xC5B4F623]
    case 6 => [0x3E67D5AB, 0xA23619D7, 0x4180398E, 0x16B3ACDF, 0xF234D122, 0xDD913234, 0xAB2252C2, 0x7C76CEEE]
    case _ => [0x63892D3A, 0x1FADF2D9, 0x9C341D6E, 0x4233AB5C, 0x45CB4B40, 0x0E7C539E, 0x75EC4BCA, 0x71D877C9]
  }

  /** The inner digest */
  function InnerTextStates(r: nat): (row: seq<Word>)
    ensures |row| == 8
  {
    match r
    case 0 => [0x2BB21804, 0x23B95BF9, 0xB4E8258C, 0xFAB5E654, 0x11F2921E, 0x4FEB78EE, 0x9890E5FE, 0x64B78036]
    case 1 => [0xCE3494B4, 0x85C6A7F0, 0xD66E4864, 0xEBA36673, 0x54AB0FF0, 0x3BEFF05C, 0x5C076C2B, 0x4936B04E]
    case 2 => [0xB8CCBA9A, 0xD06247CA, 0x30DD05D1, 0x75F5BA65, 0xCC5B50CF, 0xBDCD8BB1, 0x324501C3, 0x85AF8EC4]
    case 3 => [0xECE3691C, 0xBA3BB3FE, 0x6AE0E6ED, 0xDD265904, 0x9B8F2382, 0xD9187745, 0x87A4EC80, 0x8DC77DEC]
    case 4 => [0x26A1971A, 0x40FA9B72, 0x94ACEED1, 0xD4AD0E4C, 0xE1BF8D0F, 0x6FF1D8BE, 0x9A61B911, 0x4DB711E5]
    case 5 => [0xC8E29587, 0xA5B00AB4, 0x76D1EC55, 0x34157628, 0xB3D345DF, 0xCDFABBFC, 0xF8D6D122, 0x1D6EB0F8]
    case 6 => [0x182DEE89, 0xF1EAB7EF, 0x011929A4, 0x17ABE18A, 0x9C68E53C, 0x2BDA9036, 0xACB0D543, 0xFA181FBA]
    case 7 => [0x04E3DF1D, 0x628192BE, 0x2F56F280, 0x8B7CA9B9, 0x99DFF112, 0xFA7BFBD7, 0xADA69ACC, 0xA25A12EA]
    case 8 => [0x66F93596, 0xFB820559, 0x07C1B812, 0x6EF95DA0, 0xBCA75211, 0x84F7970B, 0xDA339A27, 0x55424FB9]
    case _ => [0x92AB4D9A, 0x1F3B6152, 0xBCA9DD9E, 0x69AF43F4, 0xCE99E42F, 0xD4E30FF9, 0x72C48025, 0xB9F9CFEF]
  }

  /** The message schedule of the same key, inverted for the outer hash */
  function OuterKeyWords(r: nat): (row: seq<Word>)
    ensures |row| == 8
  {
    match r
    case 0 => [0x57575757, 0x57575757, 0x57575757, 0x57575757, 0x57575757, 0x5C5C5C5C, 0x5C5C5C5C, 0x5C5C5C5C]
    case 1 => [0x5C5C5C5C, 0x5C5C5C5C, 0x5C5C5C5C, 0x5C5C5C5C, 0x5C5C5C5C, 0x5C5C5C5C, 0x5C5C5C5C, 0x5C5C5C5C]
    case 2 => [0xCAF7F7F6, 0xCAF7F7F6, 0x2A7C471C, 0x2A7C471C, 0x033EE737, 0x0843EC3C, 0x0C5A8B1D, 0x57140E48]
    case 3 => [0xE066A97A, 0xB1F5AC07, 0xACA6FD31, 0x676EBB66, 0xA9DA3734, 0x97A13091, 0xB4EB4623, 0x0478BAEA]
    case 4 => [0x521CDDE2, 0xEEA4CCB6, 0xB42161EE, 0xABF8E3EC, 0xB9DF94E3, 0xC425187D, 0xE375DE48, 0x1BC3E05E]
    case 5 => [0x963DD978, 0xBBBB45CB, 0x1F514B8D, 0xDD666DC2, 0x78AF495C, 0xF701CECF, 0x18882647, 0x72D98FF5]
    case 6 => [0x68E9DCAF, 0x97A67D8D, 0x5C33FA12, 0x4B6B61C2, 0xD8516549, 0xB3B35D6C, 0x3BE3AEF3, 0xDF9AC597]
    case _ => [0x22004A47, 0x9D75FE9E, 0x9C8758DB, 0x5C273D08, 0x66720A51, 0x30C97CC0, 0xC3E1CDAA, 0x4BB53874]
  }

  /** Its state */
  function OuterKeyStates(r: nat): (row: seq<Word>)
    ensures |row| == 8
  {
    match r
    case 0 => [0x6A09E667, 0xBB67AE85, 0x3C6EF372, 0xA54FF53A, 0x510E527F, 0x9B05688C, 0x1F83D9AB, 0x5BE0CD19]
    case 1 => [0x1A2C02E9, 0xF046B3DB, 0xC6C531FF, 0xD8488AF1, 0x8E33DED1, 0x6C172A91, 0x1720B67C, 0x9FDBD50A]
    case 2 => [0x40AAD1E6, 0xCEA50343, 0xDEA615B5, 0x2201A121, 0xDFF2975A, 0xB43CD567, 0x0B0403E6, 0x4D4EE4B6]
    case 3 => [0x5154FF48, 0x6FE3E2CE, 0xA5B08B89, 0x3ADB583F, 0xEB7C381E, 0xE346FF5D, 0xD69E5998, 0xDB86909E]
    case 4 => [0xC07D698B, 0x2AD89477, 0x927E71D9, 0xB849E8C8, 0x03D7688D, 0x7863BC42, 0xD56EA8E1, 0xA6F942F1]
    case 5 => [0x0129C145, 0x5B9FFFA5, 0xE1A9212C, 0x7850B66F, 0x86FB4E59, 0xAC5E6F16, 0x0B4479D3, 0x55A29690]
    case 6 => [0x47715B1E, 0xF1FC8092, 0x93BD252D, 0x52D78031, 0x4BE4311D, 0xB910D5C2, 0xAD26734C, 0xC1E22213]
    case 7 => [0x0409B203, 0xE3D281C0, 0x79226613, 0x93738C5D, 0x0847AC5D, 0x1D4BDC89, 0x2A3A92FF, 0x8EB3B7B9]
    case 8 => [0xBDDD8D38, 0x1DEE76FE, 0x1A677370, 0xBA3118AE, 0x9B4FFD0B, 0xBA37E72C, 0x1D7B470F, 0xB4427E27]
    case _ => [0x27E7739F, 0xD9562583, 0x56D666E2, 0x5F810DE8, 0xEC5E4F8A, 0x553D4FB8, 0x3CFF20BA, 0x10234B40]
  }

  /** The message schedule of the inner digest behind one block, padded */
  function OuterTextWords(r: nat): (row: seq<Word>)
    ensures |row| == 8
  {
    match r
    case 0 => [0x92AB4D9A, 0x1F3B6152, 0xBCA9DD9E, 0x69AF43F4, 0xCE99E42F, 0xD4E30FF9, 0x72C48025, 0xB9F9CFEF]
    case 1 => [0x80000000, 0x00000000, 0x00000000, 0x00000000, 0x00000000, 0x00000000, 0x00000000, 0x00000300]
    case 2 => [0x1238EAC0, 0x7EA72874, 0x5A020F91, 0x1A205A2C, 0x3F91BDC9, 0x5FEC5BF0, 0x17CE0396, 0x83C4B9CC]
    case 3 => [0xC0636312, 0x26013045, 0xF7FB7B11, 0xFDB57555, 0x32C397CC, 0x2C0D2FC7, 0x3D97EA0E, 0xAB473EE1]
    case 4 => [0x6DB88C7F, 0x9938E7F6, 0xFD5E07A7, 0xB7071EA0, 0x2C758847, 0xB861AC28, 0xDF41F008, 0xBA84B45E]
    case 5 => [0xE26C5D24, 0xD3BE4795, 0x3D29CB4A, 0x9106B33B, 0x8810CBDB, 0x7C7878CE, 0x8E575314, 0x918947AB]
    case 6 => [0x4D2AE2C8, 0x33200F90, 0x4BB9E092, 0x2F165377, 0xA2AE5CAD, 0xA0EC416A, 0xDDE9378A, 0xF3204226]
    case _ => [0x72C57C4A, 0x29F17DC0, 0x47BD2466, 0x59EC5869, 0xECEF729B, 0xEDA51486, 0xED962388, 0x4EC4A0EE]
  }

  /** The digest */
  function OuterTextStates(r: nat): (row: seq<Word>)
    ensures |row| == 8
  {
    match r
    case 0 => [0x27E7739F, 0xD9562583, 0x56D666E2, 0x5F810DE8, 0xEC5E4F8A, 0x553D4FB8, 0x3CFF20BA, 0x10234B40]
    case 1 => [0xA9E77929, 0xF1F1CF0E, 0xFF3144EB, 0x43F9FB8C, 0x8C9A1D72, 0x7ABC3F46, 0x576210A0, 0xF38EF73A]
    case 2 => [0x4BF55010, 0x0BBC9099, 0xB8DC0FCD, 0x6239A99B, 0x5A1511DB, 0x5DCAFDDE, 0x731D63E2, 0xF833B364]
    case 3 => [0xC0468AE6, 0x2DFD894E, 0x373165DC, 0x89446B43, 0x6B8A9D06, 0xB61CF65B, 0xCB064053, 0xBF56FFEB]
    case 4 => [0x93A56A9D, 0x4E89E357, 0x78DF84E4, 0x7270C6B6, 0xB70EF198, 0xFC163CF1, 0x3E227000, 0x3F694601]
    case 5 => [0x3E1E0532, 0x9C15C962, 0xD5684C51, 0x8DFC637E, 0xC56E47B4, 0x020A2FDD, 0xCA03E83D, 0x7C61D0DA]
    case 6 => [0xF7F803DA, 0x4679EDD7, 0x2843E607, 0x6E5CAA92, 0x31E65D4A, 0x58CC4ED9, 0x0EC8A69D, 0x85D7F703]
    case 7 => [0x9CD75623, 0xD97FBFF0, 0x6385DCAF, 0x8777852F, 0xBA02D93C, 0x537426F8, 0xE5116204, 0x1DE2F6E3]
    case 8 => [0x884CD8C2, 0xFF8512D0, 0x05D248EC, 0x4F8AE343, 0x9BBF7276, 0x7445EDEF, 0xE9EA16B2, 0x1E0F84B7]
    case _ => [0xB0344C61, 0xD8DB3853, 0x5CA8AFCE, 0xAF0BF12B, 0x881DC200, 0xC9833DA7, 0x26E9376C, 0x2E32CFF7]
  }

  /** Eight words of the schedule of a block */
  function Words(m: Message, r: nat): (row: seq<Word>)
    ensures |row| == 8
  {
    match m
    case Abc => AbcWords(r)
    case InnerKey => InnerKeyWords(r)
    case InnerText => InnerTextWords(r)
    case OuterKey => OuterKeyWords(r)
    case OuterText => OuterTextWords(r)
  }

  function MessageOf(e: Example): Message
  {
    match e
    case Abc224Trace => Abc
    case Abc256Trace => Abc
    case InnerKeyTrace => InnerKey
    case InnerTextTrace => InnerText
    case OuterKeyTrace => OuterKey
    case OuterTextTrace => OuterText
  }

  /** The working variables before round 8 * r; behind the last round, what they are with those at the start added */
  function States(e: Example, r: nat): (row: seq<Word>)
    ensures |row| == 8
  {
    match e
    case Abc224Trace => Abc224States(r)
    case Abc256Trace => Abc256States(r)
    case InnerKeyTrace => InnerKeyStates(r)
    case InnerTextTrace => InnerTextStates(r)
    case OuterKeyTrace => OuterKeyStates(r)
    case OuterTextTrace => OuterTextStates(r)
  }

  // What the rows have to do with each other

  function Eight(v: seq<Word>, k: seq<Word>, w: seq<Word>): (u: seq<Word>)
    requires |v| == |k| == |w| == 8
    ensures |u| == 8
  {
    var u := Turn(Turn(Turn(Turn(v, k[0], w[0]), k[1], w[1]), k[2], w[2]), k[3], w[3]);
    Turn(Turn(Turn(Turn(u, k[4], w[4]), k[5], w[5]), k[6], w[6]), k[7], w[7])
  }

  /** Row `q` of the states, which is the next, holds what eight rounds make of row `r`. */
  predicate Follows(e: Example, r: nat, q: nat)
    requires r < ROWS
  {
    Eight(States(e, r), Row(r), Words(MessageOf(e), r)) == States(e, q)
  }

  function Next(a: Word, b: Word, c: Word, d: Word): Word
  {
    Plus(Plus(SmallSigma1(d), c), Plus(SmallSigma0(b), a))
  }

  predicate FirstFour(a: seq<Word>, b: seq<Word>, c: seq<Word>)
    requires |a| == |b| == |c| == 8
  {
    && c[0] == Next(a[0], a[1], b[1], b[6]) && c[1] == Next(a[1], a[2], b[2], b[7])
    && c[2] == Next(a[2], a[3], b[3], c[0]) && c[3] == Next(a[3], a[4], b[4], c[1])
  }

  predicate LastFour(a: seq<Word>, b: seq<Word>, c: seq<Word>)
    requires |a| == |b| == |c| == 8
  {
    && c[4] == Next(a[4], a[5], b[5], c[2]) && c[5] == Next(a[5], a[6], b[6], c[3])
    && c[6] == Next(a[6], a[7], b[7], c[4]) && c[7] == Next(a[7], b[0], c[0], c[5])
  }

  /** A row of words comes from the two before it. */
  predicate Scheduled(m: Message, r: nat)
    requires 2 <= r
  {
    FirstFour(Words(m, r - 2), Words(m, r - 1), Words(m, r)) && LastFour(Words(m, r - 2), Words(m, r - 1), Words(m, r))
  }

  // The traces, row by row

  lemma AbcFirst2() ensures FirstFour(Words(Abc, 0), Words(Abc, 1), Words(Abc, 2)) {}
  lemma AbcLast2() ensures LastFour(Words(Abc, 0), Words(Abc, 1), Words(Abc, 2)) {}
  lemma AbcFirst3() ensures FirstFour(Words(Abc, 1), Words(Abc, 2), Words(Abc, 3)) {}
  lemma AbcLast3() ensures LastFour(Words(Abc, 1), Words(Abc, 2), Words(Abc, 3)) {}
  lemma AbcFirst4() ensures FirstFour(Words(Abc, 2), Words(Abc, 3), Words(Abc, 4)) {}
  lemma AbcLast4() ensures LastFour(Words(Abc, 2), Words(Abc, 3), Words(Abc, 4)) {}
  lemma AbcFirst5() ensures FirstFour(Words(Abc, 3), Words(Abc, 4), Words(Abc, 5)) {}
  lemma AbcLast5() ensures LastFour(Words(Abc, 3), Words(Abc, 4), Words(Abc, 5)) {}
  lemma AbcFirst6() ensures FirstFour(Words(Abc, 4), Words(Abc, 5), Words(Abc, 6)) {}
  lemma AbcLast6() ensures LastFour(Words(Abc, 4), Words(Abc, 5), Words(Abc, 6)) {}
  lemma AbcFirst7() ensures FirstFour(Words(Abc, 5), Words(Abc, 6), Words(Abc, 7)) {}
  lemma AbcLast7() ensures LastFour(Words(Abc, 5), Words(Abc, 6), Words(Abc, 7)) {}

  lemma InnerKeyFirst2() ensures FirstFour(Words(InnerKey, 0), Words(InnerKey, 1), Words(InnerKey, 2)) {}
  lemma InnerKeyLast2() ensures LastFour(Words(InnerKey, 0), Words(InnerKey, 1), Words(InnerKey, 2)) {}
  lemma InnerKeyFirst3() ensures FirstFour(Words(InnerKey, 1), Words(InnerKey, 2), Words(InnerKey, 3)) {}
  lemma InnerKeyLast3() ensures LastFour(Words(InnerKey, 1), Words(InnerKey, 2), Words(InnerKey, 3)) {}
  lemma InnerKeyFirst4() ensures FirstFour(Words(InnerKey, 2), Words(InnerKey, 3), Words(InnerKey, 4)) {}
  lemma InnerKeyLast4() ensures LastFour(Words(InnerKey, 2), Words(InnerKey, 3), Words(InnerKey, 4)) {}
  lemma InnerKeyFirst5() ensures FirstFour(Words(InnerKey, 3), Words(InnerKey, 4), Words(InnerKey, 5)) {}
  lemma InnerKeyLast5() ensures LastFour(Words(InnerKey, 3), Words(InnerKey, 4), Words(InnerKey, 5)) {}
  lemma InnerKeyFirst6() ensures FirstFour(Words(InnerKey, 4), Words(InnerKey, 5), Words(InnerKey, 6)) {}
  lemma InnerKeyLast6() ensures LastFour(Words(InnerKey, 4), Words(InnerKey, 5), Words(InnerKey, 6)) {}
  lemma InnerKeyFirst7() ensures FirstFour(Words(InnerKey, 5), Words(InnerKey, 6), Words(InnerKey, 7)) {}
  lemma InnerKeyLast7() ensures LastFour(Words(InnerKey, 5), Words(InnerKey, 6), Words(InnerKey, 7)) {}

  lemma InnerTextFirst2() ensures FirstFour(Words(InnerText, 0), Words(InnerText, 1), Words(InnerText, 2)) {}
  lemma InnerTextLast2() ensures LastFour(Words(InnerText, 0), Words(InnerText, 1), Words(InnerText, 2)) {}
  lemma InnerTextFirst3() ensures FirstFour(Words(InnerText, 1), Words(InnerText, 2), Words(InnerText, 3)) {}
  lemma InnerTextLast3() ensures LastFour(Words(InnerText, 1), Words(InnerText, 2), Words(InnerText, 3)) {}
  lemma InnerTextFirst4() ensures FirstFour(Words(InnerText, 2), Words(InnerText, 3), Words(InnerText, 4)) {}
  lemma InnerTextLast4() ensures LastFour(Words(InnerText, 2), Words(InnerText, 3), Words(InnerText, 4)) {}
  lemma InnerTextFirst5() ensures FirstFour(Words(InnerText, 3), Words(InnerText, 4), Words(InnerText, 5)) {}
  lemma InnerTextLast5() ensures LastFour(Words(InnerText, 3), Words(InnerText, 4), Words(InnerText, 5)) {}
  lemma InnerTextFirst6() ensures FirstFour(Words(InnerText, 4), Words(InnerText, 5), Words(InnerText, 6)) {}
  lemma InnerTextLast6() ensures LastFour(Words(InnerText, 4), Words(InnerText, 5), Words(InnerText, 6)) {}
  lemma InnerTextFirst7() ensures FirstFour(Words(InnerText, 5), Words(InnerText, 6), Words(InnerText, 7)) {}
  lemma InnerTextLast7() ensures LastFour(Words(InnerText, 5), Words(InnerText, 6), Words(InnerText, 7)) {}

  lemma OuterKeyFirst2() ensures FirstFour(Words(OuterKey, 0), Words(OuterKey, 1), Words(OuterKey, 2)) {}
  lemma OuterKeyLast2() ensures LastFour(Words(OuterKey, 0), Words(OuterKey, 1), Words(OuterKey, 2)) {}
  lemma OuterKeyFirst3() ensures FirstFour(Words(OuterKey, 1), Words(OuterKey, 2), Words(OuterKey, 3)) {}
  lemma OuterKeyLast3() ensures LastFour(Words(OuterKey, 1), Words(OuterKey, 2), Words(OuterKey, 3)) {}
  lemma OuterKeyFirst4() ensures FirstFour(Words(OuterKey, 2), Words(OuterKey, 3), Words(OuterKey, 4)) {}
  lemma OuterKeyLast4() ensures LastFour(Words(OuterKey, 2), Words(OuterKey, 3), Words(OuterKey, 4)) {}
  lemma OuterKeyFirst5() ensures FirstFour(Words(OuterKey, 3), Words(OuterKey, 4), Words(OuterKey, 5)) {}
  lemma OuterKeyLast5() ensures LastFour(Words(OuterKey, 3), Words(OuterKey, 4), Words(OuterKey, 5)) {}
  lemma OuterKeyFirst6() ensures FirstFour(Words(OuterKey, 4), Words(OuterKey, 5), Words(OuterKey, 6)) {}
  lemma OuterKeyLast6() ensures LastFour(Words(OuterKey, 4), Words(OuterKey, 5), Words(OuterKey, 6)) {}
  lemma OuterKeyFirst7() ensures FirstFour(Words(OuterKey, 5), Words(OuterKey, 6), Words(OuterKey, 7)) {}
  lemma OuterKeyLast7() ensures LastFour(Words(OuterKey, 5), Words(OuterKey, 6), Words(OuterKey, 7)) {}

  lemma OuterTextFirst2() ensures FirstFour(Words(OuterText, 0), Words(OuterText, 1), Words(OuterText, 2)) {}
  lemma OuterTextLast2() ensures LastFour(Words(OuterText, 0), Words(OuterText, 1), Words(OuterText, 2)) {}
  lemma OuterTextFirst3() ensures FirstFour(Words(OuterText, 1), Words(OuterText, 2), Words(OuterText, 3)) {}
  lemma OuterTextLast3() ensures LastFour(Words(OuterText, 1), Words(OuterText, 2), Words(OuterText, 3)) {}
  lemma OuterTextFirst4() ensures FirstFour(Words(OuterText, 2), Words(OuterText, 3), Words(OuterText, 4)) {}
  lemma OuterTextLast4() ensures LastFour(Words(OuterText, 2), Words(OuterText, 3), Words(OuterText, 4)) {}
  lemma OuterTextFirst5() ensures FirstFour(Words(OuterText, 3), Words(OuterText, 4), Words(OuterText, 5)) {}
  lemma OuterTextLast5() ensures LastFour(Words(OuterText, 3), Words(OuterText, 4), Words(OuterText, 5)) {}
  lemma OuterTextFirst6() ensures FirstFour(Words(OuterText, 4), Words(OuterText, 5), Words(OuterText, 6)) {}
  lemma OuterTextLast6() ensures LastFour(Words(OuterText, 4), Words(OuterText, 5), Words(OuterText, 6)) {}
  lemma OuterTextFirst7() ensures FirstFour(Words(OuterText, 5), Words(OuterText, 6), Words(OuterText, 7)) {}
  lemma OuterTextLast7() ensures LastFour(Words(OuterText, 5), Words(OuterText, 6), Words(OuterText, 7)) {}

  lemma Abc224Row0() ensures Follows(Abc224Trace, 0, 1) {}
  lemma Abc224Row1() ensures Follows(Abc224Trace, 1, 2) {}
  lemma Abc224Row2() ensures Follows(Abc224Trace, 2, 3) {}
  lemma Abc224Row3() ensures Follows(Abc224Trace, 3, 4) {}
  lemma Abc224Row4() ensures Follows(Abc224Trace, 4, 5) {}
  lemma Abc224Row5() ensures Follows(Abc224Trace, 5, 6) {}
  lemma Abc224Row6() ensures Follows(Abc224Trace, 6, 7) {}
  lemma Abc224Row7() ensures Follows(Abc224Trace, 7, 8) {}

  lemma Abc256Row0() ensures Follows(Abc256Trace, 0, 1) {}
  lemma Abc256Row1() ensures Follows(Abc256Trace, 1, 2) {}
  lemma Abc256Row2() ensures Follows(Abc256Trace, 2, 3) {}
  lemma Abc256Row3() ensures Follows(Abc256Trace, 3, 4) {}
  lemma Abc256Row4() ensures Follows(Abc256Trace, 4, 5) {}
  lemma Abc256Row5() ensures Follows(Abc256Trace, 5, 6) {}
  lemma Abc256Row6() ensures Follows(Abc256Trace, 6, 7) {}
  lemma Abc256Row7() ensures Follows(Abc256Trace, 7, 8) {}

  lemma InnerKeyRow0() ensures Follows(InnerKeyTrace, 0, 1) {}
  lemma InnerKeyRow1() ensures Follows(InnerKeyTrace, 1, 2) {}
  lemma InnerKeyRow2() ensures Follows(InnerKeyTrace, 2, 3) {}
  lemma InnerKeyRow3() ensures Follows(InnerKeyTrace, 3, 4) {}
  lemma InnerKeyRow4() ensures Follows(InnerKeyTrace, 4, 5) {}
  lemma InnerKeyRow5() ensures Follows(InnerKeyTrace, 5, 6) {}
  lemma InnerKeyRow6() ensures Follows(InnerKeyTrace, 6, 7) {}
  lemma InnerKeyRow7() ensures Follows(InnerKeyTrace, 7, 8) {}

  lemma InnerTextRow0() ensures Follows(InnerTextTrace, 0, 1) {}
  lemma InnerTextRow1() ensures Follows(InnerTextTrace, 1, 2) {}
  lemma InnerTextRow2() ensures Follows(InnerTextTrace, 2, 3) {}
  lemma InnerTextRow3() ensures Follows(InnerTextTrace, 3, 4) {}
  lemma InnerTextRow4() ensures Follows(InnerTextTrace, 4, 5) {}
  lemma InnerTextRow5() ensures Follows(InnerTextTrace, 5, 6) {}
  lemma InnerTextRow6() ensures Follows(InnerTextTrace, 6, 7) {}
  lemma InnerTextRow7() ensures Follows(InnerTextTrace, 7, 8) {}

  lemma OuterKeyRow0() ensures Follows(OuterKeyTrace, 0, 1) {}
  lemma OuterKeyRow1() ensures Follows(OuterKeyTrace, 1, 2) {}
  lemma OuterKeyRow2() ensures Follows(OuterKeyTrace, 2, 3) {}
  lemma OuterKeyRow3() ensures Follows(OuterKeyTrace, 3, 4) {}
  lemma OuterKeyRow4() ensures Follows(OuterKeyTrace, 4, 5) {}
  lemma OuterKeyRow5() ensures Follows(OuterKeyTrace, 5, 6) {}
  lemma OuterKeyRow6() ensures Follows(OuterKeyTrace, 6, 7) {}
  lemma OuterKeyRow7() ensures Follows(OuterKeyTrace, 7, 8) {}

  lemma OuterTextRow0() ensures Follows(OuterTextTrace, 0, 1) {}
  lemma OuterTextRow1() ensures Follows(OuterTextTrace, 1, 2) {}
  lemma OuterTextRow2() ensures Follows(OuterTextTrace, 2, 3) {}
  lemma OuterTextRow3() ensures Follows(OuterTextTrace, 3, 4) {}
  lemma OuterTextRow4() ensures Follows(OuterTextTrace, 4, 5) {}
  lemma OuterTextRow5() ensures Follows(OuterTextTrace, 5, 6) {}
  lemma OuterTextRow6() ensures Follows(OuterTextTrace, 6, 7) {}
  lemma OuterTextRow7() ensures Follows(OuterTextTrace, 7, 8) {}

  lemma Abc224Sums()
    ensures Sums(States(Abc224Trace, 0), States(Abc224Trace, ROWS)) == States(Abc224Trace, ROWS + 1)
  {
  }

  lemma Abc256Sums()
    ensures Sums(States(Abc256Trace, 0), States(Abc256Trace, ROWS)) == States(Abc256Trace, ROWS + 1)
  {
  }

  lemma InnerKeySums()
    ensures Sums(States(InnerKeyTrace, 0), States(InnerKeyTrace, ROWS)) == States(InnerKeyTrace, ROWS + 1)
  {
  }

  lemma InnerTextSums()
    ensures Sums(States(InnerTextTrace, 0), States(InnerTextTrace, ROWS)) == States(InnerTextTrace, ROWS + 1)
  {
  }

  lemma OuterKeySums()
    ensures Sums(States(OuterKeyTrace, 0), States(OuterKeyTrace, ROWS)) == States(OuterKeyTrace, ROWS + 1)
  {
  }

  lemma OuterTextSums()
    ensures Sums(States(OuterTextTrace, 0), States(OuterTextTrace, ROWS)) == States(OuterTextTrace, ROWS + 1)
  {
  }


  lemma AbcScheduled(r: nat)
    requires 2 <= r < ROWS
    ensures Scheduled(Abc, r)
  {
    hide FirstFour, LastFour, Words;
    if r == 2 { AbcFirst2(); AbcLast2(); }
    else if r == 3 { AbcFirst3(); AbcLast3(); }
    else if r == 4 { AbcFirst4(); AbcLast4(); }
    else if r == 5 { AbcFirst5(); AbcLast5(); }
    else if r == 6 { AbcFirst6(); AbcLast6(); }
    else { AbcFirst7(); AbcLast7(); }
  }

  lemma InnerKeyScheduled(r: nat)
    requires 2 <= r < ROWS
    ensures Scheduled(InnerKey, r)
  {
    hide FirstFour, LastFour, Words;
    if r == 2 { InnerKeyFirst2(); InnerKeyLast2(); }
    else if r == 3 { InnerKeyFirst3(); InnerKeyLast3(); }
    else if r == 4 { InnerKeyFirst4(); InnerKeyLast4(); }
    else if r == 5 { InnerKeyFirst5(); InnerKeyLast5(); }
    else if r == 6 { InnerKeyFirst6(); InnerKeyLast6(); }
    else { InnerKeyFirst7(); InnerKeyLast7(); }
  }

  lemma InnerTextScheduled(r: nat)
    requires 2 <= r < ROWS
    ensures Scheduled(InnerText, r)
  {
    hide FirstFour, LastFour, Words;
    if r == 2 { InnerTextFirst2(); InnerTextLast2(); }
    else if r == 3 { InnerTextFirst3(); InnerTextLast3(); }
    else if r == 4 { InnerTextFirst4(); InnerTextLast4(); }
    else if r == 5 { InnerTextFirst5(); InnerTextLast5(); }
    else if r == 6 { InnerTextFirst6(); InnerTextLast6(); }
    else { InnerTextFirst7(); InnerTextLast7(); }
  }

  lemma OuterKeyScheduled(r: nat)
    requires 2 <= r < ROWS
    ensures Scheduled(OuterKey, r)
  {
    hide FirstFour, LastFour, Words;
    if r == 2 { OuterKeyFirst2(); OuterKeyLast2(); }
    else if r == 3 { OuterKeyFirst3(); OuterKeyLast3(); }
    else if r == 4 { OuterKeyFirst4(); OuterKeyLast4(); }
    else if r == 5 { OuterKeyFirst5(); OuterKeyLast5(); }
    else if r == 6 { OuterKeyFirst6(); OuterKeyLast6(); }
    else { OuterKeyFirst7(); OuterKeyLast7(); }
  }

  lemma OuterTextScheduled(r: nat)
    requires 2 <= r < ROWS
    ensures Scheduled(OuterText, r)
  {
    hide FirstFour, LastFour, Words;
    if r == 2 { OuterTextFirst2(); OuterTextLast2(); }
    else if r == 3 { OuterTextFirst3(); OuterTextLast3(); }
    else if r == 4 { OuterTextFirst4(); OuterTextLast4(); }
    else if r == 5 { OuterTextFirst5(); OuterTextLast5(); }
    else if r == 6 { OuterTextFirst6(); OuterTextLast6(); }
    else { OuterTextFirst7(); OuterTextLast7(); }
  }

  lemma Abc224Follows(r: nat)
    requires r < ROWS
    ensures Follows(Abc224Trace, r, r + 1)
  {
    hide Follows;
    if r == 0 { Abc224Row0(); }
    else if r == 1 { Abc224Row1(); }
    else if r == 2 { Abc224Row2(); }
    else if r == 3 { Abc224Row3(); }
    else if r == 4 { Abc224Row4(); }
    else if r == 5 { Abc224Row5(); }
    else if r == 6 { Abc224Row6(); }
    else { Abc224Row7(); }
  }

  lemma Abc256Follows(r: nat)
    requires r < ROWS
    ensures Follows(Abc256Trace, r, r + 1)
  {
    hide Follows;
    if r == 0 { Abc256Row0(); }
    else if r == 1 { Abc256Row1(); }
    else if r == 2 { Abc256Row2(); }
    else if r == 3 { Abc256Row3(); }
    else if r == 4 { Abc256Row4(); }
    else if r == 5 { Abc256Row5(); }
    else if r == 6 { Abc256Row6(); }
    else { Abc256Row7(); }
  }

  lemma InnerKeyFollows(r: nat)
    requires r < ROWS
    ensures Follows(InnerKeyTrace, r, r + 1)
  {
    hide Follows;
    if r == 0 { InnerKeyRow0(); }
    else if r == 1 { InnerKeyRow1(); }
    else if r == 2 { InnerKeyRow2(); }
    else if r == 3 { InnerKeyRow3(); }
    else if r == 4 { InnerKeyRow4(); }
    else if r == 5 { InnerKeyRow5(); }
    else if r == 6 { InnerKeyRow6(); }
    else { InnerKeyRow7(); }
  }

  lemma InnerTextFollows(r: nat)
    requires r < ROWS
    ensures Follows(InnerTextTrace, r, r + 1)
  {
    hide Follows;
    if r == 0 { InnerTextRow0(); }
    else if r == 1 { InnerTextRow1(); }
    else if r == 2 { InnerTextRow2(); }
    else if r == 3 { InnerTextRow3(); }
    else if r == 4 { InnerTextRow4(); }
    else if r == 5 { InnerTextRow5(); }
    else if r == 6 { InnerTextRow6(); }
    else { InnerTextRow7(); }
  }

  lemma OuterKeyFollows(r: nat)
    requires r < ROWS
    ensures Follows(OuterKeyTrace, r, r + 1)
  {
    hide Follows;
    if r == 0 { OuterKeyRow0(); }
    else if r == 1 { OuterKeyRow1(); }
    else if r == 2 { OuterKeyRow2(); }
    else if r == 3 { OuterKeyRow3(); }
    else if r == 4 { OuterKeyRow4(); }
    else if r == 5 { OuterKeyRow5(); }
    else if r == 6 { OuterKeyRow6(); }
    else { OuterKeyRow7(); }
  }

  lemma OuterTextFollows(r: nat)
    requires r < ROWS
    ensures Follows(OuterTextTrace, r, r + 1)
  {
    hide Follows;
    if r == 0 { OuterTextRow0(); }
    else if r == 1 { OuterTextRow1(); }
    else if r == 2 { OuterTextRow2(); }
    else if r == 3 { OuterTextRow3(); }
    else if r == 4 { OuterTextRow4(); }
    else if r == 5 { OuterTextRow5(); }
    else if r == 6 { OuterTextRow6(); }
    else { OuterTextRow7(); }
  }

  lemma AllScheduled(m: Message, r: nat)
    requires 2 <= r < ROWS
    ensures Scheduled(m, r)
  {
    hide Scheduled;
    match m
    case Abc => AbcScheduled(r);
    case InnerKey => InnerKeyScheduled(r);
    case InnerText => InnerTextScheduled(r);
    case OuterKey => OuterKeyScheduled(r);
    case OuterText => OuterTextScheduled(r);
  }

  lemma AllFollow(e: Example, r: nat)
    requires r < ROWS
    ensures Follows(e, r, r + 1)
  {
    hide Follows;
    match e
    case Abc224Trace => Abc224Follows(r);
    case Abc256Trace => Abc256Follows(r);
    case InnerKeyTrace => InnerKeyFollows(r);
    case InnerTextTrace => InnerTextFollows(r);
    case OuterKeyTrace => OuterKeyFollows(r);
    case OuterTextTrace => OuterTextFollows(r);
  }

  lemma AllSums(e: Example)
    ensures Sums(States(e, 0), States(e, ROWS)) == States(e, ROWS + 1)
  {
    hide Sums, States;
    match e
    case Abc224Trace => Abc224Sums();
    case Abc256Trace => Abc256Sums();
    case InnerKeyTrace => InnerKeySums();
    case InnerTextTrace => InnerTextSums();
    case OuterKeyTrace => OuterKeySums();
    case OuterTextTrace => OuterTextSums();
  }

  // What a trace shows

  function Block(m: Message): (block: seq<Word>)
    ensures |block| == 16
  {
    Words(m, 0) + Words(m, 1)
  }

  predicate RowIs(m: Message, r: nat)
  {
    forall i :: 0 <= i < 8 ==> W(Block(m), 8 * r + i) == Words(m, r)[i]
  }

  lemma FirstRows(m: Message)
    ensures RowIs(m, 0) && RowIs(m, 1)
  {
    hide Words;
  }

  lemma NextWord(block: seq<Word>, t: nat)
    requires |block| == 16
    ensures W(block, t + 16) == Next(W(block, t), W(block, t + 1), W(block, t + 9), W(block, t + 14))
  {
    hide Plus, SmallSigma0, SmallSigma1;
  }

  lemma NextRow(m: Message, r: nat)
    requires RowIs(m, r) && RowIs(m, r + 1) && Scheduled(m, r + 2)
    ensures RowIs(m, r + 2)
  {
    hide W, Words, Next, Block;
    var block, t := Block(m), 8 * r;
    NextWord(block, t);
    NextWord(block, t + 1);
    NextWord(block, t + 2);
    NextWord(block, t + 3);
    NextWord(block, t + 4);
    NextWord(block, t + 5);
    NextWord(block, t + 6);
    NextWord(block, t + 7);
    OneRow(m, r);
    OneRow(m, r + 1);
  }

  lemma OneRow(m: Message, r: nat)
    requires RowIs(m, r)
    ensures var b, t, w := Block(m), 8 * r, Words(m, r);
            && W(b, t) == w[0] && W(b, t + 1) == w[1] && W(b, t + 2) == w[2] && W(b, t + 3) == w[3]
            && W(b, t + 4) == w[4] && W(b, t + 5) == w[5] && W(b, t + 6) == w[6] && W(b, t + 7) == w[7]
  {
    hide W, Words, Block;
    assert W(Block(m), 8 * r + 0) == Words(m, r)[0];
  }

  lemma {:induction false} RowsAre(m: Message, r: nat)
    requires r < ROWS
    ensures RowIs(m, r)
  {
    hide RowIs, Scheduled;
    FirstRows(m);
    if r >= 2 {
      RowsAre(m, r - 2);
      RowsAre(m, r - 1);
      AllScheduled(m, r);
      NextRow(m, r - 2);
    }
  }

  lemma OneRound(block: seq<Word>, state: seq<Word>, r: nat, i: nat, w: Word)
    requires |block| == 16 && |state| == 8 && r < ROWS && i < 8 && W(block, 8 * r + i) == w
    ensures Rounds(block, state, 8 * r + i + 1) == Turn(Rounds(block, state, 8 * r + i), Row(r)[i], w)
  {
    hide W, Turn, Row;
    assert (8 * r + i) / 8 == r && (8 * r + i) % 8 == i;
  }

  lemma EightRounds(m: Message, state: seq<Word>, r: nat)
    requires |state| == 8 && r < ROWS && RowIs(m, r)
    ensures Rounds(Block(m), state, 8 * r + 8) == Eight(Rounds(Block(m), state, 8 * r), Row(r), Words(m, r))
  {
    hide W, Turn, Row, Rounds, Words, Block, RowIs;
    var block, w := Block(m), Words(m, r);
    OneRow(m, r);
    OneRound(block, state, r, 0, w[0]);
    OneRound(block, state, r, 1, w[1]);
    OneRound(block, state, r, 2, w[2]);
    OneRound(block, state, r, 3, w[3]);
    OneRound(block, state, r, 4, w[4]);
    OneRound(block, state, r, 5, w[5]);
    OneRound(block, state, r, 6, w[6]);
    OneRound(block, state, r, 7, w[7]);
  }

  lemma NoRound(block: seq<Word>, state: seq<Word>)
    requires |block| == 16 && |state| == 8
    ensures Rounds(block, state, 0) == state
  {
    hide W, Turn, Row;
  }

  lemma {:induction false} RoundsAre(e: Example, r: nat)
    requires r <= ROWS
    ensures Rounds(Block(MessageOf(e)), States(e, 0), 8 * r) == States(e, r)
  {
    hide Words, States, Eight, W, RowIs, Row, Block, MessageOf, Rounds;
    NoRound(Block(MessageOf(e)), States(e, 0));
    if r > 0 {
      RoundsAre(e, r - 1);
      RowsAre(MessageOf(e), r - 1);
      AllFollow(e, r - 1);
      EightRounds(MessageOf(e), States(e, 0), r - 1);
    }
  }

  /** Each trace ends with what the standard makes of its block. */
  lemma TraceCompresses(e: Example)
    ensures Compress(States(e, 0), Block(MessageOf(e))) == States(e, ROWS + 1)
  {
    hide Words, States, Rounds, Block, Sums, MessageOf;
    RoundsAre(e, ROWS);
    AllSums(e);
  }
}
