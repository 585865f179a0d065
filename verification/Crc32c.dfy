/** The table-driven checksum of the storage layer, proved equal to the bit-by-bit CRC32C. */
module Crc32c {
  import opened Crc32cSpec

  // The 256-entry lookup table, sixteen rows of sixteen.
  function Row0(): seq<bv32> {
    [
      0x00000000, 0xF26B8303, 0xE13B70F7, 0x1350F3F4, 0xC79A971F, 0x35F1141C, 0x26A1E7E8, 0xD4CA64EB,
      0x8AD958CF, 0x78B2DBCC, 0x6BE22838, 0x9989AB3B, 0x4D43CFD0, 0xBF284CD3, 0xAC78BF27, 0x5E133C24
    ]
  }

  function Row1(): seq<bv32> {
    [
      0x105EC76F, 0xE235446C, 0xF165B798, 0x030E349B, 0xD7C45070, 0x25AFD373, 0x36FF2087, 0xC494A384,
      0x9A879FA0, 0x68EC1CA3, 0x7BBCEF57, 0x89D76C54, 0x5D1D08BF, 0xAF768BBC, 0xBC267848, 0x4E4DFB4B
    ]
  }

  function Row2(): seq<bv32> {
    [
      0x20BD8EDE, 0xD2D60DDD, 0xC186FE29, 0x33ED7D2A, 0xE72719C1, 0x154C9AC2, 0x061C6936, 0xF477EA35,
      0xAA64D611, 0x580F5512, 0x4B5FA6E6, 0xB93425E5, 0x6DFE410E, 0x9F95C20D, 0x8CC531F9, 0x7EAEB2FA
    ]
  }

  function Row3(): seq<bv32> {
    [
      0x30E349B1, 0xC288CAB2, 0xD1D83946, 0x23B3BA45, 0xF779DEAE, 0x05125DAD, 0x1642AE59, 0xE4292D5A,
      0xBA3A117E, 0x4851927D, 0x5B016189, 0xA96AE28A, 0x7DA08661, 0x8FCB0562, 0x9C9BF696, 0x6EF07595
    ]
  }

  function Row4(): seq<bv32> {
    [
      0x417B1DBC, 0xB3109EBF, 0xA0406D4B, 0x522BEE48, 0x86E18AA3, 0x748A09A0, 0x67DAFA54, 0x95B17957,
      0xCBA24573, 0x39C9C670, 0x2A993584, 0xD8F2B687, 0x0C38D26C, 0xFE53516F, 0xED03A29B, 0x1F682198
    ]
  }

  function Row5(): seq<bv32> {
    [
      0x5125DAD3, 0xA34E59D0, 0xB01EAA24, 0x42752927, 0x96BF4DCC, 0x64D4CECF, 0x77843D3B, 0x85EFBE38,
      0xDBFC821C, 0x2997011F, 0x3AC7F2EB, 0xC8AC71E8, 0x1C661503, 0xEE0D9600, 0xFD5D65F4, 0x0F36E6F7
    ]
  }

  function Row6(): seq<bv32> {
    [
      0x61C69362, 0x93AD1061, 0x80FDE395, 0x72966096, 0xA65C047D, 0x5437877E, 0x4767748A, 0xB50CF789,
      0xEB1FCBAD, 0x197448AE, 0x0A24BB5A, 0xF84F3859, 0x2C855CB2, 0xDEEEDFB1, 0xCDBE2C45, 0x3FD5AF46
    ]
  }

  function Row7(): seq<bv32> {
    [
      0x7198540D, 0x83F3D70E, 0x90A324FA, 0x62C8A7F9, 0xB602C312, 0x44694011, 0x5739B3E5, 0xA55230E6,
      0xFB410CC2, 0x092A8FC1, 0x1A7A7C35, 0xE811FF36, 0x3CDB9BDD, 0xCEB018DE, 0xDDE0EB2A, 0x2F8B6829
    ]
  }

  function Row8(): seq<bv32> {
    [
      0x82F63B78, 0x709DB87B, 0x63CD4B8F, 0x91A6C88C, 0x456CAC67, 0xB7072F64, 0xA457DC90, 0x563C5F93,
      0x082F63B7, 0xFA44E0B4, 0xE9141340, 0x1B7F9043, 0xCFB5F4A8, 0x3DDE77AB, 0x2E8E845F, 0xDCE5075C
    ]
  }

  function Row9(): seq<bv32> {
    [
      0x92A8FC17, 0x60C37F14, 0x73938CE0, 0x81F80FE3, 0x55326B08, 0xA759E80B, 0xB4091BFF, 0x466298FC,
      0x1871A4D8, 0xEA1A27DB, 0xF94AD42F, 0x0B21572C, 0xDFEB33C7, 0x2D80B0C4, 0x3ED04330, 0xCCBBC033
    ]
  }

  function RowA(): seq<bv32> {
    [
      0xA24BB5A6, 0x502036A5, 0x4370C551, 0xB11B4652, 0x65D122B9, 0x97BAA1BA, 0x84EA524E, 0x7681D14D,
      0x2892ED69, 0xDAF96E6A, 0xC9A99D9E, 0x3BC21E9D, 0xEF087A76, 0x1D63F975, 0x0E330A81, 0xFC588982
    ]
  }

  function RowB(): seq<bv32> {
    [
      0xB21572C9, 0x407EF1CA, 0x532E023E, 0xA145813D, 0x758FE5D6, 0x87E466D5, 0x94B49521, 0x66DF1622,
      0x38CC2A06, 0xCAA7A905, 0xD9F75AF1, 0x2B9CD9F2, 0xFF56BD19, 0x0D3D3E1A, 0x1E6DCDEE, 0xEC064EED
    ]
  }

  function RowC(): seq<bv32> {
    [
      0xC38D26C4, 0x31E6A5C7, 0x22B65633, 0xD0DDD530, 0x0417B1DB, 0xF67C32D8, 0xE52CC12C, 0x1747422F,
      0x49547E0B, 0xBB3FFD08, 0xA86F0EFC, 0x5A048DFF, 0x8ECEE914, 0x7CA56A17, 0x6FF599E3, 0x9D9E1AE0
    ]
  }

  function RowD(): seq<bv32> {
    [
      0xD3D3E1AB, 0x21B862A8, 0x32E8915C, 0xC083125F, 0x144976B4, 0xE622F5B7, 0xF5720643, 0x07198540,
      0x590AB964, 0xAB613A67, 0xB831C993, 0x4A5A4A90, 0x9E902E7B, 0x6CFBAD78, 0x7FAB5E8C, 0x8DC0DD8F
    ]
  }

  function RowE(): seq<bv32> {
    [
      0xE330A81A, 0x115B2B19, 0x020BD8ED, 0xF0605BEE, 0x24AA3F05, 0xD6C1BC06, 0xC5914FF2, 0x37FACCF1,
      0x69E9F0D5, 0x9B8273D6, 0x88D28022, 0x7AB90321, 0xAE7367CA, 0x5C18E4C9, 0x4F48173D, 0xBD23943E
    ]
  }

  function RowF(): seq<bv32> {
    [
      0xF36E6F75, 0x0105EC76, 0x12551F82, 0xE03E9C81, 0x34F4F86A, 0xC69F7B69, 0xD5CF889D, 0x27A40B9E,
      0x79B737BA, 0x8BDCB4B9, 0x988C474D, 0x6AE7C44E, 0xBE2DA0A5, 0x4C4623A6, 0x5F16D052, 0xAD7D5351
    ]
  }

  function Rows(): (rows: seq<seq<bv32>>)
    ensures |rows| == 16
  {
    [Row0(), Row1(), Row2(), Row3(), Row4(), Row5(), Row6(), Row7(),
     Row8(), Row9(), RowA(), RowB(), RowC(), RowD(), RowE(), RowF()]
  }

  function Flatten(rows: seq<seq<bv32>>): seq<bv32> {
    if rows == [] then [] else rows[0] + Flatten(rows[1..])
  }

  function Table(): seq<bv32> {
    Flatten(Rows())
  }

  /** What a table entry must be: eight one-bit steps of its index. */
  function Entry(i: bv8): bv32 {
    Step8(i as bv32)
  }

  function Step8(r: bv32): bv32 {
    BitStep(BitStep(BitStep(BitStep(BitStep(BitStep(BitStep(BitStep(r))))))))
  }

  ghost predicate RowFrom(row: seq<bv32>, i: bv8) {
    row == [Entry(i), Entry(i + 1), Entry(i + 2), Entry(i + 3), Entry(i + 4), Entry(i + 5), Entry(i + 6), Entry(i + 7),
            Entry(i + 8), Entry(i + 9), Entry(i + 10), Entry(i + 11), Entry(i + 12), Entry(i + 13), Entry(i + 14), Entry(i + 15)]
  }

  lemma RowEntry(row: seq<bv32>, first: bv8, k: bv8)
    requires RowFrom(row, first)
    requires k < 16
    ensures |row| == 16 && row[k as int] == Entry(first + k)
  {
    hide Entry;
    if
    case k == 0 => case k == 1 => case k == 2 => case k == 3 =>
    case k == 4 => case k == 5 => case k == 6 => case k == 7 =>
    case k == 8 => case k == 9 => case k == 10 => case k == 11 =>
    case k == 12 => case k == 13 => case k == 14 => case k == 15 =>
  }

  lemma {:induction false} FlattenAt(rows: seq<seq<bv32>>, r: nat, k: nat)
    requires forall row <- rows :: |row| == 16
    requires r < |rows| && k < 16
    ensures |Flatten(rows)| == 16 * |rows|
    ensures Flatten(rows)[16 * r + k] == rows[r][k]
    decreases |rows|
  {
    if |rows| > 1 {
      FlattenAt(rows[1..], if r == 0 then 0 else r - 1, k);
    }
  }

  ghost predicate RowAt(r: bv8)
    requires r < 16
  {
    RowFrom(Rows()[r as int], r << 4)
  }

  lemma Row0IsRight()
    ensures RowAt(0)
  {
    assert Step8(0) == 0x00000000 && Step8(1) == 0xF26B8303 && Step8(2) == 0xE13B70F7 && Step8(3) == 0x1350F3F4;
    assert Step8(4) == 0xC79A971F && Step8(5) == 0x35F1141C && Step8(6) == 0x26A1E7E8 && Step8(7) == 0xD4CA64EB;
    assert Step8(8) == 0x8AD958CF && Step8(9) == 0x78B2DBCC && Step8(10) == 0x6BE22838 && Step8(11) == 0x9989AB3B;
    assert Step8(12) == 0x4D43CFD0 && Step8(13) == 0xBF284CD3 && Step8(14) == 0xAC78BF27 && Step8(15) == 0x5E133C24;
  }

  lemma Row1IsRight()
    ensures RowAt(1)
  {
    assert Step8(16) == 0x105EC76F && Step8(17) == 0xE235446C && Step8(18) == 0xF165B798 && Step8(19) == 0x030E349B;
    assert Step8(20) == 0xD7C45070 && Step8(21) == 0x25AFD373 && Step8(22) == 0x36FF2087 && Step8(23) == 0xC494A384;
    assert Step8(24) == 0x9A879FA0 && Step8(25) == 0x68EC1CA3 && Step8(26) == 0x7BBCEF57 && Step8(27) == 0x89D76C54;
    assert Step8(28) == 0x5D1D08BF && Step8(29) == 0xAF768BBC && Step8(30) == 0xBC267848 && Step8(31) == 0x4E4DFB4B;
  }

  lemma Row2IsRight()
    ensures RowAt(2)
  {
    assert Step8(32) == 0x20BD8EDE && Step8(33) == 0xD2D60DDD && Step8(34) == 0xC186FE29 && Step8(35) == 0x33ED7D2A;
    assert Step8(36) == 0xE72719C1 && Step8(37) == 0x154C9AC2 && Step8(38) == 0x061C6936 && Step8(39) == 0xF477EA35;
    assert Step8(40) == 0xAA64D611 && Step8(41) == 0x580F5512 && Step8(42) == 0x4B5FA6E6 && Step8(43) == 0xB93425E5;
    assert Step8(44) == 0x6DFE410E && Step8(45) == 0x9F95C20D && Step8(46) == 0x8CC531F9 && Step8(47) == 0x7EAEB2FA;
  }

  lemma Row3IsRight()
    ensures RowAt(3)
  {
    assert Step8(48) == 0x30E349B1 && Step8(49) == 0xC288CAB2 && Step8(50) == 0xD1D83946 && Step8(51) == 0x23B3BA45;
    assert Step8(52) == 0xF779DEAE && Step8(53) == 0x05125DAD && Step8(54) == 0x1642AE59 && Step8(55) == 0xE4292D5A;
    assert Step8(56) == 0xBA3A117E && Step8(57) == 0x4851927D && Step8(58) == 0x5B016189 && Step8(59) == 0xA96AE28A;
    assert Step8(60) == 0x7DA08661 && Step8(61) == 0x8FCB0562 && Step8(62) == 0x9C9BF696 && Step8(63) == 0x6EF07595;
  }

  lemma Row4IsRight()
    ensures RowAt(4)
  {
    assert Step8(64) == 0x417B1DBC && Step8(65) == 0xB3109EBF && Step8(66) == 0xA0406D4B && Step8(67) == 0x522BEE48;
    assert Step8(68) == 0x86E18AA3 && Step8(69) == 0x748A09A0 && Step8(70) == 0x67DAFA54 && Step8(71) == 0x95B17957;
    assert Step8(72) == 0xCBA24573 && Step8(73) == 0x39C9C670 && Step8(74) == 0x2A993584 && Step8(75) == 0xD8F2B687;
    assert Step8(76) == 0x0C38D26C && Step8(77) == 0xFE53516F && Step8(78) == 0xED03A29B && Step8(79) == 0x1F682198;
  }

  lemma Row5IsRight()
    ensures RowAt(5)
  {
    assert Step8(80) == 0x5125DAD3 && Step8(81) == 0xA34E59D0 && Step8(82) == 0xB01EAA24 && Step8(83) == 0x42752927;
    assert Step8(84) == 0x96BF4DCC && Step8(85) == 0x64D4CECF && Step8(86) == 0x77843D3B && Step8(87) == 0x85EFBE38;
    assert Step8(88) == 0xDBFC821C && Step8(89) == 0x2997011F && Step8(90) == 0x3AC7F2EB && Step8(91) == 0xC8AC71E8;
    assert Step8(92) == 0x1C661503 && Step8(93) == 0xEE0D9600 && Step8(94) == 0xFD5D65F4 && Step8(95) == 0x0F36E6F7;
  }

  lemma Row6IsRight()
    ensures RowAt(6)
  {
    assert Step8(96) == 0x61C69362 && Step8(97) == 0x93AD1061 && Step8(98) == 0x80FDE395 && Step8(99) == 0x72966096;
    assert Step8(100) == 0xA65C047D && Step8(101) == 0x5437877E && Step8(102) == 0x4767748A && Step8(103) == 0xB50CF789;
    assert Step8(104) == 0xEB1FCBAD && Step8(105) == 0x197448AE && Step8(106) == 0x0A24BB5A && Step8(107) == 0xF84F3859;
    assert Step8(108) == 0x2C855CB2 && Step8(109) == 0xDEEEDFB1 && Step8(110) == 0xCDBE2C45 && Step8(111) == 0x3FD5AF46;
  }

  lemma Row7IsRight()
    ensures RowAt(7)
  {
    assert Step8(112) == 0x7198540D && Step8(113) == 0x83F3D70E && Step8(114) == 0x90A324FA && Step8(115) == 0x62C8A7F9;
    assert Step8(116) == 0xB602C312 && Step8(117) == 0x44694011 && Step8(118) == 0x5739B3E5 && Step8(119) == 0xA55230E6;
    assert Step8(120) == 0xFB410CC2 && Step8(121) == 0x092A8FC1 && Step8(122) == 0x1A7A7C35 && Step8(123) == 0xE811FF36;
    assert Step8(124) == 0x3CDB9BDD && Step8(125) == 0xCEB018DE && Step8(126) == 0xDDE0EB2A && Step8(127) == 0x2F8B6829;
  }

  lemma Row8IsRight()
    ensures RowAt(8)
  {
    assert Step8(128) == 0x82F63B78 && Step8(129) == 0x709DB87B && Step8(130) == 0x63CD4B8F && Step8(131) == 0x91A6C88C;
    assert Step8(132) == 0x456CAC67 && Step8(133) == 0xB7072F64 && Step8(134) == 0xA457DC90 && Step8(135) == 0x563C5F93;
    assert Step8(136) == 0x082F63B7 && Step8(137) == 0xFA44E0B4 && Step8(138) == 0xE9141340 && Step8(139) == 0x1B7F9043;
    assert Step8(140) == 0xCFB5F4A8 && Step8(141) == 0x3DDE77AB && Step8(142) == 0x2E8E845F && Step8(143) == 0xDCE5075C;
  }

  lemma Row9IsRight()
    ensures RowAt(9)
  {
    assert Step8(144) == 0x92A8FC17 && Step8(145) == 0x60C37F14 && Step8(146) == 0x73938CE0 && Step8(147) == 0x81F80FE3;
    assert Step8(148) == 0x55326B08 && Step8(149) == 0xA759E80B && Step8(150) == 0xB4091BFF && Step8(151) == 0x466298FC;
    assert Step8(152) == 0x1871A4D8 && Step8(153) == 0xEA1A27DB && Step8(154) == 0xF94AD42F && Step8(155) == 0x0B21572C;
    assert Step8(156) == 0xDFEB33C7 && Step8(157) == 0x2D80B0C4 && Step8(158) == 0x3ED04330 && Step8(159) == 0xCCBBC033;
  }

  lemma RowAIsRight()
    ensures RowAt(10)
  {
    assert Step8(160) == 0xA24BB5A6 && Step8(161) == 0x502036A5 && Step8(162) == 0x4370C551 && Step8(163) == 0xB11B4652;
    assert Step8(164) == 0x65D122B9 && Step8(165) == 0x97BAA1BA && Step8(166) == 0x84EA524E && Step8(167) == 0x7681D14D;
    assert Step8(168) == 0x2892ED69 && Step8(169) == 0xDAF96E6A && Step8(170) == 0xC9A99D9E && Step8(171) == 0x3BC21E9D;
    assert Step8(172) == 0xEF087A76 && Step8(173) == 0x1D63F975 && Step8(174) == 0x0E330A81 && Step8(175) == 0xFC588982;
  }

  lemma RowBIsRight()
    ensures RowAt(11)
  {
    assert Step8(176) == 0xB21572C9 && Step8(177) == 0x407EF1CA && Step8(178) == 0x532E023E && Step8(179) == 0xA145813D;
    assert Step8(180) == 0x758FE5D6 && Step8(181) == 0x87E466D5 && Step8(182) == 0x94B49521 && Step8(183) == 0x66DF1622;
    assert Step8(184) == 0x38CC2A06 && Step8(185) == 0xCAA7A905 && Step8(186) == 0xD9F75AF1 && Step8(187) == 0x2B9CD9F2;
    assert Step8(188) == 0xFF56BD19 && Step8(189) == 0x0D3D3E1A && Step8(190) == 0x1E6DCDEE && Step8(191) == 0xEC064EED;
  }

  lemma RowCIsRight()
    ensures RowAt(12)
  {
    assert Step8(192) == 0xC38D26C4 && Step8(193) == 0x31E6A5C7 && Step8(194) == 0x22B65633 && Step8(195) == 0xD0DDD530;
    assert Step8(196) == 0x0417B1DB && Step8(197) == 0xF67C32D8 && Step8(198) == 0xE52CC12C && Step8(199) == 0x1747422F;
    assert Step8(200) == 0x49547E0B && Step8(201) == 0xBB3FFD08 && Step8(202) == 0xA86F0EFC && Step8(203) == 0x5A048DFF;
    assert Step8(204) == 0x8ECEE914 && Step8(205) == 0x7CA56A17 && Step8(206) == 0x6FF599E3 && Step8(207) == 0x9D9E1AE0;
  }

  lemma RowDIsRight()
    ensures RowAt(13)
  {
    assert Step8(208) == 0xD3D3E1AB && Step8(209) == 0x21B862A8 && Step8(210) == 0x32E8915C && Step8(211) == 0xC083125F;
    assert Step8(212) == 0x144976B4 && Step8(213) == 0xE622F5B7 && Step8(214) == 0xF5720643 && Step8(215) == 0x07198540;
    assert Step8(216) == 0x590AB964 && Step8(217) == 0xAB613A67 && Step8(218) == 0xB831C993 && Step8(219) == 0x4A5A4A90;
    assert Step8(220) == 0x9E902E7B && Step8(221) == 0x6CFBAD78 && Step8(222) == 0x7FAB5E8C && Step8(223) == 0x8DC0DD8F;
  }

  lemma RowEIsRight()
    ensures RowAt(14)
  {
    assert Step8(224) == 0xE330A81A && Step8(225) == 0x115B2B19 && Step8(226) == 0x020BD8ED && Step8(227) == 0xF0605BEE;
    assert Step8(228) == 0x24AA3F05 && Step8(229) == 0xD6C1BC06 && Step8(230) == 0xC5914FF2 && Step8(231) == 0x37FACCF1;
    assert Step8(232) == 0x69E9F0D5 && Step8(233) == 0x9B8273D6 && Step8(234) == 0x88D28022 && Step8(235) == 0x7AB90321;
    assert Step8(236) == 0xAE7367CA && Step8(237) == 0x5C18E4C9 && Step8(238) == 0x4F48173D && Step8(239) == 0xBD23943E;
  }

  lemma RowFIsRight()
    ensures RowAt(15)
  {
    assert Step8(240) == 0xF36E6F75 && Step8(241) == 0x0105EC76 && Step8(242) == 0x12551F82 && Step8(243) == 0xE03E9C81;
    assert Step8(244) == 0x34F4F86A && Step8(245) == 0xC69F7B69 && Step8(246) == 0xD5CF889D && Step8(247) == 0x27A40B9E;
    assert Step8(248) == 0x79B737BA && Step8(249) == 0x8BDCB4B9 && Step8(250) == 0x988C474D && Step8(251) == 0x6AE7C44E;
    assert Step8(252) == 0xBE2DA0A5 && Step8(253) == 0x4C4623A6 && Step8(254) == 0x5F16D052 && Step8(255) == 0xAD7D5351;
  }

  lemma RowsAreRight(r: bv8)
    requires r < 16
    ensures RowAt(r)
  {
    hide RowAt;
    if
    case r == 0 => Row0IsRight();
    case r == 1 => Row1IsRight();
    case r == 2 => Row2IsRight();
    case r == 3 => Row3IsRight();
    case r == 4 => Row4IsRight();
    case r == 5 => Row5IsRight();
    case r == 6 => Row6IsRight();
    case r == 7 => Row7IsRight();
    case r == 8 => Row8IsRight();
    case r == 9 => Row9IsRight();
    case r == 10 => RowAIsRight();
    case r == 11 => RowBIsRight();
    case r == 12 => RowCIsRight();
    case r == 13 => RowDIsRight();
    case r == 14 => RowEIsRight();
    case r == 15 => RowFIsRight();
  }

  lemma RowsAreSixteen()
    ensures forall row <- Rows() :: |row| == 16
  {}

  lemma SplitIndex(i: bv8)
    ensures i >> 4 < 16 && i & 15 < 16
    ensures i as int == 16 * ((i >> 4) as int) + (i & 15) as int
    ensures i == ((i >> 4) << 4) + (i & 15)
  {}

  /** Every one of the 256 table entries is eight bit-steps of its index. */
  lemma TableIsRight(i: bv8)
    ensures |Table()| == 256
    ensures Table()[i as int] == Entry(i)
  {
    hide Rows, RowFrom, Entry;
    SplitIndex(i);
    RowsAreSixteen();
    RowsAreRight(i >> 4);
    RowEntry(Rows()[(i >> 4) as int], (i >> 4) << 4, i & 15);
    FlattenAt(Rows(), (i >> 4) as int, (i & 15) as int);
  }

  // ----- a byte at a time -----

  lemma DoubleEightTimes(x: bv32)
    requires x & 0xFF == 0
    ensures Double(Double(Double(Double(Double(Double(Double(Double(x >> 8)))))))) == x
  {}

  lemma DoubleStays(w: bv32, bound: bv32)
    requires w < bound && bound <= 0x4000_0000
    ensures Double(w) < bound << 1 <= 0x8000_0000
    ensures BitStep(Double(w)) == w
  {}

  lemma DoubleStepsBackAtTop(w: bv32)
    requires w < 0x8000_0000
    ensures BitStep(Double(w)) == w
  {}

  lemma StepsOfHigh(x: bv32)
    requires x & 0xFF == 0
    ensures Step8(x) == Shift(x)
  {
    DoubleEightTimes(x);
    var w := x >> 8;
    assert w < 0x100_0000;
    hide BitStep, Double;
    DoubleStays(w, 0x100_0000); w := Double(w);
    DoubleStays(w, 0x200_0000); w := Double(w);
    DoubleStays(w, 0x400_0000); w := Double(w);
    DoubleStays(w, 0x800_0000); w := Double(w);
    DoubleStays(w, 0x1000_0000); w := Double(w);
    DoubleStays(w, 0x2000_0000); w := Double(w);
    DoubleStays(w, 0x4000_0000); w := Double(w);
    DoubleStepsBackAtTop(w);
    assert Double(w) == x;
  }

  lemma Step8IsLinear(x: bv32, y: bv32)
    ensures Step8(Sum(x, y)) == Sum(Step8(x), Step8(y))
  {
    hide BitStep, Sum;
    var a, b := x, y;
    StepIsLinear(a, b); a, b := BitStep(a), BitStep(b);
    StepIsLinear(a, b); a, b := BitStep(a), BitStep(b);
    StepIsLinear(a, b); a, b := BitStep(a), BitStep(b);
    StepIsLinear(a, b); a, b := BitStep(a), BitStep(b);
    StepIsLinear(a, b); a, b := BitStep(a), BitStep(b);
    StepIsLinear(a, b); a, b := BitStep(a), BitStep(b);
    StepIsLinear(a, b); a, b := BitStep(a), BitStep(b);
    StepIsLinear(a, b);
  }

  lemma FeedZeroBit(r: bv32, n: nat)
    requires n > 0
    ensures Feed(r, Zeros(n)) == Feed(BitStep(r), Zeros(n - 1))
  {
    hide BitStep;
    assert Zeros(n)[1..] == Zeros(n - 1);
    SumZero(r);
  }

  lemma FeedEightZeros(r: bv32)
    ensures Feed(r, Zeros(8)) == Step8(r)
  {
    hide BitStep;
    var a := r;
    FeedZeroBit(a, 8); a := BitStep(a);
    FeedZeroBit(a, 7); a := BitStep(a);
    FeedZeroBit(a, 6); a := BitStep(a);
    FeedZeroBit(a, 5); a := BitStep(a);
    FeedZeroBit(a, 4); a := BitStep(a);
    FeedZeroBit(a, 3); a := BitStep(a);
    FeedZeroBit(a, 2); a := BitStep(a);
    FeedZeroBit(a, 1);
  }

  function Low(x: bv32): bv8 {
    (x & 0xFF) as bv8
  }

  function High(x: bv32): bv32 {
    x & 0xFFFF_FF00
  }

  function Shift(r: bv32): bv32 {
    r >> 8
  }

  function Lookup(i: bv8): (entry: bv32)
    ensures entry == Step8(Widen(i))
  {
    TableIsRight(i);
    Table()[i as int]
  }

  /** Folds one message byte into the register: crc >> 8 ^ table[(crc ^ byte) & 0xFF]. */
  function Update(r: bv32, b: bv8): bv32 {
    Sum(Shift(r), Lookup(Low(Sum(r, Widen(b)))))
  }

  lemma SplitRegister(x: bv32)
    ensures x == Sum(High(x), Widen(Low(x)))
  {}

  lemma HighPart(x: bv32)
    ensures High(x) & 0xFF == 0 && Shift(High(x)) == Shift(x)
  {}

  lemma ShiftDropsByte(r: bv32, b: bv8)
    ensures Shift(Sum(r, Widen(b))) == Shift(r)
  {}

  /** One table lookup does the work of eight one-bit steps. */
  lemma UpdateFeedsByte(r: bv32, b: bv8)
    ensures Update(r, b) == Feed(r, Bits(b))
  {
    var x := Sum(r, Widen(b));
    SplitRegister(x);
    HighPart(x);
    ShiftDropsByte(r, b);
    StepsOfHigh(High(x));
    hide Feed, Word, Bits, Low, Sum, Step8, High, Widen, Shift, Lookup;
    WordOfByte(b);
    FeedIsAdd(r, Bits(b));
    FeedEightZeros(x);
    Step8IsLinear(High(x), Widen(Low(x)));
  }

  /** Feeding one more byte to the register of a prefix. */
  lemma FeedNextByte(bytes: seq<bv8>, i: nat)
    requires i < |bytes|
    ensures Feed(ALL_ONES, AllBits(bytes[..i + 1])) == Update(Feed(ALL_ONES, AllBits(bytes[..i])), bytes[i])
  {
    hide Feed, Bits, Update;
    assert bytes[..i + 1] == bytes[..i] + [bytes[i]];
    AllBitsAppend(bytes[..i], [bytes[i]]);
    assert AllBits([bytes[i]]) == Bits(bytes[i]) + AllBits([]) == Bits(bytes[i]);
    FeedAppend(ALL_ONES, AllBits(bytes[..i]), Bits(bytes[i]));
    UpdateFeedsByte(Feed(ALL_ONES, AllBits(bytes[..i])), bytes[i]);
  }

  lemma EmptyPrefix(bytes: seq<bv8>)
    ensures Feed(ALL_ONES, AllBits(bytes[..0])) == ALL_ONES
  {}

  /** The register after one more byte, from the one before it. */
  lemma NextRegister(bytes: seq<bv8>, i: nat, r: bv32, next: bv32)
    requires i < |bytes| && Feed(ALL_ONES, AllBits(bytes[..i])) == r
    requires next == Sum(Shift(r), Step8(Widen(Low(Sum(r, Widen(bytes[i]))))))
    ensures Feed(ALL_ONES, AllBits(bytes[..i + 1])) == next
  {
    FeedNextByte(bytes, i);
    hide Feed, AllBits, Step8, Sum, Shift, Widen, Low;
  }

  /** The published check value: the checksum of the nine digits of ASCII. */
  lemma CheckValue()
    ensures Crc([0x31, 0x32, 0x33, 0x34, 0x35, 0x36, 0x37, 0x38, 0x39]) == 0xE3069283
  {
    hide Feed, AllBits;
    var bytes: seq<bv8> := [0x31, 0x32, 0x33, 0x34, 0x35, 0x36, 0x37, 0x38, 0x39];
    EmptyPrefix(bytes);
    NextRegister(bytes, 0, 0xFFFFFFFF, 0x6F0A661C);
    NextRegister(bytes, 1, 0x6F0A661C, 0x8CAA3B9F);
    NextRegister(bytes, 2, 0x8CAA3B9F, 0xEF84D04D);
    NextRegister(bytes, 3, 0xEF84D04D, 0x09C50B11);
    NextRegister(bytes, 4, 0x09C50B11, 0xE72EDCCA);
    NextRegister(bytes, 5, 0xE72EDCCA, 0xBECA8E79);
    NextRegister(bytes, 6, 0xBECA8E79, 0xEDBD6815);
    NextRegister(bytes, 7, 0xEDBD6815, 0x9F787F65);
    NextRegister(bytes, 8, 0x9F787F65, 0x1CF96D7C);
    assert bytes[..9] == bytes;
  }

  /** The storage checksum: four table lookups a round, then the trailing bytes. */
  method Compute(bytes: seq<bv8>) returns (crc: bv32)
    ensures crc == Crc(bytes)
  {
    hide Feed, AllBits, Update;
    crc := 0x00000000;
    if |bytes| == 0 {
      assert Crc(bytes) == 0 by { EmptyPrefix(bytes); }
      return;
    }
    crc := 0xFFFFFFFF;
    var position: nat, length: nat := 0, |bytes|;
    EmptyPrefix(bytes);
    while length >= 4
      invariant position + length == |bytes|
      invariant crc == Feed(ALL_ONES, AllBits(bytes[..position]))
    {
      FeedNextByte(bytes, position);
      crc := Update(crc, bytes[position]);
      FeedNextByte(bytes, position + 1);
      crc := Update(crc, bytes[position + 1]);
      FeedNextByte(bytes, position + 2);
      crc := Update(crc, bytes[position + 2]);
      FeedNextByte(bytes, position + 3);
      crc := Update(crc, bytes[position + 3]);
      position := position + 4;
      length := length - 4;
    }
    while length > 0
      invariant position + length == |bytes|
      invariant crc == Feed(ALL_ONES, AllBits(bytes[..position]))
    {
      FeedNextByte(bytes, position);
      crc := Update(crc, bytes[position]);
      position := position + 1;
      length := length - 1;
    }
    assert bytes[..position] == bytes;
    crc := crc ^ 0xFFFFFFFF;
  }
}
