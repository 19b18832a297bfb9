/** `st_crc32_checksum`: the table-driven CRC-32 loop, the bitwise definition it computes
    (section 8 of RFC 1952), and the errors it is certain to detect. */
module Crc32 {
  import opened Bytes

  /** `st_crc32_tab`, sixteen entries to a row. */
  function Tab(i: bv8): bv32 {
    match i >> 4
    case 0 => Row0(i & 15)
    case 1 => Row1(i & 15)
    case 2 => Row2(i & 15)
    case 3 => Row3(i & 15)
    case 4 => Row4(i & 15)
    case 5 => Row5(i & 15)
    case 6 => Row6(i & 15)
    case 7 => Row7(i & 15)
    case 8 => Row8(i & 15)
    case 9 => Row9(i & 15)
    case 10 => Row10(i & 15)
    case 11 => Row11(i & 15)
    case 12 => Row12(i & 15)
    case 13 => Row13(i & 15)
    case 14 => Row14(i & 15)
    case 15 => Row15(i & 15)
    case _ => 0
  }

  function Row0(j: bv8): bv32 {
    match j
    case 0 => 0x00000000 case 1 => 0x77073096 case 2 => 0xee0e612c case 3 => 0x990951ba
    case 4 => 0x076dc419 case 5 => 0x706af48f case 6 => 0xe963a535 case 7 => 0x9e6495a3
    case 8 => 0x0edb8832 case 9 => 0x79dcb8a4 case 10 => 0xe0d5e91e case 11 => 0x97d2d988
    case 12 => 0x09b64c2b case 13 => 0x7eb17cbd case 14 => 0xe7b82d07 case 15 => 0x90bf1d91
    case _ => 0
  }

  function Row1(j: bv8): bv32 {
    match j
    case 0 => 0x1db71064 case 1 => 0x6ab020f2 case 2 => 0xf3b97148 case 3 => 0x84be41de
    case 4 => 0x1adad47d case 5 => 0x6ddde4eb case 6 => 0xf4d4b551 case 7 => 0x83d385c7
    case 8 => 0x136c9856 case 9 => 0x646ba8c0 case 10 => 0xfd62f97a case 11 => 0x8a65c9ec
    case 12 => 0x14015c4f case 13 => 0x63066cd9 case 14 => 0xfa0f3d63 case 15 => 0x8d080df5
    case _ => 0
  }

  function Row2(j: bv8): bv32 {
    match j
    case 0 => 0x3b6e20c8 case 1 => 0x4c69105e case 2 => 0xd56041e4 case 3 => 0xa2677172
    case 4 => 0x3c03e4d1 case 5 => 0x4b04d447 case 6 => 0xd20d85fd case 7 => 0xa50ab56b
    case 8 => 0x35b5a8fa case 9 => 0x42b2986c case 10 => 0xdbbbc9d6 case 11 => 0xacbcf940
    case 12 => 0x32d86ce3 case 13 => 0x45df5c75 case 14 => 0xdcd60dcf case 15 => 0xabd13d59
    case _ => 0
  }

  function Row3(j: bv8): bv32 {
    match j
    case 0 => 0x26d930ac case 1 => 0x51de003a case 2 => 0xc8d75180 case 3 => 0xbfd06116
    case 4 => 0x21b4f4b5 case 5 => 0x56b3c423 case 6 => 0xcfba9599 case 7 => 0xb8bda50f
    case 8 => 0x2802b89e case 9 => 0x5f058808 case 10 => 0xc60cd9b2 case 11 => 0xb10be924
    case 12 => 0x2f6f7c87 case 13 => 0x58684c11 case 14 => 0xc1611dab case 15 => 0xb6662d3d
    case _ => 0
  }

  function Row4(j: bv8): bv32 {
    match j
    case 0 => 0x76dc4190 case 1 => 0x01db7106 case 2 => 0x98d220bc case 3 => 0xefd5102a
    case 4 => 0x71b18589 case 5 => 0x06b6b51f case 6 => 0x9fbfe4a5 case 7 => 0xe8b8d433
    case 8 => 0x7807c9a2 case 9 => 0x0f00f934 case 10 => 0x9609a88e case 11 => 0xe10e9818
    case 12 => 0x7f6a0dbb case 13 => 0x086d3d2d case 14 => 0x91646c97 case 15 => 0xe6635c01
    case _ => 0
  }

  function Row5(j: bv8): bv32 {
    match j
    case 0 => 0x6b6b51f4 case 1 => 0x1c6c6162 case 2 => 0x856530d8 case 3 => 0xf262004e
    case 4 => 0x6c0695ed case 5 => 0x1b01a57b case 6 => 0x8208f4c1 case 7 => 0xf50fc457
    case 8 => 0x65b0d9c6 case 9 => 0x12b7e950 case 10 => 0x8bbeb8ea case 11 => 0xfcb9887c
    case 12 => 0x62dd1ddf case 13 => 0x15da2d49 case 14 => 0x8cd37cf3 case 15 => 0xfbd44c65
    case _ => 0
  }

  function Row6(j: bv8): bv32 {
    match j
    case 0 => 0x4db26158 case 1 => 0x3ab551ce case 2 => 0xa3bc0074 case 3 => 0xd4bb30e2
    case 4 => 0x4adfa541 case 5 => 0x3dd895d7 case 6 => 0xa4d1c46d case 7 => 0xd3d6f4fb
    case 8 => 0x4369e96a case 9 => 0x346ed9fc case 10 => 0xad678846 case 11 => 0xda60b8d0
    case 12 => 0x44042d73 case 13 => 0x33031de5 case 14 => 0xaa0a4c5f case 15 => 0xdd0d7cc9
    case _ => 0
  }

  function Row7(j: bv8): bv32 {
    match j
    case 0 => 0x5005713c case 1 => 0x270241aa case 2 => 0xbe0b1010 case 3 => 0xc90c2086
    case 4 => 0x5768b525 case 5 => 0x206f85b3 case 6 => 0xb966d409 case 7 => 0xce61e49f
    case 8 => 0x5edef90e case 9 => 0x29d9c998 case 10 => 0xb0d09822 case 11 => 0xc7d7a8b4
    case 12 => 0x59b33d17 case 13 => 0x2eb40d81 case 14 => 0xb7bd5c3b case 15 => 0xc0ba6cad
    case _ => 0
  }

  function Row8(j: bv8): bv32 {
    match j
    case 0 => 0xedb88320 case 1 => 0x9abfb3b6 case 2 => 0x03b6e20c case 3 => 0x74b1d29a
    case 4 => 0xead54739 case 5 => 0x9dd277af case 6 => 0x04db2615 case 7 => 0x73dc1683
    case 8 => 0xe3630b12 case 9 => 0x94643b84 case 10 => 0x0d6d6a3e case 11 => 0x7a6a5aa8
    case 12 => 0xe40ecf0b case 13 => 0x9309ff9d case 14 => 0x0a00ae27 case 15 => 0x7d079eb1
    case _ => 0
  }

  function Row9(j: bv8): bv32 {
    match j
    case 0 => 0xf00f9344 case 1 => 0x8708a3d2 case 2 => 0x1e01f268 case 3 => 0x6906c2fe
    case 4 => 0xf762575d case 5 => 0x806567cb case 6 => 0x196c3671 case 7 => 0x6e6b06e7
    case 8 => 0xfed41b76 case 9 => 0x89d32be0 case 10 => 0x10da7a5a case 11 => 0x67dd4acc
    case 12 => 0xf9b9df6f case 13 => 0x8ebeeff9 case 14 => 0x17b7be43 case 15 => 0x60b08ed5
    case _ => 0
  }

  function Row10(j: bv8): bv32 {
    match j
    case 0 => 0xd6d6a3e8 case 1 => 0xa1d1937e case 2 => 0x38d8c2c4 case 3 => 0x4fdff252
    case 4 => 0xd1bb67f1 case 5 => 0xa6bc5767 case 6 => 0x3fb506dd case 7 => 0x48b2364b
    case 8 => 0xd80d2bda case 9 => 0xaf0a1b4c case 10 => 0x36034af6 case 11 => 0x41047a60
    case 12 => 0xdf60efc3 case 13 => 0xa867df55 case 14 => 0x316e8eef case 15 => 0x4669be79
    case _ => 0
  }

  function Row11(j: bv8): bv32 {
    match j
    case 0 => 0xcb61b38c case 1 => 0xbc66831a case 2 => 0x256fd2a0 case 3 => 0x5268e236
    case 4 => 0xcc0c7795 case 5 => 0xbb0b4703 case 6 => 0x220216b9 case 7 => 0x5505262f
    case 8 => 0xc5ba3bbe case 9 => 0xb2bd0b28 case 10 => 0x2bb45a92 case 11 => 0x5cb36a04
    case 12 => 0xc2d7ffa7 case 13 => 0xb5d0cf31 case 14 => 0x2cd99e8b case 15 => 0x5bdeae1d
    case _ => 0
  }

  function Row12(j: bv8): bv32 {
    match j
    case 0 => 0x9b64c2b0 case 1 => 0xec63f226 case 2 => 0x756aa39c case 3 => 0x026d930a
    case 4 => 0x9c0906a9 case 5 => 0xeb0e363f case 6 => 0x72076785 case 7 => 0x05005713
    case 8 => 0x95bf4a82 case 9 => 0xe2b87a14 case 10 => 0x7bb12bae case 11 => 0x0cb61b38
    case 12 => 0x92d28e9b case 13 => 0xe5d5be0d case 14 => 0x7cdcefb7 case 15 => 0x0bdbdf21
    case _ => 0
  }

  function Row13(j: bv8): bv32 {
    match j
    case 0 => 0x86d3d2d4 case 1 => 0xf1d4e242 case 2 => 0x68ddb3f8 case 3 => 0x1fda836e
    case 4 => 0x81be16cd case 5 => 0xf6b9265b case 6 => 0x6fb077e1 case 7 => 0x18b74777
    case 8 => 0x88085ae6 case 9 => 0xff0f6a70 case 10 => 0x66063bca case 11 => 0x11010b5c
    case 12 => 0x8f659eff case 13 => 0xf862ae69 case 14 => 0x616bffd3 case 15 => 0x166ccf45
    case _ => 0
  }

  function Row14(j: bv8): bv32 {
    match j
    case 0 => 0xa00ae278 case 1 => 0xd70dd2ee case 2 => 0x4e048354 case 3 => 0x3903b3c2
    case 4 => 0xa7672661 case 5 => 0xd06016f7 case 6 => 0x4969474d case 7 => 0x3e6e77db
    case 8 => 0xaed16a4a case 9 => 0xd9d65adc case 10 => 0x40df0b66 case 11 => 0x37d83bf0
    case 12 => 0xa9bcae53 case 13 => 0xdebb9ec5 case 14 => 0x47b2cf7f case 15 => 0x30b5ffe9
    case _ => 0
  }

  function Row15(j: bv8): bv32 {
    match j
    case 0 => 0xbdbdf21c case 1 => 0xcabac28a case 2 => 0x53b39330 case 3 => 0x24b4a3a6
    case 4 => 0xbad03605 case 5 => 0xcdd70693 case 6 => 0x54de5729 case 7 => 0x23d967bf
    case 8 => 0xb3667a2e case 9 => 0xc4614ab8 case 10 => 0x5d681b02 case 11 => 0x2a6f2b94
    case 12 => 0xb40bbe37 case 13 => 0xc30c8ea1 case 14 => 0x5a05df1b case 15 => 0x2d02ef8d
    case _ => 0
  }

  /** One reflected shift/xor step. */
  function BitStep(x: bv32): bv32 {
    if x & 1 == 1 then (x >> 1) ^ 0xedb88320 else x >> 1
  }

  function FourSteps(x: bv32): bv32 { BitStep(BitStep(BitStep(BitStep(x)))) }

  function EightSteps(x: bv32): bv32 { FourSteps(FourSteps(x)) }

  lemma SixteenCases(j: bv8)
    requires j < 16
    ensures j == 0 || j == 1 || j == 2 || j == 3 || j == 4 || j == 5 || j == 6 || j == 7
         || j == 8 || j == 9 || j == 10 || j == 11 || j == 12 || j == 13 || j == 14 || j == 15
  {
  }

  // Each row of the table, by evaluating eight steps on each of its sixteen indices.

  lemma Row0Correct(j: bv8)
    requires j < 16
    ensures Row0(j) == EightSteps(0x00 | j as bv32)
  {
    SixteenCases(j);
    assert EightSteps(0) == Row0(0);
  }

  lemma Row1Correct(j: bv8)
    requires j < 16
    ensures Row1(j) == EightSteps(0x10 | j as bv32)
  {
    SixteenCases(j);
  }

  lemma Row2Correct(j: bv8)
    requires j < 16
    ensures Row2(j) == EightSteps(0x20 | j as bv32)
  {
    SixteenCases(j);
  }

  lemma Row3Correct(j: bv8)
    requires j < 16
    ensures Row3(j) == EightSteps(0x30 | j as bv32)
  {
    SixteenCases(j);
  }

  lemma Row4Correct(j: bv8)
    requires j < 16
    ensures Row4(j) == EightSteps(0x40 | j as bv32)
  {
    SixteenCases(j);
  }

  lemma Row5Correct(j: bv8)
    requires j < 16
    ensures Row5(j) == EightSteps(0x50 | j as bv32)
  {
    SixteenCases(j);
  }

  lemma Row6Correct(j: bv8)
    requires j < 16
    ensures Row6(j) == EightSteps(0x60 | j as bv32)
  {
    SixteenCases(j);
  }

  lemma Row7Correct(j: bv8)
    requires j < 16
    ensures Row7(j) == EightSteps(0x70 | j as bv32)
  {
    SixteenCases(j);
  }

  lemma Row8Correct(j: bv8)
    requires j < 16
    ensures Row8(j) == EightSteps(0x80 | j as bv32)
  {
    SixteenCases(j);
  }

  lemma Row9Correct(j: bv8)
    requires j < 16
    ensures Row9(j) == EightSteps(0x90 | j as bv32)
  {
    SixteenCases(j);
  }

  lemma Row10Correct(j: bv8)
    requires j < 16
    ensures Row10(j) == EightSteps(0xa0 | j as bv32)
  {
    SixteenCases(j);
  }

  lemma Row11Correct(j: bv8)
    requires j < 16
    ensures Row11(j) == EightSteps(0xb0 | j as bv32)
  {
    SixteenCases(j);
  }

  lemma Row12Correct(j: bv8)
    requires j < 16
    ensures Row12(j) == EightSteps(0xc0 | j as bv32)
  {
    SixteenCases(j);
  }

  lemma Row13Correct(j: bv8)
    requires j < 16
    ensures Row13(j) == EightSteps(0xd0 | j as bv32)
  {
    SixteenCases(j);
  }

  lemma Row14Correct(j: bv8)
    requires j < 16
    ensures Row14(j) == EightSteps(0xe0 | j as bv32)
  {
    SixteenCases(j);
  }

  lemma Row15Correct(j: bv8)
    requires j < 16
    ensures Row15(j) == EightSteps(0xf0 | j as bv32)
  {
    SixteenCases(j);
  }

  /** Every entry of the table is eight bit steps of its index. */
  lemma TableCorrect(i: bv8)
    ensures Tab(i) == EightSteps(i as bv32)
  {
    hide EightSteps;
    var r, j := i >> 4, i & 15;
    assert j < 16 && r < 16 && i as bv32 == (r as bv32 << 4) | j as bv32;
    SixteenCases(r);
    match r
    case 0 => Row0Correct(j);
    case 1 => Row1Correct(j);
    case 2 => Row2Correct(j);
    case 3 => Row3Correct(j);
    case 4 => Row4Correct(j);
    case 5 => Row5Correct(j);
    case 6 => Row6Correct(j);
    case 7 => Row7Correct(j);
    case 8 => Row8Correct(j);
    case 9 => Row9Correct(j);
    case 10 => Row10Correct(j);
    case 11 => Row11Correct(j);
    case 12 => Row12Correct(j);
    case 13 => Row13Correct(j);
    case 14 => Row14Correct(j);
    case 15 => Row15Correct(j);
    case _ =>
  }

  // ---- linearity ---------------------------------------------------------------------

  lemma XorFacts(x: bv32, y: bv32)
    ensures (x ^ y) >> 1 == (x >> 1) ^ (y >> 1)
    ensures (x ^ y) & 1 == (x & 1) ^ (y & 1)
    ensures x & 1 == 0 || x & 1 == 1
  {
  }

  lemma XorGroup(a: bv32, b: bv32, p: bv32)
    ensures (a ^ b) ^ p == (a ^ p) ^ b == a ^ (b ^ p)
    ensures (a ^ p) ^ (b ^ p) == a ^ b
  {
  }

  function Xor(a: bv32, b: bv32): bv32 { a ^ b }

  lemma BitStepLinear(x: bv32, y: bv32)
    ensures BitStep(Xor(x, y)) == Xor(BitStep(x), BitStep(y))
  {
    XorFacts(x, y);
    XorFacts(y, x);
    XorGroup(x >> 1, y >> 1, 0xedb88320);
  }

  lemma FourStepsLinear(x: bv32, y: bv32)
    ensures FourSteps(Xor(x, y)) == Xor(FourSteps(x), FourSteps(y))
  {
    hide BitStep, Xor;
    var x1, y1 := BitStep(x), BitStep(y);
    var x2, y2 := BitStep(x1), BitStep(y1);
    var x3, y3 := BitStep(x2), BitStep(y2);
    BitStepLinear(x, y);
    BitStepLinear(x1, y1);
    BitStepLinear(x2, y2);
    BitStepLinear(x3, y3);
  }

  lemma EightStepsLinear(x: bv32, y: bv32)
    ensures EightSteps(Xor(x, y)) == Xor(EightSteps(x), EightSteps(y))
  {
    hide FourSteps, Xor;
    FourStepsLinear(x, y);
    FourStepsLinear(FourSteps(x), FourSteps(y));
  }

  // ---- the checksum ------------------------------------------------------------------

  /** The register after a message, eight steps per byte. */
  function Register(c: bv32, data: seq<bv8>): bv32
    decreases |data|
  {
    if data == [] then c else Register(EightSteps(Xor(c, data[0] as bv32)), data[1..])
  }

  /** CRC-32 as defined bitwise. */
  function Crc(data: seq<bv8>): bv32 { Xor(Register(0xffff_ffff, data), 0xffff_ffff) }

  lemma Feed(c: bv32, x: bv8, rest: seq<bv8>, next: bv32)
    requires next == EightSteps(Xor(c, x as bv32))
    ensures Register(c, [x] + rest) == Register(next, rest)
  {
    assert ([x] + rest)[1..] == rest;
  }

  lemma FeedThree(c: bv32, x: bv8, y: bv8, z: bv8, rest: seq<bv8>, c1: bv32, c2: bv32, c3: bv32)
    requires c1 == EightSteps(Xor(c, x as bv32)) && c2 == EightSteps(Xor(c1, y as bv32)) && c3 == EightSteps(Xor(c2, z as bv32))
    ensures Register(c, [x, y, z] + rest) == Register(c3, rest)
  {
    hide EightSteps, Register, Xor;
    Feed(c, x, [y, z] + rest, c1);
    Feed(c1, y, [z] + rest, c2);
    Feed(c2, z, rest, c3);
    assert [x, y, z] + rest == [x] + ([y, z] + rest) && [y, z] + rest == [y] + ([z] + rest);
  }

  lemma Digits1(rest: seq<bv8>)
    ensures Register(0xffff_ffff, [0x31, 0x32, 0x33] + rest) == Register(0x77b7_9c2d, rest)
  {
    hide Register;
    FeedThree(0xffff_ffff, 0x31, 0x32, 0x33, rest, 0x7c23_1048, 0xb0ac_bb32, 0x77b7_9c2d);
  }

  lemma Digits4(rest: seq<bv8>)
    ensures Register(0x77b7_9c2d, [0x34, 0x35, 0x36] + rest) == Register(0xf68d_2c9e, rest)
  {
    hide Register;
    FeedThree(0x77b7_9c2d, 0x34, 0x35, 0x36, rest, 0x641c_1f5c, 0x340a_c5e3, 0xf68d_2c9e);
  }

  lemma Digits7(rest: seq<bv8>)
    ensures Register(0xf68d_2c9e, [0x37, 0x38, 0x39] + rest) == Register(0x340b_c6d9, rest)
  {
    hide Register;
    FeedThree(0xf68d_2c9e, 0x37, 0x38, 0x39, rest, 0xaffc_9660, 0x651f_2550, 0x340b_c6d9);
  }

  /** The check value of CRC-32, the checksum of the digits from 1 to 9; and that of nothing. */
  lemma CheckValue()
    ensures Crc([0x31, 0x32, 0x33] + ([0x34, 0x35, 0x36] + ([0x37, 0x38, 0x39] + []))) == 0xcbf4_3926
    ensures Crc([]) == 0
  {
    Digits1([0x34, 0x35, 0x36] + ([0x37, 0x38, 0x39] + []));
    Digits4([0x37, 0x38, 0x39] + []);
    Digits7([]);
    assert Register(0x340b_c6d9, []) == 0x340b_c6d9 && Register(0xffff_ffff, []) == 0xffff_ffff;
    hide Register;
  }

  /** The loop body of `st_crc32_checksum`. */
  function Lookup(c: bv32, d: bv8): bv32 {
    Xor(c >> 8, Tab((Xor(c, d as bv32) & 0xff) as bv8))
  }

  lemma CleanByte(z: bv32)
    ensures EightSteps(z & 0xffff_ff00) == z >> 8
    ensures Xor(z & 0xffff_ff00, z & 0xff) == z
    ensures (z & 0xff) as bv8 as bv32 == z & 0xff
  {
  }

  lemma HighBytes(c: bv32, d: bv8)
    ensures Xor(c, d as bv32) >> 8 == c >> 8
  {
  }

  /** The register and the byte, split at the byte the table is indexed with. */
  lemma SplitByte(c: bv32, d: bv8) returns (high: bv32, low: bv32, i: bv8)
    ensures Xor(high, low) == Xor(c, d as bv32)
    ensures EightSteps(high) == c >> 8 && low == i as bv32
    ensures Lookup(c, d) == Xor(c >> 8, Tab(i))
  {
    hide Tab, EightSteps, Xor;
    var z := Xor(c, d as bv32);
    CleanByte(z);
    HighBytes(c, d);
    high, low, i := z & 0xffff_ff00, z & 0xff, (z & 0xff) as bv8;
  }

  /** One lookup does what eight bit steps do. */
  lemma LookupIsEightSteps(c: bv32, d: bv8)
    ensures Lookup(c, d) == EightSteps(Xor(c, d as bv32))
  {
    var high, low, i := SplitByte(c, d);
    hide Tab, EightSteps, Xor, Lookup;
    TableCorrect(i);
    EightStepsLinear(high, low);
  }

  lemma XorIs(a: bv32, b: bv32)
    ensures Xor(a, b) == a ^ b
  {
  }

  method Checksum(data: array<bv8>, length: nat) returns (crc: bv32)
    requires length <= data.Length
    ensures crc == Crc(data[..length])
  {
    hide Lookup, EightSteps, Xor;
    crc := 0xffff_ffff;
    var i := 0;
    while i < length
      invariant 0 <= i <= length
      invariant Register(crc, data[i..length]) == Register(0xffff_ffff, data[..length])
    {
      LookupIsEightSteps(crc, data[i]);
      assert data[i..length][0] == data[i] && data[i..length][1..] == data[i + 1..length];
      crc := Lookup(crc, data[i]);
      i := i + 1;
    }
    XorIs(crc, 0xffff_ffff);
    crc := crc ^ 0xffff_ffff;
  }

  // ---- bit by bit --------------------------------------------------------------------

  function AsWord(b: bool): bv32 { if b then 1 else 0 }

  /** The register after a stream of bits. */
  function BitRegister(c: bv32, bits: seq<bool>): bv32
    decreases |bits|
  {
    if bits == [] then c else BitRegister(BitStep(Xor(c, AsWord(bits[0]))), bits[1..])
  }

  /** The lowest `n` bits of a word, in the order they are processed. */
  function Bits(d: bv32, n: nat): (bits: seq<bool>)
    ensures |bits| == n
  {
    if n == 0 then [] else [d & 1 == 1] + Bits(d >> 1, n - 1)
  }

  function AllBits(data: seq<bv8>): (bits: seq<bool>)
    ensures |bits| == 8 * |data|
  {
    if data == [] then [] else Bits(data[0] as bv32, 8) + AllBits(data[1..])
  }

  lemma {:induction false} BitRegisterAppend(c: bv32, a: seq<bool>, b: seq<bool>)
    ensures BitRegister(c, a + b) == BitRegister(BitRegister(c, a), b)
    decreases |a|
  {
    hide BitStep, Xor, AsWord;
    if a == [] {
      assert a + b == b;
    } else {
      assert (a + b)[0] == a[0] && (a + b)[1..] == a[1..] + b;
      BitRegisterAppend(BitStep(Xor(c, AsWord(a[0]))), a[1..], b);
    }
  }

  lemma SplitLowBit(d: bv32)
    ensures Xor(d & 1, d & 0xffff_fffe) == d
    ensures BitStep(d & 0xffff_fffe) == d >> 1
  {
  }

  lemma XorAssoc(x: bv32, a: bv32, b: bv32)
    ensures Xor(x, Xor(a, b)) == Xor(Xor(x, a), b)
  {
  }

  /** Taking in the low bit first leaves the other bits of the byte for the next steps. */
  lemma OneBit(x: bv32, d: bv32)
    ensures BitStep(Xor(x, d)) == Xor(BitStep(Xor(x, d & 1)), d >> 1)
  {
    hide BitStep, Xor;
    SplitLowBit(d);
    XorAssoc(x, d & 1, d & 0xffff_fffe);
    BitStepLinear(Xor(x, d & 1), d & 0xffff_fffe);
  }

  ghost function Steps(x: bv32, n: nat): bv32
    decreases n
  {
     if n == 0 then x else Steps(BitStep(x), n - 1)
  }

  ghost function Shifted(d: bv32, n: nat): bv32
    decreases n
  {
    if n == 0 then d else Shifted(d >> 1, n - 1)
  }

  lemma LowBitIs(d: bv32)
    ensures AsWord(d & 1 == 1) == d & 1
  {
  }

  /** Taking in a word at once or bit by bit; what the steps do not reach is left over. */
  lemma {:induction false} StepsAreBits(x: bv32, d: bv32, n: nat)
    ensures Steps(Xor(x, d), n) == Xor(BitRegister(x, Bits(d, n)), Shifted(d, n))
    decreases n
  {
    if n > 0 {
      hide BitStep, Xor, AsWord;
      OneBit(x, d);
      LowBitIs(d);
      var y := BitStep(Xor(x, d & 1));
      StepsAreBits(y, d >> 1, n - 1);
      assert Bits(d, n)[1..] == Bits(d >> 1, n - 1);
    }
  }

  lemma FourAtOnce(x: bv32, d: bv32, n: nat)
    ensures Steps(x, n + 4) == Steps(FourSteps(x), n)
    ensures Shifted(d, n + 4) == Shifted(d >> 4, n)
  {
    hide BitStep;
    assert Steps(x, n + 4) == Steps(BitStep(BitStep(x)), n + 2);
    assert Shifted(d, n + 4) == Shifted(d >> 1 >> 1, n + 2) == Shifted(d >> 1 >> 1 >> 1 >> 1, n);
  }

  lemma {:induction false} RegisterIsBitRegister(c: bv32, data: seq<bv8>)
    ensures Register(c, data) == BitRegister(c, AllBits(data))
    decreases |data|
  {
    if data != [] {
      var d := data[0];
      ByteIsBits(c, d);
      hide EightSteps, Xor, Bits;
      BitRegisterAppend(c, Bits(d as bv32, 8), AllBits(data[1..]));
      RegisterIsBitRegister(EightSteps(Xor(c, d as bv32)), data[1..]);
    }
  }

  lemma EightAtOnce(x: bv32, d: bv8)
    ensures Steps(x, 8) == EightSteps(x) && Shifted(d as bv32, 8) == 0
  {
    hide FourSteps;
    FourAtOnce(x, d as bv32, 4);
    FourAtOnce(FourSteps(x), d as bv32 >> 4, 0);
  }

  lemma XorZero(x: bv32)
    ensures Xor(x, 0) == x && Xor(x, x) == 0
  {
  }

  lemma ByteIsBits(c: bv32, d: bv8)
    ensures EightSteps(Xor(c, d as bv32)) == BitRegister(c, Bits(d as bv32, 8))
  {
    hide EightSteps, Steps, Shifted, Xor, Bits, BitRegister;
    StepsAreBits(c, d as bv32, 8);
    EightAtOnce(Xor(c, d as bv32), d);
    XorZero(BitRegister(c, Bits(d as bv32, 8)));
  }

  // ---- error detection ---------------------------------------------------------------

  /** Where two streams of bits differ. */
  function Diff(a: seq<bool>, b: seq<bool>): (d: seq<bool>)
    requires |a| == |b|
    ensures |d| == |a| && forall k :: 0 <= k < |a| ==> d[k] == (a[k] != b[k])
  {
    seq(|a|, k requires 0 <= k < |a| => a[k] != b[k])
  }

  lemma RawSwap(x: bv32, y: bv32, p: bv32, q: bv32)
    ensures (x ^ p) ^ (y ^ q) == (x ^ y) ^ (p ^ q)
  {
  }

  lemma XorSwap(x: bv32, y: bv32, a: bool, b: bool)
    ensures Xor(Xor(x, AsWord(a)), Xor(y, AsWord(b))) == Xor(Xor(x, y), AsWord(a != b))
  {
    RawSwap(x, y, AsWord(a), AsWord(b));
    assert AsWord(a) ^ AsWord(b) == AsWord(a != b);
  }

  lemma StepDifference(x: bv32, y: bv32, a: bool, b: bool)
    ensures Xor(BitStep(Xor(x, AsWord(a))), BitStep(Xor(y, AsWord(b)))) == BitStep(Xor(Xor(x, y), AsWord(a != b)))
  {
    hide BitStep, Xor, AsWord;
    XorSwap(x, y, a, b);
    BitStepLinear(Xor(x, AsWord(a)), Xor(y, AsWord(b)));
  }

  /** The difference of two registers evolves like a register fed with the difference. */
  lemma {:induction false} DifferenceEvolves(x: bv32, y: bv32, a: seq<bool>, b: seq<bool>)
    requires |a| == |b|
    ensures Xor(BitRegister(x, a), BitRegister(y, b)) == BitRegister(Xor(x, y), Diff(a, b))
    decreases |a|
  {
    hide BitStep, Xor, AsWord;
    if a != [] {
      StepDifference(x, y, a[0], b[0]);
      DifferenceEvolves(BitStep(Xor(x, AsWord(a[0]))), BitStep(Xor(y, AsWord(b[0]))), a[1..], b[1..]);
      assert Diff(a, b)[0] == (a[0] != b[0]) && Diff(a, b)[1..] == Diff(a[1..], b[1..]);
    }
  }

  ghost predicate Clear(bits: seq<bool>) { forall k :: 0 <= k < |bits| ==> !bits[k] }

  lemma ZeroStep(x: bv32)
    ensures BitStep(x) == 0 <==> x == 0
    ensures Xor(x, AsWord(false)) == x
  {
  }

  /** Equal bits neither create nor destroy a difference. */
  lemma {:induction false} ClearBits(x: bv32, bits: seq<bool>)
    requires Clear(bits)
    ensures BitRegister(x, bits) == 0 <==> x == 0
    decreases |bits|
  {
    if bits != [] {
      hide BitStep, Xor, AsWord;
      ZeroStep(x);
      ClearBits(BitStep(x), bits[1..]);
    }
  }

  /** Bits read as a word, the first the lowest. */
  function Word(bits: seq<bool>): bv32
    decreases |bits|
  {
    if bits == [] then 0 else Push(Word(bits[1..]), bits[0])
  }

  function Push(w: bv32, b: bool): bv32 { (w << 1) | AsWord(b) }

  /** The words with only the lowest `n` bits in use. */
  ghost function Mask(n: nat): bv32 { if n == 0 then 0 else Push(Mask(n - 1), true) }

  ghost predicate Within(w: bv32, m: bv32) { w | m == m }

  lemma ShiftWithin(w: bv32, m: bv32, x: bv32)
    requires w | m == m && (x == 0 || x == 1)
    ensures ((w << 1) | x) | ((m << 1) | 1) == (m << 1) | 1
  {
  }

  lemma PushWithin(w: bv32, m: bv32, b: bool)
    requires Within(w, m)
    ensures Within(Push(w, b), Push(m, true))
  {
    ShiftWithin(w, m, AsWord(b));
  }

  lemma {:induction false} WordWithin(bits: seq<bool>)
    ensures Within(Word(bits), Mask(|bits|))
    decreases |bits|
  {
    if bits == [] {
      assert Within(0, 0);
    } else {
      hide Within, Push;
      WordWithin(bits[1..]);
      PushWithin(Word(bits[1..]), Mask(|bits| - 1), bits[0]);
    }
  }

  lemma {:induction false} MaskGrows(n: nat)
    ensures Within(Mask(n), Mask(n + 1))
  {
    if n == 0 {
      assert Within(0, Mask(1));
    } else {
      hide Within, Push;
      MaskGrows(n - 1);
      PushWithin(Mask(n - 1), Mask(n), true);
    }
  }

  lemma WithinTrans(a: bv32, b: bv32, c: bv32)
    requires Within(a, b) && Within(b, c)
    ensures Within(a, c)
  {
  }

  const LOW_31: bv32 := 0x7fff_ffff

  lemma {:induction false} MaskBelow31(n: nat)
    requires n <= 31
    ensures Within(Mask(n), LOW_31)
    decreases 31 - n
  {
    if n == 31 {
      assert Mask(2) == 0x3 && Mask(4) == 0xf && Mask(6) == 0x3f && Mask(8) == 0xff;
      assert Mask(10) == 0x3ff && Mask(12) == 0xfff && Mask(14) == 0x3fff && Mask(16) == 0xffff;
      assert Mask(18) == 0x3_ffff && Mask(20) == 0xf_ffff && Mask(22) == 0x3f_ffff && Mask(24) == 0xff_ffff;
      assert Mask(26) == 0x3ff_ffff && Mask(28) == 0xfff_ffff && Mask(30) == 0x3fff_ffff;
    } else {
      hide Within, Push;
      MaskGrows(n);
      MaskBelow31(n + 1);
      WithinTrans(Mask(n), Mask(n + 1), LOW_31);
    }
  }

  /** Fewer than 32 bits leave the top bit of their word clear. */
  lemma ShortWord(bits: seq<bool>)
    requires |bits| <= 31
    ensures Within(Word(bits), LOW_31)
  {
    hide Within, Push;
    WordWithin(bits);
    MaskBelow31(|bits|);
    WithinTrans(Word(bits), Mask(|bits|), LOW_31);
  }

  /** A step cannot lead to a word with a clear top bit but by a plain shift. */
  lemma UndoStep(e: bv32, b: bool, w: bv32)
    requires BitStep(Xor(e, AsWord(b))) == w && Within(w, LOW_31)
    ensures e == Push(w, b)
  {
  }

  /** Up to 32 bits cancel a difference only if they spell it out. */
  lemma {:induction false} Cancelled(e: bv32, bits: seq<bool>)
    requires |bits| <= 32 && BitRegister(e, bits) == 0
    ensures e == Word(bits)
    decreases |bits|
  {
    hide BitStep, Xor, AsWord, Within, Push;
    if bits != [] {
      Cancelled(BitStep(Xor(e, AsWord(bits[0]))), bits[1..]);
      ShortWord(bits[1..]);
      UndoStep(e, bits[0], Word(bits[1..]));
    }
  }

  lemma PushZero(w: bv32, b: bool)
    requires Within(w, LOW_31) && Push(w, b) == 0
    ensures w == 0 && !b
  {
  }

  lemma {:induction false} ZeroWordClear(bits: seq<bool>)
    requires |bits| <= 32 && Word(bits) == 0
    ensures Clear(bits)
    decreases |bits|
  {
    hide Within, Push;
    if bits != [] {
      ShortWord(bits[1..]);
      PushZero(Word(bits[1..]), bits[0]);
      ZeroWordClear(bits[1..]);
    }
  }

  /** A difference confined to a window of 32 bits never cancels out. */
  lemma WindowDetected(d: seq<bool>, j: nat)
    requires j <= |d| && Clear(d[..j]) && (j + 32 <= |d| ==> Clear(d[j + 32..]))
    requires BitRegister(0, d) == 0
    ensures Clear(d)
  {
    var end := if j + 32 <= |d| then j + 32 else |d|;
    var before, window, after := d[..j], d[j..end], d[end..];
    assert d == before + (window + after);
    BitRegisterAppend(0, before, window + after);
    ClearBits(0, before);
    BitRegisterAppend(0, window, after);
    ClearBits(BitRegister(0, window), after);
    Cancelled(0, window);
    ZeroWordClear(window);
    forall k | 0 <= k < |d|
      ensures !d[k]
    {
      if j <= k < end {
        assert window[k - j] == d[k];
      } else if k < j {
        assert before[k] == d[k];
      } else {
        assert after[k - end] == d[k];
      }
    }
  }

  lemma {:induction false} BitsInjective(a: bv32, b: bv32, n: nat)
    requires Bits(a, n) == Bits(b, n) && Shifted(a, n) == Shifted(b, n)
    ensures a == b
    decreases n
  {
    if n > 0 {
      assert Bits(a, n)[0] == Bits(b, n)[0];
      assert Bits(a >> 1, n - 1) == Bits(a, n)[1..] == Bits(b, n)[1..] == Bits(b >> 1, n - 1);
      BitsInjective(a >> 1, b >> 1, n - 1);
      assert a & 1 == b & 1;
    }
  }

  lemma ByteInjective(a: bv8, b: bv8)
    requires Bits(a as bv32, 8) == Bits(b as bv32, 8)
    ensures a == b
  {
    hide Bits, Shifted;
    EightAtOnce(0, a);
    EightAtOnce(0, b);
    BitsInjective(a as bv32, b as bv32, 8);
  }

  lemma SameParts<T>(p: seq<T>, x: seq<T>, q: seq<T>, y: seq<T>)
    requires |p| == |q| && p + x == q + y
    ensures p == q && x == y
  {
    assert p == (p + x)[..|p|] && q == (q + y)[..|q|];
    assert x == (p + x)[|p|..] && y == (q + y)[|q|..];
  }

  lemma {:induction false} AllBitsInjective(a: seq<bv8>, b: seq<bv8>)
    requires AllBits(a) == AllBits(b)
    ensures a == b
    decreases |a|
  {
    if a != [] {
      hide Bits;
      SameParts(Bits(a[0] as bv32, 8), AllBits(a[1..]), Bits(b[0] as bv32, 8), AllBits(b[1..]));
      ByteInjective(a[0], b[0]);
      AllBitsInjective(a[1..], b[1..]);
      assert a == [a[0]] + a[1..] && b == [b[0]] + b[1..];
    }
  }

  /** Two messages of the same length that differ, and only within 32 consecutive bits
      starting at bit `j`, never share a checksum. */
  lemma BurstDetected(a: seq<bv8>, b: seq<bv8>, j: nat)
    requires |a| == |b| && a != b && j <= 8 * |a|
    requires forall k :: 0 <= k < 8 * |a| && !(j <= k < j + 32) ==> AllBits(a)[k] == AllBits(b)[k]
    ensures Crc(a) != Crc(b)
  {
    var x, y := AllBits(a), AllBits(b);
    if Crc(a) == Crc(b) {
      SameBeforeComplement(Register(0xffff_ffff, a), Register(0xffff_ffff, b));
      RegisterIsBitRegister(0xffff_ffff, a);
      RegisterIsBitRegister(0xffff_ffff, b);
      DifferenceEvolves(0xffff_ffff, 0xffff_ffff, x, y);
      WindowDetected(Diff(x, y), j);
      assert x == y;
      AllBitsInjective(a, b);
    }
  }

  lemma SameBeforeComplement(r: bv32, s: bv32)
    requires Xor(r, 0xffff_ffff) == Xor(s, 0xffff_ffff)
    ensures r == s && Xor(r, s) == 0 && Xor(0xffff_ffff, 0xffff_ffff) == 0
  {
  }

  /** In particular, any change confined to four consecutive bytes changes the checksum. */
  lemma FourBytesDetected(before: seq<bv8>, a: seq<bv8>, b: seq<bv8>, after: seq<bv8>)
    requires |a| == |b| <= 4 && a != b
    ensures Crc(before + a + after) != Crc(before + b + after)
  {
    var x, y := before + a + after, before + b + after;
    assert x[|before|..|before| + |a|] == a && y[|before|..|before| + |b|] == b;
    BitsSplit(before, a, after);
    BitsSplit(before, b, after);
    BurstDetected(x, y, 8 * |before|);
  }

  lemma {:induction false} AllBitsAppend(a: seq<bv8>, b: seq<bv8>)
    ensures AllBits(a + b) == AllBits(a) + AllBits(b)
  {
    hide Bits;
    if a == [] {
      assert a + b == b && [] + AllBits(b) == AllBits(b);
    } else {
      AllBitsAppend(a[1..], b);
      assert (a + b)[0] == a[0] && (a + b)[1..] == a[1..] + b;
      Assoc(Bits(a[0] as bv32, 8), AllBits(a[1..]), AllBits(b));
    }
  }

  lemma BitsSplit(a: seq<bv8>, b: seq<bv8>, c: seq<bv8>)
    ensures AllBits(a + b + c) == AllBits(a) + AllBits(b) + AllBits(c)
  {
    AllBitsAppend(a + b, c);
    AllBitsAppend(a, b);
  }
}
