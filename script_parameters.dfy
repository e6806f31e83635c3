/** The parameters of the script at the end of poly.py, modulus 0x11D and
    constant 0x63, and what the generic model yields for them; the AES
    modulus 0x11B for contrast. */
module ScriptParameters {
  import opened Bytes
  import opened FieldMultiplier
  import opened InverseFinder
  import opened SboxGenerator

  const ScriptModulus: bv16 := 0x11D
  const ScriptConstant: Byte := 0x63
  const AesModulus: bv16 := 0x11B

  /** x^k modulo m: k doublings of 1. */
  function Power(k: nat, m: bv16): Byte
    requires ValidModulus(m)
  {
    if k == 0 then 1 else XTime(Power(k - 1, m), m)
  }

  /** Powers multiply by adding exponents. */
  lemma {:induction false} PowerAdd(i: nat, j: nat, m: bv16)
    requires ValidModulus(m)
    ensures GfMul(Power(i, m), Power(j, m), m) == Power(i + j, m)
  {
    if i == 0 {
      GfMulOneLeft(Power(j, m), m);
    } else {
      GfMulXTimeLeft(Power(i - 1, m), Power(j, m), m);
      PowerAdd(i - 1, j, m);
    }
  }

  // The powers of x modulo 0x11D, 32 at a time.

  lemma PowersFrom0()
    ensures Power(0, ScriptModulus) == 0x01
    ensures Power(1, ScriptModulus) == 0x02
    ensures Power(2, ScriptModulus) == 0x04
    ensures Power(3, ScriptModulus) == 0x08
    ensures Power(4, ScriptModulus) == 0x10
    ensures Power(5, ScriptModulus) == 0x20
    ensures Power(6, ScriptModulus) == 0x40
    ensures Power(7, ScriptModulus) == 0x80
    ensures Power(8, ScriptModulus) == 0x1D
    ensures Power(9, ScriptModulus) == 0x3A
    ensures Power(10, ScriptModulus) == 0x74
    ensures Power(11, ScriptModulus) == 0xE8
    ensures Power(12, ScriptModulus) == 0xCD
    ensures Power(13, ScriptModulus) == 0x87
    ensures Power(14, ScriptModulus) == 0x13
    ensures Power(15, ScriptModulus) == 0x26
    ensures Power(16, ScriptModulus) == 0x4C
    ensures Power(17, ScriptModulus) == 0x98
    ensures Power(18, ScriptModulus) == 0x2D
    ensures Power(19, ScriptModulus) == 0x5A
    ensures Power(20, ScriptModulus) == 0xB4
    ensures Power(21, ScriptModulus) == 0x75
    ensures Power(22, ScriptModulus) == 0xEA
    ensures Power(23, ScriptModulus) == 0xC9
    ensures Power(24, ScriptModulus) == 0x8F
    ensures Power(25, ScriptModulus) == 0x03
    ensures Power(26, ScriptModulus) == 0x06
    ensures Power(27, ScriptModulus) == 0x0C
    ensures Power(28, ScriptModulus) == 0x18
    ensures Power(29, ScriptModulus) == 0x30
    ensures Power(30, ScriptModulus) == 0x60
    ensures Power(31, ScriptModulus) == 0xC0
  {
    assert Power(0, ScriptModulus) == 0x01;
    assert Power(1, ScriptModulus) == 0x02;
    assert Power(2, ScriptModulus) == 0x04;
    assert Power(3, ScriptModulus) == 0x08;
    assert Power(4, ScriptModulus) == 0x10;
    assert Power(5, ScriptModulus) == 0x20;
    assert Power(6, ScriptModulus) == 0x40;
    assert Power(7, ScriptModulus) == 0x80;
    assert Power(8, ScriptModulus) == 0x1D;
    assert Power(9, ScriptModulus) == 0x3A;
    assert Power(10, ScriptModulus) == 0x74;
    assert Power(11, ScriptModulus) == 0xE8;
    assert Power(12, ScriptModulus) == 0xCD;
    assert Power(13, ScriptModulus) == 0x87;
    assert Power(14, ScriptModulus) == 0x13;
    assert Power(15, ScriptModulus) == 0x26;
    assert Power(16, ScriptModulus) == 0x4C;
    assert Power(17, ScriptModulus) == 0x98;
    assert Power(18, ScriptModulus) == 0x2D;
    assert Power(19, ScriptModulus) == 0x5A;
    assert Power(20, ScriptModulus) == 0xB4;
    assert Power(21, ScriptModulus) == 0x75;
    assert Power(22, ScriptModulus) == 0xEA;
    assert Power(23, ScriptModulus) == 0xC9;
    assert Power(24, ScriptModulus) == 0x8F;
    assert Power(25, ScriptModulus) == 0x03;
    assert Power(26, ScriptModulus) == 0x06;
    assert Power(27, ScriptModulus) == 0x0C;
    assert Power(28, ScriptModulus) == 0x18;
    assert Power(29, ScriptModulus) == 0x30;
    assert Power(30, ScriptModulus) == 0x60;
    assert Power(31, ScriptModulus) == 0xC0;
  }

  lemma PowersFrom32()
    ensures Power(32, ScriptModulus) == 0x9D
    ensures Power(33, ScriptModulus) == 0x27
    ensures Power(34, ScriptModulus) == 0x4E
    ensures Power(35, ScriptModulus) == 0x9C
    ensures Power(36, ScriptModulus) == 0x25
    ensures Power(37, ScriptModulus) == 0x4A
    ensures Power(38, ScriptModulus) == 0x94
    ensures Power(39, ScriptModulus) == 0x35
    ensures Power(40, ScriptModulus) == 0x6A
    ensures Power(41, ScriptModulus) == 0xD4
    ensures Power(42, ScriptModulus) == 0xB5
    ensures Power(43, ScriptModulus) == 0x77
    ensures Power(44, ScriptModulus) == 0xEE
    ensures Power(45, ScriptModulus) == 0xC1
    ensures Power(46, ScriptModulus) == 0x9F
    ensures Power(47, ScriptModulus) == 0x23
    ensures Power(48, ScriptModulus) == 0x46
    ensures Power(49, ScriptModulus) == 0x8C
    ensures Power(50, ScriptModulus) == 0x05
    ensures Power(51, ScriptModulus) == 0x0A
    ensures Power(52, ScriptModulus) == 0x14
    ensures Power(53, ScriptModulus) == 0x28
    ensures Power(54, ScriptModulus) == 0x50
    ensures Power(55, ScriptModulus) == 0xA0
    ensures Power(56, ScriptModulus) == 0x5D
    ensures Power(57, ScriptModulus) == 0xBA
    ensures Power(58, ScriptModulus) == 0x69
    ensures Power(59, ScriptModulus) == 0xD2
    ensures Power(60, ScriptModulus) == 0xB9
    ensures Power(61, ScriptModulus) == 0x6F
    ensures Power(62, ScriptModulus) == 0xDE
    ensures Power(63, ScriptModulus) == 0xA1
  {
    PowersFrom0();
    assert Power(32, ScriptModulus) == 0x9D;
    assert Power(33, ScriptModulus) == 0x27;
    assert Power(34, ScriptModulus) == 0x4E;
    assert Power(35, ScriptModulus) == 0x9C;
    assert Power(36, ScriptModulus) == 0x25;
    assert Power(37, ScriptModulus) == 0x4A;
    assert Power(38, ScriptModulus) == 0x94;
    assert Power(39, ScriptModulus) == 0x35;
    assert Power(40, ScriptModulus) == 0x6A;
    assert Power(41, ScriptModulus) == 0xD4;
    assert Power(42, ScriptModulus) == 0xB5;
    assert Power(43, ScriptModulus) == 0x77;
    assert Power(44, ScriptModulus) == 0xEE;
    assert Power(45, ScriptModulus) == 0xC1;
    assert Power(46, ScriptModulus) == 0x9F;
    assert Power(47, ScriptModulus) == 0x23;
    assert Power(48, ScriptModulus) == 0x46;
    assert Power(49, ScriptModulus) == 0x8C;
    assert Power(50, ScriptModulus) == 0x05;
    assert Power(51, ScriptModulus) == 0x0A;
    assert Power(52, ScriptModulus) == 0x14;
    assert Power(53, ScriptModulus) == 0x28;
    assert Power(54, ScriptModulus) == 0x50;
    assert Power(55, ScriptModulus) == 0xA0;
    assert Power(56, ScriptModulus) == 0x5D;
    assert Power(57, ScriptModulus) == 0xBA;
    assert Power(58, ScriptModulus) == 0x69;
    assert Power(59, ScriptModulus) == 0xD2;
    assert Power(60, ScriptModulus) == 0xB9;
    assert Power(61, ScriptModulus) == 0x6F;
    assert Power(62, ScriptModulus) == 0xDE;
    assert Power(63, ScriptModulus) == 0xA1;
  }

  lemma PowersFrom64()
    ensures Power(64, ScriptModulus) == 0x5F
    ensures Power(65, ScriptModulus) == 0xBE
    ensures Power(66, ScriptModulus) == 0x61
    ensures Power(67, ScriptModulus) == 0xC2
    ensures Power(68, ScriptModulus) == 0x99
    ensures Power(69, ScriptModulus) == 0x2F
    ensures Power(70, ScriptModulus) == 0x5E
    ensures Power(71, ScriptModulus) == 0xBC
    ensures Power(72, ScriptModulus) == 0x65
    ensures Power(73, ScriptModulus) == 0xCA
    ensures Power(74, ScriptModulus) == 0x89
    ensures Power(75, ScriptModulus) == 0x0F
    ensures Power(76, ScriptModulus) == 0x1E
    ensures Power(77, ScriptModulus) == 0x3C
    ensures Power(78, ScriptModulus) == 0x78
    ensures Power(79, ScriptModulus) == 0xF0
    ensures Power(80, ScriptModulus) == 0xFD
    ensures Power(81, ScriptModulus) == 0xE7
    ensures Power(82, ScriptModulus) == 0xD3
    ensures Power(83, ScriptModulus) == 0xBB
    ensures Power(84, ScriptModulus) == 0x6B
    ensures Power(85, ScriptModulus) == 0xD6
    ensures Power(86, ScriptModulus) == 0xB1
    ensures Power(87, ScriptModulus) == 0x7F
    ensures Power(88, ScriptModulus) == 0xFE
    ensures Power(89, ScriptModulus) == 0xE1
    ensures Power(90, ScriptModulus) == 0xDF
    ensures Power(91, ScriptModulus) == 0xA3
    ensures Power(92, ScriptModulus) == 0x5B
    ensures Power(93, ScriptModulus) == 0xB6
    ensures Power(94, ScriptModulus) == 0x71
    ensures Power(95, ScriptModulus) == 0xE2
  {
    PowersFrom32();
    assert Power(64, ScriptModulus) == 0x5F;
    assert Power(65, ScriptModulus) == 0xBE;
    assert Power(66, ScriptModulus) == 0x61;
    assert Power(67, ScriptModulus) == 0xC2;
    assert Power(68, ScriptModulus) == 0x99;
    assert Power(69, ScriptModulus) == 0x2F;
    assert Power(70, ScriptModulus) == 0x5E;
    assert Power(71, ScriptModulus) == 0xBC;
    assert Power(72, ScriptModulus) == 0x65;
    assert Power(73, ScriptModulus) == 0xCA;
    assert Power(74, ScriptModulus) == 0x89;
    assert Power(75, ScriptModulus) == 0x0F;
    assert Power(76, ScriptModulus) == 0x1E;
    assert Power(77, ScriptModulus) == 0x3C;
    assert Power(78, ScriptModulus) == 0x78;
    assert Power(79, ScriptModulus) == 0xF0;
    assert Power(80, ScriptModulus) == 0xFD;
    assert Power(81, ScriptModulus) == 0xE7;
    assert Power(82, ScriptModulus) == 0xD3;
    assert Power(83, ScriptModulus) == 0xBB;
    assert Power(84, ScriptModulus) == 0x6B;
    assert Power(85, ScriptModulus) == 0xD6;
    assert Power(86, ScriptModulus) == 0xB1;
    assert Power(87, ScriptModulus) == 0x7F;
    assert Power(88, ScriptModulus) == 0xFE;
    assert Power(89, ScriptModulus) == 0xE1;
    assert Power(90, ScriptModulus) == 0xDF;
    assert Power(91, ScriptModulus) == 0xA3;
    assert Power(92, ScriptModulus) == 0x5B;
    assert Power(93, ScriptModulus) == 0xB6;
    assert Power(94, ScriptModulus) == 0x71;
    assert Power(95, ScriptModulus) == 0xE2;
  }

  lemma PowersFrom96()
    ensures Power(96, ScriptModulus) == 0xD9
    ensures Power(97, ScriptModulus) == 0xAF
    ensures Power(98, ScriptModulus) == 0x43
    ensures Power(99, ScriptModulus) == 0x86
    ensures Power(100, ScriptModulus) == 0x11
    ensures Power(101, ScriptModulus) == 0x22
    ensures Power(102, ScriptModulus) == 0x44
    ensures Power(103, ScriptModulus) == 0x88
    ensures Power(104, ScriptModulus) == 0x0D
    ensures Power(105, ScriptModulus) == 0x1A
    ensures Power(106, ScriptModulus) == 0x34
    ensures Power(107, ScriptModulus) == 0x68
    ensures Power(108, ScriptModulus) == 0xD0
    ensures Power(109, ScriptModulus) == 0xBD
    ensures Power(110, ScriptModulus) == 0x67
    ensures Power(111, ScriptModulus) == 0xCE
    ensures Power(112, ScriptModulus) == 0x81
    ensures Power(113, ScriptModulus) == 0x1F
    ensures Power(114, ScriptModulus) == 0x3E
    ensures Power(115, ScriptModulus) == 0x7C
    ensures Power(116, ScriptModulus) == 0xF8
    ensures Power(117, ScriptModulus) == 0xED
    ensures Power(118, ScriptModulus) == 0xC7
    ensures Power(119, ScriptModulus) == 0x93
    ensures Power(120, ScriptModulus) == 0x3B
    ensures Power(121, ScriptModulus) == 0x76
    ensures Power(122, ScriptModulus) == 0xEC
    ensures Power(123, ScriptModulus) == 0xC5
    ensures Power(124, ScriptModulus) == 0x97
    ensures Power(125, ScriptModulus) == 0x33
    ensures Power(126, ScriptModulus) == 0x66
    ensures Power(127, ScriptModulus) == 0xCC
  {
    PowersFrom64();
    assert Power(96, ScriptModulus) == 0xD9;
    assert Power(97, ScriptModulus) == 0xAF;
    assert Power(98, ScriptModulus) == 0x43;
    assert Power(99, ScriptModulus) == 0x86;
    assert Power(100, ScriptModulus) == 0x11;
    assert Power(101, ScriptModulus) == 0x22;
    assert Power(102, ScriptModulus) == 0x44;
    assert Power(103, ScriptModulus) == 0x88;
    assert Power(104, ScriptModulus) == 0x0D;
    assert Power(105, ScriptModulus) == 0x1A;
    assert Power(106, ScriptModulus) == 0x34;
    assert Power(107, ScriptModulus) == 0x68;
    assert Power(108, ScriptModulus) == 0xD0;
    assert Power(109, ScriptModulus) == 0xBD;
    assert Power(110, ScriptModulus) == 0x67;
    assert Power(111, ScriptModulus) == 0xCE;
    assert Power(112, ScriptModulus) == 0x81;
    assert Power(113, ScriptModulus) == 0x1F;
    assert Power(114, ScriptModulus) == 0x3E;
    assert Power(115, ScriptModulus) == 0x7C;
    assert Power(116, ScriptModulus) == 0xF8;
    assert Power(117, ScriptModulus) == 0xED;
    assert Power(118, ScriptModulus) == 0xC7;
    assert Power(119, ScriptModulus) == 0x93;
    assert Power(120, ScriptModulus) == 0x3B;
    assert Power(121, ScriptModulus) == 0x76;
    assert Power(122, ScriptModulus) == 0xEC;
    assert Power(123, ScriptModulus) == 0xC5;
    assert Power(124, ScriptModulus) == 0x97;
    assert Power(125, ScriptModulus) == 0x33;
    assert Power(126, ScriptModulus) == 0x66;
    assert Power(127, ScriptModulus) == 0xCC;
  }

  lemma PowersFrom128()
    ensures Power(128, ScriptModulus) == 0x85
    ensures Power(129, ScriptModulus) == 0x17
    ensures Power(130, ScriptModulus) == 0x2E
    ensures Power(131, ScriptModulus) == 0x5C
    ensures Power(132, ScriptModulus) == 0xB8
    ensures Power(133, ScriptModulus) == 0x6D
    ensures Power(134, ScriptModulus) == 0xDA
    ensures Power(135, ScriptModulus) == 0xA9
    ensures Power(136, ScriptModulus) == 0x4F
    ensures Power(137, ScriptModulus) == 0x9E
    ensures Power(138, ScriptModulus) == 0x21
    ensures Power(139, ScriptModulus) == 0x42
    ensures Power(140, ScriptModulus) == 0x84
    ensures Power(141, ScriptModulus) == 0x15
    ensures Power(142, ScriptModulus) == 0x2A
    ensures Power(143, ScriptModulus) == 0x54
    ensures Power(144, ScriptModulus) == 0xA8
    ensures Power(145, ScriptModulus) == 0x4D
    ensures Power(146, ScriptModulus) == 0x9A
    ensures Power(147, ScriptModulus) == 0x29
    ensures Power(148, ScriptModulus) == 0x52
    ensures Power(149, ScriptModulus) == 0xA4
    ensures Power(150, ScriptModulus) == 0x55
    ensures Power(151, ScriptModulus) == 0xAA
    ensures Power(152, ScriptModulus) == 0x49
    ensures Power(153, ScriptModulus) == 0x92
    ensures Power(154, ScriptModulus) == 0x39
    ensures Power(155, ScriptModulus) == 0x72
    ensures Power(156, ScriptModulus) == 0xE4
    ensures Power(157, ScriptModulus) == 0xD5
    ensures Power(158, ScriptModulus) == 0xB7
    ensures Power(159, ScriptModulus) == 0x73
  {
    PowersFrom96();
    assert Power(128, ScriptModulus) == 0x85;
    assert Power(129, ScriptModulus) == 0x17;
    assert Power(130, ScriptModulus) == 0x2E;
    assert Power(131, ScriptModulus) == 0x5C;
    assert Power(132, ScriptModulus) == 0xB8;
    assert Power(133, ScriptModulus) == 0x6D;
    assert Power(134, ScriptModulus) == 0xDA;
    assert Power(135, ScriptModulus) == 0xA9;
    assert Power(136, ScriptModulus) == 0x4F;
    assert Power(137, ScriptModulus) == 0x9E;
    assert Power(138, ScriptModulus) == 0x21;
    assert Power(139, ScriptModulus) == 0x42;
    assert Power(140, ScriptModulus) == 0x84;
    assert Power(141, ScriptModulus) == 0x15;
    assert Power(142, ScriptModulus) == 0x2A;
    assert Power(143, ScriptModulus) == 0x54;
    assert Power(144, ScriptModulus) == 0xA8;
    assert Power(145, ScriptModulus) == 0x4D;
    assert Power(146, ScriptModulus) == 0x9A;
    assert Power(147, ScriptModulus) == 0x29;
    assert Power(148, ScriptModulus) == 0x52;
    assert Power(149, ScriptModulus) == 0xA4;
    assert Power(150, ScriptModulus) == 0x55;
    assert Power(151, ScriptModulus) == 0xAA;
    assert Power(152, ScriptModulus) == 0x49;
    assert Power(153, ScriptModulus) == 0x92;
    assert Power(154, ScriptModulus) == 0x39;
    assert Power(155, ScriptModulus) == 0x72;
    assert Power(156, ScriptModulus) == 0xE4;
    assert Power(157, ScriptModulus) == 0xD5;
    assert Power(158, ScriptModulus) == 0xB7;
    assert Power(159, ScriptModulus) == 0x73;
  }

  lemma PowersFrom160()
    ensures Power(160, ScriptModulus) == 0xE6
    ensures Power(161, ScriptModulus) == 0xD1
    ensures Power(162, ScriptModulus) == 0xBF
    ensures Power(163, ScriptModulus) == 0x63
    ensures Power(164, ScriptModulus) == 0xC6
    ensures Power(165, ScriptModulus) == 0x91
    ensures Power(166, ScriptModulus) == 0x3F
    ensures Power(167, ScriptModulus) == 0x7E
    ensures Power(168, ScriptModulus) == 0xFC
    ensures Power(169, ScriptModulus) == 0xE5
    ensures Power(170, ScriptModulus) == 0xD7
    ensures Power(171, ScriptModulus) == 0xB3
    ensures Power(172, ScriptModulus) == 0x7B
    ensures Power(173, ScriptModulus) == 0xF6
    ensures Power(174, ScriptModulus) == 0xF1
    ensures Power(175, ScriptModulus) == 0xFF
    ensures Power(176, ScriptModulus) == 0xE3
    ensures Power(177, ScriptModulus) == 0xDB
    ensures Power(178, ScriptModulus) == 0xAB
    ensures Power(179, ScriptModulus) == 0x4B
    ensures Power(180, ScriptModulus) == 0x96
    ensures Power(181, ScriptModulus) == 0x31
    ensures Power(182, ScriptModulus) == 0x62
    ensures Power(183, ScriptModulus) == 0xC4
    ensures Power(184, ScriptModulus) == 0x95
    ensures Power(185, ScriptModulus) == 0x37
    ensures Power(186, ScriptModulus) == 0x6E
    ensures Power(187, ScriptModulus) == 0xDC
    ensures Power(188, ScriptModulus) == 0xA5
    ensures Power(189, ScriptModulus) == 0x57
    ensures Power(190, ScriptModulus) == 0xAE
    ensures Power(191, ScriptModulus) == 0x41
  {
    PowersFrom128();
    assert Power(160, ScriptModulus) == 0xE6;
    assert Power(161, ScriptModulus) == 0xD1;
    assert Power(162, ScriptModulus) == 0xBF;
    assert Power(163, ScriptModulus) == 0x63;
    assert Power(164, ScriptModulus) == 0xC6;
    assert Power(165, ScriptModulus) == 0x91;
    assert Power(166, ScriptModulus) == 0x3F;
    assert Power(167, ScriptModulus) == 0x7E;
    assert Power(168, ScriptModulus) == 0xFC;
    assert Power(169, ScriptModulus) == 0xE5;
    assert Power(170, ScriptModulus) == 0xD7;
    assert Power(171, ScriptModulus) == 0xB3;
    assert Power(172, ScriptModulus) == 0x7B;
    assert Power(173, ScriptModulus) == 0xF6;
    assert Power(174, ScriptModulus) == 0xF1;
    assert Power(175, ScriptModulus) == 0xFF;
    assert Power(176, ScriptModulus) == 0xE3;
    assert Power(177, ScriptModulus) == 0xDB;
    assert Power(178, ScriptModulus) == 0xAB;
    assert Power(179, ScriptModulus) == 0x4B;
    assert Power(180, ScriptModulus) == 0x96;
    assert Power(181, ScriptModulus) == 0x31;
    assert Power(182, ScriptModulus) == 0x62;
    assert Power(183, ScriptModulus) == 0xC4;
    assert Power(184, ScriptModulus) == 0x95;
    assert Power(185, ScriptModulus) == 0x37;
    assert Power(186, ScriptModulus) == 0x6E;
    assert Power(187, ScriptModulus) == 0xDC;
    assert Power(188, ScriptModulus) == 0xA5;
    assert Power(189, ScriptModulus) == 0x57;
    assert Power(190, ScriptModulus) == 0xAE;
    assert Power(191, ScriptModulus) == 0x41;
  }

  lemma PowersFrom192()
    ensures Power(192, ScriptModulus) == 0x82
    ensures Power(193, ScriptModulus) == 0x19
    ensures Power(194, ScriptModulus) == 0x32
    ensures Power(195, ScriptModulus) == 0x64
    ensures Power(196, ScriptModulus) == 0xC8
    ensures Power(197, ScriptModulus) == 0x8D
    ensures Power(198, ScriptModulus) == 0x07
    ensures Power(199, ScriptModulus) == 0x0E
    ensures Power(200, ScriptModulus) == 0x1C
    ensures Power(201, ScriptModulus) == 0x38
    ensures Power(202, ScriptModulus) == 0x70
    ensures Power(203, ScriptModulus) == 0xE0
    ensures Power(204, ScriptModulus) == 0xDD
    ensures Power(205, ScriptModulus) == 0xA7
    ensures Power(206, ScriptModulus) == 0x53
    ensures Power(207, ScriptModulus) == 0xA6
    ensures Power(208, ScriptModulus) == 0x51
    ensures Power(209, ScriptModulus) == 0xA2
    ensures Power(210, ScriptModulus) == 0x59
    ensures Power(211, ScriptModulus) == 0xB2
    ensures Power(212, ScriptModulus) == 0x79
    ensures Power(213, ScriptModulus) == 0xF2
    ensures Power(214, ScriptModulus) == 0xF9
    ensures Power(215, ScriptModulus) == 0xEF
    ensures Power(216, ScriptModulus) == 0xC3
    ensures Power(217, ScriptModulus) == 0x9B
    ensures Power(218, ScriptModulus) == 0x2B
    ensures Power(219, ScriptModulus) == 0x56
    ensures Power(220, ScriptModulus) == 0xAC
    ensures Power(221, ScriptModulus) == 0x45
    ensures Power(222, ScriptModulus) == 0x8A
    ensures Power(223, ScriptModulus) == 0x09
  {
    PowersFrom160();
    assert Power(192, ScriptModulus) == 0x82;
    assert Power(193, ScriptModulus) == 0x19;
    assert Power(194, ScriptModulus) == 0x32;
    assert Power(195, ScriptModulus) == 0x64;
    assert Power(196, ScriptModulus) == 0xC8;
    assert Power(197, ScriptModulus) == 0x8D;
    assert Power(198, ScriptModulus) == 0x07;
    assert Power(199, ScriptModulus) == 0x0E;
    assert Power(200, ScriptModulus) == 0x1C;
    assert Power(201, ScriptModulus) == 0x38;
    assert Power(202, ScriptModulus) == 0x70;
    assert Power(203, ScriptModulus) == 0xE0;
    assert Power(204, ScriptModulus) == 0xDD;
    assert Power(205, ScriptModulus) == 0xA7;
    assert Power(206, ScriptModulus) == 0x53;
    assert Power(207, ScriptModulus) == 0xA6;
    assert Power(208, ScriptModulus) == 0x51;
    assert Power(209, ScriptModulus) == 0xA2;
    assert Power(210, ScriptModulus) == 0x59;
    assert Power(211, ScriptModulus) == 0xB2;
    assert Power(212, ScriptModulus) == 0x79;
    assert Power(213, ScriptModulus) == 0xF2;
    assert Power(214, ScriptModulus) == 0xF9;
    assert Power(215, ScriptModulus) == 0xEF;
    assert Power(216, ScriptModulus) == 0xC3;
    assert Power(217, ScriptModulus) == 0x9B;
    assert Power(218, ScriptModulus) == 0x2B;
    assert Power(219, ScriptModulus) == 0x56;
    assert Power(220, ScriptModulus) == 0xAC;
    assert Power(221, ScriptModulus) == 0x45;
    assert Power(222, ScriptModulus) == 0x8A;
    assert Power(223, ScriptModulus) == 0x09;
  }

  lemma PowersFrom224()
    ensures Power(224, ScriptModulus) == 0x12
    ensures Power(225, ScriptModulus) == 0x24
    ensures Power(226, ScriptModulus) == 0x48
    ensures Power(227, ScriptModulus) == 0x90
    ensures Power(228, ScriptModulus) == 0x3D
    ensures Power(229, ScriptModulus) == 0x7A
    ensures Power(230, ScriptModulus) == 0xF4
    ensures Power(231, ScriptModulus) == 0xF5
    ensures Power(232, ScriptModulus) == 0xF7
    ensures Power(233, ScriptModulus) == 0xF3
    ensures Power(234, ScriptModulus) == 0xFB
    ensures Power(235, ScriptModulus) == 0xEB
    ensures Power(236, ScriptModulus) == 0xCB
    ensures Power(237, ScriptModulus) == 0x8B
    ensures Power(238, ScriptModulus) == 0x0B
    ensures Power(239, ScriptModulus) == 0x16
    ensures Power(240, ScriptModulus) == 0x2C
    ensures Power(241, ScriptModulus) == 0x58
    ensures Power(242, ScriptModulus) == 0xB0
    ensures Power(243, ScriptModulus) == 0x7D
    ensures Power(244, ScriptModulus) == 0xFA
    ensures Power(245, ScriptModulus) == 0xE9
    ensures Power(246, ScriptModulus) == 0xCF
    ensures Power(247, ScriptModulus) == 0x83
    ensures Power(248, ScriptModulus) == 0x1B
    ensures Power(249, ScriptModulus) == 0x36
    ensures Power(250, ScriptModulus) == 0x6C
    ensures Power(251, ScriptModulus) == 0xD8
    ensures Power(252, ScriptModulus) == 0xAD
    ensures Power(253, ScriptModulus) == 0x47
    ensures Power(254, ScriptModulus) == 0x8E
    ensures Power(255, ScriptModulus) == 0x01
  {
    PowersFrom192();
    assert Power(224, ScriptModulus) == 0x12;
    assert Power(225, ScriptModulus) == 0x24;
    assert Power(226, ScriptModulus) == 0x48;
    assert Power(227, ScriptModulus) == 0x90;
    assert Power(228, ScriptModulus) == 0x3D;
    assert Power(229, ScriptModulus) == 0x7A;
    assert Power(230, ScriptModulus) == 0xF4;
    assert Power(231, ScriptModulus) == 0xF5;
    assert Power(232, ScriptModulus) == 0xF7;
    assert Power(233, ScriptModulus) == 0xF3;
    assert Power(234, ScriptModulus) == 0xFB;
    assert Power(235, ScriptModulus) == 0xEB;
    assert Power(236, ScriptModulus) == 0xCB;
    assert Power(237, ScriptModulus) == 0x8B;
    assert Power(238, ScriptModulus) == 0x0B;
    assert Power(239, ScriptModulus) == 0x16;
    assert Power(240, ScriptModulus) == 0x2C;
    assert Power(241, ScriptModulus) == 0x58;
    assert Power(242, ScriptModulus) == 0xB0;
    assert Power(243, ScriptModulus) == 0x7D;
    assert Power(244, ScriptModulus) == 0xFA;
    assert Power(245, ScriptModulus) == 0xE9;
    assert Power(246, ScriptModulus) == 0xCF;
    assert Power(247, ScriptModulus) == 0x83;
    assert Power(248, ScriptModulus) == 0x1B;
    assert Power(249, ScriptModulus) == 0x36;
    assert Power(250, ScriptModulus) == 0x6C;
    assert Power(251, ScriptModulus) == 0xD8;
    assert Power(252, ScriptModulus) == 0xAD;
    assert Power(253, ScriptModulus) == 0x47;
    assert Power(254, ScriptModulus) == 0x8E;
    assert Power(255, ScriptModulus) == 0x01;
  }

  /** v is one of x^0 to x^31 modulo 0x11D. */
  predicate AmongPowersFrom0(v: Byte)
  {
    v == 0x01 || v == 0x02 || v == 0x04 || v == 0x08 || v == 0x10 || v == 0x20 || v == 0x40 || v == 0x80 ||
    v == 0x1D || v == 0x3A || v == 0x74 || v == 0xE8 || v == 0xCD || v == 0x87 || v == 0x13 || v == 0x26 ||
    v == 0x4C || v == 0x98 || v == 0x2D || v == 0x5A || v == 0xB4 || v == 0x75 || v == 0xEA || v == 0xC9 ||
    v == 0x8F || v == 0x03 || v == 0x06 || v == 0x0C || v == 0x18 || v == 0x30 || v == 0x60 || v == 0xC0
  }

  lemma CoveredFrom0(v: Byte)
    requires AmongPowersFrom0(v)
    ensures exists k :: 0 <= k < 255 && Power(k, ScriptModulus) == v
  {
    PowersFrom0();
  }

  /** v is one of x^32 to x^63 modulo 0x11D. */
  predicate AmongPowersFrom32(v: Byte)
  {
    v == 0x9D || v == 0x27 || v == 0x4E || v == 0x9C || v == 0x25 || v == 0x4A || v == 0x94 || v == 0x35 ||
    v == 0x6A || v == 0xD4 || v == 0xB5 || v == 0x77 || v == 0xEE || v == 0xC1 || v == 0x9F || v == 0x23 ||
    v == 0x46 || v == 0x8C || v == 0x05 || v == 0x0A || v == 0x14 || v == 0x28 || v == 0x50 || v == 0xA0 ||
    v == 0x5D || v == 0xBA || v == 0x69 || v == 0xD2 || v == 0xB9 || v == 0x6F || v == 0xDE || v == 0xA1
  }

  lemma CoveredFrom32(v: Byte)
    requires AmongPowersFrom32(v)
    ensures exists k :: 0 <= k < 255 && Power(k, ScriptModulus) == v
  {
    PowersFrom32();
  }

  /** v is one of x^64 to x^95 modulo 0x11D. */
  predicate AmongPowersFrom64(v: Byte)
  {
    v == 0x5F || v == 0xBE || v == 0x61 || v == 0xC2 || v == 0x99 || v == 0x2F || v == 0x5E || v == 0xBC ||
    v == 0x65 || v == 0xCA || v == 0x89 || v == 0x0F || v == 0x1E || v == 0x3C || v == 0x78 || v == 0xF0 ||
    v == 0xFD || v == 0xE7 || v == 0xD3 || v == 0xBB || v == 0x6B || v == 0xD6 || v == 0xB1 || v == 0x7F ||
    v == 0xFE || v == 0xE1 || v == 0xDF || v == 0xA3 || v == 0x5B || v == 0xB6 || v == 0x71 || v == 0xE2
  }

  lemma CoveredFrom64(v: Byte)
    requires AmongPowersFrom64(v)
    ensures exists k :: 0 <= k < 255 && Power(k, ScriptModulus) == v
  {
    PowersFrom64();
  }

  /** v is one of x^96 to x^127 modulo 0x11D. */
  predicate AmongPowersFrom96(v: Byte)
  {
    v == 0xD9 || v == 0xAF || v == 0x43 || v == 0x86 || v == 0x11 || v == 0x22 || v == 0x44 || v == 0x88 ||
    v == 0x0D || v == 0x1A || v == 0x34 || v == 0x68 || v == 0xD0 || v == 0xBD || v == 0x67 || v == 0xCE ||
    v == 0x81 || v == 0x1F || v == 0x3E || v == 0x7C || v == 0xF8 || v == 0xED || v == 0xC7 || v == 0x93 ||
    v == 0x3B || v == 0x76 || v == 0xEC || v == 0xC5 || v == 0x97 || v == 0x33 || v == 0x66 || v == 0xCC
  }

  lemma CoveredFrom96(v: Byte)
    requires AmongPowersFrom96(v)
    ensures exists k :: 0 <= k < 255 && Power(k, ScriptModulus) == v
  {
    PowersFrom96();
  }

  /** v is one of x^128 to x^159 modulo 0x11D. */
  predicate AmongPowersFrom128(v: Byte)
  {
    v == 0x85 || v == 0x17 || v == 0x2E || v == 0x5C || v == 0xB8 || v == 0x6D || v == 0xDA || v == 0xA9 ||
    v == 0x4F || v == 0x9E || v == 0x21 || v == 0x42 || v == 0x84 || v == 0x15 || v == 0x2A || v == 0x54 ||
    v == 0xA8 || v == 0x4D || v == 0x9A || v == 0x29 || v == 0x52 || v == 0xA4 || v == 0x55 || v == 0xAA ||
    v == 0x49 || v == 0x92 || v == 0x39 || v == 0x72 || v == 0xE4 || v == 0xD5 || v == 0xB7 || v == 0x73
  }

  lemma CoveredFrom128(v: Byte)
    requires AmongPowersFrom128(v)
    ensures exists k :: 0 <= k < 255 && Power(k, ScriptModulus) == v
  {
    PowersFrom128();
  }

  /** v is one of x^160 to x^191 modulo 0x11D. */
  predicate AmongPowersFrom160(v: Byte)
  {
    v == 0xE6 || v == 0xD1 || v == 0xBF || v == 0x63 || v == 0xC6 || v == 0x91 || v == 0x3F || v == 0x7E ||
    v == 0xFC || v == 0xE5 || v == 0xD7 || v == 0xB3 || v == 0x7B || v == 0xF6 || v == 0xF1 || v == 0xFF ||
    v == 0xE3 || v == 0xDB || v == 0xAB || v == 0x4B || v == 0x96 || v == 0x31 || v == 0x62 || v == 0xC4 ||
    v == 0x95 || v == 0x37 || v == 0x6E || v == 0xDC || v == 0xA5 || v == 0x57 || v == 0xAE || v == 0x41
  }

  lemma CoveredFrom160(v: Byte)
    requires AmongPowersFrom160(v)
    ensures exists k :: 0 <= k < 255 && Power(k, ScriptModulus) == v
  {
    PowersFrom160();
  }

  /** v is one of x^192 to x^223 modulo 0x11D. */
  predicate AmongPowersFrom192(v: Byte)
  {
    v == 0x82 || v == 0x19 || v == 0x32 || v == 0x64 || v == 0xC8 || v == 0x8D || v == 0x07 || v == 0x0E ||
    v == 0x1C || v == 0x38 || v == 0x70 || v == 0xE0 || v == 0xDD || v == 0xA7 || v == 0x53 || v == 0xA6 ||
    v == 0x51 || v == 0xA2 || v == 0x59 || v == 0xB2 || v == 0x79 || v == 0xF2 || v == 0xF9 || v == 0xEF ||
    v == 0xC3 || v == 0x9B || v == 0x2B || v == 0x56 || v == 0xAC || v == 0x45 || v == 0x8A || v == 0x09
  }

  lemma CoveredFrom192(v: Byte)
    requires AmongPowersFrom192(v)
    ensures exists k :: 0 <= k < 255 && Power(k, ScriptModulus) == v
  {
    PowersFrom192();
  }

  /** v is one of x^224 to x^254 modulo 0x11D. */
  predicate AmongPowersFrom224(v: Byte)
  {
    v == 0x12 || v == 0x24 || v == 0x48 || v == 0x90 || v == 0x3D || v == 0x7A || v == 0xF4 || v == 0xF5 ||
    v == 0xF7 || v == 0xF3 || v == 0xFB || v == 0xEB || v == 0xCB || v == 0x8B || v == 0x0B || v == 0x16 ||
    v == 0x2C || v == 0x58 || v == 0xB0 || v == 0x7D || v == 0xFA || v == 0xE9 || v == 0xCF || v == 0x83 ||
    v == 0x1B || v == 0x36 || v == 0x6C || v == 0xD8 || v == 0xAD || v == 0x47 || v == 0x8E
  }

  lemma CoveredFrom224(v: Byte)
    requires AmongPowersFrom224(v)
    ensures exists k :: 0 <= k < 255 && Power(k, ScriptModulus) == v
  {
    PowersFrom224();
  }

  /** Under 0x11D, x has order 255: the 255 powers x^0 to x^254 are the 255
      nonzero bytes. */
  lemma EveryNonzeroIsAPower(v: Byte)
    requires v != 0
    ensures exists k :: 0 <= k < 255 && Power(k, ScriptModulus) == v
  {
    assert AmongPowersFrom0(v) ||
      AmongPowersFrom32(v) ||
      AmongPowersFrom64(v) ||
      AmongPowersFrom96(v) ||
      AmongPowersFrom128(v) ||
      AmongPowersFrom160(v) ||
      AmongPowersFrom192(v) ||
      AmongPowersFrom224(v);
    if AmongPowersFrom0(v) {
      CoveredFrom0(v);
    } else if AmongPowersFrom32(v) {
      CoveredFrom32(v);
    } else if AmongPowersFrom64(v) {
      CoveredFrom64(v);
    } else if AmongPowersFrom96(v) {
      CoveredFrom96(v);
    } else if AmongPowersFrom128(v) {
      CoveredFrom128(v);
    } else if AmongPowersFrom160(v) {
      CoveredFrom160(v);
    } else if AmongPowersFrom192(v) {
      CoveredFrom192(v);
    } else {
      CoveredFrom224(v);
    }
  }

  /** 0x11D makes the bytes a field: the inverse of x^k is x^(255 - k). */
  lemma ScriptModulusDefinesField()
    ensures DefinesField(ScriptModulus)
  {
    forall v: Byte | v != 0
      ensures HasInverse(v, ScriptModulus)
    {
      EveryNonzeroIsAPower(v);
      var k :| 0 <= k < 255 && Power(k, ScriptModulus) == v;
      PowerAdd(k, 255 - k, ScriptModulus);
      PowersFrom224();
      assert GfMul(v, Power(255 - k, ScriptModulus), ScriptModulus) == 1;
    }
  }

  /** Multiplying by the polynomial x is one step of the doubling. */
  lemma TwoTimes(y: Byte, m: bv16)
    requires ValidModulus(m)
    ensures GfMul(2, y, m) == XTime(y, m)
  {
    GfMulCommutes(2, y, m);
    GfMulUnfold(y, 2, m);
    GfMulZeroOne(XTime(y, m), m);
  }

  /** The inverse of the polynomial x differs between the two moduli: 0x8E under 0x11D,
      0x8D under the AES modulus 0x11B. */
  lemma InverseOfTwo()
    ensures Inverse(2, ScriptModulus) == 0x8E
    ensures Inverse(2, AesModulus) == 0x8D
  {
    TwoTimes(0x8E, ScriptModulus);
    InverseOfWitness(2, 0x8E, ScriptModulus);
    TwoTimes(0x8D, AesModulus);
    InverseOfWitness(2, 0x8D, AesModulus);
  }

  /** The first three S-box entries for the script's parameters; entry 2
      differs from the AES table's 0x77, so the table is not the AES S-box. */
  lemma ScriptSamples()
    ensures SubByte(0, ScriptModulus, ScriptConstant) == 0x63
    ensures SubByte(1, ScriptModulus, ScriptConstant) == 0x7C
    ensures SubByte(2, ScriptModulus, ScriptConstant) == 0x56
    ensures SubByte(2, AesModulus, ScriptConstant) == 0x77
  {
    SubByteZeroOne(ScriptModulus, ScriptConstant);
    InverseOfTwo();
  }

  /** The table computation of the script: for modulus 0x11D and constant
      0x63 the S-box is a permutation of the bytes and the inverse table is
      its exact inverse. */
  method ScriptTables() returns (sbox: seq<Byte>, invSbox: seq<Byte>)
    ensures |sbox| == 256 && |invSbox| == 256
    ensures forall x: Byte :: sbox[x as int] == SubByte(x, ScriptModulus, ScriptConstant)
    ensures Injective(sbox) && Onto(sbox)
    ensures forall i :: 0 <= i < 256 ==> invSbox[sbox[i] as int] as int == i
    ensures forall v: Byte {:trigger invSbox[v as int]} :: sbox[invSbox[v as int] as int] == v
    ensures sbox[0] == 0x63 && sbox[1] == 0x7C && sbox[2] == 0x56
  {
    sbox, invSbox := GenerateSboxAndInverse(ScriptModulus, ScriptConstant);
    ScriptModulusDefinesField();
    SboxIsPermutation(sbox, invSbox, ScriptModulus, ScriptConstant);
    ScriptSamples();
    assert sbox[(0 as Byte) as int] == 0x63;
    assert sbox[(1 as Byte) as int] == 0x7C;
    assert sbox[(2 as Byte) as int] == 0x56;
  }
}

