/** The example of section 1.3 of RFC 6455, worked out: it fixes the constants of SHA-1,
    the order of bytes in words, the alphabet of base64 and the GUID. */
module AcceptExample {
  import opened Bytes
  import opened Text
  import opened Sha1
  import Base64
  import AcceptKey

  /** The key of the example, dGhlIHNhbXBsZSBub25jZQ==, and the GUID, in pieces. */
  const K0: Buf := [100, 71, 104, 108, 73, 72, 78, 104]
  const K1: Buf := [98, 88, 66, 115, 90, 83, 66, 117]
  const K2: Buf := [98, 50, 53, 106, 90, 81, 61, 61]
  const G0: Buf := [50, 53, 56, 69, 65, 70, 65, 53]
  const G1: Buf := [45, 69, 57, 49, 52, 45, 52, 55]
  const G2: Buf := [68, 65, 45, 57, 53, 67, 65, 45]
  const G3: Buf := [67, 53, 65, 66, 48, 68, 67, 56]
  const G4: Buf := [53, 66, 49, 49]

  const KEY: Buf := K0 + K1 + K2

  /** The chaining values after the two blocks of the padded message. */
  const H1 := Hash(0x5BCF7727, 0x7327416A, 0xBE7BFBF9, 0x5A781878, 0x5E46A4E2)
  const H2 := Hash(0xB37A4F2C, 0xC0624F16, 0x90F64606, 0xCF385945, 0xB2BEC4EA)

  // ---- the rounds ---------------------------------------------------------------------

  /** One round: `w` is the word of the schedule and `a` the new first variable. */
  lemma Round(h: Hash, m: Block, t: nat, s: Hash, w: Word, a: Word) returns (n: Hash)
    requires t < 80 && Rounds(h, m, t) == s
    requires if t < 16 then w == m[t] else w == Rotl1(Xor4(W(m, t - 3), W(m, t - 8), W(m, t - 14), W(m, t - 16)))
    requires a == Sum5(Rotl5(s.a), F(t, s.b, s.c, s.d), s.e, K(t), w)
    ensures W(m, t) == w && n == Hash(a, s.a, Rotl30(s.b), s.c, s.d) && Rounds(h, m, t + 1) == n
  {
    hide Rotl1, Rotl5, Rotl30, Xor4, Sum5, F, K;
    n := Hash(a, s.a, Rotl30(s.b), s.c, s.d);
  }

  predicate Words1Are(m: Block) {
    && m[0] == 0x6447686C && m[1] == 0x49484E68 && m[2] == 0x62584273 && m[3] == 0x5A534275
    && m[4] == 0x6232356A && m[5] == 0x5A513D3D && m[6] == 0x32353845 && m[7] == 0x41464135
    && m[8] == 0x2D453931 && m[9] == 0x342D3437 && m[10] == 0x44412D39 && m[11] == 0x3543412D
    && m[12] == 0x43354142 && m[13] == 0x30444338 && m[14] == 0x35423131 && m[15] == 0x80000000
  }

  lemma Rounds1To10(m: Block)
    requires Words1Are(m)
    ensures Rounds(H0, m, 10) == Hash(0xFAAD2675, 0x32BEB05A, 0x4B833980, 0x1CD54FA1, 0x5CC82E5A)
    ensures W(m, 0) == 0x6447686C && W(m, 1) == 0x49484E68 && W(m, 2) == 0x62584273 && W(m, 3) == 0x5A534275
    ensures W(m, 4) == 0x6232356A && W(m, 5) == 0x5A513D3D && W(m, 6) == 0x32353845 && W(m, 7) == 0x41464135
    ensures W(m, 8) == 0x2D453931 && W(m, 9) == 0x342D3437
  {
    hide W, Rounds;
    NoRounds(H0, m);
    var s := H0;
    s := Round(H0, m, 0, s, 0x6447686C, 0x03FC011F);
    s := Round(H0, m, 1, s, 0x49484E68, 0x2F793F55);
    s := Round(H0, m, 2, s, 0x62584273, 0xBE90EE8F);
    s := Round(H0, m, 3, s, 0x5A534275, 0x53E039AC);
    s := Round(H0, m, 4, s, 0x6232356A, 0xDD8C7C12);
    s := Round(H0, m, 5, s, 0x5A513D3D, 0x7320B969);
    s := Round(H0, m, 6, s, 0x32353845, 0x73553E84);
    s := Round(H0, m, 7, s, 0x41464135, 0x2E0CE601);
    s := Round(H0, m, 8, s, 0x2D453931, 0x32BEB05A);
    s := Round(H0, m, 9, s, 0x342D3437, 0xFAAD2675);
  }

  lemma Rounds1To20(m: Block)
    requires Words1Are(m)
    ensures Rounds(H0, m, 20) == Hash(0x091AB97C, 0x8DC510B6, 0xDFAECA5A, 0x75F6BD5D, 0x2801311A)
    ensures W(m, 4) == 0x6232356A && W(m, 5) == 0x5A513D3D && W(m, 6) == 0x32353845 && W(m, 7) == 0x41464135
    ensures W(m, 8) == 0x2D453931 && W(m, 9) == 0x342D3437 && W(m, 10) == 0x44412D39 && W(m, 11) == 0x3543412D
    ensures W(m, 12) == 0x43354142 && W(m, 13) == 0x30444338 && W(m, 14) == 0x35423131 && W(m, 15) == 0x80000000
    ensures W(m, 16) == 0x363CA02C && W(m, 17) == 0x24E81236 && W(m, 18) == 0x8856B441 && W(m, 19) == 0x06FB3C92
  {
    hide W, Rounds;
    Rounds1To10(m);
    var s := Hash(0xFAAD2675, 0x32BEB05A, 0x4B833980, 0x1CD54FA1, 0x5CC82E5A);
    s := Round(H0, m, 10, s, 0x44412D39, 0x5FF4238C);
    s := Round(H0, m, 11, s, 0x3543412D, 0x34CEB986);
    s := Round(H0, m, 12, s, 0x43354142, 0x61BDB2BF);
    s := Round(H0, m, 13, s, 0x30444338, 0xAE1A096E);
    s := Round(H0, m, 14, s, 0x35423131, 0xE922CC9D);
    s := Round(H0, m, 15, s, 0x80000000, 0xA004C468);
    s := Round(H0, m, 16, s, 0x363CA02C, 0xD7DAF575);
    s := Round(H0, m, 17, s, 0x24E81236, 0x7EBB296B);
    s := Round(H0, m, 18, s, 0x8856B441, 0x8DC510B6);
    s := Round(H0, m, 19, s, 0x06FB3C92, 0x091AB97C);
  }

  lemma Rounds1To40(m: Block)
    requires Words1Are(m)
    ensures Rounds(H0, m, 40) == Hash(0x2BA2C83E, 0xD0869081, 0x1A1D8209, 0xD3334889, 0x2779E4F2)
    ensures W(m, 24) == 0x3267458E && W(m, 25) == 0xF828FD04 && W(m, 26) == 0x753A96A7 && W(m, 27) == 0x6336F612
    ensures W(m, 28) == 0xC3D66383 && W(m, 29) == 0x06EB86F9 && W(m, 30) == 0x73B4FD42 && W(m, 31) == 0xA503C5B8
    ensures W(m, 32) == 0x15CDAE35 && W(m, 33) == 0x531E5DC5 && W(m, 34) == 0x6FB6B7D0 && W(m, 35) == 0x6C16E4AC
    ensures W(m, 36) == 0x4DDD36BD && W(m, 37) == 0x35D36946 && W(m, 38) == 0xE8AE8B9C && W(m, 39) == 0x4A933AD0
  {
    hide W, Rounds, Words1Are;
    Rounds1To20(m);
    var s := Hash(0x091AB97C, 0x8DC510B6, 0xDFAECA5A, 0x75F6BD5D, 0x2801311A);
    s := Round(H0, m, 20, s, 0x6FB4BCB6, 0x518470A3);
    s := Round(H0, m, 21, s, 0x460B16E3, 0xD12F0B56);
    s := Round(H0, m, 22, s, 0x599219AE, 0xBEAFD554);
    s := Round(H0, m, 23, s, 0x35BF9369, 0x250E26EF);
    s := Round(H0, m, 24, s, 0x3267458E, 0x23D1C91B);
    s := Round(H0, m, 25, s, 0xF828FD04, 0x748B39A0);
    s := Round(H0, m, 26, s, 0x753A96A7, 0xEF012F20);
    s := Round(H0, m, 27, s, 0x6336F612, 0x571F7D82);
    s := Round(H0, m, 28, s, 0xC3D66383, 0x1ABB1C37);
    s := Round(H0, m, 29, s, 0x06EB86F9, 0x081B63E5);
    s := Round(H0, m, 30, s, 0x73B4FD42, 0xB7DABC8B);
    s := Round(H0, m, 31, s, 0xA503C5B8, 0xA6680A1F);
    s := Round(H0, m, 32, s, 0x15CDAE35, 0x1AE360A9);
    s := Round(H0, m, 33, s, 0x531E5DC5, 0xEEABA35A);
    s := Round(H0, m, 34, s, 0x6FB6B7D0, 0x149BB4D3);
    s := Round(H0, m, 35, s, 0x6C16E4AC, 0x9DE793C8);
    s := Round(H0, m, 36, s, 0x4DDD36BD, 0x4CCD2227);
    s := Round(H0, m, 37, s, 0x35D36946, 0x68760824);
    s := Round(H0, m, 38, s, 0xE8AE8B9C, 0xD0869081);
    s := Round(H0, m, 39, s, 0x4A933AD0, 0x2BA2C83E);
  }

  lemma Rounds1To60(m: Block)
    requires Words1Are(m)
    ensures Rounds(H0, m, 60) == Hash(0x4872D85A, 0xD284F163, 0x83091F0B, 0x1BBDBFBD, 0x9F8490BC)
    ensures W(m, 44) == 0x79C425C5 && W(m, 45) == 0x6353B49D && W(m, 46) == 0x00994218 && W(m, 47) == 0x8A950ED1
    ensures W(m, 48) == 0xAF5D0B99 && W(m, 49) == 0xFD9883DE && W(m, 50) == 0x1ED8FFEB && W(m, 51) == 0xF007FF28
    ensures W(m, 52) == 0x425E3674 && W(m, 53) == 0x059631C0 && W(m, 54) == 0xAD6C3C31 && W(m, 55) == 0x860B71D7
    ensures W(m, 56) == 0x87BFC548 && W(m, 57) == 0x3E64F92D && W(m, 58) == 0x8D0AB761 && W(m, 59) == 0x34E1EE35
  {
    hide W, Rounds, Words1Are;
    Rounds1To40(m);
    var s := Hash(0x2BA2C83E, 0xD0869081, 0x1A1D8209, 0xD3334889, 0x2779E4F2);
    s := Round(H0, m, 40, s, 0xCE8628B4, 0xCB8C52D0);
    s := Round(H0, m, 41, s, 0x415DBA9E, 0x4F589A44);
    s := Round(H0, m, 42, s, 0x2792F049, 0x868829B7);
    s := Round(H0, m, 43, s, 0x8E9B79E7, 0x6DC6A3D7);
    s := Round(H0, m, 44, s, 0x79C425C5, 0x5F5F3452);
    s := Round(H0, m, 45, s, 0x6353B49D, 0x72FF334D);
    s := Round(H0, m, 46, s, 0x00994218, 0xDEE4B7A8);
    s := Round(H0, m, 47, s, 0x8A950ED1, 0xABE1748A);
    s := Round(H0, m, 48, s, 0xAF5D0B99, 0x7510D04F);
    s := Round(H0, m, 49, s, 0xFD9883DE, 0x065F8486);
    s := Round(H0, m, 50, s, 0x1ED8FFEB, 0x0E5D77C4);
    s := Round(H0, m, 51, s, 0xF007FF28, 0x10E7F671);
    s := Round(H0, m, 52, s, 0x425E3674, 0x26C69395);
    s := Round(H0, m, 53, s, 0x059631C0, 0x4C608AC4);
    s := Round(H0, m, 54, s, 0xAD6C3C31, 0x50C9104C);
    s := Round(H0, m, 55, s, 0x860B71D7, 0x7E1242F2);
    s := Round(H0, m, 56, s, 0x87BFC548, 0x6EF6FEF4);
    s := Round(H0, m, 57, s, 0x3E64F92D, 0x0C247C2E);
    s := Round(H0, m, 58, s, 0x8D0AB761, 0xD284F163);
    s := Round(H0, m, 59, s, 0x34E1EE35, 0x4872D85A);
  }

  lemma Rounds1To80(m: Block)
    requires Words1Are(m)
    ensures Rounds(H0, m, 80) == Hash(0xF48A5426, 0x835995E1, 0x25C11EFB, 0x4A45C402, 0x9A73C2F2)
  {
    hide W, Rounds, Words1Are;
    Rounds1To60(m);
    var s := Hash(0x4872D85A, 0xD284F163, 0x83091F0B, 0x1BBDBFBD, 0x9F8490BC);
    s := Round(H0, m, 60, s, 0x0ACF5108, 0xCD4200B8);
    s := Round(H0, m, 61, s, 0xC2B479DA, 0x90F00D8F);
    s := Round(H0, m, 62, s, 0x6C93370A, 0x840054D3);
    s := Round(H0, m, 63, s, 0xF7935BA1, 0x685E2FF6);
    s := Round(H0, m, 64, s, 0xE91C91C1, 0xA4CEE018);
    s := Round(H0, m, 65, s, 0xBED165A2, 0xC3C2E45B);
    s := Round(H0, m, 66, s, 0x4C3E4ABE, 0x53131A40);
    s := Round(H0, m, 67, s, 0x50D96238, 0xCF8658EC);
    s := Round(H0, m, 68, s, 0xB6587DDE, 0x966E049A);
    s := Round(H0, m, 69, s, 0x1A2EE6E6, 0x07381B7E);
    s := Round(H0, m, 70, s, 0x2D335896, 0x80D59773);
    s := Round(H0, m, 71, s, 0xF3495D0B, 0x7E65E044);
    s := Round(H0, m, 72, s, 0xF30E0A1D, 0x628E7B47);
    s := Round(H0, m, 73, s, 0x32CE5459, 0x143A8388);
    s := Round(H0, m, 74, s, 0x7165E3B8, 0xE20983F9);
    s := Round(H0, m, 75, s, 0xAB05FF94, 0x69CF0BCA);
    s := Round(H0, m, 76, s, 0xC5949F0B, 0x29171009);
    s := Round(H0, m, 77, s, 0xBCD84E4A, 0x97047BEC);
    s := Round(H0, m, 78, s, 0x07720392, 0x835995E1);
    s := Round(H0, m, 79, s, 0xFF3FF806, 0xF48A5426);
  }

  predicate Words2Are(m: Block) {
    && m[0] == 0x00000000 && m[1] == 0x00000000 && m[2] == 0x00000000 && m[3] == 0x00000000
    && m[4] == 0x00000000 && m[5] == 0x00000000 && m[6] == 0x00000000 && m[7] == 0x00000000
    && m[8] == 0x00000000 && m[9] == 0x00000000 && m[10] == 0x00000000 && m[11] == 0x00000000
    && m[12] == 0x00000000 && m[13] == 0x00000000 && m[14] == 0x00000000 && m[15] == 0x000001E0
  }

  lemma Rounds2To10(m: Block)
    requires Words2Are(m)
    ensures Rounds(H1, m, 10) == Hash(0x0B0814C3, 0x80946593, 0x8970062F, 0xACEEF2BF, 0xE4E97BEE)
    ensures W(m, 0) == 0x00000000 && W(m, 1) == 0x00000000 && W(m, 2) == 0x00000000 && W(m, 3) == 0x00000000
    ensures W(m, 4) == 0x00000000 && W(m, 5) == 0x00000000 && W(m, 6) == 0x00000000 && W(m, 7) == 0x00000000
    ensures W(m, 8) == 0x00000000 && W(m, 9) == 0x00000000
  {
    hide W, Rounds;
    NoRounds(H1, m);
    var s := H1;
    s := Round(H1, m, 0, s, 0x00000000, 0x6D335CDE);
    s := Round(H1, m, 1, s, 0x00000000, 0x186006B8);
    s := Round(H1, m, 2, s, 0x00000000, 0xF9FB295D);
    s := Round(H1, m, 3, s, 0x00000000, 0x15855523);
    s := Round(H1, m, 4, s, 0x00000000, 0xE43DD2F2);
    s := Round(H1, m, 5, s, 0x00000000, 0x93A5EFBB);
    s := Round(H1, m, 6, s, 0x00000000, 0xB3BBCAFE);
    s := Round(H1, m, 7, s, 0x00000000, 0x25C018BE);
    s := Round(H1, m, 8, s, 0x00000000, 0x80946593);
    s := Round(H1, m, 9, s, 0x00000000, 0x0B0814C3);
  }

  lemma Rounds2To20(m: Block)
    requires Words2Are(m)
    ensures Rounds(H1, m, 20) == Hash(0x2A008B51, 0x2F193A09, 0x9C8663C1, 0x8EB5D103, 0x261B7C9A)
    ensures W(m, 4) == 0x00000000 && W(m, 5) == 0x00000000 && W(m, 6) == 0x00000000 && W(m, 7) == 0x00000000
    ensures W(m, 8) == 0x00000000 && W(m, 9) == 0x00000000 && W(m, 10) == 0x00000000 && W(m, 11) == 0x00000000
    ensures W(m, 12) == 0x00000000 && W(m, 13) == 0x00000000 && W(m, 14) == 0x00000000 && W(m, 15) == 0x000001E0
    ensures W(m, 16) == 0x00000000 && W(m, 17) == 0x00000000 && W(m, 18) == 0x000003C0 && W(m, 19) == 0x00000000
  {
    hide W, Rounds;
    Rounds2To10(m);
    var s := Hash(0x0B0814C3, 0x80946593, 0x8970062F, 0xACEEF2BF, 0xE4E97BEE);
    s := Round(H1, m, 10, s, 0x00000000, 0x4CE92417);
    s := Round(H1, m, 11, s, 0x00000000, 0x250601AD);
    s := Round(H1, m, 12, s, 0x00000000, 0x6576D2DC);
    s := Round(H1, m, 13, s, 0x00000000, 0xAD43F39E);
    s := Round(H1, m, 14, s, 0x00000000, 0x990B7BE7);
    s := Round(H1, m, 15, s, 0x000001E0, 0x986DF268);
    s := Round(H1, m, 16, s, 0x00000000, 0x3AD7440E);
    s := Round(H1, m, 17, s, 0x00000000, 0x72198F06);
    s := Round(H1, m, 18, s, 0x000003C0, 0x2F193A09);
    s := Round(H1, m, 19, s, 0x00000000, 0x2A008B51);
  }

  lemma Rounds2To40(m: Block)
    requires Words2Are(m)
    ensures Rounds(H1, m, 40) == Hash(0x6F698F1A, 0xC6FF0CD3, 0xDE5AB7BC, 0x5F6F3CBB, 0x1DA48A85)
    ensures W(m, 24) == 0x00000F00 && W(m, 25) == 0x00000000 && W(m, 26) == 0x00000000 && W(m, 27) == 0x00001E00
    ensures W(m, 28) == 0x00000000 && W(m, 29) == 0x00000CC0 && W(m, 30) == 0x00003C00 && W(m, 31) == 0x00000440
    ensures W(m, 32) == 0x00000000 && W(m, 33) == 0x00007800 && W(m, 34) == 0x00000F00 && W(m, 35) == 0x00003300
    ensures W(m, 36) == 0x0000F000 && W(m, 37) == 0x00000F00 && W(m, 38) == 0x00000000 && W(m, 39) == 0x0001EF00
  {
    hide W, Rounds, Words2Are;
    Rounds2To20(m);
    var s := Hash(0x2A008B51, 0x2F193A09, 0x9C8663C1, 0x8EB5D103, 0x261B7C9A);
    s := Round(H1, m, 20, s, 0x00000000, 0x12315B2B);
    s := Round(H1, m, 21, s, 0x00000780, 0x40FBCF98);
    s := Round(H1, m, 22, s, 0x00000000, 0x3E5179E7);
    s := Round(H1, m, 23, s, 0x000003C0, 0x53C73650);
    s := Round(H1, m, 24, s, 0x00000F00, 0x1D24C44A);
    s := Round(H1, m, 25, s, 0x00000000, 0x646C677D);
    s := Round(H1, m, 26, s, 0x00000000, 0xD2E726DA);
    s := Round(H1, m, 27, s, 0x00001E00, 0x9327DF6F);
    s := Round(H1, m, 28, s, 0x00000000, 0xF57CB53E);
    s := Round(H1, m, 29, s, 0x00000CC0, 0x243EE057);
    s := Round(H1, m, 30, s, 0x00003C00, 0xF4DDD7B7);
    s := Round(H1, m, 31, s, 0x00000440, 0x3CF6EB58);
    s := Round(H1, m, 32, s, 0x00000000, 0x730E9170);
    s := Round(H1, m, 33, s, 0x00007800, 0x96D9E59E);
    s := Round(H1, m, 34, s, 0x00000F00, 0x942AC4D3);
    s := Round(H1, m, 35, s, 0x00003300, 0x76922A14);
    s := Round(H1, m, 36, s, 0x0000F000, 0x7DBCF2ED);
    s := Round(H1, m, 37, s, 0x00000F00, 0x796ADEF3);
    s := Round(H1, m, 38, s, 0x00000000, 0xC6FF0CD3);
    s := Round(H1, m, 39, s, 0x0001EF00, 0x6F698F1A);
  }

  lemma Rounds2To60(m: Block)
    requires Words2Are(m)
    ensures Rounds(H1, m, 60) == Hash(0x56119F19, 0x085EB2FE, 0x484A25C5, 0xC140CFE8, 0x686DA050)
    ensures W(m, 44) == 0x00000000 && W(m, 45) == 0x00078F00 && W(m, 46) == 0x0000FF00 && W(m, 47) == 0x00032680
    ensures W(m, 48) == 0x000F0000 && W(m, 49) == 0x0000F000 && W(m, 50) == 0x00003300 && W(m, 51) == 0x001EFF00
    ensures W(m, 52) == 0x00000000 && W(m, 53) == 0x000CB800 && W(m, 54) == 0x003C0000 && W(m, 55) == 0x00040B00
    ensures W(m, 56) == 0x0000F000 && W(m, 57) == 0x0078FF00 && W(m, 58) == 0x000FF000 && W(m, 59) == 0x00338700
  {
    hide W, Rounds, Words2Are;
    Rounds2To40(m);
    var s := Hash(0x6F698F1A, 0xC6FF0CD3, 0xDE5AB7BC, 0x5F6F3CBB, 0x1DA48A85);
    s := Round(H1, m, 40, s, 0x00000000, 0x78716769);
    s := Round(H1, m, 41, s, 0x0000CC00, 0xFC343A02);
    s := Round(H1, m, 42, s, 0x0003C000, 0xEDFCD85B);
    s := Round(H1, m, 43, s, 0x00004380, 0x1E934ACF);
    s := Round(H1, m, 44, s, 0x00000000, 0xFC7BD35F);
    s := Round(H1, m, 45, s, 0x00078F00, 0x3BD9203B);
    s := Round(H1, m, 46, s, 0x0000FF00, 0xC8CDA3DA);
    s := Round(H1, m, 47, s, 0x00032680, 0xA3EF857E);
    s := Round(H1, m, 48, s, 0x000F0000, 0xA39F2041);
    s := Round(H1, m, 49, s, 0x0000F000, 0xA516F265);
    s := Round(H1, m, 50, s, 0x00003300, 0xA3ABE4F5);
    s := Round(H1, m, 51, s, 0x001EFF00, 0x5FE2A3DB);
    s := Round(H1, m, 52, s, 0x00000000, 0x9E540637);
    s := Round(H1, m, 53, s, 0x000CB800, 0x2C73BD78);
    s := Round(H1, m, 54, s, 0x003C0000, 0x660DD0B1);
    s := Round(H1, m, 55, s, 0x00040B00, 0xA1B68141);
    s := Round(H1, m, 56, s, 0x0000F000, 0x05033FA3);
    s := Round(H1, m, 57, s, 0x0078FF00, 0x21289715);
    s := Round(H1, m, 58, s, 0x000FF000, 0x085EB2FE);
    s := Round(H1, m, 59, s, 0x00338700, 0x56119F19);
  }

  lemma Rounds2To80(m: Block)
    requires Words2Are(m)
    ensures Rounds(H1, m, 80) == Hash(0x57AAD805, 0x4D3B0DAC, 0xD27A4A0D, 0x74C040CD, 0x54782008)
  {
    hide W, Rounds, Words2Are;
    Rounds2To60(m);
    var s := Hash(0x56119F19, 0x085EB2FE, 0x484A25C5, 0xC140CFE8, 0x686DA050);
    s := Round(H1, m, 60, s, 0x00F00000, 0x77489E23);
    s := Round(H1, m, 61, s, 0x000FC300, 0x11132F8F);
    s := Round(H1, m, 62, s, 0x0000F000, 0xD5EF1ED7);
    s := Round(H1, m, 63, s, 0x01EFBB00, 0xA5937450);
    s := Round(H1, m, 64, s, 0x00000000, 0x9ECFA66C);
    s := Round(H1, m, 65, s, 0x00CC0000, 0x17A22EF7);
    s := Round(H1, m, 66, s, 0x03C0F000, 0xC97F1968);
    s := Round(H1, m, 67, s, 0x00438000, 0x097A511C);
    s := Round(H1, m, 68, s, 0x00000000, 0x4E363DB9);
    s := Round(H1, m, 69, s, 0x078F0000, 0xBF3A7F95);
    s := Round(H1, m, 70, s, 0x00FF0000, 0xF6D1AFEE);
    s := Round(H1, m, 71, s, 0x03269E00, 0xC90888CA);
    s := Round(H1, m, 72, s, 0x0F000000, 0xC7652EDB);
    s := Round(H1, m, 73, s, 0x00F0F000, 0x26F99990);
    s := Round(H1, m, 74, s, 0x00333C00, 0xE22B36D1);
    s := Round(H1, m, 75, s, 0x1EFF8800, 0x51E08021);
    s := Round(H1, m, 76, s, 0x00000000, 0xD3010335);
    s := Round(H1, m, 77, s, 0x0CB88800, 0x49E92837);
    s := Round(H1, m, 78, s, 0x3C00F000, 0x4D3B0DAC);
    s := Round(H1, m, 79, s, 0x040A4A00, 0x57AAD805);
  }

  lemma NoRounds(h: Hash, m: Block)
    ensures Rounds(h, m, 0) == h
  {
  }

  lemma BothAbsorbed(m1: Block, m2: Block)
    requires Words1Are(m1) && Words2Are(m2)
    ensures Absorb(H0, m1) == H1 && Absorb(H1, m2) == H2
  {
    hide Rounds, W, Words1Are, Words2Are;
    Rounds1To80(m1);
    Rounds2To80(m2);
  }

  // ---- the padded message ------------------------------------------------------------

  lemma WordIs(p: Buf, i: nat, b0: Word, b1: Word, b2: Word, b3: Word)
    requires i + 4 <= |p| && b0 < 256 && b1 < 256 && b2 < 256 && b3 < 256
    requires p[i] == b0 as byte && p[i + 1] == b1 as byte && p[i + 2] == b2 as byte && p[i + 3] == b3 as byte
    ensures WordAt(p, i) == (b0 << 24) | (b1 << 16) | (b2 << 8) | b3
  {
    ByteIs(p[i], b0);
    ByteIs(p[i + 1], b1);
    ByteIs(p[i + 2], b2);
    ByteIs(p[i + 3], b3);
  }

  lemma ByteIs(b: byte, w: Word)
    requires w < 256 && b == w as byte
    ensures b as bv32 == w
  {
  }

  lemma Words1(p: Buf)
    requires |p| == 128 && p[0..8] == [100, 71, 104, 108, 73, 72, 78, 104]
    ensures WordAt(p, 0) == 0x6447686C && WordAt(p, 4) == 0x49484E68
  {
    hide WordAt;
    Eight(p, 0);
    WordIs(p, 0, 100, 71, 104, 108);
    WordIs(p, 4, 73, 72, 78, 104);
  }

  lemma Words2(p: Buf)
    requires |p| == 128 && p[8..16] == [98, 88, 66, 115, 90, 83, 66, 117]
    ensures WordAt(p, 8) == 0x62584273 && WordAt(p, 12) == 0x5A534275
  {
    hide WordAt;
    Eight(p, 8);
    WordIs(p, 8, 98, 88, 66, 115);
    WordIs(p, 12, 90, 83, 66, 117);
  }

  lemma Words3(p: Buf)
    requires |p| == 128 && p[16..24] == [98, 50, 53, 106, 90, 81, 61, 61]
    ensures WordAt(p, 16) == 0x6232356A && WordAt(p, 20) == 0x5A513D3D
  {
    hide WordAt;
    Eight(p, 16);
    WordIs(p, 16, 98, 50, 53, 106);
    WordIs(p, 20, 90, 81, 61, 61);
  }

  lemma Words4(p: Buf)
    requires |p| == 128 && p[24..32] == [50, 53, 56, 69, 65, 70, 65, 53]
    ensures WordAt(p, 24) == 0x32353845 && WordAt(p, 28) == 0x41464135
  {
    hide WordAt;
    Eight(p, 24);
    WordIs(p, 24, 50, 53, 56, 69);
    WordIs(p, 28, 65, 70, 65, 53);
  }

  lemma Words5(p: Buf)
    requires |p| == 128 && p[32..40] == [45, 69, 57, 49, 52, 45, 52, 55]
    ensures WordAt(p, 32) == 0x2D453931 && WordAt(p, 36) == 0x342D3437
  {
    hide WordAt;
    Eight(p, 32);
    WordIs(p, 32, 45, 69, 57, 49);
    WordIs(p, 36, 52, 45, 52, 55);
  }

  lemma Words6(p: Buf)
    requires |p| == 128 && p[40..48] == [68, 65, 45, 57, 53, 67, 65, 45]
    ensures WordAt(p, 40) == 0x44412D39 && WordAt(p, 44) == 0x3543412D
  {
    hide WordAt;
    Eight(p, 40);
    WordIs(p, 40, 68, 65, 45, 57);
    WordIs(p, 44, 53, 67, 65, 45);
  }

  lemma Words7(p: Buf)
    requires |p| == 128 && p[48..56] == [67, 53, 65, 66, 48, 68, 67, 56]
    ensures WordAt(p, 48) == 0x43354142 && WordAt(p, 52) == 0x30444338
  {
    hide WordAt;
    Eight(p, 48);
    WordIs(p, 48, 67, 53, 65, 66);
    WordIs(p, 52, 48, 68, 67, 56);
  }

  lemma Words8(p: Buf)
    requires |p| == 128 && p[56..64] == [53, 66, 49, 49, 128, 0, 0, 0]
    ensures WordAt(p, 56) == 0x35423131 && WordAt(p, 60) == 0x80000000
  {
    hide WordAt;
    Eight(p, 56);
    WordIs(p, 56, 53, 66, 49, 49);
    WordIs(p, 60, 128, 0, 0, 0);
  }

  lemma Eight(p: Buf, i: nat)
    requires i + 8 <= |p|
    ensures var q := p[i..i + 8];
            && p[i] == q[0] && p[i + 1] == q[1] && p[i + 2] == q[2] && p[i + 3] == q[3]
            && p[i + 4] == q[4] && p[i + 5] == q[5] && p[i + 6] == q[6] && p[i + 7] == q[7]
  {
  }

  lemma LastWords(p: Buf)
    requires |p| == 128 && (forall k :: 64 <= k < 126 ==> p[k] == 0) && p[126] == 1 && p[127] == 224
    ensures (forall i :: 0 <= i < 15 ==> WordAt(p, 64 + i * 4) == 0) && WordAt(p, 124) == 0x000001E0
  {
    hide WordAt;
    forall i | 0 <= i < 15
      ensures WordAt(p, 64 + i * 4) == 0
    {
      WordIs(p, 64 + i * 4, 0, 0, 0, 0);
    }
    WordIs(p, 124, 0, 0, 1, 224);
  }

  lemma AsciiAppend(s: string, t: string)
    ensures Ascii(s + t) == Ascii(s) + Ascii(t)
  {
  }

  lemma GuidText()
    ensures "258EAFA5-E914-47DA-95CA-C5AB0DC85B11" == "258EAFA5-E914-47" + "DA-95CA-C5AB0DC85B11"
  {
  }

  lemma GuidFront()
    ensures Ascii("258EAFA5-E914-47") == G0 + G1
  {
  }

  lemma GuidBack()
    ensures Ascii("DA-95CA-C5AB0DC85B11") == G2 + G3 + G4
  {
  }

  lemma GuidIs()
    ensures AcceptKey.GUID == (G0 + G1) + (G2 + G3 + G4)
  {
    hide Ascii;
    GuidText();
    AsciiAppend("258EAFA5-E914-47", "DA-95CA-C5AB0DC85B11");
    GuidFront();
    GuidBack();
  }

  lemma LengthIs()
    ensures Put(480, 8) == Zeros(6) + [1, 224]
  {
    hide Put;
    PutOne(480, 8);
    PutOne(1, 7);
    NothingPut(6);
    assert (Zeros(6) + [1]) + [224] == Zeros(6) + [1, 224];
  }

  lemma PutOne(v: nat, k: nat)
    requires k > 0
    ensures Put(v, k) == Put(v / 256, k - 1) + [(v % 256) as byte]
  {
  }

  lemma {:induction false} NothingPut(n: nat)
    ensures Put(0, n) == Zeros(n)
  {
    if n > 0 { NothingPut(n - 1); }
  }

  lemma PaddedIs()
    ensures var p := Pad(KEY + AcceptKey.GUID);
            && |p| == 128
            && p[0..8] == K0 && p[8..16] == K1 && p[16..24] == K2 && p[24..32] == G0 && p[32..40] == G1
            && p[40..48] == G2 && p[48..56] == G3 && p[56..64] == G4 + [128, 0, 0, 0]
            && (forall k :: 64 <= k < 126 ==> p[k] == 0) && p[126] == 1 && p[127] == 224
  {
    hide Put, Pad;
    GuidIs();
    LengthIs();
    PadIs(KEY + AcceptKey.GUID);
    Pieces(K0, K1, K2, G0, G1, G2, G3, G4, Pad(KEY + AcceptKey.GUID));
  }

  lemma PadIs(data: Buf)
    requires |data| == 60 && Put(480, 8) == Zeros(6) + [1, 224]
    ensures var p := Pad(data);
            && |p| == 128 && p[..60] == data && p[60] == 128
            && (forall k :: 61 <= k < 126 ==> p[k] == 0) && p[126] == 1 && p[127] == 224
  {
    hide Put;
    var p := Pad(data);
    assert PadZeros(60) == 59;
    assert p[120..] == Zeros(6) + [1, 224];
    assert forall k :: 120 <= k < 128 ==> p[k] == p[120..][k - 120];
  }

  lemma Pieces(k0: Buf, k1: Buf, k2: Buf, g0: Buf, g1: Buf, g2: Buf, g3: Buf, g4: Buf, p: Buf)
    requires |k0| == |k1| == |k2| == |g0| == |g1| == |g2| == |g3| == 8 && |g4| == 4
    requires |p| == 128 && p[..60] == k0 + k1 + k2 + ((g0 + g1) + (g2 + g3 + g4))
    requires p[60] == 128 && p[61] == 0 && p[62] == 0 && p[63] == 0
    ensures p[0..8] == k0 && p[8..16] == k1 && p[16..24] == k2 && p[24..32] == g0 && p[32..40] == g1
    ensures p[40..48] == g2 && p[48..56] == g3 && p[56..64] == g4 + [128, 0, 0, 0]
  {
    var front := p[..60];
    assert p[0..8] == front[0..8] && p[8..16] == front[8..16] && p[16..24] == front[16..24] && p[24..32] == front[24..32];
    assert p[32..40] == front[32..40] && p[40..48] == front[40..48] && p[48..56] == front[48..56];
    assert p[56..60] == front[56..60] == g4;
    assert p[56..64] == p[56..60] + [p[60], p[61], p[62], p[63]];
  }

  lemma BlocksAre()
    ensures var p := Pad(KEY + AcceptKey.GUID);
            |p| == 128 && Words1Are(BlockAt(p, 0)) && Words2Are(BlockAt(p, 64))
  {
    hide WordAt, Pad;
    PaddedIs();
    var p := Pad(KEY + AcceptKey.GUID);
    Words1(p);
    Words2(p);
    Words3(p);
    Words4(p);
    Words5(p);
    Words6(p);
    Words7(p);
    Words8(p);
    LastWords(p);
  }

  lemma DigestIs()
    ensures Digest(KEY + AcceptKey.GUID) == WordBytes(H2.a) + WordBytes(H2.b) + WordBytes(H2.c) + WordBytes(H2.d) + WordBytes(H2.e)
  {
    hide Absorb, BlockAt, Pad, WordBytes, Words1Are, Words2Are;
    BlocksAre();
    var p := Pad(KEY + AcceptKey.GUID);
    BothAbsorbed(BlockAt(p, 0), BlockAt(p, 64));
    assert AbsorbAll(H0, p, 0) == AbsorbAll(H1, p, 64);
    assert AbsorbAll(H1, p, 64) == AbsorbAll(H2, p, 128);
    assert AbsorbAll(H2, p, 128) == H2;
  }

  lemma DigestBytes()
    ensures WordBytes(H2.a) + WordBytes(H2.b) + WordBytes(H2.c) + WordBytes(H2.d) + WordBytes(H2.e)
            == [179, 122, 79, 44, 192, 98, 79, 22, 144, 246, 70, 6, 207, 56, 89, 69, 178, 190, 196, 234]
  {
    hide WordBytes;
    BytesOf(H2.a, 0xB3, 0x7A, 0x4F, 0x2C);
    BytesOf(H2.b, 0xC0, 0x62, 0x4F, 0x16);
    BytesOf(H2.c, 0x90, 0xF6, 0x46, 0x06);
    BytesOf(H2.d, 0xCF, 0x38, 0x59, 0x45);
    BytesOf(H2.e, 0xB2, 0xBE, 0xC4, 0xEA);
  }

  lemma BytesOf(w: Word, b0: Word, b1: Word, b2: Word, b3: Word)
    requires w == (b0 << 24) | (b1 << 16) | (b2 << 8) | b3 && b0 < 256 && b1 < 256 && b2 < 256 && b3 < 256
    ensures WordBytes(w) == [b0 as byte, b1 as byte, b2 as byte, b3 as byte]
  {
    ShiftedOut(b0, b1, b2, b3);
  }

  lemma ShiftedOut(b0: Word, b1: Word, b2: Word, b3: Word)
    requires b0 < 256 && b1 < 256 && b2 < 256 && b3 < 256
    ensures var w := (b0 << 24) | (b1 << 16) | (b2 << 8) | b3;
            (w >> 24) & 0xFF == b0 && (w >> 16) & 0xFF == b1 && (w >> 8) & 0xFF == b2 && w & 0xFF == b3
  {
  }

  /** One group of three bytes and its four characters. */
  lemma Three(a: byte, b: byte, c: byte, rest: Buf, v3: nat, v2: nat, v1: nat, v0: nat)
    requires v3 < 64 && v2 < 64 && v1 < 64 && v0 < 64 && Base64.Group(a, b, c) == Base64.Join(v3, v2, v1, v0)
    ensures Base64.Encode([a, b, c] + rest)
            == [Base64.Symbol(v3), Base64.Symbol(v2), Base64.Symbol(v1), Base64.Symbol(v0)] + Base64.Encode(rest)
  {
    hide Base64.Group, Base64.Symbol, Base64.Sextet;
    var n := Base64.Group(a, b, c);
    SextetsAre(n, v3, v2, v1, v0);
    var data := [a, b, c] + rest;
    assert data[3..] == rest && data[0] == a && data[1] == b && data[2] == c;
  }

  lemma SextetsAre(n: nat, v3: nat, v2: nat, v1: nat, v0: nat)
    requires v3 < 64 && v2 < 64 && v1 < 64 && v0 < 64 && n == ((v3 * 64 + v2) * 64 + v1) * 64 + v0
    ensures Base64.Sextet(n, 3) == v3 && Base64.Sextet(n, 2) == v2 && Base64.Sextet(n, 1) == v1 && Base64.Sextet(n, 0) == v0
  {
    Base64.SextetStep(n, 0);
    Base64.SextetStep(n, 1);
    Base64.SextetStep(n, 2);
    assert n / 64 == (v3 * 64 + v2) * 64 + v1 && n % 64 == v0;
    Base64.SextetStep(n / 64, 0);
    Base64.SextetStep(n / 64, 1);
    assert n / 64 / 64 == v3 * 64 + v2 && n / 64 % 64 == v1;
    Base64.SextetStep(n / 64 / 64, 0);
    assert n / 64 / 64 / 64 == v3 && n / 64 / 64 % 64 == v2;
  }

  lemma Two(a: byte, b: byte, v3: nat, v2: nat, v1: nat)
    requires v3 < 64 && v2 < 64 && v1 < 64 && Base64.Group(a, b, 0) == Base64.Join(v3, v2, v1, 0)
    ensures Base64.Encode([a, b]) == [Base64.Symbol(v3), Base64.Symbol(v2), Base64.Symbol(v1), 61]
  {
    hide Base64.Group, Base64.Symbol, Base64.Sextet;
    SextetsAre(Base64.Group(a, b, 0), v3, v2, v1, 0);
  }

  lemma EncodedBack()
    ensures Base64.Encode([207, 56, 89, 69, 178, 190, 196, 234])
            == [122, 122, 104, 90, 82, 98, 75, 43, 120, 79, 111, 61]
  {
    hide Base64.Encode;
    var r1: Buf := [69, 178, 190, 196, 234];
    Three(207, 56, 89, r1, 51, 51, 33, 25);
    assert [207, 56, 89, 69, 178, 190, 196, 234] == [207, 56, 89] + r1;
    var r2: Buf := [196, 234];
    Three(69, 178, 190, r2, 17, 27, 10, 62);
    assert r1 == [69, 178, 190] + r2;
    Two(196, 234, 49, 14, 40);
  }

  lemma EncodedMiddle()
    ensures Base64.Encode([79, 22, 144, 246, 70, 6, 207, 56, 89, 69, 178, 190, 196, 234])
            == [84, 120, 97, 81, 57, 107, 89, 71, 122, 122, 104, 90, 82, 98, 75, 43, 120, 79, 111, 61]
  {
    hide Base64.Encode;
    var r1: Buf := [246, 70, 6, 207, 56, 89, 69, 178, 190, 196, 234];
    Three(79, 22, 144, r1, 19, 49, 26, 16);
    assert [79, 22, 144, 246, 70, 6, 207, 56, 89, 69, 178, 190, 196, 234] == [79, 22, 144] + r1;
    var r2: Buf := [207, 56, 89, 69, 178, 190, 196, 234];
    Three(246, 70, 6, r2, 61, 36, 24, 6);
    assert r1 == [246, 70, 6] + r2;
    EncodedBack();
  }

  lemma EncodedIs()
    ensures Base64.Encode([179, 122, 79, 44, 192, 98, 79, 22, 144, 246, 70, 6, 207, 56, 89, 69, 178, 190, 196, 234])
            == [115, 51, 112, 80, 76, 77, 66, 105, 84, 120, 97, 81, 57, 107, 89, 71, 122, 122, 104, 90, 82, 98, 75, 43, 120, 79, 111, 61]
  {
    hide Base64.Encode;
    var r1: Buf := [44, 192, 98, 79, 22, 144, 246, 70, 6, 207, 56, 89, 69, 178, 190, 196, 234];
    Three(179, 122, 79, r1, 44, 55, 41, 15);
    assert [179, 122, 79, 44, 192, 98, 79, 22, 144, 246, 70, 6, 207, 56, 89, 69, 178, 190, 196, 234] == [179, 122, 79] + r1;
    var r2: Buf := [79, 22, 144, 246, 70, 6, 207, 56, 89, 69, 178, 190, 196, 234];
    Three(44, 192, 98, r2, 11, 12, 1, 34);
    assert r1 == [44, 192, 98] + r2;
    EncodedMiddle();
  }

  /** Section 1.3 of RFC 6455: the key dGhlIHNhbXBsZSBub25jZQ== is answered with
      s3pPLMBiTxaQ9kYGzzhZRbK+xOo=. */
  lemma AcceptExample()
    ensures AcceptKey.Accept(KEY) == [115, 51, 112, 80, 76, 77, 66, 105, 84, 120, 97, 81, 57, 107, 89, 71, 122, 122, 104, 90, 82, 98, 75, 43, 120, 79, 111, 61]
  {
    hide Base64.Encode, Digest, WordBytes;
    DigestIs();
    DigestBytes();
    EncodedIs();
  }}
