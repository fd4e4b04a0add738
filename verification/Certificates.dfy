/**
 The rows of the table of powers of ten that the printing of a binary64 number can use, from 10^-307 to 10^344. For each
 row except those from 10^-27 to 10^27 there are two vectors that bound the residues of its multiples from below.
 */
module Certificates {
  import opened Words
  import opened Powers
  import opened Scaling
  import opened NearMiss
  import opened Lattice

  /** The mantissa of 10^(28 + 10 * k), to 136 bits. */
  function UpTo(k: int): nat {
    match k
    case 0 => 0x813f3978f8940984400000000000000000 case 1 => 0x96769950b50d88f4131444800000000000
    case 2 => 0xaf298d050e4395d69670b12b7f41000000 case 3 => 0xcbea6f8ceb02bb399bf4f8a69f76449072
    case 4 => 0xed63a231d4c4fb274ca7aaa863ee4bdd48 case 5 => 0x8a2dbf142dfcc7ab6e3569326c7843372a
    case 6 => 0xa0dc75f1778e39d6696361ae3db1c72136 case 7 => 0xbb445da9ca61281f2a8a6e45ae8edc979a
    case 8 => 0xda01ee641a708de9e80e6f4820cc9495d4 case 9 => 0xfdcb4fa002162a6373d9732fc7c8f7f6b4
    case 10 => 0x93ba47c980e98cdfc66f336c36b10136ff case 11 => 0xabfa45da0edbde690487db9d176368925e
    case 12 => 0xc83553c5c8965d3d6f92829494e5acc765 case 13 => 0xe912b9d1478ceb177a37cd5601aab85d98
    case 14 => 0x87aa9aff7904228690fb44d2f05d0842f7 case 15 => 0x9defbf01b061adab3a0888136afa64a70e
    case 16 => 0xb7dcbf5354e9bece0c11ed6d538aeb2f20 case 17 => 0xd60b3bd56a5586f18a71e223d8d3b074c5
    case 18 => 0xf92e0c3537826145a7709a56ccdf8a827c case 19 => 0x910ab1d4db9914a01d9c9892400a22a274
    case 20 => 0xa8d9d1535ce3b3967f1839a741a14d0d5c case 21 => 0xc491798a08a2ad4ef1a6f2bab92a27e289
    case 22 => 0xe4d5e82392a405150fabaf3feaa5334a54 case 23 => 0x8533285c936b35ded53a88958f87275f58
    case 24 => 0x9b10a4e5e9913128ca7cf2b4191c832684 case 25 => 0xb484f9dc9641e9dab1f9f660802dedf659
    case 26 => 0xd226fc195c6a2f8c73832eec6fff3111d4 case 27 => 0xf4a642e14c6262c8cd27bb612758c0f9f2
    case 28 => 0x8e679c2f5e44ff8f570f09eaa7ea76484f case 29 => 0xa5c7ea73224deff312b9b522906c08001f
    case 30 => 0xc0fe908895cf3b44505f522e53053ff26b case 31 => 0xe0accfa875af45a793eb1b80a33b860566
    case _ => 0
  }

  /** The mantissa of 10^(-7 - 10 * k), to 136 bits. */
  function DownTo(k: int): nat {
    match k
    case 0 => 0xd6bf94d5e57a42bc3d32907604691b4c8c case 1 => 0xb877aa3236a4b44909befeb9fad487c2ff
    case 2 => 0x9e74d1b791e07e48775ea264cf55347dc9 case 3 => 0x881cea14545c75757e50d64177da2e54ba
    case 4 => 0xe9d71b689dde71afaab8f01e6e10b4a6c5 case 5 => 0xc8de047564d20a8bf245825a5a44527553
    case 6 => 0xac8b2d36eed2dac5e272467e3d222f3fa5 case 7 => 0x9436c0760c86e30bf9a0b6720aaf652163
    case 8 => 0xfea126b7d78186bce2f610c84987bfa81f case 9 => 0xdab99e59958885c4e95fab368e45eced70
    case 10 => 0xbbe226efb628afea890489f70a55368bdf case 11 => 0xa163ff802a3426a8ca07c2dcb0cf26f7a7
    case 12 => 0x8aa22c0dbef60ee46bcdf07a423aa96b49 case 13 => 0xee2ba6c0678b597f746aa07ded582e2cf0
    case 14 => 0xcc963fee10b7d1b3318df905079926a8b9 case 15 => 0xafbd2350644eeacfe5d1929ef90898fa82
    case 16 => 0x96f5600f15a7b7e529ab103a5ef8c0b935 case 17 => 0x81ac1fe293d599bfc6f14cd848405530bb
    case 18 => 0xdec681f9f4c31f316405fa00e2ec94d41c case 19 => 0xbf5cd54678eef0b6d262d45a78a0635d40
    case 20 => 0xa46116538d0deb7852d9be85f074e608ce case 21 => 0x8d3360f09cf6e4bd64712dd7abbbd95cc3
    case 22 => 0xf294b943e17a2bc43e6f5b7b17b2939deb case 23 => 0xd0601d8efc57b08bf13b94daf124da2680
    case 24 => 0xb2fe3f0b8599ef07861fa7e6dcb4aa14f4 case 25 => 0x99c102844f94e0fb2eda7444cbfc426d43
    case 26 => 0x8412d9991ed58091e858790afe9486c257 case 27 => 0xe2e69915b3fff9f916c90c8f323f516c71
    case 28 => 0xc2e801fb244576d5229c41f793cda73f5f case 29 => 0xa76c582338ed2621af2af2b80af6f24e57
    case 30 => 0x8fd0c16206306baba5d3b6d479f8e05680
    case _ => 0
  }

  /** Ten rows apart, mantissas differ by the factor 5^10 over this power of two. */
  function TenRows(p: int): nat { if Log2Pow10(p + 10) == Log2Pow10(p) + 33 then 8388608 else 16777216 }

  lemma TenRowsLog(p: int)
    ensures Log2(TenRows(p)) < 100 && Log2Pow10(p + 10) == Log2Pow10(p) + 10 + Log2(TenRows(p))
  {
  }

  lemma UpStep(k: int)
    requires 0 <= k < 31
    ensures Quotient(UpTo(k), UpTo(k + 1), 9765625, TenRows(28 + 10 * k))
  {
  }

  lemma DownStep(k: int)
    requires 0 <= k < 30
    ensures Quotient(DownTo(k), DownTo(k + 1), TenRows(-17 - 10 * k), 9765625)
  {
  }

  lemma {:induction false} UpHeld(k: nat)
    requires k < 32
    ensures Held(256.0 * Mantissa(28 + 10 * k), UpTo(k), k)
  {
    hide Held, Quotient, Mantissa, UpTo, Log2Pow10, Log2, TenRows;
    if k == 0 {
      UpStart();
    } else {
      UpHeld(k - 1);
      UpStep(k - 1);
      TenRowsLog(18 + 10 * k);
      HeldUp(18 + 10 * k, UpTo(k - 1), UpTo(k), 9765625, TenRows(18 + 10 * k), k - 1);
    }
  }

  lemma {:induction false} DownHeld(k: nat)
    requires k < 31
    ensures Held(256.0 * Mantissa(-7 - 10 * k), DownTo(k), k + 1)
  {
    hide Held, Quotient, Mantissa, DownTo, Log2Pow10, Log2, TenRows;
    if k == 0 {
      DownStart();
    } else {
      DownHeld(k - 1);
      DownStep(k - 1);
      TenRowsLog(-7 - 10 * k);
      HeldDown(-7 - 10 * k, DownTo(k - 1), DownTo(k), 9765625, TenRows(-7 - 10 * k), k);
    }
  }

  lemma UpApprox(k: nat)
    requires k < 32
    ensures Approx(28 + 10 * k, Log2Pow10(28 + 10 * k), UpTo(k))
  {
    hide Held, Approx, UpTo, Mantissa, Log2Pow10;
    UpHeld(k);
    HeldIsApprox(28 + 10 * k, UpTo(k), k);
  }

  lemma DownApprox(k: nat)
    requires k < 31
    ensures Approx(-7 - 10 * k, Log2Pow10(-7 - 10 * k), DownTo(k))
  {
    hide Held, Approx, DownTo, Mantissa, Log2Pow10;
    DownHeld(k);
    HeldIsApprox(-7 - 10 * k, DownTo(k), k + 1);
  }

  lemma UpStart()
    ensures Held(256.0 * Mantissa(28), UpTo(0), 0)
  {
    assert Log2Pow10(28) == 93;
    PowerValues();
    hide Pow2, Pow10, RPow, Log2Pow10, Two, Ten;
    TenIsPow10(28);
    TwoIsPow2(34);
  }

  lemma DownStart()
    ensures Held(256.0 * Mantissa(-7), DownTo(0), 1)
  {
    hide Held, Mantissa, Quotient, Log2Pow10, Log5, Log2, DownTo;
    MiddleHeld();
    FirstStep();
    HeldDown(-7, 2 * GUARD, DownTo(0), 78125, 131072, 0);
  }

  lemma FirstStep()
    ensures Log5(78125) == 7 && Log2(131072) == 17 && Log2Pow10(-7) == -24 && Log2Pow10(0) == 0
    ensures Quotient(2 * GUARD, DownTo(0), 131072, 78125)
  {
  }

  lemma MiddleHeld()
    ensures Held(256.0 * Mantissa(0), 2 * GUARD, 0)
  {
    assert Log2Pow10(0) == 0 && Ten(0) == 1.0;
    PowerValues();
    hide Pow2, Pow10, RPow, Log2Pow10, Two;
    TwoIsPow2(127);
  }

  lemma PowerValues()
    ensures Pow10(28) == 10_000_000_000_000_000_000_000_000_000
    ensures Pow2(34) == 0x4_0000_0000 && Pow2(127) == 0x8000_0000_0000_0000_0000_0000_0000_0000
  {
    assert Pow10(7) == 10_000_000;
    hide Pow2, Pow10;
    Pow10Add(7, 7);
    Pow10Add(14, 14);
    Pow2Values();
    Pow2Small();
    Pow2Add(32, 2);
    Pow2Add(64, 63);
  }

  lemma Rows28(p: int, l: int, x: nat, i: nat)
    requires i < 10 && Approx(p, l, x) && p == 28 && l == 93 && x == 0x813f3978f8940984400000000000000000
    ensures RowClear(p + i)
  {
    hide Approx, RowClear;
    match i
    case 0 => Row(p, l, x, 1, 1, 0x3c1a1aa24cc97, 0x3caffead1a5222a, 0x1dad1f060d09bf, 0x1df721cc81ddc341);
    case 1 => Row(p, l, x, 5, 4, 0x783435449992e, 0x97b7fcb0c1cd569, 0x18a46544e8bb81, 0x1f1a508c3becb2d3);
    case 2 => Row(p, l, x, 25, 16, 0xc70f12ede8b7b, 0x13a0f3e0de1f3778, 0x13b6b76a53c934, 0x1f1a508c3becb2d3);
    case 3 => Row(p, l, x, 125, 64, 0x27cfd095fb57f, 0x4e83cf83787cdde, 0x1f9415f734ac63, 0x3e470c510c8b36a5);
    case 4 => Row(p, l, x, 625, 512, 0x9f3f4257ed5fc, 0xc44986c8ad382ab, 0x19129391c06a09, 0x1ee7819bf0ab30ff);
    case 5 => Row(p, l, x, 3125, 2048, 0x12f2d9b80b40c9, 0x1d31eb24ef1cf0eb, 0x1108bc92266a6b, 0x1a3ec7501735456a);
    case 6 => Row(p, l, x, 15625, 8192, 0x1bad424b990e85, 0x354db6604460663c, 0x6d04b6da8f75e, 0xd1f63a80b9aa2b5);
    case 7 => Row(p, l, x, 78125, 65536, 0xb27b83c07dc6b, 0xd6d729013d6d4fc, 0x15e35be31a87c9, 0x1a58cc4819f400d7);
    case 8 => Row(p, l, x, 390625, 262144, 0x13bdd4c1b06583, 0x1db428ec1ee9b616, 0x1c53f14758ee9b, 0x2a9f82a42506e1f1);
    case 9 => Row(p, l, x, 1953125, 1048576, 0x83858adfdd77, 0xf75d5f04abd798, 0x1fc6d66042d10d, 0x3bc3edbd0736a54f);
  }

  lemma Rows38(p: int, l: int, x: nat, i: nat)
    requires i < 10 && Approx(p, l, x) && p == 38 && l == 126 && x == 0x96769950b50d88f4131444800000000000
    ensures RowClear(p + i)
  {
    hide Approx, RowClear;
    match i
    case 0 => Row(p, l, x, 1, 1, 0x1a4de8932c4b, 0x1eebabe0957af3, 0x1ff66eee974ab7, 0x2592677695136762);
    case 1 => Row(p, l, x, 5, 4, 0x6937a24cb12c, 0x9a9a5b62eb66bf, 0x1fea7b74ec0951, 0x2ee571d58a927994);
    case 2 => Row(p, l, x, 25, 16, 0xcf592d5c7149d, 0x17cd6b991d08a551, 0x184647225b648a, 0x2c95d3694b7848e7);
    case 3 => Row(p, l, x, 125, 128, 0x1d34e2bdf3b29a, 0x21870b3a8e8a10cf, 0x7725ecb3a183b, 0x88c67e04d101dc7);
    case 4 => Row(p, l, x, 625, 512, 0x1639644b7d5907, 0x1fe3e077778ed617, 0x1dc97b2ce860ec, 0x2abe0761815094e3);
    case 5 => Row(p, l, x, 3125, 2048, 0x11c7836f977a6c, 0x1fe3e077778ed617, 0x19579a51028251, 0x2d74911c03c10496);
    case 6 => Row(p, l, x, 15625, 16384, 0x1e7d819bc80dfb, 0x222e4671d4fa6b0a, 0x1446150d9b9b74, 0x16ba488e01e0824b);
    case 7 => Row(p, l, x, 78125, 65536, 0x1661792ff03633, 0x1f5cb3c74948c4a7, 0x103810d7afaf90, 0x16ba488e01e0824b);
    case 8 => Row(p, l, x, 390625, 262144, 0x13b7b44d9b487, 0x2289ace51da1097, 0x1f9a431bc8b403, 0x375b17036762cb8a);
    case 9 => Row(p, l, x, 1953125, 2097152, 0x1696689261d95d, 0x18ba60069033624f, 0xcba8e6b943525, 0xdef59fef6f10f5c);
  }

  lemma Rows48(p: int, l: int, x: nat, i: nat)
    requires i < 10 && Approx(p, l, x) && p == 48 && l == 159 && x == 0xaf298d050e4395d69670b12b7f41000000
    ensures RowClear(p + i)
  {
    hide Approx, RowClear;
    match i
    case 0 => Row(p, l, x, 1, 1, 0x1fcc465aaa70fd, 0x2b839aa6c516d33a, 0x28bb615840aa1, 0x37bd67fbdbc43d7);
    case 1 => Row(p, l, x, 5, 4, 0x1fd12ae94a80e3, 0x366cdfe674f704ce, 0xa2ed856102a84, 0x116b307eb4ad5333);
    case 2 => Row(p, l, x, 25, 32, 0x14df8b0891225e, 0x1650d038f7946acd, 0x1e4b9bd3f818e1, 0x2063912047e71a99);
    case 3 => Row(p, l, x, 125, 128, 0x1eba9ae26a5834, 0x2910cac9a3a3476d, 0x1e269c247cae7, 0x284b039d414abf3);
    case 4 => Row(p, l, x, 625, 512, 0x1f1b166fabe72f, 0x33f6298a81914445, 0x181ee35063bec, 0x284b039d414abf3);
    case 5 => Row(p, l, x, 3125, 4096, 0xdc2451f74c03f, 0xe5d6be606f2c1e0, 0x19d1b6c7a69f9f, 0x1af4dd072b5a1d9f);
    case 6 => Row(p, l, x, 15625, 16384, 0xdc2451f74c03f, 0x11f4c6df88af7258, 0x1ce92218fe8ca5, 0x25baedf3b0902f07);
    case 7 => Row(p, l, x, 78125, 65536, 0xdc2451f74c03f, 0x1671f8976adb4eee, 0x19e15c4d7c96f7, 0x2a381fab92bc0b9d);
    case 8 => Row(p, l, x, 390625, 524288, 0x181c6a0b402fd5, 0x189543498778143c, 0x114c29a3ed8e83, 0x11a2dc620b43f761);
    case 9 => Row(p, l, x, 1953125, 2097152, 0x181c6a0b402fd5, 0x1eba941be956194b, 0x9040c1a7e020b, 0xb7d8b8fa965f252);
  }

  lemma Rows58(p: int, l: int, x: nat, i: nat)
    requires i < 10 && Approx(p, l, x) && p == 58 && l == 192 && x == 0xcbea6f8ceb02bb399bf4f8a69f76449072
    ensures RowClear(p + i)
  {
    hide Approx, RowClear;
    match i
    case 0 => Row(p, l, x, 1, 1, 0x1ffe57e6d0c263, 0x32f7f8428a31de03, 0x39b380a98cd9e, 0x5bec5c7d4b2f929);
    case 1 => Row(p, l, x, 5, 4, 0x11200002a477b2, 0x221a24cd042564bf, 0xfc6701683d715, 0x1f6a00da15d22146);
    case 2 => Row(p, l, x, 25, 32, 0x3b1e996276b43, 0x4994917fe4f1507, 0x1dd88a12ac96f9, 0x2525704945c595f0);
    case 3 => Row(p, l, x, 125, 128, 0x1aa937b2ff43a9, 0x297a5bba459af8ad, 0xbe1915a61969d, 0x127bee424e0f8f8a);
    case 4 => Row(p, l, x, 625, 512, 0x1fef9cf68211d1, 0x3e1b0d3c7e606aba, 0x4c0a08a8d6f72, 0x93df7212707c7c5);
    case 5 => Row(p, l, x, 3125, 4096, 0x1e08f658afe53d, 0x24816a7d853a50c3, 0x79a9a7748b250, 0x93df7212707c7c5);
    case 6 => Row(p, l, x, 15625, 16384, 0x171d496f78fa9, 0x231e1468408be5d, 0x1fdc3e741a58e9, 0x3067b4ec472fa536);
    case 7 => Row(p, l, x, 78125, 65536, 0x127dd4592d954, 0x231e1468408be5d, 0x1f484fd150ec3f, 0x3b68b18416f72f55);
    case 8 => Row(p, l, x, 390625, 524288, 0x13ecd9f65d00ad, 0x17a66f5d9b2228ba, 0x1e20728bbe12eb, 0x23c242267bd5069b);
    case 9 =>
      Row(p, l, x, 1953125, 2097152, 0x17d08db6c1c673, 0x2355597f5f225855, 0x10092635f83ae7, 0x17cabceaa4b30d7c);
  }

  lemma Rows68(p: int, l: int, x: nat, i: nat)
    requires i < 10 && Approx(p, l, x) && p == 68 && l == 225 && x == 0xed63a231d4c4fb274ca7aaa863ee4bdd48
    ensures RowClear(p + i)
  {
    hide Approx, RowClear;
    match i
    case 0 => Row(p, l, x, 1, 1, 0x130d3e2bce385c, 0x2355597f5f225855, 0x10092635f83ae7, 0x1dbd6c254ddfd0db);
    case 1 => Row(p, l, x, 5, 8, 0x1072a1b8942c12, 0x1310a81633e1ce09, 0x12a3c2a9324731, 0x159b1370b83f8bb5);
    case 2 => Row(p, l, x, 25, 32, 0xd2881607689a8, 0x1310a81633e1ce09, 0x1c8223b18b2e6f, 0x294e565d8d38c929);
    case 3 => Row(p, l, x, 125, 128, 0x1f2488a9f07323, 0x386757722710ceb5, 0x311ed436a875b, 0x58f6b91d655bec8);
    case 4 => Row(p, l, x, 625, 1024, 0x1ecb4ed452a437, 0x22db969d08848b6e, 0x311ed436a875b, 0x379a33b25f5973d);
    case 5 => Row(p, l, x, 3125, 4096, 0x161f7b22a0e0b1, 0x1f4d8aa7b8dd79e8, 0xc47b50daa1d6c, 0x11603027bdcbf431);
    case 6 => Row(p, l, x, 15625, 16384, 0x161f7b22a0e0b1, 0x2720ed51a714d862, 0x1b85c026a264e4, 0x30adbacf76a96e19);
    case 7 => Row(p, l, x, 78125, 131072, 0xb1d2e465feb89, 0xc49259f2ac2abb7, 0x15ced6e443fd8e, 0x181b6f91212416ab);
    case 8 => Row(p, l, x, 390625, 524288, 0xb07ad24ad8cd5, 0xf3db81ba85b0674, 0x15b955c2919eda, 0x1e04948a1c54cc25);
    case 9 => Row(p, l, x, 1953125, 2097152, 0xb07ad24ad8cd5, 0x130d26229271c811, 0x15ca89dd86b76a, 0x25a37097f0824f5f);
  }

  lemma Rows78(p: int, l: int, x: nat, i: nat)
    requires i < 10 && Approx(p, l, x) && p == 78 && l == 259 && x == 0x8a2dbf142dfcc7ab6e3569326c7843372a
    ensures RowClear(p + i)
  {
    hide Approx, RowClear;
    match i
    case 0 => Row(p, l, x, 1, 1, 0x484ff069a5fa2, 0x4e10073f1b4c235, 0x1c4d37fb99e49d, 0x1e8d5dc0a023cc71);
    case 1 => Row(p, l, x, 5, 4, 0xbfcd6a1f6e6cf, 0x102d183b0f0546f9, 0x1ddf5e6d721cb4, 0x284f5ea8838d50db);
    case 2 => Row(p, l, x, 25, 16, 0x1a558dbaef86da, 0x2c6b53acd84e92e3, 0xf86a754797ca9, 0x1a3040ef9ee8aae6);
    case 3 => Row(p, l, x, 125, 128, 0x114b0a3d89a9e8, 0x123b12bd3965e7fd, 0x13d969e3dbe723, 0x14eced4511aae4cf);
    case 4 => Row(p, l, x, 625, 512, 0x1ebc832a0bbfba, 0x2880ed4637334b35, 0x18549232b1ee69, 0x200fda899091966b);
    case 5 => Row(p, l, x, 3125, 2048, 0x28ff9fc8a53ba, 0x438895e5350da65, 0x1d71517f5668df, 0x307f9c14788d9216);
    case 6 => Row(p, l, x, 15625, 16384, 0x1a206552c2cb9e, 0x1ae5c7cf41be60e7, 0x1cf0b009fae285, 0x1dcb544b12536f5e);
    case 7 => Row(p, l, x, 78125, 65536, 0x4a99eebe88a8b, 0x6000ed4dc4a549c, 0x1de7a68c8285c8, 0x267bf9be84129ac3);
    case 8 => Row(p, l, x, 390625, 262144, 0xeeb96261b54f, 0x18003b537129527, 0x1ff6881229841e, 0x336a842e5b8a417d);
    case 9 => Row(p, l, x, 1953125, 2097152, 0x775cb130daa78, 0x780128a135ce9c3, 0x1c36a6ce9046a5, 0x1c5d86c010e10d8a);
  }

  lemma Rows88(p: int, l: int, x: nat, i: nat)
    requires i < 10 && Approx(p, l, x) && p == 88 && l == 292 && x == 0xa0dc75f1778e39d6696361ae3db1c72136
    ensures RowClear(p + i)
  {
    hide Approx, RowClear;
    match i
    case 0 => Row(p, l, x, 1, 1, 0x1dd72c4c36a9e0, 0x25805cb260d090cf, 0x2a89cee7dc9f1, 0x357586afa89ce81);
    case 1 => Row(p, l, x, 5, 4, 0x15a05caed0e70b, 0x21f92040ff0d95fd, 0xac0f022ed5a45, 0x10e49e1d4bea34d6);
    case 2 => Row(p, l, x, 25, 16, 0x17cd0bfdfe6999, 0x2ebc88da2b99d3c6, 0xf1a4ec1485f61, 0x1da806b67876729f);
    case 3 => Row(p, l, x, 125, 128, 0x107a9c2fc4326a, 0x1439634864782585, 0x16e22db4568793, 0x1c1596241fcc1070);
    case 4 => Row(p, l, x, 625, 512, 0x1ae9cb926a79ad, 0x294993e37c5131d9, 0x16e22db4568793, 0x231afbad27bf148c);
    case 5 => Row(p, l, x, 3125, 2048, 0xc60909365c4b6, 0x17bc160ce871a793, 0x16e22db4568793, 0x2be1ba9871aed9af);
    case 6 => Row(p, l, x, 15625, 16384, 0xc00c6494e5df1, 0xe62bf97e5607a0d, 0x15033a41e185ba, 0x192f0dae6b8c7ea3);
    case 7 => Row(p, l, x, 78125, 65536, 0x99a383aa517f4, 0xe62bf97e5607a0d, 0x1769c8508acbb7, 0x231380ffffc7bccf);
    case 8 => Row(p, l, x, 390625, 262144, 0x1142cdfe0e5a1, 0x2052f71ec166c56, 0x1fefd3ab4efe0a, 0x3bcea14bf25bd83d);
    case 9 => Row(p, l, x, 1953125, 2097152, 0x1e4bd52ee98a66, 0x2375931f426b960b, 0xcfd90d7b2f9f1, 0xf344e413a19c39a);
  }

  lemma Rows98(p: int, l: int, x: nat, i: nat)
    requires i < 10 && Approx(p, l, x) && p == 98 && l == 325 && x == 0xbb445da9ca61281f2a8a6e45ae8edc979a
    ensures RowClear(p + i)
  {
    hide Approx, RowClear;
    match i
    case 0 => Row(p, l, x, 1, 1, 0xdd836ac2ba6c4, 0x144144de0851d271, 0x13e9ac2dc8cd53, 0x1d2204408cc91db9);
    case 1 => Row(p, l, x, 5, 4, 0x1c383361e2fe2f, 0x339b78f73638c2fc, 0x1124d471c0125f, 0x1f5a34192de6f08b);
    case 2 => Row(p, l, x, 25, 32, 0x33774dfbb569d, 0x3ad33501d61d0d9, 0x1eb4bfc5eb4776, 0x2318bcb418b86cf3);
    case 3 => Row(p, l, x, 125, 128, 0xbee5f20b376ff, 0x110be2a1484a3125, 0x16ed49e32d0a89, 0x20c1a75345f57f32);
    case 4 => Row(p, l, x, 625, 512, 0x2fe412d860b1, 0x55877bd2a7b8c6, 0x1fd2c240f5c137, 0x38d5710977c29bfb);
    case 5 => Row(p, l, x, 3125, 4096, 0x12d3f280569d6d, 0x150404bd4209fbc1, 0x12146234f51aa9, 0x142e3207b366add2);
    case 6 => Row(p, l, x, 15625, 16384, 0x1eb92aa33efe18, 0x2adddc3012b74571, 0xb25a7d786dde7, 0xf8d8ee08ddea955);
    case 7 => Row(p, l, x, 78125, 65536, 0x1d94c16caca98f, 0x339757bcbf5fc7bf, 0x5009f507a44af, 0x8b97b8caca8824e);
    case 8 => Row(p, l, x, 390625, 524288, 0xad4fa4e9302e3, 0xbcea67d9a42e1a6, 0x1ed777907c159f, 0x219e5b5d49e82769);
    case 9 => Row(p, l, x, 1953125, 2097152, 0x15a9f49d2605c6, 0x1d84a03a01a7341f, 0xe80c849823c6d, 0x13c2d74e0b84cc1e);
  }

  lemma Rows108(p: int, l: int, x: nat, i: nat)
    requires i < 10 && Approx(p, l, x) && p == 108 && l == 358 && x == 0xda01ee641a708de9e80e6f4820cc9495d4
    ensures RowClear(p + i)
  {
    hide Approx, RowClear;
    match i
    case 0 => Row(p, l, x, 1, 1, 0x5c3d3635b8fd3, 0x9d19a497df26708, 0x1d0190930478da, 0x31671a431ccbfe4b);
    case 1 => Row(p, l, x, 5, 8, 0x1272a47124ff7, 0x13a33492fbe4ce1, 0x1f6dc849b16cee, 0x2174a7911ca3b689);
    case 2 => Row(p, l, x, 25, 32, 0x49ca91c493fdc, 0x623006deeb78065, 0x1ef5b0cc782b6f, 0x293205ca044b7625);
    case 3 => Row(p, l, x, 125, 128, 0x1f18b48e706187, 0x33b8c4588c698033, 0xca6101d4b6217, 0x1509c232e2d3fe3a);
    case 4 => Row(p, l, x, 625, 1024, 0x4d971c0ffb8f5, 0x50a88430e0ae0b7, 0x1f3279712ea488, 0x206e4472fee678b5);
    case 5 => Row(p, l, x, 3125, 4096, 0x3e127cd9960c4, 0x50a88430e0ae0b7, 0x1c499b96fb9bf5, 0x24c1ef5d7417ee59);
    case 6 => Row(p, l, x, 15625, 16384, 0xca4005d1333c5, 0x14882e6e3c9e7532, 0x166761e0d4183f, 0x2463e1fb6fa4fc03);
    case 7 => Row(p, l, x, 78125, 131072, 0x1cf5d9f07e5e69, 0x1d665e8fd5bfdcbd, 0x159a2783ce70ab, 0x15ee1583c1cc4840);
    case 8 => Row(p, l, x, 390625, 524288, 0x172b14c0651854, 0x1d665e8fd5bfdcbd, 0x159a2783ce70ab, 0x1b699ae4b23f5a50);
    case 9 =>
      Row(p, l, x, 1953125, 2097152, 0x1f7ef51c3323dd, 0x31f592bb5b6f6079, 0x159a2783ce70ab, 0x2244019ddecf30e4);
  }

  lemma Rows118(p: int, l: int, x: nat, i: nat)
    requires i < 10 && Approx(p, l, x) && p == 118 && l == 391 && x == 0xfdcb4fa002162a6373d9732fc7c8f7f6b4
    ensures RowClear(p + i)
  {
    hide Approx, RowClear;
    match i
    case 0 => Row(p, l, x, 1, 1, 0x108e4de1d65606, 0x20d391ec6c07c807, 0x159a2783ce70ab, 0x2ad502055682fd1d);
    case 1 => Row(p, l, x, 5, 8, 0x1c10c221b49167, 0x22c79057f47cb8db, 0xf436228a84f7a, 0x12ea24fc70a2b149);
    case 2 => Row(p, l, x, 25, 32, 0x51ef3306b4d92, 0x7eeb5adc1ed03c9, 0x1bf74ab91af82b, 0x2b5201a038a03952);
    case 3 => Row(p, l, x, 125, 128, 0x1b05799cb39671, 0x3452476a8f48b474, 0xb2fb77d3dfcde, 0x15a900d01c501ca9);
    case 4 => Row(p, l, x, 625, 1024, 0xe5a77e9ef1b95, 0x115ec955601124e3, 0x11b96458445d07, 0x15731565ad3ad6de);
    case 5 => Row(p, l, x, 3125, 4096, 0x1d8e138d41489d, 0x2cb5709e8e4fdff4, 0x9494408d3b73d, 0xe0c2a041b574829);
    case 6 => Row(p, l, x, 15625, 16384, 0x5e9371c4041b9, 0xb2d5c27a393f7fd, 0x1f3bd9070e9b3b, 0x3b0f75ece52070d0);
    case 7 => Row(p, l, x, 78125, 131072, 0x97524fa006928, 0xb2d5c27a393f7fd, 0x1f3bd9070e9b3b, 0x24e9a9b40f344682);
    case 8 => Row(p, l, x, 390625, 524288, 0x1ba02b92d34cbe, 0x28cf8d294ec2133b, 0x1685f7683c20cd, 0x2145ed5add3130e0);
    case 9 =>
      Row(p, l, x, 1953125, 2097152, 0x1eafe4792e00b5, 0x38aaa84e779f41ce, 0x1a9aedf0b510c1, 0x31210880060e5f73);
  }

  lemma Rows128(p: int, l: int, x: nat, i: nat)
    requires i < 10 && Approx(p, l, x) && p == 128 && l == 425 && x == 0x93ba47c980e98cdfc66f336c36b10136ff
    ensures RowClear(p + i)
  {
    hide Approx, RowClear;
    match i
    case 0 => Row(p, l, x, 1, 1, 0xb0922559a5349, 0xcbc8ce4a42091fe, 0x1685f7683c20cd, 0x19fea16efcce6e2f);
    case 1 => Row(p, l, x, 5, 4, 0x161244ab34a692, 0x1fd7603b9a516cfb, 0xb3769d46a1dc7, 0x102e73f0a76f5b97);
    case 2 => Row(p, l, x, 25, 16, 0x1d1729c25a62d3, 0x347596e4b306971e, 0xfc67d8f4e1449, 0x1c72acce922632d5);
    case 3 => Row(p, l, x, 125, 128, 0x1f76d9ce76c825, 0x237666ca2327dc9c, 0xc20d42cfe1be1, 0xdab5e103aea5f99);
    case 4 => Row(p, l, x, 625, 512, 0x19b2b23e14bb09, 0x243455d2fe9eb659, 0x16d09e75e3b47b, 0x2024807e27f527a4);
    case 5 => Row(p, l, x, 3125, 2048, 0x1dc8cde57a4434, 0x3473ab265944f12d, 0x4901fb12d8a7f, 0x809201f89fd49e9);
    case 6 => Row(p, l, x, 15625, 16384, 0x164d649848325, 0x188c15114ea4ff4, 0x1eeda4635a4764, 0x220a9b595e4931bd);
    case 7 => Row(p, l, x, 78125, 65536, 0x164d649848325, 0x1eaf1a55a24e3f1, 0x1ee0325fc27a26, 0x2a7ac2975151e97b);
    case 8 => Row(p, l, x, 390625, 262144, 0x147a1706c7cdb1, 0x233738d2dabdfe02, 0xbcaf1a27f2f9a, 0x1447e878fb9682c5);
    case 9 =>
      Row(p, l, x, 1953125, 2097152, 0x119ffdb7e8dec2, 0x12f1c271347ac0e3, 0x14bbc9f61f7045, 0x16492184a6402598);
  }

  lemma Rows138(p: int, l: int, x: nat, i: nat)
    requires i < 10 && Approx(p, l, x) && p == 138 && l == 458 && x == 0xabfa45da0edbde690487db9d176368925e
    ensures RowClear(p + i)
  {
    hide Approx, RowClear;
    match i
    case 0 => Row(p, l, x, 1, 1, 0xe1997c653e568, 0x12f1c271347ac0e3, 0x14bbc9f61f7045, 0x1bdb69e5cfd02efe);
    case 1 => Row(p, l, x, 5, 4, 0xe443ba7acdbbe, 0x17f5cfef810d6a47, 0x151111b8d15cf1, 0x23617e2342ac2d14);
    case 2 => Row(p, l, x, 25, 32, 0x7332c2dfa039b, 0x78eb83358312f81, 0x1bbbcb15aeb2ac, 0x1d1c6d4562f4d957);
    case 3 => Row(p, l, x, 125, 128, 0x5c289be619c7c, 0x78eb83358312f81, 0x1d2c6d854719cb, 0x264736a391be5b8d);
    case 4 => Row(p, l, x, 625, 512, 0xde609f1fd46a3, 0x16cb9002bec5aa05, 0x12a7f6dc7161f9, 0x1e991707835b108a);
    case 5 => Row(p, l, x, 3125, 4096, 0x1810e284b0ace1, 0x18ab51227e0bb275, 0xeecc57d278194, 0xf4c8b83c1ad8845);
    case 6 => Row(p, l, x, 15625, 16384, 0x16e8c0d3910206, 0x1d5ab3f1dc3ac78d, 0xdc4a3cc07d6b9, 0x11a43ceb70c512d1);
    case 7 => Row(p, l, x, 78125, 65536, 0x1b837de4920b23, 0x2c11531bb2226d2f, 0x92fb06e846feb, 0xeb69f29d5e7a5a2);
    case 8 => Row(p, l, x, 390625, 524288, 0x1b77ea7d96c685, 0x1b7f3d742d98b1eb, 0x75959f2038cbc, 0x75b4f94eaf3d2d1);
    case 9 =>
      Row(p, l, x, 1953125, 2097152, 0x13ce6354a6f84a, 0x18c89619773a152f, 0x1899e58e5a959d, 0x1ec8920106fe99a2);
  }

  lemma Rows148(p: int, l: int, x: nat, i: nat)
    requires i < 10 && Approx(p, l, x) && p == 148 && l == 491 && x == 0xc83553c5c8965d3d6f92829494e5acc765
    ensures RowClear(p + i)
  {
    hide Approx, RowClear;
    match i
    case 0 => Row(p, l, x, 1, 1, 0x1cb00b820dae45, 0x2cdf05a67496c62f, 0x6d695338d29a7, 0xab2227409a1e8a2);
    case 1 => Row(p, l, x, 5, 4, 0x1c6bb3c47bdff0, 0x3791281a7e38aed1, 0x150c6f15cb199f, 0x29273f1e4b26ba33);
    case 2 => Row(p, l, x, 25, 32, 0x1d7d12bac31944, 0x2408c6767face38b, 0x6f1eb7f6115c9, 0x87c92a80c676ff9);
    case 3 => Row(p, l, x, 125, 128, 0x14212216c28aa6, 0x1ebf3f37527199bb, 0x17f4680a2370e5, 0x24970e3fc83b64cc);
    case 4 => Row(p, l, x, 625, 512, 0x14e4fce1091f19, 0x27e502c7448072ee, 0x17f4680a2370e5, 0x2dbcd1cfba4a3dff);
    case 5 => Row(p, l, x, 3125, 4096, 0x10b730b4074c14, 0x13f28163a2403977, 0x1b03d3333dc2b1, 0x203ce4871e0c85aa);
    case 6 => Row(p, l, x, 15625, 16384, 0xd5f5a299f7010, 0x13f28163a2403977, 0x1454261e6e0aa9, 0x1e52dcf7146f8a59);
    case 7 => Row(p, l, x, 78125, 65536, 0x1c22dd1dce98a5, 0x34765a5df22c63e2, 0x1eeb2eb2ee09af, 0x39a68827ab440c53);
    case 8 => Row(p, l, x, 390625, 524288, 0x16824a7e3ee084, 0x1a3b2d2ef91631f1, 0x16725b08ee0a77, 0x1a289b1f622e3802);
    case 9 =>
      Row(p, l, x, 1953125, 2097152, 0x1201d531cbe6d0, 0x1a3b2d2ef91631f1, 0x1f7345a1d3fddf, 0x2dd0587eb744defb);
  }

  lemma Rows158(p: int, l: int, x: nat, i: nat)
    requires i < 10 && Approx(p, l, x) && p == 158 && l == 524 && x == 0xe912b9d1478ceb177a37cd5601aab85d98
    ensures RowClear(p + i)
  {
    hide Approx, RowClear;
    match i
    case 0 => Row(p, l, x, 1, 1, 0x169239f38fb691, 0x29197ad1c0fd248e, 0x9e43890b99423, 0x1202e16b6c16c43b);
    case 1 => Row(p, l, x, 5, 8, 0x129d568678ae83, 0x152f34683d9885ca, 0xfd38db45c2038, 0x1202e16b6c16c43b);
    case 2 => Row(p, l, x, 25, 32, 0x772229c3045ce, 0xa979a341ecc42e5, 0x1bee0a1aa01d89, 0x27bb66727ed2c921);
    case 3 => Row(p, l, x, 125, 128, 0x100298dffd346f, 0x1c782777d59a2759, 0x123f402f368615, 0x20727362e6d12792);
    case 4 => Row(p, l, x, 625, 1024, 0x16dc91163ac023, 0x19686c063d0dc275, 0x1ff3309bb19d7d, 0x23822ed47f5d8c76);
    case 5 => Row(p, l, x, 3125, 4096, 0x17cc6e4bb08e06, 0x210fc0a23a6cbeaf, 0xa067cbaecab3d, 0xded6d1c40ff481e);
    case 6 => Row(p, l, x, 15625, 16384, 0x1b0f226bb0fa9c, 0x2efd2dbe7b6c06cd, 0x178e0df0c5288b, 0x28e75f428ef51d8c);
    case 7 => Row(p, l, x, 78125, 131072, 0x1fd9557300ea3e, 0x229111c05598ec67, 0x1e858cdd12cdb, 0x21204aa5ba32f11);
    case 8 => Row(p, l, x, 390625, 524288, 0x1214b46e4a0e7e, 0x188799346b879aef, 0x1eefc041116f73, 0x29f8717886635e11);
    case 9 => Row(p, l, x, 1953125, 2097152, 0x13203c8d643133, 0x206f2fbd9a94779e, 0xef21c10fba65f, 0x19586ecd49e89fd1);
  }

  lemma Rows168(p: int, l: int, x: nat, i: nat)
    requires i < 10 && Approx(p, l, x) && p == 168 && l == 558 && x == 0x87aa9aff7904228690fb44d2f05d0842f7
    ensures RowClear(p + i)
  {
    hide Approx, RowClear;
    match i
    case 0 => Row(p, l, x, 1, 1, 0x14cc498bf468bb, 0x160b2e1294c7c0b6, 0xe1c1591b38a9b, 0xef46d22441be8e9);
    case 1 => Row(p, l, x, 5, 4, 0x1a711ef96f6cf9, 0x230830285c07a558, 0xb49aadaf6087c, 0xef46d22441be8e9);
    case 2 => Row(p, l, x, 25, 16, 0x1a711ef96f6cf9, 0x2bca3c3273098eae, 0x907bbe25e6d30, 0xef46d22441be8e9);
    case 3 => Row(p, l, x, 125, 128, 0x1e0dd0872ecbd9, 0x1f1b80e818ecf367, 0xe72c636fd7b80, 0xef46d22441be8e9);
    case 4 => Row(p, l, x, 625, 512, 0x1f3614a062a0b2, 0x2861b16e940a9a3b, 0x2a8806c5b87bb, 0x370719facd9b1d5);
    case 5 => Row(p, l, x, 3125, 2048, 0x6c61dcf593b49, 0xaf488c390391304, 0x1ef45b1f79d0c7, 0x320fd26910ebb235);
    case 6 => Row(p, l, x, 15625, 16384, 0xd8c3b9eb27692, 0xdb1aaf4744757c5, 0x1768a9561c67f7, 0x17a9581c166eb6ba);
    case 7 => Row(p, l, x, 78125, 65536, 0x1fc6ff81d101ef, 0x2826816a284e091b, 0x95d1088d82996, 0xbd4ac0e0b375b5d);
    case 8 => Row(p, l, x, 390625, 262144, 0x113195ff522c0b, 0x1b27b60c1b6caffd, 0x17f27a0b56ff7a, 0x25d242ca24fa0d99);
    case 9 =>
      Row(p, l, x, 1953125, 1048576, 0x11ce9a6d116ee5, 0x23279f9aa296b632, 0x188f7e79164254, 0x307ccf882e876b35);
  }

  lemma Rows178(p: int, l: int, x: nat, i: nat)
    requires i < 10 && Approx(p, l, x) && p == 178 && l == 591 && x == 0x9defbf01b061adab3a0888136afa64a70e
    ensures RowClear(p + i)
  {
    hide Approx, RowClear;
    match i
    case 0 => Row(p, l, x, 1, 1, 0x1b637960530383, 0x21cb4f7b934fab4c, 0x64346e76bd127, 0x7ba3feeb74f0407);
    case 1 => Row(p, l, x, 5, 4, 0x57a4b79aa33e7, 0x872d3dee4d3ead3, 0x1e876717597883, 0x2f161388795efef6);
    case 2 => Row(p, l, x, 25, 16, 0x461d5faee8fec, 0x872d3dee4d3ead3, 0x1c567c19e2308d, 0x36a22e7b254cc94a);
    case 3 => Row(p, l, x, 125, 128, 0x1ba30e3ab4a27f, 0x214d28935a450241, 0x76ba19cbfdce1, 0x8f0fac71dde93de);
    case 4 => Row(p, l, x, 625, 512, 0x18695bcb3b34fb, 0x24c4c889b0574dd4, 0xed743397fb9c2, 0x165a72f1caac71ab);
    case 5 => Row(p, l, x, 3125, 2048, 0x4e1df28a570ff, 0x93132226c15d375, 0x1e11d1f21e410e, 0x389d11ea6cdb4399);
    case 6 => Row(p, l, x, 15625, 16384, 0x19b2c4d2a82336, 0x1e3d5c36d85d02f3, 0x1304aa996670d5, 0x16610cfc3654f3c8);
    case 7 => Row(p, l, x, 78125, 65536, 0x925d0b2e2a545, 0xd749279af9d4c1d, 0x1c2a7b4c49161a, 0x296de2b4f3877cd7);
    case 8 => Row(p, l, x, 390625, 262144, 0xec7e95bbe1017, 0x1b2d2fc558667e5a, 0x168862a36dab48, 0x296de2b4f3877cd7);
    case 9 => Row(p, l, x, 1953125, 2097152, 0xbae1f3f116b9d, 0xd6c111f7077cf59, 0x181547b1c3fd85, 0x1bacc40f0b98cdd6);
  }

  lemma Rows188(p: int, l: int, x: nat, i: nat)
    requires i < 10 && Approx(p, l, x) && p == 188 && l == 624 && x == 0xb7dcbf5354e9bece0c11ed6d538aeb2f20
    ensures RowClear(p + i)
  {
    hide Approx, RowClear;
    match i
    case 0 => Row(p, l, x, 1, 1, 0x95818ff4122e4, 0xd6c111f7077cf59, 0x1cc15431648ef7, 0x294dfda286bae8f8);
    case 1 => Row(p, l, x, 5, 4, 0xd39f1a2e1d21b, 0x17bf908812268997, 0x1cc15431648ef7, 0x33a17d0b2869a336);
    case 2 => Row(p, l, x, 25, 32, 0x1529829e361cf8, 0x17bf908812268997, 0x1776f389d707b9, 0x1a550a04f4b8639c);
    case 3 => Row(p, l, x, 125, 128, 0x10ee02182b4a60, 0x17bf908812268997, 0x1776f389d707b9, 0x20ea4c8631e67c83);
    case 4 => Row(p, l, x, 625, 512, 0x1f1f8d1751d1f4, 0x3692aeb57c810b7f, 0x14e96b0558c45, 0x24aaeff87effcbb);
    case 5 => Row(p, l, x, 3125, 4096, 0xf5fa1709a6647, 0x10d91374a24a1322, 0x19d456f346c86f, 0x1c4e7e7249fa02c9);
    case 6 => Row(p, l, x, 15625, 16384, 0x626409370f5b6, 0x86c89ba51250991, 0x1e22cbe28234e1, 0x29485a119cef657b);
    case 7 => Row(p, l, x, 78125, 65536, 0x1899024dc3d6d8, 0x2a1eb0a395b92fd5, 0xc2d36272499e3, 0x14d9c2ad4caa2554);
    case 8 => Row(p, l, x, 390625, 524288, 0x161d0cac70caa7, 0x17aa90a77471dc95, 0x185a6c4e4933c6, 0x1a1033589fd4aea9);
    case 9 => Row(p, l, x, 1953125, 2097152, 0xfe6240879e7a0, 0x1544edf6490f0a81, 0x122383aa5250bf, 0x1843f953bf4a911a);
  }

  lemma Rows198(p: int, l: int, x: nat, i: nat)
    requires i < 10 && Approx(p, l, x) && p == 198 && l == 657 && x == 0xd60b3bd56a5586f18a71e223d8d3b074c5
    ensures RowClear(p + i)
  {
    hide Approx, RowClear;
    match i
    case 0 => Row(p, l, x, 1, 1, 0x2bb5a7aed194d, 0x49178a634b4e0fa, 0x1ed0525eca6ee4, 0x3386fe04f4d0a8cd);
    case 1 => Row(p, l, x, 5, 8, 0x22f7b958a7aa4, 0x248bc531a5a707d, 0x1e7c03aa9f8a27, 0x1fdc41e5fa7c100b);
    case 2 => Row(p, l, x, 25, 32, 0x1bf96113b9550, 0x248bc531a5a707d, 0x1eebe92eee6f7b, 0x286581743fb1b02d);
    case 3 => Row(p, l, x, 125, 128, 0xfa025ccd7d62f, 0x1984578e01cee357, 0x1841f354c1571e, 0x279d017c7fd9943d);
    case 4 => Row(p, l, x, 625, 1024, 0x4861936c13be3, 0x49e00a5b0b262b9, 0x1e011ce8e4c7d9, 0x1e9fa82e8a685786);
    case 5 => Row(p, l, x, 3125, 4096, 0x121864db04ef8c, 0x1716033c737bed9d, 0xf0c6b68e36c8b, 0x1332eba9dc580cb0);
    case 6 => Row(p, l, x, 15625, 16384, 0x147ee20c5eeb0e, 0x20af791161a7f3f5, 0xf0c6b68e36c8b, 0x17ffa694536e0fdc);
    case 7 => Row(p, l, x, 78125, 65536, 0x1367fd85463827, 0x26af62b6768377ec, 0xf0c6b68e36c8b, 0x1dff9039684993d3);
    case 8 => Row(p, l, x, 390625, 524288, 0x1ea7a49e17be4d, 0x26315f9e2ecffafb, 0x828566c74b201, 0xa29dbc5e5545aec);
    case 9 => Row(p, l, x, 1953125, 2097152, 0x1bc9731041ac3e, 0x2b464d81217a2871, 0x828566c74b201, 0xcb452b75ea971a7);
  }

  lemma Rows208(p: int, l: int, x: nat, i: nat)
    requires i < 10 && Approx(p, l, x) && p == 208 && l == 690 && x == 0xf92e0c3537826145a7709a56ccdf8a827c
    ensures RowClear(p + i)
  {
    hide Approx, RowClear;
    match i
    case 0 => Row(p, l, x, 1, 1, 0x7305b7f57ac73, 0xdfea80e2008e686, 0x1970fe327b1b91, 0x3186f586b94651bd);
    case 1 => Row(p, l, x, 5, 8, 0x1cc16dfd5eb1cc, 0x22fca4235016404f, 0x171dd72c9bdb09, 0x1c203a71925b97c6);
    case 2 => Row(p, l, x, 25, 32, 0x102023d4ab72ed, 0x188660ae0ca20619, 0x1e1b8a848c4325, 0x2dca316de142f556);
    case 3 => Row(p, l, x, 125, 128, 0x1b16446a58b31b, 0x337ead4ec344dd57, 0xc78c3a2c70833, 0x17b5bcb27ea1c062);
    case 4 => Row(p, l, x, 625, 1024, 0x1e02915f0f6ee3, 0x23a84a64c29f6df5, 0x6a029b95990a3, 0x7df59c87dfc5100);
    case 5 => Row(p, l, x, 3125, 4096, 0x1bfbc0880ee2b1, 0x298fcdbb211caab5, 0x6a029b95990a3, 0x9d7303a9d7b6540);
    case 6 => Row(p, l, x, 15625, 16384, 0x17b63bf851057b, 0x2c0599c9c87b8405, 0x1e5665b1aa961e, 0x385296130d55c295);
    case 7 => Row(p, l, x, 78125, 131072, 0x1dfcfaaee2f4ce, 0x22cbdc92d4d7d519, 0x6a029b95990a3, 0x7b01dadcb08671a);
    case 8 => Row(p, l, x, 390625, 524288, 0xd520637d31873, 0x1351f5b4dd2e0453, 0x1a9259aa8639b9, 0x268a3fe758c30614);
    case 9 =>
      Row(p, l, x, 1953125, 2097152, 0x1aa082483965dd, 0x30467b63908cca2b, 0x1a996df95fcfcb, 0x3039a5a25fc048e2);
  }

  lemma Rows218(p: int, l: int, x: nat, i: nat)
    requires i < 10 && Approx(p, l, x) && p == 218 && l == 724 && x == 0x910ab1d4db9914a01d9c9892400a22a274
    ensures RowClear(p + i)
  {
    hide Approx, RowClear;
    match i
    case 0 => Row(p, l, x, 1, 1, 0x1aa1ecbe64ea47, 0x1e2da7d660718e84, 0x1a96990d08c6f7, 0x1e20d2152fa50d3b);
    case 1 => Row(p, l, x, 5, 4, 0x1aa1ecbe64ea47, 0x25b911cbf88df225, 0x1545473da09f2c, 0x1e20d2152fa50d3b);
    case 2 => Row(p, l, x, 25, 16, 0x1ee2fafdeb7083, 0x36af8ac4429ab1fd, 0x110438fe1a18f0, 0x1e20d2152fa50d3b);
    case 3 => Row(p, l, x, 125, 128, 0x1e41e331767d0a, 0x217b738de60ac22f, 0x11a550ca8f0c69, 0x1386c67a015d1554);
    case 4 => Row(p, l, x, 625, 512, 0x1bbc2c5015001d, 0x265d252c66620784, 0x11a550ca8f0c69, 0x1868781881b45aa9);
    case 5 => Row(p, l, x, 3125, 2048, 0x1bbc2c5015001d, 0x2ff46e777ffa8965, 0x13a9e31876a38d, 0x21ffc1639b4cdc8a);
    case 6 => Row(p, l, x, 15625, 16384, 0x1f94e1896ddcf7, 0x2220e3ca4173ffc9, 0x16886aa172a92, 0x18599cef47c60b5);
    case 7 => Row(p, l, x, 78125, 65536, 0x1f4cc69a9c6e0d, 0x2a47b64914b1e78e, 0x1206bbb45bba8, 0x18599cef47c60b5);
    case 8 => Row(p, l, x, 390625, 262144, 0x6b5ec69d4c779, 0xb54ba79bf6aaa3e, 0x1f5960946a0c84, 0x34eeeaf1c4188c81);
    case 9 => Row(p, l, x, 1953125, 2097152, 0x55e56bb109f94, 0x5aa5d3cdfb5551f, 0x1fd44e75348375, 0x21970d902ecc062f);
  }

  lemma Rows228(p: int, l: int, x: nat, i: nat)
    requires i < 10 && Approx(p, l, x) && p == 228 && l == 757 && x == 0xa8d9d1535ce3b3967f1839a741a14d0d5c
    ensures RowClear(p + i)
  {
    hide Approx, RowClear;
    match i
    case 0 => Row(p, l, x, 1, 1, 0x44b7895a6e610, 0x5aa5d3cdfb5551f, 0x1ec1704fcac9f1, 0x289239a50291b273);
    case 1 => Row(p, l, x, 5, 4, 0x36f93aaebeb40, 0x5aa5d3cdfb5551f, 0x1de58b650fcf21, 0x314c30bf0b48c9c8);
    case 2 => Row(p, l, x, 25, 32, 0x57f52ab131200, 0x5aa5d3cdfb5551f, 0x1de58b650fcf21, 0x1ecf9e77670d7e1d);
    case 3 => Row(p, l, x, 125, 128, 0x1d117715ecdb6d, 0x2572511d703b5e6a, 0x7142c69a0936d, 0x91e7eed11b0b4cf);
    case 4 => Row(p, l, x, 625, 512, 0xba09608c52492, 0x12b9288eb81daf35, 0x1f9939e068ddb5, 0x32e1fa26c0664ad5);
    case 5 => Row(p, l, x, 3125, 4096, 0x1a9797fde3515e, 0x1ac35cf4ba2fd61d, 0x13f8a3d7a3b923, 0x141982ff052d6144);
    case 6 => Row(p, l, x, 15625, 16384, 0x1e9090e1a3131b, 0x267397aa307da347, 0x19449a5ca3661f, 0x1fc9bdb47b7b2e6e);
    case 7 => Row(p, l, x, 78125, 65536, 0x19c11674c7ca71, 0x287fef2da12286f1, 0xa1b70f1daf5a6, 0xfe4deda3dbd9737);
    case 8 => Row(p, l, x, 390625, 262144, 0xf420f09361e23, 0x1dfe125c35759ec1, 0x192bb4be35b875, 0x317a47e6ff3e5552);
    case 9 =>
      Row(p, l, x, 1953125, 2097152, 0x1646545373fb7e, 0x1b5d9b27da8a64b5, 0x10edeaff3d77ad, 0x14cc7124f73e5397);
  }

  lemma Rows238(p: int, l: int, x: nat, i: nat)
    requires i < 10 && Approx(p, l, x) && p == 238 && l == 790 && x == 0xc491798a08a2ad4ef1a6f2bab92a27e289
    ensures RowClear(p + i)
  {
    hide Approx, RowClear;
    match i
    case 0 => Row(p, l, x, 1, 1, 0xc1dfa871be6e3, 0x129bad1617be3f31, 0x19a91cece6ad07, 0x27681e3b0efc92c8);
    case 1 => Row(p, l, x, 5, 4, 0x9b19538e31f1c, 0x129bad1617be3f31, 0x19a91cece6ad07, 0x314225c9d2bbb77a);
    case 2 => Row(p, l, x, 25, 32, 0x10c3b8da0b7b23, 0x141d0689cc262654, 0x1709ab552be9f2, 0x1ba3c5cc522daa03);
    case 3 => Row(p, l, x, 125, 128, 0x10c3b8da0b7b23, 0x1924482c3f2fafe9, 0x1c7d2b2d5d383d, 0x2ab98ab3ab4a46c2);
    case 4 => Row(p, l, x, 625, 512, 0xc6752937da2e7, 0x174086c30a6a69a5, 0x13c45ea04187c5, 0x250e46780cfa73f6);
    case 5 => Row(p, l, x, 3125, 4096, 0x1be8f4f6bf0180, 0x20b34dd11244c8f9, 0x8ea33f4a5c2b7, 0xa71ea7fc439e8e8);
    case 6 => Row(p, l, x, 15625, 16384, 0x181c67f6538e8b, 0x234fc87103534333, 0x8ea33f4a5c2b7, 0xd0e651fb5486322);
    case 7 => Row(p, l, x, 78125, 65536, 0x128f2a572d9555, 0x21f9e2a024441d84, 0x11d467e94b856e, 0x20a3fccf4534f7d5);
    case 8 => Row(p, l, x, 390625, 524288, 0x1edcae08190860, 0x234fc87103534333, 0x320d353211125, 0x394496b9500f0d9);
    case 9 => Row(p, l, x, 1953125, 2097152, 0x16e590460a1d07, 0x20bf56d1074017e2, 0xbcd9f30da2089, 0x10e1974e5016eeb5);
  }

  lemma Rows248(p: int, l: int, x: nat, i: nat)
    requires i < 10 && Approx(p, l, x) && p == 248 && l == 823 && x == 0xe4d5e82392a405150fabaf3feaa5334a54
    ensures RowClear(p + i)
  {
    hide Approx, RowClear;
    match i
    case 0 => Row(p, l, x, 1, 1, 0x1b9e3659949071, 0x315ff82c711b9535, 0x9714c2714e6d4, 0x10e1974e5016eeb5);
    case 1 => Row(p, l, x, 5, 8, 0x122cea327fa99d, 0x144efc8ad4a2e810, 0x1660d785ee1b92, 0x19012f85d8581855);
    case 2 => Row(p, l, x, 25, 32, 0x1cced289717bd3, 0x283c6cedf7d24661, 0xaa1e856f1d236, 0xed9b1406e06a44d);
    case 3 => Row(p, l, x, 125, 128, 0x1e51061bc10d4e, 0x34edcac4bcb8176b, 0xc241be94163b1, 0x1532602bd0798cd2);
    case 4 => Row(p, l, x, 625, 1024, 0xe8e08068d7fa9, 0xfe1beb6a93d3775, 0x13745f97ea8f72, 0x153a730036b57123);
    case 5 => Row(p, l, x, 3125, 4096, 0x1e16ee5d60cf47, 0x290a89db0a771910, 0x1f5bca08b9fea, 0x2ac5a24c6bc1cd7);
    case 6 => Row(p, l, x, 15625, 16384, 0x1e16ee5d60cf47, 0x334d2c51cd14df54, 0x139f25eba9c919, 0x217441890e956fa3);
    case 7 => Row(p, l, x, 78125, 131072, 0xe6469a0d8fb33, 0xf561aee98e253c3, 0x1f6509790fa828, 0x217441890e956fa3);
    case 8 => Row(p, l, x, 390625, 524288, 0x81d01556f732b, 0xace9147fb758ccb, 0x191da12da62020, 0x217441890e956fa3);
    case 9 =>
      Row(p, l, x, 1953125, 2097152, 0x172ec870d3200b, 0x269966c0c54303b8, 0x1417b42484e680, 0x217441890e956fa3);
  }

  lemma Rows258(p: int, l: int, x: nat, i: nat)
    requires i < 10 && Approx(p, l, x) && p == 258 && l == 857 && x == 0x8533285c936b35ded53a88958f87275f58
    ensures RowClear(p + i)
  {
    hide Approx, RowClear;
    match i
    case 0 => Row(p, l, x, 1, 1, 0x4a2f4e35d6ccf, 0x4d32cd818a86077, 0x1eead845ef4d5c, 0x202c600a9680a12b);
    case 1 => Row(p, l, x, 5, 4, 0x3b590b5e4570c, 0x4d32cd818a86077, 0x1dfd7418763799, 0x2702acd735f6b158);
    case 2 => Row(p, l, x, 25, 16, 0xed642d7915c30, 0x181fe0387b49e253, 0x1dbcb55dcd0505, 0x305a11f692c0b00e);
    case 3 => Row(p, l, x, 125, 128, 0x17c0747bd76fa1, 0x18232a692ecf7fc0, 0x17d0a42a81bc46, 0x18339d5cb06b92e1);
    case 4 => Row(p, l, x, 625, 512, 0x17c0747bd76fa1, 0x1e2bf5037a835fb0, 0xe4d38d609804b, 0x122ad2c264b7b2f1);
    case 5 => Row(p, l, x, 3125, 2048, 0x17c0747bd76fa1, 0x25b6f2445924379c, 0x19b14028bc1003, 0x28cbca85009a3ab5);
    case 6 => Row(p, l, x, 15625, 8192, 0x17c0747bd76fa1, 0x2f24aed56f6d4583, 0xb0d9e557379c2, 0x15f05162d4081ee7);
    case 7 => Row(p, l, x, 78125, 65536, 0x1965ac4cc7ebbe, 0x1f8174cf423e7043, 0x1076325b652821, 0x146bcbbc6449fdee);
    case 8 => Row(p, l, x, 390625, 262144, 0xd738230fdccb9, 0x14dbad56ba31b79d, 0x1378e285cc8389, 0x1e31d00040874336);
    case 9 => Row(p, l, x, 1953125, 1048576, 0x1ecbfe7cbe1a27, 0x3bb1a558e19e1bd6, 0x7c9f43585016a, 0xf18e8002043a19b);
  }

  lemma Rows268(p: int, l: int, x: nat, i: nat)
    requires i < 10 && Approx(p, l, x) && p == 268 && l == 890 && x == 0x9b10a4e5e9913128ca7cf2b4191c832684
    ensures RowClear(p + i)
  {
    hide Approx, RowClear;
    match i
    case 0 => Row(p, l, x, 1, 1, 0x1bae699a88e663, 0x2188cd5784f1e8ff, 0xc765388d4cf10, 0xf18e8002043a19b);
    case 1 => Row(p, l, x, 5, 4, 0x1d122c7f26f2e5, 0x2c05bc01cc09f8c1, 0x6ed0b36b96dc9, 0xa7ceeaa47180fc2);
    case 2 => Row(p, l, x, 25, 16, 0x7790b1206b8e3, 0xe252b0130b2f08f, 0x1ccc2c91804d58, 0x3682aaac13220883);
    case 3 => Row(p, l, x, 125, 128, 0x19a058c835c5db, 0x1e513b8d9d717667, 0x887a6ffca3b62, 0xa175feab89bc5fd);
    case 4 => Row(p, l, x, 625, 512, 0x6d4ccc19999d9, 0xa1a26de15834f19, 0x1b49cf3d8f53af, 0x285ab8b785878ed8);
    case 5 => Row(p, l, x, 3125, 2048, 0x15da481026e85f, 0x286522c821ebd101, 0x10615d19e7695a, 0x1e478339d8471685);
    case 6 => Row(p, l, x, 15625, 16384, 0x2305dfc196602, 0x28767e392692e9f, 0x1f97c3a413f849, 0x247ffdc93f5365ac);
    case 7 => Row(p, l, x, 78125, 65536, 0x16143237ee101d, 0x1fe2a67275877d02, 0xd52ba47887815, 0x133d9f00997993e7);
    case 8 => Row(p, l, x, 390625, 262144, 0x8d4e0e32c0672, 0xff153393ac3be81, 0x1f0fe500a6f363, 0x3812b71e1d11d102);
    case 9 => Row(p, l, x, 1953125, 2097152, 0xe2167d1e00a50, 0xff153393ac3be81, 0x1b878b0c2ef0cf, 0x1f0f5da4837a3301);
  }

  lemma Rows278(p: int, l: int, x: nat, i: nat)
    requires i < 10 && Approx(p, l, x) && p == 278 && l == 923 && x == 0xb484f9dc9641e9dab1f9f660802dedf659
    ensures RowClear(p + i)
  {
    hide Approx, RowClear;
    match i
    case 0 => Row(p, l, x, 1, 1, 0xdfbf3b38fcff3, 0x13b8d5d40cf15ba1, 0x1b6216eddeb672, 0x269e62da27d56d41);
    case 1 => Row(p, l, x, 5, 4, 0x190df35e29146b, 0x2c2b0ee9a09bbbaa, 0x133a0b4c3bfd75, 0x21e4ff98a11c68d9);
    case 2 => Row(p, l, x, 25, 32, 0x9530ce97b57f0, 0xa460f50ff7f52d1, 0x16b93023ca3e6f, 0x1909657dc4818096);
    case 3 => Row(p, l, x, 125, 128, 0x173189da1f22c3, 0x1ff17fa9efdeaf30, 0x916e00e50e5c6, 0xc84b2bee240c04b);
    case 4 => Row(p, l, x, 625, 512, 0x132e820f547697, 0x2105c56840792c62, 0x112cfe29ef2081, 0x1d91b8522aca9515);
    case 5 => Row(p, l, x, 3125, 4096, 0x1ba81e0ad1fba9, 0x1dc21000bdd5aca9, 0x1569cc27ade30a, 0x170a4d83258395a3);
    case 6 => Row(p, l, x, 15625, 16384, 0x27f53f474d6a6, 0x35be13ecc290b83, 0x1f969e834e0029, 0x2a7c4c2d4710424a);
    case 7 => Row(p, l, x, 78125, 65536, 0x14a07f42c8488a, 0x22adab11d42c4f31, 0x19f216fb42bf83, 0x2b9ecd7dbfdbda02);
    case 8 => Row(p, l, x, 390625, 524288, 0x17d173e4ab5cb9, 0x1906f7d39cfd858d, 0x8828c5a5d8b28, 0x8f1226bebaf8ad1);
    case 9 =>
      Row(p, l, x, 1953125, 2097152, 0x161dbe38ff0db1, 0x1d0c6d2d8951043c, 0x1cec94e7b049d1, 0x25fd8f9975008f0d);
  }

  lemma Rows288(p: int, l: int, x: nat, i: nat)
    requires i < 10 && Approx(p, l, x) && p == 288 && l == 956 && x == 0xd226fc195c6a2f8c73832eec6fff3111d4
    ensures RowClear(p + i)
  {
    hide Approx, RowClear;
    match i
    case 0 => Row(p, l, x, 1, 1, 0x161dbe38ff0db1, 0x244f8878eba5454b, 0xe4af7d5c09bfa, 0x17775902b0580cef);
    case 1 => Row(p, l, x, 5, 8, 0x1341f30e3eee7f, 0x13c2ca2b3d3c49b1, 0x16de595600f990, 0x17775902b0580cef);
    case 2 => Row(p, l, x, 25, 32, 0x1a7aa3c0af09ea, 0x21f6be134dceee85, 0x86cdc140cc803, 0xace88cb7b6515a8);
    case 3 => Row(p, l, x, 125, 128, 0x1f4b24b234f7f2, 0x322c8b4486e68f01, 0x86cdc140cc803, 0xd822afe5a3e5b12);
    case 4 => Row(p, l, x, 625, 1024, 0x119292b9b674c9, 0x119bf2f0839105e7, 0x1020dd967cab43, 0x1029788b5e0addc6);
    case 5 => Row(p, l, x, 3125, 4096, 0x3cda7f8fcd943, 0x4c39b556a45cb82, 0x1c741333fc7d43, 0x23a4120700d55eed);
    case 6 => Row(p, l, x, 15625, 16384, 0x1b5afc5dbe2901, 0x2ad4f883ee591be1, 0x13bfac6bc4767b, 0x1eebf42e64aa9f1c);
    case 7 => Row(p, l, x, 78125, 65536, 0x11ef41023da2b5, 0x2319fb78552e741a, 0x13bfac6bc4767b, 0x26a6f139fdd546e3);
    case 8 => Row(p, l, x, 390625, 524288, 0x1f8e7d4039035d, 0x2699fd76f5aa8deb, 0x8a0098884841a, 0xa8cf9bee99f066b);
    case 9 => Row(p, l, x, 1953125, 2097152, 0x1ddf785deca326, 0x2dad6f18c2e2d701, 0x25056e212b6a1, 0x389b8d0e69c248b);
  }

  lemma Rows298(p: int, l: int, x: nat, i: nat)
    requires i < 10 && Approx(p, l, x) && p == 298 && l == 989 && x == 0xf4a642e14c6262c8cd27bb612758c0f9f2
    ensures RowClear(p + i)
  {
    hide Approx, RowClear;
    match i
    case 0 => Row(p, l, x, 1, 1, 0x1c7c11097b025f, 0x3671804246a67159, 0x1e55f024bd2e13, 0x39fb39132d4295e4);
    case 1 => Row(p, l, x, 5, 8, 0x16ee73b7b47f43, 0x1b64b5a1bbc34253, 0xc22600eb2126e, 0xe7ece44cb50a579);
    case 2 => Row(p, l, x, 25, 32, 0x1a6d90d8cb076d, 0x27767d83386644e5, 0x161bef61fd424b, 0x210389d4c02cf678);
    case 3 => Row(p, l, x, 125, 128, 0x1990708dd51333, 0x2fb75ff868718283, 0x161bef61fd424b, 0x29446c49f0383416);
    case 4 => Row(p, l, x, 625, 1024, 0x1d04f1b9ace41b, 0x21da74484c6ac296, 0xbe228c2db3a9d, 0xddcebb01c06bfed);
    case 5 => Row(p, l, x, 3125, 4096, 0x1844149eeecca9, 0x23629b8251821345, 0x981ba357c2ee4, 0xddcebb01c06bfed);
    case 6 => Row(p, l, x, 15625, 16384, 0x1df851256c8265, 0x36a0f326fae7a808, 0x79afb5dfcf250, 0xddcebb01c06bfed);
    case 7 => Row(p, l, x, 78125, 131072, 0x1df851256c8265, 0x222497f85cd0c905, 0x1828190bc01e42, 0x1b852879dac0a9ef);
    case 8 => Row(p, l, x, 390625, 524288, 0x1ca06dcc13eba0, 0x28c40776dee0e81b, 0x87ffecc5d91ad, 0xc1ab85d4cdc4d32);
    case 9 =>
      Row(p, l, x, 1953125, 2097152, 0x13f35deacbefed, 0x23836a300f83d48c, 0x10fffd98bb235a, 0x1e42cce94026c0fd);
  }

  lemma Rows308(p: int, l: int, x: nat, i: nat)
    requires i < 10 && Approx(p, l, x) && p == 308 && l == 1023 && x == 0x8e679c2f5e44ff8f570f09eaa7ea76484f
    ensures RowClear(p + i)
  {
    hide Approx, RowClear;
    match i
    case 0 => Row(p, l, x, 1, 1, 0x164faaf93fc6c9, 0x18d271017160ee9f, 0x119710dc581911, 0x1391d3baa203db10);
    case 1 => Row(p, l, x, 5, 4, 0x1c672c7ece47ab, 0x277fcfcd6ae3d2eb, 0x119710dc581911, 0x187648a94a84d1d4);
    case 2 => Row(p, l, x, 25, 16, 0x1a3d8d5e503e59, 0x2d9d61f7bd850760, 0x119710dc581911, 0x1e93dad39d260649);
    case 3 => Row(p, l, x, 125, 128, 0x1a3d8d5e503e59, 0x1c825d3ad673249c, 0x726dd15198fd4, 0x7c529d7be638299);
    case 4 => Row(p, l, x, 625, 512, 0x1a3d8d5e503e59, 0x23a2f4898c0fedc3, 0x1ab6bb8f87d824, 0x2447871294d6a735);
    case 5 => Row(p, l, x, 3125, 2048, 0x1f954c7b05032d, 0x359d937094499301, 0x155efc72d31350, 0x2447871294d6a735);
    case 6 => Row(p, l, x, 15625, 16384, 0x146ca01063dfba, 0x15ab8f757f4fa6bf, 0x1323a6c3e60c39, 0x144e85150a59b114);
    case 7 => Row(p, l, x, 78125, 65536, 0x1bd2b0e90d20b7, 0x24e673454712eb8e, 0x1323a6c3e60c39, 0x1962265a4cf01d59);
    case 8 => Row(p, l, x, 390625, 262144, 0x185979a6fd7eeb, 0x285de9a11bc63f57, 0x11670b22de3b53, 0x1cd99cb621a37122);
    case 9 => Row(p, l, x, 1953125, 2097152, 0x19bd295b03bfa3, 0x1aab3ba210a0415d, 0xe9fabbad1b9e3, 0xf26eeb7167d7328);
  }

  lemma Rows318(p: int, l: int, x: nat, i: nat)
    requires i < 10 && Approx(p, l, x) && p == 318 && l == 1056 && x == 0xa5c7ea73224deff312b9b522906c08001f
    ensures RowClear(p + i)
  {
    hide Approx, RowClear;
    match i
    case 0 => Row(p, l, x, 1, 1, 0x1d5d881f4da271, 0x26086eab617e57bb, 0xe9fabbad1b9e3, 0x12f0aa64dc1ccff2);
    case 1 => Row(p, l, x, 5, 4, 0xbcb16b6c986d8, 0x1317c446856187c9, 0x14853716367d4f, 0x2138b72155d4c7d3);
    case 2 => Row(p, l, x, 25, 32, 0x18d0299084e10a, 0x191b69b313f57bab, 0x9f41c825ec9d1, 0xa124c23af8399f6);
    case 3 => Row(p, l, x, 125, 128, 0x1fb5b9699256cf, 0x281b5cef66fd9ac2, 0x3fb3e9a8c50ba, 0x5092611d7c1ccfb);
    case 4 => Row(p, l, x, 625, 512, 0x117d6df90c8cff, 0x1ba6dc7a4ce5b41f, 0xfecfa6a3142e8, 0x192dbe5936c900e7);
    case 5 => Row(p, l, x, 3125, 2048, 0xdadda7777c861, 0x1b0894f2075e8751, 0x19cb41601446ab, 0x32f9c43ab3192e9c);
    case 6 => Row(p, l, x, 15625, 16384, 0x1cec287dcadad9, 0x23b959b8627c9529, 0xa514d59a1b5de, 0xcbe710eacc64ba7);
    case 7 => Row(p, l, x, 78125, 65536, 0x1fcc51628f4eb9, 0x31184923f8387443, 0x185b2cedb20cbb, 0x259ad4cf1d5d4f82);
    case 8 => Row(p, l, x, 390625, 262144, 0x1970411ba5d894, 0x31184923f8387443, 0xba30c5fdf2071, 0x16756570e8986941);
    case 9 => Row(p, l, x, 1953125, 2097152, 0xcef8afd6a150f, 0xf9a6ebf60021e71, 0x16686f01619dce, 0x1b075f3c98fc9b21);
  }

  lemma Rows328(p: int, l: int, x: nat, i: nat)
    requires i < 10 && Approx(p, l, x) && p == 328 && l == 1089 && x == 0xc0fe908895cf3b44505f522e53053ff26b
    ensures RowClear(p + i)
  {
    hide Approx, RowClear;
    match i
    case 0 => Row(p, l, x, 1, 1, 0x1b41bf2b68623e, 0x2918d3ff83891cfb, 0xc3e36651ff8ff, 0x1275aadeae40bd9d);
    case 1 => Row(p, l, x, 5, 4, 0x11b1c307680ca5, 0x21594a963ab33443, 0x1f47168d17d757, 0x3af30bc32c907fce);
    case 2 => Row(p, l, x, 25, 32, 0x1d221b25cb549f, 0x22513bc363cdf15a, 0x1905aba41312ac, 0x1d7985e196483fe7);
    case 3 => Row(p, l, x, 125, 128, 0x1cfdaee84ab83b, 0x2aafe968da2e6216, 0x42ea5a0789025, 0x62873fff230a39d);
    case 4 => Row(p, l, x, 625, 512, 0xad11cef060505, 0x13e8a85a21d48df1, 0x1b8bb370e84599, 0x32b2ec59dcc7c002);
    case 5 => Row(p, l, x, 3125, 4096, 0xdc27ef31f177f, 0xfd40dfc08691065, 0x13abf885fb530e, 0x16a10f43881c36f9);
    case 6 => Row(p, l, x, 15625, 16384, 0x1e4adbb8ffac2d, 0x2b8ede35304ba44d, 0x121a2aa5edf3de, 0x1a078fe747f5ca43);
    case 7 => Row(p, l, x, 78125, 65536, 0x1d2ee964b246e7, 0x34743822eebc0fb8, 0x4cd873e8ed649, 0x8a1f46029e56e9f);
    case 8 => Row(p, l, x, 390625, 524288, 0x1d2ee964b246e7, 0x20c8a315d53589d3, 0x7af3eca7e23a8, 0x8a1f46029e56e9f);
    case 9 => Row(p, l, x, 1953125, 2097152, 0x1ba5766f65d95f, 0x26d24ec3400990a0, 0x625cbd531b620, 0x8a1f46029e56e9f);
  }

  lemma Rows338(p: int, l: int, x: nat, i: nat)
    requires i < 7 && Approx(p, l, x) && p == 338 && l == 1122 && x == 0xe0accfa875af45a793eb1b80a33b860566
    ensures RowClear(p + i)
  {
    hide Approx, RowClear;
    match i
    case 0 => Row(p, l, x, 1, 1, 0x158183ba31adb9, 0x25bfaf7299ec9b17, 0xf5d9104fd8213, 0x1af87c7123cd4166);
    case 1 => Row(p, l, x, 5, 8, 0x1ba5766f65d95f, 0x1e544d888a0778fd, 0x11d25880abf9ef, 0x138d1a8713e81f4c);
    case 2 => Row(p, l, x, 25, 32, 0x1d3ee88c964512, 0x281adacc13fb88a3, 0x11d25880abf9ef, 0x18706128d8e2271f);
    case 3 => Row(p, l, x, 125, 128, 0x176586d6de9da8, 0x281adacc13fb88a3, 0xbf8f6caf45285, 0x1485c2c00a1bcebe);
    case 4 => Row(p, l, x, 625, 1024, 0x1e786cc408cdb1, 0x20a4dc7110402052, 0x1a1ec2a548b297, 0x1bfbc11b0dd7370f);
    case 5 => Row(p, l, x, 3125, 4096, 0x7d58d004e9a61, 0xa7dc4c745447cb6, 0x1d9aa586d731de, 0x27a513fd938e5df5);
    case 6 => Row(p, l, x, 15625, 16384, 0x322386685d75a, 0x53ee263a2a23e5b, 0x1d70333fb6e5e5, 0x31474b4767de9a84);
  }

  lemma Below37(p: int, l: int, x: nat, i: nat)
    requires i < 10 && Approx(p, l, x) && p == -37 && l == -123 && x == 0x881cea14545c75757e50d64177da2e54ba
    ensures RowClear(p + i)
  {
    hide Approx, RowClear;
    match i
    case 0 => Row(p, l, x, 1, 1, 0xc8dc8d75bc52b, 0xd597b5df234c377, 0x151233c2076fc9, 0x1668198219b25c50);
    case 1 => Row(p, l, x, 5, 4, 0x19ea3e1141293f, 0x22726bb95031b351, 0x184ce54c2deb6d, 0x204cfd1c6ad61e02);
    case 2 => Row(p, l, x, 25, 16, 0x581849144149d, 0x925f6958d635228, 0x1a93b8534b8466, 0x2c289e70d58a0265);
    case 3 => Row(p, l, x, 125, 128, 0x581849144149d, 0x5b7ba1d785e1359, 0x1d4f1bf56f08c4, 0x1e6fac9081750729);
    case 4 => Row(p, l, x, 625, 512, 0x16612ce4e272cb, 0x1d0ce512a3be0a58, 0x16bc4784b49322, 0x1d832791eda5b3f3);
    case 5 => Row(p, l, x, 3125, 2048, 0x16612ce4e272cb, 0x24501e574cad8cee, 0x16aa0efe575977, 0x24c660d696953689);
    case 6 => Row(p, l, x, 15625, 16384, 0x1f71ffb1056361, 0x1fe3ab2c3591c5b7, 0x4d14b7f865ef7, 0x4e2b5aa610370d2);
    case 7 => Row(p, l, x, 78125, 65536, 0x1f18404b93ed97, 0x276ad130e5900b85, 0x1ed516635bf96, 0x2715ad53081b869);
    case 8 => Row(p, l, x, 390625, 262144, 0x1eb5966a55fa79, 0x30a92ec7d2d3a04c, 0x18aa784f7cc78, 0x2715ad53081b869);
    case 9 => Row(p, l, x, 1953125, 1048576, 0x1762258180f12a, 0x2e50c8e29df94bd7, 0xec661cab01185, 0x1d43c7864840f2f2);
  }

  lemma Below47(p: int, l: int, x: nat, i: nat)
    requires i < 10 && Approx(p, l, x) && p == -47 && l == -157 && x == 0xe9d71b689dde71afaab8f01e6e10b4a6c5
    ensures RowClear(p + i)
  {
    hide Approx, RowClear;
    match i
    case 0 => Row(p, l, x, 1, 1, 0x13de005bd620df, 0x244b7fccd6fdfe0c, 0x1000c781d07a77, 0x1d3c4fe6a7ff5a0b);
    case 1 => Row(p, l, x, 5, 8, 0xf02fa7f1e98d9, 0x1123e7dfe81e9145, 0x18b906388da8e5, 0x1c3a77e0249eec4a);
    case 2 => Row(p, l, x, 25, 32, 0xaf2ff0af55eeb, 0xfa091e7fd3703b5, 0x1b8c0e5b3093f4, 0x275107e0611f474f);
    case 3 => Row(p, l, x, 125, 128, 0x12942e391219a1, 0x21254f45e00f785e, 0x1937cdf2c3620b, 0x2cfd8a4212039a2b);
    case 4 => Row(p, l, x, 625, 1024, 0x1b9b1da5d6bf16, 0x1ec818f28105ab2d, 0x1fdb6dac74aa75, 0x23859b46ea7ad57b);
    case 5 => Row(p, l, x, 3125, 4096, 0xa312f0dcfea29, 0xe34abe426258b03, 0x1ce2fe28dbab10, 0x28431d9b53efffc9);
    case 6 => Row(p, l, x, 15625, 16384, 0x19231087c7d35a, 0x2bcb76b501b0f1a9, 0x7d0d5d7bbeaa5, 0xd9df25fde8562b3);
    case 7 => Row(p, l, x, 78125, 131072, 0xd2e5c2634b266, 0xe5a5a45380d9517, 0x18ac294bd55161, 0x1addb0cd1046ac34);
    case 8 => Row(p, l, x, 390625, 524288, 0x1027be6129a6c3, 0x15fd48572c097f21, 0x1469f3d67f7c12, 0x1bc932abc030eb31);
    case 9 => Row(p, l, x, 1953125, 2097152, 0xea0adafdd4122, 0x18e33d81761d3529, 0x12e2e325331671, 0x2022226b2f4e7c3d);
  }

  lemma Below57(p: int, l: int, x: nat, i: nat)
    requires i < 10 && Approx(p, l, x) && p == -57 && l == -190 && x == 0xc8de047564d20a8bf245825a5a44527553
    ensures RowClear(p + i)
  {
    hide Approx, RowClear;
    match i
    case 0 => Row(p, l, x, 1, 1, 0x1b2434c993a9f8, 0x2a97a6388a750e09, 0x5f594690f8fcf, 0x95a0e06b25644b7);
    case 1 => Row(p, l, x, 5, 4, 0x15b690a142ee60, 0x2a97a6388a750e09, 0xb633891604b67, 0x16567b1681891967);
    case 2 => Row(p, l, x, 25, 32, 0xee16eb06f8def, 0x123e59bae5f5bf3f, 0x12385a8233abd8, 0x16567b1681891967);
    case 3 => Row(p, l, x, 125, 128, 0xc9287b71a1121, 0x13446211ccda95c9, 0x1c7bfb3ff8402b, 0x2ba6edd61c2d5c44);
    case 4 => Row(p, l, x, 625, 512, 0x1b80890fa1aac8, 0x34aefc82e41790a9, 0x5b2657331a66f, 0xae9bb75870b5711);
    case 5 => Row(p, l, x, 3125, 4096, 0x1eeb92bb25db71, 0x2505041de132fb10, 0x91d6f1eb5d718, 0xae9bb75870b5711);
    case 6 => Row(p, l, x, 15625, 16384, 0x1c0f5b3bef301d, 0x29fe73680d6ec3f7, 0x866613ee82c43, 0xc9235e395c9ef5e);
    case 7 => Row(p, l, x, 78125, 65536, 0x15e97eefd9fbc5, 0x28fdcecdce04c30e, 0xce76b248e1c19, 0x1823c72cec29ddd3);
    case 8 => Row(p, l, x, 390625, 524288, 0x13de005bd620df, 0x173a8f3b6adffec0, 0x17c357b5185d4c, 0x1bc8a6f2f1515a1f);
    case 9 => Row(p, l, x, 1953125, 2097152, 0x13de005bd620df, 0x1d09330a4597fe70, 0xf09794b4f10dd, 0x15fa032416995a6f);
  }

  lemma Below67(p: int, l: int, x: nat, i: nat)
    requires i < 10 && Approx(p, l, x) && p == -67 && l == -223 && x == 0xac8b2d36eed2dac5e272467e3d222f3fa5
    ensures RowClear(p + i)
  {
    hide Approx, RowClear;
    match i
    case 0 => Row(p, l, x, 1, 1, 0x5b9a5b05fd606, 0x7b7b044a7903105, 0x1cc65d1199c7d3, 0x26c9d6a2cdd931b0);
    case 1 => Row(p, l, x, 5, 4, 0x1b999bce614b14, 0x2e8186e7756962b5, 0x1cc65d1199c7d3, 0x307c4c4b814f7e1c);
    case 2 => Row(p, l, x, 25, 32, 0x4d0ab3424c42b, 0x51226d76a36e210, 0x1ca8b6ea56f6a4, 0x1e2e7651e45a1143);
    case 3 => Row(p, l, x, 125, 128, 0xf688a4075a6f, 0x14489b5da8db884, 0x1fd0f48ee37946, 0x29e20c820a2659f7);
    case 4 => Row(p, l, x, 625, 512, 0xf688a4075a6f, 0x195ac23513126a5, 0x1f9dc7bf4b7098, 0x34065a30de941e17);
    case 5 => Row(p, l, x, 3125, 4096, 0x7b445203ad378, 0x7ec5cb095f5c139, 0x1cdba557bb2777, 0x1dadc0ca9f4158f0);
    case 6 => Row(p, l, x, 15625, 16384, 0x121929451d270b, 0x17442993d3bbd8ae, 0x177a674e6c2741, 0x1e2ead488d66c3ed);
    case 7 => Row(p, l, x, 78125, 65536, 0x177bc3d4ca153, 0x25bc88a9819808c, 0x1fcb1dd2546a1d, 0x33170e51c9091c0f);
    case 8 => Row(p, l, x, 390625, 524288, 0x1a50bc003e4f49, 0x1a6df25cdd8e1e3c, 0x17614385a50ca3, 0x177b37af9f6e3d8d);
    case 9 =>
      Row(p, l, x, 1953125, 2097152, 0x1a50bc003e4f49, 0x21096ef414f1a5cb, 0x12b43604840a1c, 0x177b37af9f6e3d8d);
  }

  lemma Below77(p: int, l: int, x: nat, i: nat)
    requires i < 10 && Approx(p, l, x) && p == -77 && l == -256 && x == 0x9436c0760c86e30bf9a0b6720aaf652163
    ensures RowClear(p + i)
  {
    hide Approx, RowClear;
    match i
    case 0 => Row(p, l, x, 1, 1, 0x1849c3510eb2a2, 0x1c1fad792a8ae60f, 0xb9b118e51a5b5, 0xd70432b44de796e);
    case 1 => Row(p, l, x, 5, 4, 0x10adbf0f6a1147, 0x1824091d08ec4e1a, 0x1736231ca34b6a, 0x2198a7ec2c2c2f93);
    case 2 => Row(p, l, x, 25, 16, 0xe10ca3d532d39, 0x1972bbfcb98770e4, 0x134ab3e180f555, 0x22e75acbdcc7525d);
    case 3 => Row(p, l, x, 125, 128, 0x1d7fc08b53f17d, 0x215b62e3e2584fbd, 0x1eddec9c018888, 0x22e75acbdcc7525d);
    case 4 => Row(p, l, x, 625, 512, 0x1fd22a12979a3f, 0x2cfa6bd722137ff9, 0x4608d022b7cf, 0x62fdf9fe9bc0a8);
    case 5 => Row(p, l, x, 3125, 2048, 0x1ff8a9d4b84212, 0x387d0c6b086b4211, 0xe01c33a24c3, 0x18bf7e7fa6f02a);
    case 6 => Row(p, l, x, 15625, 16384, 0x1ff31398d39795, 0x2347fc6225f5666d, 0x38070ce8930c, 0x3ddebc3f215869);
    case 7 => Row(p, l, x, 78125, 65536, 0x1fbbcdf55e6f25, 0x2bcdb0093b9816fa, 0xe01c33a24c30, 0x13559ad3ba6ba0d);
    case 8 => Row(p, l, x, 390625, 262144, 0x1ce37bf93b2344, 0x31d8706b65d9b93b, 0x818fb31f11501, 0xdf8cc336406d6df);
    case 9 => Row(p, l, x, 1953125, 2097152, 0x1b44e355a48577, 0x1d682cbcb32738e9, 0xcf4c51cb4ee68, 0xdf8cc336406d6df);
  }

  lemma Below87(p: int, l: int, x: nat, i: nat)
    requires i < 10 && Approx(p, l, x) && p == -87 && l == -290 && x == 0xfea126b7d78186bce2f610c84987bfa81f
    ensures RowClear(p + i)
  {
    hide Approx, RowClear;
    match i
    case 0 => Row(p, l, x, 1, 1, 0x1a47e010937991, 0x3447b6fbcf055095, 0x926b2d222e950, 0x1234504a8b693201);
    case 1 => Row(p, l, x, 5, 8, 0x1e5d3ae1421c4f, 0x25c0850e7742110b, 0x3e51f9b9f0433, 0x4d7bb4f1d41152e);
    case 2 => Row(p, l, x, 25, 32, 0x14b6f6b07847c3, 0x203185a0cc1402c4, 0x1c8135e7b65029, 0x2c4cd9e69536b7b7);
    case 3 => Row(p, l, x, 125, 128, 0x42497bce4db27, 0x80c6168330500b1, 0x1f28fcdcf82198, 0x3c88a55cedad88bf);
    case 4 => Row(p, l, x, 625, 1024, 0x6a0f2c7d491d8, 0x80c6168330500b1, 0x1caca1d2086ae7, 0x22d0c2d3016a9535);
    case 5 => Row(p, l, x, 3125, 4096, 0x54d8f0643a7e0, 0x80c6168330500b1, 0x1b593e107780ef, 0x2981db2db503fa56);
    case 6 => Row(p, l, x, 15625, 16384, 0x15363c190e9f80, 0x283de708ff190375, 0x10135da96c0323, 0x1e7f6a4feccd8050);
    case 7 => Row(p, l, x, 78125, 131072, 0x1eb94d6c9b64f9, 0x246df9bf017f536b, 0x10135da96c0323, 0x130fa271f4007032);
    case 8 => Row(p, l, x, 390625, 524288, 0x9130c3cc227c3, 0xd73144303bf8da9, 0x1713af1615de83, 0x223401d9de418ad4);
    case 9 => Row(p, l, x, 1953125, 2097152, 0xbdff99b6c7f83, 0x160014b97b4ff05e, 0x1713af1615de83, 0x2ac1025055d1ed89);
  }

  lemma Below97(p: int, l: int, x: nat, i: nat)
    requires i < 10 && Approx(p, l, x) && p == -97 && l == -323 && x == 0xdab99e59958885c4e95fab368e45eced70
    ensures RowClear(p + i)
  {
    hide Approx, RowClear;
    match i
    case 0 => Row(p, l, x, 1, 1, 0x135952a4b4d5c4, 0x21102fc9c2c2d1d7, 0x1c895834fecac9, 0x30c34c094040af34);
    case 1 => Row(p, l, x, 5, 8, 0x9c596df90e8db, 0xa6fae63b9595305, 0x1bc1ebcb4adb01, 0x1da513e06444e1f2);
    case 2 => Row(p, l, x, 25, 32, 0x1da08995c780e1, 0x278d4bc8a900bd1a, 0x975d1e87c228b, 0xca11c29f5bde1ff);
    case 3 => Row(p, l, x, 125, 128, 0x9b5a2ae265acb, 0x1033e107251f2046, 0x1c21a4f3ca2f61, 0x2ef1abcaa79649b5);
    case 4 => Row(p, l, x, 625, 1024, 0x19a4c1cdda7943, 0x1abecb7e4e445a39, 0xd31c8eabef1e9, 0xdc2e7138e897676);
    case 5 => Row(p, l, x, 3125, 4096, 0x1b89805b907249, 0x23e674cfc2f59705, 0x5471d2ab2c72a, 0x6e17389c744bb3b);
    case 6 => Row(p, l, x, 15625, 16384, 0x1bac942c0bc1bf, 0x2d193bc746e63cb7, 0x151c74aacb1ca8, 0x226741b0e457a827);
    case 7 => Row(p, l, x, 78125, 131072, 0x6901f8140a517, 0x6af3c4dfd991cda, 0x19e6fb42f767be, 0x1a61c6201a6cb8bb);
    case 8 => Row(p, l, x, 390625, 524288, 0x1b6cb66ad7d6bb, 0x22ea670d8567fa22, 0xe4c7768568c8d, 0x1234504a8b693201);
    case 9 => Row(p, l, x, 1953125, 2097152, 0x15b486a78204e9, 0x228ad8aba10d5faa, 0xb705f86aba3a4, 0x1234504a8b693201);
  }

  lemma Below107(p: int, l: int, x: nat, i: nat)
    requires i < 10 && Approx(p, l, x) && p == -107 && l == -356 && x == 0xbbe226efb628afea890489f70a55368bdf
    ensures RowClear(p + i)
  {
    hide Approx, RowClear;
    match i
    case 0 => Row(p, l, x, 1, 1, 0xd078c2868970b, 0x13200c0d2463e6cf, 0x1ebed383316581, 0x2d211b4958a87df0);
    case 1 => Row(p, l, x, 5, 4, 0x10929a6dc3f389, 0x1e6852df7a8e064b, 0x1ebed383316581, 0x3869621baed29d6c);
    case 2 => Row(p, l, x, 25, 32, 0x1a842a493985a8, 0x1e6852df7a8e064b, 0x117cbe5e94a2ad, 0x140db3e18ffc9f3e);
    case 3 => Row(p, l, x, 125, 128, 0x1570f8d076790a, 0x1ebc17ec9d211db9, 0xe1a9d6367ef99, 0x1437966821462af5);
    case 4 => Row(p, l, x, 625, 512, 0x1808a7b4dc67a5, 0x2b104d316183129b, 0x8592623e6ef1a, 0xef555a5e358b193);
    case 5 => Row(p, l, x, 3125, 4096, 0xfaf8190f5788b, 0x1190dab72eda7ca5, 0x1d0af1ca66f71b, 0x2086305d12332e38);
    case 6 => Row(p, l, x, 15625, 16384, 0x6bd6a7eafc89d, 0x96f4e9fea4db117, 0x1d0af1ca66f71b, 0x28a7bc7456bff9c6);
    case 7 => Row(p, l, x, 78125, 65536, 0x1e127c8a2703a1, 0x349ed0ecb40d9b59, 0x31cd28f67e12d, 0x57247cd208925e6);
    case 8 => Row(p, l, x, 390625, 524288, 0xa294d146ae0bf, 0xb1cd94e40cff8a0, 0x169c97520a6573, 0x18ba8ccf1226d75f);
    case 9 => Row(p, l, x, 1953125, 2097152, 0x182fa74de20b35, 0x21102fc9c2c2d1d7, 0xe065a39772a76, 0x132c2027f1bedb0f);
  }

  lemma Below117(p: int, l: int, x: nat, i: nat)
    requires i < 10 && Approx(p, l, x) && p == -117 && l == -389 && x == 0xa163ff802a3426a8ca07c2dcb0cf26f7a7
    ensures RowClear(p + i)
  {
    hide Approx, RowClear;
    match i
    case 0 => Row(p, l, x, 1, 1, 0x1c31b974d4d61f, 0x238c9201ae8df303, 0x63adad7776ac4, 0x7dae537c3bc9813);
    case 1 => Row(p, l, x, 5, 4, 0x17257d50c3eb3d, 0x247b0c06f796345a, 0x17bcccaa772b2e, 0x2569860c409e75b1);
    case 2 => Row(p, l, x, 25, 16, 0x1fb21d056e6301, 0x3e719e0443ba799b, 0x4dd9f34087bd3, 0x99600046269adc2);
    case 3 => Row(p, l, x, 125, 128, 0x1f320975fc16fe, 0x26694f056bac7f1f, 0x195443230f0325, 0x1f30278830da58c2);
    case 4 => Row(p, l, x, 625, 512, 0x18f4d45e634598, 0x26694f056bac7f1f, 0xcd9d8f3dd6059, 0x13c789e7873aaf63);
    case 5 => Row(p, l, x, 3125, 2048, 0x26bcbe21ac773, 0x4a87147791c73ef, 0x1d9d38dc847e59, 0x38f9b60262255988);
    case 6 => Row(p, l, x, 15625, 16384, 0x156af1065f7c25, 0x19c0fbde30b67aed, 0x177782fbe8bcb2, 0x1c37c15703deb22f);
    case 7 => Row(p, l, x, 78125, 65536, 0x11225a6b7f9684, 0x19c0fbde30b67aed, 0x1bc01996c8a253, 0x29b5f0a45103fd76);
    case 8 => Row(p, l, x, 390625, 262144, 0x14db8a6714ef1, 0x27301c6041a3e19, 0x1ebb7ed32868c3, 0x39bdb7e87c975dcc);
    case 9 => Row(p, l, x, 1953125, 2097152, 0x215f43d8217e8, 0x27301c6041a3e19, 0x1fc678f1e974b7, 0x255013d44febb9ac);
  }

  lemma Below127(p: int, l: int, x: nat, i: nat)
    requires i < 10 && Approx(p, l, x) && p == -127 && l == -422 && x == 0x8aa22c0dbef60ee46bcdf07a423aa96b49
    ensures RowClear(p + i)
  {
    hide Approx, RowClear;
    match i
    case 0 => Row(p, l, x, 1, 1, 0x1ed69325cc4af5, 0x216668d40e791978, 0x416fc68163e3c, 0x46df6a002eaa4fd);
    case 1 => Row(p, l, x, 5, 4, 0x97080f46dda61, 0xcc790d50688eb5b, 0x19cc7294c6d351, 0x22ed61f5151e244c);
    case 2 => Row(p, l, x, 25, 16, 0x11defb6574366e, 0x1e3e41cf9117fd81, 0x19cc7294c6d351, 0x2ba8ba725a65ad5f);
    case 3 => Row(p, l, x, 125, 128, 0x1efc48e1b6db87, 0x20c5e50669e0daee, 0x657928c42171c, 0x6b53c5164a6d7ef);
    case 4 => Row(p, l, x, 625, 512, 0xc64e9f3e2be36, 0x1062f28334f06d77, 0x1f468406584b89, 0x295982904b09c008);
    case 5 => Row(p, l, x, 3125, 2048, 0xd935beb59213b, 0x166f8462571e6aec, 0x166ceff8d8b662, 0x250fb3cb5a754d7b);
    case 6 => Row(p, l, x, 15625, 16384, 0x1b26b7d6b24276, 0x1c0b657aece605a7, 0xf39ad9801f1a9, 0xfb9e9596256d960);
    case 7 => Row(p, l, x, 78125, 65536, 0x1edb2e6d5c92f7, 0x27d6d47df6a728af, 0xf39ad9801f1a9, 0x13a863afbaec8fb8);
    case 8 => Row(p, l, x, 390625, 262144, 0x1298461aafae82, 0x1e02a2a61930e0d3, 0xf39ad9801f1a9, 0x18927c9ba9a7b3a6);
    case 9 => Row(p, l, x, 1953125, 2097152, 0x1dc0702ab2b0d0, 0x1e02a2a61930e0d3, 0x7c9918d554575, 0x7dae537c3bc9813);
  }

  lemma Below137(p: int, l: int, x: nat, i: nat)
    requires i < 10 && Approx(p, l, x) && p == -137 && l == -456 && x == 0xee2ba6c0678b597f746aa07ded582e2cf0
    ensures RowClear(p + i)
  {
    hide Approx, RowClear;
    match i
    case 0 => Row(p, l, x, 1, 1, 0x157c6d26401947, 0x27faaebd739b60fc, 0x13c11f3da4ec35, 0x24c1d2b3438a50eb);
    case 1 => Row(p, l, x, 5, 8, 0x16df11e055d6ef, 0x1a991b3b8049a4a6, 0x1419c86c2a5b9f, 0x17603f3150389495);
    case 2 => Row(p, l, x, 25, 32, 0x1ee9620b99fb95, 0x2cef81a30878581a, 0x1014a05688494c, 0x17603f3150389495);
    case 3 => Row(p, l, x, 125, 128, 0xc5d5a6b0a64a2, 0x1677c0d1843c2c0d, 0x19fa93778b6047, 0x2f34bd92866f5d6e);
    case 4 => Row(p, l, x, 625, 1024, 0xa2441a920084f, 0xb8487e6b1dcf6b1, 0x16c840952d3ea4, 0x19df9ab8c12eb40b);
    case 5 => Row(p, l, x, 3125, 4096, 0x1b659f5861380e, 0x26e49631bfcafc17, 0x695b3a60f7497, 0x95908a7dcc2eaaf);
    case 6 => Row(p, l, x, 15625, 16384, 0x429958a105a4b, 0x762e36278c2045a, 0x1e8064224e2ca7, 0x36200ea9c89099c5);
    case 7 => Row(p, l, x, 78125, 131072, 0x155ba43d76721b, 0x17affc51d82eec6d, 0x1a10f252ab7b0a, 0x1ce8c02d8278cdf9);
    case 8 => Row(p, l, x, 390625, 524288, 0x10250d6020f319, 0x1661cb5aed9c740a, 0x14da5b7555fc08, 0x1ce8c02d8278cdf9);
    case 9 => Row(p, l, x, 1953125, 2097152, 0x1b2d5f3e261867, 0x2f188f234c31d81f, 0x51cbb821bcdcb, 0x8dbed4005d549fa);
  }

  lemma Below147(p: int, l: int, x: nat, i: nat)
    requires i < 10 && Approx(p, l, x) && p == -147 && l == -489 && x == 0xcc963fee10b7d1b3318df905079926a8b9
    ensures RowClear(p + i)
  {
    hide Approx, RowClear;
    match i
    case 0 => Row(p, l, x, 1, 1, 0x199ac93eadacb4, 0x28ecbee98871edaf, 0x14166f8cfd5cb1, 0x201b561bd4431880);
    case 1 => Row(p, l, x, 5, 4, 0x1e1a603259cb86, 0x3c24b7126f0bb62b, 0x4047cb5cc45bd, 0x806d586f510c620);
    case 2 => Row(p, l, x, 25, 32, 0x1fe9aca55031cc, 0x27d977ba0e9967c7, 0xcdb28ac27459, 0x100dab0dea218c4);
    case 3 => Row(p, l, x, 125, 128, 0x1fdf905f829a8c, 0x31c00db0b4a69ccf, 0x2923b55a1745, 0x4036ac37a88631);
    case 4 => Row(p, l, x, 625, 512, 0x1ffd8bfe990279, 0x3e6a90f67f1418d7, 0xa48ed5685d14, 0x141115d164a9ef5);
    case 5 => Row(p, l, x, 3125, 4096, 0x1fb97e0b2e86f9, 0x26af9db314d00d6c, 0x52476ab42e8a0, 0x64556d16f751ac9);
    case 6 => Row(p, l, x, 15625, 16384, 0x16ccfb59790365, 0x22c142b283086e7f, 0x1491daad0ba280, 0x1f5ab2172d4985ed);
    case 7 => Row(p, l, x, 78125, 65536, 0x1bce9a8dda4aa7, 0x34fb883299fc5fe3, 0x7c81dbc552d9f, 0xed3b4e4c13508d2);
    case 8 => Row(p, l, x, 390625, 524288, 0x6742bfaf1027d, 0x7af7e36de0b34aa, 0x1f2076f154b67c, 0x2511443be304960d);
    case 9 =>
      Row(p, l, x, 1953125, 2097152, 0x157c6d26401947, 0x1ffbbefdf615e730, 0x1e1082569e2d94, 0x2cc0c272c10fcab7);
  }

  lemma Below157(p: int, l: int, x: nat, i: nat)
    requires i < 10 && Approx(p, l, x) && p == -157 && l == -522 && x == 0xafbd2350644eeacfe5d1929ef90898fa82
    ensures RowClear(p + i)
  {
    hide Approx, RowClear;
    match i
    case 0 => Row(p, l, x, 1, 1, 0x1f13e4d2a4a6a3, 0x2aab1ecad17e417a, 0x8fd16ea9f6241, 0xc574d8375d56ac9);
    case 1 => Row(p, l, x, 5, 4, 0x11007c76e030d5, 0x1d2dbbf7e51fb08c, 0x12f3df339d582f, 0x2086c799680b6561);
    case 2 => Row(p, l, x, 25, 32, 0x8a3fbb055976b, 0x944a0ac347607ca, 0x195cfd3d6aca3f, 0x1b348a49a9f194e5);
    case 3 => Row(p, l, x, 125, 128, 0x1d278f02e7046b, 0x2716fefe653d5fde, 0xbdf97a23bd595, 0xfeb6d4fe2164c65);
    case 4 => Row(p, l, x, 625, 512, 0x1d93e5783f78d9, 0x319251074e8716f4, 0x11ea7910afdd7b, 0x1e06d1881be86705);
    case 5 => Row(p, l, x, 3125, 4096, 0xbd4c23019638a, 0xc649441d3a1c5bd, 0x1e413c9a669989, 0x1fb104ede10ecd77);
    case 6 => Row(p, l, x, 15625, 16384, 0x10c35312de9d1, 0x15f2df5e675a0f0, 0x1f9beadeb4dae9, 0x296333e0a1446ea1);
    case 7 => Row(p, l, x, 78125, 65536, 0x10c35312de9d1, 0x1b6f9736013092c, 0x1f5d239c3494dd, 0x3355411768193d6d);
    case 8 => Row(p, l, x, 390625, 524288, 0x2186a625bd3a2, 0x224b7d03817cb77, 0x1de9112bfd443f, 0x1e98adb768435915);
    case 9 => Row(p, l, x, 1953125, 2097152, 0x666b24fab6b2d, 0x82f5961e816c923, 0x1e068454953486, 0x2664813a5811bd7f);
  }

  lemma Below167(p: int, l: int, x: nat, i: nat)
    requires i < 10 && Approx(p, l, x) && p == -167 && l == -555 && x == 0x96f5600f15a7b7e529ab103a5ef8c0b935
    ensures RowClear(p + i)
  {
    hide Approx, RowClear;
    match i
    case 0 => Row(p, l, x, 1, 1, 0x1d2134ece85daf, 0x225ac17144460c4a, 0x449534bf219d6, 0x50e252deede0a33);
    case 1 => Row(p, l, x, 5, 4, 0x1a0cf98c6f9f15, 0x26676e07c85fa2b7, 0xe66179412accf, 0x153a0d4f263c9c92);
    case 2 => Row(p, l, x, 25, 16, 0xd4cceef639565, 0x18823a57adbef880, 0x1ccc2f2825599e, 0x35112145df97876d);
    case 3 => Row(p, l, x, 125, 128, 0xd4cceef639565, 0xf516476cc975b50, 0x18cbcd279c6d28, 0x1c8ee6ee31d88eed);
    case 4 => Row(p, l, x, 625, 512, 0xd4cceef639565, 0x1325bd947fbd3224, 0x19282a190b5fe2, 0x2437992998243c95);
    case 5 => Row(p, l, x, 3125, 2048, 0xd4cceef639565, 0x17ef2cf99fac7ead, 0x1c1b043d44d98b, 0x3293e758f7f22230);
    case 6 => Row(p, l, x, 15625, 16384, 0xfa8b0a5f7f6b9, 0x119cb00e80ae3a67, 0x1c1b043d44d98b, 0x1f9c70979af7555e);
    case 7 => Row(p, l, x, 78125, 65536, 0xa47902ef03fb, 0xe73be1599947dc, 0x1fcc120b0f1bd4, 0x2cb43607b6a9aac3);
    case 8 => Row(p, l, x, 390625, 262144, 0x20e5009633ff, 0x39cef8566651f7, 0x1ff96d7977ee35, 0x3830f9547b2515dc);
    case 9 => Row(p, l, x, 1953125, 2097152, 0x1072804b19ff8, 0x1210ad9afff99d3, 0x1f946a5817cbad, 0x22afa8ffe75adb6d);
  }

  lemma Below177(p: int, l: int, x: nat, i: nat)
    requires i < 10 && Approx(p, l, x) && p == -177 && l == -588 && x == 0x81ac1fe293d599bfc6f14cd848405530bb
    ensures RowClear(p + i)
  {
    hide Approx, RowClear;
    match i
    case 0 => Row(p, l, x, 1, 1, 0x884b06c9793d7, 0x8a12e39b987136e, 0x1cd063551a00d9, 0x1d30c34eb7d531d9);
    case 1 => Row(p, l, x, 5, 4, 0x110960d92f27ae, 0x1592f3904fd1b093, 0x177385207835b7, 0x1db2728c6096faed);
    case 2 => Row(p, l, x, 25, 16, 0x1e3978bacc13bd, 0x2fd7c1abbaf841ac, 0x290db4fb6d26a, 0x40fbf7e0862a52d);
    case 3 => Row(p, l, x, 125, 64, 0x60b7e8bc26a59, 0xbf5f06aeebe106b, 0x1c65e8e22288b3, 0x38308eb6f6276b22);
    case 4 => Row(p, l, x, 625, 512, 0x19302e0e26447, 0x1f2627954499eec, 0x1f0ad4b45903bb, 0x266376e00a8c7df3);
    case 5 => Row(p, l, x, 3125, 2048, 0x1fc2b6d42b55ce, 0x3118947b5a216805, 0x1e2fb3f348f187, 0x2ea99963b0c5615e);
    case 6 => Row(p, l, x, 15625, 8192, 0x1bed63ab267eb0, 0x35f68aaaacd97553, 0x5685609e73b65, 0xa72e8cd17835504);
    case 7 => Row(p, l, x, 78125, 65536, 0x1e9884180d7fd5, 0x24f31427f3b0684a, 0x229bc03f617c2, 0x29cba3345e0d541);
    case 8 => Row(p, l, x, 390625, 262144, 0x1849df59491455, 0x24aa68245aa4d93d, 0x8a6f00fd85f08, 0xd0fa3005d642a45);
    case 9 => Row(p, l, x, 1953125, 1048576, 0xd2d1fc3a6faf2, 0x18dd05925c0481c1, 0x17e47001843b89, 0x2d159a4a177caa8d);
  }

  lemma Below187(p: int, l: int, x: nat, i: nat)
    requires i < 10 && Approx(p, l, x) && p == -187 && l == -622 && x == 0xdec681f9f4c31f316405fa00e2ec94d41c
    ensures RowClear(p + i)
  {
    hide Approx, RowClear;
    match i
    case 0 => Row(p, l, x, 1, 1, 0x1f9b2adb795769, 0x370222730b6dd458, 0x1baa5d8423002, 0x302661d18daa609);
    case 1 => Row(p, l, x, 5, 8, 0x6523bc57eab15, 0x6e0444e616dba8b, 0x1a79a64d0ed63a, 0x1ccc872e3f20b343);
    case 2 => Row(p, l, x, 25, 32, 0x1f4b4b133cf050, 0x2a8d0fcb01fc2859, 0x11263c88ef0927, 0x1751767647b3f515);
    case 3 => Row(p, l, x, 125, 128, 0x190908dc30c040, 0x2a8d0fcb01fc2859, 0xae3fa51e2d917, 0x128290211921e844);
    case 4 => Row(p, l, x, 625, 1024, 0x11d9a1d2f9a195, 0x12f635e15dd9d724, 0x15c7f4a3c5b22e, 0x172334295f6a6255);
    case 5 => Row(p, l, x, 3125, 4096, 0x11d9a1d2f9a195, 0x17b3c359b5504ced, 0x18909e0a9b9bfa, 0x209e4f1a0e574de7);
    case 6 => Row(p, l, x, 15625, 16384, 0x87ba65f843f83, 0xe14849cf0e9e6b5, 0x1e65452e4c73d0, 0x3273669ac0654fdb);
    case 7 => Row(p, l, x, 78125, 131072, 0x135eb2154a40f9, 0x14180bd2eba9e698, 0x1d1fced18d7a26, 0x1e367f6add3db459);
    case 8 => Row(p, l, x, 390625, 524288, 0x135eb2154a40f9, 0x191e0ec7a694603e, 0x136ce83cfbee53, 0x19307c7622533ab3);
    case 9 =>
      Row(p, l, x, 1953125, 2097152, 0x1f094841d1bf70, 0x324e8b3dc8e79af1, 0x1b2f3a4d705e2f, 0x2c103e631d21f01c);
  }

  lemma Below197(p: int, l: int, x: nat, i: nat)
    requires i < 10 && Approx(p, l, x) && p == -197 && l == -655 && x == 0xbf5cd54678eef0b6d262d45a78a0635d40
    ensures RowClear(p + i)
  {
    hide Approx, RowClear;
    match i
    case 0 => Row(p, l, x, 1, 1, 0x1e19b27b7ea450, 0x2d002cf3e53b9977, 0x42178635f5879, 0x62cf094c83cd604);
    case 1 => Row(p, l, x, 5, 4, 0x1f2d6e585580a4, 0x3a4381125bbf6ce7, 0xd37e7a4644e5, 0x18b3c25320f3581);
    case 2 => Row(p, l, x, 25, 32, 0x1b8cd531260b35, 0x202d99fa12ad2c5d, 0x69bf3d2322728, 0x7b82cb9fa4c0b85);
    case 3 => Row(p, l, x, 125, 128, 0x979bcee58e689, 0xdd5880a006453bb, 0x1a6fcf48c89ca0, 0x2698dfa1e37c3999);
    case 4 => Row(p, l, x, 625, 512, 0x7fa78a58789d3, 0xe8f762907d08421, 0x1dec7b13dc1051, 0x369c3208fa251e86);
    case 5 => Row(p, l, x, 3125, 4096, 0xcc3f43c0c0fb8, 0xe8f762907d08421, 0x145983e6d30487, 0x173606a6d67acffb);
    case 6 => Row(p, l, x, 15625, 16384, 0x10d5db6a3643d3, 0x1800d55cff635928, 0x10479cb8a8d06c, 0x173606a6d67acffb);
    case 7 => Row(p, l, x, 78125, 65536, 0x10d5db6a3643d3, 0x1e010ab43f3c2f72, 0x10640fa8f84de7, 0x1d363bfe1653a645);
    case 8 => Row(p, l, x, 390625, 524288, 0xa476ec03957dd, 0xb7317b121f0b416, 0x1a39b2a7f3afd8, 0x1d363bfe1653a645);
    case 9 => Row(p, l, x, 1953125, 2097152, 0x1d341ab9bd9fc4, 0x28a953af38445a5b, 0x4529e9ca57805, 0x604cc3a31b54c12);
  }

  lemma Below207(p: int, l: int, x: nat, i: nat)
    requires i < 10 && Approx(p, l, x) && p == -207 && l == -688 && x == 0xa46116538d0deb7852d9be85f074e608ce
    ensures RowClear(p + i)
  {
    hide Approx, RowClear;
    match i
    case 0 => Row(p, l, x, 1, 1, 0x14a80f13aeb27, 0x1a86fe4703138b3, 0x1ffeb7a669d6e0, 0x29169fe90db544f7);
    case 1 => Row(p, l, x, 5, 4, 0x1382e7f5c31cbe, 0x1f522741601a9307, 0x1aaf5a0e2ed4cf, 0x2ad62326f7accecb);
    case 2 => Row(p, l, x, 25, 32, 0xe2ca2bfb9befb, 0xe389423fd1b020b, 0x1c8586f0912f1d, 0x1c9d8f02fa91ccc0);
    case 3 => Row(p, l, x, 125, 128, 0x10f98302a5c1bf, 0x1549c4873b9190e6, 0x16bf84f99b786e, 0x1c875ba57a63e86b);
    case 4 => Row(p, l, x, 625, 512, 0xc7e8297928a1f, 0x13961ef48c16586f, 0x1c8586f0912f1d, 0x2cb62f74a783cfec);
    case 5 => Row(p, l, x, 3125, 2048, 0x44a80af8b6513, 0x868931762356474, 0x1c8586f0912f1d, 0x37e3bb51d164c3e7);
    case 6 => Row(p, l, x, 15625, 16384, 0x1b766ac9e286e, 0x21a24c5d88d591d, 0x1ed7280e4e139d, 0x25c55cd104b487c3);
    case 7 => Row(p, l, x, 78125, 65536, 0x6dd9ab278a1b8, 0xa82b7dd3ac2bd91, 0x19bc34191a9d9f, 0x2765e3378f0b57ce);
    case 8 => Row(p, l, x, 390625, 262144, 0x7e4aeb2cf2d03, 0xf1ad4bc812434bc, 0x1bca5c19c7b435, 0x352e39d5622fbd4f);
    case 9 => Row(p, l, x, 1953125, 2097152, 0xfc95d659e5a06, 0x12e189eba16d41eb, 0x14a759f0dcba5d, 0x18b3c25320f35810);
  }

  lemma Below217(p: int, l: int, x: nat, i: nat)
    requires i < 10 && Approx(p, l, x) && p == -217 && l == -721 && x == 0x8d3360f09cf6e4bd64712dd7abbbd95cc3
    ensures RowClear(p + i)
  {
    hide Approx, RowClear;
    match i
    case 0 => Row(p, l, x, 1, 1, 0x585ab2020e9aa, 0x61775f234cd069d, 0x1dfb1fc8074d0f, 0x2112a9c5b5334ab2);
    case 1 => Row(p, l, x, 5, 4, 0x1d086951dfce5d, 0x2808a631cbe7088e, 0xbfe0cb6695206, 0x108954e2da99a559);
    case 2 => Row(p, l, x, 25, 16, 0xb9cf6ed8cb8f2, 0x14045318e5f38447, 0x1dca94e3990085, 0x33597dc39579df82);
    case 3 => Row(p, l, x, 125, 128, 0x1d62296ce73dbf, 0x1fa7717157522d65, 0x2a042d03305da, 0x2d435e47264b5bd);
    case 4 => Row(p, l, x, 625, 512, 0x1ef584b69f7475, 0x29b0763902f2410c, 0x219cf0cf59e48, 0x2d435e47264b5bd);
    case 5 => Row(p, l, x, 3125, 2048, 0x7df59c87dfc51, 0xd405372b3214600, 0x1825efc4d271c2, 0x28a5b45ba23a18b1);
    case 6 => Row(p, l, x, 15625, 16384, 0x7df59c87dfc51, 0x8483427aff4cbc0, 0x1b9d9b88a054c5, 0x1d0d6b57457cfb71);
    case 7 => Row(p, l, x, 78125, 65536, 0x7df59c87dfc51, 0xa5a41319bf1feb0, 0x1ad0e57f32419b, 0x2343927509749441);
    case 8 => Row(p, l, x, 390625, 262144, 0x1d534494a630cd, 0x303463f30c63129d, 0x1573eacc28347c, 0x2343927509749441);
    case 9 => Row(p, l, x, 1953125, 2097152, 0x1908e26bd15981, 0x19b84c29468f591a, 0x94a2edad560df, 0x98b464bc2e53b27);
  }

  lemma Below227(p: int, l: int, x: nat, i: nat)
    requires i < 10 && Approx(p, l, x) && p == -227 && l == -755 && x == 0xf294b943e17a2bc43e6f5b7b17b2939deb
    ensures RowClear(p + i)
  {
    hide Approx, RowClear;
    match i
    case 0 => Row(p, l, x, 1, 1, 0x11904b42b92492, 0x2149368d086d72a9, 0x1433a4f950417d, 0x26491cdb770f5cab);
    case 1 => Row(p, l, x, 5, 8, 0x1e60f509957b7d, 0x23fba1180e12a811, 0x21c47c545b0bc, 0x27ff3273750f501);
    case 2 => Row(p, l, x, 25, 32, 0x7578f451482bd, 0xadedea36d0161c5, 0x1e77cce4544b27, 0x2d1c5bae5b98ee54);
    case 3 => Row(p, l, x, 125, 128, 0x5dfa5d0dd3564, 0xadedea36d0161c5, 0x1e77cce4544b27, 0x38637299f27f29e9);
    case 4 => Row(p, l, x, 625, 1024, 0x965d61afb88a0, 0xadedea36d0161c5, 0x1d4b1220f4da13, 0x21e24bcbc9ef4df9);
    case 5 => Row(p, l, x, 3125, 4096, 0x38a05adfdc369, 0x51e035955c5e6b8, 0x1e834d0ff29bae, 0x2c1e527e757b1b69);
    case 6 => Row(p, l, x, 15625, 16384, 0x38a05adfdc369, 0x665842fab376066, 0x1d5d78cd255aeb, 0x3512d85acb956f2b);
    case 7 => Row(p, l, x, 78125, 131072, 0x18e862e9b696e6, 0x1c22cd3950988faf, 0x1e488902965b87, 0x22354e9a62df9f07);
    case 8 => Row(p, l, x, 390625, 524288, 0x11c6a64a9ef6de, 0x19198c88c7750803, 0x1726cc637ebb7f, 0x20b0ae421e4ddb31);
    case 9 => Row(p, l, x, 1953125, 2097152, 0x82f7d5605f079, 0xe728eb2b970b8cd, 0x1b1f46ddcb6a34, 0x2fdef1b4cbff818d);
  }

  lemma Below237(p: int, l: int, x: nat, i: nat)
    requires i < 10 && Approx(p, l, x) && p == -237 && l == -788 && x == 0xd0601d8efc57b08bf13b94daf124da2680
    ensures RowClear(p + i)
  {
    hide Approx, RowClear;
    match i
    case 0 => Row(p, l, x, 1, 1, 0x51019199db135, 0x83df607c0fd0a84, 0x1c3861778e81ca, 0x2df0cf2fad8155a5);
    case 1 => Row(p, l, x, 5, 8, 0xa2032333b626a, 0xa4d7389b13c4d25, 0x1796b964c4be79, 0x18002658cee04c23);
    case 2 => Row(p, l, x, 25, 32, 0xed7f0e0fc554f, 0x12e0da0251437377, 0x12defab703cb94, 0x18002658cee04c23);
    case 3 => Row(p, l, x, 125, 128, 0x188e1cf92ed359, 0x2709871a41ee1d19, 0xe4a93679b24cf, 0x16b853432f7915f8);
    case 4 => Row(p, l, x, 625, 512, 0x1f13c04d6e6020, 0x3dc1da5d71673311, 0xe4a93679b24cf, 0x1c666813fb575b76);
    case 5 => Row(p, l, x, 3125, 4096, 0xf4a04007e6103, 0x12fd4399dbc4b833, 0x1a96459d6fd136, 0x21057cfe3cd0f441);
    case 6 => Row(p, l, x, 15625, 16384, 0x1ba7d51d3af578, 0x2aef91693241ec8b, 0x8600eb92fa3a5, 0xd00b02606256b1d);
    case 7 => Row(p, l, x, 78125, 65536, 0x818830559bb5, 0xfb603dc7f46acd, 0x1ffba253bdbb75, 0x3e115004c6ddd72a);
    case 8 => Row(p, l, x, 390625, 524288, 0xed12e7c6f2036, 0x11f8c49ba59a80cb, 0x1433a4f950417d, 0x1880b64f0484b630);
    case 9 => Row(p, l, x, 1953125, 2097152, 0xbda8b96bf4cf8, 0x11f8c49ba59a80cb, 0x1433a4f950417d, 0x1ea0e3e2c5a5e3bc);
  }

  lemma Below247(p: int, l: int, x: nat, i: nat)
    requires i < 10 && Approx(p, l, x) && p == -247 && l == -821 && x == 0xb2fe3f0b8599ef07861fa7e6dcb4aa14f4
    ensures RowClear(p + i)
  {
    hide Approx, RowClear;
    match i
    case 0 => Row(p, l, x, 1, 1, 0x2eb574c89f41f, 0x41511d7c3f6737b, 0x1df4aa25ca97d9, 0x29e3bcdf4ec2a73c);
    case 1 => Row(p, l, x, 5, 4, 0x1d5876057825bd, 0x334ba1a57b512c9d, 0x11ab18d3505541, 0x1ee2486ea780eb36);
    case 2 => Row(p, l, x, 25, 32, 0x14f53c23d90576, 0x16e573b693d8274d, 0xf459a92d9b9bf, 0x10af317733c4688e);
    case 3 => Row(p, l, x, 125, 128, 0x17a7b2a13088bb, 0x204db7b04aa19658, 0x1e8b3525b3737e, 0x29b5fbaa016b0563);
    case 4 => Row(p, l, x, 625, 512, 0x4bb23b9d681bf, 0x8136dec12a86596, 0x1b8e0a120bab0c, 0x2f0953e091ef2b37);
    case 5 => Row(p, l, x, 3125, 4096, 0x3c8e9617867cc, 0x409b6f6095432cb, 0x1f746182e6cd5d, 0x218ef156fc1cb890);
    case 6 => Row(p, l, x, 15625, 16384, 0x307211ac6b970, 0x409b6f6095432cb, 0x1f746182e6cd5d, 0x29f2adacbb23e6b4);
    case 7 => Row(p, l, x, 78125, 65536, 0xc1c846b1ae5c0, 0x143092ce2ea4fdf7, 0x19ab4dc58c6579, 0x2aca631b796a9005);
    case 8 => Row(p, l, x, 390625, 524288, 0x17a4ed43465ab6, 0x18a26821f346186f, 0xcfaadc7820eef, 0xd85d2d087b35643);
    case 9 => Row(p, l, x, 1953125, 2097152, 0xea63e04502a42, 0x13141d793d7cb759, 0x12a23c8cdc08bd, 0x1844804cb481fbfb);
  }

  lemma Below257(p: int, l: int, x: nat, i: nat)
    requires i < 10 && Approx(p, l, x) && p == -257 && l == -854 && x == 0x99c102844f94e0fb2eda7444cbfc426d43
    ensures RowClear(p + i)
  {
    hide Approx, RowClear;
    match i
    case 0 => Row(p, l, x, 1, 1, 0x1c3b5f2d22c62b, 0x21e989d791e3a44d, 0x16c5c37d32d29c, 0x1b5aba4f0aae7947);
    case 1 => Row(p, l, x, 5, 4, 0xe91837b9de167, 0x15dfe0922e59b26b, 0x1237cf975bdbb0, 0x1b5aba4f0aae7947);
    case 2 => Row(p, l, x, 25, 16, 0xd1d546dfd7ed6, 0x189d4d709c8415d9, 0x1de0f4f7b8f7f5, 0x38142b0d4c722445);
    case 3 => Row(p, l, x, 125, 128, 0x72389d60bb3a5, 0x85fcb04b844491f, 0x1a63b73d6b3e99, 0x1ef4c9ff23a548e8);
    case 4 => Row(p, l, x, 625, 512, 0x10b33462c1c58d, 0x187cc8893971e478, 0x158b75d0168213, 0x1f97628413003fcd);
    case 5 => Row(p, l, x, 3125, 2048, 0x10b33462c1c58d, 0x1e9bfaab87ce5d96, 0x149368ba38c2c5, 0x25b694a6615cb8eb);
    case 6 => Row(p, l, x, 15625, 16384, 0x394517b218472, 0x419b1ad752c69bb, 0x1f9c4007f2c8e1, 0x2436207faf2bc01e);
    case 7 => Row(p, l, x, 78125, 65536, 0x1a1ffc94a1816b, 0x2568d491684fd86a, 0xca4e66994505a, 0x121b103fd795e00f);
    case 8 => Row(p, l, x, 390625, 262144, 0x1eae3c17944dee, 0x36ea8ac86353ac53, 0x9f2aec75e79bd, 0x11ce633b694cd9fc);
    case 9 => Row(p, l, x, 1953125, 2097152, 0xe98b47eb1c49b, 0x1054475f0fd9cdec, 0x13e55d8ebcf37a, 0x1641fc0a43a0107b);
  }

  lemma Below267(p: int, l: int, x: nat, i: nat)
    requires i < 10 && Approx(p, l, x) && p == -267 && l == -887 && x == 0x8412d9991ed58091e858790afe9486c257
    ensures RowClear(p + i)
  {
    hide Approx, RowClear;
    match i
    case 0 => Row(p, l, x, 1, 1, 0x1fdd5e1ffc201f, 0x20e0fa5da05a5896, 0x866feb368c6d, 0x8ab736d7e36841);
    case 1 => Row(p, l, x, 5, 4, 0x1935e455433d03, 0x20841c6172a52a1f, 0x91a8c00b47a3d, 0xbbde57be35cbbcc);
    case 2 => Row(p, l, x, 25, 16, 0x1b738d1192f900, 0x2c4201dd5601e5eb, 0x91a8c00b47a3d, 0xead5edadc33eabf);
    case 3 => Row(p, l, x, 125, 128, 0x1d77ef5a8ed30c, 0x1db195a8da810e03, 0x39d096397153d, 0x3a41b0d1ee035fa);
    case 4 => Row(p, l, x, 625, 512, 0x13bca798ebe98b, 0x18dc153882291b71, 0x1af6ba601a1405, 0x21f658d94f59a262);
    case 5 => Row(p, l, x, 3125, 2048, 0x174bac2b61c713, 0x24ad726a49e38ad1, 0xac91759a40802, 0x10fb2c6ca7acd131);
    case 6 => Row(p, l, x, 15625, 8192, 0xda1e7cecf1fa2, 0x1ad44f6b78c82e01, 0x1c63229aaf9fd5, 0x37de16c55f9421fb);
    case 7 => Row(p, l, x, 78125, 65536, 0x1ad0e19eca7f0a, 0x20fc054abb794803, 0xe4e4ccd0cbff9, 0x1198be9c94be86fe);
    case 8 => Row(p, l, x, 390625, 262144, 0x1be19f6617a487, 0x2ade605a8602844c, 0x5b8eb85384cca, 0x8cc5f4e4a5f437f);
    case 9 => Row(p, l, x, 1953125, 1048576, 0x59386479e541b, 0xab79816a180a113, 0x1c77345c7f8743, 0x36b5749e155cf28e);
  }

  lemma Below277(p: int, l: int, x: nat, i: nat)
    requires i < 10 && Approx(p, l, x) && p == -277 && l == -921 && x == 0xe2e69915b3fff9f916c90c8f323f516c71
    ensures RowClear(p + i)
  {
    hide Approx, RowClear;
    match i
    case 0 => Row(p, l, x, 1, 1, 0x1e876637b8e6f5, 0x361e104913ebce0b, 0xa463d32f575ab, 0x1236868da4148ab2);
    case 1 => Row(p, l, x, 5, 8, 0x60c042ae9e295, 0x6b3119d27733f80, 0x1d00ec76021182, 0x20222d27cb4cdbbd);
    case 2 => Row(p, l, x, 25, 32, 0x60c042ae9e295, 0x85fd60471500f60, 0x1e758ef84d844e, 0x2a2ec7938679bafd);
    case 3 => Row(p, l, x, 125, 128, 0x60c042ae9e295, 0xa77cb858da41338, 0x1ac940d7cec47a, 0x2e5eb295bf21c2ad);
    case 4 => Row(p, l, x, 625, 1024, 0x60c042ae9e295, 0x68adf3378868c03, 0x1ec3929d10a866, 0x2148f42ece14aaa7);
    case 5 => Row(p, l, x, 3125, 4096, 0x183010aba78a54, 0x20b65c015aa0bc0f, 0x9c7ec9f8fa9a1, 0xd3a64724dea13ac);
    case 6 => Row(p, l, x, 15625, 16384, 0x193801b5dc3ad7, 0x2aa2275715104ad0, 0x9c7ec9f8fa9a1, 0x1088fd8ee1649897);
    case 7 => Row(p, l, x, 78125, 131072, 0x19bcae7b3df3be, 0x1b318764a6a8ab4b, 0x1a415b409faca5, 0x1bbdb632e02727d4);
    case 8 => Row(p, l, x, 390625, 524288, 0x1f177ce2d7d4da, 0x2910627e16bc3f35, 0x1a415b409faca5, 0x22ad23bf9830f1c9);
    case 9 =>
      Row(p, l, x, 1953125, 2097152, 0x1aced7c329872a, 0x2c4201dd5601e5eb, 0x15f8b620f15ef5, 0x2445f36f37d3c524);
  }

  lemma Below287(p: int, l: int, x: nat, i: nat)
    requires i < 10 && Approx(p, l, x) && p == -287 && l == -954 && x == 0xc2e801fb244576d5229c41f793cda73f5f
    ensures RowClear(p + i)
  {
    hide Approx, RowClear;
    match i
    case 0 => Row(p, l, x, 1, 1, 0xe2f457a4f5727, 0x15995b33813215ba, 0x12959d3b78c734, 0x1c4c71c4c0b9c78f);
    case 1 => Row(p, l, x, 5, 4, 0x1c5e8af49eae4e, 0x35ff6400c2fd3651, 0xa454cc9d9c783, 0x138c8faf40a96936);
    case 2 => Row(p, l, x, 25, 32, 0x12965072f4a20a, 0x161c8e14915440db, 0x1dd5c1cd2de00b, 0x237dfaa5597de3f1);
    case 3 => Row(p, l, x, 125, 128, 0x188ddd9bfdced9, 0x248330430c08ca0e, 0x17de34a424b33c, 0x237dfaa5597de3f1);
    case 4 => Row(p, l, x, 625, 512, 0x1e901847bf2466, 0x38cf339ff722fb4f, 0x4a2e8bc0f1e53, 0x89e3141e9bcbf75);
    case 5 => Row(p, l, x, 3125, 4096, 0x11691338a2dc93, 0x1439ed33bf75864f, 0x122ac85db3efb9, 0x151af67f1ab71688);
    case 6 => Row(p, l, x, 15625, 16384, 0x118fd10cd97a01, 0x1980aad386234bf1, 0x122ac85db3efb9, 0x1a61b41ee164dc2a);
    case 7 => Row(p, l, x, 78125, 65536, 0x1170d2c97a95a9, 0x1fa8933590dbbadf, 0x11eccbd6f62709, 0x20899c80ec1d4b18);
    case 8 => Row(p, l, x, 390625, 524288, 0x1be7b7a8c422a8, 0x1fa8933590dbbadf, 0x11eccbd6f62709, 0x145601d093924eef);
    case 9 => Row(p, l, x, 1953125, 2097152, 0x1ead0ee84ca3fb, 0x2b80a7fa6676f8da, 0xa59118b3f542e, 0xeacb91e14ed98f7);
  }

  lemma Below297(p: int, l: int, x: nat, i: nat)
    requires i < 10 && Approx(p, l, x) && p == -297 && l == -987 && x == 0xa76c582338ed2621af2af2b80af6f24e57
    ensures RowClear(p + i)
  {
    hide Approx, RowClear;
    match i
    case 0 => Row(p, l, x, 1, 1, 0x100c8aaa2defca, 0x14fdf28c116bbea7, 0x12246ffdf51021, 0x17bae559df089674);
    case 1 => Row(p, l, x, 5, 4, 0x1f42b9993f6c3e, 0x331c64f744bef0bb, 0x1077b887bc2975, 0x1aecabe2892de444);
    case 2 => Row(p, l, x, 25, 32, 0x1d87b81e8726eb, 0x1e2d0d54fa96fe5d, 0x69649cfe4dd62, 0x6bb2af8a24b7911);
    case 3 => Row(p, l, x, 125, 128, 0x9dbb782d78c9d, 0xc97a38fb85e5a64, 0x1a59273f937588, 0x21a7d6db2b795d55);
    case 4 => Row(p, l, x, 625, 512, 0x1cf7189b88ce84, 0x2e3f7a6ae3d7b7b9, 0x131b6118b141e7, 0x1e81edf73d61c6bc);
    case 5 => Row(p, l, x, 3125, 2048, 0x1fca50ce4a7e7e, 0x3f72c746a19cd193, 0x3d2469e89d9fb, 0x7a07b7dcf5871af);
    case 6 => Row(p, l, x, 15625, 16384, 0x289632451d8eb, 0x32a0bba329c5325, 0x1e9234f44ecfd8, 0x262269750cba386b);
    case 7 => Row(p, l, x, 78125, 65536, 0x1c83fc30c20158, 0x2c7680e971f2deb5, 0x4979be7dea76b, 0x72911919d394fbf);
    case 8 => Row(p, l, x, 390625, 262144, 0x991c01d27bd92, 0x12a6b7abea5cc77b, 0x1789d7fb78eb31, 0x2de0bf6de89a7296);
    case 9 => Row(p, l, x, 1953125, 2097152, 0xe6e55080418e7, 0x11944da927e0ab07, 0x12d4acc92d88f4, 0x16f05fb6f44d394b);
  }

  lemma Below307(p: int, l: int, x: nat, i: nat)
    requires i < 10 && Approx(p, l, x) && p == -307 && l == -1020 && x == 0x8fd0c16206306baba5d3b6d479f8e05680
    ensures RowClear(p + i)
  {
    hide Approx, RowClear;
    match i
    case 0 => Row(p, l, x, 1, 1, 0xe5c50e19c839f, 0x10228e11accd3ebc, 0x186d1f9c7d21d8, 0x1b71bf8b707ba9bf);
    case 1 => Row(p, l, x, 5, 4, 0xe5c50e19c839f, 0x142b319618008e6b, 0x19490671091c86, 0x2383069446e2491d);
    case 2 => Row(p, l, x, 25, 16, 0x7edde43bab9a1, 0xdeb8e0a97b8b5e2, 0x1dc7496293eb6f, 0x344722860ced089f);
    case 3 => Row(p, l, x, 125, 128, 0x657e502fbc7b4, 0x6f5c7054bdc5af1, 0x1d6d12f6fbe247, 0x204979ce67d19ace);
    case 4 => Row(p, l, x, 625, 512, 0x195f940bef1ed0, 0x22cce31a7b4dc6b5, 0x1292676a905643, 0x1978d000d79b4a0e);
    case 5 => Row(p, l, x, 3125, 2048, 0x18befdb5e0f80f, 0x2a6ccbc0baf2af2c, 0x76dc2f76cef4e, 0xcbc68006bcda507);
    case 6 => Row(p, l, x, 15625, 16384, 0x9e5ff158d3006, 0xa9b32f02ebcabcb, 0x18c40c52ed2535, 0x1a896a88f623c6ac);
    case 7 => Row(p, l, x, 78125, 65536, 0x1eb26c543cfcc3, 0x291d75c716142c97, 0x1bbb3c539510fc, 0x25249d7924e07277);
    case 8 => Row(p, l, x, 390625, 262144, 0x1aee16aa50ba08, 0x2d164e150747e6b7, 0x17f6e6a9a8ce41, 0x281f3fb399c73e0f);
    case 9 => Row(p, l, x, 1953125, 2097152, 0x2f73000a7ebc7, 0x31a68fce4706969, 0x1f39caa77b1424, 0x20acaa2175864113);
  }

  lemma UpClear(k: int, i: nat)
    requires 0 <= k < 32 && i < 10 && 28 + 10 * k + i <= 344
    ensures RowClear(28 + 10 * k + i)
  {
    var p, x := 28 + 10 * k, UpTo(k);
    UpApprox(k);
    hide Approx, RowClear;
    match k
    case 0 => Rows28(p, 93, x, i);
    case 1 => Rows38(p, 126, x, i);
    case 2 => Rows48(p, 159, x, i);
    case 3 => Rows58(p, 192, x, i);
    case 4 => Rows68(p, 225, x, i);
    case 5 => Rows78(p, 259, x, i);
    case 6 => Rows88(p, 292, x, i);
    case 7 => Rows98(p, 325, x, i);
    case 8 => Rows108(p, 358, x, i);
    case 9 => Rows118(p, 391, x, i);
    case 10 => Rows128(p, 425, x, i);
    case 11 => Rows138(p, 458, x, i);
    case 12 => Rows148(p, 491, x, i);
    case 13 => Rows158(p, 524, x, i);
    case 14 => Rows168(p, 558, x, i);
    case 15 => Rows178(p, 591, x, i);
    case 16 => Rows188(p, 624, x, i);
    case 17 => Rows198(p, 657, x, i);
    case 18 => Rows208(p, 690, x, i);
    case 19 => Rows218(p, 724, x, i);
    case 20 => Rows228(p, 757, x, i);
    case 21 => Rows238(p, 790, x, i);
    case 22 => Rows248(p, 823, x, i);
    case 23 => Rows258(p, 857, x, i);
    case 24 => Rows268(p, 890, x, i);
    case 25 => Rows278(p, 923, x, i);
    case 26 => Rows288(p, 956, x, i);
    case 27 => Rows298(p, 989, x, i);
    case 28 => Rows308(p, 1023, x, i);
    case 29 => Rows318(p, 1056, x, i);
    case 30 => Rows328(p, 1089, x, i);
    case 31 => Rows338(p, 1122, x, i);
  }

  lemma DownClear(k: int, i: nat)
    requires 3 <= k < 31 && i < 10
    ensures RowClear(-7 - 10 * k + i)
  {
    var p, x := -7 - 10 * k, DownTo(k);
    DownApprox(k);
    hide Approx, RowClear;
    match k
    case 3 => Below37(p, -123, x, i);
    case 4 => Below47(p, -157, x, i);
    case 5 => Below57(p, -190, x, i);
    case 6 => Below67(p, -223, x, i);
    case 7 => Below77(p, -256, x, i);
    case 8 => Below87(p, -290, x, i);
    case 9 => Below97(p, -323, x, i);
    case 10 => Below107(p, -356, x, i);
    case 11 => Below117(p, -389, x, i);
    case 12 => Below127(p, -422, x, i);
    case 13 => Below137(p, -456, x, i);
    case 14 => Below147(p, -489, x, i);
    case 15 => Below157(p, -522, x, i);
    case 16 => Below167(p, -555, x, i);
    case 17 => Below177(p, -588, x, i);
    case 18 => Below187(p, -622, x, i);
    case 19 => Below197(p, -655, x, i);
    case 20 => Below207(p, -688, x, i);
    case 21 => Below217(p, -721, x, i);
    case 22 => Below227(p, -755, x, i);
    case 23 => Below237(p, -788, x, i);
    case 24 => Below247(p, -821, x, i);
    case 25 => Below257(p, -854, x, i);
    case 26 => Below267(p, -887, x, i);
    case 27 => Below277(p, -921, x, i);
    case 28 => Below287(p, -954, x, i);
    case 29 => Below297(p, -987, x, i);
    case 30 => Below307(p, -1020, x, i);
  }

  /** Every row that the printing uses, except the rows around 10^0. */
  lemma TableClear(p: int)
    requires 28 <= p <= 344 || -307 <= p <= -28
    ensures RowClear(p)
  {
    hide RowClear;
    if p > 0 {
      UpClear((p - 28) / 10, (p - 28) % 10);
    } else {
      var k := (2 - p) / 10;
      DownClear(k, p + 7 + 10 * k);
    }
  }
}
