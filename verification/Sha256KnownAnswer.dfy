/** The standard's example: the digest of the three bytes `abc`, computed from the definition step by step. */
module Sha256KnownAnswer {
  import opened Sha256
  import opened Sha256Constants
  import Hexadecimal
  import opened Remainders

  const ABC: seq<Byte> := [0x61, 0x62, 0x63]

  // ----- The padded block

  /** The sixteen words of the block. */
  predicate IsAbcBlock(block: seq<Byte>) {
    && |block| == 64
    && BlockWord(block, 0) == 0x61626380 && BlockWord(block, 15) == 0x00000018
    && forall t :: 0 < t < 15 ==> BlockWord(block, t) == 0
  }

  lemma PaddedBytes(i: nat)
    requires i < 64
    ensures |Padded(ABC)| == 64
    ensures Padded(ABC)[i] == if i < 3 then ABC[i] else if i == 3 then 0x80 else if i == 63 then 0x18 else 0
  {
    hide BigEndian;
    var length := BigEndian(24, 8);
    assert ZeroCount(3) == 52;
    if i >= 56 {
      BigEndianAt(24, 8, i - 56);
      assert Padded(ABC)[i] == length[i - 56];
      LengthByte(63 - i);
    }
  }

  lemma LengthByte(k: nat)
    ensures 24 / Power256(k) % 256 == if k == 0 then 24 else 0
  {
    if k > 0 {
      assert Power256(k) == 256 * Power256(k - 1);
      RemainderUnique(24, Power256(k), 0, 24);
    }
  }

  lemma JoinedBytes()
    ensures JoinBytes(0x61, 0x62, 0x63, 0x80) == 0x61626380
    ensures JoinBytes(0, 0, 0, 0x18) == 0x00000018 && JoinBytes(0, 0, 0, 0) == 0
  {
  }

  lemma PaddedIsAbcBlock()
    ensures IsAbcBlock(Padded(ABC))
  {
    hide Padded, JoinBytes;
    JoinedBytes();
    forall i: nat | i < 64
      ensures |Padded(ABC)| == 64
      ensures Padded(ABC)[i] == if i < 3 then ABC[i] else if i == 3 then 0x80 else if i == 63 then 0x18 else 0
    {
      PaddedBytes(i);
    }
    PaddedBytes(0);
  }

  // ----- The message schedule

  lemma FirstWords(block: seq<Byte>, t: nat)
    requires IsAbcBlock(block) && t < 16
    ensures Schedule(block, t) == if t == 0 then 0x61626380 else if t == 15 then 0x00000018 else 0
  {
    hide BlockWord;
  }

  lemma Schedule0(block: seq<Byte>)
    requires |block| == 64 && IsAbcBlock(block)
    ensures Schedule(block, 0) == 0x61626380 && Schedule(block, 1) == 0x00000000
    ensures Schedule(block, 2) == 0x00000000 && Schedule(block, 3) == 0x00000000
    ensures Schedule(block, 4) == 0x00000000 && Schedule(block, 5) == 0x00000000
    ensures Schedule(block, 6) == 0x00000000 && Schedule(block, 7) == 0x00000000
  {
    hide Schedule, IsAbcBlock;
    FirstWords(block, 0);
    FirstWords(block, 1);
    FirstWords(block, 2);
    FirstWords(block, 3);
    FirstWords(block, 4);
    FirstWords(block, 5);
    FirstWords(block, 6);
    FirstWords(block, 7);
  }

  lemma Schedule8(block: seq<Byte>)
    requires |block| == 64 && IsAbcBlock(block)
    ensures Schedule(block, 8) == 0x00000000 && Schedule(block, 9) == 0x00000000
    ensures Schedule(block, 10) == 0x00000000 && Schedule(block, 11) == 0x00000000
    ensures Schedule(block, 12) == 0x00000000 && Schedule(block, 13) == 0x00000000
    ensures Schedule(block, 14) == 0x00000000 && Schedule(block, 15) == 0x00000018
  {
    hide Schedule, IsAbcBlock;
    FirstWords(block, 8);
    FirstWords(block, 9);
    FirstWords(block, 10);
    FirstWords(block, 11);
    FirstWords(block, 12);
    FirstWords(block, 13);
    FirstWords(block, 14);
    FirstWords(block, 15);
  }

  lemma Words16()
    ensures NextWord(0x00000000, 0x00000000, 0x00000000, 0x61626380) == 0x61626380
    ensures NextWord(0x00000018, 0x00000000, 0x00000000, 0x00000000) == 0x000f0000
    ensures NextWord(0x61626380, 0x00000000, 0x00000000, 0x00000000) == 0x7da86405
    ensures NextWord(0x000f0000, 0x00000000, 0x00000000, 0x00000000) == 0x600003c6
    ensures NextWord(0x7da86405, 0x00000000, 0x00000000, 0x00000000) == 0x3e9d7b78
    ensures NextWord(0x600003c6, 0x00000000, 0x00000000, 0x00000000) == 0x0183fc00
    ensures NextWord(0x3e9d7b78, 0x00000018, 0x00000000, 0x00000000) == 0x12dcbfdb
    ensures NextWord(0x0183fc00, 0x61626380, 0x00000000, 0x00000000) == 0xe2e2c38e
  {
  }

  lemma Schedule16(block: seq<Byte>)
    requires |block| == 64 && IsAbcBlock(block)
    ensures Schedule(block, 16) == 0x61626380 && Schedule(block, 17) == 0x000f0000
    ensures Schedule(block, 18) == 0x7da86405 && Schedule(block, 19) == 0x600003c6
    ensures Schedule(block, 20) == 0x3e9d7b78 && Schedule(block, 21) == 0x0183fc00
    ensures Schedule(block, 22) == 0x12dcbfdb && Schedule(block, 23) == 0xe2e2c38e
  {
    hide Schedule, NextWord, IsAbcBlock;
    Schedule0(block);
    Schedule8(block);
    Words16();
    ScheduleStep(block, 16);
    ScheduleStep(block, 17);
    ScheduleStep(block, 18);
    ScheduleStep(block, 19);
    ScheduleStep(block, 20);
    ScheduleStep(block, 21);
    ScheduleStep(block, 22);
    ScheduleStep(block, 23);
  }

  lemma Words24()
    ensures NextWord(0x12dcbfdb, 0x000f0000, 0x00000000, 0x00000000) == 0xc8215c1a
    ensures NextWord(0xe2e2c38e, 0x7da86405, 0x00000000, 0x00000000) == 0xb73679a2
    ensures NextWord(0xc8215c1a, 0x600003c6, 0x00000000, 0x00000000) == 0xe5bc3909
    ensures NextWord(0xb73679a2, 0x3e9d7b78, 0x00000000, 0x00000000) == 0x32663c5b
    ensures NextWord(0xe5bc3909, 0x0183fc00, 0x00000000, 0x00000000) == 0x9d209d67
    ensures NextWord(0x32663c5b, 0x12dcbfdb, 0x00000000, 0x00000000) == 0xec8726cb
    ensures NextWord(0x9d209d67, 0xe2e2c38e, 0x00000018, 0x00000000) == 0x702138a4
    ensures NextWord(0xec8726cb, 0xc8215c1a, 0x61626380, 0x00000018) == 0xd3b7973b
  {
  }

  lemma Schedule24(block: seq<Byte>)
    requires |block| == 64 && IsAbcBlock(block)
    ensures Schedule(block, 24) == 0xc8215c1a && Schedule(block, 25) == 0xb73679a2
    ensures Schedule(block, 26) == 0xe5bc3909 && Schedule(block, 27) == 0x32663c5b
    ensures Schedule(block, 28) == 0x9d209d67 && Schedule(block, 29) == 0xec8726cb
    ensures Schedule(block, 30) == 0x702138a4 && Schedule(block, 31) == 0xd3b7973b
  {
    hide Schedule, NextWord, IsAbcBlock;
    Schedule8(block);
    Schedule16(block);
    Words24();
    ScheduleStep(block, 24);
    ScheduleStep(block, 25);
    ScheduleStep(block, 26);
    ScheduleStep(block, 27);
    ScheduleStep(block, 28);
    ScheduleStep(block, 29);
    ScheduleStep(block, 30);
    ScheduleStep(block, 31);
  }

  lemma Words32()
    ensures NextWord(0x702138a4, 0xb73679a2, 0x000f0000, 0x61626380) == 0x93f5997f
    ensures NextWord(0xd3b7973b, 0xe5bc3909, 0x7da86405, 0x000f0000) == 0x3b68ba73
    ensures NextWord(0x93f5997f, 0x32663c5b, 0x600003c6, 0x7da86405) == 0xaff4ffc1
    ensures NextWord(0x3b68ba73, 0x9d209d67, 0x3e9d7b78, 0x600003c6) == 0xf10a5c62
    ensures NextWord(0xaff4ffc1, 0xec8726cb, 0x0183fc00, 0x3e9d7b78) == 0x0a8b3996
    ensures NextWord(0xf10a5c62, 0x702138a4, 0x12dcbfdb, 0x0183fc00) == 0x72af830a
    ensures NextWord(0x0a8b3996, 0xd3b7973b, 0xe2e2c38e, 0x12dcbfdb) == 0x9409e33e
    ensures NextWord(0x72af830a, 0x93f5997f, 0xc8215c1a, 0xe2e2c38e) == 0x24641522
  {
  }

  lemma Schedule32(block: seq<Byte>)
    requires |block| == 64 && IsAbcBlock(block)
    ensures Schedule(block, 32) == 0x93f5997f && Schedule(block, 33) == 0x3b68ba73
    ensures Schedule(block, 34) == 0xaff4ffc1 && Schedule(block, 35) == 0xf10a5c62
    ensures Schedule(block, 36) == 0x0a8b3996 && Schedule(block, 37) == 0x72af830a
    ensures Schedule(block, 38) == 0x9409e33e && Schedule(block, 39) == 0x24641522
  {
    hide Schedule, NextWord, IsAbcBlock;
    Schedule16(block);
    Schedule24(block);
    Words32();
    ScheduleStep(block, 32);
    ScheduleStep(block, 33);
    ScheduleStep(block, 34);
    ScheduleStep(block, 35);
    ScheduleStep(block, 36);
    ScheduleStep(block, 37);
    ScheduleStep(block, 38);
    ScheduleStep(block, 39);
  }

  lemma Words40()
    ensures NextWord(0x9409e33e, 0x3b68ba73, 0xb73679a2, 0xc8215c1a) == 0x9f47bf94
    ensures NextWord(0x24641522, 0xaff4ffc1, 0xe5bc3909, 0xb73679a2) == 0xf0a64f5a
    ensures NextWord(0x9f47bf94, 0xf10a5c62, 0x32663c5b, 0xe5bc3909) == 0x3e246a79
    ensures NextWord(0xf0a64f5a, 0x0a8b3996, 0x9d209d67, 0x32663c5b) == 0x27333ba3
    ensures NextWord(0x3e246a79, 0x72af830a, 0xec8726cb, 0x9d209d67) == 0x0c4763f2
    ensures NextWord(0x27333ba3, 0x9409e33e, 0x702138a4, 0xec8726cb) == 0x840abf27
    ensures NextWord(0x0c4763f2, 0x24641522, 0xd3b7973b, 0x702138a4) == 0x7a290d5d
    ensures NextWord(0x840abf27, 0x9f47bf94, 0x93f5997f, 0xd3b7973b) == 0x065c43da
  {
  }

  lemma Schedule40(block: seq<Byte>)
    requires |block| == 64 && IsAbcBlock(block)
    ensures Schedule(block, 40) == 0x9f47bf94 && Schedule(block, 41) == 0xf0a64f5a
    ensures Schedule(block, 42) == 0x3e246a79 && Schedule(block, 43) == 0x27333ba3
    ensures Schedule(block, 44) == 0x0c4763f2 && Schedule(block, 45) == 0x840abf27
    ensures Schedule(block, 46) == 0x7a290d5d && Schedule(block, 47) == 0x065c43da
  {
    hide Schedule, NextWord, IsAbcBlock;
    Schedule24(block);
    Schedule32(block);
    Words40();
    ScheduleStep(block, 40);
    ScheduleStep(block, 41);
    ScheduleStep(block, 42);
    ScheduleStep(block, 43);
    ScheduleStep(block, 44);
    ScheduleStep(block, 45);
    ScheduleStep(block, 46);
    ScheduleStep(block, 47);
  }

  lemma Words48()
    ensures NextWord(0x7a290d5d, 0xf0a64f5a, 0x3b68ba73, 0x93f5997f) == 0xfb3e89cb
    ensures NextWord(0x065c43da, 0x3e246a79, 0xaff4ffc1, 0x3b68ba73) == 0xcc7617db
    ensures NextWord(0xfb3e89cb, 0x27333ba3, 0xf10a5c62, 0xaff4ffc1) == 0xb9e66c34
    ensures NextWord(0xcc7617db, 0x0c4763f2, 0x0a8b3996, 0xf10a5c62) == 0xa9993667
    ensures NextWord(0xb9e66c34, 0x840abf27, 0x72af830a, 0x0a8b3996) == 0x84badedd
    ensures NextWord(0xa9993667, 0x7a290d5d, 0x9409e33e, 0x72af830a) == 0xc21462bc
    ensures NextWord(0x84badedd, 0x065c43da, 0x24641522, 0x9409e33e) == 0x1487472c
    ensures NextWord(0xc21462bc, 0xfb3e89cb, 0x9f47bf94, 0x24641522) == 0xb20f7a99
  {
  }

  lemma Schedule48(block: seq<Byte>)
    requires |block| == 64 && IsAbcBlock(block)
    ensures Schedule(block, 48) == 0xfb3e89cb && Schedule(block, 49) == 0xcc7617db
    ensures Schedule(block, 50) == 0xb9e66c34 && Schedule(block, 51) == 0xa9993667
    ensures Schedule(block, 52) == 0x84badedd && Schedule(block, 53) == 0xc21462bc
    ensures Schedule(block, 54) == 0x1487472c && Schedule(block, 55) == 0xb20f7a99
  {
    hide Schedule, NextWord, IsAbcBlock;
    Schedule32(block);
    Schedule40(block);
    Words48();
    ScheduleStep(block, 48);
    ScheduleStep(block, 49);
    ScheduleStep(block, 50);
    ScheduleStep(block, 51);
    ScheduleStep(block, 52);
    ScheduleStep(block, 53);
    ScheduleStep(block, 54);
    ScheduleStep(block, 55);
  }

  lemma Words56()
    ensures NextWord(0x1487472c, 0xcc7617db, 0xf0a64f5a, 0x9f47bf94) == 0xef57b9cd
    ensures NextWord(0xb20f7a99, 0xb9e66c34, 0x3e246a79, 0xf0a64f5a) == 0xebe6b238
    ensures NextWord(0xef57b9cd, 0xa9993667, 0x27333ba3, 0x3e246a79) == 0x9fe3095e
    ensures NextWord(0xebe6b238, 0x84badedd, 0x0c4763f2, 0x27333ba3) == 0x78bc8d4b
    ensures NextWord(0x9fe3095e, 0xc21462bc, 0x840abf27, 0x0c4763f2) == 0xa43fcf15
    ensures NextWord(0x78bc8d4b, 0x1487472c, 0x7a290d5d, 0x840abf27) == 0x668b2ff8
    ensures NextWord(0xa43fcf15, 0xb20f7a99, 0x065c43da, 0x7a290d5d) == 0xeeaba2cc
    ensures NextWord(0x668b2ff8, 0xef57b9cd, 0xfb3e89cb, 0x065c43da) == 0x12b1edeb
  {
  }

  lemma Schedule56(block: seq<Byte>)
    requires |block| == 64 && IsAbcBlock(block)
    ensures Schedule(block, 56) == 0xef57b9cd && Schedule(block, 57) == 0xebe6b238
    ensures Schedule(block, 58) == 0x9fe3095e && Schedule(block, 59) == 0x78bc8d4b
    ensures Schedule(block, 60) == 0xa43fcf15 && Schedule(block, 61) == 0x668b2ff8
    ensures Schedule(block, 62) == 0xeeaba2cc && Schedule(block, 63) == 0x12b1edeb
  {
    hide Schedule, NextWord, IsAbcBlock;
    Schedule40(block);
    Schedule48(block);
    Words56();
    ScheduleStep(block, 56);
    ScheduleStep(block, 57);
    ScheduleStep(block, 58);
    ScheduleStep(block, 59);
    ScheduleStep(block, 60);
    ScheduleStep(block, 61);
    ScheduleStep(block, 62);
    ScheduleStep(block, 63);
  }

  // ----- The rounds

  const STATE0: Words8 :=
    Words8(0x6a09e667, 0xbb67ae85, 0x3c6ef372, 0xa54ff53a, 0x510e527f, 0x9b05688c, 0x1f83d9ab, 0x5be0cd19)
  const STATE1: Words8 :=
    Words8(0x5d6aebcd, 0x6a09e667, 0xbb67ae85, 0x3c6ef372, 0xfa2a4622, 0x510e527f, 0x9b05688c, 0x1f83d9ab)
  const STATE2: Words8 :=
    Words8(0x5a6ad9ad, 0x5d6aebcd, 0x6a09e667, 0xbb67ae85, 0x78ce7989, 0xfa2a4622, 0x510e527f, 0x9b05688c)
  const STATE3: Words8 :=
    Words8(0xc8c347a7, 0x5a6ad9ad, 0x5d6aebcd, 0x6a09e667, 0xf92939eb, 0x78ce7989, 0xfa2a4622, 0x510e527f)
  const STATE4: Words8 :=
    Words8(0xd550f666, 0xc8c347a7, 0x5a6ad9ad, 0x5d6aebcd, 0x24e00850, 0xf92939eb, 0x78ce7989, 0xfa2a4622)
  const STATE5: Words8 :=
    Words8(0x04409a6a, 0xd550f666, 0xc8c347a7, 0x5a6ad9ad, 0x43ada245, 0x24e00850, 0xf92939eb, 0x78ce7989)
  const STATE6: Words8 :=
    Words8(0x2b4209f5, 0x04409a6a, 0xd550f666, 0xc8c347a7, 0x714260ad, 0x43ada245, 0x24e00850, 0xf92939eb)
  const STATE7: Words8 :=
    Words8(0xe5030380, 0x2b4209f5, 0x04409a6a, 0xd550f666, 0x9b27a401, 0x714260ad, 0x43ada245, 0x24e00850)
  const STATE8: Words8 :=
    Words8(0x85a07b5f, 0xe5030380, 0x2b4209f5, 0x04409a6a, 0x0c657a79, 0x9b27a401, 0x714260ad, 0x43ada245)
  const STATE9: Words8 :=
    Words8(0x8e04ecb9, 0x85a07b5f, 0xe5030380, 0x2b4209f5, 0x32ca2d8c, 0x0c657a79, 0x9b27a401, 0x714260ad)
  const STATE10: Words8 :=
    Words8(0x8c87346b, 0x8e04ecb9, 0x85a07b5f, 0xe5030380, 0x1cc92596, 0x32ca2d8c, 0x0c657a79, 0x9b27a401)
  const STATE11: Words8 :=
    Words8(0x4798a3f4, 0x8c87346b, 0x8e04ecb9, 0x85a07b5f, 0x436b23e8, 0x1cc92596, 0x32ca2d8c, 0x0c657a79)
  const STATE12: Words8 :=
    Words8(0xf71fc5a9, 0x4798a3f4, 0x8c87346b, 0x8e04ecb9, 0x816fd6e9, 0x436b23e8, 0x1cc92596, 0x32ca2d8c)
  const STATE13: Words8 :=
    Words8(0x87912990, 0xf71fc5a9, 0x4798a3f4, 0x8c87346b, 0x1e578218, 0x816fd6e9, 0x436b23e8, 0x1cc92596)
  const STATE14: Words8 :=
    Words8(0xd932eb16, 0x87912990, 0xf71fc5a9, 0x4798a3f4, 0x745a48de, 0x1e578218, 0x816fd6e9, 0x436b23e8)
  const STATE15: Words8 :=
    Words8(0xc0645fde, 0xd932eb16, 0x87912990, 0xf71fc5a9, 0x0b92f20c, 0x745a48de, 0x1e578218, 0x816fd6e9)
  const STATE16: Words8 :=
    Words8(0xb0fa238e, 0xc0645fde, 0xd932eb16, 0x87912990, 0x07590dcd, 0x0b92f20c, 0x745a48de, 0x1e578218)
  const STATE17: Words8 :=
    Words8(0x21da9a9b, 0xb0fa238e, 0xc0645fde, 0xd932eb16, 0x8034229c, 0x07590dcd, 0x0b92f20c, 0x745a48de)
  const STATE18: Words8 :=
    Words8(0xc2fbd9d1, 0x21da9a9b, 0xb0fa238e, 0xc0645fde, 0x846ee454, 0x8034229c, 0x07590dcd, 0x0b92f20c)
  const STATE19: Words8 :=
    Words8(0xfe777bbf, 0xc2fbd9d1, 0x21da9a9b, 0xb0fa238e, 0xcc899961, 0x846ee454, 0x8034229c, 0x07590dcd)
  const STATE20: Words8 :=
    Words8(0xe1f20c33, 0xfe777bbf, 0xc2fbd9d1, 0x21da9a9b, 0xb0638179, 0xcc899961, 0x846ee454, 0x8034229c)
  const STATE21: Words8 :=
    Words8(0x9dc68b63, 0xe1f20c33, 0xfe777bbf, 0xc2fbd9d1, 0x8ada8930, 0xb0638179, 0xcc899961, 0x846ee454)
  const STATE22: Words8 :=
    Words8(0xc2606d6d, 0x9dc68b63, 0xe1f20c33, 0xfe777bbf, 0xe1257970, 0x8ada8930, 0xb0638179, 0xcc899961)
  const STATE23: Words8 :=
    Words8(0xa7a3623f, 0xc2606d6d, 0x9dc68b63, 0xe1f20c33, 0x49f5114a, 0xe1257970, 0x8ada8930, 0xb0638179)
  const STATE24: Words8 :=
    Words8(0xc5d53d8d, 0xa7a3623f, 0xc2606d6d, 0x9dc68b63, 0xaa47c347, 0x49f5114a, 0xe1257970, 0x8ada8930)
  const STATE25: Words8 :=
    Words8(0x1c2c2838, 0xc5d53d8d, 0xa7a3623f, 0xc2606d6d, 0x2823ef91, 0xaa47c347, 0x49f5114a, 0xe1257970)
  const STATE26: Words8 :=
    Words8(0xcde8037d, 0x1c2c2838, 0xc5d53d8d, 0xa7a3623f, 0x14383d8e, 0x2823ef91, 0xaa47c347, 0x49f5114a)
  const STATE27: Words8 :=
    Words8(0xb62ec4bc, 0xcde8037d, 0x1c2c2838, 0xc5d53d8d, 0xc74c6516, 0x14383d8e, 0x2823ef91, 0xaa47c347)
  const STATE28: Words8 :=
    Words8(0x77d37528, 0xb62ec4bc, 0xcde8037d, 0x1c2c2838, 0xedffbff8, 0xc74c6516, 0x14383d8e, 0x2823ef91)
  const STATE29: Words8 :=
    Words8(0x363482c9, 0x77d37528, 0xb62ec4bc, 0xcde8037d, 0x6112a3b7, 0xedffbff8, 0xc74c6516, 0x14383d8e)
  const STATE30: Words8 :=
    Words8(0xa0060b30, 0x363482c9, 0x77d37528, 0xb62ec4bc, 0xade79437, 0x6112a3b7, 0xedffbff8, 0xc74c6516)
  const STATE31: Words8 :=
    Words8(0xea992a22, 0xa0060b30, 0x363482c9, 0x77d37528, 0x0109ab3a, 0xade79437, 0x6112a3b7, 0xedffbff8)
  const STATE32: Words8 :=
    Words8(0x73b33bf5, 0xea992a22, 0xa0060b30, 0x363482c9, 0xba591112, 0x0109ab3a, 0xade79437, 0x6112a3b7)
  const STATE33: Words8 :=
    Words8(0x98e12507, 0x73b33bf5, 0xea992a22, 0xa0060b30, 0x9cd9f5f6, 0xba591112, 0x0109ab3a, 0xade79437)
  const STATE34: Words8 :=
    Words8(0xfe604df5, 0x98e12507, 0x73b33bf5, 0xea992a22, 0x59249dd3, 0x9cd9f5f6, 0xba591112, 0x0109ab3a)
  const STATE35: Words8 :=
    Words8(0xa9a7738c, 0xfe604df5, 0x98e12507, 0x73b33bf5, 0x085f3833, 0x59249dd3, 0x9cd9f5f6, 0xba591112)
  const STATE36: Words8 :=
    Words8(0x65a0cfe4, 0xa9a7738c, 0xfe604df5, 0x98e12507, 0xf4b002d6, 0x085f3833, 0x59249dd3, 0x9cd9f5f6)
  const STATE37: Words8 :=
    Words8(0x41a65cb1, 0x65a0cfe4, 0xa9a7738c, 0xfe604df5, 0x0772a26b, 0xf4b002d6, 0x085f3833, 0x59249dd3)
  const STATE38: Words8 :=
    Words8(0x34df1604, 0x41a65cb1, 0x65a0cfe4, 0xa9a7738c, 0xa507a53d, 0x0772a26b, 0xf4b002d6, 0x085f3833)
  const STATE39: Words8 :=
    Words8(0x6dc57a8a, 0x34df1604, 0x41a65cb1, 0x65a0cfe4, 0xf0781bc8, 0xa507a53d, 0x0772a26b, 0xf4b002d6)
  const STATE40: Words8 :=
    Words8(0x79ea687a, 0x6dc57a8a, 0x34df1604, 0x41a65cb1, 0x1efbc0a0, 0xf0781bc8, 0xa507a53d, 0x0772a26b)
  const STATE41: Words8 :=
    Words8(0xd6670766, 0x79ea687a, 0x6dc57a8a, 0x34df1604, 0x26352d63, 0x1efbc0a0, 0xf0781bc8, 0xa507a53d)
  const STATE42: Words8 :=
    Words8(0xdf46652f, 0xd6670766, 0x79ea687a, 0x6dc57a8a, 0x838b2711, 0x26352d63, 0x1efbc0a0, 0xf0781bc8)
  const STATE43: Words8 :=
    Words8(0x17aa0dfe, 0xdf46652f, 0xd6670766, 0x79ea687a, 0xdecd4715, 0x838b2711, 0x26352d63, 0x1efbc0a0)
  const STATE44: Words8 :=
    Words8(0x9d4baf93, 0x17aa0dfe, 0xdf46652f, 0xd6670766, 0xfda24c2e, 0xdecd4715, 0x838b2711, 0x26352d63)
  const STATE45: Words8 :=
    Words8(0x26628815, 0x9d4baf93, 0x17aa0dfe, 0xdf46652f, 0xa80f11f0, 0xfda24c2e, 0xdecd4715, 0x838b2711)
  const STATE46: Words8 :=
    Words8(0x72ab4b91, 0x26628815, 0x9d4baf93, 0x17aa0dfe, 0xb7755da1, 0xa80f11f0, 0xfda24c2e, 0xdecd4715)
  const STATE47: Words8 :=
    Words8(0xa14c14b0, 0x72ab4b91, 0x26628815, 0x9d4baf93, 0xd57b94a9, 0xb7755da1, 0xa80f11f0, 0xfda24c2e)
  const STATE48: Words8 :=
    Words8(0x4172328d, 0xa14c14b0, 0x72ab4b91, 0x26628815, 0xfecf0bc6, 0xd57b94a9, 0xb7755da1, 0xa80f11f0)
  const STATE49: Words8 :=
    Words8(0x05757ceb, 0x4172328d, 0xa14c14b0, 0x72ab4b91, 0xbd714038, 0xfecf0bc6, 0xd57b94a9, 0xb7755da1)
  const STATE50: Words8 :=
    Words8(0xf11bfaa8, 0x05757ceb, 0x4172328d, 0xa14c14b0, 0x6e5c390c, 0xbd714038, 0xfecf0bc6, 0xd57b94a9)
  const STATE51: Words8 :=
    Words8(0x7a0508a1, 0xf11bfaa8, 0x05757ceb, 0x4172328d, 0x52f1ccf7, 0x6e5c390c, 0xbd714038, 0xfecf0bc6)
  const STATE52: Words8 :=
    Words8(0x886e7a22, 0x7a0508a1, 0xf11bfaa8, 0x05757ceb, 0x49231c1e, 0x52f1ccf7, 0x6e5c390c, 0xbd714038)
  const STATE53: Words8 :=
    Words8(0x101fd28f, 0x886e7a22, 0x7a0508a1, 0xf11bfaa8, 0x529e7d00, 0x49231c1e, 0x52f1ccf7, 0x6e5c390c)
  const STATE54: Words8 :=
    Words8(0xf5702fdb, 0x101fd28f, 0x886e7a22, 0x7a0508a1, 0x9f4787c3, 0x529e7d00, 0x49231c1e, 0x52f1ccf7)
  const STATE55: Words8 :=
    Words8(0x3ec45cdb, 0xf5702fdb, 0x101fd28f, 0x886e7a22, 0xe50e1b4f, 0x9f4787c3, 0x529e7d00, 0x49231c1e)
  const STATE56: Words8 :=
    Words8(0x38cc9913, 0x3ec45cdb, 0xf5702fdb, 0x101fd28f, 0x54cb266b, 0xe50e1b4f, 0x9f4787c3, 0x529e7d00)
  const STATE57: Words8 :=
    Words8(0xfcd1887b, 0x38cc9913, 0x3ec45cdb, 0xf5702fdb, 0x9b5e906c, 0x54cb266b, 0xe50e1b4f, 0x9f4787c3)
  const STATE58: Words8 :=
    Words8(0xc062d46f, 0xfcd1887b, 0x38cc9913, 0x3ec45cdb, 0x7e44008e, 0x9b5e906c, 0x54cb266b, 0xe50e1b4f)
  const STATE59: Words8 :=
    Words8(0xffb70472, 0xc062d46f, 0xfcd1887b, 0x38cc9913, 0x6d83bfc6, 0x7e44008e, 0x9b5e906c, 0x54cb266b)
  const STATE60: Words8 :=
    Words8(0xb6ae8fff, 0xffb70472, 0xc062d46f, 0xfcd1887b, 0xb21bad3d, 0x6d83bfc6, 0x7e44008e, 0x9b5e906c)
  const STATE61: Words8 :=
    Words8(0xb85e2ce9, 0xb6ae8fff, 0xffb70472, 0xc062d46f, 0x961f4894, 0xb21bad3d, 0x6d83bfc6, 0x7e44008e)
  const STATE62: Words8 :=
    Words8(0x04d24d6c, 0xb85e2ce9, 0xb6ae8fff, 0xffb70472, 0x948d25b6, 0x961f4894, 0xb21bad3d, 0x6d83bfc6)
  const STATE63: Words8 :=
    Words8(0xd39a2165, 0x04d24d6c, 0xb85e2ce9, 0xb6ae8fff, 0xfb121210, 0x948d25b6, 0x961f4894, 0xb21bad3d)
  const STATE64: Words8 :=
    Words8(0x506e3058, 0xd39a2165, 0x04d24d6c, 0xb85e2ce9, 0x5ef50f24, 0xfb121210, 0x948d25b6, 0x961f4894)

  lemma RoundsStep(block: seq<Byte>, t: nat)
    requires |block| == 64 && t < 64
    ensures Rounds(INITIAL, block, t + 1)
         == Round(Rounds(INITIAL, block, t), ROUND_CONSTANTS[t], Schedule(block, t))
  {
  }

  lemma Constants0()
    ensures ROUND_CONSTANTS[0] == 0x428a2f98 && ROUND_CONSTANTS[1] == 0x71374491
    ensures ROUND_CONSTANTS[2] == 0xb5c0fbcf && ROUND_CONSTANTS[3] == 0xe9b5dba5
    ensures ROUND_CONSTANTS[4] == 0x3956c25b && ROUND_CONSTANTS[5] == 0x59f111f1
    ensures ROUND_CONSTANTS[6] == 0x923f82a4 && ROUND_CONSTANTS[7] == 0xab1c5ed5
  {
  }

  lemma Steps0()
    ensures Round(STATE0, 0x428a2f98, 0x61626380) == STATE1
    ensures Round(STATE1, 0x71374491, 0x00000000) == STATE2
    ensures Round(STATE2, 0xb5c0fbcf, 0x00000000) == STATE3
    ensures Round(STATE3, 0xe9b5dba5, 0x00000000) == STATE4
    ensures Round(STATE4, 0x3956c25b, 0x00000000) == STATE5
    ensures Round(STATE5, 0x59f111f1, 0x00000000) == STATE6
    ensures Round(STATE6, 0x923f82a4, 0x00000000) == STATE7
    ensures Round(STATE7, 0xab1c5ed5, 0x00000000) == STATE8
  {
  }

  lemma Rounds8(block: seq<Byte>)
    requires |block| == 64 && IsAbcBlock(block)
    ensures Rounds(INITIAL, block, 8) == STATE8
  {
    hide Rounds, Round, Schedule, IsAbcBlock;
    NoRounds(block);
    Schedule0(block);
    Constants0();
    Steps0();
    RoundsStep(block, 0);
    RoundsStep(block, 1);
    RoundsStep(block, 2);
    RoundsStep(block, 3);
    RoundsStep(block, 4);
    RoundsStep(block, 5);
    RoundsStep(block, 6);
    RoundsStep(block, 7);
  }

  lemma Constants8()
    ensures ROUND_CONSTANTS[8] == 0xd807aa98 && ROUND_CONSTANTS[9] == 0x12835b01
    ensures ROUND_CONSTANTS[10] == 0x243185be && ROUND_CONSTANTS[11] == 0x550c7dc3
    ensures ROUND_CONSTANTS[12] == 0x72be5d74 && ROUND_CONSTANTS[13] == 0x80deb1fe
    ensures ROUND_CONSTANTS[14] == 0x9bdc06a7 && ROUND_CONSTANTS[15] == 0xc19bf174
  {
  }

  lemma Steps8()
    ensures Round(STATE8, 0xd807aa98, 0x00000000) == STATE9
    ensures Round(STATE9, 0x12835b01, 0x00000000) == STATE10
    ensures Round(STATE10, 0x243185be, 0x00000000) == STATE11
    ensures Round(STATE11, 0x550c7dc3, 0x00000000) == STATE12
    ensures Round(STATE12, 0x72be5d74, 0x00000000) == STATE13
    ensures Round(STATE13, 0x80deb1fe, 0x00000000) == STATE14
    ensures Round(STATE14, 0x9bdc06a7, 0x00000000) == STATE15
    ensures Round(STATE15, 0xc19bf174, 0x00000018) == STATE16
  {
  }

  lemma Rounds16(block: seq<Byte>)
    requires |block| == 64 && IsAbcBlock(block)
    ensures Rounds(INITIAL, block, 16) == STATE16
  {
    hide Rounds, Round, Schedule, IsAbcBlock;
    Rounds8(block);
    Schedule8(block);
    Constants8();
    Steps8();
    RoundsStep(block, 8);
    RoundsStep(block, 9);
    RoundsStep(block, 10);
    RoundsStep(block, 11);
    RoundsStep(block, 12);
    RoundsStep(block, 13);
    RoundsStep(block, 14);
    RoundsStep(block, 15);
  }

  lemma Constants16()
    ensures ROUND_CONSTANTS[16] == 0xe49b69c1 && ROUND_CONSTANTS[17] == 0xefbe4786
    ensures ROUND_CONSTANTS[18] == 0x0fc19dc6 && ROUND_CONSTANTS[19] == 0x240ca1cc
    ensures ROUND_CONSTANTS[20] == 0x2de92c6f && ROUND_CONSTANTS[21] == 0x4a7484aa
    ensures ROUND_CONSTANTS[22] == 0x5cb0a9dc && ROUND_CONSTANTS[23] == 0x76f988da
  {
  }

  lemma Steps16()
    ensures Round(STATE16, 0xe49b69c1, 0x61626380) == STATE17
    ensures Round(STATE17, 0xefbe4786, 0x000f0000) == STATE18
    ensures Round(STATE18, 0x0fc19dc6, 0x7da86405) == STATE19
    ensures Round(STATE19, 0x240ca1cc, 0x600003c6) == STATE20
    ensures Round(STATE20, 0x2de92c6f, 0x3e9d7b78) == STATE21
    ensures Round(STATE21, 0x4a7484aa, 0x0183fc00) == STATE22
    ensures Round(STATE22, 0x5cb0a9dc, 0x12dcbfdb) == STATE23
    ensures Round(STATE23, 0x76f988da, 0xe2e2c38e) == STATE24
  {
  }

  lemma Rounds24(block: seq<Byte>)
    requires |block| == 64 && IsAbcBlock(block)
    ensures Rounds(INITIAL, block, 24) == STATE24
  {
    hide Rounds, Round, Schedule, IsAbcBlock;
    Rounds16(block);
    Schedule16(block);
    Constants16();
    Steps16();
    RoundsStep(block, 16);
    RoundsStep(block, 17);
    RoundsStep(block, 18);
    RoundsStep(block, 19);
    RoundsStep(block, 20);
    RoundsStep(block, 21);
    RoundsStep(block, 22);
    RoundsStep(block, 23);
  }

  lemma Constants24()
    ensures ROUND_CONSTANTS[24] == 0x983e5152 && ROUND_CONSTANTS[25] == 0xa831c66d
    ensures ROUND_CONSTANTS[26] == 0xb00327c8 && ROUND_CONSTANTS[27] == 0xbf597fc7
    ensures ROUND_CONSTANTS[28] == 0xc6e00bf3 && ROUND_CONSTANTS[29] == 0xd5a79147
    ensures ROUND_CONSTANTS[30] == 0x06ca6351 && ROUND_CONSTANTS[31] == 0x14292967
  {
  }

  lemma Steps24()
    ensures Round(STATE24, 0x983e5152, 0xc8215c1a) == STATE25
    ensures Round(STATE25, 0xa831c66d, 0xb73679a2) == STATE26
    ensures Round(STATE26, 0xb00327c8, 0xe5bc3909) == STATE27
    ensures Round(STATE27, 0xbf597fc7, 0x32663c5b) == STATE28
    ensures Round(STATE28, 0xc6e00bf3, 0x9d209d67) == STATE29
    ensures Round(STATE29, 0xd5a79147, 0xec8726cb) == STATE30
    ensures Round(STATE30, 0x06ca6351, 0x702138a4) == STATE31
    ensures Round(STATE31, 0x14292967, 0xd3b7973b) == STATE32
  {
  }

  lemma Rounds32(block: seq<Byte>)
    requires |block| == 64 && IsAbcBlock(block)
    ensures Rounds(INITIAL, block, 32) == STATE32
  {
    hide Rounds, Round, Schedule, IsAbcBlock;
    Rounds24(block);
    Schedule24(block);
    Constants24();
    Steps24();
    RoundsStep(block, 24);
    RoundsStep(block, 25);
    RoundsStep(block, 26);
    RoundsStep(block, 27);
    RoundsStep(block, 28);
    RoundsStep(block, 29);
    RoundsStep(block, 30);
    RoundsStep(block, 31);
  }

  lemma Constants32()
    ensures ROUND_CONSTANTS[32] == 0x27b70a85 && ROUND_CONSTANTS[33] == 0x2e1b2138
    ensures ROUND_CONSTANTS[34] == 0x4d2c6dfc && ROUND_CONSTANTS[35] == 0x53380d13
    ensures ROUND_CONSTANTS[36] == 0x650a7354 && ROUND_CONSTANTS[37] == 0x766a0abb
    ensures ROUND_CONSTANTS[38] == 0x81c2c92e && ROUND_CONSTANTS[39] == 0x92722c85
  {
  }

  lemma Steps32()
    ensures Round(STATE32, 0x27b70a85, 0x93f5997f) == STATE33
    ensures Round(STATE33, 0x2e1b2138, 0x3b68ba73) == STATE34
    ensures Round(STATE34, 0x4d2c6dfc, 0xaff4ffc1) == STATE35
    ensures Round(STATE35, 0x53380d13, 0xf10a5c62) == STATE36
    ensures Round(STATE36, 0x650a7354, 0x0a8b3996) == STATE37
    ensures Round(STATE37, 0x766a0abb, 0x72af830a) == STATE38
    ensures Round(STATE38, 0x81c2c92e, 0x9409e33e) == STATE39
    ensures Round(STATE39, 0x92722c85, 0x24641522) == STATE40
  {
  }

  lemma Rounds40(block: seq<Byte>)
    requires |block| == 64 && IsAbcBlock(block)
    ensures Rounds(INITIAL, block, 40) == STATE40
  {
    hide Rounds, Round, Schedule, IsAbcBlock;
    Rounds32(block);
    Schedule32(block);
    Constants32();
    Steps32();
    RoundsStep(block, 32);
    RoundsStep(block, 33);
    RoundsStep(block, 34);
    RoundsStep(block, 35);
    RoundsStep(block, 36);
    RoundsStep(block, 37);
    RoundsStep(block, 38);
    RoundsStep(block, 39);
  }

  lemma Constants40()
    ensures ROUND_CONSTANTS[40] == 0xa2bfe8a1 && ROUND_CONSTANTS[41] == 0xa81a664b
    ensures ROUND_CONSTANTS[42] == 0xc24b8b70 && ROUND_CONSTANTS[43] == 0xc76c51a3
    ensures ROUND_CONSTANTS[44] == 0xd192e819 && ROUND_CONSTANTS[45] == 0xd6990624
    ensures ROUND_CONSTANTS[46] == 0xf40e3585 && ROUND_CONSTANTS[47] == 0x106aa070
  {
  }

  lemma Steps40()
    ensures Round(STATE40, 0xa2bfe8a1, 0x9f47bf94) == STATE41
    ensures Round(STATE41, 0xa81a664b, 0xf0a64f5a) == STATE42
    ensures Round(STATE42, 0xc24b8b70, 0x3e246a79) == STATE43
    ensures Round(STATE43, 0xc76c51a3, 0x27333ba3) == STATE44
    ensures Round(STATE44, 0xd192e819, 0x0c4763f2) == STATE45
    ensures Round(STATE45, 0xd6990624, 0x840abf27) == STATE46
    ensures Round(STATE46, 0xf40e3585, 0x7a290d5d) == STATE47
    ensures Round(STATE47, 0x106aa070, 0x065c43da) == STATE48
  {
  }

  lemma Rounds48(block: seq<Byte>)
    requires |block| == 64 && IsAbcBlock(block)
    ensures Rounds(INITIAL, block, 48) == STATE48
  {
    hide Rounds, Round, Schedule, IsAbcBlock;
    Rounds40(block);
    Schedule40(block);
    Constants40();
    Steps40();
    RoundsStep(block, 40);
    RoundsStep(block, 41);
    RoundsStep(block, 42);
    RoundsStep(block, 43);
    RoundsStep(block, 44);
    RoundsStep(block, 45);
    RoundsStep(block, 46);
    RoundsStep(block, 47);
  }

  lemma Constants48()
    ensures ROUND_CONSTANTS[48] == 0x19a4c116 && ROUND_CONSTANTS[49] == 0x1e376c08
    ensures ROUND_CONSTANTS[50] == 0x2748774c && ROUND_CONSTANTS[51] == 0x34b0bcb5
    ensures ROUND_CONSTANTS[52] == 0x391c0cb3 && ROUND_CONSTANTS[53] == 0x4ed8aa4a
    ensures ROUND_CONSTANTS[54] == 0x5b9cca4f && ROUND_CONSTANTS[55] == 0x682e6ff3
  {
  }

  lemma Steps48()
    ensures Round(STATE48, 0x19a4c116, 0xfb3e89cb) == STATE49
    ensures Round(STATE49, 0x1e376c08, 0xcc7617db) == STATE50
    ensures Round(STATE50, 0x2748774c, 0xb9e66c34) == STATE51
    ensures Round(STATE51, 0x34b0bcb5, 0xa9993667) == STATE52
    ensures Round(STATE52, 0x391c0cb3, 0x84badedd) == STATE53
    ensures Round(STATE53, 0x4ed8aa4a, 0xc21462bc) == STATE54
    ensures Round(STATE54, 0x5b9cca4f, 0x1487472c) == STATE55
    ensures Round(STATE55, 0x682e6ff3, 0xb20f7a99) == STATE56
  {
  }

  lemma Rounds56(block: seq<Byte>)
    requires |block| == 64 && IsAbcBlock(block)
    ensures Rounds(INITIAL, block, 56) == STATE56
  {
    hide Rounds, Round, Schedule, IsAbcBlock;
    Rounds48(block);
    Schedule48(block);
    Constants48();
    Steps48();
    RoundsStep(block, 48);
    RoundsStep(block, 49);
    RoundsStep(block, 50);
    RoundsStep(block, 51);
    RoundsStep(block, 52);
    RoundsStep(block, 53);
    RoundsStep(block, 54);
    RoundsStep(block, 55);
  }

  lemma Constants56()
    ensures ROUND_CONSTANTS[56] == 0x748f82ee && ROUND_CONSTANTS[57] == 0x78a5636f
    ensures ROUND_CONSTANTS[58] == 0x84c87814 && ROUND_CONSTANTS[59] == 0x8cc70208
    ensures ROUND_CONSTANTS[60] == 0x90befffa && ROUND_CONSTANTS[61] == 0xa4506ceb
    ensures ROUND_CONSTANTS[62] == 0xbef9a3f7 && ROUND_CONSTANTS[63] == 0xc67178f2
  {
  }

  lemma Steps56()
    ensures Round(STATE56, 0x748f82ee, 0xef57b9cd) == STATE57
    ensures Round(STATE57, 0x78a5636f, 0xebe6b238) == STATE58
    ensures Round(STATE58, 0x84c87814, 0x9fe3095e) == STATE59
    ensures Round(STATE59, 0x8cc70208, 0x78bc8d4b) == STATE60
    ensures Round(STATE60, 0x90befffa, 0xa43fcf15) == STATE61
    ensures Round(STATE61, 0xa4506ceb, 0x668b2ff8) == STATE62
    ensures Round(STATE62, 0xbef9a3f7, 0xeeaba2cc) == STATE63
    ensures Round(STATE63, 0xc67178f2, 0x12b1edeb) == STATE64
  {
  }

  lemma Rounds64(block: seq<Byte>)
    requires |block| == 64 && IsAbcBlock(block)
    ensures Rounds(INITIAL, block, 64) == STATE64
  {
    hide Rounds, Round, Schedule, IsAbcBlock;
    Rounds56(block);
    Schedule56(block);
    Constants56();
    Steps56();
    RoundsStep(block, 56);
    RoundsStep(block, 57);
    RoundsStep(block, 58);
    RoundsStep(block, 59);
    RoundsStep(block, 60);
    RoundsStep(block, 61);
    RoundsStep(block, 62);
    RoundsStep(block, 63);
  }

  lemma NoRounds(block: seq<Byte>)
    requires |block| == 64 && IsAbcBlock(block)
    ensures Rounds(INITIAL, block, 0) == STATE0
  {
  }

  // ----- The digest

  const FINAL: Words8 :=
    Words8(0xba7816bf, 0x8f01cfea, 0x414140de, 0x5dae2223, 0xb00361a3, 0x96177a9c, 0xb410ff61, 0xf20015ad)

  lemma AbcSum()
    ensures Plus(INITIAL, STATE64) == FINAL
  {
  }

  lemma AbcNumbers()
    ensures Number(0xba7816bf) == 0xba7816bf && Number(0x8f01cfea) == 0x8f01cfea
    ensures Number(0x414140de) == 0x414140de && Number(0x5dae2223) == 0x5dae2223
    ensures Number(0xb00361a3) == 0xb00361a3 && Number(0x96177a9c) == 0x96177a9c
    ensures Number(0xb410ff61) == 0xb410ff61 && Number(0xf20015ad) == 0xf20015ad
  {
  }

  function Pair(b: nat): string
    requires b < 256
  {
    [Hexadecimal.LowerDigit(b / 16), Hexadecimal.LowerDigit(b % 16)]
  }

  lemma HexPair(m: nat, b: nat, k: nat)
    requires b < 256
    ensures Hex(256 * m + b, k + 2) == Hex(m, k) + Pair(b)
  {
    var n := 256 * m + b;
    assert n / 16 / 16 == m && n / 16 % 16 == b / 16 && n % 16 == b % 16;
    assert Hex(n, k + 2) == Hex(n / 16, k + 1) + [Hexadecimal.LowerDigit(n % 16)];
    assert Hex(n / 16, k + 1) == Hex(n / 16 / 16, k) + [Hexadecimal.LowerDigit(n / 16 % 16)];
  }

  lemma HexWord(a: nat, b: nat, c: nat, d: nat)
    requires a < 256 && b < 256 && c < 256 && d < 256
    ensures Hex(256 * (256 * (256 * a + b) + c) + d, 8) == Pair(a) + Pair(b) + Pair(c) + Pair(d)
  {
    hide Hex, Pair;
    HexPair(256 * (256 * a + b) + c, d, 6);
    HexPair(256 * a + b, c, 4);
    HexPair(a, b, 2);
    HexPair(0, a, 0);
    HexNothing();
  }

  lemma HexNothing()
    ensures Hex(0, 0) == ""
  {
  }

  lemma HexAppend(words: seq<Word>, w: Word)
    ensures HexOfWords(words + [w]) == HexOfWords(words) + Hex(Number(w), 8)
  {
    hide Hex, Number;
    assert (words + [w])[..|words|] == words;
  }

  lemma Hex0()
    ensures Hex(0xba7816bf, 8) == "ba7816bf"
  {
    hide Hex;
    HexWord(0xba, 0x78, 0x16, 0xbf);
  }

  lemma Hex1()
    ensures Hex(0x8f01cfea, 8) == "8f01cfea"
  {
    hide Hex;
    HexWord(0x8f, 0x01, 0xcf, 0xea);
  }

  lemma Hex2()
    ensures Hex(0x414140de, 8) == "414140de"
  {
    hide Hex;
    HexWord(0x41, 0x41, 0x40, 0xde);
  }

  lemma Hex3()
    ensures Hex(0x5dae2223, 8) == "5dae2223"
  {
    hide Hex;
    HexWord(0x5d, 0xae, 0x22, 0x23);
  }

  lemma Hex4()
    ensures Hex(0xb00361a3, 8) == "b00361a3"
  {
    hide Hex;
    HexWord(0xb0, 0x03, 0x61, 0xa3);
  }

  lemma Hex5()
    ensures Hex(0x96177a9c, 8) == "96177a9c"
  {
    hide Hex;
    HexWord(0x96, 0x17, 0x7a, 0x9c);
  }

  lemma Hex6()
    ensures Hex(0xb410ff61, 8) == "b410ff61"
  {
    hide Hex;
    HexWord(0xb4, 0x10, 0xff, 0x61);
  }

  lemma Hex7()
    ensures Hex(0xf20015ad, 8) == "f20015ad"
  {
    hide Hex;
    HexWord(0xf2, 0x00, 0x15, 0xad);
  }

  lemma HexOfFirstHalf()
    ensures HexOfWords([0xba7816bf, 0x8f01cfea, 0x414140de, 0x5dae2223]) == "ba7816bf8f01cfea414140de5dae2223"
  {
    hide HexOfWords, Hex, Number;
    AbcNumbers();
    Nothing();
    var w0: seq<Word> := [];
    HexAppend(w0, 0xba7816bf);
    Hex0();
    var w1 := w0 + [0xba7816bf];
    HexAppend(w1, 0x8f01cfea);
    Hex1();
    var w2 := w1 + [0x8f01cfea];
    HexAppend(w2, 0x414140de);
    Hex2();
    var w3 := w2 + [0x414140de];
    HexAppend(w3, 0x5dae2223);
    Hex3();
    var w4 := w3 + [0x5dae2223];
    assert w4 == [0xba7816bf, 0x8f01cfea, 0x414140de, 0x5dae2223];
  }

  lemma HexOfSecondHalf()
    ensures HexOfWords([0xb00361a3, 0x96177a9c, 0xb410ff61, 0xf20015ad]) == "b00361a396177a9cb410ff61f20015ad"
  {
    hide HexOfWords, Hex, Number;
    AbcNumbers();
    Nothing();
    var w0: seq<Word> := [];
    HexAppend(w0, 0xb00361a3);
    Hex4();
    var w1 := w0 + [0xb00361a3];
    HexAppend(w1, 0x96177a9c);
    Hex5();
    var w2 := w1 + [0x96177a9c];
    HexAppend(w2, 0xb410ff61);
    Hex6();
    var w3 := w2 + [0xb410ff61];
    HexAppend(w3, 0xf20015ad);
    Hex7();
    var w4 := w3 + [0xf20015ad];
    assert w4 == [0xb00361a3, 0x96177a9c, 0xb410ff61, 0xf20015ad];
  }

  lemma {:induction false} HexOfConcat(v: seq<Word>, w: seq<Word>)
    ensures HexOfWords(v + w) == HexOfWords(v) + HexOfWords(w)
  {
    hide Hex, Number;
    if w == [] {
      assert v + w == v;
    } else {
      var n := |w| - 1;
      assert v + w == (v + w[..n]) + [w[n]] && w == w[..n] + [w[n]];
      HexOfConcat(v, w[..n]);
      HexAppend(v + w[..n], w[n]);
      HexAppend(w[..n], w[n]);
    }
  }

  lemma TextHalves()
    ensures "ba7816bf8f01cfea414140de5dae2223" + "b00361a396177a9cb410ff61f20015ad"
         == "ba7816bf8f01cfea414140de5dae2223b00361a396177a9cb410ff61f20015ad"
  {
  }

  lemma HexOfFinal()
    ensures HexOfWords(WordsOf(FINAL))
         == "ba7816bf8f01cfea414140de5dae2223b00361a396177a9cb410ff61f20015ad"
  {
    hide HexOfWords;
    var first: seq<Word> := [0xba7816bf, 0x8f01cfea, 0x414140de, 0x5dae2223];
    var second: seq<Word> := [0xb00361a3, 0x96177a9c, 0xb410ff61, 0xf20015ad];
    assert WordsOf(FINAL) == first + second;
    HexOfFirstHalf();
    HexOfSecondHalf();
    HexOfConcat(first, second);
    TextHalves();
  }

  lemma Nothing()
    ensures HexOfWords([]) == ""
  {
  }

  /** The digest of `abc` is the one the standard publishes. */
  lemma DigestOfAbc()
    ensures Digest(ABC) == "ba7816bf8f01cfea414140de5dae2223b00361a396177a9cb410ff61f20015ad"
  {
    hide Padded, Rounds, Hex, Number, HexOfWords, HashBlocks, IsAbcBlock;
    var block := Padded(ABC);
    PaddedBytes(0);
    PaddedIsAbcBlock();
    Rounds64(block);
    AbcSum();
    NoBlocks(block);
    NextBlock(block, 0);
    assert block[0..64] == block;
    HexOfFinal();
  }
}
