/** The first published example of FIPS 180-4, the message "abc": it pins constants, functions, rotations,
    schedule and padding of Sha1Standard. */
module Sha1Example {
  import opened Sha1Standard

  /** The message schedule of the example. */
  function ExampleWord(t: nat): bv32
    requires t < 80
  {
    match t
    case 0 => 0x61626380 case 1 => 0x00000000 case 2 => 0x00000000 case 3 => 0x00000000 case 4 => 0x00000000
    case 5 => 0x00000000 case 6 => 0x00000000 case 7 => 0x00000000 case 8 => 0x00000000 case 9 => 0x00000000
    case 10 => 0x00000000 case 11 => 0x00000000 case 12 => 0x00000000 case 13 => 0x00000000 case 14 => 0x00000000
    case 15 => 0x00000018 case 16 => 0xC2C4C700 case 17 => 0x00000000 case 18 => 0x00000030 case 19 => 0x85898E01
    case 20 => 0x00000000 case 21 => 0x00000060 case 22 => 0x0B131C03 case 23 => 0x00000030 case 24 => 0x85898EC1
    case 25 => 0x16263806 case 26 => 0x00000000 case 27 => 0x00000180 case 28 => 0x2C4C700C case 29 => 0x000000F0
    case 30 => 0x93AFB507 case 31 => 0x5898E048 case 32 => 0x8E9A9202 case 33 => 0x00000600 case 34 => 0xB131C0F0
    case 35 => 0x16263BC6 case 36 => 0x4EBED41E case 37 => 0x626380A1 case 38 => 0x16263806 case 39 => 0x000018C0
    case 40 => 0xD2E138C4 case 41 => 0x00000F00 case 42 => 0x3AFB5079 case 43 => 0x898E04E5 case 44 => 0xE2BA3C2B
    case 45 => 0x000060C0 case 46 => 0x053A37CD case 47 => 0x74458547 case 48 => 0xDA9415ED case 49 => 0x26380A16
    case 50 => 0x626383A1 case 51 => 0x4EBF54DE case 52 => 0x3835B44B case 53 => 0x0000F600 case 54 => 0x1E84C7A3
    case 55 => 0x98E04D98 case 56 => 0x651D16A0 case 57 => 0x62658CA1 case 58 => 0x458544D6 case 59 => 0x44584CB7
    case 60 => 0x7BA06619 case 61 => 0x6380AEA2 case 62 => 0x0AE55269 case 63 => 0x627B49A1 case 64 => 0x7CD45C9D
    case 65 => 0x000F0000 case 66 => 0xFB50753A case 67 => 0xEC6765E8 case 68 => 0xBA3C2BE2 case 69 => 0x0060C000
    case 70 => 0x3A37CD05 case 71 => 0x458546F4 case 72 => 0xB8599DD6 case 73 => 0x380A1A26 case 74 => 0x01E02203
    case 75 => 0xE7CC3456 case 76 => 0xE6E60B69 case 77 => 0x00F60A00 case 78 => 0x5795EF4F case 79 => 0x822E0879
  }

  /** The first working variable, from four rounds before the first round to after the last. */
  function A(t: nat): bv32
    requires t < 85
  {
    match t
    case 0 => 0x0F4B87C3 case 1 => 0x40C951D8 case 2 => 0x62EB73FA case 3 => 0xEFCDAB89 case 4 => 0x67452301
    case 5 => 0x0116FC33 case 6 => 0x8990536D case 7 => 0xA1390F08 case 8 => 0xCDD8E11B case 9 => 0xCFD499DE
    case 10 => 0x3FC7CA40 case 11 => 0x993E30C1 case 12 => 0x9E8C07D4 case 13 => 0x4B6AE328 case 14 => 0x8351F929
    case 15 => 0xFBDA9E89 case 16 => 0x63188FE4 case 17 => 0x4607B664 case 18 => 0x9128F695 case 19 => 0x196BEE77
    case 20 => 0x20BDD62F case 21 => 0x4E925823 case 22 => 0x82AA6728 case 23 => 0xDC64901D case 24 => 0xFD9E1D7D
    case 25 => 0x1A37B0CA case 26 => 0x33A23BFC case 27 => 0x21283486 case 28 => 0xD541F12D case 29 => 0xC7567DC6
    case 30 => 0x48413BA4 case 31 => 0xBE35FBD5 case 32 => 0x4AA84D97 case 33 => 0x8370B52E case 34 => 0xC5FBAF5D
    case 35 => 0x1267B407 case 36 => 0x3B845D33 case 37 => 0x046FAA0A case 38 => 0x2C0EBC11 case 39 => 0x21796AD4
    case 40 => 0xDCBBB0CB case 41 => 0x0F511FD8 case 42 => 0xDC63973F case 43 => 0x4C986405 case 44 => 0x32DE1CBA
    case 45 => 0xFC87DEDF case 46 => 0x970A0D5C case 47 => 0x7F193DC5 case 48 => 0xEE1B1AAF case 49 => 0x40F28E09
    case 50 => 0x1C51E1F2 case 51 => 0xA01B846C case 52 => 0xBEAD02CA case 53 => 0xBAF39337 case 54 => 0x120731C5
    case 55 => 0x641DB2CE case 56 => 0x3847AD66 case 57 => 0xE490436D case 58 => 0x27E9F1D8 case 59 => 0x7B71F76D
    case 60 => 0x5E6456AF case 61 => 0xC846093F case 62 => 0xD262FF50 case 63 => 0x09D785FD case 64 => 0x3F52DE5A
    case 65 => 0xD756C147 case 66 => 0x548C9CB2 case 67 => 0xB66C020B case 68 => 0x6B61C9E1 case 69 => 0x19DFA7AC
    case 70 => 0x101655F9 case 71 => 0x0C3DF2B4 case 72 => 0x78DD4D2B case 73 => 0x497093C0 case 74 => 0x3F2588C2
    case 75 => 0xC199F8C7 case 76 => 0x39859DE7 case 77 => 0xEDB42DE4 case 78 => 0x11793F6F case 79 => 0x5EE76897
    case 80 => 0x63F7DAB7 case 81 => 0xA079B7D9 case 82 => 0x860D21CC case 83 => 0x5738D5E1 case 84 => 0x42541B35
  }

  /** The working variables after t rounds: the first one as it was up to four rounds before. */
  function State(t: nat): Regs
    requires t <= 80
  {
    Regs(A(t + 4), A(t + 3), Rotl30(A(t + 2)), Rotl30(A(t + 1)), Rotl30(A(t)))
  }

  predicate RoundIs(t: nat)
    requires t < 80
  {
    State(t + 1) == Round(State(t), t, ExampleWord(t))
  }

  predicate WordIs(t: nat)
    requires 16 <= t < 80
  {
    ExampleWord(t)
    == Mix(ExampleWord(t - 3), ExampleWord(t - 8), ExampleWord(t - 14), ExampleWord(t - 16))
  }

  // ---------- the published values, a few at a time ----------

  lemma Rounds0(t: nat)
    requires 0 <= t < 4
    ensures RoundIs(t)
  {
  }

  lemma Rounds4(t: nat)
    requires 4 <= t < 8
    ensures RoundIs(t)
  {
  }

  lemma Rounds8(t: nat)
    requires 8 <= t < 12
    ensures RoundIs(t)
  {
  }

  lemma Rounds12(t: nat)
    requires 12 <= t < 16
    ensures RoundIs(t)
  {
  }

  lemma Rounds16(t: nat)
    requires 16 <= t < 20
    ensures RoundIs(t)
  {
  }

  lemma Rounds20(t: nat)
    requires 20 <= t < 24
    ensures RoundIs(t)
  {
  }

  lemma Rounds24(t: nat)
    requires 24 <= t < 28
    ensures RoundIs(t)
  {
  }

  lemma Rounds28(t: nat)
    requires 28 <= t < 32
    ensures RoundIs(t)
  {
  }

  lemma Rounds32(t: nat)
    requires 32 <= t < 36
    ensures RoundIs(t)
  {
  }

  lemma Rounds36(t: nat)
    requires 36 <= t < 40
    ensures RoundIs(t)
  {
  }

  lemma Rounds40(t: nat)
    requires 40 <= t < 44
    ensures RoundIs(t)
  {
  }

  lemma Rounds44(t: nat)
    requires 44 <= t < 48
    ensures RoundIs(t)
  {
  }

  lemma Rounds48(t: nat)
    requires 48 <= t < 52
    ensures RoundIs(t)
  {
  }

  lemma Rounds52(t: nat)
    requires 52 <= t < 56
    ensures RoundIs(t)
  {
  }

  lemma Rounds56(t: nat)
    requires 56 <= t < 60
    ensures RoundIs(t)
  {
  }

  lemma Rounds60(t: nat)
    requires 60 <= t < 64
    ensures RoundIs(t)
  {
  }

  lemma Rounds64(t: nat)
    requires 64 <= t < 68
    ensures RoundIs(t)
  {
  }

  lemma Rounds68(t: nat)
    requires 68 <= t < 72
    ensures RoundIs(t)
  {
  }

  lemma Rounds72(t: nat)
    requires 72 <= t < 76
    ensures RoundIs(t)
  {
  }

  lemma Rounds76(t: nat)
    requires 76 <= t < 78
    ensures RoundIs(t)
  {
  }

  lemma Rounds78(t: nat)
    requires 78 <= t < 80
    ensures RoundIs(t)
  {
  }

  lemma Words16(t: nat)
    requires 16 <= t < 24
    ensures WordIs(t)
  {
  }

  lemma Words24(t: nat)
    requires 24 <= t < 32
    ensures WordIs(t)
  {
  }

  lemma Words32(t: nat)
    requires 32 <= t < 40
    ensures WordIs(t)
  {
  }

  lemma Words40(t: nat)
    requires 40 <= t < 48
    ensures WordIs(t)
  {
  }

  lemma Words48(t: nat)
    requires 48 <= t < 56
    ensures WordIs(t)
  {
  }

  lemma Words56(t: nat)
    requires 56 <= t < 64
    ensures WordIs(t)
  {
  }

  lemma Words64(t: nat)
    requires 64 <= t < 72
    ensures WordIs(t)
  {
  }

  lemma Words72(t: nat)
    requires 72 <= t < 80
    ensures WordIs(t)
  {
  }

  lemma EveryRound(t: nat)
    requires t < 80
    ensures RoundIs(t)
  {
    hide RoundIs;
    match t / 4
    case 0 => Rounds0(t);
    case 1 => Rounds4(t);
    case 2 => Rounds8(t);
    case 3 => Rounds12(t);
    case 4 => Rounds16(t);
    case 5 => Rounds20(t);
    case 6 => Rounds24(t);
    case 7 => Rounds28(t);
    case 8 => Rounds32(t);
    case 9 => Rounds36(t);
    case 10 => Rounds40(t);
    case 11 => Rounds44(t);
    case 12 => Rounds48(t);
    case 13 => Rounds52(t);
    case 14 => Rounds56(t);
    case 15 => Rounds60(t);
    case 16 => Rounds64(t);
    case 17 => Rounds68(t);
    case 18 => Rounds72(t);
    case _ =>
      if t < 78 {
        Rounds76(t);
      } else {
        Rounds78(t);
      }
  }

  lemma EveryWord(t: nat)
    requires 16 <= t < 80
    ensures WordIs(t)
  {
    hide WordIs;
    match t / 8
    case 2 => Words16(t);
    case 3 => Words24(t);
    case 4 => Words32(t);
    case 5 => Words40(t);
    case 6 => Words48(t);
    case 7 => Words56(t);
    case 8 => Words64(t);
    case _ => Words72(t);
  }

  // ---------- the example ----------

  function Message(): seq<byte> {
    [0x61, 0x62, 0x63]
  }

  /** The one block of the padded message. */
  lemma OneBlock()
    ensures |Pad(Message())| == 64
    ensures forall t :: 0 <= t < 16 ==> Word(Pad(Message()), t) == ExampleWord(t)
  {
    var b := Pad(Message());
    LengthField();
    assert ZeroCount(3) == 52;
    assert b == [0x61, 0x62, 0x63, 0x80] + Zeros(52) + [0, 0, 0, 0, 0, 0, 0, 24];
    forall t | 0 <= t < 16 ensures Word(b, t) == ExampleWord(t) {
      FirstWords(b, t);
    }
  }

  lemma LengthField()
    ensures Bytes(24, 8) == [0, 0, 0, 0, 0, 0, 0, 24]
  {
    assert Bytes(0, 1) == [0];
    assert Bytes(0, 2) == [0, 0];
    assert Bytes(0, 3) == [0, 0, 0];
    assert Bytes(0, 4) == [0, 0, 0, 0];
    assert Bytes(0, 5) == [0, 0, 0, 0, 0];
    assert Bytes(0, 6) == [0, 0, 0, 0, 0, 0];
    assert Bytes(0, 7) == [0, 0, 0, 0, 0, 0, 0];
  }

  lemma FirstWords(b: seq<byte>, t: nat)
    requires |b| == 64 && t < 16
    requires b == [0x61, 0x62, 0x63, 0x80] + Zeros(52) + [0, 0, 0, 0, 0, 0, 0, 24]
    ensures Word(b, t) == ExampleWord(t)
  {
    if t == 0 {
      assert BigEndian(0x61, 0x62, 0x63, 0x80) == 0x61626380;
    } else if t == 15 {
      assert BigEndian(0, 0, 0, 24) == 24;
    } else {
      assert b[4 * t] == b[4 * t + 1] == b[4 * t + 2] == b[4 * t + 3] == 0;
      assert BigEndian(0, 0, 0, 0) == 0;
      assert ExampleWord(t) == 0;
    }
  }

  lemma {:induction false} ScheduleOf(b: seq<byte>, t: nat)
    requires |b| == 64 && t < 80 && forall i :: 0 <= i < 16 ==> Word(b, i) == ExampleWord(i)
    ensures W(b, t) == ExampleWord(t)
  {
    hide ExampleWord, Mix, Word;
    if t >= 16 {
      ScheduleOf(b, t - 3);
      ScheduleOf(b, t - 8);
      ScheduleOf(b, t - 14);
      ScheduleOf(b, t - 16);
      EveryWord(t);
    }
  }

  lemma {:induction false} RoundsOf(b: seq<byte>, t: nat)
    requires |b| == 64 && t <= 80 && forall i :: 0 <= i < 16 ==> Word(b, i) == ExampleWord(i)
    ensures Rounds(b, InitialHash(), t) == State(t)
  {
    hide ExampleWord, Round, W, Word, InitialHash, State;
    if t == 0 {
      StartsAt();
    } else {
      RoundsOf(b, t - 1);
      ScheduleOf(b, t - 1);
      EveryRound(t - 1);
    }
  }

  lemma StartsAt()
    ensures State(0) == InitialHash()
  {
  }

  /** Section A.1 of the examples for FIPS 180-4. */
  lemma DigestOfAbc()
    ensures HashBlocks(Pad(Message()))
         == Regs(0xA9993E36, 0x4706816A, 0xBA3E2571, 0x7850C26C, 0x9CD0D89D)
  {
    hide Rounds, State, W, Word, Pad;
    var b := Pad(Message());
    OneBlock();
    RoundsOf(b, 80);
    assert b[..0] == [] && b[0..] == b;
    assert HashBlocks(b[..0]) == InitialHash();
    assert HashBlocks(b) == Compress(InitialHash(), b);
    Last();
  }

  lemma Final()
    ensures State(80) == Regs(0x42541B35, 0x5738D5E1, 0x21834873, 0x681E6DF6, 0xD8FDF6AD)
  {
    hide A, Rotl30;
    LastValues();
    TurnedValues();
    Turned();
  }

  lemma LastValues()
    ensures A(84) == 0x42541B35 && A(83) == 0x5738D5E1
  {
  }

  lemma TurnedValues()
    ensures A(82) == 0x860D21CC && A(81) == 0xA079B7D9 && A(80) == 0x63F7DAB7
  {
  }

  lemma Turned()
    ensures Rotl30(0x860D21CC) == 0x21834873 && Rotl30(0xA079B7D9) == 0x681E6DF6 && Rotl30(0x63F7DAB7) == 0xD8FDF6AD
  {
  }

  lemma Last()
    ensures Add(InitialHash(), State(80)) == Regs(0xA9993E36, 0x4706816A, 0xBA3E2571, 0x7850C26C, 0x9CD0D89D)
  {
    hide State;
    Final();
  }
}
