/**
 Digests of the test suite in appendix A.5 of RFC 1321, computed from the definition: they fix the
 byte order of words and digests, the padding, the initial registers and the addition.
 */
module Md5Suite {
  import opened Md5Core
  import opened Md5

  /** The block of a short message: the message, one bit, zeros, and its length in bits. */
  lemma {:induction false} ShortBlock(m: seq<Byte>)
    requires |m| < 56
    ensures Padded(m) == m + ([0x80] + seq(55 - |m|, _ => 0)) + (Sival((8 * |m|) as Word) + Sival(0))
  {
    hide Sival;
    ShortPadding(|m|);
    assert (8 * |m|) % TWO32 == 8 * |m| && (8 * |m|) / TWO32 % TWO32 == 0;
  }

  lemma {:induction false} ShortPadding(len: nat)
    requires len < 56
    ensures Padding(len) == [0x80] + seq(55 - len, _ => 0)
  {
  }

  /** The digest of a message of one block, from its words and the registers after each round. */
  lemma {:induction false} OneBlock(m: seq<Byte>, X: seq<Word>, r1: State, r2: State, r3: State, r4: State)
    requires |X| == 16 && |Padded(m)| == CHUNK && Words(Padded(m)) == X
    requires Round1(INIT, X) == r1 && Round2(r1, X) == r2 && Round3(r2, X) == r3 && Round4(r3, X) == r4
    ensures Digest(m) == Sival(Plus(INIT.A, r4.A)) + Sival(Plus(INIT.B, r4.B)) + Sival(Plus(INIT.C, r4.C))
                         + Sival(Plus(INIT.D, r4.D))
  {
    hide Padded, Words, RfcBlock, Round1, Round2, Round3, Round4, Sival, Plus;
    var p := Padded(m);
    FoldMore(INIT, [], p);
    assert [] + p == p && Fold(INIT, []) == INIT;
    SameBlock(INIT, X);
  }

  // ----- ""

  const EMPTY: seq<Byte> := []
  ghost predicate EmptyBlock(X: seq<Word>) {
    X == [0x80, 0, 0, 0, 0, 0, 0, 0, 0, 0, 0, 0, 0, 0, 0, 0]
  }

  lemma {:induction false} EmptyWords()
    ensures |Padded(EMPTY)| == CHUNK && EmptyBlock(Words(Padded(EMPTY)))
  {
    hide LengthField, Padded;
    ShortBlock(EMPTY);
    assert Padded(EMPTY) == [0x80] + seq(55, _ => 0) + [0, 0, 0, 0, 0, 0, 0, 0];
  }

  lemma {:induction false} EmptyRound1(X: seq<Word>)
    requires EmptyBlock(X)
    ensures Round1(INIT, X) ==
            State(0xF56C7CF1, 0xD6819C6A, 0x5AA53F75, 0x374943A7)
  {
  }

  lemma {:induction false} EmptyRound2(X: seq<Word>)
    requires EmptyBlock(X)
    ensures Round2(State(0xF56C7CF1, 0xD6819C6A, 0x5AA53F75, 0x374943A7), X) ==
            State(0x13707036, 0xA2205F1F, 0x1C31C384, 0xAE7813DB)
  {
  }

  lemma {:induction false} EmptyRound3(X: seq<Word>)
    requires EmptyBlock(X)
    ensures Round3(State(0x13707036, 0xA2205F1F, 0x1C31C384, 0xAE7813DB), X) ==
            State(0x3F55EDFD, 0xCA7D2DBD, 0x68D84EA2, 0x22A31F54)
  {
  }

  lemma {:induction false} EmptyRound4(X: seq<Word>)
    requires EmptyBlock(X)
    ensures Round4(State(0x3F55EDFD, 0xCA7D2DBD, 0x68D84EA2, 0x22A31F54), X) ==
            State(0x7246FAD3, 0x14E45506, 0xFF4EA3EB, 0x6E10A476)
  {
  }

  lemma {:induction false} EmptyDigest()
    ensures Digest(EMPTY) == [0xd4, 0x1d, 0x8c, 0xd9, 0x8f, 0x00, 0xb2, 0x04,
                              0xe9, 0x80, 0x09, 0x98, 0xec, 0xf8, 0x42, 0x7e]
  {
    hide Padded, Words, Digest, Round1, Round2, Round3, Round4;
    EmptyWords();
    var X := Words(Padded(EMPTY));
    EmptyRound1(X);
    EmptyRound2(X);
    EmptyRound3(X);
    EmptyRound4(X);
    OneBlock(EMPTY, X,
             State(0xF56C7CF1, 0xD6819C6A, 0x5AA53F75, 0x374943A7),
             State(0x13707036, 0xA2205F1F, 0x1C31C384, 0xAE7813DB),
             State(0x3F55EDFD, 0xCA7D2DBD, 0x68D84EA2, 0x22A31F54),
             State(0x7246FAD3, 0x14E45506, 0xFF4EA3EB, 0x6E10A476));
  }

  // ----- "abc"

  const ABC: seq<Byte> := [0x61, 0x62, 0x63]
  ghost predicate AbcBlock(X: seq<Word>) {
    X == [0x80636261, 0, 0, 0, 0, 0, 0, 0, 0, 0, 0, 0, 0, 0, 0x18, 0]
  }

  lemma {:induction false} AbcWords()
    ensures |Padded(ABC)| == CHUNK && AbcBlock(Words(Padded(ABC)))
  {
    hide LengthField, Padded;
    ShortBlock(ABC);
  }

  lemma {:induction false} AbcRound1(X: seq<Word>)
    requires AbcBlock(X)
    ensures Round1(INIT, X) ==
            State(0xDDA9B9A6, 0x72AFF2E0, 0xE396856B, 0xA1051895)
  {
  }

  lemma {:induction false} AbcRound2(X: seq<Word>)
    requires AbcBlock(X)
    ensures Round2(State(0xDDA9B9A6, 0x72AFF2E0, 0xE396856B, 0xA1051895), X) ==
            State(0x790A77FB, 0x726342D3, 0xA62884AA, 0x9F47E4F8)
  {
  }

  lemma {:induction false} AbcRound3(X: seq<Word>)
    requires AbcBlock(X)
    ensures Round3(State(0x790A77FB, 0x726342D3, 0xA62884AA, 0x9F47E4F8), X) ==
            State(0x7F2E507B, 0x7BEB9700, 0x8FAE6399, 0x99D9679D)
  {
  }

  lemma {:induction false} AbcRound4(X: seq<Word>)
    requires AbcBlock(X)
    ensures Round4(State(0x7F2E507B, 0x7BEB9700, 0x8FAE6399, 0x99D9679D), X) ==
            State(0x310ADE8F, 0xC08226B3, 0xE484B9D8, 0x624D8CB2)
  {
  }

  lemma {:induction false} AbcDigest()
    ensures Digest(ABC) == [0x90, 0x01, 0x50, 0x98, 0x3c, 0xd2, 0x4f, 0xb0,
                            0xd6, 0x96, 0x3f, 0x7d, 0x28, 0xe1, 0x7f, 0x72]
  {
    hide Padded, Words, Digest, Round1, Round2, Round3, Round4;
    AbcWords();
    var X := Words(Padded(ABC));
    AbcRound1(X);
    AbcRound2(X);
    AbcRound3(X);
    AbcRound4(X);
    OneBlock(ABC, X,
             State(0xDDA9B9A6, 0x72AFF2E0, 0xE396856B, 0xA1051895),
             State(0x790A77FB, 0x726342D3, 0xA62884AA, 0x9F47E4F8),
             State(0x7F2E507B, 0x7BEB9700, 0x8FAE6399, 0x99D9679D),
             State(0x310ADE8F, 0xC08226B3, 0xE484B9D8, 0x624D8CB2));
  }

  // ----- "message digest"

  const MESSAGE: seq<Byte> := [0x6d, 0x65, 0x73, 0x73, 0x61, 0x67, 0x65, 0x20, 0x64, 0x69, 0x67, 0x65, 0x73, 0x74]
  ghost predicate MessageBlock(X: seq<Word>) {
    X == [0x7373656D, 0x20656761, 0x65676964, 0x00807473, 0, 0, 0, 0, 0, 0, 0, 0, 0, 0, 0x70, 0]
  }

  lemma {:induction false} MessageWords()
    ensures |Padded(MESSAGE)| == CHUNK && MessageBlock(Words(Padded(MESSAGE)))
  {
    hide LengthField, Padded;
    ShortBlock(MESSAGE);
  }

  lemma {:induction false} MessageRound1(X: seq<Word>)
    requires MessageBlock(X)
    ensures Round1(INIT, X) ==
            State(0x27C95B7F, 0xB760921A, 0x872D34D8, 0x034E9992)
  {
  }

  lemma {:induction false} MessageRound2(X: seq<Word>)
    requires MessageBlock(X)
    ensures Round2(State(0x27C95B7F, 0xB760921A, 0x872D34D8, 0x034E9992), X) ==
            State(0xC64F6E00, 0x29209D1F, 0x99CCFCA3, 0x4E341514)
  {
  }

  lemma {:induction false} MessageRound3(X: seq<Word>)
    requires MessageBlock(X)
    ensures Round3(State(0xC64F6E00, 0x29209D1F, 0x99CCFCA3, 0x4E341514), X) ==
            State(0xC5148EB0, 0x8F920A7F, 0x8EE8CB35, 0x9551398B)
  {
  }

  lemma {:induction false} MessageRound4(X: seq<Word>)
    requires MessageBlock(X)
    ensures Round4(State(0xC5148EB0, 0x8F920A7F, 0x8EE8CB35, 0x9551398B), X) ==
            State(0x162448F8, 0x9DC60BF3, 0x98747D54, 0xC02F9D34)
  {
  }

  lemma {:induction false} MessageDigest()
    ensures Digest(MESSAGE) == [0xf9, 0x6b, 0x69, 0x7d, 0x7c, 0xb7, 0x93, 0x8d,
                                0x52, 0x5a, 0x2f, 0x31, 0xaa, 0xf1, 0x61, 0xd0]
  {
    hide Padded, Words, Digest, Round1, Round2, Round3, Round4;
    MessageWords();
    var X := Words(Padded(MESSAGE));
    MessageRound1(X);
    MessageRound2(X);
    MessageRound3(X);
    MessageRound4(X);
    OneBlock(MESSAGE, X,
             State(0x27C95B7F, 0xB760921A, 0x872D34D8, 0x034E9992),
             State(0xC64F6E00, 0x29209D1F, 0x99CCFCA3, 0x4E341514),
             State(0xC5148EB0, 0x8F920A7F, 0x8EE8CB35, 0x9551398B),
             State(0x162448F8, 0x9DC60BF3, 0x98747D54, 0xC02F9D34));
  }
}
