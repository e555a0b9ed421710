/** The fixed thresholds and keypad button codes of the Keybus decoder
    (DSCPanel/DSC_Constants.h). */
module KeybusConstants {
  import opened Radix
  import opened Bits

  // ----- word and timing constants -----

  /** A building word is extended only while it holds at most this many bits. */
  const MAX_BITS: byte := 200
  /** Length of the clock's new-word marker, in microseconds. */
  const NEW_WORD_INTV: nat := 5200
  /** Length of the byte arrays that zeroArr clears. */
  const ARR_SIZE: byte := 14

  /** An edge gap above this closes the keypad word (DSC.cpp:367). */
  const KEYPAD_GAP: nat := NEW_WORD_INTV - 200
  /** A gap below this keeps process() from closing the panel word (DSC.cpp:99). */
  const PANEL_GAP: nat := NEW_WORD_INTV + 200

  // ----- keypad button values -----

  /** Usual first byte of a keypad word. */
  const K_OUT: byte := 0xff
  const K_FF: byte := 0xff
  const K_7F: byte := 0x7f
  // Buttons carried in the second byte.
  const ONE: byte := 0x82
  const TWO: byte := 0x85
  const THREE: byte := 0x87
  const FOUR: byte := 0x88
  const FIVE: byte := 0x8b
  const SIX: byte := 0x8d
  const SEVEN: byte := 0x8e
  const EIGHT: byte := 0x91
  const NINE: byte := 0x93
  const ASTER: byte := 0x94
  const ZERO: byte := 0x80
  const POUND: byte := 0x96
  const STAY: byte := 0xd7
  const AWAY: byte := 0xd8
  const CHIME: byte := 0xdd
  const RESET: byte := 0xed
  const K_EXIT: byte := 0xf0
  const L_ARROW: byte := 0xfb
  const R_ARROW: byte := 0xf7
  // Buttons carried in the first byte.
  const FIRE: byte := 0xbb
  const AUX: byte := 0xdd
  const PANIC: byte := 0xee

  /** The second-byte buttons in the order decodeKeypad tests them. */
  const SECOND_BYTE_BUTTONS: seq<byte> :=
    [ONE, TWO, THREE, FOUR, FIVE, SIX, SEVEN, EIGHT, NINE, ASTER, ZERO, POUND,
     STAY, AWAY, CHIME, RESET, K_EXIT, L_ARROW, R_ARROW]

  /** The first-byte buttons. */
  const FIRST_BYTE_BUTTONS: seq<byte> := [FIRE, AUX, PANIC]

  /** Pairwise distinct. */
  predicate Distinct(s: seq<byte>) {
    forall i, j :: 0 <= i < j < |s| ==> s[i] != s[j]
  }

  /** The bit strings need at most MAX_BITS + 1 characters, which the stated
      maximum of 254 keeps within a byte. */
  lemma MaxBitsFitsByte()
    ensures MAX_BITS <= 254 && MAX_BITS + 1 < 256
  {
  }

  /** The capture routine closes a keypad word on a shorter gap than the one
      process() waits for before closing a panel word. */
  lemma GapsOrdered()
    ensures KEYPAD_GAP == 5000 && PANEL_GAP == 5400 && KEYPAD_GAP < PANEL_GAP
  {
  }

  /** Each button value is the eight-bit pattern its declaration documents,
      most significant bit first, as byteToBin prints it. */
  lemma ButtonPatterns()
    ensures ByteBits(K_OUT) == "11111111"
    ensures ByteBits(K_FF) == "11111111"
    ensures ByteBits(K_7F) == "01111111"
    ensures ByteBits(ONE) == "10000010"
    ensures ByteBits(TWO) == "10000101"
    ensures ByteBits(THREE) == "10000111"
    ensures ByteBits(FOUR) == "10001000"
    ensures ByteBits(FIVE) == "10001011"
    ensures ByteBits(SIX) == "10001101"
    ensures ByteBits(SEVEN) == "10001110"
    ensures ByteBits(EIGHT) == "10010001"
    ensures ByteBits(NINE) == "10010011"
    ensures ByteBits(ASTER) == "10010100"
    ensures ByteBits(ZERO) == "10000000"
    ensures ByteBits(POUND) == "10010110"
    ensures ByteBits(STAY) == "11010111"
    ensures ByteBits(AWAY) == "11011000"
    ensures ByteBits(CHIME) == "11011101"
    ensures ByteBits(RESET) == "11101101"
    ensures ByteBits(K_EXIT) == "11110000"
    ensures ByteBits(L_ARROW) == "11111011"
    ensures ByteBits(R_ARROW) == "11110111"
    ensures ByteBits(FIRE) == "10111011"
    ensures ByteBits(AUX) == "11011101"
    ensures ByteBits(PANIC) == "11101110"
  {
    KOutPattern();
    KFfPattern();
    K7fPattern();
    OnePattern();
    TwoPattern();
    ThreePattern();
    FourPattern();
    FivePattern();
    SixPattern();
    SevenPattern();
    EightPattern();
    NinePattern();
    AsterPattern();
    ZeroPattern();
    PoundPattern();
    StayPattern();
    AwayPattern();
    ChimePattern();
    ResetPattern();
    KExitPattern();
    LArrowPattern();
    RArrowPattern();
    FirePattern();
    AuxPattern();
    PanicPattern();
  }

  // One literal per lemma: the solver evaluates each pattern on its own.
  lemma KOutPattern() ensures ByteBits(K_OUT) == "11111111" { ByteBitsSpelled(K_OUT); }
  lemma KFfPattern() ensures ByteBits(K_FF) == "11111111" { ByteBitsSpelled(K_FF); }
  lemma K7fPattern() ensures ByteBits(K_7F) == "01111111" { ByteBitsSpelled(K_7F); }
  lemma OnePattern() ensures ByteBits(ONE) == "10000010" { ByteBitsSpelled(ONE); }
  lemma TwoPattern() ensures ByteBits(TWO) == "10000101" { ByteBitsSpelled(TWO); }
  lemma ThreePattern() ensures ByteBits(THREE) == "10000111" { ByteBitsSpelled(THREE); }
  lemma FourPattern() ensures ByteBits(FOUR) == "10001000" { ByteBitsSpelled(FOUR); }
  lemma FivePattern() ensures ByteBits(FIVE) == "10001011" { ByteBitsSpelled(FIVE); }
  lemma SixPattern() ensures ByteBits(SIX) == "10001101" { ByteBitsSpelled(SIX); }
  lemma SevenPattern() ensures ByteBits(SEVEN) == "10001110" { ByteBitsSpelled(SEVEN); }
  lemma EightPattern() ensures ByteBits(EIGHT) == "10010001" { ByteBitsSpelled(EIGHT); }
  lemma NinePattern() ensures ByteBits(NINE) == "10010011" { ByteBitsSpelled(NINE); }
  lemma AsterPattern() ensures ByteBits(ASTER) == "10010100" { ByteBitsSpelled(ASTER); }
  lemma ZeroPattern() ensures ByteBits(ZERO) == "10000000" { ByteBitsSpelled(ZERO); }
  lemma PoundPattern() ensures ByteBits(POUND) == "10010110" { ByteBitsSpelled(POUND); }
  lemma StayPattern() ensures ByteBits(STAY) == "11010111" { ByteBitsSpelled(STAY); }
  lemma AwayPattern() ensures ByteBits(AWAY) == "11011000" { ByteBitsSpelled(AWAY); }
  lemma ChimePattern() ensures ByteBits(CHIME) == "11011101" { ByteBitsSpelled(CHIME); }
  lemma ResetPattern() ensures ByteBits(RESET) == "11101101" { ByteBitsSpelled(RESET); }
  lemma KExitPattern() ensures ByteBits(K_EXIT) == "11110000" { ByteBitsSpelled(K_EXIT); }
  lemma LArrowPattern() ensures ByteBits(L_ARROW) == "11111011" { ByteBitsSpelled(L_ARROW); }
  lemma RArrowPattern() ensures ByteBits(R_ARROW) == "11110111" { ByteBitsSpelled(R_ARROW); }
  lemma FirePattern() ensures ByteBits(FIRE) == "10111011" { ByteBitsSpelled(FIRE); }
  lemma AuxPattern() ensures ByteBits(AUX) == "11011101" { ByteBitsSpelled(AUX); }
  lemma PanicPattern() ensures ByteBits(PANIC) == "11101110" { ByteBitsSpelled(PANIC); }

  /** The nineteen second-byte buttons are pairwise distinct and none is K_OUT,
      so the else-if chain over them has no shadowed entry. */
  lemma SecondByteButtonsDistinct()
    ensures |SECOND_BYTE_BUTTONS| == 19
    ensures Distinct(SECOND_BYTE_BUTTONS) && K_OUT !in SECOND_BYTE_BUTTONS
  {
  }

  /** Fire, aux and panic are distinct and none is K_OUT, so a word never gets
      both a first-byte button label and a second-byte table entry. Aux shares
      its value with Chime, but one is tested on the first byte and the other
      on the second. */
  lemma FirstByteButtonsDistinct()
    ensures Distinct(FIRST_BYTE_BUTTONS) && K_OUT !in FIRST_BYTE_BUTTONS
    ensures AUX == CHIME
  {
  }
}
