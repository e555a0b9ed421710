/** The text decodePanel and decodeKeypad append to pMsg and kMsg
    (DSCPanel/DSC.cpp:117-352), as functions of the word being decoded. */
module KeybusMessages {
  import opened Radix
  import opened Bits
  import opened KeybusConstants

  /** `text` when b holds, otherwise nothing: one `if (...) msg += text;`. */
  function Opt(b: bool, text: string): string {
    if b then text else ""
  }

  /** binToInt(w, k, 1) is non-zero. */
  predicate Flag(w: string, k: nat) {
    BitsValue(w, k, 1) == 1
  }

  // ----- status words (command 0x05) -----

  datatype Status = Status(ready: bool, error: bool, bypass: bool, memory: bool,
                           armed: bool, program: bool, powerFail: bool)

  /** The flags a status word carries (DSC.cpp:136-148). */
  function StatusOf(w: string): Status {
    Status(Flag(w, 16), Flag(w, 12), Flag(w, 13), Flag(w, 14), Flag(w, 15), Flag(w, 17), Flag(w, 29))
  }

  function StatusText(st: Status): string {
    "[Status] " + (if st.ready then "Ready" else "Not Ready")
    + Opt(st.error, ", Error") + Opt(st.bypass, ", Bypass") + Opt(st.memory, ", Memory")
    + Opt(st.armed, ", Armed") + Opt(st.program, ", Program") + Opt(st.powerFail, ", Power Fail")
  }

  // ----- date, time and arming words (command 0xa5) -----

  /** The arguments decodePanel hands to setTime(HH, MM, 0, dd, mm, yy). */
  datatype ClockFields = ClockFields(hour: nat, minute: nat, second: nat, day: nat, month: nat, year: nat)

  /** `(String(y3) + String(y4)).toInt()`. */
  function YearValue(y3: nat, y4: nat): nat {
    Parse(Digits(y3, 10) + Digits(y4, 10), 10)
  }

  /** The clock fields of an info word (DSC.cpp:154-161). */
  function ClockOf(w: string): ClockFields {
    ClockFields(BitsValue(w, 28, 5), BitsValue(w, 33, 6), 0, BitsValue(w, 23, 5), BitsValue(w, 19, 4),
                YearValue(BitsValue(w, 9, 4), BitsValue(w, 13, 4)))
  }

  /** The byte `user` after the arm-dependent adjustments, every step wrapping
      modulo 256 as byte arithmetic does (DSC.cpp:171-187). */
  function UserNumber(arm: nat, raw: byte): byte {
    var u := if arm == 2 then (raw - 0x19) % 256 else raw;
    if arm > 0 then
      var v := (u + 1) % 256;
      if v > 34 then (v + 5) % 256 else v
    else u
  }

  function ArmText(arm: nat, master: bool, raw: byte): string {
    Opt(arm == 2, ", Armed") + Opt(arm == 3, ", Disarmed")
    + Opt(arm > 0, (if master then ", Master Code" else ", User Code") + " " + Digits(UserNumber(arm, raw), 10))
  }

  /** Field widths of an info word: arm (41, 2 bits), master (43, 1), user (43, 6). */
  function InfoText(w: string, synced: bool): string {
    assert Power(2, 6) == 64;
    "[Info] " + (if synced then "Time Sync " else "Time Sync Error ")
    + ArmText(BitsValue(w, 41, 2), Flag(w, 43), BitsValue(w, 43, 6))
  }

  // ----- zone words (commands 0x27, 0x2d, 0x34, 0x3e) -----

  /** Offset of the zone byte: command, padding bit and four bytes. */
  const ZONE_OFFSET: nat := 8 + 1 + 8 + 8 + 8 + 8

  /** Zones base + j for the set bits j < k of the field, in ascending j. */
  function ZoneList(field: nat, base: nat, k: nat): seq<nat> {
    if k == 0 then [] else ZoneList(field, base, k - 1) + ZoneOpt(Bit(field, k - 1), base + k - 1)
  }

  /** [z] when b holds, otherwise nothing. */
  function ZoneOpt(b: bool, z: nat): seq<nat> {
    if b then [z] else []
  }

  /** The zones a group reports: one per bit of the zone byte. */
  function Zones(field: nat, base: nat): seq<nat> {
    ZoneList(field, base, 8)
  }

  /** The zone numbers in decimal, one after the other with no separator. */
  function DecimalList(zs: seq<nat>): string {
    if zs == [] then "" else DecimalList(zs[..|zs| - 1]) + Digits(zs[|zs| - 1], 10)
  }

  function ZoneText(title: string, field: nat, base: nat): string {
    title + DecimalList(Zones(field, base)) + Opt(field == 0, "Ready ")
  }

  // ----- a whole panel word -----

  /** The text decodePanel appends for an accepted word: its independent `if`
      blocks, of which at most one matches the command byte. */
  function PanelText(w: string, synced: bool): string {
    var cmd := BitsValue(w, 0, 8);
    var zones := BitsValue(w, ZONE_OFFSET, 8);
    if cmd == 0x05 then StatusText(StatusOf(w))
    else if cmd == 0xa5 then InfoText(w, synced)
    else if cmd == 0x27 then ZoneText("[Zones A] ", zones, 1)
    else if cmd == 0x2d then ZoneText("[Zones B] ", zones, 9)
    else if cmd == 0x34 then ZoneText("[Zones C] ", zones, 17)
    else if cmd == 0x3e then ZoneText("[Zones D] ", zones, 25)
    else if cmd == 0x11 then "[Keypad Query] "
    else if cmd == 0x0a then "[Panel Program Mode] "
    else if cmd == 0x5d then "[Alarm Memory Group 1] "
    else if cmd == 0x63 then "[Alarm Memory Group 2] "
    else if cmd == 0x64 then "[Beep Command Group 1] "
    else if cmd == 0x69 then "[Beep Command Group 2] "
    else if cmd == 0x39 then "[Undefined command from panel] "
    else if cmd == 0xb1 then "[Zone Configuration] "
    else ""
  }

  /** The command bytes decodePanel has text for. */
  const PANEL_COMMANDS: set<nat> :=
    {0x05, 0xa5, 0x27, 0x2d, 0x34, 0x3e, 0x11, 0x0a, 0x5d, 0x63, 0x64, 0x69, 0x39, 0xb1}

  // ----- keypad words -----

  /** The label of each second-byte button, in the order of SECOND_BYTE_BUTTONS. */
  const BUTTON_LABELS: seq<string> :=
    ["1", "2", "3", "4", "5", "6", "7", "8", "9", "*", "0", "#",
     "Stay", "Away", "Chime", "Reset", "Exit", "<", ">"]

  /** The first position of b in s, or |s| when b does not occur. */
  function IndexOf(s: seq<byte>, b: byte): (i: nat)
    ensures i <= |s|
    ensures i < |s| ==> s[i] == b
    ensures forall j :: 0 <= j < i ==> s[j] != b
  {
    if s == [] then 0 else if s[0] == b then 0 else 1 + IndexOf(s[1..], b)
  }

  /** The else-if chain on the second byte of a kOut word (DSC.cpp:297-339). */
  function SecondByteText(b2: byte): string {
    var i := IndexOf(SECOND_BYTE_BUTTONS, b2);
    if i < |SECOND_BYTE_BUTTONS| then "[Button] " + BUTTON_LABELS[i]
    else if b2 == K_OUT then "[Keypad Response]"
    else "[Keypad] 0x" + Digits(b2, 16) + " (Unknown)"
  }

  /** The three separate first-byte tests (DSC.cpp:342-347). */
  function FirstByteText(cmd: byte): string {
    Opt(cmd == FIRE, "[Button] Fire") + Opt(cmd == AUX, "[Button] Auxillary") + Opt(cmd == PANIC, "[Button] Panic")
  }

  /** The text decodeKeypad appends for an accepted word. */
  function KeypadText(w: string): string {
    assert Power(2, 8) == 256;
    var cmd := BitsValue(w, 0, 8);
    Opt(cmd == K_OUT, SecondByteText(BitsValue(w, 8, 8))) + FirstByteText(cmd)
  }

  // ----- properties of the panel texts -----

  /** Zone z is reported exactly when it lies in the group and its bit is set. */
  lemma {:induction false} ZoneListMember(field: nat, base: nat, k: nat, z: nat)
    ensures z in ZoneList(field, base, k) <==> base <= z < base + k && Bit(field, z - base)
    decreases k
  {
    if k > 0 {
      ZoneListMember(field, base, k - 1, z);
    }
  }

  /** Zones are reported in strictly ascending order, each at most once. */
  lemma {:induction false} ZoneListAscending(field: nat, base: nat, k: nat)
    ensures forall i, j :: 0 <= i < j < |ZoneList(field, base, k)| ==>
              ZoneList(field, base, k)[i] < ZoneList(field, base, k)[j]
    ensures forall i :: 0 <= i < |ZoneList(field, base, k)| ==> ZoneList(field, base, k)[i] < base + k
    decreases k
  {
    if k > 0 {
      ZoneListAscending(field, base, k - 1);
    }
  }

  /** No zone is reported exactly when the zone byte is 0, which is when
      "Ready " is appended. */
  lemma ZonesEmptyIffClear(field: nat, base: nat)
    requires field < 256
    ensures Zones(field, base) == [] <==> field == 0
  {
    if Zones(field, base) == [] {
      forall k | 0 <= k < 8
        ensures Bit(field, k) <==> Bit(0, k)
      {
        ZoneListMember(field, base, 8, base + k);
        ZeroHasNoBits(k);
      }
      assert Power(2, 8) == 256;
      BitsDetermine(field, 0, 8);
    } else {
      var z := Zones(field, base)[0];
      ZoneListMember(field, base, 8, z);
      ZeroHasNoBits(z - base);
    }
  }

  lemma {:induction false} ZeroHasNoBits(k: nat)
    ensures !Bit(0, k)
  {
    if k > 0 {
      ZeroHasNoBits(k - 1);
    }
  }

  /** Read against the word itself: zone base + j is reported exactly when the
      character at 48 - j, bit j of the zone byte, is '1'. */
  lemma ZoneReported(w: string, base: nat, z: nat)
    ensures z in Zones(BitsValue(w, ZONE_OFFSET, 8), base) <==>
              base <= z < base + 8 && BitAt(w, ZONE_OFFSET + 7 - (z - base)) == 1
  {
    ZoneListMember(BitsValue(w, ZONE_OFFSET, 8), base, 8, z);
    if base <= z < base + 8 {
      BitOfValue(w, ZONE_OFFSET, 8, z - base);
    }
  }

  /** The year glues the decimal texts of the two year digits: "1" and "5"
      give 15, "2" and "11" give 211. */
  lemma YearDigits(y3: nat, y4: nat)
    requires y4 < 100
    ensures YearValue(y3, y4) == y3 * (if y4 < 10 then 10 else 100) + y4
  {
    ParseConcat(Digits(y3, 10), Digits(y4, 10), 10);
    DecimalDigits(y3);
    DecimalDigits(y4);
    DecimalLength(y4);
  }

  /** Disarmed or other codes: a raw field of 0-31 gives user 1-32, 32 and 33
      give 33 and 34, and 34-36 give the system codes 40-42. */
  lemma UserCodes(arm: nat, raw: byte)
    requires arm > 0 && arm != 2 && raw <= 36
    ensures UserNumber(arm, raw) == if raw < 34 then raw + 1 else raw + 6
    ensures 1 <= UserNumber(arm, raw) <= 34 || 40 <= UserNumber(arm, raw) <= 42
  {
  }

  /** When arming, the raw field carries the user offset by 0x19, which the
      subtraction removes before the same numbering. */
  lemma ArmedUserCodes(raw: byte)
    requires 0x19 <= raw <= 0x19 + 36
    ensures UserNumber(2, raw) == UserNumber(3, raw - 0x19)
  {
  }

  /** Below 0x19 the byte subtraction wraps: raw 0x18 reports user 0, raw 0
      reports user 237. */
  lemma ArmedUserWraps()
    ensures UserNumber(2, 0x18) == 0
    ensures UserNumber(2, 0) == 237
  {
  }

  /** Every command byte decodePanel knows yields a non-empty text, and every
      other command yields none. */
  lemma PanelTextKnown(w: string, synced: bool)
    ensures PanelText(w, synced) != "" <==> BitsValue(w, 0, 8) in PANEL_COMMANDS
  {
    var cmd := BitsValue(w, 0, 8);
    if cmd in PANEL_COMMANDS {
      assert PanelText(w, synced)[0] == '[';
    }
  }

  // ----- properties of the keypad texts -----

  /** In a list without repeats, each entry is found at its own position. */
  lemma IndexOfDistinct(s: seq<byte>, i: nat)
    requires Distinct(s) && i < |s|
    ensures IndexOf(s, s[i]) == i
  {
  }

  /** Every second-byte button gets its own label: no earlier test of the
      else-if chain shadows a later one. */
  lemma ButtonLabelled(i: nat)
    requires i < |SECOND_BYTE_BUTTONS|
    ensures SecondByteText(SECOND_BYTE_BUTTONS[i]) == "[Button] " + BUTTON_LABELS[i]
  {
    SecondByteButtonsDistinct();
    IndexOfDistinct(SECOND_BYTE_BUTTONS, i);
  }

  /** A second byte of kOut is the keypad's response, not a button. */
  lemma KeypadResponse()
    ensures SecondByteText(K_OUT) == "[Keypad Response]"
  {
    SecondByteButtonsDistinct();
  }

  /** Any other second byte is reported in lower-case hexadecimal, and the
      digits read back as the byte. */
  lemma UnknownSecondByte(b2: byte)
    requires b2 !in SECOND_BYTE_BUTTONS && b2 != K_OUT
    ensures SecondByteText(b2) == "[Keypad] 0x" + Digits(b2, 16) + " (Unknown)"
    ensures Parse(Digits(b2, 16), 16) == b2
  {
    HexDigits(b2);
  }

  /** A keypad word gets at most one label: the second-byte text of a kOut
      word, or one first-byte button, or nothing. */
  lemma KeypadOneLabel(w: string)
    ensures var cmd := BitsValue(w, 0, 8);
      KeypadText(w) ==
        if cmd == K_OUT then SecondByteText(BitsValue(w, 8, 8))
        else if cmd == FIRE then "[Button] Fire"
        else if cmd == AUX then "[Button] Auxillary"
        else if cmd == PANIC then "[Button] Panic"
        else ""
  {
    FirstByteButtonsDistinct();
  }
}
