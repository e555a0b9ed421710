/** The decoder's state and the routines that change it (DSCPanel/DSC.cpp):
    the clock-edge interrupt handler that samples bits into the building words,
    process() that closes a panel word, and the two decoders that turn the
    closed words into message text. The fields are those of dscGlobal
    (DSCPanel/DSC_Globals.h); the pins, the serial port and the clock are not
    modelled, their readings come in as parameters. */
module KeybusDecoder {
  import opened Radix
  import opened Bits
  import opened KeybusConstants
  import opened KeybusMessages
  import opened Options

  /** Arduino's `unsigned long` wraps modulo 2^32. */
  const ULONG_MOD: nat := 0x1_0000_0000
  type ulong = x: int | 0 <= x < 0x1_0000_0000

  /** `now - last` in unsigned long arithmetic: the time since `last` on a
      counter that may have wrapped once. */
  function Elapsed(now: ulong, last: ulong): ulong {
    if now >= last then now - last else now + ULONG_MOD - last
  }

  /** Elapsed is the unsigned subtraction: the difference taken modulo 2^32. */
  lemma ElapsedIsUnsignedDifference(now: ulong, last: ulong)
    ensures Elapsed(now, last) == (now - last) % ULONG_MOD
    ensures (last + Elapsed(now, last)) % ULONG_MOD == now
  {
  }

  /** A time stamp taken d ticks after `start`, with d below 2^32, is found d
      ticks later by Elapsed even when the counter wrapped in between. */
  lemma ElapsedAcrossWrap(start: nat, d: nat)
    requires d < ULONG_MOD
    ensures Elapsed((start + d) % ULONG_MOD, start % ULONG_MOD) == d
  {
    var s := start % ULONG_MOD;
    var q := start / ULONG_MOD;
    assert start == q * ULONG_MOD + s;
    if s + d < ULONG_MOD {
      assert (start + d) % ULONG_MOD == s + d by {
        assert start + d == q * ULONG_MOD + (s + d);
      }
    } else {
      assert (start + d) % ULONG_MOD == s + d - ULONG_MOD by {
        assert start + d == (q + 1) * ULONG_MOD + (s + d - ULONG_MOD);
      }
    }
  }

  /** A building word takes one more bit only while it holds at most MAX_BITS. */
  function AppendBit(build: string, high: bool): (r: string)
    ensures |build| <= MAX_BITS ==> r == build + [BitChar(high)]
    ensures |build| > MAX_BITS ==> r == build
  {
    if |build| <= MAX_BITS then build + [BitChar(high)] else build
  }

  /** Bit strings stay bit strings under AppendBit, and never exceed MAX_BITS + 1
      characters once they start within that bound. */
  lemma AppendBitBounded(build: string, high: bool)
    requires IsBits(build) && |build| <= MAX_BITS + 1
    ensures IsBits(AppendBit(build, high)) && |AppendBit(build, high)| <= MAX_BITS + 1
    ensures build <= AppendBit(build, high)
  {
  }

  /** decodePanel accepts a word that differs from the last accepted one and
      whose command byte is not 0. */
  predicate PanelAccepted(w: string, previous: string) {
    w != previous && BitsValue(w, 0, 8) != 0
  }

  /** decodeKeypad accepts a word that holds a '0'; an idle keypad line reads
      as all ones. */
  predicate KeypadAccepted(w: string) {
    '0' in w
  }

  /** The command byte decodePanel returns: 0 for a rejected word. */
  function PanelCmd(w: string, previous: string): byte {
    assert Power(2, 8) == 256;
    if PanelAccepted(w, previous) then BitsValue(w, 0, 8) else 0
  }

  /** The text decodePanel appends. */
  function PanelMsg(w: string, previous: string, synced: bool): string {
    if PanelAccepted(w, previous) then PanelText(w, synced) else ""
  }

  /** The fields decodePanel hands to setTime, if it calls it. */
  function PanelClock(w: string, previous: string): Option<ClockFields> {
    if PanelAccepted(w, previous) && BitsValue(w, 0, 8) == 0xa5 then Some(ClockOf(w)) else None
  }

  /** The command byte decodeKeypad returns: 0 for a rejected word. */
  function KeypadCmd(w: string): byte {
    assert Power(2, 8) == 256;
    if KeypadAccepted(w) then BitsValue(w, 0, 8) else 0
  }

  /** The text decodeKeypad appends. */
  function KeypadMsg(w: string): string {
    if KeypadAccepted(w) then KeypadText(w) else ""
  }

  /** A time stamp refreshed to `now` when `hit` holds. */
  function Stamp(hit: bool, now: ulong, before: ulong): ulong {
    if hit then now else before
  }

  /** The word kept as the last accepted one. */
  function Remembered(accepted: bool, w: string, before: string): string {
    if accepted then w else before
  }

  /** process()'s return value for the two decoders' results. */
  function ResultCode(pCmd: byte, kCmd: byte): nat {
    if pCmd != 0 && kCmd != 0 then 3 else if kCmd != 0 then 2 else if pCmd != 0 then 1 else 0
  }

  /** The code has bit 0 set for a decoded panel word and bit 1 for a decoded
      keypad word. */
  lemma ResultCodeBits(pCmd: byte, kCmd: byte)
    ensures ResultCode(pCmd, kCmd) == (if pCmd != 0 then 1 else 0) + (if kCmd != 0 then 2 else 0)
    ensures ResultCode(pCmd, kCmd) % 2 == 1 <==> pCmd != 0
    ensures ResultCode(pCmd, kCmd) / 2 == 1 <==> kCmd != 0
  {
  }

  // ----- the message blocks, step by step -----

  /** The if-chain at the end of process() (DSC.cpp:111-114). */
  method CombineResults(pCmd: byte, kCmd: byte) returns (code: nat)
    ensures code == ResultCode(pCmd, kCmd)
  {
    if pCmd != 0 && kCmd != 0 {
      code := 3;
    } else if kCmd != 0 {
      code := 2;
    } else if pCmd != 0 {
      code := 1;
    } else {
      code := 0;
    }
  }

  /** One `if (binToInt(w, k, 1)) msg += text;` step. */
  method AppendFlag(m: string, w: string, k: nat, text: string) returns (r: string)
    ensures r == m + Opt(Flag(w, k), text)
  {
    var f := BinToInt(w, k, 1);
    if f != 0 {
      r := m + text;
    } else {
      r := m;
    }
  }

  /** The status block of decodePanel (DSC.cpp:131-146). */
  method StatusMessage(w: string) returns (m: string)
    ensures m == StatusText(StatusOf(w))
  {
    m := "[Status] ";
    var ready := BinToInt(w, 16, 1);
    if ready != 0 { m := m + "Ready"; } else { m := m + "Not Ready"; }
    m := AppendFlag(m, w, 12, ", Error");
    m := AppendFlag(m, w, 13, ", Bypass");
    m := AppendFlag(m, w, 14, ", Memory");
    m := AppendFlag(m, w, 15, ", Armed");
    m := AppendFlag(m, w, 17, ", Program");
    m := AppendFlag(m, w, 29, ", Power Fail");
  }

  /** The byte arithmetic on `user` (DSC.cpp:171-187). */
  method AdjustUser(arm: nat, raw: byte) returns (user: byte)
    ensures user == UserNumber(arm, raw)
  {
    user := raw;
    if arm == 2 {
      user := (user - 0x19) % 256;
    }
    if arm > 0 {
      user := (user + 1) % 256;
      if user > 34 {
        user := (user + 5) % 256;
      }
    }
  }

  /** The arming part of the info block (DSC.cpp:171-187). */
  method ArmMessage(arm: nat, master: nat, raw: byte) returns (t: string)
    ensures t == ArmText(arm, master != 0, raw)
  {
    var user := AdjustUser(arm, raw);
    t := "";
    if arm == 2 { t := t + ", Armed"; }
    var disarmed := if arm == 3 then ", Disarmed" else "";
    t := t + disarmed;
    var code := "";
    if arm > 0 {
      if master != 0 { code := ", Master Code"; } else { code := ", User Code"; }
      code := code + " " + Digits(user, 10);
    }
    t := t + code;
  }

  /** The date, time and arming block of decodePanel (DSC.cpp:148-188): the
      message text and the fields handed to setTime. `synced` is what
      timeStatus() reports after setTime. */
  method InfoMessage(w: string, synced: bool) returns (m: string, clock: ClockFields)
    ensures m == InfoText(w, synced)
    ensures clock == ClockOf(w)
  {
    m := "[Info] ";
    var y3 := BinToInt(w, 9, 4);
    var y4 := BinToInt(w, 13, 4);
    var yy := Parse(Digits(y3, 10) + Digits(y4, 10), 10);
    var mm := BinToInt(w, 19, 4);
    var dd := BinToInt(w, 23, 5);
    var hh := BinToInt(w, 28, 5);
    var mi := BinToInt(w, 33, 6);
    clock := ClockFields(hh, mi, 0, dd, mm, yy);
    if synced { m := m + "Time Sync "; } else { m := m + "Time Sync Error "; }
    var arm := BinToInt(w, 41, 2);
    var master := BinToInt(w, 43, 1);
    var raw := BinToInt(w, 43, 6);
    assert Power(2, 6) == 64;
    var t := ArmMessage(arm, master, raw);
    m := m + t;
  }

  /** One more bit test prints the next zone number when the bit is set and
      nothing otherwise. */
  lemma ZoneTextStep(field: nat, base: nat, j: nat)
    ensures Bit(field, j) ==>
      DecimalList(ZoneList(field, base, j + 1)) == DecimalList(ZoneList(field, base, j)) + Digits(base + j, 10)
    ensures !Bit(field, j) ==>
      DecimalList(ZoneList(field, base, j + 1)) == DecimalList(ZoneList(field, base, j))
  {
    var zs := ZoneList(field, base, j);
    if Bit(field, j) {
      assert ZoneList(field, base, j + 1) == zs + [base + j];
      assert (zs + [base + j])[..|zs|] == zs;
    } else {
      assert ZoneList(field, base, j + 1) == zs;
    }
  }

  /** A zone block of decodePanel (DSC.cpp:190-248): eight bit tests in
      ascending order, then "Ready " when no bit is set. */
  method ZonesMessage(w: string, title: string, base: nat) returns (m: string)
    ensures m == ZoneText(title, BitsValue(w, ZONE_OFFSET, 8), base)
  {
    var zones := BinToInt(w, ZONE_OFFSET, 8);
    var numbers := "";
    for j := 0 to 8
      invariant numbers == DecimalList(ZoneList(zones, base, j))
    {
      ZoneTextStep(zones, base, j);
      if Bit(zones, j) {
        numbers := numbers + Digits(base + j, 10);
      }
    }
    m := title + numbers;
    if zones == 0 { m := m + "Ready "; }
  }

  /** The text decodePanel appends for an accepted word, block by block. */
  method PanelMessage(w: string, synced: bool) returns (m: string, clock: Option<ClockFields>)
    ensures m == PanelText(w, synced)
    ensures clock == if BitsValue(w, 0, 8) == 0xa5 then Some(ClockOf(w)) else None
  {
    var cmd := BinToInt(w, 0, 8);
    m := "";
    clock := None;
    if cmd == 0x05 {
      m := StatusMessage(w);
    } else if cmd == 0xa5 {
      var c;
      m, c := InfoMessage(w, synced);
      clock := Some(c);
    } else if cmd == 0x27 {
      m := ZonesMessage(w, "[Zones A] ", 1);
    } else if cmd == 0x2d {
      m := ZonesMessage(w, "[Zones B] ", 9);
    } else if cmd == 0x34 {
      m := ZonesMessage(w, "[Zones C] ", 17);
    } else if cmd == 0x3e {
      m := ZonesMessage(w, "[Zones D] ", 25);
    } else if cmd == 0x11 {
      m := "[Keypad Query] ";
    } else if cmd == 0x0a {
      m := "[Panel Program Mode] ";
    } else if cmd == 0x5d {
      m := "[Alarm Memory Group 1] ";
    } else if cmd == 0x63 {
      m := "[Alarm Memory Group 2] ";
    } else if cmd == 0x64 {
      m := "[Beep Command Group 1] ";
    } else if cmd == 0x69 {
      m := "[Beep Command Group 2] ";
    } else if cmd == 0x39 {
      m := "[Undefined command from panel] ";
    } else if cmd == 0xb1 {
      m := "[Zone Configuration] ";
    }
  }

  /** The text decodeKeypad appends for an accepted word (DSC.cpp:293-347). */
  method KeypadMessage(w: string) returns (m: string)
    ensures m == KeypadText(w)
  {
    var cmd := BinToInt(w, 0, 8);
    var kByte2 := BinToInt(w, 8, 8);
    assert Power(2, 8) == 256;
    m := "";
    if cmd == K_OUT {
      m := m + SecondByteText(kByte2);
    }
    var first := "";
    if cmd == FIRE { first := first + "[Button] Fire"; }
    if cmd == AUX { first := first + "[Button] Auxillary"; }
    if cmd == PANIC { first := first + "[Button] Panic"; }
    m := m + first;
  }

  /** zeroArr (DSC.cpp:443-447): clears the first ARR_SIZE entries. */
  method ZeroArr(a: array<byte>)
    requires a.Length >= ARR_SIZE
    modifies a
    ensures forall i :: 0 <= i < ARR_SIZE ==> a[i] == 0
    ensures forall i :: ARR_SIZE <= i < a.Length ==> a[i] == old(a[i])
  {
    for i := 0 to ARR_SIZE
      invariant forall k :: 0 <= k < i ==> a[k] == 0
      invariant forall k :: ARR_SIZE <= k < a.Length ==> a[k] == old(a[k])
    {
      a[i] := 0;
    }
  }

  /** dscGlobal together with the DSC object's routines. Times are in
      microseconds for the interrupt handler and milliseconds for the rest,
      as micros() and millis() report them. */
  class Dsc {
    var pBuild: string
    var pWord: string
    var oldPWord: string
    var pMsg: string
    var kBuild: string
    var kWord: string
    var oldKWord: string
    var kMsg: string
    var pCmd: byte
    var kCmd: byte
    var lastStatus: ulong
    var lastData: ulong
    var intervalTimer: ulong
    var clockChange: ulong
    var lastChange: ulong

    /** The words hold only '0' and '1' and never grow past MAX_BITS + 1
        characters. */
    ghost predicate Valid()
      reads this`pBuild, this`pWord, this`kBuild, this`kWord
    {
      IsBits(pBuild) && IsBits(pWord) && IsBits(kBuild) && IsBits(kWord)
      && |pBuild| <= MAX_BITS + 1 && |pWord| <= MAX_BITS + 1
      && |kBuild| <= MAX_BITS + 1 && |kWord| <= MAX_BITS + 1
    }

    /** DSC::DSC (DSC.cpp:25-57): times 0, every word and message empty. */
    constructor ()
      ensures Valid()
      ensures pBuild == pWord == oldPWord == pMsg == ""
      ensures kBuild == kWord == oldKWord == kMsg == ""
      ensures pCmd == 0 && kCmd == 0
      ensures lastStatus == 0 && lastData == 0
      ensures intervalTimer == 0 && clockChange == 0 && lastChange == 0
    {
      intervalTimer, clockChange, lastChange := 0, 0, 0;
      lastStatus, lastData := 0, 0;
      pBuild, pWord, oldPWord, pMsg := "", "", "", "";
      kBuild, kWord, oldKWord, kMsg := "", "", "", "";
      pCmd, kCmd := 0, 0;
    }

    /** clkCalled_Handler (DSC.cpp:360-389), run on every clock-line change at
        time `now` (micros()). A gap longer than KEYPAD_GAP closes the keypad
        word; a rising edge samples the data line into the panel word, a
        falling edge into the keypad word. */
    method ClockEdge(now: ulong, clockHigh: bool, dataHigh: bool)
      requires Valid()
      modifies this`clockChange, this`intervalTimer, this`lastChange, this`kWord, this`kBuild, this`pBuild
      ensures Valid()
      ensures clockChange == now && lastChange == now
      ensures intervalTimer == Elapsed(now, old(lastChange))
      ensures kWord == if intervalTimer > KEYPAD_GAP then old(kBuild) else old(kWord)
      ensures var kept := if intervalTimer > KEYPAD_GAP then "" else old(kBuild);
        kBuild == if clockHigh then kept else AppendBit(kept, dataHigh)
      ensures pBuild == if clockHigh then AppendBit(old(pBuild), dataHigh) else old(pBuild)
    {
      clockChange := now;
      intervalTimer := Elapsed(clockChange, lastChange);
      if intervalTimer > KEYPAD_GAP {
        kWord := kBuild;
        kBuild := "";
      }
      lastChange := clockChange;
      if clockHigh {
        AppendBitBounded(pBuild, dataHigh);
        if |pBuild| <= MAX_BITS {
          if dataHigh { pBuild := pBuild + "1"; } else { pBuild := pBuild + "0"; }
        }
      } else {
        AppendBitBounded(kBuild, dataHigh);
        if |kBuild| <= MAX_BITS {
          if dataHigh { kBuild := kBuild + "1"; } else { kBuild := kBuild + "0"; }
        }
      }
    }

    /** decodePanel (DSC.cpp:117-277) at time `now` (millis()). */
    method DecodePanel(now: ulong, synced: bool) returns (cmd: byte, clock: Option<ClockFields>)
      modifies this`lastData, this`oldPWord, this`lastStatus, this`pMsg
      ensures cmd == PanelCmd(pWord, old(oldPWord))
      ensures clock == PanelClock(pWord, old(oldPWord))
      ensures pMsg == old(pMsg) + PanelMsg(pWord, old(oldPWord), synced)
      ensures oldPWord == Remembered(PanelAccepted(pWord, old(oldPWord)), pWord, old(oldPWord))
      ensures lastData == Stamp(PanelAccepted(pWord, old(oldPWord)), now, old(lastData))
      ensures lastStatus == Stamp(cmd == 0x05, now, old(lastStatus))
    {
      var c := BinToInt(pWord, 0, 8);
      assert Power(2, 8) == 256;
      if pWord == oldPWord || c == 0 {
        return 0, None;
      }
      lastData := now;
      oldPWord := pWord;
      if c == 0x05 {
        lastStatus := now;
      }
      var m;
      m, clock := PanelMessage(pWord, synced);
      pMsg := pMsg + m;
      return c, clock;
    }

    /** decodeKeypad (DSC.cpp:279-352) at time `now` (millis()). Unlike the
        panel word, the keypad word is not compared with oldKWord. */
    method DecodeKeypad(now: ulong) returns (cmd: byte)
      modifies this`lastData, this`oldKWord, this`kMsg
      ensures cmd == KeypadCmd(kWord)
      ensures kMsg == old(kMsg) + KeypadMsg(kWord)
      ensures oldKWord == Remembered(KeypadAccepted(kWord), kWord, old(oldKWord))
      ensures lastData == Stamp(KeypadAccepted(kWord), now, old(lastData))
    {
      var c := BinToInt(kWord, 0, 8);
      assert Power(2, 8) == 256;
      if '0' !in kWord {
        return 0;
      }
      lastData := now;
      oldKWord := kWord;
      var m := KeypadMessage(kWord);
      kMsg := kMsg + m;
      return c;
    }

    /** The state once both decoders have run on the closed words, in terms of
        the fields as they were before: the commands, messages and time stamps
        the decoders set and the result code process() derives from them. */
    ghost predicate Decoded(now: ulong, synced: bool, previousP: string, previousK: string,
                            status0: ulong, data0: ulong, msgP0: string, msgK0: string,
                            code: nat, clock: Option<ClockFields>)
      reads this`pWord, this`kWord, this`pCmd, this`kCmd, this`pMsg, this`kMsg
      reads this`oldPWord, this`oldKWord, this`lastStatus, this`lastData
    {
      pCmd == PanelCmd(pWord, previousP) && kCmd == KeypadCmd(kWord)
      && pMsg == msgP0 + PanelMsg(pWord, previousP, synced) && kMsg == msgK0 + KeypadMsg(kWord)
      && clock == PanelClock(pWord, previousP)
      && code == ResultCode(pCmd, kCmd)
      && oldPWord == Remembered(PanelAccepted(pWord, previousP), pWord, previousP)
      && oldKWord == Remembered(KeypadAccepted(kWord), kWord, previousK)
      && lastStatus == Stamp(pCmd == 0x05, now, status0)
      && lastData == Stamp(KeypadAccepted(kWord), now, Stamp(PanelAccepted(pWord, previousP), now, data0))
    }

    /** The end of process() (DSC.cpp:107-114): run both decoders, appending
        to the cleared messages, and combine their results. */
    method DecodeWords(now: ulong, synced: bool) returns (code: nat, clock: Option<ClockFields>)
      modifies this`pMsg, this`kMsg, this`pCmd, this`kCmd
      modifies this`lastData, this`lastStatus, this`oldPWord, this`oldKWord
      ensures Decoded(now, synced, old(oldPWord), old(oldKWord), old(lastStatus), old(lastData), old(pMsg), old(kMsg), code, clock)
    {
      pCmd, clock := DecodePanel(now, synced);
      kCmd := DecodeKeypad(now);
      code := CombineResults(pCmd, kCmd);
    }

    /** process() (DSC.cpp:81-115) at time `now` (millis()). `ledOn` is the
        level written to the LED pin: on within 500 ms of the last status
        word. A word is closed only after a gap of PANEL_GAP and with at least
        eight bits collected; otherwise nothing changes and the result is 0.
        `clock` is what the panel decoder passed to setTime. */
    method Process(now: ulong, synced: bool) returns (code: nat, ledOn: bool, clock: Option<ClockFields>)
      requires Valid()
      modifies this`pWord, this`pBuild, this`pMsg, this`kMsg, this`pCmd, this`kCmd
      modifies this`lastData, this`lastStatus, this`oldPWord, this`oldKWord
      ensures Valid()
      ensures ledOn <==> Elapsed(now, old(lastStatus)) <= 500
      ensures old(intervalTimer) < PANEL_GAP || |old(pBuild)| < 8 ==>
        code == 0 && clock == None && unchanged(this)
      ensures old(intervalTimer) >= PANEL_GAP && |old(pBuild)| >= 8 ==>
        pWord == old(pBuild) && pBuild == ""
        && Decoded(now, synced, old(oldPWord), old(oldKWord), old(lastStatus), old(lastData), "", "", code, clock)
    {
      ledOn := !(Elapsed(now, lastStatus) > 500);
      if intervalTimer < PANEL_GAP || |pBuild| < 8 {
        return 0, ledOn, None;
      }
      ghost var previousP, previousK, status0, data0 := oldPWord, oldKWord, lastStatus, lastData;
      pWord := pBuild;
      pBuild := "";
      pMsg := "";
      kMsg := "";
      kCmd := 0;
      code, clock := DecodeWords(now, synced);
      assert Decoded(now, synced, previousP, previousK, status0, data0, "", "", code, clock);
    }
  }

  /** With no clock edge in between, a second process() finds fewer than eight
      bits collected (or the same short gap) and reports nothing. */
  method ProcessTwice(d: Dsc, now1: ulong, now2: ulong, synced: bool) returns (first: nat, second: nat)
    requires d.Valid()
    modifies d
    ensures second == 0
  {
    var led1, clock1, led2, clock2;
    first, led1, clock1 := d.Process(now1, synced);
    second, led2, clock2 := d.Process(now2, synced);
  }

  /** Decoding the same panel word twice: the second call reports nothing. */
  method DecodePanelTwice(d: Dsc, now1: ulong, now2: ulong, synced: bool) returns (first: byte, second: byte)
    modifies d
    ensures second == 0
  {
    var clock1, clock2;
    first, clock1 := d.DecodePanel(now1, synced);
    second, clock2 := d.DecodePanel(now2, synced);
  }

  /** The keypad decoder keeps no memory of the last word: decoding the same
      keypad word twice reports the same command both times. */
  method DecodeKeypadTwice(d: Dsc, now1: ulong, now2: ulong) returns (first: byte, second: byte)
    modifies d
    ensures second == first
  {
    first := d.DecodeKeypad(now1);
    second := d.DecodeKeypad(now2);
  }
}
