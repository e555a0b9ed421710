/** pnlChkSum (DSCPanel/DSC.cpp:395-421): a panel word is a command byte, one
    padding bit, then whole data bytes; the last whole byte is meant to be a
    checksum of the bytes before it. */
module PanelChecksum {
  import opened Bits

  /** How many whole eight-bit groups follow the nine-bit header. */
  function Groups(s: string): nat {
    if |s| > 8 then (|s| - 9) / 8 else 0
  }

  /** Group i of the word, starting after the command byte and the padding bit. */
  function GroupByte(s: string, i: nat): nat {
    BitsValue(s, 9 + i * 8, 8)
  }

  /** The command byte plus the first k groups. */
  function PartialSum(s: string, k: nat): nat {
    if k == 0 then BitsValue(s, 0, 8) else PartialSum(s, k - 1) + GroupByte(s, k - 1)
  }

  /** What pnlChkSum accepts: there is at least one group, and the byte
      `(byte)(sum / 256)` of the command byte and all groups but the last equals
      the last group. */
  predicate QuotientCheck(s: string) {
    Groups(s) >= 1 && (PartialSum(s, Groups(s) - 1) / 256) % 256 == GroupByte(s, Groups(s) - 1)
  }

  /** The check the comments and the variable name `cSumMod` describe: the sum
      of the earlier bytes modulo 256 equals the last group. */
  predicate ModuloCheck(s: string) {
    Groups(s) >= 1 && PartialSum(s, Groups(s) - 1) % 256 == GroupByte(s, Groups(s) - 1)
  }

  /** pnlChkSum as written: 1 when the quotient check holds, else 0. */
  method PnlChkSum(s: string) returns (r: nat)
    ensures r == if QuotientCheck(s) then 1 else 0
  {
    var cSum := 0;
    if |s| > 8 {
      var head := BinToInt(s, 0, 8);
      cSum := cSum + head;
      var grps := (|s| - 9) / 8;
      for i := 0 to grps
        invariant i < grps ==> cSum == PartialSum(s, i)
        invariant i == grps ==> !QuotientCheck(s)
      {
        if i < grps - 1 {
          var group := BinToInt(s, 9 + i * 8, 8);
          SumStep(s, i);
          cSum := cSum + group;
        } else {
          var cSumMod := (cSum / 256) % 256;
          var lastByte := BinToInt(s, 9 + i * 8, 8);
          LastGroupDecides(s, i);
          if cSumMod == lastByte {
            return 1;
          }
        }
      }
    }
    return 0;
  }

  lemma SumStep(s: string, i: nat)
    ensures PartialSum(s, i + 1) == PartialSum(s, i) + BitsValue(s, 9 + i * 8, 8)
  {
  }

  lemma LastGroupDecides(s: string, i: nat)
    requires i + 1 == Groups(s)
    ensures QuotientCheck(s) <==> (PartialSum(s, i) / 256) % 256 == BitsValue(s, 9 + i * 8, 8)
  {
  }

  /** A word of fewer than 17 bits holds no whole group and is always rejected. */
  lemma ShortWordRejected(s: string)
    requires |s| < 17
    ensures !QuotientCheck(s) && !ModuloCheck(s)
  {
  }

  // ----- frames built from bytes -----

  /** The bit text of a run of bytes, each eight bits, most significant first. */
  function BytesText(ds: seq<byte>): (s: string)
    ensures |s| == 8 * |ds|
  {
    if ds == [] then "" else ByteBits(ds[0]) + BytesText(ds[1..])
  }

  /** A panel word: command byte, padding bit, data bytes. */
  function Frame(cmd: byte, pad: bool, ds: seq<byte>): (s: string)
    ensures |s| == 9 + 8 * |ds|
  {
    ByteBits(cmd) + [BitChar(pad)] + BytesText(ds)
  }

  function Sum(ds: seq<byte>): nat {
    if ds == [] then 0 else Sum(ds[..|ds| - 1]) + ds[|ds| - 1]
  }

  /** Byte i of a run is read back from offset i * 8. */
  lemma {:induction false} BytesTextValue(ds: seq<byte>, i: nat)
    requires i < |ds|
    ensures BitsValue(BytesText(ds), i * 8, 8) == ds[i]
    decreases i
  {
    var p := ByteBits(ds[0]);
    assert BytesText(ds) == p + BytesText(ds[1..]);
    if i == 0 {
      BitsPrefix(p, BytesText(ds[1..]), 0, 8);
      ByteBitsValue(ds[0]);
    } else {
      BytesTextValue(ds[1..], i - 1);
      BitsShift(p, BytesText(ds[1..]), (i - 1) * 8, 8);
    }
  }

  /** The decoder's view of a frame: its groups are exactly the data bytes. */
  lemma FrameFields(cmd: byte, pad: bool, ds: seq<byte>)
    ensures Groups(Frame(cmd, pad, ds)) == |ds|
    ensures BitsValue(Frame(cmd, pad, ds), 0, 8) == cmd
    ensures forall i :: 0 <= i < |ds| ==> GroupByte(Frame(cmd, pad, ds), i) == ds[i]
  {
    var head := ByteBits(cmd) + [BitChar(pad)];
    var s := Frame(cmd, pad, ds);
    assert s == ByteBits(cmd) + ([BitChar(pad)] + BytesText(ds));
    BitsPrefix(ByteBits(cmd), [BitChar(pad)] + BytesText(ds), 0, 8);
    ByteBitsValue(cmd);
    forall i | 0 <= i < |ds|
      ensures GroupByte(s, i) == ds[i]
    {
      BytesTextValue(ds, i);
      BitsShift(head, BytesText(ds), i * 8, 8);
    }
  }

  /** The running sum of a frame is the command byte plus the leading data bytes. */
  lemma {:induction false} FrameSum(cmd: byte, pad: bool, ds: seq<byte>, k: nat)
    requires k <= |ds|
    ensures PartialSum(Frame(cmd, pad, ds), k) == cmd + Sum(ds[..k])
    decreases k
  {
    FrameFields(cmd, pad, ds);
    if k > 0 {
      FrameSum(cmd, pad, ds, k - 1);
      assert ds[..k][..k - 1] == ds[..k - 1];
    }
  }

  /** What both checks look at in a frame that ends in the byte `last`. */
  lemma SealedView(cmd: byte, pad: bool, ds: seq<byte>, last: byte)
    ensures Groups(Frame(cmd, pad, ds + [last])) == |ds| + 1
    ensures PartialSum(Frame(cmd, pad, ds + [last]), |ds|) == cmd + Sum(ds)
    ensures GroupByte(Frame(cmd, pad, ds + [last]), |ds|) == last
  {
    var all := ds + [last];
    FrameFields(cmd, pad, all);
    FrameSum(cmd, pad, all, |ds|);
    assert all[..|ds|] == ds;
  }

  /** The intended check accepts a frame exactly when its last byte is the
      modulo-256 sum of the command byte and the other data bytes; in
      particular a frame sealed with that byte is accepted. */
  lemma ModuloCheckMeaning(cmd: byte, pad: bool, ds: seq<byte>, last: byte)
    ensures ModuloCheck(Frame(cmd, pad, ds + [last])) <==> last == (cmd + Sum(ds)) % 256
  {
    SealedView(cmd, pad, ds, last);
  }

  /** The check as written accepts a frame exactly when its last byte is the
      quotient of that sum by 256. */
  lemma QuotientCheckMeaning(cmd: byte, pad: bool, ds: seq<byte>, last: byte)
    ensures QuotientCheck(Frame(cmd, pad, ds + [last])) <==> last == ((cmd + Sum(ds)) / 256) % 256
  {
    SealedView(cmd, pad, ds, last);
  }

  /** The check as written rejects every correctly sealed frame whose byte sum
      is between 1 and 255: the quotient of such a sum by 256 is 0. */
  lemma QuotientRejectsSealedFrame(cmd: byte, pad: bool, ds: seq<byte>, last: byte)
    requires last == cmd + Sum(ds) && last > 0
    ensures ModuloCheck(Frame(cmd, pad, ds + [last]))
    ensures !QuotientCheck(Frame(cmd, pad, ds + [last]))
  {
    ModuloCheckMeaning(cmd, pad, ds, last);
    QuotientCheckMeaning(cmd, pad, ds, last);
  }

  /** The concrete instance: command 0x05, one data byte 0x01, checksum 0x06. */
  lemma StatusFrameMisjudged()
    ensures ModuloCheck(Frame(0x05, false, [0x01, 0x06]))
    ensures !QuotientCheck(Frame(0x05, false, [0x01, 0x06]))
  {
    assert Sum([0x01]) == 1;
    assert [0x01] + [0x06] == [0x01, 0x06];
    QuotientRejectsSealedFrame(0x05, false, [0x01], 0x06);
  }
}
