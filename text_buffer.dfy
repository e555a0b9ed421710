/** A fixed-capacity, zero-terminated byte buffer that text is printed into
    (TextBuffer/TextBuffer.cpp, TextBuffer/TextBuffer.h). Allocation is an
    outcome passed in; the raw pointers the C++ class hands out are the
    buffer array itself. */
module TextBuffers {
  import opened Options

  /** Arduino's 32-bit `unsigned int` (the ESP8266 width the alignment is for). */
  const UINT_MOD: nat := 0x1_0000_0000

  /** `(bufSize + 3) & ~3` in unsigned arithmetic: the mask clears the two low
      bits, which is subtracting the remainder by 4. */
  function AlignedSize(n: nat): (r: nat)
    requires n < UINT_MOD
    ensures r % 4 == 0 && r < UINT_MOD
  {
    var m := (n + 3) % UINT_MOD;
    m - m % 4
  }

  /** On 32-bit words, `& ~3` is subtracting the remainder by 4. */
  lemma MaskClearsLowBits(x: bv32)
    ensures x & !3 == x - x % 4
  {
  }

  /** Without overflow the aligned size is the multiple of 4 among the request
      and the three numbers above it. */
  lemma AlignedSizeRoundsUp(n: nat)
    requires n + 3 < UINT_MOD
    ensures n <= AlignedSize(n) < n + 4
  {
  }

  /** The three largest requests overflow `bufSize + 3` and align to 0. */
  lemma AlignedSizeWraps(n: nat)
    requires UINT_MOD - 3 <= n < UINT_MOD
    ensures AlignedSize(n) == 0
  {
  }

  /** strlen: the number of bytes before the first zero, or all of them. */
  function Strlen(s: seq<bv8>): (n: nat)
    ensures n <= |s|
    ensures forall i :: 0 <= i < n ==> s[i] != 0
    ensures n < |s| ==> s[n] == 0
  {
    if s == [] then 0 else if s[0] == 0 then 0 else 1 + Strlen(s[1..])
  }

  /** k zero bytes. */
  function Zeros(k: nat): (z: seq<bv8>)
    ensures |z| == k
  {
    seq(k, _ => 0)
  }

  /** The bytes of a sequence, zero bytes left out. */
  function NonZero(s: seq<bv8>): (r: seq<bv8>)
    ensures |r| <= |s|
  {
    if s == [] then []
    else NonZero(s[..|s| - 1]) + (if s[|s| - 1] != 0 then [s[|s| - 1]] else [])
  }

  /** How many bytes of `data`, from index `from` on, write(buffer, size)
      accepts into a buffer of the given capacity holding `size` bytes: each is
      accepted while one more byte and the terminator fit; a zero byte is
      accepted without taking room. */
  function Accepted(size: nat, capacity: nat, data: seq<bv8>, from: nat): (n: nat)
    requires from <= |data|
    ensures n <= |data| - from
    decreases |data| - from
  {
    if from == |data| || size + 1 >= capacity then 0
    else 1 + Accepted(size + (if data[from] != 0 then 1 else 0), capacity, data, from + 1)
  }

  lemma NonZeroSnoc(data: seq<bv8>, n: nat)
    requires n < |data|
    ensures NonZero(data[..n + 1]) == NonZero(data[..n]) + (if data[n] != 0 then [data[n]] else [])
  {
    assert data[..n + 1][..n] == data[..n];
  }

  /** XOR of all bytes. */
  function XorAll(s: seq<bv8>): bv8 {
    if s == [] then 0 else XorAll(s[..|s| - 1]) ^ s[|s| - 1]
  }

  /** What getCheckSum computes for a stored text: the XOR of all bytes but
      the first and the last. */
  function SentenceChecksum(text: seq<bv8>): bv8 {
    if |text| >= 2 then XorAll(text[1..|text| - 1]) else 0
  }

  const DOLLAR: bv8 := 0x24
  const STAR: bv8 := 0x2a

  class TextBuffer {
    /** null until begin() succeeds. */
    var buffer: array?<bv8>
    /** The aligned size requested at construction (`_bufSize`). */
    var bufSize: nat
    var capacity: nat
    /** Reset by begin() and clear(); otherwise unused. */
    var position: nat
    /** The stored text: the bytes before the terminator. */
    ghost var text: seq<bv8>

    /** The aligned size is a multiple of 4; an allocated buffer has that many
        bytes and holds the text, without zero bytes, followed by zeros up to
        the end (at least one: the terminator). */
    ghost predicate Valid()
      reads this, buffer
    {
      bufSize < UINT_MOD && bufSize % 4 == 0
      && (buffer == null ==> text == [])
      && (buffer != null ==>
            buffer.Length == capacity && capacity == bufSize
            && |text| < capacity && 0 !in text
            && buffer[..] == text + Zeros(capacity - |text|))
    }

    /** TextBuffer(bufSize) (TextBuffer.cpp:4-8): records the aligned size; no
        memory is taken yet. */
    constructor (requested: nat)
      requires requested < UINT_MOD
      ensures Valid()
      ensures bufSize == AlignedSize(requested) && buffer == null
      ensures capacity == 0 && position == 0
    {
      bufSize := AlignedSize(requested);
      buffer := null;
      capacity := 0;
      position := 0;
      text := [];
    }

    /** begin() (TextBuffer.cpp:10-19). `allocOk` is whether malloc found
        the memory; a zero-byte request is treated as a failed allocation. On
        success the whole buffer is zeroed and the capacity returned. */
    method Begin(allocOk: bool) returns (r: nat)
      requires Valid()
      modifies this
      ensures Valid()
      ensures bufSize == old(bufSize)
      ensures allocOk && bufSize > 0 ==>
        buffer != null && fresh(buffer) && capacity == bufSize && position == 0 && r == capacity
        && buffer[..] == Zeros(capacity) && text == []
      ensures !(allocOk && bufSize > 0) ==>
        buffer == null && r == 0 && text == [] && capacity == old(capacity) && position == old(position)
    {
      if !allocOk || bufSize == 0 {
        buffer := null;
        text := [];
        return 0;
      }
      buffer := new bv8[bufSize];
      capacity := bufSize;
      forall i | 0 <= i < capacity {
        buffer[i] := 0;
      }
      position := 0;
      text := [];
      assert buffer[..] == [] + Zeros(capacity);
      return capacity;
    }

    /** getSize() (TextBuffer.cpp:83-87): strlen of the buffer, 0 without one. */
    method GetSize() returns (n: nat)
      requires Valid()
      ensures n == |text|
      ensures buffer != null ==> n < capacity
    {
      if buffer == null {
        return 0;
      }
      TerminatedLength(text, capacity - |text|);
      return Strlen(buffer[..]);
    }

    /** write(character) (TextBuffer.cpp:21-30): stores the byte over the
        terminator when it and a new terminator fit. A zero byte is accepted
        but leaves the text as it was. */
    method Write(c: bv8) returns (n: nat)
      requires Valid()
      modifies this`text, buffer
      ensures Valid()
      ensures buffer == null ==> n == 0
      ensures buffer != null ==> (n == 1 <==> |old(text)| + 1 < capacity) && n <= 1
      ensures n == 1 ==> buffer[..] == old(buffer[..])[|old(text)| := c]
      ensures n == 0 ==> buffer == null || buffer[..] == old(buffer[..])
      ensures text == if n == 1 && c != 0 then old(text) + [c] else old(text)
    {
      if buffer == null {
        return 0;
      }
      var size := GetSize();
      if size + 1 < capacity {
        buffer[size] := c;
        StoreAtTerminator(text, c, capacity - size);
        if c != 0 {
          text := text + [c];
        }
        return 1;
      }
      return 0;
    }

    /** write(wBuffer, size) (TextBuffer.cpp:42-53): writes the bytes in
        order, stops at the first one refused, and returns how many were
        accepted. */
    method WriteBytes(data: seq<bv8>) returns (n: nat)
      requires Valid()
      modifies this`text, buffer
      ensures Valid()
      ensures buffer == null ==> n == 0
      ensures buffer != null ==> n == Accepted(|old(text)|, capacity, data, 0)
      ensures n <= |data|
      ensures text == old(text) + NonZero(data[..n])
    {
      if buffer == null {
        return 0;
      }
      n := 0;
      while n < |data|
        invariant n <= |data|
        invariant Valid() && buffer != null
        invariant n + Accepted(|text|, capacity, data, n) == Accepted(|old(text)|, capacity, data, 0)
        invariant text == old(text) + NonZero(data[..n])
        decreases |data| - n
      {
        ghost var size := |text|;
        var ok := Write(data[n]);
        if ok == 0 {
          break;
        }
        assert |text| == size + if data[n] != 0 then 1 else 0;
        NonZeroSnoc(data, n);
        n := n + 1;
      }
    }

    /** write(str) (TextBuffer.cpp:32-40): a null pointer is refused; otherwise
        the bytes before the string's terminator are written. */
    method WriteString(str: Option<seq<bv8>>) returns (n: nat)
      requires Valid()
      modifies this`text, buffer
      ensures Valid()
      ensures buffer == null || str.None? ==> n == 0 && text == old(text)
      ensures buffer != null && str.Some? ==>
        var s := str.value[..Strlen(str.value)];
        n == Accepted(|old(text)|, capacity, s, 0) && text == old(text) + s[..n]
    {
      if buffer == null {
        return 0;
      }
      if str.None? {
        return 0;
      }
      var s := str.value[..Strlen(str.value)];
      n := WriteBytes(s);
      NonZeroOfText(s[..n]);
    }

    /** clear() (TextBuffer.cpp:55-61): zeroes every byte and resets position. */
    method Clear() returns (r: nat)
      requires Valid()
      modifies this`position, this`text, buffer
      ensures Valid()
      ensures buffer == null ==> r == 0 && position == old(position)
      ensures buffer != null ==> r == 1 && position == 0 && buffer[..] == Zeros(capacity)
      ensures text == []
    {
      if buffer == null {
        return 0;
      }
      forall i | 0 <= i < capacity {
        buffer[i] := 0;
      }
      position := 0;
      text := [];
      assert buffer[..] == [] + Zeros(capacity);
      return 1;
    }

    /** getBufPointer() (TextBuffer.cpp:76-81): clears the buffer, then hands
        it out (null when there is none). */
    method GetBufPointer() returns (p: array?<bv8>)
      requires Valid()
      modifies this`position, this`text, buffer
      ensures Valid()
      ensures p == buffer
      ensures p != null ==> p[..] == Zeros(capacity) && position == 0
      ensures p == null ==> position == old(position)
      ensures text == []
    {
      if buffer == null {
        return null;
      }
      var _ := Clear();
      return buffer;
    }

    /** getCapacity() (TextBuffer.cpp:89-93): the aligned size, or 0. */
    method GetCapacity() returns (n: nat)
      requires Valid()
      ensures n == if buffer == null then 0 else bufSize
      ensures n % 4 == 0
    {
      if buffer == null {
        return 0;
      }
      return capacity;
    }

    /** getCheckSum() (TextBuffer.cpp:95-113): XOR of the stored bytes from
        index 1 up to the one before the last. */
    method GetCheckSum() returns (cs: nat)
      requires Valid()
      ensures cs == SentenceChecksum(text) as nat
      ensures cs < 256
    {
      if buffer == null {
        return 0;
      }
      ghost var s, size := buffer[..], |text|;
      var checkSum: bv8 := 0;
      var csCount := 1;
      while buffer[csCount + 1] != 0
        invariant 1 <= csCount && csCount + 1 < capacity
        invariant csCount == 1 || csCount + 1 <= size
        invariant checkSum == XorAll(s[1..csCount])
        decreases size - csCount
      {
        TextByte(text, capacity - size, csCount + 1);
        assert s[1..csCount + 1][..csCount - 1] == s[1..csCount];
        checkSum := checkSum ^ buffer[csCount];
        csCount := csCount + 1;
      }
      TextByte(text, capacity - size, csCount + 1);
      if size >= 2 {
        assert csCount + 1 == size;
        assert text[1..size - 1] == s[1..csCount];
      }
      return checkSum as nat;
    }
  }

  /** Storing c over the terminator of a buffer with room for one more byte:
      a non-zero c extends the text by one byte, a zero changes nothing. */
  lemma StoreAtTerminator(text: seq<bv8>, c: bv8, k: nat)
    requires k >= 2
    ensures (text + Zeros(k))[|text| := c]
         == if c != 0 then (text + [c]) + Zeros(k - 1) else text + Zeros(k)
  {
    if c != 0 {
      assert (text + Zeros(k))[|text| := c] == (text + [c]) + Zeros(k - 1);
    } else {
      assert (text + Zeros(k))[|text| := c] == text + Zeros(k);
    }
  }

  /** The bytes of a terminated buffer: non-zero within the text, zero after. */
  lemma TextByte(text: seq<bv8>, k: nat, i: nat)
    requires 0 !in text && i < |text| + k
    ensures (text + Zeros(k))[i] == 0 <==> i >= |text|
  {
    if i < |text| {
      assert (text + Zeros(k))[i] == text[i];
      assert text[i] in text;
    }
  }

  /** strlen of a terminated buffer is the length of its text. */
  lemma TerminatedLength(text: seq<bv8>, k: nat)
    requires 0 !in text && k > 0
    ensures Strlen(text + Zeros(k)) == |text|
  {
    var s := text + Zeros(k);
    forall i | 0 <= i < |text|
      ensures s[i] != 0
    {
      TextByte(text, k, i);
    }
    TextByte(text, k, |text|);
    StrlenAt(s, |text|);
  }

  /** A zero after non-zero bytes is the terminator. */
  lemma StrlenAt(s: seq<bv8>, k: nat)
    requires k < |s| && s[k] == 0
    requires forall i :: 0 <= i < k ==> s[i] != 0
    ensures Strlen(s) == k
  {
  }

  /** Text without zero bytes is kept whole by NonZero. */
  lemma {:induction false} NonZeroOfText(s: seq<bv8>)
    requires forall i :: 0 <= i < |s| ==> s[i] != 0
    ensures NonZero(s) == s
  {
    if s != [] {
      NonZeroOfText(s[..|s| - 1]);
    }
  }

  /** A text without zero bytes is accepted up to the free room: all of it, or
      as much as leaves room for the terminator. */
  lemma {:induction false} AcceptedText(size: nat, capacity: nat, text: seq<bv8>, from: nat)
    requires size < capacity && from <= |text|
    requires 0 !in text
    ensures Accepted(size, capacity, text, from)
         == if |text| - from <= capacity - 1 - size then |text| - from else capacity - 1 - size
    decreases |text| - from
  {
    if from < |text| && size + 1 < capacity {
      assert text[from] in text;
      AcceptedText(size + 1, capacity, text, from + 1);
    }
  }

  /** For an NMEA 0183 sentence stored as '$', body, '*', the checksum is the
      XOR of the body, the characters between '$' and '*'. */
  lemma NmeaChecksum(body: seq<bv8>)
    ensures SentenceChecksum([DOLLAR] + body + [STAR]) == XorAll(body)
  {
    var text := [DOLLAR] + body + [STAR];
    assert text[1..|text| - 1] == body;
  }
}
