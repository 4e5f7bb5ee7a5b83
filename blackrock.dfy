/**
  The packed little-endian records of the Blackrock NEV (events) and NSx
  (continuous traces) file formats, and the read of one record from a file.

  Every record is declared under `#pragma pack(push, 1)`, so its size is the
  sum of its fields' sizes and each field sits right after the previous one.
  A record is modelled by a datatype holding its fields, a decoder from
  exactly that many bytes and an encoder back to them; the two round-trip
  lemmas of each record say the codec is a bijection between valid records
  and byte strings of the record's size.
 */
module Blackrock {
  import opened Wrappers
  import opened LittleEndian

  type uint8 = x: int | 0 <= x < 0x100
  type uint16 = x: int | 0 <= x < 0x1_0000
  type uint32 = x: int | 0 <= x < 0x1_0000_0000
  type int16 = x: int | -0x8000 <= x < 0x8000

  // Packed sizes of the records, in bytes.
  const WINDOWS_SYSTEM_TIME_SIZE := 16
  const NEV_BASIC_HEADER_SIZE := 336
  const NEV_EXTENSION_HEADER_SIZE := 32
  const NEV_EXTENSION_DATA_SIZE := 24
  const NEV_DATA_HEADER_SIZE := 6
  const NEV_DIGITAL_SERIAL_DATA_SIZE := 4
  const NEV_SPIKE_DATA_HEADER_SIZE := 2
  const NEV_CONFIGURATION_DATA_HEADER_SIZE := 2
  const NEV_BUTTON_DATA_SIZE := 2
  const NEV_VIDEO_SYNC_DATA_SIZE := 14
  const NEV_TRACKING_DATA_HEADER_SIZE := 8
  const NEV_COMMENT_DATA_HEADER_SIZE := 6
  const NSX_BASIC_HEADER_SIZE := 314
  const NSX_EXTENSION_HEADER_SIZE := 66
  const NSX_DATA_HEADER_SIZE := 9

  // Package ids of NEV data packages; ids 1 to 2048 are spike channels.
  const NEV_PACKAGE_ID_DIGITAL: uint16 := 0
  const NEV_PACKAGE_ID_SPIKE_MAX: uint16 := 0x800
  const NEV_PACKAGE_ID_CONFIGURATION: uint16 := 0xFFFB
  const NEV_PACKAGE_ID_BUTTON: uint16 := 0xFFFC
  const NEV_PACKAGE_ID_TRACKING: uint16 := 0xFFFD
  const NEV_PACKAGE_ID_VIDEO_SYNC: uint16 := 0xFFFE
  const NEV_PACKAGE_ID_COMMENT: uint16 := 0xFFFF
  /** A timestamp with this value marks a package continued from the previous one. */
  const NEV_CONTINUATION_TIMESTAMP: uint32 := 0xFFFF_FFFF

  /** Package ids that belong to spike channels. */
  predicate IsSpikeId(id: uint16) {
    0 < id <= NEV_PACKAGE_ID_SPIKE_MAX
  }

  /** The package ids the events reader distinguishes are pairwise distinct and none is a spike id. */
  lemma PackageIdsDistinct()
    ensures |{NEV_PACKAGE_ID_DIGITAL, NEV_PACKAGE_ID_CONFIGURATION, NEV_PACKAGE_ID_BUTTON,
              NEV_PACKAGE_ID_TRACKING, NEV_PACKAGE_ID_VIDEO_SYNC, NEV_PACKAGE_ID_COMMENT}| == 6
    ensures forall id: uint16 :: IsSpikeId(id) ==>
      id !in {NEV_PACKAGE_ID_DIGITAL, NEV_PACKAGE_ID_CONFIGURATION, NEV_PACKAGE_ID_BUTTON,
              NEV_PACKAGE_ID_TRACKING, NEV_PACKAGE_ID_VIDEO_SYNC, NEV_PACKAGE_ID_COMMENT}
  {
  }

  // ---------------------------------------------------------------------------
  // Reading one record from a file.

  /**
    The number of bytes a read of n bytes at position pos of a file of the
    given contents delivers: what is left of the file, at most n.
   */
  function BytesRead(file: seq<Byte>, pos: nat, n: nat): (k: nat)
    ensures k <= n
    ensures k == n <==> n == 0 || pos + n <= |file|
  {
    if pos + n <= |file| then n else if pos <= |file| then |file| - pos else 0
  }

  /**
    readStruct: reads sizeof(T) bytes at the file position pos. It succeeds
    exactly when the whole record could be read, and then yields the bytes at
    pos; the position then advances by the bytes read. A C++ type is never
    empty, so n is positive.
   */
  function ReadStruct(file: seq<Byte>, pos: nat, n: nat): (r: Option<seq<Byte>>)
    requires n > 0
    ensures r.Some? <==> pos + n <= |file|
    ensures r.Some? ==> |r.value| == n && r.value == file[pos..pos + n]
  {
    if BytesRead(file, pos, n) == n then Some(file[pos..pos + n]) else None
  }

  // ---------------------------------------------------------------------------
  // Fixed-width fields.

  function U8At(s: seq<Byte>, at: nat): uint8
    requires at + 1 <= |s|
  {
    s[at]
  }

  function U16At(s: seq<Byte>, at: nat): uint16
    requires at + 2 <= |s|
  {
    Pow256Values();
    FromLE(s[at..at + 2])
  }

  function U32At(s: seq<Byte>, at: nat): uint32
    requires at + 4 <= |s|
  {
    Pow256Values();
    FromLE(s[at..at + 4])
  }

  /** A two's-complement 16-bit value. */
  function I16At(s: seq<Byte>, at: nat): int16
    requires at + 2 <= |s|
  {
    var u := U16At(s, at);
    if u >= 0x8000 then u - 0x1_0000 else u
  }

  function U8Bytes(x: uint8): (s: seq<Byte>)
    ensures |s| == 1
  {
    [x]
  }

  function U16Bytes(x: uint16): (s: seq<Byte>)
    ensures |s| == 2
  {
    Pow256Values();
    ToLE(x, 2)
  }

  function U32Bytes(x: uint32): (s: seq<Byte>)
    ensures |s| == 4
  {
    Pow256Values();
    ToLE(x, 4)
  }

  function I16Bytes(x: int16): (s: seq<Byte>)
    ensures |s| == 2
  {
    U16Bytes(if x < 0 then x + 0x1_0000 else x)
  }

  lemma U8RoundTrip(x: uint8, s: seq<Byte>, at: nat)
    requires at + 1 <= |s| && s[at..at + 1] == U8Bytes(x)
    ensures U8At(s, at) == x
  {
    assert s[at] == s[at..at + 1][0];
  }

  lemma U16RoundTrip(x: uint16, s: seq<Byte>, at: nat)
    requires at + 2 <= |s| && s[at..at + 2] == U16Bytes(x)
    ensures U16At(s, at) == x
  {
    Pow256Values();
    FromToLE(x, 2);
  }

  lemma U32RoundTrip(x: uint32, s: seq<Byte>, at: nat)
    requires at + 4 <= |s| && s[at..at + 4] == U32Bytes(x)
    ensures U32At(s, at) == x
  {
    Pow256Values();
    FromToLE(x, 4);
  }

  lemma I16RoundTrip(x: int16, s: seq<Byte>, at: nat)
    requires at + 2 <= |s| && s[at..at + 2] == I16Bytes(x)
    ensures I16At(s, at) == x
  {
    U16RoundTrip(if x < 0 then x + 0x1_0000 else x, s, at);
  }

  /** Two adjacent slices of a sequence join into one. */
  lemma SlicesJoin(s: seq<Byte>, i: nat, j: nat, k: nat)
    requires i <= j <= k <= |s|
    ensures s[i..j] + s[j..k] == s[i..k]
  {
  }

  lemma U8BytesRoundTrip(s: seq<Byte>, at: nat)
    requires at + 1 <= |s|
    ensures U8Bytes(U8At(s, at)) == s[at..at + 1]
  {
  }

  lemma U16BytesRoundTrip(s: seq<Byte>, at: nat)
    requires at + 2 <= |s|
    ensures U16Bytes(U16At(s, at)) == s[at..at + 2]
  {
    Pow256Values();
    ToFromLE(s[at..at + 2]);
  }

  lemma U32BytesRoundTrip(s: seq<Byte>, at: nat)
    requires at + 4 <= |s|
    ensures U32Bytes(U32At(s, at)) == s[at..at + 4]
  {
    Pow256Values();
    ToFromLE(s[at..at + 4]);
  }

  lemma I16BytesRoundTrip(s: seq<Byte>, at: nat)
    requires at + 2 <= |s|
    ensures I16Bytes(I16At(s, at)) == s[at..at + 2]
  {
    U16BytesRoundTrip(s, at);
  }

  // ---------------------------------------------------------------------------
  // Records.

  /** Calendar time of the recording origin, eight signed 16-bit fields. */
  datatype WindowsSystemTime = WindowsSystemTime(
    year: int16,  // offset 0, 2 bytes
    month: int16,  // offset 2, 2 bytes
    dayOfWeek: int16,  // offset 4, 2 bytes
    day: int16,  // offset 6, 2 bytes
    hour: int16,  // offset 8, 2 bytes
    minute: int16,  // offset 10, 2 bytes
    second: int16,  // offset 12, 2 bytes
    milliseconds: int16  // offset 14, 2 bytes
  )

  /** Reads a WindowsSystemTime from exactly WINDOWS_SYSTEM_TIME_SIZE bytes, each field little-endian at its packed offset. */
  function DecodeWindowsSystemTime(s: seq<Byte>): (r: WindowsSystemTime)
    requires |s| == WINDOWS_SYSTEM_TIME_SIZE
  {
    WindowsSystemTime(
      I16At(s, 0),
      I16At(s, 2),
      I16At(s, 4),
      I16At(s, 6),
      I16At(s, 8),
      I16At(s, 10),
      I16At(s, 12),
      I16At(s, 14))
  }

  /** Writes a WindowsSystemTime as the packed little-endian bytes the file holds. */
  function EncodeWindowsSystemTime(x: WindowsSystemTime): (s: seq<Byte>)
    ensures |s| == WINDOWS_SYSTEM_TIME_SIZE
  {
    I16Bytes(x.year) + I16Bytes(x.month) + I16Bytes(x.dayOfWeek) + I16Bytes(x.day)
    + I16Bytes(x.hour) + I16Bytes(x.minute) + I16Bytes(x.second) + I16Bytes(x.milliseconds)
  }

  /** Decoding the encoding of a WindowsSystemTime gives back every field. */
  lemma WindowsSystemTimeRoundTrip(x: WindowsSystemTime)
    ensures DecodeWindowsSystemTime(EncodeWindowsSystemTime(x)) == x
  {
    var s := EncodeWindowsSystemTime(x);
    assert s[0..2] == I16Bytes(x.year); I16RoundTrip(x.year, s, 0);
    assert s[2..4] == I16Bytes(x.month); I16RoundTrip(x.month, s, 2);
    assert s[4..6] == I16Bytes(x.dayOfWeek); I16RoundTrip(x.dayOfWeek, s, 4);
    assert s[6..8] == I16Bytes(x.day); I16RoundTrip(x.day, s, 6);
    assert s[8..10] == I16Bytes(x.hour); I16RoundTrip(x.hour, s, 8);
    assert s[10..12] == I16Bytes(x.minute); I16RoundTrip(x.minute, s, 10);
    assert s[12..14] == I16Bytes(x.second); I16RoundTrip(x.second, s, 12);
    assert s[14..16] == I16Bytes(x.milliseconds); I16RoundTrip(x.milliseconds, s, 14);
  }

  /** Encoding a decoded WindowsSystemTime gives back every byte: the layout has no padding and no ignored bits. */
  lemma WindowsSystemTimeBytesRoundTrip(s: seq<Byte>)
    requires |s| == WINDOWS_SYSTEM_TIME_SIZE
    ensures EncodeWindowsSystemTime(DecodeWindowsSystemTime(s)) == s
  {
    var x := DecodeWindowsSystemTime(s);
    assert I16Bytes(x.year) == s[0..2] by { I16BytesRoundTrip(s, 0); }
    assert I16Bytes(x.month) == s[2..4] by { I16BytesRoundTrip(s, 2); }
    assert I16Bytes(x.dayOfWeek) == s[4..6] by { I16BytesRoundTrip(s, 4); }
    assert I16Bytes(x.day) == s[6..8] by { I16BytesRoundTrip(s, 6); }
    assert I16Bytes(x.hour) == s[8..10] by { I16BytesRoundTrip(s, 8); }
    assert I16Bytes(x.minute) == s[10..12] by { I16BytesRoundTrip(s, 10); }
    assert I16Bytes(x.second) == s[12..14] by { I16BytesRoundTrip(s, 12); }
    assert I16Bytes(x.milliseconds) == s[14..16] by { I16BytesRoundTrip(s, 14); }
    SlicesJoin(s, 0, 2, 4);
    SlicesJoin(s, 0, 4, 6);
    SlicesJoin(s, 0, 6, 8);
    SlicesJoin(s, 0, 8, 10);
    SlicesJoin(s, 0, 10, 12);
    SlicesJoin(s, 0, 12, 14);
    SlicesJoin(s, 0, 14, 16);
    assert s == s[0..16];
  }

  /** The NEURALEV basic header at the start of a NEV file. */
  datatype NEVBasicHeader = NEVBasicHeader(
    fileType: seq<Byte>,  // offset 0, 8 bytes
    fileSpec: uint16,  // offset 8, 2 bytes
    flags: uint16,  // offset 10, 2 bytes
    headerSize: uint32,  // offset 12, 4 bytes
    dataPackageSize: uint32,  // offset 16, 4 bytes
    globalTimeResolution: uint32,  // offset 20, 4 bytes
    waveformTimeResolution: uint32,  // offset 24, 4 bytes
    timeOrigin: WindowsSystemTime,  // offset 28, 16 bytes
    application: seq<Byte>,  // offset 44, 32 bytes
    comment: seq<Byte>,  // offset 76, 256 bytes
    extensionCount: uint32  // offset 332, 4 bytes
  )
  {
    /** Every character array has its declared length. */
    predicate Valid() {
      |fileType| == 8 && |application| == 32 && |comment| == 256
    }
  }

  /** Reads a NEVBasicHeader from exactly NEV_BASIC_HEADER_SIZE bytes, each field little-endian at its packed offset. */
  function DecodeNEVBasicHeader(s: seq<Byte>): (r: NEVBasicHeader)
    requires |s| == NEV_BASIC_HEADER_SIZE
    ensures r.Valid()
  {
    NEVBasicHeader(
      s[0..8],
      U16At(s, 8),
      U16At(s, 10),
      U32At(s, 12),
      U32At(s, 16),
      U32At(s, 20),
      U32At(s, 24),
      DecodeWindowsSystemTime(s[28..44]),
      s[44..76],
      s[76..332],
      U32At(s, 332))
  }

  /** Writes a NEVBasicHeader as the packed little-endian bytes the file holds. */
  function EncodeNEVBasicHeader(x: NEVBasicHeader): (s: seq<Byte>)
    requires x.Valid()
    ensures |s| == NEV_BASIC_HEADER_SIZE
  {
    x.fileType + U16Bytes(x.fileSpec) + U16Bytes(x.flags) + U32Bytes(x.headerSize)
    + U32Bytes(x.dataPackageSize) + U32Bytes(x.globalTimeResolution)
    + U32Bytes(x.waveformTimeResolution) + EncodeWindowsSystemTime(x.timeOrigin) + x.application
    + x.comment + U32Bytes(x.extensionCount)
  }

  /** Decoding the encoding of a NEVBasicHeader gives back every field. */
  lemma NEVBasicHeaderRoundTrip(x: NEVBasicHeader)
    requires x.Valid()
    ensures DecodeNEVBasicHeader(EncodeNEVBasicHeader(x)) == x
  {
    var s := EncodeNEVBasicHeader(x);
    assert s[0..8] == x.fileType;
    assert s[8..10] == U16Bytes(x.fileSpec); U16RoundTrip(x.fileSpec, s, 8);
    assert s[10..12] == U16Bytes(x.flags); U16RoundTrip(x.flags, s, 10);
    assert s[12..16] == U32Bytes(x.headerSize); U32RoundTrip(x.headerSize, s, 12);
    assert s[16..20] == U32Bytes(x.dataPackageSize); U32RoundTrip(x.dataPackageSize, s, 16);
    assert s[20..24] == U32Bytes(x.globalTimeResolution); U32RoundTrip(x.globalTimeResolution, s, 20);
    assert s[24..28] == U32Bytes(x.waveformTimeResolution); U32RoundTrip(x.waveformTimeResolution, s, 24);
    assert s[28..44] == EncodeWindowsSystemTime(x.timeOrigin); WindowsSystemTimeRoundTrip(x.timeOrigin);
    assert s[44..76] == x.application;
    assert s[76..332] == x.comment;
    assert s[332..336] == U32Bytes(x.extensionCount); U32RoundTrip(x.extensionCount, s, 332);
  }

  /** Encoding a decoded NEVBasicHeader gives back every byte: the layout has no padding and no ignored bits. */
  lemma NEVBasicHeaderBytesRoundTrip(s: seq<Byte>)
    requires |s| == NEV_BASIC_HEADER_SIZE
    ensures EncodeNEVBasicHeader(DecodeNEVBasicHeader(s)) == s
  {
    var x := DecodeNEVBasicHeader(s);
    assert x.fileType == s[0..8];
    assert U16Bytes(x.fileSpec) == s[8..10] by { U16BytesRoundTrip(s, 8); }
    assert U16Bytes(x.flags) == s[10..12] by { U16BytesRoundTrip(s, 10); }
    assert U32Bytes(x.headerSize) == s[12..16] by { U32BytesRoundTrip(s, 12); }
    assert U32Bytes(x.dataPackageSize) == s[16..20] by { U32BytesRoundTrip(s, 16); }
    assert U32Bytes(x.globalTimeResolution) == s[20..24] by { U32BytesRoundTrip(s, 20); }
    assert U32Bytes(x.waveformTimeResolution) == s[24..28] by { U32BytesRoundTrip(s, 24); }
    assert EncodeWindowsSystemTime(x.timeOrigin) == s[28..44] by { WindowsSystemTimeBytesRoundTrip(s[28..44]); }
    assert x.application == s[44..76];
    assert x.comment == s[76..332];
    assert U32Bytes(x.extensionCount) == s[332..336] by { U32BytesRoundTrip(s, 332); }
    SlicesJoin(s, 0, 8, 10);
    SlicesJoin(s, 0, 10, 12);
    SlicesJoin(s, 0, 12, 16);
    SlicesJoin(s, 0, 16, 20);
    SlicesJoin(s, 0, 20, 24);
    SlicesJoin(s, 0, 24, 28);
    SlicesJoin(s, 0, 28, 44);
    SlicesJoin(s, 0, 44, 76);
    SlicesJoin(s, 0, 76, 332);
    SlicesJoin(s, 0, 332, 336);
    assert s == s[0..336];
  }

  /** One NEV extended header: an 8-byte tag and 24 bytes of tag-specific data. */
  datatype NEVExtensionHeader = NEVExtensionHeader(
    id: seq<Byte>,  // offset 0, 8 bytes
    data: seq<Byte>  // offset 8, 24 bytes
  )
  {
    /** Every character array has its declared length. */
    predicate Valid() {
      |id| == 8 && |data| == 24
    }
  }

  /** Reads a NEVExtensionHeader from exactly NEV_EXTENSION_HEADER_SIZE bytes, each field little-endian at its packed offset. */
  function DecodeNEVExtensionHeader(s: seq<Byte>): (r: NEVExtensionHeader)
    requires |s| == NEV_EXTENSION_HEADER_SIZE
    ensures r.Valid()
  {
    NEVExtensionHeader(
      s[0..8],
      s[8..32])
  }

  /** Writes a NEVExtensionHeader as the packed little-endian bytes the file holds. */
  function EncodeNEVExtensionHeader(x: NEVExtensionHeader): (s: seq<Byte>)
    requires x.Valid()
    ensures |s| == NEV_EXTENSION_HEADER_SIZE
  {
    x.id + x.data
  }

  /** Decoding the encoding of a NEVExtensionHeader gives back every field. */
  lemma NEVExtensionHeaderRoundTrip(x: NEVExtensionHeader)
    requires x.Valid()
    ensures DecodeNEVExtensionHeader(EncodeNEVExtensionHeader(x)) == x
  {
    var s := EncodeNEVExtensionHeader(x);
    assert s[0..8] == x.id;
    assert s[8..32] == x.data;
  }

  /** Encoding a decoded NEVExtensionHeader gives back every byte: the layout has no padding and no ignored bits. */
  lemma NEVExtensionHeaderBytesRoundTrip(s: seq<Byte>)
    requires |s| == NEV_EXTENSION_HEADER_SIZE
    ensures EncodeNEVExtensionHeader(DecodeNEVExtensionHeader(s)) == s
  {
    var x := DecodeNEVExtensionHeader(s);
    assert x.id == s[0..8];
    assert x.data == s[8..32];
    assert s == s[0..8] + s[8..32];
  }

  /** Payload of a NEUEVWAV extended header. */
  datatype NEVNeuralWaveformExtensionData = NEVNeuralWaveformExtensionData(
    id: uint16,  // offset 0, 2 bytes
    bank: uint8,  // offset 2, 1 byte
    pin: uint8,  // offset 3, 1 byte
    factor: uint16,  // offset 4, 2 bytes
    threshold: uint16,  // offset 6, 2 bytes
    highThreshold: int16,  // offset 8, 2 bytes
    lowThreshold: int16,  // offset 10, 2 bytes
    units: uint8,  // offset 12, 1 byte
    size: uint8,  // offset 13, 1 byte
    width: uint16,  // offset 14, 2 bytes
    reserved: seq<Byte>  // offset 16, 8 bytes
  )
  {
    /** Every character array has its declared length. */
    predicate Valid() {
      |reserved| == 8
    }
  }

  /** Reads a NEVNeuralWaveformExtensionData from exactly NEV_EXTENSION_DATA_SIZE bytes, each field little-endian at its packed offset. */
  function DecodeNEVNeuralWaveformExtensionData(s: seq<Byte>): (r: NEVNeuralWaveformExtensionData)
    requires |s| == NEV_EXTENSION_DATA_SIZE
    ensures r.Valid()
  {
    NEVNeuralWaveformExtensionData(
      U16At(s, 0),
      U8At(s, 2),
      U8At(s, 3),
      U16At(s, 4),
      U16At(s, 6),
      I16At(s, 8),
      I16At(s, 10),
      U8At(s, 12),
      U8At(s, 13),
      U16At(s, 14),
      s[16..24])
  }

  /** Writes a NEVNeuralWaveformExtensionData as the packed little-endian bytes the file holds. */
  function EncodeNEVNeuralWaveformExtensionData(x: NEVNeuralWaveformExtensionData): (s: seq<Byte>)
    requires x.Valid()
    ensures |s| == NEV_EXTENSION_DATA_SIZE
  {
    U16Bytes(x.id) + U8Bytes(x.bank) + U8Bytes(x.pin) + U16Bytes(x.factor) + U16Bytes(x.threshold)
    + I16Bytes(x.highThreshold) + I16Bytes(x.lowThreshold) + U8Bytes(x.units) + U8Bytes(x.size)
    + U16Bytes(x.width) + x.reserved
  }

  /** Decoding the encoding of a NEVNeuralWaveformExtensionData gives back every field. */
  lemma NEVNeuralWaveformExtensionDataRoundTrip(x: NEVNeuralWaveformExtensionData)
    requires x.Valid()
    ensures DecodeNEVNeuralWaveformExtensionData(EncodeNEVNeuralWaveformExtensionData(x)) == x
  {
    var s := EncodeNEVNeuralWaveformExtensionData(x);
    assert s[0..2] == U16Bytes(x.id); U16RoundTrip(x.id, s, 0);
    assert s[2..3] == U8Bytes(x.bank); U8RoundTrip(x.bank, s, 2);
    assert s[3..4] == U8Bytes(x.pin); U8RoundTrip(x.pin, s, 3);
    assert s[4..6] == U16Bytes(x.factor); U16RoundTrip(x.factor, s, 4);
    assert s[6..8] == U16Bytes(x.threshold); U16RoundTrip(x.threshold, s, 6);
    assert s[8..10] == I16Bytes(x.highThreshold); I16RoundTrip(x.highThreshold, s, 8);
    assert s[10..12] == I16Bytes(x.lowThreshold); I16RoundTrip(x.lowThreshold, s, 10);
    assert s[12..13] == U8Bytes(x.units); U8RoundTrip(x.units, s, 12);
    assert s[13..14] == U8Bytes(x.size); U8RoundTrip(x.size, s, 13);
    assert s[14..16] == U16Bytes(x.width); U16RoundTrip(x.width, s, 14);
    assert s[16..24] == x.reserved;
  }

  /** Encoding a decoded NEVNeuralWaveformExtensionData gives back every byte: the layout has no padding and no ignored bits. */
  lemma NEVNeuralWaveformExtensionDataBytesRoundTrip(s: seq<Byte>)
    requires |s| == NEV_EXTENSION_DATA_SIZE
    ensures EncodeNEVNeuralWaveformExtensionData(DecodeNEVNeuralWaveformExtensionData(s)) == s
  {
    var x := DecodeNEVNeuralWaveformExtensionData(s);
    assert U16Bytes(x.id) == s[0..2] by { U16BytesRoundTrip(s, 0); }
    assert U8Bytes(x.bank) == s[2..3] by { U8BytesRoundTrip(s, 2); }
    assert U8Bytes(x.pin) == s[3..4] by { U8BytesRoundTrip(s, 3); }
    assert U16Bytes(x.factor) == s[4..6] by { U16BytesRoundTrip(s, 4); }
    assert U16Bytes(x.threshold) == s[6..8] by { U16BytesRoundTrip(s, 6); }
    assert I16Bytes(x.highThreshold) == s[8..10] by { I16BytesRoundTrip(s, 8); }
    assert I16Bytes(x.lowThreshold) == s[10..12] by { I16BytesRoundTrip(s, 10); }
    assert U8Bytes(x.units) == s[12..13] by { U8BytesRoundTrip(s, 12); }
    assert U8Bytes(x.size) == s[13..14] by { U8BytesRoundTrip(s, 13); }
    assert U16Bytes(x.width) == s[14..16] by { U16BytesRoundTrip(s, 14); }
    assert x.reserved == s[16..24];
    SlicesJoin(s, 0, 2, 3);
    SlicesJoin(s, 0, 3, 4);
    SlicesJoin(s, 0, 4, 6);
    SlicesJoin(s, 0, 6, 8);
    SlicesJoin(s, 0, 8, 10);
    SlicesJoin(s, 0, 10, 12);
    SlicesJoin(s, 0, 12, 13);
    SlicesJoin(s, 0, 13, 14);
    SlicesJoin(s, 0, 14, 16);
    SlicesJoin(s, 0, 16, 24);
    assert s == s[0..24];
  }

  /** Payload of a NEUEVLBL extended header. */
  datatype NEVNeuralLabelExtensionData = NEVNeuralLabelExtensionData(
    id: uint16,  // offset 0, 2 bytes
    labelText: seq<Byte>,  // offset 2, 16 bytes
    reserved: seq<Byte>  // offset 18, 6 bytes
  )
  {
    /** Every character array has its declared length. */
    predicate Valid() {
      |labelText| == 16 && |reserved| == 6
    }
  }

  /** Reads a NEVNeuralLabelExtensionData from exactly NEV_EXTENSION_DATA_SIZE bytes, each field little-endian at its packed offset. */
  function DecodeNEVNeuralLabelExtensionData(s: seq<Byte>): (r: NEVNeuralLabelExtensionData)
    requires |s| == NEV_EXTENSION_DATA_SIZE
    ensures r.Valid()
  {
    NEVNeuralLabelExtensionData(
      U16At(s, 0),
      s[2..18],
      s[18..24])
  }

  /** Writes a NEVNeuralLabelExtensionData as the packed little-endian bytes the file holds. */
  function EncodeNEVNeuralLabelExtensionData(x: NEVNeuralLabelExtensionData): (s: seq<Byte>)
    requires x.Valid()
    ensures |s| == NEV_EXTENSION_DATA_SIZE
  {
    U16Bytes(x.id) + x.labelText + x.reserved
  }

  /** Decoding the encoding of a NEVNeuralLabelExtensionData gives back every field. */
  lemma NEVNeuralLabelExtensionDataRoundTrip(x: NEVNeuralLabelExtensionData)
    requires x.Valid()
    ensures DecodeNEVNeuralLabelExtensionData(EncodeNEVNeuralLabelExtensionData(x)) == x
  {
    var s := EncodeNEVNeuralLabelExtensionData(x);
    assert s[0..2] == U16Bytes(x.id); U16RoundTrip(x.id, s, 0);
    assert s[2..18] == x.labelText;
    assert s[18..24] == x.reserved;
  }

  /** Encoding a decoded NEVNeuralLabelExtensionData gives back every byte: the layout has no padding and no ignored bits. */
  lemma NEVNeuralLabelExtensionDataBytesRoundTrip(s: seq<Byte>)
    requires |s| == NEV_EXTENSION_DATA_SIZE
    ensures EncodeNEVNeuralLabelExtensionData(DecodeNEVNeuralLabelExtensionData(s)) == s
  {
    var x := DecodeNEVNeuralLabelExtensionData(s);
    assert U16Bytes(x.id) == s[0..2] by { U16BytesRoundTrip(s, 0); }
    assert x.labelText == s[2..18];
    assert x.reserved == s[18..24];
    SlicesJoin(s, 0, 2, 18);
    SlicesJoin(s, 0, 18, 24);
    assert s == s[0..24];
  }

  /** Payload of a NEUEVFLT extended header. */
  datatype NEVNeuralFilterExtensionData = NEVNeuralFilterExtensionData(
    id: uint16,  // offset 0, 2 bytes
    highpassCorner: uint32,  // offset 2, 4 bytes
    highpassOrder: uint32,  // offset 6, 4 bytes
    highpassType: uint16,  // offset 10, 2 bytes
    lowpassCorner: uint32,  // offset 12, 4 bytes
    lowpassOrder: uint32,  // offset 16, 4 bytes
    lowpassType: uint16,  // offset 20, 2 bytes
    reserved: seq<Byte>  // offset 22, 2 bytes
  )
  {
    /** Every character array has its declared length. */
    predicate Valid() {
      |reserved| == 2
    }
  }

  /** Reads a NEVNeuralFilterExtensionData from exactly NEV_EXTENSION_DATA_SIZE bytes, each field little-endian at its packed offset. */
  function DecodeNEVNeuralFilterExtensionData(s: seq<Byte>): (r: NEVNeuralFilterExtensionData)
    requires |s| == NEV_EXTENSION_DATA_SIZE
    ensures r.Valid()
  {
    NEVNeuralFilterExtensionData(
      U16At(s, 0),
      U32At(s, 2),
      U32At(s, 6),
      U16At(s, 10),
      U32At(s, 12),
      U32At(s, 16),
      U16At(s, 20),
      s[22..24])
  }

  /** Writes a NEVNeuralFilterExtensionData as the packed little-endian bytes the file holds. */
  function EncodeNEVNeuralFilterExtensionData(x: NEVNeuralFilterExtensionData): (s: seq<Byte>)
    requires x.Valid()
    ensures |s| == NEV_EXTENSION_DATA_SIZE
  {
    U16Bytes(x.id) + U32Bytes(x.highpassCorner) + U32Bytes(x.highpassOrder)
    + U16Bytes(x.highpassType) + U32Bytes(x.lowpassCorner) + U32Bytes(x.lowpassOrder)
    + U16Bytes(x.lowpassType) + x.reserved
  }

  /** Decoding the encoding of a NEVNeuralFilterExtensionData gives back every field. */
  lemma NEVNeuralFilterExtensionDataRoundTrip(x: NEVNeuralFilterExtensionData)
    requires x.Valid()
    ensures DecodeNEVNeuralFilterExtensionData(EncodeNEVNeuralFilterExtensionData(x)) == x
  {
    var s := EncodeNEVNeuralFilterExtensionData(x);
    assert s[0..2] == U16Bytes(x.id); U16RoundTrip(x.id, s, 0);
    assert s[2..6] == U32Bytes(x.highpassCorner); U32RoundTrip(x.highpassCorner, s, 2);
    assert s[6..10] == U32Bytes(x.highpassOrder); U32RoundTrip(x.highpassOrder, s, 6);
    assert s[10..12] == U16Bytes(x.highpassType); U16RoundTrip(x.highpassType, s, 10);
    assert s[12..16] == U32Bytes(x.lowpassCorner); U32RoundTrip(x.lowpassCorner, s, 12);
    assert s[16..20] == U32Bytes(x.lowpassOrder); U32RoundTrip(x.lowpassOrder, s, 16);
    assert s[20..22] == U16Bytes(x.lowpassType); U16RoundTrip(x.lowpassType, s, 20);
    assert s[22..24] == x.reserved;
  }

  /** Encoding a decoded NEVNeuralFilterExtensionData gives back every byte: the layout has no padding and no ignored bits. */
  lemma NEVNeuralFilterExtensionDataBytesRoundTrip(s: seq<Byte>)
    requires |s| == NEV_EXTENSION_DATA_SIZE
    ensures EncodeNEVNeuralFilterExtensionData(DecodeNEVNeuralFilterExtensionData(s)) == s
  {
    var x := DecodeNEVNeuralFilterExtensionData(s);
    assert U16Bytes(x.id) == s[0..2] by { U16BytesRoundTrip(s, 0); }
    assert U32Bytes(x.highpassCorner) == s[2..6] by { U32BytesRoundTrip(s, 2); }
    assert U32Bytes(x.highpassOrder) == s[6..10] by { U32BytesRoundTrip(s, 6); }
    assert U16Bytes(x.highpassType) == s[10..12] by { U16BytesRoundTrip(s, 10); }
    assert U32Bytes(x.lowpassCorner) == s[12..16] by { U32BytesRoundTrip(s, 12); }
    assert U32Bytes(x.lowpassOrder) == s[16..20] by { U32BytesRoundTrip(s, 16); }
    assert U16Bytes(x.lowpassType) == s[20..22] by { U16BytesRoundTrip(s, 20); }
    assert x.reserved == s[22..24];
    SlicesJoin(s, 0, 2, 6);
    SlicesJoin(s, 0, 6, 10);
    SlicesJoin(s, 0, 10, 12);
    SlicesJoin(s, 0, 12, 16);
    SlicesJoin(s, 0, 16, 20);
    SlicesJoin(s, 0, 20, 22);
    SlicesJoin(s, 0, 22, 24);
    assert s == s[0..24];
  }

  /** Payload of a DIGLABEL extended header. */
  datatype NEVDigitalLabelExtensionData = NEVDigitalLabelExtensionData(
    labelText: seq<Byte>,  // offset 0, 16 bytes
    mode: uint8,  // offset 16, 1 byte
    reserved: seq<Byte>  // offset 17, 7 bytes
  )
  {
    /** Every character array has its declared length. */
    predicate Valid() {
      |labelText| == 16 && |reserved| == 7
    }
  }

  /** Reads a NEVDigitalLabelExtensionData from exactly NEV_EXTENSION_DATA_SIZE bytes, each field little-endian at its packed offset. */
  function DecodeNEVDigitalLabelExtensionData(s: seq<Byte>): (r: NEVDigitalLabelExtensionData)
    requires |s| == NEV_EXTENSION_DATA_SIZE
    ensures r.Valid()
  {
    NEVDigitalLabelExtensionData(
      s[0..16],
      U8At(s, 16),
      s[17..24])
  }

  /** Writes a NEVDigitalLabelExtensionData as the packed little-endian bytes the file holds. */
  function EncodeNEVDigitalLabelExtensionData(x: NEVDigitalLabelExtensionData): (s: seq<Byte>)
    requires x.Valid()
    ensures |s| == NEV_EXTENSION_DATA_SIZE
  {
    x.labelText + U8Bytes(x.mode) + x.reserved
  }

  /** Decoding the encoding of a NEVDigitalLabelExtensionData gives back every field. */
  lemma NEVDigitalLabelExtensionDataRoundTrip(x: NEVDigitalLabelExtensionData)
    requires x.Valid()
    ensures DecodeNEVDigitalLabelExtensionData(EncodeNEVDigitalLabelExtensionData(x)) == x
  {
    var s := EncodeNEVDigitalLabelExtensionData(x);
    assert s[0..16] == x.labelText;
    assert s[16..17] == U8Bytes(x.mode); U8RoundTrip(x.mode, s, 16);
    assert s[17..24] == x.reserved;
  }

  /** Encoding a decoded NEVDigitalLabelExtensionData gives back every byte: the layout has no padding and no ignored bits. */
  lemma NEVDigitalLabelExtensionDataBytesRoundTrip(s: seq<Byte>)
    requires |s| == NEV_EXTENSION_DATA_SIZE
    ensures EncodeNEVDigitalLabelExtensionData(DecodeNEVDigitalLabelExtensionData(s)) == s
  {
    var x := DecodeNEVDigitalLabelExtensionData(s);
    assert x.labelText == s[0..16];
    assert U8Bytes(x.mode) == s[16..17] by { U8BytesRoundTrip(s, 16); }
    assert x.reserved == s[17..24];
    SlicesJoin(s, 0, 16, 17);
    SlicesJoin(s, 0, 17, 24);
    assert s == s[0..24];
  }

  /** Payload of a VIDEOSYN extended header; rate is the raw IEEE-754 bit pattern of the float. */
  datatype NEVVideoSyncExtensionData = NEVVideoSyncExtensionData(
    id: uint16,  // offset 0, 2 bytes
    name: seq<Byte>,  // offset 2, 16 bytes
    rate: uint32,  // offset 18, 4 bytes
    reserved: seq<Byte>  // offset 22, 2 bytes
  )
  {
    /** Every character array has its declared length. */
    predicate Valid() {
      |name| == 16 && |reserved| == 2
    }
  }

  /** Reads a NEVVideoSyncExtensionData from exactly NEV_EXTENSION_DATA_SIZE bytes, each field little-endian at its packed offset. */
  function DecodeNEVVideoSyncExtensionData(s: seq<Byte>): (r: NEVVideoSyncExtensionData)
    requires |s| == NEV_EXTENSION_DATA_SIZE
    ensures r.Valid()
  {
    NEVVideoSyncExtensionData(
      U16At(s, 0),
      s[2..18],
      U32At(s, 18),
      s[22..24])
  }

  /** Writes a NEVVideoSyncExtensionData as the packed little-endian bytes the file holds. */
  function EncodeNEVVideoSyncExtensionData(x: NEVVideoSyncExtensionData): (s: seq<Byte>)
    requires x.Valid()
    ensures |s| == NEV_EXTENSION_DATA_SIZE
  {
    U16Bytes(x.id) + x.name + U32Bytes(x.rate) + x.reserved
  }

  /** Decoding the encoding of a NEVVideoSyncExtensionData gives back every field. */
  lemma NEVVideoSyncExtensionDataRoundTrip(x: NEVVideoSyncExtensionData)
    requires x.Valid()
    ensures DecodeNEVVideoSyncExtensionData(EncodeNEVVideoSyncExtensionData(x)) == x
  {
    var s := EncodeNEVVideoSyncExtensionData(x);
    assert s[0..2] == U16Bytes(x.id); U16RoundTrip(x.id, s, 0);
    assert s[2..18] == x.name;
    assert s[18..22] == U32Bytes(x.rate); U32RoundTrip(x.rate, s, 18);
    assert s[22..24] == x.reserved;
  }

  /** Encoding a decoded NEVVideoSyncExtensionData gives back every byte: the layout has no padding and no ignored bits. */
  lemma NEVVideoSyncExtensionDataBytesRoundTrip(s: seq<Byte>)
    requires |s| == NEV_EXTENSION_DATA_SIZE
    ensures EncodeNEVVideoSyncExtensionData(DecodeNEVVideoSyncExtensionData(s)) == s
  {
    var x := DecodeNEVVideoSyncExtensionData(s);
    assert U16Bytes(x.id) == s[0..2] by { U16BytesRoundTrip(s, 0); }
    assert x.name == s[2..18];
    assert U32Bytes(x.rate) == s[18..22] by { U32BytesRoundTrip(s, 18); }
    assert x.reserved == s[22..24];
    SlicesJoin(s, 0, 2, 18);
    SlicesJoin(s, 0, 18, 22);
    SlicesJoin(s, 0, 22, 24);
    assert s == s[0..24];
  }

  /** Payload of a TRACKOBJ extended header. */
  datatype NEVTrackableObjectExtensionData = NEVTrackableObjectExtensionData(
    objectType: uint16,  // offset 0, 2 bytes
    id: uint16,  // offset 2, 2 bytes
    count: uint16,  // offset 4, 2 bytes
    name: seq<Byte>,  // offset 6, 16 bytes
    reserved: seq<Byte>  // offset 22, 2 bytes
  )
  {
    /** Every character array has its declared length. */
    predicate Valid() {
      |name| == 16 && |reserved| == 2
    }
  }

  /** Reads a NEVTrackableObjectExtensionData from exactly NEV_EXTENSION_DATA_SIZE bytes, each field little-endian at its packed offset. */
  function DecodeNEVTrackableObjectExtensionData(s: seq<Byte>): (r: NEVTrackableObjectExtensionData)
    requires |s| == NEV_EXTENSION_DATA_SIZE
    ensures r.Valid()
  {
    NEVTrackableObjectExtensionData(
      U16At(s, 0),
      U16At(s, 2),
      U16At(s, 4),
      s[6..22],
      s[22..24])
  }

  /** Writes a NEVTrackableObjectExtensionData as the packed little-endian bytes the file holds. */
  function EncodeNEVTrackableObjectExtensionData(x: NEVTrackableObjectExtensionData): (s: seq<Byte>)
    requires x.Valid()
    ensures |s| == NEV_EXTENSION_DATA_SIZE
  {
    U16Bytes(x.objectType) + U16Bytes(x.id) + U16Bytes(x.count) + x.name + x.reserved
  }

  /** Decoding the encoding of a NEVTrackableObjectExtensionData gives back every field. */
  lemma NEVTrackableObjectExtensionDataRoundTrip(x: NEVTrackableObjectExtensionData)
    requires x.Valid()
    ensures DecodeNEVTrackableObjectExtensionData(EncodeNEVTrackableObjectExtensionData(x)) == x
  {
    var s := EncodeNEVTrackableObjectExtensionData(x);
    assert s[0..2] == U16Bytes(x.objectType); U16RoundTrip(x.objectType, s, 0);
    assert s[2..4] == U16Bytes(x.id); U16RoundTrip(x.id, s, 2);
    assert s[4..6] == U16Bytes(x.count); U16RoundTrip(x.count, s, 4);
    assert s[6..22] == x.name;
    assert s[22..24] == x.reserved;
  }

  /** Encoding a decoded NEVTrackableObjectExtensionData gives back every byte: the layout has no padding and no ignored bits. */
  lemma NEVTrackableObjectExtensionDataBytesRoundTrip(s: seq<Byte>)
    requires |s| == NEV_EXTENSION_DATA_SIZE
    ensures EncodeNEVTrackableObjectExtensionData(DecodeNEVTrackableObjectExtensionData(s)) == s
  {
    var x := DecodeNEVTrackableObjectExtensionData(s);
    assert U16Bytes(x.objectType) == s[0..2] by { U16BytesRoundTrip(s, 0); }
    assert U16Bytes(x.id) == s[2..4] by { U16BytesRoundTrip(s, 2); }
    assert U16Bytes(x.count) == s[4..6] by { U16BytesRoundTrip(s, 4); }
    assert x.name == s[6..22];
    assert x.reserved == s[22..24];
    SlicesJoin(s, 0, 2, 4);
    SlicesJoin(s, 0, 4, 6);
    SlicesJoin(s, 0, 6, 22);
    SlicesJoin(s, 0, 22, 24);
    assert s == s[0..24];
  }

  /** The header that starts every NEV data package. */
  datatype NEVDataHeader = NEVDataHeader(
    timestamp: uint32,  // offset 0, 4 bytes
    id: uint16  // offset 4, 2 bytes
  )

  /** Reads a NEVDataHeader from exactly NEV_DATA_HEADER_SIZE bytes, each field little-endian at its packed offset. */
  function DecodeNEVDataHeader(s: seq<Byte>): (r: NEVDataHeader)
    requires |s| == NEV_DATA_HEADER_SIZE
  {
    NEVDataHeader(
      U32At(s, 0),
      U16At(s, 4))
  }

  /** Writes a NEVDataHeader as the packed little-endian bytes the file holds. */
  function EncodeNEVDataHeader(x: NEVDataHeader): (s: seq<Byte>)
    ensures |s| == NEV_DATA_HEADER_SIZE
  {
    U32Bytes(x.timestamp) + U16Bytes(x.id)
  }

  /** Decoding the encoding of a NEVDataHeader gives back every field. */
  lemma NEVDataHeaderRoundTrip(x: NEVDataHeader)
    ensures DecodeNEVDataHeader(EncodeNEVDataHeader(x)) == x
  {
    var s := EncodeNEVDataHeader(x);
    assert s[0..4] == U32Bytes(x.timestamp); U32RoundTrip(x.timestamp, s, 0);
    assert s[4..6] == U16Bytes(x.id); U16RoundTrip(x.id, s, 4);
  }

  /** Encoding a decoded NEVDataHeader gives back every byte: the layout has no padding and no ignored bits. */
  lemma NEVDataHeaderBytesRoundTrip(s: seq<Byte>)
    requires |s| == NEV_DATA_HEADER_SIZE
    ensures EncodeNEVDataHeader(DecodeNEVDataHeader(s)) == s
  {
    var x := DecodeNEVDataHeader(s);
    assert U32Bytes(x.timestamp) == s[0..4] by { U32BytesRoundTrip(s, 0); }
    assert U16Bytes(x.id) == s[4..6] by { U16BytesRoundTrip(s, 4); }
    assert s == s[0..4] + s[4..6];
  }

  /** Payload of a digital/serial data package. */
  datatype NEVDigitalSerialData = NEVDigitalSerialData(
    reason: uint8,  // offset 0, 1 byte
    reserved: uint8,  // offset 1, 1 byte
    input: uint16  // offset 2, 2 bytes
  )

  /** Reads a NEVDigitalSerialData from exactly NEV_DIGITAL_SERIAL_DATA_SIZE bytes, each field little-endian at its packed offset. */
  function DecodeNEVDigitalSerialData(s: seq<Byte>): (r: NEVDigitalSerialData)
    requires |s| == NEV_DIGITAL_SERIAL_DATA_SIZE
  {
    NEVDigitalSerialData(
      U8At(s, 0),
      U8At(s, 1),
      U16At(s, 2))
  }

  /** Writes a NEVDigitalSerialData as the packed little-endian bytes the file holds. */
  function EncodeNEVDigitalSerialData(x: NEVDigitalSerialData): (s: seq<Byte>)
    ensures |s| == NEV_DIGITAL_SERIAL_DATA_SIZE
  {
    U8Bytes(x.reason) + U8Bytes(x.reserved) + U16Bytes(x.input)
  }

  /** Decoding the encoding of a NEVDigitalSerialData gives back every field. */
  lemma NEVDigitalSerialDataRoundTrip(x: NEVDigitalSerialData)
    ensures DecodeNEVDigitalSerialData(EncodeNEVDigitalSerialData(x)) == x
  {
    var s := EncodeNEVDigitalSerialData(x);
    assert s[0..1] == U8Bytes(x.reason); U8RoundTrip(x.reason, s, 0);
    assert s[1..2] == U8Bytes(x.reserved); U8RoundTrip(x.reserved, s, 1);
    assert s[2..4] == U16Bytes(x.input); U16RoundTrip(x.input, s, 2);
  }

  /** Encoding a decoded NEVDigitalSerialData gives back every byte: the layout has no padding and no ignored bits. */
  lemma NEVDigitalSerialDataBytesRoundTrip(s: seq<Byte>)
    requires |s| == NEV_DIGITAL_SERIAL_DATA_SIZE
    ensures EncodeNEVDigitalSerialData(DecodeNEVDigitalSerialData(s)) == s
  {
    var x := DecodeNEVDigitalSerialData(s);
    assert U8Bytes(x.reason) == s[0..1] by { U8BytesRoundTrip(s, 0); }
    assert U8Bytes(x.reserved) == s[1..2] by { U8BytesRoundTrip(s, 1); }
    assert U16Bytes(x.input) == s[2..4] by { U16BytesRoundTrip(s, 2); }
    SlicesJoin(s, 0, 1, 2);
    SlicesJoin(s, 0, 2, 4);
    assert s == s[0..4];
  }

  /** Start of a spike data package payload (the waveform that follows is not decoded). */
  datatype NEVSpikeDataHeader = NEVSpikeDataHeader(
    unitClass: uint8,  // offset 0, 1 byte
    reserved: uint8  // offset 1, 1 byte
  )

  /** Reads a NEVSpikeDataHeader from exactly NEV_SPIKE_DATA_HEADER_SIZE bytes, each field little-endian at its packed offset. */
  function DecodeNEVSpikeDataHeader(s: seq<Byte>): (r: NEVSpikeDataHeader)
    requires |s| == NEV_SPIKE_DATA_HEADER_SIZE
  {
    NEVSpikeDataHeader(
      U8At(s, 0),
      U8At(s, 1))
  }

  /** Writes a NEVSpikeDataHeader as the packed little-endian bytes the file holds. */
  function EncodeNEVSpikeDataHeader(x: NEVSpikeDataHeader): (s: seq<Byte>)
    ensures |s| == NEV_SPIKE_DATA_HEADER_SIZE
  {
    U8Bytes(x.unitClass) + U8Bytes(x.reserved)
  }

  /** Decoding the encoding of a NEVSpikeDataHeader gives back every field. */
  lemma NEVSpikeDataHeaderRoundTrip(x: NEVSpikeDataHeader)
    ensures DecodeNEVSpikeDataHeader(EncodeNEVSpikeDataHeader(x)) == x
  {
    var s := EncodeNEVSpikeDataHeader(x);
    assert s[0..1] == U8Bytes(x.unitClass); U8RoundTrip(x.unitClass, s, 0);
    assert s[1..2] == U8Bytes(x.reserved); U8RoundTrip(x.reserved, s, 1);
  }

  /** Encoding a decoded NEVSpikeDataHeader gives back every byte: the layout has no padding and no ignored bits. */
  lemma NEVSpikeDataHeaderBytesRoundTrip(s: seq<Byte>)
    requires |s| == NEV_SPIKE_DATA_HEADER_SIZE
    ensures EncodeNEVSpikeDataHeader(DecodeNEVSpikeDataHeader(s)) == s
  {
    var x := DecodeNEVSpikeDataHeader(s);
    assert U8Bytes(x.unitClass) == s[0..1] by { U8BytesRoundTrip(s, 0); }
    assert U8Bytes(x.reserved) == s[1..2] by { U8BytesRoundTrip(s, 1); }
    assert s == s[0..1] + s[1..2];
  }

  /** Start of a configuration data package payload. */
  datatype NEVConfigurationDataHeader = NEVConfigurationDataHeader(
    changeType: uint16  // offset 0, 2 bytes
  )

  /** Reads a NEVConfigurationDataHeader from exactly NEV_CONFIGURATION_DATA_HEADER_SIZE bytes, each field little-endian at its packed offset. */
  function DecodeNEVConfigurationDataHeader(s: seq<Byte>): (r: NEVConfigurationDataHeader)
    requires |s| == NEV_CONFIGURATION_DATA_HEADER_SIZE
  {
    NEVConfigurationDataHeader(
      U16At(s, 0))
  }

  /** Writes a NEVConfigurationDataHeader as the packed little-endian bytes the file holds. */
  function EncodeNEVConfigurationDataHeader(x: NEVConfigurationDataHeader): (s: seq<Byte>)
    ensures |s| == NEV_CONFIGURATION_DATA_HEADER_SIZE
  {
    U16Bytes(x.changeType)
  }

  /** Decoding the encoding of a NEVConfigurationDataHeader gives back every field. */
  lemma NEVConfigurationDataHeaderRoundTrip(x: NEVConfigurationDataHeader)
    ensures DecodeNEVConfigurationDataHeader(EncodeNEVConfigurationDataHeader(x)) == x
  {
    var s := EncodeNEVConfigurationDataHeader(x);
    assert s[0..2] == U16Bytes(x.changeType); U16RoundTrip(x.changeType, s, 0);
  }

  /** Encoding a decoded NEVConfigurationDataHeader gives back every byte: the layout has no padding and no ignored bits. */
  lemma NEVConfigurationDataHeaderBytesRoundTrip(s: seq<Byte>)
    requires |s| == NEV_CONFIGURATION_DATA_HEADER_SIZE
    ensures EncodeNEVConfigurationDataHeader(DecodeNEVConfigurationDataHeader(s)) == s
  {
    var x := DecodeNEVConfigurationDataHeader(s);
    assert U16Bytes(x.changeType) == s[0..2] by { U16BytesRoundTrip(s, 0); }
    assert s == s[0..2];
  }

  /** Payload of a button data package. */
  datatype NEVButtonData = NEVButtonData(
    trigger: uint16  // offset 0, 2 bytes
  )

  /** Reads a NEVButtonData from exactly NEV_BUTTON_DATA_SIZE bytes, each field little-endian at its packed offset. */
  function DecodeNEVButtonData(s: seq<Byte>): (r: NEVButtonData)
    requires |s| == NEV_BUTTON_DATA_SIZE
  {
    NEVButtonData(
      U16At(s, 0))
  }

  /** Writes a NEVButtonData as the packed little-endian bytes the file holds. */
  function EncodeNEVButtonData(x: NEVButtonData): (s: seq<Byte>)
    ensures |s| == NEV_BUTTON_DATA_SIZE
  {
    U16Bytes(x.trigger)
  }

  /** Decoding the encoding of a NEVButtonData gives back every field. */
  lemma NEVButtonDataRoundTrip(x: NEVButtonData)
    ensures DecodeNEVButtonData(EncodeNEVButtonData(x)) == x
  {
    var s := EncodeNEVButtonData(x);
    assert s[0..2] == U16Bytes(x.trigger); U16RoundTrip(x.trigger, s, 0);
  }

  /** Encoding a decoded NEVButtonData gives back every byte: the layout has no padding and no ignored bits. */
  lemma NEVButtonDataBytesRoundTrip(s: seq<Byte>)
    requires |s| == NEV_BUTTON_DATA_SIZE
    ensures EncodeNEVButtonData(DecodeNEVButtonData(s)) == s
  {
    var x := DecodeNEVButtonData(s);
    assert U16Bytes(x.trigger) == s[0..2] by { U16BytesRoundTrip(s, 0); }
    assert s == s[0..2];
  }

  /** Payload of a video synchronisation data package. */
  datatype NEVVideoSyncData = NEVVideoSyncData(
    fileNumber: uint16,  // offset 0, 2 bytes
    frameNumber: uint32,  // offset 2, 4 bytes
    elapsedTime: uint32,  // offset 6, 4 bytes
    id: uint32  // offset 10, 4 bytes
  )

  /** Reads a NEVVideoSyncData from exactly NEV_VIDEO_SYNC_DATA_SIZE bytes, each field little-endian at its packed offset. */
  function DecodeNEVVideoSyncData(s: seq<Byte>): (r: NEVVideoSyncData)
    requires |s| == NEV_VIDEO_SYNC_DATA_SIZE
  {
    NEVVideoSyncData(
      U16At(s, 0),
      U32At(s, 2),
      U32At(s, 6),
      U32At(s, 10))
  }

  /** Writes a NEVVideoSyncData as the packed little-endian bytes the file holds. */
  function EncodeNEVVideoSyncData(x: NEVVideoSyncData): (s: seq<Byte>)
    ensures |s| == NEV_VIDEO_SYNC_DATA_SIZE
  {
    U16Bytes(x.fileNumber) + U32Bytes(x.frameNumber) + U32Bytes(x.elapsedTime) + U32Bytes(x.id)
  }

  /** Decoding the encoding of a NEVVideoSyncData gives back every field. */
  lemma NEVVideoSyncDataRoundTrip(x: NEVVideoSyncData)
    ensures DecodeNEVVideoSyncData(EncodeNEVVideoSyncData(x)) == x
  {
    var s := EncodeNEVVideoSyncData(x);
    assert s[0..2] == U16Bytes(x.fileNumber); U16RoundTrip(x.fileNumber, s, 0);
    assert s[2..6] == U32Bytes(x.frameNumber); U32RoundTrip(x.frameNumber, s, 2);
    assert s[6..10] == U32Bytes(x.elapsedTime); U32RoundTrip(x.elapsedTime, s, 6);
    assert s[10..14] == U32Bytes(x.id); U32RoundTrip(x.id, s, 10);
  }

  /** Encoding a decoded NEVVideoSyncData gives back every byte: the layout has no padding and no ignored bits. */
  lemma NEVVideoSyncDataBytesRoundTrip(s: seq<Byte>)
    requires |s| == NEV_VIDEO_SYNC_DATA_SIZE
    ensures EncodeNEVVideoSyncData(DecodeNEVVideoSyncData(s)) == s
  {
    var x := DecodeNEVVideoSyncData(s);
    assert U16Bytes(x.fileNumber) == s[0..2] by { U16BytesRoundTrip(s, 0); }
    assert U32Bytes(x.frameNumber) == s[2..6] by { U32BytesRoundTrip(s, 2); }
    assert U32Bytes(x.elapsedTime) == s[6..10] by { U32BytesRoundTrip(s, 6); }
    assert U32Bytes(x.id) == s[10..14] by { U32BytesRoundTrip(s, 10); }
    SlicesJoin(s, 0, 2, 6);
    SlicesJoin(s, 0, 6, 10);
    SlicesJoin(s, 0, 10, 14);
    assert s == s[0..14];
  }

  /** Start of a tracking data package payload (the points that follow are not decoded). */
  datatype NEVTrackingDataHeader = NEVTrackingDataHeader(
    parentId: uint16,  // offset 0, 2 bytes
    nodeId: uint16,  // offset 2, 2 bytes
    nodeCount: uint16,  // offset 4, 2 bytes
    pointCount: uint16  // offset 6, 2 bytes
  )

  /** Reads a NEVTrackingDataHeader from exactly NEV_TRACKING_DATA_HEADER_SIZE bytes, each field little-endian at its packed offset. */
  function DecodeNEVTrackingDataHeader(s: seq<Byte>): (r: NEVTrackingDataHeader)
    requires |s| == NEV_TRACKING_DATA_HEADER_SIZE
  {
    NEVTrackingDataHeader(
      U16At(s, 0),
      U16At(s, 2),
      U16At(s, 4),
      U16At(s, 6))
  }

  /** Writes a NEVTrackingDataHeader as the packed little-endian bytes the file holds. */
  function EncodeNEVTrackingDataHeader(x: NEVTrackingDataHeader): (s: seq<Byte>)
    ensures |s| == NEV_TRACKING_DATA_HEADER_SIZE
  {
    U16Bytes(x.parentId) + U16Bytes(x.nodeId) + U16Bytes(x.nodeCount) + U16Bytes(x.pointCount)
  }

  /** Decoding the encoding of a NEVTrackingDataHeader gives back every field. */
  lemma NEVTrackingDataHeaderRoundTrip(x: NEVTrackingDataHeader)
    ensures DecodeNEVTrackingDataHeader(EncodeNEVTrackingDataHeader(x)) == x
  {
    var s := EncodeNEVTrackingDataHeader(x);
    assert s[0..2] == U16Bytes(x.parentId); U16RoundTrip(x.parentId, s, 0);
    assert s[2..4] == U16Bytes(x.nodeId); U16RoundTrip(x.nodeId, s, 2);
    assert s[4..6] == U16Bytes(x.nodeCount); U16RoundTrip(x.nodeCount, s, 4);
    assert s[6..8] == U16Bytes(x.pointCount); U16RoundTrip(x.pointCount, s, 6);
  }

  /** Encoding a decoded NEVTrackingDataHeader gives back every byte: the layout has no padding and no ignored bits. */
  lemma NEVTrackingDataHeaderBytesRoundTrip(s: seq<Byte>)
    requires |s| == NEV_TRACKING_DATA_HEADER_SIZE
    ensures EncodeNEVTrackingDataHeader(DecodeNEVTrackingDataHeader(s)) == s
  {
    var x := DecodeNEVTrackingDataHeader(s);
    assert U16Bytes(x.parentId) == s[0..2] by { U16BytesRoundTrip(s, 0); }
    assert U16Bytes(x.nodeId) == s[2..4] by { U16BytesRoundTrip(s, 2); }
    assert U16Bytes(x.nodeCount) == s[4..6] by { U16BytesRoundTrip(s, 4); }
    assert U16Bytes(x.pointCount) == s[6..8] by { U16BytesRoundTrip(s, 6); }
    SlicesJoin(s, 0, 2, 4);
    SlicesJoin(s, 0, 4, 6);
    SlicesJoin(s, 0, 6, 8);
    assert s == s[0..8];
  }

  /** Start of a comment data package payload (the text that follows is not decoded). */
  datatype NEVCommentDataHeader = NEVCommentDataHeader(
    charSet: uint8,  // offset 0, 1 byte
    reserved: uint8,  // offset 1, 1 byte
    color: uint32  // offset 2, 4 bytes
  )

  /** Reads a NEVCommentDataHeader from exactly NEV_COMMENT_DATA_HEADER_SIZE bytes, each field little-endian at its packed offset. */
  function DecodeNEVCommentDataHeader(s: seq<Byte>): (r: NEVCommentDataHeader)
    requires |s| == NEV_COMMENT_DATA_HEADER_SIZE
  {
    NEVCommentDataHeader(
      U8At(s, 0),
      U8At(s, 1),
      U32At(s, 2))
  }

  /** Writes a NEVCommentDataHeader as the packed little-endian bytes the file holds. */
  function EncodeNEVCommentDataHeader(x: NEVCommentDataHeader): (s: seq<Byte>)
    ensures |s| == NEV_COMMENT_DATA_HEADER_SIZE
  {
    U8Bytes(x.charSet) + U8Bytes(x.reserved) + U32Bytes(x.color)
  }

  /** Decoding the encoding of a NEVCommentDataHeader gives back every field. */
  lemma NEVCommentDataHeaderRoundTrip(x: NEVCommentDataHeader)
    ensures DecodeNEVCommentDataHeader(EncodeNEVCommentDataHeader(x)) == x
  {
    var s := EncodeNEVCommentDataHeader(x);
    assert s[0..1] == U8Bytes(x.charSet); U8RoundTrip(x.charSet, s, 0);
    assert s[1..2] == U8Bytes(x.reserved); U8RoundTrip(x.reserved, s, 1);
    assert s[2..6] == U32Bytes(x.color); U32RoundTrip(x.color, s, 2);
  }

  /** Encoding a decoded NEVCommentDataHeader gives back every byte: the layout has no padding and no ignored bits. */
  lemma NEVCommentDataHeaderBytesRoundTrip(s: seq<Byte>)
    requires |s| == NEV_COMMENT_DATA_HEADER_SIZE
    ensures EncodeNEVCommentDataHeader(DecodeNEVCommentDataHeader(s)) == s
  {
    var x := DecodeNEVCommentDataHeader(s);
    assert U8Bytes(x.charSet) == s[0..1] by { U8BytesRoundTrip(s, 0); }
    assert U8Bytes(x.reserved) == s[1..2] by { U8BytesRoundTrip(s, 1); }
    assert U32Bytes(x.color) == s[2..6] by { U32BytesRoundTrip(s, 2); }
    SlicesJoin(s, 0, 1, 2);
    SlicesJoin(s, 0, 2, 6);
    assert s == s[0..6];
  }

  /** The NEURALCD basic header at the start of an NSx 2.2 file. */
  datatype NSXBasicHeader = NSXBasicHeader(
    fileType: seq<Byte>,  // offset 0, 8 bytes
    fileSpec: uint16,  // offset 8, 2 bytes
    headerSize: uint32,  // offset 10, 4 bytes
    labelText: seq<Byte>,  // offset 14, 16 bytes
    comment: seq<Byte>,  // offset 30, 256 bytes
    samplingPeriod: uint32,  // offset 286, 4 bytes
    timeResolution: uint32,  // offset 290, 4 bytes
    timeOrigin: WindowsSystemTime,  // offset 294, 16 bytes
    channelCount: uint32  // offset 310, 4 bytes
  )
  {
    /** Every character array has its declared length. */
    predicate Valid() {
      |fileType| == 8 && |labelText| == 16 && |comment| == 256
    }
  }

  /** Reads a NSXBasicHeader from exactly NSX_BASIC_HEADER_SIZE bytes, each field little-endian at its packed offset. */
  function DecodeNSXBasicHeader(s: seq<Byte>): (r: NSXBasicHeader)
    requires |s| == NSX_BASIC_HEADER_SIZE
    ensures r.Valid()
  {
    NSXBasicHeader(
      s[0..8],
      U16At(s, 8),
      U32At(s, 10),
      s[14..30],
      s[30..286],
      U32At(s, 286),
      U32At(s, 290),
      DecodeWindowsSystemTime(s[294..310]),
      U32At(s, 310))
  }

  /** Writes a NSXBasicHeader as the packed little-endian bytes the file holds. */
  function EncodeNSXBasicHeader(x: NSXBasicHeader): (s: seq<Byte>)
    requires x.Valid()
    ensures |s| == NSX_BASIC_HEADER_SIZE
  {
    x.fileType + U16Bytes(x.fileSpec) + U32Bytes(x.headerSize) + x.labelText + x.comment
    + U32Bytes(x.samplingPeriod) + U32Bytes(x.timeResolution)
    + EncodeWindowsSystemTime(x.timeOrigin) + U32Bytes(x.channelCount)
  }

  /** Decoding the encoding of a NSXBasicHeader gives back every field. */
  lemma NSXBasicHeaderRoundTrip(x: NSXBasicHeader)
    requires x.Valid()
    ensures DecodeNSXBasicHeader(EncodeNSXBasicHeader(x)) == x
  {
    var s := EncodeNSXBasicHeader(x);
    assert s[0..8] == x.fileType;
    assert s[8..10] == U16Bytes(x.fileSpec); U16RoundTrip(x.fileSpec, s, 8);
    assert s[10..14] == U32Bytes(x.headerSize); U32RoundTrip(x.headerSize, s, 10);
    assert s[14..30] == x.labelText;
    assert s[30..286] == x.comment;
    assert s[286..290] == U32Bytes(x.samplingPeriod); U32RoundTrip(x.samplingPeriod, s, 286);
    assert s[290..294] == U32Bytes(x.timeResolution); U32RoundTrip(x.timeResolution, s, 290);
    assert s[294..310] == EncodeWindowsSystemTime(x.timeOrigin); WindowsSystemTimeRoundTrip(x.timeOrigin);
    assert s[310..314] == U32Bytes(x.channelCount); U32RoundTrip(x.channelCount, s, 310);
  }

  /** Encoding a decoded NSXBasicHeader gives back every byte: the layout has no padding and no ignored bits. */
  lemma NSXBasicHeaderBytesRoundTrip(s: seq<Byte>)
    requires |s| == NSX_BASIC_HEADER_SIZE
    ensures EncodeNSXBasicHeader(DecodeNSXBasicHeader(s)) == s
  {
    var x := DecodeNSXBasicHeader(s);
    assert x.fileType == s[0..8];
    assert U16Bytes(x.fileSpec) == s[8..10] by { U16BytesRoundTrip(s, 8); }
    assert U32Bytes(x.headerSize) == s[10..14] by { U32BytesRoundTrip(s, 10); }
    assert x.labelText == s[14..30];
    assert x.comment == s[30..286];
    assert U32Bytes(x.samplingPeriod) == s[286..290] by { U32BytesRoundTrip(s, 286); }
    assert U32Bytes(x.timeResolution) == s[290..294] by { U32BytesRoundTrip(s, 290); }
    assert EncodeWindowsSystemTime(x.timeOrigin) == s[294..310] by { WindowsSystemTimeBytesRoundTrip(s[294..310]); }
    assert U32Bytes(x.channelCount) == s[310..314] by { U32BytesRoundTrip(s, 310); }
    SlicesJoin(s, 0, 8, 10);
    SlicesJoin(s, 0, 10, 14);
    SlicesJoin(s, 0, 14, 30);
    SlicesJoin(s, 0, 30, 286);
    SlicesJoin(s, 0, 286, 290);
    SlicesJoin(s, 0, 290, 294);
    SlicesJoin(s, 0, 294, 310);
    SlicesJoin(s, 0, 310, 314);
    assert s == s[0..314];
  }

  /** The NSx extended header describing one continuous channel. */
  datatype NSXExtensionHeader = NSXExtensionHeader(
    channelType: seq<Byte>,  // offset 0, 2 bytes
    id: uint16,  // offset 2, 2 bytes
    labelText: seq<Byte>,  // offset 4, 16 bytes
    bank: uint8,  // offset 20, 1 byte
    pin: uint8,  // offset 21, 1 byte
    minDigitalValue: int16,  // offset 22, 2 bytes
    maxDigitalValue: int16,  // offset 24, 2 bytes
    minAnalogValue: int16,  // offset 26, 2 bytes
    maxAnalogValue: int16,  // offset 28, 2 bytes
    unit: seq<Byte>,  // offset 30, 16 bytes
    highpassCorner: uint32,  // offset 46, 4 bytes
    highpassOrder: uint32,  // offset 50, 4 bytes
    highpassType: uint16,  // offset 54, 2 bytes
    lowpassCorner: uint32,  // offset 56, 4 bytes
    lowpassOrder: uint32,  // offset 60, 4 bytes
    lowpassType: uint16  // offset 64, 2 bytes
  )
  {
    /** Every character array has its declared length. */
    predicate Valid() {
      |channelType| == 2 && |labelText| == 16 && |unit| == 16
    }
  }

  /** Reads a NSXExtensionHeader from exactly NSX_EXTENSION_HEADER_SIZE bytes, each field little-endian at its packed offset. */
  function DecodeNSXExtensionHeader(s: seq<Byte>): (r: NSXExtensionHeader)
    requires |s| == NSX_EXTENSION_HEADER_SIZE
    ensures r.Valid()
  {
    NSXExtensionHeader(
      s[0..2],
      U16At(s, 2),
      s[4..20],
      U8At(s, 20),
      U8At(s, 21),
      I16At(s, 22),
      I16At(s, 24),
      I16At(s, 26),
      I16At(s, 28),
      s[30..46],
      U32At(s, 46),
      U32At(s, 50),
      U16At(s, 54),
      U32At(s, 56),
      U32At(s, 60),
      U16At(s, 64))
  }

  /** Writes a NSXExtensionHeader as the packed little-endian bytes the file holds. */
  function EncodeNSXExtensionHeader(x: NSXExtensionHeader): (s: seq<Byte>)
    requires x.Valid()
    ensures |s| == NSX_EXTENSION_HEADER_SIZE
  {
    x.channelType + U16Bytes(x.id) + x.labelText + U8Bytes(x.bank) + U8Bytes(x.pin)
    + I16Bytes(x.minDigitalValue) + I16Bytes(x.maxDigitalValue) + I16Bytes(x.minAnalogValue)
    + I16Bytes(x.maxAnalogValue) + x.unit + U32Bytes(x.highpassCorner) + U32Bytes(x.highpassOrder)
    + U16Bytes(x.highpassType) + U32Bytes(x.lowpassCorner) + U32Bytes(x.lowpassOrder)
    + U16Bytes(x.lowpassType)
  }

  /** Decoding the encoding of a NSXExtensionHeader gives back every field. */
  lemma NSXExtensionHeaderRoundTrip(x: NSXExtensionHeader)
    requires x.Valid()
    ensures DecodeNSXExtensionHeader(EncodeNSXExtensionHeader(x)) == x
  {
    NSXExtensionHeaderChannelFields(x);
    NSXExtensionHeaderFilterFields(x);
  }

  /** The fields up to the analog range come back from their bytes. */
  lemma NSXExtensionHeaderChannelFields(x: NSXExtensionHeader)
    requires x.Valid()
    ensures var s := EncodeNSXExtensionHeader(x);
      && s[0..2] == x.channelType && U16At(s, 2) == x.id && s[4..20] == x.labelText
      && U8At(s, 20) == x.bank && U8At(s, 21) == x.pin
      && I16At(s, 22) == x.minDigitalValue && I16At(s, 24) == x.maxDigitalValue
      && I16At(s, 26) == x.minAnalogValue && I16At(s, 28) == x.maxAnalogValue
  {
    var s := EncodeNSXExtensionHeader(x);
    assert s[0..2] == x.channelType;
    assert s[2..4] == U16Bytes(x.id); U16RoundTrip(x.id, s, 2);
    assert s[4..20] == x.labelText;
    assert s[20..21] == U8Bytes(x.bank); U8RoundTrip(x.bank, s, 20);
    assert s[21..22] == U8Bytes(x.pin); U8RoundTrip(x.pin, s, 21);
    assert s[22..24] == I16Bytes(x.minDigitalValue); I16RoundTrip(x.minDigitalValue, s, 22);
    assert s[24..26] == I16Bytes(x.maxDigitalValue); I16RoundTrip(x.maxDigitalValue, s, 24);
    assert s[26..28] == I16Bytes(x.minAnalogValue); I16RoundTrip(x.minAnalogValue, s, 26);
    assert s[28..30] == I16Bytes(x.maxAnalogValue); I16RoundTrip(x.maxAnalogValue, s, 28);
  }

  /** The unit and the filter fields come back from their bytes. */
  lemma NSXExtensionHeaderFilterFields(x: NSXExtensionHeader)
    requires x.Valid()
    ensures var s := EncodeNSXExtensionHeader(x);
      && s[30..46] == x.unit && U32At(s, 46) == x.highpassCorner && U32At(s, 50) == x.highpassOrder
      && U16At(s, 54) == x.highpassType && U32At(s, 56) == x.lowpassCorner && U32At(s, 60) == x.lowpassOrder
      && U16At(s, 64) == x.lowpassType
  {
    var s := EncodeNSXExtensionHeader(x);
    assert s[30..46] == x.unit;
    assert s[46..50] == U32Bytes(x.highpassCorner); U32RoundTrip(x.highpassCorner, s, 46);
    assert s[50..54] == U32Bytes(x.highpassOrder); U32RoundTrip(x.highpassOrder, s, 50);
    assert s[54..56] == U16Bytes(x.highpassType); U16RoundTrip(x.highpassType, s, 54);
    assert s[56..60] == U32Bytes(x.lowpassCorner); U32RoundTrip(x.lowpassCorner, s, 56);
    assert s[60..64] == U32Bytes(x.lowpassOrder); U32RoundTrip(x.lowpassOrder, s, 60);
    assert s[64..66] == U16Bytes(x.lowpassType); U16RoundTrip(x.lowpassType, s, 64);
  }

  /** Encoding a decoded NSXExtensionHeader gives back every byte: the layout has no padding and no ignored bits. */
  lemma NSXExtensionHeaderBytesRoundTrip(s: seq<Byte>)
    requires |s| == NSX_EXTENSION_HEADER_SIZE
    ensures EncodeNSXExtensionHeader(DecodeNSXExtensionHeader(s)) == s
  {
    var x := DecodeNSXExtensionHeader(s);
    assert x.channelType == s[0..2];
    assert U16Bytes(x.id) == s[2..4] by { U16BytesRoundTrip(s, 2); }
    assert x.labelText == s[4..20];
    assert U8Bytes(x.bank) == s[20..21] by { U8BytesRoundTrip(s, 20); }
    assert U8Bytes(x.pin) == s[21..22] by { U8BytesRoundTrip(s, 21); }
    assert I16Bytes(x.minDigitalValue) == s[22..24] by { I16BytesRoundTrip(s, 22); }
    assert I16Bytes(x.maxDigitalValue) == s[24..26] by { I16BytesRoundTrip(s, 24); }
    assert I16Bytes(x.minAnalogValue) == s[26..28] by { I16BytesRoundTrip(s, 26); }
    assert I16Bytes(x.maxAnalogValue) == s[28..30] by { I16BytesRoundTrip(s, 28); }
    assert x.unit == s[30..46];
    assert U32Bytes(x.highpassCorner) == s[46..50] by { U32BytesRoundTrip(s, 46); }
    assert U32Bytes(x.highpassOrder) == s[50..54] by { U32BytesRoundTrip(s, 50); }
    assert U16Bytes(x.highpassType) == s[54..56] by { U16BytesRoundTrip(s, 54); }
    assert U32Bytes(x.lowpassCorner) == s[56..60] by { U32BytesRoundTrip(s, 56); }
    assert U32Bytes(x.lowpassOrder) == s[60..64] by { U32BytesRoundTrip(s, 60); }
    assert U16Bytes(x.lowpassType) == s[64..66] by { U16BytesRoundTrip(s, 64); }
    SlicesJoin(s, 0, 2, 4);
    SlicesJoin(s, 0, 4, 20);
    SlicesJoin(s, 0, 20, 21);
    SlicesJoin(s, 0, 21, 22);
    SlicesJoin(s, 0, 22, 24);
    SlicesJoin(s, 0, 24, 26);
    SlicesJoin(s, 0, 26, 28);
    SlicesJoin(s, 0, 28, 30);
    SlicesJoin(s, 0, 30, 46);
    SlicesJoin(s, 0, 46, 50);
    SlicesJoin(s, 0, 50, 54);
    SlicesJoin(s, 0, 54, 56);
    SlicesJoin(s, 0, 56, 60);
    SlicesJoin(s, 0, 60, 64);
    SlicesJoin(s, 0, 64, 66);
    assert s == s[0..66];
  }

  /** The header of the (first) NSx data block. */
  datatype NSXDataHeader = NSXDataHeader(
    header: uint8,  // offset 0, 1 byte
    timestamp: uint32,  // offset 1, 4 bytes
    length: uint32  // offset 5, 4 bytes
  )

  /** Reads a NSXDataHeader from exactly NSX_DATA_HEADER_SIZE bytes, each field little-endian at its packed offset. */
  function DecodeNSXDataHeader(s: seq<Byte>): (r: NSXDataHeader)
    requires |s| == NSX_DATA_HEADER_SIZE
  {
    NSXDataHeader(
      U8At(s, 0),
      U32At(s, 1),
      U32At(s, 5))
  }

  /** Writes a NSXDataHeader as the packed little-endian bytes the file holds. */
  function EncodeNSXDataHeader(x: NSXDataHeader): (s: seq<Byte>)
    ensures |s| == NSX_DATA_HEADER_SIZE
  {
    U8Bytes(x.header) + U32Bytes(x.timestamp) + U32Bytes(x.length)
  }

  /** Decoding the encoding of a NSXDataHeader gives back every field. */
  lemma NSXDataHeaderRoundTrip(x: NSXDataHeader)
    ensures DecodeNSXDataHeader(EncodeNSXDataHeader(x)) == x
  {
    var s := EncodeNSXDataHeader(x);
    assert s[0..1] == U8Bytes(x.header); U8RoundTrip(x.header, s, 0);
    assert s[1..5] == U32Bytes(x.timestamp); U32RoundTrip(x.timestamp, s, 1);
    assert s[5..9] == U32Bytes(x.length); U32RoundTrip(x.length, s, 5);
  }

  /** Encoding a decoded NSXDataHeader gives back every byte: the layout has no padding and no ignored bits. */
  lemma NSXDataHeaderBytesRoundTrip(s: seq<Byte>)
    requires |s| == NSX_DATA_HEADER_SIZE
    ensures EncodeNSXDataHeader(DecodeNSXDataHeader(s)) == s
  {
    var x := DecodeNSXDataHeader(s);
    assert U8Bytes(x.header) == s[0..1] by { U8BytesRoundTrip(s, 0); }
    assert U32Bytes(x.timestamp) == s[1..5] by { U32BytesRoundTrip(s, 1); }
    assert U32Bytes(x.length) == s[5..9] by { U32BytesRoundTrip(s, 5); }
    SlicesJoin(s, 0, 1, 5);
    SlicesJoin(s, 0, 5, 9);
    assert s == s[0..9];
  }
}
