/**
  The provider of the continuous traces of a Blackrock NSx 2.2 file, and the
  state it shares with every traces provider.

  The file is given by its contents, a byte sequence, and whether it can be
  opened is an input flag. The program's doubles are reals here: every
  conversion of a double to an integer drops the fraction, as C++ does.
 */
module NsxTraces {
  import opened Wrappers
  import opened LittleEndian
  import opened Blackrock

  const NSX_RESOLUTION := 16
  const NSX_OFFSET := 0
  /** The sampling period of the basic header counts ticks of this 30 kHz clock. */
  const NSX_CLOCK_RATE: real := 30000.0
  /** Every sample value is a little-endian int16. */
  const SAMPLE_SIZE := 2
  /** The character arrays holding a unit or a label are this long. */
  const CHAR_ARRAY_SIZE := 16

  // ---------------------------------------------------------------------------
  // Arithmetic of the program's doubles.

  /** A double converted to an integer: the fraction is dropped, rounding toward zero. */
  function TruncReal(x: real): (n: int)
    ensures x >= 0.0 ==> n as real <= x < n as real + 1.0
    ensures x < 0.0 ==> n as real - 1.0 < x <= n as real
  {
    if x >= 0.0 then x.Floor else -((-x).Floor)
  }

  lemma TruncMonotone(x: real, y: real)
    requires x <= y
    ensures TruncReal(x) <= TruncReal(y)
  {
  }

  lemma TruncOfInteger(k: int)
    ensures TruncReal(k as real) == k
  {
  }

  /**
    round: one half is added away from zero and the fraction dropped, so the
    result is the nearest integer and a half goes away from zero.
   */
  function Round(d: real): (n: int)
    ensures d > 0.0 ==> n as real - 0.5 <= d < n as real + 0.5
    ensures d <= 0.0 ==> n as real - 0.5 < d <= n as real + 0.5
  {
    if d > 0.0 then TruncReal(d + 0.5) else TruncReal(d - 0.5)
  }

  /** Rounding commutes with negation. */
  lemma RoundOdd(d: real)
    ensures Round(-d) == -Round(d)
  {
    if d == 0.0 {
      assert Round(d) == TruncReal(-0.5) == 0;
    }
  }

  /** Whole numbers are kept, and halves go away from zero. */
  lemma RoundWhole(k: int)
    ensures Round(k as real) == k
    ensures Round(k as real + 0.5) == (if k >= 0 then k + 1 else k)
  {
    if k >= 0 {
      assert Round(k as real + 0.5) == TruncReal(k as real + 1.0);
      TruncOfInteger(k + 1);
    } else {
      assert Round(k as real + 0.5) == TruncReal(k as real);
      TruncOfInteger(k);
    }
    if k > 0 {
      assert Round(k as real) == TruncReal(k as real + 0.5);
    } else {
      assert Round(k as real) == TruncReal(k as real - 0.5);
    }
  }

  // ---------------------------------------------------------------------------
  // Character arrays.

  /** The characters of the C string at the start of s: the bytes before its first NUL, or all of s when it holds none. */
  function CString(s: seq<Byte>): (t: seq<Byte>)
    ensures |t| <= |s| && t == s[..|t|]
    ensures forall i :: 0 <= i < |t| ==> t[i] != 0
    ensures |t| < |s| ==> s[|t|] == 0
  {
    if s == [] || s[0] == 0 then [] else [s[0]] + CString(s[1..])
  }

  /** The byte at i of a character array, a NUL past its end (a literal's terminator). */
  function CharAt(s: seq<Byte>, i: nat): Byte {
    if i < |s| then s[i] else 0
  }

  /**
    strncmp of a and b from index i on, up to index n, gives 0: they agree at
    every index until both hold a NUL.
   */
  predicate StrNEqualFrom(a: seq<Byte>, b: seq<Byte>, i: nat, n: nat)
    decreases n - i
  {
    i >= n || (CharAt(a, i) == CharAt(b, i) && (CharAt(a, i) == 0 || StrNEqualFrom(a, b, i + 1, n)))
  }

  lemma {:induction false} StrNEqualSuffix(a: seq<Byte>, lit: seq<Byte>, i: nat)
    requires i <= |lit| < |a| && forall j :: 0 <= j < |lit| ==> lit[j] != 0
    ensures StrNEqualFrom(a, lit, i, |a|) <==> CString(a[i..]) == lit[i..]
    decreases |lit| - i
  {
    if i < |lit| {
      StrNEqualSuffix(a, lit, i + 1);
      assert a[i..][1..] == a[i + 1..];
      if a[i] != 0 {
        assert CString(a[i..]) == [a[i]] + CString(a[i + 1..]);
      }
      assert lit[i..] == [lit[i]] + lit[i + 1..];
    }
  }

  /** Comparing a character array with a shorter NUL-free literal by strncmp is comparing its C string with the literal. */
  lemma StrNEqualIsCStringEqual(a: seq<Byte>, lit: seq<Byte>)
    requires |lit| < |a| && forall j :: 0 <= j < |lit| ==> lit[j] != 0
    ensures StrNEqualFrom(a, lit, 0, |a|) <==> CString(a) == lit
  {
    StrNEqualSuffix(a, lit, 0);
    assert a[0..] == a && lit[0..] == lit;
  }

  /** A string holding the characters of the given bytes, as QString takes them from a char array. */
  function Chars(s: seq<Byte>): (t: string)
    ensures |t| == |s| && forall i :: 0 <= i < |s| ==> t[i] as int == s[i]
  {
    seq(|s|, i requires 0 <= i < |s| => s[i] as char)
  }

  /** The label of a channel: the C string of its label field. */
  function Label(h: NSXExtensionHeader): string {
    Chars(CString(h.labelText))
  }

  // ---------------------------------------------------------------------------
  // Units and the conversion to microvolts.

  /** "uV" and "mV", without their terminating NUL. */
  const MICROVOLT: seq<Byte> := [0x75, 0x56]
  const MILLIVOLT: seq<Byte> := [0x6D, 0x56]

  /** The factor taking a channel's analog values to microvolts: 1 for "uV", 1000 for "mV", None for any other unit. */
  function UnitCorrection(unit: seq<Byte>): Option<int> {
    if StrNEqualFrom(unit, MICROVOLT, 0, CHAR_ARRAY_SIZE) then Some(1)
    else if StrNEqualFrom(unit, MILLIVOLT, 0, CHAR_ARRAY_SIZE) then Some(1000)
    else None
  }

  /** The unit factor is decided by the unit's C string alone. */
  lemma UnitCorrectionByName(unit: seq<Byte>)
    requires |unit| == CHAR_ARRAY_SIZE
    ensures UnitCorrection(unit) == Some(1) <==> CString(unit) == MICROVOLT
    ensures UnitCorrection(unit) == Some(1000) <==> CString(unit) == MILLIVOLT
    ensures UnitCorrection(unit).None? <==> CString(unit) != MICROVOLT && CString(unit) != MILLIVOLT
  {
    StrNEqualIsCStringEqual(unit, MICROVOLT);
    StrNEqualIsCStringEqual(unit, MILLIVOLT);
  }

  /** The program divides by the digital range of every channel it converts. */
  predicate HasDigitalRange(h: NSXExtensionHeader) {
    h.maxDigitalValue != h.minDigitalValue
  }

  /** The analog value of a raw sample: the digital range of its channel mapped linearly onto the analog range. */
  function AnalogValue(raw: int, h: NSXExtensionHeader): real
    requires HasDigitalRange(h)
  {
    var minDigital := h.minDigitalValue;
    var rangeDigital := h.maxDigitalValue - minDigital;
    var minAnalog := h.minAnalogValue;
    var rangeAnalog := h.maxAnalogValue - minAnalog;
    ((raw - minDigital) as real / rangeDigital as real) * rangeAnalog as real + minAnalog as real
  }

  /** A raw sample of a channel in microvolts: its analog value scaled by the unit factor, the fraction dropped. */
  function ToMicrovolts(raw: int, h: NSXExtensionHeader, unit: int): int
    requires HasDigitalRange(h)
  {
    Scaled(AnalogValue(raw, h), unit)
  }

  /** A value scaled by a unit factor, the fraction dropped. */
  function Scaled(x: real, unit: int): int {
    TruncReal(x * unit as real)
  }

  /** The least digital value maps to the least analog value. */
  lemma MinDigitalToMinAnalog(h: NSXExtensionHeader, unit: int)
    requires HasDigitalRange(h)
    ensures ToMicrovolts(h.minDigitalValue, h, unit) == h.minAnalogValue * unit
  {
    assert AnalogValue(h.minDigitalValue, h) == h.minAnalogValue as real;
    TruncOfInteger(h.minAnalogValue * unit);
  }

  /** The greatest digital value maps to the greatest analog value. */
  lemma MaxDigitalToMaxAnalog(h: NSXExtensionHeader, unit: int)
    requires HasDigitalRange(h)
    ensures ToMicrovolts(h.maxDigitalValue, h, unit) == h.maxAnalogValue * unit
  {
    DivSelf((h.maxDigitalValue - h.minDigitalValue) as real);
    assert AnalogValue(h.maxDigitalValue, h) == h.maxAnalogValue as real;
    TruncOfInteger(h.maxAnalogValue * unit);
  }

  lemma AnalogValueMonotone(raw1: int, raw2: int, h: NSXExtensionHeader)
    requires raw1 <= raw2 && h.minDigitalValue < h.maxDigitalValue && h.minAnalogValue <= h.maxAnalogValue
    ensures AnalogValue(raw1, h) <= AnalogValue(raw2, h)
  {
    var rangeDigital := (h.maxDigitalValue - h.minDigitalValue) as real;
    var x1 := (raw1 - h.minDigitalValue) as real / rangeDigital;
    var x2 := (raw2 - h.minDigitalValue) as real / rangeDigital;
    DivMonotone((raw1 - h.minDigitalValue) as real, (raw2 - h.minDigitalValue) as real, rangeDigital);
    MulMonotone(x1, x2, (h.maxAnalogValue - h.minAnalogValue) as real);
  }

  /** With increasing ranges and a positive unit, a greater raw value never gives a smaller result. */
  lemma ToMicrovoltsMonotone(raw1: int, raw2: int, h: NSXExtensionHeader, unit: int)
    requires raw1 <= raw2 && h.minDigitalValue < h.maxDigitalValue && h.minAnalogValue <= h.maxAnalogValue && unit >= 0
    ensures ToMicrovolts(raw1, h, unit) <= ToMicrovolts(raw2, h, unit)
  {
    var a1, a2 := AnalogValue(raw1, h), AnalogValue(raw2, h);
    assert a1 <= a2 by {
      AnalogValueMonotone(raw1, raw2, h);
    }
    ScaledMonotone(a1, a2, unit);
  }

  lemma ScaledMonotone(x: real, y: real, k: int)
    requires x <= y && k >= 0
    ensures Scaled(x, k) <= Scaled(y, k)
  {
    MulMonotone(x, y, k as real);
    TruncMonotone(x * k as real, y * k as real);
  }

  lemma DivSelf(x: real)
    requires x != 0.0
    ensures x / x == 1.0
  {
  }

  lemma DivMonotone(x: real, y: real, k: real)
    requires x <= y && k > 0.0
    ensures x / k <= y / k
  {
  }

  lemma MulMonotone(x: real, y: real, k: real)
    requires x <= y && k >= 0.0
    ensures x * k <= y * k
  {
  }

  // ---------------------------------------------------------------------------
  // Layout of the file.

  /** Where the extension header of channel c starts: right after the basic header and those of the channels before it. */
  function ExtensionHeaderStart(c: nat): nat {
    NSX_BASIC_HEADER_SIZE + NSX_EXTENSION_HEADER_SIZE * c
  }

  /** Where the samples start: after the basic header, one extension header per channel and the data header. */
  function DataStart(count: nat): nat {
    ExtensionHeaderStart(count) + NSX_DATA_HEADER_SIZE
  }

  function BasicHeaderOf(file: seq<Byte>): NSXBasicHeader
    requires |file| >= NSX_BASIC_HEADER_SIZE
  {
    DecodeNSXBasicHeader(file[..NSX_BASIC_HEADER_SIZE])
  }

  /** The extension header of channel c. */
  function ExtensionHeaderAt(file: seq<Byte>, c: nat): NSXExtensionHeader
    requires ExtensionHeaderStart(c + 1) <= |file|
  {
    DecodeNSXExtensionHeader(file[ExtensionHeaderStart(c)..ExtensionHeaderStart(c + 1)])
  }

  /** The extension headers of the first count channels. */
  function ExtensionHeaders(file: seq<Byte>, count: nat): (hs: seq<NSXExtensionHeader>)
    requires ExtensionHeaderStart(count) <= |file|
    ensures |hs| == count
  {
    seq(count, c requires 0 <= c < count => ExtensionHeaderAt(file, c))
  }

  /** The data header that follows the extension headers of count channels. */
  function DataHeaderOf(file: seq<Byte>, count: nat): NSXDataHeader
    requires DataStart(count) <= |file|
  {
    DecodeNSXDataHeader(file[ExtensionHeaderStart(count)..DataStart(count)])
  }

  /** The bytes of a sequence of extension headers, one after the other. */
  function EncodeNSXExtensionHeaders(hs: seq<NSXExtensionHeader>): (s: seq<Byte>)
    requires forall i :: 0 <= i < |hs| ==> hs[i].Valid()
    ensures |s| == NSX_EXTENSION_HEADER_SIZE * |hs|
  {
    if hs == [] then [] else EncodeNSXExtensionHeaders(hs[..|hs| - 1]) + EncodeNSXExtensionHeader(hs[|hs| - 1])
  }

  /** The extension headers of the first count channels encode to the bytes they were read from. */
  lemma ExtensionHeadersPrefix(file: seq<Byte>, count: nat)
    requires 0 < count && ExtensionHeaderStart(count) <= |file|
    ensures ExtensionHeaders(file, count)[..count - 1] == ExtensionHeaders(file, count - 1)
    ensures ExtensionHeaders(file, count)[count - 1] == ExtensionHeaderAt(file, count - 1)
  {
  }

  /** The extension headers of the first count channels encode to the bytes they were read from. */
  lemma {:induction false} ExtensionHeadersBytes(file: seq<Byte>, count: nat)
    requires ExtensionHeaderStart(count) <= |file|
    ensures EncodeNSXExtensionHeaders(ExtensionHeaders(file, count))
      == file[NSX_BASIC_HEADER_SIZE..ExtensionHeaderStart(count)]
  {
    if count > 0 {
      var before := ExtensionHeaderStart(count - 1);
      var after := ExtensionHeaderStart(count);
      ExtensionHeadersPrefix(file, count);
      ExtensionHeadersBytes(file, count - 1);
      NSXExtensionHeaderBytesRoundTrip(file[before..after]);
      SlicesJoin(file, NSX_BASIC_HEADER_SIZE, before, after);
    }
  }

  /** The value of channel c in sample k of the data block at dataStart: samples follow one another, each holding one value per channel. */
  predicate SampleInFile(file: seq<Byte>, dataStart: int, nbChannels: nat, k: int, c: nat) {
    c < nbChannels && 0 <= dataStart + SAMPLE_SIZE * (k * nbChannels + c)
    && dataStart + SAMPLE_SIZE * (k * nbChannels + c) + SAMPLE_SIZE <= |file|
  }

  function RawSample(file: seq<Byte>, dataStart: int, nbChannels: nat, k: int, c: nat): int16
    requires SampleInFile(file, dataStart, nbChannels, k, c)
  {
    I16At(file, dataStart + SAMPLE_SIZE * (k * nbChannels + c))
  }

  // ---------------------------------------------------------------------------
  // Time windows.

  /** The index of the first sample of the window that starts at start ms, or the caller's index when it passes a nonzero one. */
  function FirstSample(rate: real, start: int, startInRecordingUnits: int): int {
    if startInRecordingUnits == 0 then TruncReal(rate * start as real / 1000.0) else startInRecordingUnits
  }

  /** The index of the sample at end ms: the first one the window leaves out. */
  function EndSample(rate: real, end: int): int {
    TruncReal(rate * end as real / 1000.0)
  }

  /** getNbSamples: the number of samples of the half-open window. */
  function NbSamples(rate: real, start: int, end: int, startInRecordingUnits: int): int {
    EndSample(rate, end) - FirstSample(rate, start, startInRecordingUnits)
  }

  lemma EndSampleMonotone(rate: real, a: int, b: int)
    requires rate >= 0.0 && a <= b
    ensures EndSample(rate, a) <= EndSample(rate, b)
  {
    assert rate * a as real <= rate * b as real;
    TruncMonotone(rate * a as real / 1000.0, rate * b as real / 1000.0);
  }

  /**
    Windows given in milliseconds tile the recording: a window that ends
    where another starts follows it without a gap or a shared sample, and
    none has a negative number of samples.
   */
  lemma WindowsTile(rate: real, a: int, b: int, c: int)
    requires rate >= 0.0 && a <= b <= c
    ensures 0 <= NbSamples(rate, a, b, 0) && 0 <= NbSamples(rate, b, c, 0)
    ensures FirstSample(rate, b, 0) == EndSample(rate, b)
    ensures NbSamples(rate, a, b, 0) + NbSamples(rate, b, c, 0) == NbSamples(rate, a, c, 0)
  {
    EndSampleMonotone(rate, a, b);
    EndSampleMonotone(rate, b, c);
  }

  /** computeRecordingLength: the length in milliseconds of the samples the data header announces, -1 before initialisation. */
  function ComputedLength(initialized: bool, dataHeader: NSXDataHeader, rate: real): int
    requires initialized ==> rate != 0.0
  {
    if !initialized then -1 else TruncReal(1000.0 * dataHeader.length as real / rate)
  }

  /** The window from 0 to the recording length holds no more samples than the data header announces. */
  lemma RecordingWindowWithinData(dataHeader: NSXDataHeader, rate: real)
    requires rate > 0.0
    ensures 0 <= NbSamples(rate, 0, ComputedLength(true, dataHeader, rate), 0) <= dataHeader.length
  {
    var exact := 1000.0 * dataHeader.length as real / rate;
    var length := ComputedLength(true, dataHeader, rate);
    assert 0.0 <= length as real <= exact;
    assert rate * length as real <= rate * exact by { MulMonotone(length as real, exact, rate); }
    assert rate * exact == 1000.0 * dataHeader.length as real;
    TruncMonotone(rate * length as real / 1000.0, dataHeader.length as real);
    TruncOfInteger(dataHeader.length);
    assert FirstSample(rate, 0, 0) == 0;
  }

  // ---------------------------------------------------------------------------
  // Provider state.

  /** The fields of a traces provider for an NSx file. */
  datatype TracesState = TracesState(
    nbChannels: int,
    resolution: int,
    voltageRange: int,
    amplification: int,
    samplingRate: real,
    offset: int,
    length: int,
    initialized: bool,
    basicHeader: NSXBasicHeader,
    extensionHeaders: Option<seq<NSXExtensionHeader>>,
    dataHeader: NSXDataHeader,
    dataFilePos: int)

  /** The file can be opened and holds a basic header with a sampling period the rate can be computed from. */
  predicate RateKnown(file: seq<Byte>, canOpen: bool) {
    canOpen && |file| >= NSX_BASIC_HEADER_SIZE && BasicHeaderOf(file).samplingPeriod > 0
  }

  /** Moreover the file holds the extension header of every channel and the data header. */
  predicate HeadersRead(file: seq<Byte>, canOpen: bool) {
    RateKnown(file, canOpen) && DataStart(BasicHeaderOf(file).channelCount) <= |file|
  }

  /** init: the outcome and the new state. */
  function InitSpec(s: TracesState, file: seq<Byte>, canOpen: bool): (bool, TracesState) {
    if s.initialized then (true, s)
    else if !canOpen || |file| < NSX_BASIC_HEADER_SIZE then (false, s)
    else
      var h := BasicHeaderOf(file);
      var s1 := s.(basicHeader := h, nbChannels := h.channelCount);
      if h.samplingPeriod == 0 then (false, s1)
      else ReadHeadersSpec(s1.(samplingRate := NSX_CLOCK_RATE / h.samplingPeriod as real), file)
  }

  /** The part of init that reads the extension headers and the data header. */
  function ReadHeadersSpec(s: TracesState, file: seq<Byte>): (bool, TracesState)
    requires |file| >= NSX_BASIC_HEADER_SIZE && s.samplingRate != 0.0
  {
    var count := BasicHeaderOf(file).channelCount;
    if ExtensionHeaderStart(count) > |file| then (false, s.(extensionHeaders := None))
    else ReadDataHeaderSpec(s.(extensionHeaders := Some(ExtensionHeaders(file, count))), file, count)
  }

  /** The part of init that reads the data header, once the extension headers of count channels are read. */
  function ReadDataHeaderSpec(s: TracesState, file: seq<Byte>, count: nat): (bool, TracesState)
    requires s.samplingRate != 0.0
  {
    if DataStart(count) > |file| then (false, s.(extensionHeaders := None))
    else
      var dataHeader := DataHeaderOf(file, count);
      (true, s.(dataHeader := dataHeader, dataFilePos := DataStart(count), initialized := true,
                length := ComputedLength(true, dataHeader, s.samplingRate)))
  }

  /** init succeeds exactly when the provider is already initialised or every header can be read. */
  lemma InitSucceedsExactly(s: TracesState, file: seq<Byte>, canOpen: bool)
    ensures InitSpec(s, file, canOpen).0 <==> s.initialized || HeadersRead(file, canOpen)
    ensures InitSpec(s, file, canOpen).0 ==> InitSpec(s, file, canOpen).1.initialized
  {
  }

  /** Once init has succeeded, init succeeds again without reading the file or changing anything. */
  lemma InitIdempotent(s: TracesState, file: seq<Byte>, canOpen: bool, again: seq<Byte>, canOpenAgain: bool)
    requires InitSpec(s, file, canOpen).0
    ensures InitSpec(InitSpec(s, file, canOpen).1, again, canOpenAgain) == (true, InitSpec(s, file, canOpen).1)
  {
    InitSucceedsExactly(s, file, canOpen);
  }

  /**
    A first successful init takes the channel count and the rate from the
    basic header, keeps one extension header per channel, and records where
    the samples start and how long the recording is in milliseconds.
   */
  lemma InitReadsHeaders(s: TracesState, file: seq<Byte>, canOpen: bool)
    requires !s.initialized && HeadersRead(file, canOpen)
    ensures var t := InitSpec(s, file, canOpen).1;
      var count := BasicHeaderOf(file).channelCount;
      && t.initialized && t.nbChannels == count && t.basicHeader == BasicHeaderOf(file)
      && t.samplingRate == NSX_CLOCK_RATE / t.basicHeader.samplingPeriod as real > 0.0
      && t.extensionHeaders == Some(ExtensionHeaders(file, count))
      && t.dataHeader == DataHeaderOf(file, count)
      && t.dataFilePos == NSX_BASIC_HEADER_SIZE + NSX_EXTENSION_HEADER_SIZE * count + NSX_DATA_HEADER_SIZE
      && t.length as real <= 1000.0 * t.dataHeader.length as real / t.samplingRate < t.length as real + 1.0
      && (t.resolution, t.voltageRange, t.amplification, t.offset) == (s.resolution, s.voltageRange, s.amplification, s.offset)
  {
    var h := BasicHeaderOf(file);
    assert NSX_CLOCK_RATE / h.samplingPeriod as real > 0.0;
  }

  /** The headers a first successful init keeps are exactly the bytes in front of the samples. */
  lemma InitKeepsHeaderBytes(s: TracesState, file: seq<Byte>, canOpen: bool)
    requires !s.initialized && HeadersRead(file, canOpen)
    ensures var t := InitSpec(s, file, canOpen).1;
      && t.extensionHeaders.Some? && (forall c :: 0 <= c < |t.extensionHeaders.value| ==> t.extensionHeaders.value[c].Valid())
      && 0 <= t.dataFilePos <= |file|
      && EncodeNSXBasicHeader(t.basicHeader) + EncodeNSXExtensionHeaders(t.extensionHeaders.value)
           + EncodeNSXDataHeader(t.dataHeader) == file[..t.dataFilePos]
  {
    InitReadsHeaders(s, file, canOpen);
    HeaderBytes(file, BasicHeaderOf(file).channelCount);
  }

  /** The headers of a file with count channels encode to the bytes in front of its samples. */
  lemma HeaderBytes(file: seq<Byte>, count: nat)
    requires NSX_BASIC_HEADER_SIZE <= |file| && DataStart(count) <= |file|
    ensures forall c :: 0 <= c < count ==> ExtensionHeaders(file, count)[c].Valid()
    ensures EncodeNSXBasicHeader(BasicHeaderOf(file)) + EncodeNSXExtensionHeaders(ExtensionHeaders(file, count))
      + EncodeNSXDataHeader(DataHeaderOf(file, count)) == file[..DataStart(count)]
  {
    NSXBasicHeaderBytesRoundTrip(file[..NSX_BASIC_HEADER_SIZE]);
    ExtensionHeadersBytes(file, count);
    NSXDataHeaderBytesRoundTrip(file[ExtensionHeaderStart(count)..DataStart(count)]);
    SlicesJoin(file, 0, NSX_BASIC_HEADER_SIZE, ExtensionHeaderStart(count));
    SlicesJoin(file, 0, ExtensionHeaderStart(count), DataStart(count));
    assert file[..DataStart(count)] == file[0..DataStart(count)];
    assert file[..NSX_BASIC_HEADER_SIZE] == file[0..NSX_BASIC_HEADER_SIZE];
  }

  /**
    A failed init leaves the provider uninitialised, with its length and
    data position as they were. When it failed after the rate was computed,
    the extension headers are freed but the channel count and the rate taken
    from the basic header stay.
   */
  lemma InitFailureKeepsUninitialised(s: TracesState, file: seq<Byte>, canOpen: bool)
    requires !InitSpec(s, file, canOpen).0
    ensures var t := InitSpec(s, file, canOpen).1;
      && !t.initialized && t.length == s.length && t.dataFilePos == s.dataFilePos
      && (t.resolution, t.voltageRange, t.amplification, t.offset) == (s.resolution, s.voltageRange, s.amplification, s.offset)
      && (!canOpen || |file| < NSX_BASIC_HEADER_SIZE ==> t == s)
      && (RateKnown(file, canOpen) ==>
            t.nbChannels == BasicHeaderOf(file).channelCount && t.extensionHeaders.None?
            && t.samplingRate == NSX_CLOCK_RATE / BasicHeaderOf(file).samplingPeriod as real)
  {
  }

  /**
    What retrieveData needs of the state: after initialisation every channel
    has an extension header with a digital range to divide by, whatever the
    window and whether or not that channel is converted.
   */
  predicate ChannelsDescribed(s: TracesState) {
    s.initialized ==>
      0 <= s.nbChannels && s.extensionHeaders.Some? && s.nbChannels <= |s.extensionHeaders.value|
      && forall c :: 0 <= c < s.nbChannels ==> HasDigitalRange(s.extensionHeaders.value[c])
  }

  /** The bytes read for a window: n bytes at pos, none when n is 0. */
  function WindowBytes(file: seq<Byte>, pos: nat, n: nat): (buffer: seq<Byte>)
    requires n == 0 || pos + n <= |file|
    ensures |buffer| == n
  {
    if n == 0 then [] else file[pos..pos + n]
  }

  lemma CellInWindow(rows: nat, nbChannels: nat, i: nat, c: nat)
    requires i < rows && c < nbChannels
    ensures SAMPLE_SIZE * (i * nbChannels + c) + SAMPLE_SIZE <= rows * nbChannels * SAMPLE_SIZE
  {
    assert i * nbChannels + c + 1 <= (i + 1) * nbChannels;
    assert (i + 1) * nbChannels <= rows * nbChannels;
  }

  /** Channel c of row i of a window in microvolts: the int16 at its place among the bytes read, converted. */
  function WindowCell(buffer: seq<Byte>, rows: nat, nbChannels: nat, i: nat, c: nat, h: NSXExtensionHeader): int
    requires i < rows && c < nbChannels && |buffer| == rows * nbChannels * SAMPLE_SIZE
    requires HasDigitalRange(h) && UnitCorrection(h.unit).Some?
  {
    CellInWindow(rows, nbChannels, i, c);
    ToMicrovolts(I16At(buffer, SAMPLE_SIZE * (i * nbChannels + c)), h, UnitCorrection(h.unit).value)
  }

  /** Every one of the first n channels has a unit the program knows. */
  predicate UnitsKnown(hs: seq<NSXExtensionHeader>, n: nat)
    requires n <= |hs|
  {
    forall c :: 0 <= c < n ==> UnitCorrection(hs[c].unit).Some?
  }

  /**
    retrieveData: the rows of the window, one value per channel in
    microvolts, or None where the program emits an empty array: not
    initialised, the file cannot be opened, the seek goes before the start of
    the file, the read comes up short, or a channel has an unknown unit.
   */
  function RetrieveSpec(s: TracesState, file: seq<Byte>, canOpen: bool, start: int, end: int, startInRecordingUnits: int)
    : Option<seq<seq<int>>>
    requires ChannelsDescribed(s)
  {
    if !s.initialized || !canOpen then None
    else
      var first := FirstSample(s.samplingRate, start, startInRecordingUnits);
      WindowSpec(s, file, s.dataFilePos + first * s.nbChannels * SAMPLE_SIZE, EndSample(s.samplingRate, end) - first)
  }

  /** The rows read at pos in the file once it is open, or None when the seek, the read or a unit fails. */
  function WindowSpec(s: TracesState, file: seq<Byte>, pos: int, rows: int): Option<seq<seq<int>>>
    requires s.initialized && ChannelsDescribed(s)
  {
    var nb := s.nbChannels;
    var n := rows * nb * SAMPLE_SIZE;
    if pos < 0 || rows < 0 || BytesRead(file, pos, n) != n then None
    else
      var hs := s.extensionHeaders.value;
      if !UnitsKnown(hs, nb) then None
      else Some(WindowRows(WindowBytes(file, pos, n), rows, nb, hs))
  }

  /** The rows of a window, from the bytes read for it. */
  function WindowRows(buffer: seq<Byte>, rows: nat, nb: nat, hs: seq<NSXExtensionHeader>): (r: seq<seq<int>>)
    requires nb <= |hs| && UnitsKnown(hs, nb) && |buffer| == rows * nb * SAMPLE_SIZE
    requires forall c :: 0 <= c < nb ==> HasDigitalRange(hs[c])
    ensures |r| == rows && forall i :: 0 <= i < rows ==> |r[i]| == nb
  {
    seq(rows, i requires 0 <= i < rows =>
      seq(nb, c requires 0 <= c < nb => WindowCell(buffer, rows, nb, i, c, hs[c])))
  }

  /** The array holds the rows. */
  predicate Holds(data: array2<int>, rows: seq<seq<int>>, nb: nat)
    reads data
  {
    && data.Length0 == |rows| && data.Length1 == nb
    && forall i, c :: 0 <= i < |rows| && 0 <= c < nb ==> c < |rows[i]| && data[i, c] == rows[i][c]
  }

  lemma I16AtSlice(file: seq<Byte>, pos: nat, n: nat, at: nat)
    requires pos + n <= |file| && at + 2 <= n
    ensures I16At(file[pos..pos + n], at) == I16At(file, pos + at)
  {
    var buffer := file[pos..pos + n];
    assert buffer[at..at + 2] == file[pos + at..pos + at + 2] by {
      assert buffer[at] == file[pos + at] && buffer[at + 1] == file[pos + at + 1];
    }
  }

  lemma SampleOffset(dataFilePos: int, first: int, nb: nat, i: nat, c: nat)
    ensures dataFilePos + first * nb * SAMPLE_SIZE + SAMPLE_SIZE * (i * nb + c)
      == dataFilePos + SAMPLE_SIZE * ((first + i) * nb + c)
  {
  }

  /** Cell c of row i of a window is sample first + i of the data block, converted. */
  lemma WindowCellIsSample(file: seq<Byte>, dataFilePos: int, first: int, rows: nat, nb: nat, i: nat, c: nat, h: NSXExtensionHeader)
    requires i < rows && c < nb && HasDigitalRange(h) && UnitCorrection(h.unit).Some?
    requires 0 <= dataFilePos + first * nb * SAMPLE_SIZE
    requires dataFilePos + first * nb * SAMPLE_SIZE + rows * nb * SAMPLE_SIZE <= |file|
    ensures SampleInFile(file, dataFilePos, nb, first + i, c)
    ensures WindowCell(WindowBytes(file, dataFilePos + first * nb * SAMPLE_SIZE, rows * nb * SAMPLE_SIZE), rows, nb, i, c, h)
      == ToMicrovolts(RawSample(file, dataFilePos, nb, first + i, c), h, UnitCorrection(h.unit).value)
  {
    var pos := dataFilePos + first * nb * SAMPLE_SIZE;
    var n := rows * nb * SAMPLE_SIZE;
    CellInWindow(rows, nb, i, c);
    SampleOffset(dataFilePos, first, nb, i, c);
    I16AtSlice(file, pos, n, SAMPLE_SIZE * (i * nb + c));
  }

  /** Row i of the rows is sample first + i of the data block at dataStart, each channel's value converted with its unit. */
  predicate AreSamples(rows: seq<seq<int>>, file: seq<Byte>, dataStart: int, nb: nat, first: int, hs: seq<NSXExtensionHeader>)
    requires nb <= |hs|
  {
    forall i, c :: 0 <= i < |rows| && 0 <= c < nb ==>
      && c < |rows[i]| && HasDigitalRange(hs[c]) && UnitCorrection(hs[c].unit).Some?
      && SampleInFile(file, dataStart, nb, first + i, c)
      && rows[i][c] == ToMicrovolts(RawSample(file, dataStart, nb, first + i, c), hs[c], UnitCorrection(hs[c].unit).value)
  }

  /**
    A window retrieved has as many rows as getNbSamples counts for the same
    arguments and one value per channel; row i is sample first + i of the
    data block, converted with the unit of its channel.
   */
  lemma RetrievedRows(s: TracesState, file: seq<Byte>, canOpen: bool, start: int, end: int, startInRecordingUnits: int)
    requires ChannelsDescribed(s) && RetrieveSpec(s, file, canOpen, start, end, startInRecordingUnits).Some?
    ensures s.initialized && canOpen
    ensures |RetrieveSpec(s, file, canOpen, start, end, startInRecordingUnits).value|
      == NbSamples(s.samplingRate, start, end, startInRecordingUnits)
    ensures forall row :: row in RetrieveSpec(s, file, canOpen, start, end, startInRecordingUnits).value ==> |row| == s.nbChannels
    ensures AreSamples(RetrieveSpec(s, file, canOpen, start, end, startInRecordingUnits).value, file, s.dataFilePos,
      s.nbChannels, FirstSample(s.samplingRate, start, startInRecordingUnits), s.extensionHeaders.value)
  {
    RetrieveSpecSome(s, file, canOpen, start, end, startInRecordingUnits);
    WindowRowsAreSamples(file, s.dataFilePos, FirstSample(s.samplingRate, start, startInRecordingUnits),
      NbSamples(s.samplingRate, start, end, startInRecordingUnits), s.nbChannels, s.extensionHeaders.value);
  }

  /** Row i of the window of rows samples read at sample first of the data block is sample first + i, converted. */
  lemma WindowRowsAreSamples(file: seq<Byte>, dataStart: int, first: int, rows: nat, nb: nat, hs: seq<NSXExtensionHeader>)
    requires nb <= |hs| && UnitsKnown(hs, nb) && forall c :: 0 <= c < nb ==> HasDigitalRange(hs[c])
    requires 0 <= dataStart + first * nb * SAMPLE_SIZE
    requires rows * nb * SAMPLE_SIZE == 0 || dataStart + first * nb * SAMPLE_SIZE + rows * nb * SAMPLE_SIZE <= |file|
    ensures AreSamples(WindowRows(WindowBytes(file, dataStart + first * nb * SAMPLE_SIZE, rows * nb * SAMPLE_SIZE), rows, nb, hs),
      file, dataStart, nb, first, hs)
  {
    var pos := dataStart + first * nb * SAMPLE_SIZE;
    var n := rows * nb * SAMPLE_SIZE;
    var window := WindowRows(WindowBytes(file, pos, n), rows, nb, hs);
    forall i, c | 0 <= i < rows && 0 <= c < nb
      ensures c < |window[i]| && HasDigitalRange(hs[c]) && UnitCorrection(hs[c].unit).Some?
      ensures SampleInFile(file, dataStart, nb, first + i, c)
      ensures window[i][c] == ToMicrovolts(RawSample(file, dataStart, nb, first + i, c), hs[c], UnitCorrection(hs[c].unit).value)
    {
      CellInWindow(rows, nb, i, c);
      assert window[i][c] == WindowCell(WindowBytes(file, pos, n), rows, nb, i, c, hs[c]);
      WindowCellIsSample(file, dataStart, first, rows, nb, i, c, hs[c]);
    }
    assert |window| == rows;
    assert AreSamples(window, file, dataStart, nb, first, hs);
  }

  /** A window retrieved is the window of the bytes at its place in the file. */
  lemma RetrieveSpecSome(s: TracesState, file: seq<Byte>, canOpen: bool, start: int, end: int, startInRecordingUnits: int)
    requires ChannelsDescribed(s) && RetrieveSpec(s, file, canOpen, start, end, startInRecordingUnits).Some?
    ensures var first := FirstSample(s.samplingRate, start, startInRecordingUnits);
      var rows := NbSamples(s.samplingRate, start, end, startInRecordingUnits);
      var pos := s.dataFilePos + first * s.nbChannels * SAMPLE_SIZE;
      var n := rows * s.nbChannels * SAMPLE_SIZE;
      && s.initialized && canOpen && 0 <= rows && 0 <= pos && 0 <= n && (n == 0 || pos + n <= |file|)
      && UnitsKnown(s.extensionHeaders.value, s.nbChannels)
      && RetrieveSpec(s, file, canOpen, start, end, startInRecordingUnits).value
           == WindowRows(WindowBytes(file, pos, n), rows, s.nbChannels, s.extensionHeaders.value)
  {
  }

  /** Every channel of a window retrieved names its unit "uV" or "mV". */
  lemma RetrievedUnits(s: TracesState, file: seq<Byte>, canOpen: bool, start: int, end: int, startInRecordingUnits: int)
    requires ChannelsDescribed(s) && RetrieveSpec(s, file, canOpen, start, end, startInRecordingUnits).Some?
    requires forall c :: 0 <= c < s.nbChannels ==> s.extensionHeaders.value[c].Valid()
    ensures forall c :: 0 <= c < s.nbChannels ==>
      CString(s.extensionHeaders.value[c].unit) in {MICROVOLT, MILLIVOLT}
  {
    forall c | 0 <= c < s.nbChannels
      ensures CString(s.extensionHeaders.value[c].unit) in {MICROVOLT, MILLIVOLT}
    {
      UnitCorrectionByName(s.extensionHeaders.value[c].unit);
    }
  }

  // ---------------------------------------------------------------------------
  // The provider.

  /** The traces provider of an NSx file. */
  class NSXTracesProvider {
    var fileName: string
    // The fields every traces provider has.
    var nbChannels: int
    var resolution: int
    var voltageRange: int
    var amplification: int
    var samplingRate: real
    var offset: int
    /** The length of the recording in milliseconds. */
    var length: int
    // The fields of the NSx provider.
    var initialized: bool
    var basicHeader: NSXBasicHeader
    var extensionHeaders: array?<NSXExtensionHeader>
    var dataHeader: NSXDataHeader
    /** Where in the file the samples start. */
    var dataFilePos: int

    constructor (fileUrl: string)
      ensures fileName == fileUrl && !initialized && extensionHeaders == null && dataFilePos == -1
      ensures nbChannels == -1 && resolution == NSX_RESOLUTION && voltageRange == 0 && amplification == 0
      ensures samplingRate == 0.0 && offset == NSX_OFFSET
    {
      fileName := fileUrl;
      nbChannels := -1;
      resolution := NSX_RESOLUTION;
      voltageRange := 0;
      amplification := 0;
      samplingRate := 0.0;
      offset := NSX_OFFSET;
      initialized := false;
      extensionHeaders := null;
      dataFilePos := -1;
    }

    /** The fields init and retrieveData read or write. */
    function State(): TracesState
      reads this, extensionHeaders
    {
      TracesState(
        nbChannels, resolution, voltageRange, amplification, samplingRate, offset, length, initialized,
        basicHeader, if extensionHeaders == null then None else Some(extensionHeaders[..]), dataHeader, dataFilePos)
    }

    /**
      Reads the basic header, the extension header of every channel and the
      data header of the file. `canOpen` says whether the file can be opened
      and `file` is its contents.
     */
    method Init(file: seq<Byte>, canOpen: bool) returns (ok: bool)
      modifies this`basicHeader, this`nbChannels, this`samplingRate
      modifies this`extensionHeaders, this`dataHeader, this`dataFilePos, this`initialized, this`length
      ensures (ok, State()) == InitSpec(old(State()), file, canOpen)
      ensures extensionHeaders == old(extensionHeaders) || extensionHeaders == null || fresh(extensionHeaders)
    {
      // Do not initialise twice.
      if initialized {
        return true;
      }
      if !canOpen {
        return false;
      }
      var basic := ReadStruct(file, 0, NSX_BASIC_HEADER_SIZE);
      if basic.None? {
        return false;
      }
      ghost var before := State();
      basicHeader := DecodeNSXBasicHeader(basic.value);
      nbChannels := basicHeader.channelCount;
      assert State() == before.(basicHeader := BasicHeaderOf(file), nbChannels := basicHeader.channelCount);
      if basicHeader.samplingPeriod == 0 {
        // The program would go on with an infinite rate.
        return false;
      }
      samplingRate := NSX_CLOCK_RATE / basicHeader.samplingPeriod as real;
      ok := ReadHeaders(file);
    }

    /**
      Reads the count extension headers that follow the basic header into a
      new array, or gives null when the file ends before the last of them.
     */
    static method ReadExtensionHeaders(file: seq<Byte>, count: nat) returns (extensions: array?<NSXExtensionHeader>)
      requires NSX_BASIC_HEADER_SIZE <= |file|
      ensures extensions == null <==> ExtensionHeaderStart(count) > |file|
      ensures extensions != null ==> fresh(extensions) && extensions[..] == ExtensionHeaders(file, count)
    {
      extensions := new NSXExtensionHeader[count];
      for channel := 0 to count
        invariant ExtensionHeaderStart(channel) <= |file|
        invariant forall c :: 0 <= c < channel ==> extensions[c] == ExtensionHeaderAt(file, c)
      {
        var e := ReadStruct(file, ExtensionHeaderStart(channel), NSX_EXTENSION_HEADER_SIZE);
        if e.None? {
          return null;
        }
        var h := DecodeNSXExtensionHeader(e.value);
        assert h == ExtensionHeaderAt(file, channel);
        extensions[channel] := h;
      }
      assert extensions[..] == ExtensionHeaders(file, count);
    }

    /** The part of init that follows the reading of the basic header. */
    method ReadHeaders(file: seq<Byte>) returns (ok: bool)
      requires |file| >= NSX_BASIC_HEADER_SIZE && basicHeader == BasicHeaderOf(file) && samplingRate != 0.0
      modifies this`extensionHeaders, this`dataHeader, this`dataFilePos, this`initialized, this`length
      ensures (ok, State()) == ReadHeadersSpec(old(State()), file)
      ensures extensionHeaders == null || fresh(extensionHeaders)
    {
      ghost var before := State();
      var count := basicHeader.channelCount;
      extensionHeaders := ReadExtensionHeaders(file, count);
      if extensionHeaders == null {
        assert State() == before.(extensionHeaders := None);
        return false;
      }
      assert State() == before.(extensionHeaders := Some(ExtensionHeaders(file, count)));
      ok := ReadDataHeader(file, count);
    }

    /** Reads the data header that follows the extension headers of count channels. */
    method ReadDataHeader(file: seq<Byte>, count: nat) returns (ok: bool)
      requires samplingRate != 0.0
      modifies this`extensionHeaders, this`dataHeader, this`dataFilePos, this`initialized, this`length
      ensures (ok, State()) == ReadDataHeaderSpec(old(State()), file, count)
      ensures extensionHeaders == null || extensionHeaders == old(extensionHeaders)
    {
      ghost var before := State();
      var data := ReadStruct(file, ExtensionHeaderStart(count), NSX_DATA_HEADER_SIZE);
      if data.None? {
        extensionHeaders := null;
        assert State() == before.(extensionHeaders := None);
        return false;
      }
      dataHeader := DecodeNSXDataHeader(data.value);
      // The samples start where the data header ends.
      dataFilePos := ExtensionHeaderStart(count) + NSX_DATA_HEADER_SIZE;
      initialized := true;
      ComputeRecordingLength();
      assert State() == before.(dataHeader := DataHeaderOf(file, count), dataFilePos := DataStart(count), initialized := true,
        length := ComputedLength(true, dataHeader, samplingRate));
      return true;
    }

    /** computeRecordingLength. */
    method ComputeRecordingLength()
      requires initialized ==> samplingRate != 0.0
      modifies this`length
      ensures length == ComputedLength(initialized, dataHeader, samplingRate)
    {
      // The length is not known before initialisation.
      if !initialized {
        length := -1;
        return;
      }
      length := TruncReal(1000.0 * dataHeader.length as real / samplingRate);
    }

    /** updateRecordingLength: only recomputes the length. */
    method UpdateRecordingLength()
      requires initialized ==> samplingRate != 0.0
      modifies this`length
      ensures length == ComputedLength(initialized, dataHeader, samplingRate)
    {
      ComputeRecordingLength();
    }

    /** getNbSamples. */
    function GetNbSamples(start: int, end: int, startInRecordingUnits: int): int
      reads this
    {
      NbSamples(samplingRate, start, end, startInRecordingUnits)
    }

    /**
      retrieveData: the samples of the window from start to end ms (or from
      sample startInRecordingUnits when it is nonzero) in microvolts, one row
      per sample and one column per channel; the array emitted is empty (0 by
      0) where RetrieveSpec gives None.
     */
    method RetrieveData(file: seq<Byte>, canOpen: bool, start: int, end: int, startInRecordingUnits: int)
      returns (data: array2<int>)
      requires ChannelsDescribed(State())
      ensures match RetrieveSpec(State(), file, canOpen, start, end, startInRecordingUnits)
        case None => data.Length0 == 0 && data.Length1 == 0
        case Some(rows) => Holds(data, rows, nbChannels)
    {
      if !initialized || !canOpen {
        data := new int[0, 0];
        return;
      }
      var first := if startInRecordingUnits == 0 then TruncReal(samplingRate * start as real / 1000.0) else startInRecordingUnits;
      var fileOffset := first * nbChannels * SAMPLE_SIZE;
      // The sample at the end index is not part of the window.
      var last := TruncReal(samplingRate * end as real / 1000.0);
      var rows := last - first;
      assert first == FirstSample(samplingRate, start, startInRecordingUnits) && last == EndSample(samplingRate, end);
      data := ReadWindow(file, dataFilePos + fileOffset, rows);
    }

    /** The part of retrieveData that follows the opening of the file: seek, read and conversion. */
    method ReadWindow(file: seq<Byte>, pos: int, rows: int) returns (data: array2<int>)
      requires initialized && ChannelsDescribed(State())
      ensures match WindowSpec(State(), file, pos, rows)
        case None => data.Length0 == 0 && data.Length1 == 0
        case Some(r) => Holds(data, r, nbChannels)
    {
      // A seek before the start of the file fails.
      if pos < 0 {
        return new int[0, 0];
      }
      var bytesToRead := rows * nbChannels * SAMPLE_SIZE;
      // A read of a negative number of bytes reports -1.
      var bytesRead := if bytesToRead < 0 then -1 else BytesRead(file, pos, bytesToRead);
      if bytesToRead != bytesRead || rows < 0 {
        assert rows >= 0 ==> bytesToRead >= 0;
        return new int[0, 0];
      }
      var buffer := WindowBytes(file, pos, bytesToRead);
      data := ConvertWindow(buffer, rows, nbChannels);
    }

    /**
      The conversion loop of retrieveData: channel by channel, the values of
      the window in microvolts; an empty array as soon as a channel has a
      unit the program does not know.
     */
    method ConvertWindow(buffer: seq<Byte>, rows: nat, nb: nat) returns (data: array2<int>)
      requires extensionHeaders != null && nb <= extensionHeaders.Length && |buffer| == rows * nb * SAMPLE_SIZE
      requires forall c :: 0 <= c < nb ==> HasDigitalRange(extensionHeaders[c])
      ensures UnitsKnown(extensionHeaders[..], nb) ==> Holds(data, WindowRows(buffer, rows, nb, extensionHeaders[..]), nb)
      ensures !UnitsKnown(extensionHeaders[..], nb) ==> data.Length0 == 0 && data.Length1 == 0
    {
      ghost var hs := extensionHeaders[..];
      data := new int[rows, nb];
      for channel := 0 to nb
        invariant UnitsKnown(hs, channel)
        invariant forall i, c :: 0 <= i < rows && 0 <= c < channel ==> data[i, c] == WindowCell(buffer, rows, nb, i, c, hs[c])
      {
        // The unit the channel's values are given in.
        var unitCorrection := UnitCorrection(extensionHeaders[channel].unit);
        if unitCorrection.None? {
          return new int[0, 0];
        }
        for i := 0 to rows
          invariant forall r, c :: 0 <= r < rows && 0 <= c < channel ==> data[r, c] == WindowCell(buffer, rows, nb, r, c, hs[c])
          invariant forall r :: 0 <= r < i ==> data[r, channel] == WindowCell(buffer, rows, nb, r, channel, hs[channel])
        {
          CellInWindow(rows, nb, i, channel);
          data[i, channel] := ToMicrovolts(I16At(buffer, SAMPLE_SIZE * (i * nb + channel)),
                                           extensionHeaders[channel], unitCorrection.value);
        }
      }
    }

    /** getLabels: the C string of the label of every channel. */
    method GetLabels() returns (labels: seq<string>)
      requires nbChannels > 0 ==> extensionHeaders != null && nbChannels <= extensionHeaders.Length
      ensures |labels| == (if nbChannels > 0 then nbChannels else 0)
      ensures forall i :: 0 <= i < |labels| ==> extensionHeaders != null && i < extensionHeaders.Length && labels[i] == Label(extensionHeaders[i])
    {
      labels := [];
      var i := 0;
      while i < nbChannels
        invariant 0 <= i <= (if nbChannels > 0 then nbChannels else 0) && |labels| == i
        invariant forall j :: 0 <= j < i ==> extensionHeaders != null && j < extensionHeaders.Length && labels[j] == Label(extensionHeaders[j])
      {
        labels := labels + [Label(extensionHeaders[i])];
        i := i + 1;
      }
    }

    /** setNbChannels: stores the count and recomputes the length. */
    method SetNbChannels(nb: int)
      requires initialized ==> samplingRate != 0.0
      modifies this`nbChannels, this`length
      ensures GetNbChannels() == nb && RecordingLength() == ComputedLength(initialized, dataHeader, samplingRate)
    {
      nbChannels := nb;
      ComputeRecordingLength();
    }

    /** setResolution: stores the resolution and recomputes the length. */
    method SetResolution(res: int)
      requires initialized ==> samplingRate != 0.0
      modifies this`resolution, this`length
      ensures GetResolution() == res && RecordingLength() == ComputedLength(initialized, dataHeader, samplingRate)
    {
      resolution := res;
      ComputeRecordingLength();
    }

    /** setSamplingRate: stores the rate and recomputes the length with it. */
    method SetSamplingRate(rate: real)
      requires initialized ==> rate != 0.0
      modifies this`samplingRate, this`length
      ensures GetSamplingRate() == rate && RecordingLength() == ComputedLength(initialized, dataHeader, rate)
    {
      samplingRate := rate;
      ComputeRecordingLength();
    }

    /** setVoltageRange: the length is not recomputed. */
    method SetVoltageRange(range: int)
      modifies this`voltageRange
      ensures GetVoltageRange() == range as real
    {
      voltageRange := range;
    }

    /** setAmplification: the length is not recomputed. */
    method SetAmplification(value: int)
      modifies this`amplification
      ensures GetAmplification() == value as real
    {
      amplification := value;
    }

    /** setOffset: the length is not recomputed. */
    method SetOffset(newOffset: int)
      modifies this`offset
      ensures GetOffset() == newOffset
    {
      offset := newOffset;
    }

    function GetNbChannels(): int
      reads this
    {
      nbChannels
    }

    function GetResolution(): int
      reads this
    {
      resolution
    }

    function GetSamplingRate(): real
      reads this
    {
      samplingRate
    }

    function GetVoltageRange(): real
      reads this
    {
      voltageRange as real
    }

    function GetAmplification(): real
      reads this
    {
      amplification as real
    }

    function GetOffset(): int
      reads this
    {
      offset
    }

    /** recordingLength: the length in milliseconds. */
    function RecordingLength(): int
      reads this
    {
      length
    }

    /** slotPagingStarted: a file has no live source, so nothing changes. */
    method SlotPagingStarted() {
    }

    /** slotPagingStopped: nothing changes. */
    method SlotPagingStopped() {
    }
  }
}
