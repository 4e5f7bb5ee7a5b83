/**
  Loading the events of a Blackrock NEV file: every non-spike data package
  becomes an event with a timestamp and a description, spike packages are
  skipped, and anything unreadable or unknown rejects the file.
 */
module NevEvents {
  import opened Wrappers
  import opened LittleEndian
  import opened Blackrock
  import opened Decimal

  /**
    The description of an event. Descriptions are the keys of the
    description counter; Text gives the label the program shows, and
    TextInjective shows that two descriptions are equal exactly when their
    labels are. A tracking description holds only the parent id, since the
    program's tracking label holds nothing else.
   */
  datatype EventDescription =
    | SerialData
    | DigitalData
    | ConfigChangeNormal
    | ConfigChangeCritical
    | ConfigChangeUndefined
    | ButtonPress
    | ButtonReset
    | ButtonUndefined
    | Tracking(parentId: uint16)
    | VideoSync(sourceId: uint32)
    | Comment
  {
    /** The label of the event. */
    function Text(): string {
      match this
      case SerialData => "serial data"
      case DigitalData => "digital data"
      case ConfigChangeNormal => "config change normal"
      case ConfigChangeCritical => "config change critical"
      case ConfigChangeUndefined => "config change undefined"
      case ButtonPress => "button press"
      case ButtonReset => "button reset"
      case ButtonUndefined => "button undefined"
      case Tracking(p) => TrackingFormat(p, p)
      case VideoSync(s) => VideoSyncPrefix() + DecimalString(s) + ")"
      case Comment => "comment"
    }

    /** The id of the data packages this description comes from. */
    function PackageId(): uint16 {
      match this
      case SerialData | DigitalData => NEV_PACKAGE_ID_DIGITAL
      case ConfigChangeNormal | ConfigChangeCritical | ConfigChangeUndefined => NEV_PACKAGE_ID_CONFIGURATION
      case ButtonPress | ButtonReset | ButtonUndefined => NEV_PACKAGE_ID_BUTTON
      case Tracking(_) => NEV_PACKAGE_ID_TRACKING
      case VideoSync(_) => NEV_PACKAGE_ID_VIDEO_SYNC
      case Comment => NEV_PACKAGE_ID_COMMENT
    }
  }

  function TrackingPrefix(): string { "tracking (p: " }
  function TrackingInfix(): string { " n: " }
  function VideoSyncPrefix(): string { "video sync (s: " }

  lemma ConcatIndex(a: string, x: string, i: nat)
    requires i < |a| + |x|
    ensures (a + x)[i] == if i < |a| then a[i] else x[i - |a|]
  {
  }

  /** A run of digits followed by a non-digit splits only one way. */
  lemma DigitsThenNonDigit(a: string, x: string, b: string, y: string)
    requires AllDigits(a) && AllDigits(b)
    requires |x| > 0 && |y| > 0 && !IsDigit(x[0]) && !IsDigit(y[0])
    requires a + x == b + y
    ensures a == b && x == y
  {
    if |a| < |b| {
      ConcatIndex(a, x, |a|);
      assert false;
    } else if |b| < |a| {
      ConcatIndex(b, y, |b|);
      assert false;
    }
    assert a == (a + x)[..|a|] && b == (b + y)[..|b|];
    assert x == (a + x)[|a|..] && y == (b + y)[|b|..];
  }

  /** Equal strings with a common start are equal after it. */
  lemma CommonPrefix(a: string, u: string, v: string)
    requires a + u == a + v
    ensures u == v
  {
    assert u == (a + u)[|a|..] && v == (a + v)[|a|..];
  }

  /** The node part of a tracking label determines the node id. */
  lemma NodePartInjective(n1: uint16, n2: uint16)
    requires TrackingInfix() + DecimalString(n1) + ")" == TrackingInfix() + DecimalString(n2) + ")"
    ensures n1 == n2
  {
    var x1 := TrackingInfix() + DecimalString(n1) + ")";
    var x2 := TrackingInfix() + DecimalString(n2) + ")";
    assert DecimalString(n1) == x1[4..|x1| - 1] && DecimalString(n2) == x2[4..|x2| - 1];
    DecimalStringInjective(n1, n2);
  }

  /** The format of a tracking label filled with two numbers. */
  function TrackingFormat(first: uint16, second: uint16): string {
    TrackingPrefix() + DecimalString(first) + TrackingInfix() + DecimalString(second) + ")"
  }

  /** A tracking label is the prefix, then the first number, then the part holding the second. */
  lemma TrackingFormatParts(first: uint16, second: uint16)
    ensures TrackingFormat(first, second)
      == TrackingPrefix() + (DecimalString(first) + (TrackingInfix() + DecimalString(second) + ")"))
  {
  }

  /** The tracking format filled with two numbers determines both of them. */
  lemma TrackingFormatInjective(p1: uint16, n1: uint16, p2: uint16, n2: uint16)
    requires TrackingFormat(p1, n1) == TrackingFormat(p2, n2)
    ensures p1 == p2 && n1 == n2
  {
    var pre := TrackingPrefix();
    var x1 := TrackingInfix() + DecimalString(n1) + ")";
    var x2 := TrackingInfix() + DecimalString(n2) + ")";
    TrackingFormatParts(p1, n1);
    TrackingFormatParts(p2, n2);
    CommonPrefix(pre, DecimalString(p1) + x1, DecimalString(p2) + x2);
    DigitsThenNonDigit(DecimalString(p1), x1, DecimalString(p2), x2);
    DecimalStringInjective(p1, p2);
    NodePartInjective(n1, n2);
  }

  lemma VideoSyncTextInjective(s1: uint32, s2: uint32)
    requires VideoSync(s1).Text() == VideoSync(s2).Text()
    ensures s1 == s2
  {
    var t1 := VideoSync(s1).Text();
    var t2 := VideoSync(s2).Text();
    assert DecimalString(s1) == t1[15..|t1| - 1];
    assert DecimalString(s2) == t2[15..|t2| - 1];
    DecimalStringInjective(s1, s2);
  }

  /**
    Two descriptions have the same label exactly when they are the same
    description, so counting by description counts by label.
   */
  lemma TextInjective(d1: EventDescription, d2: EventDescription)
    ensures d1.Text() == d2.Text() <==> d1 == d2
  {
    if d1.Text() == d2.Text() {
      var t := d1.Text();
      if d1.Tracking? || d2.Tracking? {
        assert t[0] == 't';
        assert d1.Tracking? && d2.Tracking?;
        TrackingFormatInjective(d1.parentId, d1.parentId, d2.parentId, d2.parentId);
      } else if d1.VideoSync? || d2.VideoSync? {
        assert t[0] == 'v';
        assert d1.VideoSync? && d2.VideoSync?;
        VideoSyncTextInjective(d1.sourceId, d2.sourceId);
      }
    }
  }

  /**
    The tracking label as the program builds it from a tracking package:
    both placeholders of the format are %1, so the parent id fills both and
    the node id is lost. It is the label of the package's description.
   */
  function TrackingLabelAsWritten(parentId: uint16, nodeId: uint16): (shown: string)
    ensures shown == Tracking(parentId).Text()
  {
    TrackingFormat(parentId, parentId)
  }

  /** The tracking label with the placeholders %1 and %2 the format evidently means: the parent id, then the node id. */
  function IntendedTrackingLabel(parentId: uint16, nodeId: uint16): string {
    TrackingFormat(parentId, nodeId)
  }

  /** The intended labels of two tracking packages are equal exactly when their parent and node ids are. */
  lemma IntendedTrackingLabelInjective(p1: uint16, n1: uint16, p2: uint16, n2: uint16)
    ensures IntendedTrackingLabel(p1, n1) == IntendedTrackingLabel(p2, n2) <==> p1 == p2 && n1 == n2
  {
    if IntendedTrackingLabel(p1, n1) == IntendedTrackingLabel(p2, n2) {
      TrackingFormatInjective(p1, n1, p2, n2);
    }
  }

  /**
    With the format as written, tracking packages of one parent but different
    nodes get the same label and are counted together; the intended labels
    keep them apart.
   */
  lemma TrackingLabelAsWrittenMergesNodes(parentId: uint16, n1: uint16, n2: uint16)
    requires n1 != n2
    ensures TrackingLabelAsWritten(parentId, n1) == TrackingLabelAsWritten(parentId, n2)
    ensures IntendedTrackingLabel(parentId, n1) != IntendedTrackingLabel(parentId, n2)
  {
    IntendedTrackingLabelInjective(parentId, n1, parentId, n2);
  }

  // ---------------------------------------------------------------------------
  // One data package.

  /** The ids of the packages that become events. */
  predicate IsEventId(id: uint16) {
    id == NEV_PACKAGE_ID_DIGITAL || id == NEV_PACKAGE_ID_CONFIGURATION || id == NEV_PACKAGE_ID_BUTTON
    || id == NEV_PACKAGE_ID_TRACKING || id == NEV_PACKAGE_ID_VIDEO_SYNC || id == NEV_PACKAGE_ID_COMMENT
  }

  /** The size of the payload record read after the header of an event package. */
  function PayloadSize(id: uint16): nat
    requires IsEventId(id)
  {
    if id == NEV_PACKAGE_ID_DIGITAL then NEV_DIGITAL_SERIAL_DATA_SIZE
    else if id == NEV_PACKAGE_ID_CONFIGURATION then NEV_CONFIGURATION_DATA_HEADER_SIZE
    else if id == NEV_PACKAGE_ID_BUTTON then NEV_BUTTON_DATA_SIZE
    else if id == NEV_PACKAGE_ID_TRACKING then NEV_TRACKING_DATA_HEADER_SIZE
    else if id == NEV_PACKAGE_ID_VIDEO_SYNC then NEV_VIDEO_SYNC_DATA_SIZE
    else 0
  }

  /** The header of the package that starts at `at`. */
  function PackageHeader(file: seq<Byte>, at: nat): NEVDataHeader
    requires at + NEV_DATA_HEADER_SIZE <= |file|
  {
    DecodeNEVDataHeader(file[at..at + NEV_DATA_HEADER_SIZE])
  }

  /** What reading one data package gives. */
  datatype PackageResult =
    | Stored(timestamp: uint32, description: EventDescription)
    | Skipped
    | Failed

  /** `reason & (1 << 7)`: the serial-data flag of a digital package. */
  predicate SerialFlag(reason: uint8) {
    (reason / 0x80) % 2 == 1
  }

  function ConfigurationDescription(changeType: uint16): EventDescription {
    if changeType == 0 then ConfigChangeNormal
    else if changeType == 1 then ConfigChangeCritical
    else ConfigChangeUndefined
  }

  function ButtonDescription(trigger: uint16): EventDescription {
    if trigger == 1 then ButtonPress
    else if trigger == 2 then ButtonReset
    else ButtonUndefined
  }

  /**
    The outcome of reading the data package that starts at `at`. The package
    fails when its header cannot be read, when it is a continuation package,
    when its id is neither an event id nor a spike id, or when the payload
    record of an event id cannot be read; spike packages are skipped; every
    other package is stored with its header's timestamp and a description of
    the package's kind.
   */
  function ReadPackage(file: seq<Byte>, at: nat): (r: PackageResult)
    ensures r.Skipped? <==>
      at + NEV_DATA_HEADER_SIZE <= |file| && PackageHeader(file, at).timestamp != NEV_CONTINUATION_TIMESTAMP
      && IsSpikeId(PackageHeader(file, at).id)
    ensures r.Stored? <==>
      at + NEV_DATA_HEADER_SIZE <= |file| && PackageHeader(file, at).timestamp != NEV_CONTINUATION_TIMESTAMP
      && IsEventId(PackageHeader(file, at).id)
      && at + NEV_DATA_HEADER_SIZE + PayloadSize(PackageHeader(file, at).id) <= |file|
    ensures r.Stored? ==>
      r.timestamp == PackageHeader(file, at).timestamp && r.description.PackageId() == PackageHeader(file, at).id
  {
    match ReadStruct(file, at, NEV_DATA_HEADER_SIZE)
    case None => Failed
    case Some(headerBytes) =>
      var header := DecodeNEVDataHeader(headerBytes);
      var payloadAt := at + NEV_DATA_HEADER_SIZE;
      if header.timestamp == NEV_CONTINUATION_TIMESTAMP then Failed
      else if header.id == NEV_PACKAGE_ID_DIGITAL then
        match ReadStruct(file, payloadAt, NEV_DIGITAL_SERIAL_DATA_SIZE)
        case None => Failed
        case Some(b) =>
          var data := DecodeNEVDigitalSerialData(b);
          Stored(header.timestamp, if SerialFlag(data.reason) then SerialData else DigitalData)
      else if header.id == NEV_PACKAGE_ID_CONFIGURATION then
        match ReadStruct(file, payloadAt, NEV_CONFIGURATION_DATA_HEADER_SIZE)
        case None => Failed
        case Some(b) => Stored(header.timestamp, ConfigurationDescription(DecodeNEVConfigurationDataHeader(b).changeType))
      else if header.id == NEV_PACKAGE_ID_BUTTON then
        match ReadStruct(file, payloadAt, NEV_BUTTON_DATA_SIZE)
        case None => Failed
        case Some(b) => Stored(header.timestamp, ButtonDescription(DecodeNEVButtonData(b).trigger))
      else if header.id == NEV_PACKAGE_ID_TRACKING then
        match ReadStruct(file, payloadAt, NEV_TRACKING_DATA_HEADER_SIZE)
        case None => Failed
        case Some(b) =>
          var data := DecodeNEVTrackingDataHeader(b);
          Stored(header.timestamp, Tracking(data.parentId))
      else if header.id == NEV_PACKAGE_ID_VIDEO_SYNC then
        match ReadStruct(file, payloadAt, NEV_VIDEO_SYNC_DATA_SIZE)
        case None => Failed
        case Some(b) => Stored(header.timestamp, VideoSync(DecodeNEVVideoSyncData(b).id))
      else if header.id == NEV_PACKAGE_ID_COMMENT then
        Stored(header.timestamp, Comment)
      else if IsSpikeId(header.id) then
        Skipped
      else
        Failed
  }

  /**
    The description a stored package gets, for every payload: serial data
    exactly when bit 7 of the reason is set; a configuration change normal,
    critical or undefined as the type is 0, 1 or anything else; a button
    press, reset or undefined as the trigger is 1, 2 or anything else; the
    parent id of a tracking package, whose label is the one the program
    builds from the parent and node ids; the source id of a video
    synchronisation; and a comment.
   */
  lemma ReadPackageDescription(file: seq<Byte>, at: nat)
    requires ReadPackage(file, at).Stored?
    ensures var id := PackageHeader(file, at).id;
      var d := ReadPackage(file, at).description;
      var payloadAt := at + NEV_DATA_HEADER_SIZE;
      && (id == NEV_PACKAGE_ID_DIGITAL ==>
            var reason := DecodeNEVDigitalSerialData(file[payloadAt..payloadAt + NEV_DIGITAL_SERIAL_DATA_SIZE]).reason;
            d == (if reason >= 0x80 then SerialData else DigitalData))
      && (id == NEV_PACKAGE_ID_CONFIGURATION ==>
            var t := DecodeNEVConfigurationDataHeader(file[payloadAt..payloadAt + NEV_CONFIGURATION_DATA_HEADER_SIZE]).changeType;
            d == (if t == 0 then ConfigChangeNormal else if t == 1 then ConfigChangeCritical else ConfigChangeUndefined))
      && (id == NEV_PACKAGE_ID_BUTTON ==>
            var trigger := DecodeNEVButtonData(file[payloadAt..payloadAt + NEV_BUTTON_DATA_SIZE]).trigger;
            d == (if trigger == 1 then ButtonPress else if trigger == 2 then ButtonReset else ButtonUndefined))
      && (id == NEV_PACKAGE_ID_TRACKING ==>
            var h := DecodeNEVTrackingDataHeader(file[payloadAt..payloadAt + NEV_TRACKING_DATA_HEADER_SIZE]);
            d == Tracking(h.parentId) && d.Text() == TrackingLabelAsWritten(h.parentId, h.nodeId))
      && (id == NEV_PACKAGE_ID_VIDEO_SYNC ==>
            d == VideoSync(DecodeNEVVideoSyncData(file[payloadAt..payloadAt + NEV_VIDEO_SYNC_DATA_SIZE]).id))
      && (id == NEV_PACKAGE_ID_COMMENT ==> d == Comment)
  {
    var payloadAt := at + NEV_DATA_HEADER_SIZE;
    if PackageHeader(file, at).id == NEV_PACKAGE_ID_DIGITAL {
      var reason := DecodeNEVDigitalSerialData(file[payloadAt..payloadAt + NEV_DIGITAL_SERIAL_DATA_SIZE]).reason;
      assert SerialFlag(reason) <==> reason >= 0x80;
    }
  }

  // ---------------------------------------------------------------------------
  // Writing a package, as the inverse of reading one.

  /**
    The payload record a recorder writes for a description; descriptions that
    several payloads map to use the first of them.
   */
  function Payload(d: EventDescription): (s: seq<Byte>)
    ensures |s| == PayloadSize(d.PackageId())
  {
    match d
    case SerialData => EncodeNEVDigitalSerialData(NEVDigitalSerialData(0x80, 0, 0))
    case DigitalData => EncodeNEVDigitalSerialData(NEVDigitalSerialData(0, 0, 0))
    case ConfigChangeNormal => EncodeNEVConfigurationDataHeader(NEVConfigurationDataHeader(0))
    case ConfigChangeCritical => EncodeNEVConfigurationDataHeader(NEVConfigurationDataHeader(1))
    case ConfigChangeUndefined => EncodeNEVConfigurationDataHeader(NEVConfigurationDataHeader(2))
    case ButtonPress => EncodeNEVButtonData(NEVButtonData(1))
    case ButtonReset => EncodeNEVButtonData(NEVButtonData(2))
    case ButtonUndefined => EncodeNEVButtonData(NEVButtonData(0))
    case Tracking(p) => EncodeNEVTrackingDataHeader(NEVTrackingDataHeader(p, 0, 0, 0))
    case VideoSync(id) => EncodeNEVVideoSyncData(NEVVideoSyncData(0, 0, 0, id))
    case Comment => []
  }

  /** The header and payload of an event package. */
  function EncodeEvent(timestamp: uint32, d: EventDescription): (s: seq<Byte>)
    ensures |s| == NEV_DATA_HEADER_SIZE + PayloadSize(d.PackageId())
  {
    EncodeNEVDataHeader(NEVDataHeader(timestamp, d.PackageId())) + Payload(d)
  }

  /** The header and the payload of an event package written at `at` are where the reader looks for them. */
  lemma EncodedEventParts(file: seq<Byte>, at: nat, timestamp: uint32, d: EventDescription)
    requires at + |EncodeEvent(timestamp, d)| <= |file|
    requires file[at..at + |EncodeEvent(timestamp, d)|] == EncodeEvent(timestamp, d)
    ensures file[at..at + NEV_DATA_HEADER_SIZE] == EncodeNEVDataHeader(NEVDataHeader(timestamp, d.PackageId()))
    ensures var payloadAt := at + NEV_DATA_HEADER_SIZE;
      file[payloadAt..payloadAt + PayloadSize(d.PackageId())] == Payload(d)
  {
    var e := EncodeEvent(timestamp, d);
    var payloadAt := at + NEV_DATA_HEADER_SIZE;
    assert file[at..payloadAt] == e[..NEV_DATA_HEADER_SIZE];
    assert file[payloadAt..payloadAt + PayloadSize(d.PackageId())] == e[NEV_DATA_HEADER_SIZE..];
  }

  /** Reading back a digital, serial or configuration event. */
  lemma ReadWrittenSerialOrConfiguration(file: seq<Byte>, at: nat, timestamp: uint32, d: EventDescription)
    requires d.SerialData? || d.DigitalData? || d.ConfigChangeNormal? || d.ConfigChangeCritical? || d.ConfigChangeUndefined?
    requires timestamp != NEV_CONTINUATION_TIMESTAMP
    requires at + NEV_DATA_HEADER_SIZE + PayloadSize(d.PackageId()) <= |file|
    requires PackageHeader(file, at) == NEVDataHeader(timestamp, d.PackageId())
    requires var payloadAt := at + NEV_DATA_HEADER_SIZE;
      file[payloadAt..payloadAt + PayloadSize(d.PackageId())] == Payload(d)
    ensures ReadPackage(file, at) == Stored(timestamp, d)
  {
    match d
    case SerialData => NEVDigitalSerialDataRoundTrip(NEVDigitalSerialData(0x80, 0, 0));
    case DigitalData => NEVDigitalSerialDataRoundTrip(NEVDigitalSerialData(0, 0, 0));
    case ConfigChangeNormal => NEVConfigurationDataHeaderRoundTrip(NEVConfigurationDataHeader(0));
    case ConfigChangeCritical => NEVConfigurationDataHeaderRoundTrip(NEVConfigurationDataHeader(1));
    case ConfigChangeUndefined => NEVConfigurationDataHeaderRoundTrip(NEVConfigurationDataHeader(2));
  }

  /** Reading back a button or tracking event. */
  lemma ReadWrittenButtonOrTracking(file: seq<Byte>, at: nat, timestamp: uint32, d: EventDescription)
    requires d.ButtonPress? || d.ButtonReset? || d.ButtonUndefined? || d.Tracking?
    requires timestamp != NEV_CONTINUATION_TIMESTAMP
    requires at + NEV_DATA_HEADER_SIZE + PayloadSize(d.PackageId()) <= |file|
    requires PackageHeader(file, at) == NEVDataHeader(timestamp, d.PackageId())
    requires var payloadAt := at + NEV_DATA_HEADER_SIZE;
      file[payloadAt..payloadAt + PayloadSize(d.PackageId())] == Payload(d)
    ensures ReadPackage(file, at) == Stored(timestamp, d)
  {
    match d
    case ButtonPress => NEVButtonDataRoundTrip(NEVButtonData(1));
    case ButtonReset => NEVButtonDataRoundTrip(NEVButtonData(2));
    case ButtonUndefined => NEVButtonDataRoundTrip(NEVButtonData(0));
    case Tracking(p) => NEVTrackingDataHeaderRoundTrip(NEVTrackingDataHeader(p, 0, 0, 0));
  }

  /** Reading back a video synchronisation or comment event. */
  lemma ReadWrittenVideoSyncOrComment(file: seq<Byte>, at: nat, timestamp: uint32, d: EventDescription)
    requires d.VideoSync? || d.Comment?
    requires timestamp != NEV_CONTINUATION_TIMESTAMP
    requires at + NEV_DATA_HEADER_SIZE + PayloadSize(d.PackageId()) <= |file|
    requires PackageHeader(file, at) == NEVDataHeader(timestamp, d.PackageId())
    requires var payloadAt := at + NEV_DATA_HEADER_SIZE;
      file[payloadAt..payloadAt + PayloadSize(d.PackageId())] == Payload(d)
    ensures ReadPackage(file, at) == Stored(timestamp, d)
  {
    match d
    case VideoSync(id) => NEVVideoSyncDataRoundTrip(NEVVideoSyncData(0, 0, 0, id));
    case Comment =>
  }

  /** An event package written at `at` reads back as the same event. */
  lemma ReadEncodedEvent(file: seq<Byte>, at: nat, timestamp: uint32, d: EventDescription)
    requires timestamp != NEV_CONTINUATION_TIMESTAMP
    requires at + |EncodeEvent(timestamp, d)| <= |file|
    requires file[at..at + |EncodeEvent(timestamp, d)|] == EncodeEvent(timestamp, d)
    ensures ReadPackage(file, at) == Stored(timestamp, d)
  {
    EncodedEventParts(file, at, timestamp, d);
    NEVDataHeaderRoundTrip(NEVDataHeader(timestamp, d.PackageId()));
    if d.SerialData? || d.DigitalData? || d.ConfigChangeNormal? || d.ConfigChangeCritical? || d.ConfigChangeUndefined? {
      ReadWrittenSerialOrConfiguration(file, at, timestamp, d);
    } else if d.ButtonPress? || d.ButtonReset? || d.ButtonUndefined? || d.Tracking? {
      ReadWrittenButtonOrTracking(file, at, timestamp, d);
    } else {
      ReadWrittenVideoSyncOrComment(file, at, timestamp, d);
    }
  }

  // ---------------------------------------------------------------------------
  // The run of data packages.

  /** The package with index k of a run of packages dps bytes apart that starts at `start`. */
  function PackageAt(file: seq<Byte>, start: nat, dps: nat, k: nat): PackageResult {
    ReadPackage(file, start + k * dps)
  }

  /** The outcomes of the first k packages of a run. */
  function Packages(file: seq<Byte>, start: nat, dps: nat, k: nat): (rs: seq<PackageResult>)
    ensures |rs| == k
    ensures forall j :: 0 <= j < k ==> rs[j] == PackageAt(file, start, dps, j)
  {
    seq(k, (j: nat) => PackageAt(file, start, dps, j))
  }

  /**
    What reading a run of packages has gathered: the timestamps and
    descriptions of the stored events, the index of the package each came
    from, the number of skipped spike packages, and whether a package failed.
   */
  datatype ScanState = ScanState(
    timestamps: seq<uint32>,
    descriptions: seq<EventDescription>,
    origins: seq<nat>,
    skipped: nat,
    failed: bool)

  /** Taking the outcome of the next package into account; nothing is read after a failure. */
  function Step(st: ScanState, r: PackageResult, index: nat): ScanState {
    if st.failed then st
    else match r
      case Failed => st.(failed := true)
      case Skipped => st.(skipped := st.skipped + 1)
      case Stored(t, d) =>
        st.(timestamps := st.timestamps + [t], descriptions := st.descriptions + [d], origins := st.origins + [index])
  }

  /** Reading packages with the outcomes rs in order, stopping at the first that fails. */
  function Scan(rs: seq<PackageResult>): (st: ScanState)
    ensures |st.timestamps| == |st.descriptions| == |st.origins|
    ensures !st.failed ==> |st.descriptions| + st.skipped == |rs|
    decreases |rs|
  {
    if rs == [] then ScanState([], [], [], 0, false)
    else Step(Scan(rs[..|rs| - 1]), rs[|rs| - 1], |rs| - 1)
  }

  /** The reading fails exactly when one of the packages fails. */
  lemma {:induction false} ScanFails(rs: seq<PackageResult>)
    ensures Scan(rs).failed <==> exists j :: 0 <= j < |rs| && rs[j].Failed?
    decreases |rs|
  {
    if rs != [] {
      var init := rs[..|rs| - 1];
      ScanFails(init);
      assert forall j :: 0 <= j < |init| ==> init[j] == rs[j];
    }
  }

  /**
    Every stored event is the event of one package, the packages come in file
    order, and none of them lies after a package that failed.
   */
  lemma {:induction false} ScanOrigins(rs: seq<PackageResult>)
    ensures var st := Scan(rs);
      && (forall i :: 0 <= i < |st.origins| ==>
            st.origins[i] < |rs| && rs[st.origins[i]] == Stored(st.timestamps[i], st.descriptions[i]))
      && (forall i, j :: 0 <= i < j < |st.origins| ==> st.origins[i] < st.origins[j])
      && (forall i, j :: 0 <= i < |st.origins| && 0 <= j < st.origins[i] ==> !rs[j].Failed?)
    decreases |rs|
  {
    if rs != [] {
      var init := rs[..|rs| - 1];
      ScanOrigins(init);
      ScanFails(init);
      assert forall j :: 0 <= j < |init| ==> init[j] == rs[j];
    }
  }

  /** Without a failure, every stored package is among the events. */
  lemma {:induction false} ScanComplete(rs: seq<PackageResult>)
    requires !Scan(rs).failed
    ensures forall j :: 0 <= j < |rs| && rs[j].Stored? ==> j in Scan(rs).origins
    decreases |rs|
  {
    if rs != [] {
      var init := rs[..|rs| - 1];
      ScanComplete(init);
      assert forall j :: 0 <= j < |init| ==> init[j] == rs[j];
    }
  }

  /** Once a package has failed, reading further packages changes nothing. */
  lemma {:induction false} ScanFailureIsFinal(rs: seq<PackageResult>, more: seq<PackageResult>)
    requires Scan(rs).failed
    ensures Scan(rs + more) == Scan(rs)
    decreases |more|
  {
    if more != [] {
      var init := more[..|more| - 1];
      ScanFailureIsFinal(rs, init);
      assert (rs + more)[..|rs + more| - 1] == rs + init;
    } else {
      assert rs + more == rs;
    }
  }

  // ---------------------------------------------------------------------------
  // The description counter.

  /** How often a description has been counted. */
  function Count(counter: map<EventDescription, int>, d: EventDescription): int {
    if d in counter then counter[d] else 0
  }

  /** Counting one more event with description d. */
  function Increment(counter: map<EventDescription, int>, d: EventDescription): (r: map<EventDescription, int>)
    ensures Count(r, d) == Count(counter, d) + 1
    ensures forall e :: e != d ==> Count(r, e) == Count(counter, e)
    ensures r.Keys == counter.Keys + {d}
  {
    counter[d := Count(counter, d) + 1]
  }

  /** Counting the descriptions ds one after the other. */
  function Tally(counter: map<EventDescription, int>, ds: seq<EventDescription>): map<EventDescription, int>
    decreases |ds|
  {
    if ds == [] then counter else Increment(Tally(counter, ds[..|ds| - 1]), ds[|ds| - 1])
  }

  /** After counting ds, each description has gained its number of occurrences in ds. */
  lemma {:induction false} TallyCounts(counter: map<EventDescription, int>, ds: seq<EventDescription>, d: EventDescription)
    ensures Count(Tally(counter, ds), d) == Count(counter, d) + multiset(ds)[d]
    decreases |ds|
  {
    if ds != [] {
      var init := ds[..|ds| - 1];
      TallyCounts(counter, init, d);
      assert ds == init + [ds[|ds| - 1]];
    }
  }

  /** After counting ds, the counter has a key for every description it had or that occurs in ds. */
  lemma {:induction false} TallyKeys(counter: map<EventDescription, int>, ds: seq<EventDescription>)
    ensures Tally(counter, ds).Keys == counter.Keys + set i | 0 <= i < |ds| :: ds[i]
    decreases |ds|
  {
    if ds != [] {
      var init := ds[..|ds| - 1];
      TallyKeys(counter, init);
      var last := set i | 0 <= i < |ds| :: ds[i];
      var prev := set i | 0 <= i < |init| :: init[i];
      assert last == prev + {ds[|ds| - 1]} by {
        forall e | e in last ensures e in prev + {ds[|ds| - 1]} {
          var i :| 0 <= i < |ds| && ds[i] == e;
          if i < |init| {
            assert init[i] == e;
          }
        }
        forall e | e in prev ensures e in last {
          var i :| 0 <= i < |init| && init[i] == e;
          assert ds[i] == e;
        }
      }
    }
  }

  /** Counting one more description after ds. */
  lemma TallySnoc(counter: map<EventDescription, int>, ds: seq<EventDescription>, d: EventDescription)
    ensures Tally(counter, ds + [d]) == Increment(Tally(counter, ds), d)
  {
    assert (ds + [d])[..|ds|] == ds;
  }

  // ---------------------------------------------------------------------------
  // Loading a file.

  /** The outcome of loading a file. */
  datatype LoadStatus = Ok | OpenError | IncorrectContent

  function Max0(x: int): nat {
    if x > 0 then x else 0
  }

  /** Signed integer division as C++ computes it: the quotient is truncated toward zero. */
  function DivTrunc(a: int, b: int): (q: int)
    requires b > 0
  {
    if a >= 0 then a / b else -((-a) / b)
  }

  /** The basic header at the start of the file. */
  function BasicHeaderOf(file: seq<Byte>): NEVBasicHeader
    requires |file| >= NEV_BASIC_HEADER_SIZE
  {
    DecodeNEVBasicHeader(file[..NEV_BASIC_HEADER_SIZE])
  }

  /** The data packages follow the basic header and the extension headers. */
  function PackagesStart(h: NEVBasicHeader): nat {
    NEV_BASIC_HEADER_SIZE + NEV_EXTENSION_HEADER_SIZE * h.extensionCount
  }

  /** The extension header with index i. */
  function ExtensionHeaderAt(file: seq<Byte>, i: nat): NEVExtensionHeader
    requires NEV_BASIC_HEADER_SIZE + NEV_EXTENSION_HEADER_SIZE * (i + 1) <= |file|
  {
    var at := NEV_BASIC_HEADER_SIZE + NEV_EXTENSION_HEADER_SIZE * i;
    DecodeNEVExtensionHeader(file[at..at + NEV_EXTENSION_HEADER_SIZE])
  }

  /** The file can be opened and holds a whole basic header. */
  predicate HeaderRead(file: seq<Byte>, canOpen: bool) {
    canOpen && |file| >= NEV_BASIC_HEADER_SIZE
  }

  /** The basic header declares a package size the number of events can be computed from. */
  predicate SizesKnown(file: seq<Byte>, canOpen: bool) {
    HeaderRead(file, canOpen) && BasicHeaderOf(file).dataPackageSize > 0
  }

  /** All extension headers the basic header announces are in the file. */
  predicate ExtensionsRead(file: seq<Byte>, canOpen: bool) {
    SizesKnown(file, canOpen) && PackagesStart(BasicHeaderOf(file)) <= |file|
  }

  /**
    The number of events the sizes announce: what follows the declared header
    size, divided by the package size. It counts spike packages too and is
    negative when the file is shorter than the declared header.
   */
  function DeclaredEvents(file: seq<Byte>, h: NEVBasicHeader): int
    requires h.dataPackageSize > 0
  {
    DivTrunc(|file| - h.headerSize, h.dataPackageSize)
  }

  /** The outcomes of the packages the loader reads. */
  function EventPackages(file: seq<Byte>, canOpen: bool): seq<PackageResult>
    requires ExtensionsRead(file, canOpen)
  {
    var h := BasicHeaderOf(file);
    Packages(file, PackagesStart(h), h.dataPackageSize, Max0(DeclaredEvents(file, h)))
  }

  /**
    The status loading a file ends with: an open error when it cannot be
    opened, and otherwise Ok exactly when the basic header, every extension
    header and each of the announced packages can be read and no package is a
    continuation package or has an unknown id.
   */
  function LoadStatusOf(file: seq<Byte>, canOpen: bool): (r: LoadStatus)
    ensures r == OpenError <==> !canOpen
    ensures r == Ok <==>
      ExtensionsRead(file, canOpen)
      && var h := BasicHeaderOf(file);
         forall j :: 0 <= j < Max0(DeclaredEvents(file, h)) ==>
           !PackageAt(file, PackagesStart(h), h.dataPackageSize, j).Failed?
  {
    if !canOpen then OpenError
    else if !ExtensionsRead(file, canOpen) then IncorrectContent
    else
      var rs := EventPackages(file, canOpen);
      ScanFails(rs);
      if Scan(rs).failed then IncorrectContent else Ok
  }

  /** The outcomes rs are those of the first packages of a run. */
  ghost predicate ReadsOfRun(file: seq<Byte>, start: nat, dps: nat, rs: seq<PackageResult>) {
    forall j {:trigger PackageAt(file, start, dps, j)} :: 0 <= j < |rs| ==> rs[j] == PackageAt(file, start, dps, j)
  }

  lemma ReadsOfRunArePackages(file: seq<Byte>, start: nat, dps: nat, rs: seq<PackageResult>)
    requires ReadsOfRun(file, start, dps, rs)
    ensures rs == Packages(file, start, dps, |rs|)
  {
    forall j | 0 <= j < |rs| ensures rs[j] == Packages(file, start, dps, |rs|)[j] {
      assert rs[j] == PackageAt(file, start, dps, j);
    }
  }

  /**
    Reads the data package at pos the way the loading loop does: header,
    payload record, then a seek to the start of the next package.
   */
  method ReadDataPackage(file: seq<Byte>, pos: nat, dps: nat, ghost start: nat, ghost results: seq<PackageResult>)
    returns (result: PackageResult, next: nat)
    requires pos == start + |results| * dps && ReadsOfRun(file, start, dps, results)
    ensures ReadsOfRun(file, start, dps, results + [result])
    ensures !result.Failed? ==> next == pos + dps
  {
    result, next := ReadPackageAt(file, pos, dps);
    assert result == PackageAt(file, start, dps, |results|);
  }

  /** The package at pos, and where the next one starts when this one did not fail. */
  method ReadPackageAt(file: seq<Byte>, pos: nat, dps: nat) returns (result: PackageResult, next: nat)
    ensures result == ReadPackage(file, pos)
    ensures !result.Failed? ==> next == pos + dps
  {
    next := pos + BytesRead(file, pos, NEV_DATA_HEADER_SIZE);
    var headerBytes := ReadStruct(file, pos, NEV_DATA_HEADER_SIZE);
    if headerBytes.None? {
      return Failed, next;
    }
    var header := DecodeNEVDataHeader(headerBytes.value);
    if header.timestamp == NEV_CONTINUATION_TIMESTAMP {
      return Failed, next;
    }
    // Each seek below targets the current position plus the package size
    // minus what has been read of the package, that is the start of the next
    // package; it is never negative, so the seek never fails.
    var description: EventDescription;
    var payloadSize: nat;
    if header.id == NEV_PACKAGE_ID_DIGITAL {
      var b := ReadStruct(file, next, NEV_DIGITAL_SERIAL_DATA_SIZE);
      if b.None? {
        return Failed, next;
      }
      var data := DecodeNEVDigitalSerialData(b.value);
      description := if SerialFlag(data.reason) then SerialData else DigitalData;
      payloadSize := NEV_DIGITAL_SERIAL_DATA_SIZE;
    } else if header.id == NEV_PACKAGE_ID_CONFIGURATION {
      var b := ReadStruct(file, next, NEV_CONFIGURATION_DATA_HEADER_SIZE);
      if b.None? {
        return Failed, next;
      }
      var data := DecodeNEVConfigurationDataHeader(b.value);
      if data.changeType == 0 {
        description := ConfigChangeNormal;
      } else if data.changeType == 1 {
        description := ConfigChangeCritical;
      } else {
        description := ConfigChangeUndefined;
      }
      payloadSize := NEV_CONFIGURATION_DATA_HEADER_SIZE;
    } else if header.id == NEV_PACKAGE_ID_BUTTON {
      var b := ReadStruct(file, next, NEV_BUTTON_DATA_SIZE);
      if b.None? {
        return Failed, next;
      }
      var data := DecodeNEVButtonData(b.value);
      if data.trigger == 1 {
        description := ButtonPress;
      } else if data.trigger == 2 {
        description := ButtonReset;
      } else {
        description := ButtonUndefined;
      }
      payloadSize := NEV_BUTTON_DATA_SIZE;
    } else if header.id == NEV_PACKAGE_ID_TRACKING {
      var b := ReadStruct(file, next, NEV_TRACKING_DATA_HEADER_SIZE);
      if b.None? {
        return Failed, next;
      }
      var data := DecodeNEVTrackingDataHeader(b.value);
      // The label's format fills both of its places with the parent id.
      description := Tracking(data.parentId);
      payloadSize := NEV_TRACKING_DATA_HEADER_SIZE;
    } else if header.id == NEV_PACKAGE_ID_VIDEO_SYNC {
      var b := ReadStruct(file, next, NEV_VIDEO_SYNC_DATA_SIZE);
      if b.None? {
        return Failed, next;
      }
      var data := DecodeNEVVideoSyncData(b.value);
      description := VideoSync(data.id);
      payloadSize := NEV_VIDEO_SYNC_DATA_SIZE;
    } else if header.id == NEV_PACKAGE_ID_COMMENT {
      description := Comment;
      payloadSize := 0;
    } else if IsSpikeId(header.id) {
      next := next + dps - NEV_DATA_HEADER_SIZE;
      return Skipped, next;
    } else {
      return Failed, next;
    }
    next := next + payloadSize + dps - payloadSize - NEV_DATA_HEADER_SIZE;
    result := Stored(header.timestamp, description);
  }

  /** The extension headers the basic header announces, in file order. */
  function ExtensionHeaders(file: seq<Byte>, count: nat): (hs: seq<NEVExtensionHeader>)
    requires NEV_BASIC_HEADER_SIZE + NEV_EXTENSION_HEADER_SIZE * count <= |file|
    ensures |hs| == count
  {
    seq(count, (i: nat) requires i < count => ExtensionHeaderAt(file, i))
  }

  /** The package after package k starts dps bytes after it. */
  lemma NextPackageStart(start: nat, dps: nat, k: nat)
    ensures start + (k + 1) * dps == start + k * dps + dps
  {
  }

  /** The first packages of a longer run are the packages of the shorter run. */
  lemma PackagesPrefix(file: seq<Byte>, start: nat, dps: nat, k: nat, m: nat)
    requires k <= m
    ensures Packages(file, start, dps, m)[..k] == Packages(file, start, dps, k)
  {
  }

  /** Reading one more package takes its outcome into account after those before it. */
  lemma ScanSnoc(rs: seq<PackageResult>, r: PackageResult)
    ensures Scan(rs + [r]) == Step(Scan(rs), r, |rs|)
  {
    assert (rs + [r])[..|rs|] == rs;
  }

  /**
    A reading that has failed, or has read every outcome, has gathered what
    reading all of the outcomes gathers.
   */
  lemma ScanOfFinishedPrefix(rs: seq<PackageResult>, k: nat)
    requires k <= |rs| && (Scan(rs[..k]).failed || k == |rs|)
    ensures Scan(rs) == Scan(rs[..k])
  {
    if k < |rs| {
      ScanFailureIsFinal(rs[..k], rs[k..]);
      assert rs[..k] + rs[k..] == rs;
    } else {
      assert rs[..k] == rs;
    }
  }

  /**
    st is what reading the first count packages of the run at start gathers.
    The statement is made for any run equal to those packages, so that it is
    used only where a reading of a run is already at hand.
   */
  ghost predicate IsRunScan(st: ScanState, file: seq<Byte>, start: nat, dps: nat, count: nat) {
    forall rs {:trigger Scan(rs)} :: rs == Packages(file, start, dps, count) ==> Scan(rs) == st
  }

  lemma RunScanOfPackages(file: seq<Byte>, start: nat, dps: nat, count: nat)
    ensures IsRunScan(Scan(Packages(file, start, dps, count)), file, start, dps, count)
  {
  }

  /**
    The fields of an events provider that loading reads or writes.
    `extensionHeaders` is None where the provider holds no array.
   */
  datatype ProviderState = ProviderState(
    basicHeader: NEVBasicHeader,
    extensionHeaders: Option<seq<NEVExtensionHeader>>,
    timeStamps: seq<uint32>,
    events: seq<EventDescription>,
    eventDescriptionCounter: map<EventDescription, int>,
    nbEvents: int,
    currentSamplingRate: real,
    previousStartTime: int,
    previousStartIndex: int,
    previousEndIndex: int,
    previousEndTime: Option<int>,
    fileMaxTime: Option<int>)

  /**
    What loading the file does to a provider in state s: the status it ends
    with and the state it leaves. Events and timestamps are emptied first,
    and the basic header and the sampling rate are kept once read.
   */
  function LoadSpec(s: ProviderState, file: seq<Byte>, canOpen: bool): (LoadStatus, ProviderState)
  {
    var s := s.(timeStamps := [], events := []);
    if !canOpen then (OpenError, s)
    else if !HeaderRead(file, canOpen) then (IncorrectContent, s)
    else
      var h := BasicHeaderOf(file);
      LoadAfterHeaderSpec(s.(basicHeader := h, currentSamplingRate := h.globalTimeResolution as real / 1000.0), file)
  }

  /**
    Loading once the basic header is read: the number of events is announced
    by the sizes, and the extension headers are read, or dropped when the file
    ends before the last of them.
   */
  function LoadAfterHeaderSpec(s: ProviderState, file: seq<Byte>): (LoadStatus, ProviderState)
    requires HeaderRead(file, true) && s.basicHeader == BasicHeaderOf(file)
  {
    var h := s.basicHeader;
    if h.dataPackageSize == 0 then (IncorrectContent, s)
    else
      var s := s.(nbEvents := DeclaredEvents(file, h));
      if !ExtensionsRead(file, true) then (IncorrectContent, s.(extensionHeaders := None))
      else LoadEventsSpec(s.(extensionHeaders := Some(ExtensionHeaders(file, h.extensionCount))), Scan(EventPackages(file, true)))
  }

  /**
    Loading the data packages: the description counter counts every event
    stored before the package loop ends, also when a package then fails; a
    failure drops the extension headers, and success stores the events, their
    timestamps, their number and the time span they cover.
   */
  function LoadEventsSpec(s: ProviderState, st: ScanState): (LoadStatus, ProviderState)
  {
    var s := s.(eventDescriptionCounter := Tally(s.eventDescriptionCounter, st.descriptions));
    if st.failed then (IncorrectContent, s.(extensionHeaders := None))
    else (Ok, WithEvents(s, st.timestamps, st.descriptions, st.skipped))
  }

  /**
    A provider that keeps the events read: the announced number of events
    loses the skipped packages, and the time span runs from 0 to the last
    timestamp, which there is none of when that number is not positive.
   */
  function WithEvents(s: ProviderState, timestamps: seq<uint32>, descriptions: seq<EventDescription>, skipped: nat): ProviderState
  {
    var n := s.nbEvents - skipped;
    var last := if 0 < n <= |timestamps| then Some(timestamps[n - 1] as int) else None;
    s.(nbEvents := n, timeStamps := timestamps, events := descriptions,
       previousStartTime := 0, previousStartIndex := 1, previousEndIndex := n,
       previousEndTime := last, fileMaxTime := last)
  }

  /** The number of spike packages among the outcomes rs. */
  function CountSkipped(rs: seq<PackageResult>): nat
    decreases |rs|
  {
    if rs == [] then 0 else CountSkipped(rs[..|rs| - 1]) + (if rs[|rs| - 1].Skipped? then 1 else 0)
  }

  /** Without a failure, the reading skips every spike package and stores every other one. */
  lemma {:induction false} ScanSkipped(rs: seq<PackageResult>)
    requires !Scan(rs).failed
    ensures Scan(rs).skipped == CountSkipped(rs)
    ensures |Scan(rs).descriptions| + CountSkipped(rs) == |rs|
    decreases |rs|
  {
    if rs != [] {
      var init := rs[..|rs| - 1];
      assert !Scan(init).failed;
      ScanSkipped(init);
    }
  }

  /**
    A load that succeeds keeps the events of the stored packages among the
    announced ones, each with its timestamp, in file order, and all of them.
   */
  lemma LoadedEventsArePackages(s: ProviderState, file: seq<Byte>, canOpen: bool)
    requires LoadSpec(s, file, canOpen).0 == Ok
    ensures ExtensionsRead(file, canOpen)
    ensures var r := LoadSpec(s, file, canOpen).1;
      var h := BasicHeaderOf(file);
      var origins := Scan(EventPackages(file, canOpen)).origins;
      var count := Max0(DeclaredEvents(file, h));
      && |r.events| == |r.timeStamps| == |origins|
      && (forall i :: 0 <= i < |origins| ==>
            origins[i] < count
            && PackageAt(file, PackagesStart(h), h.dataPackageSize, origins[i]) == Stored(r.timeStamps[i], r.events[i]))
      && (forall i, j :: 0 <= i < j < |origins| ==> origins[i] < origins[j])
      && (forall k :: 0 <= k < count && PackageAt(file, PackagesStart(h), h.dataPackageSize, k).Stored? ==> k in origins)
  {
    var rs := EventPackages(file, canOpen);
    ScanOrigins(rs);
    ScanComplete(rs);
  }

  /**
    A load that succeeds counts as events the announced packages that are not
    spike packages: the announced number minus the skipped ones, which is the
    number of events kept unless the announced number is negative.
   */
  lemma LoadedEventCount(s: ProviderState, file: seq<Byte>, canOpen: bool)
    requires LoadSpec(s, file, canOpen).0 == Ok
    ensures ExtensionsRead(file, canOpen)
    ensures var r := LoadSpec(s, file, canOpen).1;
      var declared := DeclaredEvents(file, BasicHeaderOf(file));
      && r.nbEvents == declared - CountSkipped(EventPackages(file, canOpen))
      && (declared >= 0 ==> r.nbEvents == |r.events|)
      && (declared < 0 ==> r.events == [] && r.timeStamps == [])
      && r.previousStartTime == 0 && r.previousStartIndex == 1 && r.previousEndIndex == r.nbEvents
      && (r.nbEvents > 0 ==> r.previousEndTime == Some(r.timeStamps[r.nbEvents - 1] as int))
      && (r.nbEvents <= 0 ==> r.previousEndTime == None)
      && r.fileMaxTime == r.previousEndTime
  {
    ScanSkipped(EventPackages(file, canOpen));
  }

  /**
    A load that fails leaves no events and no timestamps and keeps the time
    span of the provider; once the package size is known it also drops the
    extension headers.
   */
  lemma LoadFailureClears(s: ProviderState, file: seq<Byte>, canOpen: bool)
    requires LoadSpec(s, file, canOpen).0 != Ok
    ensures var r := LoadSpec(s, file, canOpen).1;
      && r.events == [] && r.timeStamps == []
      && r.previousStartTime == s.previousStartTime && r.previousStartIndex == s.previousStartIndex
      && r.previousEndIndex == s.previousEndIndex && r.previousEndTime == s.previousEndTime
      && r.fileMaxTime == s.fileMaxTime
      && (SizesKnown(file, canOpen) ==> r.extensionHeaders == None)
      && (!SizesKnown(file, canOpen) ==> r.extensionHeaders == s.extensionHeaders && r.nbEvents == s.nbEvents)
  {
  }

  /**
    Loading counts every event it stores, adding to the counts the provider
    already had: on success the events kept, on a failure in the package
    loop the events stored before the failing package.
   */
  lemma LoadCountsDescriptions(s: ProviderState, file: seq<Byte>, canOpen: bool, d: EventDescription)
    ensures var (status, r) := LoadSpec(s, file, canOpen);
      && (status == Ok ==> Count(r.eventDescriptionCounter, d) == Count(s.eventDescriptionCounter, d) + multiset(r.events)[d])
      && (ExtensionsRead(file, canOpen) ==>
            Count(r.eventDescriptionCounter, d)
            == Count(s.eventDescriptionCounter, d) + multiset(Scan(EventPackages(file, canOpen)).descriptions)[d])
      && (!ExtensionsRead(file, canOpen) ==> r.eventDescriptionCounter == s.eventDescriptionCounter)
  {
    if ExtensionsRead(file, canOpen) {
      TallyCounts(s.eventDescriptionCounter, Scan(EventPackages(file, canOpen)).descriptions, d);
    }
  }

  /**
    The counter is not reset between loads: loading the same file twice
    counts each of its events twice.
   */
  lemma ReloadCountsTwice(s: ProviderState, file: seq<Byte>, d: EventDescription)
    requires LoadSpec(s, file, true).0 == Ok
    ensures var r1 := LoadSpec(s, file, true).1;
      var (status, r2) := LoadSpec(r1, file, true);
      && status == Ok && r2.events == r1.events
      && Count(r2.eventDescriptionCounter, d) == Count(s.eventDescriptionCounter, d) + 2 * multiset(r2.events)[d]
  {
    var r1 := LoadSpec(s, file, true).1;
    LoadCountsDescriptions(s, file, true, d);
    LoadCountsDescriptions(r1, file, true, d);
  }

  /** Loading ends with the status the file calls for. */
  lemma LoadStatusIsLoadStatusOf(s: ProviderState, file: seq<Byte>, canOpen: bool)
    ensures LoadSpec(s, file, canOpen).0 == LoadStatusOf(file, canOpen)
  {
  }

  /**
    A continuation package among the announced ones makes the load fail,
    whatever the packages before it hold.
   */
  lemma ContinuationPackageFailsLoad(s: ProviderState, file: seq<Byte>, canOpen: bool, k: nat)
    requires ExtensionsRead(file, canOpen)
    requires var h := BasicHeaderOf(file);
      var at := PackagesStart(h) + k * h.dataPackageSize;
      k < DeclaredEvents(file, h) && at + NEV_DATA_HEADER_SIZE <= |file|
      && PackageHeader(file, at).timestamp == NEV_CONTINUATION_TIMESTAMP
    ensures LoadSpec(s, file, canOpen).0 == IncorrectContent
  {
    LoadStatusIsLoadStatusOf(s, file, canOpen);
    var h := BasicHeaderOf(file);
    assert PackageAt(file, PackagesStart(h), h.dataPackageSize, k).Failed?;
  }

  /** The events provider of a NEV file. */
  class NEVEventsProvider {
    var fileName: string
    var basicHeader: NEVBasicHeader
    var extensionHeaders: array?<NEVExtensionHeader>
    /** Timestamps of the events, in units of the global time resolution. */
    var timeStamps: seq<uint32>
    var events: seq<EventDescription>
    var eventDescriptionCounter: map<EventDescription, int>
    var nbEvents: int
    var currentSamplingRate: real
    var previousStartTime: int
    var previousStartIndex: int
    var previousEndIndex: int
    /** None where the program would read the last timestamp of an empty event list. */
    var previousEndTime: Option<int>
    var fileMaxTime: Option<int>

    constructor (fileUrl: string)
      ensures fileName == fileUrl && extensionHeaders == null
      ensures events == [] && timeStamps == [] && eventDescriptionCounter == map[]
    {
      fileName := fileUrl;
      extensionHeaders := null;
      events := [];
      timeStamps := [];
      eventDescriptionCounter := map[];
    }

    /**
      Reads the count extension headers that follow the basic header into a
      new array, or gives null when the file ends before the last of them.
     */
    static method ReadExtensionHeaders(file: seq<Byte>, count: nat) returns (extensions: array?<NEVExtensionHeader>)
      requires NEV_BASIC_HEADER_SIZE <= |file|
      ensures extensions == null <==> NEV_BASIC_HEADER_SIZE + NEV_EXTENSION_HEADER_SIZE * count > |file|
      ensures extensions != null ==> fresh(extensions) && extensions[..] == ExtensionHeaders(file, count)
    {
      var pos: nat := NEV_BASIC_HEADER_SIZE;
      var headers := new NEVExtensionHeader[count];
      for i := 0 to count
        invariant pos == NEV_BASIC_HEADER_SIZE + NEV_EXTENSION_HEADER_SIZE * i <= |file|
        invariant forall j :: 0 <= j < i ==> headers[j] == ExtensionHeaderAt(file, j)
      {
        var e := ReadStruct(file, pos, NEV_EXTENSION_HEADER_SIZE);
        if e.None? {
          return null;
        }
        headers[i] := DecodeNEVExtensionHeader(e.value);
        pos := pos + NEV_EXTENSION_HEADER_SIZE;
      }
      assert headers[..] == ExtensionHeaders(file, count);
      return headers;
    }

    /**
      The package loop of the loader: reads the packages of the run at start
      until as many have been stored or skipped as the file announces, or one
      fails, and counts every stored description.
     */
    method ReadEventPackages(file: seq<Byte>, start: nat, dps: nat, declared: int, ghost st: ScanState)
      returns (timestamps: seq<uint32>, descriptions: seq<EventDescription>, skipped: nat, failed: bool)
      requires IsRunScan(st, file, start, dps, Max0(declared))
      modifies this`eventDescriptionCounter
      ensures timestamps == st.timestamps && descriptions == st.descriptions && failed == st.failed
        && (!failed ==> skipped == st.skipped)
      ensures eventDescriptionCounter == Tally(old(eventDescriptionCounter), descriptions)
    {
      var pos := start;
      var capacity := Max0(declared);
      var tempTimestamps: seq<uint32> := [];
      var tempDescription: seq<EventDescription> := [];
      var eventIndex: nat := 0;
      var eventsSkipped: nat := 0;
      failed := false;
      ghost var counter0 := eventDescriptionCounter;
      ghost var results: seq<PackageResult> := [];
      ghost var scanned := Scan(results);
      while eventIndex + eventsSkipped < declared && !failed
        invariant |results| == eventIndex + eventsSkipped + (if failed then 1 else 0) <= capacity
        invariant ReadsOfRun(file, start, dps, results)
        invariant scanned == Scan(results)
        invariant scanned.failed == failed
        invariant scanned.timestamps == tempTimestamps && scanned.descriptions == tempDescription
        invariant |tempTimestamps| == eventIndex
        invariant !failed ==> scanned.skipped == eventsSkipped && pos == start + |results| * dps
        invariant eventDescriptionCounter == Tally(counter0, tempDescription)
        decreases capacity - |results|
      {
        var result, next := ReadDataPackage(file, pos, dps, start, results);
        NextPackageStart(start, dps, |results|);
        ScanSnoc(results, result);
        ghost var before := scanned;
        scanned := Step(scanned, result, |results|);
        results := results + [result];
        match result
        case Failed =>
          failed := true;
        case Skipped =>
          pos := next;
          eventsSkipped := eventsSkipped + 1;
        case Stored(timestamp, description) =>
          pos := next;
          tempTimestamps := tempTimestamps + [timestamp];
          tempDescription := tempDescription + [description];
          TallySnoc(counter0, before.descriptions, description);
          eventIndex := eventIndex + 1;
          var eventCount := if description in eventDescriptionCounter then eventDescriptionCounter[description] else 0;
          eventDescriptionCounter := eventDescriptionCounter[description := eventCount + 1];
          assert eventDescriptionCounter == Increment(Tally(counter0, before.descriptions), description);
      }

      ReadsOfRunArePackages(file, start, dps, results);
      PackagesPrefix(file, start, dps, |results|, capacity);
      ScanOfFinishedPrefix(Packages(file, start, dps, capacity), |results|);
      assert Scan(Packages(file, start, dps, capacity)) == st;
      timestamps := tempTimestamps;
      descriptions := tempDescription;
      skipped := eventsSkipped;
    }

    /** The fields loading reads or writes. */
    function State(): ProviderState
      reads this, extensionHeaders
    {
      ProviderState(
        basicHeader,
        if extensionHeaders == null then None else Some(extensionHeaders[..]),
        timeStamps, events, eventDescriptionCounter, nbEvents, currentSamplingRate,
        previousStartTime, previousStartIndex, previousEndIndex, previousEndTime, fileMaxTime)
    }

    /**
      Loads the events of the file. `canOpen` says whether the file can be
      opened and `file` is its contents.
     */
    method LoadData(file: seq<Byte>, canOpen: bool) returns (status: LoadStatus)
      modifies this
      ensures (status, State()) == LoadSpec(old(State()), file, canOpen)
      ensures fileName == old(fileName)
      ensures extensionHeaders == old(extensionHeaders) || extensionHeaders == null || fresh(extensionHeaders)
    {
      events := [];
      timeStamps := [];
      if !canOpen {
        return OpenError;
      }
      status := LoadOpened(file);
    }

    /** The part of LoadData that follows the opening of the file: reading the basic header. */
    method LoadOpened(file: seq<Byte>) returns (status: LoadStatus)
      requires events == [] && timeStamps == []
      modifies this
      ensures (status, State()) == LoadSpec(old(State()), file, true)
      ensures fileName == old(fileName)
      ensures extensionHeaders == old(extensionHeaders) || extensionHeaders == null || fresh(extensionHeaders)
    {
      var basic := ReadStruct(file, 0, NEV_BASIC_HEADER_SIZE);
      if basic.None? {
        return IncorrectContent;
      }
      basicHeader := DecodeNEVBasicHeader(basic.value);
      currentSamplingRate := basicHeader.globalTimeResolution as real / 1000.0;
      status := LoadAfterHeader(file);
    }

    /** The part of LoadData that follows the reading of the basic header. */
    method LoadAfterHeader(file: seq<Byte>) returns (status: LoadStatus)
      requires HeaderRead(file, true) && basicHeader == BasicHeaderOf(file)
      modifies this
      ensures (status, State()) == LoadAfterHeaderSpec(old(State()), file)
      ensures fileName == old(fileName)
      ensures extensionHeaders == old(extensionHeaders) || extensionHeaders == null || fresh(extensionHeaders)
    {
      var dps := basicHeader.dataPackageSize;
      if dps == 0 {
        // The program divides by the package size here.
        return IncorrectContent;
      }
      nbEvents := DivTrunc(|file| - basicHeader.headerSize, dps);

      // Read the extension headers.
      extensionHeaders := ReadExtensionHeaders(file, basicHeader.extensionCount);
      if extensionHeaders == null {
        return IncorrectContent;
      }
      RunScanOfPackages(file, PackagesStart(basicHeader), dps, Max0(nbEvents));
      status := LoadEvents(file, Scan(EventPackages(file, true)));
    }

    /** The part of LoadData that reads the data packages. */
    method LoadEvents(file: seq<Byte>, ghost st: ScanState) returns (status: LoadStatus)
      requires basicHeader.dataPackageSize > 0
      requires IsRunScan(st, file, PackagesStart(basicHeader), basicHeader.dataPackageSize, Max0(nbEvents))
      modifies this
      ensures (status, State()) == LoadEventsSpec(old(State()), st)
      ensures fileName == old(fileName)
      ensures extensionHeaders == old(extensionHeaders) || extensionHeaders == null
    {
      var timestamps, descriptions, eventsSkipped, failed :=
        ReadEventPackages(file, PackagesStart(basicHeader), basicHeader.dataPackageSize, nbEvents, st);
      if failed {
        extensionHeaders := null;
        return IncorrectContent;
      }

      StoreEvents(timestamps, descriptions, eventsSkipped);
      return Ok;
    }

    /** Keeps the events of a loading that succeeded. */
    method StoreEvents(timestamps: seq<uint32>, descriptions: seq<EventDescription>, eventsSkipped: nat)
      modifies this`nbEvents, this`timeStamps, this`events, this`previousStartTime, this`previousStartIndex
      modifies this`previousEndIndex, this`previousEndTime, this`fileMaxTime
      ensures var r := WithEvents(old(State()), timestamps, descriptions, eventsSkipped);
        && nbEvents == r.nbEvents && timeStamps == r.timeStamps && events == r.events
        && previousStartTime == r.previousStartTime && previousStartIndex == r.previousStartIndex
        && previousEndIndex == r.previousEndIndex && previousEndTime == r.previousEndTime && fileMaxTime == r.fileMaxTime
    {
      nbEvents := nbEvents - eventsSkipped;
      // Only the stored events are copied; with a negative count there are none.
      timeStamps := timestamps;
      events := descriptions;

      previousStartTime := 0;
      previousStartIndex := 1;
      previousEndIndex := nbEvents;
      // floor(0.5 + t) of a whole-numbered timestamp t is t.
      previousEndTime := if 0 < nbEvents <= |timeStamps| then Some(timeStamps[nbEvents - 1] as int) else None;
      fileMaxTime := previousEndTime;
    }
  }
}
