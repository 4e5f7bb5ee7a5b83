# Blackrock NEV events and NSx traces in Neuroscope

Neuroscope displays recordings made with Blackrock acquisition systems. Two
file formats are involved. An NEV file holds digital, serial,
configuration, button, tracking, video-sync and comment events together
with spike packages. An NSx file holds continuous traces: int16 samples
from several channels, interleaved sample by sample. This project models
the code that reads these files, in Dafny:

- `blackrock.dfy` (module `Blackrock`) holds the packed little-endian
  records of the two formats and `readStruct`. Every record has a decoder
  and an encoder. Two lemmas show that they invert each other: decoding an
  encoding gives back every field, and encoding a decoding gives back every
  byte.
- `nev_events.dfy` (module `NevEvents`) holds the events provider and its
  `loadData`. One package is read by a function, `ReadPackage`. The package
  loop is a method with invariants. Its results are tied to a
  specification (`Scan` over the packages of the file, then `LoadSpec`),
  and lemmas state what a load keeps, counts, clears and rejects.
- `nsx_traces.dfy` (module `NsxTraces`) holds the traces provider:
  - `init`, `getNbSamples`, `retrieveData`, `computeRecordingLength` and
    `getLabels`;
  - the fields, setters and getters of the traces-provider base class;
  - `round`.

  The unit conversion to microvolts, the sample layout of the data block
  and the time-window arithmetic are functions with lemmas. The providers
  are classes whose methods are proved against `InitSpec` and
  `RetrieveSpec`.
- `little_endian.dfy`, `decimal.dfy` and `wrappers.dfy` are helpers. They
  hold little-endian integers, the decimal rendering of the numbers in
  event labels, and `Option`.

The file system is a parameter. The contents of a file are a `seq<Byte>`,
and a flag says whether the file can be opened. Reading at the current
position of the open file becomes reading at an explicit offset.

## Model

| member | source | states |
|---|---|---|
| `Blackrock.ReadStruct` | src/blackrock.h:27-32 | a read of n bytes at pos succeeds exactly when the file holds all n bytes from pos, and then yields those bytes |
| `Blackrock.PackageIdsDistinct` | src/blackrock.h:135-141 | the six event package ids are pairwise distinct and none of them is a spike id (1 to 0x800) |
| `Blackrock.WindowsSystemTimeRoundTrip` | src/blackrock.h:37-46 | decoding the 16-byte encoding of a WindowsSystemTime gives back every field |
| `Blackrock.WindowsSystemTimeBytesRoundTrip` | src/blackrock.h:37-46 | encoding the decoding of any 16 bytes gives back those bytes (the layout has no padding) |
| `Blackrock.NEVBasicHeaderRoundTrip` | src/blackrock.h:51-63 | decoding the 336-byte encoding of a basic header gives back every field |
| `Blackrock.NEVBasicHeaderBytesRoundTrip` | src/blackrock.h:51-63 | encoding the decoding of any 336 bytes gives back those bytes |
| `Blackrock.NEVExtensionHeaderRoundTrip` | src/blackrock.h:77-80 | decoding the encoding of an extension header gives back its id and its 24 data bytes |
| `Blackrock.NEVExtensionHeaderBytesRoundTrip` | src/blackrock.h:77-80 | encoding the decoding of any 32 bytes gives back those bytes |
| `Blackrock.NEVNeuralWaveformExtensionDataRoundTrip` | src/blackrock.h:82-94 | decoding the encoding of waveform extension data gives back every field |
| `Blackrock.NEVNeuralWaveformExtensionDataBytesRoundTrip` | src/blackrock.h:82-94 | encoding the decoding of any 24 bytes gives back those bytes |
| `Blackrock.NEVNeuralLabelExtensionDataRoundTrip` | src/blackrock.h:96-100 | decoding the encoding of label extension data gives back every field |
| `Blackrock.NEVNeuralLabelExtensionDataBytesRoundTrip` | src/blackrock.h:96-100 | encoding the decoding of any 24 bytes gives back those bytes |
| `Blackrock.NEVNeuralFilterExtensionDataRoundTrip` | src/blackrock.h:102-111 | decoding the encoding of filter extension data gives back every field |
| `Blackrock.NEVNeuralFilterExtensionDataBytesRoundTrip` | src/blackrock.h:102-111 | encoding the decoding of any 24 bytes gives back those bytes |
| `Blackrock.NEVDigitalLabelExtensionDataRoundTrip` | src/blackrock.h:113-117 | decoding the encoding of digital label extension data gives back every field |
| `Blackrock.NEVDigitalLabelExtensionDataBytesRoundTrip` | src/blackrock.h:113-117 | encoding the decoding of any 24 bytes gives back those bytes |
| `Blackrock.NEVVideoSyncExtensionDataRoundTrip` | src/blackrock.h:119-124 | decoding the encoding of video-sync extension data gives back every field |
| `Blackrock.NEVVideoSyncExtensionDataBytesRoundTrip` | src/blackrock.h:119-124 | encoding the decoding of any 24 bytes gives back those bytes |
| `Blackrock.NEVTrackableObjectExtensionDataRoundTrip` | src/blackrock.h:126-132 | decoding the encoding of trackable-object extension data gives back every field |
| `Blackrock.NEVTrackableObjectExtensionDataBytesRoundTrip` | src/blackrock.h:126-132 | encoding the decoding of any 24 bytes gives back those bytes |
| `Blackrock.NEVDataHeaderRoundTrip` | src/blackrock.h:144-147 | decoding the 6-byte encoding of a package header gives back its timestamp and id |
| `Blackrock.NEVDataHeaderBytesRoundTrip` | src/blackrock.h:144-147 | encoding the decoding of any 6 bytes gives back those bytes |
| `Blackrock.NEVDigitalSerialDataRoundTrip` | src/blackrock.h:149-153 | decoding the encoding of a digital/serial payload gives back every field |
| `Blackrock.NEVDigitalSerialDataBytesRoundTrip` | src/blackrock.h:149-153 | encoding the decoding of any 4 bytes gives back those bytes |
| `Blackrock.NEVSpikeDataHeaderRoundTrip` | src/blackrock.h:155-159 | decoding the encoding of a spike payload header gives back every field |
| `Blackrock.NEVSpikeDataHeaderBytesRoundTrip` | src/blackrock.h:155-159 | encoding the decoding of any 2 bytes gives back those bytes |
| `Blackrock.NEVConfigurationDataHeaderRoundTrip` | src/blackrock.h:161-164 | decoding the encoding of a configuration payload header gives back its change type |
| `Blackrock.NEVConfigurationDataHeaderBytesRoundTrip` | src/blackrock.h:161-164 | encoding the decoding of any 2 bytes gives back those bytes |
| `Blackrock.NEVButtonDataRoundTrip` | src/blackrock.h:166-168 | decoding the encoding of a button payload gives back its trigger |
| `Blackrock.NEVButtonDataBytesRoundTrip` | src/blackrock.h:166-168 | encoding the decoding of any 2 bytes gives back those bytes |
| `Blackrock.NEVVideoSyncDataRoundTrip` | src/blackrock.h:170-175 | decoding the encoding of a video-sync payload gives back every field |
| `Blackrock.NEVVideoSyncDataBytesRoundTrip` | src/blackrock.h:170-175 | encoding the decoding of any 14 bytes gives back those bytes |
| `Blackrock.NEVTrackingDataHeaderRoundTrip` | src/blackrock.h:177-183 | decoding the encoding of a tracking payload header gives back every field |
| `Blackrock.NEVTrackingDataHeaderBytesRoundTrip` | src/blackrock.h:177-183 | encoding the decoding of any 8 bytes gives back those bytes |
| `Blackrock.NEVCommentDataHeaderRoundTrip` | src/blackrock.h:185-190 | decoding the encoding of a comment payload header gives back every field |
| `Blackrock.NEVCommentDataHeaderBytesRoundTrip` | src/blackrock.h:185-190 | encoding the decoding of any 6 bytes gives back those bytes |
| `Blackrock.NSXBasicHeaderRoundTrip` | src/blackrock.h:195-205 | decoding the 314-byte encoding of an NSx basic header gives back every field |
| `Blackrock.NSXBasicHeaderBytesRoundTrip` | src/blackrock.h:195-205 | encoding the decoding of any 314 bytes gives back those bytes |
| `Blackrock.NSXExtensionHeaderRoundTrip` | src/blackrock.h:207-224 | decoding the 66-byte encoding of a channel's extension header gives back every field |
| `Blackrock.NSXExtensionHeaderChannelFields` | src/blackrock.h:207-216 | in that encoding the type, id, label, bank, pin and the digital and analog limits are at their offsets |
| `Blackrock.NSXExtensionHeaderFilterFields` | src/blackrock.h:217-224 | in that encoding the unit and the high and low filter settings are at their offsets |
| `Blackrock.NSXExtensionHeaderBytesRoundTrip` | src/blackrock.h:207-224 | encoding the decoding of any 66 bytes gives back those bytes |
| `Blackrock.NSXDataHeaderRoundTrip` | src/blackrock.h:226-230 | decoding the 9-byte encoding of a data header gives back every field |
| `Blackrock.NSXDataHeaderBytesRoundTrip` | src/blackrock.h:226-230 | encoding the decoding of any 9 bytes gives back those bytes |
| `NevEvents.TextInjective` | src/neveventsprovider.cpp:89-161 | two event descriptions have the same label exactly when they are equal, so counting by description is counting by label; a tracking description holds only the parent id, as the program's tracking label does |
| `NevEvents.TrackingLabelAsWritten` | src/neveventsprovider.cpp:139 | the label the program builds from a tracking package's parent and node ids is the label of the description the model stores for it |
| `NevEvents.IntendedTrackingLabelInjective` | src/neveventsprovider.cpp:139 | with the parent id in the first place and the node id in the second, two tracking labels are equal exactly when both ids are |
| `NevEvents.TrackingLabelAsWrittenMergesNodes` | src/neveventsprovider.cpp:139 | the tracking label as written gives one label for two different node ids of the same parent, while the intended label keeps them apart |
| `NevEvents.ReadPackageDescription` | src/neveventsprovider.cpp:83-166 | a stored package of id 0 is serial data exactly when bit 7 of its reason is set and digital data otherwise; a configuration package is normal, critical or undefined as its type is 0, 1 or anything else; a button package is a press, a reset or undefined as its trigger is 1, 2 or anything else; a tracking package keeps its parent id and has the label the program builds; a video-sync package keeps its source id; a comment package is a comment |
| `NevEvents.ReadPackage` | src/neveventsprovider.cpp:73-180 | a package is skipped exactly when its header is read, it is not a continuation and its id is a spike id; it is stored exactly when its header is read, it is not a continuation, its id is an event id and its payload fits in the file; it is stored with the header's timestamp and a description of the header's id |
| `NevEvents.ReadEncodedEvent` | src/neveventsprovider.cpp:73-166 | an event package written with a timestamp that is not the continuation marker reads back as that very event |
| `NevEvents.ReadWrittenSerialOrConfiguration` | src/neveventsprovider.cpp:84-116 | a written digital, serial or configuration event reads back as itself |
| `NevEvents.ReadWrittenButtonOrTracking` | src/neveventsprovider.cpp:117-146 | a written button or tracking event reads back as itself |
| `NevEvents.ReadWrittenVideoSyncOrComment` | src/neveventsprovider.cpp:147-166 | a written video-sync or comment event reads back as itself |
| `NevEvents.EncodedEventParts` | src/neveventsprovider.cpp:73-87 | the header and payload of a written event package are where the reader reads them |
| `NevEvents.Scan` | src/neveventsprovider.cpp:72-191 | the loop keeps one timestamp and one origin per stored description; without a failure every package is either stored or skipped |
| `NevEvents.ScanFails` | src/neveventsprovider.cpp:72-191 | the loop fails exactly when one of the packages fails |
| `NevEvents.ScanOrigins` | src/neveventsprovider.cpp:183-186 | every stored event is the timestamp and description of one package, in file order, and no package before it failed |
| `NevEvents.ScanComplete` | src/neveventsprovider.cpp:167-186 | without a failure every package that is stored contributes its event |
| `NevEvents.ScanFailureIsFinal` | src/neveventsprovider.cpp:215-219 | after a failure later packages change nothing: the loop has stopped |
| `NevEvents.ScanSkipped` | src/neveventsprovider.cpp:175 | without a failure the skipped count is the number of spike packages, and descriptions plus skipped packages make up all packages |
| `NevEvents.Increment` | src/neveventsprovider.cpp:189-190 | the count of the label grows by one, every other count is unchanged, and the label becomes a key |
| `NevEvents.TallyCounts` | src/neveventsprovider.cpp:188-190 | after a run of labels each count grew by the number of times its label occurs in the run |
| `NevEvents.TallyKeys` | src/neveventsprovider.cpp:188-190 | after a run of labels the keys are the old keys plus the labels of the run |
| `NevEvents.LoadStatusOf` | src/neveventsprovider.cpp:29-220 | loading gives an open error exactly when the file cannot be opened, and Ok exactly when the headers are read and none of the announced packages fails |
| `NevEvents.ReadsOfRunArePackages` | src/neveventsprovider.cpp:72-74 | the results collected by the loop are the results of the first packages of the run |
| `NevEvents.ReadDataPackage` | src/neveventsprovider.cpp:73-180 | one loop step extends the results by the next package of the run, and the next package starts one data-package size later |
| `NevEvents.ReadPackageAt` | src/neveventsprovider.cpp:73-180 | the package read at pos is `ReadPackage` at pos, and the next one starts one data-package size later |
| `NevEvents.ExtensionHeaders` | src/neveventsprovider.cpp:52-61 | one extension header is kept per announced extension |
| `NevEvents.PackagesPrefix` | src/neveventsprovider.cpp:72-191 | the first k packages of a longer run are the run of k packages |
| `NevEvents.ScanOfFinishedPrefix` | src/neveventsprovider.cpp:72-191 | the loop's result is already fixed once a package failed |
| `NevEvents.RunScanOfPackages` | src/neveventsprovider.cpp:72-191 | the loop over the announced packages of a file ends in the state the specification computes |
| `NevEvents.LoadedEventsArePackages` | src/neveventsprovider.cpp:183-201 | a successful load keeps, in file order, exactly the stored packages among the announced ones, each with its own timestamp |
| `NevEvents.LoadedEventCount` | src/neveventsprovider.cpp:194-211 | after a successful load the event count is the announced count minus the spike packages; it equals the number of events kept when the announced count is not negative; the time span runs from 0 to the last timestamp |
| `NevEvents.LoadFailureClears` | src/neveventsprovider.cpp:215-219 | a failed load leaves no events and no timestamps and keeps the time span; once the package size is known it drops the extension headers |
| `NevEvents.LoadCountsDescriptions` | src/neveventsprovider.cpp:188-190 | loading adds to each label's count the number of events with that label it stored, also those stored before a failure |
| `NevEvents.ReloadCountsTwice` | src/neveventsprovider.cpp:188-190 | the counter is never reset, so loading the same file twice counts each of its events twice |
| `NevEvents.LoadStatusIsLoadStatusOf` | src/neveventsprovider.cpp:29-220 | the status of a load is the status the file calls for, whatever the provider held before |
| `NevEvents.ContinuationPackageFailsLoad` | src/neveventsprovider.cpp:76-79 | a continuation package among the announced packages makes the load fail |
| `NevEvents.NEVEventsProvider.constructor` | src/neveventsprovider.cpp:20-22 | a new provider has the file name, no extension headers, no events and an empty counter |
| `NevEvents.NEVEventsProvider.ReadExtensionHeaders` | src/neveventsprovider.cpp:49-61 | gives null exactly when the file ends before the last extension header, and otherwise a new array holding them all |
| `NevEvents.NEVEventsProvider.ReadEventPackages` | src/neveventsprovider.cpp:65-191 | the loop collects the timestamps and descriptions of the specification's scan, fails when it does, and counts the descriptions in the counter |
| `NevEvents.NEVEventsProvider.LoadData` | src/neveventsprovider.cpp:29-220 | the status and new state of the provider are those of the load specification |
| `NevEvents.NEVEventsProvider.LoadOpened` | src/neveventsprovider.cpp:40-220 | once the file is open, the status and new state are those of the load specification |
| `NevEvents.NEVEventsProvider.LoadAfterHeader` | src/neveventsprovider.cpp:46-220 | once the basic header is read, the status and new state are those of the specification |
| `NevEvents.NEVEventsProvider.LoadEvents` | src/neveventsprovider.cpp:65-220 | the package loop and what follows it leave the state the specification gives for the loop's result |
| `NevEvents.NEVEventsProvider.StoreEvents` | src/neveventsprovider.cpp:194-211 | the events, timestamps, count and time span are those of a provider that keeps the events read |
| `NsxTraces.TruncReal` | src/nsxtracesprovider.cpp:189 | a double converted to an integer loses its fraction, rounding toward zero |
| `NsxTraces.TruncMonotone` | src/nsxtracesprovider.cpp:86-91 | truncation never turns a smaller value into a greater integer |
| `NsxTraces.Round` | src/tracesprovider.h:196-198 | round gives the nearest integer, halves going away from zero |
| `NsxTraces.RoundOdd` | src/tracesprovider.h:196-198 | rounding commutes with negation |
| `NsxTraces.RoundWhole` | src/tracesprovider.h:196-198 | whole numbers are kept, and k + 0.5 rounds away from zero |
| `NsxTraces.CString` | src/nsxtracesprovider.cpp:196 | the string of a character array is its bytes before the first NUL, or all of them when there is none |
| `NsxTraces.StrNEqualIsCStringEqual` | src/nsxtracesprovider.cpp:153-155 | strncmp of a character array with a shorter literal gives 0 exactly when the array's C string is the literal |
| `NsxTraces.UnitCorrectionByName` | src/nsxtracesprovider.cpp:152-163 | the unit factor is 1 exactly for "uV", 1000 exactly for "mV", and unknown for every other unit |
| `NsxTraces.MinDigitalToMinAnalog` | src/nsxtracesprovider.cpp:165-173 | the least digital value converts to the least analog value times the unit factor |
| `NsxTraces.MaxDigitalToMaxAnalog` | src/nsxtracesprovider.cpp:165-173 | the greatest digital value converts to the greatest analog value times the unit factor |
| `NsxTraces.AnalogValueMonotone` | src/nsxtracesprovider.cpp:165-173 | with increasing digital and analog ranges, a greater raw value never has a smaller analog value |
| `NsxTraces.ToMicrovoltsMonotone` | src/nsxtracesprovider.cpp:165-173 | with increasing ranges and a non-negative unit factor, a greater raw value never converts to a smaller value |
| `NsxTraces.ScaledMonotone` | src/nsxtracesprovider.cpp:173 | scaling by a non-negative unit factor and truncating keeps the order |
| `NsxTraces.ExtensionHeaders` | src/nsxtracesprovider.cpp:56-64 | one extension header is kept per channel |
| `NsxTraces.EncodeNSXExtensionHeaders` | src/nsxtracesprovider.cpp:58-64 | the extension headers of n channels take 66 bytes each |
| `NsxTraces.ExtensionHeadersPrefix` | src/nsxtracesprovider.cpp:58-64 | the headers of the first count - 1 channels are the first of those of count channels |
| `NsxTraces.ExtensionHeadersBytes` | src/nsxtracesprovider.cpp:55-64 | the extension headers read encode back to exactly the bytes between the basic header and the data header |
| `NsxTraces.HeaderBytes` | src/nsxtracesprovider.cpp:45-74 | the basic header, the extension headers and the data header encode back to exactly the bytes in front of the samples |
| `NsxTraces.EndSampleMonotone` | src/nsxtracesprovider.cpp:91 | a later end time never gives an earlier end sample |
| `NsxTraces.WindowsTile` | src/nsxtracesprovider.cpp:83-94 | windows in milliseconds never hold a negative number of samples, and two adjacent windows add up to the window they cover, without a gap or a shared sample |
| `NsxTraces.RecordingWindowWithinData` | src/nsxtracesprovider.cpp:182-190 | the window from 0 to the recording length holds no more samples than the data header announces |
| `NsxTraces.InitSucceedsExactly` | src/nsxtracesprovider.cpp:34-81 | init succeeds exactly when the provider is already initialised or the file opens and holds every header (with a nonzero sampling period); success leaves it initialised |
| `NsxTraces.InitIdempotent` | src/nsxtracesprovider.cpp:36-37 | once init has succeeded, another init succeeds and changes nothing, whatever the file |
| `NsxTraces.InitReadsHeaders` | src/nsxtracesprovider.cpp:45-80 | a first successful init takes the channel count and rate 30000 / period from the basic header, keeps every channel's extension header and the data header, records where the samples start, computes the length in ms and leaves the other fields alone |
| `NsxTraces.InitKeepsHeaderBytes` | src/nsxtracesprovider.cpp:45-74 | the headers a first successful init keeps are exactly the bytes in front of the samples |
| `NsxTraces.InitFailureKeepsUninitialised` | src/nsxtracesprovider.cpp:39-71 | a failed init leaves the provider uninitialised with its length and data position, changes nothing when the file cannot be opened or is too short, and otherwise keeps the channel count and rate but no extension headers |
| `NsxTraces.WindowBytes` | src/nsxtracesprovider.cpp:137-138 | the buffer of a read of n bytes holds n bytes |
| `NsxTraces.CellInWindow` | src/nsxtracesprovider.cpp:134-138 | every cell of a window of rows by channels lies inside the buffer read for it |
| `NsxTraces.WindowRows` | src/nsxtracesprovider.cpp:149-174 | the converted window has one row per sample and one value per channel |
| `NsxTraces.I16AtSlice` | src/nsxtracesprovider.cpp:138 | an int16 of the buffer is the int16 at the same place in the file |
| `NsxTraces.SampleOffset` | src/nsxtracesprovider.cpp:116-126 | cell (i, c) of a window that starts at sample first sits where channel c of sample first + i sits in the data block |
| `NsxTraces.WindowCellIsSample` | src/nsxtracesprovider.cpp:116-173 | cell (i, c) of a window is channel c of sample first + i of the data block, converted to microvolts |
| `NsxTraces.RetrievedRows` | src/nsxtracesprovider.cpp:96-180 | a retrieved window has as many rows as getNbSamples counts for the same arguments and one value per channel, and row i is sample first + i of the data block, each channel converted with its unit |
| `NsxTraces.WindowRowsAreSamples` | src/nsxtracesprovider.cpp:116-174 | every row of a window read at sample first is the matching sample of the data block, converted |
| `NsxTraces.RetrieveSpecSome` | src/nsxtracesprovider.cpp:99-149 | a window is retrieved only when the provider is initialised, the file opens, the seek and the whole read succeed and every unit is known, and it is the conversion of the bytes read |
| `NsxTraces.RetrievedUnits` | src/nsxtracesprovider.cpp:152-163 | every channel of a retrieved window has the unit "uV" or "mV" |
| `NsxTraces.NSXTracesProvider.constructor` | src/nsxtracesprovider.cpp:25-27 | a new provider has the file name, -1 channels, resolution 16, offset 0, no rate, is not initialised, holds no extension headers and has data position -1 |
| `NsxTraces.NSXTracesProvider.Init` | src/nsxtracesprovider.cpp:34-81 | the result and new state are those of `InitSpec` |
| `NsxTraces.NSXTracesProvider.ReadExtensionHeaders` | src/nsxtracesprovider.cpp:55-64 | gives null exactly when the file ends before the last channel's extension header, and otherwise a new array of all of them |
| `NsxTraces.NSXTracesProvider.ReadHeaders` | src/nsxtracesprovider.cpp:55-80 | the result and new state are those the specification gives once the basic header is read |
| `NsxTraces.NSXTracesProvider.ReadDataHeader` | src/nsxtracesprovider.cpp:66-80 | reading the data header either fails and drops the extension headers, or stores the header and the data position, marks the provider initialised and computes the length |
| `NsxTraces.NSXTracesProvider.ComputeRecordingLength` | src/nsxtracesprovider.cpp:182-190 | the length is -1 before initialisation and otherwise the data header's sample count in milliseconds, truncated |
| `NsxTraces.NSXTracesProvider.UpdateRecordingLength` | src/tracesprovider.h:50 | the length is recomputed as computeRecordingLength does |
| `NsxTraces.NSXTracesProvider.RetrieveData` | src/nsxtracesprovider.cpp:96-180 | the array holds the rows `RetrieveSpec` gives, and it is 0 by 0 where that gives none |
| `NsxTraces.NSXTracesProvider.ReadWindow` | src/nsxtracesprovider.cpp:125-174 | after the file opened, the array holds the window read at pos, or is 0 by 0 when the seek, the read or a unit fails |
| `NsxTraces.NSXTracesProvider.ConvertWindow` | src/nsxtracesprovider.cpp:148-176 | with every unit known the array holds each channel's values converted to microvolts, and otherwise it is 0 by 0 |
| `NsxTraces.NSXTracesProvider.GetLabels` | src/nsxtracesprovider.cpp:192-200 | one label per channel, none when the count is not positive, each the C string of the channel's label field |
| `NsxTraces.NSXTracesProvider.SetNbChannels` | src/tracesprovider.h:63-66 | the getter then gives the new count and the length is recomputed |
| `NsxTraces.NSXTracesProvider.SetResolution` | src/tracesprovider.h:71-74 | the getter then gives the new resolution and the length is recomputed |
| `NsxTraces.NSXTracesProvider.SetSamplingRate` | src/tracesprovider.h:79-82 | the getter then gives the new rate and the length is recomputed with it |
| `NsxTraces.NSXTracesProvider.SetVoltageRange` | src/tracesprovider.h:87-89 | the getter then gives the new range as a double, and nothing else changes |
| `NsxTraces.NSXTracesProvider.SetAmplification` | src/tracesprovider.h:94-96 | the getter then gives the new amplification as a double, and nothing else changes |
| `NsxTraces.NSXTracesProvider.SetOffset` | src/tracesprovider.h:101 | the getter then gives the new offset, and nothing else changes |

## Left out

- Qt file I/O is replaced by the contents of the file and a flag saying whether it opens. Closing files, the logging calls and the `dataReady` signal are not modelled. `RetrieveData` returns the array that the program emits.
- The `EventsProvider` and `TracesProvider` base classes, other than the fields, setters and getters above, are not part of this model. This includes `updateMappingAndDescriptionLength`, `requestData` and `getTotalNbSamples`.
- The destructors are not modelled, since they only free memory. Neither is the `position` argument of the events constructor, which goes to the base class.
- `Array`, `pArray` and `dataType` come from headers that are not part of this model. Arrays are modelled as row-major and 0-based: row i, column c is sample i, channel c. `dataType` is taken as an unbounded integer, so any narrowing of converted samples or of `getNbSamples` is not modelled.
- Doubles are modelled as mathematical reals. Rounding of the floating-point operations and infinities are not modelled.
- Integer widths: `channel_count` goes into an `int` and `nbEvents` into a `long`. Their wrap-around for files larger than 2^31 units is not modelled, and neither is the exception `new[]` throws for a negative count.
- `Blackrock.ReadStruct`: a short read that fills part of the record is not modelled. The program then fails anyway, but the destination keeps the bytes that were read.
- The temporary timestamp and description buffers of `loadData` are sequences that grow one event at a time. Timestamps are kept as the integers read rather than as doubles.
- `NevEvents.NEVEventsProvider.LoadData`: a data package size of 0 ends the load with IncorrectContent. The program divides by zero there.
- `NevEvents.NEVEventsProvider.LoadData`: when no event is left, the end time is None. The program reads `timeStamps(1, 0)`, which is out of range.
- The seeks that skip the rest of a package always target a position at or past the start of the file, so their failure branches cannot be taken and are not modelled. A seek past the end of the file makes the next header read fail, and the model does the same.
- `NsxTraces.NSXTracesProvider.Init`: a sampling period of 0 makes init fail once the channel count is stored. The program would go on with an infinite rate.
- `NsxTraces.NSXTracesProvider.Init`: after a failure the extension headers are dropped (None / null). The program deletes the array but leaves its pointer set.
- `NsxTraces.NSXTracesProvider.RetrieveData`: requires that, once initialised, every channel has an extension header with a nonzero digital range, whatever the window. The program divides by that range, and with a zero range it converts an infinity or a NaN. The precondition also excludes calls where the program never divides: a window of 0 rows, a failed seek or read, and a channel after an earlier channel's unknown unit.
- `NsxTraces.NSXTracesProvider.ReadWindow`: a window with a negative number of samples gives the empty array. In the program, allocating such a buffer has no defined outcome.
- `NsxTraces.NSXTracesProvider.GetLabels`: label bytes become characters one to one. QString's UTF-8 decoding is not modelled, and a label without a NUL stops at its 16 bytes.
- `NsxTraces.NSXTracesProvider.GetNbSamples` is `NbSamples` of the sampling rate and carries no contract of its own. What the number of samples means is stated by `WindowsTile` and `RetrievedRows`.
- The other getters of the traces provider only return their fields. Their meaning is stated by the setters' contracts.
- `NsxTraces.NSXTracesProvider.SlotPagingStarted` and `SlotPagingStopped` are empty and have no frame, so they change nothing and carry no contract.

## Findings

| source | as written | input that shows it | evidently intended | confidence | as-written member | corrected member |
|---|---|---|---|---|---|---|
| src/neveventsprovider.cpp:139 | the tracking label's format string uses `%1` twice, so both places show the parent id and the node id is dropped | two tracking packages with parent id 1 and node ids 2 and 3 get the same label "tracking (p: 1 n: 1)" and are counted as one kind of event | `%1` for the parent id and `%2` for the node id, so different nodes get different labels | not executed | `NevEvents.TrackingLabelAsWrittenMergesNodes` | `NevEvents.IntendedTrackingLabelInjective` |

The loader follows the program as written: a tracking package is stored under its parent id alone, so its label and its count are the program's. `IntendedTrackingLabel` is the label the format evidently means, and `IntendedTrackingLabelInjective` proves that it tells nodes apart.
