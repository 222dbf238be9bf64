/**
 * MediaParser: the per-field cache in front of every extractor, the raw-output
 * fetch it all starts from, and getFileInformation, which assembles the record.
 *
 * What ffmpeg prints for a file, what Mime::get says about it and how the Timecode
 * class reads its text are taken as fixed functions of the path, given to the
 * constructor. Under that reading every stored entry is what a fresh computation
 * would give, and each getter can promise its result outright, hit or miss.
 */
module Parser {
  import opened Wrappers
  import opened Text
  import opened Media
  import opened Assoc
  import opened Metadata
  import opened StreamLine
  import opened Fields
  import opened Video
  import opened Audio

  /** The last line ffmpeg prints when it is run without an output file; not a failure here. */
  const NoOutputFileLine := "At least one output file must be specified"

  /** One run of `ffmpeg -i <file> -af volumedetect -f NULL`: its output, error flag and last line. */
  datatype ProcessRun = ProcessRun(buffer: string, hasError: bool, lastLine: string)

  /** The FfmpegProcessException getFileRawInformation throws. */
  datatype ParseError = ProcessFailure(path: string, output: string)

  /** The condition under which getFileRawInformation throws. */
  predicate Failed(run: ProcessRun) {
    run.hasError && run.lastLine != NoOutputFileLine
  }

  /** The outcome of one run: its output, or the exception carrying it. */
  function RawOutcome(path: string, run: ProcessRun): (r: Result<string, ParseError>)
    ensures r.Err? <==> run.hasError && run.lastLine != NoOutputFileLine
    ensures r.Ok? ==> r.value == run.buffer
    ensures r.Err? ==> r.error == ProcessFailure(path, run.buffer)
  {
    if Failed(run) then Err(ProcessFailure(path, run.buffer)) else Ok(run.buffer)
  }

  /** An error run whose last line is the missing-output message still counts as output. */
  lemma MissingOutputIsNotFailure(path: string, buffer: string)
    ensures RawOutcome(path, ProcessRun(buffer, true, NoOutputFileLine)) == Ok(buffer)
    ensures forall line :: line != NoOutputFileLine ==> RawOutcome(path, ProcessRun(buffer, true, line)).Err?
  {
  }

  /** The cache keys, one per getter: `media_parser/<hash of the path>_<suffix>`. */
  datatype Field =
    | RawData                // _raw_data
    | ParsedDuration         // _parsed_duration
    | ParsedGlobalMeta       // _parsed_global_meta
    | ParsedBitrate          // _parsed_bitrate
    | ParsedStart            // _parsed_start
    | ParsedType             // _parsed_type
    | ParsedVolume           // _parsed_volume
    | ParsedVideoComponent   // _parsed_video_component
    | ParsedAudioComponent   // _parsed_audio_component
    | ParsedHasAudio         // _parsed_has_audio
    | ParsedHasVideo         // _parsed_has_video
    | ContainerFormat        // _container_format
    | ParsedInformation      // _parsed_information

  datatype Key = Key(path: string, field: Field)

  /** A value in the cache, one constructor per shape a getter stores. */
  datatype Cached =
    | TextValue(text: string)
    | TimecodeValue(time: Option<Timecode>)
    | EntriesValue(entries: Option<Entries>)
    | IntValue(number: Option<int>)
    | TypeValue(mediaType: Option<MediaType>)
    | VolumeValue(volume: Option<Volume>)
    | VideoValue(video: Option<VideoComponent>)
    | AudioValue(audio: Option<AudioComponent>)
    | FlagValue(flag: bool)
    | InformationValue(information: MediaInformation)

  /** `=== -1`: only a stored integer -1 is identical to the miss default. */
  predicate IsMinusOne(v: Cached) { v == IntValue(Some(-1)) }

  /** PHP truthiness of a stored value. */
  predicate Truthy(v: Cached) {
    match v
    case TextValue(t) => t != "" && t != "0"
    case TimecodeValue(t) => t.Some?
    case EntriesValue(e) => e.Some? && |e.value| > 0
    case IntValue(n) => n.Some? && n.value != 0
    case TypeValue(t) => t.Some?
    case VolumeValue(v) => v.Some?
    case VideoValue(v) => v.Some?
    case AudioValue(a) => a.Some?
    case FlagValue(b) => b
    case InformationValue(_) => true
  }

  /** The getters that test the stored value for truth rather than against -1. */
  predicate TruthTested(f: Field) {
    f == ParsedHasAudio || f == ParsedHasVideo || f == ContainerFormat || f == ParsedInformation
  }

  /** Whether a getter called with `read_from_cache` returns what the cache holds for `k`. */
  predicate CacheHit(c: map<Key, Cached>, k: Key) {
    k in c && (if TruthTested(k.field) then Truthy(c[k]) else !IsMinusOne(c[k]))
  }

  /** The getters that parse the raw text: all but the raw text itself and the record. */
  predicate IsDerived(f: Field) { f != RawData && f != ParsedInformation }

  /** How a derived getter starts: the stored value, the raw text to parse, or the exception. */
  datatype Lookup = FromCache(value: Cached) | FromRaw(raw: string) | Thrown(error: ParseError)

  /** Every field the getters derive from one ffmpeg output. */
  datatype Extracted = Extracted(
    duration: Option<Timecode>,
    globalMeta: Option<Entries>,
    bitrate: Option<int>,
    start: Option<Timecode>,
    mediaType: Option<MediaType>,
    volume: Option<Volume>,
    video: Option<VideoComponent>,
    audio: Option<AudioComponent>,
    hasAudio: bool,
    hasVideo: bool,
    container: string,
    needsDuration: bool)  // whether the video getter asks for the duration

  /** The extractors applied to the output `raw` of a file whose MIME type is `mimeType`. */
  function ExtractionOf(raw: string, mimeType: string, reader: TimecodeReader): Extracted {
    Extracted(
      Duration(raw, reader),
      GlobalMetadata(raw),
      Bitrate(raw),
      Start(raw, reader),
      Type(raw, mimeType),
      VolumeOf(raw),
      VideoComponentOf(raw, Duration(raw, reader)),
      AudioComponentOf(raw),
      HasAudio(raw),
      HasVideo(raw),
      Container(raw),
      NeedsDuration(raw))
  }

  class MediaParser {
    /** What ffmpeg does for each path. */
    const probe: string -> ProcessRun
    /** Mime::get. */
    const mime: string -> string
    /** How the Timecode class reads its text. */
    const reader: TimecodeReader
    /**
     * The extraction of each path's output, fixed at construction. The cache is
     * described through this value; each getter relies only on the one bridge
     * predicate below that ties its own field to its extractor.
     */
    ghost const extracted: string -> Extracted

    var cache: map<Key, Cached>
    /** How many times ffmpeg has been run. */
    var processRuns: nat

    constructor (probe: string -> ProcessRun, mime: string -> string, reader: TimecodeReader)
      ensures this.probe == probe && this.mime == mime && this.reader == reader
      ensures cache == map[] && processRuns == 0
      ensures Valid() && Extracts()
    {
      this.probe := probe;
      this.mime := mime;
      this.reader := reader;
      extracted := (p: string) => ExtractionOf(probe(p).buffer, mime(p), reader);
      cache := map[];
      processRuns := 0;
      new;
      assert Defined();
      DefinedExtracts();
    }

    /** The raw text ffmpeg prints for `path`. */
    function Output(path: string): string {
      probe(path).buffer
    }

    // -------------------------------------------------------------------------
    // The extraction of every path, field by field
    // -------------------------------------------------------------------------

    ghost predicate DurationExtracted() { forall p :: extracted(p).duration == Duration(Output(p), reader) }
    ghost predicate GlobalMetaExtracted() { forall p :: extracted(p).globalMeta == GlobalMetadata(Output(p)) }
    ghost predicate BitrateExtracted() { forall p :: extracted(p).bitrate == Bitrate(Output(p)) }
    ghost predicate StartExtracted() { forall p :: extracted(p).start == Start(Output(p), reader) }
    ghost predicate TypeExtracted() { forall p :: extracted(p).mediaType == Type(Output(p), mime(p)) }
    ghost predicate VolumeExtracted() { forall p :: extracted(p).volume == VolumeOf(Output(p)) }
    ghost predicate VideoExtracted() {
      && (forall p {:trigger VideoComponentOf(Output(p), Duration(Output(p), reader))} ::
            extracted(p).video == VideoComponentOf(Output(p), Duration(Output(p), reader)))
      && (forall p {:trigger NeedsDuration(Output(p))} :: extracted(p).needsDuration == NeedsDuration(Output(p)))
    }
    ghost predicate AudioExtracted() { forall p :: extracted(p).audio == AudioComponentOf(Output(p)) }
    ghost predicate HasAudioExtracted() { forall p :: extracted(p).hasAudio == HasAudio(Output(p)) }
    ghost predicate HasVideoExtracted() { forall p :: extracted(p).hasVideo == HasVideo(Output(p)) }
    ghost predicate ContainerExtracted() { forall p :: extracted(p).container == Container(Output(p)) }

    /** The extraction of each path, as the constructor fixes it. */
    ghost predicate Defined() {
      forall p :: extracted(p) == ExtractionOf(Output(p), mime(p), reader)
    }

    /** The fixed extraction ties every field to its extractor. */
    lemma DefinedExtracts()
      requires Defined()
      ensures Extracts()
    {
      DefinedExtractsHeader();
      DefinedExtractsStreams();
    }

    lemma DefinedExtractsHeader()
      requires Defined()
      ensures DurationExtracted() && GlobalMetaExtracted() && BitrateExtracted() && StartExtracted()
      ensures TypeExtracted() && VolumeExtracted()
    {
    }

    lemma DefinedExtractsStreams()
      requires Defined()
      ensures VideoExtracted() && AudioExtracted() && HasAudioExtracted() && HasVideoExtracted() && ContainerExtracted()
    {
    }

    /** Each path's extraction is the extractors applied to its output. */
    ghost predicate Extracts() {
      && DurationExtracted() && GlobalMetaExtracted() && BitrateExtracted() && StartExtracted()
      && TypeExtracted() && VolumeExtracted() && VideoExtracted() && AudioExtracted()
      && HasAudioExtracted() && HasVideoExtracted() && ContainerExtracted()
    }

    // -------------------------------------------------------------------------
    // What the cache may hold
    // -------------------------------------------------------------------------

    /** What the getter for `f` computes from scratch for `path`. */
    ghost function Fresh(path: string, f: Field): (v: Cached)
      requires f != ParsedInformation
      ensures f == RawData ==> v.TextValue? && v.text == Output(path)
      ensures f == ParsedBitrate ==> (IsMinusOne(v) <==> extracted(path).bitrate == Some(-1))
      ensures f != ParsedBitrate ==> !IsMinusOne(v)
    {
      var e := extracted(path);
      match f
      case RawData => TextValue(Output(path))
      case ParsedDuration => TimecodeValue(e.duration)
      case ParsedGlobalMeta => EntriesValue(e.globalMeta)
      case ParsedBitrate => IntValue(e.bitrate)
      case ParsedStart => TimecodeValue(e.start)
      case ParsedType => TypeValue(e.mediaType)
      case ParsedVolume => VolumeValue(e.volume)
      case ParsedVideoComponent => VideoValue(e.video)
      case ParsedAudioComponent => AudioValue(e.audio)
      case ParsedHasAudio => FlagValue(e.hasAudio)
      case ParsedHasVideo => FlagValue(e.hasVideo)
      case ContainerFormat => TextValue(e.container)
    }

    /** The record getFileInformation stores, read at time `at`. */
    ghost function InformationOf(path: string, at: int): MediaInformation {
      var e := extracted(path);
      MediaInformation(true, at, path, e.mediaType, e.container, e.duration, e.bitrate,
                       e.volume, e.start, e.video, e.audio, e.globalMeta)
    }

    /**
     * Every entry is what its getter would compute now; entries exist only for paths
     * whose run succeeded, and only once the raw text is stored.
     */
    ghost predicate Coherent(c: map<Key, Cached>) {
      forall k {:trigger c[k]} :: k in c ==>
        && !Failed(probe(k.path))
        && Key(k.path, RawData) in c
        && (if k.field == ParsedInformation
            then c[k].InformationValue? && c[k].information == InformationOf(k.path, c[k].information.readAt)
            else c[k] == Fresh(k.path, k.field))
    }

    ghost predicate Valid()
      reads this
    {
      Coherent(cache)
    }

    /** The cache with the fresh entry of `f` for `path` stored. */
    ghost function Store(c: map<Key, Cached>, path: string, f: Field): map<Key, Cached>
      requires f != ParsedInformation
    {
      c[Key(path, f) := Fresh(path, f)]
    }

    /**
     * The cache a miss on the derived field `f` leaves: the raw text stored, then the
     * duration when the video getter asks for it, then `f`.
     */
    ghost function AfterMiss(c: map<Key, Cached>, path: string, f: Field): map<Key, Cached>
      requires IsDerived(f)
    {
      var withRaw := Store(c, path, RawData);
      var withDuration := if f == ParsedVideoComponent && extracted(path).needsDuration then Store(withRaw, path, ParsedDuration) else withRaw;
      Store(withDuration, path, f)
    }

    /** How many times a miss on `f` runs ffmpeg. */
    ghost function Runs(c: map<Key, Cached>, path: string, f: Field, readFromCache: bool): nat {
      (if readFromCache && CacheHit(c, Key(path, RawData)) then 0 else 1)
      + (if f == ParsedVideoComponent && extracted(path).needsDuration && !readFromCache then 1 else 0)
    }

    /**
     * The state `(c1, n1)` a getter for `f` leaves from cache `c0` and run count `n0`:
     * untouched on a hit; one more run and nothing stored when ffmpeg fails;
     * otherwise the fresh entries stored and the runs counted.
     */
    ghost predicate Served(c0: map<Key, Cached>, n0: nat, c1: map<Key, Cached>, n1: nat, path: string, f: Field, readFromCache: bool)
      requires f != ParsedInformation
    {
      if readFromCache && CacheHit(c0, Key(path, f)) then c1 == c0 && n1 == n0
      else if Failed(probe(path)) then c1 == c0 && n1 == n0 + 1
      else if f == RawData then c1 == Store(c0, path, RawData) && n1 == n0 + 1
      else c1 == AfterMiss(c0, path, f) && n1 == n0 + Runs(c0, path, f, readFromCache)
    }

    /** Storing an entry that is already there changes nothing. */
    lemma StoreKnown(c: map<Key, Cached>, path: string, f: Field)
      requires Coherent(c) && f != ParsedInformation && Key(path, f) in c
      ensures Store(c, path, f) == c
    {
    }

    /** Storing a fresh entry keeps the cache coherent, once the raw text is there. */
    lemma StoreCoherent(c: map<Key, Cached>, path: string, f: Field)
      requires Coherent(c) && f != ParsedInformation && !Failed(probe(path))
      requires f == RawData || Key(path, RawData) in c
      ensures Coherent(Store(c, path, f))
    {
    }

    /** A hit leaves the cache and the run count as they were. */
    lemma HitServed(c: map<Key, Cached>, n: nat, path: string, f: Field, readFromCache: bool)
      requires f != ParsedInformation && readFromCache && CacheHit(c, Key(path, f))
      ensures Served(c, n, c, n, path, f, readFromCache)
    {
    }

    /** A failed run of ffmpeg is counted and stores nothing. */
    lemma ThrowServed(c: map<Key, Cached>, n: nat, path: string, f: Field, readFromCache: bool)
      requires f != ParsedInformation && !(readFromCache && CacheHit(c, Key(path, f))) && Failed(probe(path))
      ensures Served(c, n, c, n + 1, path, f, readFromCache)
    {
    }

    /** A miss on a field other than the video array stores the raw text, then the field. */
    lemma MissServed(c: map<Key, Cached>, n: nat, path: string, f: Field, readFromCache: bool)
      requires IsDerived(f) && f != ParsedVideoComponent
      requires !(readFromCache && CacheHit(c, Key(path, f))) && !Failed(probe(path))
      ensures Served(c, n, Store(Store(c, path, RawData), path, f), n + Runs(c, path, RawData, readFromCache), path, f, readFromCache)
    {
    }

    /**
     * A derived getter that did not throw leaves the raw text and its own field
     * stored, whether it hit or missed, and runs ffmpeg as Runs counts.
     */
    lemma ServedSucceeded(c0: map<Key, Cached>, n0: nat, c1: map<Key, Cached>, n1: nat, path: string, f: Field, readFromCache: bool)
      requires Coherent(c0) && IsDerived(f) && !Failed(probe(path))
      requires f == ParsedVideoComponent && extracted(path).needsDuration ==> Key(path, ParsedDuration) in c0
      requires Served(c0, n0, c1, n1, path, f, readFromCache)
      ensures c1 == Store(Store(c0, path, RawData), path, f)
      ensures Key(path, RawData) in c0 ==> c1 == Store(c0, path, f)
      ensures n1 == n0 + Runs(c0, path, f, readFromCache)
      ensures Key(path, RawData) in c0 ==>
                n1 == n0 + (if readFromCache then 0 else if f == ParsedVideoComponent && extracted(path).needsDuration then 2 else 1)
    {
      if Key(path, RawData) in c0 {
        assert c0[Key(path, RawData)] == Fresh(path, RawData);
      }
      if readFromCache && CacheHit(c0, Key(path, f)) {
        StoreKnown(c0, path, RawData);
        StoreKnown(c0, path, f);
      } else {
        var withRaw := Store(c0, path, RawData);
        StoreCoherent(c0, path, RawData);
        if Key(path, RawData) in c0 {
          StoreKnown(c0, path, RawData);
        }
        if f == ParsedVideoComponent && extracted(path).needsDuration {
          StoreKnown(withRaw, path, ParsedDuration);
        }
      }
    }

    /**
     * What a served getter leaves for the next call with `read_from_cache`: its own
     * fresh entry, which answers that call unless it is the miss sentinel. An
     * unavailable bitrate is stored as -1 and a false flag or an empty or `"0"`
     * container is falsy, so those are parsed again on every call.
     */
    lemma ServedThenHit(c0: map<Key, Cached>, n0: nat, c1: map<Key, Cached>, n1: nat, path: string, f: Field, readFromCache: bool)
      requires Coherent(c0) && IsDerived(f) && !Failed(probe(path))
      requires Served(c0, n0, c1, n1, path, f, readFromCache)
      ensures Key(path, f) in c1 && c1[Key(path, f)] == Fresh(path, f)
      ensures f == ParsedBitrate ==> (CacheHit(c1, Key(path, f)) <==> extracted(path).bitrate != Some(-1))
      ensures f == ParsedHasAudio ==> (CacheHit(c1, Key(path, f)) <==> extracted(path).hasAudio)
      ensures f == ParsedHasVideo ==> (CacheHit(c1, Key(path, f)) <==> extracted(path).hasVideo)
      ensures f == ContainerFormat ==>
                (CacheHit(c1, Key(path, f)) <==> extracted(path).container != "" && extracted(path).container != "0")
      ensures f != ParsedBitrate && !TruthTested(f) ==> CacheHit(c1, Key(path, f))
    {
      if readFromCache && CacheHit(c0, Key(path, f)) {
        assert c0[Key(path, f)] == Fresh(path, f);
      }
    }

    // -------------------------------------------------------------------------
    // The raw text and the steps every getter shares
    // -------------------------------------------------------------------------

    /** getFileRawInformation: the stored text, or a run of ffmpeg whose output is stored. */
    method GetFileRawInformation(path: string, readFromCache: bool) returns (r: Result<string, ParseError>)
      requires Valid()
      modifies this
      ensures Valid()
      ensures Served(old(cache), old(processRuns), cache, processRuns, path, RawData, readFromCache)
      ensures r.Err? <==> Failed(probe(path))
      ensures r.Ok? ==> r.value == Output(path)
      ensures r.Err? ==> r.error == ProcessFailure(path, Output(path))
    {
      var k := Key(path, RawData);
      if readFromCache && CacheHit(cache, k) {
        return Ok(cache[k].text);
      }
      processRuns := processRuns + 1;
      var run := probe(path);
      r := RawOutcome(path, run);
      if r.Ok? {
        StoreCoherent(cache, path, RawData);
        cache := cache[k := TextValue(r.value)];
      }
    }

    /**
     * The opening every derived getter shares: with `read_from_cache`, a stored value
     * that is not the miss marker is returned; otherwise the raw text is fetched.
     */
    method LookUp(path: string, f: Field, readFromCache: bool) returns (l: Lookup)
      requires Valid() && IsDerived(f)
      modifies this
      ensures Valid()
      ensures l.FromCache? <==> readFromCache && CacheHit(old(cache), Key(path, f))
      ensures l.FromCache? ==> l.value == Fresh(path, f) && cache == old(cache) && processRuns == old(processRuns)
      ensures l.Thrown? <==> !l.FromCache? && Failed(probe(path))
      ensures l.Thrown? ==> l.error == ProcessFailure(path, Output(path))
      ensures l.Thrown? ==> cache == old(cache) && processRuns == old(processRuns) + 1
      ensures l.FromRaw? ==> l.raw == Output(path) && cache == Store(old(cache), path, RawData)
      ensures l.FromRaw? ==> processRuns == old(processRuns) + Runs(old(cache), path, RawData, readFromCache)
    {
      var k := Key(path, f);
      if readFromCache && CacheHit(cache, k) {
        return FromCache(cache[k]);
      }
      ghost var c0 := cache;
      var got := GetFileRawInformation(path, readFromCache);
      if got.Err? {
        return Thrown(got.error);
      }
      if readFromCache && CacheHit(c0, Key(path, RawData)) {
        StoreKnown(c0, path, RawData);
      }
      l := FromRaw(got.value);
    }

    /** `_cacheSet` of a derived getter's value, once the raw text is stored. */
    method CacheSet(path: string, f: Field, v: Cached)
      requires Valid() && IsDerived(f) && !Failed(probe(path)) && Key(path, RawData) in cache
      requires v == Fresh(path, f)
      modifies this
      ensures Valid()
      ensures cache == Store(old(cache), path, f) && processRuns == old(processRuns)
    {
      StoreCoherent(cache, path, f);
      cache := cache[Key(path, f) := v];
    }

    // -------------------------------------------------------------------------
    // What a stored entry holds
    // -------------------------------------------------------------------------

    /** A stored getFileDuration entry holds what it computes from the path's output. */
    lemma DurationCached(path: string, v: Cached)
      requires DurationExtracted() && v == Fresh(path, ParsedDuration)
      ensures v.TimecodeValue? && v.time == Duration(Output(path), reader)
    {
    }

    /** A stored getFileGlobalMetadata entry holds what it computes from the path's output. */
    lemma GlobalMetaCached(path: string, v: Cached)
      requires GlobalMetaExtracted() && v == Fresh(path, ParsedGlobalMeta)
      ensures v.EntriesValue? && v.entries == GlobalMetadata(Output(path))
    {
    }

    /** A stored getFileBitrate entry holds what it computes from the path's output. */
    lemma BitrateCached(path: string, v: Cached)
      requires BitrateExtracted() && v == Fresh(path, ParsedBitrate)
      ensures v.IntValue? && v.number == Bitrate(Output(path))
    {
    }

    /** A stored getFileStart entry holds what it computes from the path's output. */
    lemma StartCached(path: string, v: Cached)
      requires StartExtracted() && v == Fresh(path, ParsedStart)
      ensures v.TimecodeValue? && v.time == Start(Output(path), reader)
    {
    }

    /** A stored getFileType entry holds what it computes from the path's output. */
    lemma TypeCached(path: string, v: Cached)
      requires TypeExtracted() && v == Fresh(path, ParsedType)
      ensures v.TypeValue? && v.mediaType == Type(Output(path), mime(path))
    {
    }

    /** A stored getFileVolumeComponent entry holds what it computes from the path's output. */
    lemma VolumeCached(path: string, v: Cached)
      requires VolumeExtracted() && v == Fresh(path, ParsedVolume)
      ensures v.VolumeValue? && v.volume == VolumeOf(Output(path))
    {
    }

    /** A stored getFileHasAudio entry holds what it computes from the path's output. */
    lemma HasAudioCached(path: string, v: Cached)
      requires HasAudioExtracted() && v == Fresh(path, ParsedHasAudio)
      ensures v.FlagValue? && v.flag == HasAudio(Output(path))
    {
    }

    /** A stored getFileHasVideo entry holds what it computes from the path's output. */
    lemma HasVideoCached(path: string, v: Cached)
      requires HasVideoExtracted() && v == Fresh(path, ParsedHasVideo)
      ensures v.FlagValue? && v.flag == HasVideo(Output(path))
    {
    }

    /** A stored getFileContainerFormat entry holds what it computes from the path's output. */
    lemma ContainerCached(path: string, v: Cached)
      requires ContainerExtracted() && v == Fresh(path, ContainerFormat)
      ensures v.TextValue? && v.text == Container(Output(path))
    {
    }

    /** A stored getFileVideoComponent entry holds what it computes from the path's output. */
    lemma VideoCached(path: string, v: Cached)
      requires v == Fresh(path, ParsedVideoComponent)
      ensures v.VideoValue? && v.video == extracted(path).video
    {
    }

    /** A stored audio entry holds the audio array of the path's output. */
    lemma AudioCached(path: string, v: Cached)
      requires AudioExtracted() && v == Fresh(path, ParsedAudioComponent)
      ensures v.AudioValue? && v.audio == AudioComponentOf(Output(path))
    {
    }

    // -------------------------------------------------------------------------
    // The getters
    // -------------------------------------------------------------------------

    /** getFileDuration. */
    method GetFileDuration(path: string, readFromCache: bool) returns (r: Result<Option<Timecode>, ParseError>)
      requires Valid() && DurationExtracted()
      modifies this
      ensures Valid()
      ensures Served(old(cache), old(processRuns), cache, processRuns, path, ParsedDuration, readFromCache)
      ensures r.Err? <==> Failed(probe(path))
      ensures r.Err? ==> r.error == ProcessFailure(path, Output(path))
      ensures r.Ok? ==> r.value == Duration(Output(path), reader)
    {
      ghost var c0, n0 := cache, processRuns;
      var l := LookUp(path, ParsedDuration, readFromCache);
      match l
      case FromCache(v) =>
        HitServed(c0, n0, path, ParsedDuration, readFromCache);
        DurationCached(path, v);
        r := Ok(v.time);
      case Thrown(e) =>
        ThrowServed(c0, n0, path, ParsedDuration, readFromCache);
        r := Err(e);
      case FromRaw(raw) =>
        var data := DurationMiss(path, raw, readFromCache, c0, n0);
        r := Ok(data);
    }

    /** The duration getter after a miss: the value read from the raw text, then stored. */
    method DurationMiss(path: string, raw: string, readFromCache: bool, ghost c0: map<Key, Cached>, ghost n0: nat)
      returns (data: Option<Timecode>)
      requires Valid() && DurationExtracted()
      requires !(readFromCache && CacheHit(c0, Key(path, ParsedDuration))) && !Failed(probe(path))
      requires raw == Output(path) && cache == Store(c0, path, RawData)
      requires processRuns == n0 + Runs(c0, path, RawData, readFromCache)
      modifies this
      ensures Valid()
      ensures data == Duration(Output(path), reader)
      ensures Served(c0, n0, cache, processRuns, path, ParsedDuration, readFromCache)
    {
      data := Duration(raw, reader);
      DurationCached(path, Fresh(path, ParsedDuration));
      CacheSet(path, ParsedDuration, TimecodeValue(data));
      MissServed(c0, n0, path, ParsedDuration, readFromCache);
    }

    /** getFileGlobalMetadata. */
    method GetFileGlobalMetadata(path: string, readFromCache: bool) returns (r: Result<Option<Entries>, ParseError>)
      requires Valid() && GlobalMetaExtracted()
      modifies this
      ensures Valid()
      ensures Served(old(cache), old(processRuns), cache, processRuns, path, ParsedGlobalMeta, readFromCache)
      ensures r.Err? <==> Failed(probe(path))
      ensures r.Err? ==> r.error == ProcessFailure(path, Output(path))
      ensures r.Ok? ==> r.value == GlobalMetadata(Output(path))
    {
      ghost var c0, n0 := cache, processRuns;
      var l := LookUp(path, ParsedGlobalMeta, readFromCache);
      match l
      case FromCache(v) =>
        HitServed(c0, n0, path, ParsedGlobalMeta, readFromCache);
        GlobalMetaCached(path, v);
        r := Ok(v.entries);
      case Thrown(e) =>
        ThrowServed(c0, n0, path, ParsedGlobalMeta, readFromCache);
        r := Err(e);
      case FromRaw(raw) =>
        var data := GlobalMetaMiss(path, raw, readFromCache, c0, n0);
        r := Ok(data);
    }

    /** The global metadata getter after a miss: the value read from the raw text, then stored. */
    method GlobalMetaMiss(path: string, raw: string, readFromCache: bool, ghost c0: map<Key, Cached>, ghost n0: nat)
      returns (data: Option<Entries>)
      requires Valid() && GlobalMetaExtracted()
      requires !(readFromCache && CacheHit(c0, Key(path, ParsedGlobalMeta))) && !Failed(probe(path))
      requires raw == Output(path) && cache == Store(c0, path, RawData)
      requires processRuns == n0 + Runs(c0, path, RawData, readFromCache)
      modifies this
      ensures Valid()
      ensures data == GlobalMetadata(Output(path))
      ensures Served(c0, n0, cache, processRuns, path, ParsedGlobalMeta, readFromCache)
    {
      data := ParseGlobalMetadata(raw);
      GlobalMetaCached(path, Fresh(path, ParsedGlobalMeta));
      CacheSet(path, ParsedGlobalMeta, EntriesValue(data));
      MissServed(c0, n0, path, ParsedGlobalMeta, readFromCache);
    }

    /** getFileBitrate: -1 for `N/A`, which the next cached read recomputes. */
    method GetFileBitrate(path: string, readFromCache: bool) returns (r: Result<Option<int>, ParseError>)
      requires Valid() && BitrateExtracted()
      modifies this
      ensures Valid()
      ensures Served(old(cache), old(processRuns), cache, processRuns, path, ParsedBitrate, readFromCache)
      ensures r.Err? <==> Failed(probe(path))
      ensures r.Err? ==> r.error == ProcessFailure(path, Output(path))
      ensures r.Ok? ==> r.value == Bitrate(Output(path))
    {
      ghost var c0, n0 := cache, processRuns;
      var l := LookUp(path, ParsedBitrate, readFromCache);
      match l
      case FromCache(v) =>
        HitServed(c0, n0, path, ParsedBitrate, readFromCache);
        BitrateCached(path, v);
        r := Ok(v.number);
      case Thrown(e) =>
        ThrowServed(c0, n0, path, ParsedBitrate, readFromCache);
        r := Err(e);
      case FromRaw(raw) =>
        var data := BitrateMiss(path, raw, readFromCache, c0, n0);
        r := Ok(data);
    }

    /** The bitrate getter after a miss: the value read from the raw text, then stored. */
    method BitrateMiss(path: string, raw: string, readFromCache: bool, ghost c0: map<Key, Cached>, ghost n0: nat)
      returns (data: Option<int>)
      requires Valid() && BitrateExtracted()
      requires !(readFromCache && CacheHit(c0, Key(path, ParsedBitrate))) && !Failed(probe(path))
      requires raw == Output(path) && cache == Store(c0, path, RawData)
      requires processRuns == n0 + Runs(c0, path, RawData, readFromCache)
      modifies this
      ensures Valid()
      ensures data == Bitrate(Output(path))
      ensures Served(c0, n0, cache, processRuns, path, ParsedBitrate, readFromCache)
    {
      data := Bitrate(raw);
      BitrateCached(path, Fresh(path, ParsedBitrate));
      CacheSet(path, ParsedBitrate, IntValue(data));
      MissServed(c0, n0, path, ParsedBitrate, readFromCache);
    }

    /** getFileStart. */
    method GetFileStart(path: string, readFromCache: bool) returns (r: Result<Option<Timecode>, ParseError>)
      requires Valid() && StartExtracted()
      modifies this
      ensures Valid()
      ensures Served(old(cache), old(processRuns), cache, processRuns, path, ParsedStart, readFromCache)
      ensures r.Err? <==> Failed(probe(path))
      ensures r.Err? ==> r.error == ProcessFailure(path, Output(path))
      ensures r.Ok? ==> r.value == Start(Output(path), reader)
    {
      ghost var c0, n0 := cache, processRuns;
      var l := LookUp(path, ParsedStart, readFromCache);
      match l
      case FromCache(v) =>
        HitServed(c0, n0, path, ParsedStart, readFromCache);
        StartCached(path, v);
        r := Ok(v.time);
      case Thrown(e) =>
        ThrowServed(c0, n0, path, ParsedStart, readFromCache);
        r := Err(e);
      case FromRaw(raw) =>
        var data := StartMiss(path, raw, readFromCache, c0, n0);
        r := Ok(data);
    }

    /** The start offset getter after a miss: the value read from the raw text, then stored. */
    method StartMiss(path: string, raw: string, readFromCache: bool, ghost c0: map<Key, Cached>, ghost n0: nat)
      returns (data: Option<Timecode>)
      requires Valid() && StartExtracted()
      requires !(readFromCache && CacheHit(c0, Key(path, ParsedStart))) && !Failed(probe(path))
      requires raw == Output(path) && cache == Store(c0, path, RawData)
      requires processRuns == n0 + Runs(c0, path, RawData, readFromCache)
      modifies this
      ensures Valid()
      ensures data == Start(Output(path), reader)
      ensures Served(c0, n0, cache, processRuns, path, ParsedStart, readFromCache)
    {
      data := Start(raw, reader);
      StartCached(path, Fresh(path, ParsedStart));
      CacheSet(path, ParsedStart, TimecodeValue(data));
      MissServed(c0, n0, path, ParsedStart, readFromCache);
    }

    /** getFileType, with Mime::get asked about the path. */
    method GetFileType(path: string, readFromCache: bool) returns (r: Result<Option<MediaType>, ParseError>)
      requires Valid() && TypeExtracted()
      modifies this
      ensures Valid()
      ensures Served(old(cache), old(processRuns), cache, processRuns, path, ParsedType, readFromCache)
      ensures r.Err? <==> Failed(probe(path))
      ensures r.Err? ==> r.error == ProcessFailure(path, Output(path))
      ensures r.Ok? ==> r.value == Type(Output(path), mime(path))
    {
      ghost var c0, n0 := cache, processRuns;
      var l := LookUp(path, ParsedType, readFromCache);
      match l
      case FromCache(v) =>
        HitServed(c0, n0, path, ParsedType, readFromCache);
        TypeCached(path, v);
        r := Ok(v.mediaType);
      case Thrown(e) =>
        ThrowServed(c0, n0, path, ParsedType, readFromCache);
        r := Err(e);
      case FromRaw(raw) =>
        var data := TypeMiss(path, raw, readFromCache, c0, n0);
        r := Ok(data);
    }

    /** The media type getter after a miss: the value read from the raw text, then stored. */
    method TypeMiss(path: string, raw: string, readFromCache: bool, ghost c0: map<Key, Cached>, ghost n0: nat)
      returns (data: Option<MediaType>)
      requires Valid() && TypeExtracted()
      requires !(readFromCache && CacheHit(c0, Key(path, ParsedType))) && !Failed(probe(path))
      requires raw == Output(path) && cache == Store(c0, path, RawData)
      requires processRuns == n0 + Runs(c0, path, RawData, readFromCache)
      modifies this
      ensures Valid()
      ensures data == Type(Output(path), mime(path))
      ensures Served(c0, n0, cache, processRuns, path, ParsedType, readFromCache)
    {
      data := Type(raw, mime(path));
      TypeCached(path, Fresh(path, ParsedType));
      CacheSet(path, ParsedType, TypeValue(data));
      MissServed(c0, n0, path, ParsedType, readFromCache);
    }

    /** getFileVolumeComponent. */
    method GetFileVolumeComponent(path: string, readFromCache: bool) returns (r: Result<Option<Volume>, ParseError>)
      requires Valid() && VolumeExtracted()
      modifies this
      ensures Valid()
      ensures Served(old(cache), old(processRuns), cache, processRuns, path, ParsedVolume, readFromCache)
      ensures r.Err? <==> Failed(probe(path))
      ensures r.Err? ==> r.error == ProcessFailure(path, Output(path))
      ensures r.Ok? ==> r.value == VolumeOf(Output(path))
    {
      ghost var c0, n0 := cache, processRuns;
      var l := LookUp(path, ParsedVolume, readFromCache);
      match l
      case FromCache(v) =>
        HitServed(c0, n0, path, ParsedVolume, readFromCache);
        VolumeCached(path, v);
        r := Ok(v.volume);
      case Thrown(e) =>
        ThrowServed(c0, n0, path, ParsedVolume, readFromCache);
        r := Err(e);
      case FromRaw(raw) =>
        var data := VolumeMiss(path, raw, readFromCache, c0, n0);
        r := Ok(data);
    }

    /** The volume getter after a miss: the value read from the raw text, then stored. */
    method VolumeMiss(path: string, raw: string, readFromCache: bool, ghost c0: map<Key, Cached>, ghost n0: nat)
      returns (data: Option<Volume>)
      requires Valid() && VolumeExtracted()
      requires !(readFromCache && CacheHit(c0, Key(path, ParsedVolume))) && !Failed(probe(path))
      requires raw == Output(path) && cache == Store(c0, path, RawData)
      requires processRuns == n0 + Runs(c0, path, RawData, readFromCache)
      modifies this
      ensures Valid()
      ensures data == VolumeOf(Output(path))
      ensures Served(c0, n0, cache, processRuns, path, ParsedVolume, readFromCache)
    {
      data := VolumeOf(raw);
      VolumeCached(path, Fresh(path, ParsedVolume));
      CacheSet(path, ParsedVolume, VolumeValue(data));
      MissServed(c0, n0, path, ParsedVolume, readFromCache);
    }

    /** getFileAudioComponent. */
    method GetFileAudioComponent(path: string, readFromCache: bool) returns (r: Result<Option<AudioComponent>, ParseError>)
      requires Valid() && AudioExtracted()
      modifies this
      ensures Valid()
      ensures Served(old(cache), old(processRuns), cache, processRuns, path, ParsedAudioComponent, readFromCache)
      ensures r.Err? <==> Failed(probe(path))
      ensures r.Err? ==> r.error == ProcessFailure(path, Output(path))
      ensures r.Ok? ==> r.value == AudioComponentOf(Output(path))
    {
      ghost var c0, n0 := cache, processRuns;
      var l := LookUp(path, ParsedAudioComponent, readFromCache);
      match l
      case FromCache(v) =>
        HitServed(c0, n0, path, ParsedAudioComponent, readFromCache);
        AudioCached(path, v);
        r := Ok(v.audio);
      case Thrown(e) =>
        ThrowServed(c0, n0, path, ParsedAudioComponent, readFromCache);
        r := Err(e);
      case FromRaw(raw) =>
        var data := AudioMiss(path, raw, readFromCache, c0, n0);
        r := Ok(data);
    }

    /** The audio array of the raw text: null without an audio stream line. */
    static method AudioOfRaw(raw: string) returns (data: Option<AudioComponent>)
      ensures data == AudioComponentOf(raw)
    {
      var h := FirstFrom(raw, 0, AudioHeaderAt);
      data := None;
      if h.Some? {
        var a := ParseAudio(raw, h.value.val);
        data := Some(a);
      }
    }

    /** The audio getter after a miss: the array read from the raw text, then stored. */
    method AudioMiss(path: string, raw: string, readFromCache: bool, ghost c0: map<Key, Cached>, ghost n0: nat)
      returns (data: Option<AudioComponent>)
      requires Valid() && AudioExtracted()
      requires !(readFromCache && CacheHit(c0, Key(path, ParsedAudioComponent))) && !Failed(probe(path))
      requires raw == Output(path) && cache == Store(c0, path, RawData)
      requires processRuns == n0 + Runs(c0, path, RawData, readFromCache)
      modifies this
      ensures Valid()
      ensures data == AudioComponentOf(Output(path))
      ensures Served(c0, n0, cache, processRuns, path, ParsedAudioComponent, readFromCache)
    {
      data := AudioOfRaw(raw);
      AudioCached(path, Fresh(path, ParsedAudioComponent));
      CacheSet(path, ParsedAudioComponent, AudioValue(data));
      MissServed(c0, n0, path, ParsedAudioComponent, readFromCache);
    }

    /** getFileHasAudio: a stored `false` counts as a miss. */
    method GetFileHasAudio(path: string, readFromCache: bool) returns (r: Result<bool, ParseError>)
      requires Valid() && HasAudioExtracted()
      modifies this
      ensures Valid()
      ensures Served(old(cache), old(processRuns), cache, processRuns, path, ParsedHasAudio, readFromCache)
      ensures r.Err? <==> Failed(probe(path))
      ensures r.Err? ==> r.error == ProcessFailure(path, Output(path))
      ensures r.Ok? ==> r.value == HasAudio(Output(path))
    {
      ghost var c0, n0 := cache, processRuns;
      var l := LookUp(path, ParsedHasAudio, readFromCache);
      match l
      case FromCache(v) =>
        HitServed(c0, n0, path, ParsedHasAudio, readFromCache);
        HasAudioCached(path, v);
        r := Ok(v.flag);
      case Thrown(e) =>
        ThrowServed(c0, n0, path, ParsedHasAudio, readFromCache);
        r := Err(e);
      case FromRaw(raw) =>
        var data := HasAudioMiss(path, raw, readFromCache, c0, n0);
        r := Ok(data);
    }

    /** The audio flag getter after a miss: the value read from the raw text, then stored. */
    method HasAudioMiss(path: string, raw: string, readFromCache: bool, ghost c0: map<Key, Cached>, ghost n0: nat)
      returns (data: bool)
      requires Valid() && HasAudioExtracted()
      requires !(readFromCache && CacheHit(c0, Key(path, ParsedHasAudio))) && !Failed(probe(path))
      requires raw == Output(path) && cache == Store(c0, path, RawData)
      requires processRuns == n0 + Runs(c0, path, RawData, readFromCache)
      modifies this
      ensures Valid()
      ensures data == HasAudio(Output(path))
      ensures Served(c0, n0, cache, processRuns, path, ParsedHasAudio, readFromCache)
    {
      data := HasAudio(raw);
      HasAudioCached(path, Fresh(path, ParsedHasAudio));
      CacheSet(path, ParsedHasAudio, FlagValue(data));
      MissServed(c0, n0, path, ParsedHasAudio, readFromCache);
    }

    /** getFileHasVideo: a stored `false` counts as a miss. */
    method GetFileHasVideo(path: string, readFromCache: bool) returns (r: Result<bool, ParseError>)
      requires Valid() && HasVideoExtracted()
      modifies this
      ensures Valid()
      ensures Served(old(cache), old(processRuns), cache, processRuns, path, ParsedHasVideo, readFromCache)
      ensures r.Err? <==> Failed(probe(path))
      ensures r.Err? ==> r.error == ProcessFailure(path, Output(path))
      ensures r.Ok? ==> r.value == HasVideo(Output(path))
    {
      ghost var c0, n0 := cache, processRuns;
      var l := LookUp(path, ParsedHasVideo, readFromCache);
      match l
      case FromCache(v) =>
        HitServed(c0, n0, path, ParsedHasVideo, readFromCache);
        HasVideoCached(path, v);
        r := Ok(v.flag);
      case Thrown(e) =>
        ThrowServed(c0, n0, path, ParsedHasVideo, readFromCache);
        r := Err(e);
      case FromRaw(raw) =>
        var data := HasVideoMiss(path, raw, readFromCache, c0, n0);
        r := Ok(data);
    }

    /** The video flag getter after a miss: the value read from the raw text, then stored. */
    method HasVideoMiss(path: string, raw: string, readFromCache: bool, ghost c0: map<Key, Cached>, ghost n0: nat)
      returns (data: bool)
      requires Valid() && HasVideoExtracted()
      requires !(readFromCache && CacheHit(c0, Key(path, ParsedHasVideo))) && !Failed(probe(path))
      requires raw == Output(path) && cache == Store(c0, path, RawData)
      requires processRuns == n0 + Runs(c0, path, RawData, readFromCache)
      modifies this
      ensures Valid()
      ensures data == HasVideo(Output(path))
      ensures Served(c0, n0, cache, processRuns, path, ParsedHasVideo, readFromCache)
    {
      data := HasVideo(raw);
      HasVideoCached(path, Fresh(path, ParsedHasVideo));
      CacheSet(path, ParsedHasVideo, FlagValue(data));
      MissServed(c0, n0, path, ParsedHasVideo, readFromCache);
    }

    /** getFileContainerFormat: a stored `''` counts as a miss. */
    method GetFileContainerFormat(path: string, readFromCache: bool) returns (r: Result<string, ParseError>)
      requires Valid() && ContainerExtracted()
      modifies this
      ensures Valid()
      ensures Served(old(cache), old(processRuns), cache, processRuns, path, ContainerFormat, readFromCache)
      ensures r.Err? <==> Failed(probe(path))
      ensures r.Err? ==> r.error == ProcessFailure(path, Output(path))
      ensures r.Ok? ==> r.value == Container(Output(path))
    {
      ghost var c0, n0 := cache, processRuns;
      var l := LookUp(path, ContainerFormat, readFromCache);
      match l
      case FromCache(v) =>
        HitServed(c0, n0, path, ContainerFormat, readFromCache);
        ContainerCached(path, v);
        r := Ok(v.text);
      case Thrown(e) =>
        ThrowServed(c0, n0, path, ContainerFormat, readFromCache);
        r := Err(e);
      case FromRaw(raw) =>
        var data := ContainerMiss(path, raw, readFromCache, c0, n0);
        r := Ok(data);
    }

    /** The container getter after a miss: the format read from the raw text, then stored. */
    method ContainerMiss(path: string, raw: string, readFromCache: bool, ghost c0: map<Key, Cached>, ghost n0: nat)
      returns (data: string)
      requires Valid() && ContainerExtracted()
      requires !(readFromCache && CacheHit(c0, Key(path, ContainerFormat))) && !Failed(probe(path))
      requires raw == Output(path) && cache == Store(c0, path, RawData)
      requires processRuns == n0 + Runs(c0, path, RawData, readFromCache)
      modifies this
      ensures Valid()
      ensures data == Container(Output(path))
      ensures Served(c0, n0, cache, processRuns, path, ContainerFormat, readFromCache)
    {
      data := Container(raw);
      ContainerCached(path, Fresh(path, ContainerFormat));
      CacheSet(path, ContainerFormat, TextValue(data));
      MissServed(c0, n0, path, ContainerFormat, readFromCache);
    }

    /** The video getter's call to getFileDuration: a hit leaves the cache alone, a miss stores the duration. */
    method FetchDuration(path: string, readFromCache: bool) returns (d: Option<Timecode>)
      requires Valid() && DurationExtracted() && !Failed(probe(path)) && Key(path, RawData) in cache
      modifies this
      ensures Valid()
      ensures d == Duration(Output(path), reader)
      ensures cache == Store(old(cache), path, ParsedDuration)
      ensures processRuns == old(processRuns) + (if readFromCache then 0 else 1)
    {
      ghost var c0, n0 := cache, processRuns;
      assert c0[Key(path, RawData)] == Fresh(path, RawData);
      var r := GetFileDuration(path, readFromCache);
      ServedSucceeded(c0, n0, cache, processRuns, path, ParsedDuration, readFromCache);
      d := r.value;
    }

    /** The video array of `path`'s output, once the duration, if it is needed, is known. */
    method VideoOfRaw(path: string, raw: string, duration: Option<Timecode>) returns (data: Option<VideoComponent>)
      requires VideoExtracted() && raw == Output(path)
      requires NeedsDuration(raw) ==> duration == Duration(raw, reader)
      ensures data == extracted(path).video
    {
      var h := FirstFrom(raw, 0, VideoHeaderAt);
      data := None;
      if h.Some? {
        if !NeedsDuration(raw) {
          DurationOnlyForFrames(raw, duration, Duration(raw, reader));
        }
        var comp := ParseVideo(raw, h.value.val, duration);
        data := Some(comp);
      }
      assert data == VideoComponentOf(raw, Duration(raw, reader));
    }

    /** getFileVideoComponent's work on the raw text of `path`, before the value is stored. */
    method VideoFromRaw(path: string, raw: string, readFromCache: bool) returns (data: Option<VideoComponent>)
      requires Valid() && VideoExtracted() && DurationExtracted()
      requires raw == Output(path) && !Failed(probe(path)) && Key(path, RawData) in cache
      modifies this
      ensures Valid()
      ensures data == extracted(path).video
      ensures cache == if extracted(path).needsDuration then Store(old(cache), path, ParsedDuration) else old(cache)
      ensures processRuns == old(processRuns) + (if extracted(path).needsDuration && !readFromCache then 1 else 0)
    {
      var duration: Option<Timecode> := None;
      if NeedsDuration(raw) {
        duration := FetchDuration(path, readFromCache);
      }
      data := VideoOfRaw(path, raw, duration);
    }

    /** The cached getter for the video array, its value described by the extraction. */
    method CachedVideo(path: string, readFromCache: bool) returns (r: Result<Option<VideoComponent>, ParseError>)
      requires Valid() && VideoExtracted() && DurationExtracted()
      modifies this
      ensures Valid()
      ensures Served(old(cache), old(processRuns), cache, processRuns, path, ParsedVideoComponent, readFromCache)
      ensures r.Err? <==> Failed(probe(path))
      ensures r.Err? ==> r.error == ProcessFailure(path, Output(path))
      ensures r.Ok? ==> r.value == extracted(path).video
    {
      ghost var c0, n0 := cache, processRuns;
      var l := LookUp(path, ParsedVideoComponent, readFromCache);
      match l
      case FromCache(v) =>
        HitServed(c0, n0, path, ParsedVideoComponent, readFromCache);
        VideoCached(path, v);
        r := Ok(v.video);
      case Thrown(e) =>
        ThrowServed(c0, n0, path, ParsedVideoComponent, readFromCache);
        r := Err(e);
      case FromRaw(raw) =>
        var data := VideoMiss(path, raw, readFromCache, c0, n0);
        r := Ok(data);
    }

    /** The video getter after a miss: the array worked out from the raw text, then stored. */
    method VideoMiss(path: string, raw: string, readFromCache: bool, ghost c0: map<Key, Cached>, ghost n0: nat)
      returns (data: Option<VideoComponent>)
      requires Valid() && VideoExtracted() && DurationExtracted()
      requires !(readFromCache && CacheHit(c0, Key(path, ParsedVideoComponent))) && !Failed(probe(path))
      requires raw == Output(path) && cache == Store(c0, path, RawData)
      requires processRuns == n0 + Runs(c0, path, RawData, readFromCache)
      modifies this
      ensures Valid()
      ensures data == extracted(path).video
      ensures Served(c0, n0, cache, processRuns, path, ParsedVideoComponent, readFromCache)
    {
      data := VideoFromRaw(path, raw, readFromCache);
      VideoCached(path, Fresh(path, ParsedVideoComponent));
      CacheSet(path, ParsedVideoComponent, VideoValue(data));
    }

    /**
     * getFileVideoComponent. The duration is asked for, through its own cached getter
     * and with the same `read_from_cache`, only when the line has a frame rate.
     */
    method GetFileVideoComponent(path: string, readFromCache: bool) returns (r: Result<Option<VideoComponent>, ParseError>)
      requires Valid() && VideoExtracted() && DurationExtracted()
      modifies this
      ensures Valid()
      ensures Served(old(cache), old(processRuns), cache, processRuns, path, ParsedVideoComponent, readFromCache)
      ensures r.Err? <==> Failed(probe(path))
      ensures r.Err? ==> r.error == ProcessFailure(path, Output(path))
      ensures r.Ok? ==> r.value == VideoComponentOf(Output(path), Duration(Output(path), reader))
    {
      r := CachedVideo(path, readFromCache);
    }

    // -------------------------------------------------------------------------
    // The assembled record
    // -------------------------------------------------------------------------

    /** Each field of `info` is what its extractor reads from `path`'s output. */
    ghost predicate Describes(info: MediaInformation, path: string) {
      var raw := Output(path);
      && info.path == path
      && info.mediaType == Type(raw, mime(path))
      && info.container == Container(raw)
      && info.duration == Duration(raw, reader)
      && info.bitrate == Bitrate(raw)
      && info.volume == VolumeOf(raw)
      && info.start == Start(raw, reader)
      && info.video == VideoComponentOf(raw, Duration(raw, reader))
      && info.audio == AudioComponentOf(raw)
      && info.metadata == GlobalMetadata(raw)
    }

    /** The stored record describes the file, says it comes from the cache, and carries its time. */
    lemma InformationDescribes(path: string, at: int)
      requires Extracts()
      ensures Describes(InformationOf(path, at), path)
      ensures InformationOf(path, at).fromCache && InformationOf(path, at).readAt == at
    {
      assert Duration(Output(path), reader) == extracted(path).duration;
      assert VideoComponentOf(Output(path), Duration(Output(path), reader)) == extracted(path).video;
    }

    /** The cache once the first four getters getFileInformation calls have returned. */
    ghost function FirstFilled(c: map<Key, Cached>, path: string): map<Key, Cached> {
      var withType := Store(Store(c, path, RawData), path, ParsedType);
      Store(Store(Store(withType, path, ContainerFormat), path, ParsedDuration), path, ParsedBitrate)
    }

    /** The cache once the other five have returned too. */
    ghost function LastFilled(c: map<Key, Cached>, path: string): map<Key, Cached> {
      var withStart := Store(Store(c, path, ParsedVolume), path, ParsedStart);
      Store(Store(Store(withStart, path, ParsedVideoComponent), path, ParsedAudioComponent), path, ParsedGlobalMeta)
    }

    /** The cache once the nine getters getFileInformation calls have all returned. */
    ghost function Filled(c: map<Key, Cached>, path: string): map<Key, Cached> {
      LastFilled(FirstFilled(c, path), path)
    }

    /** Storing the record read at `at` keeps the cache coherent, once the raw text is there. */
    lemma StoreInformationCoherent(c: map<Key, Cached>, path: string, at: int)
      requires Coherent(c) && !Failed(probe(path)) && Key(path, RawData) in c
      ensures Coherent(c[Key(path, ParsedInformation) := InformationValue(InformationOf(path, at))])
    {
    }

    /**
     * getFileType, getFileContainerFormat, getFileDuration and getFileBitrate, in
     * that order; only the first can throw, since every run for a path ends alike.
     */
    method FirstFields(path: string, readFromCache: bool)
      returns (r: Result<(Option<MediaType>, string, Option<Timecode>, Option<int>), ParseError>)
      requires Valid() && TypeExtracted() && ContainerExtracted() && DurationExtracted() && BitrateExtracted()
      modifies this
      ensures Valid()
      ensures r.Err? <==> Failed(probe(path))
      ensures r.Err? ==> r.error == ProcessFailure(path, Output(path))
      ensures r.Err? ==> cache == old(cache) && processRuns == old(processRuns) + 1
      ensures r.Ok? ==> var e := extracted(path); r.value == (e.mediaType, e.container, e.duration, e.bitrate)
      ensures r.Ok? ==> cache == FirstFilled(old(cache), path)
      ensures r.Ok? ==> Key(path, RawData) in cache && Key(path, ParsedDuration) in cache && !Failed(probe(path))
      ensures r.Ok? ==>
                processRuns == old(processRuns) +
                  (if readFromCache then (if CacheHit(old(cache), Key(path, RawData)) then 0 else 1) else 4)
    {
      ghost var c0, n0 := cache, processRuns;
      var mediaType := GetFileType(path, readFromCache);
      if mediaType.Err? {
        return Err(mediaType.error);
      }
      ServedSucceeded(c0, n0, cache, processRuns, path, ParsedType, readFromCache);
      ghost var c1, n1 := cache, processRuns;
      var container := GetFileContainerFormat(path, readFromCache);
      ServedSucceeded(c1, n1, cache, processRuns, path, ContainerFormat, readFromCache);
      ghost var c2, n2 := cache, processRuns;
      var duration := GetFileDuration(path, readFromCache);
      ServedSucceeded(c2, n2, cache, processRuns, path, ParsedDuration, readFromCache);
      ghost var c3, n3 := cache, processRuns;
      var bitrate := GetFileBitrate(path, readFromCache);
      ServedSucceeded(c3, n3, cache, processRuns, path, ParsedBitrate, readFromCache);
      r := Ok((mediaType.value, container.value, duration.value, bitrate.value));
    }

    /**
     * getFileVolumeComponent and getFileStart, in that order, once the raw text and
     * the duration are stored.
     */
    method VolumeAndStart(path: string, readFromCache: bool) returns (v: (Option<Volume>, Option<Timecode>))
      requires Valid() && VolumeExtracted() && StartExtracted()
      requires !Failed(probe(path)) && Key(path, RawData) in cache && Key(path, ParsedDuration) in cache
      modifies this
      ensures Valid()
      ensures v == (extracted(path).volume, extracted(path).start)
      ensures cache == Store(Store(old(cache), path, ParsedVolume), path, ParsedStart)
      ensures Key(path, RawData) in cache && Key(path, ParsedDuration) in cache
      ensures processRuns == old(processRuns) + (if readFromCache then 0 else 2)
    {
      ghost var c0, n0 := cache, processRuns;
      var volume := GetFileVolumeComponent(path, readFromCache);
      ServedSucceeded(c0, n0, cache, processRuns, path, ParsedVolume, readFromCache);
      ghost var c1, n1 := cache, processRuns;
      var start := GetFileStart(path, readFromCache);
      ServedSucceeded(c1, n1, cache, processRuns, path, ParsedStart, readFromCache);
      v := (volume.value, start.value);
    }

    /**
     * getFileVideoComponent, getFileAudioComponent and getFileGlobalMetadata, in that
     * order, once the raw text and the duration are stored.
     */
    method StreamFields(path: string, readFromCache: bool)
      returns (v: (Option<VideoComponent>, Option<AudioComponent>, Option<Entries>))
      requires Valid() && VideoExtracted() && DurationExtracted() && AudioExtracted() && GlobalMetaExtracted()
      requires !Failed(probe(path)) && Key(path, RawData) in cache && Key(path, ParsedDuration) in cache
      modifies this
      ensures Valid()
      ensures v == (extracted(path).video, extracted(path).audio, extracted(path).globalMeta)
      ensures cache == Store(Store(Store(old(cache), path, ParsedVideoComponent), path, ParsedAudioComponent), path, ParsedGlobalMeta)
      ensures processRuns == old(processRuns) +
                (if readFromCache then 0 else 3 + (if extracted(path).needsDuration then 1 else 0))
    {
      ghost var c0, n0 := cache, processRuns;
      var video := CachedVideo(path, readFromCache);
      ServedSucceeded(c0, n0, cache, processRuns, path, ParsedVideoComponent, readFromCache);
      ghost var c1, n1 := cache, processRuns;
      var audio := GetFileAudioComponent(path, readFromCache);
      ServedSucceeded(c1, n1, cache, processRuns, path, ParsedAudioComponent, readFromCache);
      ghost var c2, n2 := cache, processRuns;
      var metadata := GetFileGlobalMetadata(path, readFromCache);
      ServedSucceeded(c2, n2, cache, processRuns, path, ParsedGlobalMeta, readFromCache);
      v := (video.value, audio.value, metadata.value);
    }

    /** The five getters getFileInformation calls after getFileBitrate, in the source's order. */
    method LastFields(path: string, readFromCache: bool)
      returns (v: (Option<Volume>, Option<Timecode>, Option<VideoComponent>, Option<AudioComponent>, Option<Entries>))
      requires Valid() && VolumeExtracted() && StartExtracted() && VideoExtracted() && DurationExtracted()
      requires AudioExtracted() && GlobalMetaExtracted()
      requires !Failed(probe(path)) && Key(path, RawData) in cache && Key(path, ParsedDuration) in cache
      modifies this
      ensures Valid()
      ensures var e := extracted(path); v == (e.volume, e.start, e.video, e.audio, e.globalMeta)
      ensures cache == LastFilled(old(cache), path)
      ensures processRuns == old(processRuns) +
                (if readFromCache then 0 else 5 + (if extracted(path).needsDuration then 1 else 0))
    {
      var header := VolumeAndStart(path, readFromCache);
      var streams := StreamFields(path, readFromCache);
      v := (header.0, header.1, streams.0, streams.1, streams.2);
    }

    /** getFileInformation once the stored record, if any, is not used: the nine getters and the store. */
    method BuildInformation(path: string, readFromCache: bool, now: int) returns (r: Result<MediaInformation, ParseError>)
      requires Valid() && Extracts()
      modifies this
      ensures Valid()
      ensures r.Err? <==> Failed(probe(path))
      ensures r.Err? ==> r.error == ProcessFailure(path, Output(path))
      ensures r.Err? ==> cache == old(cache) && processRuns == old(processRuns) + 1
      ensures r.Ok? ==> r.value == InformationOf(path, now).(fromCache := false)
      ensures r.Ok? ==> cache == Filled(old(cache), path)[Key(path, ParsedInformation) := InformationValue(InformationOf(path, now))]
      ensures r.Ok? ==>
                processRuns == old(processRuns) +
                  (if readFromCache then (if CacheHit(old(cache), Key(path, RawData)) then 0 else 1)
                   else 9 + (if extracted(path).needsDuration then 1 else 0))
    {
      var first := FirstFields(path, readFromCache);
      if first.Err? {
        return Err(first.error);
      }
      var (mediaType, container, duration, bitrate) := first.value;
      var last := LastFields(path, readFromCache);
      var (volume, start, video, audio, metadata) := last;
      var info := MediaInformation(true, now, path, mediaType, container, duration, bitrate,
                                   volume, start, video, audio, metadata);
      StoreInformation(path, now, info);
      r := Ok(info.(fromCache := false));
    }

    /** The record getFileInformation stores under its own key. */
    method StoreInformation(path: string, now: int, info: MediaInformation)
      requires Valid() && !Failed(probe(path)) && Key(path, RawData) in cache
      requires info == InformationOf(path, now)
      modifies this
      ensures Valid()
      ensures cache == old(cache)[Key(path, ParsedInformation) := InformationValue(info)]
      ensures processRuns == old(processRuns)
    {
      StoreInformationCoherent(cache, path, now);
      cache := cache[Key(path, ParsedInformation) := InformationValue(info)];
    }

    /**
     * getFileInformation: the stored record, or the nine getters called in the
     * source's order and their results stored as one record read at `now`. The
     * stored record says it comes from the cache; the one returned fresh does not.
     */
    method GetFileInformation(path: string, readFromCache: bool, now: int) returns (r: Result<MediaInformation, ParseError>)
      requires Valid() && Extracts()
      modifies this
      ensures Valid()
      ensures r.Err? <==> Failed(probe(path))
      ensures r.Err? ==> r.error == ProcessFailure(path, Output(path))
      ensures r.Err? ==> cache == old(cache) && processRuns == old(processRuns) + 1
      ensures r.Ok? ==> Describes(r.value, path)
      ensures readFromCache && CacheHit(old(cache), Key(path, ParsedInformation)) ==>
                && r == Ok(old(cache)[Key(path, ParsedInformation)].information) && r.value.fromCache
                && cache == old(cache) && processRuns == old(processRuns)
      ensures !(readFromCache && CacheHit(old(cache), Key(path, ParsedInformation))) && r.Ok? ==>
                && r.value == InformationOf(path, now).(fromCache := false)
                && cache == Filled(old(cache), path)[Key(path, ParsedInformation) := InformationValue(InformationOf(path, now))]
                && processRuns == old(processRuns) +
                     (if readFromCache then (if CacheHit(old(cache), Key(path, RawData)) then 0 else 1)
                      else 9 + (if NeedsDuration(Output(path)) then 1 else 0))
    {
      var k := Key(path, ParsedInformation);
      if readFromCache && CacheHit(cache, k) {
        r := Ok(cache[k].information);
        InformationDescribes(path, r.value.readAt);
        return;
      }
      r := BuildInformation(path, readFromCache, now);
      InformationDescribes(path, now);
    }
  }
}
