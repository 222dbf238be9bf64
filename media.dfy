/**
 * The records the parser produces. PHP builds them as nested associative arrays;
 * here each array shape is a datatype and every value PHP leaves `null` when the
 * output does not mention it is an `Option`.
 */
module Media {
  import opened Wrappers

  /** The two input formats the parser hands to the Timecode constructor. */
  datatype TimecodeFormat =
    | TimecodeInput   // `H:MM:SS.ff` clock text (Timecode::INPUT_FORMAT_TIMECODE)
    | SecondsInput    // a plain number of seconds (Timecode::INPUT_FORMAT_SECONDS)

  /**
   * A Timecode object: the text and format it was built from, and the number of
   * seconds it stands for. How the Timecode class parses its text is not part of
   * this model; the parser is given that as a `TimecodeReader`.
   */
  datatype Timecode = Timecode(source: string, format: TimecodeFormat, seconds: real)

  type TimecodeReader = (string, TimecodeFormat) -> real

  /** `new Timecode($text, $format)`. */
  function NewTimecode(text: string, format: TimecodeFormat, reader: TimecodeReader): Timecode {
    Timecode(text, format, reader(text, format))
  }

  /** The classification `getFileType` returns: 'image', 'audio' or 'video'. */
  datatype MediaType = Image | Audio | Video

  /** `mean_volume` and `max_volume`, each the matched number followed by its unit text. */
  datatype Volume = Volume(mean: Option<string>, max: Option<string>)

  /** A codec description taken apart: `h264 (High) (avc1 / 0x31637661)`. */
  datatype Codec = Codec(
    name: Option<string>,
    profile: Option<string>,
    tagString: Option<string>,
    tag: Option<string>,
    raw: Option<string>)

  datatype Dimensions = Dimensions(width: Option<nat>, height: Option<nat>, aspectRatioFixWarning: bool)

  datatype Frames = Frames(total: Option<int>, rate: Option<real>)

  /** The `video` array: one `Stream ...: Video: ...` line and its metadata block. */
  datatype VideoComponent = VideoComponent(
    stream: Option<string>,
    dimensions: Dimensions,
    bitrate: Option<nat>,
    timeBases: seq<(string, string)>,
    frames: Frames,
    pixelAspectRatio: Option<string>,
    displayAspectRatio: Option<string>,
    rotation: Option<string>,
    pixelFormat: Option<string>,
    language: Option<string>,
    codec: Codec,
    metadata: seq<(string, string)>)

  /** The `audio` array: one `Stream ...: Audio: ...` line and its metadata block. */
  datatype AudioComponent = AudioComponent(
    stream: Option<string>,
    stereo: Option<string>,
    channels: Option<nat>,
    sampleRate: Option<nat>,
    bitrate: Option<nat>,
    language: Option<string>,
    codec: Codec,
    metadata: seq<(string, string)>)

  /** The record `getFileInformation` assembles. */
  datatype MediaInformation = MediaInformation(
    fromCache: bool,
    readAt: int,
    path: string,
    mediaType: Option<MediaType>,
    container: string,
    duration: Option<Timecode>,
    bitrate: Option<int>,
    volume: Option<Volume>,
    start: Option<Timecode>,
    video: Option<VideoComponent>,
    audio: Option<AudioComponent>,
    metadata: Option<seq<(string, string)>>)
}
