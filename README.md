# PHPVideoToolkit media parser and argument escaping, modelled in Dafny

This project models two parts of PHPVideoToolkit.

The first is `MediaParser`. It runs `ffmpeg -i <file> -af volumedetect -f NULL` and reads the text ffmpeg prints with PCRE
patterns. A successful run's output is cached, so with `read_from_cache` the file is run once; a
getter called without it runs ffmpeg again, and a failed run is never stored. The patterns read:

- the container format, duration, start time, overall bitrate, media type and volume levels;
- the global metadata block;
- the first video stream and the first audio stream, with their ratios, dimensions, time bases,
  frame counts, bitrates, language, codec and per-stream metadata.

Every getter keeps its result in a per-field cache. `getFileInformation` assembles all of them into
one record.

The second is `ProcessUtils::escapeArgument` on Windows. It cuts an argument at each `"`, rewrites
every piece so that cmd.exe neither ends the quoted argument early nor expands `%VAR%`, and puts the
result in quotes when it holds ordinary text.

## How the model is laid out

- `wrappers.dfy`: `Option` and `Result`.
- `text.dfy`: the PCRE and PHP string primitives the extractors use.
  - `FirstFrom` is the leftmost match of `preg_match`; `LastIn` is where a greedy `.*` stops;
    `AllFrom` is `preg_match_all`.
  - `SpanEnd` is a maximal run; `HasAt` and `HasAtFolded` test a literal, the latter ignoring case.
  - `IndexFrom` is `strpos`, `Trim` is `trim` and `Split` is `explode`.
- `numbers.dfy`: digit strings and the PHP casts `(int)`, `(float)` and `ceil`. Floats are `real`.
- `assoc.dfy`: PHP arrays with string keys as ordered association lists.
  - `Put` is `$a[$k] = $v`: a new key is appended, an existing key's value is replaced in place.
- `media.dfy`: the value types the getters return.
- `metadata.dfy`, `stream_line.dfy`, `fields.dfy`, `video.dfy`, `audio.dfy`: one matcher function
  per PCRE pattern, then each extractor as a function of the raw output.
  - Each extractor that loops in the source also has a method whose loop is proved to compute that
    function.
- `parser.dfy`: the `MediaParser` class.
  - The cache is a `map` field and ffmpeg runs are counted in a field.
  - Each getter is a method that reads and writes them as the source does.
  - The class invariant `Valid()` says that every stored entry is what its getter would compute
    now.
  - `Served` relates the cache and run count before and after a getter call.
- `process_utils.dfy`: the Windows branch of `escapeArgument`.
  - The split is a function characterised by its three properties.
  - The per-piece rewriting is a function, and the loop is a method proved against it.

The outside world enters as parameters. The constructor takes three functions of the path:

- `probe`: what ffmpeg prints for the file;
- `mime`: what `Mime::get` returns;
- `reader`: how the `Timecode` class turns text into seconds.

`getFileInformation` is given the current time `now`. `escapeArgument` is given whether it runs on
Windows and the `escapeshellarg` function.

Lemmas and contracts also record several places where the source behaves in ways a reader may not
expect:

- **Stream bitrate.** The per-stream bitrate pattern `([0-9]{1,4})\s+(kb|mb)/s` is not anchored, so it takes only the last four digits of a longer number.
- **Channels.** `Stereo` is found case-blind, yet the exact comparison counts 0 channels.
- **Rotation.** The "rotation fix" exchanges width and height only for a portrait display ratio.
- **Caching.** A stored bitrate of -1, a false flag and an empty or `0` container are recomputed on
  every cached call.
- **Escaping.** `%%` is quoted as ordinary text, while a piece of quotes only is left unquoted.

### Behaviour a reader may not expect

The model follows the code in each case.

- **Repeated keys.** When a metadata block repeats a key, the code keeps the key where it first
  appeared, with the value it was given last. It does not keep the first value.
- **The second information call.** The stored information record has `from-cache` set to true, and
  the freshly built one is returned with it false. So a second cached call to `getFileInformation`
  does not return an identical array: it differs in that flag.

## Model

| member | source | states |
|---|---|---|
| Parser.RawOutcome | sites/all/libraries/phpvideotoolkit/src/PHPVideoToolkit/MediaParser.php:754-762 | The run throws exactly when ffmpeg reports an error and its last line is not the missing-output message; the exception carries the path and the whole output; otherwise the output is returned. |
| Parser.MissingOutputIsNotFailure | sites/all/libraries/phpvideotoolkit/src/PHPVideoToolkit/MediaParser.php:758 | An error run ending in `At least one output file must be specified` gives its output; any other last line makes it throw. |
| Parser.MediaParser.constructor | sites/all/libraries/phpvideotoolkit/src/PHPVideoToolkit/MediaParser.php:37-803 | A new parser has an empty cache, has run ffmpeg no times, and fixes each path's extraction to what the extractors give on its output. |
| Parser.MediaParser.GetFileRawInformation | sites/all/libraries/phpvideotoolkit/src/PHPVideoToolkit/MediaParser.php:729-772 | Returns the output of the path or throws when the run failed; with `read_from_cache` a stored output is returned without a run; a failed run stores nothing; a successful run stores the output under `_raw_data`. |
| Parser.MediaParser.LookUp | sites/all/libraries/phpvideotoolkit/src/PHPVideoToolkit/MediaParser.php:84-91 | The opening every derived getter shares: a hit returns the stored value, which equals a fresh computation, and changes nothing; otherwise the raw text is fetched (one run unless it was stored) or the exception passes through. |
| Parser.MediaParser.CacheSet | sites/all/libraries/phpvideotoolkit/src/PHPVideoToolkit/MediaParser.php:100 | Stores the fresh value of one field and keeps the invariant that every entry is what its getter computes now. |
| Parser.MediaParser.StoreKnown | sites/all/libraries/phpvideotoolkit/src/PHPVideoToolkit/MediaParser.php:770 | Storing an entry that is already there, under the invariant, leaves the cache as it was. |
| Parser.MediaParser.ServedSucceeded | sites/all/libraries/phpvideotoolkit/src/PHPVideoToolkit/MediaParser.php:85-100 | After a successful getter call the cache holds exactly the raw text and the field added to what was there, and the number of ffmpeg runs is 0 on a warm read, 1 on a cold one and 2 for a cold video read that asks for the duration. |
| Parser.MediaParser.ServedThenHit | sites/all/libraries/phpvideotoolkit/src/PHPVideoToolkit/MediaParser.php:150-156 | After a successful getter call the field is stored; the next cached call is a hit except where the source's own test rejects the stored value: a bitrate of -1 (the `!== -1` test), a false has-audio or has-video flag and an empty or `0` container (the truth tests at lines 670, 701 and 786). |
| Parser.MediaParser.GetFileDuration | sites/all/libraries/phpvideotoolkit/src/PHPVideoToolkit/MediaParser.php:82-102 | Returns the Duration of the output or the exception; the cache and run count change as a hit, a throw or a miss prescribes. |
| Parser.MediaParser.GetFileGlobalMetadata | sites/all/libraries/phpvideotoolkit/src/PHPVideoToolkit/MediaParser.php:113-139 | Returns the GlobalMetadata of the output or the exception, with the same cache behaviour. |
| Parser.MediaParser.GetFileBitrate | sites/all/libraries/phpvideotoolkit/src/PHPVideoToolkit/MediaParser.php:150-170 | Returns the Bitrate of the output or the exception, with the same cache behaviour. |
| Parser.MediaParser.GetFileStart | sites/all/libraries/phpvideotoolkit/src/PHPVideoToolkit/MediaParser.php:181-201 | Returns the Start of the output or the exception, with the same cache behaviour. |
| Parser.MediaParser.GetFileType | sites/all/libraries/phpvideotoolkit/src/PHPVideoToolkit/MediaParser.php:212-252 | Returns the Type of the output and the path's MIME type, or the exception, with the same cache behaviour. |
| Parser.MediaParser.GetFileVolumeComponent | sites/all/libraries/phpvideotoolkit/src/PHPVideoToolkit/MediaParser.php:263-301 | Returns the VolumeOf the output or the exception, with the same cache behaviour. |
| Parser.MediaParser.GetFileVideoComponent | sites/all/libraries/phpvideotoolkit/src/PHPVideoToolkit/MediaParser.php:312-507 | Returns the video array of the output built with the duration getFileDuration gives, or the exception; a cold miss with a frame rate runs ffmpeg once more for the duration. |
| Parser.MediaParser.CachedVideo | sites/all/libraries/phpvideotoolkit/src/PHPVideoToolkit/MediaParser.php:312-507 | The video getter against the frozen extraction: a hit, a throw, or a miss that stores the raw text, the duration when needed and the array. |
| Parser.MediaParser.VideoFromRaw | sites/all/libraries/phpvideotoolkit/src/PHPVideoToolkit/MediaParser.php:430-439 | Builds the video array; the duration is fetched, stored and counted only when the stream line has an `fps` or `tbr` time base. |
| Parser.MediaParser.FetchDuration | sites/all/libraries/phpvideotoolkit/src/PHPVideoToolkit/MediaParser.php:437 | The nested getFileDuration call on a path whose output is stored: returns Duration of the output, stores it, and runs ffmpeg again only without `read_from_cache`. |
| Parser.MediaParser.GetFileAudioComponent | sites/all/libraries/phpvideotoolkit/src/PHPVideoToolkit/MediaParser.php:518-656 | Returns the AudioComponentOf the output or the exception, with the same cache behaviour. |
| Parser.MediaParser.GetFileHasAudio | sites/all/libraries/phpvideotoolkit/src/PHPVideoToolkit/MediaParser.php:667-687 | Returns HasAudio of the output or the exception; the cached flag is only reused when true. |
| Parser.MediaParser.GetFileHasVideo | sites/all/libraries/phpvideotoolkit/src/PHPVideoToolkit/MediaParser.php:698-718 | Returns HasVideo of the output or the exception; the cached flag is only reused when true. |
| Parser.MediaParser.GetFileContainerFormat | sites/all/libraries/phpvideotoolkit/src/PHPVideoToolkit/MediaParser.php:783-803 | Returns the Container of the output or the exception; a cached empty or `0` name is recomputed. |
| Parser.MediaParser.FirstFields | sites/all/libraries/phpvideotoolkit/src/PHPVideoToolkit/MediaParser.php:56-59 | The first four getters of the record in source order: their values, the cache they leave, and 0, 1 or 4 runs; a failure throws before anything is stored. |
| Parser.MediaParser.LastFields | sites/all/libraries/phpvideotoolkit/src/PHPVideoToolkit/MediaParser.php:60-64 | The other five getters: their values, the cache they leave, and 5 or 6 runs without `read_from_cache`. |
| Parser.MediaParser.BuildInformation | sites/all/libraries/phpvideotoolkit/src/PHPVideoToolkit/MediaParser.php:52-70 | A cache miss on the record: every field as its getter gives it, the record stored with `from-cache` true and returned with it false, and the runs counted. |
| Parser.MediaParser.StoreInformation | sites/all/libraries/phpvideotoolkit/src/PHPVideoToolkit/MediaParser.php:67 | Stores the record read at `now` under `_parsed_information` and keeps the invariant. |
| Parser.MediaParser.InformationDescribes | sites/all/libraries/phpvideotoolkit/src/PHPVideoToolkit/MediaParser.php:52-65 | The record holds, field by field, what each getter returns for the path, with `from-cache` true and the given read time. |
| Parser.MediaParser.GetFileInformation | sites/all/libraries/phpvideotoolkit/src/PHPVideoToolkit/MediaParser.php:37-71 | A cached record is returned as stored (with `from-cache` true); otherwise the record is assembled, describes the file, is stored, and comes back with `from-cache` false; ffmpeg failure throws and stores nothing. |
| Fields.Container | sites/all/libraries/phpvideotoolkit/src/PHPVideoToolkit/MediaParser.php:795-799 | The `Input #0, <format>, from` token, or the empty string when the pattern does not occur; never contains a blank. |
| Fields.ContainerOfInputLine | sites/all/libraries/phpvideotoolkit/src/PHPVideoToolkit/MediaParser.php:796-798 | For `Input #0, <tok>, from ...` the container is `tok`. |
| Fields.Duration | sites/all/libraries/phpvideotoolkit/src/PHPVideoToolkit/MediaParser.php:94-98 | Null exactly when `Duration:` with blanks does not occur; otherwise the clock text after it, up to a comma, read as an input-format timecode. |
| Fields.DurationOfLine | sites/all/libraries/phpvideotoolkit/src/PHPVideoToolkit/MediaParser.php:95-97 | A `Duration: <d>,` line gives the timecode of `d`. |
| Fields.Start | sites/all/libraries/phpvideotoolkit/src/PHPVideoToolkit/MediaParser.php:193-197 | Null exactly when `start:` does not occur; otherwise the text after it, up to a comma, read as seconds. |
| Fields.StartOfField | sites/all/libraries/phpvideotoolkit/src/PHPVideoToolkit/MediaParser.php:194-196 | A `start: <st>,` field gives the timecode of `st` in seconds format. |
| Fields.Bitrate | sites/all/libraries/phpvideotoolkit/src/PHPVideoToolkit/MediaParser.php:162-166 | Null without a `bitrate:` match; -1 exactly for `N/A`; otherwise the non-negative integer value of the leading digits of the numeral. |
| Fields.BitrateOfField | sites/all/libraries/phpvideotoolkit/src/PHPVideoToolkit/MediaParser.php:163-165 | `bitrate: <n> kb/s` gives `n`. |
| Fields.BitrateNotAvailable | sites/all/libraries/phpvideotoolkit/src/PHPVideoToolkit/MediaParser.php:165 | `bitrate: N/A` gives -1. |
| Fields.Type | sites/all/libraries/phpvideotoolkit/src/PHPVideoToolkit/MediaParser.php:223-248 | `image`, `audio` or `video` by the MIME type when a video stream line exists, `audio` for an audio stream line alone, null otherwise: each outcome exactly under its condition. |
| Fields.HasAudio | sites/all/libraries/phpvideotoolkit/src/PHPVideoToolkit/MediaParser.php:679-683 | True exactly when some position p starts `Stream` and some q at least seven on starts `Audio`, with no line break from p+6 up to q. |
| Fields.HasVideo | sites/all/libraries/phpvideotoolkit/src/PHPVideoToolkit/MediaParser.php:710-714 | True exactly when some position p starts `Stream` and some q at least seven on starts `Video`, with no line break from p+6 up to q. |
| Fields.StreamWordIs | sites/all/libraries/phpvideotoolkit/src/PHPVideoToolkit/MediaParser.php:680 | The greedy `.+` of `Stream.+<word>` at p matches exactly when `<word>` occurs on the same line at least one character after `Stream`. |
| Fields.HasAudioLine | sites/all/libraries/phpvideotoolkit/src/PHPVideoToolkit/MediaParser.php:679-683 | Any text holding `Stream`, a non-empty gap without a line break, then `Audio` has audio. |
| Fields.NoAudioAcrossLines | sites/all/libraries/phpvideotoolkit/src/PHPVideoToolkit/MediaParser.php:680 | `Stream` and `Audio` on consecutive lines do not count as audio. |
| Fields.HasVideoLine | sites/all/libraries/phpvideotoolkit/src/PHPVideoToolkit/MediaParser.php:710-714 | Any text holding `Stream`, a non-empty gap without a line break, then `Video` has video. |
| Fields.NoVideoAcrossLines | sites/all/libraries/phpvideotoolkit/src/PHPVideoToolkit/MediaParser.php:711 | `Stream` and `Video` on consecutive lines do not count as video. |
| Fields.VolumeOf | sites/all/libraries/phpvideotoolkit/src/PHPVideoToolkit/MediaParser.php:275-297 | Null exactly when neither a mean nor a max volume line matches; each field is present exactly when its line matches. |
| Fields.VolumeOfPrefixedMean | sites/all/libraries/phpvideotoolkit/src/PHPVideoToolkit/MediaParser.php:277-284 | A `mean_volume: <num> dB` reading behind any prefix without a line break (such as ffmpeg's `[Parsed_volumedetect_0 @ ...] `), after lines that never mention `mean_volume:`, gives the mean volume `<num>dB`. |
| Fields.VolumeOfPrefixedMax | sites/all/libraries/phpvideotoolkit/src/PHPVideoToolkit/MediaParser.php:288-295 | A `max_volume: <num> dB` reading behind any prefix without a line break, after lines that never mention `max_volume:`, gives the max volume `<num>dB`. |
| Fields.VolumeOfPrefixedTwoLines | sites/all/libraries/phpvideotoolkit/src/PHPVideoToolkit/MediaParser.php:275-297 | A prefixed mean reading and, on the next line, a prefixed max reading, after lines that mention neither, give exactly the mean `<a>dB` and the max `<b>dB`. |
| Fields.ReadingAfter | sites/all/libraries/phpvideotoolkit/src/PHPVideoToolkit/MediaParser.php:277 | The first line the multi-line pattern matches is the prefixed reading line, and it gives that reading's number with its unit. |
| Fields.PrefixedLineAt | sites/all/libraries/phpvideotoolkit/src/PHPVideoToolkit/MediaParser.php:277 | On a line that holds a prefix and then a reading, the greedy `^.*` stops at the reading and the line gives its number with the unit. |
| Fields.NoTailBefore | sites/all/libraries/phpvideotoolkit/src/PHPVideoToolkit/MediaParser.php:277 | Lines that never mention `<name>:` (in any case) hold no match of the tail pattern. |
| Fields.PrefixedMeanLineNoMax | sites/all/libraries/phpvideotoolkit/src/PHPVideoToolkit/MediaParser.php:288 | A prefixed mean reading line does not mention `max_volume:`, so it never hides the max reading after it. |
| Fields.NoLaterVolumeTail | sites/all/libraries/phpvideotoolkit/src/PHPVideoToolkit/MediaParser.php:277 | The negative lookahead and the unit leave no second match of the tail further along a volume line. |
| Metadata.GlobalMetadata | sites/all/libraries/phpvideotoolkit/src/PHPVideoToolkit/MediaParser.php:124-135 | Null without a block between the first `Metadata:` and the last `Duration:` or when it holds no pair; otherwise its pairs assigned in order, each key once. |
| Metadata.ParseGlobalMetadata | sites/all/libraries/phpvideotoolkit/src/PHPVideoToolkit/MediaParser.php:124-135 | The loop the source runs gives GlobalMetadata. |
| Metadata.ParseBlock | sites/all/libraries/phpvideotoolkit/src/PHPVideoToolkit/MediaParser.php:128-134 | Assigning the pairs in turn keeps each key once, with the value the block gives it last. |
| Metadata.PairOfLine | sites/all/libraries/phpvideotoolkit/src/PHPVideoToolkit/MediaParser.php:128 | A `key<blanks>:<blanks>value` line, with any non-empty run of blanks on each side of the colon as in ffmpeg's column-padded `major_brand     : isom`, is read as the pair (key, value), followed by the pairs of the lines after it. |
| Metadata.PairAt | sites/all/libraries/phpvideotoolkit/src/PHPVideoToolkit/MediaParser.php:128 | At a padded `key : value` line the pattern captures exactly the key and the rest of the line, and its match ends at the line end. |
| Metadata.PairsSkip | sites/all/libraries/phpvideotoolkit/src/PHPVideoToolkit/MediaParser.php:128 | A character that cannot start a key is skipped: the pairs are those of the text after it. |
| Metadata.BlockAt | sites/all/libraries/phpvideotoolkit/src/PHPVideoToolkit/MediaParser.php:126 | A block match starts at `Metadata:` and runs from after it up to a position where the terminator matches. |
| Metadata.StreamBlock | sites/all/libraries/phpvideotoolkit/src/PHPVideoToolkit/MediaParser.php:485-487 | A stream's block is found only when the text after its header line starts with `Metadata:` and the block pattern matches there. |
| Metadata.StreamMetadata | sites/all/libraries/phpvideotoolkit/src/PHPVideoToolkit/MediaParser.php:484-496 | Empty without a block; otherwise each key once, with the value the block gives it last. |
| Metadata.ParseStreamMetadata | sites/all/libraries/phpvideotoolkit/src/PHPVideoToolkit/MediaParser.php:484-496 | The loop the source runs gives StreamMetadata. |
| StreamLine.HeaderAt | sites/all/libraries/phpvideotoolkit/src/PHPVideoToolkit/MediaParser.php:325 | A header match starts with `Stream`, its line is a prefix of the text there, and its rest is a suffix of the line without a line feed. |
| StreamLine.StreamIdAt | sites/all/libraries/phpvideotoolkit/src/PHPVideoToolkit/MediaParser.php:359 | A stream id is at least three digits or colons after `#`. |
| StreamLine.LanguageAt | sites/all/libraries/phpvideotoolkit/src/PHPVideoToolkit/MediaParser.php:365 | A language is a parenthesised word of at least two lower-case letters, `_` or `-`. |
| StreamLine.RateAt | sites/all/libraries/phpvideotoolkit/src/PHPVideoToolkit/MediaParser.php:442 | A rate match has one to four digits followed by a blank. |
| StreamLine.RateValue | sites/all/libraries/phpvideotoolkit/src/PHPVideoToolkit/MediaParser.php:444-447 | `mb/s` multiplies by 8192000, `kb/s` by 1000. |
| StreamLine.StreamRate | sites/all/libraries/phpvideotoolkit/src/PHPVideoToolkit/MediaParser.php:442-449 | The stream bitrate is present exactly when the rate pattern matches, and equals RateValue of the leftmost match. |
| StreamLine.StreamRateOfText | sites/all/libraries/phpvideotoolkit/src/PHPVideoToolkit/MediaParser.php:442-447 | `<n> kb/s` or `<n> mb/s` gives the last four digits of `n` times the multiplier: `{1,4}` is matched at the leftmost position where it can succeed. |
| StreamLine.RateTextFirst | sites/all/libraries/phpvideotoolkit/src/PHPVideoToolkit/MediaParser.php:442 | The leftmost match of the rate pattern in `<digits> <unit>` takes the last four digits. |
| StreamLine.Leftover | sites/all/libraries/phpvideotoolkit/src/PHPVideoToolkit/MediaParser.php:452-461 | The trimmed comma-separated segments that are not among the consumed texts, in order. |
| StreamLine.LeftoverKeeps | sites/all/libraries/phpvideotoolkit/src/PHPVideoToolkit/MediaParser.php:452-461 | A text is a leftover exactly when it is a trimmed segment and not among the consumed texts. |
| StreamLine.LeftoverAppend | sites/all/libraries/phpvideotoolkit/src/PHPVideoToolkit/MediaParser.php:453-461 | The filter works segment by segment: the leftovers of two runs of segments are the leftovers of each, in order. |
| StreamLine.LeftoverOne | sites/all/libraries/phpvideotoolkit/src/PHPVideoToolkit/MediaParser.php:456-460 | One segment is kept trimmed exactly when its trimmed text is not among the consumed texts. |
| StreamLine.LeadingFormats | sites/all/libraries/phpvideotoolkit/src/PHPVideoToolkit/MediaParser.php:452-461 | When the first two comma-separated segments are not consumed, they are the first two formats, trimmed. |
| StreamLine.LeadingFormat | sites/all/libraries/phpvideotoolkit/src/PHPVideoToolkit/MediaParser.php:594-603 | When the first segment is not consumed, it is the first format, trimmed. |
| StreamLine.Formats | sites/all/libraries/phpvideotoolkit/src/PHPVideoToolkit/MediaParser.php:452-461 | The filtering loop gives Leftover. |
| StreamLine.CodecOf | sites/all/libraries/phpvideotoolkit/src/PHPVideoToolkit/MediaParser.php:462-482 | The codec name is the first non-blank run of the first leftover (the whole text when it is all blank); the profile is the first bracketed text without `/` after it; tag and tag string are the two halves of the first `(<tag> / <string>)` after it; raw is the leftover; without one everything is null. |
| StreamLine.CodecOfLine | sites/all/libraries/phpvideotoolkit/src/PHPVideoToolkit/MediaParser.php:465-482 | A codec written `<name> (<profile>) (<tag> / <string>)` gives exactly that name, profile, tag and tag string, with the whole text as raw. |
| StreamLine.CodecOfH264 | sites/all/libraries/phpvideotoolkit/src/PHPVideoToolkit/MediaParser.php:465-482 | `h264 (High) (avc1 / 0x31637661)` gives name `h264`, profile `High`, tag `avc1` and tag string `0x31637661`. |
| StreamLine.ProfileAt | sites/all/libraries/phpvideotoolkit/src/PHPVideoToolkit/MediaParser.php:472 | A profile is a non-empty parenthesised text without `/` or `)`. |
| StreamLine.TagAt | sites/all/libraries/phpvideotoolkit/src/PHPVideoToolkit/MediaParser.php:476 | A tag pair is two non-empty texts, the second without blanks or `)`. |
| Video.VideoComponentOf | sites/all/libraries/phpvideotoolkit/src/PHPVideoToolkit/MediaParser.php:324-503 | Null exactly when no video stream line matches; otherwise the video array of the first one. |
| Video.VideoOf | sites/all/libraries/phpvideotoolkit/src/PHPVideoToolkit/MediaParser.php:325-503 | The video array: the codec is CodecOf the first leftover format and the pixel format is the second leftover; its time bases have each key once, every key one of `fps`, `tbr`, `tbc`, `tbn`, and its metadata has each key once. |
| Video.VideoLeadingFormats | sites/all/libraries/phpvideotoolkit/src/PHPVideoToolkit/MediaParser.php:452-482 | Two leading segments that do not begin like a size, a rate or a time base give the codec of the first and the second as the pixel format. |
| Video.VideoH264 | sites/all/libraries/phpvideotoolkit/src/PHPVideoToolkit/MediaParser.php:452-482 | A stream line whose details begin `h264 (High) (avc1 / 0x31637661), yuv420p,` gives codec `h264` with profile `High`, tag `avc1`, tag string `0x31637661`, raw text the first segment, and pixel format `yuv420p`. |
| Video.ParseVideo | sites/all/libraries/phpvideotoolkit/src/PHPVideoToolkit/MediaParser.php:323-503 | The steps the source takes give VideoOf. |
| Video.RatiosOf | sites/all/libraries/phpvideotoolkit/src/PHPVideoToolkit/MediaParser.php:370-380 | The bracketed ratios when there are any, otherwise the unbracketed ones, otherwise none. |
| Video.RatiosOfBracketed | sites/all/libraries/phpvideotoolkit/src/PHPVideoToolkit/MediaParser.php:371-375 | `[SAR a DAR b]` gives the pixel ratio `a` and the display ratio `b`. |
| Video.RatiosOfPlain | sites/all/libraries/phpvideotoolkit/src/PHPVideoToolkit/MediaParser.php:376-380 | `SAR a DAR b` without a bracket gives `a` and `b`. |
| Video.RatiosFrom | sites/all/libraries/phpvideotoolkit/src/PHPVideoToolkit/MediaParser.php:376 | A ratio match gives two ratio texts and ends where the display ratio's characters stop. |
| Video.DarPair | sites/all/libraries/phpvideotoolkit/src/PHPVideoToolkit/MediaParser.php:390-401 | The display ratio is read as a pair only when it is digits, one `.` or `:`, and digits. |
| Video.DarPairOfColon | sites/all/libraries/phpvideotoolkit/src/PHPVideoToolkit/MediaParser.php:398-400 | `n:m` gives (n, m). |
| Video.DarPairOfDecimal | sites/all/libraries/phpvideotoolkit/src/PHPVideoToolkit/MediaParser.php:391-397 | `ip.fp` gives (ip.fp, 1). |
| Video.DimensionsOf | sites/all/libraries/phpvideotoolkit/src/PHPVideoToolkit/MediaParser.php:382-414 | Without a size match the dimensions are null and no text is consumed; otherwise width and height are the matched numbers, both at least 1, exchanged (with the warning) exactly when the display ratio is portrait and the size landscape. |
| Video.SizeNumeralPositive | sites/all/libraries/phpvideotoolkit/src/PHPVideoToolkit/MediaParser.php:383 | A numeral that the `[1-9][0-9]*` pattern matches has value at least 1. |
| Video.DimensionsOfText | sites/all/libraries/phpvideotoolkit/src/PHPVideoToolkit/MediaParser.php:383-413 | `<w>x<h>` with no portrait conflict gives width `w` and height `h` and no warning. |
| Video.DimensionsOfRotated | sites/all/libraries/phpvideotoolkit/src/PHPVideoToolkit/MediaParser.php:404-409 | `<w>x<h>` with `w > h` and a display ratio `n:m` with `n < m` gives width `h`, height `w` and the warning. |
| Video.SizeAt | sites/all/libraries/phpvideotoolkit/src/PHPVideoToolkit/MediaParser.php:383 | A size match is two numerals without a leading zero joined by `x`. |
| Video.SizeAtText | sites/all/libraries/phpvideotoolkit/src/PHPVideoToolkit/MediaParser.php:383 | `<a>x<b>` followed by a non-digit is matched as that size. |
| Video.TimeBaseAt | sites/all/libraries/phpvideotoolkit/src/PHPVideoToolkit/MediaParser.php:420 | A time base match names one of the four abbreviations and has a non-empty value. |
| Video.TimeBaseOfText | sites/all/libraries/phpvideotoolkit/src/PHPVideoToolkit/MediaParser.php:420-425 | `<v> <name>` gives the time base (value `v`, name `name`). |
| Video.TimeBaseKeys | sites/all/libraries/phpvideotoolkit/src/PHPVideoToolkit/MediaParser.php:419-425 | Assigning the matches into `time_bases` leaves only the four abbreviations as keys. |
| Video.FrameRate | sites/all/libraries/phpvideotoolkit/src/PHPVideoToolkit/MediaParser.php:431-433 | The rate is the `fps` time base when present, else `tbr`, else none. |
| Video.FramesOf | sites/all/libraries/phpvideotoolkit/src/PHPVideoToolkit/MediaParser.php:434-438 | The frame total is present exactly when both the rate and the duration are, and is the ceiling of seconds times rate. |
| Video.FramesOfNtsc | sites/all/libraries/phpvideotoolkit/src/PHPVideoToolkit/MediaParser.php:436-438 | A 10-second file at 29.97 frames per second has 300 frames. |
| Video.DurationOnlyForFrames | sites/all/libraries/phpvideotoolkit/src/PHPVideoToolkit/MediaParser.php:431-439 | Without a frame rate the video array does not depend on the duration. |
| Audio.AudioComponentOf | sites/all/libraries/phpvideotoolkit/src/PHPVideoToolkit/MediaParser.php:530-652 | Null exactly when no audio stream line matches; otherwise the audio array of the first one. |
| Audio.AudioOf | sites/all/libraries/phpvideotoolkit/src/PHPVideoToolkit/MediaParser.php:531-652 | Channels are present exactly when the layout is, and equal its exact-comparison count; the sample rate is below 1000000; the codec is CodecOf the first leftover format; the metadata has each key once. |
| Audio.AudioLeadingFormat | sites/all/libraries/phpvideotoolkit/src/PHPVideoToolkit/MediaParser.php:594-621 | A leading segment that is not a sample rate, a layout or a bitrate gives the codec of that segment. |
| Audio.AudioAac | sites/all/libraries/phpvideotoolkit/src/PHPVideoToolkit/MediaParser.php:594-621 | A stream line whose details begin `aac (LC) (mp4a / 0x6134706D),` gives codec `aac` with profile `LC`, tag `mp4a` and tag string `0x6134706D`. |
| Audio.ParseAudio | sites/all/libraries/phpvideotoolkit/src/PHPVideoToolkit/MediaParser.php:529-652 | The steps the source takes give AudioOf. |
| Audio.Channels | sites/all/libraries/phpvideotoolkit/src/PHPVideoToolkit/MediaParser.php:572 | 1 exactly for `mono`, 2 for `stereo`, 6 for `5.1`, 0 for anything else. |
| Audio.LayoutAt | sites/all/libraries/phpvideotoolkit/src/PHPVideoToolkit/MediaParser.php:569 | A layout match is 6, 4 or 3 characters long and is the text at that position. |
| Audio.ChannelsOfLayout | sites/all/libraries/phpvideotoolkit/src/PHPVideoToolkit/MediaParser.php:569-572 | A line starting `mono`, `stereo` or `5.1` gives that layout and 1, 2 or 6 channels. |
| Audio.CapitalisedLayout | sites/all/libraries/phpvideotoolkit/src/PHPVideoToolkit/MediaParser.php:569-572 | `Stereo` is found case-blind but the exact comparison gives 0 channels. |
| Audio.SampleAt | sites/all/libraries/phpvideotoolkit/src/PHPVideoToolkit/MediaParser.php:577 | A sample-rate match is three to six digits followed by blanks and `Hz`; its value is at least 100 unless it starts with 0. |
| Audio.SampleRateOfText | sites/all/libraries/phpvideotoolkit/src/PHPVideoToolkit/MediaParser.php:577-580 | `<ds> Hz` with three to six digits gives the value of `ds`. |
| Assoc.Put | sites/all/libraries/phpvideotoolkit/src/PHPVideoToolkit/MediaParser.php:132 | Assigning a key gives it the new value, leaves every other key's value alone, and appends only a new key. |
| Assoc.FromPairsLookup | sites/all/libraries/phpvideotoolkit/src/PHPVideoToolkit/MediaParser.php:130-133 | After the loop each key has the value its last pair gives it, and each key is there once. |
| Assoc.FromPairsOrder | sites/all/libraries/phpvideotoolkit/src/PHPVideoToolkit/MediaParser.php:130-133 | Later assignments never reorder the keys already there. |
| Assoc.Fill | sites/all/libraries/phpvideotoolkit/src/PHPVideoToolkit/MediaParser.php:130-133 | The assignment loop gives FromPairs. |
| Numbers.IntOfNumeral | sites/all/libraries/phpvideotoolkit/src/PHPVideoToolkit/MediaParser.php:165 | `(int)` of a string of digits is its value. |
| Numbers.IntOfLeadingDigits | sites/all/libraries/phpvideotoolkit/src/PHPVideoToolkit/MediaParser.php:165 | `(int)` of digits followed by text that does not start with a digit is the value of the digits. |
| Numbers.FloatOfNumeral | sites/all/libraries/phpvideotoolkit/src/PHPVideoToolkit/MediaParser.php:436 | `(float)` of a numeral lies between its integer part and the next integer. |
| Numbers.FloatOfInteger | sites/all/libraries/phpvideotoolkit/src/PHPVideoToolkit/MediaParser.php:443 | `(float)` of digits followed by text that starts with neither a digit nor a point is the value of the digits. |
| Numbers.FloatOfDecimal | sites/all/libraries/phpvideotoolkit/src/PHPVideoToolkit/MediaParser.php:436 | `(float)` of `ip.fp` is that decimal. |
| Numbers.Ceil | sites/all/libraries/phpvideotoolkit/src/PHPVideoToolkit/MediaParser.php:438 | `ceil` gives the least integer not below its argument. |
| Text.Split | sites/all/libraries/phpvideotoolkit/src/PHPVideoToolkit/MediaParser.php:452 | `explode` gives pieces without the delimiter that join back to the text. |
| Text.SplitFront | sites/all/libraries/phpvideotoolkit/src/PHPVideoToolkit/MediaParser.php:452 | A first piece without the delimiter, then the delimiter, is the first piece of the split and the rest is split on its own. |
| Text.Trim | sites/all/libraries/phpvideotoolkit/src/PHPVideoToolkit/MediaParser.php:456 | `trim` strips the default characters from both ends and leaves an already trimmed text alone. |
| Text.TrimIs | sites/all/libraries/phpvideotoolkit/src/PHPVideoToolkit/MediaParser.php:456 | A slice bounded by untrimmed characters, with only trimmed characters around it, is what `trim` gives. |
| Text.FirstFrom | sites/all/libraries/phpvideotoolkit/src/PHPVideoToolkit/MediaParser.php:95 | `preg_match` finds the leftmost position where the pattern matches: nothing matches before it. |
| Text.LastIn | sites/all/libraries/phpvideotoolkit/src/PHPVideoToolkit/MediaParser.php:126 | A greedy `.*` ends at the last position where the rest matches. |
| Text.AllFrom | sites/all/libraries/phpvideotoolkit/src/PHPVideoToolkit/MediaParser.php:128 | `preg_match_all` gives the leftmost match first, and each result is a match somewhere in the text. |
| Text.AllFromNext | sites/all/libraries/phpvideotoolkit/src/PHPVideoToolkit/MediaParser.php:128 | After the leftmost match, the search resumes where it ended: the results are its capture followed by the results from there. |
| Text.AllFromShift | sites/all/libraries/phpvideotoolkit/src/PHPVideoToolkit/MediaParser.php:128 | Searching a text that ends with another, whose matches correspond shifted, gives the same results. |
| Text.AllFromFound | sites/all/libraries/phpvideotoolkit/src/PHPVideoToolkit/MediaParser.php:128 | When every match satisfies a property, so does every result. |
| ProcessUtils.Pieces | sites/all/libraries/phpvideotoolkit/src/PHPVideoToolkit/ProcessUtils.php:41 | The split pieces join back to the argument, each is a lone quote or non-empty quote-free text, and no two texts are adjacent. |
| ProcessUtils.PiecesUnique | sites/all/libraries/phpvideotoolkit/src/PHPVideoToolkit/ProcessUtils.php:41 | Those three properties determine the split: any such list of pieces is Pieces. |
| ProcessUtils.PiecesAroundQuote | sites/all/libraries/phpvideotoolkit/src/PHPVideoToolkit/ProcessUtils.php:41 | The split of `a"b` is the split of `a`, the quote, then the split of `b`. |
| ProcessUtils.QuoteEscaped | sites/all/libraries/phpvideotoolkit/src/PHPVideoToolkit/ProcessUtils.php:42-43 | Every quote becomes `\"` where it stands, the texts either side are escaped on their own, and the whole is quoted when either side asks for it. |
| ProcessUtils.VariableGuarded | sites/all/libraries/phpvideotoolkit/src/PHPVideoToolkit/ProcessUtils.php:44-46 | A quote-free `%name%` gives `^%"name"^%` and is not quoted. |
| ProcessUtils.PlainQuoted | sites/all/libraries/phpvideotoolkit/src/PHPVideoToolkit/ProcessUtils.php:48-57 | Ordinary quote-free text is quoted as it stands, with a trailing backslash doubled. |
| ProcessUtils.DoublePercentQuoted | sites/all/libraries/phpvideotoolkit/src/PHPVideoToolkit/ProcessUtils.php:66-69 | `%%` is not longer than two characters, so it is ordinary text and comes back as `"%%"`. |
| ProcessUtils.QuotesOnly | sites/all/libraries/phpvideotoolkit/src/PHPVideoToolkit/ProcessUtils.php:52-58 | An argument of quotes only gives `\"` per quote and is not quoted. |
| ProcessUtils.WrappedIff | sites/all/libraries/phpvideotoolkit/src/PHPVideoToolkit/ProcessUtils.php:52-58 | The result starts with a quote exactly when some piece is ordinary, and then also ends with one. |
| ProcessUtils.QuotedWithoutPercent | sites/all/libraries/phpvideotoolkit/src/PHPVideoToolkit/ProcessUtils.php:52-58 | Without a `%`, the argument is quoted exactly when it has a character that is not a quote. |
| ProcessUtils.Rewrite | sites/all/libraries/phpvideotoolkit/src/PHPVideoToolkit/ProcessUtils.php:42-54 | A piece's rewrite is non-empty; an ordinary piece keeps its first character, a quote or variable piece starts with `\` or `^`. |
| ProcessUtils.EscapeWindows | sites/all/libraries/phpvideotoolkit/src/PHPVideoToolkit/ProcessUtils.php:39-60 | A non-empty argument never escapes to the empty text. |
| ProcessUtils.EscapeArgument | sites/all/libraries/phpvideotoolkit/src/PHPVideoToolkit/ProcessUtils.php:28-64 | The loop over the pieces, with its `$quote` flag, gives EscapedArgument: the Windows escaping for a non-empty argument on Windows, escapeshellarg otherwise. |

## Left out

- Cache keys: they are built from `md5(realpath($file_path))`. The model keys by the path and the field instead, so hashing, path resolution and `_checkMediaFilePath` are not modelled.
- The cache: the model starts empty and is owned by one parser. A cache shared between parsers, persisted or already filled is not modelled, and neither is the cache class, which is not part of this model.
- ffmpeg: building and executing the command (`FfmpegProcess`, the `NUL` or `/dev/null` choice) is replaced by the `probe` function. Each run of the same path is taken to give the same output. The empty-output branch at line 765 does nothing and is not modelled.
- `Timecode`: its internals are outside the model. It is a value holding the source text, the input format and the seconds that `reader` gives.
- `Mime::get`: it is the `mime` parameter.
- `time()`: it is the `now` parameter of `getFileInformation`.
- The `$file_data` branch of `getFileInformation` (lines 46-49): it reads a local variable that is never set, so the branch is dead and is left out.
- The fallback to `/Metadata:(.*)(?:Duration)/` in the audio getter (lines 641-650): it sits in the `else` of a test identical to the enclosing one, so it cannot run and is left out.
- Characters: a Dafny `char` stands for one byte of the PHP string, as PCRE without the `/u` flag reads it, and the model is exact under that reading. Multi-byte UTF-8 characters are not modelled: under a Unicode reading `LayoutAt`'s `.` in `5.1` would accept one multi-byte character where PCRE needs a single byte.
- PHP notices: reading a missing array element (`$formats[1]`, `$dimensions_matches[0]`) raises a notice and gives `null`. The model gives `None` and does not model the notice.
- Array fields the source always sets to null (`frames.avg_rate`, `sample.format`, `sample.bits_per`): left out. Width and height, which the source casts to float, are whole numbers in the model.
- Floating point: `(float)` and the frame-rate product are exact `real`s, so rounding is not modelled.
- `in_array` loose comparison: modelled as equality of strings, plus `null == ""`. Numeric strings that PHP treats as equal (`"5.1" == "5.10"`) are not.
- The non-Windows branch of `escapeArgument` and the empty Windows argument: both call `escapeshellarg`, a PHP built-in passed in as a parameter, whose output is not modelled.
- Video.VideoOf: its contract ties the codec and pixel format to the leftover formats and states the key structure of the time bases and the metadata. Its ratios, dimensions, frames, bitrate and metadata values are stated by the contracts of the functions that compute them (RatiosOf, DimensionsOf, FramesOf, StreamRate, StreamMetadata) and by ParseVideo.
- Audio.AudioOf: in the same way, its bitrate, sample rate and metadata values are stated by StreamRate, SampleAt and StreamMetadata.
- Fields.VolumeOf: the lemmas that give its values (VolumeOfPrefixedMean, VolumeOfPrefixedMax, VolumeOfPrefixedTwoLines) require that the earlier lines never mention the reading's name with its colon. Text where an earlier line mentions it without matching the pattern is covered only by the contract of VolumeOf itself.
- Fields.Bitrate: `(int)` in PHP is a 64-bit integer, so a global bitrate above 9223372036854775807 saturates there; the model gives the exact value of the digits.
- ProcessUtils.EscapeWindows: its own contract says only that the result is not empty. What it does is stated by the lemmas about it (QuoteEscaped, VariableGuarded, PlainQuoted, QuotesOnly, WrappedIff).
