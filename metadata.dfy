/**
 * The stream metadata record and its extraction from youtube-dl's JSON
 * output (`Metadata::from_ytdl_output`).
 */
module Meta {
  import opened Wrappers

  /** A JSON document as `serde_json::Value` holds it. */
  datatype JsonValue =
    | Null
    | Bool(b: bool)
    | Number(n: real)
    | String(s: string)
    | Array(items: seq<JsonValue>)
    | Object(fields: map<string, JsonValue>)

  /** `Value::as_object`. */
  function AsObject(value: JsonValue): Option<map<string, JsonValue>>
  {
    if value.Object? then Some(value.fields) else None
  }

  /** `Map::get`. */
  function Get(m: map<string, JsonValue>, key: string): Option<JsonValue>
  {
    if key in m then Some(m[key]) else None
  }

  /** `Value::as_str`. */
  function AsStr(value: JsonValue): Option<string>
  {
    if value.String? then Some(value.s) else None
  }

  /** `obj.and_then(|m| m.get(key)).and_then(Value::as_str).map(str::to_string)`. */
  function Lookup(obj: Option<map<string, JsonValue>>, key: string): Option<string>
  {
    match obj
    case None => None
    case Some(m) =>
      match Get(m, key)
      case None => None
      case Some(v) => AsStr(v)
  }

  /** The value under `key` when `value` is an object holding a string there. */
  predicate HasString(value: JsonValue, key: string)
  {
    value.Object? && key in value.fields && value.fields[key].String?
  }

  /** `std::time::Duration`. */
  datatype Duration = Duration(secs: nat, nanos: nat)

  /** `songbird`'s default sample rate, `SAMPLE_RATE`. */
  const SAMPLE_RATE: nat := 48000

  /** The stream metadata record; the float `duration` field is not part of this model. */
  datatype Metadata = Metadata(
    track: Option<string>,
    artist: Option<string>,
    date: Option<string>,
    channels: Option<nat>,
    channel: Option<string>,
    startTime: Option<Duration>,
    sampleRate: Option<nat>,
    sourceUrl: Option<string>,
    title: Option<string>,
    thumbnail: Option<string>)

  /** The record whose every looked-up field is absent: only the fixed constants are set. */
  const CONSTANTS_ONLY: Metadata :=
    Metadata(None, None, None, Some(2), None, None, Some(SAMPLE_RATE), None, None, None)

  /** `Metadata::from_ytdl_output`. */
  function FromYtdlOutput(value: JsonValue): (m: Metadata)
    // fixed fields, whatever the input
    ensures m.channels == Some(2) && m.sampleRate == Some(48000) && m.startTime == None
    // plain copies: present exactly when the key holds a string, and then that string
    ensures m.title.Some? <==> HasString(value, "title")
    ensures m.track.Some? <==> HasString(value, "track")
    ensures m.channel.Some? <==> HasString(value, "channel")
    ensures m.thumbnail.Some? <==> HasString(value, "thumbnail")
    ensures m.sourceUrl.Some? <==> HasString(value, "webpage_url")
    ensures m.title.Some? ==> m.title.value == value.fields["title"].s
    ensures m.track.Some? ==> m.track.value == value.fields["track"].s
    ensures m.channel.Some? ==> m.channel.value == value.fields["channel"].s
    ensures m.thumbnail.Some? ==> m.thumbnail.value == value.fields["thumbnail"].s
    ensures m.sourceUrl.Some? ==> m.sourceUrl.value == value.fields["webpage_url"].s
    // artist falls back to uploader
    ensures m.artist.Some? <==> HasString(value, "artist") || HasString(value, "uploader")
    ensures HasString(value, "artist") ==> m.artist == Some(value.fields["artist"].s)
    ensures !HasString(value, "artist") && HasString(value, "uploader") ==>
              m.artist == Some(value.fields["uploader"].s)
    // date falls back to upload_date
    ensures m.date.Some? <==> HasString(value, "release_date") || HasString(value, "upload_date")
    ensures HasString(value, "release_date") ==> m.date == Some(value.fields["release_date"].s)
    ensures !HasString(value, "release_date") && HasString(value, "upload_date") ==>
              m.date == Some(value.fields["upload_date"].s)
    // a non-object input yields only the constants
    ensures !value.Object? ==> m == CONSTANTS_ONLY
  {
    var obj := AsObject(value);
    var track := Lookup(obj, "track");
    var trueArtist := Lookup(obj, "artist");
    var artist := if trueArtist.Some? then trueArtist else Lookup(obj, "uploader");
    var releaseDate := Lookup(obj, "release_date");
    var date := if releaseDate.Some? then releaseDate else Lookup(obj, "upload_date");
    var channel := Lookup(obj, "channel");
    var sourceUrl := Lookup(obj, "webpage_url");
    var title := Lookup(obj, "title");
    var thumbnail := Lookup(obj, "thumbnail");
    Metadata(
      track := track,
      artist := artist,
      date := date,
      channels := Some(2),
      channel := channel,
      startTime := None,
      sampleRate := Some(SAMPLE_RATE),
      sourceUrl := sourceUrl,
      title := title,
      thumbnail := thumbnail)
  }
}
