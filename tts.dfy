/** Speech synthesis with provider fallback (functions.py `tts_synthesize`,
    `_edge_tts_bytes_async`, `_mp3_to_wav_bytes`): try Edge-TTS when it is
    allowed and a voice resolves, reject its output when it is shorter than
    1024 bytes, fall back to gTTS, and optionally convert the MP3 to WAV,
    keeping the MP3 when the conversion gives nothing.

    The providers are outside the model: the Edge-TTS stream, gTTS and the
    ffmpeg subprocess are function-valued fields of `Providers`, so a call
    with the same arguments always gives the same result. */
module Tts {
  import opened Text
  import Constants

  /** Edge output shorter than this is treated as silent or failed. */
  const MinEdgeBytes: nat := 1024

  /** The size of a WAV header; converter output must be longer than this. */
  const WavHeaderSize: nat := 44

  /** The WAV format `tts_synthesize` asks the converter for. */
  const WavSampleRate: int := 16000
  const WavChannels: int := 1

  const MimeMpeg: string := "audio/mpeg"
  const MimeWav: string := "audio/wav"

  // ---------------------------------------------------------------------
  // Edge-TTS stream accumulation (`_edge_tts_bytes_async`)
  // ---------------------------------------------------------------------

  /** `chunk.get("data", b"")`: bytes (or a bytearray), absent (read as
      `b""`), or some other value. */
  datatype ChunkData = BytesData(b: Bytes) | NoData | OtherData

  /** A streamed chunk: a dict with its "type" (when that is a string) and
      its data, or something that is not a dict. */
  datatype Chunk = DictChunk(kind: Option<string>, data: ChunkData) | NonDictChunk

  /** What one chunk writes to the buffer: the data of an "audio" dict chunk
      whose data is bytes; nothing for any other chunk. */
  function ChunkAudio(c: Chunk): (r: Bytes)
    ensures r != [] ==> c.DictChunk? && c.kind == Some("audio") && c.data.BytesData? && r == c.data.b
  {
    if c.DictChunk? && c.kind == Some("audio") && c.data.BytesData? then c.data.b else []
  }

  /** The buffer contents after the stream: every chunk's audio, in stream
      order, so the buffer is at least as long as the last chunk's audio. */
  function AudioOf(chunks: seq<Chunk>): (r: Bytes)
    ensures chunks != [] ==> |ChunkAudio(chunks[|chunks| - 1])| <= |r|
    decreases |chunks|
  {
    if chunks == [] then [] else AudioOf(chunks[..|chunks| - 1]) + ChunkAudio(chunks[|chunks| - 1])
  }

  /** The loop over `communicate.stream()` that writes audio data into a
      `BytesIO` buffer and returns its value. */
  method EdgeAudioBytes(chunks: seq<Chunk>) returns (out: Bytes)
    ensures out == AudioOf(chunks)
  {
    out := [];
    for i := 0 to |chunks|
      invariant out == AudioOf(chunks[..i])
    {
      assert AudioOf(chunks[..i + 1]) == AudioOf(chunks[..i]) + ChunkAudio(chunks[i]) by {
        assert chunks[..i + 1][..i] == chunks[..i];
      }
      var chunk := chunks[i];
      if chunk.DictChunk? && chunk.kind == Some("audio") {
        match chunk.data {
          case BytesData(b) => out := out + b;
          case NoData => out := out + [];
          case OtherData =>
        }
      }
    }
    assert chunks[..|chunks|] == chunks;
  }

  /** The audio of a stream is the audio of its first part followed by the
      audio of the rest: stream order is kept. */
  lemma {:induction false} AudioOfAppend(a: seq<Chunk>, b: seq<Chunk>)
    ensures AudioOf(a + b) == AudioOf(a) + AudioOf(b)
    decreases |b|
  {
    if b == [] {
      assert a + b == a;
    } else {
      var init, last := b[..|b| - 1], b[|b| - 1];
      assert (a + b)[..|a + b| - 1] == a + init;
      assert (a + b)[|a + b| - 1] == last;
      AudioOfAppend(a, init);
      calc {
        AudioOf(a + b);
        AudioOf(a + init) + ChunkAudio(last);
        (AudioOf(a) + AudioOf(init)) + ChunkAudio(last);
        AudioOf(a) + (AudioOf(init) + ChunkAudio(last));
        AudioOf(a) + AudioOf(b);
      }
    }
  }

  /** A chunk that is not an "audio" dict with bytes data adds nothing: the
      stream's audio is the same without it. */
  lemma NonAudioChunkIgnored(a: seq<Chunk>, c: Chunk, b: seq<Chunk>)
    requires !(c.DictChunk? && c.kind == Some("audio") && c.data.BytesData?)
    ensures AudioOf(a + [c] + b) == AudioOf(a + b)
  {
    assert AudioOf([c]) == [] by {
      assert [c][..0] == [];
    }
    AudioOfAppend(a + [c], b);
    AudioOfAppend(a, [c]);
    AudioOfAppend(a, b);
    assert AudioOf(a + [c]) == AudioOf(a);
  }

  // ---------------------------------------------------------------------
  // The rate string (`f"{rate_pct:+d}%"`)
  // ---------------------------------------------------------------------

  /** A signed percentage with an explicit sign: "+0%", "+25%", "-10%". */
  function RateString(pct: int): (r: string)
    ensures |r| >= 3 && r[0] == (if pct >= 0 then '+' else '-') && r[|r| - 1] == '%'
  {
    (if pct >= 0 then "+" else "-") + Decimal(if pct >= 0 then pct else -pct) + "%"
  }

  /** Reads a rate string back: a sign, decimal digits and "%". */
  function ParseRate(s: string): Option<int> {
    if |s| < 3 || s[|s| - 1] != '%' || (s[0] != '+' && s[0] != '-') then None
    else
      match ParseDecimal(s[1..|s| - 1])
      case None => None
      case Some(n) =>
        var m: int := n;
        Some(if s[0] == '+' then m else -m)
  }

  /** The rate string reads back as the percentage it was made from. */
  lemma RateStringRoundTrip(pct: int)
    ensures ParseRate(RateString(pct)) == Some(pct)
  {
    var n := if pct >= 0 then pct else -pct;
    var s := RateString(pct);
    DecimalRoundTrip(n);
    assert s[1..|s| - 1] == Decimal(n);
  }

  // ---------------------------------------------------------------------
  // MP3 to WAV conversion (`_mp3_to_wav_bytes`)
  // ---------------------------------------------------------------------

  /** How the ffmpeg subprocess ended: with a return code and its standard
      output, or with an exception. */
  datatype ConverterRun = Completed(returnCode: int, stdout: Bytes) | Raised

  /** Edge-TTS stream result: the chunks, or an exception. */
  datatype EdgeRun = Streamed(chunks: seq<Chunk>) | EdgeRaised

  /** The outside world `tts_synthesize` depends on. */
  datatype Providers = Providers(
    hasEdgeTts: bool,                               // `_HAS_EDGE_TTS`
    edgeStream: (string, string, string) -> EdgeRun, // text, voice, rate string
    gtts: (string, string) -> Option<Bytes>,          // text, gTTS language; None: it raised
    ffmpegPath: Option<string>,                       // `_FFMPEG_PATH`
    ffmpeg: (Bytes, int, int) -> ConverterRun)        // mp3, sample rate, channels

  /** `_mp3_to_wav_bytes`: no converter (no path, or an empty one) gives
      None; otherwise the converter's output is accepted only when it exited
      with 0 and produced more than a WAV header. */
  function Mp3ToWav(mp3: Bytes, sampleRate: int, channels: int, p: Providers): (r: Option<Bytes>)
    ensures r.Some? <==> (p.ffmpegPath.Some? && p.ffmpegPath.value != ""
      && p.ffmpeg(mp3, sampleRate, channels).Completed?
      && p.ffmpeg(mp3, sampleRate, channels).returnCode == 0
      && |p.ffmpeg(mp3, sampleRate, channels).stdout| > WavHeaderSize)
    ensures r.Some? ==> r.value == p.ffmpeg(mp3, sampleRate, channels).stdout && |r.value| > 0
  {
    if p.ffmpegPath.None? || p.ffmpegPath.value == "" then None
    else
      match p.ffmpeg(mp3, sampleRate, channels)
      case Raised => None
      case Completed(code, out) => if code == 0 && |out| > WavHeaderSize then Some(out) else None
  }

  // ---------------------------------------------------------------------
  // The fallback chain (`tts_synthesize`)
  // ---------------------------------------------------------------------

  /** `edge_voice or (voices[0] if voices else None)`, kept only when it is a
      non-empty string. */
  function ResolveVoice(edgeVoice: Option<string>, code: string): (v: Option<string>)
    ensures v.Some? ==> v.value != ""
    ensures edgeVoice.Some? && edgeVoice.value != "" ==> v == edgeVoice
  {
    var voices := Constants.LangConfFor(code).edgeVoices;
    var voice :=
      if edgeVoice.Some? && edgeVoice.value != "" then edgeVoice
      else if |voices| > 0 then Some(voices[0])
      else None;
    if voice.Some? && voice.value != "" then voice else None
  }

  /** Every language, known or not, has a default Edge voice: without an
      explicit voice the first voice of the language's entry is used, and an
      unknown code gets the Korean voice. */
  lemma VoiceAlwaysResolves(edgeVoice: Option<string>, code: string)
    ensures ResolveVoice(edgeVoice, code).Some?
    ensures edgeVoice.None? || edgeVoice.value == "" ==>
      ResolveVoice(edgeVoice, code) == Some(Constants.LangConfFor(code).edgeVoices[0])
    ensures (edgeVoice.None? || edgeVoice.value == "") && code !in Constants.Langs ==> ResolveVoice(edgeVoice, code) == Some("ko-KR-SunHiNeural")
  {
  }

  /** Whether Edge-TTS is tried at all. */
  predicate EdgeAttempted(preferEdge: bool, edgeVoice: Option<string>, forceGtts: bool, code: string, p: Providers) {
    !forceGtts && preferEdge && p.hasEdgeTts && ResolveVoice(edgeVoice, code).Some?
  }

  /** The Edge bytes the chain would keep, if any: none when Edge is not
      tried, when it raises, or when its output is shorter than 1024 bytes. */
  function AcceptedEdge(text: string, code: string, ratePct: int, preferEdge: bool,
                        edgeVoice: Option<string>, forceGtts: bool, p: Providers): (r: Option<Bytes>)
    ensures r.Some? ==> EdgeAttempted(preferEdge, edgeVoice, forceGtts, code, p) && |r.value| >= MinEdgeBytes
  {
    if !EdgeAttempted(preferEdge, edgeVoice, forceGtts, code, p) then None
    else
      match p.edgeStream(text, ResolveVoice(edgeVoice, code).value, RateString(ratePct))
      case EdgeRaised => None
      case Streamed(chunks) =>
        var b := AudioOf(chunks);
        if |b| > 0 && |b| >= MinEdgeBytes then Some(b) else None
  }

  /** gTTS for the same text, in the language's gTTS code. */
  function GttsAudio(text: string, code: string, p: Providers): Option<Bytes> {
    p.gtts(text, Constants.LangConfFor(code).tts)
  }

  /** The result of a synthesis: audio bytes and their MIME type, or the
      gTTS exception reaching the caller. */
  datatype Synthesis = Synthesized(audio: Bytes, mime: string) | GttsFailed

  /** What `tts_synthesize` returns, as a function of its inputs. */
  function Synthesize(text: string, code: string, ratePct: int, preferEdge: bool,
                      edgeVoice: Option<string>, forceWav: bool, forceGtts: bool, p: Providers): (r: Synthesis)
    ensures r.GttsFailed? <==>
      AcceptedEdge(text, code, ratePct, preferEdge, edgeVoice, forceGtts, p).None? && GttsAudio(text, code, p).None?
    ensures r.Synthesized? ==> (r.mime == MimeWav && forceWav) || r.mime == MimeMpeg
  {
    var edge := AcceptedEdge(text, code, ratePct, preferEdge, edgeVoice, forceGtts, p);
    var mp3 := if edge.Some? then edge else GttsAudio(text, code, p);
    if mp3.None? then GttsFailed
    else
      var wav := if forceWav then Mp3ToWav(mp3.value, WavSampleRate, WavChannels, p) else None;
      if wav.Some? && |wav.value| > 0 then Synthesized(wav.value, MimeWav)
      else Synthesized(mp3.value, MimeMpeg)
  }

  /** `tts_synthesize`: `audio_mp3` starts empty, may take the Edge output,
      is filled from gTTS when still empty, and is finally returned as it is
      or replaced by its WAV conversion. */
  method TtsSynthesize(text: string, code: string, ratePct: int, preferEdge: bool,
                       edgeVoice: Option<string>, forceWav: bool, forceGtts: bool, p: Providers)
    returns (r: Synthesis)
    ensures r == Synthesize(text, code, ratePct, preferEdge, edgeVoice, forceWav, forceGtts, p)
  {
    var audioMp3: Option<Bytes> := None;
    if !forceGtts && preferEdge && p.hasEdgeTts {
      var voice := ResolveVoice(edgeVoice, code);
      if voice.Some? {
        var run := p.edgeStream(text, voice.value, RateString(ratePct));
        match run {
          case Streamed(chunks) =>
            var b := EdgeAudioBytes(chunks);
            if |b| > 0 && |b| >= MinEdgeBytes {
              audioMp3 := Some(b);
            }
          case EdgeRaised =>
            audioMp3 := None;
        }
      }
    }
    if audioMp3.None? {
      audioMp3 := p.gtts(text, Constants.LangConfFor(code).tts);
      if audioMp3.None? {
        return GttsFailed;
      }
    }
    if forceWav {
      var wav := Mp3ToWav(audioMp3.value, WavSampleRate, WavChannels, p);
      if wav.Some? && |wav.value| > 0 {
        return Synthesized(wav.value, MimeWav);
      }
    }
    return Synthesized(audioMp3.value, MimeMpeg);
  }

  /** The Edge output is kept exactly when Edge was tried, streamed without
      raising and produced at least 1024 bytes; in every other case the MP3
      is gTTS's output for the same text and language. */
  lemma Mp3Source(text: string, code: string, ratePct: int, preferEdge: bool,
                  edgeVoice: Option<string>, forceGtts: bool, p: Providers)
    ensures var edge := AcceptedEdge(text, code, ratePct, preferEdge, edgeVoice, forceGtts, p);
      edge.Some? <==>
        EdgeAttempted(preferEdge, edgeVoice, forceGtts, code, p)
        && p.edgeStream(text, ResolveVoice(edgeVoice, code).value, RateString(ratePct)).Streamed?
        && |AudioOf(p.edgeStream(text, ResolveVoice(edgeVoice, code).value, RateString(ratePct)).chunks)| >= MinEdgeBytes
    ensures var edge := AcceptedEdge(text, code, ratePct, preferEdge, edgeVoice, forceGtts, p);
      edge.Some? ==> edge.value == AudioOf(p.edgeStream(text, ResolveVoice(edgeVoice, code).value, RateString(ratePct)).chunks)
  {
  }

  /** The result is WAV only when WAV was asked for and the converter
      accepted the MP3; otherwise it is the MP3 itself, unchanged. */
  lemma ResultFormat(text: string, code: string, ratePct: int, preferEdge: bool,
                     edgeVoice: Option<string>, forceWav: bool, forceGtts: bool, p: Providers)
    ensures var r := Synthesize(text, code, ratePct, preferEdge, edgeVoice, forceWav, forceGtts, p);
      var edge := AcceptedEdge(text, code, ratePct, preferEdge, edgeVoice, forceGtts, p);
      var mp3 := if edge.Some? then edge else GttsAudio(text, code, p);
      (r.GttsFailed? <==> mp3.None?)
      && (r.Synthesized? ==>
            (r.mime == MimeWav <==> forceWav && Mp3ToWav(mp3.value, WavSampleRate, WavChannels, p).Some?)
            && (r.mime == MimeWav ==> r.audio == Mp3ToWav(mp3.value, WavSampleRate, WavChannels, p).value)
            && (r.mime != MimeWav ==> r.mime == MimeMpeg && r.audio == mp3.value))
  {
  }

  /** Edge returning nothing at all: the result is gTTS's audio, whatever
      it is. */
  lemma EmptyEdgeFallsBack(text: string, code: string, ratePct: int, edgeVoice: Option<string>,
                           p: Providers, g: Bytes)
    requires p.hasEdgeTts
    requires forall v, rate :: p.edgeStream(text, v, rate) == Streamed([])
    requires GttsAudio(text, code, p) == Some(g)
    ensures Synthesize(text, code, ratePct, true, edgeVoice, false, false, p) == Synthesized(g, MimeMpeg)
  {
    VoiceAlwaysResolves(edgeVoice, code);
  }

  /** Edge returning 2000 bytes of audio: those bytes come back unchanged. */
  lemma LargeEdgeKept(text: string, code: string, ratePct: int, edgeVoice: Option<string>,
                      p: Providers, audio: Bytes)
    requires p.hasEdgeTts && |audio| == 2000
    requires forall v, rate :: p.edgeStream(text, v, rate) == Streamed([DictChunk(Some("audio"), BytesData(audio))])
    ensures Synthesize(text, code, ratePct, true, edgeVoice, false, false, p) == Synthesized(audio, MimeMpeg)
  {
    VoiceAlwaysResolves(edgeVoice, code);
    var chunks := [DictChunk(Some("audio"), BytesData(audio))];
    assert chunks[..0] == [];
    assert AudioOf(chunks) == audio;
  }

  /** WAV requested but no converter available: the MP3 comes back with its
      own MIME type. */
  lemma NoConverterKeepsMp3(text: string, code: string, ratePct: int, preferEdge: bool,
                            edgeVoice: Option<string>, forceGtts: bool, p: Providers)
    requires p.ffmpegPath.None?
    ensures var r := Synthesize(text, code, ratePct, preferEdge, edgeVoice, true, forceGtts, p);
      r == Synthesize(text, code, ratePct, preferEdge, edgeVoice, false, forceGtts, p)
      && (r.Synthesized? ==> r.mime == MimeMpeg)
  {
  }

  /** With `force_gtts` set, Edge-TTS is never consulted and the rate has no
      effect: the result is the same whatever Edge would have streamed and
      whatever rate was asked for. */
  lemma ForceGttsIgnoresEdge(text: string, code: string, rate1: int, rate2: int, preferEdge: bool,
                             edgeVoice: Option<string>, forceWav: bool, p: Providers,
                             otherStream: (string, string, string) -> EdgeRun)
    ensures Synthesize(text, code, rate1, preferEdge, edgeVoice, forceWav, true, p)
         == Synthesize(text, code, rate2, preferEdge, edgeVoice, forceWav, true, p.(edgeStream := otherStream))
  {
  }

  /** The rate only reaches Edge-TTS: when Edge is not tried, or when its
      output is rejected under either rate, the result does not depend on
      the rate. */
  lemma RateOnlyAffectsEdge(text: string, code: string, rate1: int, rate2: int, preferEdge: bool,
                            edgeVoice: Option<string>, forceWav: bool, forceGtts: bool, p: Providers)
    requires AcceptedEdge(text, code, rate1, preferEdge, edgeVoice, forceGtts, p).None?
    requires AcceptedEdge(text, code, rate2, preferEdge, edgeVoice, forceGtts, p).None?
    ensures Synthesize(text, code, rate1, preferEdge, edgeVoice, forceWav, forceGtts, p)
         == Synthesize(text, code, rate2, preferEdge, edgeVoice, forceWav, forceGtts, p)
  {
  }
}
