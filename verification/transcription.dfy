/**
 * Turning a recorded audio file into text (transcription.py).
 *
 * Two guards come first: the speech client library must be present, then the
 * audio path must be a regular file. Only then is the recogniser asked, with
 * 16-bit linear PCM and the language `en-US`. The transcript is the top
 * alternative of every result segment, in order, joined with single spaces.
 * The recogniser is a parameter of the model: a function from the request to
 * its reply, where the reply may be a failure.
 */
module Transcription {
  import opened Wrappers
  import opened Paths
  import opened Text

  type Byte = bv8

  datatype AudioEncoding = Linear16

  datatype RecognitionConfig = RecognitionConfig(encoding: AudioEncoding, languageCode: string)

  datatype RecognizeRequest = RecognizeRequest(config: RecognitionConfig, content: seq<Byte>)

  datatype Alternative = Alternative(transcript: string)

  /** One segment of the recogniser's answer, its alternatives best first. */
  datatype SpeechResult = SpeechResult(alternatives: seq<Alternative>)

  datatype RecognizeReply = Recognized(results: seq<SpeechResult>) | RecognitionError

  datatype TranscriptionError =
    | SpeechLibraryMissing      // RuntimeError: google-cloud-speech is not installed
    | AudioNotFound(path: Path) // FileNotFoundError
    | RecognitionFailed         // the service call raised
    | MissingAlternative        // IndexError: a segment with no alternatives

  const RequestConfig: RecognitionConfig := RecognitionConfig(Linear16, "en-US")

  // ---------------------------------------------------------------------------
  // " ".join
  // ---------------------------------------------------------------------------

  /** Python's `" ".join(parts)`. */
  function JoinWithSpaces(parts: seq<string>): string {
    if |parts| == 0 then ""
    else if |parts| == 1 then parts[0]
    else parts[0] + " " + JoinWithSpaces(parts[1..])
  }

  /** Where `parts[i]` starts in the joined text: every earlier part plus one space each. */
  function Offset(parts: seq<string>, i: nat): nat
    requires i <= |parts|
  {
    if i == 0 then 0 else Offset(parts, i - 1) + |parts[i - 1]| + 1
  }

  lemma {:induction false} OffsetOfTail(parts: seq<string>, i: nat)
    requires 1 <= i <= |parts|
    ensures Offset(parts, i) == |parts[0]| + 1 + Offset(parts[1..], i - 1)
  {
    if i > 1 {
      OffsetOfTail(parts, i - 1);
    }
  }

  lemma {:induction false} JoinLength(parts: seq<string>)
    ensures |JoinWithSpaces(parts)| == if |parts| == 0 then 0 else Offset(parts, |parts|) - 1
  {
    if |parts| > 1 {
      JoinLength(parts[1..]);
      OffsetOfTail(parts, |parts|);
    }
  }

  lemma {:induction false} JoinPartAt(parts: seq<string>, i: nat)
    requires i < |parts|
    ensures OccursAt(parts[i], JoinWithSpaces(parts), Offset(parts, i))
  {
    var r := JoinWithSpaces(parts);
    if |parts| == 1 {
      assert r == parts[0] + "";
      OccursAtStart(parts[0], "");
    } else if i == 0 {
      var rt := JoinWithSpaces(parts[1..]);
      assert r == parts[0] + (" " + rt);
      OccursAtStart(parts[0], " " + rt);
    } else {
      var tail := parts[1..];
      JoinPartAt(tail, i - 1);
      OffsetOfTail(parts, i);
      assert parts[i] == tail[i - 1];
      OccursAfterPrefix(tail[i - 1], JoinWithSpaces(tail), Offset(tail, i - 1), parts[0] + " ");
    }
  }

  lemma {:induction false} JoinSpaceBefore(parts: seq<string>, i: nat)
    requires 1 <= i < |parts|
    ensures OccursAt(" ", JoinWithSpaces(parts), Offset(parts, i) - 1)
  {
    var r := JoinWithSpaces(parts);
    var tail := parts[1..];
    var rt := JoinWithSpaces(tail);
    assert r == (parts[0] + " ") + rt;
    OffsetOfTail(parts, i);
    if i == 1 {
      assert r[|parts[0]|..|parts[0]| + 1] == " ";
    } else {
      JoinSpaceBefore(tail, i - 1);
      OccursAfterPrefix(" ", rt, Offset(tail, i - 1) - 1, parts[0] + " ");
    }
  }

  /**
   * The layout of the joined text: each part stands verbatim at its offset,
   * exactly one space stands before every part but the first, and the length
   * leaves room for nothing else.
   */
  lemma JoinLayout(parts: seq<string>)
    ensures |JoinWithSpaces(parts)| == if |parts| == 0 then 0 else Offset(parts, |parts|) - 1
    ensures forall i {:trigger parts[i]} :: 0 <= i < |parts| ==>
      OccursAt(parts[i], JoinWithSpaces(parts), Offset(parts, i))
    ensures forall i {:trigger parts[i]} :: 1 <= i < |parts| ==>
      OccursAt(" " + parts[i], JoinWithSpaces(parts), Offset(parts, i) - 1)
  {
    JoinLength(parts);
    forall i | 0 <= i < |parts| ensures OccursAt(parts[i], JoinWithSpaces(parts), Offset(parts, i)) {
      JoinPartAt(parts, i);
    }
    forall i | 1 <= i < |parts| ensures OccursAt(" " + parts[i], JoinWithSpaces(parts), Offset(parts, i) - 1) {
      JoinPartAt(parts, i);
      JoinSpaceBefore(parts, i);
      SpaceThenPart(parts[i], JoinWithSpaces(parts), Offset(parts, i) - 1);
    }
  }

  lemma SpaceThenPart(part: string, s: string, k: nat)
    requires OccursAt(" ", s, k) && OccursAt(part, s, k + 1)
    ensures OccursAt(" " + part, s, k)
  {
    assert s[k..k + 1 + |part|] == s[k..k + 1] + s[k + 1..k + 1 + |part|];
  }

  // ---------------------------------------------------------------------------
  // The recogniser's answer
  // ---------------------------------------------------------------------------

  predicate HasAlternatives(results: seq<SpeechResult>) {
    forall i :: 0 <= i < |results| ==> |results[i].alternatives| > 0
  }

  /**
   * `result.alternatives[0].transcript for result in response.results`: the top
   * alternative of every segment, in order; a segment without alternatives raises.
   */
  function TopTranscripts(results: seq<SpeechResult>): (r: Result<seq<string>, TranscriptionError>)
    ensures r.Success? <==> HasAlternatives(results)
    ensures r.Success? ==> |r.value| == |results|
    ensures r.Success? ==> forall i :: 0 <= i < |results| ==> r.value[i] == results[i].alternatives[0].transcript
    ensures r.Failure? ==> r.error == MissingAlternative
  {
    if |results| == 0 then Success([])
    else if |results[0].alternatives| == 0 then Failure(MissingAlternative)
    else
      match TopTranscripts(results[1..])
      case Failure(e) => Failure(e)
      case Success(rest) => Success([results[0].alternatives[0].transcript] + rest)
  }

  /** The request sent for the audio bytes: LINEAR16 encoding, language en-US. */
  function RequestFor(content: seq<Byte>): RecognizeRequest {
    RecognizeRequest(RequestConfig, content)
  }

  /** `transcribe_audio`. */
  function TranscribeAudio(
    speechLibrary: bool,
    audioFiles: map<Path, seq<Byte>>,
    path: Path,
    recognize: RecognizeRequest -> RecognizeReply): (r: Result<string, TranscriptionError>)
    ensures r.Success? ==> speechLibrary && path in audioFiles
    ensures r.Success? ==> recognize(RecognizeRequest(RecognitionConfig(Linear16, "en-US"), audioFiles[path])).Recognized?
  {
    if !speechLibrary then Failure(SpeechLibraryMissing)
    else if path !in audioFiles then Failure(AudioNotFound(path))
    else
      match recognize(RequestFor(audioFiles[path]))
      case RecognitionError => Failure(RecognitionFailed)
      case Recognized(results) =>
        match TopTranscripts(results)
        case Failure(e) => Failure(e)
        case Success(tops) => Success(JoinWithSpaces(tops))
  }

  /** Without the speech library the call fails at once, whatever the file or the recogniser. */
  lemma SpeechLibraryCheckedFirst(audioFiles: map<Path, seq<Byte>>, path: Path, recognize: RecognizeRequest -> RecognizeReply)
    ensures TranscribeAudio(false, audioFiles, path, recognize) == Failure(SpeechLibraryMissing)
  {
  }

  /** A missing audio file fails before the recogniser is asked: its answer cannot matter. */
  lemma MissingAudioFailsBeforeRecognition(
    audioFiles: map<Path, seq<Byte>>, path: Path,
    recognize1: RecognizeRequest -> RecognizeReply, recognize2: RecognizeRequest -> RecognizeReply)
    requires path !in audioFiles
    ensures TranscribeAudio(true, audioFiles, path, recognize1) == Failure(AudioNotFound(path))
    ensures TranscribeAudio(true, audioFiles, path, recognize1) == TranscribeAudio(true, audioFiles, path, recognize2)
  {
  }

  /** The top alternatives of segments that all have one. */
  function Tops(results: seq<SpeechResult>): seq<string>
    requires HasAlternatives(results)
  {
    TopTranscripts(results).value
  }

  /**
   * In the text made from segments that all have alternatives, the top
   * alternative of segment `i` stands verbatim at its offset, after one space
   * unless it is the first: segment order is kept and nothing else is mixed in.
   */
  lemma TopAlternativeAt(results: seq<SpeechResult>, i: nat)
    requires HasAlternatives(results) && i < |results|
    ensures |Tops(results)| == |results|
    ensures OccursAt(results[i].alternatives[0].transcript, JoinWithSpaces(Tops(results)), Offset(Tops(results), i))
    ensures i > 0 ==>
      OccursAt(" " + results[i].alternatives[0].transcript, JoinWithSpaces(Tops(results)), Offset(Tops(results), i) - 1)
  {
    var tops := Tops(results);
    assert tops[i] == results[i].alternatives[0].transcript;
    JoinPartAt(tops, i);
    if i > 0 {
      JoinSpaceBefore(tops, i);
      SpaceThenPart(tops[i], JoinWithSpaces(tops), Offset(tops, i) - 1);
    }
  }

  /** That text is exactly as long as the top alternatives and the spaces between them. */
  lemma TopAlternativesLength(results: seq<SpeechResult>)
    requires HasAlternatives(results)
    ensures |JoinWithSpaces(Tops(results))| == if |results| == 0 then 0 else Offset(Tops(results), |results|) - 1
  {
    JoinLength(Tops(results));
  }

  /**
   * A successful transcription asked the recogniser about the file's bytes, got
   * segments that all have alternatives, and returns the text laid out above.
   */
  lemma TranscriptIsTopAlternativesJoined(
    audioFiles: map<Path, seq<Byte>>, path: Path, recognize: RecognizeRequest -> RecognizeReply)
    requires TranscribeAudio(true, audioFiles, path, recognize).Success?
    ensures path in audioFiles
    ensures var reply := recognize(RequestFor(audioFiles[path]));
      && reply.Recognized? && HasAlternatives(reply.results)
      && TranscribeAudio(true, audioFiles, path, recognize).value == JoinWithSpaces(Tops(reply.results))
  {
  }

  /**
   * Conversely, each outcome once the file is found: a recognised reply whose
   * segments all have alternatives gives their top alternatives joined by
   * spaces, a segment without alternatives gives the IndexError, and a
   * recogniser failure propagates.
   */
  lemma TranscribeAudioOutcomes(
    audioFiles: map<Path, seq<Byte>>, path: Path, recognize: RecognizeRequest -> RecognizeReply)
    requires path in audioFiles
    ensures var reply := recognize(RequestFor(audioFiles[path]));
      && (reply.Recognized? && HasAlternatives(reply.results) ==>
            TranscribeAudio(true, audioFiles, path, recognize) == Success(JoinWithSpaces(Tops(reply.results))))
      && (reply.Recognized? && !HasAlternatives(reply.results) ==>
            TranscribeAudio(true, audioFiles, path, recognize) == Failure(MissingAlternative))
      && (reply.RecognitionError? ==>
            TranscribeAudio(true, audioFiles, path, recognize) == Failure(RecognitionFailed))
  {
  }

  /** Only `alternatives[0]` is read: segments that agree on it give the same transcript. */
  lemma OnlyTopAlternativeCounts(a: seq<SpeechResult>, b: seq<SpeechResult>)
    requires |a| == |b|
    requires forall i :: 0 <= i < |a| ==> (|a[i].alternatives| > 0 <==> |b[i].alternatives| > 0)
    requires forall i :: 0 <= i < |a| && |a[i].alternatives| > 0 && |b[i].alternatives| > 0 ==>
      a[i].alternatives[0] == b[i].alternatives[0]
    ensures TopTranscripts(a) == TopTranscripts(b)
  {
    var ra, rb := TopTranscripts(a), TopTranscripts(b);
    if ra.Success? {
      assert ra.value == rb.value;
    }
  }

  /** A reply with no segments transcribes to the empty string. */
  lemma NoSegmentsGiveEmptyText(audioFiles: map<Path, seq<Byte>>, path: Path)
    requires path in audioFiles
    ensures TranscribeAudio(true, audioFiles, path, _ => Recognized([])) == Success("")
  {
  }

  /** The transcription test: one segment whose top alternative is "hello world". */
  lemma HelloWorldTranscript(audioFiles: map<Path, seq<Byte>>, path: Path, others: seq<Alternative>)
    requires path in audioFiles
    ensures TranscribeAudio(true, audioFiles, path,
      _ => Recognized([SpeechResult([Alternative("hello world")] + others)])) == Success("hello world")
  {
    var results := [SpeechResult([Alternative("hello world")] + others)];
    assert TopTranscripts(results).value == ["hello world"];
  }
}
