# Lilybear journal service: a Dafny model of its core

The service takes a spoken journal entry, transcribes it, attaches a sentiment
label, writes the entry as a dated markdown file and uploads that file to
Google Drive. Most of it is glue between Google services. This model covers
the parts whose behaviour can be stated without those services:

- **Entry rendering and the local save** (`storage.py`). `DailyEntry.to_markdown`
  writes a date heading and four labelled lines (Mindset, Heartset, Energy,
  Intentions). After them come an optional transcript block and an optional
  sentiment block, each shown only when its field is truthy in Python's sense
  (neither `None` nor `""`). `save_entry` creates the entries directory and
  overwrites `<directory>/<date>.md` with that text. Today's date is a
  parameter, rendered the way Python prints a `datetime.date` (`YYYY-MM-DD`).
  The disk is a class holding a map from path to text and a set of directories.
- **Credential acquisition** (`drive.py`, `authenticate`). The token file is
  absent, holds a pickled credential, or cannot be unpickled. A credential is
  reduced to its `valid`, `expired` and refresh-token flags plus opaque token
  material. The decision is stated once on values (`Authenticated`) and once
  as a method on a `TokenStore` class. The method reads and rewrites the token
  file, refreshes the loaded `Credential` object in place, or returns the
  object the interactive flow gives. The refresh call and the flow are
  parameters that either succeed with a result or fail.
- **Upload checks and naming** (`drive.py`, `upload_to_drive`). Two guards come
  first: the client library must be present, then the path must be a regular
  file. The remote object is named after the file's base name. The Drive
  service is a parameter.
- **Transcript assembly** (`transcription.py`). Two guards come first: the
  speech library must be present, then the audio file must exist. The request
  uses LINEAR16 and `en-US`. The result is the top alternative of every
  segment, joined with single spaces in order. The recogniser is a parameter.

Modules: `Wrappers` (Option, Result), `Text` (substring positions), `Dates`,
`Paths`, `Storage`, `Transcription`, `Drive`.

## Model

| member | source | states |
|---|---|---|
| `Dates.IsoFormat` | storage.py:23 | the date's text is `DDDD-DD-DD` (digits with dashes at 4 and 7) and contains no `/` |
| `Dates.ParseOfIsoFormat` | storage.py:23 | reading the date text back gives the same date |
| `Dates.IsoFormatOfParse` | storage.py:44 | every text the parser accepts is exactly the formatter's output for the parsed date |
| `Dates.IsoFormatInjective` | storage.py:44 | different days have different date texts |
| `Paths.Join` | storage.py:44 | `dir / name` has parent `dir` and base name `name` |
| `Paths.Ancestors` | storage.py:43 | the directories `mkdir(parents=True)` ensures exist: the directory itself, every leading part of it, and nothing else |
| `Storage.ToMarkdown` | storage.py:21-38 | the rendering always begins with the heading `# <date>` and a blank line; it is total (never fails) |
| `Storage.HeadingNamesToday` | storage.py:23 | the text opens with `# `, then a date that parses back to today, then `\n\n` |
| `Storage.LabelledLinesInOrder` | storage.py:24-27 | the Mindset, Heartset, Energy and Intentions lines follow the heading back to back in that order, each ending with its field verbatim and unescaped |
| `Storage.BareRendering` | storage.py:22-38 | with neither optional field truthy, the text is exactly the heading plus the four lines |
| `Storage.TranscriptShownIffTruthy` | storage.py:28-32 | the transcript changes the text if and only if it is neither None nor empty |
| `Storage.SentimentShownIffTruthy` | storage.py:33-37 | the sentiment changes the text if and only if it is neither None nor empty |
| `Storage.TranscriptBlockAfterLines` | storage.py:28-32 | a truthy transcript adds exactly `\n**Transcript**:\n<t>\n` right after the four lines |
| `Storage.SentimentBlockLast` | storage.py:33-37 | a truthy sentiment adds exactly `\n**Sentiment**: <s>\n` at the very end, after any transcript block |
| `Storage.EmptyAndNoneRenderAlike` | storage.py:28-37 | an empty string and None render identically for both optional fields |
| `Storage.SampleEntryRendering` | tests/test_storage.py:6-18 | the test's entry renders with `Mindset` after the heading and both optional sections at the end |
| `Storage.EntryFileName` | storage.py:44 | the file name is 13 characters: a date that parses back to today, then `.md`; it has no `/` |
| `Storage.EntryPath` | storage.py:44 | the path is the directory joined with `<today>.md`; it depends on the directory and the date only |
| `Storage.EntryPathsDistinct` | storage.py:44 | two different days never share an entry file |
| `Storage.LocalDisk.SaveEntry` | storage.py:41-46 | returns `<directory>/<today>.md`; the directory and its parents then exist; that file holds exactly the rendering, with the heading date read from the clock a second time; every other file is unchanged |
| `Storage.LocalDisk.SaveTwiceSameDay` | storage.py:44-45 | two saves on one day leave only the second entry's text: overwrite, not append |
| `Transcription.JoinLength` | transcription.py:36-38 | the joined text is as long as the parts plus one space between each pair |
| `Transcription.JoinPartAt` | transcription.py:36-38 | each part stands verbatim at its offset: the lengths of the earlier parts plus one per earlier part |
| `Transcription.JoinSpaceBefore` | transcription.py:36-38 | a single space stands just before every part but the first |
| `Transcription.JoinLayout` | transcription.py:36-38 | the layout of `" ".join`: all parts at their offsets, one space before each later part, nothing else |
| `Transcription.TopTranscripts` | transcription.py:37 | succeeds if and only if every segment has an alternative; the result then has one entry per segment, the segment's first alternative, in order; otherwise the IndexError |
| `Transcription.TopAlternativeAt` | transcription.py:36-38 | in the transcript, segment i's top alternative stands at its offset, preceded by one space unless it is the first |
| `Transcription.TopAlternativesLength` | transcription.py:36-38 | the transcript holds nothing beyond the top alternatives and the separating spaces |
| `Transcription.TranscribeAudio` | transcription.py:16-40 | success needs the library, the file, and a recogniser answer to the LINEAR16 / en-US request for the file's bytes |
| `Transcription.TranscriptIsTopAlternativesJoined` | transcription.py:25-40 | a successful transcript comes from a recognised reply whose segments all have alternatives, and is their top alternatives joined by spaces |
| `Transcription.TranscribeAudioOutcomes` | transcription.py:25-40 | with the file present: a recognised reply whose segments all have alternatives gives their top alternatives joined by spaces; a segment without alternatives gives the IndexError; a recogniser failure propagates |
| `Transcription.SpeechLibraryCheckedFirst` | transcription.py:18-19 | without the speech library the call raises the RuntimeError, whatever the file or the recogniser |
| `Transcription.MissingAudioFailsBeforeRecognition` | transcription.py:21-23 | a missing audio file raises FileNotFoundError and the recogniser's answer cannot affect the result |
| `Transcription.OnlyTopAlternativeCounts` | transcription.py:37 | segments that agree on their first alternative give the same result: later alternatives never appear |
| `Transcription.NoSegmentsGiveEmptyText` | transcription.py:36-38 | a reply with no segments gives the empty string |
| `Transcription.HelloWorldTranscript` | tests/test_transcription.py:33-38 | one segment whose top alternative is "hello world" gives exactly "hello world", whatever the other alternatives |
| `Drive.DecisionCases` | drive.py:37-46 | keep a valid credential; refresh an invalid, expired one with a refresh token; run the flow otherwise. Each case holds exactly when its condition does |
| `Drive.Authenticated` | drive.py:25-52 | an error leaves the token file unchanged; after a success the token file holds the returned credential; the file is rewritten only when the stored credential was not valid |
| `Drive.MissingLibraryRaisesFirst` | drive.py:30-31 | without the client library the call raises, whatever the token file holds, and the file is untouched |
| `Drive.UnreadableTokenRaises` | drive.py:34-36 | a token file that cannot be unpickled raises before any refresh or flow, and the file is not rewritten |
| `Drive.ValidStoredCredentialKept` | drive.py:34-37 | a valid stored credential is returned unchanged, with no refresh and no flow, and the file is not rewritten |
| `Drive.NoTokenRunsFlow` | drive.py:41-48 | with no token file the flow runs; its credential is returned and written; if it raises, the error propagates and nothing is written |
| `Drive.ExpiredCredentialRefreshed` | drive.py:39-40 | an invalid, expired credential with a refresh token is refreshed and written back, or the refresh error propagates with the file unchanged |
| `Drive.UnrefreshableCredentialReplaced` | drive.py:41-46 | an invalid credential that is not expired, or has no refresh token, is replaced by the flow's credential |
| `Drive.SecondCallReusesToken` | drive.py:33-52 | once a call returns a valid credential, a second call returns that same credential from the token file, with no refresh or flow |
| `Drive.Credential.FromState` | drive.py:35-36 | unpickling gives an object holding the stored state |
| `Drive.Credential.Refresh` | drive.py:40 | the same object takes the refreshed state, or stays as it was when the refresh raises |
| `Drive.TokenStore.Authenticate` | drive.py:25-52 | token file and result follow `Authenticated`; on the flow branch the flow's own object is returned; otherwise the freshly loaded object is returned, refreshed in place |
| `Drive.UploadRequest` | drive.py:57-66 | the library is checked first, then whether the path is a regular file; the request names the object with the path's base name and carries the file's contents |
| `Drive.UploadToDrive` | drive.py:55-78 | a returned id is the one the service gave for exactly that request |
| `Drive.UploadReturnsServiceAnswer` | drive.py:64-81 | once both checks pass, a created object's id is returned and a service failure propagates |
| `Drive.UploadChecksPrecedeService` | drive.py:57-62 | a missing library raises the RuntimeError, then a path that is not a regular file raises FileNotFoundError for that path, both before any service call: the service's answer cannot matter |
| `Drive.UploadOfSavedEntry` | drive.py:66 | uploading the file `save_entry` wrote sends an object named `<today>.md` whose body is the rendering that was written |

## Left out

- `app.py`: the HTTP endpoints, temporary-file staging and the orchestration around these calls are framework plumbing. The code has no empty-payload or content-type check, so none is modelled.
- `sentiment.py` is a network call with free-form output, and `lilybear_google_sync.py` is a CLI that posts a file. `config.py` is environment lookups. The paths and the scope list are parameters here.
- The date is passed in instead of read from the clock.
- `Storage.LocalDisk.SaveEntry` takes the two clock reads of `save_entry` (one for the file name, one in `to_markdown` for the heading) as two independent dates, so a save across midnight (file `D.md`, heading `D+1`) is represented; which dates the clock returns is not modelled.
- Local disk failures (permission denied, disk full, a file where a directory should be) are not modelled: the disk always accepts the write. The text encoding used by `write_text` is not modelled either.
- Pickle serialisation is abstracted to the three-way `TokenFile`. A token file holding a falsy object (such as a pickled `None`) behaves like an absent one in the source, but the model does not represent it.
- The real OAuth refresh, the interactive flow (including reading the client-secrets file and the local callback server), the Speech client and the Drive resumable upload are abstract operations that succeed with a result or fail.
- Logging is left out.
- Concurrent writers to the token file or to one day's entry file are out of scope.
- `Paths.Join` appends one component. pathlib's splitting of names that contain `/` is not modelled. The only name joined here is `<date>.md`, and `Storage.EntryFileName` proves it has no `/`.
