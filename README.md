# Audio Bible catalog and prompt loop, modelled in Dafny

This project models the command-line Audio Bible program in `main.py`. The
program scans a folder of `.wav` recordings of Bible verses. It transcribes
each recording through a speech-recognition service and builds a catalog
keyed by verse name. It then reads verse names at a prompt, "plays" each
known verse and saves it as the "last verse" progress marker, until the user
types `exit`.

The model has five modules:

- `Text` (`text.dfy`) covers the Python string operations the program uses:
  `str.endswith`, `str.replace(pattern, "")` and `str.lower`. `RemoveAll`
  models `replace` as Python runs it: one left-to-right pass that deletes
  every non-overlapping occurrence of the pattern. It deletes every
  occurrence, not only a trailing one.
- `Transcription` (`transcription.dfy`) models `audio_to_text`. The
  recogniser's answer is a datatype with three cases: recognised text, an
  `UnknownValueError` or a `RequestError`. Each case is flattened to a plain
  string.
- `Catalog` (`catalog.dfy`) models `organize_bible_data`.
  - `Organize` is the specification. It folds over the listing in order, and
    a later name with the same verse name overwrites the earlier entry.
  - `OrganizeBibleData` is the `for` loop that fills the dictionary. It is
    proved equal to `Organize`.
  - The folder listing is a `seq<string>` input. The recogniser is a function
    parameter of type `string -> Recognition`.
- `Session` (`session.dfy`) models the progress store and `main`.
  - The class `Shell` holds the catalog (a `const`, since nothing changes it
    after start-up) and the persisted progress record. The record is an
    `Option<Option<string>>`: no file, a file without a name, or a file
    naming a verse.
  - `Step` is one pass of the prompt loop. Its contract gives the outcome
    and the new record for each of the three branches.
  - `Run` is the loop over a sequence of typed lines. It is proved against
    the specification functions `UntilExit`, `Plays` and `FinalRecord`.
- `Scenarios` (`scenarios.dfy`) works through the two-verse example folder
  with `Genesis_1_1.wav` and `John_3_16.wav`.

## Model

| member | source | states |
|---|---|---|
| `Text.RemoveAll` | main.py:31 | `replace(".wav", "")` never lengthens a name, and it leaves a name shorter than the pattern as it is; that every occurrence is deleted, for all names, is `Catalog.VerseNameSplit` |
| `Text.EndsWith` | main.py:30 | body: `s.endswith(suffix)`, meaning the last characters of s are exactly the suffix |
| `Text.RemoveAllShrinks` | main.py:31 | if the pattern occurs in a name, deleting it makes the name strictly shorter |
| `Text.RemoveAllUnchangedIff` | main.py:31 | `replace` leaves a name unchanged if and only if the pattern does not occur in it |
| `Text.ExitSpellings` | main.py:86 | `verse_name.lower() == "exit"` holds exactly for the four-letter words e/E, x/X, i/I, t/T, so `exit`, `Exit`, `EXIT` and the other case mixes quit |
| `Text.Lower` | main.py:86 | `s.lower()` keeps the length and lowers each character on its own; A-Z map to a-z and every other character is kept |
| `Text.IsExitCommand` | main.py:86 | body: the quit test `verse_name.lower() == "exit"` |
| `Transcription.AudioToText` | main.py:13-19 | recognised text is returned verbatim; `UnknownValueError` gives exactly "Could not understand audio"; `RequestError` gives exactly "Could not request results"; either failure can be read back from its marker |
| `Transcription.ClassifyRoundTrip` | main.py:13-19 | reading a transcript back by string comparison recovers the outcome if and only if the outcome is not recognised text that spells one of the two markers |
| `Transcription.OutcomesConflated` | main.py:15-19 | the two failure markers differ, but a recognised sentence equal to a marker cannot be told apart from that failure |
| `Catalog.Join` | main.py:32 | the joined path ends with the file name; for a plain folder and a relative name it is folder + "/" + name |
| `Catalog.IsAudio` | main.py:30 | body: a listed name is kept exactly when it ends with ".wav" |
| `Catalog.VerseName` | main.py:31 | body: the verse name is `filename.replace(".wav", "")`, with every occurrence deleted |
| `Catalog.VerseNameSplit` | main.py:31 | for all x and y, the verse name of x + ".wav" + y is the verse name of x followed by the verse name of y, so every ".wav" is deleted wherever it stands |
| `Catalog.Organize` | main.py:28-37 | body: the catalog as a fold over the listing in order; a ".wav" name stores its joined path and transcript under its verse name, overwriting an earlier entry; other names are skipped |
| `Catalog.OrganizeBibleData` | main.py:28-38 | the dictionary filled by the loop over the listing equals the catalog specification `Organize` |
| `Catalog.OrganizeKeys` | main.py:29-34 | a verse name is a catalog key if and only if some listed name ending in ".wav" yields it |
| `Catalog.OrganizeStep` | main.py:29-34 | adding one name to the listing adds at most the verse name of that name as a key |
| `Catalog.OrganizeLastWins` | main.py:31-37 | the entry under a verse name comes from the last listed ".wav" name that yields it: its audio_file is the joined path and its text is the transcript of that path |
| `Catalog.OrganizeSize` | main.py:29-37 | the catalog has at most as many entries as the listing has ".wav" names |
| `Catalog.UpdateSize` | main.py:34 | storing one entry in the dictionary adds at most one key |
| `Catalog.OrganizeEmptyIff` | main.py:28-38 | the catalog is empty if and only if no listed name ends in ".wav"; an empty or newly created folder gives an empty catalog |
| `Catalog.OrganizeKeyedByStem` | main.py:29-37 | for distinct `<stem>.wav` files whose stems hold no ".wav", the keys are exactly the stems, and each stem maps to its own file's entry |
| `Catalog.VerseNameOfStem` | main.py:31 | `(stem + ".wav").replace(".wav", "")` is the stem whenever ".wav" does not occur in the stem |
| `Catalog.NoDotNoWav` | main.py:31 | a stem without a '.' contains no ".wav" |
| `Catalog.VerseNameDoubleExtension` | main.py:31 | "a.wav.wav" gives the verse name "a" |
| `Catalog.VerseNameInnerExtension` | main.py:31 | "x.wavy.wav" gives the verse name "xy" |
| `Catalog.VerseNameSinglePass` | main.py:31 | ".w.wavav.wav" gives ".wav": deletion is a single pass, so a verse name can still contain ".wav" |
| `Scenarios.OrganizeTwoVerses` | main.py:22-38 | `Genesis_1_1.wav` and `John_3_16.wav`, transcribed "In the beginning" and "For God so loved the world", give exactly the two entries `Genesis_1_1` and `John_3_16` with those paths and texts |
| `Scenarios.TwoVersesEntries` | main.py:30-37 | each of the two example names is kept under its stem, with the joined path and its transcript |
| `Scenarios.StemEntry` | main.py:30-37 | a plain `<stem>.wav` name in a folder not ending in "/" is kept under its stem with path folder + "/" + name |
| `Scenarios.GenesisName` | main.py:31 | `Genesis_1_1.wav` is the dot-free stem `Genesis_1_1` plus ".wav" |
| `Scenarios.JohnName` | main.py:31 | `John_3_16.wav` is the dot-free stem `John_3_16` plus ".wav" |
| `Session.LoadFrom` | main.py:59-64 | `load_progress` returns a verse if and only if the file exists and names one under "last_verse", and the verse it returns is the one in the file; a missing file or a missing name gives None |
| `Session.ResumeFrom` | main.py:77-79 | the resume message names the loaded marker if and only if it is present and non-empty, so an empty name counts as no progress |
| `Session.UntilExit` | main.py:84-87 | the loop processes exactly the lines before the first line whose lower case is "exit"; none of them is an exit line |
| `Session.Plays` | main.py:88-95 | every verse played is a catalog key and one of the typed lines |
| `Session.UntilExitAt` | main.py:84-87 | if no exit line comes before position i and line i is an exit line (or the lines end there), the loop processes exactly the first i lines |
| `Session.FinalRecord` | main.py:88-93 | body: the record after the loop names the last verse played, or is the old record if none was played |
| `Session.PlaysNoneIff` | main.py:88-95 | nothing is played if and only if none of the processed lines is a catalog key |
| `Session.PlaysLast` | main.py:88-93 | the last verse played is the last processed line that is a catalog key |
| `Session.ExitKeyNeverPlayed` | main.py:86-88 | a catalog key spelled "exit" in any case is never played |
| `Session.UnknownInputsKeepRecord` | main.py:94-95 | a session of unknown verse names leaves the progress record as it was |
| `Session.PlayThenExit` | main.py:84-93 | typing a known verse and then "exit" leaves that verse as the saved marker, and loading the record gives it back |
| `Session.Shell.constructor` | main.py:67-77 | start-up builds the catalog with `organize_bible_data` and keeps the progress record found on disk |
| `Session.Shell.SaveProgress` | main.py:55-57 | `save_progress(v)` overwrites the record, and `load_progress()` then returns v |
| `Session.Shell.LoadProgress` | main.py:59-64 | body: `load_progress()` reads the shell's current record through `LoadFrom` |
| `Session.Shell.ResumeVerse` | main.py:77-79 | body: the verse named in the start-up resume message is the loaded marker, when it is truthy |
| `Session.Shell.Step` | main.py:85-95 | an exit line quits and changes nothing; a known verse is played and becomes the marker; an unknown verse gives "not found" and changes nothing |
| `Session.Shell.Run` | main.py:84-95 | the loop plays exactly the known verses typed before the first exit line, in order; it reports whether an exit line came; the record afterwards is the last verse played, or the old record if none was played |

## Left out

- The recognition call `recognize_google` (main.py:14) is a remote service call. It is the function parameter `transcribe`, which gives one of the three outcomes.
- Decode failures are not modelled. `sr.AudioFile` and `recognizer.record` (main.py:11-12) decode the local file outside the `try`. A `.wav` name that cannot be decoded raises there: a corrupt or non-PCM file, or a directory named `x.wav`. The exception is not caught in `organize_bible_data` or `main`, so the whole scan aborts and no catalog is built. The model assumes every listed `.wav` name is readable audio, so `Organize`, `OrganizeBibleData` and the lemmas about them describe only listings of that kind.
- `text_to_speech` (main.py:41-44) is a thin wrapper over the remote gTTS service. It has no logic of its own and is not called by `main`.
- `play_audio` (main.py:47-52) does audio output and waits with `time.sleep`. In `Step`, playing is a step with no effect on the model's state, taken before the marker is saved.
- Creating the folder (main.py:24-26) and listing it (main.py:29) are filesystem effects. The listing is an input sequence. A newly created folder lists as empty, and `OrganizeEmptyIff` covers that case.
- Writing `bible_data.json` (main.py:72-73) and the JSON details of the progress file (encoding, `indent`, `ensure_ascii`) are serialisation. The progress file is the abstract record `Option<Option<string>>`.
- A progress file whose "last_verse" holds a number, a list or a boolean is returned by `load_progress` unchanged, and the start-up message prints it when it is truthy. The record type holds only a verse name or nothing, so it cannot express such a file.
- A progress file that is not valid JSON, or whose top-level value is not an object, makes `load_progress` raise, because it catches only `FileNotFoundError`. The record type cannot express such a file either.
- All `print` and `input` console I/O is left out. The typed lines are an input sequence. When they run out, `Run` stops; the program would raise `EOFError` there.
- Python dictionaries keep insertion order, which shows up in the printed list of verse names (main.py:82). Dafny maps are unordered, so the model says which entries exist but not their order.
- Text.Lower: lowers ASCII letters only, while Python's `str.lower` also lowers other Unicode letters. The `== "exit"` test is unaffected, because no character other than E, X, I and T lowers to e, x, i or t.
- Catalog.Join: models POSIX `os.path.join` for two parts only.
