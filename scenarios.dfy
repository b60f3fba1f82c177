/** Worked examples of the indexer and the shell on a two-verse folder. */
module Scenarios {
  import opened Text
  import opened Transcription
  import opened Catalog

  /** A folder holding `Genesis_1_1.wav` and `John_3_16.wav`, transcribed as
      "In the beginning" and "For God so loved the world", gives the two
      entries keyed `Genesis_1_1` and `John_3_16`. */
  lemma OrganizeTwoVerses(folder: string, listing: seq<string>, transcribe: string -> Recognition)
    requires folder != [] && folder[|folder| - 1] != '/'
    requires listing == ["Genesis_1_1.wav", "John_3_16.wav"]
    requires transcribe(folder + "/" + listing[0]) == Recognized("In the beginning")
    requires transcribe(folder + "/" + listing[1]) == Recognized("For God so loved the world")
    ensures Organize(folder, listing, transcribe) ==
      map["Genesis_1_1" := Entry(folder + "/" + listing[0], "In the beginning"),
          "John_3_16" := Entry(folder + "/" + listing[1], "For God so loved the world")]
  {
    TwoVersesEntries(folder, listing, transcribe);
    var e0 := Entry(folder + "/" + listing[0], "In the beginning");
    var e1 := Entry(folder + "/" + listing[1], "For God so loved the world");
    var first := [listing[0]];
    assert first[..0] == [];
    assert Organize(folder, first, transcribe) == map["Genesis_1_1" := e0];
    assert listing[..1] == first;
    assert Organize(folder, listing, transcribe) == map["Genesis_1_1" := e0]["John_3_16" := e1];
  }

  /** The two names of the example are kept under their stems. */
  lemma TwoVersesEntries(folder: string, listing: seq<string>, transcribe: string -> Recognition)
    requires folder != [] && folder[|folder| - 1] != '/'
    requires listing == ["Genesis_1_1.wav", "John_3_16.wav"]
    requires transcribe(folder + "/" + listing[0]) == Recognized("In the beginning")
    requires transcribe(folder + "/" + listing[1]) == Recognized("For God so loved the world")
    ensures IsAudio(listing[0]) && VerseName(listing[0]) == "Genesis_1_1"
    ensures IsAudio(listing[1]) && VerseName(listing[1]) == "John_3_16"
    ensures EntryFor(folder, listing[0], transcribe) == Entry(folder + "/" + listing[0], "In the beginning")
    ensures EntryFor(folder, listing[1], transcribe) == Entry(folder + "/" + listing[1], "For God so loved the world")
  {
    GenesisName();
    StemEntry(folder, listing[0], "Genesis_1_1", transcribe);
    JohnName();
    StemEntry(folder, listing[1], "John_3_16", transcribe);
  }

  /** `Genesis_1_1.wav` is the plain stem `Genesis_1_1` with the extension. */
  lemma GenesisName()
    ensures "Genesis_1_1.wav" == "Genesis_1_1" + Wav && '.' !in "Genesis_1_1"
  {
  }

  /** `John_3_16.wav` is the plain stem `John_3_16` with the extension. */
  lemma JohnName()
    ensures "John_3_16.wav" == "John_3_16" + Wav && '.' !in "John_3_16"
  {
  }

  /** A plain `<stem>.wav` name in a plain folder is kept under its stem,
      with the path `<folder>/<stem>.wav`. */
  lemma StemEntry(folder: string, filename: string, stem: string, transcribe: string -> Recognition)
    requires folder != [] && folder[|folder| - 1] != '/'
    requires stem != [] && stem[0] != '/' && '.' !in stem && filename == stem + Wav
    ensures IsAudio(filename) && VerseName(filename) == stem
    ensures EntryFor(folder, filename, transcribe) ==
      Entry(folder + "/" + filename, AudioToText(transcribe(folder + "/" + filename)))
  {
    NoDotNoWav(stem);
    VerseNameOfStem(stem);
    assert filename[|filename| - |Wav|..] == Wav;
  }
}
