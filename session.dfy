/** The command-line shell `main`: it builds the catalog, reports the saved
    progress marker, then reads verse names until "exit", playing each known
    verse and saving it as the new marker. */
module Session {
  import opened Wrappers
  import opened Text
  import opened Transcription
  import opened Catalog

  /** What one line typed at the prompt leads to. */
  datatype Outcome = Quit | Played(verse: string, entry: Entry) | NotFound(verse: string)

  /** `load_progress` on a persisted record: `None` (no progress file),
      `Some(None)` (a file whose "last_verse" is missing or null) or
      `Some(Some(v))` (a file naming verse `v`). */
  function LoadFrom(record: Option<Option<string>>): (last: Option<string>)
    ensures last.Some? <==> record.Some? && record.value.Some?
    ensures last.Some? ==> record == Some(Some(last.value))
  {
    match record
    case None => None
    case Some(lastVerse) => lastVerse
  }

  /** The verse named in the start-up "Resuming from" message, if one is
      shown: only a truthy marker is reported, so an empty name counts as no
      progress. */
  function ResumeFrom(last: Option<string>): (verse: Option<string>)
    ensures verse.Some? <==> last.Some? && |last.value| > 0
    ensures verse.Some? ==> verse == last
  {
    if last.Some? && last.value != "" then last else None
  }

  /** The lines the prompt loop reads before it stops: everything up to, and
      not including, the first line whose lower-case form is "exit". */
  function UntilExit(inputs: seq<string>): (typed: seq<string>)
    ensures |typed| <= |inputs| && typed == inputs[..|typed|]
    ensures forall j :: 0 <= j < |typed| ==> !IsExitCommand(typed[j])
    ensures |typed| < |inputs| ==> IsExitCommand(inputs[|typed|])
    decreases |inputs|
  {
    if inputs == [] || IsExitCommand(inputs[0]) then []
    else [inputs[0]] + UntilExit(inputs[1..])
  }

  /** The verses played for the typed lines, in order: the lines that are
      catalog keys; every other line only gets a "not found" message. */
  function Plays(catalog: map<string, Entry>, typed: seq<string>): (played: seq<string>)
    ensures |played| <= |typed|
    ensures forall j :: 0 <= j < |played| ==> played[j] in catalog && played[j] in typed
    decreases |typed|
  {
    if typed == [] then []
    else
      var line := typed[|typed| - 1];
      Plays(catalog, typed[..|typed| - 1]) + (if line in catalog then [line] else [])
  }

  /** The progress record after the given verses were played: the last one
      played, or the record as it was when nothing was played. */
  function FinalRecord(record: Option<Option<string>>, played: seq<string>): Option<Option<string>> {
    if played == [] then record else Some(Some(played[|played| - 1]))
  }

  /** The prompt loop stops exactly at the first "exit" line: whatever came
      before it, and nothing after it, is processed. */
  lemma UntilExitAt(inputs: seq<string>, i: nat)
    requires i <= |inputs|
    requires forall j :: 0 <= j < i ==> !IsExitCommand(inputs[j])
    requires i < |inputs| ==> IsExitCommand(inputs[i])
    ensures UntilExit(inputs) == inputs[..i]
  {
  }

  /** Nothing is played, and so the marker is never written, exactly when
      none of the typed lines is a catalog key. */
  lemma {:induction false} PlaysNoneIff(catalog: map<string, Entry>, typed: seq<string>)
    ensures Plays(catalog, typed) == [] <==> forall j :: 0 <= j < |typed| ==> typed[j] !in catalog
    decreases |typed|
  {
    if typed != [] {
      var init := typed[..|typed| - 1];
      PlaysNoneIff(catalog, init);
      assert forall j :: 0 <= j < |init| ==> init[j] == typed[j];
    }
  }

  /** The verse played last is the last typed line that is a catalog key. */
  lemma {:induction false} PlaysLast(catalog: map<string, Entry>, typed: seq<string>, i: nat)
    requires i < |typed| && typed[i] in catalog
    requires forall j :: i < j < |typed| ==> typed[j] !in catalog
    ensures Plays(catalog, typed) != []
    ensures Plays(catalog, typed)[|Plays(catalog, typed)| - 1] == typed[i]
    decreases |typed|
  {
    if i < |typed| - 1 {
      var init := typed[..|typed| - 1];
      forall j | i < j < |init|
        ensures init[j] !in catalog
      {
        assert init[j] == typed[j];
      }
      PlaysLast(catalog, init, i);
    }
  }

  /** A catalog key spelled "exit" in any case can never be played. */
  lemma ExitKeyNeverPlayed(catalog: map<string, Entry>, inputs: seq<string>, k: string)
    requires IsExitCommand(k)
    ensures k !in Plays(catalog, UntilExit(inputs))
  {
  }

  /** A session in which only unknown verses are typed leaves the progress
      record as it was. */
  lemma UnknownInputsKeepRecord(catalog: map<string, Entry>, inputs: seq<string>, record: Option<Option<string>>)
    requires forall j :: 0 <= j < |inputs| ==> inputs[j] !in catalog
    ensures FinalRecord(record, Plays(catalog, UntilExit(inputs))) == record
  {
    var typed := UntilExit(inputs);
    forall j | 0 <= j < |typed|
      ensures typed[j] !in catalog
    {
      assert typed[j] == inputs[j];
    }
    PlaysNoneIff(catalog, typed);
  }

  /** Typing a known verse and then "exit" leaves that verse as the marker. */
  lemma PlayThenExit(catalog: map<string, Entry>, verse: string, record: Option<Option<string>>)
    requires verse in catalog && !IsExitCommand(verse)
    ensures FinalRecord(record, Plays(catalog, UntilExit([verse, "exit"]))) == Some(Some(verse))
    ensures LoadFrom(FinalRecord(record, Plays(catalog, UntilExit([verse, "exit"])))) == Some(verse)
  {
    assert IsExitCommand("exit");
    UntilExitAt([verse, "exit"], 1);
    PlaysLast(catalog, [verse], 0);
  }

  /** The running shell: the catalog built at start-up, which nothing
      changes afterwards, and the persisted progress record. */
  class Shell {
    const catalog: map<string, Entry>
    var progress: Option<Option<string>>

    /** Start-up: `organize_bible_data` on the listed folder, with the
        progress record found on disk. */
    constructor (folder: string, listing: seq<string>, transcribe: string -> Recognition, record: Option<Option<string>>)
      ensures catalog == Organize(folder, listing, transcribe)
      ensures progress == record
    {
      var bibleData := OrganizeBibleData(folder, listing, transcribe);
      catalog := bibleData;
      progress := record;
    }

    /** `load_progress()`. */
    function LoadProgress(): Option<string>
      reads this
    {
      LoadFrom(progress)
    }

    /** The verse reported as "Resuming from" at start-up, if any. */
    function ResumeVerse(): Option<string>
      reads this
    {
      ResumeFrom(LoadProgress())
    }

    /** `save_progress(verse)`: the record is overwritten, and loading it
        back gives the verse. */
    method SaveProgress(verse: string)
      modifies this
      ensures progress == Some(Some(verse))
      ensures LoadProgress() == Some(verse)
    {
      progress := Some(Some(verse));
    }

    /** One pass of the prompt loop on the line `verse`. */
    method Step(verse: string) returns (outcome: Outcome)
      modifies this
      ensures IsExitCommand(verse) ==> outcome == Quit && progress == old(progress)
      ensures !IsExitCommand(verse) && verse in catalog ==>
        outcome == Played(verse, catalog[verse]) && progress == Some(Some(verse))
      ensures !IsExitCommand(verse) && verse !in catalog ==>
        outcome == NotFound(verse) && progress == old(progress)
    {
      if Lower(verse) == "exit" {
        return Quit;
      }
      if verse in catalog {
        var entry := catalog[verse];
        // Playing `entry.audioFile` is audio output with no effect on the state.
        SaveProgress(verse);
        outcome := Played(verse, entry);
      } else {
        outcome := NotFound(verse);
      }
    }

    /** The prompt loop over the lines typed at the prompt: it stops at the
        first "exit" line (or when the lines run out), plays every known
        verse before it, and leaves the last one played as the marker. */
    method Run(inputs: seq<string>) returns (played: seq<string>, quit: bool)
      modifies this
      ensures played == Plays(catalog, UntilExit(inputs))
      ensures quit <==> exists j :: 0 <= j < |inputs| && IsExitCommand(inputs[j])
      ensures progress == FinalRecord(old(progress), played)
    {
      played := [];
      quit := false;
      var i := 0;
      while !quit && i < |inputs|
        invariant 0 <= i <= |inputs|
        invariant quit ==> i < |inputs| && IsExitCommand(inputs[i])
        invariant forall j :: 0 <= j < i ==> !IsExitCommand(inputs[j])
        invariant played == Plays(catalog, inputs[..i])
        invariant progress == FinalRecord(old(progress), played)
        decreases |inputs| - i, !quit
      {
        var outcome := Step(inputs[i]);
        if outcome.Quit? {
          quit := true;
        } else {
          assert inputs[..i + 1][..i] == inputs[..i];
          if outcome.Played? {
            played := played + [inputs[i]];
          }
          i := i + 1;
        }
      }
      UntilExitAt(inputs, i);
    }
  }
}
