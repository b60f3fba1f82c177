/** The library indexer `organize_bible_data`: every `.wav` name of a folder
    listing becomes one catalog entry keyed by its verse name. */
module Catalog {
  import opened Text
  import opened Transcription

  /** The audio extension the indexer looks for. */
  const Wav := ".wav"

  /** One catalog value: `{"audio_file": ..., "text": ...}`. */
  datatype Entry = Entry(audioFile: string, text: string)

  /** A listed name that the indexer keeps: it ends with `.wav`. */
  predicate IsAudio(filename: string) {
    EndsWith(filename, Wav)
  }

  /** The verse name `filename.replace(".wav", "")`: every occurrence of the
      extension is deleted, not only the one at the end. */
  function VerseName(filename: string): string {
    RemoveAll(filename, Wav)
  }

  /** `os.path.join(folder, filename)` on POSIX: an absolute second part
      replaces the first; otherwise one separator is put between them unless
      the folder is empty or already ends with one. */
  function Join(folder: string, filename: string): (path: string)
    ensures EndsWith(path, filename)
    ensures |filename| > 0 && filename[0] != '/' && folder != [] && folder[|folder| - 1] != '/' ==>
      path == folder + "/" + filename
  {
    if |filename| > 0 && filename[0] == '/' then filename
    else if folder == [] || folder[|folder| - 1] == '/' then folder + filename
    else folder + "/" + filename
  }

  /** The entry built for one kept name: the joined path and the transcript
      of that path. */
  function EntryFor(folder: string, filename: string, transcribe: string -> Recognition): Entry {
    var path := Join(folder, filename);
    Entry(path, AudioToText(transcribe(path)))
  }

  /** The catalog built from a listing, one name at a time in listing order;
      a later name with the same verse name overwrites the earlier entry. */
  function Organize(folder: string, listing: seq<string>, transcribe: string -> Recognition): map<string, Entry>
    decreases |listing|
  {
    if listing == [] then map[]
    else
      var m := Organize(folder, listing[..|listing| - 1], transcribe);
      var filename := listing[|listing| - 1];
      if IsAudio(filename) then m[VerseName(filename) := EntryFor(folder, filename, transcribe)] else m
  }

  /** The listed name `filename` is kept and yields the verse name `k`. */
  predicate Yields(filename: string, k: string) {
    IsAudio(filename) && VerseName(filename) == k
  }

  /** The number of kept (`.wav`) names in a listing. */
  function AudioCount(listing: seq<string>): nat
    decreases |listing|
  {
    if listing == [] then 0
    else AudioCount(listing[..|listing| - 1]) + (if IsAudio(listing[|listing| - 1]) then 1 else 0)
  }

  /** `organize_bible_data` after the folder has been listed: fills the
      dictionary in listing order. */
  method OrganizeBibleData(folder: string, listing: seq<string>, transcribe: string -> Recognition)
    returns (bibleData: map<string, Entry>)
    ensures bibleData == Organize(folder, listing, transcribe)
  {
    bibleData := map[];
    for i := 0 to |listing|
      invariant bibleData == Organize(folder, listing[..i], transcribe)
    {
      var filename := listing[i];
      assert listing[..i + 1][..i] == listing[..i];
      assert listing[..i + 1][i] == filename;
      if IsAudio(filename) {
        var verseName := VerseName(filename);
        var audioFile := Join(folder, filename);
        var text := AudioToText(transcribe(audioFile));
        bibleData := bibleData[verseName := Entry(audioFile, text)];
      }
    }
    assert listing[..|listing|] == listing;
  }

  /** A verse name is in the catalog exactly when some kept name of the
      listing yields it. */
  lemma {:induction false} OrganizeKeys(folder: string, listing: seq<string>, transcribe: string -> Recognition, k: string)
    ensures k in Organize(folder, listing, transcribe) <==> exists i :: 0 <= i < |listing| && Yields(listing[i], k)
    decreases |listing|
  {
    if listing != [] {
      var init := listing[..|listing| - 1];
      var last := listing[|listing| - 1];
      OrganizeKeys(folder, init, transcribe, k);
      OrganizeStep(folder, listing, transcribe, k);
      if k in Organize(folder, listing, transcribe) {
        if Yields(last, k) {
          assert Yields(listing[|listing| - 1], k);
        } else {
          var i :| 0 <= i < |init| && Yields(init[i], k);
          assert Yields(listing[i], k);
        }
      } else {
        forall i | 0 <= i < |listing|
          ensures !Yields(listing[i], k)
        {
          if i < |init| {
            assert listing[i] == init[i];
          }
        }
      }
    }
  }

  /** Adding one name to the listing adds at most its own verse name. */
  lemma OrganizeStep(folder: string, listing: seq<string>, transcribe: string -> Recognition, k: string)
    requires listing != []
    ensures k in Organize(folder, listing, transcribe) <==>
      k in Organize(folder, listing[..|listing| - 1], transcribe) || Yields(listing[|listing| - 1], k)
  {
  }

  /** The entry under a verse name comes from the last kept name in the
      listing that yields it: its joined path and the transcript of that
      path. */
  lemma {:induction false} OrganizeLastWins(folder: string, listing: seq<string>, transcribe: string -> Recognition, i: nat)
    requires i < |listing| && IsAudio(listing[i])
    requires forall j :: i < j < |listing| && IsAudio(listing[j]) ==> VerseName(listing[j]) != VerseName(listing[i])
    ensures VerseName(listing[i]) in Organize(folder, listing, transcribe)
    ensures Organize(folder, listing, transcribe)[VerseName(listing[i])] == EntryFor(folder, listing[i], transcribe)
    decreases |listing|
  {
    if i < |listing| - 1 {
      var init := listing[..|listing| - 1];
      assert init[i] == listing[i];
      forall j | i < j < |init| && IsAudio(init[j])
        ensures VerseName(init[j]) != VerseName(init[i])
      {
        assert init[j] == listing[j];
      }
      OrganizeLastWins(folder, init, transcribe, i);
    }
  }

  /** The catalog has at most one entry per kept name. */
  lemma {:induction false} OrganizeSize(folder: string, listing: seq<string>, transcribe: string -> Recognition)
    ensures |Organize(folder, listing, transcribe)| <= AudioCount(listing)
    decreases |listing|
  {
    if listing != [] {
      var init := listing[..|listing| - 1];
      OrganizeSize(folder, init, transcribe);
      var filename := listing[|listing| - 1];
      if IsAudio(filename) {
        UpdateSize(Organize(folder, init, transcribe), VerseName(filename), EntryFor(folder, filename, transcribe));
      }
    }
  }

  /** Storing under one key adds at most one entry. */
  lemma UpdateSize(m: map<string, Entry>, k: string, e: Entry)
    ensures |m[k := e]| <= |m| + 1
  {
  }

  /** The catalog is empty exactly when the listing holds no `.wav` name; in
      particular a new or empty folder gives an empty catalog. */
  lemma OrganizeEmptyIff(folder: string, listing: seq<string>, transcribe: string -> Recognition)
    ensures Organize(folder, listing, transcribe) == map[] <==> forall i :: 0 <= i < |listing| ==> !IsAudio(listing[i])
  {
    var m := Organize(folder, listing, transcribe);
    if exists i :: 0 <= i < |listing| && IsAudio(listing[i]) {
      var i :| 0 <= i < |listing| && IsAudio(listing[i]);
      OrganizeKeys(folder, listing, transcribe, VerseName(listing[i]));
      assert Yields(listing[i], VerseName(listing[i]));
      assert VerseName(listing[i]) in m;
    } else if m != map[] {
      var k :| k in m;
      OrganizeKeys(folder, listing, transcribe, k);
      assert false;
    }
  }

  /** Every ".wav" is deleted wherever it stands: the verse name of a name
      with ".wav" in it is the verse name of the part before it followed by
      the verse name of the part after it. No scan can run across the ".wav",
      because no proper prefix of ".wav" is also a suffix of it. */
  lemma {:induction false} VerseNameSplit(x: string, y: string)
    ensures VerseName(x + Wav + y) == VerseName(x) + VerseName(y)
    decreases |x|
  {
    var s := x + Wav + y;
    if x == [] {
      assert s == Wav + y;
      RemoveAllLeading(Wav, y);
    } else if |x| >= |Wav| && x[..|Wav|] == Wav {
      assert s[..|Wav|] == Wav;
      assert s[|Wav|..] == x[|Wav|..] + Wav + y;
      VerseNameSplit(x[|Wav|..], y);
    } else {
      if |x| >= |Wav| {
        assert s[..|Wav|] == x[..|Wav|];
      } else {
        assert s[|x|] == '.';
        assert s[..|Wav|][|x|] == s[|x|];
      }
      assert s[..|Wav|] != Wav;
      assert s[1..] == x[1..] + Wav + y;
      VerseNameSplit(x[1..], y);
      assert [x[0]] + x[1..] == x;
    }
  }

  /** Stripping the extension from `stem + ".wav"` gives back the stem when
      the stem itself holds no `.wav`: no occurrence can straddle the stem
      and the extension, because no proper prefix of ".wav" is also a suffix
      of it. */
  lemma {:induction false} VerseNameOfStem(stem: string)
    requires !Occurs(stem, Wav)
    ensures VerseName(stem + Wav) == stem
    decreases |stem|
  {
    var s := stem + Wav;
    if stem == [] {
      assert s[..|Wav|] == Wav;
      assert s[|Wav|..] == [];
    } else {
      if |stem| >= |Wav| {
        assert s[..|Wav|] == stem[..|Wav|];
        assert !OccursAt(stem, Wav, 0);
      } else {
        assert s[|stem|] == '.';
        assert s[..|Wav|][|stem|] == s[|stem|];
      }
      assert s[..|Wav|] != Wav;
      if Occurs(stem[1..], Wav) {
        OccursInTail(stem, Wav);
      }
      VerseNameOfStem(stem[1..]);
      assert s[1..] == stem[1..] + Wav;
      assert [stem[0]] + stem[1..] == stem;
    }
  }

  /** A folder of distinct `<stem>.wav` files whose stems hold no ".wav"
      gives exactly one entry per file, keyed by its stem. */
  lemma OrganizeKeyedByStem(folder: string, listing: seq<string>, stems: seq<string>, transcribe: string -> Recognition)
    requires |stems| == |listing|
    requires forall i :: 0 <= i < |listing| ==> listing[i] == stems[i] + Wav && !Occurs(stems[i], Wav)
    requires forall i, j :: 0 <= i < j < |listing| ==> listing[i] != listing[j]
    ensures forall k :: k in Organize(folder, listing, transcribe) <==> k in stems
    ensures forall i :: 0 <= i < |stems| ==>
      stems[i] in Organize(folder, listing, transcribe) &&
      Organize(folder, listing, transcribe)[stems[i]] == EntryFor(folder, listing[i], transcribe)
  {
    forall i | 0 <= i < |listing|
      ensures Yields(listing[i], stems[i])
    {
      VerseNameOfStem(stems[i]);
      assert listing[i][|listing[i]| - |Wav|..] == Wav;
    }
    forall k
      ensures k in Organize(folder, listing, transcribe) <==> k in stems
    {
      OrganizeKeys(folder, listing, transcribe, k);
      if k in stems {
        var i :| 0 <= i < |stems| && stems[i] == k;
        assert Yields(listing[i], k);
      }
    }
    forall i | 0 <= i < |stems|
      ensures stems[i] in Organize(folder, listing, transcribe)
      ensures Organize(folder, listing, transcribe)[stems[i]] == EntryFor(folder, listing[i], transcribe)
    {
      forall j | i < j < |listing| && IsAudio(listing[j])
        ensures VerseName(listing[j]) != VerseName(listing[i])
      {
        assert listing[i] != listing[j];
      }
      OrganizeLastWins(folder, listing, transcribe, i);
    }
  }

  /** A stem without a '.' cannot hold ".wav". */
  lemma NoDotNoWav(stem: string)
    requires '.' !in stem
    ensures !Occurs(stem, Wav)
  {
    forall i: nat | i <= |stem|
      ensures !OccursAt(stem, Wav, i)
    {
      if i + |Wav| <= |stem| {
        assert stem[i..i + |Wav|][0] == stem[i];
      }
    }
  }

  /** `"a.wav.wav"` gives `"a"`: both extensions go. */
  lemma VerseNameDoubleExtension()
    ensures VerseName("a.wav.wav") == "a"
  {
  }

  /** `"x.wavy.wav"` gives `"xy"`: an inner ".wav" goes too. */
  lemma VerseNameInnerExtension()
    ensures VerseName("x.wavy.wav") == "xy"
  {
    assert "x.wavy.wav" == ['x'] + (Wav + (['y'] + (Wav + [])));
    RemoveAllLeading(Wav, []);
    assert (['y'] + (Wav + []))[0] == 'y' != Wav[0];
    RemoveAllKeeps('y', Wav + [], Wav);
    RemoveAllLeading(Wav, ['y'] + (Wav + []));
    RemoveAllKeeps('x', Wav + (['y'] + (Wav + [])), Wav);
  }

  /** Deletion is a single pass: `".w.wavav.wav"` gives `".wav"`, a verse name
      that still holds the extension. */
  lemma VerseNameSinglePass()
    ensures VerseName(".w.wavav.wav") == ".wav"
  {
    var rest := ['a'] + (['v'] + (Wav + []));
    SinglePassRest(rest);
    SinglePassHead(rest);
    assert ".w.wavav.wav" == ['.'] + (['w'] + (Wav + rest));
  }

  /** The part after the inner ".wav" of the single-pass example. */
  lemma SinglePassRest(rest: string)
    requires rest == ['a'] + (['v'] + (Wav + []))
    ensures RemoveAll(rest, Wav) == ['a', 'v']
  {
    var tail := Wav + [];
    RemoveAllLeading(Wav, []);
    assert (['v'] + tail)[0] == 'v' != Wav[0];
    RemoveAllKeeps('v', tail, Wav);
    assert (['a'] + (['v'] + tail))[0] == 'a' != Wav[0];
    RemoveAllKeeps('a', ['v'] + tail, Wav);
  }

  /** The part up to the inner ".wav" of the single-pass example. */
  lemma SinglePassHead(rest: string)
    requires RemoveAll(rest, Wav) == ['a', 'v']
    ensures RemoveAll(['.'] + (['w'] + (Wav + rest)), Wav) == ['.', 'w', 'a', 'v']
  {
    RemoveAllLeading(Wav, rest);
    assert (['w'] + (Wav + rest))[0] == 'w' != Wav[0];
    RemoveAllKeeps('w', Wav + rest, Wav);
    assert (['.'] + (['w'] + (Wav + rest)))[2] == '.' != Wav[2];
    RemoveAllKeeps('.', ['w'] + (Wav + rest), Wav);
  }
}
