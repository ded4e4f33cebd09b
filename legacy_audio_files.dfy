/**
 * The earlier revision of `AudioFileManager` (AudioFileManager.swift at the
 * repository root): no validation step, and a multi-file import that runs
 * the single-file import over the chosen files in order.
 */
module LegacyAudioFiles {
  import opened Wrappers
  import opened Clock
  import opened FilenameHour
  import opened AudioTable

  /** What importing one file without an explicit hour amounts to: whether its copy succeeds, and the entry it stores. */
  datatype Store = Store(copied: bool, entry: AudioFile)

  function StoreOf(audioDirectory: string, source: SourceFile, now: int): (st: Store)
    ensures st.copied == source.copySucceeds
    ensures st.entry == ImportedEntry(audioDirectory, source, None, now)
    ensures st.entry.hour == TargetHour(None, source.name, now)
  {
    Store(source.copySucceeds, ImportedEntry(audioDirectory, source, None, now))
  }

  /** One store per chosen file, in order. */
  function StoresOf(audioDirectory: string, sources: seq<SourceFile>, now: int): (stores: seq<Store>)
    ensures |stores| == |sources|
    decreases |sources|
  {
    if sources == [] then []
    else StoresOf(audioDirectory, sources[..|sources| - 1], now) + [StoreOf(audioDirectory, sources[|sources| - 1], now)]
  }

  /** Dropping the last file drops the last store. */
  lemma StoresOfInit(audioDirectory: string, sources: seq<SourceFile>, now: int)
    requires sources != []
    ensures StoresOf(audioDirectory, sources, now)[..|sources| - 1] == StoresOf(audioDirectory, sources[..|sources| - 1], now)
  {
  }

  /** The stores of a prefix of the chosen files are a prefix of the stores. */
  lemma {:induction false} StoresOfPrefix(audioDirectory: string, sources: seq<SourceFile>, now: int, i: int)
    requires 0 <= i <= |sources|
    ensures StoresOf(audioDirectory, sources, now)[..i] == StoresOf(audioDirectory, sources[..i], now)
    decreases |sources|
  {
    var n := |sources|;
    if i < n {
      var init := sources[..n - 1];
      StoresOfInit(audioDirectory, sources, now);
      StoresOfPrefix(audioDirectory, init, now, i);
      assert init[..i] == sources[..i];
      assert StoresOf(audioDirectory, sources, now)[..i] == StoresOf(audioDirectory, sources, now)[..n - 1][..i];
    } else {
      assert sources[..i] == sources;
    }
  }

  /** The `k`-th store is the `k`-th chosen file's. */
  lemma StoresOfAt(audioDirectory: string, sources: seq<SourceFile>, now: int, k: int)
    requires 0 <= k < |sources|
    ensures StoresOf(audioDirectory, sources, now)[k] == StoreOf(audioDirectory, sources[k], now)
  {
    StoresOfPrefix(audioDirectory, sources, now, k + 1);
    StoresOfStep(audioDirectory, sources, k, now);
    assert StoresOf(audioDirectory, sources, now)[k] == StoresOf(audioDirectory, sources, now)[..k + 1][k];
  }

  lemma StoresOfStep(audioDirectory: string, sources: seq<SourceFile>, i: int, now: int)
    requires 0 <= i < |sources|
    ensures StoresOf(audioDirectory, sources[..i + 1], now) ==
              StoresOf(audioDirectory, sources[..i], now) + [StoreOf(audioDirectory, sources[i], now)]
  {
    assert sources[..i + 1][..i] == sources[..i];
    assert sources[..i + 1][i] == sources[i];
  }

  /** The table after one store: the entry goes in under its hour when the copy succeeded. */
  function Apply(files: Table, st: Store): Table {
    if st.copied then files[st.entry.hour := st.entry] else files
  }

  /** A store is exactly the single-file import's effect on the table. */
  lemma ApplyIsCopied(files: Table, audioDirectory: string, source: SourceFile, now: int)
    ensures Apply(files, StoreOf(audioDirectory, source, now)) == Copied(files, audioDirectory, source, None, now)
  {
  }

  /** The table after the stores one after another. */
  function ApplyAll(files: Table, stores: seq<Store>): (r: Table)
    ensures files.Keys <= r.Keys
    decreases |stores|
  {
    if stores == [] then files
    else Apply(ApplyAll(files, stores[..|stores| - 1]), stores[|stores| - 1])
  }

  /** At least one of the copies succeeds, so the table is saved at least once. */
  predicate AnyCopied(stores: seq<Store>) {
    exists k :: 0 <= k < |stores| && stores[k].copied
  }

  /** The store at index `j` succeeds and writes hour `h`. */
  predicate LandsAt(stores: seq<Store>, j: int, h: int)
    requires 0 <= j < |stores|
  {
    stores[j].copied && stores[j].entry.hour == h
  }

  /** One more store extends the fold by one step, and the "saved" flag likewise. */
  lemma ApplyAllStep(files: Table, stores: seq<Store>, st: Store)
    ensures ApplyAll(files, stores + [st]) == Apply(ApplyAll(files, stores), st)
    ensures AnyCopied(stores + [st]) <==> AnyCopied(stores) || st.copied
  {
    var next := stores + [st];
    assert next[..|stores|] == stores;
    if AnyCopied(next) && !st.copied {
      var k :| 0 <= k < |next| && next[k].copied;
      assert stores[k] == next[k];
    }
    if AnyCopied(stores) {
      var k :| 0 <= k < |stores| && stores[k].copied;
      assert next[k] == stores[k];
    }
    assert next[|stores|] == st;
  }

  /**
   * Last write wins: when files resolve to the same hour, the entry for
   * that hour is the one from the last of them that was copied.
   */
  lemma {:induction false} LastImportWins(files: Table, stores: seq<Store>, h: int, j: int)
    requires 0 <= j < |stores| && LandsAt(stores, j, h)
    requires forall k :: j < k < |stores| ==> !LandsAt(stores, k, h)
    ensures h in ApplyAll(files, stores)
    ensures ApplyAll(files, stores)[h] == stores[j].entry
    decreases |stores|
  {
    var n := |stores|;
    var init := stores[..n - 1];
    if j < n - 1 {
      forall k | j < k < |init|
        ensures !LandsAt(init, k, h)
      {
        assert init[k] == stores[k];
        assert !LandsAt(stores, k, h);
      }
      assert init[j] == stores[j];
      LastImportWins(files, init, h, j);
      assert !LandsAt(stores, n - 1, h);
    }
  }

  /** An hour no successful copy writes keeps its entry, or its absence. */
  lemma {:induction false} UntargetedHourUnchanged(files: Table, stores: seq<Store>, h: int)
    requires forall k :: 0 <= k < |stores| ==> !LandsAt(stores, k, h)
    ensures h in ApplyAll(files, stores) <==> h in files
    ensures h in files ==> ApplyAll(files, stores)[h] == files[h]
    decreases |stores|
  {
    if stores != [] {
      var init := stores[..|stores| - 1];
      forall k | 0 <= k < |init|
        ensures !LandsAt(init, k, h)
      {
        assert init[k] == stores[k];
        assert !LandsAt(stores, k, h);
      }
      UntargetedHourUnchanged(files, init, h);
      assert !LandsAt(stores, |stores| - 1, h);
    }
  }

  /** Importing `source` without an explicit hour succeeds and writes hour `h`. */
  predicate ResolvesTo(source: SourceFile, now: int, h: int) {
    source.copySucceeds && TargetHour(None, source.name, now) == h
  }

  /**
   * Last write wins over the chosen files: when the `j`-th file is copied
   * to hour `h` and no later copied file resolves to `h`, the table's entry
   * for `h` after the multi-file import is the `j`-th file's.
   */
  lemma LastChosenFileWins(files: Table, audioDirectory: string, sources: seq<SourceFile>, now: int, h: int, j: int)
    requires 0 <= j < |sources| && ResolvesTo(sources[j], now, h)
    requires forall k :: j < k < |sources| ==> !ResolvesTo(sources[k], now, h)
    ensures h in ApplyAll(files, StoresOf(audioDirectory, sources, now))
    ensures ApplyAll(files, StoresOf(audioDirectory, sources, now))[h] == ImportedEntry(audioDirectory, sources[j], None, now)
  {
    var stores := StoresOf(audioDirectory, sources, now);
    StoresOfAt(audioDirectory, sources, now, j);
    forall k | j < k < |stores|
      ensures !LandsAt(stores, k, h)
    {
      StoresOfAt(audioDirectory, sources, now, k);
      assert !ResolvesTo(sources[k], now, h);
    }
    LastImportWins(files, stores, h, j);
  }

  /** An hour no copied chosen file resolves to keeps its entry, or its absence. */
  lemma UnchosenHourUnchanged(files: Table, audioDirectory: string, sources: seq<SourceFile>, now: int, h: int)
    requires forall k :: 0 <= k < |sources| ==> !ResolvesTo(sources[k], now, h)
    ensures h in ApplyAll(files, StoresOf(audioDirectory, sources, now)) <==> h in files
    ensures h in files ==> ApplyAll(files, StoresOf(audioDirectory, sources, now))[h] == files[h]
  {
    var stores := StoresOf(audioDirectory, sources, now);
    forall k | 0 <= k < |stores|
      ensures !LandsAt(stores, k, h)
    {
      StoresOfAt(audioDirectory, sources, now, k);
      assert !ResolvesTo(sources[k], now, h);
    }
    UntargetedHourUnchanged(files, stores, h);
  }

  class AudioFileManager {
    var audioFiles: Table
    var stored: Option<Table>
    const audioDirectory: string

    constructor (audioDirectory: string, stored: Option<Table>, existing: set<string>)
      ensures this.audioDirectory == audioDirectory
      ensures audioFiles == if stored.Some? then KeepExisting(stored.value, existing) else map[]
      ensures this.stored == if stored.Some? then Some(audioFiles) else None
    {
      this.audioDirectory := audioDirectory;
      this.audioFiles := map[];
      this.stored := stored;
      new;
      LoadAudioFiles(existing);
    }

    /** `getAudioFile(for:)`. */
    function GetAudioFile(hour: int): (file: Option<AudioFile>)
      reads this
      ensures file.Some? <==> hour in audioFiles
      ensures file.Some? ==> file.value == audioFiles[hour]
    {
      Lookup(audioFiles, hour)
    }

    method SaveAudioFiles()
      modifies this`stored
      ensures stored == Some(audioFiles)
    {
      stored := Some(audioFiles);
    }

    /** `loadAudioFiles`: the same filter as the current revision. */
    method LoadAudioFiles(existing: set<string>)
      modifies this`audioFiles, this`stored
      ensures old(stored).Some? ==> audioFiles == KeepExisting(old(stored).value, existing) && stored == Some(audioFiles)
      ensures old(stored).None? ==> audioFiles == old(audioFiles) && stored == old(stored)
    {
      if stored.Some? {
        var loadedFiles := stored.value;
        var validFiles: Table := map[];
        var remaining := loadedFiles.Keys;
        while |remaining| > 0
          invariant remaining <= loadedFiles.Keys
          invariant validFiles == map h | h in loadedFiles && h !in remaining && loadedFiles[h].url in existing :: loadedFiles[h]
          decreases remaining
        {
          assert exists h :: h in remaining by {
            if forall h :: h !in remaining {
              assert false;  // would make the non-empty set `remaining` empty
            }
          }
          var hour :| hour in remaining;
          if loadedFiles[hour].url in existing {
            validFiles := validFiles[hour := loadedFiles[hour]];
          }
          remaining := remaining - {hour};
        }
        audioFiles := validFiles;
        SaveAudioFiles();
      }
    }

    /**
     * `importAudioFile(from:for:)` without validation: copy, then store under
     * the explicit hour, else the filename's hour, else the clock's; a copy
     * that throws leaves the table unchanged.
     */
    method ImportAudioFile(source: SourceFile, hour: Option<int>, now: int) returns (imported: bool)
      modifies this`audioFiles, this`stored
      ensures imported == source.copySucceeds
      ensures audioFiles == Copied(old(audioFiles), audioDirectory, source, hour, now)
      ensures stored == if imported then Some(audioFiles) else old(stored)
    {
      if !source.copySucceeds {
        return false;
      }
      var extracted := ExtractHourFromFilename(source.name);
      var targetHour := if hour.Some? then hour.value else if extracted.Some? then extracted.value else HourOf(now);
      audioFiles := audioFiles[targetHour := AudioFile(source.name, Destination(audioDirectory, source.name), targetHour)];
      SaveAudioFiles();
      imported := true;
    }

    /**
     * `importAudioFiles`: when the open panel is confirmed (`selection` is
     * Some), import each chosen file in order; a cancelled panel changes nothing.
     */
    method ImportAudioFiles(selection: Option<seq<SourceFile>>, now: int)
      modifies this`audioFiles, this`stored
      ensures selection.None? ==> audioFiles == old(audioFiles) && stored == old(stored)
      ensures selection.Some? ==> audioFiles == ApplyAll(old(audioFiles), StoresOf(audioDirectory, selection.value, now))
      ensures selection.Some? ==>
                stored == if AnyCopied(StoresOf(audioDirectory, selection.value, now)) then Some(audioFiles) else old(stored)
    {
      if selection.Some? {
        var urls := selection.value;
        for i := 0 to |urls|
          invariant audioFiles == ApplyAll(old(audioFiles), StoresOf(audioDirectory, urls[..i], now))
          invariant stored == if AnyCopied(StoresOf(audioDirectory, urls[..i], now)) then Some(audioFiles) else old(stored)
        {
          ghost var st := StoreOf(audioDirectory, urls[i], now);
          StoresOfStep(audioDirectory, urls, i, now);
          ApplyAllStep(old(audioFiles), StoresOf(audioDirectory, urls[..i], now), st);
          ApplyIsCopied(audioFiles, audioDirectory, urls[i], now);
          var _ := ImportAudioFile(urls[i], None, now);
        }
        assert urls[..|urls|] == urls;
      }
    }

    /** `removeAudioFile(for:)`. */
    method RemoveAudioFile(hour: int)
      modifies this`audioFiles, this`stored
      ensures audioFiles == Removed(old(audioFiles), hour)
      ensures stored == if hour in old(audioFiles) then Some(audioFiles) else old(stored)
    {
      if hour in audioFiles {
        audioFiles := audioFiles - {hour};
        SaveAudioFiles();
      }
    }
  }
}
