/**
 * `AudioFileManager` as it stands in src/: the per-hour table with
 * validation before import and a display-name fallback.
 */
module AudioFiles {
  import opened Wrappers
  import opened Clock
  import opened FilenameHour
  import opened Validation
  import opened AudioTable

  const DefaultDisplayName: string := "macOS Default"

  /** How an import ended: refused by validation (an alert is shown), the copy threw, or stored. */
  datatype ImportOutcome = Rejected(error: ValidationError) | CopyFailed | Imported(hour: int)

  /** The table after this revision's import: validation, then the copy. */
  function ValidatedImport(files: Table, audioDirectory: string, source: SourceFile, hour: Option<int>, now: int): (r: Table)
    ensures r != files ==> Acceptable(source.attributes, source.pathExtension) && source.copySucceeds
    ensures Acceptable(source.attributes, source.pathExtension) && source.copySucceeds ==>
              TargetHour(hour, source.name, now) in r && r[TargetHour(hour, source.name, now)] == ImportedEntry(audioDirectory, source, hour, now)
    ensures r.Keys <= files.Keys + {TargetHour(hour, source.name, now)}
    ensures forall h :: h in files && h != TargetHour(hour, source.name, now) ==> h in r && r[h] == files[h]
  {
    if ValidateAudioFile(source.attributes, source.pathExtension).Some? then files
    else Copied(files, audioDirectory, source, hour, now)
  }

  /** On a file that passes validation the two revisions' imports agree. */
  lemma RevisionsAgreeOnAcceptedFiles(files: Table, audioDirectory: string, source: SourceFile, hour: Option<int>, now: int)
    requires Acceptable(source.attributes, source.pathExtension)
    ensures ValidatedImport(files, audioDirectory, source, hour, now) == Copied(files, audioDirectory, source, hour, now)
  {
  }

  /**
   * On a file that fails validation but could be copied, this revision
   * leaves the table alone while the older one stores the file anyway.
   */
  lemma RevisionsDifferOnRejectedFiles(files: Table, audioDirectory: string, source: SourceFile, hour: Option<int>, now: int)
    requires !Acceptable(source.attributes, source.pathExtension) && source.copySucceeds
    ensures ValidatedImport(files, audioDirectory, source, hour, now) == files
    ensures var target := TargetHour(hour, source.name, now);
            Copied(files, audioDirectory, source, hour, now)[target] == ImportedEntry(audioDirectory, source, hour, now)
  {
  }

  class AudioFileManager {
    /** `audioFiles: [Int: AudioFile]`. */
    var audioFiles: Table
    /** The table saved under the "AudioFiles" key; None when nothing decodable is saved. */
    var stored: Option<Table>
    const audioDirectory: string

    /** `init`: the directory, then `loadAudioFiles`. */
    constructor (audioDirectory: string, stored: Option<Table>, existing: set<string>)
      ensures this.audioDirectory == audioDirectory
      ensures audioFiles == if stored.Some? then KeepExisting(stored.value, existing) else map[]
      ensures this.stored == if stored.Some? then Some(audioFiles) else None
    {
      this.audioDirectory := audioDirectory;
      this.audioFiles := map[];
      this.stored := stored;
      new;
      LoadAudioFiles(existing);
    }

    /** `getAudioFile(for:)`: a plain lookup, nil for any hour without an entry. */
    function GetAudioFile(hour: int): (file: Option<AudioFile>)
      reads this
      ensures file.Some? <==> hour in audioFiles
      ensures file.Some? ==> file.value == audioFiles[hour]
    {
      Lookup(audioFiles, hour)
    }

    /** `getAudioDisplayName(for:)`: the stored name, even an empty one, else "macOS Default". */
    function GetAudioDisplayName(hour: int): (name: string)
      reads this
      ensures hour in audioFiles ==> name == audioFiles[hour].name
      ensures hour !in audioFiles ==> name == DefaultDisplayName
    {
      match Lookup(audioFiles, hour)
      case Some(file) => file.name
      case None => DefaultDisplayName
    }

    /** `saveAudioFiles`: the table is written back (its encoding cannot fail here). */
    method SaveAudioFiles()
      modifies this`stored
      ensures stored == Some(audioFiles)
    {
      stored := Some(audioFiles);
    }

    /**
     * `loadAudioFiles`: when a table is saved, keep exactly the entries whose
     * file still exists and save the result back; otherwise nothing changes.
     */
    method LoadAudioFiles(existing: set<string>)
      modifies this`audioFiles, this`stored
      ensures old(stored).Some? ==> audioFiles == KeepExisting(old(stored).value, existing) && stored == Some(audioFiles)
      ensures old(stored).None? ==> audioFiles == old(audioFiles) && stored == old(stored)
      ensures old(stored).Some? && KeyedByHour(old(stored).value) ==> KeyedByHour(audioFiles)
    {
      if stored.Some? {
        var loadedFiles := stored.value;
        var validFiles: Table := map[];
        var remaining := loadedFiles.Keys;
        while |remaining| > 0
          invariant remaining <= loadedFiles.Keys
          invariant validFiles == map h | h in loadedFiles && h !in remaining && loadedFiles[h].url in existing :: loadedFiles[h]
          decreases remaining
        {
          assert exists h :: h in remaining by {
            if forall h :: h !in remaining {
              assert false;  // would make the non-empty set `remaining` empty
            }
          }
          var hour :| hour in remaining;
          if loadedFiles[hour].url in existing {
            validFiles := validFiles[hour := loadedFiles[hour]];
          }
          remaining := remaining - {hour};
        }
        audioFiles := validFiles;
        SaveAudioFiles();
      }
    }

    /**
     * `importAudioFile(from:for:)`: validate first; then copy; then store the
     * file under the explicit hour, else the filename's hour, else the clock's.
     */
    method ImportAudioFile(source: SourceFile, hour: Option<int>, now: int) returns (outcome: ImportOutcome)
      modifies this`audioFiles, this`stored
      ensures audioFiles == ValidatedImport(old(audioFiles), audioDirectory, source, hour, now)
      ensures var error := ValidateAudioFile(source.attributes, source.pathExtension);
              && (error.Some? ==> outcome == Rejected(error.value) && stored == old(stored))
              && (error.None? && !source.copySucceeds ==> outcome == CopyFailed && stored == old(stored))
              && (error.None? && source.copySucceeds ==>
                    outcome == Imported(TargetHour(hour, source.name, now)) && stored == Some(audioFiles))
      ensures outcome.Imported? ==> GetAudioDisplayName(outcome.hour) == source.name
      ensures KeyedByHour(old(audioFiles)) ==> KeyedByHour(audioFiles)
      ensures HoursInRange(old(audioFiles)) && (hour.None? || 0 <= hour.value < HoursPerDay) ==> HoursInRange(audioFiles)
    {
      CopiedKeepsInvariants(audioFiles, audioDirectory, source, hour, now);
      var validationError := ValidateAudioFile(source.attributes, source.pathExtension);
      if validationError.Some? {
        return Rejected(validationError.value);
      }
      if !source.copySucceeds {
        return CopyFailed;
      }
      var extracted := ExtractHourFromFilename(source.name);
      var targetHour := if hour.Some? then hour.value else if extracted.Some? then extracted.value else HourOf(now);
      audioFiles := audioFiles[targetHour := AudioFile(source.name, Destination(audioDirectory, source.name), targetHour)];
      SaveAudioFiles();
      outcome := Imported(targetHour);
    }

    /** `removeAudioFile(for:)`: only that hour's entry goes; absent, nothing happens. */
    method RemoveAudioFile(hour: int)
      modifies this`audioFiles, this`stored
      ensures audioFiles == Removed(old(audioFiles), hour)
      ensures stored == if hour in old(audioFiles) then Some(audioFiles) else old(stored)
      ensures GetAudioDisplayName(hour) == DefaultDisplayName
      ensures forall h :: h != hour ==> GetAudioDisplayName(h) == old(GetAudioDisplayName(h))
    {
      if hour in audioFiles {
        audioFiles := audioFiles - {hour};
        SaveAudioFiles();
      }
    }
  }
}
