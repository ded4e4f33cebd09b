/**
 * The per-hour audio table shared by both revisions of `AudioFileManager`:
 * the `AudioFile` record, the file an import starts from, and the
 * functions that say what each operation makes of the `[Int: AudioFile]`
 * dictionary. The two classes are proved against these functions.
 */
module AudioTable {
  import opened Wrappers
  import opened Clock
  import opened FilenameHour
  import opened Validation

  /** `AudioFile`; its random `id` is not modelled. */
  datatype AudioFile = AudioFile(name: string, url: string, hour: int)

  /**
   * A file chosen for import: its `lastPathComponent`, its `pathExtension`,
   * what reading its attributes gives, and whether copying it into the
   * app's audio directory (removing an older copy first) succeeds.
   */
  datatype SourceFile = SourceFile(name: string, pathExtension: string, attributes: Attributes, copySucceeds: bool)

  type Table = map<int, AudioFile>

  /** Every entry is stored under its own hour. */
  predicate KeyedByHour(files: Table) {
    forall h :: h in files ==> files[h].hour == h
  }

  /** Every key is an hour of the day. */
  predicate HoursInRange(files: Table) {
    forall h :: h in files ==> 0 <= h < HoursPerDay
  }

  /** `audioFiles[hour]`. */
  function Lookup(files: Table, hour: int): (file: Option<AudioFile>)
    ensures file.Some? <==> hour in files
    ensures file.Some? ==> file.value == files[hour]
  {
    if hour in files then Some(files[hour]) else None
  }

  /** `audioDirectory.appendingPathComponent(fileName)`. */
  function Destination(audioDirectory: string, fileName: string): string {
    audioDirectory + "/" + fileName
  }

  /** `hour ?? extractHourFromFilename(fileName) ?? <current clock hour>`. */
  function TargetHour(hour: Option<int>, fileName: string, now: int): (target: int)
    ensures hour.Some? ==> target == hour.value
    ensures hour.None? && HourFromFilename(fileName).Some? ==> target == HourFromFilename(fileName).value
    ensures hour.None? && HourFromFilename(fileName).None? ==> target == HourOf(now)
  {
    if hour.Some? then hour.value
    else if HourFromFilename(fileName).Some? then HourFromFilename(fileName).value
    else HourOf(now)
  }

  /** Without an explicit hour the target is always an hour of the day. */
  lemma TargetHourInRange(hour: Option<int>, fileName: string, now: int)
    requires hour.None? || 0 <= hour.value < HoursPerDay
    ensures 0 <= TargetHour(hour, fileName, now) < HoursPerDay
  {
    if hour.None? && HourFromFilename(fileName).Some? {
      assert 0 <= HourFromFilename(fileName).value <= 23;
    }
  }

  /** The entry an import stores. */
  function ImportedEntry(audioDirectory: string, source: SourceFile, hour: Option<int>, now: int): (file: AudioFile)
    ensures file.name == source.name
    ensures file.url == Destination(audioDirectory, source.name)
    ensures file.hour == TargetHour(hour, source.name, now)
  {
    var target := TargetHour(hour, source.name, now);
    AudioFile(source.name, Destination(audioDirectory, source.name), target)
  }

  /**
   * The table after copying one file in, with no validation: unchanged if
   * the copy throws, else the target hour's entry is replaced.
   */
  function Copied(files: Table, audioDirectory: string, source: SourceFile, hour: Option<int>, now: int): (r: Table)
    ensures !source.copySucceeds ==> r == files
    ensures source.copySucceeds ==> r.Keys == files.Keys + {TargetHour(hour, source.name, now)}
    ensures source.copySucceeds ==> r[TargetHour(hour, source.name, now)] == ImportedEntry(audioDirectory, source, hour, now)
    ensures forall h :: h in files && h != TargetHour(hour, source.name, now) ==> h in r && r[h] == files[h]
  {
    if source.copySucceeds then
      var entry := ImportedEntry(audioDirectory, source, hour, now);
      files[entry.hour := entry]
    else
      files
  }

  /** Importing keeps every entry under its own hour, and in range when the hour is. */
  lemma CopiedKeepsInvariants(files: Table, audioDirectory: string, source: SourceFile, hour: Option<int>, now: int)
    ensures KeyedByHour(files) ==> KeyedByHour(Copied(files, audioDirectory, source, hour, now))
    ensures HoursInRange(files) && (hour.None? || 0 <= hour.value < HoursPerDay) ==>
              HoursInRange(Copied(files, audioDirectory, source, hour, now))
  {
    if hour.None? || 0 <= hour.value < HoursPerDay {
      TargetHourInRange(hour, source.name, now);
    }
  }

  /** `removeValue(forKey: hour)`: only that key goes. */
  function Removed(files: Table, hour: int): (r: Table)
    ensures r.Keys == files.Keys - {hour}
    ensures forall h :: h in r ==> r[h] == files[h]
    ensures hour !in files ==> r == files
  {
    files - {hour}
  }

  /** The entries whose file still exists on disk, given the set of paths that do. */
  function KeepExisting(files: Table, existing: set<string>): (r: Table)
    ensures forall h :: h in r <==> h in files && files[h].url in existing
    ensures forall h :: h in r ==> r[h] == files[h]
  {
    map h | h in files && files[h].url in existing :: files[h]
  }

  /** Filtering twice is filtering once, and a table whose files all exist is kept whole. */
  lemma KeepExistingIdempotent(files: Table, existing: set<string>)
    ensures KeepExisting(KeepExisting(files, existing), existing) == KeepExisting(files, existing)
    ensures (forall h :: h in files ==> files[h].url in existing) ==> KeepExisting(files, existing) == files
  {
    if forall h :: h in files ==> files[h].url in existing {
      assert KeepExisting(files, existing).Keys == files.Keys;
    }
  }
}
