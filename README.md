# HourlyAudioPlayer: a Dafny model of the hourly scheduler and its audio table

HourlyAudioPlayer is a macOS menu-bar app. At the top of every clock hour it
plays the audio file the user assigned to that hour of the day. When no file
is assigned it plays the system sound, and when the file cannot be played it
plays the system sound and shows a warning. This project models the app's core
and proves properties of the model:

- **`HourlyTimer`** (src/HourlyTimer.swift). The class arms a one-shot timer
  for the next top of the hour. When that timer fires, the class plays the
  hour's audio and replaces the one-shot with a repeating 3600-second timer.
  Each scheduled firing is deduplicated by hour slot (`lastPlayedHour`). The
  class also offers a manual "play the current hour" entry point and a query
  for the next hour that has a file.
- **`AudioFileManager`**, current revision (src/AudioFileManager.swift). This
  is the `[Int: AudioFile]` table of files per hour. It covers:
  - validation: size limit, supported formats, unreadable files;
  - importing a file and resolving its target hour (explicit hour, else an
    hour parsed from the filename, else the clock's hour);
  - removal and lookup, including the "macOS Default" display-name fallback;
  - saving the table, and reloading it so that only files that still exist
    are kept.
- **`AudioFileManager`**, older revision (AudioFileManager.swift at the
  repository root). It has no validation step. It also has a multi-file import
  that runs the single-file import over the chosen files in order.
- **`ThemeManager`** (src/ThemeManager.swift). This is the light/dark flag. It
  is written through to the "isDarkMode" preference and read back at launch
  only when the stored value is a Bool. The app appearance follows it, and so
  do the icon and the label.

Modules:

| module | file | what it holds |
|---|---|---|
| `Wrappers` | wrappers.dfy | `Option` |
| `Clock` | clock.dfy | the hour arithmetic the timer relies on |
| `Text` | text.dfy | `lowercased()`, `Int(String)` and `"\(n)"` on decimal digits |
| `FilenameHour` | filename_hour.dfy | `extractHourFromFilename`, with a model of the three regular expressions |
| `FilenameHourExamples` | filename_hour_examples.dfy | concrete filenames run through that model |
| `Validation` | validation.dfy | `validateAudioFile` |
| `AudioTable` | audio_table.dfy | `AudioFile` and the functions both revisions are proved against |
| `AudioFiles` | audio_files.dfy | the current `AudioFileManager` class |
| `LegacyAudioFiles` | legacy_audio_files.dfy | the older `AudioFileManager` class |
| `HourlyTimers` | hourly_timer.dfy | the `HourlyTimer` class, its notifications and its events |
| `Themes` | theme_manager.dfy | the `ThemeManager` class |

Modelling choices:

- **Time.** Time is an integer number of seconds. The calendar is fixed: it
  has a whole number of hours since the epoch and a 24-hour day.
  - `HourOf(t)` is `(t / 3600) % 24`.
  - The start of `t`'s hour is `t - t % 3600`.
  - Dafny's `/` and `%` are Euclidean, which agrees with flooring here, so
    times before the epoch are handled too.
- **External effects.** Playback, notifications and `NSSound.beep()` are
  recorded, in order, in the timer's event log (`log`). A logged
  notification carries its title, its sound setting and what its body says
  (a `Message`). `MessageText` renders that as the body text.
  - Whether `AudioManager.playAudio(from:)` succeeds is an input (`played`).
  - The current time is an input (`now`).
- **User defaults.** The saved "AudioFiles" entry is the field `stored`. It is
  `None` when nothing decodable is saved. The "isDarkMode" preference is an
  entry in a map of preference values (`Defaults`).
- **File system.** Each source file carries the facts the file system would
  supply:
  - its `lastPathComponent` and `pathExtension`;
  - what reading its attributes gives;
  - whether copying it into the audio directory succeeds.

  Which stored paths still exist at launch is an input set.
- **Both revisions.** They share one model of `extractHourFromFilename`,
  because the function's text is the same in both files.
- **The scheduler as written.** src/HourlyTimer.swift has no sleep/wake
  handling, no suppression of stale firings and no two-minute grace window;
  the comments in test/SleepWakeTests.swift:17-52 describe such logic, but
  the class does not contain it. After the first firing the one-shot is
  replaced by a fixed repeating 3600-second timer, and the repeating timer
  never re-derives the boundary from the calendar. The model does exactly
  that.

## Model

| member | source | states |
|---|---|---|
| Clock.HourOf | src/HourlyTimer.swift:53 | the hour component of a time is an hour of the day, 0 to 23 |
| Clock.StartOfHour | src/HourlyTimer.swift:27 | the start of `t`'s hour is an hour boundary `s` with `s <= t < s + 3600` |
| Clock.NextHourBoundary | src/HourlyTimer.swift:27-29 | start of the hour plus one hour is a boundary strictly after `t` and at most an hour away |
| Clock.NextHourBoundaryIsLeast | src/HourlyTimer.swift:24-29 | no hour boundary lies strictly between `t` and the next boundary: the timer targets the very next top of the hour |
| Clock.NextHourBoundarySlot | src/HourlyTimer.swift:27-28 | the next boundary falls in hour slot `(hour + 1) % 24`, and the start of the hour in the same slot as `t` |
| Clock.AddHoursSlot | src/HourlyTimer.swift:182-183 | adding `k` hours to a boundary gives a boundary in slot `(hour + k) % 24` |
| Text.DigitsValue | src/AudioFileManager.swift:171 | `Int(hourString)` on an all-digit string: a natural number below `10^length` |
| Text.NatToString | src/HourlyTimer.swift:123 | the decimal text of a number is non-empty, all digits, with no leading zero |
| Text.DigitsValueOfNatToString | src/HourlyTimer.swift:123 | reading back the decimal text of `n` gives `n` |
| Text.IntToString | src/HourlyTimer.swift:123 | `"\(n)"` on an `Int`: the decimal text of `n`, with a leading minus when negative |
| Text.Lower | src/AudioFileManager.swift:284 | lower-casing keeps the length and maps each character through ASCII lower-casing |
| FilenameHour.MatchAt | src/AudioFileManager.swift:160-163 | a match of one of the patterns at a position captures one or two digits |
| FilenameHour.MatchesOf | src/AudioFileManager.swift:168-169 | the candidate capture at every position of the filename, 0 to its length |
| FilenameHour.FirstSomeFrom | src/AudioFileManager.swift:169 | the left-to-right scan: none exactly when no candidate from `i` on is present; otherwise the leftmost present one |
| FilenameHour.FirstSomeIsLeftmost | src/AudioFileManager.swift:169 | the scan stops at the leftmost present candidate |
| FilenameHour.FirstMatchFrom | src/AudioFileManager.swift:169 | `firstMatch`: none exactly when no position from `i` on matches; otherwise the capture of the leftmost matching position |
| FilenameHour.FirstMatchIsLeftmost | src/AudioFileManager.swift:169 | when `j` is the leftmost matching position, the first match is the match at `j` |
| FilenameHour.FirstMatch | src/AudioFileManager.swift:169 | `firstMatch(in:range:)` over the whole name: none exactly when no position matches, otherwise the one- or two-digit capture of the leftmost match |
| FilenameHour.MatchedHour | src/AudioFileManager.swift:169-173 | a pattern yields an hour exactly when its first match reads as 0 to 23, and the hour is the value of the captured digits |
| FilenameHour.HourFromPatterns | src/AudioFileManager.swift:166-178 | a result is in 0 to 23 and is the hour some pattern in the list yields |
| FilenameHour.HourFromFilename | src/AudioFileManager.swift:158-179 | the hour read from a filename, when there is one, is an hour of the day (which of the three patterns decides is stated by `PatternOrder` and `NoPatternNoHour`) |
| FilenameHour.ExtractHourFromFilename | src/AudioFileManager.swift:158-179 | the loop over the three patterns returns the first pattern's in-range hour, a value in 0 to 23, or nil |
| FilenameHour.PatternOrder | src/AudioFileManager.swift:166-176 | when the patterns before the `k`-th yield nothing and the `k`-th yields an hour, that hour is the result |
| FilenameHour.NoPatternNoHour | src/AudioFileManager.swift:166-178 | when no pattern yields an in-range hour the result is nil |
| FilenameHourExamples.TwelveHour | src/AudioFileManager.swift:159-161 | "12hour.mp3" gives 12 |
| FilenameHourExamples.LeftmostTwoDigits | src/AudioFileManager.swift:161-169 | "123hour.mp3" gives 23: the match starts at the leftmost position where a pattern succeeds |
| FilenameHourExamples.OutOfRangeFirstPattern | src/AudioFileManager.swift:171 | in "99hour_5.mp3" the first pattern captures 99, which yields no hour |
| FilenameHourExamples.SecondPatternFindsFive | src/AudioFileManager.swift:162 | in "99hour_5.mp3" the digits-before-a-dot pattern yields 5 |
| FilenameHourExamples.FallsThroughToSecondPattern | src/AudioFileManager.swift:166-176 | an out-of-range match falls through to the next pattern: "99hour_5.mp3" gives 5 |
| Validation.ValidateAudioFile | src/AudioFileManager.swift:266-292 | nil iff the file is acceptable; access error iff the attributes cannot be read; too large iff the size is over 2 621 440 bytes (checked before the format); unsupported format, with the lower-cased extension, iff otherwise not one of the seven formats |
| AudioTable.Lookup | src/AudioFileManager.swift:217-219 | the lookup finds an entry exactly when the hour is a key, and returns that entry |
| AudioTable.TargetHour | src/AudioFileManager.swift:144 | the explicit hour wins, else the filename's hour, else the clock's hour |
| AudioTable.TargetHourInRange | src/AudioFileManager.swift:144 | without an explicit hour, or with one in range, the target is an hour of the day |
| AudioTable.ImportedEntry | src/AudioFileManager.swift:127-128 | the stored entry keeps the file's name and points into the audio directory |
| AudioTable.Copied | src/AudioFileManager.swift:137-155 | a copy that throws leaves the table unchanged; otherwise only the target hour's entry is added or replaced |
| AudioTable.CopiedKeepsInvariants | src/AudioFileManager.swift:144-147 | importing keeps every entry under its own hour, and keys in 0 to 23 when the hour given is in range |
| AudioTable.Removed | src/AudioFileManager.swift:187 | removing drops exactly that key; every other entry is kept |
| AudioTable.KeepExisting | src/AudioFileManager.swift:205-210 | the reload filter keeps exactly the entries whose file exists, unchanged |
| AudioTable.KeepExistingIdempotent | src/AudioFileManager.swift:204-212 | filtering twice equals filtering once, and a table whose files all exist is kept whole |
| AudioFiles.ValidatedImport | src/AudioFileManager.swift:130-147 | the table changes only for a file that passes validation and is copied; such a file is stored at its resolved hour; no other hour's entry changes |
| AudioFiles.RevisionsAgreeOnAcceptedFiles | src/AudioFileManager.swift:130-147 | on a file that passes validation, the current import and the older one change the table alike |
| AudioFiles.RevisionsDifferOnRejectedFiles | src/AudioFileManager.swift:130-134 | on a file that fails validation but could be copied, the current import leaves the table alone; the older one stores it |
| AudioFiles.AudioFileManager.constructor | src/AudioFileManager.swift:46-52 | initialisation loads the saved table, keeping only files that exist, and saves it back; with nothing saved the table is empty |
| AudioFiles.AudioFileManager.GetAudioFile | src/AudioFileManager.swift:217-219 | the file for an hour is found exactly when the hour has an entry |
| AudioFiles.AudioFileManager.GetAudioDisplayName | src/AudioFileManager.swift:252-262 | the entry's own name when the hour has one, else "macOS Default" (never another hour's name) |
| AudioFiles.AudioFileManager.SaveAudioFiles | src/AudioFileManager.swift:193-198 | the saved table becomes the current table |
| AudioFiles.AudioFileManager.LoadAudioFiles | src/AudioFileManager.swift:200-215 | with a saved table: the table is the saved one filtered to existing files, and it is saved back; without one nothing changes; entries stay keyed by their own hour |
| AudioFiles.AudioFileManager.ImportAudioFile | src/AudioFileManager.swift:126-156 | a rejected file and a failed copy change nothing (an error outcome is reported); a successful copy stores the entry at the resolved hour, saves, and makes the entry's name that hour's display name; the table invariants are kept |
| AudioFiles.AudioFileManager.RemoveAudioFile | src/AudioFileManager.swift:181-191 | only that hour's entry goes and the table is saved; an absent hour changes nothing; the hour then shows "macOS Default" and every other hour's display name is unchanged |
| LegacyAudioFiles.StoreOf | AudioFileManager.swift:83-98 | one file's import without an explicit hour: the copy outcome and the entry, stored under the resolved hour |
| LegacyAudioFiles.StoresOf | AudioFileManager.swift:59-61 | one import per chosen file, in order: as many records as chosen files |
| LegacyAudioFiles.StoresOfPrefix | AudioFileManager.swift:59-61 | the records of the first `i` chosen files are the first `i` records |
| LegacyAudioFiles.StoresOfAt | AudioFileManager.swift:59-61 | the `k`-th record is the `k`-th chosen file's import |
| LegacyAudioFiles.ApplyIsCopied | AudioFileManager.swift:83-105 | applying a file's import record is exactly the single-file import's effect on the table |
| LegacyAudioFiles.ApplyAll | AudioFileManager.swift:59-61 | running the imports one after another never drops an hour that had an entry |
| LegacyAudioFiles.LastImportWins | AudioFileManager.swift:58-62 | over any sequence of import records: the entry for an hour is the one from the last record that was copied to it (carried to the chosen files by `LastChosenFileWins`) |
| LegacyAudioFiles.UntargetedHourUnchanged | AudioFileManager.swift:58-62 | over any sequence of import records: an hour no copied record writes keeps its entry, or stays empty (carried to the chosen files by `UnchosenHourUnchanged`) |
| LegacyAudioFiles.LastChosenFileWins | AudioFileManager.swift:58-62 | after importing the chosen files, an hour holds the entry of the last chosen file that was copied and resolves to it |
| LegacyAudioFiles.UnchosenHourUnchanged | AudioFileManager.swift:58-62 | an hour that no copied chosen file resolves to keeps its entry, or stays empty, after the multi-file import |
| LegacyAudioFiles.AudioFileManager.constructor | AudioFileManager.swift:31-37 | initialisation loads the saved table filtered to existing files and saves it back |
| LegacyAudioFiles.AudioFileManager.GetAudioFile | AudioFileManager.swift:166-168 | the file for an hour is found exactly when the hour has an entry |
| LegacyAudioFiles.AudioFileManager.SaveAudioFiles | AudioFileManager.swift:142-147 | the saved table becomes the current table |
| LegacyAudioFiles.AudioFileManager.LoadAudioFiles | AudioFileManager.swift:149-164 | the same reload filter as the current revision |
| LegacyAudioFiles.AudioFileManager.ImportAudioFile | AudioFileManager.swift:83-105 | there is no validation: a successful copy stores at the resolved hour and saves; a failed copy changes nothing |
| LegacyAudioFiles.AudioFileManager.ImportAudioFiles | AudioFileManager.swift:45-63 | a confirmed panel applies every chosen file's import in order, without an explicit hour (so the last-write-wins lemmas apply); the table is saved when at least one copy succeeds; a cancelled panel changes nothing |
| LegacyAudioFiles.AudioFileManager.RemoveAudioFile | AudioFileManager.swift:130-140 | only that hour's entry goes and the table is saved; an absent hour changes nothing |
| HourlyTimers.MessageText | src/HourlyTimer.swift:122-126 | each message kind opens with its own words ("Playing audio for ", "Playing system sound for ", "Could not play '"), and the played-file body ends with the file name (the missing-file text is at line 146) |
| HourlyTimers.MessageKindsDiffer | src/HourlyTimer.swift:122-146 | the played-file, no-custom-audio and missing-file bodies never read alike, whatever the hour and the file name |
| HourlyTimers.HourText | src/HourlyTimer.swift:123 | `"\(hour):00"`: the text ends in ":00" and, for an hour of the day, what precedes it reads back as the hour |
| HourlyTimers.HourNotification | src/HourlyTimer.swift:118-128 | the hourly notification has the app's title and no sound; it names the file when there is one and says the system sound plays otherwise, for that hour |
| HourlyTimers.MissingFileNotification | src/HourlyTimer.swift:143-149 | the missing-file notification has the warning title and the default sound, and names the file and the hour |
| HourlyTimers.HourActions | src/HourlyTimer.swift:62-75 | one notification per firing; the system sound exactly when no file was played; the file is played first when set and never when unset; the warning exactly when a set file fails; the notification is the hourly one naming the file when it played, the missing-file warning naming the file when it failed, and the hourly "no custom audio set" one when no file is set |
| HourlyTimers.ScheduledFiring | src/HourlyTimer.swift:52-76 | after any firing `lastPlayedHour` is the current hour; nothing happens exactly when the hour was already played; at most one notification |
| HourlyTimers.NewHourActs | src/HourlyTimer.swift:55-60 | a firing in a slot not yet played records the slot and sends one notification |
| HourlyTimers.FirstFiringActs | src/HourlyTimer.swift:13 | since `lastPlayedHour` starts at -1, the first firing always acts |
| HourlyTimers.SameHourActsAtMostOnce | src/HourlyTimer.swift:55-58 | a second firing in the same hour slot does nothing: at most one notification per slot |
| HourlyTimers.NextFireDate | src/HourlyTimer.swift:47 | a repeating timer that fired late moves to the first date after `now` on its hourly grid |
| HourlyTimers.Invalidate | src/HourlyTimer.swift:41 | after `invalidate()` the timer is no longer armed and the others remain |
| HourlyTimers.NoOffsetIffNoSlot | src/HourlyTimer.swift:179-187 | the 24 offsets find no file exactly when no hour of the day has one |
| HourlyTimers.NextAudioTimeIsFirst | src/HourlyTimer.swift:166-188 | the time found is an hour boundary after `now` whose slot has a file, and no boundary in between has one |
| HourlyTimers.HourlyTimer.constructor | src/HourlyTimer.swift:10-18 | no timer is armed, `lastPlayedHour` is -1, nothing has happened yet |
| HourlyTimers.HourlyTimer.Stop | src/HourlyTimer.swift:40-43 | no timer remains armed and the field is nil; stopping again changes nothing |
| HourlyTimers.HourlyTimer.Start | src/HourlyTimer.swift:20-38 | any old timer is cancelled and exactly one one-shot timer is armed, for the next top of the hour, with a delay in (0, 3600] |
| HourlyTimers.HourlyTimer.ScheduleNextHour | src/HourlyTimer.swift:45-50 | exactly one repeating 3600-second timer is armed, first due an hour from now |
| HourlyTimers.HourlyTimer.PlayHourlyAudio | src/HourlyTimer.swift:52-76 | the scheduled firing's effect and the new `lastPlayedHour` are those of the dedup rule |
| HourlyTimers.HourlyTimer.Fire | src/HourlyTimer.swift:32-49 | a one-shot firing plays and hands over to the repeating timer; a repeating firing plays and moves to its next grid date; one timer stays armed |
| HourlyTimers.HourlyTimer.PlayCurrentHourAudio | src/HourlyTimer.swift:78-103 | the manual firing follows the same outcome paths and never reads or changes `lastPlayedHour` |
| HourlyTimers.HourlyTimer.GetNextAudioTime | src/HourlyTimer.swift:166-188 | nil exactly when no offset from 1 to 24 has a file; otherwise the start of the hour plus the smallest such offset |
| Themes.SavedTheme | src/ThemeManager.swift:14-21 | the launch flag is dark only when a Bool is saved under "isDarkMode" |
| Themes.SavedThemeRoundTrip | src/ThemeManager.swift:7-21 | writing a flag and launching again restores that flag |
| Themes.SavedThemeDefaultsToLight | src/ThemeManager.swift:16-21 | an absent, string or data value yields the light theme |
| Themes.SavedThemeOnlyReadsItsKey | src/ThemeManager.swift:16 | other preference keys do not affect the launch flag |
| Themes.AppearanceFor | src/ThemeManager.swift:25-31 | darkAqua exactly for dark, aqua otherwise |
| Themes.IconFor | src/ThemeManager.swift:52-54 | "moon.fill" exactly when dark, "sun.max.fill" exactly when light |
| Themes.NameFor | src/ThemeManager.swift:56-58 | "Dark" exactly when dark, "Light" exactly when light |
| Themes.ThemeManager.constructor | src/ThemeManager.swift:14-23 | the flag is the saved Bool, else light; the appearance follows it; nothing is written |
| Themes.ThemeManager.ApplyTheme | src/ThemeManager.swift:25-31 | the app appearance matches the flag |
| Themes.ThemeManager.SetDarkMode | src/ThemeManager.swift:7-12 | each assignment writes the same value under "isDarkMode" and applies it, so the next launch restores it |
| Themes.ThemeManager.ToggleTheme | src/ThemeManager.swift:44-46 | the flag flips (two toggles restore it), is persisted, and is applied |
| Themes.ThemeManager.ForceRefresh | src/ThemeManager.swift:48-50 | the appearance is re-applied; the flag and the preferences are unchanged |
| Themes.ThemeManager.ThemeIcon | src/ThemeManager.swift:52-54 | the icon of the current theme |
| Themes.ThemeManager.ThemeName | src/ThemeManager.swift:56-58 | the label of the current theme |

## Left out

- Calendar, time zones and DST: the fixed calendar has 3600-second hours and 24-hour days. The `?? now` fallback of `dateInterval(of:for:)` never applies under it.
- Sleep/wake detection, the grace window and stale-firing suppression: src/HourlyTimer.swift does not implement them.
- `HourlyTimer` run-loop details: timer tolerance and coalescing are not modelled. Neither is the `[weak self]` capture, or firing from a thread other than the main one.
- `Fire`: the run loop may fire a timer at any time at or after its date. Which time it chooses is left to the caller, as the `now` argument.
- `requestNotificationPermission`, notification identifiers, delivery errors and all logging: these are I/O with no effect on state.
- `AudioManager.playAudio(from:)`: this is AVFoundation playback. Only its success or failure (`played`) enters the model.
- `testNotificationWithAudio`: it is compiled only with `DEBUG_MODE`, and it repeats `playCurrentHourAudio`'s outcome paths.
- `selectAudioFile(for:)`: this covers the open panel, the sheet versus modal presentation, `findMainWindow`, and the remembered `LastSelectedDirectory`. All of it is UI. Its confirmed path is `ImportAudioFile` with an explicit hour.
- `showValidationAlert` and `ValidationError.description`: these are UI text. `FileTooLarge` carries the size in bytes, where the source divides it to megabytes as a `Double` for display.
- `createAudioDirectoryIfNeeded`, deletion of the copied file on removal, and removal of an older copy before a new one: these are file-system effects. The copy's outcome is an input.
- URLs are strings: the destination is directory + "/" + name. `lastPathComponent` and `pathExtension` are given with each source file rather than parsed.
- JSON encoding and decoding of the table: the saved value is the table itself, or `None` when nothing decodable is saved. `AudioFile`'s random `id` is not modelled.
- `Text.Lower`: it folds ASCII letters only, where `lowercased()` follows Unicode.
- `FilenameHour.MatchAt`: it matches case-insensitively on ASCII letters only, where `NSRegularExpression` works on UTF-16 units. Regular expressions are modelled for the three fixed patterns, not in general.
- `LegacyAudioFiles.AudioFileManager.ImportAudioFiles`: the clock hour used as the fallback for every chosen file is one `now`, where the source reads the clock for each file.
- Preference values that are numbers: `UserDefaults` bridges them to `Bool` for `as? Bool`. The model covers Bool, string and data values only.
- The async window-redraw loop in `applyTheme`, `NSApp.windows`, and the `shared` singletons of all classes.
