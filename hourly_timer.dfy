/**
 * `HourlyTimer`: arms a one-shot timer for the next top of the hour; when
 * it fires, plays the hour's audio and replaces itself with a repeating
 * 3600-second timer. Each scheduled firing is de-duplicated by hour slot.
 *
 * Playback, notifications and the system beep are recorded in an event
 * log; whether playing a file succeeds is an input (`played`), standing in
 * for `AudioManager.playAudio(from:)`.
 */
module HourlyTimers {
  import opened Wrappers
  import opened Clock
  import opened Text
  import opened AudioTable
  import AudioFiles

  const AppTitle: string := "Hourly Audio Player"
  const MissingFileTitle: string := "\U{26A0}\U{FE0F} Audio File Missing"

  /** What a notification's body says, before it is rendered as text. */
  datatype Message = PlayingAudio(hour: int, name: string) | PlayingSystemSound(hour: int) | CouldNotPlay(name: string, hour: int)

  datatype Notification = Notification(title: string, message: Message, withSound: bool)

  /** What the timer does to the outside world, in order. */
  datatype Event = PlayAudio(url: string) | Notify(notification: Notification) | SystemSound

  /** `"\(hour):00"`: the hour in decimal, then ":00". */
  function HourText(hour: int): (text: string)
    ensures |text| >= 4 && text[|text| - 3..] == ":00"
    ensures hour >= 0 ==> AllDigits(text[..|text| - 3]) && DigitsValue(text[..|text| - 3]) == hour
  {
    var digits := IntToString(hour);
    assert hour >= 0 ==> DigitsValue(digits) == hour by {
      if hour >= 0 {
        DigitsValueOfNatToString(hour);
      }
    }
    assert (digits + ":00")[..|digits|] == digits;
    digits + ":00"
  }

  /** The body text the user sees. */
  function MessageText(m: Message): (text: string)
    ensures m.PlayingAudio? ==> |text| > 18 + |m.name| && text[..18] == "Playing audio for " && text[|text| - |m.name|..] == m.name
    ensures m.PlayingSystemSound? ==> |text| > 25 && text[..25] == "Playing system sound for "
    ensures m.CouldNotPlay? ==> |text| > 16 && text[..16] == "Could not play '"
  {
    match m
    case PlayingAudio(hour, name) => "Playing audio for " + HourText(hour) + " - " + name
    case PlayingSystemSound(hour) => "Playing system sound for " + HourText(hour) + " (no custom audio set)"
    case CouldNotPlay(name, hour) =>
      "Could not play '" + name + "' for " + HourText(hour)
      + ". File may be missing, moved, or corrupted. Playing system sound instead."
  }

  /** The three kinds of message read differently, whatever the hour and the name. */
  lemma MessageKindsDiffer(m1: Message, m2: Message)
    requires !(m1.PlayingAudio? && m2.PlayingAudio?)
    requires !(m1.PlayingSystemSound? && m2.PlayingSystemSound?)
    requires !(m1.CouldNotPlay? && m2.CouldNotPlay?)
    ensures MessageText(m1) != MessageText(m2)
  {
    var t1, t2 := MessageText(m1), MessageText(m2);
    if m1.CouldNotPlay? || m2.CouldNotPlay? {
      assert t1[0] != t2[0];
    } else {
      assert t1[8] != t2[8];
    }
  }

  /** `sendNotification(for:audioFile:)`: silent, since the app plays its own audio. */
  function HourNotification(hour: int, file: Option<AudioFile>): (n: Notification)
    ensures n.title == AppTitle && !n.withSound
    ensures n.message.hour == hour
    ensures file.Some? <==> n.message.PlayingAudio?
    ensures file.Some? ==> n.message.name == file.value.name
    ensures file.None? <==> n.message.PlayingSystemSound?
  {
    match file
    case Some(f) => Notification(AppTitle, PlayingAudio(hour, f.name), false)
    case None => Notification(AppTitle, PlayingSystemSound(hour), false)
  }

  /** `sendMissingFileNotification(for:audioFile:)`: a warning with the default sound. */
  function MissingFileNotification(hour: int, file: AudioFile): (n: Notification)
    ensures n.title == MissingFileTitle && n.withSound
    ensures n.message == CouldNotPlay(file.name, hour)
  {
    Notification(MissingFileTitle, CouldNotPlay(file.name, hour), true)
  }

  /** The notifications among `events`, in order. */
  function Notifications(events: seq<Event>): seq<Notification> {
    if events == [] then []
    else (if events[0].Notify? then [events[0].notification] else []) + Notifications(events[1..])
  }

  lemma {:induction false} NotificationsAppend(a: seq<Event>, b: seq<Event>)
    ensures Notifications(a + b) == Notifications(a) + Notifications(b)
  {
    if a == [] {
      assert a + b == b;
    } else {
      var head := if a[0].Notify? then [a[0].notification] else [];
      assert (a + b)[0] == a[0];
      assert (a + b)[1..] == a[1..] + b;
      NotificationsAppend(a[1..], b);
      calc {
        Notifications(a + b);
        head + Notifications(a[1..] + b);
        head + (Notifications(a[1..]) + Notifications(b));
        (head + Notifications(a[1..])) + Notifications(b);
      }
    }
  }

  /**
   * The three outcome paths shared by the scheduled and the manual firing:
   * file set and played, file set but not played, no file set.
   */
  function HourActions(hour: int, file: Option<AudioFile>, played: bool): (events: seq<Event>)
    ensures |Notifications(events)| == 1
    ensures SystemSound in events <==> !(file.Some? && played)
    ensures file.Some? ==> events[0] == PlayAudio(file.value.url)
    ensures file.None? ==> forall e :: e in events ==> !e.PlayAudio?
    ensures Notifications(events)[0].title == MissingFileTitle <==> file.Some? && !played
    ensures file.Some? && played ==> Notifications(events)[0] == HourNotification(hour, file)
    ensures file.Some? && !played ==> Notifications(events)[0] == MissingFileNotification(hour, file.value)
    ensures file.None? ==> Notifications(events)[0] == HourNotification(hour, None)
  {
    assert AppTitle[0] != MissingFileTitle[0];
    match file
    case Some(f) =>
      if played then
        var events := [PlayAudio(f.url), Notify(HourNotification(hour, file))];
        NotificationsOfEach(events);
        events
      else
        var events := [PlayAudio(f.url), Notify(MissingFileNotification(hour, f)), SystemSound];
        NotificationsOfEach(events);
        events
    case None =>
      var events := [SystemSound, Notify(HourNotification(hour, None))];
      NotificationsOfEach(events);
      events
  }

  /** `Notifications` on a list of up to three events, spelled out. */
  lemma NotificationsOfEach(events: seq<Event>)
    requires |events| <= 3
    ensures Notifications(events) ==
              (if |events| > 0 && events[0].Notify? then [events[0].notification] else []) +
              (if |events| > 1 && events[1].Notify? then [events[1].notification] else []) +
              (if |events| > 2 && events[2].Notify? then [events[2].notification] else [])
  {
    if events != [] {
      NotificationsOfEach(events[1..]);
    }
  }

  /** The new `lastPlayedHour` and what a scheduled firing did. */
  datatype Firing = Firing(lastPlayedHour: int, events: seq<Event>)

  /** `playHourlyAudio`: skip an hour already played, else record it first and act. */
  function ScheduledFiring(lastPlayedHour: int, files: Table, now: int, played: bool): (f: Firing)
    ensures f.lastPlayedHour == HourOf(now)
    ensures f.events == [] <==> HourOf(now) == lastPlayedHour
    ensures |Notifications(f.events)| <= 1
  {
    var hour := HourOf(now);
    if hour == lastPlayedHour then Firing(lastPlayedHour, [])
    else Firing(hour, HourActions(hour, Lookup(files, hour), played))
  }

  /** A firing in an hour slot not yet played acts once and records that slot. */
  lemma NewHourActs(lastPlayedHour: int, files: Table, now: int, played: bool)
    requires HourOf(now) != lastPlayedHour
    ensures ScheduledFiring(lastPlayedHour, files, now, played).lastPlayedHour == HourOf(now)
    ensures |Notifications(ScheduledFiring(lastPlayedHour, files, now, played).events)| == 1
  {
  }

  /** From the initial -1 the first firing always acts, whatever the hour. */
  lemma FirstFiringActs(files: Table, now: int, played: bool)
    ensures ScheduledFiring(-1, files, now, played).lastPlayedHour == HourOf(now)
    ensures |Notifications(ScheduledFiring(-1, files, now, played).events)| == 1
  {
    NewHourActs(-1, files, now, played);
  }

  /** Two firings in the same hour slot: the second does nothing, so at most one notification. */
  lemma SameHourActsAtMostOnce(lastPlayedHour: int, files: Table, t1: int, t2: int, p1: bool, p2: bool)
    requires HourOf(t1) == HourOf(t2)
    ensures var first := ScheduledFiring(lastPlayedHour, files, t1, p1);
            var second := ScheduledFiring(first.lastPlayedHour, files, t2, p2);
            && second == Firing(first.lastPlayedHour, [])
            && |Notifications(first.events + second.events)| <= 1
  {
    var first := ScheduledFiring(lastPlayedHour, files, t1, p1);
    var second := ScheduledFiring(first.lastPlayedHour, files, t2, p2);
    assert first.lastPlayedHour == HourOf(t1);
    NotificationsAppend(first.events, second.events);
    assert first.events + second.events == first.events;
  }

  /** A scheduled `Timer`: when it next fires, its interval, whether it repeats. */
  datatype Timer = Timer(fireAt: int, interval: int, repeats: bool)

  /**
   * Where the run loop puts a repeating hourly timer after it fires at
   * `now`: the first date after `now` on its grid of scheduled dates, one
   * hour apart (firings missed while late are skipped, not replayed).
   */
  function NextFireDate(fireAt: int, now: int): (next: int)
    requires fireAt <= now
    ensures now < next <= now + SecondsPerHour
    ensures next - fireAt >= SecondsPerHour && (next - fireAt) % SecondsPerHour == 0
  {
    var missed := (now - fireAt) / SecondsPerHour;
    fireAt + SecondsPerHour * (missed + 1)
  }

  /** The run loop's list after `invalidate()`: the timer is gone from it. */
  function Invalidate(runLoop: seq<Timer>, t: Timer): (r: seq<Timer>)
    ensures t !in r
    ensures forall u :: u in r <==> u in runLoop && u != t
    ensures (forall u :: u in runLoop ==> u == t) ==> r == []
  {
    if runLoop == [] then []
    else
      var rest := Invalidate(runLoop[1..], t);
      assert forall u :: u in runLoop[1..] ==> u in runLoop;
      assert runLoop[0] in runLoop;
      if runLoop[0] == t then rest else [runLoop[0]] + rest
  }

  /** For an hour slot `hour`, the slot `k` hours later has a file. */
  predicate HasFileAfter(files: Table, hour: int, k: int) {
    (hour + k) % HoursPerDay in files
  }

  /** `k` is the smallest offset in 1 to 24 whose slot has a file. */
  predicate IsFirstFileOffset(files: Table, hour: int, k: int) {
    1 <= k <= HoursPerDay && HasFileAfter(files, hour, k) &&
    forall j :: 1 <= j < k ==> !HasFileAfter(files, hour, j)
  }

  /** The 24 offsets after any slot visit every slot: nil iff no slot has a file. */
  lemma NoOffsetIffNoSlot(files: Table, hour: int)
    requires 0 <= hour < HoursPerDay
    ensures (forall k :: 1 <= k <= HoursPerDay ==> !HasFileAfter(files, hour, k)) <==>
            (forall s :: 0 <= s < HoursPerDay ==> s !in files)
  {
    if forall k :: 1 <= k <= HoursPerDay ==> !HasFileAfter(files, hour, k) {
      forall s | 0 <= s < HoursPerDay
        ensures s !in files
      {
        var k := if s > hour then s - hour else s - hour + HoursPerDay;
        assert (hour + k) % HoursPerDay == s;
        assert !HasFileAfter(files, hour, k);
      }
    }
    if forall s :: 0 <= s < HoursPerDay ==> s !in files {
      forall k | 1 <= k <= HoursPerDay
        ensures !HasFileAfter(files, hour, k)
      {
        assert 0 <= (hour + k) % HoursPerDay < HoursPerDay;
      }
    }
  }

  /**
   * The time `getNextAudioTime` gives is the first hour boundary after
   * `now` whose slot has a file: it is on a boundary, after `now`, its slot
   * has a file, and no boundary between `now` and it does.
   */
  lemma NextAudioTimeIsFirst(files: Table, now: int, k: int, b: int)
    requires IsFirstFileOffset(files, HourOf(now), k)
    ensures var next := StartOfHour(now) + k * SecondsPerHour;
            && now < next && OnHourBoundary(next) && HourOf(next) in files
            && (OnHourBoundary(b) && now < b < next ==> HourOf(b) !in files)
  {
    var s := StartOfHour(now);
    var next := s + k * SecondsPerHour;
    NextHourBoundarySlot(now);
    AddHoursSlot(s, k);
    if OnHourBoundary(b) && now < b < next {
      var j := (b - s) / SecondsPerHour;
      assert b - s == j * SecondsPerHour by {
        assert s == (s / SecondsPerHour) * SecondsPerHour;
        assert b == (b / SecondsPerHour) * SecondsPerHour;
        assert b - s == (b / SecondsPerHour - s / SecondsPerHour) * SecondsPerHour;
      }
      assert 1 <= j < k;
      AddHoursSlot(s, j);
      assert b == s + j * SecondsPerHour;
      assert !HasFileAfter(files, HourOf(now), j);
    }
  }

  class HourlyTimer {
    /** The `timer` field. */
    var timer: Option<Timer>
    /** The timers the run loop currently has armed. */
    var runLoop: seq<Timer>
    var lastPlayedHour: int
    var log: seq<Event>
    const audioFileManager: AudioFiles.AudioFileManager

    /** The field names the one armed timer, and no other timer is armed. */
    ghost predicate Valid()
      reads this
    {
      && runLoop == (if timer.Some? then [timer.value] else [])
      && (timer.Some? ==> 0 < timer.value.interval)
      && (timer.Some? && timer.value.repeats ==> timer.value.interval == SecondsPerHour)
    }

    /** `init`; `lastPlayedHour` starts at -1, an hour no clock shows. */
    constructor (audioFileManager: AudioFiles.AudioFileManager)
      ensures Valid()
      ensures this.audioFileManager == audioFileManager
      ensures timer.None? && lastPlayedHour == -1 && log == []
    {
      this.audioFileManager := audioFileManager;
      timer := None;
      runLoop := [];
      lastPlayedHour := -1;
      log := [];
    }

    /** `stop()`: invalidate and drop the timer; a second call changes nothing. */
    method Stop()
      requires Valid()
      modifies this`timer, this`runLoop
      ensures Valid()
      ensures timer.None? && runLoop == []
    {
      if timer.Some? {
        runLoop := Invalidate(runLoop, timer.value);
      }
      timer := None;
    }

    /**
     * `start()`: cancel any old timer, then arm a one-shot timer for the
     * start of the current hour plus one hour.
     */
    method Start(now: int)
      requires Valid()
      modifies this`timer, this`runLoop
      ensures Valid()
      ensures timer == Some(Timer(NextHourBoundary(now), NextHourBoundary(now) - now, false))
      ensures 0 < timer.value.interval <= SecondsPerHour && OnHourBoundary(timer.value.fireAt)
    {
      Stop();
      var startOfCurrentHour := StartOfHour(now);
      var nextHour := startOfCurrentHour + SecondsPerHour;
      var timeInterval := nextHour - now;
      var t := Timer(now + timeInterval, timeInterval, false);
      assert runLoop + [t] == [t];
      runLoop := runLoop + [t];
      timer := Some(t);
    }

    /** `scheduleNextHour()`: arm a repeating 3600-second timer, once the one-shot is gone. */
    method ScheduleNextHour(now: int)
      requires runLoop == []
      modifies this`timer, this`runLoop
      ensures Valid()
      ensures timer == Some(Timer(now + SecondsPerHour, SecondsPerHour, true))
    {
      var t := Timer(now + SecondsPerHour, SecondsPerHour, true);
      runLoop := runLoop + [t];
      timer := Some(t);
    }

    /** `playHourlyAudio()`: once per hour slot, the hour's outcome path. */
    method PlayHourlyAudio(now: int, played: bool)
      modifies this`lastPlayedHour, this`log
      ensures var f := ScheduledFiring(old(lastPlayedHour), audioFileManager.audioFiles, now, played);
              lastPlayedHour == f.lastPlayedHour && log == old(log) + f.events
    {
      var currentHour := HourOf(now);
      if currentHour == lastPlayedHour {
        return;
      }
      lastPlayedHour := currentHour;
      var audioFile := audioFileManager.GetAudioFile(currentHour);
      match audioFile
      case Some(file) =>
        log := log + [PlayAudio(file.url)];
        if played {
          log := log + [Notify(HourNotification(currentHour, audioFile))];
        } else {
          log := log + [Notify(MissingFileNotification(currentHour, file))];
          log := log + [SystemSound];
        }
      case None =>
        log := log + [SystemSound];
        log := log + [Notify(HourNotification(currentHour, None))];
    }

    /**
     * The armed timer fires at `now` (at or after its date). A one-shot plays
     * and hands over to a repeating timer; a repeating one plays and is
     * moved to its next date.
     */
    method Fire(now: int, played: bool)
      requires Valid() && timer.Some? && timer.value.fireAt <= now
      modifies this
      ensures Valid()
      ensures var f := ScheduledFiring(old(lastPlayedHour), audioFileManager.audioFiles, now, played);
              lastPlayedHour == f.lastPlayedHour && log == old(log) + f.events
      ensures !old(timer.value.repeats) ==> timer == Some(Timer(now + SecondsPerHour, SecondsPerHour, true))
      ensures old(timer.value.repeats) ==>
                timer == Some(Timer(NextFireDate(old(timer.value.fireAt), now), SecondsPerHour, true))
    {
      var t := timer.value;
      if !t.repeats {
        runLoop := Invalidate(runLoop, t);
        PlayHourlyAudio(now, played);
        ScheduleNextHour(now);
      } else {
        PlayHourlyAudio(now, played);
        var rescheduled := t.(fireAt := NextFireDate(t.fireAt, now));
        runLoop := Invalidate(runLoop, t) + [rescheduled];
        timer := Some(rescheduled);
      }
    }

    /** `playCurrentHourAudio()`: the same outcome paths, never gated by `lastPlayedHour`. */
    method PlayCurrentHourAudio(now: int, played: bool)
      modifies this`log
      ensures log == old(log) + HourActions(HourOf(now), Lookup(audioFileManager.audioFiles, HourOf(now)), played)
    {
      var currentHour := HourOf(now);
      var audioFile := audioFileManager.GetAudioFile(currentHour);
      match audioFile
      case Some(file) =>
        log := log + [PlayAudio(file.url)];
        if played {
          log := log + [Notify(HourNotification(currentHour, audioFile))];
        } else {
          log := log + [Notify(MissingFileNotification(currentHour, file))];
          log := log + [SystemSound];
        }
      case None =>
        log := log + [SystemSound];
        log := log + [Notify(HourNotification(currentHour, None))];
    }

    /**
     * `getNextAudioTime()`: the start of the current hour plus `k` hours for
     * the smallest `k` in 1 to 24 whose slot has a file; nil when none has.
     */
    method GetNextAudioTime(now: int) returns (next: Option<int>)
      ensures next.None? <==> forall k :: 1 <= k <= HoursPerDay ==> !HasFileAfter(audioFileManager.audioFiles, HourOf(now), k)
      ensures next.Some? ==> exists k :: IsFirstFileOffset(audioFileManager.audioFiles, HourOf(now), k) &&
                                         next.value == StartOfHour(now) + k * SecondsPerHour
    {
      var files := audioFileManager.audioFiles;
      var currentHour := HourOf(now);
      var nextHour := (currentHour + 1) % HoursPerDay;
      if audioFileManager.GetAudioFile(nextHour).Some? {
        assert IsFirstFileOffset(files, currentHour, 1);
        return Some(StartOfHour(now) + SecondsPerHour);
      }
      for hourOffset := 1 to HoursPerDay + 1
        invariant forall j :: 1 <= j < hourOffset ==> !HasFileAfter(files, currentHour, j)
      {
        var checkHour := (currentHour + hourOffset) % HoursPerDay;
        if audioFileManager.GetAudioFile(checkHour).Some? {
          assert IsFirstFileOffset(files, currentHour, hourOffset);
          return Some(StartOfHour(now) + hourOffset * SecondsPerHour);
        }
      }
      return None;
    }
  }
}
