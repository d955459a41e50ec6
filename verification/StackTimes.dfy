/**
 Playing a stack of files as if it were one: the times of its parts, seeking across them, and the
 bookmark that stopping leaves and resuming uses. Seconds are real numbers here.
 */
module StackTimes {
  import opened RandR

  const TWO_64 := 0x1_0000_0000_0000_0000
  const STARTOFFSET_RESUME := -1

  /** Subtraction of unsigned 64-bit numbers. */
  function Sub64(a: nat, b: nat): nat { (a - b) % TWO_64 }
  function Add64(a: nat, b: nat): nat { (a + b) % TWO_64 }

  /** The end times of parts of these durations. */
  function Ends(durations: seq<nat>): (ends: seq<nat>)
    ensures |ends| == |durations|
  {
    if durations == [] then []
    else
      var rest := Ends(durations[..|durations| - 1]);
      rest + [(if rest == [] then 0 else rest[|rest| - 1]) + durations[|durations| - 1]]
  }

  function StartOf(ends: seq<nat>, part: nat): nat
    requires part < |ends|
  {
    if part > 0 then ends[part - 1] else 0
  }

  /** Every part lasts, and no time reaches 64 bits. */
  predicate Lasting(ends: seq<nat>) {
    && (forall k {:trigger StartOf(ends, k)} :: 0 <= k < |ends| ==> StartOf(ends, k) < ends[k])
    && (ends != [] ==> ends[|ends| - 1] < TWO_64)
  }

  lemma {:induction false} EndsAreLasting(durations: seq<nat>)
    requires |durations| < 0x8000_0000 && forall k :: 0 <= k < |durations| ==> 0 < durations[k] < 0x8000_0000
    ensures Lasting(Ends(durations))
    ensures durations != [] ==> Ends(durations)[|durations| - 1] <= |durations| * 0x8000_0000
  {
    if durations != [] {
      var n := |durations| - 1;
      EndsAreLasting(durations[..n]);
      forall k | 0 <= k < n ensures StartOf(Ends(durations), k) < Ends(durations)[k] {
        assert StartOf(Ends(durations[..n]), k) < Ends(durations[..n])[k];
      }
    }
  }

  /** The ends are as far apart as the parts last. */
  lemma {:induction false} EndsAddUp(durations: seq<nat>, k: nat)
    requires k < |durations|
    ensures Ends(durations)[k] == StartOf(Ends(durations), k) + durations[k]
  {
    var n := |durations| - 1;
    if k < n {
      EndsAddUp(durations[..n], k);
      assert Ends(durations)[..n] == Ends(durations[..n]);
    }
  }

  /** The part that holds a time: the one it starts before the end of, and at or after the start of. */
  predicate Holds(ends: seq<nat>, part: nat, msecs: nat) {
    part < |ends| && StartOf(ends, part) <= msecs < ends[part]
  }

  lemma {:induction false} EndsIncrease(ends: seq<nat>, i: nat, j: nat)
    requires Lasting(ends) && i < j < |ends|
    ensures ends[i] < ends[j]
  {
    assert StartOf(ends, j) < ends[j];
    if i < j - 1 { EndsIncrease(ends, i, j - 1); }
  }

  lemma EndsReachLast(ends: seq<nat>, i: nat)
    requires Lasting(ends) && i < |ends|
    ensures ends[i] <= ends[|ends| - 1]
  {
    if i < |ends| - 1 { EndsIncrease(ends, i, |ends| - 1); }
  }

  lemma HoldsOnce(ends: seq<nat>, p: nat, q: nat, msecs: nat)
    requires Lasting(ends) && Holds(ends, p, msecs) && Holds(ends, q, msecs)
    ensures p == q
  {
    if p < q - 1 { EndsIncrease(ends, p, q - 1); }
    if q < p - 1 { EndsIncrease(ends, q, p - 1); }
  }

  datatype PartInfo = PartInfo(startTimeMs: nat, totalTimeMs: nat, number: nat)
  datatype Part = Part(path: string, endOffset: nat)
  datatype Bookmark = Bookmark(timeInSeconds: real, totalTimeInSeconds: real, partNumber: nat)

  function EndsOf(parts: seq<Part>): (ends: seq<nat>)
    ensures |ends| == |parts|
    ensures forall i :: 0 <= i < |parts| ==> ends[i] == parts[i].endOffset
  {
    seq(|parts|, i requires 0 <= i < |parts| => parts[i].endOffset)
  }

  ghost predicate DistinctPaths(parts: seq<Part>) {
    forall i, j :: 0 <= i < j < |parts| ==> parts[i].path != parts[j].path
  }

  function Seconds(msecs: nat): real { msecs as real / 1000.0 }
  function Milliseconds(seconds: real): nat
    requires seconds >= 0.0
  {
    (seconds * 1000.0).Floor
  }

  lemma SecondsRoundTrip(msecs: nat)
    ensures Milliseconds(Seconds(msecs)) == msecs
  {
    assert Seconds(msecs) * 1000.0 == msecs as real;
  }

  class StackHelper {
    var parts: seq<Part>
    var position: int
    var registered: map<string, PartInfo>

    constructor (paths: seq<string>)
      ensures |parts| == |paths| && position == 0
      ensures forall i :: 0 <= i < |paths| ==> parts[i].path == paths[i]
    {
      parts := seq(|paths|, i requires 0 <= i < |paths| => Part(paths[i], 0));
      position, registered := 0, map[];
    }

    function EndTimes(): seq<nat>
      reads this`parts
    {
      EndsOf(parts)
    }

    function PartStart(part: nat): nat
      requires part < |parts|
      reads this`parts
    {
      if part > 0 then parts[part - 1].endOffset else 0
    }

    function Total(): nat
      requires parts != []
      reads this`parts
    {
      parts[|parts| - 1].endOffset
    }

    /** The map knows every part by its path. */
    ghost predicate Registered()
      reads this`parts, this`registered
    {
      parts != [] ==> forall i :: 0 <= i < |parts| ==>
        parts[i].path in registered && registered[parts[i].path] == PartInfo(PartStart(i), Total(), i)
    }

    /** The part a time falls into; part 0 for time 0 and for any time beyond the end. */
    method PartNumberAt(msecs: nat) returns (part: nat)
      requires parts != [] && Lasting(EndTimes())
      ensures part < |parts|
      ensures msecs < Total() ==> Holds(EndTimes(), part, msecs)
      ensures msecs >= Total() ==> part == 0
      ensures PartStart(part) <= msecs
    {
      if msecs > 0 {
        part := 0;
        while part < |parts|
          invariant 0 <= part <= |parts|
          invariant forall k :: 0 <= k < part ==> EndTimes()[k] <= msecs
        {
          if msecs < parts[part].endOffset {
            EndsReachLast(EndTimes(), part);
            return;
          }
          part := part + 1;
        }
        assert EndTimes()[|parts| - 1] <= msecs;
      } else {
        assert StartOf(EndTimes(), 0) < EndTimes()[0];
        EndsReachLast(EndTimes(), 0);
      }
      part := 0;
    }

    /**
     Gives every part its end time, from the database or from the files' durations. What the program
     reads beyond the end of too few stored times can be anything.
     */
    method SetTimes(stored: Option<seq<nat>>, durations: seq<Option<nat>>) returns (ok: bool)
      requires parts != [] && |durations| == |parts| < 0x8000_0000
      requires forall k :: 0 <= k < |durations| && durations[k].Some? ==> durations[k].value < 0x8000_0000
      modifies this`parts
      ensures stored.Some? ==> ok && forall k :: 0 <= k < |parts| && k < |stored.value| ==>
        EndTimes()[k] == stored.value[k]
      ensures stored.None? ==> (ok <==> forall k :: 0 <= k < |durations| ==> durations[k].Some?)
      ensures stored.None? && ok ==> EndTimes() == Ends(Known(durations))
      ensures ok ==> |parts| == old(|parts|) && forall i :: 0 <= i < |parts| ==> parts[i].path == old(parts[i].path)
    {
      if stored.Some? {
        SetStoredTimes(stored.value);
        ok := true;
      } else {
        ok := SetAddedTimes(durations);
      }
    }

    method SetStoredTimes(times: seq<nat>)
      modifies this`parts
      ensures |parts| == old(|parts|) && forall i :: 0 <= i < |parts| ==> parts[i].path == old(parts[i].path)
      ensures forall k :: 0 <= k < |parts| && k < |times| ==> parts[k].endOffset == times[k]
    {
      var i := 0;
      while i < |parts|
        invariant 0 <= i <= |parts| == old(|parts|)
        invariant forall k :: 0 <= k < |parts| ==> parts[k].path == old(parts[k].path)
        invariant forall k :: 0 <= k < i && k < |times| ==> parts[k].endOffset == times[k]
      {
        var time: nat := *;
        if i < |times| { time := times[i]; }
        parts := parts[i := parts[i].(endOffset := time)];
        i := i + 1;
      }
    }

    /** The parts have the end times of the first `n` durations, which add up to `total`. */
    ghost predicate Added(durations: seq<Option<nat>>, n: nat, total: nat)
      reads this`parts
    {
      && n <= |durations| == |parts| && (forall k :: 0 <= k < n ==> durations[k].Some?)
      && EndTimes()[..n] == Ends(Known(durations[..n]))
      && total == (if n == 0 then 0 else EndTimes()[n - 1]) <= n * 0x8000_0000
    }

    /** The next part ends as much later as it lasts. */
    method AddTime(durations: seq<Option<nat>>, i: nat, total: nat) returns (total': nat)
      requires i < |durations| == |parts| < 0x8000_0000 && Added(durations, i, total)
      requires durations[i].Some? && durations[i].value < 0x8000_0000
      modifies this`parts
      ensures Added(durations, i + 1, total')
      ensures |parts| == old(|parts|) && forall k :: 0 <= k < |parts| ==> parts[k].path == old(parts[k].path)
    {
      KnownNext(durations, i);
      ghost var before := EndTimes();
      total' := Add64(total, durations[i].value);
      parts := parts[i := parts[i].(endOffset := total')];
      assert EndTimes()[..i] == before[..i];
      assert EndTimes()[..i + 1] == before[..i] + [total'];
    }

    method SetAddedTimes(durations: seq<Option<nat>>) returns (ok: bool)
      requires |durations| == |parts| < 0x8000_0000
      requires forall k :: 0 <= k < |durations| && durations[k].Some? ==> durations[k].value < 0x8000_0000
      modifies this`parts
      ensures ok <==> forall k :: 0 <= k < |durations| ==> durations[k].Some?
      ensures ok ==> EndTimes() == Ends(Known(durations))
      ensures ok ==> |parts| == old(|parts|) && forall i :: 0 <= i < |parts| ==> parts[i].path == old(parts[i].path)
    {
      var totalTimeMs := 0;
      var i := 0;
      assert durations[..0] == [];
      while i < |parts|
        invariant 0 <= i <= |parts| == old(|parts|) && Added(durations, i, totalTimeMs)
        invariant forall k :: 0 <= k < |parts| ==> parts[k].path == old(parts[k].path)
      {
        if durations[i].None? {
          parts := [];
          return false;
        }
        totalTimeMs := AddTime(durations, i, totalTimeMs);
        i := i + 1;
      }
      assert durations[..i] == durations && EndTimes()[..i] == EndTimes();
      ok := true;
    }

    /** Enters every part in the map under its path. */
    method RegisterParts()
      requires parts != []
      modifies this`registered
      ensures DistinctPaths(parts) ==> Registered()
    {
      var i := 0;
      while i < |parts|
        invariant 0 <= i <= |parts|
        invariant DistinctPaths(parts) ==> forall k :: 0 <= k < i ==>
          parts[k].path in registered && registered[parts[k].path] == PartInfo(PartStart(k), Total(), k)
      {
        registered := registered[parts[i].path := PartInfo(PartStart(i), Total(), i)];
        i := i + 1;
      }
    }

    /**
     Picks the part to start with and the offset into it, from a start offset or, for the resume
     mark, from the bookmark the database has. The 64-bit subtraction never wraps, whatever the time.
     */
    method StartPartAndOffset(startOffset: int, databaseOpens: bool, bookmark: Option<Bookmark>) returns (offset: nat)
      requires parts != [] && Lasting(EndTimes())
      requires bookmark.Some? ==> bookmark.value.timeInSeconds >= 0.0
      modifies this`position
      ensures var msecs := StartTime(startOffset, databaseOpens, bookmark);
        && 0 <= position < |parts| && PartStart(position) + offset == msecs
        && (msecs < Total() ==> Holds(EndTimes(), position, msecs))
        && (msecs >= Total() ==> position == 0)
      ensures 0 <= startOffset < TWO_64 ==> PartStart(position) + offset == startOffset
      ensures startOffset == -1 && databaseOpens && bookmark.None? ==> position == 0 && offset == 0
    {
      var msecs := StartTime(startOffset, databaseOpens, bookmark);
      var part := PartNumberAt(msecs);
      if msecs == 0 { FirstHoldsZero(EndTimes(), part); }
      position := part;
      offset := Sub64(msecs, PartStart(part));
    }
  }

  /** A bookmark at a whole millisecond is where resuming starts. */
  lemma {:induction false} ResumesAtBookmark(msecs: nat, bookmark: Bookmark)
    requires msecs < TWO_64 && bookmark.timeInSeconds == msecs as real / 1000.0
    ensures StartTime(-1, true, Some(bookmark)) == msecs
  {
    SecondsRoundTrip(msecs);
  }

  lemma {:induction false} FirstHoldsZero(ends: seq<nat>, part: nat)
    requires Lasting(ends) && part < |ends| && (0 < ends[|ends| - 1] ==> Holds(ends, part, 0))
    ensures part == 0
  {
    assert StartOf(ends, 0) < ends[0];
    EndsReachLast(ends, 0);
    HoldsOnce(ends, 0, part, 0);
  }

  /** The time to start from; without a database the resume mark is left as the number it is. */
  function StartTime(startOffset: int, databaseOpens: bool, bookmark: Option<Bookmark>): (msecs: nat)
    requires bookmark.Some? ==> bookmark.value.timeInSeconds >= 0.0
    ensures msecs < TWO_64
  {
    if startOffset == STARTOFFSET_RESUME && databaseOpens then
      if bookmark.Some? then Milliseconds(bookmark.value.timeInSeconds) % TWO_64 else 0
    else startOffset % TWO_64
  }

  /** The bookmark's time is the time in the stack. */
  lemma BookmarkTime(ends: seq<nat>, bookmark: Bookmark, p: nat, x: nat)
    requires Lasting(ends) && p < |ends| && StartOf(ends, p) + x < ends[p]
    requires bookmark.timeInSeconds == Seconds(x) + Seconds(StartOf(ends, p)) && bookmark.timeInSeconds >= 0.0
    ensures StartTime(STARTOFFSET_RESUME, true, Some(bookmark)) == StartOf(ends, p) + x
  {
    assert Seconds(x) + Seconds(StartOf(ends, p)) == Seconds(StartOf(ends, p) + x);
    SecondsRoundTrip(StartOf(ends, p) + x);
    EndsReachLast(ends, p);
  }

  /** Stopping inside a part and resuming from the bookmark comes back to that part and offset. */
  lemma BookmarkResumes(ends: seq<nat>, bookmark: Bookmark, p: nat, x: nat, part: nat, offset: nat)
    requires Lasting(ends) && p < |ends| && StartOf(ends, p) + x < ends[p]
    requires bookmark.timeInSeconds == Seconds(x) + Seconds(StartOf(ends, p)) && bookmark.timeInSeconds >= 0.0
    requires part < |ends|
    requires var msecs := StartTime(STARTOFFSET_RESUME, true, Some(bookmark));
             && StartOf(ends, part) + offset == msecs && (msecs < ends[|ends| - 1] ==> Holds(ends, part, msecs))
    ensures part == p && offset == x
  {
    var at := StartOf(ends, p) + x;
    BookmarkTime(ends, bookmark, p, x);
    EndsReachLast(ends, p);
    HoldsOnce(ends, p, part, at);
  }

  /** What the user set: stopping so early (in seconds) or so late (in percent) leaves no bookmark. */
  datatype Settings = Settings(ignoreSecondsAtStart: int, ignorePercentAtEnd: real)
  const DEFAULTS := Settings(180, 8.0)

  predicate NearEnd(s: Settings, time: real, total: real) {
    s.ignorePercentAtEnd > 0.0 && total - time < 0.01 * s.ignorePercentAtEnd * total
  }

  /** Stopping at this time leaves a bookmark. */
  predicate WorthResuming(s: Settings, time: real, total: real) {
    time > s.ignoreSecondsAtStart as real && time > 0.0 && !NearEnd(s, time, total)
  }

  /** With the settings as they come, a minute into a stack is forgotten, and so is the last part of an hour. */
  lemma StopsForgotten(total: real)
    ensures !WorthResuming(DEFAULTS, Seconds(60_000), total)
    ensures WorthResuming(DEFAULTS, 1800.0, 3600.0) && !WorthResuming(DEFAULTS, 3400.0, 3600.0)
  {}

  /** The last percents are counted from the end. */
  lemma {:induction false} NearEndMeans(s: Settings, time: real, total: real)
    requires s.ignorePercentAtEnd > 0.0 && total > 0.0
    ensures NearEnd(s, time, total) <==> time / total > 1.0 - s.ignorePercentAtEnd / 100.0
  {
    var share, part := time / total, s.ignorePercentAtEnd / 100.0;
    assert share * total == time && 0.01 * s.ignorePercentAtEnd == part;
    ProductSign(1.0 - share - part, total);
    assert (1.0 - share - part) * total == total - share * total - part * total;
  }

  lemma {:induction false} ProductSign(u: real, t: real)
    requires t > 0.0
    ensures u * t < 0.0 <==> u < 0.0
  {}

  lemma SecondsAdd(a: nat, b: nat)
    ensures Seconds(a) + Seconds(b) == Seconds(a + b)
  {}

  /** The application: a player on one part of the stack. */
  class Application {
    const stack: StackHelper
    const settings: Settings
    /** The bookmark that the database has for the stack. */
    var saved: Option<Bookmark>
    var canSeek: bool
    /** Where the player is in the file it plays. */
    var playerTime: nat
    /** A part the player has been told to play, with the offset to start at. */
    var toPlay: Option<nat>

    constructor (stack: StackHelper, settings: Settings)
      ensures this.stack == stack && this.settings == settings && saved == None
      ensures canSeek && playerTime == 0 && toPlay == None
    {
      this.stack, this.settings, saved := stack, settings, None;
      canSeek, playerTime, toPlay := true, 0, None;
    }

    ghost predicate Valid()
      reads this, stack
    {
      stack.parts != [] && Lasting(stack.EndTimes()) && 0 <= stack.position < |stack.parts|
    }

    /** The current time in the stack, in seconds. */
    function GetTime(): real
      requires Valid()
      reads this, stack
    {
      Seconds(stack.PartStart(stack.position) + playerTime)
    }

    /** Seeks in the part that is playing, or makes another part the current one and has it played. */
    method SeekTime(time: real)
      requires Valid()
      modifies this`playerTime, this`toPlay, stack`position
      ensures Valid()
      ensures time < 0.0 || !canSeek ==> unchanged(this) && unchanged(stack)
      ensures time >= 0.0 && canSeek ==>
        var msecs := Milliseconds(time) % TWO_64;
        && (msecs < stack.Total() ==> Holds(stack.EndTimes(), stack.position, msecs))
        && (stack.position == old(stack.position) ==>
              toPlay == old(toPlay) && stack.PartStart(stack.position) + playerTime == msecs)
        && (stack.position != old(stack.position) ==>
              playerTime == old(playerTime) && toPlay.Some? && stack.PartStart(stack.position) + toPlay.value == msecs)
    {
      if time >= 0.0 && canSeek {
        var msecs := Milliseconds(time) % TWO_64;
        var part := stack.PartNumberAt(msecs);
        var start := stack.PartStart(part);
        if part == stack.position {
          playerTime := Sub64(msecs, start);
        } else {
          stack.position := part;
          toPlay := Some(Sub64(msecs, start));
        }
      }
    }

    /** The posted request is carried out: the player starts the current part at its offset. */
    method PlayPending()
      requires Valid()
      modifies this`playerTime, this`toPlay
      ensures Valid() && toPlay == None
      ensures playerTime == if old(toPlay).Some? then old(toPlay).value else old(playerTime)
    {
      if toPlay.Some? {
        playerTime, toPlay := toPlay.value, None;
      }
    }

    /** Seeking to a whole number of milliseconds, once carried out, makes that the current time. */
    method SeekAndPlay(msecs: nat)
      requires Valid() && canSeek && toPlay == None && msecs < TWO_64
      modifies this`playerTime, this`toPlay, stack`position
      ensures Valid() && GetTime() == Seconds(msecs)
      ensures msecs < stack.Total() ==> Holds(stack.EndTimes(), stack.position, msecs)
    {
      SecondsRoundTrip(msecs);
      SeekTime(Seconds(msecs));
      PlayPending();
    }

    /** Corrects the bookmark of a part that the player closes to one of the stack, and saves it or none. */
    method OnPlayerCloseFile(path: string, timeInPart: nat)
      requires Valid() && stack.Registered() && path in stack.registered
      modifies this`saved
      ensures forall p :: 0 <= p < |stack.parts| && stack.parts[p].path == path ==>
        saved == if WorthResuming(settings, Seconds(stack.PartStart(p) + timeInPart), Seconds(stack.Total()))
                 then Some(Bookmark(Seconds(stack.PartStart(p) + timeInPart), Seconds(stack.Total()), p))
                 else None
    {
      var info := stack.registered[path];
      var bookmark := Bookmark(Seconds(timeInPart) + Seconds(info.startTimeMs), Seconds(info.totalTimeMs), info.number);
      SecondsAdd(timeInPart, info.startTimeMs);
      SaveBookmark(bookmark);
    }

    /** Saves this bookmark of the stack, unless it is too early or too late to be worth it. */
    method SaveBookmark(bookmark: Bookmark)
      modifies this`saved
      ensures saved == if WorthResuming(settings, bookmark.timeInSeconds, bookmark.totalTimeInSeconds)
                       then Some(bookmark) else None
    {
      var resume := Bookmark(0.0, 0.0, 0);
      if NearEnd(settings, bookmark.timeInSeconds, bookmark.totalTimeInSeconds) {
        resume := resume.(timeInSeconds := -1.0);
      } else if bookmark.timeInSeconds > settings.ignoreSecondsAtStart as real {
        resume := bookmark;
      }
      SaveFileState(resume);
    }

    /** A bookmark at no time clears the one the database has. */
    method SaveFileState(bookmark: Bookmark)
      modifies this`saved
      ensures saved == if bookmark.timeInSeconds <= 0.0 then None else Some(bookmark)
    {
      saved := if bookmark.timeInSeconds <= 0.0 then None else Some(bookmark);
    }

    /**
     Stop inside part `p` at `x`, then resume: playback continues in part `p` at `x` exactly if that
     leaves a bookmark or is the very beginning, and else starts over.
     */
    method StopAndResume(p: nat, x: nat) returns (offset: nat)
      requires Valid() && stack.Registered() && p < |stack.parts| && stack.PartStart(p) + x < stack.parts[p].endOffset
      modifies this`saved, stack`position
      ensures var time := stack.PartStart(p) + x;
        var kept := WorthResuming(settings, Seconds(time), Seconds(stack.Total()));
        && (stack.position == p && offset == x <==> kept || time == 0)
        && (!kept ==> stack.position == 0 && offset == 0)
    {
      OnPlayerCloseFile(stack.parts[p].path, x);
      offset := Resume(p, x);
    }

    /** Resumes from the bookmark of a stop in part `p` at `x`, if there is one. */
    method Resume(ghost p: nat, ghost x: nat) returns (offset: nat)
      requires Valid() && p < |stack.parts| && stack.PartStart(p) + x < stack.parts[p].endOffset
      requires saved.Some? ==> saved.value.timeInSeconds == Seconds(stack.PartStart(p) + x) > 0.0
      modifies stack`position
      ensures saved.Some? ==> stack.position == p && offset == x
      ensures saved.None? ==> stack.position == 0 && offset == 0
      ensures stack.PartStart(p) + x == 0 ==> p == 0
    {
      offset := stack.StartPartAndOffset(STARTOFFSET_RESUME, true, saved);
      Resumed(stack.EndTimes(), saved, p, x, stack.position, offset);
    }
  }

  /** Where resuming leads from the bookmark of a stop in part `p` at `x`, and without one. */
  lemma Resumed(ends: seq<nat>, saved: Option<Bookmark>, p: nat, x: nat, part: nat, offset: nat)
    requires Lasting(ends) && p < |ends| && StartOf(ends, p) + x < ends[p] && part < |ends|
    requires saved.Some? ==> saved.value.timeInSeconds == Seconds(StartOf(ends, p) + x) > 0.0
    requires var msecs := StartTime(STARTOFFSET_RESUME, true, saved);
             && StartOf(ends, part) + offset == msecs && (msecs < ends[|ends| - 1] ==> Holds(ends, part, msecs))
    ensures saved.Some? ==> part == p && offset == x
    ensures saved.None? ==> part == 0 && offset == 0
    ensures StartOf(ends, p) + x == 0 ==> p == 0
  {
    if p > 0 {
      assert StartOf(ends, p - 1) < ends[p - 1];
    }
    if saved.Some? {
      SecondsAdd(x, StartOf(ends, p));
      BookmarkResumes(ends, saved.value, p, x, part, offset);
    } else {
      EndsReachLast(ends, 0);
      assert StartOf(ends, 0) < ends[0];
      HoldsOnce(ends, 0, part, 0);
    }
  }

  /** The durations that are known; the others count for nothing. */
  function Known(durations: seq<Option<nat>>): (known: seq<nat>)
    ensures |known| == |durations|
  {
    seq(|durations|, i requires 0 <= i < |durations| => if durations[i].Some? then durations[i].value else 0)
  }

  lemma KnownNext(durations: seq<Option<nat>>, i: nat)
    requires i < |durations| && durations[i].Some?
    ensures Ends(Known(durations[..i + 1]))
         == Ends(Known(durations[..i]))
            + [(if i == 0 then 0 else Ends(Known(durations[..i]))[i - 1]) + durations[i].value]
  {
    assert Known(durations[..i + 1])[..i] == Known(durations[..i]);
  }
}
