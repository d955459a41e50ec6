/**
 The parser of cue sheets: lines that name a file, begin a track, or give the time at which the
 track begins become a list of tracks with start and end times in milliseconds; end 0 is open.
 */
module CueSheet {
  import opened CueTime

  /** A line by its keyword; `tail` is what follows "INDEX 01". Keywords that do not matter here are `Other`. */
  datatype Line =
    | Index01(tail: string)
    | Title(text: string)
    | Performer(text: string)
    | TrackLine(number: int)
    | FileLine(name: string)
    | Other

  datatype Track = Track(file: string, number: int, title: string, artist: string, start: int, end: int)

  /** What the lines so far amount to. */
  datatype Reading = Reading(
    tracks: seq<Track>, file: string, changed: bool, files: nat, album: string, artist: string, failed: bool)

  const NOTHING := Reading([], "", false, 0, "", "", false)

  function TimeOf(tail: string): int { ExtractTimeFromIndex(" 01" + tail) }

  /** The name by which a FILE line is known; a sheet without a path of its own leaves it as it is. */
  function FileName(name: string, resolve: string -> string): string {
    if name != "" then resolve(name) else name
  }

  /** The time of an INDEX 01 line starts the last track, and ends the one before it in the same file. */
  function Timed(tracks: seq<Track>, file: string, time: int): (timed: seq<Track>)
    ensures |timed| == |tracks|
  {
    var n := |tracks|;
    if n == 0 then []
    else
      var started := tracks[n - 1 := tracks[n - 1].(start := time)];
      if n > 1 && tracks[n - 2].file == file then started[n - 2 := tracks[n - 2].(end := time)] else started
  }

  /** The tracks with the last one replaced. */
  function WithLast(tracks: seq<Track>, track: Track): (changed: seq<Track>)
    requires tracks != []
    ensures |changed| == |tracks|
  {
    tracks[|tracks| - 1 := track]
  }

  function Last(tracks: seq<Track>): Track
    requires tracks != []
  {
    tracks[|tracks| - 1]
  }

  /** The reading after one more line. */
  function Step(r: Reading, line: Line, resolve: string -> string): Reading {
    if r.failed then r
    else match line
      case Index01(tail) =>
        if r.changed || TimeOf(tail) == -1 then r.(failed := true)
        else r.(tracks := Timed(r.tracks, r.file, TimeOf(tail)))
      case Title(text) =>
        if r.tracks == [] then r.(album := text)
        else r.(tracks := WithLast(r.tracks, Last(r.tracks).(title := text)))
      case Performer(text) =>
        if r.tracks == [] then r.(artist := text)
        else r.(tracks := WithLast(r.tracks, Last(r.tracks).(artist := text)))
      case TrackLine(number) =>
        var track := Track(r.file, if number > 0 then number else |r.tracks| + 1, "", "", 0, 0);
        r.(tracks := r.tracks + [track], changed := false)
      case FileLine(name) =>
        r.(files := r.files + 1, changed := r.changed || r.file != "", file := FileName(name, resolve))
      case Other => r
  }

  /** The reading that goes on from `r` over these lines. */
  function Fold(r: Reading, lines: seq<Line>, resolve: string -> string): Reading {
    if lines == [] then r
    else Step(Fold(r, lines[..|lines| - 1], resolve), lines[|lines| - 1], resolve)
  }

  function Read(lines: seq<Line>, resolve: string -> string): Reading { Fold(NOTHING, lines, resolve) }

  lemma {:induction false} FoldConcat(r: Reading, a: seq<Line>, b: seq<Line>, resolve: string -> string)
    ensures Fold(r, a + b, resolve) == Fold(Fold(r, a, resolve), b, resolve)
  {
    if b == [] {
      assert a + b == a;
    } else {
      FoldConcat(r, a, b[..|b| - 1], resolve);
      assert (a + b)[..|a + b| - 1] == a + b[..|b| - 1];
    }
  }

  lemma ReadNext(lines: seq<Line>, i: nat, resolve: string -> string)
    requires i < |lines|
    ensures Read(lines[..i + 1], resolve) == Step(Read(lines[..i], resolve), lines[i], resolve)
  {
    assert lines[..i + 1][..i] == lines[..i];
  }

  lemma {:induction false} FailedStays(lines: seq<Line>, i: nat, resolve: string -> string)
    requires i <= |lines| && Read(lines[..i], resolve).failed
    ensures Read(lines, resolve) == Read(lines[..i], resolve)
    decreases |lines| - i
  {
    if i < |lines| {
      ReadNext(lines, i, resolve);
      FailedStays(lines, i + 1, resolve);
    } else {
      assert lines[..i] == lines;
    }
  }

  lemma {:induction false} LastEndIsOpen(lines: seq<Line>, resolve: string -> string)
    ensures var tracks := Read(lines, resolve).tracks; tracks != [] ==> Last(tracks).end == 0
  {
    if lines != [] { LastEndIsOpen(lines[..|lines| - 1], resolve); }
  }

  /** The file that the last FILE line named. */
  function CurrentFile(lines: seq<Line>, resolve: string -> string): string {
    if lines == [] then ""
    else if lines[|lines| - 1].FileLine? then FileName(lines[|lines| - 1].name, resolve)
    else CurrentFile(lines[..|lines| - 1], resolve)
  }

  /** Some file took the place of another since the last TRACK line. */
  ghost predicate Switched(lines: seq<Line>, resolve: string -> string) {
    exists j :: 0 <= j < |lines| && SwitchedAt(lines, j, resolve)
  }

  ghost predicate SwitchedAt(lines: seq<Line>, j: nat, resolve: string -> string)
    requires j < |lines|
  {
    && lines[j].FileLine? && CurrentFile(lines[..j], resolve) != ""
    && forall k :: j <= k < |lines| ==> !lines[k].TrackLine?
  }

  /** An INDEX 01 line with a mangled time, or for a track that is split over files. */
  ghost predicate Wrong(lines: seq<Line>, k: nat, resolve: string -> string)
    requires k < |lines|
  {
    lines[k].Index01? && (TimeOf(lines[k].tail) == -1 || Switched(lines[..k], resolve))
  }

  lemma SwitchedNext(lines: seq<Line>, line: Line, resolve: string -> string)
    ensures Switched(lines + [line], resolve) <==>
      (if line.TrackLine? then false
       else Switched(lines, resolve) || (line.FileLine? && CurrentFile(lines, resolve) != ""))
  {
    var all, n := lines + [line], |lines|;
    assert forall j :: 0 <= j < n ==> all[..j] == lines[..j];
    assert all[..n] == lines && all[n] == line;
    if j :| 0 <= j < n && SwitchedAt(lines, j, resolve) && !line.TrackLine? {
      assert SwitchedAt(all, j, resolve);
    }
    if line.FileLine? && CurrentFile(lines, resolve) != "" {
      assert SwitchedAt(all, n, resolve);
    }
    if j :| 0 <= j <= n && SwitchedAt(all, j, resolve) {
      if j < n { assert forall k :: j <= k < n ==> lines[k] == all[k]; assert SwitchedAt(lines, j, resolve); }
    }
  }

  lemma {:induction false} ReadTracksFile(lines: seq<Line>, resolve: string -> string)
    requires !Read(lines, resolve).failed
    ensures Read(lines, resolve).file == CurrentFile(lines, resolve)
    ensures Read(lines, resolve).changed <==> Switched(lines, resolve)
  {
    if lines != [] {
      var before, line := lines[..|lines| - 1], lines[|lines| - 1];
      ReadTracksFile(before, resolve);
      SwitchedNext(before, line, resolve);
      assert before + [line] == lines;
    }
  }

  /** A sheet is refused for exactly these reasons. */
  lemma {:induction false} ReadFails(lines: seq<Line>, resolve: string -> string)
    ensures Read(lines, resolve).failed <==> exists k :: 0 <= k < |lines| && Wrong(lines, k, resolve)
  {
    if lines != [] {
      var n := |lines| - 1;
      var before := lines[..n];
      ReadFails(before, resolve);
      forall k | 0 <= k < n ensures Wrong(lines, k, resolve) <==> Wrong(before, k, resolve) {
        assert lines[..k] == before[..k];
      }
      if !Read(before, resolve).failed {
        ReadTracksFile(before, resolve);
        assert Read(lines, resolve).failed <==> Wrong(lines, n, resolve);
      }
    }
  }

  /** Where a track is to end: where the next one of its file starts; open before another file, and at the end. */
  function EndAt(tracks: seq<Track>, i: nat): int
    requires i < |tracks|
  {
    if i + 1 < |tracks| && tracks[i + 1].file == tracks[i].file then tracks[i + 1].start else 0
  }

  ghost predicate Tiles(tracks: seq<Track>) {
    forall i {:trigger EndAt(tracks, i)} :: 0 <= i < |tracks| ==> tracks[i].end == EndAt(tracks, i)
  }

  /** Every TRACK line comes after a FILE line that gives a name. */
  ghost predicate Named(lines: seq<Line>, resolve: string -> string) {
    forall k :: 0 <= k < |lines| && lines[k].TrackLine? ==> CurrentFile(lines[..k], resolve) != ""
  }

  lemma NamedBefore(lines: seq<Line>, resolve: string -> string)
    requires lines != [] && Named(lines, resolve)
    ensures Named(lines[..|lines| - 1], resolve)
    ensures lines[|lines| - 1].TrackLine? ==> CurrentFile(lines[..|lines| - 1], resolve) != ""
  {
    var before := lines[..|lines| - 1];
    assert forall k :: 0 <= k < |before| ==> before[..k] == lines[..k];
  }

  /** With a track begun, either its file is the current one or some file took its place. */
  ghost predicate Anchored(r: Reading) {
    r.tracks != [] ==> r.changed || (r.file != "" && r.file == Last(r.tracks).file)
  }

  lemma TimedTiles(tracks: seq<Track>, file: string, time: int)
    requires Tiles(tracks) && (tracks != [] ==> file == Last(tracks).file)
    ensures Tiles(Timed(tracks, file, time))
    ensures tracks != [] ==> Last(Timed(tracks, file, time)).file == Last(tracks).file
  {
    var n, timed := |tracks|, Timed(tracks, file, time);
    forall i | 0 <= i < n ensures timed[i].end == EndAt(timed, i) {
      assert tracks[i].end == EndAt(tracks, i);
    }
  }

  lemma SameTimesTile(tracks: seq<Track>, track: Track)
    requires Tiles(tracks) && tracks != [] && track == Last(tracks).(title := track.title, artist := track.artist)
    ensures Tiles(WithLast(tracks, track))
  {
    var after := WithLast(tracks, track);
    forall i | 0 <= i < |after| ensures after[i].end == EndAt(after, i) {
      assert tracks[i].end == EndAt(tracks, i);
    }
  }

  lemma NewTrackTiles(tracks: seq<Track>, track: Track)
    requires Tiles(tracks) && track.start == 0 && track.end == 0
    ensures Tiles(tracks + [track])
  {
    var after := tracks + [track];
    forall i | 0 <= i < |after| ensures after[i].end == EndAt(after, i) {
      assert i < |tracks| ==> tracks[i].end == EndAt(tracks, i);
    }
  }

  lemma StepTiles(r: Reading, line: Line, resolve: string -> string)
    requires Tiles(r.tracks) && Anchored(r) && (line.TrackLine? ==> r.file != "")
    requires !Step(r, line, resolve).failed
    ensures Tiles(Step(r, line, resolve).tracks) && Anchored(Step(r, line, resolve))
  {
    match line
    case Index01(tail) => TimedTiles(r.tracks, r.file, TimeOf(tail));
    case Title(text) => if r.tracks != [] { SameTimesTile(r.tracks, Last(r.tracks).(title := text)); }
    case Performer(text) => if r.tracks != [] { SameTimesTile(r.tracks, Last(r.tracks).(artist := text)); }
    case TrackLine(number) =>
      NewTrackTiles(r.tracks, Track(r.file, if number > 0 then number else |r.tracks| + 1, "", "", 0, 0));
    case _ =>
  }

  /** The tracks of every sheet that is accepted tile, however many INDEX 01 lines its tracks have. */
  lemma {:induction false} TracksTile(lines: seq<Line>, resolve: string -> string)
    requires Named(lines, resolve) && !Read(lines, resolve).failed
    ensures Tiles(Read(lines, resolve).tracks) && Anchored(Read(lines, resolve))
  {
    if lines != [] {
      var before := lines[..|lines| - 1];
      NamedBefore(lines, resolve);
      TracksTile(before, resolve);
      ReadTracksFile(before, resolve);
      StepTiles(Read(before, resolve), lines[|lines| - 1], resolve);
    }
  }

  lemma OneSecond()
    ensures TimeOf(" 00:01:00") == 1000
  {
    assert " 00:01:00" == " " + Msf(0, 1, 0);
    RoundTrip(0, 1, 0);
  }

  /** A TRACK line before the first FILE line: the end of the first track is lost. */
  lemma UnnamedTracksNeedNotTile(resolve: string -> string)
    requires resolve("a") == "a"
    ensures var lines := [TrackLine(1), TrackLine(2), FileLine("a"), Index01(" 00:01:00")];
      && !Read(lines, resolve).failed && !Tiles(Read(lines, resolve).tracks)
  {
    var lines := [TrackLine(1), TrackLine(2), FileLine("a"), Index01(" 00:01:00")];
    OneSecond();
    ReadNext(lines, 0, resolve);
    ReadNext(lines, 1, resolve);
    ReadNext(lines, 2, resolve);
    ReadNext(lines, 3, resolve);
    assert lines[..4] == lines;
    var tracks := Read(lines, resolve).tracks;
    assert tracks[0].end == 0 && tracks[1].start == 1000;
    assert tracks[0].end != EndAt(tracks, 0);
  }

  // ----- exactly when the tracks tile -----

  function TrackCount(lines: seq<Line>): nat {
    if lines == [] then 0
    else TrackCount(lines[..|lines| - 1]) + if lines[|lines| - 1].TrackLine? then 1 else 0
  }

  /** The file that was current at the last TRACK line. */
  function TrackFile(lines: seq<Line>, resolve: string -> string): string {
    if lines == [] then ""
    else
      var before := lines[..|lines| - 1];
      if lines[|lines| - 1].TrackLine? then CurrentFile(before, resolve) else TrackFile(before, resolve)
  }

  /** The file that was current at the TRACK line before the last one. */
  function FormerFile(lines: seq<Line>, resolve: string -> string): string {
    if lines == [] then ""
    else
      var before := lines[..|lines| - 1];
      if lines[|lines| - 1].TrackLine? then TrackFile(before, resolve) else FormerFile(before, resolve)
  }

  /** The last INDEX 01 time since the last TRACK line; 0 if there is none. */
  function LastTime(lines: seq<Line>): int {
    if lines == [] || lines[|lines| - 1].TrackLine? then 0
    else if lines[|lines| - 1].Index01? then TimeOf(lines[|lines| - 1].tail)
    else LastTime(lines[..|lines| - 1])
  }

  /** The last INDEX 01 time since the last TRACK line that was given while `file` was current; 0 if there is none. */
  function LastTimeUnder(lines: seq<Line>, file: string, resolve: string -> string): int {
    if lines == [] || lines[|lines| - 1].TrackLine? then 0
    else
      var before := lines[..|lines| - 1];
      if lines[|lines| - 1].Index01? && CurrentFile(before, resolve) == file then TimeOf(lines[|lines| - 1].tail)
      else LastTimeUnder(before, file, resolve)
  }

  /** The reading's last two tracks are as given: in these files, with this start and this end. */
  ghost predicate LastTwo(r: Reading, n: nat, file: string, start: int, former: string, end: int) {
    && |r.tracks| == n
    && (n > 0 ==> Last(r.tracks).file == file && Last(r.tracks).start == start && Last(r.tracks).end == 0)
    && (n > 1 ==> r.tracks[n - 2].file == former && r.tracks[n - 2].end == end)
  }

  lemma StepLastTwo(r: Reading, line: Line, resolve: string -> string, n: nat, file: string, start: int,
                    former: string, end: int)
    requires LastTwo(r, n, file, start, former, end) && !Step(r, line, resolve).failed
    ensures var after := Step(r, line, resolve);
      match line
      case TrackLine(_) => LastTwo(after, n + 1, r.file, 0, file, 0)
      case Index01(tail) =>
        LastTwo(after, n, file, if n > 0 then TimeOf(tail) else start, former,
                if r.file == former then TimeOf(tail) else end)
      case _ => LastTwo(after, n, file, start, former, end)
  {
  }

  /** The last two tracks so far, in terms of the lines. */
  lemma {:induction false} LastTracks(lines: seq<Line>, resolve: string -> string)
    requires !Read(lines, resolve).failed
    ensures var former := FormerFile(lines, resolve);
      LastTwo(Read(lines, resolve), TrackCount(lines), TrackFile(lines, resolve),
              if TrackCount(lines) > 0 then LastTime(lines) else 0,
              former, LastTimeUnder(lines, former, resolve))
  {
    if lines != [] {
      var before, line := lines[..|lines| - 1], lines[|lines| - 1];
      LastTracks(before, resolve);
      ReadTracksFile(before, resolve);
      var former := FormerFile(before, resolve);
      StepLastTwo(Read(before, resolve), line, resolve, TrackCount(before), TrackFile(before, resolve),
                  if TrackCount(before) > 0 then LastTime(before) else 0,
                  former, LastTimeUnder(before, former, resolve));
    }
  }

  /** The times given for the last track agree with the end they give the track before. */
  ghost predicate Agrees(lines: seq<Line>, resolve: string -> string) {
    var former := FormerFile(lines, resolve);
    LastTimeUnder(lines, former, resolve) == if TrackFile(lines, resolve) == former then LastTime(lines) else 0
  }

  /** The lines of a track other than the first end before line `m`. */
  ghost predicate TrackEnds(lines: seq<Line>, m: nat) {
    m <= |lines| && (m == |lines| || lines[m].TrackLine?) && TrackCount(lines[..m]) > 1
  }

  /** All tracks but the last two end where they are to end. */
  ghost predicate TilesBefore(tracks: seq<Track>) {
    forall i {:trigger EndAt(tracks, i)} :: 0 <= i < |tracks| - 2 ==> tracks[i].end == EndAt(tracks, i)
  }

  /** The same tracks, but for the last one and the end of the one before it. */
  ghost predicate SameButLast(a: seq<Track>, b: seq<Track>) {
    && |a| == |b|
    && (forall i :: 0 <= i < |a| - 2 ==> a[i] == b[i])
    && (|a| > 1 ==> a[|a| - 2].file == b[|a| - 2].file && a[|a| - 2].start == b[|a| - 2].start)
  }

  lemma SameTilesBefore(a: seq<Track>, b: seq<Track>)
    requires SameButLast(a, b) && TilesBefore(a)
    ensures TilesBefore(b)
  {
    forall i | 0 <= i < |b| - 2 ensures b[i].end == EndAt(b, i) {
      assert a[i].end == EndAt(a, i);
      assert a[i] == b[i] && (i + 1 < |a| - 2 ==> a[i + 1] == b[i + 1]);
    }
  }

  lemma StepKeepsTiles(r: Reading, line: Line, resolve: string -> string)
    requires !r.failed && !Step(r, line, resolve).failed && !line.TrackLine?
    ensures TilesBefore(Step(r, line, resolve).tracks) <==> TilesBefore(r.tracks)
  {
    var after := Step(r, line, resolve).tracks;
    assert SameButLast(r.tracks, after);
    if TilesBefore(r.tracks) { SameTilesBefore(r.tracks, after); }
    if TilesBefore(after) { SameTilesBefore(after, r.tracks); }
  }

  lemma TrackAddsTile(tracks: seq<Track>, track: Track)
    ensures TilesBefore(tracks + [track]) <==>
      TilesBefore(tracks) && (|tracks| > 1 ==> tracks[|tracks| - 2].end == EndAt(tracks, |tracks| - 2))
  {
    var all, n := tracks + [track], |tracks|;
    forall i | 0 <= i < n - 1 ensures all[i].end == tracks[i].end && EndAt(all, i) == EndAt(tracks, i) {}
    if n > 1 && TilesBefore(all) {
      assert all[n - 2].end == EndAt(all, n - 2);
    }
  }

  /** The tracks before the last two tile exactly if the times agree wherever a track ends. */
  lemma {:induction false} TilesBeforeExactly(lines: seq<Line>, resolve: string -> string)
    requires !Read(lines, resolve).failed
    ensures TilesBefore(Read(lines, resolve).tracks) <==>
      forall m :: 0 <= m < |lines| && TrackEnds(lines, m) ==> Agrees(lines[..m], resolve)
  {
    if lines != [] {
      var n := |lines| - 1;
      var before, line := lines[..n], lines[n];
      TilesBeforeExactly(before, resolve);
      EndsBefore(lines, resolve);
      if line.TrackLine? {
        LastTracks(before, resolve);
        TrackAddsTile(Read(before, resolve).tracks, Read(lines, resolve).tracks[|Read(before, resolve).tracks|]);
        assert TrackEnds(lines, n) <==> TrackCount(before) > 1;
      } else {
        StepKeepsTiles(Read(before, resolve), line, resolve);
      }
    }
  }

  lemma EndsBefore(lines: seq<Line>, resolve: string -> string)
    requires lines != []
    ensures var n := |lines| - 1; var before := lines[..n];
      (forall m :: 0 <= m < |lines| && TrackEnds(lines, m) ==> Agrees(lines[..m], resolve)) <==>
      ((forall m :: 0 <= m < n && TrackEnds(before, m) ==> Agrees(before[..m], resolve))
       && (TrackEnds(lines, n) ==> Agrees(before, resolve)))
  {
    var n := |lines| - 1;
    var before := lines[..n];
    forall m | 0 <= m < n ensures lines[..m] == before[..m] && (TrackEnds(lines, m) <==> TrackEnds(before, m)) {}
  }

  /** The times of a track begun with a file named always agree, in a sheet that is accepted. */
  lemma {:induction false} NamedTrackAgrees(lines: seq<Line>, resolve: string -> string, file: string)
    requires !Read(lines, resolve).failed && TrackCount(lines) > 0 && TrackFile(lines, resolve) != ""
    ensures LastTimeUnder(lines, file, resolve) == if TrackFile(lines, resolve) == file then LastTime(lines) else 0
    ensures !Read(lines, resolve).changed ==> CurrentFile(lines, resolve) == TrackFile(lines, resolve)
    ensures CurrentFile(lines, resolve) != "" || Read(lines, resolve).changed
  {
    var before := lines[..|lines| - 1];
    if !lines[|lines| - 1].TrackLine? {
      NamedTrackAgrees(before, resolve, file);
      ReadTracksFile(before, resolve);
    }
  }

  /**
   When the tracks of an accepted sheet tile. It only takes the tracks begun with no file named: if the
   track before was begun so too, the last time must be the same before the naming FILE line as at the
   end of the track, and otherwise none but 0 may be given after the file of the track before is named.
   */
  lemma TilesExactly(lines: seq<Line>, resolve: string -> string)
    requires !Read(lines, resolve).failed
    ensures Tiles(Read(lines, resolve).tracks) <==>
      forall m: nat :: TrackEnds(lines, m) && TrackFile(lines[..m], resolve) == "" ==> Agrees(lines[..m], resolve)
  {
    var tracks, n := Read(lines, resolve).tracks, |lines|;
    assert lines[..n] == lines;
    TilesBeforeExactly(lines, resolve);
    LastTracks(lines, resolve);
    LastEndIsOpen(lines, resolve);
    if |tracks| > 1 {
      assert TrackEnds(lines, n);
      assert Agrees(lines[..n], resolve) <==> tracks[|tracks| - 2].end == EndAt(tracks, |tracks| - 2);
    }
    AllOrLastTwo(tracks);
    forall m: nat | TrackEnds(lines, m) && TrackFile(lines[..m], resolve) != "" ensures Agrees(lines[..m], resolve) {
      PrefixAccepted(lines, m, resolve);
      NamedTrackAgrees(lines[..m], resolve, FormerFile(lines[..m], resolve));
    }
  }

  lemma AllOrLastTwo(tracks: seq<Track>)
    ensures Tiles(tracks) <==>
      && TilesBefore(tracks)
      && (|tracks| > 1 ==> tracks[|tracks| - 2].end == EndAt(tracks, |tracks| - 2))
      && (tracks != [] ==> Last(tracks).end == 0)
  {
    var n := |tracks|;
    if n > 1 { assert EndAt(tracks, n - 2) == EndAt(tracks, n - 2); }
    if n > 0 { assert EndAt(tracks, n - 1) == 0; }
  }

  lemma PrefixAccepted(lines: seq<Line>, m: nat, resolve: string -> string)
    requires m <= |lines| && !Read(lines, resolve).failed
    ensures !Read(lines[..m], resolve).failed
  {
    if Read(lines[..m], resolve).failed { FailedStays(lines, m, resolve); }
  }

  /** A track between two files: naming the first one again ends that one's track, which is not the next one's start. */
  lemma UnnamedTrackEndsAnother(resolve: string -> string)
    requires resolve("a") == "a"
    ensures var lines := [FileLine("a"), TrackLine(1), FileLine(""), TrackLine(2), FileLine("a"), Index01(" 00:01:00")];
      && !Read(lines, resolve).failed && !Tiles(Read(lines, resolve).tracks)
  {
    var lines := [FileLine("a"), TrackLine(1), FileLine(""), TrackLine(2), FileLine("a"), Index01(" 00:01:00")];
    OneSecond();
    ReadNext(lines, 0, resolve);
    ReadNext(lines, 1, resolve);
    ReadNext(lines, 2, resolve);
    ReadNext(lines, 3, resolve);
    ReadNext(lines, 4, resolve);
    ReadNext(lines, 5, resolve);
    assert lines[..6] == lines;
    var tracks := Read(lines, resolve).tracks;
    assert tracks[0].end == 1000 && tracks[0].file == "a" && tracks[1].file == "";
    assert tracks[0].end != EndAt(tracks, 0);
  }

  function Durations(tracks: seq<Track>): int {
    if |tracks| <= 1 then 0 else tracks[0].end - tracks[0].start + Durations(tracks[1..])
  }

  /** Within one file the durations before the last track add up to the distance from first to last. */
  lemma {:induction false} DurationsTelescope(tracks: seq<Track>)
    requires Tiles(tracks) && tracks != [] && forall i :: 0 <= i < |tracks| ==> tracks[i].file == tracks[0].file
    ensures Durations(tracks) == tracks[|tracks| - 1].start - tracks[0].start
  {
    if |tracks| > 1 {
      var rest := tracks[1..];
      forall i | 0 <= i < |rest|
        ensures rest[i].end == EndAt(rest, i)
      {
        assert tracks[i + 1].end == EndAt(tracks, i + 1);
      }
      DurationsTelescope(rest);
      assert tracks[0].end == EndAt(tracks, 0);
    }
  }

  /** A track as it is written in a sheet: its number, title and artist, and the time in minutes, seconds and frames. */
  datatype Entry = Entry(number: nat, title: string, artist: string, mins: nat, secs: nat, frames: nat)
  datatype FileEntry = FileEntry(name: string, tracks: seq<Entry>)

  predicate Proper(sheet: seq<FileEntry>) {
    forall f :: 0 <= f < |sheet| ==> sheet[f].name != "" && ProperEntries(sheet[f].tracks)
  }

  predicate ProperEntries(entries: seq<Entry>) {
    entries != [] && forall t :: 0 <= t < |entries| ==> entries[t].number > 0
  }

  function EntryLines(e: Entry): seq<Line> {
    [TrackLine(e.number), Title(e.title), Performer(e.artist), Index01(" " + Msf(e.mins, e.secs, e.frames))]
  }

  function TrackLines(entries: seq<Entry>): seq<Line> {
    if entries == [] then [] else TrackLines(entries[..|entries| - 1]) + EntryLines(entries[|entries| - 1])
  }

  function SheetLines(sheet: seq<FileEntry>): seq<Line> {
    if sheet == [] then []
    else SheetLines(sheet[..|sheet| - 1]) + [FileLine(sheet[|sheet| - 1].name)] + TrackLines(sheet[|sheet| - 1].tracks)
  }

  function Millis(e: Entry): nat { (e.mins * 60 + e.secs) * 1000 + e.frames * 1000 / 75 }

  /** The tracks that a file's entries stand for; the last one is open. */
  function TracksOf(file: string, entries: seq<Entry>): (tracks: seq<Track>)
    ensures |tracks| == |entries|
  {
    seq(|entries|, i requires 0 <= i < |entries| =>
      Track(file, entries[i].number, entries[i].title, entries[i].artist, Millis(entries[i]),
            if i + 1 < |entries| then Millis(entries[i + 1]) else 0))
  }

  function SheetTracks(sheet: seq<FileEntry>, resolve: string -> string): seq<Track> {
    if sheet == [] then []
    else
      SheetTracks(sheet[..|sheet| - 1], resolve)
      + TracksOf(resolve(sheet[|sheet| - 1].name), sheet[|sheet| - 1].tracks)
  }

  /** Files resolve to names, and those that follow each other to different ones. */
  ghost predicate Apart(sheet: seq<FileEntry>, resolve: string -> string) {
    && (forall f :: 0 <= f < |sheet| ==> resolve(sheet[f].name) != "")
    && (forall f, g :: 0 <= f < g < |sheet| && g == f + 1 ==> resolve(sheet[f].name) != resolve(sheet[g].name))
  }

  /** The tracks with one more, which ends the last one if that is in the same file. */
  function Added(tracks: seq<Track>, track: Track): seq<Track> {
    if tracks != [] && Last(tracks).file == track.file then
      WithLast(tracks, Last(tracks).(end := track.start)) + [track]
    else tracks + [track]
  }

  lemma WithLastAdded(tracks: seq<Track>, track: Track, changed: Track)
    ensures WithLast(tracks + [track], changed) == tracks + [changed]
  {
  }

  lemma TimedAdded(tracks: seq<Track>, track: Track, time: int)
    ensures Timed(tracks + [track], track.file, time) == Added(tracks, track.(start := time))
  {
    var n, all := |tracks|, tracks + [track];
    if n > 0 {
      assert all[n - 1] == tracks[n - 1];
    }
  }

  lemma ReadTitle(r: Reading, tracks: seq<Track>, track: Track, text: string, resolve: string -> string)
    requires !r.failed && r.tracks == tracks + [track]
    ensures Step(r, Title(text), resolve) == r.(tracks := tracks + [track.(title := text)])
  {
    WithLastAdded(tracks, track, track.(title := text));
  }

  lemma ReadPerformer(r: Reading, tracks: seq<Track>, track: Track, text: string, resolve: string -> string)
    requires !r.failed && r.tracks == tracks + [track]
    ensures Step(r, Performer(text), resolve) == r.(tracks := tracks + [track.(artist := text)])
  {
    WithLastAdded(tracks, track, track.(artist := text));
  }

  /** Title and performer before the first track are those of the album. */
  lemma {:induction false} AlbumIsRead(title: string, artist: string, resolve: string -> string)
    ensures Read([Title(title), Performer(artist)], resolve) == NOTHING.(album := title, artist := artist)
  {
    assert [Title(title), Performer(artist)] == [Title(title)] + [Performer(artist)];
    FoldNext(NOTHING, [Title(title)], Performer(artist), resolve);
    assert [Title(title)] == [] + [Title(title)];
    FoldNext(NOTHING, [], Title(title), resolve);
  }

  /** Tracks without a number are numbered in turn. */
  lemma {:induction false} NumberedInTurn(n: nat, resolve: string -> string)
    ensures var r := Read(seq(n, i => TrackLine(0)), resolve);
      !r.failed && |r.tracks| == n && forall k :: 0 <= k < n ==> r.tracks[k].number == k + 1
  {
    if n > 0 {
      NumberedInTurn(n - 1, resolve);
      assert seq(n, i => TrackLine(0)) == seq(n - 1, i => TrackLine(0)) + [TrackLine(0)];
      FoldNext(NOTHING, seq(n - 1, i => TrackLine(0)), TrackLine(0), resolve);
    }
  }

  lemma ReadIndex(r: Reading, tracks: seq<Track>, track: Track, tail: string, resolve: string -> string)
    requires !r.failed && !r.changed && r.tracks == tracks + [track] && track.file == r.file && TimeOf(tail) != -1
    ensures Step(r, Index01(tail), resolve) == r.(tracks := Added(tracks, track.(start := TimeOf(tail))))
  {
    TimedAdded(tracks, track, TimeOf(tail));
  }

  lemma EntryTime(e: Entry)
    ensures TimeOf(" " + Msf(e.mins, e.secs, e.frames)) == Millis(e)
  {
    RoundTrip(e.mins, e.secs, e.frames);
  }

  /** The lines of an entry add its track. */
  lemma {:induction false} ReadEntry(r: Reading, lines: seq<Line>, e: Entry, resolve: string -> string)
    requires !Fold(r, lines, resolve).failed && e.number > 0
    ensures var before := Fold(r, lines, resolve);
      Fold(r, lines + EntryLines(e), resolve) == before.(changed := false, tracks :=
        Added(before.tracks, Track(before.file, e.number, e.title, e.artist, Millis(e), 0)))
  {
    FoldFour(r, lines, EntryLines(e), resolve);
    StepEntry(Fold(r, lines, resolve), e, resolve);
  }

  lemma {:induction false} FoldFour(r: Reading, lines: seq<Line>, four: seq<Line>, resolve: string -> string)
    requires |four| == 4
    ensures Fold(r, lines + four, resolve)
         == Step(Step(Step(Step(Fold(r, lines, resolve), four[0], resolve), four[1], resolve), four[2], resolve),
                 four[3], resolve)
  {
    FoldNext(r, lines, four[0], resolve);
    FoldNext(r, lines + [four[0]], four[1], resolve);
    FoldNext(r, lines + [four[0]] + [four[1]], four[2], resolve);
    FoldNext(r, lines + [four[0]] + [four[1]] + [four[2]], four[3], resolve);
    assert lines + four == lines + [four[0]] + [four[1]] + [four[2]] + [four[3]];
  }

  lemma {:induction false} StepEntry(before: Reading, e: Entry, resolve: string -> string)
    requires !before.failed && e.number > 0
    ensures var four := EntryLines(e);
      Step(Step(Step(Step(before, four[0], resolve), four[1], resolve), four[2], resolve), four[3], resolve)
      == before.(changed := false, tracks :=
           Added(before.tracks, Track(before.file, e.number, e.title, e.artist, Millis(e), 0)))
  {
    var four := EntryLines(e);
    var track := Track(before.file, e.number, "", "", 0, 0);
    var begun := before.(changed := false, tracks := before.tracks + [track]);
    var titled := begun.(tracks := before.tracks + [track.(title := e.title)]);
    ReadTitle(begun, before.tracks, track, e.title, resolve);
    ReadPerformer(titled, before.tracks, track.(title := e.title), e.artist, resolve);
    EntryTime(e);
    ReadIndex(titled.(tracks := before.tracks + [track.(title := e.title, artist := e.artist)]), before.tracks,
              track.(title := e.title, artist := e.artist), " " + Msf(e.mins, e.secs, e.frames), resolve);
  }

  lemma FoldNext(r: Reading, lines: seq<Line>, line: Line, resolve: string -> string)
    ensures Fold(r, lines + [line], resolve) == Step(Fold(r, lines, resolve), line, resolve)
  {
    assert (lines + [line])[..|lines|] == lines;
  }

  lemma {:induction false} ReadTrackLines(r: Reading, entries: seq<Entry>, resolve: string -> string)
    requires !r.failed && forall t :: 0 <= t < |entries| ==> entries[t].number > 0
    requires r.tracks != [] ==> Last(r.tracks).file != r.file
    ensures Fold(r, TrackLines(entries), resolve)
         == r.(tracks := r.tracks + TracksOf(r.file, entries), changed := r.changed && entries == [])
  {
    if entries == [] {
      assert r.tracks + TracksOf(r.file, entries) == r.tracks;
    } else {
      var n := |entries| - 1;
      var before, e := entries[..n], entries[n];
      ReadTrackLines(r, before, resolve);
      ReadEntry(r, TrackLines(before), e, resolve);
      AddedNext(r.tracks, r.file, entries);
    }
  }

  lemma TracksOfNext(file: string, entries: seq<Entry>)
    requires entries != []
    ensures var e := entries[|entries| - 1];
      TracksOf(file, entries)
      == Added(TracksOf(file, entries[..|entries| - 1]), Track(file, e.number, e.title, e.artist, Millis(e), 0))
  {
    var n := |entries| - 1;
    var tracks, before := TracksOf(file, entries), TracksOf(file, entries[..n]);
    assert forall i :: 0 <= i < n ==> tracks[i] == before[i].(end := tracks[i].end);
    assert forall i :: 0 <= i < n - 1 ==> tracks[i].end == before[i].end;
  }

  lemma AddedNext(tracks: seq<Track>, file: string, entries: seq<Entry>)
    requires entries != [] && (tracks != [] ==> Last(tracks).file != file)
    ensures var e := entries[|entries| - 1];
      Added(tracks + TracksOf(file, entries[..|entries| - 1]), Track(file, e.number, e.title, e.artist, Millis(e), 0))
      == tracks + TracksOf(file, entries)
  {
    var e, before := entries[|entries| - 1], TracksOf(file, entries[..|entries| - 1]);
    var track := Track(file, e.number, e.title, e.artist, Millis(e), 0);
    TracksOfNext(file, entries);
    if before == [] {
      assert tracks + before == tracks;
    } else {
      assert Last(before).file == file;
      assert Last(tracks + before) == Last(before);
      WithLastConcat(tracks, before, Last(before).(end := track.start));
    }
  }

  lemma WithLastConcat(a: seq<Track>, b: seq<Track>, track: Track)
    requires b != []
    ensures WithLast(a + b, track) == a + WithLast(b, track)
  {
  }

  /** The reading stands for the sheet, and the last track is in the current file. */
  ghost predicate StandsFor(r: Reading, sheet: seq<FileEntry>, resolve: string -> string) {
    && !r.failed && !r.changed && r.tracks == SheetTracks(sheet, resolve) && r.files == |sheet|
    && (if sheet == [] then r == NOTHING
        else r.tracks != [] && Last(r.tracks).file == r.file == resolve(sheet[|sheet| - 1].name))
  }

  lemma ReadFile(r: Reading, sheet: seq<FileEntry>, resolve: string -> string)
    requires sheet != [] && StandsFor(r, sheet[..|sheet| - 1], resolve) && Proper(sheet) && Apart(sheet, resolve)
    ensures var last := sheet[|sheet| - 1];
      StandsFor(Fold(Step(r, FileLine(last.name), resolve), TrackLines(last.tracks), resolve), sheet, resolve)
  {
    var n := |sheet| - 1;
    var after := Step(r, FileLine(sheet[n].name), resolve);
    if n > 0 {
      assert resolve(sheet[n - 1].name) != resolve(sheet[n].name);
    }
    assert after.tracks == r.tracks;
    assert ProperEntries(sheet[n].tracks);
    ReadTrackLines(after, sheet[n].tracks, resolve);
    assert Last(TracksOf(after.file, sheet[n].tracks)).file == after.file;
  }

  /** What is written as a sheet is read as the tracks it stands for. */
  lemma {:induction false} SheetRoundTrip(sheet: seq<FileEntry>, resolve: string -> string)
    requires Proper(sheet) && Apart(sheet, resolve)
    ensures StandsFor(Read(SheetLines(sheet), resolve), sheet, resolve)
  {
    if sheet != [] {
      var before, last := sheet[..|sheet| - 1], sheet[|sheet| - 1];
      SheetRoundTrip(before, resolve);
      ReadFile(Read(SheetLines(before), resolve), sheet, resolve);
      FoldNext(NOTHING, SheetLines(before), FileLine(last.name), resolve);
      FoldConcat(NOTHING, SheetLines(before) + [FileLine(last.name)], TrackLines(last.tracks), resolve);
    }
  }

  class CueDocument {
    var album: string
    var artist: string
    var tracks: seq<Track>
    var oneFilePerTrack: bool

    constructor ()
      ensures tracks == [] && !oneFilePerTrack
    {
      album, artist, tracks, oneFilePerTrack := "", "", [], false;
    }

    /** The end of the track before the last, if that is in the current file, and the start of the last one. */
    method SetTimes(file: string, time: int)
      modifies this`tracks
      ensures tracks == Timed(old(tracks), file, time)
    {
      var n := |tracks|;
      if n > 1 && tracks[n - 2].file == file {
        tracks := tracks[n - 2 := tracks[n - 2].(end := time)];
      }
      if n > 0 {
        tracks := tracks[n - 1 := tracks[n - 1].(start := time)];
      }
    }

    /** The title is the album's before the first track, and the last track's after it. */
    method SetTitle(text: string)
      modifies this`album, this`tracks
      ensures album == if old(tracks) == [] then text else old(album)
      ensures tracks == if old(tracks) == [] then [] else WithLast(old(tracks), Last(old(tracks)).(title := text))
    {
      if tracks == [] {
        album := text;
      } else {
        tracks := tracks[|tracks| - 1 := tracks[|tracks| - 1].(title := text)];
      }
    }

    /** So is the performer. */
    method SetArtist(text: string)
      modifies this`artist, this`tracks
      ensures artist == if old(tracks) == [] then text else old(artist)
      ensures tracks == if old(tracks) == [] then [] else WithLast(old(tracks), Last(old(tracks)).(artist := text))
    {
      if tracks == [] {
        artist := text;
      } else {
        tracks := tracks[|tracks| - 1 := tracks[|tracks| - 1].(artist := text)];
      }
    }

    /** What the lines so far amount to, with the parser's own variables. */
    ghost function Now(file: string, changed: bool, files: nat): Reading
      reads this
    {
      Reading(tracks, file, changed, files, album, artist, false)
    }

    /** One line; `totalTracks` is the index of the last track. A wrong line changes nothing. */
    method ParseLine(line: Line, resolve: string -> string, file: string, changed: bool, totalTracks: int,
                     numberFiles: int)
      returns (ok: bool, file': string, changed': bool, totalTracks': int, numberFiles': int)
      requires totalTracks == |tracks| - 1 && numberFiles >= -1
      modifies this`tracks, this`album, this`artist
      ensures var r := Step(old(Now(file, changed, numberFiles + 1)), line, resolve);
        && (ok <==> !r.failed)
        && (ok ==> totalTracks' == |tracks| - 1 && numberFiles' >= -1 && r == Now(file', changed', numberFiles' + 1))
        && (!ok ==> r == old(Now(file, changed, numberFiles + 1)).(failed := true))
        && (!ok ==> tracks == old(tracks) && album == old(album) && artist == old(artist))
    {
      ok, file', changed', totalTracks', numberFiles' := true, file, changed, totalTracks, numberFiles;
      match line {
        case Index01(tail) =>
          var time := TimeOf(tail);
          ok := !changed && time != -1;
          if ok {
            SetTimes(file, time);
          }
        case Title(text) => SetTitle(text);
        case Performer(text) => SetArtist(text);
        case TrackLine(number) =>
          totalTracks' := totalTracks + 1;
          tracks := tracks + [Track(file, if number > 0 then number else totalTracks' + 1, "", "", 0, 0)];
          changed' := false;
        case FileLine(name) =>
          numberFiles' := numberFiles + 1;
          if file != "" {
            changed' := true;
          }
          file' := FileName(name, resolve);
        case Other =>
      }
    }

    /** Reads the lines of a sheet; what was read before the first wrong line stays. */
    method Parse(ready: bool, lines: seq<Line>, resolve: string -> string) returns (ok: bool)
      modifies this
      ensures !ready ==> !ok && tracks == [] && oneFilePerTrack == old(oneFilePerTrack)
      ensures ready ==> var r := Read(lines, resolve);
        && (ok <==> !r.failed && r.tracks != [])
        && tracks == r.tracks && album == r.album && artist == r.artist
        && oneFilePerTrack == (old(oneFilePerTrack) || (!r.failed && |r.tracks| == r.files))
    {
      album, artist, tracks := "", "", [];
      if !ready { return false; }
      var file, changed := "", false;
      var totalTracks, numberFiles := -1, -1;
      var i := 0;
      while i < |lines|
        invariant 0 <= i <= |lines| && totalTracks == |tracks| - 1 && numberFiles >= -1
        invariant Read(lines[..i], resolve) == Now(file, changed, numberFiles + 1)
        invariant oneFilePerTrack == old(oneFilePerTrack)
      {
        ReadNext(lines, i, resolve);
        ok, file, changed, totalTracks, numberFiles :=
          ParseLine(lines[i], resolve, file, changed, totalTracks, numberFiles);
        if !ok {
          FailedStays(lines, i + 1, resolve);
          return;
        }
        i := i + 1;
      }
      assert lines[..i] == lines;
      LastEndIsOpen(lines, resolve);
      if totalTracks >= 0 {
        tracks := tracks[totalTracks := tracks[totalTracks].(end := 0)];
      }
      if totalTracks == numberFiles {
        oneFilePerTrack := true;
      }
      return totalTracks >= 0;
    }
  }
}

/** Times in cue sheets: minutes, seconds and frames, of which there are 75 in a second. */
module CueTime {
  function IsSpace(c: char): bool { c in " \t\n\r" || c == 11 as char || c == 12 as char }
  function IsDigit(c: char): bool { '0' <= c <= '9' }

  function TrimLeft(s: string): string {
    if s != "" && IsSpace(s[0]) then TrimLeft(s[1..]) else s
  }

  function SkipDigits(s: string): string {
    if s != "" && IsDigit(s[0]) then SkipDigits(s[1..]) else s
  }

  function Split(s: string, delimiter: char): (parts: seq<string>)
    ensures |parts| > 0
  {
    if s == "" then [""]
    else if s[0] == delimiter then [""] + Split(s[1..], delimiter)
    else
      var rest := Split(s[1..], delimiter);
      [[s[0]] + rest[0]] + rest[1..]
  }

  /** The number that the leading digits spell, read on from `value`. */
  function Digits(s: string, value: nat): nat {
    if s != "" && IsDigit(s[0]) then Digits(s[1..], value * 10 + (s[0] - '0') as nat) else value
  }

  /** `atoi`: space, a sign and digits; anything else ends the number. */
  function Atoi(s: string): int {
    var t := TrimLeft(s);
    if t != "" && t[0] == '-' then 0 - Digits(t[1..], 0)
    else if t != "" && t[0] == '+' then Digits(t[1..], 0)
    else Digits(t, 0)
  }

  /** Integer division that truncates towards zero. */
  function Quotient(a: int, b: nat): int
    requires b > 0
  {
    if a >= 0 then a / b else -(-a / b)
  }

  function Time(mins: int, secs: int, frames: int): int {
    (mins * 60 + secs) * 1000 + Quotient(frames * 1000, 75)
  }

  /** The time that follows the index number, in milliseconds; -1 if it does not have three parts. */
  function ExtractTimeFromIndex(numberTime: string): (time: int)
    ensures time == -1 <==> |Parts(numberTime)| != 3
  {
    var parts := Parts(numberTime);
    if |parts| != 3 then -1
    else
      NoTimeIsTheMark(Atoi(parts[0]), Atoi(parts[1]), Atoi(parts[2]));
      Time(Atoi(parts[0]), Atoi(parts[1]), Atoi(parts[2]))
  }

  /** What splitting leaves of the text after the number; an empty text has no parts. */
  function Parts(numberTime: string): seq<string> {
    var text := TrimLeft(SkipDigits(TrimLeft(numberTime)));
    if text == "" then [] else Split(text, ':')
  }

  /** The mark of a mangled time is not the value of any three numbers, negative ones included. */
  lemma NoTimeIsTheMark(mins: int, secs: int, frames: int)
    ensures Time(mins, secs, frames) != -1
  {
    var whole, part := mins * 60 + secs, Quotient(frames * 1000, 75);
    if frames >= 0 {
      assert 75 * part <= frames * 1000 < 75 * part + 75;
    } else {
      assert 75 * -part <= -frames * 1000 < 75 * -part + 75;
    }
  }

  /** Later times have greater values: the conversion is strictly increasing, hence injective. */
  lemma TimeIncreases(m1: nat, s1: nat, f1: nat, m2: nat, s2: nat, f2: nat)
    requires s1 < 60 && s2 < 60 && f1 < 75 && f2 < 75
    ensures Time(m1, s1, f1) < Time(m2, s2, f2) <==> (m1 < m2 || (m1 == m2 && (s1 < s2 || (s1 == s2 && f1 < f2))))
    ensures Time(m1, s1, f1) == Time(m2, s2, f2) ==> m1 == m2 && s1 == s2 && f1 == f2
  {
  }

  function Decimal(n: nat): string {
    if n < 10 then [('0' as int + n) as char] else Decimal(n / 10) + [('0' as int + n % 10) as char]
  }

  function TwoDigits(n: nat): string { if n < 10 then "0" + Decimal(n) else Decimal(n) }

  /** A time as sheets have it. */
  function Msf(mins: nat, secs: nat, frames: nat): string {
    TwoDigits(mins) + ":" + TwoDigits(secs) + ":" + TwoDigits(frames)
  }

  predicate AllDigits(s: string) { forall i :: 0 <= i < |s| ==> IsDigit(s[i]) }

  lemma {:induction false} DigitsNext(s: string, d: char, value: nat)
    requires AllDigits(s) && IsDigit(d)
    ensures Digits(s + [d], value) == Digits(s, value) * 10 + (d - '0') as nat
  {
    if s == "" {
      assert s + [d] == [d] && [d][1..] == "";
    } else {
      assert (s + [d])[0] == s[0] && (s + [d])[1..] == s[1..] + [d];
      DigitsNext(s[1..], d, value * 10 + (s[0] - '0') as nat);
    }
  }

  lemma {:induction false} DecimalReads(n: nat)
    ensures AllDigits(Decimal(n)) && Decimal(n) != "" && Digits(Decimal(n), 0) == n
  {
    if n < 10 {
      assert Decimal(n)[1..] == "";
    } else {
      DecimalReads(n / 10);
      DigitsNext(Decimal(n / 10), ('0' as int + n % 10) as char, 0);
    }
  }

  lemma TwoDigitsRead(n: nat)
    ensures AllDigits(TwoDigits(n)) && TwoDigits(n) != "" && Atoi(TwoDigits(n)) == n
  {
    DecimalReads(n);
    if n < 10 {
      assert TwoDigits(n)[1..] == Decimal(n);
      assert Digits(TwoDigits(n), 0) == Digits(Decimal(n), 0);
    }
  }

  /** A sign before the digits is read as one. */
  lemma {:induction false} SignedReads(n: nat)
    ensures Atoi("-" + Decimal(n)) == 0 - n as int && Atoi("+" + Decimal(n)) == n
  {
    DecimalReads(n);
    var minus, plus := "-" + Decimal(n), "+" + Decimal(n);
    assert minus[0] == '-' && plus[0] == '+' && minus[1..] == Decimal(n) == plus[1..];
    assert TrimLeft(minus) == minus && TrimLeft(plus) == plus;
  }

  lemma {:induction false} SplitAtFirst(a: string, rest: string)
    requires AllDigits(a)
    ensures Split(a + ":" + rest, ':') == [a] + Split(rest, ':')
  {
    var s := a + ":" + rest;
    if a == "" {
      assert s[1..] == rest;
    } else {
      assert s[0] == a[0] && s[1..] == a[1..] + ":" + rest;
      SplitAtFirst(a[1..], rest);
      assert [a[0]] + a[1..] == a;
    }
  }

  lemma {:induction false} SplitWhole(a: string)
    requires AllDigits(a)
    ensures Split(a, ':') == [a]
  {
    if a != "" {
      SplitWhole(a[1..]);
      assert [a[0]] + a[1..] == a;
    }
  }

  lemma MsfParts(mins: nat, secs: nat, frames: nat)
    ensures Split(Msf(mins, secs, frames), ':') == [TwoDigits(mins), TwoDigits(secs), TwoDigits(frames)]
  {
    var m, s, f := TwoDigits(mins), TwoDigits(secs), TwoDigits(frames);
    TwoDigitsRead(mins);
    TwoDigitsRead(secs);
    TwoDigitsRead(frames);
    assert Msf(mins, secs, frames) == m + ":" + (s + ":" + f);
    SplitAtFirst(m, s + ":" + f);
    SplitAtFirst(s, f);
    SplitWhole(f);
  }

  /** A time that is written down reads back. */
  lemma RoundTrip(mins: nat, secs: nat, frames: nat)
    ensures ExtractTimeFromIndex(" 01" + (" " + Msf(mins, secs, frames))) == Time(mins, secs, frames)
  {
    TwoDigitsRead(mins);
    TwoDigitsRead(secs);
    TwoDigitsRead(frames);
    MsfParts(mins, secs, frames);
    var text := Msf(mins, secs, frames);
    assert text[0] == TwoDigits(mins)[0];
    assert " 01" + (" " + text) == " 01 " + text;
    SkipNumber(text);
  }

  lemma SkipNumber(text: string)
    requires text != "" && !IsSpace(text[0])
    ensures TrimLeft(SkipDigits(TrimLeft(" 01 " + text))) == text
  {
    assert (" 01 " + text)[1..] == "01 " + text;
    assert ("01 " + text)[1..] == "1 " + text;
    assert ("1 " + text)[1..] == " " + text;
    assert (" " + text)[1..] == text;
    assert TrimLeft(" 01 " + text) == "01 " + text;
    assert SkipDigits(" " + text) == " " + text;
    assert SkipDigits("1 " + text) == " " + text;
  }
}

/** Reading a sheet that comes as one string, line by line. */
module CueReader {
  import opened CueTime

  predicate IsEnd(c: char) { c == '\r' || c == '\n' }

  function TrimRight(s: string): string
    decreases |s|
  {
    if s != "" && IsSpace(s[|s| - 1]) then TrimRight(s[..|s| - 1]) else s
  }

  function Trim(s: string): string { TrimRight(TrimLeft(s)) }

  /** The lines, trimmed and without blank ones, that end in `s`, where `begun` is what the first one has so far. */
  function Lines(begun: string, s: string): seq<string>
    decreases |s|
  {
    if s == "" then []
    else if !IsEnd(s[0]) then Lines(begun + [s[0]], s[1..])
    else (if Trim(begun) != "" then [Trim(begun)] else []) + Lines("", s[1..])
  }

  /** Trimming takes space away at both ends, and nothing else. */
  lemma {:induction false} TrimTakesSpace(s: string) returns (a: string, b: string)
    ensures s == a + Trim(s) + b && (forall c :: c in a + b ==> IsSpace(c))
    ensures Trim(s) != "" ==> !IsSpace(Trim(s)[0]) && !IsSpace(Trim(s)[|Trim(s)| - 1])
  {
    a := LeftSpace(s);
    b := RightSpace(TrimLeft(s));
    assert TrimLeft(s) == Trim(s) + b;
    assert s == a + (Trim(s) + b);
  }

  lemma {:induction false} LeftSpace(s: string) returns (a: string)
    ensures s == a + TrimLeft(s) && (forall c :: c in a ==> IsSpace(c))
    ensures TrimLeft(s) != "" ==> !IsSpace(TrimLeft(s)[0])
  {
    a := "";
    if s != "" && IsSpace(s[0]) {
      var rest := LeftSpace(s[1..]);
      a := [s[0]] + rest;
    }
  }

  lemma {:induction false} RightSpace(s: string) returns (b: string)
    ensures s == TrimRight(s) + b && (forall c :: c in b ==> IsSpace(c))
    ensures TrimRight(s) != "" ==> TrimRight(s)[0] == s[0] && !IsSpace(TrimRight(s)[|TrimRight(s)| - 1])
    decreases |s|
  {
    b := "";
    if s != "" && IsSpace(s[|s| - 1]) {
      var rest := RightSpace(s[..|s| - 1]);
      b := rest + [s[|s| - 1]];
      assert s == s[..|s| - 1] + [s[|s| - 1]];
    }
  }

  /** The text of these lines, each of them ended in this way. */
  function Text(lines: seq<string>, end: string): string {
    if lines == [] then "" else lines[0] + (end + Text(lines[1..], end))
  }

  /** A line without line ends in it, with no space at its ends, and not blank. */
  predicate Clean(line: string) {
    line != "" && !IsSpace(line[0]) && !IsSpace(line[|line| - 1]) && OneLine(line)
  }

  predicate OneLine(line: string) {
    forall k :: 0 <= k < |line| ==> line[k] != '\r' && line[k] != '\n'
  }

  lemma {:induction false} LineEnds(begun: string, line: string, end: char, rest: string)
    requires OneLine(line) && end in "\r\n"
    ensures Lines(begun, line + ([end] + rest))
         == (if Trim(begun + line) != "" then [Trim(begun + line)] else []) + Lines("", rest)
    decreases |line|
  {
    var s := line + ([end] + rest);
    if line == "" {
      assert s[0] == end && s[1..] == rest && begun + line == begun;
    } else {
      assert s[0] == line[0] && s[1..] == line[1..] + ([end] + rest);
      assert begun + [line[0]] + line[1..] == begun + line;
      LineEnds(begun + [line[0]], line[1..], end, rest);
    }
  }

  lemma {:induction false} CleanLineEnds(line: string, end: string, rest: string)
    requires Clean(line) && end in ["\n", "\r", "\r\n"]
    ensures Lines("", line + (end + rest)) == [line] + Lines("", rest)
  {
    assert "" + line == line && TrimLeft(line) == line && TrimRight(line) == line;
    if end == "\r\n" {
      assert end + rest == ['\r'] + ("" + (['\n'] + rest));
      LineEnds("", line, '\r', "" + (['\n'] + rest));
      LineEnds("", "", '\n', rest);
    } else {
      assert end == [end[0]];
      LineEnds("", line, end[0], rest);
    }
  }

  /** Lines that are written are read back, in order, whichever way they are ended. */
  lemma {:induction false} LinesReadBack(lines: seq<string>, end: string)
    requires end in ["\n", "\r", "\r\n"] && forall k :: 0 <= k < |lines| ==> Clean(lines[k])
    ensures Lines("", Text(lines, end)) == lines
  {
    if lines != [] {
      LinesReadBack(lines[1..], end);
      CleanLineEnds(lines[0], end, Text(lines[1..], end));
    }
  }

  /** What comes after the last line end is not a line. */
  lemma {:induction false} UnendedLineIsLost(begun: string, s: string, rest: string)
    requires forall k :: 0 <= k < |rest| ==> !IsEnd(rest[k])
    requires s == "" || IsEnd(s[|s| - 1])
    ensures Lines(begun, s + rest) == Lines(begun, s)
    decreases |s| + |rest|
  {
    if s != "" {
      assert (s + rest)[0] == s[0] && (s + rest)[1..] == s[1..] + rest;
      UnendedLineIsLost(if IsEnd(s[0]) then "" else begun + [s[0]], s[1..], rest);
    } else if rest != "" {
      assert s + rest == rest;
      assert s + rest[1..] == rest[1..];
      UnendedLineIsLost(begun + [rest[0]], s, rest[1..]);
    }
  }

  class BufferReader {
    const data: string
    var pos: nat

    constructor (data: string)
      ensures this.data == data && pos == 0
    {
      this.data, pos := data, 0;
    }

    function Rest(): string
      reads this`pos
    {
      if pos <= |data| then data[pos..] else ""
    }

    /** The next line that is ended and not blank. */
    method ReadLine() returns (ok: bool, line: string)
      requires pos <= |data|
      modifies this`pos
      ensures pos <= |data|
      ensures ok <==> Lines("", old(Rest())) != []
      ensures ok ==> [line] + Lines("", Rest()) == Lines("", old(Rest()))
      ensures !ok ==> pos == |data|
    {
      line := "";
      while pos < |data|
        invariant pos <= |data| && Lines(line, Rest()) == Lines("", old(Rest()))
        decreases |data| - pos
      {
        var c := data[pos];
        assert Rest()[0] == c && Rest()[1..] == data[pos + 1..];
        pos := pos + 1;
        if IsEnd(c) {
          line := Trim(line);
          if line != "" { return true, line; }
        } else {
          line := line + [c];
        }
      }
      return false, line;
    }
  }
}
