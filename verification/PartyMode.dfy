/**
 Party mode: a play queue that is kept full with random songs, none of which comes back while the
 history remembers it. One kind of media; a song is known by its database id.
 */
module PartyMode {
  import opened RandR

  const QUEUE_DEPTH := 10

  /** An entry of the queue; `user` marks a song that the user asked for. */
  datatype Entry = Entry(song: int, user: bool)

  /** How many picks the history remembers; 0 stands for all of them. */
  function HistoryLimit(matching: nat): (limit: nat)
    ensures matching >= 50 ==> 25 <= limit <= 200 && limit < matching
    ensures matching < 50 ==> limit == 0
    ensures 50 <= matching < 400 ==> matching - 1 <= 2 * limit <= matching
    ensures matching >= 400 ==> limit == 200
  {
    if matching < 50 then 0 else if matching / 2 > 200 then 200 else matching / 2
  }

  /** The last `limit` picks. */
  function Recent(limit: nat, picks: seq<int>): seq<int> {
    if limit == 0 || |picks| <= limit then picks else picks[|picks| - limit..]
  }

  /** No pick repeats any of the `limit` picks before it. */
  ghost predicate NoRepeat(limit: nat, picks: seq<int>) {
    forall i, j :: 0 <= i < j < |picks| && (limit == 0 || j - i <= limit) ==> picks[i] != picks[j]
  }

  ghost predicate Distinct(ids: seq<int>) {
    forall i, j :: 0 <= i < j < |ids| ==> ids[i] != ids[j]
  }

  ghost predicate Within(ids: seq<int>, matching: set<int>) {
    forall k :: 0 <= k < |ids| ==> ids[k] in matching
  }

  /** Avoiding what the history holds is all it takes not to repeat. */
  lemma NoRepeatStep(limit: nat, picks: seq<int>, song: int)
    ensures NoRepeat(limit, picks + [song]) <==> NoRepeat(limit, picks) && song !in Recent(limit, picks)
  {
    var all, recent, n := picks + [song], Recent(limit, picks), |picks|;
    if NoRepeat(limit, all) {
      forall i, j | 0 <= i < j < n && (limit == 0 || j - i <= limit) ensures picks[i] != picks[j] {
        assert all[i] != all[j];
      }
      forall k | 0 <= k < |recent| ensures recent[k] != song {
        assert all[n - |recent| + k] != all[n];
      }
    }
    if NoRepeat(limit, picks) && song !in recent {
      forall i, j | 0 <= i < j <= n && (limit == 0 || j - i <= limit) ensures all[i] != all[j] {
        if j == n { assert picks[i] == recent[i - (n - |recent|)]; }
      }
    }
  }

  lemma {:induction false} SizeOfDistinct(ids: seq<int>)
    requires Distinct(ids)
    ensures |set id | id in ids| == |ids|
  {
    if ids != [] {
      var n := |ids| - 1;
      SizeOfDistinct(ids[..n]);
      assert (set id | id in ids) == (set id | id in ids[..n]) + {ids[n]};
    }
  }

  lemma RecentDistinct(limit: nat, picks: seq<int>, matching: set<int>)
    requires NoRepeat(limit, picks) && Within(picks, matching)
    ensures Distinct(Recent(limit, picks)) && Within(Recent(limit, picks), matching)
  {
    var recent := Recent(limit, picks);
    var start := |picks| - |recent|;
    forall i, j | 0 <= i < j < |recent| ensures recent[i] != recent[j] {
      assert recent[i] == picks[start + i] && recent[j] == picks[start + j];
    }
  }

  /**
   How many songs are left to pick from. With 50 matches or more there always is one; with fewer
   the history never forgets, so that the songs run out once each was picked.
   */
  lemma SongsLeft(matching: set<int>, picks: seq<int>)
    requires Within(picks, matching) && NoRepeat(HistoryLimit(|matching|), picks)
    ensures var recent := Recent(HistoryLimit(|matching|), picks);
      |matching - set id | id in recent| == |matching| - |recent|
    ensures |matching| >= 50 ==> |Recent(HistoryLimit(|matching|), picks)| < |matching|
    ensures |matching| < 50 ==> Recent(HistoryLimit(|matching|), picks) == picks && |picks| <= |matching|
  {
    var recent := Recent(HistoryLimit(|matching|), picks);
    RecentDistinct(HistoryLimit(|matching|), picks, matching);
    SizeOfDistinct(recent);
    var remembered := set id | id in recent;
    assert remembered <= matching;
    assert matching == remembered + (matching - remembered);
  }

  /** In any order. */
  method Shuffle(ids: seq<int>) returns (shuffled: seq<int>)
    ensures multiset(shuffled) == multiset(ids) && |shuffled| == |ids|
  {
    shuffled := [];
    var rest := ids;
    while rest != []
      invariant multiset(shuffled) + multiset(rest) == multiset(ids) && |shuffled| + |rest| == |ids|
      decreases |rest|
    {
      var i :| 0 <= i < |rest|;
      assert rest == rest[..i] + [rest[i]] + rest[i + 1..];
      shuffled, rest := shuffled + [rest[i]], rest[..i] + rest[i + 1..];
    }
  }

  lemma ShuffledDistinct(a: seq<int>, b: seq<int>)
    requires multiset(a) == multiset(b) && Distinct(a)
    ensures Distinct(b) && forall id :: id in a <==> id in b
  {
    forall id ensures id in a <==> id in b {
      assert id in multiset(a) <==> id in multiset(b);
    }
    forall i, j | 0 <= i < j < |b| ensures b[i] != b[j] {
      if b[i] == b[j] {
        assert b == b[..i] + [b[i]] + b[i + 1..j] + [b[j]] + b[j + 1..];
        assert multiset(b)[b[i]] >= 2;
        OnceInDistinct(a, b[i]);
      }
    }
  }

  lemma {:induction false} OnceInDistinct(ids: seq<int>, id: int)
    requires Distinct(ids)
    ensures multiset(ids)[id] <= 1
  {
    if ids != [] {
      var n := |ids| - 1;
      OnceInDistinct(ids[..n], id);
      assert ids == ids[..n] + [ids[n]];
      if ids[n] == id {
        assert id !in ids[..n];
        assert id !in multiset(ids[..n]);
      }
    }
  }

  /** The entries for songs that party mode picked, or that the user asked for. */
  function Entries(songs: seq<int>, user: bool): (entries: seq<Entry>)
    ensures |entries| == |songs|
    ensures forall k :: 0 <= k < |songs| ==> entries[k] == Entry(songs[k], user)
  {
    seq(|songs|, k requires 0 <= k < |songs| => Entry(songs[k], user))
  }

  function SongsOf(entries: seq<Entry>): (songs: seq<int>)
    ensures |songs| == |entries|
    ensures forall k :: 0 <= k < |entries| ==> songs[k] == entries[k].song
  {
    seq(|entries|, k requires 0 <= k < |entries| => entries[k].song)
  }

  /** Entries that party mode picked, for exactly these songs, each as often as it is picked. */
  ghost predicate QueueOf(playlist: seq<Entry>, picks: seq<int>) {
    multiset(SongsOf(playlist)) == multiset(picks) && forall p :: 0 <= p < |playlist| ==> !playlist[p].user
  }

  /** What the user asked for stands right below the current song, up to `last`; picked songs follow. */
  ghost predicate UserFirst(playlist: seq<Entry>, last: int) {
    && -1 <= last < |playlist|
    && (forall p :: 1 <= p < |playlist| ==> (playlist[p].user <==> p <= last))
    && (playlist != [] && playlist[0].user ==> last >= 0)
  }

  /** The picks went on from `before`, and the queue from `queue`, by the same songs. */
  ghost predicate Filled(before: seq<int>, queue: seq<Entry>, picks: seq<int>, playlist: seq<Entry>) {
    && |before| <= |picks| && picks[..|before|] == before
    && playlist == queue + Entries(picks[|before|..], false)
  }

  lemma FilledStep(before: seq<int>, queue: seq<Entry>, picks: seq<int>, playlist: seq<Entry>, song: int)
    requires Filled(before, queue, picks, playlist)
    ensures Filled(before, queue, picks + [song], playlist + [Entry(song, false)])
  {
    assert (picks + [song])[|before|..] == picks[|before|..] + [song];
    assert (picks + [song])[..|before|] == picks[..|before|];
  }

  class Manager {
    /** The songs of the library, and those that the party's filter lets through. */
    const library: set<int>
    const matching: set<int>
    const hasFilter: bool

    var enabled: bool
    /** The queue, the queue of the other kind of media, and the player's position in the queue. */
    var playlist: seq<Entry>
    var other: seq<Entry>
    var current: int

    var lastUserSong: int
    var matchingSongs: nat
    var picked: nat
    var songsInHistory: nat
    var history: seq<int>

    /** All the songs picked since party mode was switched on. */
    ghost var picks: seq<int>

    constructor (library: set<int>, matching: set<int>, hasFilter: bool)
      requires matching <= library && (hasFilter || matching == library)
      ensures this.library == library && this.matching == matching && this.hasFilter == hasFilter && !enabled
    {
      this.library, this.matching, this.hasFilter := library, matching, hasFilter;
      enabled, playlist, other, current := false, [], [], -1;
      lastUserSong, matchingSongs, picked, songsInHistory, history, picks := -1, 0, 0, 0, [], [];
    }

    /** The history is exactly the latest picks, and no pick repeated what it held. */
    ghost predicate Remembers()
      reads this
    {
      && matching <= library && (hasFilter || matching == library)
      && matchingSongs == |matching| && songsInHistory == HistoryLimit(|matching|)
      && history == Recent(songsInHistory, picks)
      && NoRepeat(songsInHistory, picks) && Within(picks, matching) && picks != [] && picked == |picks|
    }

    ghost predicate Valid()
      reads this
    {
      && Remembers()
      && playlist != [] && UserFirst(playlist, lastUserSong)
      && -1 <= current < |playlist|
    }

    /** The exclusion of the history; no clause at all, not even the filter, if the history is empty. */
    function WhereClauseWithHistory(): Option<seq<int>>
      reads this`history
    {
      if history == [] then None else Some(history)
    }

    /** The songs the database has for a clause. */
    function Rows(clause: Option<seq<int>>): set<int> {
      match clause
      case None => library
      case Some(excluded) => (if hasFilter then matching else library) - set id | id in excluded
    }

    method RandomSong(clause: Option<seq<int>>) returns (song: Option<int>)
      ensures song.Some? ==> song.value in Rows(clause)
      ensures song.None? ==> Rows(clause) == {}
    {
      var rows := Rows(clause);
      if id :| id in rows {
        return Some(id);
      }
      assert forall id :: id !in rows;
      assert rows == {};
      return None;
    }

    method AddToHistory(song: int)
      requires song !in history && song in matching && Remembers()
      modifies this`history, this`picks
      ensures history == Recent(songsInHistory, picks) && picks == old(picks) + [song]
      ensures NoRepeat(songsInHistory, picks) && Within(picks, matching)
    {
      NoRepeatStep(songsInHistory, picks, song);
      ghost var start := if songsInHistory == 0 || |picks| < songsInHistory then 0 else |picks| - songsInHistory + 1;
      ghost var n := |picks| - |history|;
      while |history| >= songsInHistory && songsInHistory != 0
        invariant picks == old(picks)
        invariant 0 <= n <= start <= |picks| && history == picks[n..] && |history| == |picks| - n
        invariant songsInHistory != 0 && n < start ==> |history| >= songsInHistory
        invariant songsInHistory == 0 ==> n == 0
        decreases |history|
      {
        history := history[1..];
        n := n + 1;
      }
      assert n == start;
      picks := picks + [song];
      history := history + [song];
      assert history == picks[start..];
    }

    method OnError()
      modifies this`enabled
      ensures !enabled
    {
      enabled := false;
    }

    /** Removes what has been played; the current song comes to the top. */
    method ReapSongs()
      requires Valid()
      modifies this`playlist, this`current, this`lastUserSong
      ensures Valid() && current <= 0 && (current < 0 <==> old(current) < 0)
      ensures playlist == old(playlist)[if old(current) < 0 then 0 else old(current)..]
    {
      var song, i := current, 0;
      ghost var gone := 0;
      while i < |playlist|
        invariant 0 <= i <= |playlist| && 0 <= gone && (old(current) >= 0 ==> gone <= old(current))
        invariant old(current) < 0 ==> gone == 0
        invariant song == old(current) - gone && (i > 0 ==> song <= 0)
        invariant playlist == old(playlist)[gone..] && playlist != []
        invariant lastUserSong == if old(lastUserSong) - gone < -1 then -1 else old(lastUserSong) - gone
        decreases |playlist| - i
      {
        if i < song {
          playlist := playlist[..i] + playlist[i + 1..];
          song := song - 1;
          if i <= lastUserSong {
            lastUserSong := lastUserSong - 1;
          }
          gone := gone + 1;
        } else {
          i := i + 1;
        }
      }
      if -1 <= song < |playlist| {
        current := song;
      }
      assert forall p :: 0 <= p < |playlist| ==> playlist[p] == old(playlist)[p + gone];
      assert gone > 0 ==> playlist[0] == old(playlist)[gone];
    }

    /**
     Moves a current song that is not on top there, in the queue of the other kind of media. After
     reaping it always is on top, so that neither queue changes.
     */
    method MovePlaying()
      requires Valid() && current <= 0
      modifies this`other, this`current
      ensures Valid() && other == old(other) && current == 0
    {
      other := if current > 0 then OnTop(other, current) else other;
      current := 0;
    }

    /** Queues one song that the history does not hold. */
    method PickSong() returns (ok: bool)
      requires Valid()
      modifies this`playlist, this`picked, this`history, this`picks
      ensures Valid()
      ensures ok <==> matchingSongs >= 50 || |old(picks)| < matchingSongs
      ensures ok ==> |picks| == |old(picks)| + 1 && picks == old(picks) + [picks[|old(picks)|]]
      ensures ok ==> playlist == old(playlist) + [Entry(picks[|old(picks)|], false)]
      ensures !ok ==> picks == old(picks) && playlist == old(playlist)
    {
      SongsLeft(matching, picks);
      assert history != [] && Rows(Some(history)) == matching - set id | id in history;
      var song := RandomSong(WhereClauseWithHistory());
      ok := song.Some?;
      if ok {
        AddToHistory(song.value);
        playlist := playlist + [Entry(song.value, false)];
        picked := picked + 1;
      }
    }

    /** Queues one more song since the picks were `start` and the queue `queue`. */
    method PickNext(ghost start: seq<int>, ghost queue: seq<Entry>) returns (ok: bool)
      requires Valid() && Filled(start, queue, picks, playlist)
      modifies this`playlist, this`picked, this`history, this`picks
      ensures Valid() && Filled(start, queue, picks, playlist)
      ensures ok <==> matchingSongs >= 50 || |old(picks)| < matchingSongs
      ensures |picks| == |old(picks)| + if ok then 1 else 0
    {
      ok := PickSong();
      if ok {
        FilledStep(start, queue, old(picks), old(playlist), picks[|old(picks)|]);
      }
    }

    /**
     Fills the queue up with songs that the history does not hold. It fails only if fewer than 50
     songs match and all of them have been picked.
     */
    method AddRandomSongs(opens: bool)
      requires Valid()
      modifies this`enabled, this`playlist, this`picked, this`history, this`picks
      ensures Valid() && Filled(old(picks), old(playlist), picks, playlist)
      ensures var missing := Missing(old(playlist));
        && |picks| == |old(picks)| + Available(opens, matchingSongs, |old(picks)|, missing)
        && enabled == (old(enabled) && opens && |picks| == |old(picks)| + missing)
    {
      var songs := QUEUE_DEPTH - |playlist|;
      if !opens {
        OnError();
        return;
      }
      SongsLeft(matching, picks);
      var i := 0;
      while i < songs
        invariant i == 0 || 0 <= i <= songs
        invariant Valid() && enabled == old(enabled) && |picks| == |old(picks)| + i
        invariant Filled(old(picks), old(playlist), picks, playlist)
        invariant matchingSongs < 50 ==> |picks| <= matchingSongs
      {
        var ok := PickNext(old(picks), old(playlist));
        if !ok {
          OnError();
          return;
        }
        i := i + 1;
      }
    }

    /** Drops what has been played and fills the queue up again. */
    method Process(opens: bool)
      requires Valid()
      modifies this
      ensures Valid() && current == 0 && other == old(other)
      ensures Filled(old(picks), Unplayed(old(playlist), old(current)), picks, playlist)
      ensures var missing := Missing(Unplayed(old(playlist), old(current)));
        && |picks| == |old(picks)| + Available(opens, matchingSongs, |old(picks)|, missing)
        && enabled == (old(enabled) && opens && |picks| == |old(picks)| + missing)
      ensures enabled || (opens && matchingSongs >= 50) ==> |playlist| >= 10
      ensures opens && |playlist| < 10 ==> matchingSongs < 50 && |picks| == matchingSongs
      ensures old(current) >= 0 ==> playlist[0] == old(playlist[current])
    {
      SongsLeft(matching, picks);
      ReapSongs();
      MovePlaying();
      AddRandomSongs(opens);
    }

    /** The player is told to play an entry of the queue. */
    method Play(position: int, opens: bool)
      requires Valid()
      modifies this
      ensures Valid() && current == 0 && other == old(other)
      ensures var at := if position < 0 then 0
                        else if position >= |old(playlist)| then |old(playlist)| - 1
                        else position;
        var missing := Missing(old(playlist)[at..]);
        && Filled(old(picks), old(playlist)[at..], picks, playlist)
        && |picks| == |old(picks)| + Available(opens, matchingSongs, |old(picks)|, missing)
        && enabled == (old(enabled) && opens && |picks| == |old(picks)| + missing)
    {
      current := if position < 0 then 0 else if position >= |playlist| then |playlist| - 1 else position;
      Process(opens);
    }

    /** Puts the user's songs at a position, which no random song is ahead of. */
    method InsertUserSongs(songs: seq<int>, at: nat)
      requires Valid() && (at == 1 || at == lastUserSong + 1) && 1 <= at <= |playlist|
      modifies this`playlist, this`lastUserSong
      ensures Valid() && playlist == old(playlist)[..at] + Entries(songs, true) + old(playlist)[at..]
    {
      playlist := playlist[..at] + Entries(songs, true) + playlist[at..];
      if lastUserSong < 0 {
        lastUserSong := 0;
      }
      lastUserSong := lastUserSong + |songs|;
    }

    /** Queues the user's songs below the current one (to play them now), or below those already asked for. */
    method AddUserSongs(songs: seq<int>, play: bool, opens: bool)
      requires Valid()
      modifies this
      ensures Valid()
      ensures !old(enabled) ==> unchanged(this)
      ensures old(enabled) && !play ==>
        var at := if old(lastUserSong) < 0 then 1 else old(lastUserSong) + 1;
        && playlist == old(playlist)[..at] + Entries(songs, true) + old(playlist)[at..]
        && picks == old(picks) && enabled && current == old(current)
      ensures old(enabled) && play ==>
        && current == 0
        && (songs != [] || |old(playlist)| > 1 ==>
              Filled(old(picks), Entries(songs, true) + old(playlist)[1..], picks, playlist))
    {
      if !enabled { return; }
      var at := if lastUserSong < 0 || play then 1 else lastUserSong + 1;
      InsertUserSongs(songs, at);
      if play {
        PlayFirstOf(songs, old(playlist), opens);
      }
    }

    /** Plays the entry below the first one, which `queue` began with before the user's songs came in. */
    method PlayFirstOf(songs: seq<int>, ghost queue: seq<Entry>, opens: bool)
      requires Valid() && queue != [] && playlist == queue[..1] + Entries(songs, true) + queue[1..]
      modifies this
      ensures Valid() && current == 0
      ensures songs != [] || |queue| > 1 ==> Filled(old(picks), Entries(songs, true) + queue[1..], picks, playlist)
    {
      assert playlist[1..] == Entries(songs, true) + queue[1..];
      Play(1, opens);
    }

    method ClearState()
      modifies this`lastUserSong, this`matchingSongs, this`picked, this`songsInHistory, this`history, this`picks
      ensures lastUserSong == -1 && matchingSongs == 0 && picked == 0 && songsInHistory == 0 && history == []
        && picks == []
    {
      lastUserSong, matchingSongs, picked, songsInHistory, history, picks := -1, 0, 0, 0, [], [];
    }

    /** Queues the first songs, of those the database listed, in a random order. */
    method AddInitialSongs(listed: seq<int>) returns (ok: bool)
      requires Distinct(listed) && Within(listed, matching) && playlist == []
      requires picked == 0 && lastUserSong == -1
      modifies this`playlist, this`picked, this`history, this`picks
      ensures ok <==> |listed| >= QUEUE_DEPTH
      ensures ok ==> Distinct(history) && Within(history, matching) && picks == history
      ensures ok ==> |history| == QUEUE_DEPTH == picked
      ensures ok ==> |playlist| == QUEUE_DEPTH && UserFirst(playlist, -1)
      ensures ok ==> QueueOf(playlist, picks)
      ensures !ok ==> playlist == []
    {
      var missing := QUEUE_DEPTH - |playlist|;
      if missing > |listed| { return false; }
      var shuffled := Shuffle(listed);
      ShuffledDistinct(listed, shuffled);
      var chosen := shuffled[..missing];
      var items := Shuffle(chosen);
      ShuffledDistinct(chosen, items);
      forall k | 0 <= k < missing ensures chosen[k] in matching {
        assert shuffled[k] in shuffled;
      }
      history, picks := chosen, chosen;
      var i := 0;
      while i < |items|
        invariant 0 <= i <= |items| && playlist == Entries(items[..i], false) && picked == i
        invariant history == picks == chosen
      {
        playlist := playlist + [Entry(items[i], false)];
        picked := picked + 1;
        i := i + 1;
      }
      assert items[..i] == items && SongsOf(playlist) == items;
      return true;
    }

    /** Switches party mode on. */
    method Enable(opens: bool, listed: seq<int>, opensAgain: bool) returns (ok: bool)
      requires Distinct(listed) && (forall id :: id in listed <==> id in matching)
      requires matching <= library && (hasFilter || matching == library)
      modifies this
      ensures ok <==> opens && |matching| >= 10
      ensures ok ==> Valid() && enabled && current == 0 && |playlist| == 10
      ensures ok ==> |picks| == 10 && Distinct(picks) && QueueOf(playlist, picks)
      ensures !ok ==> !enabled || old(enabled)
    {
      assert forall id :: id in (set id | id in listed) <==> id in matching;
      assert (set id | id in listed) == matching;
      SizeOfDistinct(listed);
      ClearState();
      if !opens {
        OnError();
        return false;
      }
      matchingSongs := |listed|;
      if matchingSongs < 1 {
        OnError();
        return false;
      }
      songsInHistory := if matchingSongs < 50 then 0 else matchingSongs / 2;
      if songsInHistory > 200 {
        songsInHistory := 200;
      }
      playlist := [];
      ok := AddInitialSongs(listed);
      if !ok { return; }
      current := -1;
      assert HistoryLimit(|matching|) == songsInHistory && history == Recent(songsInHistory, picks);
      assert Valid();
      StartPlaying(opensAgain);
    }

    /** Plays the first song of a full queue. */
    method StartPlaying(opens: bool)
      requires Valid() && |playlist| == QUEUE_DEPTH
      modifies this
      ensures Valid() && enabled && current == 0 && playlist == old(playlist) && picks == old(picks)
    {
      assert playlist[0..] == playlist;
      Play(0, opens);
      assert picks[|old(picks)|..] == [];
      enabled := true;
    }
  }

  function OnTop(playlist: seq<Entry>, at: int): seq<Entry> {
    if 0 <= at < |playlist| then [playlist[at]] + playlist[..at] + playlist[at + 1..] else playlist
  }

  function Missing(playlist: seq<Entry>): nat {
    if |playlist| >= QUEUE_DEPTH then 0 else QUEUE_DEPTH - |playlist|
  }

  /** How many of the missing songs can be picked. */
  function Available(opens: bool, matching: nat, picked: nat, missing: nat): nat {
    if !opens then 0
    else if matching >= 50 || picked + missing <= matching then missing
    else if picked <= matching then matching - picked else 0
  }

  /** The queue without what comes before the current song. */
  function Unplayed(playlist: seq<Entry>, current: int): seq<Entry>
    requires current <= |playlist|
  {
    if current < 0 then playlist else playlist[current..]
  }
}
