/** The stored statistics: one file per application and statistic, a window of the latest samples
    (packages/server/src/monitoring/utils.ts:15-38, 131-142, 167-214). */
module StatsWindow {
  import opened Ordering
  import opened Strings

  datatype StatType = Cpu | Memory | Disk | Network | Block

  datatype Sample = Sample(value: string, time: string)

  type Key = (string, StatType)

  /** A file holds a list of samples or something that cannot be parsed; a key without a file is not in the map. */
  datatype File = Samples(list: seq<Sample>) | Garbage

  const WINDOW := 288

  /** `readStatsFile`: an absent or unreadable file reads as the empty list. */
  function Stored(files: map<Key, File>, key: Key): seq<Sample> {
    if key in files && files[key].Samples? then files[key].list else []
  }

  /** A sample pushed, and the oldest one shifted out if the list is now longer than the window. */
  function Pushed(list: seq<Sample>, s: Sample): seq<Sample> {
    if |list| + 1 > WINDOW then list[1..] + [s] else list + [s]
  }

  class StatsDir {
    var files: map<Key, File>

    method UpdateStatsFile(app: string, stat: StatType, value: string, now: string)
      modifies this
      ensures files == old(files)[(app, stat) := Samples(Pushed(Stored(old(files), (app, stat)), Sample(value, now)))]
      ensures forall key :: key in files <==> key in old(files) || key == (app, stat)
      ensures forall key :: key in old(files) && key != (app, stat) ==> files[key] == old(files)[key]
      ensures files[(app, stat)].Samples?
      ensures var key, list := (app, stat), files[(app, stat)].list;
              if key in old(files) && old(files)[key].Samples?
              then
                var before := old(files)[key].list + [Sample(value, now)];
                list == if |before| <= 288 then before else before[1..]
              else list == [Sample(value, now)]
    {
      var stats := Stored(files, (app, stat));
      ghost var before := stats;
      stats := stats + [Sample(value, now)];
      assert |before| >= WINDOW ==> stats[1..] == before[1..] + [Sample(value, now)];
      if |stats| > WINDOW { stats := stats[1..]; }
      files := files[(app, stat) := Samples(stats)];
    }

    /** The sample that the stored list ends with, or none if there is no list or it is empty. */
    method ReadLastValue(app: string, stat: StatType) returns (last: Option<Sample>)
      ensures var list := Stored(files, (app, stat));
              if last.None? then list == [] else exists front :: list == front + [last.value]
      ensures last == LastValue(files, (app, stat))
      ensures var key := (app, stat);
              last.Some? <==> key in files && files[key].Samples? && files[key].list != []
      ensures last.Some? ==> var list := files[(app, stat)].list; last.value == list[|list| - 1]
    {
      var stats := Stored(files, (app, stat));
      if stats == [] { return None; }
      assert stats == stats[..|stats| - 1] + [stats[|stats| - 1]];
      return Some(stats[|stats| - 1]);
    }
  }

  function LastValue(files: map<Key, File>, key: Key): Option<Sample> {
    var list := Stored(files, key);
    if list == [] then None else Some(list[|list| - 1])
  }

  // --- Any run of updates -------------------------------------------------------

  datatype Update = Update(key: Key, sample: Sample)

  /** The directory after a sequence of updates. */
  function UpdateAll(files: map<Key, File>, updates: seq<Update>): map<Key, File> {
    if updates == [] then files
    else
      var before := UpdateAll(files, updates[..|updates| - 1]);
      var u := updates[|updates| - 1];
      before[u.key := Samples(Pushed(Stored(before, u.key), u.sample))]
  }

  /** The samples that the updates gave to one key, in order. */
  function SamplesFor(updates: seq<Update>, key: Key): seq<Sample> {
    if updates == [] then []
    else SamplesFor(updates[..|updates| - 1], key)
         + if updates[|updates| - 1].key == key then [updates[|updates| - 1].sample] else []
  }

  function LastWindow(xs: seq<Sample>): seq<Sample> { if |xs| > WINDOW then xs[|xs| - WINDOW..] else xs }

  lemma OneUpdate(files: map<Key, File>, u: Update, key: Key)
    ensures var after := files[u.key := Samples(Pushed(Stored(files, u.key), u.sample))];
            && (key != u.key ==> Stored(after, key) == Stored(files, key) && (key in after <==> key in files))
            && (key == u.key ==> Stored(after, key) == Pushed(Stored(files, key), u.sample) && key in after)
  {
  }

  lemma LastOfWindow(xs: seq<Sample>)
    requires xs != []
    ensures LastWindow(xs) != [] && LastWindow(xs)[|LastWindow(xs)| - 1] == xs[|xs| - 1]
  {
  }

  lemma PushedWindow(xs: seq<Sample>, s: Sample)
    ensures Pushed(LastWindow(xs), s) == LastWindow(xs + [s])
  {
  }

  /** Starting without files, after any interleaving of updates each key's file holds exactly its own latest samples,
      at most a window of them, in order; the last-value reader gives the latest; keys never updated have no file. */
  lemma {:induction false} WindowPerKey(updates: seq<Update>, key: Key)
    ensures var files, xs := UpdateAll(map[], updates), SamplesFor(updates, key);
            && Stored(files, key) == LastWindow(xs) == (if |xs| > 288 then xs[|xs| - 288..] else xs)
            && (key in files <==> xs != []) && (key in files ==> files[key] == Samples(LastWindow(xs)))
            && LastValue(files, key) == if xs == [] then None else Some(xs[|xs| - 1])
  {
    if updates == [] {
    } else {
      var front, u := updates[..|updates| - 1], updates[|updates| - 1];
      WindowPerKey(front, key);
      OneUpdate(UpdateAll(map[], front), u, key);
      if u.key == key {
        PushedWindow(SamplesFor(front, key), u.sample);
        LastOfWindow(SamplesFor(front, key) + [u.sample]);
      }
    }
  }

  /** A list that is already longer than the window keeps its excess: one shift per update never shortens it. So the
      length after updates is the smaller of total and window exactly when the list started within the window. */
  lemma {:induction false} LengthAfterUpdates(files: map<Key, File>, updates: seq<Update>, key: Key)
    ensures var n, n0, k := |Stored(UpdateAll(files, updates), key)|, |Stored(files, key)|, |SamplesFor(updates, key)|;
            && n == (if n0 > 288 then n0 else if n0 + k > 288 then 288 else n0 + k)
            && (n <= 288 <==> n0 <= 288)
  {
    if updates == [] {
    } else {
      LengthAfterUpdates(files, updates[..|updates| - 1], key);
    }
  }

  // --- The `a / b` texts --------------------------------------------------------

  lemma PlainPairSplits(a: string, b: string)
    requires ' ' !in a && ' ' !in b
    ensures Split(a + " / " + b, ' ') == [a, "/", b]
  {
    assert a + " / " + b == a + [' '] + ("/" + [' '] + b);
    SplitFront(a, ' ', "/" + [' '] + b);
    SplitFront("/", ' ', b);
    SplitPlain(b, ' ');
  }

  /** Splitting a printed `a / b` text on spaces gives the two parts at positions 0 and 2 exactly when neither has a
      space. */
  lemma PrintedPairSplits(a: string, b: string)
    ensures var parts := Split(a + " / " + b, ' ');
            (|parts| == 3 && parts[0] == a && parts[1] == "/" && parts[2] == b) <==> ' ' !in a && ' ' !in b
  {
    var text := a + " / " + b;
    var parts := Split(text, ' ');
    if ' ' !in a && ' ' !in b { PlainPairSplits(a, b); }
    if |parts| == 3 && parts[0] == a && parts[1] == "/" && parts[2] == b {
      PartsArePlain(text, ' ', 0);
      PartsArePlain(text, ' ', 2);
    }
  }
}
