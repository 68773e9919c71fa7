/** The ring of recorded calls and the query for the latest calls of one plugin. */
module FfiRecorder {

  const RING_SIZE: nat := 512

  datatype Entry = Entry(plugin: string, call: string, direction: string, args: string, result: string,
                         durationMs: real, timestamp: int, caller: string)

  // ---------------------------------------------------------------------------------------------
  // The query, on the whole history
  // ---------------------------------------------------------------------------------------------

  function LastN<T>(s: seq<T>, n: nat): seq<T> {
    if |s| <= n then s else s[|s| - n..]
  }

  function Reversed<T>(s: seq<T>): seq<T> {
    if s == [] then [] else Reversed(s[1..]) + [s[0]]
  }

  /** The entries of one plugin, in order. */
  function Matching(s: seq<Entry>, plugin: string): seq<Entry> {
    if s == [] then []
    else if s[0].plugin == plugin then [s[0]] + Matching(s[1..], plugin)
    else Matching(s[1..], plugin)
  }

  /** The last `max` entries of the plugin among the last RING_SIZE of the history, oldest first. */
  function Recent(history: seq<Entry>, plugin: string, max: nat): seq<Entry> {
    LastN(Matching(LastN(history, RING_SIZE), plugin), max)
  }

  lemma {:induction false} MatchingAppends(s: seq<Entry>, t: seq<Entry>, plugin: string)
    ensures Matching(s + t, plugin) == Matching(s, plugin) + Matching(t, plugin)
  {
    if s == [] {
      assert s + t == t;
    } else {
      assert (s + t)[1..] == s[1..] + t;
      MatchingAppends(s[1..], t, plugin);
    }
  }

  lemma {:induction false} ReversedAppends<T>(s: seq<T>, x: T)
    ensures Reversed(s + [x]) == [x] + Reversed(s)
  {
    if s == [] {
    } else {
      assert (s + [x])[1..] == s[1..] + [x];
      ReversedAppends(s[1..], x);
    }
  }

  lemma {:induction false} ReversedLength<T>(s: seq<T>)
    ensures |Reversed(s)| == |s|
  {
    if s != [] { ReversedLength(s[1..]); }
  }

  /**
   The ring answers as an unbounded log would exactly when it still holds `max` entries of the plugin,
   or all there ever were.
   */
  lemma RecentIsUnboundedIff(history: seq<Entry>, plugin: string, max: nat)
    ensures var held := |Matching(LastN(history, RING_SIZE), plugin)|;
            Recent(history, plugin, max) == LastN(Matching(history, plugin), max) <==>
            max <= held || held == |Matching(history, plugin)|
  {
    var window := LastN(history, RING_SIZE);
    var before := history[..|history| - |window|];
    assert history == before + window;
    MatchingAppends(before, window, plugin);
    var (older, held) := (Matching(before, plugin), Matching(window, plugin));
    if max <= |held| {
      assert LastN(older + held, max) == LastN(held, max);
    } else if older == [] {
      assert older + held == held;
    } else {
      assert |LastN(older + held, max)| > |LastN(held, max)|;
    }
  }

  /** Recording a call of another plugin changes no answer that is still full afterwards. */
  lemma OtherPluginsKeepAnswers(history: seq<Entry>, e: Entry, plugin: string, max: nat)
    requires e.plugin != plugin
    requires max <= |Matching(LastN(history + [e], RING_SIZE), plugin)|
    ensures Recent(history + [e], plugin, max) == Recent(history, plugin, max)
  {
    hide Matching;
    var window := LastN(history, RING_SIZE);
    var shared := if |history| < RING_SIZE then window else window[1..];
    var lost := window[..|window| - |shared|];
    assert LastN(history + [e], RING_SIZE) == shared + [e];
    assert window == lost + shared;
    MatchingAppends(shared, [e], plugin);
    MatchingAppends(lost, shared, plugin);
    NotMatching(e, plugin);
    assert Matching(shared, plugin) + [] == Matching(shared, plugin);
  }

  lemma NotMatching(e: Entry, plugin: string)
    requires e.plugin != plugin
    ensures Matching([e], plugin) == []
  {
  }

  // ---------------------------------------------------------------------------------------------
  // The recorder
  // ---------------------------------------------------------------------------------------------

  class Recorder {
    var ring: seq<Entry>
    var writePos: nat
    ghost var history: seq<Entry>

    /** Slot `j % RING_SIZE` holds the entry recorded as number `j`, for the latest RING_SIZE of them. */
    ghost predicate Valid()
      reads this
    {
      && writePos == |history|
      && |ring| == (if |history| < RING_SIZE then |history| else RING_SIZE)
      && forall j: nat | |history| - |ring| <= j < |history| :: ring[j % RING_SIZE] == history[j]
    }

    constructor ()
      ensures Valid() && history == []
    {
      ring, writePos, history := [], 0, [];
    }

    method Record(entry: Entry)
      requires Valid()
      modifies this
      ensures Valid() && history == old(history) + [entry]
    {
      if |ring| < RING_SIZE {
        ring := ring + [entry];
      } else {
        ring := ring[writePos % RING_SIZE := entry];
      }
      writePos := writePos + 1;
      history := history + [entry];
    }

    /** Where the backward scan finds the entry that is `i` before the latest. */
    function Slot(i: nat): int
      requires i < |ring|
      reads this
    {
      if |ring| < RING_SIZE then |ring| - 1 - i
      else ((if writePos > 0 then writePos - 1 else 0) - i + RING_SIZE) % RING_SIZE
    }

    /** No subtraction in the scan goes below zero, and the scan visits the window backwards. */
    lemma SlotHolds(i: nat)
      requires Valid() && i < |ring|
      ensures |ring| == RING_SIZE ==> i <= writePos - 1
      ensures 0 <= Slot(i) < |ring| == |LastN(history, RING_SIZE)|
      ensures ring[Slot(i)] == LastN(history, RING_SIZE)[|ring| - 1 - i]
    {
      var j: nat := |history| - 1 - i;
      SlotOf(j);
      assert ring[j % RING_SIZE] == history[j];
    }

    method GetRecent(plugin: string, max: nat) returns (out: seq<Entry>)
      requires Valid()
      ensures out == Recent(history, plugin, max)
    {
      hide Matching, Reversed, LastN;
      out := [];
      var total := |ring|;
      var start := if writePos > 0 then writePos - 1 else 0;
      ghost var window := LastN(history, RING_SIZE);
      WindowLength(history);
      ScanStarts(window, plugin);
      var i := 0;
      while i < total && |out| < max
        invariant 0 <= i <= total == |window| && |out| <= max
        invariant Reversed(out) == Matching(window[total - i..], plugin)
      {
        SlotHolds(i);
        var idx: nat := if total < RING_SIZE then total - 1 - i else (start - i + RING_SIZE) % RING_SIZE;
        var e := ring[idx];
        ScanStep(window, plugin, out, total - 1 - i);
        if e.plugin == plugin {
          out := out + [e];
        }
        i := i + 1;
      }
      ScanEnds(window, plugin, out, total - i, max);
      out := Reversed(out);
    }
  }

  lemma SlotOf(j: nat)
    ensures (j + RING_SIZE) % RING_SIZE == j % RING_SIZE && (j < RING_SIZE ==> j % RING_SIZE == j)
  {
  }

  lemma WindowLength(history: seq<Entry>)
    ensures |LastN(history, RING_SIZE)| == if |history| < RING_SIZE then |history| else RING_SIZE
  {
  }

  lemma ScanStarts(window: seq<Entry>, plugin: string)
    ensures Reversed<Entry>([]) == Matching(window[|window|..], plugin)
  {
  }

  lemma ScanStep(window: seq<Entry>, plugin: string, out: seq<Entry>, k: nat)
    requires k < |window| && Reversed(out) == Matching(window[k + 1..], plugin)
    ensures Reversed(if window[k].plugin == plugin then out + [window[k]] else out) == Matching(window[k..], plugin)
  {
    assert window[k..][1..] == window[k + 1..];
    ReversedAppends(out, window[k]);
  }

  lemma ScanEnds(window: seq<Entry>, plugin: string, out: seq<Entry>, k: nat, max: nat)
    requires k <= |window| && Reversed(out) == Matching(window[k..], plugin)
    requires |out| <= max && (k == 0 || |out| == max)
    ensures Reversed(out) == LastN(Matching(window, plugin), max)
  {
    ReversedLength(out);
    assert window == window[..k] + window[k..];
    MatchingAppends(window[..k], window[k..], plugin);
  }
}
