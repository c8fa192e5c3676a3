/** Generation directories named by ULIDs: a clock that moves on is all the storage needs. */
module GenerationIds {
  import opened Text
  import opened Ulid
  import opened Generations

  /** Build `i` drew its identifier at `times[i]`, with some tail; the clock moved on between draws. */
  ghost predicate DrawnAt(builds: seq<Attempt>, times: seq<nat>, tails: seq<nat>) {
    && |times| == |tails| == |builds|
    && (forall i :: 0 <= i < |builds| ==> builds[i].id == UlidText(times[i], tails[i]) && times[i] < 0x4_0000_0000_0000)
    && (forall i, j :: 0 <= i < j < |times| ==> times[i] < times[j])
  }

  lemma ChronologicalIds(builds: seq<Attempt>, times: seq<nat>, tails: seq<nat>)
    requires DrawnAt(builds, times, tails)
    ensures Increasing(builds)
  {
    forall i, j | 0 <= i < j < |builds| ensures Less(builds[i].id, builds[j].id) {
      UlidOrder(times[i], times[j], tails[i], tails[j]);
    }
  }

  /** From an empty store, with at most one identifier per millisecond: every run is safe, and the
      sealed generations on disk are those of the last two builds that spilled, plus stuck ones. */
  lemma StorageSafeByClock(builds: seq<Attempt>, times: seq<nat>, tails: seq<nat>)
    requires DrawnAt(builds, times, tails)
    ensures Safe(RunBuilds(builds))
    ensures SealedByHistory(RunBuilds(builds).dirs, Spills(builds), LastStuck(builds))
  {
    ChronologicalIds(builds, times, tails);
    GenerationsSafe(builds);
    SealedAreLastTwoSpills(builds);
  }

  /** Sorted by name, complete generations come in the order of their clock readings. */
  lemma ListingIsChronological(ids: seq<string>, times: seq<nat>, tails: seq<nat>, i: nat, j: nat)
    requires Sorted(ids) && |times| == |tails| == |ids| && i < |ids| && j < |ids| && times[i] != times[j]
    requires forall k :: 0 <= k < |ids| ==> ids[k] == UlidText(times[k], tails[k]) && times[k] < 0x4_0000_0000_0000
    ensures i < j <==> times[i] < times[j]
  {
    UlidOrder(times[i], times[j], tails[i], tails[j]);
    UlidOrder(times[j], times[i], tails[j], tails[i]);
  }
}
