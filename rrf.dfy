/**
 * Reciprocal Rank Fusion (`src/rrf.rs`): several ranked result lists are
 * merged into one, each appearance of a memory at 1-based rank `r`
 * contributing `1 / (k + r)` to its fused score.
 */
module Rrf {
  import opened Wrappers
  import opened SqliteTypes
  import Text
  import Sorting

  datatype RrfConfig = RrfConfig(k: real)

  /** `RrfConfig::default()`. */
  const DEFAULT_CONFIG := RrfConfig(25.0)

  /** `config.unwrap_or_default().k`. */
  function KOf(config: Option<RrfConfig>): real
  {
    config.GetOr(DEFAULT_CONFIG).k
  }

  /** A memory at a 0-based `position` of one input list (rank `position + 1`). */
  datatype Occurrence = Occurrence(memory: Memory, position: nat)

  /** One list, enumerated. */
  function Ranked(list: seq<Memory>): (r: seq<Occurrence>)
    ensures |r| == |list|
    ensures forall i :: 0 <= i < |r| ==> r[i] == Occurrence(list[i], i)
  {
    seq(|list|, i requires 0 <= i < |list| => Occurrence(list[i], i))
  }

  /** Every list, enumerated, in the order the outer loop visits them. */
  function Occurrences(lists: seq<seq<Memory>>): seq<Occurrence>
  {
    if lists == [] then []
    else Occurrences(lists[..|lists| - 1]) + Ranked(lists[|lists| - 1])
  }

  lemma {:induction false} OccurrencesSnoc(lists: seq<seq<Memory>>, l: nat)
    requires l < |lists|
    ensures Occurrences(lists[..l + 1]) == Occurrences(lists[..l]) + Ranked(lists[l])
  {
    assert lists[..l + 1][..l] == lists[..l];
  }

  /** What one appearance adds to the fused score: `1 / (k + rank)`. */
  function Contribution(k: real, position: nat): (c: real)
    requires k > -1.0
    ensures c > 0.0
  {
    1.0 / (k + (position + 1) as real)
  }

  /** The ids that appear at all. */
  function Ids(occ: seq<Occurrence>): set<string>
  {
    if occ == [] then {} else Ids(occ[..|occ| - 1]) + {occ[|occ| - 1].memory.id}
  }

  /** The memory of the first appearance of `id`. */
  function FirstOf(occ: seq<Occurrence>, id: string): (r: Option<Memory>)
    ensures r.Some? <==> id in Ids(occ)
    ensures r.Some? ==> r.value.id == id
  {
    if occ == [] then None
    else
      var init := occ[..|occ| - 1];
      var last := occ[|occ| - 1];
      assert occ == init + [last];
      if FirstOf(init, id).Some? then FirstOf(init, id)
      else if last.memory.id == id then Some(last.memory)
      else None
  }

  /** The fused score of `id`: the sum of the contributions of all its appearances. */
  function ScoreOf(occ: seq<Occurrence>, id: string, k: real): (s: real)
    requires k > -1.0
    ensures s >= 0.0
    ensures s > 0.0 <==> id in Ids(occ)
  {
    if occ == [] then 0.0
    else
      var init := occ[..|occ| - 1];
      var last := occ[|occ| - 1];
      assert occ == init + [last];
      ScoreOf(init, id, k) + (if last.memory.id == id then Contribution(k, last.position) else 0.0)
  }

  /** `result.similarity = Some(score)`. */
  function Fused(m: Memory, score: real): (r: Memory)
    ensures Score(r) == score && r.id == m.id
  {
    m.(similarity := Some(score))
  }

  /**
   * The `HashMap` the two nested loops build: the first appearance of an id
   * stores its memory and contribution, later ones add to the score.
   */
  function Accumulate(occ: seq<Occurrence>, k: real): map<string, (Memory, real)>
    requires k > -1.0
  {
    if occ == [] then map[] else Step(Accumulate(occ[..|occ| - 1], k), occ[|occ| - 1], k)
  }

  /** One iteration of the inner loop: the `match fused_results.get_mut(&id)`. */
  function Step(acc: map<string, (Memory, real)>, o: Occurrence, k: real): map<string, (Memory, real)>
    requires k > -1.0
  {
    var score := Contribution(k, o.position);
    if o.memory.id in acc then acc[o.memory.id := (acc[o.memory.id].0, acc[o.memory.id].1 + score)]
    else acc[o.memory.id := (o.memory.(similarity := Some(score)), score)]
  }

  lemma {:induction false} AccumulateSnoc(occ: seq<Occurrence>, o: Occurrence, k: real)
    requires k > -1.0
    ensures Accumulate(occ + [o], k) == Step(Accumulate(occ, k), o, k)
  {
    assert (occ + [o])[..|occ|] == occ;
  }

  /** The map holds, for every id that appears, its first memory and its fused score. */
  lemma {:induction false} AccumulateMeaning(occ: seq<Occurrence>, k: real)
    requires k > -1.0
    ensures Accumulate(occ, k).Keys == Ids(occ)
    ensures forall id :: id in Accumulate(occ, k) ==>
      Accumulate(occ, k)[id].0.id == id &&
      Accumulate(occ, k)[id].1 == ScoreOf(occ, id, k) &&
      Fused(Accumulate(occ, k)[id].0, ScoreOf(occ, id, k)) == Fused(FirstOf(occ, id).value, ScoreOf(occ, id, k))
  {
    if occ != [] {
      var init := occ[..|occ| - 1];
      var o := occ[|occ| - 1];
      assert occ == init + [o];
      AccumulateMeaning(init, k);
      var acc := Accumulate(init, k);
      forall id | id in Accumulate(occ, k)
        ensures Accumulate(occ, k)[id].0.id == id
        ensures Accumulate(occ, k)[id].1 == ScoreOf(occ, id, k)
        ensures Fused(Accumulate(occ, k)[id].0, ScoreOf(occ, id, k)) == Fused(FirstOf(occ, id).value, ScoreOf(occ, id, k))
      {
        if id != o.memory.id {
          assert Accumulate(occ, k)[id] == acc[id];
        }
      }
    }
  }

  /** Each entry of the map is stored under its memory's id. */
  lemma {:induction false} AccumulateKeys(occ: seq<Occurrence>, k: real)
    requires k > -1.0
    ensures forall id :: id in Accumulate(occ, k) ==> Accumulate(occ, k)[id].0.id == id
  {
    AccumulateMeaning(occ, k);
  }

  /** No id occurs twice. */
  predicate DistinctIds(ms: seq<Memory>)
  {
    forall i, j :: 0 <= i < j < |ms| ==> ms[i].id != ms[j].id
  }

  /** `then_with`: higher fused score first, equal scores by ascending id. */
  predicate FusedBefore(a: Memory, b: Memory)
  {
    Score(a) > Score(b) || (Score(a) == Score(b) && Text.Less(a.id, b.id))
  }

  /**
   * What `rrf_fusion` returns for `lists`: every id that appears in some list,
   * exactly once, carrying the memory of its first appearance with its fused
   * score as similarity, ordered by `FusedBefore`.
   */
  predicate IsFusion(r: seq<Memory>, lists: seq<seq<Memory>>, k: real)
    requires k > -1.0
  {
    var occ := Occurrences(lists);
    (forall i :: 0 <= i < |r| ==>
      r[i].id in Ids(occ) && r[i] == Fused(FirstOf(occ, r[i].id).value, ScoreOf(occ, r[i].id, k))) &&
    (forall id :: id in Ids(occ) ==> exists i :: 0 <= i < |r| && r[i].id == id) &&
    DistinctIds(r) &&
    Sorting.SortedBy(r, FusedBefore)
  }

  /** An entry of the map, as `fused_vec` holds it. */
  predicate EntryBefore(a: (Memory, real), b: (Memory, real))
  {
    a.1 > b.1 || (a.1 == b.1 && Text.Less(a.0.id, b.0.id))
  }

  lemma {:induction false} EntryBeforeIsStrictOrder()
    ensures Sorting.StrictOrder(EntryBefore)
  {
    forall a: (Memory, real) ensures !EntryBefore(a, a) {
      Text.LessIrreflexive(a.0.id);
    }
    forall a: (Memory, real), b: (Memory, real), c: (Memory, real) | EntryBefore(a, b) && EntryBefore(b, c)
      ensures EntryBefore(a, c)
    {
      if a.1 == b.1 == c.1 {
        Text.LessTransitive(a.0.id, b.0.id, c.0.id);
      }
    }
  }

  /** The outer loop of `rrf_fusion`, over the result lists, filling the map. */
  method AccumulateLists(resultLists: seq<seq<Memory>>, k: real) returns (fused: map<string, (Memory, real)>)
    requires k > -1.0
    ensures fused == Accumulate(Occurrences(resultLists), k)
  {
    fused := map[];
    var l := 0;
    while l < |resultLists|
      invariant 0 <= l <= |resultLists|
      invariant fused == Accumulate(Occurrences(resultLists[..l]), k)
    {
      fused := AccumulateList(fused, Occurrences(resultLists[..l]), resultLists[l], k);
      OccurrencesSnoc(resultLists, l);
      l := l + 1;
    }
    assert resultLists[..l] == resultLists;
  }

  /** The inner loop of `rrf_fusion`: one list's memories, at ranks 1, 2, ..., added to the map. */
  method AccumulateList(start: map<string, (Memory, real)>, ghost earlier: seq<Occurrence>, list: seq<Memory>,
                        k: real) returns (fused: map<string, (Memory, real)>)
    requires k > -1.0
    requires start == Accumulate(earlier, k)
    ensures fused == Accumulate(earlier + Ranked(list), k)
  {
    fused := start;
    var p := 0;
    assert earlier + Ranked(list)[..p] == earlier;
    while p < |list|
      invariant 0 <= p <= |list|
      invariant fused == Accumulate(earlier + Ranked(list)[..p], k)
    {
      var result := list[p];
      var score := Contribution(k, p);
      ghost var before := earlier + Ranked(list)[..p];
      RankedPrefixSnoc(earlier, list, p);
      AccumulateSnoc(before, Occurrence(result, p), k);
      if result.id in fused {
        fused := fused[result.id := (fused[result.id].0, fused[result.id].1 + score)];
      } else {
        fused := fused[result.id := (result.(similarity := Some(score)), score)];
      }
      p := p + 1;
    }
    assert Ranked(list)[..p] == Ranked(list);
  }

  lemma {:induction false} RankedPrefixSnoc(earlier: seq<Occurrence>, list: seq<Memory>, p: nat)
    requires p < |list|
    ensures earlier + Ranked(list)[..p + 1] == earlier + Ranked(list)[..p] + [Occurrence(list[p], p)]
  {
    assert Ranked(list)[..p + 1] == Ranked(list)[..p] + [Ranked(list)[p]];
  }

  /** Each entry is the map's entry for its own id. */
  predicate EntriesOf(entries: seq<(Memory, real)>, fused: map<string, (Memory, real)>)
  {
    (forall i :: 0 <= i < |entries| ==> entries[i].0.id in fused && entries[i] == fused[entries[i].0.id]) &&
    (forall i, j :: 0 <= i < j < |entries| ==> entries[i].0.id != entries[j].0.id)
  }

  /** `into_values().collect()`: every entry of the map once, in whatever order the map yields them. */
  method Values(fused: map<string, (Memory, real)>) returns (entries: seq<(Memory, real)>)
    requires forall id :: id in fused ==> fused[id].0.id == id
    ensures EntriesOf(entries, fused)
    ensures forall id :: id in fused ==> exists i :: 0 <= i < |entries| && entries[i].0.id == id
  {
    entries := [];
    var remaining := fused.Keys;
    while remaining != {}
      invariant remaining <= fused.Keys
      invariant EntriesOf(entries, fused)
      invariant forall i :: 0 <= i < |entries| ==> entries[i].0.id !in remaining
      invariant forall id :: id in fused && id !in remaining ==> exists i :: 0 <= i < |entries| && entries[i].0.id == id
      decreases |remaining|
    {
      var id :| id in remaining;
      ghost var previous := entries;
      entries := entries + [fused[id]];
      remaining := remaining - {id};
      ValuesStep(previous, entries, fused, id, remaining);
    }
  }

  /** Appending the entry of a not yet visited id keeps the loop invariant of `Values`. */
  lemma {:induction false} ValuesStep(previous: seq<(Memory, real)>, entries: seq<(Memory, real)>, fused: map<string, (Memory, real)>,
                   id: string, remaining: set<string>)
    requires forall id :: id in fused ==> fused[id].0.id == id
    requires id in fused && id !in remaining && entries == previous + [fused[id]]
    requires EntriesOf(previous, fused)
    requires forall i :: 0 <= i < |previous| ==> previous[i].0.id !in remaining + {id}
    requires forall other :: other in fused && other !in remaining + {id} ==>
               exists i :: 0 <= i < |previous| && previous[i].0.id == other
    ensures EntriesOf(entries, fused)
    ensures forall i :: 0 <= i < |entries| ==> entries[i].0.id !in remaining
    ensures forall other :: other in fused && other !in remaining ==>
              exists i :: 0 <= i < |entries| && entries[i].0.id == other
  {
    forall other | other in fused && other !in remaining
      ensures exists i :: 0 <= i < |entries| && entries[i].0.id == other
    {
      if other == id {
        assert entries[|previous|].0.id == other;
      } else {
        var i :| 0 <= i < |previous| && previous[i].0.id == other;
        assert entries[i] == previous[i];
      }
    }
  }

  /** `rrf_fusion`: the result lists fused, ranked by accumulated score. */
  method RrfFusion(resultLists: seq<seq<Memory>>, config: Option<RrfConfig>) returns (r: seq<Memory>)
    requires KOf(config) > -1.0
    ensures resultLists == [] ==> r == []
    ensures IsFusion(r, resultLists, KOf(config))
  {
    var k := KOf(config);
    if resultLists == [] {
      return [];
    }
    var fused := AccumulateLists(resultLists, k);
    AccumulateKeys(Occurrences(resultLists), k);
    var entries := Values(fused);
    var sorted := Sorting.SortBy(entries, EntryBefore);
    EntryBeforeIsStrictOrder();
    Sorting.SortBySorted(entries, EntryBefore);
    r := seq(|sorted|, i requires 0 <= i < |sorted| => Fused(sorted[i].0, sorted[i].1));
    SortedEntries(entries, sorted, fused);
    FusionOfEntries(sorted, r, fused, resultLists, k);
  }

  /** Sorting the entries keeps them the map's entries, each id once, and misses none. */
  lemma {:induction false} SortedEntries(entries: seq<(Memory, real)>, sorted: seq<(Memory, real)>, fused: map<string, (Memory, real)>)
    requires EntriesOf(entries, fused)
    requires forall id :: id in fused ==> exists i :: 0 <= i < |entries| && entries[i].0.id == id
    requires multiset(sorted) == multiset(entries)
    ensures EntriesOf(sorted, fused)
    ensures forall id :: id in fused ==> exists i :: 0 <= i < |sorted| && sorted[i].0.id == id
  {
    forall i | 0 <= i < |sorted|
      ensures sorted[i].0.id in fused && sorted[i] == fused[sorted[i].0.id]
    {
      assert sorted[i] in multiset(entries);
    }
    forall id | id in fused ensures exists i :: 0 <= i < |sorted| && sorted[i].0.id == id {
      var j :| 0 <= j < |entries| && entries[j].0.id == id;
      assert entries[j] in multiset(sorted);
    }
    assert Sorting.Distinct(entries);
    Sorting.DistinctPermutation(entries, sorted);
    forall i, j | 0 <= i < j < |sorted| ensures sorted[i].0.id != sorted[j].0.id {
      assert sorted[i] != sorted[j];
    }
  }

  /** The sorted entries of the accumulated map, rescored, satisfy `IsFusion`. */
  lemma {:induction false} FusionOfEntries(sorted: seq<(Memory, real)>, r: seq<Memory>,
                        fused: map<string, (Memory, real)>, lists: seq<seq<Memory>>, k: real)
    requires k > -1.0
    requires fused == Accumulate(Occurrences(lists), k)
    requires EntriesOf(sorted, fused) && Sorting.SortedBy(sorted, EntryBefore)
    requires forall id :: id in fused ==> exists i :: 0 <= i < |sorted| && sorted[i].0.id == id
    requires |r| == |sorted| && forall i :: 0 <= i < |r| ==> r[i] == Fused(sorted[i].0, sorted[i].1)
    ensures IsFusion(r, lists, k)
  {
    var occ := Occurrences(lists);
    AccumulateMeaning(occ, k);
    FusedEntries(sorted, r, fused, occ, k);
    FusedCover(sorted, r, fused.Keys);
    FusedOrder(sorted, r, fused);
  }

  /** Rescoring keeps the ids, so every id of the map still has its memory. */
  lemma {:induction false} FusedCover(sorted: seq<(Memory, real)>, r: seq<Memory>, ids: set<string>)
    requires forall id :: id in ids ==> exists i :: 0 <= i < |sorted| && sorted[i].0.id == id
    requires |r| == |sorted| && forall i :: 0 <= i < |r| ==> r[i] == Fused(sorted[i].0, sorted[i].1)
    ensures forall id :: id in ids ==> exists i :: 0 <= i < |r| && r[i].id == id
  {
    forall id | id in ids ensures exists i :: 0 <= i < |r| && r[i].id == id {
      var i :| 0 <= i < |sorted| && sorted[i].0.id == id;
      assert r[i].id == id;
    }
  }

  /** Rescoring by the entry's own score turns the entry order into `FusedBefore`. */
  lemma {:induction false} FusedOrder(sorted: seq<(Memory, real)>, r: seq<Memory>, fused: map<string, (Memory, real)>)
    requires EntriesOf(sorted, fused) && Sorting.SortedBy(sorted, EntryBefore)
    requires |r| == |sorted| && forall i :: 0 <= i < |r| ==> r[i] == Fused(sorted[i].0, sorted[i].1)
    ensures DistinctIds(r) && Sorting.SortedBy(r, FusedBefore)
  {
    forall i, j | 0 <= i < j < |r| ensures r[i].id != r[j].id {
      assert sorted[i].0.id != sorted[j].0.id;
    }
    forall i, j | 0 <= i < j < |r| ensures !FusedBefore(r[j], r[i]) {
      assert !EntryBefore(sorted[j], sorted[i]);
    }
  }

  /** Each rescored entry of the accumulated map is the first memory of its id, carrying its fused score. */
  lemma {:induction false} FusedEntries(sorted: seq<(Memory, real)>, r: seq<Memory>, fused: map<string, (Memory, real)>,
                     occ: seq<Occurrence>, k: real)
    requires k > -1.0
    requires fused == Accumulate(occ, k)
    requires fused.Keys == Ids(occ)
    requires forall id :: id in fused ==>
               fused[id].0.id == id && fused[id].1 == ScoreOf(occ, id, k) &&
               Fused(fused[id].0, ScoreOf(occ, id, k)) == Fused(FirstOf(occ, id).value, ScoreOf(occ, id, k))
    requires EntriesOf(sorted, fused)
    requires |r| == |sorted| && forall i :: 0 <= i < |r| ==> r[i] == Fused(sorted[i].0, sorted[i].1)
    ensures forall i :: 0 <= i < |r| ==>
              r[i].id in Ids(occ) && r[i] == Fused(FirstOf(occ, r[i].id).value, ScoreOf(occ, r[i].id, k))
  {
    forall i | 0 <= i < |r|
      ensures r[i].id in Ids(occ) && r[i] == Fused(FirstOf(occ, r[i].id).value, ScoreOf(occ, r[i].id, k))
    {
      var id := sorted[i].0.id;
      assert sorted[i] == fused[id];
      assert r[i].id == id;
    }
  }

  lemma {:induction false} IdsMembers(occ: seq<Occurrence>, id: string)
    ensures id in Ids(occ) <==> exists j :: 0 <= j < |occ| && occ[j].memory.id == id
  {
    if occ != [] {
      var init := occ[..|occ| - 1];
      IdsMembers(init, id);
      if id in Ids(init) {
        var j :| 0 <= j < |init| && init[j].memory.id == id;
        assert occ[j] == init[j];
      }
      if exists j :: 0 <= j < |occ| && occ[j].memory.id == id {
        var j :| 0 <= j < |occ| && occ[j].memory.id == id;
        if j < |init| {
          assert init[j] == occ[j];
        }
      }
    }
  }

  lemma {:induction false} AppendFacts(a: seq<Occurrence>, b: seq<Occurrence>, id: string, k: real)
    requires k > -1.0
    ensures Ids(a + b) == Ids(a) + Ids(b)
    ensures FirstOf(a + b, id) == if FirstOf(a, id).Some? then FirstOf(a, id) else FirstOf(b, id)
    ensures ScoreOf(a + b, id, k) == ScoreOf(a, id, k) + ScoreOf(b, id, k)
  {
    if b == [] {
      assert a + b == a;
    } else {
      var init := b[..|b| - 1];
      assert (a + b)[..|a + b| - 1] == a + init;
      AppendFacts(a, init, id, k);
    }
  }

  lemma {:induction false} OccurrencesAppend(a: seq<seq<Memory>>, b: seq<seq<Memory>>)
    ensures Occurrences(a + b) == Occurrences(a) + Occurrences(b)
  {
    if b == [] {
      assert a + b == a;
    } else {
      var init := b[..|b| - 1];
      var last := b[|b| - 1];
      assert (a + b)[..|a + b| - 1] == a + init;
      assert (a + b)[|a + b| - 1] == last;
      OccurrencesAppend(a, init);
      assert Occurrences(b) == Occurrences(init) + Ranked(last);
      assert Occurrences(a + b) == Occurrences(a) + Occurrences(init) + Ranked(last);
    }
  }

  /** An id takes part in the fusion exactly when it is the id of some memory in some list. */
  lemma {:induction false} IdsOfLists(lists: seq<seq<Memory>>, id: string)
    ensures id in Ids(Occurrences(lists)) <==>
      exists l, p :: 0 <= l < |lists| && 0 <= p < |lists[l]| && lists[l][p].id == id
  {
    if lists != [] {
      var init := lists[..|lists| - 1];
      var last := lists[|lists| - 1];
      IdsOfLists(init, id);
      AppendFacts(Occurrences(init), Ranked(last), id, 0.0);
      IdsOfRanked(last, id);
      assert lists == init + [last];
      InListsSnoc(lists, init, last, id);
    }
  }

  lemma {:induction false} IdsOfRanked(list: seq<Memory>, id: string)
    ensures id in Ids(Ranked(list)) <==> exists p :: 0 <= p < |list| && list[p].id == id
  {
    IdsMembers(Ranked(list), id);
    if exists p :: 0 <= p < |list| && list[p].id == id {
      var p :| 0 <= p < |list| && list[p].id == id;
      assert Ranked(list)[p].memory.id == id;
    }
  }

  /** A memory of `lists` is one of all but the last list, or one of the last. */
  lemma {:induction false} InListsSnoc(lists: seq<seq<Memory>>, init: seq<seq<Memory>>, last: seq<Memory>, id: string)
    requires lists == init + [last]
    ensures (exists l, p :: 0 <= l < |lists| && 0 <= p < |lists[l]| && lists[l][p].id == id) <==>
            (exists l, p :: 0 <= l < |init| && 0 <= p < |init[l]| && init[l][p].id == id)
            || (exists p :: 0 <= p < |last| && last[p].id == id)
  {
    if exists l, p :: 0 <= l < |init| && 0 <= p < |init[l]| && init[l][p].id == id {
      var l, p :| 0 <= l < |init| && 0 <= p < |init[l]| && init[l][p].id == id;
      assert lists[l] == init[l];
    }
    if exists p :: 0 <= p < |last| && last[p].id == id {
      var p :| 0 <= p < |last| && last[p].id == id;
      assert lists[|init|] == last;
    }
    if exists l, p :: 0 <= l < |lists| && 0 <= p < |lists[l]| && lists[l][p].id == id {
      var l, p :| 0 <= l < |lists| && 0 <= p < |lists[l]| && lists[l][p].id == id;
      if l < |init| {
        assert init[l] == lists[l];
      }
    }
  }

  /** A result list whose ids differ: each memory is its own first appearance and scores its own rank. */
  lemma {:induction false} RankedDistinct(list: seq<Memory>, i: nat, k: real)
    requires k > -1.0 && DistinctIds(list) && i < |list|
    ensures FirstOf(Ranked(list), list[i].id) == Some(list[i])
    ensures ScoreOf(Ranked(list), list[i].id, k) == Contribution(k, i)
  {
    var n := |list| - 1;
    var init := list[..n];
    assert Ranked(list) == Ranked(init) + [Occurrence(list[n], n)];
    AppendFacts(Ranked(init), [Occurrence(list[n], n)], list[i].id, k);
    assert [Occurrence(list[n], n)][..0] == [];
    if i < n {
      assert init[i] == list[i];
      RankedDistinct(init, i, k);
    } else {
      IdsMembers(Ranked(init), list[i].id);
      assert list[i].id !in Ids(Ranked(init));
    }
  }

  /** A better rank contributes strictly more. */
  lemma {:induction false} ContributionDecreasing(k: real, p: nat, q: nat)
    requires k > -1.0 && p < q
    ensures Contribution(k, p) > Contribution(k, q)
  {
    var a := k + (p + 1) as real;
    var b := k + (q + 1) as real;
    assert 0.0 < a < b;
    assert 1.0 / a - 1.0 / b == (b - a) / (a * b);
  }

  /**
   * `IsFusion` pins the output down completely: `rrf_fusion` is deterministic
   * whatever order the map yields its entries in.
   */
  lemma {:induction false} FusionUnique(r1: seq<Memory>, r2: seq<Memory>, lists: seq<seq<Memory>>, k: real)
    requires k > -1.0 && IsFusion(r1, lists, k) && IsFusion(r2, lists, k)
    ensures r1 == r2
  {
    FusionTotal(r1, lists, k);
    FusionTotal(r2, lists, k);
    FusionSameElements(r1, r2, lists, k);
    Sorting.DistinctSameElements(r1, r2);
    Sorting.SortedUnique(r1, r2, FusedBefore);
  }

  /** A fusion repeats no memory, and `FusedBefore` orders any two of its memories. */
  lemma {:induction false} FusionTotal(r: seq<Memory>, lists: seq<seq<Memory>>, k: real)
    requires k > -1.0 && IsFusion(r, lists, k)
    ensures Sorting.Distinct(r) && Sorting.TotalOn(r, FusedBefore)
  {
    forall i, j | 0 <= i < |r| && 0 <= j < |r| && r[i] != r[j]
      ensures FusedBefore(r[i], r[j]) || FusedBefore(r[j], r[i])
    {
      assert r[i].id != r[j].id;
      Text.LessTotal(r[i].id, r[j].id);
    }
  }

  /** Two fusions of the same lists hold the same memories. */
  lemma {:induction false} FusionSameElements(r1: seq<Memory>, r2: seq<Memory>, lists: seq<seq<Memory>>, k: real)
    requires k > -1.0 && IsFusion(r1, lists, k) && IsFusion(r2, lists, k)
    ensures forall x :: x in r1 <==> x in r2
  {
    forall x ensures x in r1 <==> x in r2 {
      if x in r1 {
        var j :| 0 <= j < |r2| && r2[j].id == x.id;
      }
      if x in r2 {
        var j :| 0 <= j < |r1| && r1[j].id == x.id;
      }
    }
  }

  lemma {:induction false} OccurrencesSingle(list: seq<Memory>)
    ensures Occurrences([list]) == Ranked(list)
  {
    assert [list][..0] == [];
    assert [] + Ranked(list) == Ranked(list);
  }

  /** The single list rescored by rank: its memories with `1 / (k + rank)` as similarity. */
  function RescoredByRank(list: seq<Memory>, k: real): (c: seq<Memory>)
    requires k > -1.0
    ensures |c| == |list|
    ensures forall i :: 0 <= i < |c| ==> c[i] == Fused(list[i], Contribution(k, i))
  {
    seq(|list|, i requires 0 <= i < |list| => Fused(list[i], Contribution(k, i)))
  }

  lemma {:induction false} RescoredIsFusion(list: seq<Memory>, k: real)
    requires k > -1.0 && DistinctIds(list)
    ensures IsFusion(RescoredByRank(list, k), [list], k)
  {
    var c := RescoredByRank(list, k);
    OccurrencesSingle(list);
    var occ := Ranked(list);
    forall i | 0 <= i < |c|
      ensures c[i].id in Ids(occ) && c[i] == Fused(FirstOf(occ, c[i].id).value, ScoreOf(occ, c[i].id, k))
    {
      RankedDistinct(list, i, k);
    }
    RescoredCovers(list, k);
    RescoredSorted(list, k);
  }

  lemma {:induction false} RescoredCovers(list: seq<Memory>, k: real)
    requires k > -1.0
    ensures forall id :: id in Ids(Ranked(list)) ==> exists i :: 0 <= i < |list| && RescoredByRank(list, k)[i].id == id
  {
    forall id | id in Ids(Ranked(list)) ensures exists i :: 0 <= i < |list| && RescoredByRank(list, k)[i].id == id {
      IdsMembers(Ranked(list), id);
      var j :| 0 <= j < |Ranked(list)| && Ranked(list)[j].memory.id == id;
      assert RescoredByRank(list, k)[j].id == id;
    }
  }

  lemma {:induction false} RescoredSorted(list: seq<Memory>, k: real)
    requires k > -1.0
    ensures Sorting.SortedBy(RescoredByRank(list, k), FusedBefore)
  {
    var c := RescoredByRank(list, k);
    forall i, j | 0 <= i < j < |c| ensures !FusedBefore(c[j], c[i]) {
      ContributionDecreasing(k, i, j);
      assert Score(c[i]) == Contribution(k, i) && Score(c[j]) == Contribution(k, j);
    }
  }

  /** A single list without repeated ids keeps its order, each memory scored by its own rank. */
  lemma {:induction false} SingleListKeepsOrder(list: seq<Memory>, r: seq<Memory>, k: real)
    requires k > -1.0 && DistinctIds(list) && IsFusion(r, [list], k)
    ensures r == RescoredByRank(list, k)
  {
    RescoredIsFusion(list, k);
    FusionUnique(r, RescoredByRank(list, k), [list], k);
  }

  /** An empty result list anywhere among the others changes nothing. */
  lemma {:induction false} EmptyListIgnored(a: seq<seq<Memory>>, b: seq<seq<Memory>>, r: seq<Memory>, k: real)
    requires k > -1.0
    ensures IsFusion(r, a + [[]] + b, k) <==> IsFusion(r, a + b, k)
  {
    OccurrencesAppend(a + [[]], b);
    OccurrencesAppend(a, [[]]);
    OccurrencesAppend(a, b);
    var none: seq<seq<Memory>> := [[]];
    assert none[..0] == [];
    assert Occurrences(none) == [];
    assert Occurrences(a) + [] == Occurrences(a);
  }

  /** For any admissible `k`, ranks 1 and 3 together contribute more than ranks 2 and 2. */
  lemma {:induction false} SpreadRanksBeatMiddle(k: real)
    requires k > -1.0
    ensures Contribution(k, 0) + Contribution(k, 2) > Contribution(k, 1) + Contribution(k, 1)
  {
    var a, b, c := k + 1.0, k + 2.0, k + 3.0;
    assert Contribution(k, 0) == 1.0 / a && Contribution(k, 1) == 1.0 / b && Contribution(k, 2) == 1.0 / c;
    assert 1.0 / a - 1.0 / b == 1.0 / (a * b);
    assert 1.0 / b - 1.0 / c == 1.0 / (b * c);
    assert a * b < b * c;
    assert 1.0 / (a * b) > 1.0 / (b * c);
  }

  /**
   * Three memories ranked `x, z, y` by one method and `y, z, x` by the other:
   * `x` and `y` tie at ranks 1 and 3 ahead of `z` at ranks 2 and 2, the tie
   * broken by id, each carrying its first appearance (from the first list).
   */
  lemma {:induction false} RankingPriority(x: Memory, y: Memory, z: Memory, x2: Memory, y2: Memory, z2: Memory, r: seq<Memory>, k: real)
    requires k > -1.0
    requires x2.id == x.id && y2.id == y.id && z2.id == z.id
    requires Text.Less(x.id, y.id) && x.id != z.id && y.id != z.id
    requires IsFusion(r, [[x, z, y], [y2, z2, x2]], k)
    ensures r == [Fused(x, Contribution(k, 0) + Contribution(k, 2)),
                  Fused(y, Contribution(k, 0) + Contribution(k, 2)),
                  Fused(z, Contribution(k, 1) + Contribution(k, 1))]
  {
    var l1, l2 := [x, z, y], [y2, z2, x2];
    var c := [Fused(x, Contribution(k, 0) + Contribution(k, 2)),
              Fused(y, Contribution(k, 0) + Contribution(k, 2)),
              Fused(z, Contribution(k, 1) + Contribution(k, 1))];
    Text.LessIrreflexive(x.id);
    assert DistinctIds(l1) && DistinctIds(l2);
    PriorityIsFusion(l1, l2, c, k);
    FusionUnique(r, c, [l1, l2], k);
  }

  /** The expected ranking satisfies `IsFusion` for the two lists. */
  lemma {:induction false} PriorityIsFusion(l1: seq<Memory>, l2: seq<Memory>, c: seq<Memory>, k: real)
    requires k > -1.0 && |l1| == 3 && |l2| == 3 && DistinctIds(l1) && DistinctIds(l2)
    requires l2[0].id == l1[2].id && l2[1].id == l1[1].id && l2[2].id == l1[0].id
    requires Text.Less(l1[0].id, l1[2].id)
    requires c == [Fused(l1[0], Contribution(k, 0) + Contribution(k, 2)),
                   Fused(l1[2], Contribution(k, 0) + Contribution(k, 2)),
                   Fused(l1[1], Contribution(k, 1) + Contribution(k, 1))]
    ensures IsFusion(c, [l1, l2], k)
  {
    var occ := Ranked(l1) + Ranked(l2);
    assert Occurrences([l1, l2]) == occ by {
      assert [l1, l2] == [l1] + [l2];
      OccurrencesAppend([l1], [l2]);
      OccurrencesSingle(l1);
      OccurrencesSingle(l2);
    }
    PriorityMembers(l1, l2, c, k);
    PriorityCovers(l1, l2, c);
    PriorityOrder(c, k);
  }

  lemma {:induction false} PriorityMembers(l1: seq<Memory>, l2: seq<Memory>, c: seq<Memory>, k: real)
    requires k > -1.0 && |l1| == 3 && |l2| == 3 && DistinctIds(l1) && DistinctIds(l2)
    requires l2[0].id == l1[2].id && l2[1].id == l1[1].id && l2[2].id == l1[0].id
    requires c == [Fused(l1[0], Contribution(k, 0) + Contribution(k, 2)),
                   Fused(l1[2], Contribution(k, 0) + Contribution(k, 2)),
                   Fused(l1[1], Contribution(k, 1) + Contribution(k, 1))]
    ensures forall n :: 0 <= n < 3 ==>
      c[n].id in Ids(Ranked(l1) + Ranked(l2)) &&
      c[n] == Fused(FirstOf(Ranked(l1) + Ranked(l2), c[n].id).value, ScoreOf(Ranked(l1) + Ranked(l2), c[n].id, k))
  {
    var occ := Ranked(l1) + Ranked(l2);
    forall n | 0 <= n < 3
      ensures c[n].id in Ids(occ) && c[n] == Fused(FirstOf(occ, c[n].id).value, ScoreOf(occ, c[n].id, k))
    {
      var i := if n == 0 then 0 else if n == 1 then 2 else 1;
      var j := 2 - i;
      assert l1[i].id == l2[j].id == c[n].id;
      AppendFacts(Ranked(l1), Ranked(l2), c[n].id, k);
      RankedDistinct(l1, i, k);
      RankedDistinct(l2, j, k);
    }
  }

  lemma {:induction false} PriorityCovers(l1: seq<Memory>, l2: seq<Memory>, c: seq<Memory>)
    requires |l1| == 3 && |l2| == 3 && |c| == 3
    requires l2[0].id == l1[2].id && l2[1].id == l1[1].id && l2[2].id == l1[0].id
    requires c[0].id == l1[0].id && c[1].id == l1[2].id && c[2].id == l1[1].id
    ensures forall id :: id in Ids(Ranked(l1) + Ranked(l2)) ==> exists n :: 0 <= n < 3 && c[n].id == id
  {
    forall id | id in Ids(Ranked(l1) + Ranked(l2)) ensures exists n :: 0 <= n < 3 && c[n].id == id {
      var occ := Ranked(l1) + Ranked(l2);
      IdsMembers(occ, id);
      var j :| 0 <= j < 6 && occ[j].memory.id == id;
      var p := if j < 3 then j else 5 - j;
      assert l1[p].id == id;
      assert c[if p == 0 then 0 else if p == 2 then 1 else 2].id == id;
    }
  }

  lemma {:induction false} PriorityOrder(c: seq<Memory>, k: real)
    requires k > -1.0 && |c| == 3
    requires Text.Less(c[0].id, c[1].id) && c[0].id != c[2].id && c[1].id != c[2].id
    requires Score(c[0]) == Score(c[1]) == Contribution(k, 0) + Contribution(k, 2)
    requires Score(c[2]) == Contribution(k, 1) + Contribution(k, 1)
    ensures DistinctIds(c) && Sorting.SortedBy(c, FusedBefore)
  {
    SpreadRanksBeatMiddle(k);
    Text.LessIrreflexive(c[0].id);
    if Text.Less(c[1].id, c[0].id) {
      Text.LessTransitive(c[0].id, c[1].id, c[0].id);
    }
  }

  /**
   * Every fused memory is the first appearance of its id, rescored: when all
   * the input memories belong to one project, so does every fused one.
   */
  lemma {:induction false} FusionKeepsProject(r: seq<Memory>, lists: seq<seq<Memory>>, k: real, projectId: string)
    requires k > -1.0 && IsFusion(r, lists, k)
    requires forall l, p :: 0 <= l < |lists| && 0 <= p < |lists[l]| ==> lists[l][p].projectId == projectId
    ensures forall m :: m in r ==> m.projectId == projectId
  {
    var occ := Occurrences(lists);
    OccurrencesProject(lists, projectId);
    forall m | m in r
      ensures m.projectId == projectId
    {
      var i :| 0 <= i < |r| && r[i] == m;
      FirstOfProject(occ, m.id, projectId);
    }
  }

  lemma {:induction false} OccurrencesProject(lists: seq<seq<Memory>>, projectId: string)
    requires forall l, p :: 0 <= l < |lists| && 0 <= p < |lists[l]| ==> lists[l][p].projectId == projectId
    ensures forall j :: 0 <= j < |Occurrences(lists)| ==> Occurrences(lists)[j].memory.projectId == projectId
  {
    if lists != [] {
      var init := lists[..|lists| - 1];
      assert forall l :: 0 <= l < |init| ==> init[l] == lists[l];
      OccurrencesProject(init, projectId);
    }
  }

  lemma {:induction false} FirstOfProject(occ: seq<Occurrence>, id: string, projectId: string)
    requires forall j :: 0 <= j < |occ| ==> occ[j].memory.projectId == projectId
    ensures FirstOf(occ, id).Some? ==> FirstOf(occ, id).value.projectId == projectId
  {
    if occ != [] {
      FirstOfProject(occ[..|occ| - 1], id, projectId);
    }
  }
}
