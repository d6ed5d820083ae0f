/**
 * The swarm directory: a cache of advertisements with per-entry expiry and least-recently
 * ingested eviction, its queries, and the publish quotas.
 */
module Directory {
  import opened Wrappers
  import opened Numerics
  import SlidingWindow

  /**
   * The advertised fields that queries look at. expiresAt is local bookkeeping that never travels:
   * it is empty in what the network delivers, and set only if a local caller ingests or publishes
   * an advertisement that carries it, such as one that all_advertisements returned.
   */
  datatype Ad = Ad(
    swarmId: string,
    creator: string,
    tags: seq<string>,
    inputShape: seq<int>,
    labelType: string,
    expiresAt: Option<real>)

  datatype Entry = Entry(ad: Ad, receivedAt: real, expiresAt: real)

  predicate Live(e: Entry, now: real) { e.expiresAt > now }

  function Stamp(ad: Ad, ttl: real, now: real): Entry {
    Entry(ad, now, if ad.expiresAt.Some? then ad.expiresAt.value else now + ttl)
  }

  // ---- The cache as an ordered dictionary ---------------------------------------------

  function Evict(cache: seq<Entry>, now: real): seq<Entry> {
    if cache == [] then []
    else
      var rest, e := Evict(cache[..|cache| - 1], now), cache[|cache| - 1];
      if Live(e, now) then rest + [e] else rest
  }

  function Without(cache: seq<Entry>, id: string): seq<Entry> {
    if cache == [] then []
    else
      var rest, e := Without(cache[..|cache| - 1], id), cache[|cache| - 1];
      if e.ad.swarmId == id then rest else rest + [e]
  }

  function Newest<T>(s: seq<T>, cap: nat): seq<T> { if |s| > cap then s[|s| - cap..] else s }

  /** An older or equally old entry for the same swarm keeps the newcomer out. */
  predicate Superseded(cache: seq<Entry>, id: string, now: real) {
    exists k :: 0 <= k < |cache| && cache[k].ad.swarmId == id && cache[k].receivedAt >= now
  }

  /** One ingest of a verified advertisement; the clock is read on arrival and again for the sweep. */
  datatype Ingest = Ingest(ad: Ad, now: real, sweep: real)

  function IngestStep(cache: seq<Entry>, cap: nat, ttl: real, g: Ingest): seq<Entry> {
    if Superseded(cache, g.ad.swarmId, g.now) then cache
    else Newest(Evict(Without(cache, g.ad.swarmId) + [Stamp(g.ad, ttl, g.now)], g.sweep), cap)
  }

  function CacheAfter(run: seq<Ingest>, cap: nat, ttl: real): seq<Entry> {
    if run == [] then [] else IngestStep(CacheAfter(run[..|run| - 1], cap, ttl), cap, ttl, run[|run| - 1])
  }

  // ---- What the cache should hold, without replaying it ----------------------------------

  ghost predicate Clocked(run: seq<Ingest>) {
    && (forall n :: 0 <= n < |run| ==> run[n].now <= run[n].sweep)
    && (forall m, n :: 0 <= m < n < |run| ==> run[m].sweep < run[n].now)
  }

  /** Ingest i carries the latest advertisement of its swarm among the first m ingests. */
  ghost predicate Latest(run: seq<Ingest>, i: nat, m: nat) {
    i < m <= |run| && forall j :: i < j < m ==> run[j].ad.swarmId != run[i].ad.swarmId
  }

  function EntryOf(run: seq<Ingest>, ttl: real, i: nat): Entry
    requires i < |run|
  {
    Stamp(run[i].ad, ttl, run[i].now)
  }

  /** Swarms whose latest advertisement among the first m ingests came after i and is live at t. */
  ghost function NewerLive(run: seq<Ingest>, ttl: real, i: nat, m: nat, t: real): set<string>
    requires m <= |run|
  {
    set j | i < j < m && Latest(run, j, m) && Live(EntryOf(run, ttl, j), t) :: run[j].ad.swarmId
  }

  /** At no ingest since i were cap newer swarms live at once. */
  ghost predicate NeverCrowdedOut(run: seq<Ingest>, cap: nat, ttl: real, i: nat, m: nat)
    requires m <= |run|
  {
    forall p :: i <= p < m ==> |NewerLive(run, ttl, i, p + 1, run[p].sweep)| < cap
  }

  /** Ingest i is what the directory holds for its swarm after the first m ingests. */
  ghost predicate Held(run: seq<Ingest>, cap: nat, ttl: real, i: nat, m: nat) {
    && Latest(run, i, m)
    && Live(EntryOf(run, ttl, i), run[m - 1].sweep)
    && NeverCrowdedOut(run, cap, ttl, i, m)
  }

  // ---- The cache by ingest numbers ---------------------------------------------------------

  ghost function Select(s: seq<nat>, keep: iset<nat>): seq<nat> {
    if s == [] then []
    else
      var rest, x := Select(s[..|s| - 1], keep), s[|s| - 1];
      if x in keep then rest + [x] else rest
  }

  lemma {:induction false} SelectFilters(s: seq<nat>, keep: iset<nat>)
    requires Increasing(s)
    ensures Increasing(Select(s, keep)) && forall x :: x in Select(s, keep) <==> x in s && x in keep
  {
    if s != [] {
      var front, x := s[..|s| - 1], s[|s| - 1];
      SelectFilters(front, keep);
      var rest := Select(front, keep);
      assert s == front + [x];
      forall a | 0 <= a < |rest|
        ensures rest[a] < x
      {
        assert rest[a] in front;
      }
    }
  }

  ghost function Entries(run: seq<Ingest>, ttl: real, held: seq<nat>): (es: seq<Entry>)
    requires Bounded(held, |run|)
    ensures |es| == |held| && forall a :: 0 <= a < |held| ==> es[a] == EntryOf(run, ttl, held[a])
  {
    seq(|held|, a requires 0 <= a < |held| => EntryOf(run, ttl, held[a]))
  }

  ghost function LiveAt(run: seq<Ingest>, ttl: real, t: real): iset<nat> {
    iset i: nat | i < |run| && Live(EntryOf(run, ttl, i), t)
  }

  ghost function OtherThan(run: seq<Ingest>, id: string): iset<nat> {
    iset i: nat | i < |run| && run[i].ad.swarmId != id
  }

  lemma {:induction false} SelectBounded(s: seq<nat>, keep: iset<nat>, n: nat)
    requires Bounded(s, n)
    ensures Bounded(Select(s, keep), n)
  {
    if s != [] { SelectBounded(s[..|s| - 1], keep, n); }
  }

  /** Sweeping the entries is selecting the live ingests. */
  lemma {:induction false} EvictSelects(run: seq<Ingest>, ttl: real, held: seq<nat>, t: real)
    requires Bounded(held, |run|)
    ensures Bounded(Select(held, LiveAt(run, ttl, t)), |run|)
    ensures Evict(Entries(run, ttl, held), t) == Entries(run, ttl, Select(held, LiveAt(run, ttl, t)))
  {
    SelectBounded(held, LiveAt(run, ttl, t), |run|);
    if held != [] {
      EvictSelects(run, ttl, held[..|held| - 1], t);
      assert Entries(run, ttl, held)[..|held| - 1] == Entries(run, ttl, held[..|held| - 1]);
    }
  }

  /** Dropping a swarm's entry is selecting the ingests of other swarms. */
  lemma {:induction false} WithoutSelects(run: seq<Ingest>, ttl: real, held: seq<nat>, id: string)
    requires Bounded(held, |run|)
    ensures Bounded(Select(held, OtherThan(run, id)), |run|)
    ensures Without(Entries(run, ttl, held), id) == Entries(run, ttl, Select(held, OtherThan(run, id)))
  {
    SelectBounded(held, OtherThan(run, id), |run|);
    if held != [] {
      WithoutSelects(run, ttl, held[..|held| - 1], id);
      assert Entries(run, ttl, held)[..|held| - 1] == Entries(run, ttl, held[..|held| - 1]);
    }
  }

  // ---- One more ingest --------------------------------------------------------------------

  /** held lists, in order, exactly the ingests the cache holds after the first m. */
  ghost predicate Lists(run: seq<Ingest>, cap: nat, ttl: real, m: nat, held: seq<nat>)
    requires m <= |run|
  {
    && Increasing(held) && Bounded(held, m)
    && forall i: nat :: i in held <==> i < m && Held(run, cap, ttl, i, m)
  }

  /** The ingests that survive removal of the old entry and the sweep of ingest m, before the cap. */
  ghost function Candidates(run: seq<Ingest>, ttl: real, m: nat, held: seq<nat>): seq<nat>
    requires m < |run|
  {
    Select(Select(held, OtherThan(run, run[m].ad.swarmId)) + [m], LiveAt(run, ttl, run[m].sweep))
  }

  ghost predicate AreCandidates(run: seq<Ingest>, cap: nat, ttl: real, m: nat, cand: seq<nat>)
    requires m < |run|
  {
    && Increasing(cand) && Bounded(cand, m + 1)
    && forall i: nat :: i in cand <==> && i <= m && Latest(run, i, m + 1) && Live(EntryOf(run, ttl, i), run[m].sweep)
                                       && (i < m ==> NeverCrowdedOut(run, cap, ttl, i, m))
  }

  lemma CandidatesAre(run: seq<Ingest>, cap: nat, ttl: real, m: nat, held: seq<nat>)
    requires m < |run| && Clocked(run) && Lists(run, cap, ttl, m, held)
    ensures AreCandidates(run, cap, ttl, m, Candidates(run, ttl, m, held))
  {
    hide NeverCrowdedOut, Select;
    var others := Select(held, OtherThan(run, run[m].ad.swarmId));
    SelectFilters(held, OtherThan(run, run[m].ad.swarmId));
    SelectBounded(held, OtherThan(run, run[m].ad.swarmId), m);
    SelectFilters(others + [m], LiveAt(run, ttl, run[m].sweep));
    SelectBounded(others + [m], LiveAt(run, ttl, run[m].sweep), m + 1);
    var cand := Candidates(run, ttl, m, held);
    forall i: nat
      ensures i in cand <==> && i <= m && Latest(run, i, m + 1) && Live(EntryOf(run, ttl, i), run[m].sweep)
                             && (i < m ==> NeverCrowdedOut(run, cap, ttl, i, m))
    {
      assert i in others + [m] <==> i in others || i == m;
      if i < m {
        assert Latest(run, i, m + 1) <==> Latest(run, i, m) && run[m].ad.swarmId != run[i].ad.swarmId;
      }
    }
  }

  /** A newer swarm is crowded out by no more swarms than an older one. */
  lemma NewerIsLessCrowded(run: seq<Ingest>, cap: nat, ttl: real, i: nat, j: nat, m: nat)
    requires i < j && m <= |run| && NeverCrowdedOut(run, cap, ttl, i, m)
    ensures NeverCrowdedOut(run, cap, ttl, j, m)
  {
    forall p | j <= p < m
      ensures |NewerLive(run, ttl, j, p + 1, run[p].sweep)| < cap
    {
      SubsetCardinality(NewerLive(run, ttl, j, p + 1, run[p].sweep), NewerLive(run, ttl, i, p + 1, run[p].sweep));
    }
  }

  ghost function Ids(run: seq<Ingest>, s: seq<nat>): (ids: seq<string>)
    requires Bounded(s, |run|)
    ensures |ids| == |s| && forall a :: 0 <= a < |s| ==> ids[a] == run[s[a]].ad.swarmId
  {
    seq(|s|, a requires 0 <= a < |s| => run[s[a]].ad.swarmId)
  }

  /** The live swarms newer than a candidate are exactly those of the candidates behind it. */
  lemma NewerAreBehind(run: seq<Ingest>, cap: nat, ttl: real, m: nat, cand: seq<nat>, q: nat)
    requires m < |run| && AreCandidates(run, cap, ttl, m, cand) && q < |cand|
    ensures Bounded(cand, |run|)
    ensures NewerLive(run, ttl, cand[q], m + 1, run[m].sweep) == Elements(Ids(run, cand)[q + 1..])
  {
    hide NeverCrowdedOut;
    var i := cand[q];
    var ids := Ids(run, cand);
    var newer := NewerLive(run, ttl, i, m + 1, run[m].sweep);
    forall id | id in newer
      ensures id in ids[q + 1..]
    {
      var j :| i < j < m + 1 && Latest(run, j, m + 1) && Live(EntryOf(run, ttl, j), run[m].sweep)
          && run[j].ad.swarmId == id;
      NewerIsCandidate(run, cap, ttl, m, cand, q, j);
      var b :| 0 <= b < |cand| && cand[b] == j;
      assert ids[q + 1..][b - q - 1] == id;
    }
    forall b | q < b < |cand|
      ensures ids[b] in newer
    {
      assert cand[b] in cand;
    }
  }

  lemma NewerIsCandidate(run: seq<Ingest>, cap: nat, ttl: real, m: nat, cand: seq<nat>, q: nat, j: nat)
    requires m < |run| && AreCandidates(run, cap, ttl, m, cand) && q < |cand| && cand[q] < j <= m
    requires Latest(run, j, m + 1) && Live(EntryOf(run, ttl, j), run[m].sweep)
    ensures j in cand
  {
    hide NeverCrowdedOut, Latest, Live;
    assert cand[q] in cand;
    if j < m { NewerIsLessCrowded(run, cap, ttl, cand[q], j, m); }
  }

  lemma BehindCount(run: seq<Ingest>, cap: nat, ttl: real, m: nat, cand: seq<nat>, q: nat)
    requires m < |run| && AreCandidates(run, cap, ttl, m, cand) && q < |cand|
    ensures |NewerLive(run, ttl, cand[q], m + 1, run[m].sweep)| == |cand| - 1 - q
  {
    hide NeverCrowdedOut;
    NewerAreBehind(run, cap, ttl, m, cand, q);
    var ids := Ids(run, cand);
    forall a, b | 0 <= a < b < |cand|
      ensures ids[a] != ids[b]
    {
      assert cand[a] in cand && cand[b] in cand;
    }
    assert Distinct(ids[q + 1..]);
    DistinctCardinality(ids[q + 1..]);
  }

  /** Keeping the cap newest candidates keeps exactly the ingests the cache should hold. */
  lemma TrimmedLists(run: seq<Ingest>, cap: nat, ttl: real, m: nat, cand: seq<nat>)
    requires m < |run| && Clocked(run) && AreCandidates(run, cap, ttl, m, cand)
    ensures Lists(run, cap, ttl, m + 1, Newest(cand, cap))
  {
    hide NewerLive;
    var kept := Newest(cand, cap);
    forall i: nat
      ensures i in kept <==> i < m + 1 && Held(run, cap, ttl, i, m + 1)
    {
      if i in cand {
        var q :| 0 <= q < |cand| && cand[q] == i;
        BehindCount(run, cap, ttl, m, cand, q);
        KeptByPosition(cand, cap, q);
        CrowdedOutStep(run, cap, ttl, i, m);
      } else if i < m + 1 && Held(run, cap, ttl, i, m + 1) {
        if i < m { CrowdedOutStep(run, cap, ttl, i, m); }
      }
    }
  }

  lemma CrowdedOutStep(run: seq<Ingest>, cap: nat, ttl: real, i: nat, m: nat)
    requires i <= m < |run|
    ensures NeverCrowdedOut(run, cap, ttl, i, m + 1) <==>
            NeverCrowdedOut(run, cap, ttl, i, m) && |NewerLive(run, ttl, i, m + 1, run[m].sweep)| < cap
  {
    hide NewerLive;
  }

  lemma KeptByPosition(cand: seq<nat>, cap: nat, q: nat)
    requires Increasing(cand) && q < |cand|
    ensures cand[q] in Newest(cand, cap) <==> |cand| - 1 - q < cap
  {
    var kept := Newest(cand, cap);
    var d := |cand| - |kept|;
    if q >= d { assert kept[q - d] == cand[q]; }
    if cand[q] in kept {
      var b :| 0 <= b < |kept| && kept[b] == cand[q];
      assert kept[b] == cand[b + d];
    }
  }

  lemma NotSuperseded(run: seq<Ingest>, ttl: real, m: nat, held: seq<nat>)
    requires m < |run| && Clocked(run) && Bounded(held, m)
    ensures !Superseded(Entries(run, ttl, held), run[m].ad.swarmId, run[m].now)
  {
  }

  lemma NewestEntries(run: seq<Ingest>, ttl: real, cand: seq<nat>, cap: nat)
    requires Bounded(cand, |run|)
    ensures Bounded(Newest(cand, cap), |run|)
    ensures Newest(Entries(run, ttl, cand), cap) == Entries(run, ttl, Newest(cand, cap))
  {
  }

  lemma EntriesSnoc(run: seq<Ingest>, ttl: real, s: seq<nat>, m: nat)
    requires Bounded(s, |run|) && m < |run|
    ensures Entries(run, ttl, s + [m]) == Entries(run, ttl, s) + [EntryOf(run, ttl, m)]
  {
  }

  /** One ingest takes the listed entries to the listed entries. */
  lemma StepLists(run: seq<Ingest>, cap: nat, ttl: real, m: nat, held: seq<nat>)
    requires m < |run| && Clocked(run) && Lists(run, cap, ttl, m, held)
    ensures var kept := Newest(Candidates(run, ttl, m, held), cap);
            && Lists(run, cap, ttl, m + 1, kept)
            && Bounded(kept, |run|)
            && IngestStep(Entries(run, ttl, held), cap, ttl, run[m]) == Entries(run, ttl, kept)
  {
    hide Held, AreCandidates, Select, Superseded, Evict, Without;
    var id := run[m].ad.swarmId;
    CandidatesAre(run, cap, ttl, m, held);
    TrimmedLists(run, cap, ttl, m, Candidates(run, ttl, m, held));
    NotSuperseded(run, ttl, m, held);
    WithoutSelects(run, ttl, held, id);
    var others := Select(held, OtherThan(run, id));
    EntriesSnoc(run, ttl, others, m);
    EvictSelects(run, ttl, others + [m], run[m].sweep);
    NewestEntries(run, ttl, Candidates(run, ttl, m, held), cap);
  }

  /** After any run of ingests the cache holds exactly the ingests it should, oldest first. */
  lemma {:induction false} CacheHolds(run: seq<Ingest>, cap: nat, ttl: real, m: nat) returns (held: seq<nat>)
    requires Clocked(run) && m <= |run|
    ensures Lists(run, cap, ttl, m, held) && Bounded(held, |run|)
    ensures CacheAfter(run[..m], cap, ttl) == Entries(run, ttl, held)
  {
    if m == 0 {
      held := [];
    } else {
      var before := CacheHolds(run, cap, ttl, m - 1);
      assert run[..m][..m - 1] == run[..m - 1];
      StepLists(run, cap, ttl, m - 1, before);
      held := Newest(Candidates(run, ttl, m - 1, before), cap);
    }
  }

  /** What is live at time t after any run of ingests. */
  lemma IngestsReturn(run: seq<Ingest>, cap: nat, ttl: real, t: real) returns (listed: seq<nat>)
    requires Clocked(run) && (run != [] ==> run[|run| - 1].sweep <= t)
    ensures ListsReturned(run, cap, ttl, t, listed)
    ensures Evict(CacheAfter(run, cap, ttl), t) == Entries(run, ttl, listed)
  {
    hide NeverCrowdedOut, Select, Evict, CacheAfter;
    var held := CacheHolds(run, cap, ttl, |run|);
    assert run[..|run|] == run;
    listed := Select(held, LiveAt(run, ttl, t));
    EvictSelects(run, ttl, held, t);
    SelectFilters(held, LiveAt(run, ttl, t));
  }

  /** listed names, in order, the latest ingests that are live at t and were never crowded out. */
  ghost predicate ListsReturned(run: seq<Ingest>, cap: nat, ttl: real, t: real, listed: seq<nat>) {
    && Increasing(listed) && Bounded(listed, |run|)
    && forall i: nat :: i in listed <==> && i < |run| && Latest(run, i, |run|) && Live(EntryOf(run, ttl, i), t)
                                         && NeverCrowdedOut(run, cap, ttl, i, |run|)
  }

  // ---- Reads between ingests -----------------------------------------------------------------

  /** An ingest, or a query or listing, which sweeps the cache at its clock reading. */
  datatype DirectoryEvent = Took(g: Ingest) | Read(now: real)

  function Begins(e: DirectoryEvent): real { if e.Took? then e.g.now else e.now }

  function Ends(e: DirectoryEvent): real { if e.Took? then e.g.sweep else e.now }

  function CacheOf(events: seq<DirectoryEvent>, cap: nat, ttl: real): seq<Entry> {
    if events == [] then []
    else
      var before := CacheOf(events[..|events| - 1], cap, ttl);
      match events[|events| - 1]
      case Took(g) => IngestStep(before, cap, ttl, g)
      case Read(now) => Evict(before, now)
  }

  function Ingests(events: seq<DirectoryEvent>): seq<Ingest> {
    if events == [] then []
    else
      match events[|events| - 1]
      case Took(g) => Ingests(events[..|events| - 1]) + [g]
      case Read(_) => Ingests(events[..|events| - 1])
  }

  /** The clock never goes back, and has advanced from one ingest to the next. */
  ghost predicate EventsClocked(events: seq<DirectoryEvent>) {
    && (forall n :: 0 <= n < |events| ==> Begins(events[n]) <= Ends(events[n]))
    && (forall m, n :: 0 <= m < n < |events| ==> Ends(events[m]) <= Begins(events[n]))
    && (forall m, n :: 0 <= m < n < |events| && events[m].Took? && events[n].Took? ==>
       Ends(events[m]) < Begins(events[n]))
  }

  ghost predicate OverBy(events: seq<DirectoryEvent>, t: real) { events != [] ==> Ends(events[|events| - 1]) <= t }

  lemma {:induction false} IngestsFollow(events: seq<DirectoryEvent>, g: Ingest)
    ensures g in Ingests(events) <==> Took(g) in events
  {
    if events != [] {
      IngestsFollow(events[..|events| - 1], g);
      assert events == events[..|events| - 1] + [events[|events| - 1]];
    }
  }

  lemma {:induction false} IngestsClocked(events: seq<DirectoryEvent>)
    requires EventsClocked(events)
    ensures Clocked(Ingests(events))
  {
    if events != [] {
      var n := |events| - 1;
      IngestsClocked(events[..n]);
      if events[n].Took? {
        var run := Ingests(events[..n]);
        forall i | 0 <= i < |run|
          ensures run[i].sweep < events[n].g.now
        {
          IngestsFollow(events[..n], run[i]);
          var j :| 0 <= j < n && events[..n][j] == Took(run[i]);
          assert events[j] == Took(run[i]);
        }
      }
    }
  }

  ghost predicate AllBefore(cache: seq<Entry>, t: real) { forall k :: 0 <= k < |cache| ==> cache[k].receivedAt < t }

  lemma {:induction false} EvictKeepsBefore(cache: seq<Entry>, now: real, t: real)
    requires AllBefore(cache, t)
    ensures AllBefore(Evict(cache, now), t)
  {
    if cache != [] { EvictKeepsBefore(cache[..|cache| - 1], now, t); }
  }

  lemma {:induction false} WithoutKeepsBefore(cache: seq<Entry>, id: string, t: real)
    requires AllBefore(cache, t)
    ensures AllBefore(Without(cache, id), t)
  {
    if cache != [] { WithoutKeepsBefore(cache[..|cache| - 1], id, t); }
  }

  lemma IngestKeepsBefore(cache: seq<Entry>, cap: nat, ttl: real, g: Ingest, t: real)
    requires AllBefore(cache, t) && g.now < t
    ensures AllBefore(IngestStep(cache, cap, ttl, g), t)
  {
    hide Evict, Without, Superseded;
    WithoutKeepsBefore(cache, g.ad.swarmId, t);
    EvictKeepsBefore(Without(cache, g.ad.swarmId) + [Stamp(g.ad, ttl, g.now)], g.sweep, t);
  }

  lemma {:induction false} BothBefore(events: seq<DirectoryEvent>, cap: nat, ttl: real, t: real)
    requires forall n :: 0 <= n < |events| && events[n].Took? ==> events[n].g.now < t
    ensures AllBefore(CacheOf(events, cap, ttl), t) && AllBefore(CacheAfter(Ingests(events), cap, ttl), t)
  {
    if events != [] {
      hide Evict, IngestStep, AllBefore;
      var front, e := events[..|events| - 1], events[|events| - 1];
      BothBefore(front, cap, ttl, t);
      match e
      case Took(g) =>
        IngestKeepsBefore(CacheOf(front, cap, ttl), cap, ttl, g, t);
        IngestKeepsBefore(CacheAfter(Ingests(front), cap, ttl), cap, ttl, g, t);
        assert Ingests(events)[..|Ingests(front)|] == Ingests(front);
      case Read(now) => EvictKeepsBefore(CacheOf(front, cap, ttl), now, t);
    } else {
      assert AllBefore([], t);
    }
  }

  /** An earlier sweep is lost in a later one. */
  lemma {:induction false} EvictTwice(cache: seq<Entry>, now: real, t: real)
    requires now <= t
    ensures Evict(Evict(cache, now), t) == Evict(cache, t)
  {
    if cache == [] {
      EvictNothing(now);
      EvictNothing(t);
    } else {
      var front, e := cache[..|cache| - 1], cache[|cache| - 1];
      EvictTwice(front, now, t);
      assert cache == front + [e];
      EvictSnoc(front, e, now);
      EvictSnoc(front, e, t);
      EvictSnoc(Evict(front, now), e, t);
    }
  }

  lemma EvictNothing(t: real)
    ensures Evict([], t) == []
  {
  }

  lemma {:induction false} EvictWithout(cache: seq<Entry>, id: string, t: real)
    ensures Evict(Without(cache, id), t) == Without(Evict(cache, t), id)
  {
    if cache != [] {
      var front, e := cache[..|cache| - 1], cache[|cache| - 1];
      EvictWithout(front, id, t);
      assert cache == front + [e];
      hide Evict, Without;
      EvictSnoc(front, e, t);
      WithoutSnoc(front, e, id);
      EvictSnoc(Without(front, id), e, t);
      WithoutSnoc(Evict(front, t), e, id);
    }
  }

  /** An ingest sees only what is live at its sweep. */
  lemma IngestSeesLive(c: seq<Entry>, d: seq<Entry>, cap: nat, ttl: real, g: Ingest)
    requires AllBefore(c, g.now) && AllBefore(d, g.now) && Evict(c, g.sweep) == Evict(d, g.sweep)
    ensures IngestStep(c, cap, ttl, g) == IngestStep(d, cap, ttl, g)
  {
    hide Evict, Without;
    var id, e := g.ad.swarmId, Stamp(g.ad, ttl, g.now);
    EvictSnoc(Without(c, id), e, g.sweep);
    EvictSnoc(Without(d, id), e, g.sweep);
    EvictWithout(c, id, g.sweep);
    EvictWithout(d, id, g.sweep);
  }

  /** Whatever queries and listings swept in between, what is live at the end is the same. */
  lemma {:induction false} ReadsChangeNothing(events: seq<DirectoryEvent>, cap: nat, ttl: real, t: real)
    requires EventsClocked(events) && OverBy(events, t)
    ensures Evict(CacheOf(events, cap, ttl), t) == Evict(CacheAfter(Ingests(events), cap, ttl), t)
  {
    if events != [] {
      hide Evict, IngestStep, AllBefore;
      var front, e := events[..|events| - 1], events[|events| - 1];
      ReadsChangeNothing(front, cap, ttl, Ends(e));
      match e
      case Took(g) =>
        BothBefore(front, cap, ttl, g.now);
        IngestSeesLive(CacheOf(front, cap, ttl), CacheAfter(Ingests(front), cap, ttl), cap, ttl, g);
        CacheSnoc(Ingests(front), cap, ttl, g);
      case Read(now) =>
        EvictTwice(CacheOf(front, cap, ttl), now, t);
        EvictTwice(CacheAfter(Ingests(front), cap, ttl), now, t);
    }
  }

  lemma IngestsOverBy(events: seq<DirectoryEvent>, t: real)
    requires EventsClocked(events) && OverBy(events, t)
    ensures var run := Ingests(events); run != [] ==> run[|run| - 1].sweep <= t
  {
    var run := Ingests(events);
    if run != [] {
      IngestsFollow(events, run[|run| - 1]);
      var j :| 0 <= j < |events| && events[j] == Took(run[|run| - 1]);
      assert Ends(events[j]) <= Ends(events[|events| - 1]);
    }
  }

  /**
   * What all_advertisements returns at time t after any run of ingests, queries and listings: the
   * latest advertisement of every swarm that is live at t and was never crowded out, in the order
   * they were ingested.
   */
  lemma DirectoryReturns(events: seq<DirectoryEvent>, cap: nat, ttl: real, t: real) returns (listed: seq<nat>)
    requires EventsClocked(events) && OverBy(events, t)
    ensures ListsReturned(Ingests(events), cap, ttl, t, listed)
    ensures Evict(CacheOf(events, cap, ttl), t) == Entries(Ingests(events), ttl, listed)
  {
    hide Evict, CacheOf, CacheAfter, Ingests, EventsClocked, ListsReturned;
    IngestsClocked(events);
    IngestsOverBy(events, t);
    ReadsChangeNothing(events, cap, ttl, t);
    listed := IngestsReturn(Ingests(events), cap, ttl, t);
    assert Bounded(listed, |Ingests(events)|) by { ListedBounded(Ingests(events), cap, ttl, t, listed); }
  }

  lemma ListedBounded(run: seq<Ingest>, cap: nat, ttl: real, t: real, listed: seq<nat>)
    requires ListsReturned(run, cap, ttl, t, listed)
    ensures Bounded(listed, |run|)
  {
  }

  // ---- The most recent swarms -------------------------------------------------------------------

  /** Swarms ingested after i. */
  ghost function IdsAfter(run: seq<Ingest>, i: nat, m: nat): set<string>
    requires m <= |run|
  {
    set j | i < j < m :: run[j].ad.swarmId
  }

  /** i is the latest ingest of one of the cap most recently ingested swarms. */
  ghost predicate AmongNewest(run: seq<Ingest>, cap: nat, i: nat) {
    Latest(run, i, |run|) && |IdsAfter(run, i, |run|)| < cap
  }

  /** The simple rule: the live ones among the cap most recently ingested swarms. */
  ghost predicate FollowsRule(run: seq<Ingest>, cap: nat, ttl: real, t: real, listed: seq<nat>) {
    forall i: nat :: i in listed <==> i < |run| && AmongNewest(run, cap, i) && Live(EntryOf(run, ttl, i), t)
  }

  /** A live swarm with cap newer ones that was never crowded out, because they were not live together. */
  ghost predicate Outlives(run: seq<Ingest>, cap: nat, ttl: real, t: real, i: nat) {
    && i < |run| && Latest(run, i, |run|) && Live(EntryOf(run, ttl, i), t)
    && |IdsAfter(run, i, |run|)| >= cap && NeverCrowdedOut(run, cap, ttl, i, |run|)
  }

  /** One of the most recent swarms is never crowded out, whatever the expiries. */
  lemma NewestNeverCrowdedOut(run: seq<Ingest>, cap: nat, ttl: real, i: nat)
    requires i < |run| && |IdsAfter(run, i, |run|)| < cap
    ensures NeverCrowdedOut(run, cap, ttl, i, |run|)
  {
    forall p | i <= p < |run|
      ensures |NewerLive(run, ttl, i, p + 1, run[p].sweep)| < cap
    {
      SubsetCardinality(NewerLive(run, ttl, i, p + 1, run[p].sweep), IdsAfter(run, i, |run|));
    }
  }

  /**
   * The directory returns exactly the live ones among the cap most recently ingested swarms if and
   * only if no live older swarm escaped being crowded out.
   */
  lemma RuleHoldsIff(events: seq<DirectoryEvent>, cap: nat, ttl: real, t: real) returns (listed: seq<nat>)
    requires EventsClocked(events) && OverBy(events, t)
    ensures ListsReturned(Ingests(events), cap, ttl, t, listed)
    ensures Evict(CacheOf(events, cap, ttl), t) == Entries(Ingests(events), ttl, listed)
    ensures FollowsRule(Ingests(events), cap, ttl, t, listed)
            <==> !exists i :: Outlives(Ingests(events), cap, ttl, t, i)
  {
    hide Evict, CacheOf, Ingests, EventsClocked, NeverCrowdedOut, IdsAfter;
    listed := DirectoryReturns(events, cap, ttl, t);
    var run := Ingests(events);
    forall i: nat | i < |run| && |IdsAfter(run, i, |run|)| < cap
      ensures NeverCrowdedOut(run, cap, ttl, i, |run|)
    {
      NewestNeverCrowdedOut(run, cap, ttl, i);
    }
    forall i: nat
      ensures Outlives(run, cap, ttl, t, i) ==> i in listed && !AmongNewest(run, cap, i)
      ensures i in listed && !AmongNewest(run, cap, i) ==> Outlives(run, cap, ttl, t, i)
    {
    }
  }

  /** Advertisements expire in the order they were ingested. */
  ghost predicate OrderlyExpiry(run: seq<Ingest>, ttl: real) {
    forall i, j :: 0 <= i < j < |run| ==> EntryOf(run, ttl, i).expiresAt <= EntryOf(run, ttl, j).expiresAt
  }

  /** In particular when nothing carries an expiry of its own, as for everything the network delivers. */
  lemma UniformIsOrderly(run: seq<Ingest>, ttl: real)
    requires Clocked(run) && forall i :: 0 <= i < |run| ==> run[i].ad.expiresAt.None?
    ensures OrderlyExpiry(run, ttl)
  {
  }

  lemma {:induction false} LatestOf(run: seq<Ingest>, i: nat, j: nat, m: nat) returns (k: nat)
    requires i < j < m <= |run|
    ensures i < k < m && Latest(run, k, m) && run[k].ad.swarmId == run[j].ad.swarmId
    decreases m - j
  {
    if Latest(run, j, m) {
      k := j;
    } else {
      var n :| j < n < m && run[n].ad.swarmId == run[j].ad.swarmId;
      k := LatestOf(run, i, n, m);
    }
  }

  /** With orderly expiry everything newer than a live advertisement is live too. */
  lemma NewerAllLive(run: seq<Ingest>, ttl: real, i: nat)
    requires OrderlyExpiry(run, ttl) && i < |run| && Live(EntryOf(run, ttl, i), run[|run| - 1].sweep)
    ensures NewerLive(run, ttl, i, |run|, run[|run| - 1].sweep) == IdsAfter(run, i, |run|)
  {
    var m, t := |run|, run[|run| - 1].sweep;
    forall j | i < j < m
      ensures run[j].ad.swarmId in NewerLive(run, ttl, i, m, t)
    {
      var k := LatestOf(run, i, j, m);
      assert EntryOf(run, ttl, i).expiresAt <= EntryOf(run, ttl, k).expiresAt;
    }
  }

  /** So no live swarm with cap newer ones can have escaped. */
  lemma NothingOutlives(run: seq<Ingest>, cap: nat, ttl: real, t: real, i: nat)
    requires OrderlyExpiry(run, ttl) && (run != [] ==> run[|run| - 1].sweep <= t)
    ensures !Outlives(run, cap, ttl, t, i)
  {
    if Outlives(run, cap, ttl, t, i) {
      NotCrowdedAtTheEnd(run, cap, ttl, i);
      NewerAllLive(run, ttl, i);
    }
  }

  lemma NotCrowdedAtTheEnd(run: seq<Ingest>, cap: nat, ttl: real, i: nat)
    requires i < |run| && NeverCrowdedOut(run, cap, ttl, i, |run|)
    ensures |NewerLive(run, ttl, i, |run|, run[|run| - 1].sweep)| < cap
  {
    CrowdedOutStep(run, cap, ttl, i, |run| - 1);
  }

  /**
   * Refinement: with an increasing clock and orderly expiry, as when all use the default, the
   * advertisements returned at t are exactly the live ones among the cap most recently ingested
   * swarms, each in its latest version, in ingestion order.
   */
  lemma MostRecentReturned(events: seq<DirectoryEvent>, cap: nat, ttl: real, t: real) returns (listed: seq<nat>)
    requires EventsClocked(events) && OverBy(events, t) && OrderlyExpiry(Ingests(events), ttl)
    ensures Increasing(listed) && Bounded(listed, |Ingests(events)|)
    ensures FollowsRule(Ingests(events), cap, ttl, t, listed)
    ensures Evict(CacheOf(events, cap, ttl), t) == Entries(Ingests(events), ttl, listed)
  {
    hide Evict, CacheOf, Ingests, EventsClocked, FollowsRule, Outlives, OrderlyExpiry;
    listed := RuleHoldsIff(events, cap, ttl, t);
    IngestsOverBy(events, t);
    forall i ensures !Outlives(Ingests(events), cap, ttl, t, i) {
      if i >= 0 { NothingOutlives(Ingests(events), cap, ttl, t, i); }
    }
  }

  /** What carries no expiry is live for exactly the default time. */
  lemma LiveForTtl(run: seq<Ingest>, ttl: real, i: nat, t: real)
    requires i < |run| && run[i].ad.expiresAt.None?
    ensures Live(EntryOf(run, ttl, i), t) <==> t < run[i].now + ttl
  {
  }

  /**
   * For advertisements from the network: those returned at t are exactly the ones ingested less
   * than the default time ago among the cap most recently ingested swarms.
   */
  lemma NetworkReturned(events: seq<DirectoryEvent>, cap: nat, ttl: real, t: real) returns (listed: seq<nat>)
    requires EventsClocked(events) && OverBy(events, t)
    requires forall i :: 0 <= i < |Ingests(events)| ==> Ingests(events)[i].ad.expiresAt.None?
    ensures Increasing(listed) && Bounded(listed, |Ingests(events)|)
    ensures var run := Ingests(events);
            forall i: nat :: i in listed <==> i < |run| && AmongNewest(run, cap, i) && t < run[i].now + ttl
    ensures Evict(CacheOf(events, cap, ttl), t) == Entries(Ingests(events), ttl, listed)
  {
    hide Evict, CacheOf, Ingests, EventsClocked, AmongNewest, OrderlyExpiry;
    var run := Ingests(events);
    IngestsClocked(events);
    UniformIsOrderly(run, ttl);
    listed := MostRecentReturned(events, cap, ttl, t);
    forall i: nat | i < |run|
      ensures Live(EntryOf(run, ttl, i), t) <==> t < run[i].now + ttl
    {
      LiveForTtl(run, ttl, i, t);
    }
  }

  lemma EvictSnoc(c: seq<Entry>, e: Entry, t: real)
    ensures Evict(c + [e], t) == if Live(e, t) then Evict(c, t) + [e] else Evict(c, t)
    ensures Evict([], t) == []
  {
    assert (c + [e])[..|c|] == c;
  }

  lemma WithoutSnoc(c: seq<Entry>, e: Entry, id: string)
    ensures Without(c + [e], id) == if e.ad.swarmId == id then Without(c, id) else Without(c, id) + [e]
    ensures Without([], id) == []
  {
    assert (c + [e])[..|c|] == c;
  }

  lemma CacheSnoc(run: seq<Ingest>, cap: nat, ttl: real, g: Ingest)
    ensures CacheAfter(run + [g], cap, ttl) == IngestStep(CacheAfter(run, cap, ttl), cap, ttl, g)
    ensures CacheAfter([], cap, ttl) == []
  {
    assert (run + [g])[..|run|] == run;
  }

  /**
   * With expiries attached by a local caller the rule can fail: an advertisement ingested when it
   * has already expired leaves room, so an older swarm outlives it.
   */
  lemma MixedExpiryKeepsOlder(a: Ad, b: Ad)
    requires a.swarmId != b.swarmId && a.expiresAt == Some(100.0) && b.expiresAt == Some(0.0)
    ensures var run := [Ingest(a, 1.0, 1.0), Ingest(b, 2.0, 2.0)];
            && Clocked(run) && !AmongNewest(run, 1, 0)
            && Evict(CacheAfter(run, 1, 10.0), 3.0) == [Entry(a, 1.0, 100.0)]
  {
    hide Evict, Without, CacheAfter;
    var g, h := Ingest(a, 1.0, 1.0), Ingest(b, 2.0, 2.0);
    var ea, eb := Entry(a, 1.0, 100.0), Entry(b, 2.0, 0.0);
    var none: seq<Ingest>, empty: seq<Entry> := [], [];
    WithoutSnoc(empty, ea, a.swarmId);
    EvictSnoc(empty, ea, 1.0);
    CacheSnoc(none, 1, 10.0, g);
    assert CacheAfter(none + [g], 1, 10.0) == empty + [ea];
    WithoutSnoc(empty, ea, b.swarmId);
    EvictSnoc(empty + [ea], eb, 2.0);
    EvictSnoc(empty, ea, 2.0);
    CacheSnoc(none + [g], 1, 10.0, h);
    EvictSnoc(empty, ea, 3.0);
    var run := [g, h];
    assert run == none + [g] + [h];
    assert run[1].ad.swarmId in IdsAfter(run, 0, 2);
  }

  // ---- Publish quotas -----------------------------------------------------------------------------

  const DAY := 86400.0

  /** One publish attempt of a verified advertisement: the quota check and the recording read the clock. */
  datatype Publish = Publish(creator: string, check: real, stamp: real)

  /** Publishes recorded this session. */
  function Published(run: seq<Publish>, perCreator: nat, perSession: nat): nat {
    if run == [] then 0
    else
      var before, p := run[..|run| - 1], run[|run| - 1];
      var count := Published(before, perCreator, perSession);
      var hs := SlidingWindow.After(QuotaCalls(before, perCreator, perSession), perCreator, DAY);
      if SlidingWindow.Grants(SlidingWindow.HistoryOf(hs, p.creator), perCreator, DAY,
                              SlidingWindow.Call(p.creator, p.check, p.stamp, count < perSession))
      then count + 1 else count
  }

  /** The attempts as limiter calls: the session cap decides what else permits them. */
  function QuotaCalls(run: seq<Publish>, perCreator: nat, perSession: nat): (calls: seq<SlidingWindow.Call>)
    ensures |calls| == |run| && forall i :: 0 <= i < |run| ==>
        calls[i].check == run[i].check && calls[i].stamp == run[i].stamp
  {
    if run == [] then []
    else
      var before, p := run[..|run| - 1], run[|run| - 1];
      QuotaCalls(before, perCreator, perSession)
      + [SlidingWindow.Call(p.creator, p.check, p.stamp, Published(before, perCreator, perSession) < perSession)]
  }

  ghost predicate PublishClocked(run: seq<Publish>) {
    && (forall n :: 0 <= n < |run| ==> run[n].check <= run[n].stamp)
    && (forall m, n :: 0 <= m < n < |run| ==> run[m].stamp <= run[n].check)
  }

  /**
   * In every run of publish attempts, no creator has more than its daily quota recorded in any
   * closed window of 24 hours, and the session cap is never exceeded.
   */
  lemma PublishQuotas(run: seq<Publish>, perCreator: nat, perSession: nat, creator: string, t: real)
    requires PublishClocked(run)
    ensures var grants := SlidingWindow.GrantsTo(QuotaCalls(run, perCreator, perSession), perCreator, DAY, creator);
            SlidingWindow.CountWithin(grants, t, t + DAY) <= perCreator
    ensures Published(run, perCreator, perSession) <= perSession
  {
    hide QuotaCalls, Published;
    SlidingWindow.WindowHoldsAtMostLimit(QuotaCalls(run, perCreator, perSession), perCreator, DAY, creator, t);
    SessionCap(run, perCreator, perSession);
  }

  lemma {:induction false} SessionCap(run: seq<Publish>, perCreator: nat, perSession: nat)
    ensures Published(run, perCreator, perSession) <= perSession
  {
    if run != [] { SessionCap(run[..|run| - 1], perCreator, perSession); }
  }

  // ---- Queries --------------------------------------------------------------------------------------

  /** The filters of query; an empty tag list or shape counts as no filter. */
  datatype Filter = Filter(tags: seq<string>, inputShape: seq<int>, labelType: Option<string>,
      trusted: Option<set<string>>)

  predicate Matches(ad: Ad, f: Filter, verifies: Ad -> bool) {
    && (f.tags != [] ==> forall k :: 0 <= k < |f.tags| ==> f.tags[k] in ad.tags)
    && (f.inputShape != [] ==> ad.inputShape == f.inputShape)
    && (f.labelType.Some? ==> ad.labelType == f.labelType.value)
    && (f.trusted.Some? ==> ad.creator in f.trusted.value && verifies(ad))
  }

  function Matching(cache: seq<Entry>, f: Filter, verifies: Ad -> bool): seq<Entry> {
    if cache == [] then []
    else
      var rest, e := Matching(cache[..|cache| - 1], f, verifies), cache[|cache| - 1];
      if Matches(e.ad, f, verifies) then rest + [e] else rest
  }

  lemma {:induction false} EvictIsExact(cache: seq<Entry>, now: real, e: Entry)
    ensures e in Evict(cache, now) <==> e in cache && Live(e, now)
  {
    if cache != [] {
      hide Live;
      EvictIsExact(cache[..|cache| - 1], now, e);
      assert cache == cache[..|cache| - 1] + [cache[|cache| - 1]];
    }
  }

  lemma {:induction false} MatchingIsExact(cache: seq<Entry>, f: Filter, verifies: Ad -> bool, e: Entry)
    ensures e in Matching(cache, f, verifies) <==> e in cache && Matches(e.ad, f, verifies)
  {
    if cache != [] {
      hide Matches;
      MatchingIsExact(cache[..|cache| - 1], f, verifies, e);
      assert cache == cache[..|cache| - 1] + [cache[|cache| - 1]];
    }
  }

  /** Filters are conjunctive: no filter lets everything pass, and asking for more tags asks for each of them. */
  lemma FiltersCombine(ad: Ad, f: Filter, tag: string, verifies: Ad -> bool)
    ensures Matches(ad, Filter([], [], None, None), verifies)
    ensures Matches(ad, f.(tags := f.tags + [tag]), verifies) <==> Matches(ad, f, verifies) && tag in ad.tags
    ensures Matches(ad, f, verifies) <==>
            && Matches(ad, Filter(f.tags, [], None, None), verifies)
            && (f.inputShape == [] || ad.inputShape == f.inputShape)
            && (f.labelType.None? || f.labelType == Some(ad.labelType))
            && (f.trusted.None? || (ad.creator in f.trusted.value && verifies(ad)))
  {
    var more := f.tags + [tag];
    if Matches(ad, f.(tags := more), verifies) {
      forall k | 0 <= k < |f.tags|
        ensures f.tags[k] in ad.tags
      {
        assert more[k] == f.tags[k];
      }
      assert more[|f.tags|] == tag;
    }
  }

  /** A query returns a cached entry exactly if it is live and passes every filter. */
  lemma QueryIsExact(cache: seq<Entry>, now: real, f: Filter, verifies: Ad -> bool, e: Entry)
    ensures e in Matching(Evict(cache, now), f, verifies) <==> e in cache && Live(e, now) && Matches(e.ad, f, verifies)
  {
    hide Evict, Matching, Matches, Live;
    EvictIsExact(cache, now, e);
    MatchingIsExact(Evict(cache, now), f, verifies, e);
  }

  // ---- The directory object -----------------------------------------------------------------------------

  datatype PublishError = SignatureInvalid | CreatorQuota | SessionQuota

  class SwarmDirectory {
    const maxCache: nat
    const defaultTtl: real
    const perCreator: nat
    const perSession: nat
    var cache: seq<Entry>
    var creatorHistory: SlidingWindow.Histories
    var sessionPublishCount: nat

    constructor (maxCache: nat, defaultTtl: real, perCreator: nat, perSession: nat)
      requires maxCache > 0 && 0.0 < defaultTtl <= 2592000.0
      ensures this.maxCache == maxCache && this.defaultTtl == defaultTtl
      ensures this.perCreator == perCreator && this.perSession == perSession
      ensures cache == [] && creatorHistory == map[] && sessionPublishCount == 0
    {
      this.maxCache, this.defaultTtl, this.perCreator, this.perSession := maxCache, defaultTtl, perCreator, perSession;
      cache, creatorHistory, sessionPublishCount := [], map[], 0;
    }

    method EvictExpired(now: real)
      modifies this`cache
      ensures cache == Evict(old(cache), now)
    {
      var kept: seq<Entry> := [];
      for k := 0 to |cache|
        invariant cache == old(cache) && kept == Evict(cache[..k], now)
      {
        if !(cache[k].expiresAt <= now) { kept := kept + [cache[k]]; }
        assert cache[..k + 1][..k] == cache[..k];
      }
      assert cache[..|cache|] == cache;
      cache := kept;
    }

    /** Removes the entry of a swarm, unless it is at least as new as now. */
    method Replace(id: string, now: real) returns (superseded: bool)
      modifies this`cache
      ensures superseded == Superseded(old(cache), id, now)
      ensures cache == if superseded then old(cache) else Without(old(cache), id)
    {
      var kept: seq<Entry> := [];
      for k := 0 to |cache|
        invariant cache == old(cache) && kept == Without(cache[..k], id)
        invariant forall j :: 0 <= j < k && cache[j].ad.swarmId == id ==> cache[j].receivedAt < now
      {
        if cache[k].ad.swarmId == id {
          if cache[k].receivedAt >= now { return true; }
        } else {
          kept := kept + [cache[k]];
        }
        assert cache[..k + 1][..k] == cache[..k];
      }
      assert cache[..|cache|] == cache;
      cache := kept;
      return false;
    }

    method IngestAd(ad: Ad, verified: bool, now: real, sweep: real) returns (taken: bool)
      modifies this`cache
      ensures taken == (verified && !Superseded(old(cache), ad.swarmId, now))
      ensures cache == if verified then IngestStep(old(cache), maxCache, defaultTtl, Ingest(ad, now, sweep))
          else old(cache)
    {
      if !verified { return false; }
      hide Evict, Without;
      var superseded := Replace(ad.swarmId, now);
      if superseded { return false; }
      cache := cache + [Stamp(ad, defaultTtl, now)];
      EvictExpired(sweep);
      ghost var swept := cache;
      while |cache| > maxCache
        invariant Newest(cache, maxCache) == Newest(swept, maxCache)
        decreases |cache|
      {
        cache := cache[1..];
      }
      return true;
    }

    method AllAdvertisements(now: real) returns (ads: seq<Entry>)
      modifies this`cache
      ensures cache == ads == Evict(old(cache), now)
    {
      EvictExpired(now);
      ads := cache;
    }

    method Query(now: real, f: Filter, verifies: Ad -> bool) returns (results: seq<Entry>)
      modifies this`cache
      ensures cache == Evict(old(cache), now)
      ensures results == Matching(cache, f, verifies)
    {
      hide Evict;
      EvictExpired(now);
      results := [];
      for k := 0 to |cache|
        invariant cache == Evict(old(cache), now) && results == Matching(cache[..k], f, verifies)
      {
        if Matches(cache[k].ad, f, verifies) { results := results + [cache[k]]; }
        assert cache[..k + 1][..k] == cache[..k];
      }
      assert cache[..|cache|] == cache;
    }

    /** Records a locally originated advertisement within both quotas, then ingests it. */
    method PublishAd(ad: Ad, verified: bool, check: real, stamp: real, now: real, sweep: real)
        returns (r: Option<PublishError>)
      modifies this
      ensures !verified ==> r == Some(SignatureInvalid) && cache == old(cache) && creatorHistory == old(creatorHistory)
                            && sessionPublishCount == old(sessionPublishCount)
      ensures verified ==>
                var call := SlidingWindow.Call(ad.creator, check, stamp, old(sessionPublishCount) < perSession);
                var history := SlidingWindow.HistoryOf(old(creatorHistory), ad.creator);
                var granted := SlidingWindow.Grants(history, perCreator, DAY, call);
                && r == (if |SlidingWindow.DropStale(history, check - DAY)| >= perCreator then Some(CreatorQuota)
                         else if old(sessionPublishCount) >= perSession then Some(SessionQuota)
                         else None)
                && r.None? == granted
                && creatorHistory == SlidingWindow.Step(old(creatorHistory), perCreator, DAY, call)
                && sessionPublishCount == old(sessionPublishCount) + (if granted then 1 else 0)
                && cache == (if granted then IngestStep(old(cache), maxCache, defaultTtl, Ingest(ad, now, sweep))
                   else old(cache))
    {
      hide SlidingWindow.DropStale, IngestStep;
      if !verified { return Some(SignatureInvalid); }
      var kept := SlidingWindow.DropStale(SlidingWindow.HistoryOf(creatorHistory, ad.creator), check - DAY);
      creatorHistory := creatorHistory[ad.creator := kept];
      if |kept| >= perCreator { return Some(CreatorQuota); }
      if sessionPublishCount >= perSession { return Some(SessionQuota); }
      creatorHistory := creatorHistory[ad.creator := kept + [stamp]];
      sessionPublishCount := sessionPublishCount + 1;
      var taken := IngestAd(ad, true, now, sweep);
      return None;
    }
  }
}
