/** The pagination driver of `main` (main.py, lines 174-203): for one search,
    pass after pass over the rendered listings, offering every listing's
    record to the `BusinessList` until `total` new businesses are accepted or
    the number of loaded listings stops changing between two passes.

    The browser is an abstract listing source: pass `i` shows the entries
    `source(i).listings`, each either an extracted record or a listing whose
    hover, click or extraction raised, and after the pass the page holds
    `source(i).loadedAfter` listings. */
module Driver {
  import opened Wrappers
  import opened Records
  import opened Persistence
  import opened Collection

  /** One rendered listing: its record, or the exception it raised. */
  datatype Entry = Extracted(business: Business) | Failed

  /** What one pass over the results panel sees. */
  datatype Pass = Pass(listings: seq<Entry>, loadedAfter: nat)

  /** The driver's state between listings: the accumulator's seen set and
      accepted records, and `new_count`. */
  datatype Progress = Progress(seen: set<Key>, accepted: seq<Business>, count: nat)

  /** The listing count never shrinks and never exceeds `bound`: the
      condition under which the loop is guaranteed to stop. */
  ghost predicate WellBehaved(source: nat -> Pass, bound: nat) {
    (forall i :: source(i).loadedAfter <= bound)
    && (forall i, j :: i <= j ==> source(i).loadedAfter <= source(j).loadedAfter)
  }

  /** `previous_loaded` at the start of pass `i`: -1 before the first pass. */
  function PreviousLoaded(source: nat -> Pass, i: nat): int {
    if i == 0 then -1 else source(i - 1).loadedAfter
  }

  /** One iteration of the `try` block: a failed listing changes nothing; an
      extracted record goes through `add_business`, and `new_count` grows
      when it is accepted. */
  function Offer(p: Progress, e: Entry): Progress {
    match e
    case Failed => p
    case Extracted(b) =>
      if IdentityKey(b) in p.seen then p
      else Progress(p.seen + {IdentityKey(b)}, p.accepted + [b], p.count + 1)
  }

  /** The inner `for` loop: offers the entries in order, leaving the loop as
      soon as `new_count >= total`. */
  function VisitListings(p: Progress, total: int, entries: seq<Entry>): Progress
    decreases |entries|
  {
    if entries == [] || p.count >= total then p
    else VisitListings(Offer(p, entries[0]), total, entries[1..])
  }

  /** How the loop ended: the final state, the passes begun, the scrolls
      made, and whether it stopped because the listing count did not change. */
  datatype RunResult = RunResult(progress: Progress, passes: nat, scrolls: nat, reachedEnd: bool)

  /** The outer `while` loop from the start of pass `i`. */
  function RunFrom(source: nat -> Pass, total: int, ghost bound: nat, p: Progress, i: nat): RunResult
    requires WellBehaved(source, bound)
    decreases bound - PreviousLoaded(source, i)
  {
    if p.count >= total then RunResult(p, i, i, false)
    else
      var q := VisitListings(p, total, source(i).listings);
      if source(i).loadedAfter == PreviousLoaded(source, i) then RunResult(q, i + 1, i, true)
      else
        LoadedGrows(source, bound, i);
        RunFrom(source, total, bound, q, i + 1)
  }

  /** The state right after `BusinessList(keyword=search_for)`, `new_count = 0`. */
  function Start(master: StoredTable): Progress {
    Progress(SeedKeys(master), [], 0)
  }

  /** The whole loop for one search. */
  function Run(source: nat -> Pass, total: int, ghost bound: nat, master: StoredTable): RunResult
    requires WellBehaved(source, bound)
  {
    RunFrom(source, total, bound, Start(master), 0)
  }

  lemma {:induction false} LoadedGrows(source: nat -> Pass, bound: nat, i: nat)
    requires WellBehaved(source, bound)
    ensures PreviousLoaded(source, i) <= source(i).loadedAfter <= bound
  {
    if i > 0 {
      assert source(i - 1).loadedAfter <= source(i).loadedAfter;
    }
  }

  // ---------------------------------------------------------------------
  // The loop itself
  // ---------------------------------------------------------------------

  /** Lines 174-203: builds the accumulator for `search`, seeded from the
      master table, and runs the passes; returns it with `new_count`, the
      number of scrolls and whether the end of the listings was reported. */
  method Collect(search: string, master: StoredTable, source: nat -> Pass, total: int, ghost bound: nat)
    returns (list: BusinessList, newCount: nat, scrolls: nat, reachedEnd: bool)
    requires WellBehaved(source, bound)
    ensures fresh(list) && list.Valid() && list.keyword == search
    ensures var r := Run(source, total, bound, master);
            && list.seen == r.progress.seen && list.businesses == r.progress.accepted
            && newCount == r.progress.count && scrolls == r.scrolls && reachedEnd == r.reachedEnd
  {
    list := new BusinessList(search, master);
    newCount := 0;
    var previousLoaded: int := -1;
    scrolls := 0;
    reachedEnd := false;
    while newCount < total
      invariant list.Valid() && list.keyword == search
      invariant previousLoaded == PreviousLoaded(source, scrolls) <= bound
      invariant RunFrom(source, total, bound, Progress(list.seen, list.businesses, newCount), scrolls)
                == Run(source, total, bound, master)
      decreases bound - previousLoaded
    {
      ghost var before := Progress(list.seen, list.businesses, newCount);
      var listings := source(scrolls).listings;
      var k := 0;
      while k < |listings|
        invariant 0 <= k <= |listings|
        invariant list.Valid() && list.keyword == search
        invariant VisitListings(Progress(list.seen, list.businesses, newCount), total, listings[k..])
                  == VisitListings(before, total, listings)
      {
        if newCount >= total {
          break;
        }
        assert listings[k..][1..] == listings[k + 1..];
        match listings[k] {
          case Failed =>
          case Extracted(b) =>
            var added := list.AddBusiness(b);
            if added {
              newCount := newCount + 1;
            }
        }
        k := k + 1;
      }
      var currentLoaded := source(scrolls).loadedAfter;
      if currentLoaded == previousLoaded {
        reachedEnd := true;
        break;
      }
      LoadedGrows(source, bound, scrolls);
      previousLoaded := currentLoaded;
      scrolls := scrolls + 1;
    }
  }

  // ---------------------------------------------------------------------
  // Counting
  // ---------------------------------------------------------------------

  /** `new_count` is the length of the accepted list, the accepted records are
      pairwise different businesses unknown to the seed, and the seen set is
      the seed plus their keys. */
  ghost predicate Tracks(p: Progress, seed: set<Key>) {
    p.count == |p.accepted| && DistinctKeys(p.accepted)
    && p.seen == seed + KeysOf(p.accepted) && seed !! KeysOf(p.accepted)
  }

  lemma {:induction false} OfferTracks(p: Progress, e: Entry, seed: set<Key>)
    requires Tracks(p, seed)
    ensures Tracks(Offer(p, e), seed)
  {
    if e.Extracted? && IdentityKey(e.business) !in p.seen {
      DistinctKeysAppend(p.accepted, e.business);
      KeysOfAppend(p.accepted, e.business);
    }
  }

  lemma {:induction false} VisitTracks(p: Progress, total: int, entries: seq<Entry>, seed: set<Key>)
    requires Tracks(p, seed)
    ensures Tracks(VisitListings(p, total, entries), seed)
    decreases |entries|
  {
    if entries != [] && p.count < total {
      OfferTracks(p, entries[0], seed);
      VisitTracks(Offer(p, entries[0]), total, entries[1..], seed);
    }
  }

  lemma {:induction false} RunFromTracks(source: nat -> Pass, total: int, bound: nat, p: Progress, i: nat, seed: set<Key>)
    requires WellBehaved(source, bound) && Tracks(p, seed)
    ensures Tracks(RunFrom(source, total, bound, p, i).progress, seed)
    decreases bound - PreviousLoaded(source, i)
  {
    if p.count < total {
      VisitTracks(p, total, source(i).listings, seed);
      if source(i).loadedAfter != PreviousLoaded(source, i) {
        LoadedGrows(source, bound, i);
        RunFromTracks(source, total, bound, VisitListings(p, total, source(i).listings), i + 1, seed);
      }
    }
  }

  /** After the loop `new_count` equals the number of accepted records, which
      are pairwise different businesses, none of them in the master table,
      and the seen set is the master's keys plus theirs. */
  lemma {:induction false} RunTracks(source: nat -> Pass, total: int, bound: nat, master: StoredTable)
    requires WellBehaved(source, bound)
    ensures var r := Run(source, total, bound, master);
            && r.progress.count == |r.progress.accepted|
            && DistinctKeys(r.progress.accepted)
            && r.progress.seen == SeedKeys(master) + KeysOf(r.progress.accepted)
            && SeedKeys(master) !! KeysOf(r.progress.accepted)
  {
    assert KeysOf([]) == {};
    RunFromTracks(source, total, bound, Start(master), 0, SeedKeys(master));
  }

  /** The cap on `new_count`: `total`, or zero when `total` is not positive. */
  function Cap(total: int): nat {
    if total < 0 then 0 else total
  }

  lemma {:induction false} VisitBounded(p: Progress, total: int, entries: seq<Entry>)
    requires p.count <= Cap(total)
    ensures p.count <= VisitListings(p, total, entries).count <= Cap(total)
    decreases |entries|
  {
    if entries != [] && p.count < total {
      VisitBounded(Offer(p, entries[0]), total, entries[1..]);
    }
  }

  lemma {:induction false} RunFromBounded(source: nat -> Pass, total: int, bound: nat, p: Progress, i: nat)
    requires WellBehaved(source, bound) && p.count <= Cap(total)
    ensures p.count <= RunFrom(source, total, bound, p, i).progress.count <= Cap(total)
    decreases bound - PreviousLoaded(source, i)
  {
    if p.count < total {
      var q := VisitListings(p, total, source(i).listings);
      VisitBounded(p, total, source(i).listings);
      if source(i).loadedAfter != PreviousLoaded(source, i) {
        LoadedGrows(source, bound, i);
        RunFromBounded(source, total, bound, q, i + 1);
      }
    }
  }

  /** `new_count` never exceeds `total` (nor drops below zero). */
  lemma {:induction false} RunBounded(source: nat -> Pass, total: int, bound: nat, master: StoredTable)
    requires WellBehaved(source, bound)
    ensures Run(source, total, bound, master).progress.count <= Cap(total)
  {
    RunFromBounded(source, total, bound, Start(master), 0);
  }

  /** A listing that raises is skipped without ending the pass: the pass
      goes on exactly as if the listing were not there. */
  lemma {:induction false} FailedSkipped(p: Progress, total: int, front: seq<Entry>, back: seq<Entry>)
    ensures VisitListings(p, total, front + [Failed] + back) == VisitListings(p, total, front + back)
    decreases |front|
  {
    if front == [] {
      assert front + [Failed] + back == [Failed] + back;
      assert ([Failed] + back)[1..] == back;
      assert front + back == back;
    } else if p.count < total {
      assert (front + [Failed] + back)[0] == front[0] && (front + back)[0] == front[0];
      assert (front + [Failed] + back)[1..] == front[1..] + [Failed] + back;
      assert (front + back)[1..] == front[1..] + back;
      FailedSkipped(Offer(p, front[0]), total, front[1..], back);
    }
  }

  // ---------------------------------------------------------------------
  // What ends up accepted
  // ---------------------------------------------------------------------

  /** The records that listings show. */
  function Shown(entries: seq<Entry>): set<Business> {
    set e | e in entries && e.Extracted? :: e.business
  }

  /** The records shown in passes `i` to `n - 1`. */
  function ShownPasses(source: nat -> Pass, i: nat, n: nat): set<Business>
    decreases n - i
  {
    if i >= n then {} else Shown(source(i).listings) + ShownPasses(source, i + 1, n)
  }

  lemma {:induction false} ShownPassesIff(source: nat -> Pass, i: nat, n: nat, b: Business)
    ensures b in ShownPasses(source, i, n) <==> exists j :: i <= j < n && Extracted(b) in source(j).listings
    decreases n - i
  {
    if i < n {
      ShownPassesIff(source, i + 1, n, b);
      if Extracted(b) in source(i).listings {
        assert b in Shown(source(i).listings);
      }
      if b in Shown(source(i).listings) {
        var e :| e in source(i).listings && e.Extracted? && e.business == b;
        assert e == Extracted(b);
      }
    }
  }

  /** From `p` to `q` the driver only learns keys, counts up, and appends
      records from `shown`. */
  ghost predicate Grows(p: Progress, q: Progress, shown: set<Business>) {
    p.seen <= q.seen && p.count <= q.count && p.accepted <= q.accepted
    && forall n :: |p.accepted| <= n < |q.accepted| ==> q.accepted[n] in shown
  }

  lemma {:induction false} GrowsTrans(p: Progress, o: Progress, q: Progress, shown: set<Business>)
    requires Grows(p, o, shown) && Grows(o, q, shown)
    ensures Grows(p, q, shown)
  {
    forall n | |p.accepted| <= n < |q.accepted| ensures q.accepted[n] in shown {
      if n < |o.accepted| {
        assert q.accepted[n] == o.accepted[n];
      }
    }
  }

  lemma {:induction false} GrowsWider(p: Progress, q: Progress, shown: set<Business>, wider: set<Business>)
    requires Grows(p, q, shown) && shown <= wider
    ensures Grows(p, q, wider)
  {
  }

  lemma {:induction false} OfferGrows(p: Progress, entries: seq<Entry>)
    requires entries != []
    ensures Grows(p, Offer(p, entries[0]), Shown(entries))
  {
    var o := Offer(p, entries[0]);
    if o != p {
      assert o.accepted == p.accepted + [entries[0].business];
      assert entries[0] in entries;
    }
  }

  /** A pass only appends, and only records it was shown. */
  lemma {:induction false} VisitGrows(p: Progress, total: int, entries: seq<Entry>)
    ensures Grows(p, VisitListings(p, total, entries), Shown(entries))
    decreases |entries|
  {
    if entries != [] && p.count < total {
      var o := Offer(p, entries[0]);
      OfferGrows(p, entries);
      VisitGrows(o, total, entries[1..]);
      assert Shown(entries[1..]) <= Shown(entries) by {
        forall e | e in entries[1..] ensures e in entries {
        }
      }
      GrowsWider(o, VisitListings(o, total, entries[1..]), Shown(entries[1..]), Shown(entries));
      GrowsTrans(p, o, VisitListings(o, total, entries[1..]), Shown(entries));
    }
  }

  /** A pass that ends below the target has looked at every entry: the key of
      every record it was shown is known afterwards, so a record is only
      ever passed over because its business was already known. */
  lemma {:induction false} VisitKnows(p: Progress, total: int, entries: seq<Entry>)
    requires VisitListings(p, total, entries).count < total
    ensures forall b :: b in Shown(entries) ==> IdentityKey(b) in VisitListings(p, total, entries).seen
    decreases |entries|
  {
    if entries != [] {
      var o := Offer(p, entries[0]);
      var q := VisitListings(o, total, entries[1..]);
      VisitGrows(o, total, entries[1..]);
      VisitKnows(o, total, entries[1..]);
      forall b | b in Shown(entries) ensures IdentityKey(b) in q.seen {
        if entries[0] != Extracted(b) {
          var e :| e in entries && e.Extracted? && e.business == b;
          assert e in entries[1..];
        }
      }
    }
  }

  lemma {:induction false} RunFromGrows(source: nat -> Pass, total: int, bound: nat, p: Progress, i: nat)
    requires WellBehaved(source, bound)
    ensures var r := RunFrom(source, total, bound, p, i);
            i <= r.passes && Grows(p, r.progress, ShownPasses(source, i, r.passes))
    decreases bound - PreviousLoaded(source, i)
  {
    if p.count < total {
      var q := VisitListings(p, total, source(i).listings);
      VisitGrows(p, total, source(i).listings);
      if source(i).loadedAfter != PreviousLoaded(source, i) {
        LoadedGrows(source, bound, i);
        RunFromGrows(source, total, bound, q, i + 1);
        var r := RunFrom(source, total, bound, q, i + 1);
        var all := ShownPasses(source, i, r.passes);
        GrowsWider(p, q, Shown(source(i).listings), all);
        GrowsWider(q, r.progress, ShownPasses(source, i + 1, r.passes), all);
        GrowsTrans(p, q, r.progress, all);
      } else {
        GrowsWider(p, q, Shown(source(i).listings), ShownPasses(source, i, i + 1));
      }
    }
  }

  /** The run keeps the seed, and every accepted record was shown as a
      listing in one of the passes made. */
  lemma {:induction false} RunAcceptsShown(source: nat -> Pass, total: int, bound: nat, master: StoredTable, b: Business)
    requires WellBehaved(source, bound) && b in Run(source, total, bound, master).progress.accepted
    ensures exists j :: 0 <= j < Run(source, total, bound, master).passes && Extracted(b) in source(j).listings
  {
    var r := Run(source, total, bound, master);
    RunFromGrows(source, total, bound, Start(master), 0);
    var n :| 0 <= n < |r.progress.accepted| && r.progress.accepted[n] == b;
    ShownPassesIff(source, 0, r.passes, b);
  }

  lemma {:induction false} RunFromKnows(source: nat -> Pass, total: int, bound: nat, p: Progress, i: nat)
    requires WellBehaved(source, bound) && RunFrom(source, total, bound, p, i).progress.count < total
    ensures var r := RunFrom(source, total, bound, p, i);
            forall b :: b in ShownPasses(source, i, r.passes) ==> IdentityKey(b) in r.progress.seen
    decreases bound - PreviousLoaded(source, i)
  {
    var q := VisitListings(p, total, source(i).listings);
    VisitKnows(p, total, source(i).listings);
    if source(i).loadedAfter != PreviousLoaded(source, i) {
      LoadedGrows(source, bound, i);
      RunFromKnows(source, total, bound, q, i + 1);
      RunFromGrows(source, total, bound, q, i + 1);
    }
  }

  /** A run that stops short of the target has seen the key of every record
      in every pass it made: nothing it was shown is left out except a
      business it already knew. */
  lemma {:induction false} RunKnows(source: nat -> Pass, total: int, bound: nat, master: StoredTable, j: nat, b: Business)
    requires WellBehaved(source, bound) && Run(source, total, bound, master).progress.count < total
    requires j < Run(source, total, bound, master).passes && Extracted(b) in source(j).listings
    ensures IdentityKey(b) in Run(source, total, bound, master).progress.seen
  {
    RunFromKnows(source, total, bound, Start(master), 0);
    ShownPassesIff(source, 0, Run(source, total, bound, master).passes, b);
  }

  // ---------------------------------------------------------------------
  // Why and when the loop stops
  // ---------------------------------------------------------------------

  /** Pass `j` ended with a listing count other than the one before it. */
  predicate CountChanged(source: nat -> Pass, j: nat) {
    source(j).loadedAfter != PreviousLoaded(source, j)
  }

  /** How a run from pass `i` can end: a pass begun for every scroll, plus
      one when the end was reached; at most one scroll per listing the count
      can still grow by; the end reached only on an unchanged count, and
      otherwise the target met; every pass before the last scroll changed
      the count. */
  ghost predicate ShapeFrom(source: nat -> Pass, total: int, bound: nat, i: nat, r: RunResult) {
    && r.passes == r.scrolls + (if r.reachedEnd then 1 else 0)
    && i <= r.scrolls
    && r.scrolls - i <= bound - PreviousLoaded(source, i)
    && (r.reachedEnd ==> source(r.scrolls).loadedAfter == PreviousLoaded(source, r.scrolls))
    && (!r.reachedEnd ==> r.progress.count >= total)
    && (forall j :: i <= j < r.scrolls ==> CountChanged(source, j))
  }

  /** A pass below the target after which the count changed is followed by the next pass. */
  lemma {:induction false} RunFromNext(source: nat -> Pass, total: int, bound: nat, p: Progress, i: nat)
    requires WellBehaved(source, bound) && p.count < total
    requires source(i).loadedAfter != PreviousLoaded(source, i)
    ensures PreviousLoaded(source, i) < PreviousLoaded(source, i + 1) <= bound
    ensures RunFrom(source, total, bound, p, i)
            == RunFrom(source, total, bound, VisitListings(p, total, source(i).listings), i + 1)
  {
    LoadedGrows(source, bound, i);
  }

  /** At the target the loop ends without a further pass. */
  lemma {:induction false} RunFromAtTarget(source: nat -> Pass, total: int, bound: nat, p: Progress, i: nat)
    requires WellBehaved(source, bound) && p.count >= total
    ensures RunFrom(source, total, bound, p, i) == RunResult(p, i, i, false)
  {
  }

  lemma {:induction false} ShapeStep(source: nat -> Pass, total: int, bound: nat, i: nat, r: RunResult)
    requires ShapeFrom(source, total, bound, i + 1, r)
    requires PreviousLoaded(source, i) < PreviousLoaded(source, i + 1) <= bound
    ensures ShapeFrom(source, total, bound, i, r)
  {
    assert source(i).loadedAfter == PreviousLoaded(source, i + 1);
    assert CountChanged(source, i);
  }

  lemma {:induction false} RunFromShape(source: nat -> Pass, total: int, bound: nat, p: Progress, i: nat)
    requires WellBehaved(source, bound)
    ensures ShapeFrom(source, total, bound, i, RunFrom(source, total, bound, p, i))
    decreases bound - PreviousLoaded(source, i)
  {
    LoadedGrows(source, bound, i);
    if p.count < total && source(i).loadedAfter != PreviousLoaded(source, i) {
      var q := VisitListings(p, total, source(i).listings);
      RunFromNext(source, total, bound, p, i);
      RunFromShape(source, total, bound, q, i + 1);
      ShapeStep(source, total, bound, i, RunFrom(source, total, bound, q, i + 1));
    }
  }

  /** The shape of a whole run, with `previous_loaded` written out. */
  lemma {:induction false} ShapeFromStart(source: nat -> Pass, total: int, bound: nat, r: RunResult)
    requires ShapeFrom(source, total, bound, 0, r)
    ensures r.reachedEnd ==>
              r.passes >= 2 && source(r.passes - 1).loadedAfter == source(r.passes - 2).loadedAfter
    ensures forall j :: 0 < j < r.scrolls ==> source(j).loadedAfter != source(j - 1).loadedAfter
  {
    if r.reachedEnd {
      var n := r.scrolls;
      assert source(n).loadedAfter == PreviousLoaded(source, n);
      assert n != 0;
      assert r.passes - 1 == n && r.passes - 2 == n - 1;
    }
    forall j | 0 < j < r.scrolls ensures source(j).loadedAfter != source(j - 1).loadedAfter {
      assert CountChanged(source, j);
    }
  }

  /** The loop stops only for the two reasons the code has: the target was
      reached, or the count after the last pass equals the count after the
      pass before it; every pass that scrolled saw a count other than the
      one before it (the first one compares with the initial -1). */
  lemma {:induction false} RunStops(source: nat -> Pass, total: int, bound: nat, master: StoredTable)
    requires WellBehaved(source, bound)
    ensures var r := Run(source, total, bound, master);
            && r.passes == r.scrolls + (if r.reachedEnd then 1 else 0)
            && (r.reachedEnd ==>
                  r.passes >= 2 && source(r.passes - 1).loadedAfter == source(r.passes - 2).loadedAfter)
            && (!r.reachedEnd ==> r.progress.count >= total)
            && (forall j :: 0 < j < r.scrolls ==> source(j).loadedAfter != source(j - 1).loadedAfter)
  {
    RunFromShape(source, total, bound, Start(master), 0);
    ShapeFromStart(source, total, bound, Run(source, total, bound, master));
  }

  /** Reaching the target ends the loop with exactly `total` new businesses. */
  lemma {:induction false} RunReachesTarget(source: nat -> Pass, total: int, bound: nat, master: StoredTable)
    requires WellBehaved(source, bound) && 0 <= total && !Run(source, total, bound, master).reachedEnd
    ensures Run(source, total, bound, master).progress.count == total
  {
    RunStops(source, total, bound, master);
    RunBounded(source, total, bound, master);
  }

  /** The number of passes is bounded by the listing bound: each scroll but
      the last makes the count grow. */
  lemma {:induction false} RunTerminates(source: nat -> Pass, total: int, bound: nat, master: StoredTable)
    requires WellBehaved(source, bound)
    ensures Run(source, total, bound, master).scrolls <= bound + 1
    ensures Run(source, total, bound, master).passes <= bound + 2
  {
    RunFromShape(source, total, bound, Start(master), 0);
  }

  /** A non-positive target runs no pass and accepts nothing. */
  lemma {:induction false} NoTargetNoPass(source: nat -> Pass, total: int, bound: nat, master: StoredTable)
    requires WellBehaved(source, bound) && total <= 0
    ensures Run(source, total, bound, master).passes == 0
    ensures Run(source, total, bound, master).progress.accepted == []
  {
  }

  /** Since `previous_loaded` starts at -1, the first pass always scrolls. */
  lemma {:induction false} FirstPassScrolls(source: nat -> Pass, total: int, bound: nat, master: StoredTable)
    requires WellBehaved(source, bound) && total > 0
    ensures Run(source, total, bound, master).scrolls >= 1
    ensures Run(source, total, bound, master).passes >= 1
  {
    var q := VisitListings(Start(master), total, source(0).listings);
    assert source(0).loadedAfter != PreviousLoaded(source, 0);
    RunFromShape(source, total, bound, q, 1);
  }

  /** A page whose listing count never changes is scrolled exactly once, and
      the loop makes at most two passes. */
  lemma {:induction false} ConstantSourceScrollsOnce(source: nat -> Pass, total: int, c: nat, master: StoredTable)
    requires forall i :: source(i).loadedAfter == c
    requires total > 0
    ensures WellBehaved(source, c)
    ensures Run(source, total, c, master).scrolls == 1
    ensures Run(source, total, c, master).passes <= 2
  {
    FirstPassScrolls(source, total, c, master);
    RunFromShape(source, total, c, Start(master), 0);
    assert !CountChanged(source, 1);
  }

  /** Offering a business whose key is known changes nothing. */
  lemma {:induction false} OfferKnown(p: Progress, b: Business)
    requires IdentityKey(b) in p.seen
    ensures Offer(p, Extracted(b)) == p
  {
  }

  /** Offering a business with a new key records it. */
  lemma {:induction false} OfferNew(p: Progress, b: Business)
    requires IdentityKey(b) !in p.seen
    ensures Offer(p, Extracted(b)) == Progress(p.seen + {IdentityKey(b)}, p.accepted + [b], p.count + 1)
  {
  }

  /** Below the target, the inner loop offers the first entry and goes on. */
  lemma {:induction false} VisitCons(p: Progress, total: int, e: Entry, rest: seq<Entry>)
    requires p.count < total
    ensures VisitListings(p, total, [e] + rest) == VisitListings(Offer(p, e), total, rest)
  {
    assert ([e] + rest)[1..] == rest;
  }

  /** At the target, or with no entries left, the inner loop stops. */
  lemma {:induction false} VisitStop(p: Progress, total: int, entries: seq<Entry>)
    requires entries == [] || p.count >= total
    ensures VisitListings(p, total, entries) == p
  {
  }

  lemma {:induction false} FirstBatch(a: Business, b: Business, total: int)
    requires IdentityKey(a) != IdentityKey(b) && total >= 2
    ensures VisitListings(Start(Absent), total, [Extracted(a), Extracted(b)])
            == Progress({IdentityKey(a), IdentityKey(b)}, [a, b], 2)
  {
    var p0 := Start(Absent);
    var p1 := Progress({IdentityKey(a)}, [a], 1);
    var p2 := Progress({IdentityKey(a), IdentityKey(b)}, [a, b], 2);
    OfferNew(p0, a);
    assert p0.seen + {IdentityKey(a)} == p1.seen && p0.accepted + [a] == p1.accepted;
    OfferNew(p1, b);
    assert p1.accepted + [b] == p2.accepted;
    VisitStop(p2, total, []);
    VisitCons(p1, total, Extracted(b), []);
    assert [Extracted(a), Extracted(b)] == [Extracted(a)] + [Extracted(b)];
    VisitCons(p0, total, Extracted(a), [Extracted(b)]);
  }

  lemma {:induction false} SecondBatch(a: Business, b: Business, c: Business, d: Business)
    requires IdentityKey(a) != IdentityKey(b) && IdentityKey(a) != IdentityKey(c) && IdentityKey(b) != IdentityKey(c)
    ensures VisitListings(Progress({IdentityKey(a), IdentityKey(b)}, [a, b], 2), 3,
                          [Extracted(a), Extracted(b), Extracted(c), Extracted(d)])
            == Progress({IdentityKey(a), IdentityKey(b), IdentityKey(c)}, [a, b, c], 3)
  {
    var p2 := Progress({IdentityKey(a), IdentityKey(b)}, [a, b], 2);
    var p3 := Progress({IdentityKey(a), IdentityKey(b), IdentityKey(c)}, [a, b, c], 3);
    var ec, ed := Extracted(c), Extracted(d);
    OfferKnown(p2, a);
    OfferKnown(p2, b);
    OfferNew(p2, c);
    assert p2.accepted + [c] == p3.accepted;
    VisitStop(p3, 3, [ed]);
    VisitCons(p2, 3, ec, [ed]);
    VisitCons(p2, 3, Extracted(b), [ec, ed]);
    assert [Extracted(b), ec, ed] == [Extracted(b)] + [ec, ed];
    assert [Extracted(a), Extracted(b), ec, ed] == [Extracted(a)] + [Extracted(b), ec, ed];
    VisitCons(p2, 3, Extracted(a), [Extracted(b), ec, ed]);
  }

  /** A page that shows two new businesses at first and four after one
      scroll, in a fresh run with target 3: the first pass accepts the first
      two, the second pass rejects them again, accepts the third and stops
      the pass; the count changed, so a second scroll follows before the
      loop ends with three records in discovery order. */
  lemma {:induction false} TwoBatchesExample(a: Business, b: Business, c: Business, d: Business)
    requires IdentityKey(a) != IdentityKey(b) && IdentityKey(a) != IdentityKey(c) && IdentityKey(b) != IdentityKey(c)
    ensures var source := (i: nat) => if i == 0 then Pass([Extracted(a), Extracted(b)], 2)
                                      else Pass([Extracted(a), Extracted(b), Extracted(c), Extracted(d)], 4);
            WellBehaved(source, 4)
            && Run(source, 3, 4, Absent)
               == RunResult(Progress({IdentityKey(a), IdentityKey(b), IdentityKey(c)}, [a, b, c], 3), 2, 2, false)
  {
    var source := (i: nat) => if i == 0 then Pass([Extracted(a), Extracted(b)], 2)
                              else Pass([Extracted(a), Extracted(b), Extracted(c), Extracted(d)], 4);
    var p2 := Progress({IdentityKey(a), IdentityKey(b)}, [a, b], 2);
    var p3 := Progress({IdentityKey(a), IdentityKey(b), IdentityKey(c)}, [a, b, c], 3);
    assert WellBehaved(source, 4);
    assert source(0).listings == [Extracted(a), Extracted(b)];
    assert source(1).listings == [Extracted(a), Extracted(b), Extracted(c), Extracted(d)];
    RunFromNext(source, 3, 4, Start(Absent), 0);
    FirstBatch(a, b, 3);
    RunFromNext(source, 3, 4, p2, 1);
    SecondBatch(a, b, c, d);
    RunFromAtTarget(source, 3, 4, p3, 2);
  }

  // ---------------------------------------------------------------------
  // The save that follows
  // ---------------------------------------------------------------------

  /** After a run seeded from a master table without raw duplicates, saving
      writes the master rows followed by every accepted record: the merge
      drops nothing, because the driver already kept out every business the
      master table knew. */
  lemma {:induction false} SaveAfterRun(rows: seq<Business>, custom: StoredTable, source: nat -> Pass, total: int, bound: nat)
    requires WellBehaved(source, bound) && NoRawDuplicates(rows)
    ensures var acc := Run(source, total, bound, Present(rows)).progress.accepted;
            var out := SaveToCsv(acc, Present(rows), custom);
            acc != [] ==> (out.Saved? || out.CustomReadError?) && out.master == rows + acc
  {
    var acc := Run(source, total, bound, Present(rows)).progress.accepted;
    RunTracks(source, total, bound, Present(rows));
    SeedKeysOfRows(rows);
    DistinctKeysRaw(acc);
    DisjointKeysRaw(rows, acc);
    MergeDisjoint(rows, acc);
    if acc != [] {
      SaveWritesMaster(acc, rows, custom);
    }
  }

  /** The master table that the save after a run writes seeds the next
      search with the old keys and every key the run accepted, so that
      search refuses those businesses. */
  lemma {:induction false} NextSeedKnowsAccepted(rows: seq<Business>, custom: StoredTable, source: nat -> Pass, total: int, bound: nat)
    requires WellBehaved(source, bound)
    ensures var acc := Run(source, total, bound, Present(rows)).progress.accepted;
            var out := SaveToCsv(acc, Present(rows), custom);
            acc != [] ==> SeedKeys(Present(out.master)) == SeedKeys(Present(rows)) + KeysOf(acc)
  {
    var acc := Run(source, total, bound, Present(rows)).progress.accepted;
    if acc != [] {
      SaveWritesMaster(acc, rows, custom);
      var written := DropDuplicates(rows + acc);
      KeysOfSameTriples(written, rows + acc);
      SeedKeysOfRows(rows);
      SeedKeysOfRows(written);
      assert forall x :: x in rows + acc <==> x in rows || x in acc;
    }
  }
}
