/** The backfill pass as it runs: one loop over the live rows, a publish that may fail, a tally. */
module CdnBackfill {
  import opened Text
  import opened Rows
  import opened CdnLedger

  datatype Stats = Stats(candidates: nat, published: nat, failed: nat)

  /** The claims that got through, of the rows that carry anything. */
  function Delivered(table: seq<Message>, accepts: seq<bool>): (events: seq<Sync>)
    requires |accepts| == |table|
    ensures |events| <= |EmitAll(table, Backfill)|
    ensures |events| == |EmitAll(table, Backfill)| ==> events == EmitAll(table, Backfill)
  {
    if table == [] then []
    else
      var n := |table| - 1;
      Delivered(table[..n], accepts[..n]) + if accepts[n] then Emit(table[n], Backfill) else []
  }

  lemma OneMoreRow(table: seq<Message>, accepts: seq<bool>, n: nat)
    requires |accepts| == |table| && n < |table| && table[n].Live()
    ensures var refs := Refs(table[n].attachments);
      var one := if refs == {} then [] else [Sync(table[n].id, {}, refs)];
      && EmitAll(table[..n + 1], Backfill) == EmitAll(table[..n], Backfill) + one
      && Delivered(table[..n + 1], accepts[..n + 1]) ==
         Delivered(table[..n], accepts[..n]) + if accepts[n] then one else []
  {
    assert table[..n + 1][..n] == table[..n] && accepts[..n + 1][..n] == accepts[..n];
  }

  /** One row of the pass: nothing to do unless it carries references; in a dry run it is counted and
      nothing is published. */
  method ClaimRow(m: Message, dryRun: bool, accepts: bool) returns (events: seq<Sync>, took: Stats)
    ensures events ==
      if Refs(m.attachments) != {} && !dryRun && accepts then [Sync(m.id, {}, Refs(m.attachments))] else []
    ensures took.candidates == if Refs(m.attachments) == {} then 0 else 1
    ensures took.published == |events| && took.failed == if dryRun then 0 else took.candidates - took.published
  {
    events, took := [], Stats(0, 0, 0);
    var refs := Refs(m.attachments);
    if refs == {} {
      return;
    }
    took := took.(candidates := 1);
    if !dryRun {
      if accepts {
        events, took := [Sync(m.id, {}, refs)], took.(published := 1);
      } else {
        took := took.(failed := 1);
      }
    }
  }

  function Plus(a: Stats, b: Stats): Stats {
    Stats(a.candidates + b.candidates, a.published + b.published, a.failed + b.failed)
  }

  /** The pass has covered the first `seen` rows. */
  ghost predicate Covered(table: seq<Message>, accepts: seq<bool>, dryRun: bool, seen: nat, stats: Stats,
    events: seq<Sync>)
  {
    && |accepts| == |table| && seen <= |table|
    && stats.candidates == |EmitAll(table[..seen], Backfill)|
    && events == (if dryRun then [] else Delivered(table[..seen], accepts[..seen]))
    && stats.published == |events|
    && stats.failed == (if dryRun then 0 else stats.candidates - stats.published)
  }

  lemma OneMoreCovered(table: seq<Message>, accepts: seq<bool>, dryRun: bool, seen: nat, stats: Stats,
    events: seq<Sync>, claim: seq<Sync>, took: Stats)
    requires Covered(table, accepts, dryRun, seen, stats, events) && seen < |table| && table[seen].Live()
    requires var refs := Refs(table[seen].attachments);
      && claim == (if refs != {} && !dryRun && accepts[seen] then [Sync(table[seen].id, {}, refs)] else [])
      && took.candidates == (if refs == {} then 0 else 1)
      && took.published == |claim| && took.failed == (if dryRun then 0 else took.candidates - took.published)
    ensures Covered(table, accepts, dryRun, seen + 1, Plus(stats, took), events + claim)
  {
    OneMoreRow(table, accepts, seen);
  }

  lemma NothingCovered(table: seq<Message>, accepts: seq<bool>, dryRun: bool)
    requires |accepts| == |table|
    ensures Covered(table, accepts, dryRun, 0, Stats(0, 0, 0), [])
  {
  }

  lemma AllCovered(table: seq<Message>, accepts: seq<bool>, stats: Stats, events: seq<Sync>)
    requires Covered(table, accepts, false, |table|, stats, events) && stats.failed == 0
    ensures events == EmitAll(table, Backfill)
  {
    assert table[..|table|] == table && accepts[..|table|] == accepts;
  }

  /** The limit is compared after a row is done, so a limit of nought still takes one candidate. */
  predicate WithinLimit(limit: Option<nat>, candidates: nat) {
    limit.Some? ==> candidates <= limit.value || candidates == 1
  }

  predicate Reached(limit: Option<nat>, candidates: nat) {
    limit.Some? && candidates >= limit.value
  }

  /** The loop: row by row, until the table or the limit is exhausted. */
  method Pass(table: seq<Message>, limit: Option<nat>, dryRun: bool, accepts: seq<bool>)
    returns (stats: Stats, events: seq<Sync>, seen: nat)
    requires |accepts| == |table| && forall i | 0 <= i < |table| :: table[i].Live()
    ensures Covered(table, accepts, dryRun, seen, stats, events) && WithinLimit(limit, stats.candidates)
    ensures seen == |table| || (seen < |table| && Reached(limit, stats.candidates))
  {
    stats, events, seen := Stats(0, 0, 0), [], 0;
    NothingCovered(table, accepts, dryRun);
    while seen < |table|
      invariant seen <= |table| && Covered(table, accepts, dryRun, seen, stats, events)
      invariant stats.candidates == 0 || !Reached(limit, stats.candidates)
    {
      var claim, took := ClaimRow(table[seen], dryRun, accepts[seen]);
      OneMoreCovered(table, accepts, dryRun, seen, stats, events, claim, took);
      stats, events, seen := Plus(stats, took), events + claim, seen + 1;
      if took.candidates > 0 && Reached(limit, stats.candidates) {
        return;
      }
    }
  }

  /** The pass covers the first `seen` rows: all of them, unless a limit stopped it. What it leaves
      unpublished is exactly what it counts as failed, so a run that reports no failure has published
      one claim for every row it covered that carries anything. */
  method BackfillCdnRefs(table: seq<Message>, limit: Option<nat>, dryRun: bool, accepts: seq<bool>)
    returns (stats: Stats, events: seq<Sync>, seen: nat)
    requires |accepts| == |table| && forall i | 0 <= i < |table| :: table[i].Live()
    ensures seen <= |table|
    ensures stats.candidates == |EmitAll(table[..seen], Backfill)|
    ensures events == if dryRun then [] else Delivered(table[..seen], accepts[..seen])
    ensures stats.published == |events|
    ensures stats.failed == if dryRun then 0 else stats.candidates - stats.published
    ensures seen < |table| ==> Reached(limit, stats.candidates)
    ensures WithinLimit(limit, stats.candidates)
    ensures limit.None? && !dryRun && stats.failed == 0 ==> events == EmitAll(table, Backfill)
  {
    stats, events, seen := Pass(table, limit, dryRun, accepts);
    if limit.None? && !dryRun && stats.failed == 0 {
      AllCovered(table, accepts, stats, events);
    }
  }
}
