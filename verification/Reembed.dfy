/**
 The re-embed run: first every row up to the id that was last when the run began, then the warm
 tier's rows, in as many bounded calls as it takes, each resumed from the cursor of the one before.
 */
module Reembed {
  import opened Prelude
  import opened Sweep

  const CALL_ROWS: nat := 512
  const MAX_BATCH := 1000
  const MAX_SIZE: nat := 0x7fff_ffff_ffff_ffff

  const ROWS := 0
  const WARM := 1

  /** A decoded cursor. Any other phase is a cursor from before paging by id. */
  datatype Cursor = Cursor(phase: int, id: Key, ceiling: Key)

  const FRESH := Cursor(ROWS, 0, 0)

  /** Both tables as each tick sees them, whether the deadline has passed at a tick, and whether the
      namespace has a warm tier at all. */
  datatype World = World(rows: nat -> set<Key>, warm: nat -> set<Key>, late: nat -> bool, tiered: bool)

  datatype Reply = BadBatchSize | BadCursor | Report(token: Option<Cursor>)

  // ------------------------------------------------------------------ one call

  /** One call: it reads the last id at `from`, sweeps rows up to tick `mid`, then the warm tier. */
  datatype Call = Call(start: Cursor, from: nat, mid: nat, till: nat, ceiling: Key, rowLog: seq<Key>, rowResume: Option<Key>,
                       warmLog: seq<Key>, token: Option<Cursor>)

  ghost predicate WarmSwept(w: World, c: Call, after: Key) {
    if !w.tiered then c.warmLog == [] && c.token == None && c.till == c.mid
    else
      && (c.token.Some? ==> c.token.value.phase == WARM && c.token.value.ceiling == 0)
      && Swept(w.warm, after, None, c.mid, c.till, c.warmLog, if c.token.None? then None else Some(c.token.value.id))
  }

  ghost predicate Called(w: World, bounded: bool, c: Call) {
    && c.from < c.mid <= c.till
    && if c.start.phase == WARM then c.rowLog == [] && WarmSwept(w, c, c.start.id)
       else
         && c.ceiling == (if c.start.ceiling != 0 then c.start.ceiling else Greatest(w.rows(c.from)))
         && if c.ceiling == 0 then c.rowLog == [] && WarmSwept(w, c, 0)
            else
              && Swept(w.rows, c.start.id, Some(c.ceiling), c.from + 1, c.mid, c.rowLog, c.rowResume)
              && if c.rowResume.None? && !bounded then WarmSwept(w, c, 0)
                 else
                   && c.warmLog == [] && c.till == c.mid
                   && c.token == Some(if c.rowResume.Some? then Cursor(ROWS, c.rowResume.value, c.ceiling) else Cursor(WARM, 0, 0))
  }

  /** A source over a keyed table; each page is visited whole. */
  function TableSource(table: nat -> set<Key>, ceiling: Option<Key>, late: nat -> bool, bounded: bool): Source {
    Source((t, after, limit) => PageOf(table(t), after, ceiling, limit), (t, batch: seq<Key>) => |batch|, (t: nat) => bounded && late(t))
  }

  lemma TableSourcePages(table: nat -> set<Key>, ceiling: Option<Key>, late: nat -> bool, bounded: bool)
    ensures Pages(TableSource(table, ceiling, late, bounded), table, ceiling)
  {
    forall t, after, limit
      ensures IsPage(TableSource(table, ceiling, late, bounded).fetch(t, after, limit), table(t), after, ceiling, limit)
    {
      PageOfIsPage(table(t), after, ceiling, limit);
    }
  }

  /** One table's part of a call: no page is fetched once the deadline has passed. */
  ghost predicate InTime(w: World, from: nat, till: nat) {
    forall t :: from <= t < till - 1 ==> !w.late(t)
  }

  method Reembed(w: World, cursor: Option<Cursor>, batchSize: int, bounded: bool, from: nat) returns (reply: Reply, ghost call: Call)
    ensures reply.BadBatchSize? <==> !(1 <= batchSize <= MAX_BATCH)
    ensures reply.BadCursor? <==> 1 <= batchSize <= MAX_BATCH && cursor.Some? && cursor.value.phase !in {ROWS, WARM}
    ensures reply.Report? ==>
      && Called(w, bounded, call) && call.token == reply.token && call.from == from
      && call.start == (if cursor.Some? then cursor.value else FRESH)
      && (bounded ==> |call.rowLog| + |call.warmLog| <= CALL_ROWS)
      && (!bounded && reply.token.Some? ==> |call.rowLog| == MAX_SIZE || |call.warmLog| == MAX_SIZE)
      && (bounded ==> InTime(w, call.from + 1, call.mid) && InTime(w, call.mid, call.till))
  {
    hide Swept, PageOf, Pages, Greatest;
    var start := if cursor.Some? then cursor.value else FRESH;
    call := Call(start, from, from + 1, from + 1, 0, [], None, [], None);
    if !(1 <= batchSize <= MAX_BATCH) { return BadBatchSize, call; }
    if start.phase != ROWS && start.phase != WARM { return BadCursor, call; }
    var rows := if bounded then CALL_ROWS else MAX_SIZE;
    var token: Option<Cursor> := None;
    var mid := from + 1;
    if start.phase == ROWS {
      var ceiling := if start.ceiling != 0 then start.ceiling else Greatest(w.rows(from));
      call := call.(ceiling := ceiling);
      if ceiling != 0 {
        var out, till, log := SweepTable(w.rows, w.late, bounded, start.id, Some(ceiling), batchSize, rows, mid);
        call := call.(mid := till, till := till, rowLog := log, rowResume := out);
        mid := till;
        if out.Some? {
          token := Some(Cursor(ROWS, out.value, ceiling));
        } else if bounded {
          token := Some(Cursor(WARM, 0, 0));
        }
      }
    }
    call := call.(token := token);
    if token.None? && w.tiered {
      var after := if start.phase == WARM then start.id else 0;
      var out, till, log := SweepTable(w.warm, w.late, bounded, after, None, batchSize, rows, mid);
      token := if out.Some? then Some(Cursor(WARM, out.value, 0)) else None;
      call := call.(till := till, warmLog := log, token := token);
    }
    return Report(token), call;
  }

  method SweepTable(table: nat -> set<Key>, late: nat -> bool, bounded: bool, after: Key, ceiling: Option<Key>, page: int, rows: nat, from: nat)
    returns (resume: Option<Key>, till: nat, log: seq<Key>)
    requires page >= 1 && rows >= 1
    ensures Swept(table, after, ceiling, from, till, log, resume) && |log| <= rows && from < till
    ensures resume.Some? && !bounded ==> |log| == rows
    ensures bounded ==> forall t :: from <= t < till - 1 ==> !late(t)
  {
    hide Swept, PageOf, IsPage;
    TableSourcePages(table, ceiling, late, bounded);
    var source := TableSource(table, ceiling, late, bounded);
    var out, t, visited := Run(source, after, page, rows, from, table, ceiling);
    till, log := t, visited;
    assert bounded ==> forall t :: from <= t < till - 1 ==> late(t) == source.late(t);
    resume := if out.ResumeAfter? then Some(out.key) else None;
  }

  /** Every call that hands back a cursor is further on: in a later phase, or past a larger id. */
  lemma CallAdvances(w: World, bounded: bool, c: Call)
    requires Called(w, bounded, c) && c.token.Some? && c.start.phase in {ROWS, WARM}
    ensures c.token.value.phase > c.start.phase || (c.token.value.phase == c.start.phase && c.token.value.id > c.start.id)
    ensures c.rowLog != [] || c.warmLog != [] || c.token.value.phase > c.start.phase
  {
    hide Greatest;
  }

  // ------------------------------------------------------------------ a chain of calls

  ghost predicate Chained(w: World, calls: seq<Call>) {
    && calls != [] && calls[0].start == FRESH
    && (forall i :: 0 <= i < |calls| ==> Called(w, true, calls[i]))
    && (forall i :: 0 <= i < |calls| - 1 ==>
          calls[i].token.Some? && calls[i + 1].start == calls[i].token.value && calls[i].till <= calls[i + 1].from)
  }

  function RowLogs(calls: seq<Call>): seq<Key> {
    if calls == [] then [] else RowLogs(calls[..|calls| - 1]) + calls[|calls| - 1].rowLog
  }

  function WarmLogs(calls: seq<Call>): seq<Key> {
    if calls == [] then [] else WarmLogs(calls[..|calls| - 1]) + calls[|calls| - 1].warmLog
  }

  /** One sweep continued by another is one sweep. */
  lemma Joined(world: nat -> set<Key>, after: Key, ceiling: Option<Key>, a: nat, b: nat, log: seq<Key>, at: Key,
               c: nat, d: nat, more: seq<Key>, resume: Option<Key>)
    requires Swept(world, after, ceiling, a, b, log, Some(at)) && b <= c && Swept(world, at, ceiling, c, d, more, resume)
    ensures Swept(world, after, ceiling, a, d, log + more, resume)
  {
    assert at in log && after < at;
    forall k | k in log ensures k <= at {}
    assert Ascending(log + more);
    assert InRangeAll(log + more, after, ceiling);
    forall i | 0 <= i < |log + more| ensures SeenOnce(world, a, d, (log + more)[i]) {
      if i < |log| { assert SeenOnce(world, a, b, log[i]); } else { assert SeenOnce(world, c, d, more[i - |log|]); }
    }
    forall k: Key | Lasts(world, a, d, k) && InRange(k, after, ceiling) && (resume.Some? ==> k <= resume.value) ensures k in log + more {
      if k <= at { assert Lasts(world, a, b, k); } else { assert Lasts(world, c, d, k); }
    }
  }

  /** A sweep is also one over any longer stretch that it is a part of. */
  lemma Widened(world: nat -> set<Key>, after: Key, ceiling: Option<Key>, from: nat, till: nat, log: seq<Key>, resume: Option<Key>, a: nat, d: nat)
    requires Swept(world, after, ceiling, from, till, log, resume) && a <= from && till <= d
    ensures Swept(world, after, ceiling, a, d, log, resume)
  {
    forall i | 0 <= i < |log| ensures SeenOnce(world, a, d, log[i]) { assert SeenOnce(world, from, till, log[i]); }
    forall k: Key | Lasts(world, a, d, k) ensures Lasts(world, from, till, k) {}
  }

  /** How far a chain has come. */
  ghost predicate Progress(w: World, from: nat, till: nat, ceiling: Key, rowLog: seq<Key>, warmLog: seq<Key>, token: Option<Cursor>) {
    if token.Some? && token.value.phase == ROWS then
      && ceiling != 0 && token.value.ceiling == ceiling && warmLog == []
      && Swept(w.rows, 0, Some(ceiling), from, till, rowLog, Some(token.value.id))
    else
      && RowsDone(w, from, till, ceiling, rowLog)
      && if token.None? then WarmDone(w, from, till, warmLog)
         else
           && token.value.phase == WARM
           && if token.value.id == 0 then warmLog == [] else Swept(w.warm, 0, None, from, till, warmLog, Some(token.value.id))
  }

  ghost predicate RowsDone(w: World, from: nat, till: nat, ceiling: Key, rowLog: seq<Key>) {
    if ceiling == 0 then rowLog == [] else Swept(w.rows, 0, Some(ceiling), from, till, rowLog, None)
  }

  ghost predicate WarmDone(w: World, from: nat, till: nat, warmLog: seq<Key>) {
    if w.tiered then Swept(w.warm, 0, None, from, till, warmLog, None) else warmLog == []
  }

  lemma FirstCall(w: World, c: Call)
    requires Called(w, true, c) && c.start == FRESH
    ensures Progress(w, c.from, c.till, c.ceiling, c.rowLog, c.warmLog, c.token)
  {
    hide Greatest, Swept;
    if c.ceiling != 0 {
      Widened(w.rows, 0, Some(c.ceiling), c.from + 1, c.mid, c.rowLog, c.rowResume, c.from, c.till);
    } else {
      WarmCall(w, c, c.from, 0);
    }
  }

  lemma WarmCall(w: World, c: Call, from: nat, after: Key)
    requires WarmSwept(w, c, after) && from <= c.mid <= c.till
    ensures w.tiered ==> Swept(w.warm, after, None, from, c.till, c.warmLog, if c.token.None? then None else Some(c.token.value.id))
    ensures w.tiered && c.token.Some? ==> c.token.value.id != 0
  {
    if w.tiered {
      Widened(w.warm, after, None, c.mid, c.till, c.warmLog, if c.token.None? then None else Some(c.token.value.id), from, c.till);
    }
  }

  /** A call that resumes a chain carries it on. */
  lemma NextCall(w: World, from: nat, till: nat, ceiling: Key, rowLog: seq<Key>, warmLog: seq<Key>, c: Call)
    requires from <= till <= c.from && Called(w, true, c) && Progress(w, from, till, ceiling, rowLog, warmLog, Some(c.start))
    requires !w.tiered ==> warmLog == []
    ensures Progress(w, from, c.till, ceiling, rowLog + c.rowLog, warmLog + c.warmLog, c.token)
    ensures !w.tiered ==> warmLog + c.warmLog == []
  {
    hide Greatest, Swept;
    if c.start.phase == ROWS {
      Joined(w.rows, 0, Some(ceiling), from, till, rowLog, c.start.id, c.from + 1, c.mid, c.rowLog, c.rowResume);
    } else {
      assert rowLog + c.rowLog == rowLog;
      if ceiling != 0 { Widened(w.rows, 0, Some(ceiling), from, till, rowLog, None, from, c.till); }
      WarmCall(w, c, if c.start.id == 0 then from else c.mid, c.start.id);
      if c.start.id == 0 {
        assert warmLog + c.warmLog == c.warmLog;
      } else if w.tiered {
        var resume := if c.token.None? then None else Some(c.token.value.id);
        Joined(w.warm, 0, None, from, till, warmLog, c.start.id, c.mid, c.till, c.warmLog, resume);
      }
    }
  }

  lemma {:induction false} ChainProgress(w: World, calls: seq<Call>)
    requires Chained(w, calls)
    ensures var last := calls[|calls| - 1];
            && calls[0].from <= last.till && (!w.tiered ==> WarmLogs(calls) == [])
            && Progress(w, calls[0].from, last.till, calls[0].ceiling, RowLogs(calls), WarmLogs(calls), last.token)
  {
    hide Progress, Called;
    var n := |calls| - 1;
    var last := calls[n];
    CallTicks(w, last);
    if n == 0 {
      FirstCall(w, last);
      assert calls[..0] == [];
      assert [] + last.rowLog == last.rowLog && [] + last.warmLog == last.warmLog;
      if !w.tiered { WarmUntiered(w, last); }
    } else {
      ChainProgress(w, calls[..n]);
      NextCall(w, calls[0].from, calls[n - 1].till, calls[0].ceiling, RowLogs(calls[..n]), WarmLogs(calls[..n]), last);
    }
  }

  lemma CallTicks(w: World, c: Call)
    requires Called(w, true, c)
    ensures c.from < c.till
  {
  }

  lemma WarmUntiered(w: World, c: Call)
    requires Called(w, true, c) && !w.tiered
    ensures c.warmLog == []
  {
  }

  /** A finished chain of bounded calls. Whatever was inserted, deleted or edited between pages and
      between calls: ids were visited in strictly ascending order, so none twice; none is above the
      last id of when the run began; every row up to that id that existed throughout was visited; and
      the same holds of the warm tier's rows. */
  lemma ChainIsComplete(w: World, calls: seq<Call>)
    requires Chained(w, calls) && calls[|calls| - 1].token == None
    ensures Ascending(RowLogs(calls)) && Ascending(WarmLogs(calls))
    ensures calls[0].ceiling == Greatest(w.rows(calls[0].from)) && forall i :: 0 <= i < |RowLogs(calls)| ==> RowLogs(calls)[i] <= calls[0].ceiling
    ensures forall k: Key :: 0 < k <= calls[0].ceiling && Lasts(w.rows, calls[0].from, calls[|calls| - 1].till, k) ==> k in RowLogs(calls)
    ensures w.tiered ==> forall k: Key :: 0 < k && Lasts(w.warm, calls[0].from, calls[|calls| - 1].till, k) ==> k in WarmLogs(calls)
  {
    hide Greatest, RowLogs, WarmLogs;
    ChainProgress(w, calls);
    assert Called(w, true, calls[0]);
  }

  /** An unfinished chain has missed nothing before its cursor, and no run ends before the warm tier's turn. */
  lemma ChainSoFar(w: World, calls: seq<Call>)
    requires Chained(w, calls)
    ensures Ascending(RowLogs(calls)) && Ascending(WarmLogs(calls))
    ensures var last := calls[|calls| - 1];
            forall k: Key :: (0 < k <= calls[0].ceiling && Lasts(w.rows, calls[0].from, last.till, k)
                              && (last.token.Some? && last.token.value.phase == ROWS ==> k <= last.token.value.id)) ==>
                               k in RowLogs(calls)
  {
    hide Greatest, RowLogs, WarmLogs;
    ChainProgress(w, calls);
    assert Called(w, true, calls[0]);
  }

  /** A run that is not bounded goes through both tables in one call, warm tier included, up to the
      largest number of rows there can be. */
  lemma UnboundedIsComplete(w: World, c: Call)
    requires Called(w, false, c) && c.start == FRESH && c.token == None
    ensures Ascending(c.rowLog) && Ascending(c.warmLog)
    ensures c.ceiling == Greatest(w.rows(c.from)) && forall i :: 0 <= i < |c.rowLog| ==> c.rowLog[i] <= c.ceiling
    ensures forall k: Key :: 0 < k <= c.ceiling && Lasts(w.rows, c.from, c.till, k) ==> k in c.rowLog
    ensures w.tiered ==> forall k: Key :: 0 < k && Lasts(w.warm, c.from, c.till, k) ==> k in c.warmLog
  {
    hide Greatest;
    forall k: Key | Lasts(w.rows, c.from, c.till, k) ensures Lasts(w.rows, c.from + 1, c.mid, k) {}
    forall k: Key | Lasts(w.warm, c.from, c.till, k) ensures Lasts(w.warm, c.mid, c.till, k) {}
  }
}
