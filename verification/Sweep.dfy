/**
 Bounded work over rows paged by key, resumable by cursor, and the two-phase re-embed run on top of
 it. Keys are positive numbers; 0 is the empty key that comes before all of them. Rows come and go
 between any two fetches: `world(t)` is the table as the t-th fetch sees it.
 */
module Sweep {
  import opened Prelude

  type Key = nat

  datatype Source = Source(fetch: (nat, Key, nat) -> seq<Key>, consume: (nat, seq<Key>) -> int, late: nat -> bool)

  datatype Outcome = ResumeAfter(key: Key) | Exhausted | BadBudget | BadPage | BadVisit

  ghost predicate Ascending(s: seq<Key>) {
    forall i, j :: 0 <= i < j < |s| ==> s[i] < s[j]
  }

  predicate InRange(k: Key, after: Key, ceiling: Option<Key>) {
    after < k && (ceiling.Some? ==> k <= ceiling.value)
  }

  // ------------------------------------------------------------------ a page of a keyed table

  function Least(s: set<Key>): (k: Key)
    requires s != {}
    ensures k in s && forall x :: x in s ==> k <= x
  {
    assert exists k :: k in s && forall x :: x in s ==> k <= x by { var k := LeastExists(s); }
    var k :| k in s && forall x :: x in s ==> k <= x;
    k
  }

  lemma {:induction false} LeastExists(s: set<Key>) returns (k: Key)
    requires s != {}
    ensures k in s && forall x :: x in s ==> k <= x
  {
    var any :| any in s;
    var rest := s - {any};
    assert s == rest + {any};
    if rest == {} {
      k := any;
    } else {
      var least := LeastExists(rest);
      k := if least < any then least else any;
    }
  }

  /** ORDER BY id LIMIT: the first `limit` keys after `after`, up to the ceiling. */
  function PageOf(table: set<Key>, after: Key, ceiling: Option<Key>, limit: nat): seq<Key>
    decreases limit
  {
    var ahead := set k | k in table && InRange(k, after, ceiling);
    if limit == 0 || ahead == {} then []
    else [Least(ahead)] + PageOf(table, Least(ahead), ceiling, limit - 1)
  }

  /** What a page is: an ascending run of the table's keys with no gap, short only at the end. */
  ghost predicate IsPage(page: seq<Key>, table: set<Key>, after: Key, ceiling: Option<Key>, limit: nat) {
    && |page| <= limit && Ascending(page)
    && (forall i :: 0 <= i < |page| ==> page[i] in table && InRange(page[i], after, ceiling))
    && (forall k :: k in table && InRange(k, after, ceiling) ==> k in page || (|page| == limit && (limit > 0 ==> k > page[limit - 1])))
  }

  lemma {:induction false} PageOfIsPage(table: set<Key>, after: Key, ceiling: Option<Key>, limit: nat)
    ensures IsPage(PageOf(table, after, ceiling, limit), table, after, ceiling, limit)
    decreases limit
  {
    var ahead := set k | k in table && InRange(k, after, ceiling);
    if limit > 0 && ahead != {} {
      var first := Least(ahead);
      forall k | k in table && InRange(k, after, ceiling) ensures first <= k { assert k in ahead; }
      PageOfIsPage(table, first, ceiling, limit - 1);
      FirstExtends(table, after, ceiling, limit, first, PageOf(table, first, ceiling, limit - 1));
    } else {
      assert forall k :: k in table && InRange(k, after, ceiling) ==> k in ahead;
    }
  }

  lemma FirstExtends(table: set<Key>, after: Key, ceiling: Option<Key>, limit: nat, first: Key, rest: seq<Key>)
    requires limit > 0 && first in table && InRange(first, after, ceiling) && IsPage(rest, table, first, ceiling, limit - 1)
    requires forall k :: k in table && InRange(k, after, ceiling) ==> first <= k
    ensures IsPage([first] + rest, table, after, ceiling, limit)
  {
    var page := [first] + rest;
    forall k | k in table && InRange(k, after, ceiling) ensures k in page || (|page| == limit && k > page[limit - 1]) {
      if k == first { assert page[0] == k; }
    }
  }

  // ------------------------------------------------------------------ the sweep

  /** What one sweep did: the keys it visited, at fetches `from` up to `till`. */
  ghost predicate Swept(world: nat -> set<Key>, after: Key, ceiling: Option<Key>, from: nat, till: nat,
                        log: seq<Key>, resume: Option<Key>)
  {
    && from <= till && Ascending(log) && Seen(world, from, till, log) && InRangeAll(log, after, ceiling)
    && (resume.Some? ==> log != [] && resume.value == log[|log| - 1])
    && (resume.None? ==> from < till)
    && forall k: Key :: Lasts(world, from, till, k) && InRange(k, after, ceiling) && (resume.Some? ==> k <= resume.value) ==> k in log
  }

  ghost predicate Seen(world: nat -> set<Key>, from: nat, till: nat, log: seq<Key>) {
    forall i :: 0 <= i < |log| ==> SeenOnce(world, from, till, log[i])
  }

  ghost predicate SeenOnce(world: nat -> set<Key>, from: nat, till: nat, k: Key) {
    exists t: nat :: from <= t < till && k in world(t)
  }

  ghost predicate InRangeAll(log: seq<Key>, after: Key, ceiling: Option<Key>) {
    forall i :: 0 <= i < |log| ==> InRange(log[i], after, ceiling)
  }

  /** `k` is in the table at every fetch from `from` up to `till`. */
  ghost predicate Lasts(world: nat -> set<Key>, from: nat, till: nat, k: Key) {
    forall t: nat :: from <= t < till ==> k in world(t)
  }

  /** The source pages by key, and a visit consumes at least the first row. */
  ghost predicate Pages(source: Source, world: nat -> set<Key>, ceiling: Option<Key>) {
    && (forall t, after, limit :: IsPage(source.fetch(t, after, limit), world(t), after, ceiling, limit))
    && (forall t, batch :: batch != [] ==> 1 <= source.consume(t, batch) <= |batch|)
  }

  /** The sweep so far: nothing yet, or a run that could resume at `cursor`. */
  ghost predicate SoFar(world: nat -> set<Key>, after: Key, ceiling: Option<Key>, from: nat, till: nat, log: seq<Key>, cursor: Key) {
    if log == [] then cursor == after && till == from else Swept(world, after, ceiling, from, till, log, Some(cursor))
  }

  lemma PageFits(source: Source, world: nat -> set<Key>, ceiling: Option<Key>, t: nat, cursor: Key, limit: nat)
    requires Pages(source, world, ceiling)
    ensures IsPage(source.fetch(t, cursor, limit), world(t), cursor, ceiling, limit)
    ensures |source.fetch(t, cursor, limit)| <= limit
    ensures source.fetch(t, cursor, limit) != [] ==>
              1 <= source.consume(t, source.fetch(t, cursor, limit)) <= |source.fetch(t, cursor, limit)|
  {
  }

  /** One page more: the rows consumed of it extend the run, and if it was short they end it. */
  lemma PageExtends(world: nat -> set<Key>, after: Key, ceiling: Option<Key>, from: nat, t: nat,
                    log: seq<Key>, cursor: Key, batch: seq<Key>, limit: nat, consumed: nat)
    requires SoFar(world, after, ceiling, from, t, log, cursor) && IsPage(batch, world(t), cursor, ceiling, limit)
    requires 1 <= consumed <= |batch|
    ensures Swept(world, after, ceiling, from, t + 1, log + batch[..consumed], Some(batch[consumed - 1]))
    ensures consumed == |batch| < limit ==> Swept(world, after, ceiling, from, t + 1, log + batch[..consumed], None)
  {
    var taken := batch[..consumed];
    assert log != [] ==> cursor in log && after < cursor;
    SeenMore(world, from, t, log, taken);
    forall k | Lasts(world, from, t + 1, k) && InRange(k, after, ceiling) && (k <= batch[consumed - 1] || consumed == |batch| < limit)
      ensures k in log + taken
    {
      KeyTaken(world, after, ceiling, from, t, log, cursor, batch, limit, consumed, k);
    }
    hide Lasts, IsPage;
    assert Ascending(log + taken) by {
      forall x | x in log ensures x <= cursor {}
    }
    assert InRangeAll(log + taken, after, ceiling);
  }

  lemma SeenMore(world: nat -> set<Key>, from: nat, t: nat, log: seq<Key>, taken: seq<Key>)
    requires from <= t && Seen(world, from, t, log) && forall i :: 0 <= i < |taken| ==> taken[i] in world(t)
    ensures Seen(world, from, t + 1, log + taken)
  {
    forall i | 0 <= i < |log + taken| ensures SeenOnce(world, from, t + 1, (log + taken)[i]) {
      if i < |log| {
        assert SeenOnce(world, from, t, log[i]);
      } else {
        assert taken[i - |log|] in world(t);
      }
    }
  }

  lemma KeyTaken(world: nat -> set<Key>, after: Key, ceiling: Option<Key>, from: nat, t: nat,
                 log: seq<Key>, cursor: Key, batch: seq<Key>, limit: nat, consumed: nat, k: Key)
    requires SoFar(world, after, ceiling, from, t, log, cursor) && IsPage(batch, world(t), cursor, ceiling, limit)
    requires 1 <= consumed <= |batch| && Lasts(world, from, t + 1, k) && InRange(k, after, ceiling)
    requires k <= batch[consumed - 1] || consumed == |batch| < limit
    ensures k in log + batch[..consumed]
  {
    if k > cursor {
      assert k in world(t);
      assert k in batch;
      var i :| 0 <= i < |batch| && batch[i] == k;
      assert i < consumed;
      assert batch[..consumed][i] == k;
    } else {
      assert Lasts(world, from, t, k);
    }
  }

  /** An empty page ends the run where it stands. */
  lemma EmptyPageEnds(world: nat -> set<Key>, after: Key, ceiling: Option<Key>, from: nat, t: nat,
                      log: seq<Key>, cursor: Key, limit: nat)
    requires SoFar(world, after, ceiling, from, t, log, cursor) && IsPage([], world(t), cursor, ceiling, limit) && limit > 0
    ensures Swept(world, after, ceiling, from, t + 1, log, None)
  {
    SeenMore(world, from, t, log, []);
    assert log + [] == log;
    forall k | Lasts(world, from, t + 1, k) && InRange(k, after, ceiling) ensures k in log {
      assert k in world(t);
      assert Lasts(world, from, t, k);
    }
  }

  /** The page of the `t`-th fetch, asked for behind the rows visited before it. */
  function PageBehind(source: Source, after: Key, page: int, rows: int, t: nat, before: seq<Key>): seq<Key>
    requires page >= 1 && |before| < rows
  {
    source.fetch(t, if before == [] then after else before[|before| - 1], Min(page, rows - |before|))
  }

  /** The page of the last fetch, the `t`-th, was consumed in part: its first rows are the last visited. */
  ghost predicate CutShort(source: Source, after: Key, page: int, rows: int, t: nat, log: seq<Key>) {
    page >= 1 && exists n: nat :: n < |log| && n < rows && CutAt(source, after, page, rows, t, log, n)
  }

  ghost predicate CutAt(source: Source, after: Key, page: int, rows: int, t: nat, log: seq<Key>, n: nat)
    requires page >= 1 && n < |log| && n < rows
  {
    var batch := PageBehind(source, after, page, rows, t, log[..n]);
    source.consume(t, batch) == |log| - n < |batch| && log[n..] == batch[..|log| - n]
  }

  // ------------------------------------------------------------------ what any run is, page by page

  /** Where page `i` begins in the log; `ends` says where each ends. */
  function Begin(ends: seq<nat>, i: nat): nat
    requires i <= |ends|
  {
    if i == 0 then 0 else ends[i - 1]
  }

  /** Page `i` was asked for behind the rows before it, was no longer than asked for, and the rows that
      its visit consumed, at least one, are the next in the log. */
  ghost predicate VisitAt(source: Source, after: Key, page: int, rows: int, from: nat, log: seq<Key>, ends: seq<nat>, i: nat)
    requires i < |ends|
  {
    var a, b := Begin(ends, i), ends[i];
    page >= 1 && a < b <= |log| && a < rows
    && var batch := PageBehind(source, after, page, rows, from + i, log[..a]);
       source.consume(from + i, batch) == b - a <= |batch| <= Min(page, rows - a) && log[a..b] == batch[..b - a]
  }

  /** It was consumed whole, was as long as asked for, ended before the deadline, and rows are left. */
  ghost predicate GoesOnAt(source: Source, page: int, rows: int, from: nat, ends: seq<nat>, i: nat)
    requires i < |ends|
  {
    ends[i] - Begin(ends, i) == Min(page, rows - Begin(ends, i)) && ends[i] < rows && !source.late(from + i)
  }

  /** It was consumed whole, and shorter than asked for. */
  ghost predicate ShortAt(source: Source, after: Key, page: int, rows: int, from: nat, log: seq<Key>, ends: seq<nat>, i: nat)
    requires i < |ends|
  {
    var a, b := Begin(ends, i), ends[i];
    page >= 1 && a < b <= |log| && a < rows
    && b - a == |PageBehind(source, after, page, rows, from + i, log[..a])| < Min(page, rows - a)
  }

  ghost predicate Trail(source: Source, after: Key, page: int, rows: int, from: nat, log: seq<Key>, ends: seq<nat>) {
    && (forall i :: 0 <= i < |ends| ==> VisitAt(source, after, page, rows, from, log, ends, i))
    && (forall i :: 0 <= i < |ends| - 1 ==> GoesOnAt(source, page, rows, from, ends, i))
    && |log| == Begin(ends, |ends|)
  }

  /** How a run that visited these pages ends: right after its last page, because that was short, was cut,
      was late or was the last of the budget; or at one more fetch, because of what that returned. */
  ghost predicate Finishes(source: Source, after: Key, page: int, rows: int, from: nat, till: nat, log: seq<Key>, ends: seq<nat>, out: Outcome) {
    var n := |ends|;
    if till == from + n then
      n > 0 && !GoesOnAt(source, page, rows, from, ends, n - 1)
      && if ShortAt(source, after, page, rows, from, log, ends, n - 1) then out == Exhausted
         else log != [] && out == ResumeAfter(log[|log| - 1])
    else
      till == from + n + 1 && page >= 1 && |log| < rows && (n > 0 ==> GoesOnAt(source, page, rows, from, ends, n - 1))
      && var batch := PageBehind(source, after, page, rows, from + n, log);
         if batch == [] then out == Exhausted
         else if |batch| > Min(page, rows - |log|) then out == BadPage
         else !(1 <= source.consume(from + n, batch) <= |batch|) && out == BadVisit
  }

  ghost predicate Runs(source: Source, after: Key, page: int, rows: int, from: nat, till: nat, log: seq<Key>, out: Outcome, ends: seq<nat>) {
    Trail(source, after, page, rows, from, log, ends) && Finishes(source, after, page, rows, from, till, log, ends, out)
  }

  /** One page more. */
  lemma TrailGrows(source: Source, after: Key, page: int, rows: int, from: nat, log: seq<Key>, ends: seq<nat>, batch: seq<Key>, consumed: nat)
    requires Trail(source, after, page, rows, from, log, ends) && page >= 1 && |log| < rows
    requires ends != [] ==> GoesOnAt(source, page, rows, from, ends, |ends| - 1)
    requires batch == PageBehind(source, after, page, rows, from + |ends|, log) && consumed == source.consume(from + |ends|, batch)
    requires 1 <= consumed <= |batch| <= Min(page, rows - |log|)
    ensures var more, longer := log + batch[..consumed], ends + [|log| + consumed];
            && Trail(source, after, page, rows, from, more, longer)
            && (ShortAt(source, after, page, rows, from, more, longer, |ends|) <==> consumed == |batch| < Min(page, rows - |log|))
            && (GoesOnAt(source, page, rows, from, longer, |ends|) <==>
                  consumed == Min(page, rows - |log|) && |log| + consumed < rows && !source.late(from + |ends|))
  {
    hide PageBehind;
    var n := |ends|;
    var more, longer := log + batch[..consumed], ends + [|log| + consumed];
    assert more[..|log|] == log;
    forall i | 0 <= i < n ensures VisitAt(source, after, page, rows, from, more, longer, i) {
      assert VisitAt(source, after, page, rows, from, log, ends, i);
      VisitStays(source, after, page, rows, from, log, ends, more, longer, i);
    }
    assert VisitAt(source, after, page, rows, from, more, longer, n);
    forall i | 0 <= i < n ensures GoesOnAt(source, page, rows, from, longer, i) {
      assert GoesOnAt(source, page, rows, from, ends, i);
    }
  }

  lemma VisitStays(source: Source, after: Key, page: int, rows: int, from: nat, log: seq<Key>, ends: seq<nat>, more: seq<Key>, longer: seq<nat>, i: nat)
    requires i < |ends| && ends <= longer && log <= more && VisitAt(source, after, page, rows, from, log, ends, i)
    ensures VisitAt(source, after, page, rows, from, more, longer, i)
  {
    hide PageBehind;
    var a, b := Begin(ends, i), ends[i];
    assert Begin(longer, i) == a && longer[i] == b;
    assert more[..a] == log[..a] && more[a..b] == log[a..b];
  }

  /** A run does not look at another page after one that was consumed in part or ended past the deadline. */
  lemma StopsInTime(source: Source, after: Key, page: int, rows: int, from: nat, till: nat, log: seq<Key>, out: Outcome, ends: seq<nat>)
    requires Runs(source, after, page, rows, from, till, log, out, ends)
    ensures forall t :: from <= t < till - 1 ==> !source.late(t)
  {
    hide VisitAt, ShortAt, PageBehind;
    forall t | from <= t < till - 1 ensures !source.late(t) {
      assert GoesOnAt(source, page, rows, from, ends, t - from);
    }
  }

  /** What a run visits and how it ends are determined by its source and its budgets. */
  lemma OneRun(source: Source, after: Key, page: int, rows: int, from: nat, till: nat, log: seq<Key>, out: Outcome, ends: seq<nat>,
               till': nat, log': seq<Key>, out': Outcome, ends': seq<nat>)
    requires Runs(source, after, page, rows, from, till, log, out, ends)
    requires Runs(source, after, page, rows, from, till', log', out', ends')
    ensures till' == till && log' == log && out' == out
  {
    hide PageBehind, VisitAt, ShortAt;
    var n := if |ends| <= |ends'| then |ends| else |ends'|;
    SamePages(source, after, page, rows, from, log, ends, log', ends', n);
    EndOfTrail(source, after, page, rows, from, log, ends);
    EndOfTrail(source, after, page, rows, from, log', ends');
    assert ends[..|ends|] == ends && ends'[..|ends'|] == ends' && log[..|log|] == log && log'[..|log'|] == log';
    hide Trail, Finishes, GoesOnAt;
    if |ends| < |ends'| {
      PageAfterEnd(source, after, page, rows, from, log, ends, log', ends');
      NoEndHere(source, after, page, rows, from, till, log, ends, out);
    } else if |ends'| < |ends| {
      PageAfterEnd(source, after, page, rows, from, log', ends', log, ends);
      NoEndHere(source, after, page, rows, from, till', log', ends', out');
    } else {
      SameEnd(source, after, page, rows, from, till, log, out, ends, till', out');
    }
  }

  lemma EndOfTrail(source: Source, after: Key, page: int, rows: int, from: nat, log: seq<Key>, ends: seq<nat>)
    requires Trail(source, after, page, rows, from, log, ends)
    ensures |log| == Begin(ends, |ends|)
  {
  }

  lemma SameEnd(source: Source, after: Key, page: int, rows: int, from: nat, till: nat, log: seq<Key>, out: Outcome, ends: seq<nat>,
                till': nat, out': Outcome)
    requires Finishes(source, after, page, rows, from, till, log, ends, out) && Finishes(source, after, page, rows, from, till', log, ends, out')
    ensures till == till' && out == out'
  {
    hide PageBehind, ShortAt, GoesOnAt;
  }

  lemma {:induction false} SamePages(source: Source, after: Key, page: int, rows: int, from: nat, log: seq<Key>, ends: seq<nat>,
                                     log': seq<Key>, ends': seq<nat>, n: nat)
    requires Trail(source, after, page, rows, from, log, ends) && Trail(source, after, page, rows, from, log', ends')
    requires n <= |ends| && n <= |ends'|
    ensures ends[..n] == ends'[..n] && Begin(ends, n) <= |log| && Begin(ends', n) <= |log'|
    ensures Begin(ends, n) == Begin(ends', n) && log[..Begin(ends, n)] == log'[..Begin(ends, n)]
  {
    hide PageBehind, GoesOnAt;
    if n > 0 {
      SamePages(source, after, page, rows, from, log, ends, log', ends', n - 1);
      assert VisitAt(source, after, page, rows, from, log, ends, n - 1) && VisitAt(source, after, page, rows, from, log', ends', n - 1);
      var a, b := Begin(ends, n - 1), ends[n - 1];
      assert log[..b] == log[..a] + log[a..b] && log'[..b] == log'[..a] + log'[a..b];
      assert ends[..n] == ends[..n - 1] + [b] && ends'[..n] == ends'[..n - 1] + [b];
    }
  }

  /** Where one run has visited fewer pages than another, there was a page to visit. */
  lemma PageAfterEnd(source: Source, after: Key, page: int, rows: int, from: nat, log: seq<Key>, ends: seq<nat>, log': seq<Key>, ends': seq<nat>)
    requires Trail(source, after, page, rows, from, log, ends) && Trail(source, after, page, rows, from, log', ends')
    requires |ends| < |ends'| && |log| <= |log'| && log == log'[..|log|] && ends'[..|ends|] == ends
    ensures ToVisit(source, after, page, rows, from, log, ends)
  {
    hide PageBehind;
    var n := |ends|;
    assert Begin(ends', n) == |log| by { assert n > 0 ==> ends'[..n][n - 1] == ends'[n - 1]; }
    assert VisitAt(source, after, page, rows, from, log', ends', n);
    if n > 0 {
      assert GoesOnAt(source, page, rows, from, ends', n - 1);
      assert ends'[..n][n - 1] == ends'[n - 1] && (n > 1 ==> ends'[..n][n - 2] == ends'[n - 2]);
    }
  }

  ghost predicate ToVisit(source: Source, after: Key, page: int, rows: int, from: nat, log: seq<Key>, ends: seq<nat>) {
    page >= 1 && |log| < rows && (ends != [] ==> GoesOnAt(source, page, rows, from, ends, |ends| - 1))
    && var batch := PageBehind(source, after, page, rows, from + |ends|, log);
       1 <= source.consume(from + |ends|, batch) <= |batch| <= Min(page, rows - |log|)
  }

  lemma NoEndHere(source: Source, after: Key, page: int, rows: int, from: nat, till: nat, log: seq<Key>, ends: seq<nat>, out: Outcome)
    requires ToVisit(source, after, page, rows, from, log, ends)
    ensures !Finishes(source, after, page, rows, from, till, log, ends, out)
  {
    hide PageBehind;
  }

  // ------------------------------------------------------------------ the loop

  /** Where the run stands; over a keyed table, it is a sweep that could resume at `cursor`. */
  ghost predicate Stands(source: Source, world: nat -> set<Key>, after: Key, ceiling: Option<Key>, from: nat, till: nat,
                         log: seq<Key>, cursor: Key)
  {
    cursor == (if log == [] then after else log[|log| - 1])
    && (Pages(source, world, ceiling) ==> SoFar(world, after, ceiling, from, till, log, cursor))
  }

  /** The run is over; over a keyed table, it is a sweep to the end. */
  ghost predicate Ends(source: Source, world: nat -> set<Key>, after: Key, ceiling: Option<Key>, from: nat, till: nat, log: seq<Key>) {
    Pages(source, world, ceiling) ==> Swept(world, after, ceiling, from, till, log, None)
  }

  lemma StandsAtStart(source: Source, world: nat -> set<Key>, after: Key, ceiling: Option<Key>, from: nat)
    ensures Stands(source, world, after, ceiling, from, from, [], after)
  {
  }

  lemma StopsThere(source: Source, world: nat -> set<Key>, after: Key, ceiling: Option<Key>, from: nat, till: nat, log: seq<Key>, cursor: Key)
    requires Stands(source, world, after, ceiling, from, till, log, cursor) && log != []
    ensures cursor == log[|log| - 1]
    ensures Pages(source, world, ceiling) ==> Swept(world, after, ceiling, from, till, log, Some(cursor))
  {
  }

  /** What a page is if the source pages by key; an empty one ends the run. */
  lemma PageRead(source: Source, after: Key, world: nat -> set<Key>, ceiling: Option<Key>, from: nat, t: nat,
                 log: seq<Key>, cursor: Key, limit: nat)
    requires limit > 0 && Stands(source, world, after, ceiling, from, t, log, cursor)
    ensures var batch := source.fetch(t, cursor, limit);
            && (Pages(source, world, ceiling) ==> |batch| <= limit && (batch != [] ==> 1 <= source.consume(t, batch) <= |batch|))
            && (batch == [] ==> Ends(source, world, after, ceiling, from, t + 1, log))
  {
    hide IsPage, Swept, Pages;
    if Pages(source, world, ceiling) {
      PageFits(source, world, ceiling, t, cursor, limit);
      if source.fetch(t, cursor, limit) == [] { EmptyPageEnds(world, after, ceiling, from, t, log, cursor, limit); }
    }
  }

  /** What a visited page adds to the run, whatever the source does and if it pages by key. */
  lemma PageVisited(source: Source, after: Key, page: int, rows: int, world: nat -> set<Key>, ceiling: Option<Key>,
                    from: nat, t: nat, log: seq<Key>, cursor: Key, batch: seq<Key>, consumed: nat)
    requires page >= 1 && |log| < rows && Stands(source, world, after, ceiling, from, t, log, cursor)
    requires batch == source.fetch(t, cursor, Min(page, rows - |log|)) && consumed == source.consume(t, batch) && 1 <= consumed <= |batch|
    ensures var more := log + batch[..consumed];
            && |more| == |log| + consumed
            && (consumed < |batch| ==> CutShort(source, after, page, rows, t, more))
            && Stands(source, world, after, ceiling, from, t + 1, more, batch[consumed - 1])
            && (consumed == |batch| < Min(page, rows - |log|) ==> Ends(source, world, after, ceiling, from, t + 1, more))
  {
    hide IsPage, Swept, Pages;
    var limit: nat := Min(page, rows - |log|);
    var more := log + batch[..consumed];
    if Pages(source, world, ceiling) {
      PageFits(source, world, ceiling, t, cursor, limit);
      PageExtends(world, after, ceiling, from, t, log, cursor, batch, limit, consumed);
    }
    if consumed < |batch| {
      hide SoFar;
      assert more[..|log|] == log && more[|log|..] == batch[..consumed];
      assert CutAt(source, after, page, rows, t, more, |log|);
    }
  }

  /** Visits pages until the row budget or the deadline is spent. Whatever the source does, at most
      `rows` keys are visited, and at least one unless the source is exhausted at once; the sweep
      resumes after the last. Over a keyed table that other writers change between fetches, it visits
      ascending keys, and misses no key that stays in the table and lies before where it stopped. */
  method Run(source: Source, after: Key, page: int, rows: int, from: nat, ghost world: nat -> set<Key>, ghost ceiling: Option<Key>)
    returns (out: Outcome, till: nat, log: seq<Key>)
    ensures out.BadBudget? <==> page < 1 || rows < 1
    ensures out.BadBudget? ==> log == [] && till == from
    ensures !out.BadBudget? ==> |log| <= rows && from < till
    ensures !out.BadBudget? ==> exists ends: seq<nat> :: Runs(source, after, page, rows, from, till, log, out, ends)
    ensures forall t :: from <= t < till - 1 ==> !source.late(t)
    ensures out.ResumeAfter? ==> log != [] && out.key == log[|log| - 1]
    ensures out.ResumeAfter? && |log| < rows ==> source.late(till - 1) || CutShort(source, after, page, rows, till - 1, log)
    ensures Pages(source, world, ceiling) ==> !out.BadPage? && !out.BadVisit?
    ensures Pages(source, world, ceiling) && out.ResumeAfter? ==> Swept(world, after, ceiling, from, till, log, Some(out.key))
    ensures out.Exhausted? ==> Ends(source, world, after, ceiling, from, till, log)
  {
    log, till := [], from;
    if page < 1 || rows < 1 { return BadBudget, till, log; }
    ghost var ends: seq<nat>;
    out, till, log, ends := RunPages(source, after, page, rows, from, world, ceiling);
    hide Runs, CutShort, Pages, Ends, Swept;
    StopsInTime(source, after, page, rows, from, till, log, out, ends);
  }

  /** The loop, for positive budgets; `ends` says where its pages end. */
  method RunPages(source: Source, after: Key, page: int, rows: int, from: nat, ghost world: nat -> set<Key>, ghost ceiling: Option<Key>)
    returns (out: Outcome, till: nat, log: seq<Key>, ghost ends: seq<nat>)
    requires page >= 1 && rows >= 1
    ensures Runs(source, after, page, rows, from, till, log, out, ends)
    ensures !out.BadBudget? && |log| <= rows && from < till
    ensures out.ResumeAfter? ==> log != [] && out.key == log[|log| - 1]
    ensures out.ResumeAfter? && |log| < rows ==> source.late(till - 1) || CutShort(source, after, page, rows, till - 1, log)
    ensures Pages(source, world, ceiling) ==> !out.BadPage? && !out.BadVisit?
    ensures Pages(source, world, ceiling) && out.ResumeAfter? ==> Swept(world, after, ceiling, from, till, log, Some(out.key))
    ensures out.Exhausted? ==> Ends(source, world, after, ceiling, from, till, log)
  {
    hide Swept, CutShort, Pages, Stands, Ends, Trail, GoesOnAt, ShortAt, PageBehind;
    log, till, ends := [], from, [];
    var cursor := after;
    var going := true;
    StandsAtStart(source, world, after, ceiling, from);
    NoPages(source, after, page, rows, from);
    while |log| < rows && going
      invariant |log| <= rows && from <= till && (log == [] ==> going) && (log != [] ==> from < till)
      invariant Stands(source, world, after, ceiling, from, till, log, cursor)
      invariant Trail(source, after, page, rows, from, log, ends) && till == from + |ends|
      invariant ends != [] ==> log != [] && !ShortAt(source, after, page, rows, from, log, ends, |ends| - 1)
      invariant ends != [] ==> (GoesOnAt(source, page, rows, from, ends, |ends| - 1) <==> |log| < rows && going)
      invariant !going ==> source.late(till - 1) || CutShort(source, after, page, rows, till - 1, log)
      decreases rows - |log|
    {
      var limit: nat := Min(page, rows - |log|);
      var batch := source.fetch(till, cursor, limit);
      PageRead(source, after, world, ceiling, from, till, log, cursor, limit);
      FetchedBehind(source, world, after, ceiling, page, rows, from, till, log, cursor);
      till := till + 1;
      if batch == [] { return Exhausted, till, log, ends; }
      if |batch| > limit { return BadPage, till, log, ends; }
      var consumed := source.consume(till - 1, batch);
      if !(1 <= consumed <= |batch|) { return BadVisit, till, log, ends; }
      PageVisited(source, after, page, rows, world, ceiling, from, till - 1, log, cursor, batch, consumed);
      TrailGrows(source, after, page, rows, from, log, ends, batch, consumed);
      ends := ends + [|log| + consumed];
      log := log + batch[..consumed];
      cursor := batch[consumed - 1];
      if consumed == |batch| < limit { return Exhausted, till, log, ends; }
      going := !(consumed < |batch| || source.late(till - 1));
    }
    StopsThere(source, world, after, ceiling, from, till, log, cursor);
    return ResumeAfter(cursor), till, log, ends;
  }

  lemma NoPages(source: Source, after: Key, page: int, rows: int, from: nat)
    ensures Trail(source, after, page, rows, from, [], [])
  {
  }

  lemma FetchedBehind(source: Source, world: nat -> set<Key>, after: Key, ceiling: Option<Key>, page: int, rows: int, from: nat, t: nat,
                      log: seq<Key>, cursor: Key)
    requires Stands(source, world, after, ceiling, from, t, log, cursor) && page >= 1 && |log| < rows
    ensures source.fetch(t, cursor, Min(page, rows - |log|)) == PageBehind(source, after, page, rows, t, log)
  {
    hide Pages, SoFar;
  }
}
