/**
 Paid batches, crash-safe: an intent is written to disk before each submission and resolved after it,
 and a run that finds an unresolved intent stops. The process may die between any two persisted writes
 or calls to the server. Batch mode only; the batch log on disk is replaced as a whole on every save.
 */
module BatchProtocol {
  import opened Prelude
  import opened BatchLog

  type BatchId = nat
  type Nonce = nat

  datatype Role = Answer | Judge
  datatype Status = Submitting | Running | Terminal

  /** A row of the batch log. `ids` are the requests it stands for and `nonce` the submission it records. */
  datatype Row = Row(id: Option<BatchId>, role: Role, status: Status, ids: set<Req>, nonce: Nonce)

  /** A batch as the server has it; a terminal one never runs again. */
  datatype Batch = Batch(ids: set<Req>, nonce: Nonce, terminal: bool)

  /** Where the process is: not running; polling what an earlier run left; about to build a round;
      submitting a round's remaining requests; between the intent and the server's answer; between the
      answer and its record; polling the round; inside one poll pass, with its copy of the rows. */
  datatype Stage =
    | Down
    | Picking(role: Role)
    | Building
    | SubmittingRound(role: Role, todo: seq<Req>, chunk: nat)
    | Posting(role: Role, part: set<Req>, todo: seq<Req>, chunk: nat, nonce: Nonce)
    | Posted(role: Role, part: set<Req>, todo: seq<Req>, chunk: nat, nonce: Nonce, bid: BatchId)
    | Polling(role: Role)
    | Passing(role: Role, picking: bool, view: seq<Row>)

  datatype World = World(rows: seq<Row>, server: map<BatchId, Batch>, used: set<Nonce>, file: File, stage: Stage)

  datatype Resolution = Leave | Adopt(bid: BatchId) | Abandon

  /** What becomes of a POST: created and answered, created with the answer lost, or not created. */
  datatype Outcome = Created(bid: BatchId, terminal: bool) | CreatedUnseen(bid: BatchId, terminal: bool) | NotCreated

  datatype Step =
    | Start(resolution: Resolution)
    | BeginPass
    | Fetch(i: nat, replies: seq<Reply>, killed: Option<Cut>)
    | EndPass
    | BuildRound(role: Role, ids: seq<Req>, chunk: nat)
    | SaveIntent(nonce: Nonce)
    | Post(outcome: Outcome)
    | SaveSubmitted
    | ServerFinishes(bid: BatchId)
    | Crash

  predicate Live(row: Row) { row.status != Terminal }

  function Uncertain(rows: seq<Row>): seq<nat> {
    if rows == [] then []
    else Uncertain(rows[..|rows| - 1]) + (if rows[|rows| - 1].status == Submitting then [|rows| - 1] else [])
  }

  function Settled(rows: seq<Row>): seq<Row> {
    if rows == [] then []
    else Settled(rows[..|rows| - 1]) + (if rows[|rows| - 1].status == Submitting then [] else [rows[|rows| - 1]])
  }

  /** --adopt and --abandon-uncertain need exactly one unresolved intent. */
  function Resolve(rows: seq<Row>, resolution: Resolution): Option<seq<Row>> {
    if resolution == Leave then Some(rows)
    else if |Uncertain(rows)| != 1 || Uncertain(rows)[0] >= |rows| then None
    else
      var i := Uncertain(rows)[0];
      var others := rows[..i] + rows[i + 1..];
      Some(if resolution.Adopt? then others + [rows[i].(id := Some(resolution.bid), status := Running)] else others)
  }

  /** The caller tells the truth about the uncertain submission. */
  ghost predicate Truthful(w: World, resolution: Resolution) {
    resolution != Leave && |Uncertain(w.rows)| == 1 && Uncertain(w.rows)[0] < |w.rows| ==>
      var row := w.rows[Uncertain(w.rows)[0]];
      if resolution.Adopt? then resolution.bid in w.server && w.server[resolution.bid].nonce == row.nonce
      else forall bid :: bid in w.server ==> w.server[bid].nonce != row.nonce
  }

  function Head(todo: seq<Req>, chunk: nat): seq<Req> { if chunk <= |todo| then todo[..chunk] else todo }

  function Rest(todo: seq<Req>, chunk: nat): seq<Req> { if chunk <= |todo| then todo[chunk..] else [] }

  function Ids(s: seq<Req>): set<Req> { set x | x in s }

  ghost predicate HasOpen(rows: seq<Row>, role: Role) {
    exists i :: 0 <= i < |rows| && rows[i].role == role && rows[i].status == Running
  }

  ghost predicate Next(w: World, w': World, step: Step) {
    match step
    case Start(resolution) =>
      && w.stage == Down && Truthful(w, resolution)
      && var resolved := Resolve(w.rows, resolution);
         w' == if resolved.None? then w else w.(rows := resolved.value, stage := Picking(Answer))
    case BeginPass =>
      && (w.stage.Picking? || w.stage.Polling?)
      && w' == w.(stage := if |Uncertain(w.rows)| > 0 then Down
                           else if HasOpen(w.rows, w.stage.role) then Passing(w.stage.role, w.stage.Picking?, w.rows)
                           else if w.stage == Picking(Answer) then Picking(Judge)
                           else Building)
    case Fetch(i, replies, killed) =>
      && w.stage.Passing? && i < |w.stage.view| && w.stage.view[i].role == w.stage.role && w.stage.view[i].status == Running
      && w.stage.view[i].id.Some? && w.stage.view[i].id.value in w.server && Prefix(replies, killed)
      && w' == if !w.server[w.stage.view[i].id.value].terminal then w
               else w.(file := Append(w.file, replies, killed),
                       stage := if killed.Some? then Down
                                else w.stage.(view := w.stage.view[i := w.stage.view[i].(status := Terminal)]))
    case EndPass =>
      w.stage.Passing? && w' == w.(rows := w.stage.view, stage := if w.stage.picking then Picking(w.stage.role) else Polling(w.stage.role))
    case BuildRound(role, ids, chunk) =>
      w.stage == Building && NoDup(ids) && chunk >= 1 && w' == w.(stage := SubmittingRound(role, ids, chunk))
    case SaveIntent(nonce) =>
      && w.stage.SubmittingRound? && nonce !in w.used
      && var (role, todo, chunk) := (w.stage.role, w.stage.todo, w.stage.chunk);
         w' == if todo == [] then w.(stage := Polling(role))
               else w.(rows := w.rows + [Row(None, role, Submitting, Ids(Head(todo, chunk)), nonce)], used := w.used + {nonce},
                       stage := Posting(role, Ids(Head(todo, chunk)), Rest(todo, chunk), chunk, nonce))
    case Post(outcome) =>
      && w.stage.Posting?
      && (outcome.NotCreated? || outcome.bid !in w.server)
      && var (role, part, todo, chunk, nonce) := (w.stage.role, w.stage.part, w.stage.todo, w.stage.chunk, w.stage.nonce);
         w' == (match outcome
                case Created(bid, terminal) =>
                  w.(server := w.server[bid := Batch(part, nonce, terminal)], stage := Posted(role, part, todo, chunk, nonce, bid))
                case CreatedUnseen(bid, terminal) => w.(server := w.server[bid := Batch(part, nonce, terminal)], stage := Down)
                case NotCreated => w.(stage := Down))
    case SaveSubmitted =>
      && w.stage.Posted? && w.stage.bid in w.server
      && var (role, part, todo, chunk, nonce, bid) := (w.stage.role, w.stage.part, w.stage.todo, w.stage.chunk, w.stage.nonce, w.stage.bid);
         w' == w.(rows := Settled(w.rows) + [Row(Some(bid), role, if w.server[bid].terminal then Terminal else Running, part, nonce)],
                  stage := SubmittingRound(role, todo, chunk))
    case ServerFinishes(bid) => bid in w.server && w' == w.(server := w.server[bid := w.server[bid].(terminal := true)])
    case Crash => w' == w.(stage := Down)
  }

  // ------------------------------------------------------------------ the invariant

  ghost predicate RowsOk(rows: seq<Row>, server: map<BatchId, Batch>, used: set<Nonce>) {
    && (forall i :: 0 <= i < |rows| ==> RowOk(rows[i], server, used))
    && (forall i, j :: 0 <= i < j < |rows| ==> rows[i].nonce != rows[j].nonce)
    && (forall i, j :: 0 <= i < j < |rows| && Live(rows[i]) && Live(rows[j]) ==> rows[i].ids !! rows[j].ids)
    && (forall i, j :: 0 <= i < j < |rows| ==> rows[i].status != Submitting || rows[j].status != Submitting)
  }

  /** A resolved row names a batch the server has, with these requests. */
  ghost predicate RowOk(row: Row, server: map<BatchId, Batch>, used: set<Nonce>) {
    && row.nonce in used
    && (row.status == Submitting ==> row.id.None?)
    && (row.status != Submitting ==> row.id.Some? && row.id.value in server && server[row.id.value].nonce == row.nonce)
    && (row.status == Terminal ==> server[row.id.value].terminal)
    && (forall bid :: bid in server && server[bid].nonce == row.nonce ==> server[bid].ids == row.ids)
  }

  ghost predicate ServerOk(rows: seq<Row>, server: map<BatchId, Batch>, used: set<Nonce>) {
    && (forall bid :: bid in server ==> server[bid].nonce in used)
    && (forall b, c :: b in server && c in server && server[b].nonce == server[c].nonce ==> b == c)
    && (forall bid :: bid in server && !server[bid].terminal ==> Recorded(rows, server[bid].nonce))
  }

  /** A live row records the submission. */
  ghost predicate Recorded(rows: seq<Row>, nonce: Nonce) {
    exists i :: 0 <= i < |rows| && Live(rows[i]) && rows[i].nonce == nonce
  }

  ghost predicate NoneUncertain(rows: seq<Row>) {
    forall i :: 0 <= i < |rows| ==> rows[i].status != Submitting
  }

  /** No live row but of `role`, and none that asks for what is still to be submitted. */
  ghost predicate Clear(rows: seq<Row>, role: Role, todo: seq<Req>) {
    forall i :: 0 <= i < |rows| && Live(rows[i]) ==> rows[i].role == role && rows[i].ids !! Ids(todo)
  }

  /** The intent is the last row, and the only unresolved one. */
  ghost predicate Intended(rows: seq<Row>, role: Role, part: set<Req>, nonce: Nonce) {
    rows != [] && rows[|rows| - 1] == Row(None, role, Submitting, part, nonce) && NoneUncertain(rows[..|rows| - 1])
  }

  /** A pass's copy: the rows on disk, some found to be terminal. */
  ghost predicate Viewed(rows: seq<Row>, view: seq<Row>, server: map<BatchId, Batch>) {
    |view| == |rows|
    && forall i :: 0 <= i < |rows| ==>
         view[i] == rows[i]
         || (rows[i].status == Running && view[i] == rows[i].(status := Terminal) && rows[i].id.Some?
             && rows[i].id.value in server && server[rows[i].id.value].terminal)
  }

  ghost predicate StageOk(w: World) {
    match w.stage
    case Down => true
    case Picking(role) => role == Judge ==> !HasOpen(w.rows, Answer) && NoneUncertain(w.rows)
    case Building => forall i :: 0 <= i < |w.rows| ==> !Live(w.rows[i])
    case SubmittingRound(role, todo, chunk) => NoneUncertain(w.rows) && Clear(w.rows, role, todo) && NoDup(todo) && chunk >= 1
    case Posting(role, part, todo, chunk, nonce) =>
      && Intended(w.rows, role, part, nonce) && Clear(w.rows, role, todo) && NoDup(todo) && chunk >= 1
      && forall bid :: bid in w.server ==> w.server[bid].nonce != nonce
    case Posted(role, part, todo, chunk, nonce, bid) =>
      && Intended(w.rows, role, part, nonce) && Clear(w.rows, role, todo) && NoDup(todo) && chunk >= 1
      && bid in w.server && w.server[bid].nonce == nonce
    case Polling(role) => NoneUncertain(w.rows) && Clear(w.rows, role, [])
    case Passing(role, picking, view) =>
      && NoneUncertain(w.rows) && Viewed(w.rows, view, w.server)
      && (if picking then role == Judge ==> !HasOpen(w.rows, Answer) else Clear(w.rows, role, []))
  }

  ghost predicate Inv(w: World) {
    RowsOk(w.rows, w.server, w.used) && ServerOk(w.rows, w.server, w.used) && StageOk(w)
  }

  // ------------------------------------------------------------------ unresolved rows

  lemma {:induction false} UncertainAre(rows: seq<Row>)
    ensures forall i: nat :: i in Uncertain(rows) <==> i < |rows| && rows[i].status == Submitting
    ensures |Uncertain(rows)| == 0 <==> NoneUncertain(rows)
  {
    if rows != [] {
      var n := |rows| - 1;
      UncertainAre(rows[..n]);
      assert forall i :: 0 <= i < n ==> rows[..n][i] == rows[i];
      assert rows[n].status == Submitting ==> n in Uncertain(rows);
      if |Uncertain(rows)| == 0 {
        forall i | 0 <= i < |rows| ensures rows[i].status != Submitting { if i < n { assert rows[..n][i] == rows[i]; } }
      }
    }
  }

  lemma {:induction false} SettledNone(rows: seq<Row>)
    requires NoneUncertain(rows)
    ensures Settled(rows) == rows
  {
    if rows != [] {
      SettledNone(rows[..|rows| - 1]);
      assert rows == rows[..|rows| - 1] + [rows[|rows| - 1]];
    }
  }

  lemma SettledIntended(rows: seq<Row>, role: Role, part: set<Req>, nonce: Nonce)
    requires Intended(rows, role, part, nonce)
    ensures Settled(rows) == rows[..|rows| - 1] + []
  {
    SettledNone(rows[..|rows| - 1]);
  }

  // ------------------------------------------------------------------ resolving an intent

  lemma Removed(rows: seq<Row>, server: map<BatchId, Batch>, used: set<Nonce>, i: nat)
    requires RowsOk(rows, server, used) && i < |rows|
    ensures RowsOk(rows[..i] + rows[i + 1..], server, used)
  {
    hide RowOk;
    var others := rows[..i] + rows[i + 1..];
    assert forall k :: 0 <= k < |others| ==> others[k] == rows[if k < i then k else k + 1];
  }

  lemma RemovedRecords(rows: seq<Row>, server: map<BatchId, Batch>, used: set<Nonce>, i: nat)
    requires ServerOk(rows, server, used) && i < |rows|
    requires forall bid :: bid in server && !server[bid].terminal ==> server[bid].nonce != rows[i].nonce
    ensures ServerOk(rows[..i] + rows[i + 1..], server, used)
  {
    var others := rows[..i] + rows[i + 1..];
    forall bid | bid in server && !server[bid].terminal ensures Recorded(others, server[bid].nonce) {
      var k :| 0 <= k < |rows| && Live(rows[k]) && rows[k].nonce == server[bid].nonce;
      assert others[if k < i then k else k - 1] == rows[k];
    }
  }

  /** A resolved row in place of the unresolved one it came from. */
  lemma Replaced(rows: seq<Row>, server: map<BatchId, Batch>, used: set<Nonce>, i: nat, row: Row)
    requires RowsOk(rows, server, used) && i < |rows|
    requires row.ids == rows[i].ids && row.nonce == rows[i].nonce && row.status != Submitting && Live(rows[i]) && RowOk(row, server, used)
    ensures RowsOk(rows[..i] + rows[i + 1..] + [row], server, used)
  {
    Removed(rows, server, used, i);
    hide RowOk;
    var others := rows[..i] + rows[i + 1..];
    assert forall k :: 0 <= k < |others| ==> others[k] == rows[if k < i then k else k + 1];
  }

  lemma ReplacedRecords(rows: seq<Row>, server: map<BatchId, Batch>, used: set<Nonce>, i: nat, row: Row)
    requires ServerOk(rows, server, used) && i < |rows| && row.nonce == rows[i].nonce
    requires Live(row) || forall bid :: bid in server && server[bid].nonce == row.nonce ==> server[bid].terminal
    ensures ServerOk(rows[..i] + rows[i + 1..] + [row], server, used)
  {
    var after := rows[..i] + rows[i + 1..] + [row];
    forall bid | bid in server && !server[bid].terminal ensures Recorded(after, server[bid].nonce) {
      var k :| 0 <= k < |rows| && Live(rows[k]) && rows[k].nonce == server[bid].nonce;
      if k == i { assert after[|after| - 1] == row; } else { assert after[if k < i then k else k - 1] == rows[k]; }
    }
  }

  /** The one unresolved row. */
  ghost predicate OnlyUncertain(rows: seq<Row>, i: nat) {
    i < |rows| && rows[i].status == Submitting && forall k :: 0 <= k < |rows| && k != i ==> rows[k].status != Submitting
  }

  /** Resolving goes through exactly if there is one unresolved row. It takes that row out of the log, and
      an adopted one comes back last, running under the batch id that was given; nothing else changes. */
  lemma ResolveIs(rows: seq<Row>, resolution: Resolution)
    requires resolution != Leave
    ensures Resolve(rows, resolution).Some? <==> exists i: nat :: OnlyUncertain(rows, i)
    ensures forall i: nat :: OnlyUncertain(rows, i) ==>
              Resolve(rows, resolution)
              == Some(rows[..i] + rows[i + 1..]
                      + (if resolution.Adopt? then [Row(Some(resolution.bid), rows[i].role, Running, rows[i].ids, rows[i].nonce)] else []))
  {
    UncertainAre(rows);
    hide Uncertain;
    forall i: nat | OnlyUncertain(rows, i) ensures Uncertain(rows) == [i] { OneUncertainRow(rows, i); }
    if |Uncertain(rows)| == 1 {
      var u := Uncertain(rows)[0];
      assert u in Uncertain(rows);
      forall k | 0 <= k < |rows| && k != u ensures rows[k].status != Submitting {
        assert rows[k].status == Submitting <==> k as nat in Uncertain(rows);
      }
      assert OnlyUncertain(rows, u);
    }
    forall i: nat | OnlyUncertain(rows, i)
      ensures rows[..i] + rows[i + 1..] + [] == rows[..i] + rows[i + 1..]
    {
    }
  }

  lemma OneUncertainRow(rows: seq<Row>, i: nat)
    requires OnlyUncertain(rows, i)
    ensures Uncertain(rows) == [i]
  {
    var before, after := rows[..i], rows[i + 1..];
    assert rows == before + [rows[i]] + after;
    UncertainPrefix(rows, i, |rows|);
  }

  lemma {:induction false} UncertainPrefix(rows: seq<Row>, i: nat, n: nat)
    requires OnlyUncertain(rows, i) && n <= |rows|
    ensures Uncertain(rows[..n]) == (if n <= i then [] else [i])
    ensures rows[..|rows|] == rows
  {
    if n > 0 {
      UncertainPrefix(rows, i, n - 1);
      assert rows[..n][..n - 1] == rows[..n - 1];
    }
  }

  lemma StartKeeps(w: World, resolution: Resolution)
    requires Inv(w) && Truthful(w, resolution)
    ensures Resolve(w.rows, resolution).Some? ==>
              RowsOk(Resolve(w.rows, resolution).value, w.server, w.used) && ServerOk(Resolve(w.rows, resolution).value, w.server, w.used)
  {
    hide RowsOk, ServerOk, StageOk, Uncertain;
    UncertainAre(w.rows);
    if resolution != Leave && |Uncertain(w.rows)| == 1 {
      var i := Uncertain(w.rows)[0];
      assert i in Uncertain(w.rows);
      UncertainRow(w.rows, w.server, w.used, i);
      if resolution.Adopt? {
        var row := w.rows[i].(id := Some(resolution.bid), status := Running);
        Replaced(w.rows, w.server, w.used, i, row);
        ReplacedRecords(w.rows, w.server, w.used, i, row);
      } else {
        Removed(w.rows, w.server, w.used, i);
        RemovedRecords(w.rows, w.server, w.used, i);
      }
    }
  }

  lemma UncertainRow(rows: seq<Row>, server: map<BatchId, Batch>, used: set<Nonce>, i: nat)
    requires RowsOk(rows, server, used) && i < |rows|
    ensures RowOk(rows[i], server, used)
  {
  }

  // ------------------------------------------------------------------ polling

  lemma BeginPassKeeps(w: World, w': World)
    requires Inv(w) && Next(w, w', BeginPass)
    ensures Inv(w')
  {
    hide RowsOk, ServerOk, Uncertain, RowOk;
    UncertainAre(w.rows);
  }

  lemma FetchKeeps(w: World, w': World, i: nat, replies: seq<Reply>, killed: Option<Cut>)
    requires Inv(w) && Next(w, w', Fetch(i, replies, killed))
    ensures Inv(w')
  {
    hide RowsOk, ServerOk, RowOk;
  }

  lemma EndPassKeeps(w: World, w': World)
    requires Inv(w) && Next(w, w', EndPass)
    ensures Inv(w')
  {
    var view := w.stage.view;
    ViewRows(w.rows, view, w.server, w.used);
    ViewRecords(w.rows, view, w.server, w.used);
    hide RowsOk, ServerOk, RowOk;
    if !w.stage.picking { ViewClear(w.rows, view, w.server, w.stage.role); }
  }

  lemma ViewClear(rows: seq<Row>, view: seq<Row>, server: map<BatchId, Batch>, role: Role)
    requires Viewed(rows, view, server) && Clear(rows, role, [])
    ensures Clear(view, role, [])
  {
  }

  lemma ViewRows(rows: seq<Row>, view: seq<Row>, server: map<BatchId, Batch>, used: set<Nonce>)
    requires RowsOk(rows, server, used) && Viewed(rows, view, server)
    ensures RowsOk(view, server, used)
  {
    forall i | 0 <= i < |view| ensures RowOk(view[i], server, used) && view[i].nonce == rows[i].nonce && view[i].ids == rows[i].ids {
      assert RowOk(rows[i], server, used);
    }
    hide RowOk;
  }

  lemma ViewRecords(rows: seq<Row>, view: seq<Row>, server: map<BatchId, Batch>, used: set<Nonce>)
    requires RowsOk(rows, server, used) && ServerOk(rows, server, used) && Viewed(rows, view, server)
    ensures ServerOk(view, server, used)
  {
    forall bid | bid in server && !server[bid].terminal ensures Recorded(view, server[bid].nonce) {
      var k :| 0 <= k < |rows| && Live(rows[k]) && rows[k].nonce == server[bid].nonce;
      assert RowOk(rows[k], server, used);
      assert view[k] == rows[k];
    }
  }

  // ------------------------------------------------------------------ submitting

  lemma HeadAndRest(todo: seq<Req>, chunk: nat)
    requires NoDup(todo) && chunk >= 1
    ensures NoDup(Rest(todo, chunk)) && Ids(Head(todo, chunk)) !! Ids(Rest(todo, chunk))
    ensures Ids(Head(todo, chunk)) <= Ids(todo) && Ids(Rest(todo, chunk)) <= Ids(todo)
  {
    assert forall x :: x in Ids(Head(todo, chunk)) ==> exists i :: 0 <= i < |todo| && i < chunk && todo[i] == x;
    if chunk <= |todo| {
      assert forall x :: x in todo[chunk..] ==> exists i :: chunk <= i < |todo| && todo[i] == x;
    }
  }

  lemma SaveIntentKeeps(w: World, w': World, nonce: Nonce)
    requires Inv(w) && Next(w, w', SaveIntent(nonce))
    ensures Inv(w')
  {
    hide RowsOk, ServerOk, Head, Rest, Ids, Intended, NoneUncertain;
    var (role, todo, chunk) := (w.stage.role, w.stage.todo, w.stage.chunk);
    if todo != [] {
      var part := Ids(Head(todo, chunk));
      HeadAndRest(todo, chunk);
      IntentRows(w.rows, w.server, w.used, role, part, nonce);
      IntentRecords(w.rows, w.server, w.used, role, part, nonce);
      IntentStage(w.rows, role, todo, chunk, nonce);
      FreshNonce(w.rows, w.server, w.used, nonce);
      hide Clear;
    }
  }

  lemma IntentStage(rows: seq<Row>, role: Role, todo: seq<Req>, chunk: nat, nonce: Nonce)
    requires Clear(rows, role, todo) && NoneUncertain(rows) && NoDup(todo) && chunk >= 1
    ensures var after := rows + [Row(None, role, Submitting, Ids(Head(todo, chunk)), nonce)];
            Intended(after, role, Ids(Head(todo, chunk)), nonce) && Clear(after, role, Rest(todo, chunk))
  {
    HeadAndRest(todo, chunk);
    var part, rest := Ids(Head(todo, chunk)), Rest(todo, chunk);
    var after := rows + [Row(None, role, Submitting, part, nonce)];
    assert after[..|after| - 1] == rows;
    forall i | 0 <= i < |after| && Live(after[i]) ensures after[i].role == role && after[i].ids !! Ids(rest) {
      if i < |rows| { assert after[i] == rows[i]; }
    }
  }

  lemma FreshNonce(rows: seq<Row>, server: map<BatchId, Batch>, used: set<Nonce>, nonce: Nonce)
    requires ServerOk(rows, server, used) && nonce !in used
    ensures forall bid :: bid in server ==> server[bid].nonce != nonce
  {
  }

  lemma IntentRows(rows: seq<Row>, server: map<BatchId, Batch>, used: set<Nonce>, role: Role, part: set<Req>, nonce: Nonce)
    requires RowsOk(rows, server, used) && ServerOk(rows, server, used) && nonce !in used && NoneUncertain(rows)
    requires forall i :: 0 <= i < |rows| && Live(rows[i]) ==> rows[i].ids !! part
    ensures RowsOk(rows + [Row(None, role, Submitting, part, nonce)], server, used + {nonce})
  {
    var after := rows + [Row(None, role, Submitting, part, nonce)];
    FreshNonce(rows, server, used, nonce);
    forall i | 0 <= i < |after| ensures RowOk(after[i], server, used + {nonce}) {
      if i < |rows| { assert RowOk(rows[i], server, used); }
    }
    assert forall i :: 0 <= i < |rows| ==> RowOk(rows[i], server, used) && rows[i].nonce in used;
    hide RowOk;
  }

  lemma IntentRecords(rows: seq<Row>, server: map<BatchId, Batch>, used: set<Nonce>, role: Role, part: set<Req>, nonce: Nonce)
    requires ServerOk(rows, server, used)
    ensures ServerOk(rows + [Row(None, role, Submitting, part, nonce)], server, used + {nonce})
  {
    var after := rows + [Row(None, role, Submitting, part, nonce)];
    forall bid | bid in server && !server[bid].terminal ensures Recorded(after, server[bid].nonce) {
      var k :| 0 <= k < |rows| && Live(rows[k]) && rows[k].nonce == server[bid].nonce;
      assert after[k] == rows[k];
    }
  }

  lemma PostKeeps(w: World, w': World, outcome: Outcome)
    requires Inv(w) && Next(w, w', Post(outcome))
    ensures Inv(w')
  {
    if !outcome.NotCreated? {
      var batch := Batch(w.stage.part, w.stage.nonce, outcome.terminal);
      CreatedRows(w.rows, w.server, w.used, outcome.bid, batch);
      CreatedRecords(w.rows, w.server, w.used, outcome.bid, batch);
    }
    hide RowsOk, ServerOk;
  }

  lemma CreatedRows(rows: seq<Row>, server: map<BatchId, Batch>, used: set<Nonce>, bid: BatchId, batch: Batch)
    requires RowsOk(rows, server, used) && bid !in server && rows != []
    requires rows[|rows| - 1].nonce == batch.nonce && rows[|rows| - 1].ids == batch.ids
    ensures RowsOk(rows, server[bid := batch], used)
  {
    forall i | 0 <= i < |rows| ensures RowOk(rows[i], server[bid := batch], used) {
      assert RowOk(rows[i], server, used);
    }
    hide RowOk;
  }

  lemma CreatedRecords(rows: seq<Row>, server: map<BatchId, Batch>, used: set<Nonce>, bid: BatchId, batch: Batch)
    requires RowsOk(rows, server, used) && ServerOk(rows, server, used) && rows != []
    requires rows[|rows| - 1].nonce == batch.nonce && Live(rows[|rows| - 1])
    requires forall b :: b in server ==> server[b].nonce != batch.nonce
    ensures ServerOk(rows, server[bid := batch], used)
  {
    assert RowOk(rows[|rows| - 1], server, used);
    assert Recorded(rows, batch.nonce);
  }

  lemma SaveSubmittedKeeps(w: World, w': World)
    requires Inv(w) && Next(w, w', SaveSubmitted)
    ensures Inv(w')
  {
    var (role, part, todo, nonce, bid) := (w.stage.role, w.stage.part, w.stage.todo, w.stage.nonce, w.stage.bid);
    var n := |w.rows| - 1;
    var row := Row(Some(bid), role, if w.server[bid].terminal then Terminal else Running, part, nonce);
    SettledIntended(w.rows, role, part, nonce);
    assert RowOk(w.rows[n], w.server, w.used);
    assert RowOk(row, w.server, w.used);
    Replaced(w.rows, w.server, w.used, n, row);
    ReplacedRecords(w.rows, w.server, w.used, n, row);
    hide RowsOk, ServerOk, RowOk, Settled;
    assert w.rows[n + 1..] == [] && w.rows[..n] + [] == w.rows[..n];
    forall i | 0 <= i < |w'.rows| ensures w'.rows[i].status != Submitting && (Live(w'.rows[i]) ==> w'.rows[i].role == role && w'.rows[i].ids !! Ids(todo)) {
      if i < n { assert w'.rows[i] == w.rows[..n][i] == w.rows[i]; } else { assert Live(w.rows[n]); }
    }
  }

  // ------------------------------------------------------------------ every step

  lemma ServerFinishesKeeps(w: World, w': World, bid: BatchId)
    requires Inv(w) && Next(w, w', ServerFinishes(bid))
    ensures Inv(w')
  {
    forall i | 0 <= i < |w.rows| ensures RowOk(w.rows[i], w'.server, w.used) { assert RowOk(w.rows[i], w.server, w.used); }
    hide RowOk;
  }

  lemma NextKeeps(w: World, w': World, step: Step)
    requires Inv(w) && Next(w, w', step)
    ensures Inv(w')
  {
    hide RowsOk, ServerOk, Resolve, Uncertain, Settled, Truthful;
    match step
    case Start(resolution) => StartKeeps(w, resolution);
    case BeginPass => BeginPassKeeps(w, w');
    case Fetch(i, replies, killed) => FetchKeeps(w, w', i, replies, killed);
    case EndPass => EndPassKeeps(w, w');
    case BuildRound(_, _, _) =>
    case SaveIntent(nonce) => SaveIntentKeeps(w, w', nonce);
    case Post(outcome) => PostKeeps(w, w', outcome);
    case SaveSubmitted => SaveSubmittedKeeps(w, w');
    case ServerFinishes(bid) => ServerFinishesKeeps(w, w', bid);
    case Crash =>
  }
}
