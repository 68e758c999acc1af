/** What holds in every run of the batch protocol, and its rounds as the loops they are. */
module BatchRuns {
  import opened Prelude
  import opened BatchLog
  import opened BatchProtocol

  const NEW_WORLD := World([], map[], {}, NO_FILE, Down)

  /** Any mix of runs, crashes and server progress from a new state directory. */
  ghost predicate History(worlds: seq<World>, steps: seq<Step>) {
    |worlds| == |steps| + 1 && worlds[0] == NEW_WORLD && forall i :: 0 <= i < |steps| ==> Next(worlds[i], worlds[i + 1], steps[i])
  }

  lemma {:induction false} HistoryKeeps(worlds: seq<World>, steps: seq<Step>, i: nat)
    requires History(worlds, steps) && i < |worlds|
    ensures Inv(worlds[i])
  {
    hide Next;
    if i > 0 {
      hide Inv;
      HistoryKeeps(worlds, steps, i - 1);
      NextKeeps(worlds[i - 1], worlds[i], steps[i - 1]);
    }
  }

  predicate RunningOn(server: map<BatchId, Batch>, bid: BatchId) {
    bid in server && !server[bid].terminal
  }

  /** However often and wherever the process dies: no request is in two running batches on the server,
      nor in two live rows of the log, and at most one submission is unresolved. */
  lemma NothingPaidTwice(worlds: seq<World>, steps: seq<Step>, i: nat)
    requires History(worlds, steps) && i < |worlds|
    ensures forall b, c :: RunningOn(worlds[i].server, b) && RunningOn(worlds[i].server, c) && b != c ==>
              worlds[i].server[b].ids !! worlds[i].server[c].ids
    ensures forall x, y :: 0 <= x < y < |worlds[i].rows| && Live(worlds[i].rows[x]) && Live(worlds[i].rows[y]) ==>
              worlds[i].rows[x].ids !! worlds[i].rows[y].ids
    ensures |Uncertain(worlds[i].rows)| <= 1
  {
    hide History;
    HistoryKeeps(worlds, steps, i);
    var w := worlds[i];
    forall b, c | RunningOn(w.server, b) && RunningOn(w.server, c) && b != c
      ensures w.server[b].ids !! w.server[c].ids
    {
      RunningApart(w.rows, w.server, w.used, b, c);
    }
    OneUncertain(w.rows, w.server, w.used);
  }

  lemma RunningApart(rows: seq<Row>, server: map<BatchId, Batch>, used: set<Nonce>, b: BatchId, c: BatchId)
    requires RowsOk(rows, server, used) && ServerOk(rows, server, used) && b in server && c in server && b != c
    requires !server[b].terminal && !server[c].terminal
    ensures server[b].ids !! server[c].ids
  {
    assert Recorded(rows, server[b].nonce) && Recorded(rows, server[c].nonce);
    var x :| 0 <= x < |rows| && Live(rows[x]) && rows[x].nonce == server[b].nonce;
    var y :| 0 <= y < |rows| && Live(rows[y]) && rows[y].nonce == server[c].nonce;
    assert RowOk(rows[x], server, used) && RowOk(rows[y], server, used);
    assert rows[x].ids == server[b].ids && rows[y].ids == server[c].ids;
  }

  lemma {:induction false} OneUncertain(rows: seq<Row>, server: map<BatchId, Batch>, used: set<Nonce>)
    requires RowsOk(rows, server, used)
    ensures |Uncertain(rows)| <= 1
  {
    if rows != [] {
      var n := |rows| - 1;
      PrefixRows(rows, server, used, n);
      OneUncertain(rows[..n], server, used);
      if rows[n].status == Submitting {
        assert NoneUncertain(rows[..n]);
        UncertainAre(rows[..n]);
      }
    }
  }

  lemma PrefixRows(rows: seq<Row>, server: map<BatchId, Batch>, used: set<Nonce>, n: nat)
    requires RowsOk(rows, server, used) && n <= |rows|
    ensures RowsOk(rows[..n], server, used)
  {
    hide RowOk;
  }

  /** Nothing is submitted while another submission is unresolved: at every POST the one unresolved row is
      the intent of that very POST, no batch carries its nonce yet, and every live row asks for other requests. */
  lemma PostsOnlyResolved(worlds: seq<World>, steps: seq<Step>, i: nat)
    requires History(worlds, steps) && i < |steps| && steps[i].Post?
    ensures var w, n := worlds[i], |worlds[i].rows| - 1;
            && n >= 0 && w.stage.Posting? && w.rows[n] == Row(None, w.stage.role, Submitting, w.stage.part, w.stage.nonce)
            && (forall k :: 0 <= k < n ==> w.rows[k].status != Submitting && (Live(w.rows[k]) ==> w.rows[k].ids !! w.stage.part))
            && forall bid :: bid in w.server ==> w.server[bid].nonce != w.stage.nonce
  {
    HistoryKeeps(worlds, steps, i);
    var w := worlds[i];
    assert Next(w, worlds[i + 1], steps[i]);
    hide History, Next, ServerOk, RowOk;
    var n := |w.rows| - 1;
    forall k | 0 <= k < n ensures w.rows[k].status != Submitting && (Live(w.rows[k]) ==> w.rows[k].ids !! w.stage.part) {
      assert w.rows[..n][k] == w.rows[k];
      assert Live(w.rows[n]);
    }
  }

  /** results() never loses content it once reported. */
  lemma {:induction false} ContentIsNeverLost(worlds: seq<World>, steps: seq<Step>, i: nat, j: nat, id: Req)
    requires History(worlds, steps) && i <= j < |worlds|
    requires id in Results(Rows(worlds[i].file)) && Results(Rows(worlds[i].file))[id].content.Some?
    ensures id in Results(Rows(worlds[j].file)) && Results(Rows(worlds[j].file))[id].content.Some?
    decreases j
  {
    hide Rows, Results, Append;
    if i < j {
      ContentIsNeverLost(worlds, steps, i, j - 1, id);
      OnlyFetchAppends(worlds[j - 1], worlds[j], steps[j - 1]);
      if steps[j - 1].Fetch? && worlds[j].file != worlds[j - 1].file {
        ContentIsKept(worlds[j - 1].file, steps[j - 1].replies, steps[j - 1].killed, id);
      }
    }
  }

  lemma OnlyFetchAppends(w: World, w': World, step: Step)
    requires Next(w, w', step)
    ensures w'.file == w.file || (step.Fetch? && Prefix(step.replies, step.killed) && w'.file == Append(w.file, step.replies, step.killed))
  {
    hide Append, Resolve, Uncertain, Settled;
  }

  // ------------------------------------------------------------------ what polling makes of the log and the results

  /** What the server says of a batch: still running, or ended, with its results; `killed` is where this
      process dies while it appends them, if it does. */
  datatype Answered = StillRunning | Ended(replies: seq<Reply>, killed: Option<Cut>)

  /** A running batch of the role that the server says has ended. */
  predicate Ends(row: Row, role: Role, answers: BatchId -> Answered) {
    row.role == role && row.status == Running && row.id.Some? && answers(row.id.value).Ended?
  }

  /** The log after a pass: the batches that ended are terminal. */
  function AfterPass(rows: seq<Row>, role: Role, answers: BatchId -> Answered): (after: seq<Row>)
    ensures |after| == |rows|
  {
    seq(|rows|, i requires 0 <= i < |rows| => if Ends(rows[i], role, answers) then rows[i].(status := Terminal) else rows[i])
  }

  /** The replies of the batches that ended, in the order of their rows. */
  function Collected(rows: seq<Row>, role: Role, answers: BatchId -> Answered): seq<Reply> {
    if rows == [] then []
    else
      var last := rows[|rows| - 1];
      Collected(rows[..|rows| - 1], role, answers) + (if Ends(last, role, answers) then answers(last.id.value).replies else [])
  }

  lemma {:induction false} CollectedAppend(a: seq<Row>, b: seq<Row>, role: Role, answers: BatchId -> Answered)
    ensures Collected(a + b, role, answers) == Collected(a, role, answers) + Collected(b, role, answers)
  {
    hide Ends;
    if b == [] {
      assert a + b == a;
    } else {
      CollectedAppend(a, b[..|b| - 1], role, answers);
      assert (a + b)[..|a + b| - 1] == a + b[..|b| - 1];
    }
  }

  /** The replies of every batch of the role that ended stand together among those collected, those of
      earlier rows before them and those of later rows behind; no other row contributes any. */
  lemma CollectedAre(rows: seq<Row>, role: Role, answers: BatchId -> Answered, i: nat)
    requires i < |rows|
    ensures var own := if rows[i].role == role && rows[i].status == Running && rows[i].id.Some? && answers(rows[i].id.value).Ended?
                       then answers(rows[i].id.value).replies else [];
            Collected(rows, role, answers) == Collected(rows[..i], role, answers) + own + Collected(rows[i + 1..], role, answers)
    ensures Collected([], role, answers) == []
  {
    assert rows == rows[..i] + [rows[i]] + rows[i + 1..];
    CollectedAppend(rows[..i] + [rows[i]], rows[i + 1..], role, answers);
    CollectedAppend(rows[..i], [rows[i]], role, answers);
    assert [rows[i]][..0] == [];
  }

  lemma CollectedPart(rows: seq<Row>, role: Role, answers: BatchId -> Answered, i: nat)
    requires i < |rows|
    ensures Collected(rows[..i + 1], role, answers)
            == Collected(rows[..i], role, answers) + (if Ends(rows[i], role, answers) then answers(rows[i].id.value).replies else [])
    ensures Collected(rows[..i + 1], role, answers) <= Collected(rows, role, answers)
  {
    assert rows[..i + 1][..i] == rows[..i];
    assert rows == rows[..i + 1] + rows[i + 1..];
    CollectedAppend(rows[..i + 1], rows[i + 1..], role, answers);
  }

  /** The answers of the `k`-th pass. */
  function AtPass(answers: (nat, BatchId) -> Answered, k: nat): BatchId -> Answered {
    (bid: BatchId) => answers(k, bid)
  }

  /** The log after `n` passes, and the replies they collected. */
  function RowsAfter(rows: seq<Row>, role: Role, answers: (nat, BatchId) -> Answered, n: nat): (after: seq<Row>)
    ensures |after| == |rows|
  {
    if n == 0 then rows else AfterPass(RowsAfter(rows, role, answers, n - 1), role, AtPass(answers, n - 1))
  }

  function Gathered(rows: seq<Row>, role: Role, answers: (nat, BatchId) -> Answered, n: nat): seq<Reply> {
    if n == 0 then []
    else Gathered(rows, role, answers, n - 1) + Collected(RowsAfter(rows, role, answers, n - 1), role, AtPass(answers, n - 1))
  }

  /** A batch is terminal in the log only if some pass was told that it had ended, and all it was told then
      is among the replies gathered. */
  lemma {:induction false} TerminalIsGathered(rows: seq<Row>, role: Role, answers: (nat, BatchId) -> Answered, n: nat, i: nat)
    requires i < |rows| && rows[i].status == Running && RowsAfter(rows, role, answers, n)[i].status != Running
    ensures rows[i].role == role && rows[i].id.Some?
    ensures exists k :: 0 <= k < n && answers(k, rows[i].id.value).Ended?
                        && forall reply :: reply in answers(k, rows[i].id.value).replies ==> reply in Gathered(rows, role, answers, n)
  {
    hide Collected;
    var before := RowsAfter(rows, role, answers, n - 1);
    OnlyStatusChanges(rows, role, answers, n - 1, i);
    if before[i].status != Running {
      TerminalIsGathered(rows, role, answers, n - 1, i);
    } else {
      var bid := rows[i].id.value;
      CollectedAre(before, role, AtPass(answers, n - 1), i);
      assert answers(n - 1, bid) == AtPass(answers, n - 1)(bid);
      forall reply | reply in answers(n - 1, bid).replies ensures reply in Gathered(rows, role, answers, n) {}
    }
  }

  lemma {:induction false} OnlyStatusChanges(rows: seq<Row>, role: Role, answers: (nat, BatchId) -> Answered, n: nat, i: nat)
    requires i < |rows|
    ensures var row := RowsAfter(rows, role, answers, n)[i];
            row == rows[i] || (rows[i].status == Running && row == rows[i].(status := Terminal))
  {
    if n > 0 { OnlyStatusChanges(rows, role, answers, n - 1, i); }
  }

  // ------------------------------------------------------------------ the rounds

  /** The run's state: the log on disk and, for the proof, the server and where the process stands. */
  class BatchRun {
    var rows: seq<Row>
    var file: File
    ghost var server: map<BatchId, Batch>
    ghost var used: set<Nonce>
    ghost var stage: Stage

    ghost function Value(): World
      reads this
    {
      World(rows, server, used, file, stage)
    }

    constructor ()
      ensures Inv(Value()) && Value() == NEW_WORLD
    {
      rows, file, server, used, stage := [], NO_FILE, map[], {}, Down;
    }

    /** One chunk: the intent, the POST and its record. */
    method SubmitOne(role: Role, todo: seq<Req>, chunk: nat, outcome: Outcome, nonce: Nonce) returns (answered: bool)
      requires Inv(Value()) && stage == SubmittingRound(role, todo, chunk) && todo != [] && nonce !in used
      requires outcome.NotCreated? || outcome.bid !in server
      modifies this
      ensures Inv(Value()) && file == old(file) && used == old(used) + {nonce} && NoneUncertain(old(rows))
      ensures server.Keys == old(server).Keys + (if outcome.NotCreated? then {} else {outcome.bid})
      ensures answered <==> outcome.Created?
      ensures answered ==> stage == SubmittingRound(role, Rest(todo, chunk), chunk) && |rows| == |old(rows)| + 1 && rows[..|old(rows)|] == old(rows)
                           && rows[|old(rows)|].ids == Ids(Head(todo, chunk)) && rows[|old(rows)|].id == Some(outcome.bid)
      ensures !answered ==> stage == Down && rows == old(rows) + [Row(None, role, Submitting, Ids(Head(todo, chunk)), nonce)]
    {
      hide Inv, Settled, Head, Rest, Ids;
      ghost var w0 := Value();
      SubmitStage(w0);
      var part := Ids(Head(todo, chunk));
      rows := rows + [Row(None, role, Submitting, part, nonce)];
      used := used + {nonce};
      stage := Posting(role, part, Rest(todo, chunk), chunk, nonce);
      ghost var w1 := Value();
      NextKeeps(w0, w1, SaveIntent(nonce));
      answered := outcome.Created?;
      if !outcome.NotCreated? { server := server[outcome.bid := Batch(part, nonce, outcome.terminal)]; }
      stage := if answered then Posted(role, part, Rest(todo, chunk), chunk, nonce, outcome.bid) else Down;
      ghost var w2 := Value();
      NextKeeps(w1, w2, Post(outcome));
      if !answered { return; }
      SettledLast(w0.rows, Row(None, role, Submitting, part, nonce));
      rows := Settled(rows) + [Row(Some(outcome.bid), role, if outcome.terminal then Terminal else Running, part, nonce)];
      stage := SubmittingRound(role, Rest(todo, chunk), chunk);
      NextKeeps(w2, Value(), SaveSubmitted);
    }

    /** Submits a round in chunks. `post` is what becomes of each POST. The round stops, its last intent
        unresolved, as soon as one is not answered; otherwise its rows ask for exactly the round's requests. */
    method SubmitBatches(role: Role, ids: seq<Req>, chunk: nat, post: nat -> Outcome, nonces: nat -> Nonce) returns (finished: bool)
      requires Inv(Value()) && stage == Building && NoDup(ids) && chunk >= 1
      requires AllNew(post, nonces, server, used, 0)
      modifies this
      ensures Inv(Value()) && file == old(file) && |old(rows)| <= |rows| && rows[..|old(rows)|] == old(rows)
      ensures finished ==> stage == Polling(role) && forall x :: x in ids <==> AskedFor(rows[|old(rows)|..], x)
      ensures InChunks(rows, |old(rows)|, chunk, [])
      ensures !finished ==> stage == Down && |old(rows)| < |rows| && rows[|rows| - 1].status == Submitting
    {
      hide Inv, Settled, Head, Rest, Ids, AskedFor, InChunks, AllNew;
      ghost var n := |rows|;
      NoChunks(rows, chunk, ids);
      ghost var w0 := Value();
      stage := SubmittingRound(role, ids, chunk);
      NextKeeps(w0, Value(), BuildRound(role, ids, chunk));
      var todo, k := ids, 0;
      NothingAsked(rows, ids);
      while todo != []
        invariant Inv(Value()) && stage == SubmittingRound(role, todo, chunk) && file == old(file)
        invariant n <= |rows| && rows[..n] == old(rows)
        invariant AllNew(post, nonces, server, used, k)
        invariant forall x :: x in ids <==> x in todo || AskedFor(rows[n..], x)
        invariant InChunks(rows, n, chunk, todo)
        decreases |todo|
      {
        ChunkSize(Value());
        NextNew(post, nonces, server, used, k);
        ghost var before := rows;
        var answered := SubmitOne(role, todo, chunk, post(k), nonces(k));
        OneMoreChunk(before, rows, n, chunk, todo);
        if !answered { return false; }
        Asked(rows, n, todo, chunk);
        todo := Rest(todo, chunk);
        k := k + 1;
      }
      ghost var w1 := Value();
      stage := Polling(role);
      NextNew(post, nonces, server, used, k);
      ghost var unused := nonces(k);
      NextKeeps(w1, Value(), SaveIntent(unused));
      finished := true;
    }

    /** Fetches one running batch; a terminal one's results are appended before its row is saved. */
    method FetchOne(role: Role, view: seq<Row>, i: nat, answer: Answered) returns (after: seq<Row>, alive: bool)
      requires Inv(Value()) && stage.Passing? && stage.role == role && stage.view == view && i < |view|
      requires view[i].role == role && view[i].status == Running
      requires answer.Ended? ==> Prefix(answer.replies, answer.killed)
      modifies this`file, this`server, this`stage
      ensures Inv(Value()) && server.Keys == old(server).Keys
      ensures alive ==> stage == old(stage).(view := after) && |after| == |view| && after[i].status == (if answer.Ended? then Terminal else Running)
                        && (forall k :: 0 <= k < |view| && k != i ==> after[k] == view[k]) && after[i].role == role && after[i].id == view[i].id
      ensures !alive ==> stage == Down
      ensures file == if answer.Ended? then Append(old(file), answer.replies, answer.killed) else old(file)
      ensures alive <==> answer.StillRunning? || answer.killed.None?
      ensures alive ==> after == if answer.Ended? then view[i := view[i].(status := Terminal)] else view
    {
      hide Inv, Append, Prefix;
      ghost var w0 := Value();
      RunningHasBatch(w0, i);
      if answer == StillRunning { return view, true; }
      server := server[view[i].id.value := server[view[i].id.value].(terminal := true)];
      ghost var w1 := Value();
      NextKeeps(w0, w1, ServerFinishes(view[i].id.value));
      file := Append(file, answer.replies, answer.killed);
      after := view[i := view[i].(status := Terminal)];
      alive := answer.killed.None?;
      stage := if alive then stage.(view := after) else Down;
      NextKeeps(w1, Value(), Fetch(i, answer.replies, answer.killed));
    }

    /** One pass over the running batches of a role, then one save of the whole log. Of every batch that has
        ended, and of no other, the replies are appended, in the order of the rows, before the row is saved
        as terminal; a pass that is killed leaves the log as it was and a prefix of those replies. */
    method PollPass(role: Role, answers: BatchId -> Answered) returns (alive: bool)
      requires Inv(Value()) && (stage == Picking(role) || stage == Polling(role)) && |Uncertain(rows)| == 0 && HasOpen(rows, role)
      requires forall bid :: answers(bid).Ended? ==> Prefix(answers(bid).replies, answers(bid).killed)
      modifies this
      ensures Inv(Value()) && |rows| == |old(rows)| && (alive ==> stage == old(stage)) && (!alive ==> stage == Down && rows == old(rows))
      ensures alive ==> forall i :: 0 <= i < |rows| && rows[i].role == role && rows[i].status == Running ==>
                rows[i].id.Some? && answers(rows[i].id.value) == StillRunning
      ensures alive <==> forall i :: 0 <= i < |old(rows)| && Ends(old(rows)[i], role, answers) ==> answers(old(rows)[i].id.value).killed.None?
      ensures alive ==> rows == AfterPass(old(rows), role, answers) && Rows(file) == Rows(old(file)) + Collected(old(rows), role, answers)
      ensures !alive ==> Rows(old(file)) <= Rows(file) <= Rows(old(file)) + Collected(old(rows), role, answers)
      ensures forall i, reply ::
                (0 <= i < |rows| && old(rows)[i].status == Running && rows[i].status != Running && old(rows)[i].id.Some?
                 && answers(old(rows)[i].id.value).Ended? && reply in answers(old(rows)[i].id.value).replies) ==> reply in Rows(file)
    {
      hide Inv, Append, Prefix, HasOpen, Uncertain, Rows, Collected, PassedTo, AfterPass;
      ghost var w0 := Value();
      ghost var all := rows;
      PassedNone(all, role, answers);
      var view := rows;
      ghost var picking := stage.Picking?;
      stage := Passing(role, picking, view);
      NextKeeps(w0, Value(), BeginPass);
      NothingCollected(role, answers);
      assert all[..0] == [];
      for i := 0 to |view|
        invariant Inv(Value()) && rows == all && stage == Passing(role, picking, view) && |view| == |all|
        invariant PassedTo(view, all, i, role, answers)
        invariant Rows(file) == Rows(w0.file) + Collected(all[..i], role, answers)
      {
        RunningHasId(Value(), i);
        CollectedPart(all, role, answers, i);
        PassedOne(view, all, i, role, answers);
        if view[i].role == role && view[i].status == Running {
          ghost var before := file;
          var answer := answers(view[i].id.value);
          view, alive := FetchOne(role, view, i, answer);
          FetchedRows(before, file, answer);
          if !alive {
            KilledPrefix(w0.file, before, file, all, role, answers, i);
            return;
          }
        }
      }
      ghost var w1 := Value();
      rows := view;
      stage := if picking then Picking(role) else Polling(role);
      NextKeeps(w1, Value(), EndPass);
      alive := true;
      assert all[..|all|] == all;
      PassedAll(view, all, role, answers);
      EndedAreCollected(w0.file, file, all, role, answers);
    }

    /** Polls a role's batches until none is running, the process dies, or (`passes`) it is stopped. An
        unresolved intent stops it before anything is fetched. `n` passes were completed; the results hold
        what those passes collected, and of a pass that was killed a prefix. */
    method PollBatches(role: Role, answers: (nat, BatchId) -> Answered, passes: nat) returns (finished: bool, ghost n: nat)
      requires Inv(Value()) && (stage == Picking(role) || stage == Polling(role))
      requires forall k, bid :: answers(k, bid).Ended? ==> Prefix(answers(k, bid).replies, answers(k, bid).killed)
      modifies this
      ensures Inv(Value()) && n <= passes
      ensures finished ==> |Uncertain(rows)| == 0 && !HasOpen(rows, role)
                           && stage == if old(stage) == Picking(Answer) then Picking(Judge) else Building
      ensures |Uncertain(old(rows))| > 0 ==> !finished && stage == Down && rows == old(rows) && file == old(file)
      ensures rows == RowsAfter(old(rows), role, answers, n) && forall k :: 0 <= k < n ==> HasOpen(RowsAfter(old(rows), role, answers, k), role)
      ensures finished || n == passes ==> Rows(file) == Rows(old(file)) + Gathered(old(rows), role, answers, n)
      ensures !finished ==> stage == Down && (n == passes || |Uncertain(old(rows))| > 0 || Killed(rows, role, AtPass(answers, n)))
      ensures !finished && n < passes && |Uncertain(old(rows))| == 0 ==>
                Rows(old(file)) + Gathered(old(rows), role, answers, n) <= Rows(file)
                <= Rows(old(file)) + Gathered(old(rows), role, answers, n + 1)
    {
      hide Inv, HasOpen, Uncertain, Prefix, Rows, Collected, AfterPass;
      ghost var first := Value();
      n := 0;
      for k := 0 to passes
        invariant Inv(Value()) && stage == first.stage && n == k && (k == 0 ==> rows == first.rows && file == first.file)
        invariant |Uncertain(first.rows)| > 0 ==> k == 0
        invariant |Uncertain(first.rows)| == 0 ==> |Uncertain(rows)| == 0
        invariant rows == RowsAfter(first.rows, role, answers, k)
        invariant forall j :: 0 <= j < k ==> HasOpen(RowsAfter(first.rows, role, answers, j), role)
        invariant Rows(file) == Rows(first.file) + Gathered(first.rows, role, answers, k)
      {
        ghost var w0 := Value();
        var stuck := Uncertain(rows);
        if |stuck| > 0 {
          stage := Down;
          NextKeeps(w0, Value(), BeginPass);
          return false, n;
        }
        var open := AnyOpen(rows, role);
        if !open {
          stage := if stage == Picking(Answer) then Picking(Judge) else Building;
          NextKeeps(w0, Value(), BeginPass);
          return true, n;
        }
        var alive := PollPass(role, AtPass(answers, k));
        if !alive { return false, n; }
        StillResolved(w0.rows, role, AtPass(answers, k));
        n := n + 1;
      }
      ghost var w1 := Value();
      stage := Down;
      NextKeeps(w1, Value(), Crash);
      finished := false;
    }
  }

  /** The pass's copy of the rows when the first `i` of them have been asked about. */
  ghost predicate PassedTo(view: seq<Row>, all: seq<Row>, i: nat, role: Role, answers: BatchId -> Answered) {
    |view| == |all|
    && forall k :: 0 <= k < |all| ==>
         if k < i then
           && view[k] == (if Ends(all[k], role, answers) then all[k].(status := Terminal) else all[k])
           && (Ends(all[k], role, answers) ==> answers(all[k].id.value).killed.None?)
           && (all[k].role == role && all[k].status == Running ==> all[k].id.Some?)
         else view[k] == all[k]
  }

  lemma PassedNone(all: seq<Row>, role: Role, answers: BatchId -> Answered)
    ensures PassedTo(all, all, 0, role, answers)
  {
  }

  lemma PassedOne(view: seq<Row>, all: seq<Row>, i: nat, role: Role, answers: BatchId -> Answered)
    requires PassedTo(view, all, i, role, answers) && i < |all|
    ensures |view| == |all| && view[i] == all[i]
    ensures !(all[i].role == role && all[i].status == Running) ==> PassedTo(view, all, i + 1, role, answers) && !Ends(all[i], role, answers)
    ensures all[i].role == role && all[i].status == Running && all[i].id.Some? ==>
              var answer := answers(all[i].id.value);
              && (Ends(all[i], role, answers) <==> answer.Ended?)
              && (answer.StillRunning? ==> PassedTo(view, all, i + 1, role, answers))
              && (answer.Ended? && answer.killed.None? ==> PassedTo(view[i := view[i].(status := Terminal)], all, i + 1, role, answers))
  {
  }

  lemma PassedAll(view: seq<Row>, all: seq<Row>, role: Role, answers: BatchId -> Answered)
    requires PassedTo(view, all, |all|, role, answers)
    ensures view == AfterPass(all, role, answers)
    ensures forall i :: 0 <= i < |all| && Ends(all[i], role, answers) ==> answers(all[i].id.value).killed.None?
    ensures forall i :: 0 <= i < |view| && view[i].role == role && view[i].status == Running ==>
              view[i].id.Some? && answers(view[i].id.value) == StillRunning
    ensures forall i :: 0 <= i < |view| && all[i].status == Running && view[i].status != Running ==> Ends(all[i], role, answers)
  {
  }

  /** A pass in which the process dies while it appends the results of a batch. */
  ghost predicate Killed(rows: seq<Row>, role: Role, answers: BatchId -> Answered) {
    exists i :: 0 <= i < |rows| && Ends(rows[i], role, answers) && answers(rows[i].id.value).killed.Some?
  }

  lemma NothingCollected(role: Role, answers: BatchId -> Answered)
    ensures Collected([], role, answers) == []
  {
  }

  lemma FetchedRows(before: File, after: File, answer: Answered)
    requires answer.Ended? ==> Prefix(answer.replies, answer.killed)
    requires after == if answer.Ended? then Append(before, answer.replies, answer.killed) else before
    ensures answer.Ended? ==> Rows(before) <= Rows(after) <= Rows(before) + answer.replies
    ensures answer.Ended? && answer.killed.None? ==> Rows(after) == Rows(before) + answer.replies
    ensures answer.StillRunning? ==> Rows(after) == Rows(before)
  {
    hide Rows, Append, Prefix;
    if answer.Ended? {
      AppendRows(before, answer.replies, answer.killed);
      assert answer.replies[..|answer.replies|] == answer.replies;
    }
  }

  lemma KilledPrefix(first: File, before: File, after: File, rows: seq<Row>, role: Role, answers: BatchId -> Answered, i: nat)
    requires i < |rows| && Ends(rows[i], role, answers) && Rows(before) == Rows(first) + Collected(rows[..i], role, answers)
    requires Rows(before) <= Rows(after) <= Rows(before) + answers(rows[i].id.value).replies
    ensures Rows(first) <= Rows(after) <= Rows(first) + Collected(rows, role, answers)
  {
    hide Rows, Collected;
    CollectedPart(rows, role, answers, i);
    var part, all := Collected(rows[..i + 1], role, answers), Collected(rows, role, answers);
    assert Rows(before) + answers(rows[i].id.value).replies == Rows(first) + part;
    assert Rows(first) + part <= Rows(first) + all;
  }

  lemma EndedAreCollected(first: File, after: File, rows: seq<Row>, role: Role, answers: BatchId -> Answered)
    requires Rows(after) == Rows(first) + Collected(rows, role, answers)
    ensures forall i, reply :: 0 <= i < |rows| && Ends(rows[i], role, answers) && reply in answers(rows[i].id.value).replies ==> reply in Rows(after)
  {
    hide Rows, Collected;
    forall i, reply | 0 <= i < |rows| && Ends(rows[i], role, answers) && reply in answers(rows[i].id.value).replies ensures reply in Rows(after) {
      CollectedAre(rows, role, answers, i);
    }
  }

  lemma StillResolved(rows: seq<Row>, role: Role, answers: BatchId -> Answered)
    requires |Uncertain(rows)| == 0
    ensures |Uncertain(AfterPass(rows, role, answers))| == 0
  {
    hide Uncertain;
    UncertainAre(rows);
    UncertainAre(AfterPass(rows, role, answers));
  }

  method AnyOpen(rows: seq<Row>, role: Role) returns (open: bool)
    ensures open <==> HasOpen(rows, role)
  {
    open := false;
    for i := 0 to |rows|
      invariant open <==> exists k :: 0 <= k < i && rows[k].role == role && rows[k].status == Running
    {
      if rows[i].role == role && rows[i].status == Running { open := true; }
    }
  }

  lemma RunningHasId(w: World, i: nat)
    requires Inv(w) && w.stage.Passing? && i < |w.stage.view|
    ensures w.stage.view[i].status == Running ==> w.stage.view[i].id.Some?
  {
    assert RowOk(w.rows[i], w.server, w.used);
  }

  lemma RunningHasBatch(w: World, i: nat)
    requires Inv(w) && w.stage.Passing? && i < |w.stage.view| && w.stage.view[i].status == Running
    ensures w.stage.view[i].id.Some? && w.stage.view[i].id.value in w.server
  {
    assert RowOk(w.rows[i], w.server, w.used);
  }

  /** From the `k`-th on, batch ids are new to the server and submissions are told apart. */
  ghost predicate AllNew(post: nat -> Outcome, nonces: nat -> Nonce, server: map<BatchId, Batch>, used: set<Nonce>, k: nat) {
    && (forall j :: j >= k ==> nonces(j) !in used && (post(j).NotCreated? || post(j).bid !in server))
    && (forall i, j :: k <= i < j ==> nonces(i) != nonces(j))
    && (forall i, j :: k <= i < j && !post(i).NotCreated? && !post(j).NotCreated? ==> post(i).bid != post(j).bid)
  }

  lemma NextNew(post: nat -> Outcome, nonces: nat -> Nonce, server: map<BatchId, Batch>, used: set<Nonce>, k: nat)
    requires AllNew(post, nonces, server, used, k)
    ensures nonces(k) !in used && (post(k).NotCreated? || post(k).bid !in server)
    ensures forall later: map<BatchId, Batch> :: later.Keys == server.Keys + (if post(k).NotCreated? then {} else {post(k).bid}) ==>
              AllNew(post, nonces, later, used + {nonces(k)}, k + 1)
  {
  }

  /** Every row of a round asks for at least one request and at most `chunk`; for fewer only the last,
      when nothing is left to do. */
  ghost predicate InChunks(rows: seq<Row>, n: nat, chunk: nat, todo: seq<Req>) {
    forall i :: n <= i < |rows| ==> 1 <= |rows[i].ids| <= chunk && (|rows[i].ids| < chunk ==> i == |rows| - 1 && todo == [])
  }

  lemma NoChunks(rows: seq<Row>, chunk: nat, todo: seq<Req>)
    ensures InChunks(rows, |rows|, chunk, todo)
  {
  }

  lemma OneMoreChunk(before: seq<Row>, rows: seq<Row>, n: nat, chunk: nat, todo: seq<Req>)
    requires InChunks(before, n, chunk, todo) && todo != [] && n <= |before| && |rows| == |before| + 1 && rows[..|before|] == before
    requires var size := |rows[|before|].ids|; 1 <= size <= chunk && (size < chunk ==> Rest(todo, chunk) == [])
    ensures InChunks(rows, n, chunk, Rest(todo, chunk)) && InChunks(rows, n, chunk, [])
  {
    forall i | n <= i < |before| ensures rows[i] == before[i] { assert rows[..|before|][i] == before[i]; }
  }

  /** A chunk is as long as asked for, unless it is the rest. */
  lemma ChunkSize(w: World)
    requires Inv(w) && w.stage.SubmittingRound? && w.stage.todo != []
    ensures var n := |Ids(Head(w.stage.todo, w.stage.chunk))|;
            1 <= n <= w.stage.chunk && (n < w.stage.chunk ==> Rest(w.stage.todo, w.stage.chunk) == [])
  {
    var head := Head(w.stage.todo, w.stage.chunk);
    DistinctIds(head);
  }

  lemma {:induction false} DistinctIds(s: seq<Req>)
    requires NoDup(s)
    ensures |Ids(s)| == |s|
  {
    if s != [] {
      var init, last := s[..|s| - 1], s[|s| - 1];
      DistinctIds(init);
      assert Ids(s) == Ids(init) + {last};
    }
  }

  ghost predicate AskedFor(rows: seq<Row>, x: Req) {
    exists i :: 0 <= i < |rows| && x in rows[i].ids
  }

  lemma NothingAsked(rows: seq<Row>, ids: seq<Req>)
    ensures forall x :: !AskedFor(rows[|rows|..], x)
  {
  }

  /** One more row, for the head of what was to do. */
  lemma Asked(rows: seq<Row>, n: nat, todo: seq<Req>, chunk: nat)
    requires n < |rows| && rows[|rows| - 1].ids == Ids(Head(todo, chunk)) && chunk >= 1
    ensures forall x :: x in todo || AskedFor(rows[n..|rows| - 1], x) <==> x in Rest(todo, chunk) || AskedFor(rows[n..], x)
    ensures todo != [] ==> |Rest(todo, chunk)| < |todo|
  {
    var m := |rows| - 1;
    forall x ensures AskedFor(rows[n..], x) <==> AskedFor(rows[n..m], x) || x in Head(todo, chunk) {
      if AskedFor(rows[n..m], x) {
        var i :| 0 <= i < |rows[n..m]| && x in rows[n..m][i].ids;
        assert rows[n..][i] == rows[n..m][i];
      }
      if x in Head(todo, chunk) { assert x in rows[n..][m - n].ids; }
      if AskedFor(rows[n..], x) {
        var i :| 0 <= i < |rows[n..]| && x in rows[n..][i].ids;
        if i < m - n { assert rows[n..m][i] == rows[n..][i]; }
      }
    }
    assert todo == Head(todo, chunk) + Rest(todo, chunk);
  }

  lemma SubmitStage(w: World)
    requires Inv(w) && w.stage.SubmittingRound?
    ensures NoneUncertain(w.rows) && w.stage.chunk >= 1
  {
  }

  lemma SettledLast(rows: seq<Row>, intent: Row)
    requires NoneUncertain(rows) && intent.status == Submitting
    ensures Settled(rows + [intent]) == rows
  {
    assert (rows + [intent])[..|rows|] == rows;
    SettledNone(rows);
  }
}
