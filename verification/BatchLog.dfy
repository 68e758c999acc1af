/**
 The results file of a batch run: one row per line, appended, with a last line that a killed run may
 have left half written; and what the run reads back from it.
 */
module BatchLog {
  import opened Prelude

  type Req = nat

  /** A result row; no content is a failed attempt. */
  datatype Reply = Reply(id: Req, content: Option<nat>)

  /** What follows the last newline: nothing, a row cut short, or a whole row without its newline. */
  datatype Tail = Nothing | Half | Unended(reply: Reply)

  /** The lines that end in a newline (None: one that does not parse), and the tail. */
  datatype File = File(lines: seq<Option<Reply>>, tail: Tail)

  const NO_FILE := File([], Nothing)

  function Readable(lines: seq<Option<Reply>>): seq<Reply> {
    if lines == [] then []
    else Readable(lines[..|lines| - 1]) + (if lines[|lines| - 1].Some? then [lines[|lines| - 1].value] else [])
  }

  /** The rows the file holds, unreadable lines skipped. */
  function Rows(file: File): seq<Reply> {
    Readable(file.lines) + (if file.tail.Unended? then [file.tail.reply] else [])
  }

  /** The file after a newline has ended whatever a killed run left. */
  function Ended(file: File): File {
    match file.tail
    case Nothing => file
    case Half => File(file.lines + [None], Nothing)
    case Unended(reply) => File(file.lines + [Some(reply)], Nothing)
  }

  function Lines(replies: seq<Reply>): seq<Option<Reply>> {
    seq(|replies|, i requires 0 <= i < |replies| => Some(replies[i]))
  }

  /** Where a write is cut short: before the newline that ends the old tail, or after some whole rows and
      then perhaps part of the next. */
  datatype Cut = BeforeNewline | After(whole: nat, tail: Tail)

  /** The file after appending; killed at `cut`, or not at all. */
  function Append(file: File, replies: seq<Reply>, cut: Option<Cut>): File {
    match cut
    case None => File(Ended(file).lines + Lines(replies), Nothing)
    case Some(BeforeNewline) => file
    case Some(After(whole, tail)) => File(Ended(file).lines + Lines(if whole <= |replies| then replies[..whole] else replies), tail)
  }

  /** A cut leaves a prefix of what was being written. */
  predicate Prefix(replies: seq<Reply>, cut: Option<Cut>) {
    match cut
    case Some(After(whole, tail)) =>
      whole <= |replies| && (tail != Nothing ==> whole < |replies|) && (tail.Unended? ==> tail.reply == replies[whole])
    case _ => true
  }

  lemma {:induction false} ReadableAppend(a: seq<Option<Reply>>, b: seq<Option<Reply>>)
    ensures Readable(a + b) == Readable(a) + Readable(b)
  {
    if b == [] {
      assert a + b == a;
    } else {
      ReadableAppend(a, b[..|b| - 1]);
      assert (a + b)[..|a + b| - 1] == a + b[..|b| - 1];
    }
  }

  lemma {:induction false} ReadableLines(replies: seq<Reply>)
    ensures Readable(Lines(replies)) == replies
  {
    if replies != [] {
      var n := |replies| - 1;
      ReadableLines(replies[..n]);
      assert Lines(replies)[..n] == Lines(replies[..n]);
      assert replies == replies[..n] + [replies[n]];
    }
  }

  lemma EndedRows(file: File)
    ensures Rows(Ended(file)) == Rows(file) && Ended(file).tail == Nothing
  {
    assert forall last: Option<Reply> :: (file.lines + [last])[..|file.lines|] == file.lines;
  }

  /** Whatever moment a run is killed at while it appends, the rows read back are the old ones, in order,
      followed by some of the new ones, in order; all of them if it is not killed. */
  lemma AppendRows(file: File, replies: seq<Reply>, cut: Option<Cut>)
    requires Prefix(replies, cut)
    ensures exists k :: 0 <= k <= |replies| && Rows(Append(file, replies, cut)) == Rows(file) + replies[..k] && (cut.None? ==> k == |replies|)
  {
    hide Readable, Lines, Ended;
    EndedRows(file);
    var was := Ended(file).lines;
    match cut
    case None =>
      ReadableAppend(was, Lines(replies));
      ReadableLines(replies);
      assert replies[..|replies|] == replies;
    case Some(BeforeNewline) =>
      assert Rows(file) + replies[..0] == Rows(file);
    case Some(After(whole, tail)) =>
      ReadableAppend(was, Lines(replies[..whole]));
      ReadableLines(replies[..whole]);
      if tail.Unended? {
        assert replies[..whole + 1] == replies[..whole] + [replies[whole]];
        assert Rows(Append(file, replies, cut)) == Rows(file) + replies[..whole + 1];
      } else {
        assert Rows(Append(file, replies, cut)) == Rows(file) + replies[..whole];
      }
  }

  // ------------------------------------------------------------------ reading back

  /** The latest row of each id, but a row with content is never replaced by a later failure. */
  function Results(rows: seq<Reply>): map<Req, Reply> {
    if rows == [] then map[] else
    var before, row := Results(rows[..|rows| - 1]), rows[|rows| - 1];
    if row.content.Some? || row.id !in before then before[row.id := row] else before
  }

  /** `row` is an attempt at `id` with content, and no later one has any. */
  ghost predicate LastContent(rows: seq<Reply>, id: Req, row: Reply) {
    exists i :: 0 <= i < |rows| && rows[i] == row && row.id == id && row.content.Some?
                && forall j :: i < j < |rows| && rows[j].id == id ==> rows[j].content.None?
  }

  /** An id is reported exactly if it was attempted; with content exactly if some attempt had any, and
      then it is the last attempt that did. */
  lemma {:induction false} ResultsAre(rows: seq<Reply>, id: Req)
    ensures id in Results(rows) <==> exists i :: 0 <= i < |rows| && rows[i].id == id
    ensures id in Results(rows) ==> Results(rows)[id].id == id
    ensures id in Results(rows) && Results(rows)[id].content.Some? <==> exists i :: 0 <= i < |rows| && rows[i].id == id && rows[i].content.Some?
    ensures id in Results(rows) && Results(rows)[id].content.Some? ==> LastContent(rows, id, Results(rows)[id])
  {
    if rows != [] {
      var n := |rows| - 1;
      var before := rows[..n];
      ResultsAre(before, id);
      assert forall i :: 0 <= i < n ==> before[i] == rows[i];
      if id in Results(rows) && Results(rows)[id].content.Some? {
        if rows[n].id == id && rows[n].content.Some? {
          assert LastContent(rows, id, rows[n]);
        } else {
          var i :| 0 <= i < n && before[i] == Results(before)[id] && (forall j :: i < j < n && before[j].id == id ==> before[j].content.None?);
          assert rows[i] == Results(rows)[id];
        }
      }
    }
  }

  /** Content once reported stays reported, whatever is appended and wherever the append is cut. */
  lemma ContentIsKept(file: File, replies: seq<Reply>, cut: Option<Cut>, id: Req)
    requires Prefix(replies, cut) && id in Results(Rows(file)) && Results(Rows(file))[id].content.Some?
    ensures id in Results(Rows(Append(file, replies, cut))) && Results(Rows(Append(file, replies, cut)))[id].content.Some?
  {
    AppendRows(file, replies, cut);
    var rows, after := Rows(file), Rows(Append(file, replies, cut));
    ResultsAre(rows, id);
    ResultsAre(after, id);
    var i :| 0 <= i < |rows| && rows[i].id == id && rows[i].content.Some?;
    assert after[i] == rows[i];
  }

  lemma AppendKeeps(file: File, replies: seq<Reply>, cut: Option<Cut>)
    requires Prefix(replies, cut)
    ensures Rows(file) <= Rows(Append(file, replies, cut)) && (cut.None? ==> Rows(Append(file, replies, cut)) == Rows(file) + replies)
    ensures forall id :: id in Results(Rows(file)) && Results(Rows(file))[id].content.Some? ==>
              id in Results(Rows(Append(file, replies, cut))) && Results(Rows(Append(file, replies, cut)))[id].content.Some?
  {
    hide Rows, Results, Append, Prefix;
    AppendRows(file, replies, cut);
    assert replies[..|replies|] == replies;
    forall id | id in Results(Rows(file)) && Results(Rows(file))[id].content.Some?
      ensures id in Results(Rows(Append(file, replies, cut))) && Results(Rows(Append(file, replies, cut)))[id].content.Some?
    {
      ContentIsKept(file, replies, cut, id);
    }
  }

  lemma WholeRows(replies: seq<Reply>, cut: Option<Cut>)
    requires Prefix(replies, cut)
    ensures cut.Some? && cut.value.After? ==> cut.value.whole <= |replies|
  {
  }

  /** A later failure replaces nothing: the reply reported for an id with content stays the very same until
      another reply with content comes. */
  lemma FailureReplacesNothing(rows: seq<Reply>, more: seq<Reply>, id: Req)
    requires id in Results(rows) && Results(rows)[id].content.Some?
    requires forall i :: 0 <= i < |more| && more[i].id == id ==> more[i].content.None?
    ensures id in Results(rows + more) && Results(rows + more)[id] == Results(rows)[id]
    decreases |more|
  {
    if more == [] {
      assert rows + more == rows;
    } else {
      var n := |more| - 1;
      FailureReplacesNothing(rows, more[..n], id);
      assert (rows + more)[..|rows + more| - 1] == rows + more[..n];
    }
  }

  // ------------------------------------------------------------------ the object

  class ResultsStore {
    var file: File

    /** Appends rows, ending a half line first. `killed`: where the process dies, if it does. */
    method AddResults(replies: seq<Reply>, killed: Option<Cut>)
      requires Prefix(replies, killed)
      modifies this
      ensures file == Append(old(file), replies, killed)
      ensures Rows(old(file)) <= Rows(file) && (killed.None? ==> Rows(file) == Rows(old(file)) + replies)
      ensures forall id :: id in Results(Rows(old(file))) && Results(Rows(old(file)))[id].content.Some? ==>
                id in Results(Rows(file)) && Results(Rows(file))[id].content.Some?
    {
      hide Rows, Results, Readable, Prefix;
      ghost var before := file;
      AppendKeeps(before, replies, killed);
      WholeRows(replies, killed);
      assert replies[..|replies|] == replies;
      if killed == Some(BeforeNewline) { return; }
      match file.tail {
        case Nothing =>
        case Half => file := File(file.lines + [None], Nothing);
        case Unended(reply) => file := File(file.lines + [Some(reply)], Nothing);
      }
      var whole := if killed.Some? then killed.value.whole else |replies|;
      for i := 0 to whole
        invariant file == File(Ended(before).lines + Lines(replies[..i]), Nothing)
      {
        assert Lines(replies[..i + 1]) == Lines(replies[..i]) + [Some(replies[i])];
        file := File(file.lines + [Some(replies[i])], Nothing);
      }
      if killed.Some? { file := File(file.lines, killed.value.tail); }
    }

    /** Reads every row and keeps, per id, the last with content, or the first attempt. */
    method ReadResults() returns (out: map<Req, Reply>)
      ensures out == Results(Rows(file))
    {
      var rows := Rows(file);
      out := map[];
      for i := 0 to |rows|
        invariant out == Results(rows[..i])
      {
        assert rows[..i + 1][..i] == rows[..i];
        if rows[i].content.Some? || rows[i].id !in out { out := out[rows[i].id := rows[i]]; }
      }
      assert rows[..|rows|] == rows;
    }
  }
}
