/**
 How an action is run: RunQuery and RunStatement of src/database.cpp, PStatement::Execute
 and Prepare of src/statement.cpp. The server is an oracle; what is asked of it is logged.
 */
module ActionRuns {
  import opened WaitfreeQueue

  const CR_SERVER_GONE_ERROR: nat := 2006
  const CR_SERVER_LOST: nat := 2013
  const SERVER_SHUTDOWN: nat := 1053
  const UNKNOWN_STATEMENT: nat := 1243

  predicate Lost(errno: nat) {
    errno == CR_SERVER_LOST || errno == CR_SERVER_GONE_ERROR || errno == SERVER_SHUTDOWN
  }

  /** What Connect does when it reconnects: it may also throw, from preparing the known statements again. */
  datatype Reconnect = Connected | Refused | Rethrown(error: nat)

  datatype Event =
    | Sent(errno: nat)
    | Reconnected(r: Reconnect)
    | Prepared(error: nat)              // 0 if it did not throw

  /** The error the code is left with (0 for none), or the exception it ends by. */
  datatype End = Reported(errno: nat) | Thrown(error: nat)

  // ------------------------------------------------- the dialogue

  /**
   Which dialogues are possible, given what has been tried before: after a lost
   connection, one reconnection; after an unknown statement, one preparation; nothing
   after any other answer.
   */
  ghost predicate Dialogue(log: seq<Event>, retried: bool, reprepared: bool, end: End)
    decreases |log|
  {
    log != [] && log[0].Sent? &&
    var e, rest := log[0].errno, log[1..];
    if Lost(e) && !retried then
      rest != [] && rest[0].Reconnected? &&
      match rest[0].r
      case Connected => Dialogue(rest[1..], true, reprepared, end)
      case Refused => |rest| == 1 && end == Reported(e)
      case Rethrown(x) => |rest| == 1 && end == Thrown(x)
    else if e == UNKNOWN_STATEMENT && !reprepared then
      rest != [] && rest[0].Prepared? &&
      if rest[0].error == 0 then Dialogue(rest[1..], retried, true, end)
      else |rest| == 1 && end == Thrown(rest[0].error)
    else rest == [] && end == Reported(e)
  }

  function Sends(log: seq<Event>): nat {
    if log == [] then 0 else (if log[0].Sent? then 1 else 0) + Sends(log[1..])
  }

  /** How often the server carried the command out. */
  function Successes(log: seq<Event>): nat {
    if log == [] then 0 else (if log[0] == Sent(0) then 1 else 0) + Successes(log[1..])
  }

  function LastSend(log: seq<Event>): nat {
    if log == [] then 0
    else if log[|log| - 1].Sent? then log[|log| - 1].errno
    else LastSend(log[..|log| - 1])
  }

  function Chances(retried: bool, reprepared: bool): nat {
    (if retried then 0 else 1) + (if reprepared then 0 else 1)
  }

  lemma {:induction false} LastSendLater(a: seq<Event>, b: seq<Event>)
    requires Sends(b) > 0
    ensures LastSend(a + b) == LastSend(b)
    decreases |b|
  {
    var n := |b| - 1;
    assert b != [];
    assert (a + b)[..|a| + n] == a + b[..n] && (a + b)[|a| + n] == b[n];
    if !b[n].Sent? {
      SendsFront(b);
      LastSendLater(a, b[..n]);
    }
  }

  lemma {:induction false} SendsFront(log: seq<Event>)
    requires log != []
    ensures Sends(log) == Sends(log[..|log| - 1]) + (if log[|log| - 1].Sent? then 1 else 0)
  {
    if |log| > 1 {
      SendsFront(log[1..]);
      assert log[1..][..|log| - 2] == log[..|log| - 1][1..];
    } else {
      assert log[..0] == [] && log[1..] == [];
    }
  }

  /**
   The command is sent at least once and at most once more for each chance left; what is
   reported is the answer to the last send; a command that was carried out is never sent
   again, and success is reported exactly when it was carried out.
   */
  lemma {:induction false} DialogueBounded(log: seq<Event>, retried: bool, reprepared: bool, end: End)
    requires Dialogue(log, retried, reprepared, end)
    ensures 1 <= Sends(log) <= 1 + Chances(retried, reprepared)
    ensures end.Reported? ==> end.errno == LastSend(log)
    ensures Successes(log) == if end == Reported(0) then 1 else 0
    decreases |log|
  {
    var e, rest := log[0].errno, log[1..];
    if rest == [] {
      assert log == [log[0]];
    } else {
      assert log == [log[0], rest[0]] + rest[1..];
      OneMore(log);
      var more := rest[0] == Reconnected(Connected) || rest[0] == Prepared(0);
      if more {
        DialogueBounded(rest[1..], retried || Lost(e), reprepared || !Lost(e) || retried, end);
        LastSendLater([log[0], rest[0]], rest[1..]);
      } else {
        assert rest == [rest[0]] && log == [log[0], rest[0]];
        assert log[..1] == [log[0]];
      }
    }
  }

  predicate Throws(e: Event) {
    (e.Reconnected? && e.r.Rethrown?) || (e.Prepared? && e.error != 0)
  }

  /** A dialogue ends by an exception just if one of its events threw. */
  lemma {:induction false} DialogueThrows(log: seq<Event>, retried: bool, reprepared: bool, end: End)
    requires Dialogue(log, retried, reprepared, end)
    ensures end.Thrown? <==> exists e :: e in log && Throws(e)
    ensures reprepared ==> forall e :: e in log ==> !e.Prepared?
    decreases |log|
  {
    var e, rest := log[0].errno, log[1..];
    if rest == [] {
      assert log == [log[0]];
    } else {
      assert log == [log[0], rest[0]] + rest[1..];
      if rest[0] == Reconnected(Connected) || rest[0] == Prepared(0) {
        DialogueThrows(rest[1..], retried || Lost(e), reprepared || !Lost(e) || retried, end);
      } else {
        assert log == [log[0], rest[0]] && rest[0] in log;
      }
    }
  }

  lemma {:induction false} OneMore(log: seq<Event>)
    requires |log| >= 2 && log[0].Sent? && !log[1].Sent?
    ensures Sends(log) == 1 + Sends(log[1..][1..])
    ensures Successes(log) == (if log[0].errno == 0 then 1 else 0) + Successes(log[1..][1..])
  {
  }

  /** Both bounds are reached. */
  lemma ThreeSends()
    ensures Dialogue([Sent(2013), Reconnected(Connected), Sent(1243), Prepared(0), Sent(0)], false, false, Reported(0))
    ensures Dialogue([Sent(2013), Reconnected(Connected), Sent(0)], false, true, Reported(0))
  {
    var last: seq<Event> := [Sent(0)];
    assert Dialogue(last, true, true, Reported(0));
    var middle := [Sent(1243), Prepared(0)] + last;
    assert middle[1..][1..] == last;
    assert Dialogue(middle, true, false, Reported(0));
    var whole := [Sent(2013), Reconnected(Connected)] + middle;
    assert whole[1..][1..] == middle;
    assert whole == [Sent(2013), Reconnected(Connected), Sent(1243), Prepared(0), Sent(0)];
    var query := [Sent(2013), Reconnected(Connected)] + last;
    assert query[1..][1..] == last;
    assert query == [Sent(2013), Reconnected(Connected), Sent(0)];
  }

  // ------------------------------------------------- the same, place by place

  ghost predicate NoneBefore(log: seq<Event>, i: nat, reconnects: bool)
    requires i <= |log|
  {
    forall j :: 0 <= j < i ==> if reconnects then !log[j].Reconnected? else !log[j].Prepared?
  }

  /**
   After an answer at place `i` the connection is made anew if and only if the error is
   2006, 2013 or 1053 and it has not been made anew before, the statement is prepared
   again if and only if the error is 1243 and it has not been before, and otherwise that
   is the end.  After either the command is sent again if and only if it succeeded.
   `prepares` tells whether statements are prepared at all.
  */
  ghost predicate Answer(log: seq<Event>, i: nat, prepares: bool)
    requires i < |log|
  {
    match log[i]
    case Sent(e) =>
      && (i + 1 < |log| && log[i + 1].Reconnected? <==>
         (e == 2006 || e == 2013 || e == 1053) && NoneBefore(log, i, true))
      && (i + 1 < |log| && log[i + 1].Prepared? <==> prepares && e == 1243 && NoneBefore(log, i, false))
      && (i + 1 < |log| ==> !log[i + 1].Sent?)
    case Reconnected(r) => (i + 1 < |log| <==> r.Connected?) && (i + 1 < |log| ==> log[i + 1].Sent?)
    case Prepared(error) => (i + 1 < |log| <==> error == 0) && (i + 1 < |log| ==> log[i + 1].Sent?)
  }

  ghost predicate Answers(log: seq<Event>, prepares: bool) {
    log != [] && log[0].Sent? && forall i :: 0 <= i < |log| ==> Answer(log, i, prepares)
  }

  /** As `Answer`, with something tried before. */
  ghost predicate AnswerAfter(log: seq<Event>, i: nat, retried: bool, reprepared: bool)
    requires i < |log|
  {
    match log[i]
    case Sent(e) =>
      && (i + 1 < |log| && log[i + 1].Reconnected?
          <==> !retried && (e == 2006 || e == 2013 || e == 1053) && NoneBefore(log, i, true))
      && (i + 1 < |log| && log[i + 1].Prepared? <==> !reprepared && e == 1243 && NoneBefore(log, i, false))
      && (i + 1 < |log| ==> !log[i + 1].Sent?)
    case Reconnected(r) => (i + 1 < |log| <==> r.Connected?) && (i + 1 < |log| ==> log[i + 1].Sent?)
    case Prepared(error) => (i + 1 < |log| <==> error == 0) && (i + 1 < |log| ==> log[i + 1].Sent?)
  }

  lemma AnswerShift(two: seq<Event>, more: seq<Event>, i: nat, retried: bool, reprepared: bool)
    requires |two| == 2 && two[0].Sent? && !two[1].Sent? && i < |more|
    requires !(retried && two[1].Reconnected?) && !(reprepared && two[1].Prepared?)
    ensures AnswerAfter(two + more, i + 2, retried, reprepared)
         <==> AnswerAfter(more, i, retried || two[1].Reconnected?, reprepared || two[1].Prepared?)
  {
    var log := two + more;
    assert forall j :: 0 <= j < |more| ==> log[j + 2] == more[j];
    assert forall j :: 2 <= j < |log| ==> log[j] == more[j - 2];
    assert NoneBefore(log, i + 2, true) <==> !two[1].Reconnected? && NoneBefore(more, i, true) by {
      if NoneBefore(log, i + 2, true) {
        assert !log[1].Reconnected?;
        forall j | 0 <= j < i ensures !more[j].Reconnected? {
          assert !log[j + 2].Reconnected?;
        }
      }
    }
    assert NoneBefore(log, i + 2, false) <==> !two[1].Prepared? && NoneBefore(more, i, false) by {
      if NoneBefore(log, i + 2, false) {
        assert !log[1].Prepared?;
        forall j | 0 <= j < i ensures !more[j].Prepared? {
          assert !log[j + 2].Prepared?;
        }
      }
    }
  }

  lemma {:induction false} DialogueAfter(log: seq<Event>, retried: bool, reprepared: bool, end: End)
    requires Dialogue(log, retried, reprepared, end)
    ensures forall i :: 0 <= i < |log| ==> AnswerAfter(log, i, retried, reprepared)
    decreases |log|
  {
    var rest := log[1..];
    if rest != [] && (rest[0] == Reconnected(Connected) || rest[0] == Prepared(0)) {
      var two, more := [log[0], rest[0]], rest[1..];
      assert log == two + more;
      DialogueAfter(more, retried || two[1].Reconnected?, reprepared || two[1].Prepared?, end);
      assert more[0].Sent?;
      forall i | 0 <= i < |log| ensures AnswerAfter(log, i, retried, reprepared) {
        if i >= 2 {
          AnswerShift(two, more, i - 2, retried, reprepared);
        }
      }
    }
  }

  /** Every dialogue answers so at every place. */
  lemma DialogueAnswers(log: seq<Event>, queries: bool, end: End)
    requires Dialogue(log, false, queries, end)
    ensures Answers(log, !queries)
  {
    hide Dialogue;
    DialogueAfter(log, false, queries, end);
    assert log != [] && log[0].Sent? by { DialogueStarts(log, queries, end); }
    var prepares := !queries;
    forall i | 0 <= i < |log| ensures Answer(log, i, prepares) {
      assert AnswerAfter(log, i, false, queries);
    }
  }

  lemma {:induction false} AfterDialogue(log: seq<Event>, retried: bool, reprepared: bool) returns (end: End)
    requires log != [] && log[0].Sent? && forall i :: 0 <= i < |log| ==> AnswerAfter(log, i, retried, reprepared)
    ensures Dialogue(log, retried, reprepared, end)
    decreases |log|
  {
    var e := log[0].errno;
    assert AnswerAfter(log, 0, retried, reprepared);
    if |log| == 1 {
      end := Reported(e);
    } else {
      assert AnswerAfter(log, 1, retried, reprepared);
      if |log| == 2 {
        end := match log[1] case Reconnected(r) => Unanswered(e, r) case Prepared(error) => Thrown(error);
      } else {
        var two, more := [log[0], log[1]], log[2..];
        assert log == two + more && log[1..][1..] == more;
        var retried', reprepared' := retried || two[1].Reconnected?, reprepared || two[1].Prepared?;
        forall i | 0 <= i < |more| ensures AnswerAfter(more, i, retried', reprepared') {
          assert AnswerAfter(log, i + 2, retried, reprepared);
          AnswerShift(two, more, i, retried, reprepared);
        }
        end := AfterDialogue(more, retried', reprepared');
      }
    }
  }

  /** And whatever answers so is a dialogue. */
  lemma AnswersDialogue(log: seq<Event>, queries: bool) returns (end: End)
    requires Answers(log, !queries)
    ensures Dialogue(log, false, queries, end)
  {
    var prepares := !queries;
    forall i | 0 <= i < |log| ensures AnswerAfter(log, i, false, queries) {
      assert Answer(log, i, prepares);
    }
    end := AfterDialogue(log, false, queries);
  }

  lemma DialogueStarts(log: seq<Event>, queries: bool, end: End)
    requires Dialogue(log, false, queries, end)
    ensures log != [] && log[0].Sent?
  {
  }

  // ------------------------------------------------- a dialogue that is under way

  /** After `run` any dialogue with the chances left completes a dialogue with those there were at first. */
  ghost predicate UnderWay(run: seq<Event>, first: bool, retried: bool, reprepared: bool) {
    forall more, e :: Dialogue(more, retried, reprepared, e) ==> Dialogue(run + more, false, first, e)
  }

  lemma Begin(first: bool)
    ensures UnderWay([], first, false, first)
  {
    forall more: seq<Event>, e | Dialogue(more, false, first, e) ensures Dialogue([] + more, false, first, e) {
      assert [] + more == more;
    }
  }

  lemma {:induction false} Completed(run: seq<Event>, first: bool, retried: bool, reprepared: bool, more: seq<Event>,
                                     end: End)
    requires UnderWay(run, first, retried, reprepared) && Dialogue(more, retried, reprepared, end)
    ensures Dialogue(run + more, false, first, end)
  {
  }

  lemma Longer(two: seq<Event>, more: seq<Event>)
    requires |two| == 2
    ensures (two + more)[1..][1..] == more && (two + more)[0] == two[0] && (two + more)[1..][0] == two[1]
  {
  }

  lemma {:induction false} OneTurn(two: seq<Event>, more: seq<Event>, retried: bool, reprepared: bool, retried': bool,
                                   reprepared': bool, end: End)
    requires Dialogue(more, retried', reprepared', end) && |two| == 2 && two[0].Sent?
    requires
      var e := two[0].errno;
      || (Lost(e) && !retried && two[1] == Reconnected(Connected) && retried' && reprepared' == reprepared)
      || (e == UNKNOWN_STATEMENT && !reprepared && two[1] == Prepared(0) && retried' == retried && reprepared')
    ensures Dialogue(two + more, retried, reprepared, end)
  {
    Longer(two, more);
  }

  lemma Again(run: seq<Event>, first: bool, retried: bool, reprepared: bool, two: seq<Event>,
              retried': bool, reprepared': bool)
    requires UnderWay(run, first, retried, reprepared) && |two| == 2 && two[0].Sent?
    requires
      var e := two[0].errno;
      || (Lost(e) && !retried && two[1] == Reconnected(Connected) && retried' && reprepared' == reprepared)
      || (e == UNKNOWN_STATEMENT && !reprepared && two[1] == Prepared(0) && retried' == retried && reprepared')
    ensures UnderWay(run + two, first, retried', reprepared')
  {
    hide Dialogue, Lost;
    forall more, e | Dialogue(more, retried', reprepared', e) ensures Dialogue((run + two) + more, false, first, e) {
      OneTurn(two, more, retried, reprepared, retried', reprepared', e);
      assert (run + two) + more == run + (two + more);
    }
  }

  /** The ways a dialogue ends. */
  lemma {:induction false} LastWord(errno: nat, retried: bool, reprepared: bool)
    requires !(Lost(errno) && !retried) && !(errno == UNKNOWN_STATEMENT && !reprepared)
    ensures Dialogue([Sent(errno)], retried, reprepared, Reported(errno))
  {
  }

  function Unanswered(errno: nat, r: Reconnect): End {
    if r.Rethrown? then Thrown(r.error) else Reported(errno)
  }

  lemma {:induction false} LastReconnect(errno: nat, r: Reconnect, reprepared: bool)
    requires Lost(errno) && !r.Connected?
    ensures Dialogue([Sent(errno), Reconnected(r)], false, reprepared, Unanswered(errno, r))
  {
    var log := [Sent(errno), Reconnected(r)];
    assert log[1..] == [Reconnected(r)];
  }

  lemma {:induction false} LastPrepare(error: nat, retried: bool)
    requires error != 0
    ensures Dialogue([Sent(UNKNOWN_STATEMENT), Prepared(error)], retried, false, Thrown(error))
  {
    var log := [Sent(UNKNOWN_STATEMENT), Prepared(error)];
    assert log[1..] == [Prepared(error)];
  }

  // ------------------------------------------------- the server

  class Server {
    var log: seq<Event>
    /** What the last preparation gave: a handle, and the number of parameters. */
    var handle: nat
    var params: nat

    constructor ()
      ensures log == []
    {
      log, handle, params := [], 0, 0;
    }

    /** mysql_real_query and mysql_stmt_execute. */
    method Send() returns (errno: nat)
      modifies this`log
      ensures log == old(log) + [Sent(errno)]
    {
      errno := *;
      log := log + [Sent(errno)];
    }

    /** Connect(err, true). */
    method Connect() returns (r: Reconnect)
      modifies this`log
      ensures log == old(log) + [Reconnected(r)]
    {
      r := *;
      log := log + [Reconnected(r)];
    }

    /** mysql_stmt_init and mysql_stmt_prepare: a handle (0 for none), an error, and the number of parameters. */
    method PrepareStatement() returns (given: nat, error: nat, args: nat)
      modifies this
      ensures log == old(log) + [Prepared(error)] && (given == 0 ==> error != 0)
      ensures given == handle && args == params
    {
      given, error, args := *, *, *;
      if given == 0 && error == 0 {
        error := UNKNOWN_STATEMENT;
      }
      log, handle, params := log + [Prepared(error)], given, args;
    }
  }

  // ------------------------------------------------- prepared statements

  class PStatement {
    var stmt: nat
    var numArgs: nat
    /** The handles that have been opened and not closed. */
    ghost var open: multiset<nat>

    ghost predicate Valid()
      reads this
    {
      open == if stmt == 0 then multiset{} else multiset{stmt}
    }

    constructor ()
      ensures Valid() && stmt == 0
    {
      stmt, numArgs, open := 0, 0, multiset{};
    }

    /** Closes the old handle and opens a new one: there is never more than one, whatever is thrown. */
    method Prepare(server: Server) returns (error: nat)
      requires Valid()
      modifies this, server
      ensures Valid()
      ensures server.log == old(server.log) + [Prepared(error)]
      ensures stmt == server.handle && (error == 0 ==> stmt != 0)
      ensures numArgs == if error == 0 then server.params else old(numArgs)
    {
      if stmt != 0 {
        open := open - multiset{stmt};
      }
      var handle, args;
      handle, error, args := server.PrepareStatement();
      stmt := handle;
      if handle != 0 {
        open := open + multiset{handle};
      }
      if error == 0 {
        numArgs := args;
      }
    }

    /** The dialogue of a statement, with both chances. */
    method Execute(server: Server) returns (end: End, ghost run: seq<Event>)
      requires Valid()
      modifies this, server
      ensures Valid()
      ensures server.log == old(server.log) + run && Dialogue(run, false, false, end) && Answers(run, true)
    {
      hide Dialogue, UnderWay, Answers;
      var hasRetried, hasRetriedStatement, errorno := false, false, 0;
      var again := true;
      run := [];
      Begin(false);
      while again
        invariant Valid() && server.log == old(server.log) + run
        invariant again ==> UnderWay(run, false, hasRetried, hasRetriedStatement)
        invariant !again ==> Dialogue(run, false, false, Reported(errorno))
        decreases again, Chances(hasRetried, hasRetriedStatement)
      {
        again := false;
        errorno := server.Send();
        if errorno != 0 && !hasRetried && Lost(errorno) {
          hasRetried := true;
          var r := server.Connect();
          ghost var two := [Sent(errorno), Reconnected(r)];
          match r {
            case Connected =>
              Again(run, false, false, hasRetriedStatement, two, true, hasRetriedStatement);
              again := true;
            case _ =>
              LastReconnect(errorno, r, hasRetriedStatement);
              Completed(run, false, false, hasRetriedStatement, two, Unanswered(errorno, r));
          }
          run := run + two;
          if r.Rethrown? {
            DialogueAnswers(run, false, Thrown(r.error));
            return Thrown(r.error), run;
          }
        } else if errorno != 0 && !hasRetriedStatement && errorno == UNKNOWN_STATEMENT {
          var error := Prepare(server);
          ghost var two := [Sent(errorno), Prepared(error)];
          if error != 0 {
            LastPrepare(error, hasRetried);
            Completed(run, false, hasRetried, false, two, Thrown(error));
            DialogueAnswers(run + two, false, Thrown(error));
            return Thrown(error), run + two;
          }
          Again(run, false, hasRetried, false, two, hasRetried, true);
          run := run + two;
          hasRetriedStatement := true;
          again := true;
        } else {
          LastWord(errorno, hasRetried, hasRetriedStatement);
          Completed(run, false, hasRetried, hasRetriedStatement, [Sent(errorno)], Reported(errorno));
          run := run + [Sent(errorno)];
        }
      }
      end := Reported(errorno);
      DialogueAnswers(run, false, end);
    }
  }

  // ------------------------------------------------- actions

  /** `more` further result sets follow the first. */
  function Results(end: End, more: nat): (r: seq<Result>)
    ensures r != []
  {
    match end
    case Reported(errno) => if errno != 0 then [Failure(errno)] else seq(1 + more, i => Rows)
    case Thrown(error) => [Failure(error)]
  }

  /** The results of what the server answered to the last send. */
  method Collect(action: DatabaseAction, errno: nat, more: nat)
    modifies action`results
    ensures action.results == old(action.results) + Results(Reported(errno), more)
  {
    ghost var before := action.results;
    if errno != 0 {
      action.AddResult(Failure(errno));
      return;
    }
    action.AddResult(Rows);
    var left := more;
    while left > 0
      invariant 0 <= left <= more && action.results == before + seq(1 + more - left, i => Rows)
    {
      action.AddResult(Rows);
      left := left - 1;
    }
  }

  /** RunStatement: an exception is caught, and the action is pushed whatever happened. */
  method RunStatement(stmt: PStatement, server: Server, queue: Queue, action: DatabaseAction, more: nat, failures: nat)
    returns (ghost end: End, ghost run: seq<Event>)
    requires stmt.Valid() && queue.Valid() && action !in queue.items
    modifies stmt, server, queue, action
    ensures stmt.Valid() && queue.Valid() && queue.items == [action] + old(queue.items)
    ensures action.results == old(action.results) + Results(end, more)
    ensures server.log == old(server.log) + run && Dialogue(run, false, false, end) && 1 <= Sends(run) <= 3
    ensures Answers(run, true)
  {
    hide Answers, Dialogue, Chain, Distinct;
    var left;
    left, run := stmt.Execute(server);
    end := left;
    DialogueBounded(run, false, false, end);
    match left {
      case Thrown(error) => action.AddResult(Failure(error));
      case Reported(errno) => Collect(action, errno, more);
    }
    queue.Push(action, failures);
  }

  /** The dialogue of a query, with no second chance for an unknown statement. */
  method Ask(server: Server) returns (end: End, ghost run: seq<Event>)
    modifies server
    ensures server.log == old(server.log) + run && Dialogue(run, false, true, end) && Answers(run, false)
  {
    hide Dialogue, UnderWay, Answers;
    var hasRetried, errorno := false, 0;
    var again := true;
    run := [];
    Begin(true);
    while again
      invariant server.log == old(server.log) + run
      invariant again ==> UnderWay(run, true, hasRetried, true)
      invariant !again ==> Dialogue(run, false, true, Reported(errorno))
      decreases again, Chances(hasRetried, true)
    {
      again := false;
      errorno := server.Send();
      if errorno != 0 && !hasRetried && Lost(errorno) {
        hasRetried := true;
        var r := server.Connect();
        ghost var two := [Sent(errorno), Reconnected(r)];
        match r {
          case Connected =>
            Again(run, true, false, true, two, true, true);
            again := true;
          case _ =>
            LastReconnect(errorno, r, true);
            Completed(run, true, false, true, two, Unanswered(errorno, r));
        }
        run := run + two;
        if r.Rethrown? {
          DialogueAnswers(run, true, Thrown(r.error));
          return Thrown(r.error), run;
        }
      } else {
        LastWord(errorno, hasRetried, true);
        Completed(run, true, hasRetried, true, [Sent(errorno)], Reported(errorno));
        run := run + [Sent(errorno)];
      }
    }
    end := Reported(errorno);
    DialogueAnswers(run, true, end);
  }

  /** RunQuery: nothing is caught, so the query is pushed exactly if reconnecting did not throw. */
  method RunQuery(server: Server, queue: Queue, query: DatabaseAction, more: nat, failures: nat)
    returns (ghost end: End, ghost run: seq<Event>)
    requires queue.Valid() && query !in queue.items
    modifies server, queue, query
    ensures queue.Valid()
    ensures (forall x :: Reconnected(Rethrown(x)) !in run) ==>
      queue.items == [query] + old(queue.items) && query.results == old(query.results) + Results(end, more)
    ensures (exists x :: Reconnected(Rethrown(x)) in run) ==>
      queue.items == old(queue.items) && query.results == old(query.results)
    ensures server.log == old(server.log) + run && Dialogue(run, false, true, end) && 1 <= Sends(run) <= 2
    ensures Answers(run, false)
  {
    hide Answers, Dialogue, Chain, Distinct;
    var left;
    left, run := Ask(server);
    end := left;
    DialogueBounded(run, false, true, end);
    DialogueThrows(run, false, true, end);
    match left {
      case Thrown(error) =>
        ghost var e :| e in run && Throws(e);
        assert e == Reconnected(Rethrown(e.r.error));
      case Reported(errno) =>
        Collect(query, errno, more);
        queue.Push(query, failures);
    }
  }
}
