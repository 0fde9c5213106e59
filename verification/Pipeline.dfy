/**
 The pipeline of src/database.cpp: the Lua thread posts actions, polls and disconnects; one
 worker thread runs what is posted, in order, and pushes it to the completed queue. Any
 interleaving of their steps; whatever the server answers.
 */
module Pipeline {
  import opened ActionRuns

  /** RunQuery or RunStatement. */
  datatype Kind = AQuery | AStatement

  /** What io_context holds. Actions are numbered in the order in which they are posted. */
  datatype Item = Act(id: nat, kind: Kind) | Create(text: string)

  /** Where the worker is inside the function it runs. */
  datatype Phase = Sending | Reconnecting | Preparing | Pushing

  /** `log` is the dialogue with the server so far; a query is begun with no chance to prepare again. */
  datatype Worker =
    | Waiting
    | Running(id: nat, kind: Kind, phase: Phase, log: seq<Event>, retried: bool, reprepared: bool)
    | Creating(text: string)
    | Exited

  /** Where Lua code runs: in a script, or inside a callback of lua_Poll or of Disconnect's drain. */
  datatype Place =
    | Script
    | Polling(rest: seq<nat>, inside: bool)
    | Draining(rest: seq<nat>, inside: bool)
  {
    /** Lua code is running, and can call into the module. */
    predicate Calls() {
      Script? || inside
    }
  }

  datatype Lua =
    | At(place: Place)
    | Spinning(place: Place, text: string)     // while (!task.completed)
    | Stopping                                 // while (!io_context.stopped())
    | Gone

  /** Whether CreateStatement has answered. */
  datatype Task = Pending | Created | Failed

  datatype State = State(
    posted: nat,               // actions posted so far, before Disconnect
    work: seq<Item>,
    worker: Worker,
    completed: seq<nat>,       // pushed and not yet popped, the oldest first
    pushed: seq<nat>,          // every push, in order
    triggered: seq<nat>,       // every callback, in order
    lua: Lua,
    task: Task,
    statements: set<string>,   // m_preparedStatements
    late: nat)                 // posted to an io_context that has stopped: never run

  // ------------------------------------------------- the Lua thread

  ghost predicate Post(s: State, s': State, kind: Kind) {
    && s.lua.At? && s.lua.place.Calls() && !s.lua.place.Draining?
    && s' == s.(posted := s.posted + 1, work := s.work + [Act(s.posted, kind)])
  }

  /** A callback of the drain can still post; nobody runs it. */
  ghost predicate PostLate(s: State, s': State) {
    s.lua.At? && s.lua.place.Calls() && s.lua.place.Draining? && s' == s.(late := s.late + 1)
  }

  /** lua_Prepare of a text that is not cached. */
  ghost predicate Prepare(s: State, s': State, text: string) {
    && s.lua.At? && s.lua.place.Calls() && !s.lua.place.Draining? && text !in s.statements
    && s' == s.(work := s.work + [Create(text)], lua := Spinning(s.lua.place, text), task := Pending)
  }

  ghost predicate PrepareLate(s: State, s': State, text: string) {
    && s.lua.At? && s.lua.place.Calls() && s.lua.place.Draining? && text !in s.statements
    && s' == s.(lua := Spinning(s.lua.place, text), task := Pending, late := s.late + 1)
  }

  /** task.completed has been seen: the new statement is entered in the map. */
  ghost predicate Emplace(s: State, s': State) {
    && s.lua.Spinning? && !s.task.Pending?
    && s' == s.(lua := At(s.lua.place),
       statements := if s.task.Created? then s.statements + {s.lua.text} else s.statements)
  }

  /** lua_Poll: pop_all. */
  ghost predicate Poll(s: State, s': State) {
    s.lua == At(Script) && s' == s.(lua := At(Polling(s.completed, false)), completed := [])
  }

  /** One turn of DispatchCompletedActions: the callback is entered. */
  ghost predicate Trigger(s: State, s': State) {
    && s.lua.At? && !s.lua.place.Calls() && s.lua.place.rest != []
    && var rest := s.lua.place.rest;
    s' == s.(triggered := s.triggered + [rest[0]], lua := At(s.lua.place.(rest := rest[1..], inside := true)))
  }

  /** The callback returns; the action is deleted. */
  ghost predicate Return(s: State, s': State) {
    && s.lua.At? && !s.lua.place.Script? && s.lua.place.inside
    && s' == s.(lua := At(s.lua.place.(inside := false)))
  }

  ghost predicate PollDone(s: State, s': State) {
    s.lua == At(Polling([], false)) && s' == s.(lua := At(Script))
  }

  /** Disconnect: io_work.reset(). */
  ghost predicate Disconnect(s: State, s': State) {
    s.lua == At(Script) && s' == s.(lua := Stopping)
  }

  /** io_context.stopped(): the completed actions are taken. */
  ghost predicate Drain(s: State, s': State) {
    s.lua == Stopping && s.worker.Exited? && s' == s.(lua := At(Draining(s.completed, false)), completed := [])
  }

  ghost predicate DrainDone(s: State, s': State) {
    s.lua == At(Draining([], false)) && s' == s.(lua := Gone)
  }

  // ------------------------------------------------- the worker

  ghost predicate Begin(s: State, s': State) {
    && s.worker.Waiting? && s.work != []
    && var item := s.work[0];
    s' == s.(work := s.work[1..],
             worker := if item.Act? then Running(item.id, item.kind, Sending, [], false, item.kind.AQuery?)
               else Creating(item.text))
  }

  /** Where the code goes after the answer `errno`. */
  function Answered(w: Worker, errno: nat): Worker
    requires w.Running?
  {
    var log := w.log + [Sent(errno)];
    if Lost(errno) && !w.retried then w.(phase := Reconnecting, log := log, retried := true)
    else if errno == UNKNOWN_STATEMENT && !w.reprepared then w.(phase := Preparing, log := log)
    else w.(phase := Pushing, log := log)
  }

  ghost predicate Send(s: State, s': State, errno: nat) {
    s.worker.Running? && s.worker.phase.Sending? && s' == s.(worker := Answered(s.worker, errno))
  }

  /** Connect reads the statement map. A query is assumed not to meet an exception here. */
  ghost predicate Reconnects(s: State, s': State, r: Reconnect) {
    && s.worker.Running? && s.worker.phase.Reconnecting? && (r.Rethrown? ==> s.worker.kind.AStatement?)
    && s' == s.(worker := s.worker.(phase := if r.Connected? then Sending else Pushing,
       log := s.worker.log + [Reconnected(r)]))
  }

  ghost predicate Reprepares(s: State, s': State, error: nat) {
    && s.worker.Running? && s.worker.phase.Preparing?
    && s' == s.(worker := s.worker.(phase := if error == 0 then Sending else Pushing,
       log := s.worker.log + [Prepared(error)],
                                    reprepared := s.worker.reprepared || error == 0))
  }

  ghost predicate Push(s: State, s': State) {
    && s.worker.Running? && s.worker.phase.Pushing?
    && s' == s.(worker := Waiting, completed := s.completed + [s.worker.id], pushed := s.pushed + [s.worker.id])
  }

  /** CreateStatement ends by setting task->completed. */
  ghost predicate Answer(s: State, s': State, ok: bool) {
    s.worker.Creating? && s' == s.(worker := Waiting, task := if ok then Created else Failed)
  }

  /** run() returns when the work guard is gone and nothing is left. */
  ghost predicate Exit(s: State, s': State) {
    s.worker.Waiting? && s.work == [] && s.lua == Stopping && s' == s.(worker := Exited)
  }

  datatype Step =
    | DoPost(kind: Kind) | DoPostLate | DoPrepare(text: string) | DoPrepareLate(text: string) | DoEmplace
    | DoPoll | DoTrigger | DoReturn | DoPollDone | DoDisconnect | DoDrain | DoDrainDone
    | DoBegin | DoSend(errno: nat) | DoReconnect(r: Reconnect) | DoReprepare(error: nat) | DoPush | DoAnswer(ok: bool)
      | DoExit

  ghost predicate LuaStep(s: State, s': State, step: Step) {
    match step
    case DoPost(kind) => Post(s, s', kind)
    case DoPostLate => PostLate(s, s')
    case DoPrepare(text) => Prepare(s, s', text)
    case DoPrepareLate(text) => PrepareLate(s, s', text)
    case DoEmplace => Emplace(s, s')
    case DoPoll => Poll(s, s')
    case DoTrigger => Trigger(s, s')
    case DoReturn => Return(s, s')
    case DoPollDone => PollDone(s, s')
    case DoDisconnect => Disconnect(s, s')
    case DoDrain => Drain(s, s')
    case DoDrainDone => DrainDone(s, s')
    case _ => false
  }

  ghost predicate WorkerStep(s: State, s': State, step: Step) {
    match step
    case DoBegin => Begin(s, s')
    case DoSend(errno) => Send(s, s', errno)
    case DoReconnect(r) => Reconnects(s, s', r)
    case DoReprepare(error) => Reprepares(s, s', error)
    case DoPush => Push(s, s')
    case DoAnswer(ok) => Answer(s, s', ok)
    case DoExit => Exit(s, s')
    case _ => false
  }

  ghost predicate Next(s: State, s': State, step: Step) {
    LuaStep(s, s', step) || WorkerStep(s, s', step)
  }

  ghost predicate Init(s: State) {
    && s.posted == 0 && s.work == [] && s.worker == Waiting && s.completed == [] && s.pushed == [] && s.triggered == []
    && s.lua == At(Script) && s.statements == {} && s.late == 0 && s.task == Failed
  }

  // ------------------------------------------------- what every step keeps

  function UpTo(n: nat): (r: seq<nat>)
    ensures |r| == n && forall i :: 0 <= i < n ==> r[i] == i
  {
    seq(n, i => i)
  }

  /** The actions among the items, in order. */
  function Ids(work: seq<Item>): seq<nat> {
    if work == [] then [] else
      Ids(work[..|work| - 1]) + (if work[|work| - 1].Act? then [work[|work| - 1].id] else [])
  }

  /** What has been popped and not yet triggered. */
  function Held(lua: Lua): seq<nat> {
    match lua
    case At(place) => if place.Script? then [] else place.rest
    case Spinning(place, _) => if place.Script? then [] else place.rest
    case _ => []
  }

  function Current(w: Worker): seq<nat> {
    if w.Running? then [w.id] else []
  }

  predicate Closing(lua: Lua) {
    lua.Gone? || ((lua.At? || lua.Spinning?) && lua.place.Draining?)
  }

  predicate Creates(work: seq<Item>) {
    exists i :: 0 <= i < |work| && work[i].Create?
  }

  /** Every action posted is in one place, and the places in order give the actions in order. */
  ghost predicate OrderOk(s: State) {
    && s.pushed == s.triggered + Held(s.lua) + s.completed
    && s.pushed + Current(s.worker) + Ids(s.work) == UpTo(s.posted)
  }

  ghost predicate Ended(log: seq<Event>, kind: Kind) {
    exists end :: Dialogue(log, false, kind.AQuery?, end)
  }

  /** What has been said to the server is the beginning of a dialogue, and before the push a whole one. */
  ghost predicate LogOk(w: Worker) {
    w.Running? ==>
      var first, n := w.kind.AQuery?, |w.log| - 1;
      match w.phase
      case Sending => UnderWay(w.log, first, w.retried, w.reprepared)
      case Reconnecting =>
        w.retried && n >= 0 && w.log[n].Sent? && Lost(w.log[n].errno)
          && UnderWay(w.log[..n], first, false, w.reprepared)
      case Preparing =>
        !w.reprepared && n >= 0 && w.log[n] == Sent(UNKNOWN_STATEMENT) && UnderWay(w.log[..n], first, w.retried, false)
      case Pushing => Ended(w.log, w.kind)
  }

  /** A request of lua_Prepare is the last thing the worker will do, and once it is answered nothing is left. */
  ghost predicate TaskOk(s: State) {
    if s.lua.Spinning? && !s.lua.place.Draining? then
      if s.task.Pending? then
        || (s.work != [] && s.work[|s.work| - 1] == Create(s.lua.text) && !Creates(s.work[..|s.work| - 1])
          && !s.worker.Creating?)
        || (s.work == [] && s.worker == Creating(s.lua.text))
      else s.work == [] && s.worker.Waiting?
    else !Creates(s.work) && !s.worker.Creating?
  }

  ghost predicate ClosedOk(s: State) {
    && (s.worker.Exited? ==> s.work == [] && (s.lua.Stopping? || Closing(s.lua)))
    && (Closing(s.lua) ==> s.worker.Exited? && s.completed == [])
    && (s.lua.Spinning? && s.lua.place.Draining? ==> s.task.Pending?)
    && (s.lua.Gone? ==> Held(s.lua) == [])
  }

  ghost predicate Inv(s: State) {
    OrderOk(s) && LogOk(s.worker) && TaskOk(s) && ClosedOk(s)
  }

  // ------------------------------------------------- steps of the Lua thread

  lemma {:induction false} IdsLast(work: seq<Item>, item: Item)
    ensures Ids(work + [item]) == Ids(work) + (if item.Act? then [item.id] else [])
  {
    assert (work + [item])[..|work|] == work;
  }

  lemma {:induction false} IdsFirst(work: seq<Item>)
    requires work != []
    ensures Ids(work) == (if work[0].Act? then [work[0].id] else []) + Ids(work[1..])
  {
    var n := |work| - 1;
    if n == 0 {
      assert work == [work[0]] && work[..0] == [] && work[1..] == [];
      assert Ids([]) == [];
    } else {
      IdsFirst(work[..n]);
      assert work[..n][1..] == work[1..][..n - 1] && work[1..][n - 1] == work[n];
      var a := if work[0].Act? then [work[0].id] else [];
      var z := if work[n].Act? then [work[n].id] else [];
      assert Ids(work) == (a + Ids(work[..n][1..])) + z;
      assert (a + Ids(work[..n][1..])) + z == a + (Ids(work[..n][1..]) + z);
    }
  }

  lemma PostKeeps(s: State, s': State, kind: Kind)
    requires Inv(s) && Post(s, s', kind)
    ensures Inv(s')
  {
    hide Ids, LogOk;
    IdsLast(s.work, Act(s.posted, kind));
    var before := s.pushed + Current(s.worker);
    assert before + (Ids(s.work) + [s.posted]) == (before + Ids(s.work)) + [s.posted];
    assert UpTo(s.posted) + [s.posted] == UpTo(s.posted + 1);
  }

  lemma PrepareKeeps(s: State, s': State, text: string)
    requires Inv(s) && Prepare(s, s', text)
    ensures Inv(s')
  {
    hide Ids, LogOk;
    IdsLast(s.work, Create(text));
    assert Ids(s.work) + [] == Ids(s.work);
    assert s'.work[..|s'.work| - 1] == s.work;
  }

  /** The steps that only move the Lua thread and what it holds. */
  lemma DispatchKeeps(s: State, s': State, step: Step)
    requires Inv(s) && LuaStep(s, s', step)
    requires step.DoPoll? || step.DoTrigger? || step.DoReturn? || step.DoPollDone? || step.DoDrain? || step.DoDrainDone?
    ensures Inv(s')
  {
    hide Ids, LogOk, Creates, UpTo;
    var held := Held(s.lua);
    if step.DoTrigger? {
      assert held == [held[0]] + held[1..];
      assert s.triggered + held == (s.triggered + [held[0]]) + held[1..];
    } else {
      assert s.triggered + [] == s.triggered;
      assert s.triggered + s.completed == s.triggered + s.completed + [];
    }
  }

  lemma OtherLuaKeeps(s: State, s': State, step: Step)
    requires Inv(s) && LuaStep(s, s', step)
    requires step.DoPostLate? || step.DoPrepareLate? || step.DoEmplace? || step.DoDisconnect?
    ensures Inv(s')
  {
    hide Ids, LogOk, UpTo;
  }

  // ------------------------------------------------- steps of the worker

  lemma BeginKeeps(s: State, s': State)
    requires Inv(s) && Begin(s, s')
    ensures Inv(s')
  {
    hide Ids, UpTo, UnderWay, Dialogue, Ended;
    IdsFirst(s.work);
    Begun(s'.worker);
    assert s.pushed + [] == s.pushed;
    var now := if s.work[0].Act? then [s.work[0].id] else [];
    assert s.pushed + (now + Ids(s.work[1..])) == (s.pushed + now) + Ids(s.work[1..]);
    assert [] + Ids(s.work[1..]) == Ids(s.work[1..]);
    BeginTask(s, s');
  }

  lemma Begun(w: Worker)
    requires w.Running? ==> w.phase == Sending && w.log == [] && !w.retried && w.reprepared == w.kind.AQuery?
    ensures LogOk(w)
  {
    hide UnderWay;
    if w.Running? {
      ActionRuns.Begin(w.kind.AQuery?);
    }
  }

  lemma BeginTask(s: State, s': State)
    requires TaskOk(s) && Begin(s, s')
    ensures TaskOk(s')
  {
    var work, rest := s.work, s.work[1..];
    assert forall i :: 0 <= i < |rest| ==> rest[i] == work[i + 1];
    if s.lua.Spinning? && !s.lua.place.Draining? && s.task.Pending? && rest != [] {
      var front := work[..|work| - 1];
      assert front[0] == work[0];
      var left := rest[..|rest| - 1];
      assert forall i :: 0 <= i < |left| ==> left[i] == front[i + 1];
    }
  }

  /** Answers of the server leave everything but the dialogue alone. */
  lemma TalkKeeps(s: State, s': State, step: Step)
    requires Inv(s) && WorkerStep(s, s', step) && (step.DoSend? || step.DoReconnect? || step.DoReprepare?)
    ensures Inv(s')
  {
    hide Ids, UpTo, UnderWay, Dialogue, Ended, LogOk, Creates, Answered;
    match step {
      case DoSend(errno) => SendTalk(s.worker, errno);
      case DoReconnect(r) => ReconnectTalk(s.worker, r);
      case DoReprepare(error) => PrepareTalk(s.worker, error);
    }
  }

  lemma SendTalk(w: Worker, errno: nat)
    requires w.Running? && w.phase.Sending? && LogOk(w)
    ensures LogOk(Answered(w, errno)) && Answered(w, errno).Running? && Answered(w, errno).id == w.id
  {
    hide UnderWay, Dialogue;
    var log := w.log + [Sent(errno)];
    assert log[..|w.log|] == w.log;
    if !(Lost(errno) && !w.retried) && !(errno == UNKNOWN_STATEMENT && !w.reprepared) {
      LastWord(errno, w.retried, w.reprepared);
      Completed(w.log, w.kind.AQuery?, w.retried, w.reprepared, [Sent(errno)], Reported(errno));
    }
  }

  lemma ReconnectTalk(w: Worker, r: Reconnect)
    requires w.Running? && w.phase.Reconnecting? && LogOk(w)
    ensures LogOk(w.(phase := if r.Connected? then Sending else Pushing, log := w.log + [Reconnected(r)]))
  {
    hide UnderWay, Dialogue;
    var n := |w.log| - 1;
    var errno, said := w.log[n].errno, w.log[..n];
    var two := [Sent(errno), Reconnected(r)];
    assert w.log + [Reconnected(r)] == said + two;
    if r.Connected? {
      Again(said, w.kind.AQuery?, false, w.reprepared, two, true, w.reprepared);
    } else {
      LastReconnect(errno, r, w.reprepared);
      Completed(said, w.kind.AQuery?, false, w.reprepared, two, Unanswered(errno, r));
    }
  }

  lemma PrepareTalk(w: Worker, error: nat)
    requires w.Running? && w.phase.Preparing? && LogOk(w)
    ensures LogOk(w.(phase := if error == 0 then Sending else Pushing, log := w.log + [Prepared(error)],
      reprepared := w.reprepared || error == 0))
  {
    hide UnderWay, Dialogue;
    var n := |w.log| - 1;
    var said := w.log[..n];
    var two := [Sent(UNKNOWN_STATEMENT), Prepared(error)];
    assert w.log + [Prepared(error)] == said + two;
    if error == 0 {
      Again(said, w.kind.AQuery?, w.retried, false, two, w.retried, true);
    } else {
      LastPrepare(error, w.retried);
      Completed(said, w.kind.AQuery?, w.retried, false, two, Thrown(error));
    }
  }

  lemma EndKeeps(s: State, s': State, step: Step)
    requires Inv(s) && WorkerStep(s, s', step) && (step.DoPush? || step.DoAnswer? || step.DoExit?)
    ensures Inv(s')
  {
    hide Ids, UpTo, UnderWay, Dialogue, Ended;
    if step.DoPush? {
      assert (s.triggered + Held(s.lua) + s.completed) + [s.worker.id]
        == s.triggered + Held(s.lua) + (s.completed + [s.worker.id]);
      assert s'.pushed + [] == s'.pushed;
    }
  }

  lemma StepKeeps(s: State, s': State, step: Step)
    requires Inv(s) && Next(s, s', step)
    ensures Inv(s')
  {
    hide Inv;
    match step {
      case DoPost(kind) => PostKeeps(s, s', kind);
      case DoPrepare(text) => PrepareKeeps(s, s', text);
      case DoBegin => BeginKeeps(s, s');
      case DoPoll => DispatchKeeps(s, s', step);
      case DoTrigger => DispatchKeeps(s, s', step);
      case DoReturn => DispatchKeeps(s, s', step);
      case DoPollDone => DispatchKeeps(s, s', step);
      case DoDrain => DispatchKeeps(s, s', step);
      case DoDrainDone => DispatchKeeps(s, s', step);
      case DoPostLate => OtherLuaKeeps(s, s', step);
      case DoPrepareLate(text) => OtherLuaKeeps(s, s', step);
      case DoEmplace => OtherLuaKeeps(s, s', step);
      case DoDisconnect => OtherLuaKeeps(s, s', step);
      case DoSend(errno) => TalkKeeps(s, s', step);
      case DoReconnect(r) => TalkKeeps(s, s', step);
      case DoReprepare(error) => TalkKeeps(s, s', step);
      case DoPush => EndKeeps(s, s', step);
      case DoAnswer(ok) => EndKeeps(s, s', step);
      case DoExit => EndKeeps(s, s', step);
    }
  }

  // ------------------------------------------------- runs

  ghost predicate Run(states: seq<State>, steps: seq<Step>) {
    && |states| == |steps| + 1 && Init(states[0])
    && forall i :: 0 <= i < |steps| ==> Next(states[i], states[i + 1], steps[i])
  }

  lemma {:induction false} RunKeeps(states: seq<State>, steps: seq<Step>, i: nat)
    requires Run(states, steps) && i < |states|
    ensures Inv(states[i])
  {
    if i == 0 {
      assert Inv(states[0]) by {
        hide Next;
        assert UpTo(0) == [];
      }
    } else {
      hide Inv, Next, Init;
      RunKeeps(states, steps, i - 1);
      StepKeeps(states[i - 1], states[i], steps[i - 1]);
    }
  }

  lemma PrefixOf(n: nat, a: seq<nat>, b: seq<nat>)
    requires a + b == UpTo(n)
    ensures |a| <= n && a == UpTo(|a|)
  {
    assert |a| + |b| == n;
    forall i | 0 <= i < |a| ensures a[i] == i {
      assert a[i] == (a + b)[i];
    }
  }

  /**
   At every point of every run the actions pushed, and the actions whose callbacks have been
   triggered, are those posted first, each once, in the order in which they were posted.
   */
  lemma InOrder(states: seq<State>, steps: seq<Step>, i: nat)
    requires Run(states, steps) && i < |states|
    ensures
      var s := states[i];
      && |s.triggered| <= |s.pushed| <= s.posted
      && s.pushed == UpTo(|s.pushed|) && s.triggered == UpTo(|s.triggered|)
  {
    hide Init, Next, TaskOk, LogOk, ClosedOk, UpTo, Ids;
    RunKeeps(states, steps, i);
    var s := states[i];
    assert s.pushed + (Current(s.worker) + Ids(s.work)) == UpTo(s.posted);
    PrefixOf(s.posted, s.pushed, Current(s.worker) + Ids(s.work));
    assert s.triggered + (Held(s.lua) + s.completed) == s.pushed;
    PrefixOf(|s.pushed|, s.triggered, Held(s.lua) + s.completed);
  }

  /** After Disconnect every action posted before it has been pushed once and its callback triggered once, in order. */
  lemma AllTriggered(states: seq<State>, steps: seq<Step>, i: nat)
    requires Run(states, steps) && i < |states| && states[i].lua.Gone?
    ensures states[i].triggered == UpTo(states[i].posted) && states[i].pushed == UpTo(states[i].posted)
  {
    hide Init, Next, TaskOk, LogOk, UpTo;
    RunKeeps(states, steps, i);
    var s := states[i];
    assert s.triggered + [] + [] == s.triggered && s.pushed + [] + [] == s.pushed;
  }

  /**
   An action is pushed at the end of a whole dialogue with the server: two sends at most for a query, three for a
   statement.
  */
  lemma PushedAfterDialogue(states: seq<State>, steps: seq<Step>, i: nat)
    requires Run(states, steps) && i < |steps| && steps[i].DoPush?
    ensures
      var w := states[i].worker;
      && w.Running? && Ended(w.log, w.kind)
      && 1 <= Sends(w.log) <= (if w.kind.AQuery? then 2 else 3) && Answers(w.log, w.kind.AStatement?)
  {
    hide Init, TaskOk, OrderOk, ClosedOk, Dialogue, UnderWay;
    RunKeeps(states, steps, i);
    var s := states[i];
    assert Next(s, states[i + 1], steps[i]);
    var end :| Dialogue(s.worker.log, false, s.worker.kind.AQuery?, end);
    DialogueBounded(s.worker.log, false, s.worker.kind.AQuery?, end);
    DialogueAnswers(s.worker.log, s.worker.kind.AQuery?, end);
  }

  /**
   lua_Prepare enters a statement in the map only when the worker has nothing to do, so never while Connect reads it.
  */
  lemma MapAlone(states: seq<State>, steps: seq<Step>, i: nat)
    requires Run(states, steps) && i < |steps| && states[i + 1].statements != states[i].statements
    ensures steps[i].DoEmplace? && states[i].work == [] && states[i].worker.Waiting?
  {
    hide Init, OrderOk, LogOk, Creates;
    RunKeeps(states, steps, i);
    assert Next(states[i], states[i + 1], steps[i]);
  }

  // ------------------------------------------------- progress

  function Energy(w: Worker): nat {
    match w
    case Exited => 0
    case Waiting => 1
    case Creating(_) => 2
    case Running(_, _, phase, _, retried, reprepared) =>
      var c := 3 * Chances(retried, reprepared);
      match phase
      case Sending => c + 3
      case Reconnecting => c + 4
      case Preparing => c + 2
      case Pushing => 2
  }

  /** How many steps the worker can take if nothing more is posted. */
  function Measure(s: State): nat {
    10 * |s.work| + Energy(s.worker)
  }

  lemma WorkerTires(s: State, s': State, step: Step)
    requires WorkerStep(s, s', step) && LogOk(s.worker)
    ensures Measure(s') < Measure(s) && s'.lua == s.lua
  {
    hide UnderWay, Ended;
  }

  /** Until it is gone, the worker can move whenever there is work, or it has been told to stop. */
  lemma WorkerMoves(s: State)
    requires !s.worker.Exited? && (s.worker.Waiting? && s.work == [] ==> s.lua.Stopping?)
    ensures exists s', step :: WorkerStep(s, s', step)
  {
    match s.worker {
      case Waiting =>
        if s.work == [] {
          assert WorkerStep(s, s.(worker := Exited), DoExit);
        } else {
          var item := s.work[0];
          var begun := if item.Act? then Running(item.id, item.kind, Sending, [], false, item.kind.AQuery?)
            else Creating(item.text);
          assert WorkerStep(s, s.(work := s.work[1..], worker := begun), DoBegin);
        }
      case Creating(_) => assert WorkerStep(s, s.(worker := Waiting, task := Created), DoAnswer(true));
      case Running(_, _, _, _, _, _) => RunningMoves(s);
    }
  }

  lemma RunningMoves(s: State)
    requires s.worker.Running?
    ensures exists s', step :: WorkerStep(s, s', step)
  {
    var w := s.worker;
    match w.phase {
      case Sending => assert WorkerStep(s, s.(worker := Answered(w, 0)), DoSend(0));
      case Reconnecting =>
        assert WorkerStep(s, s.(worker := w.(phase := Pushing, log := w.log + [Reconnected(Refused)])),
          DoReconnect(Refused));
      case Preparing =>
        assert WorkerStep(s, s.(worker := w.(phase := Sending, log := w.log + [Prepared(0)], reprepared := true)),
          DoReprepare(0));
      case Pushing =>
        assert WorkerStep(s, s.(worker := Waiting, completed := s.completed + [w.id], pushed := s.pushed + [w.id]),
          DoPush);
    }
  }

  /** The Lua thread waits for the worker: in Disconnect, or in lua_Prepare. */
  predicate Waits(s: State) {
    s.lua.Stopping? || (s.lua.Spinning? && s.task.Pending?)
  }

  lemma OnlyWorker(s: State, s': State, step: Step)
    requires Next(s, s', step) && Waits(s) && Waits(s')
    ensures WorkerStep(s, s', step)
  {
  }

  /** Either wait is over after a number of steps known when it begins, whatever the server answers. */
  lemma {:induction false} WaitEnds(states: seq<State>, steps: seq<Step>, i: nat, j: nat)
    requires Run(states, steps) && i <= j < |states|
    requires forall k :: i <= k <= j ==> Waits(states[k])
    ensures Measure(states[j]) + (j - i) <= Measure(states[i])
    decreases j - i
  {
    hide Init, Next, OrderOk, TaskOk, LogOk, ClosedOk, Measure, WorkerStep, Waits;
    if i < j {
      RunKeeps(states, steps, i);
      assert Waits(states[i]) && Waits(states[i + 1]);
      OnlyWorker(states[i], states[i + 1], steps[i]);
      WorkerTires(states[i], states[i + 1], steps[i]);
      WaitEnds(states, steps, i + 1, j);
    }
  }

  lemma DrainStuck(s: State, s': State, step: Step)
    requires ClosedOk(s) && s.lua.Spinning? && s.lua.place.Draining?
    ensures !Next(s, s', step)
  {
  }

  /**
   While lua_Prepare waits for its answer the worker can move if and only if lua_Prepare has
   not been called by a callback of Disconnect's drain; if it has, nothing moves any more.
   */
  lemma PrepareAnswered(states: seq<State>, steps: seq<Step>, i: nat)
    requires Run(states, steps) && i < |states| && states[i].lua.Spinning? && states[i].task.Pending?
    ensures (exists s', step :: WorkerStep(states[i], s', step)) <==> !states[i].lua.place.Draining?
    ensures states[i].lua.place.Draining? ==> i == |steps|
  {
    hide Init, OrderOk, LogOk, Next, WorkerStep;
    RunKeeps(states, steps, i);
    var s := states[i];
    if s.lua.place.Draining? {
      forall s', step ensures !WorkerStep(s, s', step) {
        DrainStuck(s, s', step);
        assert WorkerStep(s, s', step) ==> Next(s, s', step) by { WorkerNext(s, s', step); }
      }
      if i < |steps| {
        DrainStuck(s, states[i + 1], steps[i]);
      }
    } else {
      WorkerMoves(s);
    }
  }

  lemma WorkerNext(s: State, s': State, step: Step)
    ensures WorkerStep(s, s', step) ==> Next(s, s', step)
  {
  }

  // A run that comes to such a wait.

  function LateState(n: nat, text: string): State {
    match n
    case 0 => State(0, [], Waiting, [], [], [], At(Script), Failed, {}, 0)
    case 1 => State(1, [Act(0, AQuery)], Waiting, [], [], [], At(Script), Failed, {}, 0)
    case 2 => State(1, [], Running(0, AQuery, Sending, [], false, true), [], [], [], At(Script), Failed, {}, 0)
    case 3 => State(1, [], Running(0, AQuery, Pushing, [Sent(0)], false, true), [], [], [], At(Script), Failed, {}, 0)
    case 4 => State(1, [], Waiting, [0], [0], [], At(Script), Failed, {}, 0)
    case 5 => State(1, [], Waiting, [0], [0], [], Stopping, Failed, {}, 0)
    case 6 => State(1, [], Exited, [0], [0], [], Stopping, Failed, {}, 0)
    case 7 => State(1, [], Exited, [], [0], [], At(Draining([0], false)), Failed, {}, 0)
    case 8 => State(1, [], Exited, [], [0], [0], At(Draining([], true)), Failed, {}, 0)
    case _ => State(1, [], Exited, [], [0], [0], Spinning(Draining([], true), text), Pending, {}, 1)
  }

  const LATE_STEPS: seq<Step> := [DoPost(AQuery), DoBegin, DoSend(0), DoPush, DoDisconnect, DoExit, DoDrain, DoTrigger]

  lemma LateActionPushed(n: nat, text: string)
    requires n < 4
    ensures Next(LateState(n, text), LateState(n + 1, text), LATE_STEPS[n])
  {
    assert [] + [Act(0, AQuery)] == [Act(0, AQuery)] && [Act(0, AQuery)][1..] == [] && [] + [Sent(0)] == [Sent(0)];
    assert LateState(0, text).completed + [0] == [0] && LateState(0, text).pushed + [0] == [0];
  }

  lemma LateDrained(n: nat, text: string)
    requires 4 <= n < 8
    ensures Next(LateState(n, text), LateState(n + 1, text), LATE_STEPS[n])
  {
    assert [0][1..] == [] && LateState(0, text).triggered + [0] == [0];
  }

  /** An action is posted and run, and its callback, triggered by Disconnect's drain, prepares a statement. */
  lemma LatePrepareReached(text: string) returns (states: seq<State>, steps: seq<Step>)
    ensures Run(states, steps) && |states| == 10
    ensures states[9].lua.Spinning? && states[9].task.Pending? && states[9].lua.place.Draining?
  {
    states, steps := seq(10, i requires 0 <= i => LateState(i, text)), LATE_STEPS + [DoPrepareLate(text)];
    assert Next(LateState(8, text), LateState(9, text), DoPrepareLate(text));
    assert Init(LateState(0, text));
    hide Next, LateState, Init;
    forall i: nat | i < |steps| ensures Next(states[i], states[i + 1], steps[i]) {
      if i < 4 {
        LateActionPushed(i, text);
      } else if i < 8 {
        LateDrained(i, text);
      }
    }
  }
}
