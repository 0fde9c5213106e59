/**
 The lock-free queue of completed actions of src/database.h: push links a node and swings
 the head with a compare-and-exchange; pop_all takes the whole list and reverses it.
 Any number of threads, one step of one thread at a time, in any order.
 */
module ActionQueue {
  /** The address of a node, or NULL. */
  type Ptr = nat

  const NULL: Ptr := 0

  /** Where a thread is. */
  datatype Local =
    | Idle
    | Loaded(node: Ptr, stale: Ptr)      // stale_head has been read
    | Linked(node: Ptr, stale: Ptr)      // data->next has been set to it
    | Reversing(last: Ptr, first: Ptr)   // in the loop of pop_all
    | Taking(first: Ptr)                 // pop_all has returned: the caller walks the list and deletes it

  /** Who may touch a node. */
  datatype Owner = Callers | Queue | Thread(id: nat)

  /** The part of the k-th list popped that is still to be reversed, and the part not yet walked. */
  datatype Trail = Trail(k: nat, rest: seq<Ptr>, done: seq<Ptr>)

  /**
   The memory and the threads, and with them the history: who owns each node, the nodes
   in the queue (newest first), every successful push, what each exchange of pop_all took
   (oldest first), and the nodes each of those lists has been found to hold by its caller.
   */
  datatype State = State(
    head: Ptr,
    next: map<Ptr, Ptr>,
    locals: seq<Local>,
    owner: map<Ptr, Owner>,
    stack: seq<Ptr>,
    trails: seq<Trail>,
    pushed: seq<Ptr>,
    popped: seq<seq<Ptr>>,
    walked: seq<seq<Ptr>>)

  function Reverse(s: seq<Ptr>): (r: seq<Ptr>) {
    if s == [] then [] else Reverse(s[1..]) + [s[0]]
  }

  function Concat(lists: seq<seq<Ptr>>): seq<Ptr> {
    if lists == [] then [] else Concat(lists[..|lists| - 1]) + lists[|lists| - 1]
  }

  // ------------------------------------------------- the steps

  /** Storage for nodes, all in the callers' hands; an empty queue; `threads` threads. */
  ghost predicate Init(s: State) {
    && s.head == NULL && s.stack == [] && s.pushed == [] && s.popped == [] && s.walked == []
    && (forall t :: 0 <= t < |s.locals| ==> s.locals[t].Idle?)
    && |s.trails| == |s.locals|
    && NULL !in s.next && s.owner.Keys == s.next.Keys
    && (forall n :: n in s.owner ==> s.owner[n].Callers?)
  }

  /** push is entered: the head is read. */
  ghost predicate Load(s: State, s': State, t: nat, n: Ptr) {
    && t < |s.locals| && s.locals[t].Idle?
    && n in s.owner && s.owner[n].Callers?
    && s' == s.(locals := s.locals[t := Loaded(n, s.head)], owner := s.owner[n := Thread(t)])
  }

  ghost predicate Link(s: State, s': State, t: nat) {
    && t < |s.locals| && s.locals[t].Loaded?
    && var l := s.locals[t];
    s' == s.(next := s.next[l.node := l.stale], locals := s.locals[t := Linked(l.node, l.stale)])
  }

  /** The exchange succeeds: only when the head is the one that was read. */
  ghost predicate Swing(s: State, s': State, t: nat) {
    && t < |s.locals| && s.locals[t].Linked? && s.head == s.locals[t].stale
    && var n := s.locals[t].node;
    s' == s.(head := n, locals := s.locals[t := Idle], owner := s.owner[n := Queue], stack := [n] + s.stack,
      pushed := s.pushed + [n])
  }

  /** It fails, for a reason or for none, and reads the head again. */
  ghost predicate Fail(s: State, s': State, t: nat) {
    && t < |s.locals| && s.locals[t].Linked?
    && s' == s.(locals := s.locals[t := Loaded(s.locals[t].node, s.head)])
  }

  function Given(owner: map<Ptr, Owner>, nodes: seq<Ptr>, o: Owner): map<Ptr, Owner> {
    map n | n in owner :: if n in nodes then o else owner[n]
  }

  /** The exchange with NULL that begins pop_all. */
  ghost predicate Exchange(s: State, s': State, t: nat) {
    && t < |s.locals| && t < |s.trails| && s.locals[t].Idle?
    && s' == s.(head := NULL, locals := s.locals[t := Reversing(s.head, NULL)],
                owner := Given(s.owner, s.stack, Thread(t)), stack := [],
                trails := s.trails[t := Trail(|s.popped|, s.stack, [])],
                popped := s.popped + [Reverse(s.stack)], walked := s.walked + [[]])
  }

  /** One turn of the loop of pop_all. */
  ghost predicate Turn(s: State, s': State, t: nat) {
    && t < |s.locals| && t < |s.trails| && s.locals[t].Reversing? && s.locals[t].last != NULL
    && var l := s.locals[t];
    l.last in s.next && s.trails[t].rest != [] &&
    var trail := s.trails[t];
    s' == s.(next := s.next[l.last := l.first], locals := s.locals[t := Reversing(s.next[l.last], l.last)],
             trails := s.trails[t := trail.(rest := trail.rest[1..], done := [l.last] + trail.done)])
  }

  ghost predicate Return(s: State, s': State, t: nat) {
    && t < |s.locals| && s.locals[t].Reversing? && s.locals[t].last == NULL
    && s' == s.(locals := s.locals[t := Taking(s.locals[t].first)])
  }

  /** The caller reads the next field of the first node, and then the node is its own again. */
  ghost predicate Take(s: State, s': State, t: nat) {
    && t < |s.locals| && t < |s.trails| && s.locals[t].Taking? && s.locals[t].first != NULL
    && var n := s.locals[t].first;
    var trail := s.trails[t];
    n in s.next && n in s.owner && trail.done != [] && trail.k < |s.walked| &&
    s' == s.(locals := s.locals[t := Taking(s.next[n])], owner := s.owner[n := Callers],
             trails := s.trails[t := trail.(done := trail.done[1..])],
             walked := s.walked[trail.k := s.walked[trail.k] + [n]])
  }

  ghost predicate Finish(s: State, s': State, t: nat) {
    && t < |s.locals| && s.locals[t].Taking? && s.locals[t].first == NULL
    && s' == s.(locals := s.locals[t := Idle])
  }

  datatype Step =
    | DoLoad(t: nat, n: Ptr) | DoLink(t: nat) | DoSwing(t: nat) | DoFail(t: nat)
    | DoExchange(t: nat) | DoTurn(t: nat) | DoReturn(t: nat) | DoTake(t: nat) | DoFinish(t: nat)

  ghost predicate Next(s: State, s': State, step: Step) {
    match step
    case DoLoad(t, n) => Load(s, s', t, n)
    case DoLink(t) => Link(s, s', t)
    case DoSwing(t) => Swing(s, s', t)
    case DoFail(t) => Fail(s, s', t)
    case DoExchange(t) => Exchange(s, s', t)
    case DoTurn(t) => Turn(s, s', t)
    case DoReturn(t) => Return(s, s', t)
    case DoTake(t) => Take(s, s', t)
    case DoFinish(t) => Finish(s, s', t)
  }

  // ------------------------------------------------- what every step keeps

  /** The list that starts at `p` is `nodes`. */
  ghost predicate IsList(next: map<Ptr, Ptr>, p: Ptr, nodes: seq<Ptr>)
    decreases |nodes|
  {
    if nodes == [] then p == NULL
    else p == nodes[0] && p in next && p != NULL && IsList(next, next[p], nodes[1..])
  }

  ghost predicate Distinct(nodes: seq<Ptr>) {
    forall i, j :: 0 <= i < j < |nodes| ==> nodes[i] != nodes[j]
  }

  ghost predicate Owned(owner: map<Ptr, Owner>, nodes: seq<Ptr>, o: Owner) {
    forall n :: n in nodes ==> n in owner && owner[n] == o
  }

  ghost predicate MemoryOk(s: State) {
    && NULL !in s.next && s.owner.Keys == s.next.Keys
    && |s.trails| == |s.locals| && |s.walked| == |s.popped|
  }

  ghost predicate QueueOk(s: State) {
    IsList(s.next, s.head, s.stack) && Owned(s.owner, s.stack, Queue) && Distinct(s.stack)
  }

  ghost predicate Busy(s: State, t: nat) {
    t < |s.locals| && (s.locals[t].Reversing? || s.locals[t].Taking?)
  }

  /** What thread `t` holds is its own, and is what it still owes of the list it popped. */
  ghost predicate ThreadOk(s: State, t: nat)
    requires t < |s.locals| && |s.trails| == |s.locals| && |s.walked| == |s.popped|
  {
    var trail := s.trails[t];
    match s.locals[t]
    case Idle => true
    case Loaded(n, _) => n in s.owner && s.owner[n] == Thread(t)
    case Linked(n, stale) => n in s.owner && s.owner[n] == Thread(t) && n in s.next && s.next[n] == stale
    case Reversing(last, first) =>
      && trail.k < |s.popped| && IsList(s.next, last, trail.rest) && IsList(s.next, first, trail.done)
      && Owned(s.owner, trail.rest + trail.done, Thread(t)) && Distinct(trail.rest + trail.done)
      && s.walked[trail.k] == [] && s.popped[trail.k] == Reverse(trail.rest) + trail.done
    case Taking(first) =>
      && trail.k < |s.popped| && IsList(s.next, first, trail.done)
      && Owned(s.owner, trail.done, Thread(t)) && Distinct(trail.done)
      && s.popped[trail.k] == s.walked[trail.k] + trail.done
  }

  ghost predicate ThreadsOk(s: State)
    requires |s.trails| == |s.locals| && |s.walked| == |s.popped|
  {
    forall t: nat :: t < |s.locals| ==> ThreadOk(s, t)
  }

  /** Thread `t` is at work on list `k`. */
  ghost predicate WorksOn(s: State, t: nat, k: nat) {
    Busy(s, t) && t < |s.trails| && s.trails[t].k == k
  }

  /** No two threads work on one list, and a list nobody works on has been walked whole. */
  ghost predicate ListsOk(s: State)
    requires |s.walked| == |s.popped|
  {
    && (forall t: nat, u: nat :: Busy(s, t) && Busy(s, u) && t != u && t < |s.trails| && u < |s.trails| ==>
       s.trails[t].k != s.trails[u].k)
    && (forall k: nat :: k < |s.popped| ==> s.walked[k] == s.popped[k] || exists t: nat :: WorksOn(s, t, k))
  }

  /** What was pushed is what was popped followed by what is in the queue. */
  ghost predicate Conserved(s: State) {
    s.pushed == Concat(s.popped) + Reverse(s.stack)
  }

  ghost predicate Inv(s: State) {
    MemoryOk(s) && QueueOk(s) && ThreadsOk(s) && ListsOk(s) && Conserved(s)
  }

  // ------------------------------------------------- lists

  lemma {:induction false} ListFrame(next: map<Ptr, Ptr>, next': map<Ptr, Ptr>, p: Ptr, nodes: seq<Ptr>)
    requires IsList(next, p, nodes)
    requires forall n :: n in nodes && n in next ==> n in next' && next'[n] == next[n]
    ensures IsList(next', p, nodes)
    decreases |nodes|
  {
    if nodes != [] {
      forall n | n in nodes[1..] ensures n in nodes {}
      ListFrame(next, next', next[p], nodes[1..]);
    }
  }

  /** Memory decides what the list is. */
  lemma {:induction false} ListUnique(next: map<Ptr, Ptr>, p: Ptr, a: seq<Ptr>, b: seq<Ptr>)
    requires IsList(next, p, a) && IsList(next, p, b)
    ensures a == b
    decreases |a|
  {
    if a != [] {
      ListUnique(next, next[p], a[1..], b[1..]);
      assert a == [a[0]] + a[1..] && b == [b[0]] + b[1..];
    }
  }

  /** Reversing is putting the nodes back one by one. */
  lemma {:induction false} ReverseStep(rest: seq<Ptr>, done: seq<Ptr>)
    requires rest != []
    ensures Reverse(rest) + done == Reverse(rest[1..]) + ([rest[0]] + done)
  {
    assert (Reverse(rest[1..]) + [rest[0]]) + done == Reverse(rest[1..]) + ([rest[0]] + done);
  }

  lemma {:induction false} ReversePush(n: Ptr, stack: seq<Ptr>)
    ensures Reverse([n] + stack) == Reverse(stack) + [n]
  {
    assert ([n] + stack)[1..] == stack;
  }

  lemma {:induction false} ConcatLast(lists: seq<seq<Ptr>>, last: seq<Ptr>)
    ensures Concat(lists + [last]) == Concat(lists) + last
  {
    assert (lists + [last])[..|lists|] == lists;
  }

  /** A step that leaves alone what thread `u` holds. */
  lemma ThreadFrame(s: State, s': State, u: nat)
    requires MemoryOk(s) && MemoryOk(s') && u < |s.locals| && |s'.locals| == |s.locals| && ThreadOk(s, u)
    requires s'.locals[u] == s.locals[u] && s'.trails[u] == s.trails[u] && |s.popped| <= |s'.popped|
    requires forall n :: n in s.owner && s.owner[n] == Thread(u) ==> n in s'.owner && s'.owner[n] == Thread(u)
    requires forall n :: n in s.owner && n in s.next && s.owner[n] == Thread(u) ==>
      n in s'.next && s'.next[n] == s.next[n]
    requires var k := s.trails[u].k;
      Busy(s, u) && k < |s.popped| ==> s'.popped[k] == s.popped[k] && s'.walked[k] == s.walked[k]
    ensures ThreadOk(s', u)
  {
    hide IsList, Reverse, Distinct;
    var trail := s.trails[u];
    if s.locals[u].Reversing? {
      forall n | n in trail.rest || n in trail.done ensures n in trail.rest + trail.done {}
      ListFrame(s.next, s'.next, s.locals[u].last, trail.rest);
      ListFrame(s.next, s'.next, s.locals[u].first, trail.done);
    } else if s.locals[u].Taking? {
      ListFrame(s.next, s'.next, s.locals[u].first, trail.done);
    }
  }

  // ------------------------------------------------- each step

  lemma InitInv(s: State)
    requires Init(s)
    ensures Inv(s)
  {
  }

  lemma LoadKeeps(s: State, s': State, t: nat, n: Ptr)
    requires Inv(s) && Load(s, s', t, n)
    ensures Inv(s')
  {
    hide IsList, Reverse, Concat, Distinct, ThreadOk;
    forall u: nat | u < |s.locals| ensures ThreadOk(s', u) {
      if u == t {
        Fresh(s', t);
      } else {
        ThreadFrame(s, s', u);
      }
    }
    SameWork(s, s');
  }

  lemma Fresh(s: State, t: nat)
    requires MemoryOk(s) && t < |s.locals| && s.locals[t].Loaded?
    requires s.locals[t].node in s.owner && s.owner[s.locals[t].node] == Thread(t)
    ensures ThreadOk(s, t)
  {
  }

  /** Steps of threads at work on no list. */
  lemma SameWork(s: State, s': State)
    requires MemoryOk(s) && MemoryOk(s') && ListsOk(s) && s'.popped == s.popped && s'.walked == s.walked
    requires s'.trails == s.trails
    requires |s'.locals| == |s.locals| && forall u: nat :: Busy(s', u) == Busy(s, u)
    ensures ListsOk(s')
  {
    forall k: nat | k < |s.popped| && s.walked[k] != s.popped[k] ensures exists t: nat :: WorksOn(s', t, k) {
      var t: nat :| WorksOn(s, t, k);
      assert WorksOn(s', t, k);
    }
  }

  lemma LinkKeeps(s: State, s': State, t: nat)
    requires Inv(s) && Link(s, s', t)
    ensures Inv(s')
  {
    hide IsList, Reverse, Concat, Distinct, ThreadOk;
    var n, stale := s.locals[t].node, s.locals[t].stale;
    NodeOf(s, t);
    forall u: nat | u < |s.locals| ensures ThreadOk(s', u) {
      if u == t {
        LinkedOk(s', t);
      } else {
        ThreadFrame(s, s', u);
      }
    }
    ListFrame(s.next, s'.next, s.head, s.stack);
    SameWork(s, s');
  }

  lemma NodeOf(s: State, t: nat)
    requires MemoryOk(s) && t < |s.locals| && ThreadOk(s, t) && (s.locals[t].Loaded? || s.locals[t].Linked?)
    ensures s.locals[t].node in s.owner && s.owner[s.locals[t].node] == Thread(t) && s.locals[t].node != NULL
    ensures s.locals[t].Linked? ==> s.locals[t].node in s.next && s.next[s.locals[t].node] == s.locals[t].stale
  {
  }

  lemma LinkedOk(s: State, t: nat)
    requires MemoryOk(s) && t < |s.locals| && s.locals[t].Linked?
    requires s.locals[t].node in s.owner && s.owner[s.locals[t].node] == Thread(t)
    requires s.next[s.locals[t].node] == s.locals[t].stale
    ensures ThreadOk(s, t)
  {
  }

  /** Whatever happened in between, a head that is again the one read still begins the list it is linked to. */
  lemma SwingKeeps(s: State, s': State, t: nat)
    requires Inv(s) && Swing(s, s', t)
    ensures Inv(s')
  {
    hide IsList, Reverse, Concat, ThreadOk;
    var n := s.locals[t].node;
    NodeOf(s, t);
    forall u: nat | u < |s.locals| ensures ThreadOk(s', u) {
      if u == t {
        IdleOk(s', t);
      } else {
        ThreadFrame(s, s', u);
      }
    }
    assert ([n] + s.stack)[1..] == s.stack;
    PushedList(s.next, n, s.head, s.stack);
    ReversePush(n, s.stack);
    assert Concat(s.popped) + (Reverse(s.stack) + [n]) == (Concat(s.popped) + Reverse(s.stack)) + [n];
    SameWork(s, s');
  }

  lemma {:induction false} PushedList(next: map<Ptr, Ptr>, n: Ptr, p: Ptr, nodes: seq<Ptr>)
    requires IsList(next, p, nodes) && n in next && next[n] == p && n != NULL
    ensures IsList(next, n, [n] + nodes)
  {
    assert ([n] + nodes)[1..] == nodes;
  }

  lemma IdleOk(s: State, t: nat)
    requires MemoryOk(s) && t < |s.locals| && s.locals[t].Idle?
    ensures ThreadOk(s, t)
  {
  }

  lemma FailKeeps(s: State, s': State, t: nat)
    requires Inv(s) && Fail(s, s', t)
    ensures Inv(s')
  {
    hide IsList, Reverse, Concat, Distinct, ThreadOk;
    NodeOf(s, t);
    forall u: nat | u < |s.locals| ensures ThreadOk(s', u) {
      if u == t {
        Fresh(s', t);
      } else {
        ThreadFrame(s, s', u);
      }
    }
    SameWork(s, s');
  }

  lemma ExchangeKeeps(s: State, s': State, t: nat)
    requires Inv(s) && Exchange(s, s', t)
    ensures Inv(s')
  {
    hide IsList, Reverse, Concat, Distinct, ThreadOk;
    forall u: nat | u < |s.locals| ensures ThreadOk(s', u) {
      if u == t {
        PoppedOk(s, s', t);
      } else {
        forall n | n in s.owner && s.owner[n] == Thread(u) ensures n !in s.stack {}
        KnownList(s, u);
        ThreadFrame(s, s', u);
      }
    }
    EmptyList(s.next);
    ConcatLast(s.popped, Reverse(s.stack));
    NoReverse();
    assert Concat(s'.popped) + [] == Concat(s'.popped);
    forall k: nat | k < |s'.popped| && s'.walked[k] != s'.popped[k] ensures exists u: nat :: WorksOn(s', u, k) {
      if k == |s.popped| {
        assert WorksOn(s', t, k);
      } else {
        var u: nat :| WorksOn(s, u, k);
        assert WorksOn(s', u, k);
      }
    }
    forall u: nat | Busy(s, u) ensures s.trails[u].k < |s.popped| {
      KnownList(s, u);
    }
  }

  lemma KnownList(s: State, u: nat)
    requires MemoryOk(s) && u < |s.locals| && ThreadOk(s, u)
    ensures Busy(s, u) ==> s.trails[u].k < |s.popped|
  {
  }

  lemma {:induction false} EmptyList(next: map<Ptr, Ptr>)
    ensures IsList(next, NULL, []) && Distinct([])
  {
  }

  lemma NoReverse()
    ensures Reverse([]) == []
  {
  }

  lemma PoppedOk(s: State, s': State, t: nat)
    requires Inv(s) && Exchange(s, s', t)
    ensures ThreadOk(s', t)
  {
    hide IsList, Reverse, Concat, Distinct, ThreadsOk, ListsOk, Conserved;
    EmptyList(s.next);
    assert s.stack + [] == s.stack;
    assert Reverse(s.stack) + [] == Reverse(s.stack);
  }

  lemma TurnKeeps(s: State, s': State, t: nat)
    requires Inv(s) && Turn(s, s', t)
    ensures Inv(s')
  {
    hide IsList, Reverse, Concat, Distinct, ThreadOk;
    forall u: nat | u < |s.locals| ensures ThreadOk(s', u) {
      if u == t {
        TurnedOk(s, s', t);
      } else {
        TurnedNode(s, t);
        ThreadFrame(s, s', u);
      }
    }
    TurnedNode(s, t);
    ListFrame(s.next, s'.next, s.head, s.stack);
    forall k: nat | k < |s'.popped| && s'.walked[k] != s'.popped[k] ensures exists u: nat :: WorksOn(s', u, k) {
      var u: nat :| WorksOn(s, u, k);
      assert WorksOn(s', u, k);
    }
    assert forall u: nat :: Busy(s', u) ==> Busy(s, u) && s'.trails[u].k == s.trails[u].k;
  }

  lemma TurnedNode(s: State, t: nat)
    requires MemoryOk(s) && t < |s.locals| && ThreadOk(s, t) && s.locals[t].Reversing? && s.locals[t].last != NULL
    ensures s.trails[t].rest != [] && s.locals[t].last == s.trails[t].rest[0] && s.locals[t].last in s.next
    ensures s.locals[t].last in s.owner && s.owner[s.locals[t].last] == Thread(t)
    ensures IsList(s.next, s.next[s.locals[t].last], s.trails[t].rest[1..])
  {
    var trail := s.trails[t];
    assert trail.rest != [];
    assert trail.rest[0] in trail.rest + trail.done;
  }

  lemma TurnedOk(s: State, s': State, t: nat)
    requires Inv(s) && Turn(s, s', t)
    ensures ThreadOk(s', t)
  {
    hide IsList, Reverse, Concat, ThreadsOk, ListsOk, Conserved, QueueOk;
    assert ThreadOk(s, t) by { ThreadAt(s, t); }
    TurnedNode(s, t);
    var trail := s.trails[t];
    var n := s.locals[t].last;
    var rest, done := trail.rest[1..], [n] + trail.done;
    assert trail.rest + trail.done == [n] + (rest + trail.done);
    MovedDistinct(n, rest, trail.done);
    forall m | m in rest + done ensures m in trail.rest + trail.done {}
    ListFrame(s.next, s'.next, s.next[n], rest);
    ListFrame(s.next, s'.next, s.locals[t].first, trail.done);
    PushedList(s'.next, n, s.locals[t].first, trail.done);
    ReverseStep(trail.rest, trail.done);
  }

  lemma ThreadAt(s: State, t: nat)
    requires MemoryOk(s) && ThreadsOk(s) && t < |s.locals|
    ensures ThreadOk(s, t)
  {
  }

  lemma MovedDistinct(n: Ptr, rest: seq<Ptr>, done: seq<Ptr>)
    requires Distinct([n] + (rest + done))
    ensures Distinct(rest + ([n] + done)) && n !in rest && n !in done
  {
    var all, moved := [n] + (rest + done), rest + ([n] + done);
    forall i, j | 0 <= i < j < |moved| ensures moved[i] != moved[j] {
      var p := if i < |rest| then i + 1 else if i == |rest| then 0 else i;
      var q := if j < |rest| then j + 1 else if j == |rest| then 0 else j;
      assert moved[i] == all[p] && moved[j] == all[q] && p != q;
    }
    forall i | 0 <= i < |rest| ensures rest[i] != n {
      assert all[0] == n && rest[i] == all[i + 1];
    }
    forall i | 0 <= i < |done| ensures done[i] != n {
      assert all[0] == n && done[i] == all[i + 1 + |rest|];
    }
  }

  lemma ReturnKeeps(s: State, s': State, t: nat)
    requires Inv(s) && Return(s, s', t)
    ensures Inv(s')
  {
    hide IsList, Reverse, Concat, Distinct, ThreadOk;
    forall u: nat | u < |s.locals| ensures ThreadOk(s', u) {
      if u == t {
        ReturnedOk(s, s', t);
      } else {
        ThreadFrame(s, s', u);
      }
    }
    SameWork(s, s');
  }

  lemma ReturnedOk(s: State, s': State, t: nat)
    requires Inv(s) && Return(s, s', t)
    ensures ThreadOk(s', t)
  {
    hide Concat, ThreadsOk, ListsOk, Conserved, QueueOk;
    assert ThreadOk(s, t) by { ThreadAt(s, t); }
    var trail := s.trails[t];
    assert trail.rest == [];
    assert trail.rest + trail.done == trail.done && Reverse(trail.rest) + trail.done == trail.done;
    assert [] + trail.done == trail.done;
  }

  lemma TakeKeeps(s: State, s': State, t: nat)
    requires Inv(s) && Take(s, s', t)
    ensures Inv(s')
  {
    hide IsList, Reverse, Concat, Distinct, ThreadOk;
    TakenNode(s, t);
    forall u: nat | u < |s.locals| ensures ThreadOk(s', u) {
      if u == t {
        TakenOk(s, s', t);
      } else {
        KnownList(s, u);
        assert Busy(s, u) ==> s.trails[u].k != s.trails[t].k;
        ThreadFrame(s, s', u);
      }
    }
    forall k: nat | k < |s'.popped| && s'.walked[k] != s'.popped[k] ensures exists u: nat :: WorksOn(s', u, k) {
      if k == s.trails[t].k {
        assert WorksOn(s', t, k);
      } else {
        var u: nat :| WorksOn(s, u, k);
        assert WorksOn(s', u, k);
      }
    }
    assert forall u: nat :: Busy(s', u) ==> Busy(s, u) && s'.trails[u].k == s.trails[u].k;
  }

  lemma TakenNode(s: State, t: nat)
    requires MemoryOk(s) && t < |s.locals| && ThreadOk(s, t) && s.locals[t].Taking? && s.locals[t].first != NULL
    ensures s.trails[t].done != [] && s.locals[t].first == s.trails[t].done[0] && s.locals[t].first in s.next
    ensures s.locals[t].first in s.owner && s.owner[s.locals[t].first] == Thread(t)
    ensures s.trails[t].k < |s.popped| && IsList(s.next, s.next[s.locals[t].first], s.trails[t].done[1..])
  {
    assert s.trails[t].done != [];
  }

  lemma TakenOk(s: State, s': State, t: nat)
    requires Inv(s) && Take(s, s', t)
    ensures ThreadOk(s', t)
  {
    hide IsList, Reverse, Concat, ThreadsOk, ListsOk, Conserved, QueueOk;
    assert ThreadOk(s, t) by { ThreadAt(s, t); }
    TakenNode(s, t);
    var trail := s.trails[t];
    var n := s.locals[t].first;
    assert trail.done == [n] + trail.done[1..];
    assert s.walked[trail.k] + trail.done == (s.walked[trail.k] + [n]) + trail.done[1..];
    forall m | m in trail.done[1..] ensures m in trail.done && m != n {}
  }

  lemma FinishKeeps(s: State, s': State, t: nat)
    requires Inv(s) && Finish(s, s', t)
    ensures Inv(s')
  {
    hide IsList, Reverse, Concat, Distinct, ThreadOk;
    FinishedList(s, t);
    forall u: nat | u < |s.locals| ensures ThreadOk(s', u) {
      if u == t {
        IdleOk(s', t);
      } else {
        ThreadFrame(s, s', u);
      }
    }
    forall k: nat | k < |s'.popped| && s'.walked[k] != s'.popped[k] ensures exists u: nat :: WorksOn(s', u, k) {
      var u: nat :| WorksOn(s, u, k);
      assert u != t;
      assert WorksOn(s', u, k);
    }
    assert forall u: nat :: Busy(s', u) ==> Busy(s, u);
  }

  lemma FinishedList(s: State, t: nat)
    requires MemoryOk(s) && t < |s.locals| && ThreadOk(s, t) && s.locals[t].Taking? && s.locals[t].first == NULL
    ensures s.trails[t].k < |s.popped| && s.walked[s.trails[t].k] == s.popped[s.trails[t].k]
  {
    assert s.trails[t].done == [];
  }

  lemma StepKeeps(s: State, s': State, step: Step)
    requires Inv(s) && Next(s, s', step)
    ensures Inv(s')
  {
    hide Inv, Load, Link, Swing, Fail, Exchange, Turn, Return, Take, Finish;
    match step {
      case DoLoad(t, n) => LoadKeeps(s, s', t, n);
      case DoLink(t) => LinkKeeps(s, s', t);
      case DoSwing(t) => SwingKeeps(s, s', t);
      case DoFail(t) => FailKeeps(s, s', t);
      case DoExchange(t) => ExchangeKeeps(s, s', t);
      case DoTurn(t) => TurnKeeps(s, s', t);
      case DoReturn(t) => ReturnKeeps(s, s', t);
      case DoTake(t) => TakeKeeps(s, s', t);
      case DoFinish(t) => FinishKeeps(s, s', t);
    }
  }

  // ------------------------------------------------- runs

  ghost predicate Run(states: seq<State>, steps: seq<Step>) {
    && |states| == |steps| + 1 && Init(states[0])
    && forall i :: 0 <= i < |steps| ==> Next(states[i], states[i + 1], steps[i])
  }

  lemma {:induction false} RunKeeps(states: seq<State>, steps: seq<Step>, i: nat)
    requires Run(states, steps) && i < |states|
    ensures Inv(states[i])
  {
    hide Inv, Init, Next;
    if i == 0 {
      InitInv(states[0]);
    } else {
      RunKeeps(states, steps, i - 1);
      StepKeeps(states[i - 1], states[i], steps[i - 1]);
    }
  }

  /**
   In every run, at every point: the lists taken by pop_all, in the order of its
   exchanges, followed by what is linked from the head, oldest first, are exactly the
   successful pushes in their order.
   */
  lemma NothingLost(states: seq<State>, steps: seq<Step>, i: nat)
    requires Run(states, steps) && i < |states|
    ensures
      var s := states[i];
      && s.pushed == Concat(s.popped) + Reverse(s.stack)
      && IsList(s.next, s.head, s.stack) && Distinct(s.stack)
  {
    hide IsList, Reverse, Concat, Distinct, Init, Next, ThreadsOk, ListsOk;
    RunKeeps(states, steps, i);
  }

  /**
   A caller that has reached the end of the list pop_all gave it has met exactly the nodes taken by the exchange,
   oldest first.
  */
  lemma PopsWhole(states: seq<State>, steps: seq<Step>, i: nat, t: nat)
    requires Run(states, steps) && i < |steps| && steps[i] == DoFinish(t)
    ensures
      var s := states[i];
      && |s.trails| > t && |s.walked| == |s.popped|
      && var k := s.trails[t].k;
      k < |s.popped| && s.walked[k] == s.popped[k]
  {
    hide IsList, Reverse, Concat, Distinct, Init, ThreadOk, QueueOk, ListsOk, Conserved;
    RunKeeps(states, steps, i);
    assert Next(states[i], states[i + 1], steps[i]);
    FinishedList(states[i], t);
  }

  /** When no thread is at work, every list has been met whole. */
  lemma AllWalked(states: seq<State>, steps: seq<Step>, i: nat)
    requires Run(states, steps) && i < |states| && forall t: nat :: !Busy(states[i], t)
    ensures states[i].walked == states[i].popped
  {
    hide IsList, Reverse, Concat, Distinct, Init, Next, ThreadOk, QueueOk, Conserved;
    RunKeeps(states, steps, i);
    var s := states[i];
    forall k: nat | k < |s.popped| ensures s.walked[k] == s.popped[k] {
      assert !exists t: nat :: WorksOn(s, t, k);
    }
  }

  /** The history never stands in the way: where the code can take a turn of either loop, so can the machine. */
  lemma NeverBlocked(states: seq<State>, steps: seq<Step>, i: nat, t: nat)
    requires Run(states, steps) && i < |states| && t < |states[i].locals|
    ensures
      var s := states[i];
      && (s.locals[t].Reversing? && s.locals[t].last != NULL ==> exists s' :: Turn(s, s', t))
      && (s.locals[t].Taking? && s.locals[t].first != NULL ==> exists s' :: Take(s, s', t))
  {
    hide IsList, Reverse, Concat, Distinct, Init, Next, QueueOk, Conserved, ListsOk, ThreadOk;
    RunKeeps(states, steps, i);
    var s := states[i];
    var l := s.locals[t];
    var trail := s.trails[t];
    if l.Reversing? && l.last != NULL {
      TurnedNode(s, t);
      assert Turn(s, s.(next := s.next[l.last := l.first], locals := s.locals[t := Reversing(s.next[l.last], l.last)],
                        trails := s.trails[t := trail.(rest := trail.rest[1..], done := [l.last] + trail.done)]), t);
    }
    if l.Taking? && l.first != NULL {
      TakenNode(s, t);
      var n := l.first;
      assert Take(s, s.(locals := s.locals[t := Taking(s.next[n])], owner := s.owner[n := Callers],
                        trails := s.trails[t := trail.(done := trail.done[1..])],
                        walked := s.walked[trail.k := s.walked[trail.k] + [n]]), t);
    }
  }
}
