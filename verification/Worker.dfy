/** One checker process: the handlers it has started, the semaphore they pass,
    and how it shuts down. */
module Worker {

  /** Where a handler is: waiting for the semaphore, inside it before its result
      is published, or inside it with the acknowledgement still to do. */
  datatype Phase = Queued | Probing | Reported

  /** In the read loop; past it, waiting for the handlers; ended; or killed. */
  datatype Mode = Looping | Draining | Stopped | Crashed

  /** `handlers` is the `tasks` set with each task's phase.  `read` and `raised`
      are history: the entries read, and those whose handler ended by raising. */
  datatype Node = Node(
    name: string,
    mode: Mode,
    shutdown: bool,
    permits: nat,
    handlers: map<nat, Phase>,
    read: set<nat>,
    raised: set<nat>)

  function Start(name: string, concurrency: nat): Node {
    Node(name, Looping, false, concurrency, map[], {}, {})
  }

  function Inside(handlers: map<nat, Phase>): set<nat> {
    set id | id in handlers && handlers[id] != Queued
  }

  predicate IsInside(n: Node, id: nat) {
    id in n.handlers && n.handlers[id] != Queued
  }

  ghost predicate Valid(n: Node, concurrency: nat) {
    && n.permits + |Inside(n.handlers)| == concurrency
    && n.handlers.Keys <= n.read && n.raised <= n.read && n.handlers.Keys !! n.raised
    && (n.mode == Draining ==> n.shutdown)
    && (!Alive(n) ==> n.handlers == map[])
  }

  predicate Alive(n: Node) {
    n.mode == Looping || n.mode == Draining
  }

  // ---- What the process does between two awaits ----

  function QueueAll(handlers: map<nat, Phase>, ids: set<nat>): map<nat, Phase> {
    handlers + map id | id in ids :: Queued
  }

  /** A handler is created for each entry read.  The read may have been waiting
      when the shutdown signal came. */
  function Read(n: Node, ids: set<nat>): Node {
    n.(handlers := QueueAll(n.handlers, ids), read := n.read + ids)
  }

  predicate CanEnter(n: Node, id: nat) {
    Alive(n) && id in n.handlers && n.handlers[id] == Queued && n.permits > 0
  }

  function Enter(n: Node, id: nat): Node
    requires CanEnter(n, id)
  {
    n.(handlers := n.handlers[id := Probing], permits := n.permits - 1)
  }

  predicate IsIn(n: Node, id: nat, phase: Phase) {
    Alive(n) && id in n.handlers && n.handlers[id] == phase
  }

  function Publish(n: Node, id: nat): Node
    requires IsIn(n, id, Probing)
  {
    n.(handlers := n.handlers[id := Reported])
  }

  /** The handler ends: it gives its permit back and leaves the `tasks` set. */
  function Leave(n: Node, id: nat, raises: bool): Node
    requires Alive(n) && id in n.handlers
  {
    n.(handlers := n.handlers - {id},
       permits := n.permits + (if n.handlers[id] == Queued then 0 else 1),
       raised := n.raised + (if raises then {id} else {}))
  }

  function Signal(n: Node): Node {
    n.(shutdown := true)
  }

  /** The loop sees the flag. */
  function LeaveLoop(n: Node): Node {
    n.(mode := Draining)
  }

  /** `gather` has returned. */
  function Stop(n: Node): Node {
    n.(mode := Stopped)
  }

  function Crash(n: Node, concurrency: nat): Node {
    n.(mode := Crashed, handlers := map[], permits := concurrency)
  }

  // ---- All of it keeps the process valid ----

  lemma InsideAfter(handlers: map<nat, Phase>, id: nat, phase: Phase)
    ensures Inside(handlers[id := phase]) ==
      if phase == Queued then Inside(handlers) - {id} else Inside(handlers) + {id}
    ensures Inside(handlers - {id}) == Inside(handlers) - {id}
    ensures id in handlers && handlers[id] != Queued ==> |Inside(handlers) - {id}| == |Inside(handlers)| - 1
    ensures !(id in handlers && handlers[id] != Queued) ==> Inside(handlers) - {id} == Inside(handlers)
  {
    if id in handlers && handlers[id] != Queued {
      assert id in Inside(handlers);
    }
  }

  lemma ReadKeepsValid(n: Node, ids: set<nat>, concurrency: nat)
    requires Valid(n, concurrency) && n.mode == Looping && ids !! n.read
    ensures Valid(Read(n, ids), concurrency)
  {
    assert Inside(Read(n, ids).handlers) == Inside(n.handlers);
  }

  lemma StepsKeepValid(n: Node, id: nat, raises: bool, concurrency: nat)
    requires Valid(n, concurrency)
    ensures CanEnter(n, id) ==> Valid(Enter(n, id), concurrency)
    ensures IsIn(n, id, Probing) ==> Valid(Publish(n, id), concurrency)
    ensures Alive(n) && id in n.handlers ==> Valid(Leave(n, id, raises), concurrency)
    ensures Valid(Signal(n), concurrency)
    ensures n.mode == Looping && n.shutdown ==> Valid(LeaveLoop(n), concurrency)
    ensures n.mode == Draining && n.handlers == map[] ==> Valid(Stop(n), concurrency)
    ensures Alive(n) ==> Valid(Crash(n, concurrency), concurrency)
  {
    InsideAfter(n.handlers, id, Probing);
    InsideAfter(n.handlers, id, Reported);
    assert Inside(map[]) == {};
    if id in n.handlers {
      assert (n.handlers - {id}).Keys == n.handlers.Keys - {id};
    }
    if IsIn(n, id, Probing) {
      assert id in Inside(n.handlers);
    }
  }

  /** What steps other than reading and publishing do to a process: no handler
      appears or reports, and none goes without raising, unless the process dies. */
  ghost predicate Follows(n: Node, n': Node) {
    && n'.read == n.read
    && (forall id :: id in n'.handlers ==> id in n.handlers)
    && (forall id :: id in n'.handlers && n'.handlers[id] == Reported ==> n.handlers[id] == Reported)
    && (n'.mode != Crashed ==>
          && n.mode != Crashed && n.raised <= n'.raised
          && forall id :: id in n.handlers ==> id in n'.handlers || id in n'.raised)
  }

  lemma StepsFollow(n: Node, id: nat, concurrency: nat)
    ensures CanEnter(n, id) ==> Follows(n, Enter(n, id))
    ensures Alive(n) && id in n.handlers ==> Follows(n, Leave(n, id, true))
    ensures Follows(n, Signal(n)) && Follows(n, Crash(n, concurrency))
    ensures Alive(n) ==> Follows(n, LeaveLoop(n)) && Follows(n, Stop(n))
  {
  }

  /** At most `concurrency` handlers are inside the semaphore. */
  lemma Bounded(n: Node, concurrency: nat)
    requires Valid(n, concurrency)
    ensures |Inside(n.handlers)| <= concurrency
  {
  }
}
