/** The scheduler of block batches: an actor with a waiting queue, a semaphore of tickets, a
    channel to the worker thread, and the worker's messages back.

    Actor and worker run concurrently. Every access to something they share (semaphore, channel,
    mailbox) is one step. Scheduled batches carry a ticket through the channel; batches that are
    injected directly carry none. */
module Scheduler {

  const BLOCK_APPLY_BATCH_MAX_TICKETS: nat := 2

  datatype Request<T> = Request(batch: T, hasTicket: bool)

  /** The actor handles one message at a time; a message that was taken puts it into the loop
      that hands out batches. */
  datatype Actor = Idle | Looping | Holding

  /** The worker signals a failed batch before it drops the ticket and a finished one after. */
  datatype Worker<T> =
    | Waiting
    | Working(request: Request<T>)
    | Signalled(request: Request<T>)
    | Released(request: Request<T>)

  datatype State<T> = State(
    queue: seq<T>,
    tickets: nat,
    actor: Actor,
    channel: seq<Request<T>>,
    worker: Worker<T>,
    done: nat,
    scheduled: seq<T>,
    handed: seq<T>)

  datatype Step<T> =
    | Schedule(batch: T)
    | Inject(batch: T)
    | TakeDone
    | Acquire
    | LoopEnd
    | Hand
    | GiveBack
    | Receive
    | Fail
    | DropAfterFail
    | Finish
    | SignalDone

  function Initial<T>(maximum: nat): State<T> {
    State([], maximum, Idle, [], Waiting, 0, [], [])
  }

  predicate Enabled<T>(s: State<T>, step: Step<T>) {
    match step
    case Schedule(_) => s.actor.Idle?
    case Inject(_) => s.actor.Idle?
    case TakeDone => s.actor.Idle? && s.done > 0
    case Acquire => s.actor.Looping? && s.tickets > 0
    case LoopEnd => s.actor.Looping? && s.tickets == 0
    case Hand => s.actor.Holding? && s.queue != []
    case GiveBack => s.actor.Holding? && s.queue == []
    case Receive => s.worker.Waiting? && s.channel != []
    case Fail => s.worker.Working?
    case DropAfterFail => s.worker.Signalled?
    case Finish => s.worker.Working?
    case SignalDone => s.worker.Released?
  }

  function One(b: bool): nat {
    if b then 1 else 0
  }

  function Next<T>(s: State<T>, step: Step<T>): State<T>
    requires Enabled(s, step)
  {
    match step
    case Schedule(b) => s.(queue := s.queue + [b], scheduled := s.scheduled + [b], actor := Looping)
    case Inject(b) => s.(channel := s.channel + [Request(b, false)])
    case TakeDone => s.(done := s.done - 1, actor := Looping)
    case Acquire => s.(tickets := s.tickets - 1, actor := Holding)
    case LoopEnd => s.(actor := Idle)
    case Hand => s.(channel := s.channel + [Request(s.queue[0], true)], queue := s.queue[1..], actor := Looping)
    case GiveBack => s.(tickets := s.tickets + 1, actor := Idle)
    case Receive =>
      s.(worker := Working(s.channel[0]), channel := s.channel[1..],
         handed := if s.channel[0].hasTicket then s.handed + [s.channel[0].batch] else s.handed)
    case Fail => s.(worker := Signalled(s.worker.request), done := s.done + 1)
    case DropAfterFail => s.(worker := Waiting, tickets := s.tickets + One(s.worker.request.hasTicket))
    case Finish => s.(worker := Released(s.worker.request), tickets := s.tickets + One(s.worker.request.hasTicket))
    case SignalDone => s.(worker := Waiting, done := s.done + 1)
  }

  /** Every state of a run follows from the one before by an enabled step. */
  ghost predicate IsRun<T>(states: seq<State<T>>, steps: seq<Step<T>>) {
    && |states| == |steps| + 1
    && forall i :: 0 <= i < |steps| ==> Enabled(states[i], steps[i]) && states[i + 1] == Next(states[i], steps[i])
  }

  ghost predicate Reachable<T(!new)>(s: State<T>, maximum: nat) {
    exists states: seq<State<T>>, steps: seq<Step<T>> ::
      IsRun(states, steps) && states[0] == Initial(maximum) && states[|steps|] == s
  }

  lemma ReachInitial<T(!new)>(maximum: nat)
    ensures Reachable(Initial<T>(maximum), maximum)
  {
    var steps: seq<Step<T>> := [];
    assert IsRun([Initial<T>(maximum)], steps);
  }

  lemma ReachStep<T(!new)>(s: State<T>, step: Step<T>, t: State<T>, maximum: nat)
    requires Reachable(s, maximum) && Enabled(s, step) && t == Next(s, step)
    ensures Reachable(t, maximum)
  {
    hide Enabled, Next;
    var states, steps :| IsRun(states, steps) && states[0] == Initial(maximum) && states[|steps|] == s;
    var states', steps' := states + [t], steps + [step];
    assert IsRun(states', steps');
    assert states'[0] == Initial(maximum) && states'[|steps'|] == t;
  }

  // ------------------------------------------------------------------ what every step keeps

  /** The batches in the channel that carry a ticket, in order. */
  function Ticketed<T>(channel: seq<Request<T>>): seq<T> {
    if channel == [] then []
    else Ticketed(channel[..|channel| - 1])
         + (if channel[|channel| - 1].hasTicket then [channel[|channel| - 1].batch] else [])
  }

  function WorkerTickets<T>(w: Worker<T>): nat {
    match w
    case Waiting => 0
    case Working(r) => One(r.hasTicket)
    case Signalled(r) => One(r.hasTicket)
    case Released(_) => 0
  }

  /** No ticket is lost or made up. */
  predicate TicketsConserved<T>(s: State<T>, maximum: nat) {
    s.tickets + |Ticketed(s.channel)| + WorkerTickets(s.worker) + One(s.actor.Holding?) == maximum
  }

  /** Scheduled batches reach the worker in order, none lost, none twice. */
  ghost predicate InOrder<T>(s: State<T>) {
    s.scheduled == s.handed + Ticketed(s.channel) + s.queue
  }

  /** The worker has yet to send `ApplyBlockDone` for a batch it holds. */
  predicate WillSignal<T>(w: Worker<T>) {
    w.Working? || w.Released?
  }

  /** Whenever batches wait and the actor is not at work, something will wake it. */
  predicate NotStranded<T>(s: State<T>) {
    s.actor.Idle? && s.queue != [] ==> s.done > 0 || s.channel != [] || WillSignal(s.worker)
  }

  /** What makes that inductive: a batch with a ticket is still under way. */
  predicate Awaited<T>(s: State<T>) {
    s.actor.Idle? && s.queue != [] ==> s.done > 0 || |Ticketed(s.channel)| > 0 || WillSignal(s.worker)
  }

  ghost predicate Inv<T>(s: State<T>, maximum: nat) {
    TicketsConserved(s, maximum) && InOrder(s) && Awaited(s)
  }

  lemma TicketedAppend<T>(channel: seq<Request<T>>, r: Request<T>)
    ensures Ticketed(channel + [r]) == Ticketed(channel) + (if r.hasTicket then [r.batch] else [])
  {
    assert (channel + [r])[..|channel|] == channel;
  }

  lemma {:induction false} TicketedHead<T>(channel: seq<Request<T>>)
    requires channel != []
    ensures Ticketed(channel) == (if channel[0].hasTicket then [channel[0].batch] else []) + Ticketed(channel[1..])
  {
    var last := channel[|channel| - 1];
    if |channel| == 1 {
      assert channel[..0] == [] && channel[1..] == [];
    } else {
      var front := channel[..|channel| - 1];
      TicketedHead(front);
      assert channel[1..] == front[1..] + [last];
      TicketedAppend(front[1..], last);
    }
  }

  lemma {:induction false} TicketedNonEmpty<T>(channel: seq<Request<T>>)
    ensures |Ticketed(channel)| <= |channel|
  {
    if channel != [] {
      TicketedNonEmpty(channel[..|channel| - 1]);
    }
  }

  lemma HandKeepsOrder<T>(s: State<T>)
    requires InOrder(s) && Enabled(s, Hand)
    ensures InOrder(Next(s, Hand))
    ensures |Ticketed(Next(s, Hand).channel)| == |Ticketed(s.channel)| + 1
  {
    var x, rest := s.queue[0], s.queue[1..];
    TicketedAppend(s.channel, Request(x, true));
    assert s.queue == [x] + rest;
    assert s.handed + Ticketed(s.channel) + ([x] + rest) == s.handed + (Ticketed(s.channel) + [x]) + rest;
  }

  lemma ReceiveKeepsOrder<T>(s: State<T>)
    requires InOrder(s) && Enabled(s, Receive)
    ensures InOrder(Next(s, Receive))
    ensures |Ticketed(s.channel)| == |Ticketed(s.channel[1..])| + One(s.channel[0].hasTicket)
  {
    TicketedHead(s.channel);
    var t := if s.channel[0].hasTicket then [s.channel[0].batch] else [];
    var rest := Ticketed(s.channel[1..]);
    assert s.handed + (t + rest) + s.queue == (s.handed + t) + rest + s.queue;
  }

  lemma StepKeepsInv<T>(s: State<T>, step: Step<T>, maximum: nat)
    requires maximum >= 2 && Inv(s, maximum) && Enabled(s, step)
    ensures Inv(Next(s, step), maximum)
  {
    match step
    case Schedule(b) =>
      assert s.handed + Ticketed(s.channel) + s.queue + [b] == s.handed + Ticketed(s.channel) + (s.queue + [b]);
    case Inject(b) =>
      TicketedAppend(s.channel, Request(b, false));
      assert Ticketed(s.channel) + [] == Ticketed(s.channel);
    case Hand => HandKeepsOrder(s);
    case Receive => ReceiveKeepsOrder(s);
    case TakeDone =>
    case Acquire =>
    case LoopEnd =>
    case GiveBack =>
    case Fail =>
    case DropAfterFail =>
    case Finish =>
    case SignalDone =>
  }

  /** With at least two tickets, in every state of every run: tickets are conserved, batches
      reach the worker in scheduling order, and no batch is stranded. */
  lemma {:induction false} EveryRunKeeps<T>(states: seq<State<T>>, steps: seq<Step<T>>, maximum: nat, i: nat)
    requires maximum >= 2 && IsRun(states, steps) && states[0] == Initial(maximum) && i < |states|
    ensures Inv(states[i], maximum) && NotStranded(states[i])
  {
    if i > 0 {
      EveryRunKeeps(states, steps, maximum, i - 1);
      assert states[(i - 1) + 1] == Next(states[i - 1], steps[i - 1]);
      StepKeepsInv(states[i - 1], steps[i - 1], maximum);
    }
    TicketedNonEmpty(states[i].channel);
  }

  lemma ReachableKeeps<T(!new)>(s: State<T>, maximum: nat)
    requires maximum >= 2 && Reachable(s, maximum)
    ensures Inv(s, maximum) && NotStranded(s)
  {
    hide Inv, NotStranded, Enabled, Next;
    var states, steps :| IsRun(states, steps) && states[0] == Initial(maximum) && states[|steps|] == s;
    EveryRunKeeps(states, steps, maximum, |steps|);
  }

  /** So it is for the number of tickets the source uses. */
  lemma FeederKeeps<T>(states: seq<State<T>>, steps: seq<Step<T>>, i: nat)
    requires IsRun(states, steps) && states[0] == Initial(BLOCK_APPLY_BATCH_MAX_TICKETS) && i < |states|
    ensures Inv(states[i], BLOCK_APPLY_BATCH_MAX_TICKETS) && NotStranded(states[i])
  {
    hide IsRun, Inv, NotStranded;
    EveryRunKeeps(states, steps, BLOCK_APPLY_BATCH_MAX_TICKETS, i);
  }

  // ------------------------------------------------------------------ the order of all batches

  // What a run sends and receives, read off its steps.

  function SentIn<T>(s: State<T>, step: Step<T>): seq<Request<T>>
    requires Enabled(s, step)
  {
    match step
    case Hand => [Request(s.queue[0], true)]
    case Inject(b) => [Request(b, false)]
    case _ => []
  }

  function ReceivedIn<T>(s: State<T>, step: Step<T>): seq<Request<T>>
    requires Enabled(s, step)
  {
    if step.Receive? then [s.channel[0]] else []
  }

  /** Everything sent to the channel by the first `i` steps. */
  ghost function Sent<T>(states: seq<State<T>>, steps: seq<Step<T>>, i: nat): seq<Request<T>>
    requires IsRun(states, steps) && i <= |steps|
  {
    if i == 0 then [] else Sent(states, steps, i - 1) + SentIn(states[i - 1], steps[i - 1])
  }

  /** Everything the worker has received by then. */
  ghost function Received<T>(states: seq<State<T>>, steps: seq<Step<T>>, i: nat): seq<Request<T>>
    requires IsRun(states, steps) && i <= |steps|
  {
    if i == 0 then [] else Received(states, steps, i - 1) + ReceivedIn(states[i - 1], steps[i - 1])
  }

  /** The batches that were injected, and those that were scheduled. */
  function Injected<T>(steps: seq<Step<T>>, i: nat): seq<T>
    requires i <= |steps|
  {
    if i == 0 then [] else Injected(steps, i - 1) + (if steps[i - 1].Inject? then [steps[i - 1].batch] else [])
  }

  function Scheduled<T>(steps: seq<Step<T>>, i: nat): seq<T>
    requires i <= |steps|
  {
    if i == 0 then [] else Scheduled(steps, i - 1) + (if steps[i - 1].Schedule? then [steps[i - 1].batch] else [])
  }

  function Unticketed<T>(channel: seq<Request<T>>): seq<T> {
    if channel == [] then []
    else Unticketed(channel[..|channel| - 1])
         + (if channel[|channel| - 1].hasTicket then [] else [channel[|channel| - 1].batch])
  }

  lemma UnticketedAppend<T>(channel: seq<Request<T>>, r: Request<T>)
    ensures Unticketed(channel + [r]) == Unticketed(channel) + (if r.hasTicket then [] else [r.batch])
  {
    assert (channel + [r])[..|channel|] == channel;
  }

  /** The channel is first in, first out; what was sent without a ticket is what was injected, and
      with a ticket what was scheduled and no longer waits, both in order. */
  ghost predicate Ordered<T>(s: State<T>, sent: seq<Request<T>>, received: seq<Request<T>>, injected: seq<T>, scheduled: seq<T>) {
    && received + s.channel == sent
    && Unticketed(sent) == injected
    && Ticketed(sent) + s.queue == scheduled
    && s.scheduled == scheduled
    && s.handed == Ticketed(received)
  }

  lemma SendingOrders<T>(s: State<T>, sent: seq<Request<T>>, received: seq<Request<T>>, r: Request<T>)
    requires received + s.channel == sent
    ensures received + (s.channel + [r]) == sent + [r]
    ensures Ticketed(sent + [r]) == if r.hasTicket then Ticketed(sent) + [r.batch] else Ticketed(sent)
    ensures Unticketed(sent + [r]) == if r.hasTicket then Unticketed(sent) else Unticketed(sent) + [r.batch]
  {
    hide Ticketed, Unticketed;
    TicketedAppend(sent, r);
    UnticketedAppend(sent, r);
    assert received + (s.channel + [r]) == (received + s.channel) + [r];
    assert Ticketed(sent) + [] == Ticketed(sent) && Unticketed(sent) + [] == Unticketed(sent);
  }

  lemma StepOrders<T>(s: State<T>, step: Step<T>, sent: seq<Request<T>>, received: seq<Request<T>>, injected: seq<T>, scheduled: seq<T>)
    requires Enabled(s, step) && Ordered(s, sent, received, injected, scheduled)
    ensures Ordered(Next(s, step), sent + SentIn(s, step), received + ReceivedIn(s, step),
                    injected + (if step.Inject? then [step.batch] else []),
                    scheduled + (if step.Schedule? then [step.batch] else []))
  {
    hide Ticketed, Unticketed;
    assert sent + [] == sent && received + [] == received && injected + [] == injected && scheduled + [] == scheduled;
    match step
    case Schedule(b) =>
      assert Ticketed(sent) + (s.queue + [b]) == (Ticketed(sent) + s.queue) + [b];
    case Inject(b) => SendingOrders(s, sent, received, Request(b, false));
    case Hand =>
      SendingOrders(s, sent, received, Request(s.queue[0], true));
      assert (Ticketed(sent) + [s.queue[0]]) + s.queue[1..] == Ticketed(sent) + s.queue;
    case Receive =>
      TicketedAppend(received, s.channel[0]);
      assert (received + [s.channel[0]]) + s.channel[1..] == received + s.channel;
      assert Ticketed(received) + [] == Ticketed(received);
    case TakeDone =>
    case Acquire =>
    case LoopEnd =>
    case GiveBack =>
    case Fail =>
    case DropAfterFail =>
    case Finish =>
    case SignalDone =>
  }

  /** In every state of every run, for any number of tickets: every batch, scheduled or injected,
      is sent once and received in the order of sending. */
  lemma {:induction false} EveryRunOrders<T>(states: seq<State<T>>, steps: seq<Step<T>>, maximum: nat, i: nat)
    requires IsRun(states, steps) && states[0] == Initial(maximum) && i <= |steps|
    ensures Ordered(states[i], Sent(states, steps, i), Received(states, steps, i), Injected(steps, i), Scheduled(steps, i))
  {
    hide Next, Enabled, SentIn, ReceivedIn, Ordered;
    if i == 0 {
      NothingSent<T>(maximum);
    } else {
      EveryRunOrders(states, steps, maximum, i - 1);
      assert Enabled(states[i - 1], steps[i - 1]) && states[(i - 1) + 1] == Next(states[i - 1], steps[i - 1]);
      StepOrders(states[i - 1], steps[i - 1], Sent(states, steps, i - 1), Received(states, steps, i - 1),
                 Injected(steps, i - 1), Scheduled(steps, i - 1));
    }
  }

  lemma NothingSent<T>(maximum: nat)
    ensures Ordered(Initial<T>(maximum), [], [], [], [])
  {
  }

  // ------------------------------------------------------------------ one ticket is not enough

  /** A run can end with a batch waiting and nothing left that will wake the actor. */
  ghost predicate Strands(maximum: nat) {
    exists s: State<int> :: Reachable(s, maximum) && !NotStranded(s)
  }

  lemma NeverStrands(maximum: nat)
    requires maximum >= 2
    ensures !Strands(maximum)
  {
    hide Reachable;
    forall s: State<int> | Reachable(s, maximum) ensures NotStranded(s) {
      ReachableKeeps(s, maximum);
    }
  }

  /** Two batches are scheduled while there is one ticket: one is on its way, one waits. */
  lemma OneTicketOneWaits(r: Request<int>)
    requires r == Request(1, true)
    ensures Reachable(State([2], 0, Looping, [r], Waiting, 0, [1, 2], []), 1)
  {
    hide Reachable;
    var none: seq<int>, empty: seq<Request<int>> := [], [];
    assert none + [1] == [1] && none + [2] == [2] && [1] + [2] == [1, 2] && [1][1..] == none;
    assert empty + [r] == [r];
    var s1 := State([1], 1, Looping, [], Waiting, 0, [1], []);
    var s2 := State([1], 0, Holding, [], Waiting, 0, [1], []);
    var s3 := State([], 0, Looping, [r], Waiting, 0, [1], []);
    var s4 := State([], 0, Idle, [r], Waiting, 0, [1], []);
    ReachInitial<int>(1);
    ReachStep(Initial<int>(1), Schedule(1), s1, 1);
    ReachStep(s1, Acquire, s2, 1);
    ReachStep(s2, Hand, s3, 1);
    ReachStep(s3, LoopEnd, s4, 1);
    ReachStep(s4, Schedule(2), State([2], 0, Looping, [r], Waiting, 0, [1, 2], []), 1);
  }

  lemma OneTicketAtWork(r: Request<int>)
    requires r == Request(1, true)
    ensures Reachable(State([2], 0, Idle, [], Working(r), 0, [1, 2], [1]), 1)
  {
    hide Reachable;
    var none: seq<int> := [];
    assert [r][1..] == [] && none + [1] == [1];
    OneTicketOneWaits(r);
    var s1 := State([2], 0, Looping, [r], Waiting, 0, [1, 2], []);
    var s2 := State([2], 0, Idle, [r], Waiting, 0, [1, 2], []);
    ReachStep(s1, LoopEnd, s2, 1);
    ReachStep(s2, Receive, State([2], 0, Idle, [], Working(r), 0, [1, 2], [1]), 1);
  }

  /** The batch at work fails, its signal is handled while its ticket is still held, and the
      queue waits for ever. */
  lemma FailureStrands(s: State<int>)
    requires Reachable(s, 1) && s.worker.Working? && s.worker.request.hasTicket
    requires s.tickets == 0 && s.actor.Idle? && s.done == 0 && s.channel == [] && s.queue != []
    ensures Strands(1)
  {
    hide Reachable, NotStranded;
    var r := s.worker.request;
    var s1 := s.(worker := Signalled(r), done := 1);
    var s2 := s.(worker := Signalled(r), actor := Looping);
    var s3 := s.(worker := Signalled(r));
    var s4 := s.(worker := Waiting, tickets := 1);
    ReachStep(s, Fail, s1, 1);
    ReachStep(s1, TakeDone, s2, 1);
    ReachStep(s2, LoopEnd, s3, 1);
    ReachStep(s3, DropAfterFail, s4, 1);
    NothingLeft(s4);
  }

  lemma OneTicketStrands()
    ensures Strands(1)
  {
    hide Reachable, Strands;
    var r := Request(1, true);
    OneTicketAtWork(r);
    FailureStrands(State([2], 0, Idle, [], Working(r), 0, [1, 2], [1]));
  }

  lemma NothingLeft<T>(s: State<T>)
    requires s.queue != [] && s.actor.Idle? && s.channel == [] && s.worker.Waiting? && s.done == 0
    ensures !NotStranded(s)
  {
  }

  lemma NoTicketStrands()
    ensures Strands(0)
  {
    hide Reachable;
    var none: seq<int> := [];
    assert none + [1] == [1];
    ReachInitial<int>(0);
    var s1 := State([1], 0, Looping, [], Waiting, 0, [1], []);
    ReachStep(Initial<int>(0), Schedule(1), s1, 0);
    ReachStep(s1, LoopEnd, s1.(actor := Idle), 0);
    assert !NotStranded(s1.(actor := Idle));
  }

  /** Two tickets are exactly what it takes. */
  lemma NeverStrandsIffTwoTickets(maximum: nat)
    ensures !Strands(maximum) <==> maximum >= 2
  {
    if maximum >= 2 {
      NeverStrands(maximum);
    } else if maximum == 1 {
      OneTicketStrands();
    } else {
      NoTicketStrands();
    }
  }

  // ------------------------------------------------------------------ all work gets done

  predicate External<T>(step: Step<T>) {
    step.Schedule? || step.Inject?
  }

  function ActorWork(a: Actor): nat {
    match a
    case Idle => 0
    case Holding => 1
    case Looping => 2
  }

  function WorkerWork<T>(w: Worker<T>): nat {
    match w
    case Waiting => 0
    case Signalled(_) => 1
    case Released(_) => 4
    case Working(_) => 5
  }

  /** The work left in a state. */
  function WorkLeft<T>(s: State<T>): nat {
    8 * |s.queue| + 6 * |s.channel| + WorkerWork(s.worker) + 3 * s.done + ActorWork(s.actor)
  }

  /** Every step but an arriving message leaves less work, so between arrivals the system comes
      to rest. */
  lemma WorkShrinks<T>(s: State<T>, step: Step<T>)
    requires Enabled(s, step) && !External(step)
    ensures WorkLeft(Next(s, step)) < WorkLeft(s)
  {
  }

  /** Nothing but an arriving message can happen. */
  ghost predicate AtRest<T(!new)>(s: State<T>) {
    forall step :: Enabled(s, step) ==> External(step)
  }

  /** And at rest everything has been handed to the worker and dealt with, and every ticket is
      back. */
  lemma AtRestAllDone<T(!new)>(s: State<T>, maximum: nat)
    requires maximum >= 2 && Inv(s, maximum) && AtRest(s)
    ensures s.queue == [] && s.channel == [] && s.worker.Waiting? && s.done == 0
    ensures s.handed == s.scheduled && s.tickets == maximum
  {
    assert !Enabled(s, TakeDone) && !Enabled(s, Acquire) && !Enabled(s, LoopEnd);
    assert !Enabled(s, Hand) && !Enabled(s, GiveBack) && !Enabled(s, Receive);
    assert !Enabled(s, Fail) && !Enabled(s, DropAfterFail) && !Enabled(s, SignalDone);
    TicketedNonEmpty(s.channel);
    assert s.handed + [] + [] == s.handed;
  }

  /** A run without arrivals is no longer than the work there was. */
  lemma {:induction false} InternalRunsEnd<T>(states: seq<State<T>>, steps: seq<Step<T>>, i: nat)
    requires IsRun(states, steps) && i <= |steps|
    requires forall j :: 0 <= j < |steps| ==> !External(steps[j])
    ensures i + WorkLeft(states[i]) <= WorkLeft(states[0])
  {
    hide Next, Enabled, External, WorkLeft;
    if i > 0 {
      InternalRunsEnd(states, steps, i - 1);
      assert Enabled(states[i - 1], steps[i - 1]) && states[(i - 1) + 1] == Next(states[i - 1], steps[i - 1]);
      WorkShrinks(states[i - 1], steps[i - 1]);
    }
  }

  /** So whatever was scheduled before arrivals stop is handed to the worker within a bounded
      number of steps, however actor and worker interleave. */
  lemma AllWorkGetsDone<T(!new)>(s: State<T>, maximum: nat, states: seq<State<T>>, steps: seq<Step<T>>)
    requires maximum >= 2 && Reachable(s, maximum)
    requires IsRun(states, steps) && states[0] == s
    requires forall j :: 0 <= j < |steps| ==> !External(steps[j])
    ensures |steps| <= WorkLeft(s)
    ensures AtRest(states[|steps|]) ==>
              states[|steps|].handed == states[|steps|].scheduled == s.scheduled && states[|steps|].queue == []
  {
    hide Reachable;
    ReachableKeeps(s, maximum);
    InternalRunsEnd(states, steps, |steps|);
    InvAlong(states, steps, maximum, |steps|);
    if AtRest(states[|steps|]) {
      AtRestAllDone(states[|steps|], maximum);
    }
  }

  /** When a run with at least two tickets comes to rest, the worker has received everything that
      was ever scheduled or injected, each way in order. */
  lemma AtRestAllReceived<T(!new)>(states: seq<State<T>>, steps: seq<Step<T>>, maximum: nat)
    requires maximum >= 2 && IsRun(states, steps) && states[0] == Initial(maximum) && AtRest(states[|steps|])
    ensures var received := Received(states, steps, |steps|);
            && received == Sent(states, steps, |steps|)
            && Unticketed(received) == Injected(steps, |steps|)
            && Ticketed(received) == Scheduled(steps, |steps|)
  {
    hide Next, Enabled, AtRest, Inv;
    var n := |steps|;
    EveryRunKeeps(states, steps, maximum, n);
    AtRestAllDone(states[n], maximum);
    EveryRunOrders(states, steps, maximum, n);
    assert Received(states, steps, n) + [] == Received(states, steps, n);
    assert Ticketed(Sent(states, steps, n)) + [] == Ticketed(Sent(states, steps, n));
  }

  lemma {:induction false} InvAlong<T>(states: seq<State<T>>, steps: seq<Step<T>>, maximum: nat, i: nat)
    requires maximum >= 2 && IsRun(states, steps) && Inv(states[0], maximum) && i <= |steps|
    requires forall j :: 0 <= j < |steps| ==> !External(steps[j])
    ensures Inv(states[i], maximum) && states[i].scheduled == states[0].scheduled
  {
    hide Inv, Next, Enabled, External;
    if i > 0 {
      InvAlong(states, steps, maximum, i - 1);
      assert Enabled(states[i - 1], steps[i - 1]) && states[(i - 1) + 1] == Next(states[i - 1], steps[i - 1]);
      StepKeepsInv(states[i - 1], steps[i - 1], maximum);
      ScheduledKept(states[i - 1], steps[i - 1]);
    }
  }

  lemma ScheduledKept<T>(s: State<T>, step: Step<T>)
    requires Enabled(s, step) && !External(step)
    ensures Next(s, step).scheduled == s.scheduled
  {
  }

  // ------------------------------------------------------------------ the actor's loop

  /** The loop of `process_batch_queue` with nothing else going on. */
  function Drain<T>(s: State<T>): State<T>
    requires s.actor.Looping?
    decreases |s.queue|
  {
    if s.tickets == 0 then Next(s, LoopEnd)
    else
      var held := Next(s, Acquire);
      if held.queue == [] then Next(held, GiveBack) else Drain(Next(held, Hand))
  }

  lemma DrainRound<T>(s: State<T>)
    requires s.actor.Looping?
    ensures Drain(s) == if s.tickets == 0 || s.queue == [] then s.(actor := Idle)
                        else Drain(s.(tickets := s.tickets - 1, queue := s.queue[1..],
                                      channel := s.channel + [Request(s.queue[0], true)]))
  {
  }

  function Requests<T>(batches: seq<T>): seq<Request<T>> {
    seq(|batches|, i requires 0 <= i < |batches| => Request(batches[i], true))
  }

  /** It hands out as many batches as there are tickets, in order. */
  lemma {:induction false} DrainHandsOut<T>(s: State<T>)
    requires s.actor.Looping?
    ensures var k := if |s.queue| <= s.tickets then |s.queue| else s.tickets;
            Drain(s) == s.(actor := Idle, tickets := s.tickets - k, queue := s.queue[k..],
                           channel := s.channel + Requests(s.queue[..k]))
    decreases |s.queue|
  {
    if s.tickets == 0 || s.queue == [] {
      assert Requests(s.queue[..0]) == [];
      assert s.channel + [] == s.channel;
    } else {
      DrainHandsOut(Next(Next(s, Acquire), Hand));
      var k := if |s.queue| <= s.tickets then |s.queue| else s.tickets;
      assert s.queue[1..][k - 1..] == s.queue[k..];
      HandOneMore(s.channel, s.queue, k);
    }
  }

  lemma HandOneMore<T>(channel: seq<Request<T>>, queue: seq<T>, k: nat)
    requires 1 <= k <= |queue|
    ensures (channel + [Request(queue[0], true)]) + Requests(queue[1..][..k - 1]) == channel + Requests(queue[..k])
  {
    assert queue[..k][1..] == queue[1..][..k - 1];
  }

  /** From the front of the queue, as many batches as there are tickets went to the end of the
      channel. */
  predicate HandedOut<T(==)>(queue: seq<T>, tickets: nat, channel: seq<Request<T>>,
                             queue': seq<T>, tickets': nat, channel': seq<Request<T>>) {
    var k := if |queue| <= tickets then |queue| else tickets;
    queue' == queue[k..] && tickets' == tickets - k && channel' == channel + Requests(queue[..k])
  }

  class ChainFeeder<T(==)> {
    var queue: seq<T>
    var applyBlockTickets: nat
    var channel: seq<Request<T>>
    // The rest of the system, as the actor's steps leave it.
    ghost var worker: Worker<T>
    ghost var done: nat
    ghost var scheduled: seq<T>
    ghost var handed: seq<T>

    ghost function Snapshot(actor: Actor): State<T>
      reads this
    {
      State(queue, applyBlockTickets, actor, channel, worker, done, scheduled, handed)
    }

    constructor ()
      ensures Snapshot(Idle) == Initial(BLOCK_APPLY_BATCH_MAX_TICKETS)
    {
      queue, applyBlockTickets, channel := [], BLOCK_APPLY_BATCH_MAX_TICKETS, [];
      worker, done, scheduled, handed := Waiting, 0, [], [];
    }

    /** `process_batch_queue`. */
    method ProcessBatchQueue()
      modifies this
      ensures Snapshot(Idle) == Drain(old(Snapshot(Looping)))
      ensures HandedOut(old(queue), old(applyBlockTickets), old(channel), queue, applyBlockTickets, channel)
    {
      hide Drain;
      DrainHandsOut(Snapshot(Looping));
      while applyBlockTickets > 0
        invariant Drain(Snapshot(Looping)) == Drain(old(Snapshot(Looping)))
        decreases |queue|
      {
        DrainRound(Snapshot(Looping));
        applyBlockTickets := applyBlockTickets - 1;
        if queue == [] {
          applyBlockTickets := applyBlockTickets + 1;
          return;
        }
        var batch := queue[0];
        queue := queue[1..];
        channel := channel + [Request(batch, true)];
      }
      DrainRound(Snapshot(Looping));
    }

    /** The receiver of `ScheduleApplyBlock`. */
    method ReceiveSchedule(batch: T)
      modifies this
      ensures Snapshot(Idle) == Drain(Next(old(Snapshot(Idle)), Schedule(batch)))
      ensures HandedOut(old(queue) + [batch], old(applyBlockTickets), old(channel), queue, applyBlockTickets, channel)
    {
      hide Drain, HandedOut;
      queue := queue + [batch];
      scheduled := scheduled + [batch];
      ProcessBatchQueue();
    }

    /** The receiver of `ApplyBlockDone`. */
    method ReceiveDone()
      requires done > 0
      modifies this
      ensures Snapshot(Idle) == Drain(Next(old(Snapshot(Idle)), TakeDone))
      ensures HandedOut(old(queue), old(applyBlockTickets), old(channel), queue, applyBlockTickets, channel)
    {
      hide Drain, HandedOut;
      done := done - 1;
      ProcessBatchQueue();
    }

    /** The receiver of `ApplyBlock`, the direct way in. */
    method ReceiveApplyBlock(batch: T)
      modifies this
      ensures Snapshot(Idle) == Next(old(Snapshot(Idle)), Inject(batch))
      ensures channel == old(channel) + [Request(batch, false)]
      ensures queue == old(queue) && applyBlockTickets == old(applyBlockTickets)
      ensures worker == old(worker) && done == old(done) && scheduled == old(scheduled) && handed == old(handed)
    {
      channel := channel + [Request(batch, false)];
    }
  }
}
