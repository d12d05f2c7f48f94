/** One agent's mailbox and blocking wait (kernel/agent_loop.c, kernel/agent.c): exact FIFO
  * delivery and no lost wakeup, whatever senders, ticks, kills and cascades do in between. */
module AgentWait {
  const CAP: nat := 8
  const SYSTEM_SLOTS: nat := 2
  const MESSAGE_MAX: nat := 128

  const OK := 0
  const ERR_BAD_PARAM := -2
  const ERR_NOT_AGENT := -3
  const ERR_BUSY := -5
  const ERR_SERVICE_GONE := -7

  datatype Option<T> = None | Some(value: T)

  datatype Kind = Normal | System

  datatype Message = Message(from: int, kind: Kind, payload: string, sequence: nat, requestId: nat)

  const CLEARED := Message(0, Normal, "", 0, 0)

  datatype Event = Heartbeat | Mail | FileMod | ParentGone

  datatype LoopState = Idle | Ready | Busy | Waiting | RolledBack | Done

  /** A process runs its own code, could run it, or sleeps on its own channel or another one. */
  datatype RunState = Unused | Running | Runnable | Sleeping(own: bool) | Zombie

  /** How a wait comes back, or that it fell asleep. */
  datatype Outcome =
    | Asleep | Gone | Mailed(message: Message) | FileChanged | Beat | TimedOut | Cancelled | NoSource | LoopEnded

  const WAIT_MESSAGE := 1
  const WAIT_FILEMOD := 2
  const WAIT_HEARTBEAT := 3
  const WAIT_TIMEOUT := 4
  const WAIT_NO_SOURCE := 6
  const WAIT_PARENT_GONE := 7

  // ---------------------------------------------------------------- the ring

  /** The queued messages, oldest first. */
  function Window(queue: seq<Message>, head: nat, count: nat): (w: seq<Message>)
    requires |queue| == CAP && count <= CAP
    ensures |w| == count
  {
    seq(count, i requires 0 <= i < count => queue[(head + i) % CAP])
  }

  lemma WindowPush(queue: seq<Message>, head: nat, count: nat, m: Message)
    requires |queue| == CAP && head < CAP && count < CAP
    ensures Window(queue[(head + count) % CAP := m], head, count + 1) == Window(queue, head, count) + [m]
  {
    var queue' := queue[(head + count) % CAP := m];
    forall i | 0 <= i < count
      ensures Window(queue', head, count + 1)[i] == Window(queue, head, count)[i]
    {
      PlacesApart(head, i, count);
    }
  }

  lemma PlacesApart(head: nat, i: nat, j: nat)
    requires head < CAP && i < j < CAP + i
    ensures (head + i) % CAP != (head + j) % CAP
  {
  }

  lemma WindowPop(queue: seq<Message>, head: nat, count: nat)
    requires |queue| == CAP && head < CAP && 0 < count <= CAP
    ensures Window(queue, head, count)[0] == queue[head]
    ensures Window(queue[head := CLEARED], (head + 1) % CAP, count - 1) == Window(queue, head, count)[1..]
  {
    hide Window;
    var before, after := Window(queue, head, count), Window(queue[head := CLEARED], (head + 1) % CAP, count - 1);
    WindowAt(queue, head, count, 0);
    forall i | 0 <= i < count - 1
      ensures after[i] == before[1..][i]
    {
      PopAt(queue, head, count, i);
    }
  }

  lemma WindowAt(queue: seq<Message>, head: nat, count: nat, i: nat)
    requires |queue| == CAP && i < count <= CAP
    ensures Window(queue, head, count)[i] == queue[(head + i) % CAP]
    ensures i == 0 && head < CAP ==> (head + i) % CAP == head
  {
  }

  lemma PopAt(queue: seq<Message>, head: nat, count: nat, i: nat)
    requires |queue| == CAP && head < CAP && 0 < count <= CAP && i < count - 1
    ensures Window(queue[head := CLEARED], (head + 1) % CAP, count - 1)[i] == Window(queue, head, count)[i + 1]
  {
    hide Window;
    WindowAt(queue, head, count, i + 1);
    WindowAt(queue[head := CLEARED], (head + 1) % CAP, count - 1, i);
    PlacesApart(head, 0, i + 1);
    PlaceAfter(head, i);
  }

  lemma PlaceAfter(head: nat, i: nat)
    ensures ((head + 1) % CAP + i) % CAP == (head + (i + 1)) % CAP
  {
  }

  function CountOf(ms: seq<Message>, kind: Kind): (n: nat)
    ensures n <= |ms|
  {
    if ms == [] then 0 else CountOf(ms[..|ms| - 1], kind) + if ms[|ms| - 1].kind == kind then 1 else 0
  }

  lemma {:induction false} CountTail(ms: seq<Message>, kind: Kind)
    requires ms != []
    ensures CountOf(ms[1..], kind) == CountOf(ms, kind) - if ms[0].kind == kind then 1 else 0
  {
    if |ms| > 1 {
      CountTail(ms[..|ms| - 1], kind);
      assert ms[1..][..|ms| - 2] == ms[..|ms| - 1][1..];
    }
  }

  lemma CountPush(ms: seq<Message>, m: Message, kind: Kind)
    ensures CountOf(ms + [m], kind) == CountOf(ms, kind) + if m.kind == kind then 1 else 0
  {
    assert (ms + [m])[..|ms|] == ms;
  }

  /** Accepted messages carry 1, 2, 3, … */
  predicate Numbered(ms: seq<Message>) {
    forall i :: 0 <= i < |ms| ==> ms[i].sequence == i + 1
  }

  /** The ring holds exactly the accepted messages not yet received, in order and numbered, with
    * both counters exact and the system slots free of normal messages. */
  ghost predicate Queued(queue: seq<Message>, head: nat, tail: nat, count: nat, accepted: seq<Message>, received: nat,
                         normal: int, system: int)
  {
    && |queue| == CAP && head < CAP && count <= CAP && tail == (head + count) % CAP
    && Numbered(accepted)
    && received <= |accepted| && Window(queue, head, count) == accepted[received..]
    && normal == CountOf(accepted[received..], Normal)
    && system == CountOf(accepted[received..], System)
    && normal <= CAP - SYSTEM_SLOTS
  }

  /** The queue gains m at the back. */
  lemma PushQueued(queue: seq<Message>, head: nat, tail: nat, count: nat, accepted: seq<Message>, received: nat,
                   normal: int, system: int, m: Message)
    requires Queued(queue, head, tail, count, accepted, received, normal, system)
    requires count < CAP && m.sequence == |accepted| + 1 && (m.kind.Normal? ==> normal < CAP - SYSTEM_SLOTS)
    ensures |queue| == CAP && tail < CAP
    ensures Queued(queue[tail := m], head, (tail + 1) % CAP, count + 1, accepted + [m], received,
                   normal + if m.kind.Normal? then 1 else 0, system + if m.kind.System? then 1 else 0)
  {
    hide CountOf, Window;
    WindowPush(queue, head, count, m);
    NextPlace(head, count);
    assert (accepted + [m])[received..] == accepted[received..] + [m];
    CountPush(accepted[received..], m, Normal);
    CountPush(accepted[received..], m, System);
  }

  lemma NextPlace(head: nat, count: nat)
    ensures ((head + count) % CAP + 1) % CAP == (head + (count + 1)) % CAP
  {
  }

  /** The queue loses its oldest message. */
  lemma PopQueued(queue: seq<Message>, head: nat, tail: nat, count: nat, accepted: seq<Message>, received: nat,
                  normal: int, system: int)
    requires Queued(queue, head, tail, count, accepted, received, normal, system) && count > 0
    ensures |queue| == CAP && head < CAP && received < |accepted| && queue[head] == accepted[received]
    ensures Queued(queue[head := CLEARED], (head + 1) % CAP, tail, count - 1, accepted, received + 1,
      normal - if queue[head].kind.Normal? then 1 else 0, system - if queue[head].kind.System? then 1 else 0)
  {
    hide CountOf, Window;
    WindowPop(queue, head, count);
    CountTail(accepted[received..], Normal);
    CountTail(accepted[received..], System);
    assert accepted[received..][1..] == accepted[received + 1..];
    NextHead(head, count);
  }

  lemma NextHead(head: nat, count: nat)
    requires count > 0
    ensures (head + count) % CAP == ((head + 1) % CAP + (count - 1)) % CAP
  {
  }

  lemma {:induction false} CountBoth(ms: seq<Message>)
    ensures CountOf(ms, Normal) + CountOf(ms, System) == |ms|
  {
    if ms != [] {
      CountBoth(ms[..|ms| - 1]);
    }
  }

  /** safestrcpy into a field of MESSAGE_MAX bytes. */
  function Clipped(payload: string): (c: string)
    ensures c <= payload && |c| == if |payload| < MESSAGE_MAX then |payload| else MESSAGE_MAX - 1
  {
    if |payload| < MESSAGE_MAX then payload else payload[..MESSAGE_MAX - 1]
  }

  /** No lost wakeup: a process asleep in agent_proc_wait has nothing to wake up for, and
    * something that can still wake it. */
  predicate NoLostWakeup(waiting: bool, run: RunState, agent: bool, loop: LoopState, count: nat, pending: set<Event>,
                         killed: bool, waitDeadline: nat, last: nat, interval: int, watch: set<Event>)
  {
    waiting && run.Sleeping? ==>
      && run.own && agent && loop == Waiting
      && count == 0 && pending == {} && !killed
      && (waitDeadline == 0 || last < waitDeadline)
      && (waitDeadline > 0 || interval != 0 || watch != {})
  }

  // ---------------------------------------------------------------- the agent

  class Agent {
    var run: RunState
    var agent: bool
    var loop: LoopState
    var killed: bool
    var pending: set<Event>
    var watch: set<Event>
    var interval: int
    var waitDeadline: nat

    var queue: seq<Message>
    var head: nat
    var tail: nat
    var count: nat
    var normalCount: int
    var systemCount: int
    var dropped: nat
    var nextSequence: nat

    /** Messages accepted since the mailbox was last reset, and how many of them were received. */
    ghost var accepted: seq<Message>
    ghost var received: nat
    /** Inside agent_proc_wait, past its early returns. */
    ghost var waiting: bool
    /** The last tick handled. */
    ghost var last: nat

    ghost predicate MailboxValid()
      reads this
    {
      && Queued(queue, head, tail, count, accepted, received, normalCount, systemCount)
      && nextSequence == |accepted| + 1
      && (Mail in pending ==> count > 0)
    }

    ghost predicate Valid()
      reads this
    {
      && MailboxValid()
      && NoLostWakeup(waiting, run, agent, loop, count, pending, killed, waitDeadline, last, interval, watch)
      && (waiting ==> agent && (run.Sleeping? || run == Runnable || run == Running))
      && (waiting ==> loop == Waiting || (loop == Done && killed))
      && (waiting ==> killed || count > 0 || waitDeadline > 0 || interval != 0 || watch != {})
    }

    /** A slot as agent_init_proc leaves it. */
    constructor ()
      ensures Valid() && run == Unused && !agent && !waiting && accepted == [] && received == 0 && last == 0
      ensures !killed && loop == Idle && pending == {} && watch == {} && interval == 0 && waitDeadline == 0
    {
      run, agent, loop, killed := Unused, false, Idle, false;
      pending, watch, interval, waitDeadline := {}, {}, 0, 0;
      queue, head, tail, count := seq(CAP, i => CLEARED), 0, 0, 0;
      normalCount, systemCount, dropped, nextSequence := 0, 0, 0, 1;
      accepted, received, waiting, last := [], 0, false, 0;
    }

    /** memset of the mailbox. */
    method ResetMailbox()
      modifies this`queue, this`head, this`tail, this`count, this`normalCount, this`systemCount, this`dropped,
               this`nextSequence, this`accepted, this`received
      ensures accepted == [] && received == 0 && count == 0 && dropped == 0
      ensures Mail !in pending ==> MailboxValid()
    {
      queue, head, tail, count := seq(CAP, i => CLEARED), 0, 0, 0;
      normalCount, systemCount, dropped, nextSequence := 0, 0, 0, 1;
      accepted, received := [], 0;
    }

    /** Everything that could wake the process is cleared, and the mailbox reset. */
    method Clear(isAgent: bool, state: LoopState, newInterval: int)
      requires !waiting
      modifies this`queue, this`head, this`tail, this`count, this`normalCount, this`systemCount, this`dropped,
               this`nextSequence, this`accepted, this`received
      modifies this`agent, this`loop, this`interval, this`watch, this`pending, this`waitDeadline
      ensures Valid() && agent == isAgent && loop == state && interval == newInterval
      ensures watch == {} && pending == {} && waitDeadline == 0
      ensures accepted == [] && received == 0 && count == 0 && dropped == 0
    {
      hide Queued;
      pending := {};
      ResetMailbox();
      agent, loop, interval, watch, waitDeadline := isAgent, state, newInterval, {}, 0;
    }

    /** A wait comes back: what it reports is no longer pending. */
    method Leave(events: set<Event>, state: LoopState)
      requires MailboxValid() && run == Running
      modifies this`pending, this`loop, this`waiting
      ensures Valid() && !waiting && pending == old(pending) - events && loop == state
    {
      hide Queued;
      pending, loop, waiting := pending - events, state, false;
    }

    /** agent_signal_event_locked. */
    method Signal(e: Event)
      requires MailboxValid() && (e == Mail ==> count > 0)
      modifies this`pending, this`run
      ensures MailboxValid() && pending == old(pending) + {e}
      ensures run == if old(run) == Sleeping(true) then Runnable else old(run)
    {
      hide Queued;
      pending := pending + {e};
      if run == Sleeping(true) {
        run := Runnable;
      }
    }

    /** agent_send_message; kind and payload are None for a type or a pointer it refuses, addressed says that
      * the pid is this slot's. A normal message is taken exactly while fewer than six normal ones are
      * queued and the mailbox is not full, a system message exactly while the mailbox is not full. */
    method Send(from: int, kind: Option<Kind>, payload: Option<string>, requestId: nat, addressed: bool)
      returns (r: int)
      requires Valid()
      modifies this
      ensures Valid() && last == old(last) && waiting == old(waiting) && received == old(received)
      ensures r == if kind.None? || payload.None? then ERR_BAD_PARAM
                   else if !addressed || run == Unused || !agent then ERR_SERVICE_GONE
                   else if old(count) == CAP then ERR_BUSY
                   else if kind.value.Normal? && CountOf(old(accepted[received..]), Normal) == CAP - SYSTEM_SLOTS
                   then ERR_BUSY else OK
      ensures r == OK ==>
                && kind.Some? && payload.Some?
                && accepted == old(accepted)
                     + [Message(from, kind.value, Clipped(payload.value), |old(accepted)| + 1, requestId)]
      ensures r != OK ==> accepted == old(accepted)
      ensures dropped == old(dropped) + if r == ERR_BUSY then 1 else 0
      ensures pending == if r == OK then old(pending) + {Mail} else old(pending)
      ensures run == if r == OK && old(run) == Sleeping(true) then Runnable else old(run)
      ensures agent == old(agent) && loop == old(loop) && killed == old(killed) && watch == old(watch)
      ensures interval == old(interval) && waitDeadline == old(waitDeadline)
      ensures kind == Some(System) && CountOf(old(accepted[received..]), System) < SYSTEM_SLOTS ==> r != ERR_BUSY
    {
      hide CountOf, Window, Numbered, Clipped;
      if kind.None? || payload.None? {
        return ERR_BAD_PARAM;
      }
      if !addressed || run == Unused || !agent {
        return ERR_SERVICE_GONE;
      }
      var kind := kind.value;
      CountBoth(accepted[received..]);
      if (kind.Normal? && normalCount >= CAP - SYSTEM_SLOTS) || count >= CAP {
        dropped := dropped + 1;
        return ERR_BUSY;
      }
      Enqueue(Message(from, kind, Clipped(payload.value), nextSequence, requestId));
      Signal(Mail);
      r := OK;
    }

    method Enqueue(m: Message)
      requires MailboxValid() && count < CAP && m.sequence == nextSequence
      requires m.kind.Normal? ==> normalCount < CAP - SYSTEM_SLOTS
      modifies this`queue, this`tail, this`count, this`normalCount, this`systemCount, this`nextSequence, this`accepted
      ensures MailboxValid() && accepted == old(accepted) + [m] && count == old(count) + 1
    {
      hide Queued;
      PushQueued(queue, head, tail, count, accepted, received, normalCount, systemCount, m);
      queue := queue[tail := m];
      tail := (tail + 1) % CAP;
      count := count + 1;
      if m.kind.System? {
        systemCount := systemCount + 1;
      } else {
        normalCount := normalCount + 1;
      }
      nextSequence := nextSequence + 1;
      accepted := accepted + [m];
    }

    method Dequeue() returns (m: Message)
      requires MailboxValid() && count > 0
      modifies this`queue, this`head, this`count, this`normalCount, this`systemCount, this`received, this`pending
      ensures MailboxValid() && m == accepted[old(received)] && received == old(received) + 1
      ensures count == old(count) - 1
      ensures pending == if count > 0 then old(pending) + {Mail} else old(pending) - {Mail}
    {
      hide Queued;
      PopQueued(queue, head, tail, count, accepted, received, normalCount, systemCount);
      m := queue[head];
      if m.kind.System? {
        systemCount := systemCount - 1;
      } else {
        normalCount := normalCount - 1;
      }
      queue := queue[head := CLEARED];
      head := (head + 1) % CAP;
      count := count - 1;
      received := received + 1;
      pending := if count > 0 then pending + {Mail} else pending - {Mail};
    }

    // -------------------------------------------------------------- waiting

    /** agent_proc_wait up to its loop. A wait with no message, no watch, no heartbeat and no
      * timeout is refused; one that is told to end clears everything that could wake it. */
    method BeginWait(continueLoop: bool, timeout: int, now: nat) returns (r: int, o: Outcome)
      requires Valid() && !waiting && run == Running && now >= last
      modifies this
      ensures Valid() && last == old(last) && run == Running
      ensures o == Asleep || o == NoSource || o == LoopEnded
      ensures waiting <==> r == OK && o == Asleep
      ensures r == if !agent then ERR_NOT_AGENT else if o == NoSource then WAIT_NO_SOURCE else OK
      ensures agent == old(agent) && killed == old(killed)
      ensures agent ==> (o == LoopEnded <==> !continueLoop)
      ensures agent && continueLoop ==>
                (o == NoSource <==> old(interval) == 0 && old(watch) == {} && old(count) == 0 && timeout <= 0)
      ensures o == LoopEnded ==>
                loop == Done && accepted == [] && pending == {} && watch == {} && interval == 0 && waitDeadline == 0
      ensures waiting ==> loop == Waiting && waitDeadline == if timeout > 0 then now + timeout else 0
      ensures waiting ==> interval == old(interval) && watch == old(watch)
      ensures o != LoopEnded ==> accepted == old(accepted) && received == old(received) && pending == old(pending)
      ensures o != LoopEnded ==> dropped == old(dropped)
      ensures o == NoSource ==> unchanged(this)
    {
      hide CountOf, Window, Numbered, Queued;
      if !agent {
        return ERR_NOT_AGENT, NoSource;
      }
      if !continueLoop {
        Clear(agent, Done, 0);
        return OK, LoopEnded;
      }
      if interval == 0 && watch == {} && count == 0 && timeout <= 0 {
        return WAIT_NO_SOURCE, NoSource;
      }
      loop := Waiting;
      waitDeadline := if timeout > 0 then now + timeout else 0;
      waiting := true;
      return OK, Asleep;
    }

    /** One turn of agent_proc_wait's loop: it sleeps exactly when there is nothing to report, and
      * reports a pending PARENT_GONE first, then the oldest message, then the other events. The
      * event is taken before it is copied to the user: when that fails, wanted but not writable, the
      * caller is told -1 and the message or event is gone. */
    method WaitTurn(now: nat, wanted: bool, writable: bool) returns (o: Outcome, r: int)
      requires Valid() && waiting && run == Running && now >= last
      modifies this
      ensures Valid() && last == old(last) && accepted == old(accepted)
      ensures o == Asleep <==>
                old(count == 0 && pending == {} && !killed && (waitDeadline == 0 || now < waitDeadline))
      ensures waiting <==> o == Asleep
      ensures run == if o == Asleep then Sleeping(true) else Running
      ensures o == Gone <==> old(ParentGone in pending)
      ensures o.Mailed? <==> old(ParentGone !in pending && count > 0)
      ensures o.Mailed? ==> o.message == accepted[old(received)] && o.message.sequence == old(received) + 1
      ensures received == old(received) + if o.Mailed? then 1 else 0
      ensures o == FileChanged <==> old(ParentGone !in pending && count == 0 && FileMod in pending)
      ensures o == Beat <==> old(pending == {Heartbeat} && count == 0)
      ensures o == TimedOut <==> old(pending == {} && count == 0 && 0 < waitDeadline <= now)
      ensures o == Cancelled <==>
                old(pending == {} && count == 0 && killed && (waitDeadline == 0 || now < waitDeadline))
      ensures pending == match o
        case Gone => old(pending) - {ParentGone}
        case Mailed(_) => if count > 0 then old(pending) + {Mail} else old(pending) - {Mail}
        case FileChanged => old(pending) - {FileMod}
        case Beat => {}
        case _ => old(pending)
      ensures loop == match o
        case Asleep => old(loop)
        case Gone => Done
        case Cancelled => Done
        case _ => Ready
      ensures agent == old(agent) && killed == old(killed) && watch == old(watch) && interval == old(interval)
      ensures waitDeadline == old(waitDeadline) && dropped == old(dropped)
      ensures o != Asleep ==>
                r == if wanted && !writable then -1 else match o
                  case Gone => WAIT_PARENT_GONE
                  case Mailed(_) => WAIT_MESSAGE
                  case FileChanged => WAIT_FILEMOD
                  case Beat => WAIT_HEARTBEAT
                  case TimedOut => WAIT_TIMEOUT
                  case _ => -1
    {
      hide CountOf, Window, Numbered, Queued;
      CountIs();
      OnlyEvents(pending);
      if ParentGone in pending {
        o := Gone;
        r := WAIT_PARENT_GONE;
        Leave({ParentGone}, Done);
      } else if count > 0 {
        NumberedNext();
        var m := Dequeue();
        o := Mailed(m);
        r := WAIT_MESSAGE;
        Leave({}, Ready);
      } else if FileMod in pending {
        o := FileChanged;
        r := WAIT_FILEMOD;
        Leave({FileMod}, Ready);
      } else if Heartbeat in pending {
        o := Beat;
        r := WAIT_HEARTBEAT;
        Leave({Heartbeat}, Ready);
      } else if waitDeadline > 0 && now >= waitDeadline {
        o := TimedOut;
        r := WAIT_TIMEOUT;
        Leave({}, Ready);
      } else if killed {
        o := Cancelled;
        r := -1;
        Leave({}, Done);
      } else {
        run := Sleeping(true);
        return Asleep, 0;
      }
      if wanted && !writable {
        r := -1;
      }
    }

    lemma NumberedNext()
      requires MailboxValid() && count > 0
      ensures received < |accepted| && accepted[received].sequence == received + 1
    {
      assert Window(queue, head, count) == accepted[received..];
    }

    lemma CountIs()
      requires MailboxValid()
      ensures count == |accepted| - received
    {
      assert |Window(queue, head, count)| == count;
    }

    /** The scheduler runs a runnable process. */
    method Dispatch()
      requires Valid() && run == Runnable
      modifies this`run
      ensures Valid() && run == Running
    {
      hide Queued;
      run := Running;
    }

    /** A blocking call other than agent_proc_wait. */
    method SleepElsewhere(own: bool)
      requires Valid() && !waiting && run == Running
      modifies this`run
      ensures Valid() && run == Sleeping(own)
    {
      hide Queued;
      run := Sleeping(own);
    }

    // -------------------------------------------------------------- what others do

    /** The part of agent_tick that concerns this slot; due says that the timer wheel beats it. */
    method Tick(now: nat, due: bool)
      requires Valid() && now > last && (due ==> run != Unused && agent && loop != Done && interval > 0)
      modifies this`run, this`pending, this`last
      ensures Valid() && last == now
      ensures pending == if due then old(pending) + {Heartbeat} else old(pending)
      ensures run == if old(run) == Sleeping(true) && (due || (agent && loop == Waiting && 0 < waitDeadline <= now))
                     then Runnable else old(run)
      ensures old(waiting && run.Sleeping?) && 0 < waitDeadline <= now ==> run == Runnable
    {
      hide Queued;
      if due {
        Signal(Heartbeat);
      }
      if run == Sleeping(true) && agent && loop == Waiting && waitDeadline > 0 && now >= waitDeadline {
        run := Runnable;
      }
      last := now;
    }

    /** agent_notify_file_modified, and agent_signal_filemod where matches also asks that the
      * loop is not over. */
    method FileModified(matches: bool)
      requires Valid()
      modifies this`run, this`pending
      ensures Valid()
      ensures var hit := run != Unused && agent && FileMod in watch && matches;
              && pending == (if hit then old(pending) + {FileMod} else old(pending))
              && run == (if hit && old(run) == Sleeping(true) then Runnable else old(run))
    {
      hide Queued;
      if run != Unused && agent && FileMod in watch && matches {
        Signal(FileMod);
      }
    }

    /** kill. */
    method Kill()
      requires Valid()
      modifies this`run, this`killed
      ensures Valid() && killed && run == if old(run).Sleeping? then Runnable else old(run)
    {
      hide Queued;
      killed := true;
      if run.Sleeping? {
        run := Runnable;
      }
    }

    /** agent_cascade_terminate reaching this slot. */
    method Cascade()
      requires Valid() && run != Unused && agent
      modifies this`run, this`killed, this`loop, this`interval, this`watch, this`pending, this`waitDeadline
      ensures Valid() && killed && loop == Done && pending == old(pending) + {ParentGone}
      ensures interval == 0 && watch == {} && waitDeadline == 0
      ensures run == if old(run).Sleeping? then Runnable else old(run)
    {
      hide Queued;
      Kill();
      loop, interval, watch, waitDeadline := Done, 0, {}, 0;
      pending := pending + {ParentGone};
    }

    /** wakeup on the process's own channel, or on the other one it sleeps on. */
    method Wakeup(own: bool)
      requires Valid()
      modifies this`run
      ensures Valid() && run == if old(run) == Sleeping(own) then Runnable else old(run)
    {
      hide Queued;
      if run == Sleeping(own) {
        run := Runnable;
      }
    }

    // -------------------------------------------------------------- what the agent itself does

    /** The event and mailbox part of agent_mark_current. */
    method Mark(newInterval: int)
      requires Valid() && !waiting && run == Running
      modifies this
      ensures Valid() && agent && loop == Ready && accepted == [] && pending == {} && watch == {}
      ensures interval == newInterval && waitDeadline == 0 && dropped == 0 && received == 0
      ensures run == Running && killed == old(killed) && !waiting && last == old(last)
    {
      Clear(true, Ready, newInterval);
    }

    /** agent_proc_watch; a mask with other events in it is refused. */
    method Watch(mask: set<Event>) returns (r: int)
      requires Valid() && !waiting && run == Running
      modifies this`watch, this`loop
      ensures Valid() && r == if !agent then ERR_NOT_AGENT else if mask <= {Mail, FileMod} then OK else -1
      ensures watch == if r == OK then old(watch) + mask else old(watch)
      ensures loop == if r == OK && old(loop) != Done then Ready else old(loop)
    {
      hide Queued;
      if !agent {
        return ERR_NOT_AGENT;
      }
      if !(mask <= {Mail, FileMod}) {
        return -1;
      }
      watch := watch + mask;
      if loop != Done {
        loop := Ready;
      }
      r := OK;
    }

    /** agent_proc_unwatch: dropping the MESSAGE watch clears the event but not the mailbox. */
    method Unwatch(mask: set<Event>) returns (r: int)
      requires Valid() && !waiting && run == Running
      modifies this`watch, this`pending
      ensures Valid() && r == (if agent then OK else ERR_NOT_AGENT) && (!agent ==> unchanged(this))
      ensures agent ==> watch == if mask == {} then {} else old(watch) - mask
      ensures agent ==> pending == old(pending) - (if Mail in watch then {} else {Mail})
                                                - (if FileMod in watch then {} else {FileMod})
    {
      hide Queued;
      if !agent {
        return ERR_NOT_AGENT;
      }
      watch := if mask == {} then {} else watch - mask;
      if Mail !in watch {
        pending := pending - {Mail};
      }
      if FileMod !in watch {
        pending := pending - {FileMod};
      }
      r := OK;
    }

    /** agent_proc_heartbeat_set, or agent_proc_heartbeat_stop, which knows no interval. */
    method SetHeartbeat(stop: bool, newInterval: int) returns (r: int)
      requires Valid() && !waiting && run == Running
      modifies this`interval, this`pending, this`loop
      ensures Valid() && r == if !agent then ERR_NOT_AGENT else if stop || newInterval > 0 then OK else -1
      ensures r != OK ==> unchanged(this)
      ensures r == OK ==>
                && interval == (if stop then 0 else newInterval) && pending == old(pending) - {Heartbeat}
                && loop == if !stop && old(loop) != Done then Ready else old(loop)
    {
      hide Queued;
      if !agent {
        return ERR_NOT_AGENT;
      }
      if !stop && newInterval <= 0 {
        return -1;
      }
      interval := if stop then 0 else newInterval;
      pending := pending - {Heartbeat};
      if !stop && loop != Done {
        loop := Ready;
      }
      r := OK;
    }

    /** A tool call or a rollback stores its own loop state. */
    method SetLoop(state: LoopState)
      requires Valid() && !waiting && run == Running && agent && state in {Ready, Busy, RolledBack}
      modifies this`loop
      ensures Valid() && loop == state
    {
      hide Queued;
      loop := state;
    }

    /** allocproc and fork's child, which is killed at once when its workflow refuses it. */
    method Birth(isAgent: bool, refused: bool)
      requires Valid() && run == Unused && !waiting
      modifies this
      ensures Valid() && run == Runnable && agent == isAgent && killed == refused && !waiting && last == old(last)
      ensures accepted == [] && received == 0 && dropped == 0 && pending == {}
      ensures loop == Idle && watch == {} && interval == 0 && waitDeadline == 0
    {
      hide Queued;
      Clear(isAgent, Idle, 0);
      run, killed := Runnable, refused;
    }

    method Exit()
      requires Valid() && !waiting && run == Running
      modifies this`run
      ensures Valid() && run == Zombie
    {
      hide Queued;
      run := Zombie;
    }

    method Free()
      requires Valid() && !waiting && run == Zombie
      modifies this
      ensures Valid() && run == Unused && !agent && !waiting && last == old(last)
      ensures accepted == [] && received == 0 && dropped == 0
      ensures !killed && loop == Idle && pending == {} && watch == {} && interval == 0 && waitDeadline == 0
    {
      hide Queued;
      Clear(false, Idle, 0);
      run, killed := Unused, false;
    }
  }

  /** A message that was accepted and taken, and that nobody has seen: the waiter's event buffer is bad. */
  method LostMessage(from: int, payload: string) returns (a: Agent, sent: int, r: int)
    ensures sent == OK && r == -1
    ensures a.Valid() && |a.accepted| == a.received == 1 && a.count == 0 && a.dropped == 0
  {
    hide CountOf, Window, Numbered, Clipped, Queued;
    a := new Agent();
    a.Birth(true, false);
    a.Dispatch();
    a.Mark(0);
    a.CountIs();
    sent := a.Send(from, Some(Normal), Some(payload), 0, true);
    a.CountIs();
    var o;
    r, o := a.BeginWait(true, 0, 0);
    a.CountIs();
    o, r := a.WaitTurn(0, true, false);
    a.CountIs();
  }

  lemma OnlyEvents(s: set<Event>)
    ensures ParentGone !in s && FileMod !in s && Mail !in s ==> s <= {Heartbeat}
  {
    forall e | e in s
      ensures e == ParentGone || e == FileMod || e == Mail || e == Heartbeat
    {
    }
  }
}
