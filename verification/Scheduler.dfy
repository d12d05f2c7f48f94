/** The scored scheduler (kernel/proc.c, kernel/agent_loop.c): what the selection loop picks, and
  * how often agents can be picked while an ordinary process is waiting to run. */
module Scheduler {
  const NPROC: nat := 64
  const REPLENISH_INTERVAL := 10
  /** The most runs one agent can get while an ordinary process waits. */
  const MOST_RUNS: nat := 544

  datatype State = Unused | Sleeping | Runnable | Running | Zombie

  datatype Event = Heartbeat | Message | FileMod | ParentGone

  datatype Proc = Proc(
    state: State, agent: bool, priority: int, schedPriority: int, pending: set<Event>, boost: nat,
    vruntime: nat, budget: int, quota: nat, replenishAt: nat, penalties: nat, waitDeadline: nat,
    runnableSince: nat, lastRun: nat)

  const BLANK := Proc(Unused, false, 5, 1, {}, 0, 0, 0, 0, 0, 0, 0, 0, 0)

  /** What one pending event counts. */
  function Weight(e: Event): int {
    match e
    case Message => 30
    case ParentGone => 25
    case FileMod => 20
    case Heartbeat => 10
  }

  /** What a set of pending events counts: as much as the weightiest of them. */
  function EventWeight(pending: set<Event>): (w: int)
    ensures 0 <= w <= 30
    ensures forall e :: e in pending ==> w >= Weight(e)
    ensures if pending == {} then w == 0 else exists e :: e in pending && w == Weight(e)
  {
    if Message in pending then 30
    else if ParentGone in pending then 25
    else if FileMod in pending then 20
    else if Heartbeat in pending then 10
    else NoEvent(pending); 0
  }

  lemma NoEvent(pending: set<Event>)
    requires Message !in pending && ParentGone !in pending && FileMod !in pending && Heartbeat !in pending
    ensures pending == {}
  {
    forall e: Event
      ensures e !in pending
    {
      assert e.Message? || e.ParentGone? || e.FileMod? || e.Heartbeat?;
    }
  }

  /** The most urgent event decides: a message before the loss of a parent, before a file, before a heartbeat. */
  lemma UrgentFirst(pending: set<Event>, other: set<Event>)
    ensures Message in pending && Message !in other ==> EventWeight(pending) > EventWeight(other)
    ensures ParentGone in pending && Message !in other && ParentGone !in other ==>
              EventWeight(pending) > EventWeight(other)
    ensures FileMod in pending && other <= {Heartbeat} ==> EventWeight(pending) > EventWeight(other)
    ensures Heartbeat in pending && other == {} ==> EventWeight(pending) > EventWeight(other)
  {
  }

  /** When the process started waiting to run, as far as the scheduler knows at now. */
  function Since(p: Proc, now: nat): nat {
    if p.runnableSince != 0 then p.runnableSince else if now != 0 then now else 1
  }

  function Aging(p: Proc, now: nat): (a: int)
    ensures 0 <= a <= 20
  {
    var a := if now > Since(p, now) then (now - Since(p, now)) / 5 else 0;
    if a > 20 then 20 else a
  }

  /** The score of a runnable process. */
  function Score(p: Proc, now: nat): int {
    if !p.agent then 50 + Aging(p, now)
    else
      (if p.schedPriority > p.priority then p.schedPriority else p.priority) * 10 + Aging(p, now)
      + EventWeight(p.pending) + p.boost * 10 - p.vruntime / 4
      - (if p.budget <= 0 then 5 else 0)
      + (if 0 < p.waitDeadline <= now + 5 then 15 else 0)
  }

  /** The ranges every operation keeps the scheduling fields in. */
  predicate InRange(p: Proc) {
    0 <= p.priority <= 10 && p.schedPriority <= 8 && p.boost <= 2
  }

  /** An agent outscores an ordinary process only while it has run less than MOST_RUNS times. */
  lemma AgentScoreBound(p: Proc, q: Proc, now: nat)
    requires InRange(p) && p.agent && !q.agent
    ensures Score(p, now) <= 185 - p.vruntime / 4
    ensures Score(q, now) >= 50
    ensures Score(p, now) >= Score(q, now) ==> p.vruntime < MOST_RUNS
  {
  }

  /** The bound cannot be lowered: with vruntime just below it some agent still draws level. */
  lemma BoundReachedIff(v: nat)
    ensures (exists p: Proc, now: nat :: InRange(p) && p.agent && p.vruntime == v && Score(p, now) >= 50) <==>
              v < MOST_RUNS
  {
    if v < MOST_RUNS {
      var p := BLANK.(state := Runnable, agent := true, priority := 10, pending := {Message}, boost := 2, vruntime := v,
                      budget := 1,
        quota := 1, waitDeadline := 1, runnableSince := 1);
      assert Score(p, 200) == 185 - v / 4;
    }
    forall p: Proc, now: nat | InRange(p) && p.agent && p.vruntime == v && Score(p, now) >= 50
      ensures v < MOST_RUNS
    {
      AgentScoreBound(p, BLANK, now);
    }
  }

  /** A process as the selection loop leaves it after scoring it. */
  function Scored(p: Proc, now: nat): (r: Proc)
    ensures Score(r, now) == Score(p, now)
  {
    if p.state != Runnable then p
    else p.(runnableSince := Since(p, now),
            penalties := if p.agent && p.budget <= 0 then p.penalties + 1 else p.penalties)
  }

  function Sum(s: seq<nat>): nat {
    if s == [] then 0 else Sum(s[..|s| - 1]) + s[|s| - 1]
  }

  lemma {:induction false} SumIncrement(s: seq<nat>, i: nat)
    requires i < |s|
    ensures Sum(s[i := s[i] + 1]) == Sum(s) + 1
  {
    var n := |s| - 1;
    if i == n {
      assert s[i := s[i] + 1][..n] == s[..n];
    } else {
      SumIncrement(s[..n], i);
      assert s[i := s[i] + 1][..n] == s[..n][i := s[i] + 1];
    }
  }

  lemma {:induction false} SumBound(s: seq<nat>, most: nat)
    requires forall i :: 0 <= i < |s| ==> s[i] <= most
    ensures Sum(s) <= most * |s|
  {
    if s != [] {
      SumBound(s[..|s| - 1], most);
      assert most * |s| == most * (|s| - 1) + most;
    }
  }

  lemma {:induction false} SumZero(s: seq<nat>)
    requires forall i :: 0 <= i < |s| ==> s[i] == 0
    ensures Sum(s) == 0
  {
    if s != [] {
      SumZero(s[..|s| - 1]);
    }
  }

  // ---------------------------------------------------------------- the scheduler

  /** best is the first runnable process of highest score, NPROC when none is runnable. */
  predicate FirstBest(procs: seq<Proc>, now: nat, best: nat, upTo: nat)
    requires |procs| == NPROC && upTo <= NPROC
  {
    if best == NPROC then forall j :: 0 <= j < upTo ==> procs[j].state != Runnable
    else
      && best < upTo && procs[best].state == Runnable
      && (forall j :: 0 <= j < upTo && procs[j].state == Runnable ==> Score(procs[j], now) <= Score(procs[best], now))
      && (forall j :: 0 <= j < best && procs[j].state == Runnable ==> Score(procs[j], now) < Score(procs[best], now))
  }

  predicate OrdinaryWaiting(procs: seq<Proc>) {
    exists j :: 0 <= j < |procs| && procs[j].state == Runnable && !procs[j].agent
  }

  /** While the run has been contended, an agent has been picked at most once per unit of
    * vruntime and never at MOST_RUNS or above. */
  predicate Bounded(p: Proc, runs: nat) {
    if p.agent then
      var total := p.vruntime + if p.state == Running then 1 else 0;
      runs <= total && (runs > 0 ==> total <= MOST_RUNS)
    else runs <= MOST_RUNS
  }

  class CpuScheduler {
    var procs: seq<Proc>
    /** How often an agent in each slot was picked, how often an ordinary process was, and whether
      * an ordinary process was waiting at every pick. */
    ghost var runs: seq<nat>
    ghost var ordinaryRuns: nat
    ghost var picks: nat
    ghost var contended: bool

    ghost predicate Valid()
      reads this
    {
      && |procs| == |runs| == NPROC
      && (forall i :: 0 <= i < NPROC ==> InRange(procs[i]))
      && picks == Sum(runs) + ordinaryRuns
      && (contended ==> forall i :: 0 <= i < NPROC ==> Bounded(procs[i], runs[i]))
    }

    /** Start of a run from any state of the process table. */
    constructor (table: seq<Proc>)
      requires |table| == NPROC && forall i :: 0 <= i < NPROC ==> InRange(table[i])
      ensures Valid() && procs == table && contended && picks == 0 && ordinaryRuns == 0
    {
      procs, runs, ordinaryRuns, picks, contended := table, seq(NPROC, i => 0), 0, 0, true;
      new;
      SumZero(runs);
    }

    /** agent_event_weight. */
    method WeightOf(pending: set<Event>) returns (w: int)
      ensures w == EventWeight(pending)
    {
      if Message in pending {
        return 30;
      }
      if ParentGone in pending {
        return 25;
      }
      if FileMod in pending {
        return 20;
      }
      if Heartbeat in pending {
        return 10;
      }
      w := 0;
    }

    /** agent_schedule_score for a runnable process. */
    method ScoreOf(i: nat, now: nat) returns (score: int)
      requires i < |procs| && procs[i].state == Runnable
      modifies this`procs
      ensures score == Score(old(procs)[i], now)
      ensures procs == old(procs)[i := Scored(old(procs)[i], now)]
    {
      var p := procs[i];
      if p.runnableSince == 0 {
        p := p.(runnableSince := if now != 0 then now else 1);
      }
      var aging := 0;
      if now > p.runnableSince {
        aging := (now - p.runnableSince) / 5;
      }
      if aging > 20 {
        aging := 20;
      }
      var priority := 5;
      if p.agent {
        priority := p.priority;
        if p.schedPriority > priority {
          priority := p.schedPriority;
        }
      }
      score := priority * 10 + aging;
      if p.agent {
        var weight := WeightOf(p.pending);
        score := score + weight;
        score := score + p.boost * 10;
        if p.vruntime > 0 {
          score := score - p.vruntime / 4;
        }
        if p.budget <= 0 {
          score := score - 5;
          p := p.(penalties := p.penalties + 1);
        }
        if p.waitDeadline > 0 && p.waitDeadline <= now + 5 {
          score := score + 15;
        }
      }
      procs := procs[i := p];
    }

    /** The selection loop, and the switch to the process it picks. */
    method Pick(now: nat) returns (best: nat)
      requires Valid()
      modifies this
      ensures Valid() && best <= NPROC && FirstBest(old(procs), now, best, NPROC)
      ensures forall j :: 0 <= j < NPROC ==>
        procs[j] == if j == best then Scored(old(procs)[j], now).(state := Running, runnableSince := 0)
                    else Scored(old(procs)[j], now)
      ensures contended == (old(contended) && (best < NPROC ==> OrdinaryWaiting(old(procs))))
      ensures picks == old(picks) + if best < NPROC then 1 else 0
      ensures ordinaryRuns == old(ordinaryRuns) + if best < NPROC && !old(procs)[best].agent then 1 else 0
    {
      hide Score, Scored, FirstBest;
      best := NPROC;
      var bestScore := -1;
      var i := 0;
      NoneYet(procs, now);
      while i < NPROC
        invariant i <= NPROC && |procs| == NPROC && best <= NPROC && FirstBest(old(procs), now, best, i)
        invariant best < NPROC ==> bestScore == Score(old(procs)[best], now)
        invariant forall j :: 0 <= j < i ==> procs[j] == Scored(old(procs)[j], now)
        invariant forall j :: i <= j < NPROC ==> procs[j] == old(procs)[j]
        invariant runs == old(runs) && picks == old(picks) && ordinaryRuns == old(ordinaryRuns)
        invariant contended == old(contended)
      {
        OneMore(old(procs), now, best, i);
        if procs[i].state == Runnable {
          var score := ScoreOf(i, now);
          if best == NPROC || score > bestScore {
            bestScore := score;
            best := i;
          }
        } else {
          NotScored(procs[i], now);
        }
        i := i + 1;
      }
      Switch(best, now, old(procs));
    }

    /** The second half of a turn of scheduler's loop, up to the switch. */
    method Switch(best: nat, now: nat, ghost was: seq<Proc>)
      requires best <= NPROC && |was| == |procs| == |runs| == NPROC && FirstBest(was, now, best, NPROC)
      requires forall i :: 0 <= i < NPROC ==> InRange(was[i]) && procs[i] == Scored(was[i], now)
      requires picks == Sum(runs) + ordinaryRuns
      requires contended ==> forall i :: 0 <= i < NPROC ==> Bounded(was[i], runs[i])
      modifies this
      ensures Valid()
      ensures procs == if best < NPROC
                       then old(procs)[best := Scored(was[best], now).(state := Running, runnableSince := 0)]
                       else old(procs)
      ensures contended == (old(contended) && (best < NPROC ==> OrdinaryWaiting(was)))
      ensures picks == old(picks) + if best < NPROC then 1 else 0
      ensures ordinaryRuns == old(ordinaryRuns) + if best < NPROC && !was[best].agent then 1 else 0
    {
      hide Score, FirstBest, Bounded, OrdinaryWaiting;
      if best < NPROC {
        PickBounded(was, runs, now, best, procs, contended && OrdinaryWaiting(was));
        SumIncrement(runs, best);
        if procs[best].agent {
          runs := runs[best := runs[best] + 1];
        } else {
          ordinaryRuns := ordinaryRuns + 1;
        }
        picks := picks + 1;
        contended := contended && OrdinaryWaiting(was);
        procs := procs[best := procs[best].(state := Running, runnableSince := 0)];
      } else {
        NonePicked(was, runs, now, procs, contended);
      }
    }

    /** The picked process comes back in state back, and its run is accounted for. */
    method Return(i: nat, now: nat, back: State)
      requires Valid() && i < NPROC && procs[i].state == Running && back in {Sleeping, Runnable, Zombie}
      modifies this`procs
      ensures Valid()
      ensures var p := old(procs)[i];
              procs == old(procs)[i := if !p.agent then p.(state := back) else
                p.(state := back, vruntime := p.vruntime + 1, lastRun := now,
                   budget := if p.quota > 0 && p.budget > 0 then p.budget - 1 else p.budget,
                   replenishAt := if p.replenishAt == 0 && p.quota > 0 then now + REPLENISH_INTERVAL else p.replenishAt,
                   boost := if p.boost > 0 then p.boost - 1 else 0)]
    {
      var p := procs[i].(state := back);
      if p.agent {
        if p.quota > 0 && p.budget > 0 {
          p := p.(budget := p.budget - 1);
        }
        p := p.(vruntime := p.vruntime + 1);
        p := p.(lastRun := now);
        if p.replenishAt == 0 && p.quota > 0 {
          p := p.(replenishAt := now + REPLENISH_INTERVAL);
        }
        if p.boost > 0 {
          p := p.(boost := p.boost - 1);
        }
      }
      procs := procs[i := p];
    }

    /** Anything else that happens to a process without creating or resetting an agent: it is
      * signalled, wakes up, changes its priority, quota, budget or deadline. */
    method Touch(i: nat, p: Proc)
      requires Valid() && i < NPROC && InRange(p)
      requires p.agent == procs[i].agent && p.vruntime == procs[i].vruntime
      requires p.state == procs[i].state || (procs[i].state == Sleeping && p.state == Runnable)
      modifies this`procs
      ensures Valid() && procs == old(procs)[i := p]
    {
      procs := procs[i := p];
    }

    /** An ordinary process is created in a free slot, or a dead process is freed. */
    method Renew(i: nat, p: Proc)
      requires Valid() && i < NPROC && (p == BLANK || p == BLANK.(state := Runnable))
      requires procs[i].state == (if p == BLANK then Zombie else Unused)
      modifies this`procs
      ensures Valid() && procs == old(procs)[i := p]
    {
      procs := procs[i := p];
    }

    /** As long as an ordinary process is waiting at every pick, no agent is picked more than 544
      * times, so ordinary processes get all but a fixed number of the picks. */
    lemma Bypass()
      requires Valid() && contended
      ensures forall i :: 0 <= i < NPROC ==> runs[i] <= MOST_RUNS
      ensures ordinaryRuns >= picks - MOST_RUNS * NPROC
    {
      SumBound(runs, MOST_RUNS);
    }
  }

  lemma NoneYet(procs: seq<Proc>, now: nat)
    requires |procs| == NPROC
    ensures FirstBest(procs, now, NPROC, 0)
  {
  }

  /** What the loop's choice at slot i makes of the best so far. */
  lemma OneMore(procs: seq<Proc>, now: nat, best: nat, i: nat)
    requires |procs| == NPROC && i < NPROC && best <= NPROC && FirstBest(procs, now, best, i)
    ensures FirstBest(procs, now,
      if procs[i].state == Runnable && (best == NPROC || Score(procs[i], now) > Score(procs[best], now)) then i
      else best, i + 1)
  {
    hide Score;
  }

  lemma NotScored(p: Proc, now: nat)
    requires p.state != Runnable
    ensures Scored(p, now) == p
  {
  }

  lemma PickBounded(was: seq<Proc>, runs: seq<nat>, now: nat, best: nat, procs: seq<Proc>, contended: bool)
    requires |was| == |runs| == |procs| == NPROC && best < NPROC && FirstBest(was, now, best, NPROC)
    requires forall i :: 0 <= i < NPROC ==> InRange(was[i]) && procs[i] == Scored(was[i], now)
    requires contended ==> OrdinaryWaiting(was) && forall i :: 0 <= i < NPROC ==> Bounded(was[i], runs[i])
    ensures var procs' := procs[best := procs[best].(state := Running, runnableSince := 0)];
            var runs' := if procs[best].agent then runs[best := runs[best] + 1] else runs;
            && (forall i :: 0 <= i < NPROC ==> InRange(procs'[i]))
            && (contended ==> forall i :: 0 <= i < NPROC ==> Bounded(procs'[i], runs'[i]))
  {
    if contended && was[best].agent {
      var j :| 0 <= j < NPROC && was[j].state == Runnable && !was[j].agent;
      AgentScoreBound(was[best], was[j], now);
    }
    hide Score;
  }

  lemma NonePicked(was: seq<Proc>, runs: seq<nat>, now: nat, procs: seq<Proc>, contended: bool)
    requires |was| == |runs| == |procs| == NPROC
    requires forall i :: 0 <= i < NPROC ==> InRange(was[i]) && procs[i] == Scored(was[i], now)
    requires contended ==> forall i :: 0 <= i < NPROC ==> Bounded(was[i], runs[i])
    ensures forall i :: 0 <= i < NPROC ==> InRange(procs[i])
    ensures contended ==> forall i :: 0 <= i < NPROC ==> Bounded(procs[i], runs[i])
  {
    hide Score;
  }
}
