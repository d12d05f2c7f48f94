/** The heartbeat timer wheel (kernel/agent_loop.c): 64 buckets of processes chained through
  * their own next fields, proved equal to a scan of every process at every tick. */
module TimerWheel {
  import opened Blocks

  const NPROC := 64
  const BUCKETS := 64

  const OK := 0
  const ERR_NOT_AGENT := -3

  /** Unused, running its own code, or past agent_proc_exit but not yet freed. */
  datatype Phase = Unused | Live | Exited

  /** The fields of a process slot the wheel reads or writes. Process proc[i - 1] has wheel
    * index i; index 0 is the null link. pending holds only the HEARTBEAT bit, and asleep
    * means sleeping on the process's own channel. */
  datatype Proc = Proc(
    phase: Phase, agent: bool, done: bool, interval: int, deadline: nat,
    pending: bool, wakeupTick: nat, boost: nat, asleep: bool,
    active: bool, bucket: int, next: int)
  {
    /** The guard of an insertion and of the second half of a tick. */
    predicate Eligible() {
      phase != Unused && agent && !done && interval > 0 && deadline > 0
    }

    /** The process off the wheel. */
    function Off(): Proc {
      this.(active := false, bucket := -1, next := 0)
    }

    /** agent_signal_event_locked for a heartbeat, and the next deadline. */
    function Beaten(now: nat): Proc
      requires interval > 0
    {
      this.(pending := true, wakeupTick := now, boost := if boost < 2 then 2 else boost, asleep := false,
            deadline := now + interval)
    }
  }

  /** Two processes that differ in their place on the wheel alone. */
  lemma OffIsAllElse(p: Proc, q: Proc)
    ensures !p.Off().active && p.Off().bucket == -1 && p.Off().next == 0
    ensures p.Off() == q.Off() <==>
              && p.phase == q.phase && p.agent == q.agent && p.done == q.done
              && p.interval == q.interval && p.deadline == q.deadline
              && p.pending == q.pending && p.wakeupTick == q.wakeupTick && p.boost == q.boost && p.asleep == q.asleep
  {
  }

  const FRESH := Proc(Unused, false, false, 0, 0, false, 0, 0, false, false, -1, 0)

  // ---------------------------------------------------------------- chains

  function At(c: seq<int>, k: nat): int {
    if k < |c| then c[k] else 0
  }

  predicate Index(i: int) {
    1 <= i <= NPROC
  }

  /** c is the acyclic chain that starts at head. */
  predicate Chain(procs: seq<Proc>, head: int, c: seq<int>)
    requires |procs| == NPROC + 1
  {
    && head == At(c, 0)
    && (forall k :: 0 <= k < |c| ==> Index(c[k]) && procs[c[k]].next == At(c, k + 1))
    && Distinct(c)
  }

  predicate Chains(procs: seq<Proc>, heads: seq<int>, chains: seq<seq<int>>)
    requires |procs| == NPROC + 1
  {
    && |heads| == |chains| == BUCKETS
    && (forall b :: 0 <= b < BUCKETS ==> Chain(procs, heads[b], chains[b]))
  }

  /** A process is active exactly when it lies on a chain, and then its bucket names the chain;
    * off the wheel its link is null unless it is in rest, a list detached by a tick. */
  ghost predicate Placed(procs: seq<Proc>, chains: seq<seq<int>>, rest: seq<int>)
    requires |procs| == NPROC + 1
  {
    && |chains| == BUCKETS
    && (forall b, i :: 0 <= b < BUCKETS && i in chains[b] ==> Index(i) && procs[i].active && procs[i].bucket == b)
    && (forall i :: Index(i) && procs[i].active ==> 0 <= procs[i].bucket < BUCKETS && i in chains[procs[i].bucket])
    && (forall i :: Index(i) && !procs[i].active ==> procs[i].bucket == -1 && (procs[i].next == 0 || i in rest))
  }

  /** What holds of a process on the wheel after tick last. */
  ghost predicate Timely(procs: seq<Proc>, last: nat)
    requires |procs| == NPROC + 1
  {
    forall i :: Index(i) ==> TimelyOne(procs[i], last)
  }

  predicate TimelyOne(p: Proc, last: nat) {
    p.active ==>
      && p.phase == Live && p.agent
      && (p.interval > 0 ==> p.deadline > last && p.bucket == p.deadline % BUCKETS)
  }

  /** Every process that should get heartbeats is on the wheel. */
  ghost predicate Covered(procs: seq<Proc>)
    requires |procs| == NPROC + 1
  {
    forall i :: Index(i) && procs[i].phase == Live && procs[i].Eligible() ==> procs[i].active
  }

  /** … process i aside. */
  ghost predicate CoveredBut(procs: seq<Proc>, i: int)
    requires |procs| == NPROC + 1
  {
    forall j :: Index(j) && j != i && procs[j].phase == Live && procs[j].Eligible() ==> procs[j].active
  }

  function Total(chains: seq<seq<int>>): (n: nat)
    ensures chains == [] ==> n == 0
  {
    if chains == [] then 0 else Total(chains[..|chains| - 1]) + |chains[|chains| - 1]|
  }

  lemma {:induction false} TotalUpdate(chains: seq<seq<int>>, b: nat, c: seq<int>)
    requires b < |chains|
    ensures Total(chains[b := c]) == Total(chains) - |chains[b]| + |c|
  {
    var n := |chains| - 1;
    if b == n {
      assert chains[b := c][..n] == chains[..n];
    } else {
      TotalUpdate(chains[..n], b, c);
      assert chains[b := c][..n] == chains[..n][b := c];
    }
  }

  lemma {:induction false} TotalCovers(chains: seq<seq<int>>, b: nat)
    requires b < |chains|
    ensures Total(chains) >= |chains[b]|
  {
    if b < |chains| - 1 {
      TotalCovers(chains[..|chains| - 1], b);
    }
  }

  lemma {:induction false} TotalEmpty(chains: seq<seq<int>>)
    requires forall b :: 0 <= b < |chains| ==> chains[b] == []
    ensures Total(chains) == 0
  {
    if chains != [] {
      TotalEmpty(chains[..|chains| - 1]);
    }
  }

  /** b agrees with a apart from links, and apart from process i. */
  ghost predicate OthersKept(a: seq<Proc>, b: seq<Proc>, i: int)
    requires |a| == |b| == NPROC + 1
  {
    forall j :: Index(j) && j != i ==> b[j] == a[j].(next := b[j].next) && (!a[j].active ==> b[j] == a[j])
  }

  lemma ChainKept(procs: seq<Proc>, procs': seq<Proc>, head: int, c: seq<int>)
    requires |procs| == |procs'| == NPROC + 1 && Chain(procs, head, c)
    requires forall k :: 0 <= k < |c| ==> procs'[c[k]].next == procs[c[k]].next
    ensures Chain(procs', head, c)
  {
  }

  function Without(c: seq<int>, k: nat): (r: seq<int>)
    requires k < |c|
  {
    c[..k] + c[k + 1..]
  }

  lemma WithoutMembers(c: seq<int>, k: nat)
    requires k < |c| && Distinct(c)
    ensures Distinct(Without(c, k))
    ensures forall x :: x in Without(c, k) <==> x in c && x != c[k]
  {
    var r := Without(c, k);
    forall x | x in c && x != c[k]
      ensures x in r
    {
      var m :| 0 <= m < |c| && c[m] == x;
      assert r[if m < k then m else m - 1] == x;
    }
  }

  /** Bypassing the k-th node, through its predecessor or the head. */
  lemma UnlinkChain(procs: seq<Proc>, procs': seq<Proc>, head: int, head': int, c: seq<int>, k: nat)
    requires |procs| == |procs'| == NPROC + 1 && Chain(procs, head, c) && k < |c|
    requires head' == if k == 0 then procs[c[k]].next else head
    requires k > 0 ==> procs'[c[k - 1]].next == procs[c[k]].next
    requires forall m :: 0 <= m < |c| && m != k && m != k - 1 ==> procs'[c[m]].next == procs[c[m]].next
    ensures Chain(procs', head', Without(c, k))
  {
    hide Without, At, Distinct;
    var r := Without(c, k);
    WithoutMembers(c, k);
    WithoutAt(c, k, 0);
    forall m | 0 <= m < |r|
      ensures Index(r[m]) && procs'[r[m]].next == At(r, m + 1)
    {
      WithoutAt(c, k, m);
      WithoutAt(c, k, m + 1);
    }
    FirstAt(c);
  }

  lemma WithoutAt(c: seq<int>, k: nat, m: nat)
    requires k < |c|
    ensures var r := Without(c, k);
            && |r| == |c| - 1
            && At(r, m) == At(c, if m < k then m else m + 1)
            && (m < |r| ==> r[m] == c[if m < k then m else m + 1])
  {
  }

  lemma FirstAt(c: seq<int>)
    ensures c != [] ==> At(c, 0) == c[0]
  {
  }

  lemma PushChain(procs: seq<Proc>, procs': seq<Proc>, head: int, c: seq<int>, i: int)
    requires |procs| == |procs'| == NPROC + 1 && Chain(procs, head, c) && Index(i) && i !in c
    requires procs'[i].next == head
    requires forall m :: 0 <= m < |c| ==> procs'[c[m]].next == procs[c[m]].next
    ensures Chain(procs', i, [i] + c)
  {
    var r := [i] + c;
    forall m | 0 <= m < |r|
      ensures Index(r[m]) && procs'[r[m]].next == At(r, m + 1)
    {
      if m > 0 {
        assert r[m] == c[m - 1];
      }
    }
  }

  /** A process off the wheel, or on another chain, is not on chain b. */
  lemma OffChain(procs: seq<Proc>, chains: seq<seq<int>>, rest: seq<int>, b: nat, i: int)
    requires |procs| == NPROC + 1 && Placed(procs, chains, rest)
    requires b < BUCKETS && Index(i) && (procs[i].active ==> procs[i].bucket != b)
    ensures i !in chains[b]
  {
  }

  /** Process i taken off its chain: previous, 0 for none, now skips it. */
  function Bypass(procs: seq<Proc>, previous: int, i: int): (r: seq<Proc>)
    requires |procs| == NPROC + 1 && Index(i) && (previous == 0 || Index(previous))
    ensures |r| == NPROC + 1
  {
    (if previous == 0 then procs else procs[previous := procs[previous].(next := procs[i].next)])[i := procs[i].Off()]
  }

  /** Bypassing one node keeps every chain and every place but its own. */
  lemma BypassChains(procs: seq<Proc>, heads: seq<int>, chains: seq<seq<int>>, rest: seq<int>, b: nat, k: nat)
    requires |procs| == NPROC + 1 && Chains(procs, heads, chains) && Placed(procs, chains, rest)
    requires b < BUCKETS && k < |chains[b]|
    ensures var c := chains[b];
            var previous := if k == 0 then 0 else c[k - 1];
            Index(c[k]) && (previous == 0 <==> k == 0) && (previous == 0 || Index(previous)) &&
            var procs' := Bypass(procs, previous, c[k]);
            && Chains(procs', if k == 0 then heads[b := procs[c[k]].next] else heads, chains[b := Without(c, k)])
            && Placed(procs', chains[b := Without(c, k)], rest)
            && procs'[c[k]] == procs[c[k]].Off() && OthersKept(procs, procs', c[k])
  {
    var c := chains[b];
    OnChain(procs, chains, rest, b);
    var previous := if k == 0 then 0 else c[k - 1];
    var procs' := Bypass(procs, previous, c[k]);
    var heads' := if k == 0 then heads[b := procs[c[k]].next] else heads;
    var chains' := chains[b := Without(c, k)];
    BypassFacts(procs, c, heads[b], k);
    hide Chain, Placed, OthersKept, Bypass;
    UnlinkChain(procs, procs', heads[b], heads'[b], c, k);
    forall d | 0 <= d < BUCKETS
      ensures Chain(procs', heads'[d], chains'[d])
    {
      if d != b {
        Apart(procs, chains, rest, b, d);
        ChainKept(procs, procs', heads[d], chains[d]);
      }
    }
    ChainDistinct(procs, heads[b], c);
    BypassPlaced(procs, procs', chains, rest, b, k);
  }

  lemma ChainDistinct(procs: seq<Proc>, head: int, c: seq<int>)
    requires |procs| == NPROC + 1 && Chain(procs, head, c)
    ensures Distinct(c) && forall k :: 0 <= k < |c| ==> Index(c[k])
  {
  }

  lemma OnChain(procs: seq<Proc>, chains: seq<seq<int>>, rest: seq<int>, b: nat)
    requires |procs| == NPROC + 1 && Placed(procs, chains, rest) && b < BUCKETS
    ensures forall m :: 0 <= m < |chains[b]| ==>
              Index(chains[b][m]) && procs[chains[b][m]].active && procs[chains[b][m]].bucket == b
  {
    forall m | 0 <= m < |chains[b]|
      ensures Index(chains[b][m]) && procs[chains[b][m]].active && procs[chains[b][m]].bucket == b
    {
      assert chains[b][m] in chains[b];
    }
  }

  /** Different buckets share no process. */
  lemma Apart(procs: seq<Proc>, chains: seq<seq<int>>, rest: seq<int>, b: nat, d: nat)
    requires |procs| == NPROC + 1 && Placed(procs, chains, rest)
    requires b < BUCKETS && d < BUCKETS && b != d
    ensures forall m :: 0 <= m < |chains[d]| ==> chains[d][m] !in chains[b] && Index(chains[d][m])
  {
    OnChain(procs, chains, rest, d);
    forall m | 0 <= m < |chains[d]|
      ensures chains[d][m] !in chains[b] && Index(chains[d][m])
    {
      var i := chains[d][m];
      assert procs[i].bucket != b;
    }
  }

  lemma BypassFacts(procs: seq<Proc>, c: seq<int>, head: int, k: nat)
    requires |procs| == NPROC + 1 && Chain(procs, head, c) && k < |c|
    requires forall m :: 0 <= m < |c| ==> procs[c[m]].active
    ensures var previous := if k == 0 then 0 else c[k - 1];
            Index(c[k]) && (previous == 0 <==> k == 0) && (previous == 0 || Index(previous)) &&
            var procs' := Bypass(procs, previous, c[k]);
            && procs'[c[k]] == procs[c[k]].Off() && OthersKept(procs, procs', c[k])
            && (k > 0 ==> procs'[c[k - 1]].next == procs[c[k]].next)
            && (forall m :: 0 <= m < |c| && m != k && m != k - 1 ==> procs'[c[m]].next == procs[c[m]].next)
            && (forall j :: Index(j) && j !in c ==> procs'[j] == procs[j])
  {
    var previous := if k == 0 then 0 else c[k - 1];
    assert k > 0 ==> c[k - 1] != c[k];
    BypassLinks(procs, previous, c[k]);
    hide Bypass, OthersKept;
    var procs' := Bypass(procs, previous, c[k]);
    forall m | 0 <= m < |c| && m != k && m != k - 1
      ensures procs'[c[m]].next == procs[c[m]].next
    {
      assert c[m] != c[k] && c[m] != previous;
    }
  }

  lemma BypassLinks(procs: seq<Proc>, previous: int, i: int)
    requires |procs| == NPROC + 1 && Index(i) && previous != i
    requires previous == 0 || (Index(previous) && procs[previous].active)
    ensures var procs' := Bypass(procs, previous, i);
            && procs'[i] == procs[i].Off() && OthersKept(procs, procs', i)
            && (previous != 0 ==> procs'[previous].next == procs[i].next)
            && (forall j :: Index(j) && j != i && j != previous ==> procs'[j] == procs[j])
  {
  }

  lemma BypassPlaced(procs: seq<Proc>, procs': seq<Proc>, chains: seq<seq<int>>, rest: seq<int>, b: nat, k: nat)
    requires |procs| == |procs'| == NPROC + 1 && Placed(procs, chains, rest)
    requires b < BUCKETS && k < |chains[b]| && Distinct(chains[b]) && Index(chains[b][k])
    requires procs'[chains[b][k]] == procs[chains[b][k]].Off() && OthersKept(procs, procs', chains[b][k])
    ensures Placed(procs', chains[b := Without(chains[b], k)], rest)
  {
    hide Without;
    WithoutMembers(chains[b], k);
  }

  lemma PushChains(procs: seq<Proc>, procs': seq<Proc>, heads: seq<int>, chains: seq<seq<int>>, rest: seq<int>, b: nat,
                   i: int)
    requires |procs| == NPROC + 1 && Chains(procs, heads, chains) && Placed(procs, chains, rest)
    requires b < BUCKETS && Index(i) && !procs[i].active
    requires procs' == procs[i := procs[i].(active := true, bucket := b, next := heads[b])]
    ensures Chains(procs', heads[b := i], chains[b := [i] + chains[b]])
    ensures Placed(procs', chains[b := [i] + chains[b]], rest)
  {
    var chains' := chains[b := [i] + chains[b]];
    forall d | 0 <= d < BUCKETS
      ensures Chain(procs', heads[b := i][d], chains'[d])
    {
      hide Chain;
      OffChain(procs, chains, rest, d, i);
      if d == b {
        PushChain(procs, procs', heads[b], chains[b], i);
      } else {
        ChainKept(procs, procs', heads[d], chains[d]);
      }
    }
    PushPlaced(procs, procs', chains, rest, b, i);
  }

  lemma PushPlaced(procs: seq<Proc>, procs': seq<Proc>, chains: seq<seq<int>>, rest: seq<int>, b: nat, i: int)
    requires |procs| == |procs'| == NPROC + 1 && Placed(procs, chains, rest)
    requires b < BUCKETS && Index(i) && !procs[i].active
    requires procs'[i].active && procs'[i].bucket == b
    requires forall j :: Index(j) && j != i ==> procs'[j] == procs[j]
    ensures Placed(procs', chains[b := [i] + chains[b]], rest)
  {
    var chains' := chains[b := [i] + chains[b]];
    forall d, j | 0 <= d < BUCKETS && j in chains'[d]
      ensures Index(j) && procs'[j].active && procs'[j].bucket == d
    {
      OffChain(procs, chains, rest, d, i);
    }
  }

  // ---------------------------------------------------------------- a tick

  /** A process whose bucket has been detached. */
  function Marked(p: Proc): Proc {
    p.(active := false, bucket := -1)
  }

  ghost predicate MarkedUpTo(a: seq<Proc>, b: seq<Proc>, c: seq<int>, k: nat)
    requires |a| == |b| == NPROC + 1 && k <= |c|
  {
    forall j :: Index(j) ==> b[j] == if j in c[..k] then Marked(a[j]) else a[j]
  }

  lemma MarkedStep(a: seq<Proc>, b: seq<Proc>, head: int, c: seq<int>, k: nat)
    requires |a| == |b| == NPROC + 1 && k < |c| && Chain(a, head, c) && MarkedUpTo(a, b, c, k)
    ensures Index(c[k]) && b[c[k]] == a[c[k]] && a[c[k]].next == At(c, k + 1) && At(c, k) == c[k]
    ensures MarkedUpTo(a, b[c[k] := Marked(b[c[k]])], c, k + 1)
  {
    hide Marked, MarkedUpTo;
    PrefixGrows(c, k);
    MarkedMore(a, b, c, k);
  }

  lemma PrefixGrows(c: seq<int>, k: nat)
    requires k < |c| && Distinct(c)
    ensures c[k] !in c[..k] && c[..k + 1] == c[..k] + [c[k]]
  {
  }

  lemma MarkedMore(a: seq<Proc>, b: seq<Proc>, c: seq<int>, k: nat)
    requires |a| == |b| == NPROC + 1 && k < |c| && MarkedUpTo(a, b, c, k)
    requires Index(c[k]) && c[k] !in c[..k] && c[..k + 1] == c[..k] + [c[k]]
    ensures b[c[k]] == a[c[k]] && MarkedUpTo(a, b[c[k] := Marked(b[c[k]])], c, k + 1)
  {
    hide Marked;
  }

  lemma MarkedNone(a: seq<Proc>, c: seq<int>)
    requires |a| == NPROC + 1
    ensures MarkedUpTo(a, a, c, 0)
  {
  }

  lemma AtHead(procs: seq<Proc>, head: int, c: seq<int>)
    requires |procs| == NPROC + 1 && Chain(procs, head, c)
    ensures head == At(c, 0)
  {
  }

  /** The walk has reached the null link exactly when the chain is used up. */
  lemma AtEnd(procs: seq<Proc>, head: int, c: seq<int>, k: nat)
    requires |procs| == NPROC + 1 && Chain(procs, head, c) && k <= |c|
    ensures At(c, k) == 0 <==> k == |c|
  {
    if k < |c| {
      assert Index(c[k]);
    }
  }

  lemma MarkedAtEnd(mid: seq<Proc>, head: int, c: seq<int>, k: nat)
    requires |mid| == NPROC + 1 && AllMarked(mid, head, c) && k <= |c|
    ensures At(c, k) == 0 <==> k == |c|
  {
    AtEnd(mid, head, c, k);
  }

  lemma DetachedPlaces(procs: seq<Proc>, procs': seq<Proc>, heads: seq<int>, chains: seq<seq<int>>, b: nat)
    requires |procs| == |procs'| == NPROC + 1 && Chains(procs, heads, chains) && Placed(procs, chains, [])
    requires b < BUCKETS && MarkedUpTo(procs, procs', chains[b], |chains[b]|)
    ensures Chain(procs', heads[b], chains[b])
    ensures Chains(procs', heads[b := 0], chains[b := []]) && Placed(procs', chains[b := []], chains[b])
    ensures forall j :: Index(j) ==> procs'[j] == if j in chains[b] then Marked(procs[j]) else procs[j]
  {
    var c := chains[b];
    assert c[..|c|] == c;
    DetachedPlaced(procs, procs', chains, b);
    ChainDistinct(procs, heads[b], c);
    EmptyChain(procs');
    hide Chain, Placed;
    assert forall k :: 0 <= k < |c| ==> procs'[c[k]].next == procs[c[k]].next;
    ChainKept(procs, procs', heads[b], c);
    var heads', chains' := heads[b := 0], chains[b := []];
    forall d | 0 <= d < BUCKETS
      ensures Chain(procs', heads'[d], chains'[d])
    {
      if d != b {
        Apart(procs, chains, [], b, d);
        ChainKept(procs, procs', heads[d], chains[d]);
      }
    }
  }

  lemma EmptyChain(procs: seq<Proc>)
    requires |procs| == NPROC + 1
    ensures Chain(procs, 0, [])
  {
  }

  lemma DetachedPlaced(procs: seq<Proc>, procs': seq<Proc>, chains: seq<seq<int>>, b: nat)
    requires |procs| == |procs'| == NPROC + 1 && Placed(procs, chains, []) && b < BUCKETS
    requires forall j :: Index(j) ==> procs'[j] == if j in chains[b] then Marked(procs[j]) else procs[j]
    ensures Placed(procs', chains[b := []], chains[b])
  {
    var chains' := chains[b := []];
    forall d, j | 0 <= d < BUCKETS && j in chains'[d]
      ensures Index(j) && procs'[j].active && procs'[j].bucket == d
    {
      assert j in chains[d] && Index(j) && procs[j].bucket == d;
    }
  }

  /** What the second loop makes of a marked process, links aside. */
  function Turned(p: Proc, now: nat): Proc {
    var q := if p.Eligible() && now >= p.deadline then p.Beaten(now) else p;
    if q.Eligible() then q.(active := true, bucket := q.deadline % BUCKETS) else q.Off()
  }

  ghost predicate TurnedUpTo(mid: seq<Proc>, procs: seq<Proc>, c: seq<int>, k: nat, now: nat)
    requires |mid| == |procs| == NPROC + 1 && k <= |c|
  {
    forall j :: Index(j) ==>
      if j in c[..k] then procs[j] == Turned(mid[j], now).(next := procs[j].next)
      else if j in c then procs[j] == mid[j]
      else procs[j] == mid[j].(next := procs[j].next)
  }

  lemma TurnedNone(mid: seq<Proc>, c: seq<int>, now: nat)
    requires |mid| == NPROC + 1
    ensures TurnedUpTo(mid, mid, c, 0, now)
  {
  }

  ghost predicate AllMarked(mid: seq<Proc>, head: int, c: seq<int>)
    requires |mid| == NPROC + 1
  {
    Chain(mid, head, c) && forall k :: 0 <= k < |c| ==> !mid[c[k]].active && mid[c[k]].bucket == -1
  }

  /** The rest of the detached list is as the first loop left it. */
  lemma TurnAt(mid: seq<Proc>, procs: seq<Proc>, head: int, c: seq<int>, k: nat, now: nat)
    requires |mid| == |procs| == NPROC + 1 && k < |c| && AllMarked(mid, head, c) && TurnedUpTo(mid, procs, c, k, now)
    ensures Index(c[k]) && procs[c[k]] == mid[c[k]] && mid[c[k]].next == At(c, k + 1) && Distinct(c)
    ensures forall m :: k <= m < |c| ==> Index(c[m]) && !procs[c[m]].active && procs[c[m]].bucket == -1
  {
    forall m | k <= m < |c|
      ensures Index(c[m]) && procs[c[m]] == mid[c[m]]
    {
      assert c[m] !in c[..k];
    }
  }

  /** The walk lets go of its k-th process. */
  lemma Dropped(procs: seq<Proc>, heads: seq<int>, chains: seq<seq<int>>, c: seq<int>, k: nat, p: Proc)
    requires |procs| == NPROC + 1 && k < |c| && Distinct(c) && Index(c[k])
    requires Chains(procs, heads, chains) && Placed(procs, chains, c[k..])
    requires !p.active && p.bucket == -1 && p.next == 0 && !procs[c[k]].active
    ensures Chains(procs[c[k] := p], heads, chains) && Placed(procs[c[k] := p], chains, c[k + 1..])
    ensures c[k] !in c[k + 1..]
  {
    var procs' := procs[c[k] := p];
    assert c[k..] == [c[k]] + c[k + 1..];
    forall d | 0 <= d < BUCKETS
      ensures Chain(procs', heads[d], chains[d])
    {
      OffChain(procs, chains, c[k..], d, c[k]);
      ChainKept(procs, procs', heads[d], chains[d]);
    }
    hide Chain, Chains;
  }

  lemma KeptItself(procs: seq<Proc>, i: int)
    requires |procs| == NPROC + 1
    ensures OthersKept(procs, procs, i)
  {
  }

  lemma DetachedMarked(procs: seq<Proc>, mid: seq<Proc>, head: int, c: seq<int>)
    requires |procs| == |mid| == NPROC + 1 && Chain(mid, head, c)
    requires forall j :: Index(j) ==> mid[j] == if j in c then Marked(procs[j]) else procs[j]
    ensures AllMarked(mid, head, c) && head == At(c, 0)
  {
    forall k | 0 <= k < |c|
      ensures !mid[c[k]].active && mid[c[k]].bucket == -1
    {
      assert c[k] in c;
    }
  }

  lemma TurnDone(mid: seq<Proc>, was: seq<Proc>, before: seq<Proc>, procs: seq<Proc>, c: seq<int>, k: nat, now: nat)
    requires |mid| == |was| == |before| == |procs| == NPROC + 1 && k < |c| && Distinct(c)
    requires forall m :: k <= m < |c| ==> Index(c[m])
    requires TurnedUpTo(mid, was, c, k, now)
    requires before == was[c[k] := before[c[k]]] && OthersKept(before, procs, c[k])
    requires forall m :: k <= m < |c| ==> !before[c[m]].active
    requires procs[c[k]] == Turned(mid[c[k]], now).(next := procs[c[k]].next)
    ensures TurnedUpTo(mid, procs, c, k + 1, now)
  {
    hide Turned;
    PrefixGrows(c, k);
    assert c == c[..k + 1] + c[k + 1..];
    forall j | Index(j) && j in c[k + 1..]
      ensures !before[j].active
    {
      var m :| 0 <= m < |c[k + 1..]| && c[k + 1..][m] == j;
      assert c[k + 1 + m] == j;
    }
  }

  /** The plain rule: a scan of every process beats the ones whose deadline is this tick. */
  function Scanned(p: Proc, now: nat): Proc {
    if p.Eligible() && p.deadline == now then p.Beaten(now) else p
  }

  /** One process: the wheel's test "deadline passed and in this bucket" is the scan's "deadline is now". */
  lemma TurnedIsScanned(p: Proc, now: nat)
    requires now > 0 && p.active && p.phase == Live && p.agent && p.bucket == now % BUCKETS
    requires p.interval > 0 ==> p.deadline >= now && p.bucket == p.deadline % BUCKETS
    ensures var q := Turned(Marked(p), now);
            && q.Off() == Scanned(p, now).Off() && q.phase == Live && q.agent
            && (q.active <==> p.Eligible()) && (q.active <==> q.Eligible())
            && (q.active ==> q.deadline > now && q.bucket == q.deadline % BUCKETS)
  {
  }

  lemma PassedOver(p: Proc, now: nat)
    requires now > 0 && p.active && p.bucket != now % BUCKETS
    requires p.interval > 0 ==> p.deadline >= now && p.bucket == p.deadline % BUCKETS
    ensures Scanned(p, now) == p && (p.interval > 0 ==> p.deadline > now)
  {
  }

  lemma TickExact(procs: seq<Proc>, chains: seq<seq<int>>, mid: seq<Proc>, procs': seq<Proc>, c: seq<int>, now: nat,
                  last: nat)
    requires |procs| == |mid| == |procs'| == NPROC + 1 && now == last + 1
    requires Placed(procs, chains, []) && Timely(procs, last) && c == chains[now % BUCKETS]
    requires forall j :: Index(j) ==> mid[j] == if j in c then Marked(procs[j]) else procs[j]
    requires TurnedUpTo(mid, procs', c, |c|, now)
    ensures forall j :: Index(j) ==>
      && procs'[j].Off() == (if procs[j].active then Scanned(procs[j], now) else procs[j]).Off()
      && (procs'[j].active <==> procs[j].active && (procs[j].bucket == now % BUCKETS ==> procs[j].Eligible()))
    ensures Timely(procs', now)
    ensures Covered(procs) ==> Covered(procs')
    ensures Covered(procs) ==> forall j :: Index(j) && procs'[j].phase == Live ==>
      procs'[j].Off() == Scanned(procs[j], now).Off()
  {
    assert c[..|c|] == c;
    forall j | Index(j)
      ensures TickedExactly(procs[j], procs'[j], now)
    {
      assert j in c <==> procs[j].active && procs[j].bucket == now % BUCKETS;
      if j in c {
        TurnedIsScanned(procs[j], now);
      } else if procs[j].active {
        PassedOver(procs[j], now);
      }
    }
    hide Scanned, TurnedUpTo, Turned;
  }

  lemma TickBeats(procs: seq<Proc>, procs': seq<Proc>, last: nat, now: nat)
    requires |procs| == |procs'| == NPROC + 1 && Timely(procs, last) && now > 0
    requires forall j :: Index(j) ==>
               procs'[j].Off() == (if procs[j].active then Scanned(procs[j], now) else procs[j]).Off()
    ensures forall j :: Index(j) ==>
              var p, p' := procs[j], procs'[j];
              var due := p.active && p.agent && !p.done && p.interval > 0 && p.deadline == now;
              && p'.pending == (p.pending || due) && p'.asleep == (p.asleep && !due)
              && p'.wakeupTick == (if due then now else p.wakeupTick)
              && p'.boost == (if due && p.boost < 2 then 2 else p.boost)
              && p'.deadline == (if due then now + p.interval else p.deadline)
              && p'.phase == p.phase && p'.agent == p.agent && p'.done == p.done && p'.interval == p.interval
  {
    forall j | Index(j)
      ensures TimelyOne(procs[j], last)
      ensures procs'[j].Off() == (if procs[j].active then Scanned(procs[j], now) else procs[j]).Off()
    {
      OffIsAllElse(procs'[j], if procs[j].active then Scanned(procs[j], now) else procs[j]);
    }
  }

  /** What one tick must make of a process. */
  predicate TickedExactly(p: Proc, p': Proc, now: nat) {
    && p'.Off() == (if p.active then Scanned(p, now) else p).Off()
    && (p'.active <==> p.active && (p.bucket == now % BUCKETS ==> p.Eligible()))
    && (p'.active ==> p'.phase == Live && p'.agent)
    && (p'.active && p'.interval > 0 ==> p'.deadline > now && p'.bucket == p'.deadline % BUCKETS)
    && (p.active && !p'.active ==> !p'.Eligible())
  }

  /** Processes other than i keep everything but their links. */
  ghost predicate OthersInPlace(a: seq<Proc>, b: seq<Proc>, i: int)
    requires |a| == |b| == NPROC + 1
  {
    forall j :: Index(j) && j != i ==> b[j] == a[j].(next := b[j].next)
  }

  /** A change to process i after which it is timely and, if wanted, covered. */
  lemma ChangedOne(a: seq<Proc>, mid: seq<Proc>, b: seq<Proc>, i: int, last: nat)
    requires |a| == |mid| == |b| == NPROC + 1 && Index(i)
    requires OthersInPlace(a, mid, i) && OthersInPlace(mid, b, i)
    ensures OthersInPlace(a, b, i)
    ensures Timely(a, last) && TimelyOne(b[i], last) ==> Timely(b, last)
    ensures Covered(a) && (b[i].phase == Live && b[i].Eligible() ==> b[i].active) ==> Covered(b)
  {
    if Covered(a) && (b[i].phase == Live && b[i].Eligible() ==> b[i].active) {
      forall j | Index(j) && b[j].phase == Live && b[j].Eligible()
        ensures b[j].active
      {
        if j != i {
          assert a[j].phase == Live && a[j].Eligible();
        }
      }
    }
  }

  lemma CoveredByOne(a: seq<Proc>, b: seq<Proc>, i: int)
    requires |a| == |b| == NPROC + 1 && Index(i) && OthersInPlace(a, b, i)
    ensures Covered(b) <==> CoveredBut(a, i) && (b[i].phase == Live && b[i].Eligible() ==> b[i].active)
  {
    forall j | Index(j) && j != i
      ensures b[j].phase == a[j].phase && b[j].active == a[j].active && b[j].Eligible() == a[j].Eligible()
    {
      assert b[j] == a[j].(next := b[j].next);
    }
  }

  lemma KeptInPlace(a: seq<Proc>, b: seq<Proc>, i: int)
    requires |a| == |b| == NPROC + 1 && OthersKept(a, b, i)
    ensures OthersInPlace(a, b, i)
  {
  }

  lemma UnchangedInPlace(a: seq<Proc>, i: int)
    requires |a| == NPROC + 1
    ensures OthersInPlace(a, a, i)
  {
  }

  lemma SetInPlace(a: seq<Proc>, i: int, q: Proc)
    requires |a| == NPROC + 1 && Index(i)
    ensures OthersInPlace(a, a[i := q], i)
  {
  }

  lemma FieldsPlaced(procs: seq<Proc>, heads: seq<int>, chains: seq<seq<int>>, i: int, q: Proc)
    requires |procs| == NPROC + 1 && Chains(procs, heads, chains) && Placed(procs, chains, []) && Index(i)
    requires q.active == procs[i].active && q.bucket == procs[i].bucket && q.next == procs[i].next
    ensures Chains(procs[i := q], heads, chains) && Placed(procs[i := q], chains, [])
  {
    forall b | 0 <= b < BUCKETS
      ensures Chain(procs[i := q], heads[b], chains[b])
    {
      ChainKept(procs, procs[i := q], heads[b], chains[b]);
    }
    hide Chain, Chains;
  }

  /** A process off the wheel has blank wheel fields. */
  lemma Blank(procs: seq<Proc>, chains: seq<seq<int>>, i: int)
    requires |procs| == NPROC + 1 && Placed(procs, chains, []) && Index(i)
    ensures !procs[i].active ==> procs[i].bucket == -1 && procs[i].next == 0
  {
  }

  lemma CoveredIff(a: seq<Proc>, b: seq<Proc>, i: int)
    requires |a| == NPROC + 1 && Index(i) && a[i].phase == Live && a[i].agent && b == a[i := a[i].(done := false)]
    ensures Covered(b) <==> Covered(a) && !(a[i].done && a[i].interval > 0 && a[i].deadline > 0 && !a[i].active)
  {
    if Covered(b) {
      forall j | Index(j) && a[j].phase == Live && a[j].Eligible()
        ensures a[j].active
      {
        assert b[j].Eligible() && b[j].phase == Live;
      }
      assert b[i].Eligible() ==> b[i].active;
    }
  }

  // ---------------------------------------------------------------- the wheel

  class Wheel {
    var procs: seq<Proc>
    var heads: seq<int>
    var count: int
    ghost var chains: seq<seq<int>>
    /** The last tick handled. */
    ghost var last: nat

    /** The structure of the wheel while a tick still holds the detached list rest. */
    ghost predicate Wheel(rest: seq<int>)
      reads this
    {
      && |procs| == NPROC + 1
      && Chains(procs, heads, chains) && Placed(procs, chains, rest)
      && count == Total(chains)
    }

    ghost predicate Valid()
      reads this
    {
      Wheel([]) && Timely(procs, last)
    }

    constructor ()
      ensures Valid() && count == 0 && last == 0
      ensures forall i :: Index(i) ==> procs[i] == FRESH
    {
      procs := seq(NPROC + 1, i => FRESH);
      heads := seq(BUCKETS, i => 0);
      count := 0;
      chains := seq(BUCKETS, i => []);
      last := 0;
      new;
      TotalEmpty(chains);
    }

    /** agent_heartbeat_wheel_remove_locked. */
    method Remove(i: int, ghost rest: seq<int>)
      requires Wheel(rest) && Index(i) && i !in rest
      modifies this`procs, this`heads, this`count, this`chains
      ensures Wheel(rest)
      ensures procs[i] == old(procs[i]).Off() && OthersKept(old(procs), procs, i)
      ensures !old(procs[i]).active ==> procs == old(procs) && heads == old(heads) && chains == old(chains)
    {
      var p := procs[i];
      if !p.active {
        return;
      }
      var b := p.bucket;
      ghost var c := chains[b];
      ghost var k := 0;
      var current, previous := heads[b], 0;
      while current != i
        invariant 0 <= k < |c| && current == c[k] && i in c[k..]
        invariant previous == if k == 0 then 0 else c[k - 1]
        decreases |c| - k
      {
        previous := current;
        current := procs[current].next;
        k := k + 1;
      }
      BypassNode(i, b, previous, k, rest);
    }

    /** The body of the search loop where it finds the node, and the three stores after it. */
    method BypassNode(i: int, b: nat, previous: int, ghost k: nat, ghost rest: seq<int>)
      requires Wheel(rest) && b < BUCKETS && k < |chains[b]| && chains[b][k] == i
      requires previous == if k == 0 then 0 else chains[b][k - 1]
      modifies this`procs, this`heads, this`count, this`chains
      ensures Wheel(rest)
      ensures procs[i] == old(procs[i]).Off() && OthersKept(old(procs), procs, i)
    {
      hide Total, Chain, Placed, Bypass, OthersKept;
      BypassChains(procs, heads, chains, rest, b, k);
      TotalCovers(chains, b);
      TotalUpdate(chains, b, Without(chains[b], k));
      var next := procs[i].next;
      procs := Bypass(procs, previous, i);
      if previous == 0 {
        heads := heads[b := next];
      }
      chains := chains[b := Without(chains[b], k)];
      assert count > 0;
      if count > 0 {
        count := count - 1;
      }
    }

    /** agent_heartbeat_wheel_insert_locked. */
    method Insert(i: int, ghost rest: seq<int>)
      requires Wheel(rest) && Index(i) && i !in rest
      modifies this`procs, this`heads, this`count, this`chains
      ensures Wheel(rest)
      ensures OthersKept(old(procs), procs, i)
      ensures procs[i] == if old(procs[i]).Eligible()
                          then old(procs[i]).(active := true, next := procs[i].next,
                                              bucket := old(procs[i]).deadline % BUCKETS)
                          else old(procs[i]).Off()
    {
      hide Total, Chain;
      if procs[i].active {
        Remove(i, rest);
      }
      var p := procs[i];
      if !p.Eligible() {
        return;
      }
      var b := p.deadline % BUCKETS;
      var head := heads[b];
      var procs' := procs[i := p.(active := true, bucket := b, next := head)];
      PushChains(procs, procs', heads, chains, rest, b, i);
      TotalUpdate(chains, b, [i] + chains[b]);
      procs := procs';
      heads := heads[b := i];
      chains := chains[b := [i] + chains[b]];
      count := count + 1;
    }

    /** The first loop of agent_tick: the bucket is emptied and its processes marked off the
      * wheel, their links still in place. */
    method Detach(b: nat) returns (current: int)
      requires Wheel([]) && b < BUCKETS
      modifies this`procs, this`heads, this`count, this`chains
      ensures var c := old(chains)[b];
              && Wheel(c) && Chain(procs, current, c) && chains == old(chains)[b := []]
              && forall j :: Index(j) ==> procs[j] == if j in c then Marked(old(procs)[j]) else old(procs)[j]
    {
      hide Total, MarkedUpTo, Chain, Placed;
      ghost var c := chains[b];
      current := heads[b];
      heads := heads[b := 0];
      TotalCovers(chains, b);
      TotalUpdate(chains, b, []);
      MarkedNone(procs, c);
      AtHead(procs, current, c);
      var scan := current;
      ghost var k := 0;
      while scan != 0
        invariant 0 <= k <= |c| && scan == At(c, k)
        invariant |procs| == NPROC + 1 && MarkedUpTo(old(procs), procs, c, k)
        invariant count == Total(chains) - k && chains == old(chains) && heads == old(heads)[b := 0]
        decreases |c| - k
      {
        scan := DetachOne(old(procs), current, c, k, scan);
        k := k + 1;
      }
      AtEnd(old(procs), current, c, k);
      DetachedPlaces(old(procs), procs, old(heads), old(chains), b);
      chains := chains[b := []];
    }

    method DetachOne(ghost was: seq<Proc>, ghost head: int, ghost c: seq<int>, ghost k: nat, scan: int)
      returns (next: int)
      requires |was| == |procs| == NPROC + 1 && k < |c| && scan == c[k] && Chain(was, head, c)
      requires MarkedUpTo(was, procs, c, k)
      requires count > 0
      modifies this`procs, this`count
      ensures |procs| == NPROC + 1 && MarkedUpTo(was, procs, c, k + 1)
      ensures count == old(count) - 1 && next == At(c, k + 1)
    {
      hide MarkedUpTo;
      MarkedStep(was, procs, head, c, k);
      next := procs[scan].next;
      procs := procs[scan := Marked(procs[scan])];
      if count > 0 {
        count := count - 1;
      }
    }

    /** agent_tick's heartbeat part. A process on the wheel whose heartbeat is due gets the event, wakes up
      * and has its next deadline set; every other process is left alone. That is what the scan of every
      * process would do. */
    method Tick(now: nat)
      requires Valid() && now == last + 1
      modifies this
      ensures Valid() && last == now
      ensures forall j :: Index(j) ==>
                var p, p' := old(procs)[j], procs[j];
                var due := p.active && p.agent && !p.done && p.interval > 0 && p.deadline == now;
                && p'.pending == (p.pending || due) && p'.asleep == (p.asleep && !due)
                && p'.wakeupTick == (if due then now else p.wakeupTick)
                && p'.boost == (if due && p.boost < 2 then 2 else p.boost)
                && p'.deadline == (if due then now + p.interval else p.deadline)
                && p'.phase == p.phase && p'.agent == p.agent && p'.done == p.done && p'.interval == p.interval
      ensures forall j :: Index(j) ==>
        && procs[j].Off() == (if old(procs[j]).active then Scanned(old(procs[j]), now) else old(procs[j])).Off()
        && (procs[j].active <==>
              old(procs[j]).active && (old(procs[j]).bucket == now % BUCKETS ==> old(procs[j]).Eligible()))
      ensures old(Covered(procs)) ==> Covered(procs)
      ensures old(Covered(procs)) ==> forall j :: Index(j) && procs[j].phase == Live ==>
        procs[j].Off() == Scanned(old(procs[j]), now).Off()
    {
      hide Total, Chain, Placed, Timely, Covered, TurnedUpTo, AllMarked, Scanned;
      ghost var c := chains[now % BUCKETS];
      var current := Detach(now % BUCKETS);
      ghost var mid, head := procs, current;
      ghost var k := 0;
      TurnedNone(mid, c, now);
      DetachedMarked(old(procs), mid, head, c);
      assert c[0..] == c;
      while current != 0
        invariant 0 <= k <= |c| && current == At(c, k)
        invariant Wheel(c[k..]) && TurnedUpTo(mid, procs, c, k, now)
        invariant last == old(last)
        decreases |c| - k
      {
        current := TickOne(mid, head, c, k, current, now);
        k := k + 1;
      }
      MarkedAtEnd(mid, head, c, k);
      assert c[k..] == [];
      TickExact(old(procs), old(chains), mid, procs, c, now, old(last));
      TickBeats(old(procs), procs, old(last), now);
      last := now;
    }

    /** n consecutive ticks after tick number from. Every process that is on the wheel or asks for no heartbeat
      * ends up as n scans of every process would leave it. */
    method Ticks(from: nat, n: nat)
      requires Valid() && last == from
      modifies this
      ensures Valid() && last == old(last) + n
      ensures old(Covered(procs)) ==> Covered(procs)
      ensures forall j :: Index(j) && Attended(old(procs[j])) ==>
                Attended(procs[j]) && procs[j].Off() == AfterTicks(old(procs[j]), old(last), n).Off()
    {
      hide Total, Chain, Chains, Placed, Timely, Covered, Scanned;
      for k := 0 to n
        invariant Valid() && last == old(last) + k
        invariant old(Covered(procs)) ==> Covered(procs)
        invariant forall j :: Index(j) && Attended(old(procs[j])) ==>
                    Attended(procs[j]) && procs[j].Off() == AfterTicks(old(procs[j]), old(last), k).Off()
      {
        ghost var was := procs;
        Tick(from + k + 1);
        forall j | Index(j) && Attended(old(procs[j]))
          ensures Attended(procs[j]) && procs[j].Off() == AfterTicks(old(procs[j]), old(last), k + 1).Off()
        {
          ScannedOff(was[j], AfterTicks(old(procs[j]), old(last), k), from + k + 1);
        }
      }
    }

    /** One turn of agent_tick's second loop. */
    method TickOne(ghost mid: seq<Proc>, ghost head: int, ghost c: seq<int>, ghost k: nat, current: int, now: nat)
      returns (next: int)
      requires |mid| == NPROC + 1 && AllMarked(mid, head, c) && k < |c| && current == c[k]
      requires Wheel(c[k..]) && TurnedUpTo(mid, procs, c, k, now)
      modifies this`procs, this`heads, this`count, this`chains
      ensures Wheel(c[k + 1..]) && TurnedUpTo(mid, procs, c, k + 1, now)
      ensures next == At(c, k + 1)
    {
      hide Total, Chains, Chain, Placed, TurnedUpTo, Distinct, OthersKept, AllMarked;
      TurnAt(mid, procs, head, c, k, now);
      var p := procs[current];
      next := p.next;
      p := p.(next := 0);
      if p.Eligible() && now >= p.deadline {
        p := p.Beaten(now);
      }
      Dropped(procs, heads, chains, c, k, p);
      procs := procs[current := p];
      ghost var before := procs;
      KeptItself(procs, current);
      if p.Eligible() {
        Insert(current, c[k + 1..]);
      }
      TurnDone(mid, old(procs), before, procs, c, k, now);
    }

    // -------------------------------------------------------------- the other operations

    /** Fields other than the place on the wheel change. */
    method SetFields(i: int, q: Proc)
      requires Wheel([]) && Index(i)
      requires q.active == procs[i].active && q.bucket == procs[i].bucket && q.next == procs[i].next
      modifies this`procs
      ensures Wheel([]) && procs == old(procs)[i := q]
    {
      FieldsPlaced(procs, heads, chains, i, q);
      procs := procs[i := q];
    }

    /** agent_proc_heartbeat_set by process i when the clock shows clock. */
    method HeartbeatSet(i: int, interval: int, clock: nat) returns (r: int)
      requires Valid() && Index(i) && procs[i].phase == Live && clock >= last
      modifies this
      ensures Valid() && last == old(last) && OthersInPlace(old(procs), procs, i)
      ensures var p := old(procs[i]); var p' := procs[i];
              if !p.agent then r == ERR_NOT_AGENT && procs == old(procs)
              else if interval <= 0 then r == -1 && procs == old(procs)
              else
                && r == OK && (p'.active <==> !p.done)
                && p'.Off() == p.(interval := interval, deadline := clock + interval + 1, pending := false).Off()
      ensures old(Covered(procs)) ==> Covered(procs)
    {
      hide Total, Chain, Chains, Placed, Timely, Covered, OthersKept, OthersInPlace;
      UnchangedInPlace(procs, i);
      if !procs[i].agent {
        return ERR_NOT_AGENT;
      }
      if interval <= 0 {
        return -1;
      }
      SetFields(i, procs[i].(interval := interval, deadline := clock + interval + 1, pending := false));
      SetInPlace(old(procs), i, procs[i]);
      ghost var mid := procs;
      Insert(i, []);
      KeptInPlace(mid, procs, i);
      ChangedOne(old(procs), mid, procs, i, last);
      r := OK;
    }

    /** agent_proc_heartbeat_stop by process i. */
    method HeartbeatStop(i: int) returns (r: int)
      requires Valid() && Index(i) && procs[i].phase == Live
      modifies this
      ensures Valid() && last == old(last) && OthersInPlace(old(procs), procs, i)
      ensures var p := old(procs[i]);
              if !p.agent then r == ERR_NOT_AGENT && procs == old(procs)
              else r == OK && procs[i] == p.(interval := 0, deadline := 0, pending := false).Off()
      ensures old(Covered(procs)) ==> Covered(procs)
    {
      hide Total, Chain, Chains, Placed, Timely, Covered, OthersKept, OthersInPlace;
      UnchangedInPlace(procs, i);
      if !procs[i].agent {
        return ERR_NOT_AGENT;
      }
      Remove(i, []);
      ghost var mid := procs;
      KeptInPlace(old(procs), mid, i);
      SetFields(i, procs[i].(interval := 0, deadline := 0, pending := false));
      SetInPlace(mid, i, procs[i]);
      ChangedOne(old(procs), mid, procs, i, last);
      r := OK;
    }

    /** What ends an agent's loop: its own last wait, which also drops the heartbeat bit, or a
      * cascade, which does not. The process stays on the wheel until its bucket comes round. */
    method Finish(i: int, cascade: bool)
      requires Valid() && Index(i) && procs[i].phase != Unused && procs[i].agent
      modifies this
      ensures Valid() && last == old(last)
      ensures procs == old(procs)[i := old(procs[i]).(done := true, interval := 0, deadline := 0,
                                                      pending := cascade && old(procs[i]).pending)]
      ensures old(Covered(procs)) ==> Covered(procs)
    {
      SetFields(i, procs[i].(done := true, interval := 0, deadline := 0, pending := cascade && procs[i].pending));
    }

    /** A wait that ends because the parent is gone or the process was killed: the loop is over
      * but the interval stays. */
    method LoopOver(i: int)
      requires Valid() && Index(i) && procs[i].phase == Live && procs[i].agent
      modifies this
      ensures Valid() && last == old(last) && procs == old(procs)[i := old(procs[i]).(done := true)]
      ensures old(Covered(procs)) ==> Covered(procs)
    {
      SetFields(i, procs[i].(done := true));
    }

    /** A wait, a tool call or a rollback stores a loop state other than DONE. Every heartbeat
      * stays covered exactly when the loop was not over with an interval set off the wheel. */
    method Resume(i: int)
      requires Valid() && Index(i) && procs[i].phase == Live && procs[i].agent
      modifies this
      ensures Valid() && last == old(last) && procs == old(procs)[i := old(procs[i]).(done := false)]
      ensures Covered(procs) <==>
        old(Covered(procs) && !(procs[i].done && procs[i].interval > 0 && procs[i].deadline > 0 && !procs[i].active))
    {
      SetFields(i, procs[i].(done := false));
      CoveredIff(old(procs), procs, i);
    }

    /** A wait consumes the heartbeat. */
    method TakeBeat(i: int)
      requires Valid() && Index(i) && procs[i].phase == Live && procs[i].agent
      modifies this
      ensures Valid() && last == old(last) && procs == old(procs)[i := old(procs[i]).(pending := false)]
      ensures old(Covered(procs)) ==> Covered(procs)
    {
      SetFields(i, procs[i].(pending := false));
    }

    /** Process i falls asleep on its own channel. */
    method Sleep(i: int)
      requires Valid() && Index(i) && procs[i].phase == Live
      modifies this
      ensures Valid() && last == old(last) && procs == old(procs)[i := old(procs[i]).(asleep := true)]
      ensures old(Covered(procs)) ==> Covered(procs)
    {
      SetFields(i, procs[i].(asleep := true));
    }

    /** The wheel part of agent_mark_current: room says whether the context region could be
      * allocated, joined whether the workflow accepted the process. A refusal leaves the process off the
      * wheel: its old heartbeat is lost when there is no room, the new one when it may not join. */
    method Mark(i: int, interval: int, clock: nat, room: bool, joined: bool) returns (ok: bool)
      requires Valid() && Index(i) && procs[i].phase == Live && clock >= last
      modifies this
      ensures Valid() && last == old(last) && OthersInPlace(old(procs), procs, i)
      ensures ok <==> room && joined
      ensures var p := old(procs[i]);
              if !room then procs[i] == p.Off()
              else && procs[i].Off() == p.(agent := true, done := false, interval := interval,
                        deadline := if interval > 0 then clock + interval else 0,
                        wakeupTick := 0, pending := false, boost := 0).Off()
                   && (procs[i].active <==> ok && interval > 0 && clock + interval > 0)
      ensures Covered(procs) <==>
                && old(CoveredBut(procs, i))
                && (if !room then !old(procs[i]).Eligible() else joined || interval <= 0)
    {
      hide Total, Chain, Chains, Placed, Timely, Covered, CoveredBut, OthersKept, OthersInPlace;
      Remove(i, []);
      ghost var mid := procs;
      KeptInPlace(old(procs), mid, i);
      UnchangedInPlace(mid, i);
      ChangedOne(old(procs), mid, mid, i, last);
      if !room {
        CoveredByOne(old(procs), procs, i);
        return false;
      }
      SetFields(i, procs[i].(agent := true, done := false, interval := interval,
        deadline := if interval > 0 then clock + interval else 0, wakeupTick := 0, pending := false, boost := 0));
      SetInPlace(mid, i, procs[i]);
      ghost var written := procs;
      ChangedOne(old(procs), mid, written, i, last);
      if !joined {
        CoveredByOne(old(procs), procs, i);
        return false;
      }
      if procs[i].interval > 0 {
        Insert(i, []);
        KeptInPlace(written, procs, i);
        ChangedOne(old(procs), written, procs, i, last);
      }
      CoveredByOne(old(procs), procs, i);
      ok := true;
    }

    /** allocproc, and agent_after_fork for the child of an agent. */
    method Birth(i: int, agent: bool)
      requires Valid() && Index(i) && procs[i].phase == Unused
      modifies this
      ensures Valid() && last == old(last)
      ensures procs == old(procs)[i := FRESH.(phase := Live, agent := agent)]
      ensures old(Covered(procs)) ==> Covered(procs)
    {
      Blank(procs, chains, i);
      SetFields(i, FRESH.(phase := Live, agent := agent));
    }

    /** agent_proc_exit. */
    method Exit(i: int)
      requires Valid() && Index(i) && procs[i].phase == Live
      modifies this
      ensures Valid() && last == old(last) && OthersInPlace(old(procs), procs, i)
      ensures procs[i] == old(procs[i]).(phase := Exited).Off()
      ensures old(Covered(procs)) ==> Covered(procs)
    {
      hide Total, Chain, Chains, Placed, Timely, Covered, OthersKept, OthersInPlace;
      Remove(i, []);
      ghost var mid := procs;
      KeptInPlace(old(procs), mid, i);
      SetFields(i, procs[i].(phase := Exited));
      SetInPlace(mid, i, procs[i]);
      ChangedOne(old(procs), mid, procs, i, last);
    }

    /** freeproc: agent_init_proc clears the wheel fields without unlinking, which is safe
      * because an exited process is never on the wheel. */
    method Free(i: int)
      requires Valid() && Index(i) && procs[i].phase == Exited
      modifies this
      ensures Valid() && last == old(last) && procs == old(procs)[i := FRESH]
      ensures old(Covered(procs)) ==> Covered(procs)
    {
      Blank(procs, chains, i);
      SetFields(i, FRESH);
    }
  }

  /** An agent whose loop is over asks for a heartbeat, is told it succeeded, and then calls a
    * tool: it is a live agent with a positive interval that no tick will ever beat. */
  method LostHeartbeat(interval: int) returns (w: Wheel, r: int)
    requires interval > 0
    ensures w.Valid() && r == OK
    ensures w.procs[1].phase == Live && w.procs[1].agent && !w.procs[1].done && w.procs[1].interval == interval
    ensures !w.procs[1].active && !Covered(w.procs)
  {
    w := new Wheel();
    w.Birth(1, false);
    var ok := w.Mark(1, 0, 0, true, true);
    w.Finish(1, false);
    r := w.HeartbeatSet(1, interval, 0);
    w.Resume(1);
  }

  /** The other way to lose one: the workflow refuses a process that asks for a heartbeat, after its
    * interval has been set. */
  method RefusedHeartbeat(interval: int) returns (w: Wheel, ok: bool)
    requires interval > 0
    ensures w.Valid() && !ok
    ensures w.procs[1].phase == Live && w.procs[1].agent && !w.procs[1].done && w.procs[1].interval == interval
    ensures !w.procs[1].active && !Covered(w.procs)
  {
    w := new Wheel();
    w.Birth(1, false);
    ok := w.Mark(1, interval, 0, true, false);
  }

  // ---------------------------------------------------------------- many ticks

  /** On the wheel, or in no need of it. */
  predicate Attended(p: Proc) {
    p.active || !p.Eligible()
  }

  /** A process after the scans of n ticks following last. */
  function AfterTicks(p: Proc, last: nat, n: nat): Proc {
    if n == 0 then p else Scanned(AfterTicks(p, last, n - 1), last + n)
  }

  /** A scan does not look at the wheel. */
  lemma ScannedOff(p: Proc, q: Proc, now: nat)
    requires p.Off() == q.Off()
    ensures p.Eligible() == q.Eligible() && Scanned(p, now).Off() == Scanned(q, now).Off()
    ensures p.Eligible() ==> Scanned(p, now).Eligible()
    ensures !p.Eligible() ==> Scanned(p, now) == p
    ensures forall r: Proc :: r.Off() == Scanned(p, now).Off() ==> r.Eligible() == p.Eligible()
  {
    assert p.phase == p.Off().phase && q.phase == q.Off().phase && p.agent == p.Off().agent;
  }

  /** Its deadline is the one reckoned below, and it goes on asking for heartbeats. */
  lemma {:induction false} DeadlineOfTicks(p: Proc, last: nat, n: nat)
    requires p.Eligible() && p.deadline > last
    ensures var q := AfterTicks(p, last, n);
            q.Eligible() && q.interval == p.interval && q.deadline == DeadlineAfter(p.deadline, p.interval, last, n)
  {
    if n > 0 {
      DeadlineOfTicks(p, last, n - 1);
    }
  }

  /** Tick number n beats the process when it is its deadline or a whole number of intervals later: it has the
    * event and is awake, to be scheduled with a boost. At any other tick it is left alone. */
  lemma BeatsAtItsTicks(p: Proc, last: nat, n: nat)
    requires p.Eligible() && p.deadline > last && n > 0
    ensures var a, b, now := AfterTicks(p, last, n - 1), AfterTicks(p, last, n), last + n;
            if now >= p.deadline && (now - p.deadline) % p.interval == 0
            then
              && a.interval == p.interval > 0 && !b.asleep && b.boost >= 2
              && b == a.(pending := true, wakeupTick := now, boost := if a.boost < 2 then 2 else a.boost,
                         asleep := false, deadline := now + p.interval)
            else b == a
  {
    DeadlineOfTicks(p, last, n - 1);
    BeatsPeriodically(p.deadline, p.interval, last, n);
  }

  /** The deadline after each of n ticks following last, for a process left on the wheel. */
  function DeadlineAfter(deadline: nat, interval: nat, last: nat, n: nat): nat {
    if n == 0 then deadline
    else
      var d := DeadlineAfter(deadline, interval, last, n - 1);
      if d == last + n then d + interval else d
  }

  /** A heartbeat beats at its deadline and every interval ticks after it, and at no other tick. */
  lemma {:induction false} BeatsPeriodically(deadline: nat, interval: nat, last: nat, n: nat)
    requires interval > 0 && deadline > last && n > 0
    ensures DeadlineAfter(deadline, interval, last, n - 1) == last + n
            <==> last + n >= deadline && (last + n - deadline) % interval == 0
  {
    NextBeat(deadline, interval, last, n - 1);
    var d := DeadlineAfter(deadline, interval, last, n - 1);
    if last + n >= deadline && d > last + n {
      var q := (d - deadline) / interval;
      assert d - deadline == q * interval + (d - deadline) % interval;
      NotMultiple(last + n - deadline, interval, q);
    }
  }

  lemma MultiplesApart(m: int, q: int, interval: nat)
    ensures m * interval <= (q - 1) * interval || m * interval >= q * interval
  {
    if m >= q {
      assert (m - q) * interval >= 0;
    } else {
      assert (q - 1 - m) * interval >= 0;
    }
  }

  lemma NotMultiple(x: nat, interval: nat, q: int)
    requires interval > 0 && (q - 1) * interval < x < q * interval
    ensures x % interval != 0
  {
    MultiplesApart(x / interval, q, interval);
  }

  lemma {:induction false} NextBeat(deadline: nat, interval: nat, last: nat, n: nat)
    requires interval > 0 && deadline > last
    ensures var d := DeadlineAfter(deadline, interval, last, n);
            && d > last + n && d >= deadline && (d - deadline) % interval == 0
            && (d == deadline || d - interval <= last + n)
  {
    if n > 0 {
      NextBeat(deadline, interval, last, n - 1);
      var d := DeadlineAfter(deadline, interval, last, n - 1);
      AddMultiple(d - deadline, interval);
    }
  }

  lemma AddMultiple(x: nat, interval: nat)
    requires interval > 0 && x % interval == 0
    ensures (x + interval) % interval == 0
  {
    var m := x / interval;
    assert x + interval == (m + 1) * interval;
    Divides(m + 1, interval);
  }

  lemma Divides(m: nat, interval: nat)
    requires interval > 0
    ensures (m * interval) % interval == 0
  {
    var r, q := (m * interval) % interval, (m * interval) / interval;
    assert r == (m - q) * interval;
    MultiplesApart(m - q, 1, interval);
    MultiplesApart(m - q, 0, interval);
  }
}
