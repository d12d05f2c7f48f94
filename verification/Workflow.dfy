/** Workflow membership and the cascade that closes a workflow (kernel/agent.c, kernel/proc.c),
  * with forks, exits and several cascades interleaved step by step. */
module Workflow {
  const NPROC: nat := 64
  const WORKFLOW_MAX: nat := 16
  const MEMBER_MAX := 64

  const OK := 0
  const ERR_NOT_AGENT := -3
  const ERR_BAD_PARAM := -2
  const ERR_NO_SPACE := -4
  const ERR_BUSY := -5
  const ERR_PERMISSION := -6
  const ERR_SERVICE_GONE := -7

  /** workflow_id and workflow_leader_generation. */
  datatype Key = Key(id: nat, generation: nat)
  {
    predicate Named() {
      id != 0 && generation != 0
    }
  }

  const NO_KEY := Key(0, 0)

  datatype State = Unused | Embryo | Alive | Zombie

  /** locked: a fork holds the slot's lock, from allocproc until agent_after_fork is done. */
  datatype Proc = Proc(state: State, locked: bool, pid: nat, agent: bool, identity: nat, key: Key, registered: bool,
                       leader: bool, killed: bool)

  const BLANK := Proc(Unused, false, 0, false, 0, NO_KEY, false, false, false)

  datatype Record = Record(used: bool, key: Key, terminating: bool, members: int)

  const NO_RECORD := Record(false, NO_KEY, false, 0)

  /** A run of agent_cascade_terminate by slot caller, whose next slot to visit is next. It is
    * reopened once an active record with its key is created again. */
  datatype Scan = Scan(caller: nat, pid: nat, key: Key, includeLeader: bool, next: nat, reopened: bool)

  // ---------------------------------------------------------------- counting members

  predicate Member(p: Proc, key: Key) {
    p.registered && p.key == key
  }

  function Members(procs: seq<Proc>, key: Key): (n: nat)
    ensures n <= |procs|
  {
    if procs == [] then 0 else Members(procs[..|procs| - 1], key) + if Member(procs[|procs| - 1], key) then 1 else 0
  }

  lemma {:induction false} MembersUpdate(procs: seq<Proc>, i: nat, p: Proc, key: Key)
    requires i < |procs|
    ensures Members(procs[i := p], key)
         == Members(procs, key) - (if Member(procs[i], key) then 1 else 0) + if Member(p, key) then 1 else 0
  {
    var n := |procs| - 1;
    if i == n {
      assert procs[i := p][..n] == procs[..n];
    } else {
      MembersUpdate(procs[..n], i, p, key);
      assert procs[i := p][..n] == procs[..n][i := p];
    }
  }

  lemma {:induction false} MembersBelow(procs: seq<Proc>, i: nat, key: Key)
    requires i < |procs|
    ensures !Member(procs[i], key) ==> Members(procs, key) < |procs|
    ensures Member(procs[i], key) ==> Members(procs, key) > 0
  {
    if i < |procs| - 1 {
      MembersBelow(procs[..|procs| - 1], i, key);
    }
  }

  // ---------------------------------------------------------------- invariants

  /** Each record counts exactly the registered processes with its key, and each of those has one. */
  ghost predicate Counted(records: seq<Record>, procs: seq<Proc>) {
    && |records| == WORKFLOW_MAX && |procs| == NPROC
    && (forall r :: 0 <= r < WORKFLOW_MAX && records[r].used ==>
          records[r].key.Named() && records[r].members == Members(procs, records[r].key) && records[r].members > 0)
    && (forall r, q :: 0 <= r < q < WORKFLOW_MAX && records[r].used && records[q].used ==>
          records[r].key != records[q].key)
    && (forall i :: 0 <= i < NPROC && procs[i].registered ==>
          HasRecord(records, procs[i].key))
  }

  /** Whether a leader can still register: its workflow is open, or has no record yet and there is room for one. */
  predicate Admits(records: seq<Record>, key: Key) {
    Active(records, key) || (!HasRecord(records, key) && exists r :: 0 <= r < |records| && !records[r].used)
  }

  predicate HasRecord(records: seq<Record>, key: Key) {
    exists r :: 0 <= r < |records| && records[r].used && records[r].key == key
  }

  predicate WellFormed(p: Proc, nextPid: nat, generations: nat) {
    && (p.state == Unused ==> p == BLANK)
    && (p.locked ==> p.state == Embryo)
    && (p.state != Unused ==> 0 < p.pid < nextPid)
    && (p.state == Zombie ==> !p.registered)
    && (p.key.Named() || p.key == NO_KEY)
    && (p.key.Named() ==> p.agent)
    && (p.registered ==> p.key.Named())
    && p.identity <= generations && p.key.generation <= generations
  }

  /** Identities and pids are not shared, and a key's generation belongs to the process whose pid
    * is the key's id: that process itself carries the key. */
  ghost predicate Identified(procs: seq<Proc>, nextPid: nat, generations: nat) {
    && |procs| == NPROC
    && (forall i :: 0 <= i < NPROC ==> WellFormed(procs[i], nextPid, generations))
    && (forall i, j :: 0 <= i < j < NPROC && procs[i].state != Unused && procs[j].state != Unused ==>
          procs[i].pid != procs[j].pid)
    && (forall i, j :: 0 <= i < j < NPROC && procs[i].identity == procs[j].identity ==> procs[i].identity == 0)
    && (forall i, j :: 0 <= i < NPROC && 0 <= j < NPROC ==> Owns(procs[i], procs[j].key))
  }

  /** The same workflows, open or closed as before. */
  ghost predicate SameWorkflows(records: seq<Record>, records': seq<Record>) {
    Opened(records, records', {})
  }

  /** These workflows are registered now; they are open if they were or had no record. Every other is as it was. */
  ghost predicate Opened(records: seq<Record>, records': seq<Record>, keys: set<Key>) {
    forall key ::
      && (HasRecord(records', key) <==> HasRecord(records, key) || key in keys)
      && (Active(records', key) <==> Active(records, key) || (key in keys && !HasRecord(records, key)))
  }

  /** If p's identity names key then key is p's own. */
  predicate Owns(p: Proc, key: Key) {
    p.identity != 0 && p.identity == key.generation ==> p.key == key && key.id == p.pid
  }

  predicate Spared(s: Scan, p: Proc) {
    !s.includeLeader && p.pid == s.pid
  }

  /** Slots a scan has passed hold no process of the workflow that is still allowed to run. */
  predicate Swept(s: Scan, procs: seq<Proc>)
    requires s.next <= |procs|
  {
    forall i :: 0 <= i < s.next ==>
      (procs[i].state != Unused && procs[i].key == s.key && !Spared(s, procs[i]) ==> procs[i].killed)
  }

  predicate Active(records: seq<Record>, key: Key) {
    exists r :: 0 <= r < |records| && records[r].used && records[r].key == key && !records[r].terminating
  }

  ghost predicate ScanOk(s: Scan, records: seq<Record>, procs: seq<Proc>, generations: nat)
    requires |procs| == NPROC
  {
    && s.caller < NPROC && s.next <= NPROC && s.key.Named() && s.key.generation <= generations
    && (s.next < NPROC ==> procs[s.caller].state == Alive && procs[s.caller].pid == s.pid)
    && (forall i :: 0 <= i < NPROC ==> Owns(procs[i], s.key))
    && (!s.reopened ==> !Active(records, s.key) && Swept(s, procs))
  }

  ghost predicate ScansOk(scans: seq<Scan>, records: seq<Record>, procs: seq<Proc>, generations: nat)
    requires |procs| == NPROC
  {
    forall k :: 0 <= k < |scans| ==> ScanOk(scans[k], records, procs, generations)
  }

  /** A workflow is terminating only on account of a cascade that nothing has reopened. */
  ghost predicate Justified(records: seq<Record>, scans: seq<Scan>) {
    forall r :: 0 <= r < |records| && records[r].used && records[r].terminating ==> Cascaded(scans, records[r].key)
  }

  predicate Cascaded(scans: seq<Scan>, key: Key) {
    exists k :: 0 <= k < |scans| && scans[k].key == key && !scans[k].reopened
  }

  lemma JustifiedRecord(records: seq<Record>, scans: seq<Scan>, r: nat, rec: Record)
    requires Justified(records, scans) && r < |records|
    requires rec.used && rec.terminating ==>
               Cascaded(scans, rec.key) || (records[r].used && records[r].terminating && rec.key == records[r].key)
    ensures Justified(records[r := rec], scans)
  {
    hide Cascaded;
  }

  /** Reopening a workflow without a record touches no other. */
  lemma JustifiedReopen(records: seq<Record>, scans: seq<Scan>, key: Key)
    requires Justified(records, scans) && !HasRecord(records, key)
    ensures Justified(records, Reopened(scans, key))
  {
    forall r | 0 <= r < |records| && records[r].used && records[r].terminating
      ensures Cascaded(Reopened(scans, key), records[r].key)
    {
      var k :| 0 <= k < |scans| && scans[k].key == records[r].key && !scans[k].reopened;
      assert Reopened(scans, key)[k] == scans[k];
    }
  }

  lemma JustifiedScan(records: seq<Record>, scans: seq<Scan>, s: Scan)
    requires Justified(records, scans)
    ensures Justified(records, scans + [s]) && (!s.reopened ==> Cascaded(scans + [s], s.key))
  {
    var scans' := scans + [s];
    forall key | Cascaded(scans, key)
      ensures Cascaded(scans', key)
    {
      var k :| 0 <= k < |scans| && scans[k].key == key && !scans[k].reopened;
      assert scans'[k] == scans[k];
    }
    assert scans'[|scans|] == s;
  }

  lemma JustifiedStep(records: seq<Record>, scans: seq<Scan>, k: nat, s: Scan)
    requires Justified(records, scans) && k < |scans| && s.key == scans[k].key && s.reopened == scans[k].reopened
    ensures Justified(records, scans[k := s])
  {
    forall r | 0 <= r < |records| && records[r].used && records[r].terminating
      ensures Cascaded(scans[k := s], records[r].key)
    {
      var j :| 0 <= j < |scans| && scans[j].key == records[r].key && !scans[j].reopened;
      assert scans[k := s][j].key == scans[j].key;
    }
  }

  // ---------------------------------------------------------------- one process changes

  /** Nothing a scan has established about slot i is lost when it becomes p. */
  ghost predicate ScansAllow(scans: seq<Scan>, was: Proc, i: nat, p: Proc) {
    forall k :: 0 <= k < |scans| ==>
      var s := scans[k];
      && Owns(p, s.key)
      && (s.next < NPROC && s.caller == i ==> p.state == was.state && p.pid == was.pid)
      && (!s.reopened && p.key == s.key && p.state != Unused ==>
            p.killed || (was.state != Unused && was.key == p.key && was.pid == p.pid && !was.killed))
  }

  lemma ScansAfter(scans: seq<Scan>, records: seq<Record>, procs: seq<Proc>, generations: nat, i: nat, p: Proc,
                   records': seq<Record>, generations': nat)
    requires |procs| == NPROC && i < NPROC && ScansOk(scans, records, procs, generations)
    requires ScansAllow(scans, procs[i], i, p)
    requires generations <= generations'
    requires forall k :: 0 <= k < |scans| && !scans[k].reopened && Active(records', scans[k].key) ==>
               Active(records, scans[k].key)
    ensures ScansOk(scans, records', procs[i := p], generations')
  {
    var procs' := procs[i := p];
    forall k | 0 <= k < |scans|
      ensures ScanOk(scans[k], records', procs', generations')
    {
      var s := scans[k];
      assert ScanOk(s, records, procs, generations);
      forall j | 0 <= j < NPROC
        ensures Owns(procs'[j], s.key)
      {
      }
    }
  }

  lemma IdentifiedAfter(procs: seq<Proc>, nextPid: nat, generations: nat, i: nat, p: Proc, nextPid': nat,
                        generations': nat)
    requires Identified(procs, nextPid, generations) && i < NPROC && nextPid <= nextPid' && generations <= generations'
    requires WellFormed(p, nextPid', generations')
    requires p.state != Unused ==> (p.pid == procs[i].pid && procs[i].state != Unused) || p.pid >= nextPid
    requires p.identity == 0 || p.identity == procs[i].identity || p.identity > generations
    requires Owns(p, p.key)
    requires forall j :: 0 <= j < NPROC && j != i ==> Owns(p, procs[j].key) && Owns(procs[j], p.key)
    ensures Identified(procs[i := p], nextPid', generations')
  {
    var procs' := procs[i := p];
    forall j | 0 <= j < NPROC
      ensures WellFormed(procs'[j], nextPid', generations')
    {
      assert WellFormed(procs[j], nextPid, generations);
    }
    hide WellFormed;
    forall j, k | 0 <= j < NPROC && 0 <= k < NPROC
      ensures Owns(procs'[j], procs'[k].key)
    {
      assert Owns(procs[j], procs[k].key);
    }
    hide Owns;
    assert forall j :: 0 <= j < NPROC ==>
             procs[j].identity <= generations && (procs[j].state != Unused ==> procs[j].pid < nextPid) by {
      Bounds(procs, nextPid, generations);
    }
  }

  lemma Bounds(procs: seq<Proc>, nextPid: nat, generations: nat)
    requires Identified(procs, nextPid, generations)
    ensures forall j :: 0 <= j < NPROC ==>
              && procs[j].identity <= generations && procs[j].key.generation <= generations
              && (procs[j].state != Unused ==> procs[j].pid < nextPid)
  {
    forall j | 0 <= j < NPROC
      ensures procs[j].identity <= generations && procs[j].key.generation <= generations
      ensures (procs[j].state != Unused ==> procs[j].pid < nextPid)
    {
      assert WellFormed(procs[j], nextPid, generations);
    }
  }

  /** A process that neither joins nor leaves leaves every record as it was. */
  lemma CountedAfter(records: seq<Record>, procs: seq<Proc>, i: nat, p: Proc)
    requires Counted(records, procs) && i < NPROC
    requires p.registered == procs[i].registered && (p.registered ==> p.key == procs[i].key)
    ensures Counted(records, procs[i := p])
  {
    forall r | 0 <= r < WORKFLOW_MAX && records[r].used
      ensures Members(procs[i := p], records[r].key) == Members(procs, records[r].key)
    {
      MembersUpdate(procs, i, p, records[r].key);
    }
    hide Members;
  }

  lemma CountedJoin(records: seq<Record>, procs: seq<Proc>, i: nat, p: Proc, r: nat)
    requires Counted(records, procs) && i < NPROC && r < WORKFLOW_MAX && records[r].used
    requires !procs[i].registered && p.registered && p.key == records[r].key
    ensures records[r].members < MEMBER_MAX
    ensures Counted(records[r := records[r].(members := records[r].members + 1)], procs[i := p])
  {
    MembersBelow(procs, i, p.key);
    forall q | 0 <= q < WORKFLOW_MAX && records[q].used
      ensures Members(procs[i := p], records[q].key) == Members(procs, records[q].key) + if q == r then 1 else 0
    {
      MembersUpdate(procs, i, p, records[q].key);
    }
    hide Members;
    JoinedHaveRecord(records, procs, i, p, r);
  }

  lemma JoinedHaveRecord(records: seq<Record>, procs: seq<Proc>, i: nat, p: Proc, r: nat)
    requires Counted(records, procs) && i < NPROC && r < WORKFLOW_MAX && records[r].used && p.key == records[r].key
    ensures var records' := records[r := records[r].(members := records[r].members + 1)];
      var procs' := procs[i := p];
      forall j :: 0 <= j < NPROC && procs'[j].registered ==> HasRecord(records', procs'[j].key)
  {
    var records' := records[r := records[r].(members := records[r].members + 1)];
    var procs' := procs[i := p];
    forall j | 0 <= j < NPROC && procs'[j].registered
      ensures HasRecord(records', procs'[j].key)
    {
      if j == i {
        assert records'[r].used;
      } else {
        var q :| 0 <= q < WORKFLOW_MAX && records[q].used && records[q].key == procs[j].key;
        assert records'[q].used;
      }
    }
  }

  lemma CountedCreate(records: seq<Record>, procs: seq<Proc>, i: nat, p: Proc, r: nat)
    requires Counted(records, procs) && i < NPROC && r < WORKFLOW_MAX && !records[r].used
    requires !procs[i].registered && p.registered && p.key.Named()
    requires forall q :: 0 <= q < WORKFLOW_MAX && records[q].used ==> records[q].key != p.key
    ensures Counted(records[r := Record(true, p.key, false, 1)], procs[i := p])
  {
    var records' := records[r := Record(true, p.key, false, 1)];
    var procs' := procs[i := p];
    NoMembers(procs, p.key);
    forall q | 0 <= q < WORKFLOW_MAX && records'[q].used
      ensures records'[q].members == Members(procs[i := p], records'[q].key) > 0
    {
      MembersUpdate(procs, i, p, records'[q].key);
    }
    hide Members;
    forall j | 0 <= j < NPROC && procs'[j].registered
      ensures HasRecord(records', procs'[j].key)
    {
      if j == i {
        assert records'[r].used;
      } else {
        var q :| 0 <= q < WORKFLOW_MAX && records[q].used && records[q].key == procs[j].key;
        assert records'[q].used;
      }
    }
  }

  lemma {:induction false} NoMembers(procs: seq<Proc>, key: Key)
    requires forall j :: 0 <= j < |procs| ==> !Member(procs[j], key)
    ensures Members(procs, key) == 0
  {
    if procs != [] {
      NoMembers(procs[..|procs| - 1], key);
    }
  }

  lemma CountedLeave(records: seq<Record>, procs: seq<Proc>, i: nat, r: nat)
    requires Counted(records, procs) && i < NPROC && r < WORKFLOW_MAX && records[r].used
    requires procs[i].registered && procs[i].key == records[r].key
    ensures records[r].members > 0
    ensures var m := records[r].members - 1;
            Counted(records[r := if m <= 0 then NO_RECORD else records[r].(members := m)],
                    procs[i := procs[i].(registered := false)])
  {
    var p := procs[i].(registered := false);
    var procs' := procs[i := p];
    var m := records[r].members - 1;
    var records' := records[r := if m <= 0 then NO_RECORD else records[r].(members := m)];
    forall q | 0 <= q < WORKFLOW_MAX && records[q].used
      ensures Members(procs[i := p], records[q].key) == Members(procs, records[q].key) - if q == r then 1 else 0
    {
      MembersUpdate(procs, i, p, records[q].key);
    }
    forall j | 0 <= j < NPROC && procs'[j].registered
      ensures HasRecord(records', procs'[j].key)
    {
      var q :| 0 <= q < WORKFLOW_MAX && records[q].used && records[q].key == procs[j].key;
      if q == r {
        MembersBelow(procs[i := p], j, procs[j].key);
      }
      assert records'[q].used;
    }
    hide Members;
  }

  lemma IdentifiedSame(procs: seq<Proc>, nextPid: nat, generations: nat, i: nat, p: Proc)
    requires Identified(procs, nextPid, generations) && i < NPROC && WellFormed(p, nextPid, generations)
    requires p.state != Unused ==> procs[i].state != Unused
    requires p.pid == procs[i].pid && p.identity == procs[i].identity && p.key == procs[i].key
    ensures Identified(procs[i := p], nextPid, generations)
  {
    hide WellFormed;
    forall j | 0 <= j < NPROC
      ensures Owns(p, procs[j].key) && Owns(procs[j], p.key) && Owns(p, p.key)
    {
      assert Owns(procs[i], procs[j].key) && Owns(procs[j], procs[i].key) && Owns(procs[i], procs[i].key);
    }
    IdentifiedAfter(procs, nextPid, generations, i, p, nextPid, generations);
  }

  /** A slot without key or identity disturbs nobody. */
  lemma IdentifiedBlank(procs: seq<Proc>, nextPid: nat, generations: nat, i: nat, p: Proc, nextPid': nat)
    requires Identified(procs, nextPid, generations) && i < NPROC && nextPid <= nextPid'
    requires WellFormed(p, nextPid', generations)
    requires p.state != Unused ==> p.pid >= nextPid
    requires p.key == NO_KEY && p.identity == 0
    ensures Identified(procs[i := p], nextPid', generations)
  {
    IdentifiedAfter(procs, nextPid, generations, i, p, nextPid', generations);
  }

  lemma ScansSame(scans: seq<Scan>, records: seq<Record>, procs: seq<Proc>, generations: nat, i: nat, p: Proc)
    requires |procs| == NPROC && i < NPROC && ScansOk(scans, records, procs, generations)
    requires p.state == procs[i].state && p.pid == procs[i].pid && p.identity == procs[i].identity
    requires p.key == procs[i].key
    requires procs[i].killed ==> p.killed
    ensures ScansAllow(scans, procs[i], i, p)
  {
    forall k | 0 <= k < |scans|
      ensures Owns(p, scans[k].key)
    {
      assert ScanOk(scans[k], records, procs, generations);
    }
  }

  lemma ScansBlank(scans: seq<Scan>, records: seq<Record>, procs: seq<Proc>, generations: nat, i: nat, p: Proc)
    requires |procs| == NPROC && i < NPROC && ScansOk(scans, records, procs, generations)
    requires p.key == NO_KEY && p.identity == 0 && procs[i].state != Alive
    ensures ScansAllow(scans, procs[i], i, p)
  {
    forall k | 0 <= k < |scans|
      ensures scans[k].key.Named() && !(scans[k].next < NPROC && scans[k].caller == i)
    {
      assert ScanOk(scans[k], records, procs, generations);
    }
  }

  lemma Shape(procs: seq<Proc>, records: seq<Record>, nextPid: nat, generations: nat)
    requires Identified(procs, nextPid, generations) && Counted(records, procs)
    ensures |procs| == NPROC && |records| == WORKFLOW_MAX
    ensures forall i :: 0 <= i < NPROC ==> WellFormed(procs[i], nextPid, generations)
    ensures forall r, q :: 0 <= r < q < WORKFLOW_MAX && records[r].used && records[q].used ==>
              records[r].key != records[q].key
  {
  }

  lemma ForkedIdentified(procs: seq<Proc>, nextPid: nat, generations: nat, c: nat, parent: nat, child: Proc)
    requires Identified(procs, nextPid, generations) && c < NPROC && parent < NPROC
    requires WellFormed(child, nextPid, generations + 1) && child.pid == procs[c].pid && child.state == procs[c].state
    requires child.identity == generations + 1 && child.key == procs[parent].key
    ensures Identified(procs[c := child], nextPid, generations + 1)
  {
    Bounds(procs, nextPid, generations);
    IdentifiedAfter(procs, nextPid, generations, c, child, nextPid, generations + 1);
  }

  lemma ForkedScans(scans: seq<Scan>, records: seq<Record>, procs: seq<Proc>, generations: nat, c: nat, child: Proc)
    requires |procs| == NPROC && c < NPROC && ScansOk(scans, records, procs, generations)
    requires child.identity == generations + 1 && child.state == procs[c].state && child.pid == procs[c].pid
    requires child.killed || child.key == NO_KEY || Active(records, child.key)
    ensures ScansAllow(scans, procs[c], c, child)
  {
    forall k | 0 <= k < |scans|
      ensures Owns(child, scans[k].key) && (!scans[k].reopened && child.key == scans[k].key ==> child.killed)
    {
      assert ScanOk(scans[k], records, procs, generations);
    }
  }

  /** One more member does not change which workflows there are, or which are open. */
  lemma JoinActive(records: seq<Record>, r: nat)
    ensures r < |records| ==>
              var records' := records[r := records[r].(members := records[r].members + 1)];
              forall key ::
                && (HasRecord(records', key) <==> HasRecord(records, key))
                && (Active(records', key) <==> Active(records, key))
  {
    if r < |records| {
      hide Active, HasRecord;
      var rec := records[r].(members := records[r].members + 1);
      forall key
        ensures HasRecord(records[r := rec], key) <==> HasRecord(records, key)
        ensures Active(records[r := rec], key) <==> Active(records, key)
      {
        RecordKept(records, r, rec, key);
      }
    }
  }

  lemma SameActive(a: seq<Record>, b: seq<Record>, key: Key)
    requires |a| == |b|
    requires forall r :: 0 <= r < |a| && a[r].used && a[r].key == key && !a[r].terminating ==>
               b[r].used && b[r].key == key && !b[r].terminating
    ensures Active(a, key) ==> Active(b, key)
  {
  }

  lemma ScansMoved(scans: seq<Scan>, records: seq<Record>, procs: seq<Proc>, generations: nat, i: nat, p: Proc)
    requires |procs| == NPROC && i < NPROC && ScansOk(scans, records, procs, generations)
    requires p.pid == procs[i].pid && p.identity == procs[i].identity && p.key == procs[i].key
    requires procs[i].state != Unused && (procs[i].killed ==> p.killed)
    requires procs[i].state == Alive ==> forall k :: 0 <= k < |scans| && scans[k].next < NPROC ==> scans[k].caller != i
    ensures ScansAllow(scans, procs[i], i, p)
  {
    forall k | 0 <= k < |scans|
      ensures Owns(p, scans[k].key) && (scans[k].next < NPROC && scans[k].caller == i ==> procs[i].state == Alive)
    {
      assert ScanOk(scans[k], records, procs, generations);
    }
  }

  lemma HasOwnRecord(records: seq<Record>, procs: seq<Proc>, i: nat)
    requires Counted(records, procs) && i < NPROC && procs[i].registered
    ensures HasRecord(records, procs[i].key)
  {
  }

  /** A leave takes away the record of the workflow that has no member left, and changes nothing else. */
  lemma LeaveActive(records: seq<Record>, procs: seq<Proc>, i: nat, r: nat, rec: Record)
    requires Counted(records, procs) && i < NPROC && r < WORKFLOW_MAX && records[r].used
    requires procs[i].registered && procs[i].key == records[r].key
    requires rec == if records[r].members <= 1 then NO_RECORD else records[r].(members := records[r].members - 1)
    ensures var records', procs' := records[r := rec], procs[i := procs[i].(registered := false)];
            && (forall key :: HasRecord(records', key) <==>
                  HasRecord(records, key) && (key == procs[i].key ==> Members(procs', key) > 0))
            && (forall key :: Active(records', key) <==> Active(records, key) && HasRecord(records', key))
  {
    MembersUpdate(procs, i, procs[i].(registered := false), records[r].key);
    var procs' := procs[i := procs[i].(registered := false)];
    assert rec == NO_RECORD <==> Members(procs', records[r].key) == 0;
    hide Members, Active, HasRecord;
    forall key
      ensures HasRecord(records[r := rec], key) <==>
                HasRecord(records, key) && (key == procs[i].key ==> Members(procs', key) > 0)
      ensures Active(records[r := rec], key) <==> Active(records, key) && HasRecord(records[r := rec], key)
    {
      ActiveHasRecord(records, key);
      if rec == NO_RECORD {
        RecordDropped(records, r, key);
      } else {
        RecordKept(records, r, rec, key);
      }
    }
  }

  lemma ActiveHasRecord(records: seq<Record>, key: Key)
    ensures Active(records, key) ==> HasRecord(records, key)
  {
  }

  lemma RecordDropped(records: seq<Record>, r: nat, key: Key)
    requires r < |records| && records[r].used
    requires forall q :: 0 <= q < |records| && q != r && records[q].used ==> records[q].key != records[r].key
    ensures HasRecord(records[r := NO_RECORD], key) <==> HasRecord(records, key) && key != records[r].key
    ensures Active(records[r := NO_RECORD], key) <==> Active(records, key) && key != records[r].key
  {
    var records' := records[r := NO_RECORD];
    if HasRecord(records, key) && key != records[r].key {
      var q :| 0 <= q < |records| && records[q].used && records[q].key == key;
      assert records'[q].used;
    }
    if key != records[r].key {
      SameActive(records, records', key);
    }
  }

  lemma RecordIffMembers(records: seq<Record>, procs: seq<Proc>, key: Key)
    requires Counted(records, procs)
    ensures HasRecord(records, key) <==> Members(procs, key) > 0
  {
    if Members(procs, key) > 0 && !HasRecord(records, key) {
      NoMembers(procs, key);
    }
  }

  lemma OpenedAlready(records: seq<Record>, records': seq<Record>, key: Key)
    requires SameWorkflows(records, records') && HasRecord(records, key)
    ensures Opened(records, records', {key})
  {
  }

  /** Only the number of members differs. */
  lemma RecordKept(records: seq<Record>, r: nat, rec: Record, key: Key)
    requires r < |records| && rec == records[r].(members := rec.members)
    ensures HasRecord(records[r := rec], key) <==> HasRecord(records, key)
    ensures Active(records[r := rec], key) <==> Active(records, key)
  {
    var records' := records[r := rec];
    SameActive(records, records', key);
    SameActive(records', records, key);
    if HasRecord(records, key) {
      var q :| 0 <= q < |records| && records[q].used && records[q].key == key;
      assert records'[q].used;
    }
  }

  /** A record for a workflow that had none. */
  lemma RecordAdded(records: seq<Record>, r: nat, key: Key)
    requires r < |records| && !records[r].used && !HasRecord(records, key)
    ensures var records' := records[r := Record(true, key, false, 1)];
            && (forall k :: HasRecord(records', k) <==> HasRecord(records, k) || k == key)
            && (forall k :: Active(records', k) <==> Active(records, k) || k == key)
  {
    var records' := records[r := Record(true, key, false, 1)];
    assert records'[r].used;
    forall k
      ensures HasRecord(records', k) <==> HasRecord(records, k) || k == key
      ensures Active(records', k) <==> Active(records, k) || k == key
    {
      SameActive(records, records', k);
      if HasRecord(records, k) {
        var q :| 0 <= q < |records| && records[q].used && records[q].key == k;
        assert records'[q].used;
      }
      if k != key {
        SameActive(records', records, k);
      }
    }
  }

  /** A process that becomes a leader owns its key already, or nobody has seen it. */
  lemma LeaderIdentified(procs: seq<Proc>, nextPid: nat, generations: nat, i: nat, p: Proc, generations': nat)
    requires Identified(procs, nextPid, generations) && i < NPROC && generations <= generations'
    requires WellFormed(p, nextPid, generations') && p.state == procs[i].state != Unused && p.pid == procs[i].pid
    requires p.identity != 0 && p.key == Key(p.pid, p.identity)
    requires p.identity == procs[i].identity || p.identity > generations
    ensures Identified(procs[i := p], nextPid, generations')
  {
    Bounds(procs, nextPid, generations);
    forall j | 0 <= j < NPROC && j != i
      ensures Owns(p, procs[j].key) && Owns(procs[j], p.key)
    {
      assert Owns(procs[i], procs[j].key);
    }
    IdentifiedAfter(procs, nextPid, generations, i, p, nextPid, generations');
  }

  lemma LeaderScans(scans: seq<Scan>, records: seq<Record>, procs: seq<Proc>, generations: nat, i: nat, p: Proc)
    requires |procs| == NPROC && i < NPROC && ScansOk(scans, records, procs, generations)
    requires p.state == procs[i].state == Alive && p.pid == procs[i].pid && p.killed == procs[i].killed
    requires p.identity != 0 && p.key == Key(p.pid, p.identity)
    requires p.identity == procs[i].identity || p.identity > generations
    ensures ScansAllow(scans, procs[i], i, p)
    ensures forall k :: 0 <= k < |scans| && scans[k].key == p.key ==> procs[i].key == p.key
  {
    forall k | 0 <= k < |scans|
      ensures Owns(p, scans[k].key) && (scans[k].key == p.key ==> procs[i].key == p.key)
    {
      assert ScanOk(scans[k], records, procs, generations);
      assert Owns(procs[i], scans[k].key);
    }
  }

  lemma ScansRegistered(scans: seq<Scan>, was: Proc, i: nat, p: Proc, q: Proc)
    requires ScansAllow(scans, was, i, p) && q == p.(registered := q.registered)
    ensures ScansAllow(scans, was, i, q)
  {
    forall k | 0 <= k < |scans|
      ensures Owns(q, scans[k].key)
    {
      assert Owns(p, scans[k].key);
    }
  }

  /** A new active record with this key reopens its workflow. */
  function Reopened(scans: seq<Scan>, key: Key): (r: seq<Scan>)
    ensures |r| == |scans|
    ensures forall k :: 0 <= k < |scans| ==>
              r[k] == if scans[k].key == key then scans[k].(reopened := true) else scans[k]
  {
    seq(|scans|, k requires 0 <= k < |scans| => if scans[k].key == key then scans[k].(reopened := true) else scans[k])
  }

  lemma ScansReopen(scans: seq<Scan>, records: seq<Record>, procs: seq<Proc>, generations: nat, key: Key)
    requires |procs| == NPROC && ScansOk(scans, records, procs, generations)
    ensures ScansOk(Reopened(scans, key), records, procs, generations)
    ensures forall was, i, p :: ScansAllow(scans, was, i, p) ==> ScansAllow(Reopened(scans, key), was, i, p)
  {
    var scans' := Reopened(scans, key);
    forall k | 0 <= k < |scans|
      ensures ScanOk(scans'[k], records, procs, generations)
    {
      assert ScanOk(scans[k], records, procs, generations);
    }
    forall was, i, p | ScansAllow(scans, was, i, p)
      ensures ScansAllow(scans', was, i, p)
    {
      forall k | 0 <= k < |scans|
        ensures Owns(p, scans'[k].key)
      {
        assert Owns(p, scans[k].key);
      }
    }
  }

  lemma CreateActive(scans: seq<Scan>, records: seq<Record>, r: nat, key: Key)
    requires r < |records| && !records[r].used
    ensures var scans' := Reopened(scans, key);
      forall k :: 0 <= k < |scans'| && !scans'[k].reopened ==>
        (Active(records[r := Record(true, key, false, 1)], scans'[k].key) ==> Active(records, scans'[k].key))
  {
    var scans', records' := Reopened(scans, key), records[r := Record(true, key, false, 1)];
    forall k | 0 <= k < |scans'| && !scans'[k].reopened && Active(records', scans'[k].key)
      ensures Active(records, scans'[k].key)
    {
      SameActive(records', records, scans'[k].key);
    }
  }

  lemma WorkerKeeps(procs: seq<Proc>, nextPid: nat, generations: nat, i: nat, p: Proc, generations': nat)
    requires Identified(procs, nextPid, generations) && i < NPROC && generations <= generations'
    requires WellFormed(p, nextPid, generations') && p.state == procs[i].state != Unused && p.pid == procs[i].pid
    requires p.key == procs[i].key
    requires p.identity == procs[i].identity || (procs[i].identity == 0 && p.identity > generations)
    ensures Identified(procs[i := p], nextPid, generations')
  {
    Bounds(procs, nextPid, generations);
    forall j | 0 <= j < NPROC
      ensures Owns(p, procs[j].key) && Owns(procs[j], p.key) && Owns(p, p.key)
    {
      assert Owns(procs[i], procs[j].key) && Owns(procs[j], procs[i].key) && Owns(procs[i], procs[i].key);
    }
    IdentifiedAfter(procs, nextPid, generations, i, p, nextPid, generations');
  }

  lemma WorkerScans(scans: seq<Scan>, records: seq<Record>, procs: seq<Proc>, generations: nat, i: nat, p: Proc)
    requires |procs| == NPROC && i < NPROC && ScansOk(scans, records, procs, generations)
    requires p.state == procs[i].state == Alive && p.pid == procs[i].pid && p.killed == procs[i].killed
    requires p.key == procs[i].key
    requires p.identity == procs[i].identity || p.identity > generations
    ensures ScansAllow(scans, procs[i], i, p)
  {
    forall k | 0 <= k < |scans|
      ensures Owns(p, scans[k].key)
    {
      assert ScanOk(scans[k], records, procs, generations);
      assert Owns(procs[i], scans[k].key);
    }
  }

  lemma ClosedCounted(records: seq<Record>, procs: seq<Proc>, r: nat)
    requires Counted(records, procs) && r < WORKFLOW_MAX && records[r].used
    ensures Counted(records[r := records[r].(terminating := true)], procs)
  {
    hide Members;
    var records' := records[r := records[r].(terminating := true)];
    forall i | 0 <= i < NPROC && procs[i].registered
      ensures HasRecord(records', procs[i].key)
    {
      var q :| 0 <= q < WORKFLOW_MAX && records[q].used && records[q].key == procs[i].key;
      assert records'[q].used;
    }
  }

  /** Marking the record of key TERMINATING closes that workflow and no other. */
  lemma Closed(records: seq<Record>, r: nat, key: Key)
    requires |records| == WORKFLOW_MAX && r <= WORKFLOW_MAX
    requires r < WORKFLOW_MAX ==> records[r].used && records[r].key == key
    requires r == WORKFLOW_MAX <==> !HasRecord(records, key)
    requires forall p, q :: 0 <= p < q < WORKFLOW_MAX && records[p].used && records[q].used ==>
               records[p].key != records[q].key
    ensures var records' := if r < WORKFLOW_MAX then records[r := records[r].(terminating := true)] else records;
            && (forall k :: Active(records', k) <==> Active(records, k) && k != key)
            && (forall k :: HasRecord(records', k) <==> HasRecord(records, k))
  {
    var records' := if r < WORKFLOW_MAX then records[r := records[r].(terminating := true)] else records;
    forall k
      ensures Active(records', k) <==> Active(records, k) && k != key
      ensures HasRecord(records', k) <==> HasRecord(records, k)
    {
      SameActive(records', records, k);
      if k != key {
        SameActive(records, records', k);
      }
      if HasRecord(records, k) {
        var q :| 0 <= q < WORKFLOW_MAX && records[q].used && records[q].key == k;
        assert records'[q].used;
      }
    }
  }

  lemma ScanBegins(scans: seq<Scan>, records: seq<Record>, records': seq<Record>, procs: seq<Proc>, nextPid: nat,
                   generations: nat, s: Scan)
    requires Identified(procs, nextPid, generations) && ScansOk(scans, records, procs, generations)
    requires forall key :: Active(records', key) ==> Active(records, key)
    requires s.caller < NPROC && s.next == 0 && s.key.Named() && !Active(records', s.key)
    requires procs[s.caller].state == Alive && procs[s.caller].pid == s.pid && procs[s.caller].key == s.key
    ensures ScansOk(scans + [s], records', procs, generations)
  {
    hide Active;
    Bounds(procs, nextPid, generations);
    forall k | 0 <= k < |scans|
      ensures ScanOk(scans[k], records', procs, generations)
    {
      assert ScanOk(scans[k], records, procs, generations);
    }
  }

  lemma ScanAt(scans: seq<Scan>, records: seq<Record>, procs: seq<Proc>, generations: nat, k: nat)
    requires |procs| == NPROC && ScansOk(scans, records, procs, generations) && k < |scans| && scans[k].next < NPROC
    ensures scans[k].caller < NPROC && procs[scans[k].caller].pid == scans[k].pid && scans[k].key.Named()
  {
    assert ScanOk(scans[k], records, procs, generations);
  }

  lemma ScanMoves(scans: seq<Scan>, records: seq<Record>, procs: seq<Proc>, generations: nat, k: nat)
    requires |procs| == NPROC && ScansOk(scans, records, procs, generations) && k < |scans| && scans[k].next < NPROC
    requires var p := procs[scans[k].next];
             p.state != Unused && p.key == scans[k].key && !Spared(scans[k], p) ==> p.killed
    ensures ScansOk(scans[k := scans[k].(next := scans[k].next + 1)], records, procs, generations)
  {
    hide Active;
    var scans' := scans[k := scans[k].(next := scans[k].next + 1)];
    forall j | 0 <= j < |scans|
      ensures ScanOk(scans'[j], records, procs, generations)
    {
      assert ScanOk(scans[j], records, procs, generations);
    }
  }

  lemma ZombieLeft(procs: seq<Proc>, nextPid: nat, generations: nat, i: nat)
    requires Identified(procs, nextPid, generations) && i < NPROC && procs[i].state == Zombie
    ensures !procs[i].registered
  {
    assert WellFormed(procs[i], nextPid, generations);
  }

  // ---------------------------------------------------------------- the kernel

  class Kernel {
    var procs: seq<Proc>
    var records: seq<Record>
    var nextPid: nat
    var generations: nat
    /** Every cascade begun so far; a running one has next < NPROC. */
    var scans: seq<Scan>

    ghost predicate Valid()
      reads this
    {
      && Identified(procs, nextPid, generations) && Counted(records, procs)
      && ScansOk(scans, records, procs, generations) && Justified(records, scans) && nextPid > 0
    }

    constructor ()
      ensures Valid() && scans == [] && records == seq(WORKFLOW_MAX, r => NO_RECORD) && procs == seq(NPROC, i => BLANK)
    {
      procs, records, nextPid, generations, scans := seq(NPROC, i => BLANK), seq(WORKFLOW_MAX, r => NO_RECORD), 1, 0,
        [];
    }

    /** agent_workflow_find_locked; WORKFLOW_MAX when there is no such record. */
    method Find(key: Key) returns (r: nat)
      requires |records| == WORKFLOW_MAX
      ensures r <= WORKFLOW_MAX && (r < WORKFLOW_MAX ==> records[r].used && records[r].key == key)
      ensures r == WORKFLOW_MAX <==> !HasRecord(records, key)
    {
      r := 0;
      while r < WORKFLOW_MAX
        invariant r <= WORKFLOW_MAX
        invariant forall q :: 0 <= q < r ==> !(records[q].used && records[q].key == key)
      {
        if records[r].used && records[r].key == key {
          return;
        }
        r := r + 1;
      }
    }

    /** A process changes fields that neither membership nor a cascade depends on. */
    method Set(i: nat, p: Proc, ghost nextPid': nat, ghost generations': nat)
      requires Valid() && |procs| == NPROC && i < NPROC
      requires p.registered == procs[i].registered && (p.registered ==> p.key == procs[i].key)
      requires ScansAllow(scans, procs[i], i, p)
      requires Identified(procs[i := p], nextPid', generations') && generations <= generations'
      modifies this`procs
      ensures procs == old(procs)[i := p] && Counted(records, procs) && ScansOk(scans, records, procs, generations')
    {
      hide Counted, Identified, ScansOk, ScansAllow;
      CountedAfter(records, procs, i, p);
      ScansAfter(scans, records, procs, generations, i, p, records, generations');
      procs := procs[i := p];
    }

    /** kill. */
    method Kill(i: nat)
      requires Valid() && i < NPROC && procs[i].state != Unused && !procs[i].locked
      modifies this`procs
      ensures Valid() && procs == old(procs)[i := old(procs)[i].(killed := true)]
    {
      IdentifiedSame(procs, nextPid, generations, i, procs[i].(killed := true));
      ScansSame(scans, records, procs, generations, i, procs[i].(killed := true));
      Set(i, procs[i].(killed := true), nextPid, generations);
    }

    /** allocproc on behalf of fork: the child's slot stays locked. */
    method ForkBegin() returns (c: nat)
      requires Valid()
      modifies this`procs, this`nextPid
      ensures Valid() && c <= NPROC
      ensures nextPid == old(nextPid) + if c < NPROC then 1 else 0
      ensures c == NPROC ==> procs == old(procs) && forall i :: 0 <= i < NPROC ==> procs[i].state != Unused
      ensures c < NPROC ==>
                && old(procs)[c].state == Unused
                && procs == old(procs)[c := BLANK.(state := Embryo, locked := true, pid := old(nextPid))]
    {
      c := 0;
      while c < NPROC && procs[c].state != Unused
        invariant c <= NPROC
        invariant forall i :: 0 <= i < c ==> procs[i].state != Unused
      {
        c := c + 1;
      }
      if c < NPROC {
        var p := BLANK.(state := Embryo, locked := true, pid := nextPid);
        IdentifiedBlank(procs, nextPid, generations, c, p, nextPid + 1);
        ScansBlank(scans, records, procs, generations, c, p);
        Set(c, p, nextPid + 1, generations);
        nextPid := nextPid + 1;
      }
    }

    /** fork gives up: freeproc. */
    method ForkFail(c: nat)
      requires Valid() && c < NPROC && procs[c].locked && procs[c].identity == 0 && !procs[c].registered
      modifies this`procs
      ensures Valid() && procs == old(procs)[c := BLANK]
    {
      Clear(c);
    }

    method Clear(c: nat)
      requires Valid() && c < NPROC && procs[c].state in {Embryo, Zombie} && !procs[c].registered
      modifies this`procs
      ensures Valid() && procs == old(procs)[c := BLANK]
    {
      IdentifiedBlank(procs, nextPid, generations, c, BLANK, nextPid);
      ScansBlank(scans, records, procs, generations, c, BLANK);
      Set(c, BLANK, nextPid, generations);
    }

    /** agent_after_fork: the child takes its parent's key and joins the workflow exactly when it
      * is open; otherwise it is born killed. */
    method ForkJoin(c: nat, parent: nat)
      requires Valid() && c < NPROC && parent < NPROC
      requires procs[c].locked && procs[c].identity == 0 && procs[c].key == NO_KEY && !procs[c].registered
      requires procs[parent].state == Alive
      modifies this`procs, this`records, this`generations
      ensures Valid() && generations == old(generations) + 1
      ensures var was, src := old(procs)[c], old(procs)[parent];
              var open := src.key.Named() && Active(old(records), src.key);
              procs == old(procs)[c := was.(agent := src.agent, identity := generations, key := src.key,
                                            leader := false, registered := open,
                                            killed := was.killed || (src.key.Named() && !open))]
      ensures SameWorkflows(old(records), records)
    {
      hide Counted, Identified, ScansOk, ScansAllow, Justified;
      Shape(procs, records, nextPid, generations);
      var src := procs[parent];
      var child := procs[c].(agent := src.agent, identity := generations + 1, key := src.key, leader := false,
                             registered := false);
      var r := WORKFLOW_MAX;
      if src.key.id != 0 && src.key.generation != 0 {
        r := Find(src.key);
        if r == WORKFLOW_MAX || records[r].terminating {
          child := child.(killed := true);
        } else {
          CountedJoin(records, procs, c, child.(registered := true), r);
          if records[r].members >= MEMBER_MAX {
            assert false;
          } else {
            child := child.(registered := true);
          }
        }
      }
      ForkedIdentified(procs, nextPid, generations, c, parent, child);
      ForkedScans(scans, records, procs, generations, c, child);
      JoinActive(records, r);
      if child.registered {
        ScansAfter(scans, records, procs, generations, c, child,
                   records[r := records[r].(members := records[r].members + 1)], generations + 1);
        JustifiedRecord(records, scans, r, records[r].(members := records[r].members + 1));
        records := records[r := records[r].(members := records[r].members + 1)];
      } else {
        CountedAfter(records, procs, c, child);
        ScansAfter(scans, records, procs, generations, c, child, records, generations + 1);
      }
      procs := procs[c := child];
      generations := generations + 1;
    }

    /** fork lets go of the child's slot, and later makes it runnable. */
    method ForkEnd(c: nat)
      requires Valid() && c < NPROC && procs[c].locked
      modifies this`procs
      ensures Valid() && procs == old(procs)[c := old(procs)[c].(locked := false)]
    {
      IdentifiedSame(procs, nextPid, generations, c, procs[c].(locked := false));
      ScansSame(scans, records, procs, generations, c, procs[c].(locked := false));
      Set(c, procs[c].(locked := false), nextPid, generations);
    }

    method Start(c: nat)
      requires Valid() && c < NPROC && procs[c].state == Embryo && !procs[c].locked
      modifies this`procs
      ensures Valid() && procs == old(procs)[c := old(procs)[c].(state := Alive)]
    {
      IdentifiedSame(procs, nextPid, generations, c, procs[c].(state := Alive));
      ScansMoved(scans, records, procs, generations, c, procs[c].(state := Alive));
      Set(c, procs[c].(state := Alive), nextPid, generations);
    }

    /** agent_workflow_leave: the record goes with its last member; for those who stay, and for every other
      * workflow, nothing changes. */
    method Leave(i: nat)
      requires Valid() && i < NPROC && procs[i].state == Alive
      modifies this`procs, this`records
      ensures Valid() && procs == old(procs)[i := old(procs)[i].(registered := false)]
      ensures var p := old(procs)[i];
              forall key :: HasRecord(records, key) <==>
                HasRecord(old(records), key) && (p.registered && key == p.key ==> Members(procs, key) > 0)
      ensures forall key :: Active(records, key) <==> Active(old(records), key) && HasRecord(records, key)
    {
      var p := procs[i];
      if !p.registered || p.key.id == 0 || p.key.generation == 0 {
        return;
      }
      hide Counted, Identified, ScansOk, ScansAllow, Members, Justified, Active, HasRecord;
      Shape(procs, records, nextPid, generations);
      HasOwnRecord(records, procs, i);
      var r := Find(p.key);
      CountedLeave(records, procs, i, r);
      var rec := records[r];
      if rec.members > 0 {
        rec := rec.(members := rec.members - 1);
      }
      if rec.members <= 0 {
        rec := NO_RECORD;
      }
      ghost var records' := records[r := rec];
      LeaveActive(records, procs, i, r, rec);
      JustifiedRecord(records, scans, r, rec);
      IdentifiedSame(procs, nextPid, generations, i, p.(registered := false));
      ScansSame(scans, records, procs, generations, i, p.(registered := false));
      ScansAfter(scans, records, procs, generations, i, p.(registered := false), records', generations);
      records := records[r := rec];
      procs := procs[i := p.(registered := false)];
    }

    /** agent_mark_current for a primary agent that has left its old workflow: it leads its own.
      * It is refused only by its own workflow being closed, or by a full table. */
    method MarkPrimary(i: nat)
      requires Valid() && i < NPROC && procs[i].state == Alive && !procs[i].registered
      modifies this
      ensures Valid() && nextPid == old(nextPid)
      ensures generations == old(generations) + if old(procs)[i].identity == 0 then 1 else 0
      ensures var p := procs[i]; var was := old(procs)[i];
              && procs == old(procs)[i := p]
              && p.identity == (if was.identity == 0 then old(generations) + 1 else was.identity)
              && p == was.(agent := true, identity := p.identity, key := Key(p.pid, p.identity), leader := true,
                           registered := p.registered)
              && (p.registered <==> Admits(old(records), p.key))
      ensures |scans| == |old(scans)| && forall k :: 0 <= k < |scans| ==>
        scans[k] == old(scans)[k] || (scans[k] == old(scans)[k].(reopened := true) && scans[k].key == procs[i].key
                                      && !HasRecord(old(records), procs[i].key) && old(procs)[i].key == procs[i].key)
      ensures Opened(old(records), records, if procs[i].registered then {procs[i].key} else {})
    {
      hide Counted, Identified, ScansOk, ScansAllow, Justified;
      Shape(procs, records, nextPid, generations);
      Bounds(procs, nextPid, generations);
      var identity := if procs[i].identity == 0 then generations + 1 else procs[i].identity;
      var p := procs[i].(agent := true, identity := identity, key := Key(procs[i].pid, identity), leader := true);
      ghost var generations' := if procs[i].identity == 0 then generations + 1 else generations;
      LeaderIdentified(procs, nextPid, generations, i, p, generations');
      LeaderScans(scans, records, procs, generations, i, p);
      Create(i, p, generations');
      if generations < identity {
        generations := identity;
      }
    }

    /** agent_workflow_create_locked for p, the new contents of slot i. */
    method Create(i: nat, p: Proc, ghost generations': nat)
      requires Valid() && |procs| == NPROC && |records| == WORKFLOW_MAX && i < NPROC && !procs[i].registered
      requires !p.registered && p.key.Named() && generations <= generations'
      requires Identified(procs[i := p], nextPid, generations')
      requires WellFormed(p, nextPid, generations') && p.state == Alive
      requires ScansAllow(scans, procs[i], i, p)
      modifies this`procs, this`records, this`scans
      ensures Identified(procs, nextPid, generations') && Counted(records, procs)
      ensures ScansOk(scans, records, procs, generations')
      ensures i < |procs| && procs == old(procs)[i := p.(registered := procs[i].registered)]
      ensures procs[i].registered <==> Admits(old(records), p.key)
      ensures scans == if procs[i].registered && !HasRecord(old(records), p.key)
                       then Reopened(old(scans), p.key) else old(scans)
      ensures Justified(records, scans)
      ensures Opened(old(records), records, if procs[i].registered then {p.key} else {})
    {
      hide Counted, Identified, ScansOk, ScansAllow, Justified;
      Shape(procs, records, nextPid, generations);
      var q := p.(registered := true);
      IdentifiedSame(procs[i := p], nextPid, generations', i, q);
      assert procs[i := p][i := q] == procs[i := q];
      ScansRegistered(scans, procs[i], i, p, q);
      var r := Find(p.key);
      JoinActive(records, r);
      if r < WORKFLOW_MAX {
        if records[r].terminating {
          CountedAfter(records, procs, i, p);
          ScansAfter(scans, records, procs, generations, i, p, records, generations');
          procs := procs[i := p];
          return;
        }
        CountedJoin(records, procs, i, q, r);
        JustifiedRecord(records, scans, r, records[r].(members := records[r].members + 1));
        ScansAfter(scans, records, procs, generations, i, q,
                   records[r := records[r].(members := records[r].members + 1)], generations');
        records := records[r := records[r].(members := records[r].members + 1)];
        procs := procs[i := q];
        return;
      }
      var free := FreeRecord();
      if free == WORKFLOW_MAX {
        CountedAfter(records, procs, i, p);
        ScansAfter(scans, records, procs, generations, i, p, records, generations');
        procs := procs[i := p];
        return;
      }
      CountedCreate(records, procs, i, q, free);
      ScansReopen(scans, records, procs, generations, p.key);
      ScansRegistered(Reopened(scans, p.key), procs[i], i, p, q);
      CreateActive(scans, records, free, p.key);
      RecordAdded(records, free, p.key);
      JustifiedReopen(records, scans, p.key);
      JustifiedRecord(records, Reopened(scans, p.key), free, Record(true, p.key, false, 1));
      ScansAfter(Reopened(scans, p.key), records, procs, generations, i, q,
                 records[free := Record(true, p.key, false, 1)], generations');
      scans := Reopened(scans, p.key);
      records := records[free := Record(true, p.key, false, 1)];
      procs := procs[i := q];
    }

    method FreeRecord() returns (r: nat)
      requires |records| == WORKFLOW_MAX
      ensures r <= WORKFLOW_MAX && (r < WORKFLOW_MAX ==> !records[r].used)
      ensures r == WORKFLOW_MAX <==> forall q :: 0 <= q < WORKFLOW_MAX ==> records[q].used
    {
      r := 0;
      while r < WORKFLOW_MAX && records[r].used
        invariant r <= WORKFLOW_MAX
        invariant forall q :: 0 <= q < r ==> records[q].used
      {
        r := r + 1;
      }
    }

    /** agent_mark_current for any other agent: it joins the workflow it carries, or, carrying
      * none, gets one of its own. */
    method MarkWorker(i: nat) returns (ok: bool)
      requires Valid() && i < NPROC && procs[i].state == Alive
      modifies this
      ensures Valid() && nextPid == old(nextPid)
      ensures generations == old(generations) + if old(procs)[i].identity == 0 then 1 else 0
      ensures var p := procs[i]; var was := old(procs)[i];
              && procs == old(procs)[i := p]
              && p.identity == (if was.identity == 0 then old(generations) + 1 else was.identity)
              && p.key == (if was.key.Named() then was.key else Key(p.pid, p.identity))
              && p == was.(agent := true, identity := p.identity, key := p.key, leader := false,
                           registered := p.registered)
              && (p.registered <==>
                    || was.registered
                    || (if was.key.Named() then Active(old(records), p.key) else Admits(old(records), p.key)))
              && (ok <==> was.key.Named() ==> p.registered)
      ensures old(procs)[i].key.Named() ==> scans == old(scans)
      ensures forall k :: 0 <= k < |scans| && scans[k].key == procs[i].key ==> old(procs)[i].key == procs[i].key
      ensures Opened(old(records), records, if procs[i].registered then {procs[i].key} else {})
    {
      hide Counted, Identified, ScansOk, ScansAllow, Justified;
      Shape(procs, records, nextPid, generations);
      Bounds(procs, nextPid, generations);
      var identity := if procs[i].identity == 0 then generations + 1 else procs[i].identity;
      var p := procs[i].(agent := true, identity := identity, leader := false);
      ghost var generations' := if procs[i].identity == 0 then generations + 1 else generations;
      var joins := p.key.id != 0 && p.key.generation != 0;
      if !joins {
        p := p.(key := Key(p.pid, identity));
        LeaderIdentified(procs, nextPid, generations, i, p, generations');
        LeaderScans(scans, records, procs, generations, i, p);
        Create(i, p, generations');
      } else {
        WorkerKeeps(procs, nextPid, generations, i, p, generations');
        WorkerScans(scans, records, procs, generations, i, p);
        ActiveHasRecord(records, p.key);
        if !p.registered {
          Join(i, p, generations');
        } else {
          HasOwnRecord(records, procs, i);
          Set(i, p, nextPid, generations');
        }
        if procs[i].registered {
          OpenedAlready(old(records), records, p.key);
        }
      }
      if generations < identity {
        generations := identity;
      }
      ok := procs[i].registered || !joins;
    }

    /** agent_workflow_join_locked for p, the new contents of slot i, outside fork. */
    method Join(i: nat, p: Proc, ghost generations': nat)
      requires Valid() && |procs| == NPROC && i < NPROC && !procs[i].registered && !p.registered && p.key.Named()
      requires generations <= generations'
      requires Identified(procs[i := p], nextPid, generations')
      requires WellFormed(p, nextPid, generations') && p.state == Alive
      requires ScansAllow(scans, procs[i], i, p)
      modifies this`procs, this`records
      ensures Identified(procs, nextPid, generations') && Counted(records, procs)
      ensures ScansOk(scans, records, procs, generations')
      ensures i < |procs| && procs == old(procs)[i := p.(registered := procs[i].registered)]
      ensures procs[i].registered <==> Active(old(records), p.key)
      ensures Justified(records, scans) && SameWorkflows(old(records), records)
    {
      hide Counted, Identified, ScansOk, ScansAllow, Justified;
      Shape(procs, records, nextPid, generations);
      var q := p.(registered := true);
      IdentifiedSame(procs[i := p], nextPid, generations', i, q);
      assert procs[i := p][i := q] == procs[i := q];
      ScansRegistered(scans, procs[i], i, p, q);
      var r := Find(p.key);
      JoinActive(records, r);
      if r == WORKFLOW_MAX || records[r].terminating {
        CountedAfter(records, procs, i, p);
        ScansAfter(scans, records, procs, generations, i, p, records, generations');
        procs := procs[i := p];
        return;
      }
      CountedJoin(records, procs, i, q, r);
      if records[r].members >= MEMBER_MAX {
        assert false;
      } else {
        JustifiedRecord(records, scans, r, records[r].(members := records[r].members + 1));
        ScansAfter(scans, records, procs, generations, i, q,
                   records[r := records[r].(members := records[r].members + 1)], generations');
        records := records[r := records[r].(members := records[r].members + 1)];
        procs := procs[i := q];
      }
    }

    // -------------------------------------------------------------- the cascade

    /** agent_cascade_terminate up to its scan; control says the caller has AGENT_CAP_WORKFLOW_CTRL.
      * From here on nobody can join the workflow. */
    method BeginCascade(i: nat, includeLeader: bool, control: bool) returns (r: int)
      requires Valid() && i < NPROC && procs[i].state == Alive && !Scanning(scans, i)
      modifies this`records, this`scans
      ensures Valid()
      ensures var p := procs[i];
              r == if !p.agent then ERR_NOT_AGENT
                   else if !p.leader && !control then ERR_PERMISSION
                   else if !p.key.Named() then ERR_BAD_PARAM else OK
      ensures r != OK ==> records == old(records) && scans == old(scans)
      ensures r == OK ==> scans == old(scans) + [Scan(i, procs[i].pid, procs[i].key, includeLeader, 0, false)]
      ensures r == OK ==> forall key :: Active(records, key) <==> Active(old(records), key) && key != procs[i].key
      ensures forall key :: HasRecord(records, key) <==> HasRecord(old(records), key)
    {
      var p := procs[i];
      if !p.agent {
        return ERR_NOT_AGENT;
      }
      if !p.leader && !control {
        return ERR_PERMISSION;
      }
      if p.key.id == 0 || p.key.generation == 0 {
        return ERR_BAD_PARAM;
      }
      hide Counted, Identified, ScansOk, ScansAllow, Justified;
      Shape(procs, records, nextPid, generations);
      var q := Find(p.key);
      ghost var was := records;
      JustifiedScan(records, scans, Scan(i, p.pid, p.key, includeLeader, 0, false));
      if q < WORKFLOW_MAX {
        ClosedCounted(records, procs, q);
        JustifiedRecord(records, scans + [Scan(i, p.pid, p.key, includeLeader, 0, false)], q,
                        records[q].(terminating := true));
        records := records[q := records[q].(terminating := true)];
      }
      Closed(was, q, p.key);
      ScanBegins(scans, was, records, procs, nextPid, generations, Scan(i, p.pid, p.key, includeLeader, 0, false));
      scans := scans + [Scan(i, p.pid, p.key, includeLeader, 0, false)];
      r := OK;
    }

    /** One turn of the cascade's scan. It has to wait for a slot that a fork holds. */
    method ScanStep(k: nat)
      requires Valid() && k < |scans| && scans[k].next < NPROC && !procs[scans[k].next].locked
      modifies this`procs, this`scans
      ensures Valid() && scans == old(scans)[k := old(scans)[k].(next := old(scans)[k].next + 1)]
      ensures var s := old(scans)[k]; var p := old(procs)[s.next];
              procs == old(procs)[s.next :=
                         if p.state != Unused && p.key == s.key && (s.includeLeader || s.next != s.caller)
                         then p.(killed := true) else p]
    {
      hide Counted, Identified, ScansOk, ScansAllow, Justified;
      Shape(procs, records, nextPid, generations);
      var s := scans[k];
      JustifiedStep(records, scans, k, s.(next := s.next + 1));
      ScanAt(scans, records, procs, generations, k);
      var i := s.next;
      var p := procs[i];
      if p.state != Unused && p.agent && p.key == s.key && (s.includeLeader || i != s.caller) {
        p := p.(killed := true);
      }
      IdentifiedSame(procs, nextPid, generations, i, p);
      ScansSame(scans, records, procs, generations, i, p);
      Set(i, p, nextPid, generations);
      ScanMoves(scans, records, procs, generations, k);
      scans := scans[k := s.(next := i + 1)];
    }

    /** The end of exit, once the process has left its workflow. */
    method Exit(i: nat)
      requires Valid() && i < NPROC && procs[i].state == Alive && !procs[i].registered && !Scanning(scans, i)
      modifies this`procs
      ensures Valid() && procs == old(procs)[i := old(procs)[i].(state := Zombie)]
    {
      IdentifiedSame(procs, nextPid, generations, i, procs[i].(state := Zombie));
      ScansMoved(scans, records, procs, generations, i, procs[i].(state := Zombie));
      Set(i, procs[i].(state := Zombie), nextPid, generations);
    }

    /** freeproc by the parent's wait. */
    method Free(i: nat)
      requires Valid() && i < NPROC && procs[i].state == Zombie
      modifies this`procs
      ensures Valid() && procs == old(procs)[i := BLANK]
    {
      ZombieLeft(procs, nextPid, generations, i);
      Clear(i);
    }

    /** The cascade closes its workflow: once a scan is through, and until its workflow is
      * reopened, every process of the workflow but a spared caller has been killed, whenever it
      * was forked; and nobody can be admitted without being killed. */
    lemma CascadeCloses(k: nat)
      requires Valid() && k < |scans| && scans[k].next == NPROC && !scans[k].reopened
      ensures forall i | 0 <= i < NPROC && procs[i].state != Unused && procs[i].key == scans[k].key ::
                !procs[i].killed ==> !scans[k].includeLeader && procs[i].pid == scans[k].pid
      ensures !Active(records, scans[k].key)
    {
      hide Active;
      assert ScanOk(scans[k], records, procs, generations);
    }

    /** And nothing else closes one: a workflow with a member is open exactly when every cascade of it has
      * been reopened. So a child of a member is born killed only after a cascade. */
    lemma OpenUnlessCascaded(key: Key)
      requires Valid()
      ensures Active(records, key) <==> Members(procs, key) > 0 && !Cascaded(scans, key)
    {
      ActiveHasRecord(records, key);
      RecordIffMembers(records, procs, key);
      if HasRecord(records, key) && !Active(records, key) {
        var r :| 0 <= r < |records| && records[r].used && records[r].key == key;
        assert records[r].terminating;
      }
      if Cascaded(scans, key) {
        var k :| 0 <= k < |scans| && scans[k].key == key && !scans[k].reopened;
        assert ScanOk(scans[k], records, procs, generations);
      }
    }
  }

  predicate Scanning(scans: seq<Scan>, i: nat) {
    exists k :: 0 <= k < |scans| && scans[k].next < NPROC && scans[k].caller == i
  }
}
