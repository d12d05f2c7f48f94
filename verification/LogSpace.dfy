/**
  Space reservation in the log. Operations run concurrently between begin_op and end_op; each may
  log up to MAXOPBLOCKS distinct blocks, and begin_op admits one only when its worst case still fits.
*/
module LogSpace {
  import opened Blocks
  import opened LogRecovery

  /** lh.block[..n] and, for every operation in progress, the blocks it has logged so far. */
  datatype Space = Space(lh: seq<nat>, ops: seq<set<nat>>)

  datatype Step =
    | Begin                     // begin_op gets past its guard
    | LogWrite(op: nat, b: nat) // operation number op logs block b
    | End(op: nat)              // end_op; the last one out commits

  /** The condition under which begin_op does not sleep. */
  predicate Admits(n: nat, outstanding: nat) {
    n + (outstanding + 1) * MAXOPBLOCKS <= LOGSIZE
  }

  /** The guard of log_write ("too big a transaction"), met before absorption is considered. */
  predicate TooBig(n: nat, size: nat) {
    n >= LOGSIZE || n >= size - 1
  }

  function Absorb(lh: seq<nat>, b: nat): seq<nat> {
    if b in lh then lh else lh + [b]
  }

  predicate Enabled(s: Space, e: Step) {
    match e
    case Begin => Admits(|s.lh|, |s.ops|)
    case LogWrite(op, b) => op < |s.ops| && |s.ops[op] + {b}| <= MAXOPBLOCKS
    case End(op) => op < |s.ops|
  }

  function Next(s: Space, e: Step): Space
    requires Enabled(s, e)
  {
    match e
    case Begin => Space(s.lh, s.ops + [{}])
    case LogWrite(op, b) => Space(Absorb(s.lh, b), s.ops[op := s.ops[op] + {b}])
    case End(op) =>
      var ops := s.ops[..op] + s.ops[op + 1..];
      Space(if ops == [] then [] else s.lh, ops)
  }

  /** The budget that operations in progress have not used yet. */
  function Unused(ops: seq<set<nat>>): int {
    if ops == [] then 0 else Unused(ops[..|ops| - 1]) + MAXOPBLOCKS - |ops[|ops| - 1]|
  }

  predicate Reserved(s: Space) {
    && Distinct(s.lh)
    && (forall i :: 0 <= i < |s.ops| ==> |s.ops[i]| <= MAXOPBLOCKS)
    && (forall i, b :: 0 <= i < |s.ops| && b in s.ops[i] ==> b in s.lh)
    && |s.lh| + Unused(s.ops) <= LOGSIZE
    && (s.ops == [] ==> s.lh == [])
  }

  lemma {:induction false} UnusedAppend(ops: seq<set<nat>>, more: seq<set<nat>>)
    ensures Unused(ops + more) == Unused(ops) + Unused(more)
  {
    if more == [] {
      assert ops + more == ops;
    } else {
      var m := more[..|more| - 1];
      UnusedAppend(ops, m);
      assert (ops + more)[..|ops + more| - 1] == ops + m;
    }
  }

  lemma UnusedOne(op: set<nat>)
    ensures Unused([op]) == MAXOPBLOCKS - |op|
  {
    assert [op][..0] == [];
  }

  lemma UnusedSplit(ops: seq<set<nat>>, i: nat)
    requires i < |ops|
    ensures Unused(ops) == Unused(ops[..i] + ops[i + 1..]) + MAXOPBLOCKS - |ops[i]|
  {
    hide Unused;
    UnusedAppend(ops[..i], ops[i + 1..]);
    UnusedAppend(ops[..i] + [ops[i]], ops[i + 1..]);
    UnusedAppend(ops[..i], [ops[i]]);
    UnusedOne(ops[i]);
    assert ops == ops[..i] + [ops[i]] + ops[i + 1..];
  }

  lemma {:induction false} UnusedBounds(ops: seq<set<nat>>)
    requires forall i :: 0 <= i < |ops| ==> |ops[i]| <= MAXOPBLOCKS
    ensures 0 <= Unused(ops) <= |ops| * MAXOPBLOCKS
  {
    if ops != [] {
      UnusedBounds(ops[..|ops| - 1]);
    }
  }

  lemma StepKeepsReserved(s: Space, e: Step)
    requires Reserved(s) && Enabled(s, e)
    ensures Reserved(Next(s, e))
  {
    hide Reserved, Enabled, Next;
    match e
    case Begin => BeginKeepsReserved(s);
    case LogWrite(op, b) => WriteKeepsReserved(s, op, b);
    case End(op) => EndKeepsReserved(s, op);
  }

  lemma BeginKeepsReserved(s: Space)
    requires Reserved(s) && Enabled(s, Begin)
    ensures Reserved(Next(s, Begin))
  {
    hide Unused, Distinct;
    UnusedBounds(s.ops);
    UnusedAppend(s.ops, [{}]);
    UnusedOne({});
  }

  lemma EndKeepsReserved(s: Space, op: nat)
    requires Reserved(s) && Enabled(s, End(op))
    ensures Reserved(Next(s, End(op)))
  {
    hide Unused, Distinct;
    UnusedSplit(s.ops, op);
    NoneReserved();
  }

  lemma NoneReserved()
    ensures Reserved(Space([], []))
  {
  }

  lemma WriteKeepsReserved(s: Space, op: nat, b: nat)
    requires Reserved(s) && Enabled(s, LogWrite(op, b))
    ensures Reserved(Next(s, LogWrite(op, b)))
  {
    hide Unused;
    var s' := Next(s, LogWrite(op, b));
    UnusedSplit(s.ops, op);
    UnusedSplit(s'.ops, op);
    assert s.ops[..op] + s.ops[op + 1..] == s'.ops[..op] + s'.ops[op + 1..];
    if b in s.ops[op] {
      assert s'.ops == s.ops && s'.lh == s.lh by {
        assert s.ops[op] + {b} == s.ops[op];
      }
    } else {
      assert |s.ops[op] + {b}| == |s.ops[op]| + 1;
      forall i, x | 0 <= i < |s'.ops| && x in s'.ops[i]
        ensures x in s'.lh
      {
        assert x == b || x in s.ops[i];
      }
    }
  }

  predicate IsRun(ss: seq<Space>, es: seq<Step>) {
    && |ss| == |es| + 1
    && ss[0] == Space([], [])
    && forall i :: 0 <= i < |es| ==> Enabled(ss[i], es[i]) && ss[i + 1] == Next(ss[i], es[i])
  }

  /** Under every interleaving, what is logged plus what may still be logged fits in the log. */
  lemma {:induction false} RunStaysReserved(ss: seq<Space>, es: seq<Step>)
    requires IsRun(ss, es)
    ensures forall i :: 0 <= i < |ss| ==> Reserved(ss[i])
  {
    if es == [] {
    } else {
      var k := |es| - 1;
      RunStaysReserved(ss[..k + 1], es[..k]);
      assert ss[k] == ss[..k + 1][k];
      StepKeepsReserved(ss[k], es[k]);
    }
  }

  /** With room for LOGSIZE blocks, an operation that logs a block of its budget never meets the guard… */
  lemma BudgetedWriteFits(s: Space, op: nat, b: nat, size: nat)
    requires Reserved(s) && Enabled(s, LogWrite(op, b))
    requires b !in s.ops[op]
    requires size >= LOGSIZE + 1
    ensures !TooBig(|s.lh|, size)
  {
    assert |s.ops[op] + {b}| == |s.ops[op]| + 1;
    UnusedSplit(s.ops, op);
    UnusedBounds(s.ops[..op] + s.ops[op + 1..]);
  }

  /** … and writing again a block it has already logged meets it in two cases: the list is as long as the
    * log area allows, or it has LOGSIZE entries, which takes every budget to be spent in full. */
  lemma RewriteMeetsGuardIff(s: Space, op: nat, b: nat, size: nat)
    requires Reserved(s) && op < |s.ops| && b in s.ops[op]
    ensures TooBig(|s.lh|, size) <==> |s.lh| >= size - 1 || |s.lh| == LOGSIZE
    ensures |s.lh| == LOGSIZE ==> forall i :: 0 <= i < |s.ops| ==> |s.ops[i]| == MAXOPBLOCKS
    ensures size >= LOGSIZE + 1 && TooBig(|s.lh|, size) ==> |s.lh| == LOGSIZE
  {
    if |s.lh| >= LOGSIZE {
      forall i | 0 <= i < |s.ops|
        ensures |s.ops[i]| == MAXOPBLOCKS
      {
        UnusedSplit(s.ops, i);
        UnusedBounds(s.ops[..i] + s.ops[i + 1..]);
      }
    }
    UnusedBounds(s.ops);
  }

  /** No log_write of this run met the guard. */
  predicate Guarded(ss: seq<Space>, es: seq<Step>, size: nat)
    requires |ss| == |es| + 1
  {
    forall i :: 0 <= i < |es| && es[i].LogWrite? ==> !TooBig(|ss[i].lh|, size)
  }

  /** Some run of a log of this size, without a panic, leads here. */
  ghost predicate Reachable(s: Space, size: nat) {
    exists ss, es :: IsRun(ss, es) && Guarded(ss, es, size) && ss[|es|] == s
  }

  lemma ReachableNext(s: Space, e: Step, size: nat)
    requires Reachable(s, size) && Enabled(s, e) && (e.LogWrite? ==> !TooBig(|s.lh|, size))
    ensures Reachable(Next(s, e), size)
  {
    var ss, es :| IsRun(ss, es) && Guarded(ss, es, size) && ss[|es|] == s;
    assert IsRun(ss + [Next(s, e)], es + [e]);
    assert Guarded(ss + [Next(s, e)], es + [e], size);
  }

  function UpTo(n: nat): (s: seq<nat>)
    ensures |s| == n && forall i :: 0 <= i < n ==> s[i] == i
  {
    seq(n, i => i)
  }

  function Range(from: nat, count: nat): (r: set<nat>)
    ensures forall x :: x in r <==> from <= x < from + count
    ensures |r| == count
  {
    if count == 0 then {} else Range(from, count - 1) + {from + count - 1}
  }

  /** One operation logs the next `count` fresh blocks. */
  lemma {:induction false} ReachableBurst(n: nat, ops: seq<set<nat>>, op: nat, count: nat, size: nat)
    requires op < |ops| && ops[op] == {} && count <= MAXOPBLOCKS
    requires n + count <= LOGSIZE && n + count < size
    requires Reachable(Space(UpTo(n), ops), size)
    ensures Reachable(Space(UpTo(n + count), ops[op := Range(n, count)]), size)
  {
    hide Reachable, UpTo, Range;
    if count == 0 {
      NoBurst(n, ops, op);
    } else {
      ReachableBurst(n, ops, op, count - 1, size);
      BurstStep(n, ops, op, count, size);
    }
  }

  lemma NoBurst(n: nat, ops: seq<set<nat>>, op: nat)
    requires op < |ops| && ops[op] == {}
    ensures ops[op := Range(n, 0)] == ops
  {
  }

  lemma BurstStep(n: nat, ops: seq<set<nat>>, op: nat, count: nat, size: nat)
    requires op < |ops| && 0 < count <= MAXOPBLOCKS
    requires n + count <= LOGSIZE && n + count < size
    requires Reachable(Space(UpTo(n + count - 1), ops[op := Range(n, count - 1)]), size)
    ensures Reachable(Space(UpTo(n + count), ops[op := Range(n, count)]), size)
  {
    var b := n + count - 1;
    var s := Space(UpTo(b), ops[op := Range(n, count - 1)]);
    UpToNext(b);
    RangeNext(n, count - 1);
    hide Reachable, Range, UpTo, Absorb;
    ReachableNext(s, LogWrite(op, b), size);
    assert s.ops[op := s.ops[op] + {b}] == ops[op := Range(n, count)];
  }

  lemma UpToNext(n: nat)
    ensures Absorb(UpTo(n), n) == UpTo(n + 1)
  {
  }

  lemma RangeNext(from: nat, count: nat)
    ensures Range(from, count) + {from + count} == Range(from, count + 1)
  {
  }

  /** What is left of n blocks after the first `from`, at most one operation's budget. */
  function Share(n: nat, from: nat): nat {
    if n <= from then 0 else if n <= from + MAXOPBLOCKS then n - from else MAXOPBLOCKS
  }

  /** The state in which three operations have logged n blocks, each as many as it may before the next begins. */
  function ThreeOps(n: nat): Space {
    Space(UpTo(n), [Range(0, Share(n, 0)), Range(10, Share(n, 10)), Range(20, Share(n, 20))])
  }

  lemma ThreeBegun(size: nat)
    ensures Reachable(Space(UpTo(0), [{}, {}, {}]), size)
  {
    assert IsRun([Space([], [])], []) && Guarded([Space([], [])], [], size);
    assert Reachable(Space([], []), size);
    hide Reachable;
    ReachableNext(Space([], []), Begin, size);
    ReachableNext(Space([], [{}]), Begin, size);
    ReachableNext(Space([], [{}, {}]), Begin, size);
    assert UpTo(0) == [];
  }

  lemma ThreeOpsReachable(n: nat, size: nat)
    requires n <= LOGSIZE && n < size
    ensures Reachable(ThreeOps(n), size)
  {
    hide Reachable, Range;
    ThreeBegun(size);
    var a, b, c := Share(n, 0), Share(n, 10), Share(n, 20);
    assert Range(a, b) == Range(10, b) && Range(a + b, c) == Range(20, c);
    ReachableBurst(0, [{}, {}, {}], 0, a, size);
    assert [{}, {}, {}][0 := Range(0, a)] == [Range(0, a), {}, {}];
    ReachableBurst(a, [Range(0, a), {}, {}], 1, b, size);
    assert [Range(0, a), {}, {}][1 := Range(10, b)] == [Range(0, a), Range(10, b), {}];
    ReachableBurst(a + b, [Range(0, a), Range(10, b), {}], 2, c, size);
    assert [Range(0, a), Range(10, b), {}][2 := Range(20, c)] == ThreeOps(n).ops;
  }

  /** A reachable state in which an operation may still log a block it has not logged, and the guard refuses it. */
  ghost predicate RefusesFresh(s: Space, op: nat, b: nat, size: nat) {
    && Reachable(s, size) && Enabled(s, LogWrite(op, b)) && b !in s.ops[op]
    && TooBig(|s.lh|, size)
  }

  /**
    A log area is large enough for the budgets begin_op hands out exactly when it has more than LOGSIZE
    blocks; the shipped one has LOGSIZE, of which one is the header, so the thirtieth block is refused.
   */
  lemma BudgetsHonouredIff(size: nat)
    requires size > 0
    ensures (forall s, op, b :: !RefusesFresh(s, op, b, size)) <==> size >= LOGSIZE + 1
  {
    hide Reachable, Range;
    forall s, op, b | RefusesFresh(s, op, b, size)
      ensures size < LOGSIZE + 1
    {
      if size >= LOGSIZE + 1 {
        ReachableReserved(s, size);
        BudgetedWriteFits(s, op, b, size);
      }
    }
    if size < LOGSIZE + 1 {
      var n := size - 1;
      var s, op := ThreeOps(n), n / MAXOPBLOCKS;
      ThreeOpsReachable(n, size);
      assert n !in s.ops[op];
      assert RefusesFresh(s, op, n, size);
    }
  }

  lemma ReachableReserved(s: Space, size: nat)
    requires Reachable(s, size)
    ensures Reserved(s)
  {
    var ss, es :| IsRun(ss, es) && Guarded(ss, es, size) && ss[|es|] == s;
    RunStaysReserved(ss, es);
  }

  /**
    Absorption comes too late: three operations that stay within their budgets can fill the log, and
    then one of them that modifies one of its own blocks again is refused although it needs no space.
   */
  lemma FullLogRefusesRewrite()
    ensures var s := ThreeOps(30);
            && Reachable(s, LOGSIZE + 1) && Enabled(s, LogWrite(0, 0))
            && Absorb(s.lh, 0) == s.lh && TooBig(|s.lh|, LOGSIZE + 1)
  {
    hide Reachable, Range;
    ThreeOpsReachable(30, LOGSIZE + 1);
    assert Range(0, 10) + {0} == Range(0, 10);
    assert UpTo(30)[0] == 0;
  }
}
