/** Dynamic-tool calls (kernel/agent_tool.c): a caller blocks on a request slot until the service
  * that registered the tool replies or exits. Every method is one critical section. */
module ToolRpc {
  const TOOLS: nat := 8
  const SLOTS: nat := 8
  const INT_MAX: nat := 0x7fff_ffff

  const OK := 0
  const ERR_TOOL_NOT_FOUND := -1
  const ERR_BAD_PARAM := -2
  const ERR_NOT_AGENT := -3
  const ERR_NO_SPACE := -4
  const ERR_BUSY := -5
  const ERR_PERMISSION := -6
  const ERR_SERVICE_GONE := -7

  const FLAG_PUBLIC := 1

  datatype Tool = Tool(used: bool, name: string, owner: int, group: int, shared: bool)

  datatype Slot = Slot(used: bool, delivered: bool, replied: bool, id: int, caller: int, service: int,
    status: int, tool: string, params: string, result: string)

  const NO_TOOL := Tool(false, "", 0, 0, false)
  const NO_SLOT := Slot(false, false, false, 0, 0, 0, 0, "", "", "")

  /** What a blocked caller holds on its stack: its slot and its request id. */
  datatype Frame = Frame(slot: nat, id: int)

  /** Where a reply came from: the service that answered the request it numbered meant, or the
    * service's exit. */
  datatype Answer = Unanswered | ByService(meant: nat, status: int, result: string) | ByExit

  datatype CallResult = Blocked | Returned(status: int, result: string) | CallerKilled | RequestLost

  /** The id of the n-th request: ids run from 1 to INT_MAX and start over. */
  function IdOf(n: nat): (id: int)
    ensures 1 <= id <= INT_MAX
  {
    n % INT_MAX + 1
  }

  lemma NextIdWraps(n: nat)
    ensures IdOf(n + 1) == if IdOf(n) == INT_MAX then 1 else IdOf(n) + 1
  {
  }

  /** Requests less than a whole turn of the counter apart have different ids. */
  lemma IdsApart(m: nat, n: nat)
    requires m < n
    ensures IdOf(m) == IdOf(n) <==> (n - m) % INT_MAX == 0
    ensures n - m < INT_MAX ==> IdOf(m) != IdOf(n)
  {
  }

  // ---------------------------------------------------------------- invariants

  /** Registered names are distinct and their owners have not exited. */
  ghost predicate ToolsOk(tools: seq<Tool>, alive: set<int>) {
    && |tools| == TOOLS
    && (forall i :: 0 <= i < TOOLS && tools[i].used ==> tools[i].owner in alive)
    && (forall i, j :: 0 <= i < j < TOOLS && tools[i].used && tools[j].used ==> tools[i].name != tools[j].name)
  }

  /** Slots in use and blocked callers correspond one to one, and an unanswered request waits on
    * a service that has not exited. */
  ghost predicate SlotsOk(slots: seq<Slot>, calling: map<int, Frame>, alive: set<int>) {
    && |slots| == SLOTS
    && (forall k :: 0 <= k < SLOTS && slots[k].used ==>
          && slots[k].caller in calling && calling[slots[k].caller] == Frame(k, slots[k].id)
          && (!slots[k].replied ==> slots[k].service in alive))
    && (forall p :: p in calling ==>
          && p in alive && calling[p].slot < SLOTS
          && slots[calling[p].slot].used && slots[calling[p].slot].caller == p)
  }

  /** Nobody sleeps while there is something for it to do, or after it was killed, unless the kill came
    * between its last look at the flag and its falling asleep. */
  ghost predicate SleepOk(slots: seq<Slot>, calling: map<int, Frame>, receiving: set<int>, asleep: set<int>,
                          killed: set<int>, missed: set<int>)
  {
    && |slots| == SLOTS
    && receiving !! calling.Keys
    && (forall p :: p in asleep ==> (p in killed ==> p in missed) && (p in calling || p in receiving))
    && (forall p :: p in asleep && p in calling ==> calling[p].slot < SLOTS && !slots[calling[p].slot].replied)
    && (forall p, k :: p in asleep && p in receiving && 0 <= k < SLOTS ==>
          !(slots[k].used && !slots[k].delivered && slots[k].service == p))
  }

  /** Each slot in use holds its own request; log lists the requests recv has handed out. */
  ghost predicate SerialsOk(slots: seq<Slot>, serials: seq<nat>, issued: nat, log: seq<nat>) {
    && |slots| == |serials| == SLOTS
    && (forall k :: 0 <= k < SLOTS && slots[k].used ==>
          && serials[k] < issued && slots[k].id == IdOf(serials[k])
          && (slots[k].delivered <==> serials[k] in log))
    && (forall j, k :: 0 <= j < k < SLOTS && slots[j].used && slots[k].used ==> serials[j] != serials[k])
    && (forall n :: n in log ==> n < issued)
    && (forall i, j :: 0 <= i < j < |log| ==> log[i] != log[j])
  }

  ghost predicate AnswersOk(slots: seq<Slot>, answers: seq<Answer>) {
    && |slots| == |answers| == SLOTS
    && (forall k :: 0 <= k < SLOTS && slots[k].used ==> AnswerOk(slots[k], answers[k]))
  }

  predicate AnswerOk(slot: Slot, answer: Answer) {
    match answer
    case Unanswered => !slot.replied
    case ByService(_, status, result) => slot.replied && slot.status == status && slot.result == result
    case ByExit => slot.replied && slot.status == ERR_SERVICE_GONE
  }

  /** No two requests in flight share an id. */
  ghost predicate DistinctIds(slots: seq<Slot>) {
    forall j, k :: 0 <= j < k < |slots| && slots[j].used && slots[k].used ==> slots[j].id != slots[k].id
  }

  /** Every answer is in the slot of the request it was meant for. */
  ghost predicate Faithful(slots: seq<Slot>, serials: seq<nat>, answers: seq<Answer>)
    requires |slots| == |serials| == |answers|
  {
    forall k :: 0 <= k < |slots| && slots[k].used && answers[k].ByService? ==> answers[k].meant == serials[k]
  }

  /** Parameters a registration may not have. */
  predicate Refused(name: string, builtin: bool, flags: int) {
    name == "" || builtin || !(flags == 0 || flags == FLAG_PUBLIC)
  }

  /** A tool of this name is registered. */
  ghost predicate Named(tools: seq<Tool>, name: string) {
    exists i :: 0 <= i < |tools| && tools[i].used && tools[i].name == name
  }

  ghost predicate FirstFree(tools: seq<Tool>, i: nat) {
    i < |tools| && !tools[i].used && forall j :: 0 <= j < i ==> tools[j].used
  }

  predicate Waits(s: Slot, p: int) {
    s.used && !s.delivered && s.service == p
  }

  predicate Matches(s: Slot, p: int, id: int) {
    s.used && s.id == id && s.service == p
  }

  /** A slot after the service p has exited. */
  function Retired(s: Slot, p: int): Slot {
    if s.used && s.service == p && !s.replied
    then s.(status := ERR_SERVICE_GONE, result := "tool service exited", replied := true)
    else s
  }

  // ---------------------------------------------------------------- the runtime

  class Runtime {
    var tools: seq<Tool>
    var slots: seq<Slot>
    var nextId: int

    /** Processes blocked in a call, inside recv, asleep on the request channel, killed, and not
      * yet past agent_proc_exit. */
    var calling: map<int, Frame>
    var receiving: set<int>
    var asleep: set<int>
    var killed: set<int>
    ghost var alive: set<int>
    /** Those whose kill did not reach them before they fell asleep. */
    ghost var missed: set<int>

    /** The number of requests so far, which of them each slot holds, who answered it, and
      * which have been handed to their services. */
    ghost var issued: nat
    ghost var serials: seq<nat>
    ghost var answers: seq<Answer>
    ghost var log: seq<nat>

    ghost predicate Valid()
      reads this
    {
      && ToolsOk(tools, alive)
      && SlotsOk(slots, calling, alive)
      && SleepOk(slots, calling, receiving, asleep, killed, missed)
      && SerialsOk(slots, serials, issued, log) && nextId == IdOf(issued)
      && AnswersOk(slots, answers)
    }

    constructor ()
      ensures Valid() && calling == map[] && alive == {} && issued == 0 && log == []
      ensures tools == seq(TOOLS, i => NO_TOOL) && slots == seq(SLOTS, i => NO_SLOT)
      ensures killed == {} && missed == {} && receiving == {} && asleep == {}
    {
      tools, slots, nextId := seq(TOOLS, i => NO_TOOL), seq(SLOTS, i => NO_SLOT), 1;
      calling, receiving, asleep, killed, alive, missed := map[], {}, {}, {}, {}, {};
      issued, serials, answers, log := 0, seq(SLOTS, i => 0), seq(SLOTS, i => Unanswered), [];
    }

    method FindTool(name: string) returns (t: nat)
      requires |tools| == TOOLS
      ensures t <= TOOLS && (t < TOOLS ==> tools[t].used && tools[t].name == name)
      ensures t == TOOLS <==> forall i :: 0 <= i < TOOLS ==> !(tools[i].used && tools[i].name == name)
    {
      t := 0;
      while t < TOOLS
        invariant t <= TOOLS
        invariant forall i :: 0 <= i < t ==> !(tools[i].used && tools[i].name == name)
      {
        if tools[t].used && tools[t].name == name {
          return;
        }
        t := t + 1;
      }
    }

    method FindSlot() returns (k: nat)
      requires |slots| == SLOTS
      ensures k <= SLOTS && (k < SLOTS ==> !slots[k].used)
      ensures forall i :: 0 <= i < k ==> slots[i].used
    {
      k := 0;
      while k < SLOTS
        invariant k <= SLOTS
        invariant forall i :: 0 <= i < k ==> slots[i].used
      {
        if !slots[k].used {
          return;
        }
        k := k + 1;
      }
    }

    /** agent_tool_register; capable stands for the REGISTER_TOOL capability, builtin for a name the kernel
      * keeps for itself. */
    method Register(p: int, name: string, group: int, flags: int, agent: bool, capable: bool, builtin: bool)
      returns (r: int)
      requires Valid() && p in alive
      modifies this`tools
      ensures Valid()
      ensures r == ERR_NOT_AGENT <==> !agent
      ensures r == ERR_PERMISSION <==> agent && !capable
      ensures r == ERR_BAD_PARAM <==> agent && capable && Refused(name, builtin, flags)
      ensures r == ERR_BUSY <==> agent && capable && !Refused(name, builtin, flags) && Named(old(tools), name)
      ensures r == ERR_NO_SPACE <==>
                && agent && capable && !Refused(name, builtin, flags) && !Named(old(tools), name)
                && forall i :: 0 <= i < TOOLS ==> old(tools)[i].used
      ensures r != OK ==>
                tools == old(tools) && r in {ERR_NOT_AGENT, ERR_PERMISSION, ERR_BAD_PARAM, ERR_BUSY, ERR_NO_SPACE}
      ensures r == OK ==>
                exists i | 0 <= i < TOOLS && FirstFree(old(tools), i) ::
                  tools == old(tools)[i := Tool(true, name, p, group, flags == FLAG_PUBLIC)]
    {
      if !agent {
        return ERR_NOT_AGENT;
      }
      if !capable {
        return ERR_PERMISSION;
      }
      if name == "" || builtin || !(flags == 0 || flags == FLAG_PUBLIC) {
        return ERR_BAD_PARAM;
      }
      var free, i := TOOLS, 0;
      while i < TOOLS
        invariant i <= TOOLS && 0 <= free <= TOOLS && tools == old(tools)
        invariant forall j :: 0 <= j < i ==> !(tools[j].used && tools[j].name == name)
        invariant free < TOOLS ==> FirstFree(tools, free)
        invariant free == TOOLS ==> forall j :: 0 <= j < i ==> tools[j].used
      {
        if tools[i].used && tools[i].name == name {
          return ERR_BUSY;
        }
        if !tools[i].used && free == TOOLS {
          free := i;
        }
        i := i + 1;
      }
      if free == TOOLS {
        return ERR_NO_SPACE;
      }
      tools := tools[free := Tool(true, name, p, group, flags == FLAG_PUBLIC)];
      r := OK;
    }

    /** agent_dynamic_tool_call up to its waiting loop; permits stands for the capability and
      * group checks. Ids in flight stay distinct exactly when the id drawn is not in use. */
    method CallBegin(p: int, name: string, params: string, permits: Tool -> bool) returns (r: int)
      requires Valid() && p in alive && p !in calling && p !in receiving
      modifies this
      ensures Valid() && alive == old(alive) && tools == old(tools) && log == old(log) && killed == old(killed)
      ensures receiving == old(receiving) && missed == old(missed)
      ensures r in {OK, ERR_TOOL_NOT_FOUND, ERR_PERMISSION, ERR_BUSY}
      ensures r == ERR_TOOL_NOT_FOUND <==> forall i :: 0 <= i < TOOLS ==> !(tools[i].used && tools[i].name == name)
      ensures r == ERR_PERMISSION <==>
                exists t :: 0 <= t < TOOLS && tools[t].used && tools[t].name == name && !permits(tools[t])
      ensures r == ERR_BUSY <==>
                && (exists t :: 0 <= t < TOOLS && tools[t].used && tools[t].name == name && permits(tools[t]))
                && forall k :: 0 <= k < SLOTS ==> old(slots)[k].used
      ensures r != OK ==> slots == old(slots) && calling == old(calling) && asleep == old(asleep)
      ensures r != OK ==> issued == old(issued) && serials == old(serials) && answers == old(answers)
      ensures r == OK ==>
                && p in calling && issued == old(issued) + 1 && asleep == {}
                && OpenedAt(calling[p].slot, p, name, params, old(slots), old(serials), old(answers), old(calling))
      ensures r == OK ==>
                exists t | 0 <= t < TOOLS && tools[t].used && tools[t].name == name ::
                  permits(tools[t]) && slots[calling[p].slot].service == tools[t].owner
      ensures r == OK ==>
                (DistinctIds(slots) <==>
                   && old(DistinctIds(slots))
                   && forall k :: 0 <= k < SLOTS && old(slots)[k].used ==> old(slots)[k].id != IdOf(old(issued)))
      ensures old(Faithful(slots, serials, answers)) ==> Faithful(slots, serials, answers)
    {
      var t := FindTool(name);
      if t == TOOLS {
        return ERR_TOOL_NOT_FOUND;
      }
      if !permits(tools[t]) {
        return ERR_PERMISSION;
      }
      var k := FindSlot();
      if k == SLOTS {
        return ERR_BUSY;
      }
      Open(p, k, Slot(true, false, false, nextId, p, tools[t].owner, 0, name, params, ""));
      r := OK;
    }

    /** Slot k, the first free one, now holds a fresh request by p, and no other slot has changed. */
    ghost predicate OpenedAt(k: nat, p: int, name: string, params: string, slots0: seq<Slot>, serials0: seq<nat>,
                             answers0: seq<Answer>, calling0: map<int, Frame>)
      reads this
    {
      && k < SLOTS && |slots0| == |serials0| == |answers0| == SLOTS && |slots| == SLOTS && issued > 0
      && !slots0[k].used && (forall j :: 0 <= j < k ==> slots0[j].used)
      && slots == slots0[k := Slot(true, false, false, IdOf(issued - 1), p, slots[k].service, 0, name, params, "")]
      && serials == serials0[k := issued - 1] && answers == answers0[k := Unanswered]
      && calling == calling0[p := Frame(k, IdOf(issued - 1))]
    }

    method Open(p: int, k: nat, s: Slot)
      requires Valid() && p in alive && p !in calling && p !in receiving && k < SLOTS && !slots[k].used
      requires forall j :: 0 <= j < k ==> slots[j].used
      requires s == Slot(true, false, false, nextId, p, s.service, 0, s.tool, s.params, "") && s.service in alive
      modifies this`slots, this`nextId, this`calling, this`asleep, this`issued, this`serials, this`answers
      ensures Valid() && issued == old(issued) + 1 && asleep == {}
      ensures OpenedAt(k, p, s.tool, s.params, old(slots), old(serials), old(answers), old(calling))
      ensures slots[k].service == s.service
      ensures p in calling && calling[p].slot == k
      ensures DistinctIds(slots) <==>
                && old(DistinctIds(slots))
                && forall j :: 0 <= j < SLOTS && old(slots)[j].used ==> old(slots)[j].id != IdOf(old(issued))
      ensures old(Faithful(slots, serials, answers)) ==> Faithful(slots, serials, answers)
    {
      hide IdOf, SlotsOk, SerialsOk, ToolsOk, DistinctIds, SleepOk, AnswersOk, Faithful;
      NextIdWraps(issued);
      OpenKeeps(slots, calling, alive, serials, issued, log, k, s);
      OpenCalm(slots, calling, receiving, asleep, killed, missed, serials, issued, log, answers, k, s);
      OpenIds(slots, k, s);
      slots := slots[k := s];
      nextId := nextId + 1;
      if nextId > INT_MAX {
        nextId := 1;
      }
      calling := calling[p := Frame(k, s.id)];
      serials, answers, issued := serials[k := issued], answers[k := Unanswered], issued + 1;
      asleep := {};
    }

    /** One turn of the caller's loop. It sleeps exactly when its request is unanswered and it has not
      * been killed when it looks; otherwise it frees its slot. It never finds its request lost. A kill
      * that comes late finds it neither checking nor asleep. */
    method CallTurn(p: int, late: bool) returns (o: CallResult)
      requires Valid() && p in calling && p !in asleep
      modifies this`slots, this`calling, this`asleep, this`killed, this`missed
      ensures Valid()
      ensures killed == old(killed) + (if o == Blocked && late then {p} else {})
      ensures missed == old(missed) + (if o == Blocked && late then {p} else {})
      ensures var k := old(calling)[p].slot;
              && (o == Blocked <==> !old(slots)[k].replied && p !in old(killed))
              && (o.Returned? <==> old(slots)[k].replied)
              && o != RequestLost
              && (o.Returned? ==> o.status == old(slots)[k].status && o.result == old(slots)[k].result)
              && (if o == Blocked then slots == old(slots) && calling == old(calling) && asleep == old(asleep) + {p}
                  else slots == old(slots)[k := NO_SLOT] && calling == old(calling) - {p} && asleep == {})
      ensures old(Faithful(slots, serials, answers)) ==> Faithful(slots, serials, answers)
      ensures old(DistinctIds(slots)) ==> DistinctIds(slots)
      ensures old(Faithful(slots, serials, answers)) && o.Returned? ==>
        var k := old(calling)[p].slot;
        || answers[k] == ByService(serials[k], o.status, o.result)
        || (answers[k] == ByExit && o.status == ERR_SERVICE_GONE)
    {
      hide IdOf, SlotsOk, SerialsOk, ToolsOk;
      FrameFacts(slots, calling, alive, serials, issued, log, p);
      var f := calling[p];
      var k := f.slot;
      if slots[k].replied {
        o := Returned(slots[k].status, slots[k].result);
      } else if p in killed {
        o := CallerKilled;
      } else if slots[k].id != f.id || !slots[k].used {
        assert false;
      } else {
        asleep := asleep + {p};
        if late {
          killed, missed := killed + {p}, missed + {p};
        }
        return Blocked;
      }
      CloseKeeps(slots, calling, alive, serials, issued, log, p);
      slots := slots[k := NO_SLOT];
      calling := calling - {p};
      asleep := {};
    }

    /** A service enters agent_tool_recv. */
    method RecvBegin(p: int)
      requires Valid() && p in alive && p !in calling && p !in receiving
      modifies this`receiving
      ensures Valid() && receiving == old(receiving) + {p}
    {
      receiving := receiving + {p};
    }

    method FindWaiting(p: int) returns (i: nat)
      requires |slots| == SLOTS
      ensures i <= SLOTS && (i == SLOTS <==> forall j :: 0 <= j < SLOTS ==> !Waits(slots[j], p))
      ensures i < SLOTS ==> Waits(slots[i], p) && forall j :: 0 <= j < i ==> !Waits(slots[j], p)
    {
      i := 0;
      while i < SLOTS && !(slots[i].used && !slots[i].delivered && slots[i].service == p)
        invariant i <= SLOTS
        invariant forall j :: 0 <= j < i ==> !Waits(slots[j], p)
      {
        i := i + 1;
      }
    }

    /** One turn of agent_tool_recv: it hands out the first waiting request for this service, which
      * no recv has handed out before, and sleeps exactly when there is none and it has not been
      * killed when it looks. */
    method RecvTurn(p: int, late: bool)
      returns (r: int, blocked: bool, id: int, caller: int, params: string, ghost k: nat)
      requires Valid() && p in receiving && p !in asleep
      modifies this`slots, this`receiving, this`asleep, this`log, this`killed, this`missed
      ensures Valid()
      ensures killed == old(killed) + (if blocked && late then {p} else {})
      ensures missed == old(missed) + (if blocked && late then {p} else {})
      ensures k <= SLOTS && (k == SLOTS <==> forall i :: 0 <= i < SLOTS ==> !Waits(old(slots)[i], p))
      ensures k < SLOTS ==> Waits(old(slots)[k], p) && forall i :: 0 <= i < k ==> !Waits(old(slots)[i], p)
      ensures k < SLOTS ==>
                && r == OK && !blocked && id == old(slots)[k].id && caller == old(slots)[k].caller
                && params == old(slots)[k].params
      ensures k < SLOTS ==>
                slots == old(slots)[k := old(slots)[k].(delivered := true)] && receiving == old(receiving) - {p}
      ensures k < SLOTS ==> serials[k] !in old(log) && log == old(log) + [serials[k]] && asleep == old(asleep)
      ensures k == SLOTS ==> slots == old(slots) && log == old(log) && (blocked <==> p !in old(killed))
      ensures k < SLOTS ==> !blocked
      ensures k == SLOTS && blocked ==> asleep == old(asleep) + {p} && receiving == old(receiving)
      ensures k == SLOTS && !blocked ==> r == -1 && asleep == old(asleep) && receiving == old(receiving) - {p}
      ensures old(Faithful(slots, serials, answers)) ==> Faithful(slots, serials, answers)
      ensures old(DistinctIds(slots)) ==> DistinctIds(slots)
    {
      hide IdOf, SlotsOk, SerialsOk, ToolsOk, AnswersOk;
      r, blocked, id, caller, params := OK, false, 0, 0, "";
      var i := FindWaiting(p);
      k := i;
      if i < SLOTS {
        id, caller, params := slots[i].id, slots[i].caller, slots[i].params;
        DeliverKeeps(slots, calling, alive, serials, issued, log, answers, k);
        slots := slots[i := slots[i].(delivered := true)];
        log := log + [serials[k]];
        receiving := receiving - {p};
        return;
      }
      if p in killed {
        r := -1;
        receiving := receiving - {p};
        return;
      }
      blocked := true;
      asleep := asleep + {p};
      if late {
        killed, missed := killed + {p}, missed + {p};
      }
    }

    /** agent_tool_reply by a service that means the request numbered meant. It answers the first
      * slot with that id and service; with distinct ids that is the slot of the meant request. */
    method Reply(p: int, id: int, result: string, status: int, ghost meant: nat) returns (r: int, ghost k: nat)
      requires Valid() && p in alive && p !in calling
      modifies this`slots, this`asleep, this`answers
      ensures Valid()
      ensures k <= SLOTS && (k == SLOTS <==> forall i :: 0 <= i < SLOTS ==> !Matches(old(slots)[i], p, id))
      ensures k < SLOTS ==> Matches(old(slots)[k], p, id) && forall i :: 0 <= i < k ==> !Matches(old(slots)[i], p, id)
      ensures r == if k < SLOTS then OK else ERR_BAD_PARAM
      ensures k == SLOTS ==> slots == old(slots) && asleep == old(asleep) && answers == old(answers)
      ensures k < SLOTS ==>
                && asleep == {}
                && slots == old(slots)[k := old(slots)[k].(status := status, result := result, replied := true)]
      ensures k < SLOTS ==> answers == old(answers)[k := ByService(meant, status, result)]
      ensures old(DistinctIds(slots)) ==> DistinctIds(slots)
      ensures old(Faithful(slots, serials, answers)) && k < SLOTS ==>
                (Faithful(slots, serials, answers) <==> serials[k] == meant)
      ensures old(DistinctIds(slots)) && k < SLOTS ==>
                forall j :: 0 <= j < SLOTS && Matches(old(slots)[j], p, id) && serials[j] == meant ==> k == j
    {
      hide IdOf;
      k := 0;
      var i := 0;
      while i < SLOTS
        invariant i <= SLOTS && k == i
        invariant forall j :: 0 <= j < i ==> !Matches(slots[j], p, id)
      {
        if slots[i].used && slots[i].id == id && slots[i].service == p {
          break;
        }
        i, k := i + 1, k + 1;
      }
      if i == SLOTS {
        return ERR_BAD_PARAM, k;
      }
      AnswerKeeps(slots, calling, alive, serials, issued, log, answers, k,
                  slots[k].(status := status, result := result, replied := true), ByService(meant, status, result));
      slots := slots[i := slots[i].(status := status, result := result, replied := true)];
      answers := answers[k := ByService(meant, status, result)];
      asleep := {};
      r := OK;
    }

    /** kill: it wakes its victim. */
    method Kill(p: int)
      requires Valid()
      modifies this`killed, this`asleep
      ensures Valid() && killed == old(killed) + {p} && asleep == old(asleep) - {p}
    {
      killed := killed + {p};
      asleep := asleep - {p};
    }

    /** The tool and request part of agent_proc_exit: the process's tools go, and every caller
      * still waiting for it is told so. */
    method Exit(p: int)
      requires Valid() && p in alive && p !in calling && p !in receiving
      modifies this`tools, this`slots, this`answers, this`asleep, this`alive
      ensures Valid() && alive == old(alive) - {p} && asleep == {}
      ensures forall i :: 0 <= i < TOOLS ==>
                tools[i] == if old(tools)[i].used && old(tools)[i].owner == p then NO_TOOL else old(tools)[i]
      ensures forall k :: 0 <= k < SLOTS ==> slots[k] == Retired(old(slots)[k], p)
      ensures forall k :: 0 <= k < SLOTS && slots[k].used && slots[k].service == p ==> slots[k].replied
      ensures old(Faithful(slots, serials, answers)) ==> Faithful(slots, serials, answers)
      ensures old(DistinctIds(slots)) ==> DistinctIds(slots)
    {
      hide IdOf, Retired, SlotsOk, SerialsOk, AnswersOk, DistinctIds, Faithful;
      RetireSizes(slots, serials, answers, issued, log);
      DropTools(p);
      RetireSlots(p);
      RetireKeeps(old(slots), slots, calling, alive, serials, issued, log, old(answers), answers, p);
      RetireIds(old(slots), slots, serials, old(answers), answers, p);
      alive := alive - {p};
      asleep := {};
    }

    method DropTools(p: int)
      requires |tools| == TOOLS
      modifies this`tools
      ensures |tools| == TOOLS
      ensures forall j :: 0 <= j < TOOLS ==>
                tools[j] == if old(tools)[j].used && old(tools)[j].owner == p then NO_TOOL else old(tools)[j]
    {
      var i := 0;
      while i < TOOLS
        invariant i <= TOOLS && |tools| == TOOLS
        invariant forall j :: 0 <= j < i ==>
                    tools[j] == if old(tools)[j].used && old(tools)[j].owner == p then NO_TOOL else old(tools)[j]
        invariant forall j :: i <= j < TOOLS ==> tools[j] == old(tools)[j]
      {
        if tools[i].used && tools[i].owner == p {
          tools := tools[i := NO_TOOL];
        }
        i := i + 1;
      }
    }

    /** No slot in use belongs to an exiting caller, so the branch that clears one is never taken. */
    method RetireSlots(p: int)
      requires SlotsOk(slots, calling, alive) && p !in calling && |answers| == SLOTS
      modifies this`slots, this`answers
      ensures |slots| == |answers| == SLOTS
      ensures forall j :: 0 <= j < SLOTS ==> slots[j] == Retired(old(slots)[j], p)
      ensures forall j :: 0 <= j < SLOTS ==> answers[j] == if slots[j] == old(slots)[j] then old(answers)[j] else ByExit
    {
      var i := 0;
      while i < SLOTS
        invariant i <= SLOTS && |slots| == |answers| == SLOTS
        invariant forall j :: 0 <= j < i ==>
                    && slots[j] == Retired(old(slots)[j], p)
                    && answers[j] == if slots[j] == old(slots)[j] then old(answers)[j] else ByExit
        invariant forall j :: i <= j < SLOTS ==> slots[j] == old(slots)[j] && answers[j] == old(answers)[j]
      {
        var s := slots[i];
        if s.used {
          if s.caller == p {
            assert false;
          } else if s.service == p && !s.replied {
            slots := slots[i := s.(status := ERR_SERVICE_GONE, result := "tool service exited", replied := true)];
            answers := answers[i := ByExit];
          }
        }
        i := i + 1;
      }
    }

    /** A process is created; its killed flag is clear. */
    method Birth(p: int)
      requires Valid() && p !in alive && p !in receiving
      modifies this`alive, this`killed
      ensures Valid() && alive == old(alive) + {p} && killed == old(killed) - {p}
    {
      alive := alive + {p};
      killed := killed - {p};
    }
  }

  lemma OpenKeeps(slots: seq<Slot>, calling: map<int, Frame>, alive: set<int>, serials: seq<nat>, issued: nat,
                  log: seq<nat>, k: nat, s: Slot)
    requires SlotsOk(slots, calling, alive) && SerialsOk(slots, serials, issued, log)
    requires k < SLOTS && !slots[k].used && s.used && !s.replied && !s.delivered && s.id == IdOf(issued)
    requires s.service in alive && s.caller in alive && s.caller !in calling
    ensures SlotsOk(slots[k := s], calling[s.caller := Frame(k, s.id)], alive)
    ensures |serials| == SLOTS && SerialsOk(slots[k := s], serials[k := issued], issued + 1, log)
  {
    hide IdOf;
  }

  /** The new request wakes everybody and has no answer yet. */
  lemma OpenCalm(slots: seq<Slot>, calling: map<int, Frame>, receiving: set<int>, asleep: set<int>, killed: set<int>,
                 missed: set<int>, serials: seq<nat>, issued: nat, log: seq<nat>, answers: seq<Answer>, k: nat,
                 s: Slot)
    requires SleepOk(slots, calling, receiving, asleep, killed, missed) && AnswersOk(slots, answers)
    requires SerialsOk(slots, serials, issued, log) && k < SLOTS && s.caller !in calling && s.caller !in receiving
    requires s.used && !s.replied && !s.delivered
    ensures |slots| == |answers| == SLOTS
    ensures SleepOk(slots[k := s], calling[s.caller := Frame(k, s.id)], receiving, {}, killed, missed)
    ensures AnswersOk(slots[k := s], answers[k := Unanswered])
    ensures Faithful(slots, serials, answers) ==>
              Faithful(slots[k := s], serials[k := issued], answers[k := Unanswered])
  {
  }

  lemma OpenIds(slots: seq<Slot>, k: nat, s: Slot)
    requires |slots| == SLOTS && k < SLOTS && !slots[k].used && s.used
    ensures DistinctIds(slots[k := s]) <==>
              DistinctIds(slots) && forall j :: 0 <= j < SLOTS && slots[j].used ==> slots[j].id != s.id
  {
    var slots' := slots[k := s];
    if DistinctIds(slots') {
      forall j | 0 <= j < SLOTS && slots[j].used
        ensures slots[j].id != s.id
      {
        assert slots'[j] == slots[j] && slots'[k] == s;
      }
      forall i, j | 0 <= i < j < SLOTS && slots[i].used && slots[j].used
        ensures slots[i].id != slots[j].id
      {
        assert slots'[j] == slots[j] && slots'[i] == slots[i];
      }
    }
  }

  lemma FrameFacts(slots: seq<Slot>, calling: map<int, Frame>, alive: set<int>, serials: seq<nat>, issued: nat,
                   log: seq<nat>, p: int)
    requires SlotsOk(slots, calling, alive) && SerialsOk(slots, serials, issued, log) && p in calling
    ensures |slots| == |serials| == SLOTS && calling[p].slot < SLOTS
    ensures slots[calling[p].slot].used && slots[calling[p].slot].id == calling[p].id
    ensures forall q :: q in calling && q != p ==> calling[q].slot != calling[p].slot
  {
    hide IdOf;
  }

  lemma CloseKeeps(slots: seq<Slot>, calling: map<int, Frame>, alive: set<int>, serials: seq<nat>, issued: nat,
                   log: seq<nat>, p: int)
    requires SlotsOk(slots, calling, alive) && SerialsOk(slots, serials, issued, log) && p in calling
    ensures SlotsOk(slots[calling[p].slot := NO_SLOT], calling - {p}, alive)
    ensures SerialsOk(slots[calling[p].slot := NO_SLOT], serials, issued, log)
  {
    hide IdOf;
  }

  lemma DeliverKeeps(slots: seq<Slot>, calling: map<int, Frame>, alive: set<int>, serials: seq<nat>, issued: nat,
                     log: seq<nat>, answers: seq<Answer>, k: nat)
    requires SlotsOk(slots, calling, alive) && SerialsOk(slots, serials, issued, log) && AnswersOk(slots, answers)
    requires k < SLOTS && slots[k].used && !slots[k].delivered
    ensures AnswersOk(slots[k := slots[k].(delivered := true)], answers) && |serials| == |answers| == SLOTS
    ensures SlotsOk(slots[k := slots[k].(delivered := true)], calling, alive)
    ensures SerialsOk(slots[k := slots[k].(delivered := true)], serials, issued, log + [serials[k]])
    ensures serials[k] !in log
  {
    hide IdOf;
  }

  lemma AnswerKeeps(slots: seq<Slot>, calling: map<int, Frame>, alive: set<int>, serials: seq<nat>, issued: nat,
                    log: seq<nat>, answers: seq<Answer>, k: nat, s: Slot, a: Answer)
    requires SlotsOk(slots, calling, alive) && SerialsOk(slots, serials, issued, log) && AnswersOk(slots, answers)
    requires k < SLOTS && slots[k].used && s == slots[k].(status := s.status, result := s.result, replied := true)
    requires AnswerOk(s, a)
    ensures SlotsOk(slots[k := s], calling, alive) && SerialsOk(slots[k := s], serials, issued, log)
    ensures AnswersOk(slots[k := s], answers[k := a])
  {
    hide IdOf;
  }

  lemma RetireKeeps(slots: seq<Slot>, slots': seq<Slot>, calling: map<int, Frame>, alive: set<int>, serials: seq<nat>,
                    issued: nat, log: seq<nat>, answers: seq<Answer>, answers': seq<Answer>, p: int)
    requires SlotsOk(slots, calling, alive) && SerialsOk(slots, serials, issued, log) && AnswersOk(slots, answers)
    requires p !in calling
    requires |slots'| == |answers'| == SLOTS && forall k :: 0 <= k < SLOTS ==> slots'[k] == Retired(slots[k], p)
    requires forall k :: 0 <= k < SLOTS ==> answers'[k] == if slots'[k] == slots[k] then answers[k] else ByExit
    ensures SlotsOk(slots', calling, alive - {p}) && SerialsOk(slots', serials, issued, log)
    ensures AnswersOk(slots', answers')
    ensures forall k :: 0 <= k < SLOTS ==> slots'[k].used == slots[k].used && slots'[k].delivered == slots[k].delivered
    ensures forall k :: 0 <= k < SLOTS && slots'[k].used && slots'[k].service == p ==> slots'[k].replied
  {
    hide IdOf;
  }

  lemma RetireSizes(slots: seq<Slot>, serials: seq<nat>, answers: seq<Answer>, issued: nat, log: seq<nat>)
    requires SerialsOk(slots, serials, issued, log) && AnswersOk(slots, answers)
    ensures |slots| == |serials| == |answers| == SLOTS
  {
  }

  lemma RetireIds(slots: seq<Slot>, slots': seq<Slot>, serials: seq<nat>, answers: seq<Answer>, answers': seq<Answer>,
                  p: int)
    requires |slots| == |slots'| == |answers| == |answers'| == |serials| == SLOTS
    requires forall k :: 0 <= k < SLOTS ==> slots'[k] == Retired(slots[k], p)
    requires forall k :: 0 <= k < SLOTS ==> answers'[k] == if slots'[k] == slots[k] then answers[k] else ByExit
    ensures Faithful(slots, serials, answers) ==> Faithful(slots', serials, answers')
    ensures DistinctIds(slots) ==> DistinctIds(slots')
  {
  }

  /** Services, callers and the one tool of the scenario below, after n requests. */
  ghost predicate Scene(w: Runtime, n: nat)
    reads w
  {
    && w.Valid() && w.issued == n && w.alive == {1, 2, 3} && w.killed == {} && w.receiving == {}
    && (exists t :: 0 <= t < TOOLS && w.tools[t].used)
    && (forall t :: 0 <= t < TOOLS && w.tools[t].used ==> w.tools[t] == Tool(true, "t", 1, 0, true))
  }

  /** Caller 2 waits in slot 0 on request 0, and nobody else waits. */
  ghost predicate OneWaiting(w: Runtime)
    reads w
  {
    && w.slots == seq(SLOTS, i => NO_SLOT)[0 := Slot(true, false, false, 1, 2, 1, 0, "t", "", "")]
    && w.calling == map[2 := Frame(0, 1)]
    && |w.serials| == |w.answers| == SLOTS && w.serials[0] == 0 && w.answers[0] == Unanswered
  }

  method SetScene() returns (w: Runtime)
    ensures fresh(w) && Scene(w, 1) && OneWaiting(w)
  {
    hide IdOf, SlotsOk, SerialsOk, SleepOk, AnswersOk, ToolsOk, DistinctIds, Faithful;
    w := SetTool();
    assert !w.slots[0].used;
    FirstIds();
    var r := w.CallBegin(2, "t", "", _ => true);
  }

  method SetTool() returns (w: Runtime)
    ensures fresh(w) && Scene(w, 0) && w.slots == seq(SLOTS, i => NO_SLOT) && w.calling == map[]
  {
    hide IdOf, SlotsOk, SerialsOk, SleepOk, AnswersOk, ToolsOk, DistinctIds, Faithful;
    w := new Runtime();
    w.Birth(1);
    w.Birth(2);
    w.Birth(3);
    assert w.alive == {1, 2, 3} && !w.tools[0].used;
    ghost var before := w.tools;
    var r := w.Register(1, "t", 0, FLAG_PUBLIC, true, true, false);
    assert r == OK;
    ghost var i :| 0 <= i < TOOLS && FirstFree(before, i) && w.tools == before[i := Tool(true, "t", 1, 0, true)];
    assert w.tools[i].used;
  }

  lemma FirstIds()
    ensures IdOf(0) == 1 && IdOf(INT_MAX) == 1
  {
  }

  /** Caller 3 makes request n and is answered. */
  method SpendOne(w: Runtime, n: nat)
    requires Scene(w, n) && OneWaiting(w) && 0 < n < INT_MAX
    modifies w
    ensures Scene(w, n + 1) && OneWaiting(w)
  {
    hide IdOf, SlotsOk, SerialsOk, SleepOk, AnswersOk, ToolsOk, DistinctIds, Faithful;
    IdsApart(0, n);
    FirstIds();
    assert !w.slots[1].used;
    var r := w.CallBegin(3, "t", "", _ => true);
    ghost var k;
    assert Matches(w.slots[1], 1, IdOf(n));
    r, k := w.Reply(1, IdOf(n), "", 0, n);
    var o := w.CallTurn(3, false);
  }

  method UseUpIds() returns (w: Runtime)
    ensures fresh(w) && Scene(w, INT_MAX) && OneWaiting(w)
  {
    hide IdOf;
    w := SetScene();
    var n := 1;
    while n < INT_MAX
      invariant 1 <= n <= INT_MAX && fresh(w) && Scene(w, n) && OneWaiting(w)
    {
      SpendOne(w, n);
      n := n + 1;
    }
  }

  /** The counter comes round: caller 2 is still waiting on request 0 when request INT_MAX draws
    * the same id for caller 3, and the answer meant for caller 3 goes to caller 2. */
  method IdClash(answer: string) returns (w: Runtime)
    ensures w.Valid() && !DistinctIds(w.slots) && !Faithful(w.slots, w.serials, w.answers)
    ensures 2 in w.calling && w.calling[2].slot == 0 && 3 in w.calling && w.calling[3].slot == 1
    ensures w.serials[0] == 0 && w.slots[0].replied && w.slots[0].result == answer
    ensures w.answers[0] == ByService(INT_MAX, 0, answer)
    ensures w.serials[1] == INT_MAX && !w.slots[1].replied
  {
    hide IdOf, SlotsOk, SerialsOk, SleepOk, AnswersOk, ToolsOk;
    w := UseUpIds();
    FirstIds();
    assert !w.slots[1].used;
    var r := w.CallBegin(3, "t", "", _ => true);
    ghost var k;
    assert Matches(w.slots[0], 1, 1);
    r, k := w.Reply(1, 1, answer, 0, INT_MAX);
    assert w.slots[0].id == w.slots[1].id;
  }

  /** A kill that comes too late for the look at the flag and too early for the sleep: the service has been
    * killed and goes on sleeping, with nobody due to wake it. */
  method MissedKill() returns (w: Runtime)
    ensures w.Valid() && 1 in w.killed && 1 in w.asleep && 1 in w.receiving && w.calling == map[]
  {
    w := new Runtime();
    w.Birth(1);
    w.RecvBegin(1);
    var r, blocked, id, caller, params;
    ghost var k;
    r, blocked, id, caller, params, k := w.RecvTurn(1, true);
  }
}
