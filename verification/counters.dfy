/** The counter map of FacebookBase under its two levels of read/write locks, as interleaved steps of
    any number of threads. A lock is its contract: a reader waits for writers, a writer for all. */
module Counters {
  import opened Bits
  import opened Wrappers

  type Key = string
  type Tid = nat

  datatype Op =
    | Increment(key: Key, amount: int)
    | Set(key: Key, value: int)
    | Get(key: Key)

  predicate ValidOp(op: Op) {
    match op
    case Increment(_, amount) => IsInt64(amount)
    case Set(_, value) => IsInt64(value)
    case Get(_) => true
  }

  datatype Mode = Reader | Writer

  /** Where a thread is, and the locals it carries. */
  datatype Pc =
    | Idle
    | Entered(op: Op)                           // before counters_.acquireRead()
    | Looking(op: Op)                           // map read; before find
    | Missed(op: Op)                            // map read; key not there, before release
    | Upgrading(op: Op)                         // no lock; before counters_.acquireWrite()
    | Rechecking(op: Op)                        // map write; before the second find, or counters_[key]
    | Creating(op: Op)                          // map write; before counters_[key]
    | Inserted(op: Op)                          // map write; element there, value not assigned
    | Created(op: Op, ret: int)                 // map write; before release
    | Found(op: Op, mode: Mode)                 // map held; before the key's lock
    | Holding(op: Op, mode: Mode)               // both held; before the value is touched
    | Computed(op: Op, mode: Mode, count: int)  // both held; sum in a local, before the store
    | Stored(op: Op, mode: Mode, ret: int)      // both held; before the key's release
    | Unlocked(op: Op, mode: Mode, ret: int)    // map held; before release
    | Done(op: Op, ret: int)                    // no lock; before return

  /** Invoke and Return are the ends of a call; Take marks the moment it takes effect. */
  datatype Event = Invoke(t: Tid, op: Op) | Take(t: Tid, op: Op, ret: int) | Return(t: Tid, op: Op, ret: int)

  datatype State = State(counters: map<Key, int>, threads: map<Tid, Pc>, trace: seq<Event>)

  const START := State(map[], map[], [])

  function At(s: State, t: Tid): Pc {
    if t in s.threads then s.threads[t] else Idle
  }

  predicate HoldsMap(p: Pc) {
    !p.Idle? && !p.Entered? && !p.Upgrading? && !p.Done?
  }

  predicate WritesMap(p: Pc) {
    || p.Rechecking? || p.Creating? || p.Inserted? || p.Created?
    || ((p.Found? || p.Holding? || p.Computed? || p.Stored? || p.Unlocked?) && p.mode == Writer)
  }

  predicate HoldsKey(p: Pc, key: Key) {
    (p.Holding? || p.Computed? || p.Stored?) && p.op.key == key
  }

  predicate WritesKey(p: Pc, key: Key) {
    HoldsKey(p, key) && !p.op.Get?
  }

  predicate MapFreeOfWriters(s: State) {
    forall u | u in s.threads :: !WritesMap(s.threads[u])
  }

  predicate MapFree(s: State) {
    forall u | u in s.threads :: !HoldsMap(s.threads[u])
  }

  predicate KeyFreeOfWriters(s: State, key: Key) {
    forall u | u in s.threads :: !WritesKey(s.threads[u], key)
  }

  predicate KeyFree(s: State, key: Key) {
    forall u | u in s.threads :: !HoldsKey(s.threads[u], key)
  }

  datatype Effect = Effect(pc: Pc, counters: map<Key, int>, events: seq<Event>)

  function Value(s: State, key: Key): int {
    if key in s.counters then s.counters[key] else 0
  }

  function Assigned(op: Op): int {
    match op
    case Increment(_, amount) => amount
    case Set(_, value) => value
    case Get(_) => 0
  }

  function Go(s: State, pc: Pc): Option<Effect> {
    Some(Effect(pc, s.counters, []))
  }

  /** One step of thread t; None when it must wait. `call` is the call an idle thread makes, `junk`
      the value of an element that counters_[key] has just inserted. */
  function Move(s: State, t: Tid, call: Op, junk: int): Option<Effect> {
    match At(s, t)
    case Idle => if ValidOp(call) then Some(Effect(Entered(call), s.counters, [Invoke(t, call)])) else None
    case Entered(op) => if MapFreeOfWriters(s) then Go(s, Looking(op)) else None
    case Looking(op) =>
      if op.key in s.counters then Go(s, Found(op, Reader))
      else if op.Get? then Some(Effect(Unlocked(op, Reader, 0), s.counters, [Take(t, op, 0)]))
      else Go(s, Missed(op))
    case Missed(op) => Go(s, Upgrading(op))
    case Upgrading(op) => if MapFree(s) then Go(s, Rechecking(op)) else None
    case Rechecking(op) =>
      if op.Set? then Some(Effect(Inserted(op), WithElement(s.counters, op.key, junk), []))
      else if op.key in s.counters then Go(s, Found(op, Writer))
      else Go(s, Creating(op))
    case Creating(op) => Some(Effect(Inserted(op), WithElement(s.counters, op.key, junk), []))
    case Inserted(op) =>
      var v := Assigned(op);
      Some(Effect(Created(op, v), s.counters[op.key := v], [Take(t, op, v)]))
    case Created(op, ret) => Go(s, Done(op, ret))
    case Found(op, mode) =>
      if (if op.Get? then KeyFreeOfWriters(s, op.key) else KeyFree(s, op.key)) then Go(s, Holding(op, mode))
      else None
    case Holding(op, mode) => (match op
      case Increment(key, amount) => Go(s, Computed(op, mode, S64(Value(s, key) + amount)))
      case Set(key, value) => Some(Effect(Stored(op, mode, value), s.counters[key := value], [Take(t, op, value)]))
      case Get(key) => Some(Effect(Stored(op, mode, Value(s, key)), s.counters, [Take(t, op, Value(s, key))])))
    case Computed(op, mode, count) =>
      Some(Effect(Stored(op, mode, count), s.counters[op.key := count], [Take(t, op, count)]))
    case Stored(op, mode, ret) => Go(s, Unlocked(op, mode, ret))
    case Unlocked(op, mode, ret) => Go(s, Done(op, ret))
    case Done(op, ret) => Some(Effect(Idle, s.counters, [Return(t, op, ret)]))
  }

  // counters_[key]: the element, inserted when it is not there
  function WithElement(m: map<Key, int>, key: Key, junk: int): map<Key, int> {
    if key in m then m else m[key := junk]
  }

  datatype Choice = Choice(t: Tid, call: Op, junk: int)

  function Next(s: State, c: Choice): State {
    match Move(s, c.t, c.call, c.junk)
    case Some(e) => State(e.counters, s.threads[c.t := e.pc], s.trace + e.events)
    case None => s
  }

  /** A run: any schedule of any threads making any calls; a choice that must wait changes nothing. */
  function Run(choices: seq<Choice>): State {
    if choices == [] then START else Next(Run(choices[..|choices| - 1]), choices[|choices| - 1])
  }

  // ----- the sequential map -----

  function ApplyMap(m: map<Key, int>, op: Op): map<Key, int> {
    match op
    case Increment(key, amount) => m[key := if key in m then S64(m[key] + amount) else amount]
    case Set(key, value) => m[key := value]
    case Get(_) => m
  }

  function ApplyRet(m: map<Key, int>, op: Op): int {
    match op
    case Increment(key, amount) => if key in m then S64(m[key] + amount) else amount
    case Set(_, value) => value
    case Get(key) => if key in m then m[key] else 0
  }

  /** The map after the calls that took effect, in that order, each as one atomic operation. */
  function Replay(trace: seq<Event>): map<Key, int> {
    if trace == [] then map[]
    else
      var m, e := Replay(trace[..|trace| - 1]), trace[|trace| - 1];
      if e.Take? then ApplyMap(m, e.op) else m
  }

  /** Every value a call took is the one the atomic operation gives at that point. */
  predicate Sequential(trace: seq<Event>) {
    trace == [] ||
    var before, e := trace[..|trace| - 1], trace[|trace| - 1];
    Sequential(before) && (e.Take? ==> e.ret == ApplyRet(Replay(before), e.op))
  }

  datatype Phase = Outside | Invoked(op: Op) | Taken(op: Op, ret: int) | Broken

  function NextPhase(p: Phase, e: Event): Phase {
    match (p, e)
    case (Outside, Invoke(_, op)) => Invoked(op)
    case (Invoked(op), Take(_, op', ret)) => if op == op' then Taken(op, ret) else Broken
    case (Taken(op, ret), Return(_, op', ret')) => if op == op' && ret == ret' then Outside else Broken
    case _ => Broken
  }

  /** Follows one thread through the trace: Invoke, Take, Return in turn, for the same call and with
      the value taken as the value returned. */
  function PhaseOf(trace: seq<Event>, t: Tid): Phase {
    if trace == [] then Outside
    else
      var p, e := PhaseOf(trace[..|trace| - 1], t), trace[|trace| - 1];
      if e.t != t then p else NextPhase(p, e)
  }

  function PhaseAt(p: Pc): Phase {
    match p
    case Idle => Outside
    case Created(op, ret) => Taken(op, ret)
    case Stored(op, _, ret) => Taken(op, ret)
    case Unlocked(op, _, ret) => Taken(op, ret)
    case Done(op, ret) => Taken(op, ret)
    case _ => Invoked(p.op)
  }

  // ----- the invariant -----

  predicate Compatible(p: Pc, q: Pc) {
    && (WritesMap(p) ==> !HoldsMap(q))
    && ((p.Holding? || p.Computed? || p.Stored?) && WritesKey(p, p.op.key) ==> !HoldsKey(q, p.op.key))
  }

  ghost predicate Exclusive(s: State) {
    forall t, u | t in s.threads && u in s.threads && t != u :: Compatible(s.threads[t], s.threads[u])
  }

  predicate PcOk(counters: map<Key, int>, p: Pc) {
    match p
    case Idle => true
    case Entered(op) => ValidOp(op)
    case Looking(op) => ValidOp(op)
    case Missed(op) => ValidOp(op) && !op.Get?
    case Upgrading(op) => ValidOp(op) && !op.Get?
    case Rechecking(op) => ValidOp(op) && !op.Get?
    case Creating(op) => ValidOp(op) && op.Increment? && op.key !in counters
    case Inserted(op) => ValidOp(op) && !op.Get? && op.key in counters
    case Created(op, _) => ValidOp(op)
    case Found(op, mode) => ValidOp(op) && op.key in counters && (mode == Writer ==> op.Increment?)
    case Holding(op, _) => ValidOp(op) && op.key in counters
    case Computed(op, _, count) =>
      ValidOp(op) && op.Increment? && op.key in counters && count == S64(counters[op.key] + op.amount)
    case Stored(op, _, _) => ValidOp(op)
    case Unlocked(op, _, _) => ValidOp(op)
    case Done(op, _) => ValidOp(op)
  }

  ghost predicate PcsOk(s: State) {
    forall t | t in s.threads :: PcOk(s.counters, s.threads[t])
  }

  ghost predicate PhasesOk(s: State) {
    forall t: Tid :: PhaseOf(s.trace, t) == PhaseAt(At(s, t))
  }

  predicate Inserting(s: State, t: Tid, key: Key) {
    t in s.threads && s.threads[t].Inserted? && s.threads[t].op.key == key
  }

  /** An element that a writer has inserted but not assigned; the writer has the map to itself. */
  ghost predicate Unassigned(s: State, key: Key) {
    exists t :: Inserting(s, t, key)
  }

  /** The map holds the replayed values, and nothing else but a key under creation. */
  ghost predicate Agrees(s: State, m: map<Key, int>) {
    ValuesAgree(s.counters, m) && KeysAgree(s, m) && NotYet(s, m)
  }

  predicate ValuesAgree(counters: map<Key, int>, m: map<Key, int>) {
    forall k | k in m :: k in counters && counters[k] == m[k]
  }

  ghost predicate KeysAgree(s: State, m: map<Key, int>) {
    forall k | k in s.counters :: k in m || Unassigned(s, k)
  }

  predicate NotYet(s: State, m: map<Key, int>) {
    forall t | t in s.threads && s.threads[t].Inserted? && s.threads[t].op.Increment? :: s.threads[t].op.key !in m
  }

  ghost predicate Inv(s: State) {
    && Exclusive(s)
    && PcsOk(s)
    && PhasesOk(s)
    && Sequential(s.trace)
    && Agrees(s, Replay(s.trace))
  }

  // ----- every step keeps it -----

  /** A step changes the map only under the locks that cover the change. */
  lemma Covered(s: State, t: Tid, call: Op, junk: int, k: Key)
    requires Inv(s) && Move(s, t, call, junk).Some?
    ensures var m := Move(s, t, call, junk).value.counters;
            && (k in s.counters ==> k in m)
            && (k in m && k !in s.counters ==> WritesMap(At(s, t)))
            && (k in m && k in s.counters && m[k] != s.counters[k] ==> WritesMap(At(s, t)) || WritesKey(At(s, t), k))
  {
  }

  lemma PairKept(s: State, t: Tid, call: Op, junk: int, u: Tid)
    requires Exclusive(s) && PcsOk(s) && Move(s, t, call, junk).Some? && u in s.threads && u != t
    ensures var p := Move(s, t, call, junk).value.pc;
            Compatible(p, s.threads[u]) && Compatible(s.threads[u], p)
  {
    hide Exclusive;
    if t in s.threads {
      assert Compatible(s.threads[t], s.threads[u]) && Compatible(s.threads[u], s.threads[t]) by {
        ExclusivePair(s, t, u);
      }
    }
  }

  lemma ExclusivePair(s: State, t: Tid, u: Tid)
    requires Exclusive(s) && t in s.threads && u in s.threads && t != u
    ensures Compatible(s.threads[t], s.threads[u]) && Compatible(s.threads[u], s.threads[t])
  {
  }

  lemma ExclusiveKept(s: State, c: Choice)
    requires Inv(s)
    ensures Exclusive(Next(s, c))
  {
    if Move(s, c.t, c.call, c.junk).Some? {
      forall u | u in s.threads && u != c.t
        ensures var p := Move(s, c.t, c.call, c.junk).value.pc;
                Compatible(p, s.threads[u]) && Compatible(s.threads[u], p)
      {
        PairKept(s, c.t, c.call, c.junk, u);
      }
      hide Move, Compatible;
    }
  }

  lemma OtherPcKept(s: State, t: Tid, call: Op, junk: int, u: Tid)
    requires Inv(s) && Move(s, t, call, junk).Some? && u in s.threads && u != t
    ensures PcOk(Move(s, t, call, junk).value.counters, s.threads[u])
  {
    hide Move, Inv;
    var p := s.threads[u];
    assert PcOk(s.counters, p) && (t in s.threads ==> Compatible(p, s.threads[t]) && Compatible(s.threads[t], p)) by {
      FromInv(s, t, u);
    }
    if !p.Idle? {
      Covered(s, t, call, junk, p.op.key);
    }
  }

  lemma FromInv(s: State, t: Tid, u: Tid)
    requires Inv(s) && u in s.threads && u != t
    ensures PcOk(s.counters, s.threads[u])
    ensures t in s.threads ==> Compatible(s.threads[u], s.threads[t]) && Compatible(s.threads[t], s.threads[u])
  {
  }

  lemma OwnPcKept(s: State, t: Tid, call: Op, junk: int)
    requires Inv(s) && Move(s, t, call, junk).Some?
    ensures var e := Move(s, t, call, junk).value; PcOk(e.counters, e.pc)
  {
    assert t in s.threads ==> PcOk(s.counters, s.threads[t]);
    hide Inv;
  }

  lemma PcsKept(s: State, c: Choice)
    requires Inv(s)
    ensures PcsOk(Next(s, c))
  {
    hide Move, PcOk;
    if Move(s, c.t, c.call, c.junk).Some? {
      forall u | u in s.threads && u != c.t
        ensures PcOk(Move(s, c.t, c.call, c.junk).value.counters, s.threads[u])
      {
        OtherPcKept(s, c.t, c.call, c.junk, u);
      }
      OwnPcKept(s, c.t, c.call, c.junk);
    }
  }

  /** A step emits nothing, or one event of its own thread. */
  lemma OneEvent(s: State, t: Tid, call: Op, junk: int)
    requires Move(s, t, call, junk).Some?
    ensures var es := Move(s, t, call, junk).value.events;
            es == [] || (|es| == 1 && es[0].t == t)
  {
  }

  lemma PhaseSnoc(trace: seq<Event>, e: Event, t: Tid)
    ensures e.t != t ==> PhaseOf(trace + [e], t) == PhaseOf(trace, t)
  {
    assert (trace + [e])[..|trace|] == trace;
  }

  /** The phase moves with the program counter. */
  lemma PhaseMoves(s: State, t: Tid, call: Op, junk: int)
    requires Move(s, t, call, junk).Some?
    ensures var e := Move(s, t, call, junk).value;
            PhaseAt(e.pc) == if e.events == [] then PhaseAt(At(s, t)) else NextPhase(PhaseAt(At(s, t)), e.events[0])
  {
    hide MapFree, MapFreeOfWriters, KeyFree, KeyFreeOfWriters, ValidOp;
  }

  lemma OwnPhaseKept(s: State, t: Tid, call: Op, junk: int)
    requires PhasesOk(s) && Move(s, t, call, junk).Some?
    ensures var e := Move(s, t, call, junk).value; PhaseOf(s.trace + e.events, t) == PhaseAt(e.pc)
  {
    hide Move, PhaseOf, PhaseAt;
    PhaseMoves(s, t, call, junk);
    var es := Move(s, t, call, junk).value.events;
    OneEvent(s, t, call, junk);
    if es == [] {
      assert s.trace + es == s.trace;
    } else {
      OwnPhase(s.trace, es[0]);
      assert es == [es[0]];
    }
  }

  lemma OwnPhase(trace: seq<Event>, e: Event)
    ensures PhaseOf(trace + [e], e.t) == NextPhase(PhaseOf(trace, e.t), e)
  {
    assert (trace + [e])[..|trace|] == trace;
  }

  lemma PhasesKept(s: State, c: Choice)
    requires Inv(s)
    ensures PhasesOk(Next(s, c))
  {
    hide Move, PhaseOf, PhaseAt;
    if Move(s, c.t, c.call, c.junk).Some? {
      var es := Move(s, c.t, c.call, c.junk).value.events;
      OneEvent(s, c.t, c.call, c.junk);
      OwnPhaseKept(s, c.t, c.call, c.junk);
      forall u: Tid | u != c.t
        ensures PhaseOf(s.trace + es, u) == PhaseOf(s.trace, u)
      {
        if es == [] {
          assert s.trace + es == s.trace;
        } else {
          assert es == [es[0]];
          PhaseSnoc(s.trace, es[0], u);
        }
      }
    }
  }

  /** While a thread holds the map and is not creating, no key is under creation. */
  lemma NoneUnassigned(s: State, t: Tid, k: Key)
    requires Exclusive(s) && HoldsMap(At(s, t)) && !At(s, t).Inserted?
    ensures !Unassigned(s, k)
  {
    if Unassigned(s, k) {
      var u :| Inserting(s, u, k);
      ExclusivePair(s, t, u);
    }
  }

  lemma TakenIsAtomic(s: State, t: Tid, call: Op, junk: int)
    requires Inv(s) && Move(s, t, call, junk).Some?
    ensures forall e | e in Move(s, t, call, junk).value.events && e.Take? ::
              e.ret == ApplyRet(Replay(s.trace), e.op)
  {
    hide Replay;
    var p := At(s, t);
    assert p.Idle? || (t in s.threads && PcOk(s.counters, p));
    if HoldsMap(p) && !p.Inserted? {
      NoneUnassigned(s, t, p.op.key);
    }
  }

  /** The replayed map after the step. */
  function After(s: State, es: seq<Event>): map<Key, int> {
    Replay(s.trace + es)
  }

  lemma AfterIs(s: State, es: seq<Event>)
    requires |es| <= 1
    ensures After(s, es) == if es != [] && es[0].Take? then ApplyMap(Replay(s.trace), es[0].op) else Replay(s.trace)
    ensures Sequential(s.trace) && (es != [] && es[0].Take? ==> es[0].ret == ApplyRet(Replay(s.trace), es[0].op)) ==>
              Sequential(s.trace + es)
  {
    if es == [] {
      assert s.trace + es == s.trace;
    } else {
      assert (s.trace + es)[..|s.trace|] == s.trace;
    }
  }

  /** Keys under creation after the step: those of the other threads, and the stepping thread's. */
  lemma UnassignedAfter(s: State, c: Choice, k: Key)
    requires Move(s, c.t, c.call, c.junk).Some?
    requires Unassigned(s, k)
    ensures var p := Move(s, c.t, c.call, c.junk).value.pc;
            Unassigned(Next(s, c), k) || (Inserting(s, c.t, k) && !p.Inserted?)
  {
    hide Move;
    var u :| Inserting(s, u, k);
    if u != c.t {
      assert Inserting(Next(s, c), u, k);
    } else if Move(s, c.t, c.call, c.junk).value.pc.Inserted? {
      StillInserting(s, c);
    }
  }

  lemma StillInserting(s: State, c: Choice)
    requires c.t in s.threads && s.threads[c.t].Inserted? && Move(s, c.t, c.call, c.junk).Some?
    ensures !Move(s, c.t, c.call, c.junk).value.pc.Inserted?
  {
  }

  /** What the map says of a key that a thread is working on. */
  lemma WorkingKey(s: State, t: Tid)
    requires Inv(s) && HoldsMap(At(s, t)) && !At(s, t).Inserted?
    ensures var k, m := At(s, t).op.key, Replay(s.trace);
            (k in s.counters <==> k in m) && (k in m ==> s.counters[k] == m[k])
  {
    hide Replay;
    NoneUnassigned(s, t, At(s, t).op.key);
  }

  /** The effect of a step on the sequential map. */
  function Sequentially(m: map<Key, int>, es: seq<Event>): map<Key, int> {
    if es != [] && es[0].Take? then ApplyMap(m, es[0].op) else m
  }

  lemma ValuesKept(s: State, t: Tid, call: Op, junk: int)
    requires Inv(s) && Move(s, t, call, junk).Some?
    ensures var e := Move(s, t, call, junk).value;
            ValuesAgree(e.counters, Sequentially(Replay(s.trace), e.events))
  {
    hide Replay;
    var p := At(s, t);
    assert p.Idle? || (t in s.threads && PcOk(s.counters, p));
    assert p.Inserted? && p.op.Increment? ==> p.op.key !in Replay(s.trace);
    if HoldsMap(p) && !p.Inserted? {
      WorkingKey(s, t);
    }
    hide Inv;
  }

  /** A new element is under creation; an element that stops being under creation has been assigned. */
  lemma ElementsOfStep(s: State, t: Tid, call: Op, junk: int, k: Key)
    requires Move(s, t, call, junk).Some? && PcOk(s.counters, At(s, t))
    ensures var e := Move(s, t, call, junk).value;
            && (k in e.counters && k !in s.counters ==>
                  (e.pc.Inserted? && e.pc.op.key == k) || k in Sequentially(map[], e.events))
            && (Inserting(s, t, k) ==> k in Sequentially(map[], e.events))
  {
  }

  lemma SequentiallyGrows(m: map<Key, int>, es: seq<Event>, k: Key)
    ensures k in m || k in Sequentially(map[], es) <==> k in Sequentially(m, es)
  {
  }

  lemma KeysKept(s: State, c: Choice)
    requires Inv(s) && Move(s, c.t, c.call, c.junk).Some?
    ensures KeysAgree(Next(s, c), Sequentially(Replay(s.trace), Move(s, c.t, c.call, c.junk).value.events))
  {
    assert PcOk(s.counters, At(s, c.t));
    hide Replay, Move, Sequentially, Unassigned;
    var e := Move(s, c.t, c.call, c.junk).value;
    var s' := Next(s, c);
    forall k | k in s'.counters
      ensures k in Sequentially(Replay(s.trace), e.events) || Unassigned(s', k)
    {
      ElementsOfStep(s, c.t, c.call, c.junk, k);
      SequentiallyGrows(Replay(s.trace), e.events, k);
      if k in s.counters {
        if k !in Replay(s.trace) {
          UnassignedAfter(s, c, k);
        }
      } else if e.pc.Inserted? && e.pc.op.key == k {
        NowUnassigned(s', c.t, k);
      }
    }
  }

  lemma NowUnassigned(s: State, t: Tid, k: Key)
    requires Inserting(s, t, k)
    ensures Unassigned(s, k)
  {
  }

  /** Only a thread that holds the map takes effect, and only a creating one becomes Inserted. */
  lemma NotYetStep(s: State, t: Tid, call: Op, junk: int)
    requires Move(s, t, call, junk).Some? && (t in s.threads ==> PcOk(s.counters, s.threads[t]))
    ensures var e := Move(s, t, call, junk).value;
            && (e.events != [] && e.events[0].Take? ==> HoldsMap(At(s, t)))
            && (e.pc.Inserted? && e.pc.op.Increment? ==> e.events == [] && e.pc.op.key !in s.counters)
  {
  }

  lemma NotYetKept(s: State, c: Choice)
    requires Inv(s) && Move(s, c.t, c.call, c.junk).Some?
    ensures NotYet(Next(s, c), Sequentially(Replay(s.trace), Move(s, c.t, c.call, c.junk).value.events))
  {
    hide Replay, Move;
    var e := Move(s, c.t, c.call, c.junk).value;
    var s' := Next(s, c);
    NotYetStep(s, c.t, c.call, c.junk);
    forall u | u in s'.threads && s'.threads[u].Inserted? && s'.threads[u].op.Increment?
      ensures s'.threads[u].op.key !in Sequentially(Replay(s.trace), e.events)
    {
      if u != c.t {
        assert s.threads[u] == s'.threads[u];
        if c.t in s.threads {
          ExclusivePair(s, u, c.t);
        }
      }
    }
  }

  lemma StepKeepsInv(s: State, c: Choice)
    requires Inv(s)
    ensures Inv(Next(s, c))
  {
    if Move(s, c.t, c.call, c.junk).Some? {
      ExclusiveKept(s, c);
      PcsKept(s, c);
      PhasesKept(s, c);
      KeysKept(s, c);
      NotYetKept(s, c);
      ValuesKept(s, c.t, c.call, c.junk);
      TakenIsAtomic(s, c.t, c.call, c.junk);
      OneEvent(s, c.t, c.call, c.junk);
      AfterIs(s, Move(s, c.t, c.call, c.junk).value.events);
      hide Exclusive, PcsOk, PhasesOk, Move, Replay, KeysAgree, NotYet, ValuesAgree, Sequential;
    }
  }

  lemma {:induction false} RunKeepsInv(choices: seq<Choice>)
    ensures Inv(Run(choices))
  {
    hide Inv, Next;
    if choices == [] {
      StartIsOk();
    } else {
      RunKeepsInv(choices[..|choices| - 1]);
      StepKeepsInv(Run(choices[..|choices| - 1]), choices[|choices| - 1]);
    }
  }

  lemma StartIsOk()
    ensures Inv(START)
  {
  }

  // ----- main results -----

  /** Linearizability: in every run of any threads and calls, each thread's calls take effect once,
      between call and return, with the value that is returned; and those values are the ones the
      atomic operations give in that order. */
  lemma Linearizable(choices: seq<Choice>)
    ensures var s := Run(choices);
            && Sequential(s.trace)
            && (forall t: Tid :: !PhaseOf(s.trace, t).Broken?)
            && (forall k | k in Replay(s.trace) :: k in s.counters && s.counters[k] == Replay(s.trace)[k])
  {
    hide Run, Replay, Sequential, PhaseOf, Exclusive, PcsOk;
    RunKeepsInv(choices);
    var s := Run(choices);
    forall t: Tid
      ensures !PhaseOf(s.trace, t).Broken?
    {
      assert PhaseOf(s.trace, t) == PhaseAt(At(s, t));
    }
  }

  /** The sum of the increments of a key that took effect. */
  function Added(trace: seq<Event>, key: Key): int {
    if trace == [] then 0
    else
      var e := trace[|trace| - 1];
      Added(trace[..|trace| - 1], key) + if e.Take? && e.op.Increment? && e.op.key == key then e.op.amount else 0
  }

  predicate OnlyIncrements(trace: seq<Event>, key: Key) {
    forall e | e in trace && e.Take? && e.op.key == key :: !e.op.Set? && ValidOp(e.op)
  }

  lemma {:induction false} ReplaySums(trace: seq<Event>, key: Key)
    requires OnlyIncrements(trace, key)
    ensures key in Replay(trace) ==> Replay(trace)[key] == S64(Added(trace, key))
    ensures key !in Replay(trace) ==> Added(trace, key) == 0
  {
    if trace != [] {
      var before, e := trace[..|trace| - 1], trace[|trace| - 1];
      ReplaySums(before, key);
      if e.Take? && e.op.Increment? && e.op.key == key {
        S64Add(Added(before, key), e.op.amount);
      }
    }
  }

  lemma S64Add(a: int, b: int)
    ensures S64(S64(a) + b) == S64(a + b)
    ensures IsInt64(b) ==> S64(b) == b
  {
  }

  /** No increment is lost: a counter that is only ever incremented holds the sum of all increments
      that took effect, reduced to 64 bits, even when several threads race to create it. */
  lemma NoIncrementLost(choices: seq<Choice>, key: Key)
    requires OnlyIncrements(Run(choices).trace, key)
    ensures var s := Run(choices);
            key in s.counters && !Unassigned(s, key) ==> s.counters[key] == S64(Added(s.trace, key))
  {
    hide Run, Replay, Sequential, Exclusive, PcsOk, PhasesOk;
    RunKeepsInv(choices);
    ReplaySums(Run(choices).trace, key);
  }

  predicate Busy(s: State, t: Tid) {
    t in s.threads && !s.threads[t].Idle?
  }

  predicate CanMove(s: State, t: Tid) {
    Busy(s, t) && Move(s, t, s.threads[t].op, 0).Some?
  }

  /** No deadlock: while any call is open, some open call can take its next step. */
  lemma NoDeadlock(s: State, t: Tid)
    requires Busy(s, t)
    ensures exists u :: CanMove(s, u)
  {
    if u :| u in s.threads && (var p := s.threads[u]; p.Holding? || p.Computed? || p.Stored?) {
      assert CanMove(s, u);
    } else if u :| u in s.threads && s.threads[u].Found? {
      assert CanMove(s, u);
    } else if u :| u in s.threads && HoldsMap(s.threads[u]) {
      assert CanMove(s, u);
    } else {
      assert CanMove(s, t);
    }
  }

  // ----- progress -----

  /** How far a call is from its end. */
  function Rank(p: Pc): nat {
    match p
    case Idle => 0
    case Done(_, _) => 1
    case Unlocked(_, _, _) => 2
    case Stored(_, _, _) => 3
    case Computed(_, _, _) => 4
    case Holding(_, _) => 5
    case Found(_, _) => 6
    case Created(_, _) => 2
    case Inserted(_) => 3
    case Creating(_) => 4
    case Rechecking(_) => 7
    case Upgrading(_) => 8
    case Missed(_) => 9
    case Looking(_) => 10
    case Entered(_) => 11
  }

  const LONGEST := 11

  /** Every step of an open call brings it closer to its end. */
  lemma MoveLowersRank(s: State, t: Tid, call: Op, junk: int)
    requires Busy(s, t) && Move(s, t, call, junk).Some?
    ensures Rank(Move(s, t, call, junk).value.pc) < Rank(At(s, t)) <= LONGEST
  {
    hide MapFree, MapFreeOfWriters, KeyFree, KeyFreeOfWriters, ValidOp;
  }

  /** The steps t takes in a run, waiting not counted. */
  function StepsOf(choices: seq<Choice>, t: Tid): nat {
    if choices == [] then 0
    else
      var before, c := choices[..|choices| - 1], choices[|choices| - 1];
      StepsOf(before, t) + if c.t == t && Move(Run(before), t, c.call, c.junk).Some? then 1 else 0
  }

  function CallsOf(trace: seq<Event>, t: Tid): nat {
    if trace == [] then 0
    else
      var e := trace[|trace| - 1];
      CallsOf(trace[..|trace| - 1], t) + if e.Invoke? && e.t == t then 1 else 0
  }

  lemma CallsSnoc(trace: seq<Event>, es: seq<Event>, t: Tid)
    requires |es| <= 1
    ensures CallsOf(trace + es, t) == CallsOf(trace, t) + if es != [] && es[0].Invoke? && es[0].t == t then 1 else 0
  {
    if es == [] {
      assert trace + es == trace;
    } else {
      assert (trace + es)[..|trace|] == trace;
    }
  }

  lemma RankStep(s: State, c: Choice, t: Tid)
    requires Move(s, c.t, c.call, c.junk).Some?
    ensures var e := Move(s, c.t, c.call, c.junk).value;
            && |e.events| <= 1
            && (e.events != [] ==> e.events[0].t == c.t)
            && (c.t == t && !Busy(s, t) ==> e.events == [Invoke(t, c.call)] && Rank(e.pc) == LONGEST)
            && (c.t == t && Busy(s, t) ==> Rank(e.pc) < Rank(At(s, t)) && (e.events != [] ==> !e.events[0].Invoke?))
  {
    hide MapFree, MapFreeOfWriters, KeyFree, KeyFreeOfWriters, ValidOp;
  }

  /** In every run, whatever the schedule, no thread takes more than twelve steps a call: none goes
      round in circles. */
  lemma {:induction false} CallsAreShort(choices: seq<Choice>, t: Tid)
    ensures var s := Run(choices); StepsOf(choices, t) + Rank(At(s, t)) <= (1 + LONGEST) * CallsOf(s.trace, t)
  {
    hide Move, Rank;
    if choices == [] {
      assert At(START, t) == Idle && Rank(Idle) == 0 by { IdleIsEnd(); }
    } else {
      var before, c := choices[..|choices| - 1], choices[|choices| - 1];
      CallsAreShort(before, t);
      var s := Run(before);
      if Move(s, c.t, c.call, c.junk).Some? {
        RankStep(s, c, t);
        CallsSnoc(s.trace, Move(s, c.t, c.call, c.junk).value.events, t);
        if c.t == t && !Busy(s, t) {
          assert At(s, t) == Idle && Rank(Idle) == 0 by { IdleIsEnd(); }
        }
      }
    }
  }

  lemma IdleIsEnd()
    ensures Rank(Idle) == 0
  {
  }

  /** No other thread holds a lock. */
  predicate Alone(s: State, t: Tid) {
    forall u | u in s.threads && u != t :: !HoldsMap(s.threads[u])
  }

  /** Up to n steps of t alone, until its call has returned. */
  function Solo(s: State, t: Tid, junk: int, n: nat): State
    decreases n
  {
    if n == 0 || !Busy(s, t) then s else Solo(Next(s, Choice(t, s.threads[t].op, junk)), t, junk, n - 1)
  }

  lemma AloneMoves(s: State, t: Tid, junk: int)
    requires Busy(s, t) && Alone(s, t)
    ensures Move(s, t, s.threads[t].op, junk).Some?
    ensures Alone(Next(s, Choice(t, s.threads[t].op, junk)), t)
  {
  }

  /** What is still to be emitted for a call in the given phase, on the map so far. */
  function Remaining(t: Tid, p: Phase, m: map<Key, int>): seq<Event> {
    match p
    case Invoked(op) => [Take(t, op, ApplyRet(m, op)), Return(t, op, ApplyRet(m, op))]
    case Taken(op, ret) => [Return(t, op, ret)]
    case _ => []
  }

  lemma RemainingStep(s: State, t: Tid, junk: int)
    requires Inv(s) && Busy(s, t) && Move(s, t, s.threads[t].op, junk).Some?
    ensures var s1 := Next(s, Choice(t, s.threads[t].op, junk));
            s.trace + Remaining(t, PhaseAt(At(s, t)), Replay(s.trace))
            == s1.trace + Remaining(t, PhaseAt(At(s1, t)), Replay(s1.trace))
  {
    hide Inv, Replay, Move, ApplyRet;
    var e := Move(s, t, s.threads[t].op, junk).value;
    OneEvent(s, t, s.threads[t].op, junk);
    PhaseMoves(s, t, s.threads[t].op, junk);
    TakenIsAtomic(s, t, s.threads[t].op, junk);
    if e.events == [] {
      assert s.trace + [] == s.trace;
    } else {
      assert e.events == [e.events[0]];
      var rest := Remaining(t, PhaseAt(e.pc), Replay(s.trace + e.events));
      assert s.trace + (e.events + rest) == s.trace + e.events + rest;
    }
  }

  /** The call is over within as many steps as its rank, and what it emits is fixed. */
  lemma {:induction false} SoloReturns(s: State, t: Tid, junk: int, n: nat)
    requires Inv(s) && Alone(s, t) && n >= Rank(At(s, t))
    ensures var last := Solo(s, t, junk, n);
            && !Busy(last, t) && Inv(last) && Alone(last, t)
            && last.trace == s.trace + Remaining(t, PhaseAt(At(s, t)), Replay(s.trace))
    decreases n
  {
    if Busy(s, t) {
      hide Inv, Alone, Move, Replay, Rank, PhaseAt, Remaining;
      assert n > 0 by { BusyHasRank(s, t); }
      var c := Choice(t, s.threads[t].op, junk);
      AloneMoves(s, t, junk);
      MoveLowersRank(s, t, c.call, junk);
      StepKeepsInv(s, c);
      RemainingStep(s, t, junk);
      SoloReturns(Next(s, c), t, junk, n - 1);
    } else {
      assert s.trace + [] == s.trace;
    }
  }

  lemma BusyHasRank(s: State, t: Tid)
    requires Busy(s, t)
    ensures Rank(At(s, t)) > 0
  {
  }

  /** When nobody holds the map, it is the replayed one. */
  lemma QuietMap(s: State)
    requires Inv(s) && MapFree(s)
    ensures s.counters == Replay(s.trace)
  {
    hide Replay, Exclusive, PcsOk, PhasesOk, Sequential;
    var m := Replay(s.trace);
    forall k | k in s.counters
      ensures k in m
    {
      assert !Unassigned(s, k);
    }
    assert s.counters.Keys == m.Keys;
  }

  /** From every state that a run reaches, an open call whose thread runs alone, while no other thread
      holds a lock, has returned within eleven steps: with the value it took, if it had, or else with
      that of the atomic operation on the map so far; and the map is then that operation's. */
  lemma OpenCallCompletes(choices: seq<Choice>, t: Tid, junk: int)
    requires Alone(Run(choices), t)
    ensures var s := Run(choices); var last := Solo(s, t, junk, LONGEST);
            && !Busy(last, t)
            && last.trace == s.trace + Remaining(t, PhaseOf(s.trace, t), Replay(s.trace))
            && last.counters == Replay(last.trace)
  {
    hide Run, Replay, Move, Remaining, PhaseOf, Solo, Exclusive, PcsOk, Sequential, KeysAgree, NotYet, ValuesAgree;
    RunKeepsInv(choices);
    var s := Run(choices);
    var last := Solo(s, t, junk, LONGEST);
    SoloReturns(s, t, junk, LONGEST);
    assert PhaseOf(s.trace, t) == PhaseAt(At(s, t));
    hide Inv;
    QuietMap(last);
  }

  /** A call made while no thread holds a lock, and scheduled alone, is one atomic operation: it is
      back within twelve steps, with that operation's value, and leaves that operation's map. */
  lemma CallCompletes(choices: seq<Choice>, t: Tid, op: Op, junk: int)
    requires MapFree(Run(choices)) && !Busy(Run(choices), t) && ValidOp(op)
    ensures var s := Run(choices);
            var last := Solo(Next(s, Choice(t, op, junk)), t, junk, LONGEST);
            var ret := ApplyRet(s.counters, op);
            && !Busy(last, t)
            && last.trace == s.trace + [Invoke(t, op), Take(t, op, ret), Return(t, op, ret)]
            && last.counters == ApplyMap(s.counters, op)
  {
    hide Replay, ApplyMap, ApplyRet, Sequential, PhaseOf, Solo, PcsOk, Exclusive, KeysAgree, NotYet, ValuesAgree;
    var s := Run(choices);
    var c := Choice(t, op, junk);
    assert (choices + [c])[..|choices|] == choices;
    RunKeepsInv(choices);
    QuietMap(s);
    var s1 := Next(s, c);
    assert Run(choices + [c]) == s1 && s1.trace == s.trace + [Invoke(t, op)] && At(s1, t) == Entered(op);
    RunKeepsInv(choices + [c]);
    assert PhaseOf(s1.trace, t) == Invoked(op);
    hide Inv, Run, Move, Next;
    OpenCallCompletes(choices + [c], t, junk);
    var ret := ApplyRet(s.counters, op);
    ReplayOne(s.trace, Invoke(t, op));
    ReplayOne(s1.trace, Take(t, op, ret));
    ReplayOne(s1.trace + [Take(t, op, ret)], Return(t, op, ret));
    assert s1.trace + [Take(t, op, ret), Return(t, op, ret)]
        == s1.trace + [Take(t, op, ret)] + [Return(t, op, ret)];
    assert s.trace + [Invoke(t, op)] + [Take(t, op, ret), Return(t, op, ret)]
        == s.trace + [Invoke(t, op), Take(t, op, ret), Return(t, op, ret)];
  }

  lemma ReplayOne(trace: seq<Event>, e: Event)
    ensures Replay(trace + [e]) == if e.Take? then ApplyMap(Replay(trace), e.op) else Replay(trace)
  {
    assert (trace + [e])[..|trace|] == trace;
  }

  // ----- waiting -----

  datatype Lock = MapLock | KeyLock(key: Key)

  /** The lock a thread is about to take, and whether for itself alone. */
  function Wants(p: Pc): Option<(Lock, bool)> {
    match p
    case Entered(_) => Some((MapLock, false))
    case Upgrading(_) => Some((MapLock, true))
    case Found(op, _) => Some((KeyLock(op.key), !op.Get?))
    case _ => None
  }

  predicate Holds(p: Pc, l: Lock, alone: bool) {
    match l
    case MapLock => HoldsMap(p) && (alone ==> WritesMap(p))
    case KeyLock(key) => HoldsKey(p, key) && (alone ==> WritesKey(p, key))
  }

  /** An open call waits if and only if it wants a lock that a thread holds, and one of the two for
      itself alone: readers never wait for readers, nor any key for another. */
  lemma WaitsIff(s: State, t: Tid, call: Op, junk: int)
    requires Busy(s, t)
    ensures Move(s, t, call, junk) == None
       <==> Wants(At(s, t)).Some? && exists u :: u in s.threads && Holds(s.threads[u], Wants(At(s, t)).value.0, !Wants(At(s, t)).value.1)
  {
    var p := At(s, t);
    if p.Entered? {
      assert MapFreeOfWriters(s) <==> !exists u :: u in s.threads && Holds(s.threads[u], MapLock, true);
    } else if p.Upgrading? {
      assert MapFree(s) <==> !exists u :: u in s.threads && Holds(s.threads[u], MapLock, false);
    } else if p.Found? {
      assert KeyFreeOfWriters(s, p.op.key) <==> !exists u :: u in s.threads && Holds(s.threads[u], KeyLock(p.op.key), true);
      assert KeyFree(s, p.op.key) <==> !exists u :: u in s.threads && Holds(s.threads[u], KeyLock(p.op.key), false);
    }
  }
}
