/** StableVector shared by threads: `which` without the lock, `expand` under it, one memory access a
    step. Any schedule, any indices below 2^31. */
module Growth {
  import opened Wrappers
  import V = StableVector

  type Tid = nat

  /** Where a thread is inside operator[](n), with its locals. */
  datatype Pc =
    | Idle
    | Sizing(n: V.Index)                             // before if (n >= size_)
    | Resizing(n: V.Index)                           // before size_ = n + 1
    | Checking(n: V.Index, p: V.Place)               // before the unlocked test of vectLvl_
    | Waiting(n: V.Index, p: V.Place)                // before the guard
    | Testing(n: V.Index, p: V.Place)                // lock held; before while (level > vectLvl_)
    | Pushing(n: V.Index, p: V.Place, length: nat)   // lock held; vector made, before push_back
    | Publishing(n: V.Index, p: V.Place)             // lock held; before the atomic add
    | Indexing(n: V.Index, p: V.Place)               // out of which; before (*vects_[vno])[idx]

  /** The lengths of the levels pushed so far, vectLvl_, size_. */
  datatype State = State(vects: seq<nat>, vectLvl: nat, size: nat, threads: map<Tid, Pc>)

  const START := State([V.K_INITIAL_VECTOR_SIZE], 0, 0, map[])

  function At(s: State, t: Tid): Pc {
    if t in s.threads then s.threads[t] else Idle
  }

  predicate Locked(p: Pc) {
    p.Testing? || p.Pushing? || p.Publishing?
  }

  predicate LockFree(s: State) {
    forall u | u in s.threads :: !Locked(s.threads[u])
  }

  function Goto(s: State, t: Tid, p: Pc): Option<State> {
    Some(s.(threads := s.threads[t := p]))
  }

  /** One step of thread t, None when it waits; an idle thread asks for element `call`. */
  function Step(s: State, t: Tid, call: V.Index): Option<State> {
    match At(s, t)
    case Idle => Goto(s, t, Sizing(call))
    case Sizing(n) => if n >= s.size then Goto(s, t, Resizing(n)) else Goto(s, t, Checking(n, V.Which(n)))
    case Resizing(n) => Goto(s.(size := n + 1), t, Checking(n, V.Which(n)))
    case Checking(n, p) =>
      if n >= V.K_INITIAL_VECTOR_SIZE && p.vno > s.vectLvl then Goto(s, t, Waiting(n, p))
      else Goto(s, t, Indexing(n, p))
    case Waiting(n, p) => if LockFree(s) then Goto(s, t, Testing(n, p)) else None
    case Testing(n, p) =>
      if p.vno > s.vectLvl then Goto(s, t, Pushing(n, p, V.Shl1(s.vectLvl + V.K_INITIAL_SIZE_POW_OF_2)))
      else Goto(s, t, Indexing(n, p))
    case Pushing(n, p, length) => Goto(s.(vects := s.vects + [length]), t, Publishing(n, p))
    case Publishing(n, p) => Goto(s.(vectLvl := s.vectLvl + 1), t, Testing(n, p))
    case Indexing(n, p) => Goto(s, t, Idle)
  }

  datatype Choice = Choice(t: Tid, call: V.Index)

  // ----- the invariant -----

  predicate PcOk(s: State, p: Pc) {
    match p
    case Idle => true
    case Sizing(_) => true
    case Resizing(_) => true
    case Checking(n, p) => p == V.Which(n)
    case Waiting(n, p) => p == V.Which(n)
    case Testing(n, p) => p == V.Which(n) && |s.vects| == s.vectLvl + 1
    case Pushing(n, p, length) =>
      && p == V.Which(n)
      && |s.vects| == s.vectLvl + 1 && p.vno > s.vectLvl && length == V.LevelSize(s.vectLvl + 1)
    case Publishing(n, p) => p == V.Which(n) && |s.vects| == s.vectLvl + 2
    case Indexing(n, p) => p == V.Which(n) && p.vno <= s.vectLvl
  }

  ghost predicate PcsOk(s: State) {
    forall t | t in s.threads :: PcOk(s, s.threads[t])
  }

  ghost predicate OneLocker(s: State) {
    forall t, u | t in s.threads && u in s.threads && t != u :: !(Locked(s.threads[t]) && Locked(s.threads[u]))
  }

  predicate Levels(vects: seq<nat>) {
    && 1 <= |vects| <= 22
    && forall v | 0 <= v < |vects| :: vects[v] == V.LevelSize(v)
  }

  predicate Publishes(s: State, t: Tid) {
    t in s.threads && s.threads[t].Publishing?
  }

  /** Every level is allocated once, in order, at its size, and never more than one is unpublished. */
  ghost predicate Inv(s: State) {
    && PcsOk(s)
    && OneLocker(s)
    && Levels(s.vects)
    && s.vectLvl < |s.vects| <= s.vectLvl + 2
    && (|s.vects| == s.vectLvl + 2 ==> exists t :: Publishes(s, t))
  }

  lemma PlacesSmall(n: V.Index)
    ensures V.IsPlace(V.Which(n)) && V.IndexOf(V.Which(n)) == n
    ensures n < V.K_INITIAL_VECTOR_SIZE ==> V.Which(n).vno == 0
  {
    V.WhichInBounds(n);
  }

  /** Only the holder of the lock pushes or publishes. */
  lemma StepOfOthers(s: State, t: Tid, call: V.Index)
    requires Inv(s) && Step(s, t, call).Some?
    ensures var s' := Step(s, t, call).value;
            && (s'.vects != s.vects || s'.vectLvl != s.vectLvl ==> Locked(At(s, t)))
            && (Locked(At(s', t)) ==> Locked(At(s, t)) || LockFree(s))
            && s.vectLvl <= s'.vectLvl && s.vects <= s'.vects
            && forall u | u != t :: At(s', u) == At(s, u) && (u in s'.threads <==> u in s.threads)
  {
  }

  lemma OwnPc(s: State, t: Tid, call: V.Index)
    requires Inv(s) && Step(s, t, call).Some?
    ensures var s' := Step(s, t, call).value; PcOk(s', At(s', t)) && Levels(s'.vects)
  {
    hide V.Which, V.LevelSize;
    var p := At(s, t);
    assert PcOk(s, p);
    if !p.Idle? {
      PlacesSmall(p.n);
    }
    if LockFree(s) {
      assert forall u :: !Publishes(s, u);
    }
    if p.Testing? {
      NextLevel(s.vectLvl);
    }
    hide PcsOk, OneLocker;
  }

  lemma NextLevel(level: nat)
    ensures V.Shl1(level + V.K_INITIAL_SIZE_POW_OF_2) == V.LevelSize(level + 1)
  {
  }

  lemma StepKeepsInv(s: State, t: Tid, call: V.Index)
    requires Inv(s) && Step(s, t, call).Some?
    ensures Inv(Step(s, t, call).value)
  {
    var s' := Step(s, t, call).value;
    StepOfOthers(s, t, call);
    OwnPc(s, t, call);
    OneUnpublished(s, t, call);
    hide Step, V.Which, V.LevelSize, Levels;
    forall u | u in s'.threads
      ensures PcOk(s', s'.threads[u])
    {
      if u != t {
        assert At(s', u) == At(s, u);
        assert Locked(At(s, t)) && t in s.threads ==> !Locked(s.threads[u]);
      }
    }
  }

  lemma OneUnpublished(s: State, t: Tid, call: V.Index)
    requires Inv(s) && Step(s, t, call).Some?
    ensures var s' := Step(s, t, call).value;
            && s'.vectLvl < |s'.vects| <= s'.vectLvl + 2
            && (|s'.vects| == s'.vectLvl + 2 ==> exists u :: Publishes(s', u))
  {
    hide V.Which, V.LevelSize, Levels;
    var s' := Step(s, t, call).value;
    assert PcOk(s, At(s, t));
    if u :| Publishes(s, u) {
      if u != t {
        assert Publishes(s', u);
      }
    }
    if At(s, t).Pushing? {
      assert Publishes(s', t);
    }
  }

  // ----- runs -----

  function Next(s: State, c: Choice): State {
    match Step(s, c.t, c.call)
    case Some(s') => s'
    case None => s
  }

  /** Any schedule; a choice that must wait changes nothing. */
  function Run(s: State, choices: seq<Choice>): State
    decreases choices
  {
    if choices == [] then s else Run(Next(s, choices[0]), choices[1..])
  }

  lemma NextKeepsInv(s: State, c: Choice)
    requires Inv(s)
    ensures Inv(Next(s, c)) && s.vects <= Next(s, c).vects && s.vectLvl <= Next(s, c).vectLvl
  {
    if Step(s, c.t, c.call).Some? {
      StepKeepsInv(s, c.t, c.call);
      StepOfOthers(s, c.t, c.call);
    }
  }

  /** The thread is out of `which`, about to index; the level exists and the element is inside it. */
  predicate InBounds(s: State, t: Tid) {
    t in s.threads && s.threads[t].Indexing? ==>
      var p := s.threads[t].p;
      p.vno < |s.vects| && 0 <= p.idx < s.vects[p.vno]
  }

  lemma StartOk()
    ensures Inv(START)
  {
  }

  lemma {:induction false} RunKeepsInv(s: State, choices: seq<Choice>)
    requires Inv(s)
    ensures var s' := Run(s, choices); Inv(s') && s.vects <= s'.vects && s.vectLvl <= s'.vectLvl
    decreases choices
  {
    hide Next, Inv;
    if choices != [] {
      NextKeepsInv(s, choices[0]);
      RunKeepsInv(Next(s, choices[0]), choices[1..]);
    }
  }

  /** Over every run, at any later point `more` of it: what is published is allocated, each level was
      pushed once, at its size, and stays; growth never passes the reserve, so the level vector is
      never moved; and every thread that leaves `which` indexes an existing level within bounds. */
  lemma GrowthIsSafe(choices: seq<Choice>, more: seq<Choice>)
    ensures var s, s' := Run(START, choices), Run(Run(START, choices), more);
            && s.vects <= s'.vects && s.vectLvl <= s'.vectLvl
            && s'.vectLvl < |s'.vects| <= V.K_MAX_LEVELS
            && (forall v | 0 <= v < |s'.vects| :: s'.vects[v] == V.LevelSize(v))
            && forall t :: InBounds(s', t)
  {
    hide Run;
    StartOk();
    RunKeepsInv(START, choices);
    RunKeepsInv(Run(START, choices), more);
    var s' := Run(Run(START, choices), more);
    forall t
      ensures InBounds(s', t)
    {
      if t in s'.threads && s'.threads[t].Indexing? {
        PlacesSmall(s'.threads[t].n);
      }
    }
  }

  // ----- size_ is not part of what the lock protects -----

  /** The stores to size_ that threads have decided on and not made yet. */
  predicate Pending(s: State, t: Tid, n: nat) {
    At(s, t).Resizing? && At(s, t).n == n
  }

  /** The step would store a smaller size than there is. */
  predicate LosesSize(s: State, t: Tid) {
    At(s, t).Resizing? && At(s, t).n + 1 < s.size
  }

  /** size_ drops exactly at such a step. */
  lemma SizeDropsIff(s: State, t: Tid, call: V.Index)
    requires Step(s, t, call).Some?
    ensures Step(s, t, call).value.size < s.size <==> LosesSize(s, t)
  {
  }

  /** The index that a choice takes past the size test and store, if it does. */
  function Passes(s: State, c: Choice): set<nat> {
    match At(s, c.t)
    case Sizing(n) => if n < s.size then {n} else {}
    case Resizing(n) => {n}
    case _ => {}
  }

  /** All indices that got past them in the run. */
  function Accessed(s: State, choices: seq<Choice>): set<nat>
    decreases choices
  {
    if choices == [] then {} else Passes(s, choices[0]) + Accessed(Next(s, choices[0]), choices[1..])
  }

  /** One more than the largest, or zero. */
  predicate IsHighWater(size: nat, accessed: set<nat>) {
    (forall n | n in accessed :: n < size) && (size > 0 ==> size - 1 in accessed)
  }

  /** size_ is right after every prefix of the run, with `before` accessed already. */
  ghost predicate SizeIsRight(s: State, before: set<nat>, choices: seq<Choice>) {
    forall k | 0 <= k <= |choices| ::
      IsHighWater(Run(s, choices[..k]).size, before + Accessed(s, choices[..k]))
  }

  /** No step of the run stores a smaller size. */
  ghost predicate NeverLoses(s: State, choices: seq<Choice>) {
    forall k | 0 <= k < |choices| :: !LosesSize(Run(s, choices[..k]), choices[k].t)
  }

  lemma RunOneMore(s: State, before: set<nat>, choices: seq<Choice>, k: nat)
    requires choices != [] && k < |choices|
    ensures Run(s, choices[..k + 1]) == Run(Next(s, choices[0]), choices[1..][..k])
    ensures before + Accessed(s, choices[..k + 1])
         == before + Passes(s, choices[0]) + Accessed(Next(s, choices[0]), choices[1..][..k])
  {
    assert choices[..k + 1][1..] == choices[1..][..k];
  }

  lemma SizeIsRightUnfolds(s: State, before: set<nat>, choices: seq<Choice>)
    requires choices != []
    ensures SizeIsRight(s, before, choices)
       <==> IsHighWater(s.size, before)
            && SizeIsRight(Next(s, choices[0]), before + Passes(s, choices[0]), choices[1..])
  {
    hide Next, Passes, IsHighWater, Accessed, Run;
    var s1, now, rest := Next(s, choices[0]), before + Passes(s, choices[0]), choices[1..];
    NoRun(s, before, choices);
    forall k: nat | k < |choices|
      ensures IsHighWater(Run(s, choices[..k + 1]).size, before + Accessed(s, choices[..k + 1]))
         <==> IsHighWater(Run(s1, rest[..k]).size, now + Accessed(s1, rest[..k]))
    {
      RunOneMore(s, before, choices, k);
    }
    if SizeIsRight(s, before, choices) {
      assert IsHighWater(Run(s, choices[..0]).size, before + Accessed(s, choices[..0]));
      forall k | 0 <= k <= |rest|
        ensures IsHighWater(Run(s1, rest[..k]).size, now + Accessed(s1, rest[..k]))
      {
        assert IsHighWater(Run(s, choices[..k + 1]).size, before + Accessed(s, choices[..k + 1]));
      }
    }
    if IsHighWater(s.size, before) && SizeIsRight(s1, now, rest) {
      forall k | 0 <= k <= |choices|
        ensures IsHighWater(Run(s, choices[..k]).size, before + Accessed(s, choices[..k]))
      {
        if k > 0 {
          assert IsHighWater(Run(s1, rest[..k - 1]).size, now + Accessed(s1, rest[..k - 1]));
        }
      }
    }
  }

  lemma NoRun(s: State, before: set<nat>, choices: seq<Choice>)
    ensures Run(s, choices[..0]) == s && before + Accessed(s, choices[..0]) == before
  {
  }

  lemma NeverLosesUnfolds(s: State, choices: seq<Choice>)
    requires choices != []
    ensures NeverLoses(s, choices)
       <==> !LosesSize(s, choices[0].t) && NeverLoses(Next(s, choices[0]), choices[1..])
  {
    hide Next, LosesSize, Run;
    var s1, rest := Next(s, choices[0]), choices[1..];
    NoRun(s, {}, choices);
    forall k: nat | k < |rest|
      ensures LosesSize(Run(s, choices[..k + 1]), choices[k + 1].t) <==> LosesSize(Run(s1, rest[..k]), rest[k].t)
    {
      RunOneMore(s, {}, choices, k);
    }
    if NeverLoses(s, choices) {
      assert !LosesSize(Run(s, choices[..0]), choices[0].t);
      forall k | 0 <= k < |rest|
        ensures !LosesSize(Run(s1, rest[..k]), rest[k].t)
      {
        assert !LosesSize(Run(s, choices[..k + 1]), choices[k + 1].t);
      }
    }
    if !LosesSize(s, choices[0].t) && NeverLoses(s1, rest) {
      forall k | 0 <= k < |choices|
        ensures !LosesSize(Run(s, choices[..k]), choices[k].t)
      {
        if k > 0 {
          assert !LosesSize(Run(s1, rest[..k - 1]), rest[k - 1].t);
        }
      }
    }
  }

  /** One step: size_ stays the high-water mark if and only if the step does not lose it. */
  lemma HighWaterStep(s: State, before: set<nat>, c: Choice)
    requires IsHighWater(s.size, before)
    ensures IsHighWater(Next(s, c).size, before + Passes(s, c)) <==> !LosesSize(s, c.t)
  {
  }

  lemma {:induction false} SizeIsRightIff(s: State, before: set<nat>, choices: seq<Choice>)
    requires IsHighWater(s.size, before)
    ensures SizeIsRight(s, before, choices) <==> NeverLoses(s, choices)
    decreases choices
  {
    hide Next, Passes, LosesSize, IsHighWater;
    if choices == [] {
      NoRun(s, before, choices);
    } else {
      hide SizeIsRight, NeverLoses;
      var s1, now := Next(s, choices[0]), before + Passes(s, choices[0]);
      SizeIsRightUnfolds(s, before, choices);
      NeverLosesUnfolds(s, choices);
      HighWaterStep(s, before, choices[0]);
      if IsHighWater(s1.size, now) {
        SizeIsRightIff(s1, now, choices[1..]);
      } else if SizeIsRight(s1, now, choices[1..]) {
        SizeIsRightNow(s1, now, choices[1..]);
      }
    }
  }

  lemma SizeIsRightNow(s: State, before: set<nat>, choices: seq<Choice>)
    requires SizeIsRight(s, before, choices)
    ensures IsHighWater(s.size, before)
  {
    NoRun(s, before, choices);
    assert IsHighWater(Run(s, choices[..0]).size, before + Accessed(s, choices[..0]));
  }

  /** Over every run of any threads: size_ is at every point one more than the largest index that got
      past the size test, if and only if no step stores a size below the one there is. */
  lemma SizeIsHighWaterIff(choices: seq<Choice>)
    ensures SizeIsRight(START, {}, choices) <==> NeverLoses(START, choices)
  {
    SizeIsRightIff(START, {}, choices);
  }

  /** All pending stores are of the same size. */
  ghost predicate Agreeing(s: State) {
    forall t, u, n: nat, m: nat | Pending(s, t, n) && Pending(s, u, m) :: n == m
  }

  /** No pending store is below the size there is. */
  ghost predicate Current(s: State) {
    forall t, n: nat | Pending(s, t, n) :: n + 1 >= s.size
  }

  /** While accesses that grow the vector to different sizes do not overlap between test and store,
      no store loses size. */
  lemma CurrentKept(s: State, c: Choice)
    requires Current(s) && Agreeing(s)
    ensures Current(Next(s, c)) && !LosesSize(s, c.t)
  {
    var s1 := Next(s, c);
    assert LosesSize(s, c.t) ==> Pending(s, c.t, At(s, c.t).n);
    forall t, n: nat | Pending(s1, t, n)
      ensures n + 1 >= s1.size
    {
      if t != c.t {
        assert Pending(s, t, n);
        assert At(s, c.t).Resizing? ==> Pending(s, c.t, At(s, c.t).n);
      }
    }
  }

  ghost predicate AlwaysAgreeing(s: State, choices: seq<Choice>) {
    forall k | 0 <= k <= |choices| :: Agreeing(Run(s, choices[..k]))
  }

  lemma {:induction false} AgreeingNeverLoses(s: State, choices: seq<Choice>)
    requires Current(s) && AlwaysAgreeing(s, choices)
    ensures NeverLoses(s, choices) && Current(Run(s, choices))
    decreases choices
  {
    NoRun(s, {}, choices);
    assert Agreeing(Run(s, choices[..0]));
    if choices != [] {
      hide Next, Agreeing, Current, LosesSize;
      var s1, rest := Next(s, choices[0]), choices[1..];
      forall k | 0 <= k <= |rest|
        ensures Agreeing(Run(s1, rest[..k]))
      {
        RunOneMore(s, {}, choices, k);
        assert Agreeing(Run(s, choices[..k + 1]));
      }
      CurrentKept(s, choices[0]);
      AgreeingNeverLoses(s1, rest);
      NeverLosesUnfolds(s, choices);
    }
  }

  /** So in such a run size_ is right throughout. */
  lemma SerialGrowthKeepsSize(choices: seq<Choice>)
    requires AlwaysAgreeing(START, choices)
    ensures SizeIsRight(START, {}, choices)
  {
    AgreeingNeverLoses(START, choices);
    SizeIsHighWaterIff(choices);
  }

  /** And wherever two pending stores differ, letting the larger go first makes the smaller lose
      size: the stores are harmless in every order if and only if they agree. */
  lemma OverlapLosesIff(s: State)
    ensures Agreeing(s)
       <==> forall t, u, n: nat, m: nat | Pending(s, t, n) && Pending(s, u, m) :: !LosesSize(Next(s, Choice(t, 0)), u)
  {
    forall t, u, n: nat, m: nat | Pending(s, t, n) && Pending(s, u, m) && n > m
      ensures LosesSize(Next(s, Choice(t, 0)), u)
    {
    }
  }

  const RACE: seq<Choice> := [
    Choice(0, 4), Choice(0, 0), Choice(1, 9), Choice(1, 0), Choice(1, 0), Choice(0, 0)
  ]

  lemma RunStep(s: State, c: Choice, choices: seq<Choice>)
    ensures Run(s, [c] + choices) == Run(Next(s, c), choices)
  {
    assert ([c] + choices)[1..] == choices;
  }

  /** Such a run: size() ends at 5, while a thread is at element 9. */
  lemma SizeCanShrink()
    ensures var s := Run(START, RACE);
            s.size == 5 && 1 in s.threads && s.threads[1].Checking? && s.threads[1].n == 9
  {
    hide V.Which;
    var s0 := START;
    var s1 := s0.(threads := map[0 := Sizing(4)]);
    var s2 := s0.(threads := map[0 := Resizing(4)]);
    var s3 := s0.(threads := map[0 := Resizing(4), 1 := Sizing(9)]);
    var s4 := s0.(threads := map[0 := Resizing(4), 1 := Resizing(9)]);
    var s5 := s0.(size := 10, threads := map[0 := Resizing(4), 1 := Checking(9, V.Which(9))]);
    var s6 := s0.(size := 5, threads := map[0 := Checking(4, V.Which(4)), 1 := Checking(9, V.Which(9))]);
    assert Next(s0, RACE[0]) == s1 && Next(s1, RACE[1]) == s2 && Next(s2, RACE[2]) == s3;
    assert Next(s3, RACE[3]) == s4 && Next(s4, RACE[4]) == s5 && Next(s5, RACE[5]) == s6;
    hide Next;
    RunStep(s0, RACE[0], RACE[1..]);
    RunStep(s1, RACE[1], RACE[2..]);
    RunStep(s2, RACE[2], RACE[3..]);
    RunStep(s3, RACE[3], RACE[4..]);
    RunStep(s4, RACE[4], RACE[5..]);
    RunStep(s5, RACE[5], []);
    assert RACE == [RACE[0]] + RACE[1..];
    assert RACE[1..] == [RACE[1]] + RACE[2..];
    assert RACE[2..] == [RACE[2]] + RACE[3..];
    assert RACE[3..] == [RACE[3]] + RACE[4..];
    assert RACE[4..] == [RACE[4]] + RACE[5..];
    assert RACE[5..] == [RACE[5]] + [];
  }

  // ----- progress -----

  /** Levels still missing for the place, as the thread at p sees them. */
  function Missing(s: State, p: V.Place): nat {
    if p.vno > s.vectLvl then p.vno - s.vectLvl else 0
  }

  /** How far an access is from its end. */
  function Rank(s: State, p: Pc): nat {
    match p
    case Idle => 0
    case Indexing(_, _) => 1
    case Testing(_, place) => 3 * Missing(s, place) + 2
    case Publishing(_, place) => if Missing(s, place) == 0 then 3 else 3 * Missing(s, place)
    case Pushing(_, place, _) => if Missing(s, place) == 0 then 4 else 3 * Missing(s, place) + 1
    case Waiting(_, place) => 3 * Missing(s, place) + 3
    case Checking(_, place) => 3 * Missing(s, place) + 4
    case Resizing(n) => 3 * Missing(s, V.Which(n)) + 5
    case Sizing(n) => 3 * Missing(s, V.Which(n)) + 6
  }

  const LONGEST := 72

  predicate Busy(s: State, t: Tid) {
    !At(s, t).Idle?
  }

  /** A step of an open access brings it closer to its end, and no other access further from its own;
      the access stays for the element asked for, and is over only once that has been indexed. */
  lemma StepLowersRank(s: State, t: Tid, call: V.Index)
    requires Inv(s) && Step(s, t, call).Some?
    ensures var s' := Step(s, t, call).value;
            && (Busy(s, t) ==> Rank(s', At(s', t)) < Rank(s, At(s, t)))
            && (Busy(s, t) && Busy(s', t) ==> At(s', t).n == At(s, t).n)
            && (Busy(s, t) && !Busy(s', t) ==> At(s, t).Indexing?)
            && (!Busy(s, t) ==> At(s', t) == Sizing(call))
            && (forall u | u != t :: At(s', u) == At(s, u) && Rank(s', At(s, u)) <= Rank(s, At(s, u)))
  {
    var s' := Step(s, t, call).value;
    OwnRank(s, t, call);
    StepOfOthers(s, t, call);
    hide Step, Inv, Rank;
    forall u | u != t
      ensures Rank(s', At(s, u)) <= Rank(s, At(s, u))
    {
      RankFalls(s, s', At(s, u));
    }
  }

  lemma RankFalls(s: State, s': State, p: Pc)
    requires s.vectLvl <= s'.vectLvl
    ensures Rank(s', p) <= Rank(s, p)
  {
    hide V.Which;
  }

  lemma OwnRank(s: State, t: Tid, call: V.Index)
    requires Inv(s) && Step(s, t, call).Some?
    ensures var s' := Step(s, t, call).value;
            && (Busy(s, t) ==> Rank(s', At(s', t)) < Rank(s, At(s, t)))
            && (Busy(s, t) && Busy(s', t) ==> At(s', t).n == At(s, t).n)
            && (Busy(s, t) && !Busy(s', t) ==> At(s, t).Indexing?)
            && (!Busy(s, t) ==> At(s', t) == Sizing(call))
  {
    hide V.Which, V.LevelSize, V.Shl1, Levels, OneLocker;
    assert PcOk(s, At(s, t));
    hide Inv;
  }

  lemma RankBounded(s: State, p: Pc)
    requires PcOk(s, p)
    ensures Rank(s, p) <= LONGEST
  {
    hide V.Which;
    if !p.Idle? {
      PlacesSmall(p.n);
    }
  }

  /** The steps t takes in a run, waiting not counted, and the accesses it begins. */
  function StepsOf(s: State, choices: seq<Choice>, t: Tid): nat
    decreases choices
  {
    if choices == [] then 0
    else
      var c := choices[0];
      (if c.t == t && Step(s, c.t, c.call).Some? then 1 else 0) + StepsOf(Next(s, c), choices[1..], t)
  }

  function BegunBy(s: State, choices: seq<Choice>, t: Tid): nat
    decreases choices
  {
    if choices == [] then 0
    else
      var c := choices[0];
      (if c.t == t && !Busy(s, t) then 1 else 0) + BegunBy(Next(s, c), choices[1..], t)
  }

  /** In every run, whatever the schedule, no thread takes more than so many steps an access. */
  lemma {:induction false} AccessesAreShort(s: State, choices: seq<Choice>, t: Tid)
    requires Inv(s)
    ensures var s' := Run(s, choices);
            StepsOf(s, choices, t) + Rank(s', At(s', t))
            <= Rank(s, At(s, t)) + (1 + LONGEST) * BegunBy(s, choices, t)
    decreases choices
  {
    hide Inv, Step, Rank;
    if choices != [] {
      var c := choices[0];
      var s1 := Next(s, c);
      NextKeepsInv(s, c);
      AccessesAreShort(s1, choices[1..], t);
      if Step(s, c.t, c.call).Some? {
        StepLowersRank(s, c.t, c.call);
        assert PcOk(s1, At(s1, t)) by { PcOkAt(s1, t); }
        RankBounded(s1, At(s1, t));
      }
    }
  }

  lemma PcOkAt(s: State, t: Tid)
    requires Inv(s)
    ensures PcOk(s, At(s, t))
  {
  }

  /** While an access is open, some open access can take its next step. */
  lemma SomeoneSteps(s: State, t: Tid, call: V.Index)
    requires Busy(s, t)
    ensures exists u :: Busy(s, u) && Step(s, u, call).Some?
  {
    if Step(s, t, call) == None {
      var u :| u in s.threads && Locked(s.threads[u]);
      assert Busy(s, u) && Step(s, u, call).Some?;
    }
  }
}
