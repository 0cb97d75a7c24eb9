/**
 * Replacing the model while inference goes on: any number of `set_remote_worker_model` and
 * `handle_inference_task` calls, interleaved at every load, store, free, lock and unlock.
 * A load is named by a number that is never used again; the model and the context of one load share it.
 */
module HotSwap {
  import opened Options

  type Tid = nat
  type Load = nat
  type Ptr = Option<Load>

  /** Where a call is. `own` is what it loaded; `om` and `oc` are the pointers it read before storing its own. */
  datatype Pc =
    // set_remote_worker_model
    | Loading
    | ModelLoaded(own: Load)
    | PairLoaded(own: Load)
    | HoldsSwap(own: Load)
    | HoldsBoth(own: Load)
    | ReadModel(own: Load, om: Ptr)
    | ReadBoth(own: Load, om: Ptr, oc: Ptr)
    | StoredModel(own: Load, om: Ptr, oc: Ptr)
    | StoredBoth(own: Load, om: Ptr, oc: Ptr)
    | FreedContext(om: Ptr)
    | Cleaned
    | ReleasedInference
    // handle_inference_task
    | Waiting
    | Locked
    | GotModel(m: Ptr)
    | GotBoth(m: Ptr, c: Ptr)
    | Generating(model: Load, context: Load)

  /** Who is responsible for freeing a load. */
  datatype Owner = Call(t: Tid) | Published

  datatype State = State(
    calls: map<Tid, Pc>,
    swapLock: Option<Tid>,
    inferenceLock: Option<Tid>,
    model: Ptr,                  // GLOBAL_MODEL_PTR
    context: Ptr,                // GLOBAL_CONTEXT_PTR
    models: set<Load>,           // live models
    contexts: set<Load>,         // live contexts
    owner: map<Load, Owner>,     // bookkeeping: one owner for every live model
    next: Load,
    freedModels: multiset<Load>,
    freedContexts: multiset<Load>)

  const INITIAL := State(map[], None, None, None, None, {}, {}, map[], 0, multiset{}, multiset{})

  /** What one step does to everything but the position of the call that makes it. */
  datatype Effect =
    | Nothing
    | TakeSwap | DropSwap | TakeInference | DropInference
    | NewModel | NewContext(l: Load) | FreeModel(p: Ptr) | FreeContext(p: Ptr)
    | StoreModel(l: Load) | StoreContext(l: Load, previous: Ptr)

  /** `Start...` begins a call; otherwise `ok` is the outcome of a load, or whether generation goes on. */
  datatype Move = StartSwap | StartInference | Go(ok: bool)

  /** Where a step takes a call (`None`: it returns) and what it does; `Stay` if it must wait. */
  datatype Turn = Stay | Turn(to: Option<Pc>, effect: Effect)

  function TurnOf(s: State, pc: Pc, ok: bool): Turn {
    match pc
    case Loading => if ok then Turn(Some(ModelLoaded(s.next)), NewModel) else Turn(None, Nothing)
    case ModelLoaded(l) => if ok then Turn(Some(PairLoaded(l)), NewContext(l)) else Turn(None, FreeModel(Some(l)))
    case PairLoaded(l) => if s.swapLock == None then Turn(Some(HoldsSwap(l)), TakeSwap) else Stay
    case HoldsSwap(l) => if s.inferenceLock == None then Turn(Some(HoldsBoth(l)), TakeInference) else Stay
    case HoldsBoth(l) => Turn(Some(ReadModel(l, s.model)), Nothing)
    case ReadModel(l, om) => Turn(Some(ReadBoth(l, om, s.context)), Nothing)
    case ReadBoth(l, om, oc) => Turn(Some(StoredModel(l, om, oc)), StoreModel(l))
    case StoredModel(l, om, oc) => Turn(Some(StoredBoth(l, om, oc)), StoreContext(l, oc))
    case StoredBoth(l, om, oc) => Turn(Some(FreedContext(om)), FreeContext(oc))
    case FreedContext(om) => Turn(Some(Cleaned), FreeModel(om))
    case Cleaned => Turn(Some(ReleasedInference), DropInference)
    case ReleasedInference => Turn(None, DropSwap)
    case Waiting => if s.inferenceLock == None then Turn(Some(Locked), TakeInference) else Stay
    case Locked => Turn(Some(GotModel(s.model)), Nothing)
    case GotModel(m) => Turn(Some(GotBoth(m, s.context)), Nothing)
    case GotBoth(m, c) =>
      if m == None || c == None then Turn(None, DropInference) else Turn(Some(Generating(m.value, c.value)), Nothing)
    case Generating(m, c) => if ok then Turn(Some(Generating(m, c)), Nothing) else Turn(None, DropInference)
  }

  function Apply(s: State, t: Tid, e: Effect): State {
    match e
    case Nothing => s
    case TakeSwap => s.(swapLock := Some(t))
    case DropSwap => s.(swapLock := None)
    case TakeInference => s.(inferenceLock := Some(t))
    case DropInference => s.(inferenceLock := None)
    case NewModel => s.(models := s.models + {s.next}, owner := s.owner[s.next := Call(t)], next := s.next + 1)
    case NewContext(l) => s.(contexts := s.contexts + {l})
    case FreeModel(p) =>
      if p == None then s
      else s.(models := s.models - {p.value}, owner := s.owner - {p.value}, freedModels := s.freedModels + multiset{p.value})
    case FreeContext(p) =>
      if p == None then s else s.(contexts := s.contexts - {p.value}, freedContexts := s.freedContexts + multiset{p.value})
    case StoreModel(l) => s.(model := Some(l))
    case StoreContext(l, previous) =>
      // the bookkeeping: the new load is now published, the previous one is left to the call that replaced it
      var owner := if previous == None then s.owner else s.owner[previous.value := Call(t)];
      s.(context := Some(l), owner := owner[l := Published])
  }

  function Put(s: State, t: Tid, to: Option<Pc>): State {
    s.(calls := if to == None then s.calls - {t} else s.calls[t := to.value])
  }

  function Lookup(s: State, t: Tid): Option<Pc> { if t in s.calls then Some(s.calls[t]) else None }

  function Chosen(s: State, t: Tid, m: Move): Turn {
    if m.Go? then (if t in s.calls then TurnOf(s, s.calls[t], m.ok) else Stay)
    else if t in s.calls then Stay
    else Turn(Some(if m.StartSwap? then Loading else Waiting), Nothing)
  }

  /** One step of call `t`, if it can move. */
  function Do(s: State, t: Tid, m: Move): State {
    var n := Chosen(s, t, m);
    if n.Stay? then s else Put(Apply(s, t, n.effect), t, n.to)
  }

  // ---- What every reachable state satisfies

  predicate NeedsInferenceLock(pc: Pc) {
    pc.HoldsBoth? || pc.ReadModel? || pc.ReadBoth? || pc.StoredModel? || pc.StoredBoth? || pc.FreedContext? || pc.Cleaned?
    || pc.Locked? || pc.GotModel? || pc.GotBoth? || pc.Generating?
  }

  predicate NeedsSwapLock(pc: Pc) {
    pc.HoldsSwap? || pc.HoldsBoth? || pc.ReadModel? || pc.ReadBoth? || pc.StoredModel? || pc.StoredBoth? || pc.FreedContext?
    || pc.Cleaned? || pc.ReleasedInference?
  }

  predicate Inside(o: Option<Pc>) { o.Some? && NeedsInferenceLock(o.value) }
  predicate Swapping(o: Option<Pc>) { o.Some? && NeedsSwapLock(o.value) }

  /** A lock is held exactly by the one call that is past taking it and not yet past releasing it. */
  ghost predicate LocksInv(s: State) {
    && (forall t: Tid :: Inside(Lookup(s, t)) <==> s.inferenceLock == Some(t))
    && (forall t: Tid :: Swapping(Lookup(s, t)) <==> s.swapLock == Some(t))
  }

  /** The load a call has made and not yet published. */
  function Pending(pc: Pc): Ptr {
    if pc.ModelLoaded? || pc.PairLoaded? || pc.HoldsSwap? || pc.HoldsBoth? || pc.ReadModel? || pc.ReadBoth? || pc.StoredModel?
    then Some(pc.own) else None
  }

  /** The load a call has taken out of circulation and not yet freed. */
  function Retiring(pc: Pc): Ptr {
    if pc.StoredBoth? then pc.oc else if pc.FreedContext? then pc.om else None
  }

  /** The one load a call must free or publish before it returns, if any. */
  function Owned(o: Option<Pc>): Ptr {
    if o == None then None else if Pending(o.value).Some? then Pending(o.value) else Retiring(o.value)
  }

  /** Every live load has exactly the owner the bookkeeping names: a single call, or the global pointers. */
  ghost predicate OwnersInv(s: State) {
    && s.owner.Keys == s.models
    && s.contexts <= s.models
    && (forall l: Load :: RecordIsTrue(s, l))
    && (forall t: Tid :: OwnedIsRecorded(s, t))
    && (s.context.Some? ==> s.context.value in s.owner && s.context.value in s.contexts)
  }

  /** What a call knows about the shared state at each point. */
  ghost predicate CallInv(s: State, pc: Pc) {
    && (pc.ModelLoaded? ==> pc.own !in s.contexts && s.freedContexts[pc.own] == 0)
    && (Pending(pc).Some? && !pc.ModelLoaded? ==> pc.own in s.contexts)
    && (pc.ReadModel? ==> pc.om == s.model)
    && (pc.ReadBoth? ==> pc.om == s.model && pc.oc == s.context)
    && (pc.StoredModel? ==> s.model == Some(pc.own) && pc.oc == s.context && pc.om == pc.oc)
    && (pc.StoredBoth? ==> pc.om == pc.oc && (pc.oc.Some? ==> pc.oc.value in s.contexts))
    && (pc.FreedContext? && pc.om.Some? ==> pc.om.value !in s.contexts)
    && (pc.GotModel? ==> pc.m == s.model)
    && (pc.GotBoth? ==> pc.m == s.model && pc.c == s.context)
    && (pc.Generating? ==> s.model == Some(pc.model) && s.context == Some(pc.context))
  }

  ghost predicate CallsInv(s: State) { forall t :: t in s.calls ==> CallInv(s, s.calls[t]) }

  /** The call between the two stores of a swap, if there is one. */
  predicate MidSwap(s: State) {
    s.inferenceLock.Some? && Lookup(s, s.inferenceLock.value).Some? && Lookup(s, s.inferenceLock.value).value.StoredModel?
  }

  /** The two global pointers name the same load, except between the two stores of a swap. */
  ghost predicate PointersInv(s: State) { MidSwap(s) || s.model == s.context }

  /** Every load ever made is live or freed, never both, and freed once. */
  ghost predicate FreedInv(s: State) {
    forall l: Load :: LoadInv(s, l)
  }

  ghost predicate LoadInv(s: State, l: Load) {
    && s.freedModels[l] + (if l in s.models then 1 else 0) == (if l < s.next then 1 else 0)
    && s.freedContexts[l] + (if l in s.contexts then 1 else 0) <= (if l < s.next then 1 else 0)
  }

  ghost predicate Inv(s: State) { LocksInv(s) && OwnersInv(s) && CallsInv(s) && PointersInv(s) && FreedInv(s) }

  // ---- Locks

  /** Locks are taken when free, dropped when held, and otherwise left alone. */
  predicate LockStep(s: State, o: Option<Pc>, n: Turn)
    requires n.Turn?
  {
    match n.effect
    case TakeSwap => s.swapLock == None && !Swapping(o) && Swapping(n.to) && Inside(o) == Inside(n.to)
    case DropSwap => Swapping(o) && !Swapping(n.to) && Inside(o) == Inside(n.to)
    case TakeInference => s.inferenceLock == None && !Inside(o) && Inside(n.to) && Swapping(o) == Swapping(n.to)
    case DropInference => Inside(o) && !Inside(n.to) && Swapping(o) == Swapping(n.to)
    case _ => Inside(o) == Inside(n.to) && Swapping(o) == Swapping(n.to)
  }

  lemma LockStepHolds(s: State, t: Tid, m: Move)
    requires Chosen(s, t, m).Turn?
    ensures LockStep(s, Lookup(s, t), Chosen(s, t, m))
  {
  }

  /** The state after a turn. */
  function Took(s: State, t: Tid, n: Turn): State
    requires n.Turn?
  {
    Put(Apply(s, t, n.effect), t, n.to)
  }

  lemma Moved(s: State, t: Tid, n: Turn, u: Tid)
    requires n.Turn?
    ensures Lookup(Took(s, t, n), u) == if u == t then n.to else Lookup(s, u)
  {
  }

  lemma LocksKept(s: State, t: Tid, n: Turn)
    requires LocksInv(s) && n.Turn? && LockStep(s, Lookup(s, t), n)
    ensures LocksInv(Took(s, t, n))
  {
    var s' := Took(s, t, n);
    forall u: Tid
      ensures Inside(Lookup(s', u)) <==> s'.inferenceLock == Some(u)
      ensures Swapping(Lookup(s', u)) <==> s'.swapLock == Some(u)
    {
      Moved(s, t, n, u);
      assert Inside(Lookup(s, u)) <==> s.inferenceLock == Some(u);
      assert Swapping(Lookup(s, u)) <==> s.swapLock == Some(u);
      assert Inside(Lookup(s, t)) <==> s.inferenceLock == Some(t);
      assert Swapping(Lookup(s, t)) <==> s.swapLock == Some(t);
    }
  }

  // ---- Owners

  /** What a call owns changes only with the effects that create, publish or free a load. */
  ghost predicate OwnStep(s: State, o: Option<Pc>, n: Turn)
    requires n.Turn?
  {
    match n.effect
    case NewModel => Owned(o) == None && Owned(n.to) == Some(s.next)
    case NewContext(l) => Owned(o) == Owned(n.to) == Some(l)
    case FreeModel(p) => Owned(o) == p && Owned(n.to) == None && (p.Some? ==> p.value !in s.contexts)
    case FreeContext(p) => Owned(o) == Owned(n.to) == p
    case StoreContext(l, previous) => Owned(o) == Some(l) && Owned(n.to) == previous == s.context && l in s.contexts
    case _ => Owned(o) == Owned(n.to)
  }

  lemma OwnStepHolds(s: State, t: Tid, m: Move)
    requires Chosen(s, t, m).Turn? && CallsInv(s)
    ensures OwnStep(s, Lookup(s, t), Chosen(s, t, m))
  {
    if t in s.calls {
      assert CallInv(s, s.calls[t]);
    }
  }

  ghost predicate OwnedIsRecorded(s: State, t: Tid) {
    Owned(Lookup(s, t)).Some? ==> Owned(Lookup(s, t)).value in s.owner && s.owner[Owned(Lookup(s, t)).value] == Call(t)
  }

  ghost predicate RecordIsTrue(s: State, l: Load) {
    && (l in s.owner && s.owner[l].Call? ==> Owned(Lookup(s, s.owner[l].t)) == Some(l))
    && (l in s.owner ==> (s.owner[l] == Published <==> s.context == Some(l)))
  }

  lemma OwnersKeptForCalls(s: State, t: Tid, n: Turn, u: Tid)
    requires OwnersInv(s) && FreedInv(s) && n.Turn? && OwnStep(s, Lookup(s, t), n)
    ensures OwnedIsRecorded(Took(s, t, n), u)
  {
    Moved(s, t, n, u);
    assert OwnedIsRecorded(s, t) && OwnedIsRecorded(s, u);
    if s.context.Some? {
      assert RecordIsTrue(s, s.context.value);
    }
    if Owned(Lookup(s, u)).Some? {
      assert LoadInv(s, Owned(Lookup(s, u)).value);
    }
  }

  lemma OwnersKeptForLoads(s: State, t: Tid, n: Turn, l: Load)
    requires OwnersInv(s) && FreedInv(s) && n.Turn? && OwnStep(s, Lookup(s, t), n)
    ensures RecordIsTrue(Took(s, t, n), l)
  {
    assert RecordIsTrue(s, l) && OwnedIsRecorded(s, t) && LoadInv(s, s.next);
    Moved(s, t, n, t);
    if l in s.owner && s.owner[l].Call? {
      Moved(s, t, n, s.owner[l].t);
    }
  }

  lemma OwnersKept(s: State, t: Tid, n: Turn)
    requires OwnersInv(s) && FreedInv(s) && n.Turn? && OwnStep(s, Lookup(s, t), n)
    ensures OwnersInv(Took(s, t, n))
  {
    forall u: Tid ensures OwnedIsRecorded(Took(s, t, n), u) {
      OwnersKeptForCalls(s, t, n, u);
    }
    forall l: Load ensures RecordIsTrue(Took(s, t, n), l) {
      OwnersKeptForLoads(s, t, n, l);
    }
    assert OwnedIsRecorded(s, t);
    if s.context.Some? {
      assert RecordIsTrue(s, s.context.value);
    }
  }

  // ---- Freed loads

  /** Only live loads are created on, and only live ones are freed. */
  ghost predicate LiveStep(s: State, n: Turn)
    requires n.Turn?
  {
    && (n.effect.NewContext? ==> n.effect.l in s.models && n.effect.l !in s.contexts && s.freedContexts[n.effect.l] == 0)
    && (n.effect.FreeModel? && n.effect.p.Some? ==> n.effect.p.value in s.models)
    && (n.effect.FreeContext? && n.effect.p.Some? ==> n.effect.p.value in s.contexts)
  }

  lemma FreedKept(s: State, t: Tid, n: Turn, l: Load)
    requires FreedInv(s) && n.Turn? && LiveStep(s, n)
    ensures LoadInv(Took(s, t, n), l)
  {
    assert LoadInv(s, l) && LoadInv(s, s.next);
  }

  lemma LiveStepHolds(s: State, t: Tid, m: Move)
    requires Chosen(s, t, m).Turn? && CallsInv(s) && OwnersInv(s)
    ensures LiveStep(s, Chosen(s, t, m))
  {
    assert OwnedIsRecorded(s, t);
    if t in s.calls {
      assert CallInv(s, s.calls[t]);
    }
  }

  // ---- What calls know

  /** The moving call knows what it should after its step: outside the inference lock, ... */
  lemma SelfKeptOutside(s: State, t: Tid, m: Move)
    requires Inv(s) && Chosen(s, t, m).Turn? && Chosen(s, t, m).to.Some? && !Inside(Lookup(s, t))
    ensures CallInv(Took(s, t, Chosen(s, t, m)), Chosen(s, t, m).to.value)
  {
    assert OwnedIsRecorded(s, t) && LoadInv(s, s.next);
    if t in s.calls {
      assert CallInv(s, s.calls[t]);
    }
  }

  /** ... inside it without the swap lock, ... */
  lemma SelfKeptGenerating(s: State, t: Tid, m: Move)
    requires Inv(s) && Chosen(s, t, m).Turn? && Chosen(s, t, m).to.Some? && Inside(Lookup(s, t)) && !Swapping(Lookup(s, t))
    ensures CallInv(Took(s, t, Chosen(s, t, m)), Chosen(s, t, m).to.value)
  {
    assert CallInv(s, s.calls[t]);
  }

  /** ... and inside both. */
  lemma SelfKeptSwapping(s: State, t: Tid, m: Move)
    requires Inv(s) && Chosen(s, t, m).Turn? && Chosen(s, t, m).to.Some? && Inside(Lookup(s, t)) && Swapping(Lookup(s, t))
    ensures CallInv(Took(s, t, Chosen(s, t, m)), Chosen(s, t, m).to.value)
  {
    assert CallInv(s, s.calls[t]);
    assert Inside(Lookup(s, t)) <==> s.inferenceLock == Some(t);
    if s.context.Some? {
      assert RecordIsTrue(s, s.context.value);
    }
  }

  /** Only a call inside the inference lock stores to the global pointers. */
  predicate StoreStep(o: Option<Pc>, n: Turn)
    requires n.Turn?
  {
    n.effect.StoreModel? || n.effect.StoreContext? ==> Inside(o)
  }

  /** What the others know is not disturbed: they own other loads and are outside the inference lock. */
  lemma OthersKept(s: State, t: Tid, n: Turn, u: Tid)
    requires Inv(s) && n.Turn? && OwnStep(s, Lookup(s, t), n) && StoreStep(Lookup(s, t), n)
    requires u != t && u in s.calls
    ensures CallInv(Took(s, t, n), s.calls[u])
  {
    assert CallInv(s, s.calls[u]);
    assert OwnedIsRecorded(s, t) && OwnedIsRecorded(s, u);
    assert Inside(Lookup(s, t)) <==> s.inferenceLock == Some(t);
    assert Inside(Lookup(s, u)) <==> s.inferenceLock == Some(u);
  }

  lemma CallsKept(s: State, t: Tid, m: Move)
    requires Inv(s) && Chosen(s, t, m).Turn?
    ensures CallsInv(Do(s, t, m))
  {
    var n := Chosen(s, t, m);
    OwnStepHolds(s, t, m);
    forall u | u in Do(s, t, m).calls ensures CallInv(Do(s, t, m), Do(s, t, m).calls[u]) {
      Moved(s, t, n, u);
      if u == t {
        if !Inside(Lookup(s, t)) {
          SelfKeptOutside(s, t, m);
        } else if Swapping(Lookup(s, t)) {
          SelfKeptSwapping(s, t, m);
        } else {
          SelfKeptGenerating(s, t, m);
        }
      } else {
        OthersKept(s, t, n, u);
      }
    }
  }

  lemma PointersKept(s: State, t: Tid, m: Move)
    requires Inv(s) && Chosen(s, t, m).Turn?
    ensures PointersInv(Do(s, t, m))
  {
    Moved(s, t, Chosen(s, t, m), t);
    assert Inside(Lookup(s, t)) <==> s.inferenceLock == Some(t);
    if t in s.calls {
      assert CallInv(s, s.calls[t]);
    }
    if s.inferenceLock.Some? {
      Moved(s, t, Chosen(s, t, m), s.inferenceLock.value);
    }
  }

  /** Every step of every call keeps the invariant. */
  lemma StepKeepsInv(s: State, t: Tid, m: Move)
    requires Inv(s)
    ensures Inv(Do(s, t, m))
  {
    var n := Chosen(s, t, m);
    if n.Turn? {
      LockStepHolds(s, t, m);
      LocksKept(s, t, n);
      OwnStepHolds(s, t, m);
      OwnersKept(s, t, n);
      LiveStepHolds(s, t, m);
      forall l: Load ensures LoadInv(Took(s, t, n), l) {
        FreedKept(s, t, n, l);
      }
      CallsKept(s, t, m);
      PointersKept(s, t, m);
    }
  }

  // ---- Whole runs

  /** Call `ts[i]` makes move `ms[i]` from `states[i]`, in any order and any number of calls. */
  datatype Run = Run(states: seq<State>, ts: seq<Tid>, ms: seq<Move>)

  ghost predicate IsRun(r: Run) {
    && |r.ts| == |r.ms| && |r.states| == |r.ts| + 1
    && r.states[0] == INITIAL
    && (forall i :: 0 <= i < |r.ts| ==> MoveAt(r, i))
  }

  ghost predicate MoveAt(r: Run, i: nat)
    requires |r.ts| == |r.ms| && |r.states| == |r.ts| + 1 && i < |r.ts|
  {
    r.states[i + 1] == Do(r.states[i], r.ts[i], r.ms[i])
  }

  lemma InitialInv()
    ensures Inv(INITIAL)
  {
    assert forall t: Tid :: Lookup(INITIAL, t) == None;
    assert forall l: Load :: LoadInv(INITIAL, l);
  }

  lemma {:induction false} Reachable(r: Run, i: nat)
    requires IsRun(r) && i <= |r.ts|
    ensures Inv(r.states[i])
  {
    if i == 0 {
      InitialInv();
    } else {
      Reachable(r, i - 1);
      assert MoveAt(r, i - 1);
      StepKeepsInv(r.states[i - 1], r.ts[i - 1], r.ms[i - 1]);
    }
  }

  /** In every run, a call that generates uses the model and the context of one load, and both are live. */
  lemma GenerationIsSafe(r: Run, i: nat, t: Tid)
    requires IsRun(r) && i <= |r.ts|
    requires t in r.states[i].calls && r.states[i].calls[t].Generating?
    ensures var s := r.states[i]; var pc := s.calls[t];
      pc.model == pc.context && pc.model in s.models && pc.context in s.contexts
  {
    Reachable(r, i);
    var s := r.states[i];
    assert CallInv(s, s.calls[t]);
    assert Inside(Lookup(s, t)) <==> s.inferenceLock == Some(t);
  }

  /** In every run, what is freed is live at that moment: nothing is freed twice, and no live load is lost track of. */
  lemma FreesAreSafe(r: Run, i: nat)
    requires IsRun(r) && i < |r.ts| && Chosen(r.states[i], r.ts[i], r.ms[i]).Turn?
    ensures LiveStep(r.states[i], Chosen(r.states[i], r.ts[i], r.ms[i]))
  {
    Reachable(r, i);
    LiveStepHolds(r.states[i], r.ts[i], r.ms[i]);
  }

  /** Whether a load has been made by a call that has not published it yet, replaced but not freed, in use, or freed. */
  ghost predicate IsPending(s: State, l: Load) { exists t: Tid :: t in s.calls && Pending(s.calls[t]) == Some(l) }
  ghost predicate IsRetiring(s: State, l: Load) { exists t: Tid :: t in s.calls && Pending(s.calls[t]) == None && Retiring(s.calls[t]) == Some(l) }
  ghost predicate IsPublished(s: State, l: Load) { s.context == Some(l) }
  ghost predicate IsFreed(s: State, l: Load) { l in s.freedModels }

  function Count(b: bool): nat { if b then 1 else 0 }

  /**
   * In every reachable state every load ever made is exactly one of: pending, published, being retired by the
   * call that replaced it, or freed; its model has been freed at most once, and so has its context; and the context
   * of a freed load is not live any more.
   */
  lemma EveryLoadHasOnePlace(r: Run, i: nat, l: Load)
    requires IsRun(r) && i <= |r.ts| && l < r.states[i].next
    ensures var s := r.states[i];
      && Count(IsPending(s, l)) + Count(IsPublished(s, l)) + Count(IsRetiring(s, l)) + Count(IsFreed(s, l)) == 1
      && s.freedModels[l] <= 1 && s.freedContexts[l] <= 1
      && (IsFreed(s, l) ==> l !in s.models && l !in s.contexts)
  {
    Reachable(r, i);
    var s := r.states[i];
    assert LoadInv(s, l) && RecordIsTrue(s, l);
    forall t: Tid ensures OwnedIsRecorded(s, t) {
    }
    if l in s.owner && s.owner[l].Call? {
      assert Owned(Lookup(s, s.owner[l].t)) == Some(l);
    }
    if IsPending(s, l) {
      var t: Tid :| t in s.calls && Pending(s.calls[t]) == Some(l);
      assert Owned(Lookup(s, t)) == Some(l) && OwnedIsRecorded(s, t);
    }
    if IsRetiring(s, l) {
      var t: Tid :| t in s.calls && Pending(s.calls[t]) == None && Retiring(s.calls[t]) == Some(l);
      assert Owned(Lookup(s, t)) == Some(l) && OwnedIsRecorded(s, t);
    }
  }

  /** A call that holds the inference lock, or the swap lock while the former is free, or any call if both are free. */
  lemma SomeoneCanMove(s: State, t: Tid)
    requires LocksInv(s) && t in s.calls
    requires s.inferenceLock.Some? ==> s.inferenceLock == Some(t)
    requires s.inferenceLock == None && s.swapLock.Some? ==> s.swapLock == Some(t)
    ensures forall ok :: TurnOf(s, s.calls[t], ok).Turn?
  {
    assert Inside(Lookup(s, t)) <==> s.inferenceLock == Some(t);
    assert Swapping(Lookup(s, t)) <==> s.swapLock == Some(t);
  }

  /** The locks are taken in one order only: as long as a call is in progress, some call can move. */
  lemma NoDeadlock(r: Run, i: nat)
    requires IsRun(r) && i <= |r.ts| && r.states[i].calls != map[]
    ensures exists t: Tid :: t in r.states[i].calls && forall ok :: TurnOf(r.states[i], r.states[i].calls[t], ok).Turn?
  {
    Reachable(r, i);
    var s := r.states[i];
    var t: Tid;
    if s.inferenceLock.Some? {
      t := s.inferenceLock.value;
      assert Inside(Lookup(s, t));
    } else if s.swapLock.Some? {
      t := s.swapLock.value;
      assert Swapping(Lookup(s, t));
    } else {
      t :| t in s.calls;
    }
    SomeoneCanMove(s, t);
  }
}
