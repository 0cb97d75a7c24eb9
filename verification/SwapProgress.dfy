/**
 * What the calls of `HotSwap` get done, whatever other calls do in between: an inference call that holds its lock
 * generates with the load that is published, and a swap that holds both locks publishes its own and frees the previous.
 */
module SwapProgress {
  import opened Options
  import opened HotSwap

  ghost predicate Shaped(r: Run) { |r.ts| == |r.ms| && |r.states| == |r.ts| + 1 }

  /** How many moves call `t` makes between states `a` and `b`. */
  ghost function Moves(r: Run, t: Tid, a: nat, b: nat): nat
    requires Shaped(r) && a <= b <= |r.ts|
  {
    if a == b then 0 else Moves(r, t, a, b - 1) + if r.ts[b - 1] == t && r.ms[b - 1].Go? then 1 else 0
  }

  // ---- Nobody interferes with the call that holds the inference lock

  ghost predicate FreedMore(s: State, s': State) {
    && (forall l: Load :: l in s.freedModels ==> l in s'.freedModels)
    && (forall l: Load :: l in s.freedContexts ==> l in s'.freedContexts)
  }

  /** Effects on the pointers and the inference lock. */
  predicate Touches(e: Effect) { e.StoreModel? || e.StoreContext? || e.TakeInference? || e.DropInference? }

  lemma OthersDoNotTouch(s: State, t: Tid, u: Tid, m: Move)
    requires Inv(s) && s.inferenceLock == Some(t) && u != t && Chosen(s, u, m).Turn?
    ensures !Touches(Chosen(s, u, m).effect)
  {
    assert Inside(Lookup(s, u)) <==> s.inferenceLock == Some(u);
  }

  lemma UntouchedBy(s: State, u: Tid, e: Effect)
    requires !Touches(e)
    ensures var s' := Apply(s, u, e);
      s'.model == s.model && s'.context == s.context && s'.inferenceLock == s.inferenceLock && s'.calls == s.calls && FreedMore(s, s')
  {
  }

  lemma OthersLeaveAlone(s: State, t: Tid, u: Tid, m: Move)
    requires Inv(s) && s.inferenceLock == Some(t) && u != t
    ensures var s' := Do(s, u, m);
      && s'.model == s.model && s'.context == s.context && s'.inferenceLock == Some(t)
      && Lookup(s', t) == Lookup(s, t) && FreedMore(s, s')
  {
    if Chosen(s, u, m).Turn? {
      OthersDoNotTouch(s, t, u, m);
      UntouchedBy(s, u, Chosen(s, u, m).effect);
    }
  }

  lemma StartChangesNothing(s: State, t: Tid, m: Move)
    requires t in s.calls && !m.Go?
    ensures Do(s, t, m) == s
  {
  }

  lemma HoldsLock(s: State, t: Tid)
    requires Inv(s) && Inside(Lookup(s, t))
    ensures s.inferenceLock == Some(t) && (!s.calls[t].StoredModel? ==> s.model == s.context)
  {
  }

  // ---- Inference

  /** Where an inference call is after `k` moves under the lock, `p` being published. */
  function InferenceStage(k: nat, p: Ptr): Pc {
    if k == 0 then Locked
    else if k == 1 then GotModel(p)
    else if k == 2 || p == None then GotBoth(p, p)
    else Generating(p.value, p.value)
  }

  ghost predicate InferenceAt(s: State, t: Tid, k: nat, p: Ptr) {
    s.inferenceLock == Some(t) && s.model == p && s.context == p && Lookup(s, t) == Some(InferenceStage(k, p))
  }

  lemma InferenceMoves(s: State, t: Tid, k: nat, p: Ptr, ok: bool)
    requires InferenceAt(s, t, k, p) && (k < 2 || (p.Some? && (k < 3 || ok)))
    ensures InferenceAt(Do(s, t, Go(ok)), t, k + 1, p)
  {
  }

  /** Call `t` is told to go on by every move it makes between states `a` and `b`. */
  ghost predicate GoesOn(r: Run, t: Tid, a: nat, b: nat)
    requires Shaped(r)
  {
    forall i :: a <= i < b <= |r.ts| && r.ts[i] == t && r.ms[i].Go? ==> r.ms[i].ok
  }

  lemma {:induction false} InferenceRuns(r: Run, t: Tid, a: nat, b: nat, p: Ptr)
    requires IsRun(r) && a <= b <= |r.ts| && InferenceAt(r.states[a], t, 0, p)
    requires Moves(r, t, a, b) <= (if p.Some? then 3 else 2) || (p.Some? && GoesOn(r, t, a, b))
    ensures InferenceAt(r.states[b], t, Moves(r, t, a, b), p)
    decreases b
  {
    if a < b {
      var i: nat := b - 1;
      InferenceRuns(r, t, a, i, p);
      assert MoveAt(r, i);
      Reachable(r, i);
      if r.ts[i] != t {
        OthersLeaveAlone(r.states[i], t, r.ts[i], r.ms[i]);
      } else if !r.ms[i].Go? {
        StartChangesNothing(r.states[i], t, r.ms[i]);
      } else {
        InferenceMoves(r.states[i], t, Moves(r, t, a, i), p, r.ms[i].ok);
      }
    }
  }

  /**
   * A task is served. In every run, a call that takes the inference lock while load `l` is published generates with
   * the model and the context of `l` from its third move on, as long as generation goes on, whatever other calls do.
   */
  lemma TaskIsServed(r: Run, t: Tid, a: nat, b: nat, l: Load)
    requires IsRun(r) && a <= b <= |r.ts| && Lookup(r.states[a], t) == Some(Locked) && r.states[a].context == Some(l)
    requires Moves(r, t, a, b) == 3 || (Moves(r, t, a, b) > 3 && GoesOn(r, t, a, b))
    ensures Lookup(r.states[b], t) == Some(Generating(l, l))
  {
    Reachable(r, a);
    HoldsLock(r.states[a], t);
    InferenceRuns(r, t, a, b, Some(l));
  }

  /** A task is turned away exactly if nothing is published: in every run, a call that has read both pointers and moves. */
  lemma TurnedAwayIff(r: Run, i: nat, t: Tid)
    requires IsRun(r) && i < |r.ts| && r.ts[i] == t && r.ms[i].Go?
    requires t in r.states[i].calls && (var pc := r.states[i].calls[t]; pc.Waiting? || pc.Locked? || pc.GotModel? || pc.GotBoth?)
    ensures t !in r.states[i + 1].calls <==> r.states[i].calls[t].GotBoth? && r.states[i].context == None
    ensures t !in r.states[i + 1].calls ==> r.states[i + 1].inferenceLock == None
  {
    Reachable(r, i);
    assert MoveAt(r, i);
    var s := r.states[i];
    assert CallInv(s, s.calls[t]);
    if Inside(Lookup(s, t)) {
      HoldsLock(s, t);
    }
  }

  // ---- Swap

  /** Where a swap is after `k` moves under both locks, `p` having been published before. */
  function SwapStage(k: nat, l: Load, p: Ptr): Pc {
    match k
    case 0 => HoldsBoth(l)
    case 1 => ReadModel(l, p)
    case 2 => ReadBoth(l, p, p)
    case 3 => StoredModel(l, p, p)
    case 4 => StoredBoth(l, p, p)
    case 5 => FreedContext(p)
    case _ => Cleaned
  }

  ghost predicate SwapAt(s: State, t: Tid, k: nat, l: Load, p: Ptr) {
    && s.inferenceLock == Some(t) && Lookup(s, t) == Some(SwapStage(k, l, p))
    && s.model == (if k >= 3 then Some(l) else p) && s.context == (if k >= 4 then Some(l) else p)
    && (p.Some? && k >= 5 ==> p.value in s.freedContexts)
    && (p.Some? && k >= 6 ==> p.value in s.freedModels)
  }

  lemma SwapMoves(s: State, t: Tid, k: nat, l: Load, p: Ptr, ok: bool)
    requires SwapAt(s, t, k, l, p) && k < 6
    ensures SwapAt(Do(s, t, Go(ok)), t, k + 1, l, p)
  {
    if k < 4 {
      SwapStores(s, t, k, l, p, ok);
    } else {
      SwapFrees(s, t, k, l, p, ok);
    }
  }

  lemma SwapStores(s: State, t: Tid, k: nat, l: Load, p: Ptr, ok: bool)
    requires SwapAt(s, t, k, l, p) && k < 4
    ensures SwapAt(Do(s, t, Go(ok)), t, k + 1, l, p)
  {
  }

  lemma SwapFrees(s: State, t: Tid, k: nat, l: Load, p: Ptr, ok: bool)
    requires SwapAt(s, t, k, l, p) && 4 <= k < 6
    ensures SwapAt(Do(s, t, Go(ok)), t, k + 1, l, p)
  {
  }

  lemma {:induction false} SwapRuns(r: Run, t: Tid, a: nat, b: nat, l: Load, p: Ptr)
    requires IsRun(r) && a <= b <= |r.ts| && SwapAt(r.states[a], t, 0, l, p) && Moves(r, t, a, b) <= 6
    ensures SwapAt(r.states[b], t, Moves(r, t, a, b), l, p)
    decreases b
  {
    if a < b {
      var i: nat := b - 1;
      SwapRuns(r, t, a, i, l, p);
      assert MoveAt(r, i);
      Reachable(r, i);
      if r.ts[i] != t {
        OthersLeaveAlone(r.states[i], t, r.ts[i], r.ms[i]);
      } else if !r.ms[i].Go? {
        StartChangesNothing(r.states[i], t, r.ms[i]);
      } else {
        SwapMoves(r.states[i], t, Moves(r, t, a, i), l, p, r.ms[i].ok);
      }
    }
  }

  /**
   * A swap gets done. In every run, a call that holds both locks has, after six moves of its own, both pointers at its
   * own load, and of the load published before neither model nor context is live any more.
   */
  lemma SwapIsDone(r: Run, t: Tid, a: nat, b: nat, l: Load)
    requires IsRun(r) && a <= b <= |r.ts| && Lookup(r.states[a], t) == Some(HoldsBoth(l)) && Moves(r, t, a, b) == 6
    ensures var s, before := r.states[b], r.states[a].context;
      && s.model == Some(l) && s.context == Some(l) && l in s.models && l in s.contexts
      && (before.Some? ==> before.value in s.freedModels && before.value !in s.models && before.value !in s.contexts)
  {
    Reachable(r, a);
    HoldsLock(r.states[a], t);
    SwapRuns(r, t, a, b, l, r.states[a].context);
    Reachable(r, b);
    var s, p := r.states[b], r.states[a].context;
    assert s.context.value in s.contexts;
    if p.Some? {
      assert LoadInv(s, p.value);
    }
  }

  // ---- Up to the locks

  /** Where a swap is after `k` turns that were not spent waiting, `l` being what it loads. */
  function LoadStage(k: nat, l: Load): Pc {
    match k
    case 0 => Loading
    case 1 => ModelLoaded(l)
    case 2 => PairLoaded(l)
    case 3 => HoldsSwap(l)
    case _ => HoldsBoth(l)
  }

  /** How many turns call `t` makes between states `a` and `b` without having to wait. */
  ghost function Turns(r: Run, t: Tid, a: nat, b: nat): nat
    requires Shaped(r) && a <= b <= |r.ts|
  {
    if a == b then 0
    else
      var more := if r.ts[b - 1] == t && Chosen(r.states[b - 1], t, r.ms[b - 1]).Turn? then 1 else 0;
      Turns(r, t, a, b - 1) + more
  }

  lemma LoadMoves(s: State, t: Tid, k: nat, l: Load)
    requires Lookup(s, t) == Some(LoadStage(k, l)) && k < 4 && Chosen(s, t, Go(true)).Turn?
    ensures Lookup(Do(s, t, Go(true)), t) == Some(LoadStage(k + 1, if k == 0 then s.next else l))
  {
  }

  lemma OthersLeaveCall(s: State, t: Tid, u: Tid, m: Move)
    requires u != t
    ensures Lookup(Do(s, u, m), t) == Lookup(s, t)
  {
  }

  /** A swap whose loads succeed gets to hold both locks, with its own load, by its fourth turn that it need not wait for. */
  lemma {:induction false} SwapGetsLocks(r: Run, t: Tid, a: nat, b: nat) returns (l: Load)
    requires IsRun(r) && a <= b <= |r.ts| && Lookup(r.states[a], t) == Some(Loading) && GoesOn(r, t, a, b) && Turns(r, t, a, b) <= 4
    ensures Lookup(r.states[b], t) == Some(LoadStage(Turns(r, t, a, b), l))
    decreases b
  {
    l := 0;
    if a < b {
      var i: nat := b - 1;
      l := SwapGetsLocks(r, t, a, i);
      assert MoveAt(r, i);
      if r.ts[i] != t {
        OthersLeaveCall(r.states[i], t, r.ts[i], r.ms[i]);
      } else if Chosen(r.states[i], t, r.ms[i]).Turn? {
        var k := Turns(r, t, a, i);
        LoadMoves(r.states[i], t, k, l);
        l := if k == 0 then r.states[i].next else l;
      }
    }
  }

  /** A load that fails ends the call; a model without a context is freed first, and nothing is published. */
  lemma FailedLoadReturns(r: Run, i: nat, t: Tid)
    requires IsRun(r) && i < |r.ts| && r.ts[i] == t && r.ms[i] == Go(false) && t in r.states[i].calls
    requires r.states[i].calls[t].Loading? || r.states[i].calls[t].ModelLoaded?
    ensures var s, s' := r.states[i], r.states[i + 1];
      && t !in s'.calls && s'.model == s.model && s'.context == s.context && s'.next == s.next
      && s'.models == (if s.calls[t].Loading? then s.models else s.models - {s.calls[t].own}) && s'.contexts == s.contexts
  {
    assert MoveAt(r, i);
  }
}
