/** The reassembler with the fields, counters and error branches it has in the data plane. */
module ReassemblyStates {
  import opened Words
  import opened Options
  import opened Net
  import opened Packet
  import opened Fragmentation
  import opened MapSums
  import opened Reassembly
  import opened BanTable

  datatype PartialMessage = PartialMessage(createdAt: nat, lastSeen: nat, fragCnt: u16, bytes: nat, parts: map<u16, Bytes>)

  ghost function ToAssembly(m: PartialMessage): Assembly { Assembly(m.createdAt, m.fragCnt, m.parts) }

  ghost function ToAssemblies(m: map<Key, PartialMessage>): map<Key, Assembly> { map k | k in m :: ToAssembly(m[k]) }

  /** Each entry's own byte count is the sum of its parts. */
  ghost predicate Counted(m: map<Key, PartialMessage>) {
    forall k :: k in m ==> m[k].bytes == PartBytes(m[k].parts)
  }

  lemma UpdateCommutes(m: map<Key, PartialMessage>, k: Key, v: PartialMessage)
    ensures ToAssemblies(m[k := v]) == ToAssemblies(m)[k := ToAssembly(v)]
    ensures ToAssemblies(m[k := v] - {k}) == ToAssemblies(m) - {k}
  {
  }

  lemma DropOne(m: map<Key, PartialMessage>, k: Key)
    requires k in m && Counted(m)
    ensures Counted(m - {k}) && Total(ToAssemblies(m)) == m[k].bytes + Total(ToAssemblies(m - {k}))
  {
    assert ToAssemblies(m - {k}) == ToAssemblies(m) - {k};
    SumRemove(ToAssemblies(m), AssemblyBytes, k);
  }

  ghost function Young(m: map<Key, PartialMessage>, now: nat): map<Key, PartialMessage> {
    map k | k in m && SatSub(now, m[k].createdAt) <= REASSEMBLY_TTL :: m[k]
  }

  lemma YoungIsPruned(m: map<Key, PartialMessage>, done: map<Key, nat>, now: nat)
    ensures ToAssemblies(Young(m, now)) == Pruned(Table(ToAssemblies(m), done), now).inflight
  {
  }

  /** `parts.remove(&idx)` for every index in turn, appending what comes out. */
  method Assemble(all: map<u16, Bytes>, fragCnt: u16) returns (out: Option<Bytes>)
    requires forall i: u16 :: i < fragCnt ==> i in all
    ensures out == Some(Joined(all, fragCnt))
  {
    var parts := all;
    var bytes: Bytes := [];
    for idx: int := 0 to fragCnt
      invariant parts == all - (set i: u16 | i in all && i < idx)
      invariant bytes == Joined(all, idx)
    {
      if idx !in parts {
        return None;
      }
      bytes := bytes + parts[idx];
      parts := parts - {idx};
    }
    out := Some(bytes);
  }

  /** An entry with one more part, its counters in plain arithmetic. */
  ghost function Added(m: map<Key, PartialMessage>, a: Arrival, now: nat): PartialMessage {
    var e := if a.key in m then m[a.key] else PartialMessage(now, now, a.cnt, 0, map[]);
    PartialMessage(e.createdAt, now, e.fragCnt, e.bytes + |a.payload|, e.parts[a.idx := a.payload])
  }

  /** Adding a part keeps both byte counts exact and far below any limit at which they could saturate. */
  lemma AddedFits(m: map<Key, PartialMessage>, done: map<Key, nat>, a: Arrival, now: nat)
    requires Counted(m) && !Duplicate(Table(ToAssemblies(m), done), a)
    requires Total(ToAssemblies(m)) + |a.payload| <= MAX_INFLIGHT_BYTES
    ensures var t := Table(ToAssemblies(m), done);
      && ToAssembly(Added(m, a, now)) == Extended(t, a, now)
      && ToAssemblies(m[a.key := Added(m, a, now)]) == t.inflight[a.key := Extended(t, a, now)]
      && Total(ToAssemblies(m[a.key := Added(m, a, now)])) == Total(ToAssemblies(m)) + |a.payload|
      && Counted(m[a.key := Added(m, a, now)])
      && Added(m, a, now).bytes <= Total(ToAssemblies(m)) + |a.payload|
  {
    var t := Table(ToAssemblies(m), done);
    ExtendedBytes(t, a, now);
    UpdateCommutes(m, a.key, Added(m, a, now));
    if a.key in m {
      SumMember(t.inflight, AssemblyBytes, a.key);
    } else {
      assert PartBytes(map[]) == 0;
    }
  }

  /** The table after a part is stored, on both outcomes of the fullness test. */
  lemma StoredTable(m: map<Key, PartialMessage>, done: map<Key, nat>, a: Arrival, held: nat, now: nat)
    requires a.key in m ==> Partial(ToAssembly(m[a.key]))
    requires !Duplicate(Table(ToAssemblies(m), done), a)
    requires Refusal(Table(ToAssemblies(m), done), a, held) == None
    ensures var t := Table(ToAssemblies(m), done);
      var full := Added(m, a, now);
      var m' := m[a.key := full];
      && (Complete(ToAssembly(full)) <==> |full.parts| == a.cnt)
      && (|full.parts| != a.cnt ==> Store(t, a, now) == (Table(ToAssemblies(m'), done), None))
      && (|full.parts| == a.cnt ==>
            Store(t, a, now) == (Table(ToAssemblies(m' - {a.key}), done[a.key := now]), Some(Joined(full.parts, full.fragCnt))))
  {
    var t := Table(ToAssemblies(m), done);
    ExtendedShape(t, a, held, now);
    UpdateCommutes(m, a.key, Added(m, a, now));
  }

  /** The update of one table entry by `record_invalid_source`. */
  method RecordOne(s: SourceState, now: nat) returns (state: SourceState)
    ensures state == Bump(Some(s), now)
  {
    state := s;
    if BannedAt(state, now) {
      return;
    }
    if SatSub(now, state.windowStarted) > BAD_WINDOW {
      state := state.(windowStarted := now, badCount := 0);
    }
    state := state.(badCount := state.badCount + 1);
    if state.badCount >= BAN_THRESHOLD {
      state := state.(bannedUntil := Some(now + BAN_TTL), badCount := 0);
    }
  }

  lemma InvLater(t: Table, now: nat, later: nat)
    requires Inv(t, now) && now <= later
    ensures Inv(t, later)
  {
  }

  lemma SourcesLater(m: Sources, now: nat, later: nat)
    requires SourcesInv(m, now) && now <= later
    ensures SourcesInv(m, later)
  {
  }

  /** A record updates the entry of its address in the pruned table, a missing entry counting as a fresh one. */
  lemma RecordUpdates(m: Sources, p: Sources, ip: IpAddr, first: nat, second: nat)
    requires p == PrunedSources(m, first)
    ensures BanTable.After(m, Record(ip, first, second)) ==
      p[ip := Bump(Some(if ip in p then p[ip] else SourceState(second, 0, None)), second)]
  {
  }

  class ReassemblyState {
    var inflight: map<Key, PartialMessage>
    var completed: map<Key, nat>
    var sourceState: Sources
    var totalBytes: nat
    ghost var clock: nat  // the latest clock reading seen

    ghost function Table(): Table
      reads `inflight, `completed
    {
      Reassembly.Table(ToAssemblies(inflight), completed)
    }

    /** Every budget holds, both byte counts are exact, and nothing is dated in the future. */
    ghost predicate TableValid()
      reads `inflight, `completed, `totalBytes, `clock
    {
      Inv(Table(), clock) && BytesValid()
    }

    /** Both byte counts are exact and within the budget. */
    ghost predicate BytesValid()
      reads `inflight, `totalBytes
    {
      totalBytes == Total(ToAssemblies(inflight)) <= MAX_INFLIGHT_BYTES && Counted(inflight)
    }

    ghost predicate Valid()
      reads this
    {
      TableValid() && SourcesInv(sourceState, clock)
    }

    constructor ()
      ensures Valid() && Table() == EMPTY && sourceState == map[] && clock == 0
    {
      inflight, completed, sourceState, totalBytes, clock := map[], map[], map[], 0, 0;
      new;
      assert Table() == EMPTY;
      assert forall ip :: FromIp({}, ip) == {};
    }

    /** `inflight.retain` with the bytes of what it removes added up, in any order. */
    method RetainYoung(now: nat)
      requires BytesValid()
      modifies `inflight, `totalBytes
      ensures BytesValid()
      ensures inflight == Young(old(inflight), now)
    {
      var before := inflight;
      var todo := inflight.Keys;
      var removedBytes: nat := 0;
      while todo != {}
        invariant todo <= inflight.Keys <= before.Keys
        invariant forall k :: k in inflight ==> inflight[k] == before[k]
        invariant forall k :: k in before ==> (k in inflight <==> k in todo || SatSub(now, before[k].createdAt) <= REASSEMBLY_TTL)
        invariant removedBytes + Total(ToAssemblies(inflight)) == totalBytes
        invariant Counted(inflight) && totalBytes == old(totalBytes)
        decreases todo
      {
        var k :| k in todo;
        todo := todo - {k};
        if SatSub(now, inflight[k].createdAt) > REASSEMBLY_TTL {
          DropOne(inflight, k);
          removedBytes := SatAdd(removedBytes, inflight[k].bytes);
          inflight := inflight - {k};
        }
      }
      totalBytes := SatSub(totalBytes, removedBytes);
    }

    method Prune(now: nat)
      requires Valid() && clock <= now
      modifies this
      ensures Valid() && clock == now
      ensures Table() == Pruned(old(Table()), now)
      ensures sourceState == PrunedSources(old(sourceState), now)
    {
      ghost var t := Table();
      PrunedKeepsInv(t, clock, now);
      YoungIsPruned(inflight, completed, now);
      RetainYoung(now);
      completed := map k | k in completed && SatSub(now, completed[k]) <= COMPLETED_TTL :: completed[k];
      sourceState := map ip | ip in sourceState && Keep(sourceState[ip], now) :: sourceState[ip];
      clock := now;
      assert Table() == Pruned(t, now);
    }

    method IsSourceBanned(from: SocketAddr, first: nat, second: nat) returns (banned: bool)
      requires Valid() && clock <= first <= second
      modifies this
      ensures Valid() && clock == second
      ensures Table() == Pruned(old(Table()), first)
      ensures banned == Answer(old(sourceState), Ask(from.ip, first, second))
      ensures sourceState == BanTable.After(old(sourceState), Ask(from.ip, first, second))
    {
      Prune(first);
      InvLater(Table(), first, second);
      SourcesLater(sourceState, first, second);
      banned := from.ip in sourceState && sourceState[from.ip].bannedUntil.Some? && sourceState[from.ip].bannedUntil.value > second;
      clock := second;
    }

    method RecordInvalidSource(from: SocketAddr, first: nat, second: nat)
      requires Valid() && clock <= first <= second
      modifies this
      ensures Valid() && clock == second
      ensures Table() == Pruned(old(Table()), first)
      ensures sourceState == BanTable.After(old(sourceState), Record(from.ip, first, second))
    {
      ghost var before := sourceState;
      AfterKeepsInv(before, Record(from.ip, first, second), clock);
      Prune(first);
      InvLater(Table(), first, second);
      RecordUpdates(before, sourceState, from.ip, first, second);
      clock := second;
      var state := if from.ip in sourceState then sourceState[from.ip] else SourceState(second, 0, None);
      state := RecordOne(state, second);
      sourceState := sourceState[from.ip := state];
    }

    /** `inflight.keys().filter(..).count()` */
    method CountFrom(ip: IpAddr) returns (n: nat)
      ensures n == |FromIp(inflight.Keys, ip)|
    {
      n := 0;
      var todo := inflight.Keys;
      while todo != {}
        invariant todo <= inflight.Keys
        invariant n == |FromIp(inflight.Keys - todo, ip)|
        decreases todo
      {
        var k :| k in todo;
        ghost var seen := inflight.Keys - todo;
        todo := todo - {k};
        assert inflight.Keys - todo == seen + {k};
        if k.from.ip == ip {
          assert FromIp(seen + {k}, ip) == FromIp(seen, ip) + {k};
          n := n + 1;
        } else {
          assert FromIp(seen + {k}, ip) == FromIp(seen, ip);
        }
      }
      assert inflight.Keys - {} == inflight.Keys;
    }

    /** Look up or create the entry, check it, add the part. */
    method AddToEntry(a: Arrival, now: nat) returns (err: Option<Error>)
      requires totalBytes + |a.payload| <= MAX_INFLIGHT_BYTES && Added(inflight, a, now).bytes <= MAX_INFLIGHT_BYTES
      modifies `inflight, `totalBytes
      ensures err in {None, Some(CountChanged)}
      ensures err == Some(CountChanged) <==> a.key in old(inflight) && old(inflight)[a.key].fragCnt != a.cnt
      ensures err == Some(CountChanged) ==> inflight == old(inflight) && totalBytes == old(totalBytes)
      ensures err == None ==> inflight == old(inflight)[a.key := Added(old(inflight), a, now)]
      ensures err == None ==> totalBytes == old(totalBytes) + |a.payload|
    {
      var entry := if a.key in inflight then inflight[a.key] else PartialMessage(now, now, a.cnt, 0, map[]);
      inflight := inflight[a.key := entry];
      if entry.fragCnt != a.cnt {
        return Some(CountChanged);
      }
      if SatAdd(entry.bytes, |a.payload|) > MAX_MESSAGE_SIZE {
        return Some(MaxSize);
      }
      entry := PartialMessage(entry.createdAt, now, entry.fragCnt, SatAdd(entry.bytes, |a.payload|), entry.parts[a.idx := a.payload]);
      inflight := inflight[a.key := entry];
      totalBytes := SatAdd(totalBytes, |a.payload|);
      err := None;
    }

    /** Take a full entry out and put its parts together. */
    method Finish(key: Key, now: nat) returns (r: Outcome)
      requires key in inflight && BytesValid()
      requires Complete(ToAssembly(inflight[key]))
      modifies `inflight, `totalBytes, `completed
      ensures r == Accepted(Some(Joined(old(inflight)[key].parts, old(inflight)[key].fragCnt)))
      ensures inflight == old(inflight) - {key} && BytesValid()
      ensures completed == old(completed)[key := now]
    {
      DropOne(inflight, key);
      if key !in inflight {
        return Rejected(Disappeared);
      }
      var entry := inflight[key];
      inflight := inflight - {key};
      totalBytes := SatSub(totalBytes, entry.bytes);
      var out := Assemble(entry.parts, entry.fragCnt);
      if out == None {
        return Rejected(MissingFragment);
      }
      completed := completed[key := now];
      return Accepted(out);
    }

    method AddPart(a: Arrival, now: nat) returns (err: Option<Error>)
      requires BytesValid() && !Duplicate(Table(), a) && totalBytes + |a.payload| <= MAX_INFLIGHT_BYTES
      modifies `inflight, `totalBytes
      ensures BytesValid()
      ensures err == if a.key in old(inflight) && old(inflight)[a.key].fragCnt != a.cnt then Some(CountChanged) else None
      ensures inflight == if err == None then old(inflight)[a.key := Added(old(inflight), a, now)] else old(inflight)
    {
      AddedFits(inflight, completed, a, now);
      err := AddToEntry(a, now);
    }

    /** Hand the message out if its last part has just been added to the entries `m`. */
    method FinishIfFull(a: Arrival, now: nat, ghost m: map<Key, PartialMessage>, ghost held: nat) returns (r: Outcome)
      requires BytesValid() && inflight == m[a.key := Added(m, a, now)]
      requires a.key in m ==> Partial(ToAssembly(m[a.key]))
      requires var t := Reassembly.Table(ToAssemblies(m), completed); Refusal(t, a, held) == None && !Duplicate(t, a)
      modifies `inflight, `totalBytes, `completed
      ensures BytesValid()
      ensures var t := Reassembly.Table(ToAssemblies(m), old(completed));
        r == Accepted(Store(t, a, now).1) && Table() == Store(t, a, now).0
    {
      StoredTable(m, completed, a, held, now);
      if |inflight[a.key].parts| != a.cnt {
        return Accepted(None);
      }
      r := Finish(a.key, now);
    }

    /** The part of `accept_fragment` after its admission checks. */
    method StorePart(a: Arrival, now: nat) returns (r: Outcome)
      requires BytesValid() && totalBytes + |a.payload| <= MAX_INFLIGHT_BYTES
      requires a.key in inflight ==> Partial(ToAssembly(inflight[a.key]))
      requires Refusal(Table(), a, totalBytes) in {None, Some(CountChanged)} && !Duplicate(Table(), a)
      modifies `inflight, `totalBytes, `completed
      ensures BytesValid()
      ensures old(Refusal(Table(), a, totalBytes)) == Some(CountChanged) ==> r == Rejected(CountChanged) && Table() == old(Table())
      ensures old(Refusal(Table(), a, totalBytes)) == None ==>
        r == Accepted(Store(old(Table()), a, now).1) && Table() == Store(old(Table()), a, now).0
    {
      ghost var m, held := inflight, totalBytes;
      var err := AddPart(a, now);
      if err.Some? {
        return Rejected(err.value);
      }
      r := FinishIfFull(a, now, m, held);
    }

    /** Read-only admission checks; `None` means that the fragment may be stored. */
    method CheckAdmission(a: Arrival) returns (v: Option<Outcome>)
      ensures v == None ==> Refusal(Table(), a, totalBytes) in {None, Some(CountChanged)} && !Duplicate(Table(), a)
      ensures v == None ==> totalBytes + |a.payload| <= MAX_INFLIGHT_BYTES
      ensures v.Some? && v.value.Rejected? ==> Refusal(Table(), a, totalBytes) == Some(v.value.error)
      ensures v.Some? && v.value.Accepted? ==> v.value.message == None && Refusal(Table(), a, totalBytes) == None && Duplicate(Table(), a)
    {
      if a.cnt == 0 || a.idx >= a.cnt {
        return Some(Rejected(Metadata));
      }
      if a.cnt > MAX_FRAGMENTS_PER_MESSAGE {
        return Some(Rejected(TooManyFragments));
      }
      if |a.payload| > MTU_PAYLOAD {
        return Some(Rejected(PayloadTooLarge));
      }
      if a.key in completed {
        return Some(Accepted(None));
      }
      assert ToAssemblies(inflight).Keys == inflight.Keys;
      if a.key !in inflight {
        if |inflight| >= MAX_INFLIGHT_MESSAGES {
          return Some(Rejected(InflightLimit));
        }
        var sourceMessages := CountFrom(a.key.from.ip);
        if sourceMessages >= MAX_MESSAGES_PER_SOURCE {
          return Some(Rejected(SourceLimit));
        }
      }
      if a.key in inflight && a.idx in inflight[a.key].parts {
        return Some(Accepted(None));
      }
      if SatAdd(totalBytes, |a.payload|) > MAX_INFLIGHT_BYTES {
        return Some(Rejected(ByteLimit));
      }
      return None;
    }

    method Admit(a: Arrival, now: nat) returns (r: Outcome)
      requires TableValid()
      modifies `inflight, `totalBytes, `completed
      ensures BytesValid()
      ensures (Table(), r) == Reassembly.Admit(old(Table()), a, old(totalBytes), now)
      ensures r.Rejected? ==> r.error !in {MaxSize, Disappeared, MissingFragment}
    {
      var v := CheckAdmission(a);
      if v.Some? {
        return v.value;
      }
      assert a.key in inflight ==> Partial(Table().inflight[a.key]);
      r := StorePart(a, now);
    }

    /**
     * Each call answers and leaves behind exactly what `Accept` says with the true byte count. In particular
     * the errors for an oversized, vanished or incomplete message are never returned.
     */
    method AcceptFragment(a: Arrival, pruneAt: nat, now: nat) returns (r: Outcome)
      requires Valid() && clock <= pruneAt <= now
      modifies this
      ensures Valid() && clock == now
      ensures var t := old(Table()); (Table(), r) == Accept(t, a, Total(Pruned(t, pruneAt).inflight), pruneAt, now)
      ensures sourceState == PrunedSources(old(sourceState), pruneAt)
      ensures r.Rejected? ==> r.error !in {MaxSize, Disappeared, MissingFragment}
    {
      ghost var t := Table();
      ghost var op := AcceptOp(a, Total(Pruned(t, pruneAt).inflight), pruneAt, now);
      NextKeepsInv(t, op, clock);
      Prune(pruneAt);
      assert totalBytes == op.held;
      r := Admit(a, now);
      assert Table() == Next(t, op);
      clock := now;
    }
  }
}
