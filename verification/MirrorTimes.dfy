/** How long mirrored entries are in force, and what a tick says of a mirror that is off: further
    results on the runs of Mirror, for ds_live_put and dataset_verify of module/src/local.
 */
module MirrorTimes {
  import opened Bytes
  import opened Overlay
  import opened Mirror

  // ---------------------------------------------------------------------------
  // Expiry
  // ---------------------------------------------------------------------------

  // The keeper's record that a step applies.
  function RecordOf(s: State, step: Step): Option<Record> {
    match step
    case PackageRecord(w, _) =>
      if WorkOf(s, w).Packing? && WorkOf(s, w).at < |WorkOf(s, w).pack.records|
      then Some(WorkOf(s, w).pack.records[WorkOf(s, w).at]) else None
    case LoadRecord(w, _) =>
      if WorkOf(s, w).Loading? && WorkOf(s, w).at < |WorkOf(s, w).snap.records|
      then Some(WorkOf(s, w).snap.records[WorkOf(s, w).at]) else None
    case _ => None
  }

  predicate Adds(s: State, step: Step, key: Key) {
    RecordOf(s, step).Some? && RecordOf(s, step).value.op == Add && RecordOf(s, step).value.key == key
  }

  predicate BansKey(step: Step, key: Key) { step.Ban? && step.key == key }

  predicate Mirrored(nodes: Nodes, key: Key) { key in nodes && nodes[key].h != ZERO }

  // A record that leaves its key mirrored has set its expiry.
  lemma {:induction false} RecordSets(env: Env, s: State, s': State, step: Step, key: Key)
    requires Inv(env, s) && Next(env, s, s', step) && Adds(s, step, key) && Mirrored(s'.slot.nodes, key)
    ensures InForceUntil(s'.slot.nodes[key], RecordOf(s, step).value.expires)
  {
    var r := RecordOf(s, step).value;
    var slot, room := s.slot, step.room;
    var h := env.sip(if step.PackageRecord? then slot.sipKey else WorkOf(s, step.w).snap.sipKey, key);
    assert Formed(env, slot) && h != ZERO;
    PutInForce(env.kind, slot.nodes, Cap(env.liveMax), room.(header := slot.header || room.header), key, r.expires, h,
               WorkOf(s, step.w).gen);
    hide Inv, InForceUntil;
  }

  // Any other step that leaves the key mirrored found it so, and only a ban on it changes its expiry.
  lemma {:induction false} OthersLeave(env: Env, s: State, s': State, step: Step, key: Key)
    requires Inv(env, s) && Next(env, s, s', step) && !Adds(s, step, key) && Mirrored(s'.slot.nodes, key)
    ensures Mirrored(s.slot.nodes, key)
    ensures s'.slot.nodes[key].expires == if BansKey(step, key)
            then Refreshed(s.slot.nodes[key], step.expires, ZERO, s.slot.gen).expires
            else s.slot.nodes[key].expires
  {
    assert Formed(env, s.slot);
    hide Inv;
    if step.Ban? {
      hide Xor;
    } else if step.SweepNode? {
      SweepLeaves(env, s, s', step.w, key);
    }
  }

  lemma {:induction false} SweepLeaves(env: Env, s: State, s': State, w: nat, key: Key)
    requires Next(env, s, s', SweepNode(w)) && key in s'.slot.nodes
    ensures key in s.slot.nodes && s'.slot.nodes[key] == s.slot.nodes[key]
  {}

  // Some ban on the key between two steps reaches that moment.
  ghost predicate BannedUntil(steps: seq<Step>, j: nat, i: nat, key: Key, now: nat) {
    exists k | j < k < i && k < |steps| :: BansKey(steps[k], key) && now <= steps[k].expires
  }

  ghost predicate Unbanned(steps: seq<Step>, j: nat, i: nat, key: Key) {
    forall k | j < k < i && k < |steps| :: !BansKey(steps[k], key)
  }

  ghost predicate LimitedBans(steps: seq<Step>, j: nat, i: nat, key: Key) {
    forall k | j < k < i && k < |steps| && BansKey(steps[k], key) :: steps[k].expires != 0
  }

  // In force until the record's expiry or that of a later ban, whichever comes last.
  ghost predicate UntilLast(node: Node, steps: seq<Step>, j: nat, i: nat, key: Key, e: nat) {
    node.expires != 0 && forall now: nat :: Unexpired(node, now) <==> now <= e || BannedUntil(steps, j, i, key, now)
  }

  // Without a ban after the record, as the record says; with bans, as the latest of them says.
  ghost predicate AsTold(node: Node, steps: seq<Step>, j: nat, i: nat, key: Key, e: nat) {
    && (Unbanned(steps, j, i, key) ==> InForceUntil(node, e))
    && (e != 0 && LimitedBans(steps, j, i, key) ==> UntilLast(node, steps, j, i, key, e))
  }

  lemma {:induction false} OneMoreBan(steps: seq<Step>, j: nat, i: nat, key: Key, now: nat)
    requires j < i < |steps|
    ensures BannedUntil(steps, j, i + 1, key, now)
       <==> BannedUntil(steps, j, i, key, now) || (BansKey(steps[i], key) && now <= steps[i].expires)
  {
    if k :| j < k < i + 1 && k < |steps| && BansKey(steps[k], key) && now <= steps[k].expires {
      if k < i {
        assert BansKey(steps[k], key) && now <= steps[k].expires;
      }
    }
  }

  lemma {:induction false} StillUntilLast(node: Node, after: Node, gen: nat, steps: seq<Step>, j: nat, i: nat, key: Key,
                                          e: nat)
    requires j < i < |steps| && UntilLast(node, steps, j, i, key, e)
    requires if BansKey(steps[i], key) then
               steps[i].expires != 0 && after.expires == Refreshed(node, steps[i].expires, ZERO, gen).expires
             else after.expires == node.expires
    ensures UntilLast(after, steps, j, i + 1, key, e)
  {
    if BansKey(steps[i], key) {
      BanExtends(node, steps[i].expires, gen);
    }
    forall now: nat ensures Unexpired(after, now) <==> now <= e || BannedUntil(steps, j, i + 1, key, now) {
      OneMoreBan(steps, j, i, key, now);
      assert Unexpired(node, now) <==> now <= e || BannedUntil(steps, j, i, key, now);
      hide BannedUntil;
    }
  }

  // In every run a mirrored key was set by a last record of the keeper. Unless a ban on the key came
  // after it, the entry is in force exactly as long as that record says; with bans after it, all
  // limited in time like the record, as long as the record or one of them says.
  lemma {:induction false} MirroredExpiry(env: Env, run: seq<State>, steps: seq<Step>, i: nat, key: Key)
    returns (j: nat)
    requires Sane(env) && IsRun(env, run, steps) && i < |run| && Mirrored(run[i].slot.nodes, key)
    ensures j < i && Adds(run[j], steps[j], key) && forall k | j < k < i :: !Adds(run[k], steps[k], key)
    ensures AsTold(run[i].slot.nodes[key], steps, j, i, key, RecordOf(run[j], steps[j]).value.expires)
    decreases i
  {
    hide Inv, Next, Init, AsTold, Refreshed, InForceUntil, Sane, RecordOf;
    NoneAtFirst(env, run, steps, key);
    var s, s', step := run[i - 1], run[i], steps[i - 1];
    RunsKeep(env, run, steps, i - 1);
    assert Next(env, s, s', step);
    hide IsRun;
    if Adds(s, step, key) {
      j := i - 1;
      RecordSets(env, s, s', step, key);
      JustSet(s'.slot.nodes[key], steps, j, key, RecordOf(s, step).value.expires);
    } else {
      OthersLeave(env, s, s', step, key);
      j := MirroredExpiry(env, run, steps, i - 1, key);
      var e := RecordOf(run[j], steps[j]).value.expires;
      StillAsTold(s.slot.nodes[key], s'.slot.nodes[key], s.slot.gen, steps, j, i - 1, key, e);
    }
  }

  lemma {:induction false} NoneAtFirst(env: Env, run: seq<State>, steps: seq<Step>, key: Key)
    requires IsRun(env, run, steps)
    ensures !Mirrored(run[0].slot.nodes, key)
  {
    hide Next;
  }

  lemma {:induction false} StillAsTold(node: Node, after: Node, gen: nat, steps: seq<Step>, j: nat, i: nat, key: Key,
                                       e: nat)
    requires j < i < |steps| && AsTold(node, steps, j, i, key, e)
    requires after.expires == if BansKey(steps[i], key) then Refreshed(node, steps[i].expires, ZERO, gen).expires
                              else node.expires
    ensures AsTold(after, steps, j, i + 1, key, e)
  {
    hide InForceUntil, UntilLast, Refreshed;
    if Unbanned(steps, j, i + 1, key) {
      assert !BansKey(steps[i], key);
      SameForce(node, after, e);
    }
    if e != 0 && LimitedBans(steps, j, i + 1, key) {
      StillUntilLast(node, after, gen, steps, j, i, key, e);
    }
  }

  lemma {:induction false} SameForce(node: Node, after: Node, e: nat)
    requires InForceUntil(node, e) && after.expires == node.expires
    ensures InForceUntil(after, e)
  {
    forall now: nat ensures Unexpired(after, now) <==> e == 0 || now <= e {
      assert Unexpired(node, now) <==> e == 0 || now <= e;
    }
  }

  lemma {:induction false} JustSet(node: Node, steps: seq<Step>, j: nat, key: Key, e: nat)
    requires InForceUntil(node, e)
    ensures AsTold(node, steps, j, j + 1, key, e)
  {
    if e != 0 {
      assert !Unexpired(node, e + 1);
    }
  }

  // ---------------------------------------------------------------------------
  // Divergence
  // ---------------------------------------------------------------------------

  // A mirror that lacks exactly one key of the keeper's, or has exactly one too many, is told so by
  // every tick that carries the keeper's hash.
  lemma {:induction false} OneOffDiverges(env: Env, run: seq<State>, steps: seq<Step>, i: nat)
    requires Sane(env) && IsRun(env, run, steps) && i < |run|
    requires run[i].slot.epoch != 0 && !run[i].slot.syncing
    requires |run[i].past.missing| + |run[i].past.extra| == 1
    ensures var slot := run[i].slot;
            var now := env.sets(slot.epoch, slot.seqno);
            Verify(slot, slot.epoch, slot.seqno, SetHash(env, env.keyOf(slot.epoch), now)) == DIVERGED
  {
    RunsKeep(env, run, steps, i);
    MirrorsTheKeeper(env, run, steps, i);
    var slot, past := run[i].slot, run[i].past;
    assert slot.sipKey == env.keyOf(slot.epoch) && CurrentWork(run[i]) == Idle;
    hide Inv, IsRun;
    OneOff(env, slot.nodes, env.sets(slot.epoch, slot.seqno), slot.sipKey, past);
    hide XorAll, SetHash;
  }

  ghost function Keepers(env: Env, now: set<Key>, sipKey: nat): Nodes {
    map k | k in now :: Node(0, 0, env.sip(sipKey, k))
  }

  lemma {:induction false} OneOff(env: Env, nodes: Nodes, now: set<Key>, sipKey: nat, past: History)
    requires Mirrors(env, nodes, now, sipKey, past) && Sane(env) && |past.missing| + |past.extra| == 1
    ensures XorAll(nodes) != SetHash(env, sipKey, now)
  {
    XorHashed(nodes);
    hide XorAll, Mirrors;
    if |past.missing| == 1 {
      var k :| k in past.missing;
      OneMissing(env, nodes, now, sipKey, past, k);
      XorSame(Hashed(nodes), Keepers(env, now, sipKey) - {k});
      OneDiffers(Keepers(env, now, sipKey), k);
    } else {
      var k :| k in past.extra;
      OneExtra(env, nodes, now, sipKey, past, k);
      XorSame(Hashed(nodes) - {k}, Keepers(env, now, sipKey));
      OneDiffers(Hashed(nodes), k);
    }
  }

  lemma {:induction false} OneMissing(env: Env, nodes: Nodes, now: set<Key>, sipKey: nat, past: History, k: Key)
    requires Mirrors(env, nodes, now, sipKey, past) && Sane(env) && k in past.missing
    requires |past.missing| == 1 && |past.extra| == 0
    ensures k in Keepers(env, now, sipKey) && Keepers(env, now, sipKey)[k].h != ZERO
    ensures var mine, rest := Hashed(nodes), Keepers(env, now, sipKey) - {k};
            mine.Keys == rest.Keys && forall x | x in mine :: mine[x].h == rest[x].h
  {
    Alone(past.missing, k);
  }

  lemma {:induction false} OneExtra(env: Env, nodes: Nodes, now: set<Key>, sipKey: nat, past: History, k: Key)
    requires Mirrors(env, nodes, now, sipKey, past) && Sane(env) && k in past.extra
    requires |past.missing| == 0 && |past.extra| == 1
    ensures k in Hashed(nodes) && Hashed(nodes)[k].h != ZERO
    ensures var rest, all := Hashed(nodes) - {k}, Keepers(env, now, sipKey);
            rest.Keys == all.Keys && forall x | x in rest :: rest[x].h == all[x].h
  {
    Alone(past.extra, k);
  }

  lemma {:induction false} Alone(s: set<Key>, k: Key)
    requires |s| == 1 && k in s
    ensures s == {k}
  {
    assert s == {k} + (s - {k});
  }

  lemma {:induction false} OneDiffers(m: Nodes, k: Key)
    requires k in m && m[k].h != ZERO
    ensures XorAll(m) != XorAll(m - {k})
  {
    XorRemove(m, k);
    hide XorAll;
    assert Xor(m[k].h, XorAll(m - {k})) != XorAll(m - {k}) by {
      XorMoves(m[k].h, XorAll(m - {k}));
    }
  }

  lemma {:induction false} XorMoves(x: Hash, y: Hash)
    requires x != ZERO
    ensures Xor(x, y) != y
  {}

  // The check at the end of a snapshot says what a tick with the keeper's hash will say.
  lemma {:induction false} SnapshotChecked(env: Env, run: seq<State>, steps: seq<Step>, i: nat)
    requires Sane(env) && IsRun(env, run, steps) && i < |steps| && steps[i].SnapshotEnd? && run[i + 1].slot.epoch != 0
    ensures var slot := run[i + 1].slot;
            var now := env.sets(slot.epoch, slot.seqno);
            slot.snapBad
            <==> Verify(slot, slot.epoch, slot.seqno, SetHash(env, env.keyOf(slot.epoch), now)) == DIVERGED
  {
    RunsKeep(env, run, steps, i);
    assert Next(env, run[i], run[i + 1], steps[i]);
    assert CurrentWork(run[i]) == run[i].workers[steps[i].w];
  }

  // ---------------------------------------------------------------------------
  // Order
  // ---------------------------------------------------------------------------

  // The snapshot being applied is not older than the mirror.
  ghost predicate Ahead(s: State) {
    var work := CurrentWork(s);
    Snapshotting(work) && s.slot.epoch != 0 && work.snap.epoch == s.slot.epoch ==> s.slot.seqno <= work.snap.seqno
  }

  lemma {:induction false} AheadNext(env: Env, s: State, s': State, step: Step)
    requires OneOwner(s) && Ahead(s) && Next(env, s, s', step)
    ensures Ahead(s')
  {
    hide PutSpec, IsNext, IsLeast, SetHash, XorAll, AddKeys;
  }

  lemma {:induction false} RunsAhead(env: Env, run: seq<State>, steps: seq<Step>, i: nat)
    requires Sane(env) && IsRun(env, run, steps) && i < |run|
    ensures Ahead(run[i])
  {
    hide Inv, Next, OneOwner, Ahead, Init;
    if i == 0 {
      assert Init(run[0]);
      AheadAtFirst(run[0]);
    } else {
      RunsAhead(env, run, steps, i - 1);
      RunsKeep(env, run, steps, i - 1);
      assert Next(env, run[i - 1], run[i], steps[i - 1]);
      Owned(env, run[i - 1]);
      AheadNext(env, run[i - 1], run[i], steps[i - 1]);
    }
  }

  lemma {:induction false} AheadAtFirst(s: State)
    requires Init(s)
    ensures Ahead(s)
  {}

  lemma {:induction false} Owned(env: Env, s: State)
    requires Inv(env, s)
    ensures OneOwner(s) && WorkInv(env, s)
  {}

  // Within an epoch the mirror never goes back.
  lemma {:induction false} NeverBackwards(env: Env, run: seq<State>, steps: seq<Step>, i: nat)
    requires Sane(env) && IsRun(env, run, steps) && i < |steps|
    ensures run[i].slot.epoch != 0 && run[i + 1].slot.epoch == run[i].slot.epoch ==>
              run[i].slot.seqno <= run[i + 1].slot.seqno
  {
    hide Inv, Next, OneOwner, WorkInv, Ahead, Init;
    RunsAhead(env, run, steps, i);
    RunsKeep(env, run, steps, i);
    Owned(env, run[i]);
    assert Next(env, run[i], run[i + 1], steps[i]);
    StepsForward(env, run[i], run[i + 1], steps[i]);
  }

  lemma {:induction false} StepsForward(env: Env, s: State, s': State, step: Step)
    requires OneOwner(s) && WorkInv(env, s) && Ahead(s) && Next(env, s, s', step)
    ensures s.slot.epoch != 0 && s'.slot.epoch == s.slot.epoch ==> s.slot.seqno <= s'.slot.seqno
  {
    hide PutSpec, IsNext, IsLeast, SetHash, XorAll, AddKeys, Mirrors, SnapInv, LoadInv, MarkInv, SweepInv, Settled;
    if step.SnapshotEnd? || step.PackageEnd? {
      assert CurrentWork(s) == s.workers[step.w];
    }
  }
}
