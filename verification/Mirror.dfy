/** The dataset mirror: apply_package, apply_snapshot and verify of
    module/src/local/ngx_http_waf_dataset.c, run by any number of workers over one slot.

    A worker takes the slot's lock for a batch of records and drops it in between; here every
    record is a step of its own, so every interleaving of batches is among the runs below.
    The `syncing` flag is the only thing that keeps two applications apart. Local bans land
    between any two steps.
 */
module Mirror {
  import opened Bytes
  import opened Overlay

  // ---------------------------------------------------------------------------
  // What the keeper sends
  // ---------------------------------------------------------------------------

  datatype Op = Add | Remove | Other

  // `expires` is the node's expiry as ds_expires computed it on arrival.
  datatype Record = Record(op: Op, key: Key, expires: nat)

  datatype Pack = Pack(epoch: nat, seqno: nat, hash: Hash, sipKey: nat, count: nat, records: seq<Record>)

  datatype Env = Env(
    kind: Kind,
    crc: Key -> nat,
    sip: (nat, Key) -> Hash,
    liveMax: nat,
    dsMax: nat,
    keyOf: nat -> nat,
    sets: (nat, nat) -> set<Key>)

  ghost predicate Sane(env: Env) {
    forall k: nat, x: Key :: env.sip(k, x) != ZERO
  }

  function AddKeys(records: seq<Record>): set<Key> {
    set r | r in records && r.op == Add :: r.key
  }

  function CountAdds(records: seq<Record>): nat {
    if records == [] then 0
    else CountAdds(records[..|records| - 1]) + if records[|records| - 1].op == Add then 1 else 0
  }

  // The keeper's set after one record, and after a whole package.
  function ApplyOne(s: set<Key>, r: Record): set<Key> {
    match r.op
    case Add => s + {r.key}
    case Remove => s - {r.key}
    case Other => s
  }

  function ApplyAll(s: set<Key>, records: seq<Record>): set<Key> {
    if records == [] then s
    else ApplyOne(ApplyAll(s, records[..|records| - 1]), records[|records| - 1])
  }

  // The hash the keeper announces for its set in an epoch.
  ghost function SetHash(env: Env, sipKey: nat, s: set<Key>): Hash {
    XorAll(map k | k in s :: Node(0, 0, env.sip(sipKey, k)))
  }

  ghost predicate HonestPackage(env: Env, p: Pack) {
    && p.seqno > 0
    && env.sets(p.epoch, p.seqno) == ApplyAll(env.sets(p.epoch, p.seqno - 1), p.records)
    && p.hash == SetHash(env, env.keyOf(p.epoch), env.sets(p.epoch, p.seqno))
  }

  ghost predicate HonestSnapshot(env: Env, p: Pack) {
    && p.sipKey == env.keyOf(p.epoch)
    && env.sets(p.epoch, p.seqno) == AddKeys(p.records)
    && p.hash == SetHash(env, p.sipKey, env.sets(p.epoch, p.seqno))
  }

  // ---------------------------------------------------------------------------
  // State
  // ---------------------------------------------------------------------------

  datatype SlotState = SlotState(header: bool, nodes: Nodes, gen: nat, epoch: nat, seqno: nat, sipKey: nat,
                                 syncing: bool, snapBad: bool)

  datatype Cursor = Start | At(key: Key)

  datatype Work =
    | Idle
    | Packing(pack: Pack, at: nat, gen: nat)
    | Marking(snap: Pack, at: nat, gen: nat)
    | Sweeping(snap: Pack, gen: nat, cursor: Cursor)
    | Loading(snap: Pack, at: nat, gen: nat)

  datatype Applied = Snapshot(epoch: nat, seqno: nat) | Package(epoch: nat, seqno: nat)

  // What the run remembers for the statements below; no branch reads it. All but `log` count
  // from the last snapshot that began.
  datatype History = History(
    owner: Option<nat>,    // the worker inside an application
    log: seq<Applied>,     // finished applications
    local: set<Key>,       // keys put by local bans
    accepted: set<Key>,    // snapshot records the overlay took
    carried: set<Key>,     // keys of the snapshot the overlay already had
    missing: set<Key>,     // keeper keys whose record did not fit
    extra: set<Key>,       // keeper entries a ban kept alive although the snapshot drops them
    quiet: bool)           // no local ban, no allocation refused

  datatype State = State(slot: SlotState, workers: map<nat, Work>, past: History)

  datatype Step =
    | Ban(key: Key, expires: nat, room: Room)
    | PackageStart(w: nat, pack: Pack)
    | PackageRecord(w: nat, room: Room)
    | PackageEnd(w: nat)
    | SnapshotStart(w: nat, snap: Pack)
    | MarkRecord(w: nat)
    | MarkEnd(w: nat)
    | SweepNode(w: nat)
    | LoadRecord(w: nat, room: Room)
    | SnapshotEnd(w: nat)

  // ---------------------------------------------------------------------------
  // Gates: the checks made under the lock before an application starts
  // ---------------------------------------------------------------------------

  datatype Verdict = APPLIED | STALE | GAP | FOREIGN | DIVERGED | MALFORMED | BUSY

  function PackageGate(slot: SlotState, p: Pack): Verdict {
    if slot.epoch == 0 || p.epoch != slot.epoch then FOREIGN
    else if slot.syncing then BUSY
    else if p.seqno <= slot.seqno then STALE
    else if p.seqno != slot.seqno + 1 then GAP
    else APPLIED
  }

  function SnapshotGate(env: Env, slot: SlotState, p: Pack): Verdict {
    var cap := if env.dsMax < Cap(env.liveMax) then env.dsMax else Cap(env.liveMax);
    if p.count > cap || CountAdds(p.records) > cap then MALFORMED
    else if slot.syncing then BUSY
    else if slot.epoch != 0 && p.epoch == slot.epoch && p.seqno < slot.seqno then STALE
    else APPLIED
  }

  // ngx_http_waf_dataset_verify, the answer to a keeper tick
  ghost function Verify(slot: SlotState, epoch: nat, seqno: nat, hash: Hash): Verdict {
    if slot.epoch == 0 || epoch != slot.epoch then FOREIGN
    else if slot.syncing then BUSY
    else if seqno > slot.seqno then GAP
    else if seqno < slot.seqno then STALE
    else if XorAll(slot.nodes) != hash then DIVERGED
    else APPLIED
  }

  // ---------------------------------------------------------------------------
  // Steps
  // ---------------------------------------------------------------------------

  function WorkOf(s: State, w: nat): Work { if w in s.workers then s.workers[w] else Idle }

  ghost predicate Enabled(env: Env, s: State, step: Step) {
    match step
    case Ban(_, _, _) => true
    case PackageStart(w, p) =>
      w in s.workers && s.workers[w].Idle? && PackageGate(s.slot, p) == APPLIED && HonestPackage(env, p)
    case PackageRecord(w, _) => WorkOf(s, w).Packing? && WorkOf(s, w).at < |WorkOf(s, w).pack.records|
    case PackageEnd(w) => WorkOf(s, w).Packing? && WorkOf(s, w).at == |WorkOf(s, w).pack.records|
    case SnapshotStart(w, p) =>
      w in s.workers && s.workers[w].Idle? && SnapshotGate(env, s.slot, p) == APPLIED && HonestSnapshot(env, p)
    case MarkRecord(w) => WorkOf(s, w).Marking? && WorkOf(s, w).at < |WorkOf(s, w).snap.records|
    case MarkEnd(w) => WorkOf(s, w).Marking? && WorkOf(s, w).at == |WorkOf(s, w).snap.records|
    case SweepNode(w) => WorkOf(s, w).Sweeping?
    case LoadRecord(w, _) => WorkOf(s, w).Loading? && WorkOf(s, w).at < |WorkOf(s, w).snap.records|
    case SnapshotEnd(w) => WorkOf(s, w).Loading? && WorkOf(s, w).at == |WorkOf(s, w).snap.records|
  }

  ghost function CurrentWork(s: State): Work {
    if s.past.owner.Some? then WorkOf(s, s.past.owner.value) else Idle
  }

  predicate Snapshotting(work: Work) { work.Marking? || work.Sweeping? || work.Loading? }

  // live_put on the slot; the overlay header, once there, stays
  function PutInto(env: Env, slot: SlotState, room: Room, key: Key, expires: nat, h: Hash, gen: nat): (Rc, SlotState) {
    var r := PutSpec(env.kind, slot.nodes, Cap(env.liveMax), room.(header := slot.header || room.header),
                     key, expires, h, gen);
    (r.rc, slot.(nodes := r.nodes, header := slot.header || (KeyOk(env.kind, key) && room.header)))
  }

  predicate Taken(rc: Rc) { rc == Ok || rc == Declined }

  function Missing(missing: set<Key>, rc: Rc, key: Key): set<Key> {
    if Taken(rc) then missing - {key} else missing + {key}
  }

  // The ban refreshes an entry that the loading snapshot is about to drop.
  predicate Revives(slot: SlotState, work: Work, key: Key) {
    Snapshotting(work) && key in slot.nodes && slot.nodes[key].h != ZERO && key !in AddKeys(work.snap.records)
  }

  // dataset_put: a local ban, h == 0, with the generation of the moment
  ghost function BanStep(env: Env, s: State, key: Key, expires: nat, room: Room): State {
    var (rc, slot) := PutInto(env, s.slot, room, key, expires, ZERO, s.slot.gen);
    s.(slot := slot,
       past := s.past.(local := if Taken(rc) then s.past.local + {key} else s.past.local,
                       extra := if Taken(rc) && Revives(s.slot, CurrentWork(s), key) then s.past.extra + {key}
                                else s.past.extra,
                       quiet := false))
  }

  ghost function PackageRecordStep(env: Env, s: State, w: nat, room: Room): State
    requires Enabled(env, s, PackageRecord(w, room))
  {
    var slot, work := s.slot, s.workers[w];
    var r := work.pack.records[work.at];
    var next := s.workers[w := Packing(work.pack, work.at + 1, work.gen)];
    match r.op
    case Remove =>
      s.(slot := slot.(nodes := slot.nodes - {r.key}), workers := next,
         past := s.past.(missing := s.past.missing - {r.key}, extra := s.past.extra - {r.key}))
    case Other => s.(workers := next)
    case Add =>
      var (rc, slot') := PutInto(env, slot, room, r.key, r.expires, env.sip(slot.sipKey, r.key), work.gen);
      s.(slot := slot', workers := next,
         past := s.past.(missing := Missing(s.past.missing, rc, r.key), extra := s.past.extra - {r.key}))
  }

  ghost function LoadRecordStep(env: Env, s: State, w: nat, room: Room): State
    requires Enabled(env, s, LoadRecord(w, room))
  {
    var slot, work := s.slot, s.workers[w];
    var r := work.snap.records[work.at];
    var next := s.workers[w := Loading(work.snap, work.at + 1, work.gen)];
    if r.op != Add then s.(workers := next)
    else
      var (rc, slot') := PutInto(env, slot, room, r.key, r.expires, env.sip(work.snap.sipKey, r.key), work.gen);
      s.(slot := slot', workers := next,
         past := s.past.(accepted := if Taken(rc) then s.past.accepted + {r.key} else s.past.accepted,
                         missing := Missing(s.past.missing, rc, r.key),
                         quiet := s.past.quiet && room.node))
  }

  // One turn of the sweep loop. The cursor is a tree node: it must still be there.
  ghost predicate SweepStepTo(env: Env, s: State, s': State, w: nat)
    requires Enabled(env, s, SweepNode(w))
  {
    var slot, work := s.slot, s.workers[w];
    match work.cursor
    case Start =>
      if slot.nodes == map[] then
        s' == s.(workers := s.workers[w := Loading(work.snap, 0, work.gen)])
      else
        exists k :: IsLeast(env.crc, slot.nodes.Keys, k)
                    && s' == s.(workers := s.workers[w := Sweeping(work.snap, work.gen, At(k))])
    case At(key) =>
      && key in slot.nodes
      && exists next :: IsNext(env.crc, slot.nodes, key, next)
                        && s' == s.(slot := slot.(nodes := if slot.nodes[key].gen != work.gen
                                                           then slot.nodes - {key} else slot.nodes),
                                    workers := s.workers[w := match next
                                                              case None => Loading(work.snap, 0, work.gen)
                                                              case Some(m) => Sweeping(work.snap, work.gen, At(m))])
  }

  ghost predicate Next(env: Env, s: State, s': State, step: Step) {
    && Enabled(env, s, step)
    && var slot := s.slot;
    match step
    case Ban(key, expires, room) => s' == BanStep(env, s, key, expires, room)
    case PackageStart(w, p) =>
      s' == s.(slot := slot.(syncing := true), workers := s.workers[w := Packing(p, 0, slot.gen)],
               past := s.past.(owner := Some(w)))
    case PackageRecord(w, room) => s' == PackageRecordStep(env, s, w, room)
    case PackageEnd(w) =>
      var p := s.workers[w].pack;
      s' == s.(slot := slot.(seqno := p.seqno, syncing := false), workers := s.workers[w := Idle],
               past := s.past.(owner := None, log := s.past.log + [Package(p.epoch, p.seqno)]))
    case SnapshotStart(w, p) =>
      var gen := NextGen(slot.gen);
      s' == s.(slot := slot.(header := true, gen := gen, syncing := true),
               workers := s.workers[w := Marking(p, 0, gen)],
               past := s.past.(owner := Some(w), local := {}, accepted := {}, missing := {}, extra := {}, quiet := true,
                               carried := slot.nodes.Keys * AddKeys(p.records)))
    case MarkRecord(w) =>
      var work := s.workers[w];
      var r := work.snap.records[work.at];
      s' == s.(slot := slot.(nodes := if r.op == Add then MarkSpec(slot.nodes, r.key, work.gen) else slot.nodes),
               workers := s.workers[w := Marking(work.snap, work.at + 1, work.gen)])
    case MarkEnd(w) =>
      s' == s.(workers := s.workers[w := Sweeping(s.workers[w].snap, s.workers[w].gen, Start)])
    case SweepNode(w) => SweepStepTo(env, s, s', w)
    case LoadRecord(w, room) => s' == LoadRecordStep(env, s, w, room)
    case SnapshotEnd(w) =>
      var p := s.workers[w].snap;
      s' == s.(slot := slot.(epoch := p.epoch, seqno := p.seqno, sipKey := p.sipKey, syncing := false,
                             snapBad := XorAll(slot.nodes) != p.hash),
               workers := s.workers[w := Idle],
               past := s.past.(owner := None, log := s.past.log + [Snapshot(p.epoch, p.seqno)]))
  }

  ghost predicate Init(s: State) {
    && s.slot.nodes == map[] && 0 < s.slot.gen < TWO32 && s.slot.epoch == 0 && !s.slot.syncing
    && (forall w | w in s.workers :: s.workers[w].Idle?)
    && s.past.owner == None && s.past.log == []
  }

  // A run: any steps of any workers, in any order.
  ghost predicate IsRun(env: Env, run: seq<State>, steps: seq<Step>) {
    && |run| == |steps| + 1
    && Init(run[0])
    && forall i | 0 <= i < |steps| :: Next(env, run[i], run[i + 1], steps[i])
  }

  // ---------------------------------------------------------------------------
  // Invariant
  // ---------------------------------------------------------------------------

  // The entries that carry a keeper hash are the set s, but for `missing` and `extra`.
  ghost predicate Mirrors(env: Env, nodes: Nodes, s: set<Key>, sipKey: nat, past: History) {
    && past.missing <= s && past.extra !! s
    && (forall k | k in nodes :: nodes[k].h != ZERO <==> (k in s && k !in past.missing) || k in past.extra)
    && (forall k | k in s && k !in past.missing :: k in nodes && nodes[k].h == env.sip(sipKey, k))
    && past.extra <= nodes.Keys
  }

  // `syncing` works as a lock: it is up exactly while one worker, and no other, applies.
  ghost predicate OneOwner(s: State) {
    match s.past.owner
    case None => !s.slot.syncing && forall w | w in s.workers :: s.workers[w].Idle?
    case Some(o) => s.slot.syncing && o in s.workers && !s.workers[o].Idle?
                    && forall w | w in s.workers && w != o :: s.workers[w].Idle?
  }

  ghost predicate Formed(env: Env, slot: SlotState) {
    && 0 < slot.gen < TWO32
    && (slot.nodes != map[] ==> slot.header)
    && forall k | k in slot.nodes :: KeyOk(env.kind, k)
  }

  ghost predicate AllCurrent(slot: SlotState) {
    forall k | k in slot.nodes :: slot.nodes[k].gen == slot.gen
  }

  ghost predicate Settled(env: Env, s: State) {
    s.slot.epoch != 0 ==>
      Mirrors(env, s.slot.nodes, env.sets(s.slot.epoch, s.slot.seqno), env.keyOf(s.slot.epoch), s.past)
  }

  ghost predicate PackInv(env: Env, s: State, p: Pack, at: nat, gen: nat) {
    && at <= |p.records| && gen == s.slot.gen && AllCurrent(s.slot)
    && HonestPackage(env, p) && p.epoch == s.slot.epoch != 0 && p.seqno == s.slot.seqno + 1
    && Mirrors(env, s.slot.nodes, ApplyAll(env.sets(s.slot.epoch, s.slot.seqno), p.records[..at]),
               env.keyOf(s.slot.epoch), s.past)
  }

  // What holds from the start of a snapshot to its end.
  ghost predicate SnapInv(env: Env, s: State, p: Pack, gen: nat) {
    var nodes, past, adds := s.slot.nodes, s.past, AddKeys(p.records);
    && gen == s.slot.gen && s.slot.header
    && HonestSnapshot(env, p)
    && CountAdds(p.records) <= Cap(env.liveMax)
    && past.carried <= nodes.Keys && past.carried <= adds
    && (forall k | k in past.local :: k in nodes && nodes[k].gen == gen)
    && (forall k | k in nodes && nodes[k].gen == gen :: k in adds || k in past.local)
    && (forall k | k in nodes && nodes[k].gen == gen && k !in adds :: nodes[k].h != ZERO <==> k in past.extra)
    && (forall k | k in past.extra :: k in nodes && nodes[k].gen == gen && k !in adds)
    && (past.quiet ==> past.local == {})
  }

  ghost predicate MarkInv(s: State, p: Pack, at: nat, gen: nat) {
    && at <= |p.records|
    && s.past.accepted == {} && s.past.missing == {}
    && forall i | 0 <= i < at ::
         p.records[i].op == Add && p.records[i].key in s.slot.nodes ==> s.slot.nodes[p.records[i].key].gen == gen
  }

  ghost predicate SweepInv(env: Env, s: State, p: Pack, gen: nat, cursor: Cursor) {
    var nodes := s.slot.nodes;
    && s.past.accepted == {} && s.past.missing == {}
    && (forall k | k in nodes && k in AddKeys(p.records) :: nodes[k].gen == gen)
    && (cursor.At? ==>
          && cursor.key in nodes
          && forall k | k in nodes && Before(env.crc, k, cursor.key) :: nodes[k].gen == gen)
  }

  // `done` are the add-keys already put, `left` those still to come.
  ghost predicate Loaded(env: Env, s: State, sipKey: nat, done: set<Key>, left: set<Key>) {
    var nodes, past := s.slot.nodes, s.past;
    && past.accepted <= nodes.Keys && past.accepted <= done
    && (forall k | k in nodes :: k in past.accepted || k in past.local || k in left)
    && past.missing <= done
    && (forall k | k in done && k !in past.missing :: k in nodes && nodes[k].h == env.sip(sipKey, k))
    && (forall k | k in past.missing && k in nodes :: nodes[k].h == ZERO)
    && (past.quiet ==> forall k | k in done && KeyOk(env.kind, k) :: k in past.accepted)
  }

  ghost predicate LoadInv(env: Env, s: State, p: Pack, at: nat, gen: nat) {
    && at <= |p.records| && AllCurrent(s.slot)
    && Loaded(env, s, p.sipKey, AddKeys(p.records[..at]), AddKeys(p.records[at..]))
  }

  ghost predicate WorkInv(env: Env, s: State) {
    match CurrentWork(s)
    case Idle => AllCurrent(s.slot) && Settled(env, s)
    case Packing(p, at, gen) => PackInv(env, s, p, at, gen)
    case Marking(p, at, gen) => SnapInv(env, s, p, gen) && MarkInv(s, p, at, gen)
    case Sweeping(p, gen, cursor) => SnapInv(env, s, p, gen) && SweepInv(env, s, p, gen, cursor)
    case Loading(p, at, gen) => SnapInv(env, s, p, gen) && LoadInv(env, s, p, at, gen)
  }

  // Packages follow, one by one and in order, the application before them.
  ghost predicate InOrder(slot: SlotState, log: seq<Applied>) {
    && (slot.epoch != 0 ==> log != [] && log[|log| - 1].epoch == slot.epoch && log[|log| - 1].seqno == slot.seqno)
    && forall i | 0 <= i < |log| && log[i].Package? ::
         i > 0 && log[i - 1].epoch == log[i].epoch && log[i].seqno == log[i - 1].seqno + 1
  }

  ghost predicate Inv(env: Env, s: State) {
    && Sane(env)
    && Formed(env, s.slot)
    && (s.slot.epoch != 0 ==> s.slot.sipKey == env.keyOf(s.slot.epoch))
    && OneOwner(s)
    && WorkInv(env, s)
    && InOrder(s.slot, s.past.log)
  }

  // ---------------------------------------------------------------------------
  // Sets of records
  // ---------------------------------------------------------------------------

  lemma {:induction false} AddKeysPrefix(records: seq<Record>, at: nat)
    requires at < |records|
    ensures AddKeys(records[..at + 1])
         == AddKeys(records[..at]) + if records[at].op == Add then {records[at].key} else {}
    ensures AddKeys(records[at..])
         == AddKeys(records[at + 1..]) + if records[at].op == Add then {records[at].key} else {}
  {
    assert records[..at + 1] == records[..at] + [records[at]];
    assert records[at..] == [records[at]] + records[at + 1..];
  }

  lemma {:induction false} AddKeysCount(records: seq<Record>)
    ensures |AddKeys(records)| <= CountAdds(records)
  {
    if records == [] {
      assert AddKeys(records) == {};
    } else {
      var at := |records| - 1;
      AddKeysCount(records[..at]);
      AddKeysPrefix(records, at);
      assert records[..at + 1] == records;
    }
  }

  // ---------------------------------------------------------------------------
  // Every step keeps the invariant
  // ---------------------------------------------------------------------------

  // The effect of a put the overlay took, whatever became of the expiry.
  ghost predicate Puts(nodes: Nodes, after: Nodes, key: Key, h: Hash, gen: nat) {
    && after.Keys == nodes.Keys + {key}
    && after[key].gen == gen
    && after[key].h == (if h != ZERO then h else if key in nodes then nodes[key].h else ZERO)
    && forall k | k in nodes && k != key :: after[k] == nodes[k]
  }

  lemma {:induction false} PutEffect(env: Env, slot: SlotState, room: Room, key: Key, expires: nat, h: Hash, gen: nat)
    requires Formed(env, slot)
    ensures var (rc, slot') := PutInto(env, slot, room, key, expires, h, gen);
            && Formed(env, slot') && slot' == slot.(nodes := slot'.nodes, header := slot'.header)
            && (slot.header ==> slot'.header)
            && (Taken(rc) ==> Puts(slot.nodes, slot'.nodes, key, h, gen) && KeyOk(env.kind, key))
            && (!Taken(rc) ==> slot'.nodes == slot.nodes)
            && (!Taken(rc) ==> key !in slot.nodes)
            && (!Taken(rc) && slot.header && room.node && KeyOk(env.kind, key) ==> |slot.nodes| >= Cap(env.liveMax))
  {}

  // A local ban leaves the keeper's entries where they were.
  lemma {:induction false} BanMirrors(env: Env, nodes: Nodes, after: Nodes, key: Key, gen: nat, s: set<Key>,
                                      sipKey: nat, past: History)
    requires Mirrors(env, nodes, s, sipKey, past) && Puts(nodes, after, key, ZERO, gen)
    requires Sane(env)
    ensures Mirrors(env, after, s, sipKey, past)
  {}

  lemma {:induction false} AddMirrors(env: Env, nodes: Nodes, after: Nodes, key: Key, gen: nat, s: set<Key>,
                                      sipKey: nat, past: History, past': History)
    requires Mirrors(env, nodes, s, sipKey, past) && Sane(env)
    requires past'.extra == past.extra - {key}
    requires
      || (Puts(nodes, after, key, env.sip(sipKey, key), gen) && past'.missing == past.missing - {key})
      || (after == nodes && key !in nodes && past'.missing == past.missing + {key})
    ensures Mirrors(env, after, s + {key}, sipKey, past')
  {}

  lemma {:induction false} RemoveMirrors(env: Env, nodes: Nodes, key: Key, s: set<Key>, sipKey: nat, past: History,
                                         past': History)
    requires Mirrors(env, nodes, s, sipKey, past)
    requires past'.missing == past.missing - {key} && past'.extra == past.extra - {key}
    ensures Mirrors(env, nodes - {key}, s - {key}, sipKey, past')
  {}

  lemma {:induction false} BanKeeps(env: Env, s: State, s': State, step: Step)
    requires Inv(env, s) && Next(env, s, s', step) && step.Ban?
    ensures Inv(env, s')
  {
    PutEffect(env, s.slot, step.room, step.key, step.expires, ZERO, s.slot.gen);
    var rc := PutInto(env, s.slot, step.room, step.key, step.expires, ZERO, s.slot.gen).0;
    assert CurrentWork(s') == CurrentWork(s);
    if !Taken(rc) {
      BanRefused(env, s, s');
    } else if Snapshotting(CurrentWork(s)) {
      BanSnapshotting(env, s, s', step.key);
    } else {
      BanOutside(env, s, s', step.key);
    }
  }

  lemma {:induction false} BanRefused(env: Env, s: State, s': State)
    requires WorkInv(env, s) && CurrentWork(s') == CurrentWork(s)
    requires s'.slot == s.slot.(header := s'.slot.header) && (s.slot.header ==> s'.slot.header)
    requires s'.past == s.past.(quiet := false)
    ensures WorkInv(env, s')
  {}

  lemma {:induction false} BanOutside(env: Env, s: State, s': State, key: Key)
    requires WorkInv(env, s) && Sane(env) && CurrentWork(s') == CurrentWork(s) && !Snapshotting(CurrentWork(s))
    requires s'.slot == s.slot.(nodes := s'.slot.nodes, header := s'.slot.header)
    requires Puts(s.slot.nodes, s'.slot.nodes, key, ZERO, s.slot.gen)
    requires s'.past.missing == s.past.missing && s'.past.extra == s.past.extra
    ensures WorkInv(env, s')
  {
    if s.slot.epoch != 0 {
      var now := env.sets(s.slot.epoch, s.slot.seqno);
      var work := CurrentWork(s);
      BanMirrors(env, s.slot.nodes, s'.slot.nodes, key, s.slot.gen,
                 if work.Packing? then ApplyAll(now, work.pack.records[..work.at]) else now,
                 env.keyOf(s.slot.epoch), s.past);
    }
  }

  lemma {:induction false} BanSnapshotting(env: Env, s: State, s': State, key: Key)
    requires WorkInv(env, s) && CurrentWork(s') == CurrentWork(s) && Snapshotting(CurrentWork(s))
    requires s'.slot == s.slot.(nodes := s'.slot.nodes, header := s'.slot.header)
    requires s.slot.header ==> s'.slot.header
    requires Puts(s.slot.nodes, s'.slot.nodes, key, ZERO, s.slot.gen)
    requires s'.past == s.past.(local := s.past.local + {key}, extra := s'.past.extra, quiet := false)
    requires s'.past.extra == s.past.extra + if Revives(s.slot, CurrentWork(s), key) then {key} else {}
    ensures WorkInv(env, s')
  {
    var work := CurrentWork(s);
    assert SnapInv(env, s, work.snap, work.gen) && work.gen == s.slot.gen && s.slot.header;
    hide SnapInv, MarkInv, SweepInv, LoadInv, Puts;
    BanSnap(env, s, s', key, work.snap, work.gen);
    match work
    case Marking(p, at, gen) => BanMarking(s, s', key, p, at, gen);
    case Sweeping(p, gen, cursor) => BanSweeping(env, s, s', key, p, gen, cursor);
    case Loading(p, at, gen) => BanLoading(env, s, s', key, p, at, gen);
  }

  lemma {:induction false} BanMarking(s: State, s': State, key: Key, p: Pack, at: nat, gen: nat)
    requires MarkInv(s, p, at, gen) && Puts(s.slot.nodes, s'.slot.nodes, key, ZERO, gen)
    requires s'.past.accepted == s.past.accepted && s'.past.missing == s.past.missing
    ensures MarkInv(s', p, at, gen)
  {}

  lemma {:induction false} BanSweeping(env: Env, s: State, s': State, key: Key, p: Pack, gen: nat, cursor: Cursor)
    requires SweepInv(env, s, p, gen, cursor) && Puts(s.slot.nodes, s'.slot.nodes, key, ZERO, gen)
    requires s'.past.accepted == s.past.accepted && s'.past.missing == s.past.missing
    ensures SweepInv(env, s', p, gen, cursor)
  {}

  lemma {:induction false} BanLoading(env: Env, s: State, s': State, key: Key, p: Pack, at: nat, gen: nat)
    requires LoadInv(env, s, p, at, gen) && s'.slot == s.slot.(nodes := s'.slot.nodes, header := s'.slot.header)
    requires Puts(s.slot.nodes, s'.slot.nodes, key, ZERO, s.slot.gen)
    requires s'.past == s.past.(local := s.past.local + {key}, extra := s'.past.extra, quiet := false)
    ensures LoadInv(env, s', p, at, gen)
  {
    hide AddKeys;
  }

  lemma {:induction false} BanSnap(env: Env, s: State, s': State, key: Key, p: Pack, gen: nat)
    requires SnapInv(env, s, p, gen) && s'.slot == s.slot.(nodes := s'.slot.nodes, header := s'.slot.header)
    requires s'.slot.header && Puts(s.slot.nodes, s'.slot.nodes, key, ZERO, gen)
    requires s'.past.local == s.past.local + {key} && s'.past.carried == s.past.carried && !s'.past.quiet
    requires s'.past.extra == s.past.extra
      + if key in s.slot.nodes && s.slot.nodes[key].h != ZERO && key !in AddKeys(p.records) then {key} else {}
    ensures SnapInv(env, s', p, gen)
  {}

  lemma {:induction false} PackageStartKeeps(env: Env, s: State, s': State, step: Step)
    requires Inv(env, s) && Next(env, s, s', step) && step.PackageStart?
    ensures Inv(env, s')
  {
    assert step.pack.records[..0] == [];
  }

  lemma {:induction false} PackageRecordKeeps(env: Env, s: State, s': State, step: Step)
    requires Inv(env, s) && Next(env, s, s', step) && step.PackageRecord?
    ensures Inv(env, s')
  {
    var work := s.workers[step.w];
    var r := work.pack.records[work.at];
    assert CurrentWork(s) == work && work.gen == s.slot.gen && PackInv(env, s, work.pack, work.at, work.gen);
    PutEffect(env, s.slot, step.room, r.key, r.expires, env.sip(s.slot.sipKey, r.key), work.gen);
    FormedWithout(env, s.slot, r.key);
    hide PackInv, Mirrors, InOrder, PutInto, Formed, Puts;
    RecordApplied(env, s, s', work.pack, work.at);
    hide OneOwner, Next;
    OwnerMoves(env, s, s', step.w, Packing(work.pack, work.at + 1, work.gen));
  }

  lemma {:induction false} FormedWithout(env: Env, slot: SlotState, key: Key)
    requires Formed(env, slot)
    ensures Formed(env, slot.(nodes := slot.nodes - {key}))
  {}

  lemma {:induction false} RecordApplied(env: Env, s: State, s': State, p: Pack, at: nat)
    requires PackInv(env, s, p, at, s.slot.gen) && Sane(env) && at < |p.records|
    requires s'.slot == s.slot.(nodes := s'.slot.nodes, header := s'.slot.header)
    requires
      var r := p.records[at];
      match r.op
      case Remove =>
        && s'.slot.nodes == s.slot.nodes - {r.key}
        && s'.past.missing == s.past.missing - {r.key} && s'.past.extra == s.past.extra - {r.key}
      case Other => s'.slot.nodes == s.slot.nodes && s'.past == s.past
      case Add =>
        && s'.past.extra == s.past.extra - {r.key}
        && (|| (Puts(s.slot.nodes, s'.slot.nodes, r.key, env.sip(env.keyOf(s.slot.epoch), r.key), s.slot.gen)
                && s'.past.missing == s.past.missing - {r.key})
            || (s'.slot.nodes == s.slot.nodes && r.key !in s.slot.nodes
                && s'.past.missing == s.past.missing + {r.key}))
    ensures PackInv(env, s', p, at + 1, s.slot.gen)
  {
    var r := p.records[at];
    var before, after := p.records[..at], p.records[..at + 1];
    assert after[..at] == before && after[at] == r;
    var was, sipKey := ApplyAll(env.sets(s.slot.epoch, s.slot.seqno), before), env.keyOf(s.slot.epoch);
    match r.op
    case Add => AddMirrors(env, s.slot.nodes, s'.slot.nodes, r.key, s.slot.gen, was, sipKey, s.past, s'.past);
    case Remove => RemoveMirrors(env, s.slot.nodes, r.key, was, sipKey, s.past, s'.past);
    case Other =>
  }

  lemma {:induction false} PackageEndKeeps(env: Env, s: State, s': State, step: Step)
    requires Inv(env, s) && Next(env, s, s', step) && step.PackageEnd?
    ensures Inv(env, s')
  {
    var p := s.workers[step.w].pack;
    assert p.records[..|p.records|] == p.records;
  }

  lemma {:induction false} SnapshotStartKeeps(env: Env, s: State, s': State, step: Step)
    requires Inv(env, s) && Next(env, s, s', step) && step.SnapshotStart?
    ensures Inv(env, s')
  {
  }

  lemma {:induction false} MarkKeeps(env: Env, s: State, s': State, step: Step)
    requires Inv(env, s) && Next(env, s, s', step) && step.MarkRecord?
    ensures Inv(env, s')
  {
  }

  lemma {:induction false} MarkEndKeeps(env: Env, s: State, s': State, step: Step)
    requires Inv(env, s) && Next(env, s, s', step) && step.MarkEnd?
    ensures Inv(env, s')
  {
  }

  lemma {:induction false} SweepKeeps(env: Env, s: State, s': State, step: Step)
    requires Inv(env, s) && Next(env, s, s', step) && step.SweepNode?
    ensures Inv(env, s')
  {
    var work := s.workers[step.w];
    if work.cursor == Start {
      SweepFirst(env, s, s', work.snap, work.gen);
    } else {
      var next :| IsNext(env.crc, s.slot.nodes, work.cursor.key, next)
                  && s'.workers[step.w] == match next
                     case None => Loading(work.snap, 0, work.gen)
                     case Some(m) => Sweeping(work.snap, work.gen, At(m));
      SweepPast(env, s, s', work.snap, work.gen, work.cursor.key, next);
    }
    assert CurrentWork(s') == s'.workers[step.w];
  }

  // Nothing lies before the least node.
  lemma {:induction false} SweepFirst(env: Env, s: State, s': State, p: Pack, gen: nat)
    requires SnapInv(env, s, p, gen) && SweepInv(env, s, p, gen, Start)
    requires s'.slot == s.slot && s'.past == s.past
    ensures SnapInv(env, s', p, gen)
    ensures s.slot.nodes == map[] ==> LoadInv(env, s', p, 0, gen)
    ensures forall k | IsLeast(env.crc, s.slot.nodes.Keys, k) :: SweepInv(env, s', p, gen, At(k))
  {
    assert p.records[..0] == [] && p.records[0..] == p.records;
    forall k, j | IsLeast(env.crc, s.slot.nodes.Keys, k) && j in s.slot.nodes
      ensures !Before(env.crc, j, k)
    {
      BeforeTotal(env.crc, j, k);
    }
  }

  // After the node at the cursor everything before its successor carries the new generation.
  lemma {:induction false} SweepPast(env: Env, s: State, s': State, p: Pack, gen: nat, key: Key, next: Option<Key>)
    requires SnapInv(env, s, p, gen) && SweepInv(env, s, p, gen, At(key))
    requires IsNext(env.crc, s.slot.nodes, key, next)
    requires s'.past == s.past
    requires s'.slot == s.slot.(nodes := if s.slot.nodes[key].gen != gen then s.slot.nodes - {key} else s.slot.nodes)
    ensures SnapInv(env, s', p, gen)
    ensures next == None ==> LoadInv(env, s', p, 0, gen)
    ensures next.Some? ==> SweepInv(env, s', p, gen, At(next.value))
  {
    forall k | k in s'.slot.nodes && (next == None || Before(env.crc, k, next.value))
      ensures s'.slot.nodes[k].gen == gen
    {
      BeforeTotal(env.crc, k, key);
      if next.Some? {
        BeforeTotal(env.crc, k, next.value);
      }
    }
    if next.Some? {
      BeforeTotal(env.crc, key, next.value);
    }
    assert p.records[..0] == [] && p.records[0..] == p.records;
  }

  // A step of the owner that only moves its own work on.
  lemma {:induction false} OwnerMoves(env: Env, s: State, s': State, w: nat, work: Work)
    requires Inv(env, s) && w in s.workers && !s.workers[w].Idle? && !work.Idle?
    requires s'.workers == s.workers[w := work] && Formed(env, s'.slot)
    requires s'.slot == s.slot.(nodes := s'.slot.nodes, header := s'.slot.header)
    requires s'.past.owner == s.past.owner && s'.past.log == s.past.log
    requires match work
             case Loading(p, at, gen) => SnapInv(env, s', p, gen) && LoadInv(env, s', p, at, gen)
             case Packing(p, at, gen) => PackInv(env, s', p, at, gen)
             case _ => false
    ensures Inv(env, s')
  {
    hide SnapInv, LoadInv, PackInv, Formed;
    assert CurrentWork(s') == work;
  }

  lemma {:induction false} LoadKeeps(env: Env, s: State, s': State, step: Step)
    requires Inv(env, s) && Next(env, s, s', step) && step.LoadRecord?
    ensures Inv(env, s')
  {
    var work := s.workers[step.w];
    assert CurrentWork(s) == work;
    if work.snap.records[work.at].op == Add {
      LoadAdd(env, s, s', step);
    } else {
      LoadSkip(env, s, s', work.snap, work.at, work.gen);
    }
    OwnerMoves(env, s, s', step.w, Loading(work.snap, work.at + 1, work.gen));
  }

  lemma {:induction false} LoadSkip(env: Env, s: State, s': State, p: Pack, at: nat, gen: nat)
    requires SnapInv(env, s, p, gen) && LoadInv(env, s, p, at, gen)
    requires at < |p.records| && p.records[at].op != Add
    requires s'.slot == s.slot && s'.past == s.past
    ensures SnapInv(env, s', p, gen) && LoadInv(env, s', p, at + 1, gen)
  {
    AddKeysPrefix(p.records, at);
    assert AddKeys(p.records[..at + 1]) == AddKeys(p.records[..at]);
    assert AddKeys(p.records[at + 1..]) == AddKeys(p.records[at..]);
  }

  // What the put of a snapshot's record does.
  lemma {:induction false} LoadPut(env: Env, s: State, s': State, w: nat, room: Room) returns (taken: bool)
    requires Enabled(env, s, LoadRecord(w, room)) && s' == LoadRecordStep(env, s, w, room) && Formed(env, s.slot)
    requires s.workers[w].snap.records[s.workers[w].at].op == Add
    ensures var work := s.workers[w];
            var key := work.snap.records[work.at].key;
            && s'.slot == s.slot.(nodes := s'.slot.nodes, header := s'.slot.header) && Formed(env, s'.slot)
            && (s.slot.header ==> s'.slot.header) && (s'.past.quiet ==> s.past.quiet)
            && (taken ==>
                  && Puts(s.slot.nodes, s'.slot.nodes, key, env.sip(work.snap.sipKey, key), work.gen)
                  && s'.past == s.past.(accepted := s.past.accepted + {key}, missing := s.past.missing - {key},
                                       quiet := s'.past.quiet))
            && (!taken ==>
                  && s'.slot.nodes == s.slot.nodes && key !in s.slot.nodes
                  && s'.past == s.past.(missing := s.past.missing + {key}, quiet := s'.past.quiet)
                  && (s'.past.quiet && s.slot.header && KeyOk(env.kind, key) ==> |s.slot.nodes| >= Cap(env.liveMax)))
  {
    var work := s.workers[w];
    var r := work.snap.records[work.at];
    PutEffect(env, s.slot, room, r.key, r.expires, env.sip(work.snap.sipKey, r.key), work.gen);
    hide PutInto, Formed, Puts, KeyOk;
    taken := Taken(PutInto(env, s.slot, room, r.key, r.expires, env.sip(work.snap.sipKey, r.key), work.gen).0);
  }

  lemma {:induction false} LoadAdd(env: Env, s: State, s': State, step: Step)
    requires Inv(env, s) && Next(env, s, s', step) && step.LoadRecord?
    requires s.workers[step.w].snap.records[s.workers[step.w].at].op == Add
    ensures s'.slot == s.slot.(nodes := s'.slot.nodes, header := s'.slot.header)
    ensures var work := s.workers[step.w];
            && Formed(env, s'.slot) && SnapInv(env, s', work.snap, work.gen)
            && LoadInv(env, s', work.snap, work.at + 1, work.gen)
  {
    var work := s.workers[step.w];
    var p, at := work.snap, work.at;
    var key := p.records[at].key;
    assert CurrentWork(s) == work && SnapInv(env, s, p, work.gen) && LoadInv(env, s, p, at, work.gen);
    assert work.gen == s.slot.gen && s.slot.header;
    var taken := LoadPut(env, s, s', step.w, step.room);
    hide Next, SnapInv, Loaded, InOrder, OneOwner, Formed, WorkInv, Puts, KeyOk;
    if s'.past.quiet {
      RoomForRecord(env, s, p, at);
    }
    AddKeysPrefix(p.records, at);
    hide AddKeys;
    if taken {
      LoadSnap(env, s, s', key, p, work.gen);
      LoadTaken(env, s, s', p.sipKey, key, AddKeys(p.records[..at]), AddKeys(p.records[at + 1..]));
      StillCurrent(s.slot, s'.slot, key, env.sip(p.sipKey, key));
    } else {
      LoadLost(env, s, s', p.sipKey, key, AddKeys(p.records[..at]), AddKeys(p.records[at + 1..]));
      SnapSame(env, s, s', p, work.gen);
    }
  }

  lemma {:induction false} StillCurrent(slot: SlotState, slot': SlotState, key: Key, h: Hash)
    requires AllCurrent(slot) && slot'.gen == slot.gen && Puts(slot.nodes, slot'.nodes, key, h, slot.gen)
    ensures AllCurrent(slot')
  {}

  lemma {:induction false} SnapSame(env: Env, s: State, s': State, p: Pack, gen: nat)
    requires SnapInv(env, s, p, gen) && s'.slot == s.slot.(header := s'.slot.header) && s'.slot.header
    requires s'.past == s.past.(missing := s'.past.missing, quiet := s'.past.quiet) && (s'.past.quiet ==> s.past.quiet)
    ensures SnapInv(env, s', p, gen)
  {}

  // With no ban in the way the overlay never holds more than the snapshot's own keys.
  lemma {:induction false} RoomForRecord(env: Env, s: State, p: Pack, at: nat)
    requires SnapInv(env, s, p, s.slot.gen) && LoadInv(env, s, p, at, s.slot.gen) && s.past.quiet
    requires at < |p.records| && p.records[at].op == Add
    ensures p.records[at].key !in s.slot.nodes ==> |s.slot.nodes| < Cap(env.liveMax)
  {
    var key := p.records[at].key;
    if key !in s.slot.nodes {
      var adds := AddKeys(p.records);
      AddKeysCount(p.records);
      assert key in adds;
      assert s.slot.nodes.Keys <= adds - {key};
      SubsetSize(s.slot.nodes.Keys, adds - {key});
      assert |s.slot.nodes.Keys| == |s.slot.nodes|;
    }
  }

  lemma {:induction false} LoadSnap(env: Env, s: State, s': State, key: Key, p: Pack, gen: nat)
    requires SnapInv(env, s, p, gen) && s'.slot == s.slot.(nodes := s'.slot.nodes)
    requires key in AddKeys(p.records) && Sane(env)
    requires Puts(s.slot.nodes, s'.slot.nodes, key, env.sip(p.sipKey, key), gen)
    requires s'.past.local == s.past.local && s'.past.carried == s.past.carried
    requires s'.past.extra == s.past.extra && (s'.past.quiet ==> s.past.quiet)
    ensures SnapInv(env, s', p, gen)
  {}

  lemma {:induction false} LoadTaken(env: Env, s: State, s': State, sipKey: nat, key: Key, done: set<Key>,
                                     left: set<Key>)
    requires Loaded(env, s, sipKey, done, left + {key}) && Sane(env)
    requires Puts(s.slot.nodes, s'.slot.nodes, key, env.sip(sipKey, key), s.slot.gen)
    requires s'.past == s.past.(accepted := s.past.accepted + {key}, missing := s.past.missing - {key},
                                quiet := s'.past.quiet)
    requires s'.past.quiet ==> s.past.quiet
    ensures Loaded(env, s', sipKey, done + {key}, left)
  {}

  lemma {:induction false} LoadLost(env: Env, s: State, s': State, sipKey: nat, key: Key, done: set<Key>,
                                    left: set<Key>)
    requires Loaded(env, s, sipKey, done, left + {key}) && key !in s.slot.nodes
    requires s'.slot.nodes == s.slot.nodes
    requires s'.past == s.past.(missing := s.past.missing + {key}, quiet := s'.past.quiet)
    requires s'.past.quiet ==> s.past.quiet && !KeyOk(env.kind, key)
    ensures Loaded(env, s', sipKey, done + {key}, left)
  {}

  lemma {:induction false} SnapshotEndKeeps(env: Env, s: State, s': State, step: Step)
    requires Inv(env, s) && Next(env, s, s', step) && step.SnapshotEnd?
    ensures Inv(env, s')
  {
  }

  lemma {:induction false} NextKeeps(env: Env, s: State, s': State, step: Step)
    requires Inv(env, s) && Next(env, s, s', step)
    ensures Inv(env, s')
  {
    match step
    case Ban(_, _, _) => BanKeeps(env, s, s', step);
    case PackageStart(_, _) => PackageStartKeeps(env, s, s', step);
    case PackageRecord(_, _) => PackageRecordKeeps(env, s, s', step);
    case PackageEnd(_) => PackageEndKeeps(env, s, s', step);
    case SnapshotStart(_, _) => SnapshotStartKeeps(env, s, s', step);
    case MarkRecord(_) => MarkKeeps(env, s, s', step);
    case MarkEnd(_) => MarkEndKeeps(env, s, s', step);
    case SweepNode(_) => SweepKeeps(env, s, s', step);
    case LoadRecord(_, _) => LoadKeeps(env, s, s', step);
    case SnapshotEnd(_) => SnapshotEndKeeps(env, s, s', step);
  }

  // Every state of every run satisfies the invariant.
  lemma {:induction false} RunsKeep(env: Env, run: seq<State>, steps: seq<Step>, i: nat)
    requires Sane(env) && IsRun(env, run, steps) && i < |run|
    ensures Inv(env, run[i])
  {
    if i > 0 {
      RunsKeep(env, run, steps, i - 1);
      NextKeeps(env, run[i - 1], run[i], steps[i - 1]);
    }
  }

  // ---------------------------------------------------------------------------
  // Main results
  // ---------------------------------------------------------------------------

  function Hashed(m: Nodes): Nodes { map k | k in m && m[k].h != ZERO :: m[k] }

  // Entries without a keeper hash do not show in the set hash.
  lemma {:induction false} XorHashed(m: Nodes)
    ensures XorAll(m) == XorAll(Hashed(m))
    decreases |m|
  {
    if m != map[] {
      var k :| k in m;
      HashedWithout(m, k);
      hide XorAll, Hashed;
      XorRemove(m, k);
      XorHashed(m - {k});
      if m[k].h != ZERO {
        XorRemove(Hashed(m), k);
      } else {
        XorZero(XorAll(m - {k}));
      }
    } else {
      assert Hashed(m) == m;
    }
  }

  lemma {:induction false} HashedWithout(m: Nodes, k: Key)
    requires k in m
    ensures if m[k].h != ZERO then k in Hashed(m) && Hashed(m)[k] == m[k] && Hashed(m) - {k} == Hashed(m - {k})
            else Hashed(m) == Hashed(m - {k})
  {}

  lemma {:induction false} XorZero(x: Hash)
    ensures Xor(ZERO, x) == x
  {}

  lemma {:induction false} XorSame(a: Nodes, b: Nodes)
    requires a.Keys == b.Keys && forall k | k in a :: a[k].h == b[k].h
    ensures XorAll(a) == XorAll(b)
    decreases |a|
  {
    if a == map[] {
      assert b == map[];
    } else {
      var k :| k in a;
      XorRemove(a, k);
      XorRemove(b, k);
      XorSame(a - {k}, b - {k});
    }
  }

  lemma {:induction false} MirrorHash(env: Env, nodes: Nodes, s: set<Key>, sipKey: nat, past: History)
    requires Mirrors(env, nodes, s, sipKey, past) && Sane(env) && past.missing == past.extra == {}
    ensures XorAll(nodes) == SetHash(env, sipKey, s)
  {
    XorHashed(nodes);
    assert Hashed(nodes).Keys == s;
    XorSame(Hashed(nodes), map k | k in s :: Node(0, 0, env.sip(sipKey, k)));
  }

  // Whenever the slot is not syncing, the entries with a keeper hash are exactly the keeper's set
  // at the slot's (epoch, seq), less the keys whose last record did not fit, plus the entries a
  // ban revived while the last snapshot dropped them.
  lemma {:induction false} MirrorsTheKeeper(env: Env, run: seq<State>, steps: seq<Step>, i: nat)
    requires Sane(env) && IsRun(env, run, steps) && i < |run|
    requires run[i].slot.epoch != 0 && !run[i].slot.syncing
    ensures var slot, past := run[i].slot, run[i].past;
            var now := env.sets(slot.epoch, slot.seqno);
            && Hashed(slot.nodes).Keys == now - past.missing + past.extra
            && past.missing <= now && past.extra !! now
            && forall k | k in now - past.missing :: slot.nodes[k].h == env.sip(slot.sipKey, k)
  {
    RunsKeep(env, run, steps, i);
    assert CurrentWork(run[i]) == Idle;
  }

  // So the mirror is exact if and only if nothing is missing and nothing extra, and then its hash
  // is the keeper's: neither the package that brought it there nor a tick reports divergence.
  lemma {:induction false} ExactMirror(env: Env, run: seq<State>, steps: seq<Step>, i: nat)
    requires Sane(env) && IsRun(env, run, steps) && i < |run|
    requires run[i].slot.epoch != 0 && !run[i].slot.syncing
    ensures var slot, past := run[i].slot, run[i].past;
            var now := env.sets(slot.epoch, slot.seqno);
            && (Hashed(slot.nodes).Keys == now <==> past.missing == {} && past.extra == {})
            && (past.missing == {} && past.extra == {} ==>
                  && XorAll(slot.nodes) == SetHash(env, slot.sipKey, now)
                  && Verify(slot, slot.epoch, slot.seqno, SetHash(env, env.keyOf(slot.epoch), now)) == APPLIED)
  {
    RunsKeep(env, run, steps, i);
    MirrorsTheKeeper(env, run, steps, i);
    var slot, past := run[i].slot, run[i].past;
    var now := env.sets(slot.epoch, slot.seqno);
    assert CurrentWork(run[i]) == Idle;
    if past.missing == {} && past.extra == {} {
      MirrorHash(env, slot.nodes, now, slot.sipKey, past);
      assert Hashed(slot.nodes).Keys == now;
    } else if k :| k in past.missing {
      assert k in now && k !in Hashed(slot.nodes);
    } else if k :| k in past.extra {
      assert k !in now && k in Hashed(slot.nodes);
    }
  }

  // Applications never overlap, and every package follows the application just before it by one.
  lemma {:induction false} AppliedInOrder(env: Env, run: seq<State>, steps: seq<Step>, i: nat)
    requires Sane(env) && IsRun(env, run, steps) && i < |run|
    ensures forall v, w | v in run[i].workers && w in run[i].workers
              :: !run[i].workers[v].Idle? && !run[i].workers[w].Idle? ==> v == w
    ensures run[i].slot.syncing <==> exists w :: w in run[i].workers && !run[i].workers[w].Idle?
    ensures var log := run[i].past.log;
            forall j | 0 <= j < |log| && log[j].Package? ::
              j > 0 && log[j - 1].epoch == log[j].epoch && log[j].seqno == log[j - 1].seqno + 1
  {
    RunsKeep(env, run, steps, i);
  }

  // Outside a snapshot every entry carries the current generation, so the generation a snapshot
  // begins with is carried by none, across wraparound too.
  lemma {:induction false} GenerationsFresh(env: Env, run: seq<State>, steps: seq<Step>, i: nat)
    requires Sane(env) && IsRun(env, run, steps) && i < |run|
    ensures (forall w | w in run[i].workers :: !Snapshotting(run[i].workers[w])) ==>
              forall k | k in run[i].slot.nodes ::
                run[i].slot.nodes[k].gen == run[i].slot.gen && run[i].slot.nodes[k].gen != NextGen(run[i].slot.gen)
  {
    RunsKeep(env, run, steps, i);
  }

  // A finished snapshot leaves exactly the records it managed to put and the keys banned
  // meanwhile. With no ban and no refused allocation those are all its well-formed keys,
  // whatever was in the overlay before.
  lemma {:induction false} SnapshotLeaves(env: Env, run: seq<State>, steps: seq<Step>, i: nat)
    requires Sane(env) && IsRun(env, run, steps) && i < |steps| && steps[i].SnapshotEnd?
    ensures WorkOf(run[i], steps[i].w).Loading?
    ensures var adds := AddKeys(WorkOf(run[i], steps[i].w).snap.records);
            var past, nodes := run[i].past, run[i + 1].slot.nodes;
            && nodes.Keys == past.accepted + past.local
            && past.accepted <= adds
            && (past.quiet ==> nodes.Keys == set k | k in adds && KeyOk(env.kind, k))
  {
    RunsKeep(env, run, steps, i);
    assert Next(env, run[i], run[i + 1], steps[i]);
    var p := run[i].workers[steps[i].w].snap;
    assert CurrentWork(run[i]) == run[i].workers[steps[i].w];
    assert p.records[..|p.records|] == p.records && AddKeys(p.records[|p.records|..]) == {};
  }

  // An entry of the snapshot that was in the overlay when it began is there in every state until
  // it ends: lookups see no gap.
  lemma {:induction false} NoGap(env: Env, run: seq<State>, steps: seq<Step>, i: nat, w: nat)
    requires Sane(env) && IsRun(env, run, steps) && i < |run|
    requires w in run[i].workers && Snapshotting(run[i].workers[w])
    ensures run[i].past.carried <= run[i].slot.nodes.Keys
  {
    RunsKeep(env, run, steps, i);
    assert CurrentWork(run[i]) == run[i].workers[w];
  }

  // The sweep's cursor is always a node of the tree when its turn comes.
  lemma {:induction false} CursorStaysValid(env: Env, run: seq<State>, steps: seq<Step>, i: nat, w: nat)
    requires Sane(env) && IsRun(env, run, steps) && i < |run|
    requires w in run[i].workers && run[i].workers[w].Sweeping? && run[i].workers[w].cursor.At?
    ensures run[i].workers[w].cursor.key in run[i].slot.nodes
  {
    RunsKeep(env, run, steps, i);
    assert CurrentWork(run[i]) == run[i].workers[w];
  }

  // A ban on an entry lets it live on, except that it ends an entry without expiry unless it has
  // none itself.
  lemma {:induction false} BansLiveOn(env: Env, run: seq<State>, steps: seq<Step>, i: nat)
    requires Sane(env) && IsRun(env, run, steps) && i < |steps| && steps[i].Ban? && steps[i].key in run[i].slot.nodes
    ensures var key, before, after := steps[i].key, run[i].slot.nodes, run[i + 1].slot.nodes;
            && key in after
            && (LivesOn(before[key], after[key]) <==> before[key].expires != 0 || steps[i].expires == 0)
  {
    RunsKeep(env, run, steps, i);
    var s, step := run[i], steps[i];
    assert Next(env, s, run[i + 1], step) && Formed(env, s.slot);
    BanLivesOn(s.slot.nodes[step.key], step.expires, s.slot.gen);
    hide LivesOn;
  }

  // ---------------------------------------------------------------------------
  // The sweep as a whole
  // ---------------------------------------------------------------------------

  function CursorKey(cursor: Cursor): Option<Key> { if cursor.Start? then None else Some(cursor.key) }

  // The nodes are those of `was` swept from `from` up to where worker w stands now.
  ghost predicate SweptTo(env: Env, was: Nodes, from: Option<Key>, s: State, w: nat, gen: nat) {
    match WorkOf(s, w)
    case Sweeping(_, g, At(m)) =>
      && g == gen && m in s.slot.nodes && s.slot.nodes == SweepSpec(env.crc, was, gen, from, Some(m))
      && (from == None || from.value == m || Before(env.crc, from.value, m))
    case Loading(_, _, g) => g == gen && s.slot.nodes == SweepSpec(env.crc, was, gen, from, None)
    case _ => false
  }

  lemma {:induction false} FirstSweepStep(env: Env, s: State, s': State, w: nat)
    requires Next(env, s, s', SweepNode(w))
    ensures var work := WorkOf(s, w);
            SweptTo(env, s.slot.nodes, CursorKey(work.cursor), s', w, work.gen)
  {
    var work, nodes := s.workers[w], s.slot.nodes;
    match work.cursor
    case Start =>
      if nodes == map[] {
        assert SweepSpec(env.crc, nodes, work.gen, None, None) == nodes;
      } else {
        var k :| IsLeast(env.crc, nodes.Keys, k)
          && s' == s.(workers := s.workers[w := Sweeping(work.snap, work.gen, At(k))]);
        SweepStart(env.crc, nodes, work.gen, None, Some(k));
      }
    case At(key) =>
      SweepStart(env.crc, nodes, work.gen, Some(key), Some(key));
      MoreSwept(env, nodes, Some(key), s, s', w, key, work.gen);
  }

  lemma {:induction false} MoreSwept(env: Env, was: Nodes, from: Option<Key>, s: State, s': State, w: nat, key: Key,
                                     gen: nat)
    requires Next(env, s, s', SweepNode(w)) && WorkOf(s, w).cursor == At(key) && WorkOf(s, w).gen == gen
    requires s.slot.nodes == SweepSpec(env.crc, was, gen, from, Some(key))
    requires from == None || from.value == key || Before(env.crc, from.value, key)
    ensures SweptTo(env, was, from, s', w, gen)
  {
    var work, nodes := s.workers[w], s.slot.nodes;
    var after := if nodes[key].gen != gen then nodes - {key} else nodes;
    var next :| IsNext(env.crc, nodes, key, next)
                && s' == s.(slot := s.slot.(nodes := after),
                            workers := s.workers[w := match next
                                                      case None => Loading(work.snap, 0, work.gen)
                                                      case Some(m) => Sweeping(work.snap, work.gen, At(m))]);
    SweepStep(env.crc, was, nodes, gen, from, key, next);
    if next.Some? {
      BeforeTotal(env.crc, key, next.value);
    }
  }

  // Turns of the sweep one after the other, as in a batch under the lock, do to the nodes what
  // Overlay.Slot.Sweep is proved to do.
  lemma {:induction false} SweepTurnsAreASweep(env: Env, run: seq<State>, steps: seq<Step>, i: nat, j: nat, w: nat)
    requires IsRun(env, run, steps) && i < j < |run| && forall k | i <= k < j :: steps[k] == SweepNode(w)
    ensures WorkOf(run[i], w).Sweeping?
    ensures var work := WorkOf(run[i], w);
            SweptTo(env, run[i].slot.nodes, CursorKey(work.cursor), run[j], w, work.gen)
    decreases j
  {
    assert Next(env, run[j - 1], run[j], steps[j - 1]) && Next(env, run[i], run[i + 1], steps[i]);
    hide SweepSpec;
    if j == i + 1 {
      FirstSweepStep(env, run[i], run[j], w);
    } else {
      SweepTurnsAreASweep(env, run, steps, i, j - 1, w);
      var work := WorkOf(run[i], w);
      var here := WorkOf(run[j - 1], w);
      MoreSwept(env, run[i].slot.nodes, CursorKey(work.cursor), run[j - 1], run[j], w, here.cursor.key, work.gen);
    }
  }
}
