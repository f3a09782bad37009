/** The worker's count of held bodies: ngx_http_waf_body_holds of
    module/src/body/ngx_http_waf_body.c, over placements, late answers of the store, hand-over,
    release, the ends of frames (module/src/stream/ngx_http_waf_frame.c) and of requests.

    Phases are 0 request, 1 response, 2 and 3 frames; objects are 0 headers, 1 arguments, 2 body.
 */
module Holds {

  const PHASES := 4
  const BODY := 2

  // Where a phase context keeps an operation: meta_op[0], meta_op[1] or body_op.
  datatype At = At(req: nat, phase: nat, obj: nat)

  // A counted operation: its place, op->hold, and whether the store still owes its answer.
  datatype Op = Op(at: At, hold: bool, pending: bool)

  datatype State = State(
    holds: int,
    max: nat,                // waf_body_max_holds
    ops: seq<Op>,            // every operation ever counted
    slot: map<At, nat>,      // the operation a phase context points to
    seen: set<At>,           // meta[obj] or locator is not NULL
    placed: set<At>,         // meta_placed, body_placed
    registered: set<nat>,    // requests with ngx_http_waf_body_cleanup on their pool
    over: set<nat>)          // requests whose pool is gone

  predicate IsFrame(phase: nat) { phase >= 2 }

  // Frames have no headers or arguments to place.
  predicate Allowed(at: At) { at.phase < PHASES && at.obj <= BODY && (IsFrame(at.phase) ==> at.obj == BODY) }

  // ---------------------------------------------------------------------------
  // The operations of the source
  // ---------------------------------------------------------------------------

  // ngx_http_waf_store_unhold on the operation at a place, if there is one
  function Unhold(s: State, at: At): State {
    if at in s.slot && s.slot[at] < |s.ops| && s.ops[s.slot[at]].hold then
      s.(ops := s.ops[s.slot[at] := s.ops[s.slot[at]].(hold := false)], holds := s.holds - 1)
    else s
  }

  // One object of release_phase: only what was placed.
  function ReleaseAt(s: State, at: At): State {
    if at in s.slot && at in s.placed then
      var t := Unhold(s, at);
      t.(slot := t.slot - {at}, placed := t.placed - {at})
    else s
  }

  // One object of body_abandon: placed or not.
  function AbandonAt(s: State, at: At): State {
    var t := Unhold(s, at);
    t.(slot := t.slot - {at})
  }

  function UnholdAll(s: State, ats: seq<At>): State
    decreases |ats|
  {
    if ats == [] then s else UnholdAll(Unhold(s, ats[0]), ats[1..])
  }

  function ReleaseAll(s: State, ats: seq<At>): State
    decreases |ats|
  {
    if ats == [] then s else ReleaseAll(ReleaseAt(s, ats[0]), ats[1..])
  }

  function AbandonAll(s: State, ats: seq<At>): State
    decreases |ats|
  {
    if ats == [] then s else AbandonAll(AbandonAt(s, ats[0]), ats[1..])
  }

  function Phase(req: nat, phase: nat): seq<At> { [At(req, phase, 0), At(req, phase, 1), At(req, phase, BODY)] }

  function Places(req: nat): seq<At> { Phase(req, 0) + Phase(req, 1) + Phase(req, 2) + Phase(req, 3) }

  // The pool of some operations is gone: the store will not answer them any more.
  function Detached(s: State, gone: set<At>): State {
    s.(ops := seq(|s.ops|, i requires 0 <= i < |s.ops| =>
                    if s.ops[i].at in gone then s.ops[i].(pending := false) else s.ops[i]))
  }

  datatype Step =
    | Unplaced(at: At)            // the limit was reached, or placing failed before it was counted
    | Place(at: At)
    | Settle(id: nat, ok: bool)   // body_settle, meta_settle: the store answered, at once or later
    | HandOver(req: nat)
    | Release(req: nat)
    | FrameEnd(req: nat, phase: nat)
    | Finish(req: nat)

  predicate Enabled(s: State, step: Step) {
    match step
    case Unplaced(at) => Allowed(at) && at.req !in s.over && at !in s.seen && at !in s.placed
    case Place(at) => Allowed(at) && at.req !in s.over && at !in s.seen && at !in s.placed && s.holds < s.max
    case Settle(id, _) => id < |s.ops| && s.ops[id].pending
    case HandOver(req) => req !in s.over
    case Release(req) => req !in s.over
    case FrameEnd(req, phase) => req !in s.over && IsFrame(phase) && phase < PHASES
    case Finish(req) => req !in s.over
  }

  function Apply(s: State, step: Step): State
    requires Enabled(s, step)
  {
    match step
    case Unplaced(at) => s.(seen := s.seen + {at})
    case Place(at) =>
      s.(holds := s.holds + 1, ops := s.ops + [Op(at, true, true)], slot := s.slot[at := |s.ops|],
         seen := s.seen + {at}, registered := if IsFrame(at.phase) then s.registered else s.registered + {at.req})
    case Settle(id, ok) =>
      var at := s.ops[id].at;
      var t := s.(ops := s.ops[id := s.ops[id].(pending := false)]);
      if ok then t.(placed := t.placed + {at}) else AbandonAt(t, at)
    case HandOver(req) => UnholdAll(s, Phase(req, 0))
    case Release(req) => ReleaseAll(s, Places(req))
    case FrameEnd(req, phase) =>
      var at := At(req, phase, BODY);
      var t := AbandonAt(if at in s.slot && at in s.placed then ReleaseAll(s, Phase(req, phase)) else s, at);
      var all := set a | a in Phase(req, phase);
      var u := Detached(t, all);
      u.(slot := u.slot - all, seen := u.seen - all, placed := u.placed - all)
    case Finish(req) =>
      var t := if req in s.registered then AbandonAll(ReleaseAll(s, Places(req)), Places(req)) else s;
      var u := Detached(t, set a | a in Places(req));
      u.(over := u.over + {req})
  }

  ghost predicate IsRun(run: seq<State>, steps: seq<Step>) {
    && |run| == |steps| + 1
    && run[0] == State(0, run[0].max, [], map[], {}, {}, {}, {})
    && forall i | 0 <= i < |steps| :: Enabled(run[i], steps[i]) && run[i + 1] == Apply(run[i], steps[i])
  }

  // ---------------------------------------------------------------------------
  // What every run keeps
  // ---------------------------------------------------------------------------

  ghost function Held(ops: seq<Op>): set<int> { set i | 0 <= i < |ops| && ops[i].hold }

  ghost predicate Counted(s: State) { s.holds == |Held(s.ops)| && s.holds <= s.max }

  // Whatever holds or is awaited is where its phase context points.
  ghost predicate Pointed(s: State) {
    forall i | 0 <= i < |s.ops| && (s.ops[i].hold || s.ops[i].pending) ::
      s.ops[i].at in s.slot && s.slot[s.ops[i].at] == i
  }

  // A place of a request that is over can only be left in a frame, where no cleanup was registered.
  ghost predicate Sound(s: State) {
    forall at | at in s.slot ::
      && s.slot[at] < |s.ops| && s.ops[s.slot[at]].at == at
      && at in s.seen && Allowed(at)
      && (at in s.placed ==> !s.ops[s.slot[at]].pending)
      && (!IsFrame(at.phase) ==> at.req in s.registered)
      && (at.req in s.over ==> at.req !in s.registered)
  }

  // The store answers no operation of a request that is over.
  ghost predicate Ended(s: State) { forall i | 0 <= i < |s.ops| && s.ops[i].at.req in s.over :: !s.ops[i].pending }

  ghost predicate Inv(s: State) { Counted(s) && Pointed(s) && Sound(s) && Ended(s) }

  lemma {:induction false} UnholdKeeps(s: State, at: At)
    requires Inv(s)
    ensures Inv(Unhold(s, at)) && Same(s, Unhold(s, at))
    ensures at in s.slot ==> !Unhold(s, at).ops[s.slot[at]].hold
  {
    if at in s.slot && s.ops[s.slot[at]].hold {
      var t := Unhold(s, at);
      assert Held(s.ops) == Held(t.ops) + {s.slot[at]};
    }
  }

  // Only holds changed.
  ghost predicate Same(s: State, t: State) {
    && t.slot == s.slot && t.seen == s.seen && t.placed == s.placed && t.registered == s.registered && t.over == s.over
    && t.max == s.max && |t.ops| == |s.ops|
    && forall i | 0 <= i < |s.ops| :: t.ops[i].at == s.ops[i].at && t.ops[i].pending == s.ops[i].pending
  }

  // A place may be emptied once its operation neither holds nor is awaited.
  lemma {:induction false} EmptyKeeps(s: State, at: At)
    requires Inv(s) && (at in s.slot ==> !s.ops[s.slot[at]].hold && !s.ops[s.slot[at]].pending)
    ensures Inv(s.(slot := s.slot - {at})) && Inv(s.(slot := s.slot - {at}, placed := s.placed - {at}))
  {}

  lemma {:induction false} ReleaseAtKeeps(s: State, at: At)
    requires Inv(s)
    ensures Inv(ReleaseAt(s, at))
    ensures var t := ReleaseAt(s, at);
            t.slot.Keys <= s.slot.Keys && t.over == s.over && t.registered == s.registered
  {
    if at in s.slot && at in s.placed {
      UnholdKeeps(s, at);
      EmptyKeeps(Unhold(s, at), at);
    }
  }

  // The end of a request or frame leaves awaited operations without a place, to be detached at
  // once: all of the invariant but Pointed for these.
  ghost predicate PointedBut(s: State, gone: set<At>) {
    forall i | 0 <= i < |s.ops| && (s.ops[i].hold || (s.ops[i].pending && s.ops[i].at !in gone)) ::
      s.ops[i].at in s.slot && s.slot[s.ops[i].at] == i
  }

  ghost predicate InvBut(s: State, gone: set<At>) { Counted(s) && PointedBut(s, gone) && Sound(s) && Ended(s) }

  lemma {:induction false} AbandonAtKeeps(s: State, at: At, gone: set<At>)
    requires InvBut(s, gone) && at in gone
    ensures InvBut(AbandonAt(s, at), gone)
    ensures var t := AbandonAt(s, at);
            t.slot == s.slot - {at} && t.over == s.over && t.registered == s.registered
  {
    var t := Unhold(s, at);
    if at in s.slot && s.ops[s.slot[at]].hold {
      assert Held(s.ops) == Held(t.ops) + {s.slot[at]};
    }
  }

  lemma {:induction false} DetachKeeps(s: State, gone: set<At>)
    requires InvBut(s, gone)
    ensures Inv(Detached(s, gone))
    ensures Detached(s, gone).slot == s.slot
    ensures forall i | 0 <= i < |s.ops| && s.ops[i].at in gone :: !Detached(s, gone).ops[i].pending
  {
    assert Held(Detached(s, gone).ops) == Held(s.ops);
  }

  lemma {:induction false} UnholdAllKeeps(s: State, ats: seq<At>)
    requires Inv(s)
    ensures Inv(UnholdAll(s, ats))
    decreases |ats|
  {
    if ats != [] {
      UnholdKeeps(s, ats[0]);
      UnholdAllKeeps(Unhold(s, ats[0]), ats[1..]);
    }
  }

  lemma {:induction false} ReleaseAllKeeps(s: State, ats: seq<At>)
    requires Inv(s)
    ensures Inv(ReleaseAll(s, ats))
    ensures var t := ReleaseAll(s, ats);
            t.slot.Keys <= s.slot.Keys && t.over == s.over && t.registered == s.registered
    decreases |ats|
  {
    if ats != [] {
      ReleaseAtKeeps(s, ats[0]);
      ReleaseAllKeeps(ReleaseAt(s, ats[0]), ats[1..]);
    }
  }

  lemma {:induction false} AbandonAllKeeps(s: State, ats: seq<At>, gone: set<At>)
    requires InvBut(s, gone) && forall at | at in ats :: at in gone
    ensures InvBut(AbandonAll(s, ats), gone)
    ensures var t := AbandonAll(s, ats);
            && t.slot.Keys <= s.slot.Keys && t.over == s.over
            && forall at | at in ats :: at !in t.slot
    decreases |ats|
  {
    if ats != [] {
      AbandonAtKeeps(s, ats[0], gone);
      AbandonAllKeeps(AbandonAt(s, ats[0]), ats[1..], gone);
    }
  }

  lemma {:induction false} PlaceKeeps(s: State, at: At)
    requires Inv(s) && Enabled(s, Place(at))
    ensures Inv(Apply(s, Place(at)))
    ensures at !in s.slot
  {
    var t := Apply(s, Place(at));
    assert at !in s.slot;
    PlaceCounts(s, at);
    PlacePoints(s, at);
    PlaceSound(s, at);
    hide Counted, Pointed, Sound;
  }

  lemma {:induction false} PlaceCounts(s: State, at: At)
    requires Counted(s) && Enabled(s, Place(at))
    ensures Counted(Apply(s, Place(at)))
  {
    assert Held(Apply(s, Place(at)).ops) == Held(s.ops) + {|s.ops|};
  }

  lemma {:induction false} PlacePoints(s: State, at: At)
    requires Pointed(s) && at !in s.slot && Enabled(s, Place(at))
    ensures Pointed(Apply(s, Place(at)))
  {}

  lemma {:induction false} PlaceSound(s: State, at: At)
    requires Sound(s) && Enabled(s, Place(at))
    ensures Sound(Apply(s, Place(at)))
  {}

  lemma {:induction false} SettleKeeps(s: State, id: nat, ok: bool)
    requires Inv(s) && Enabled(s, Settle(id, ok))
    ensures Inv(Apply(s, Settle(id, ok)))
  {
    var at := s.ops[id].at;
    var t := s.(ops := s.ops[id := s.ops[id].(pending := false)]);
    assert Held(t.ops) == Held(s.ops);
    assert s.slot[at] == id;
    if !ok {
      UnholdKeeps(t, at);
      EmptyKeeps(Unhold(t, at), at);
    }
  }

  lemma {:induction false} FrameEndKeeps(s: State, req: nat, phase: nat)
    requires Inv(s) && Enabled(s, FrameEnd(req, phase))
    ensures Inv(Apply(s, FrameEnd(req, phase)))
  {
    var at := At(req, phase, BODY);
    var all := set a | a in Phase(req, phase);
    var r := if at in s.slot && at in s.placed then ReleaseAll(s, Phase(req, phase)) else s;
    ReleaseAllKeeps(s, Phase(req, phase));
    assert at in Phase(req, phase);
    AbandonAtKeeps(r, at, all);
    var t := AbandonAt(r, at);
    DetachKeeps(t, all);
    ResetKeeps(Detached(t, all), all, at);
  }

  // memzero of a frame's phase context: nothing is left in it.
  lemma {:induction false} ResetKeeps(u: State, all: set<At>, at: At)
    requires Inv(u) && IsFrame(at.phase) && at !in u.slot && forall a | a in all :: a == at || !Allowed(a)
    ensures Inv(u.(slot := u.slot - all, seen := u.seen - all, placed := u.placed - all))
  {
    assert u.slot - all == u.slot;
  }

  // No frame operation of the request holds, or its cleanup was registered, which covers frames too.
  ghost predicate Clean(s: State, req: nat) {
    || req in s.registered
    || forall i | 0 <= i < |s.ops| && s.ops[i].at.req == req && IsFrame(s.ops[i].at.phase) :: !s.ops[i].hold
  }

  ghost predicate NoneHeld(s: State, req: nat) {
    forall i | 0 <= i < |s.ops| && s.ops[i].at.req == req :: !s.ops[i].hold
  }

  lemma {:induction false} FinishKeeps(s: State, req: nat)
    requires Inv(s) && Enabled(s, Finish(req))
    ensures Inv(Apply(s, Finish(req)))
    ensures NoneHeld(Apply(s, Finish(req)), req) <==> Clean(s, req)
  {
    var ats := Places(req);
    var all := set a | a in ats;
    ReleaseAllKeeps(s, ats);
    AbandonAllKeeps(ReleaseAll(s, ats), ats, all);
    hide ReleaseAll, AbandonAll, Inv, InvBut;
    var t := if req in s.registered then AbandonAll(ReleaseAll(s, ats), ats) else s;
    Weaken(s, all);
    DetachKeeps(t, all);
    NonePending(t, req);
    if req in s.registered {
      Cleared(t, req);
    } else {
      LeftInFrames(s, req);
    }
    OverKeeps(Detached(t, all), req);
  }

  lemma {:induction false} Weaken(s: State, gone: set<At>)
    requires Inv(s)
    ensures InvBut(s, gone)
  {}

  // Detaching the places of a request leaves none of its operations awaited.
  lemma {:induction false} NonePending(t: State, req: nat)
    requires InvBut(t, set a | a in Places(req))
    ensures var u := Detached(t, set a | a in Places(req));
            && |u.ops| == |t.ops|
            && (forall i | 0 <= i < |u.ops| :: u.ops[i].at == t.ops[i].at && u.ops[i].hold == t.ops[i].hold)
            && forall i | 0 <= i < |u.ops| && u.ops[i].at.req == req :: !u.ops[i].pending
  {
    var all := set a | a in Places(req);
    hide Counted;
    forall at | Allowed(at) && at.req == req ensures at in all {
      assert at in Places(req);
    }
    hide Allowed, Places;
  }

  // After the cleanup no place of the request is taken, so none of its operations holds.
  lemma {:induction false} Cleared(t: State, req: nat)
    requires InvBut(t, set a | a in Places(req)) && forall at | at in Places(req) :: at !in t.slot
    ensures (forall at | at in t.slot :: at.req != req) && NoneHeld(t, req)
  {
    hide Counted, Ended;
    forall at | at in t.slot ensures at.req != req {
      assert Allowed(at);
    }
  }

  // Without a cleanup only frame operations can be left.
  lemma {:induction false} LeftInFrames(s: State, req: nat)
    requires Inv(s) && req !in s.registered
    ensures NoneHeld(s, req) <==> Clean(s, req)
  {
    hide Counted, Ended;
    forall i | 0 <= i < |s.ops| && s.ops[i].at.req == req && s.ops[i].hold ensures IsFrame(s.ops[i].at.phase) {
      assert s.ops[i].at in s.slot;
    }
  }

  lemma {:induction false} OverKeeps(u: State, req: nat)
    requires Inv(u) && forall i | 0 <= i < |u.ops| && u.ops[i].at.req == req :: !u.ops[i].pending
    requires req in u.registered ==> forall at | at in u.slot :: at.req != req
    ensures Inv(u.(over := u.over + {req}))
  {}

  lemma {:induction false} NextKeeps(s: State, step: Step)
    requires Inv(s) && Enabled(s, step)
    ensures Inv(Apply(s, step))
  {
    match step
    case Unplaced(_) =>
    case Place(at) => PlaceKeeps(s, at);
    case Settle(id, ok) => SettleKeeps(s, id, ok);
    case HandOver(req) => UnholdAllKeeps(s, Phase(req, 0));
    case Release(req) => ReleaseAllKeeps(s, Places(req));
    case FrameEnd(req, phase) => FrameEndKeeps(s, req, phase);
    case Finish(req) => FinishKeeps(s, req);
  }

  lemma {:induction false} RunsKeep(run: seq<State>, steps: seq<Step>, i: nat)
    requires IsRun(run, steps) && i < |run|
    ensures Inv(run[i])
  {
    if i > 0 {
      RunsKeep(run, steps, i - 1);
      NextKeeps(run[i - 1], steps[i - 1]);
    }
  }

  // ---------------------------------------------------------------------------
  // Requests that are over
  // ---------------------------------------------------------------------------

  // Only operations of req may have changed.
  ghost predicate OthersSame(s: State, t: State, req: nat) {
    && |t.ops| == |s.ops|
    && forall i | 0 <= i < |s.ops| :: t.ops[i].at == s.ops[i].at && (s.ops[i].at.req != req ==> t.ops[i] == s.ops[i])
  }

  lemma {:induction false} UnholdOthers(s: State, at: At)
    requires Sound(s)
    ensures OthersSame(s, Unhold(s, at), at.req) && Sound(Unhold(s, at))
    ensures OthersSame(s, ReleaseAt(s, at), at.req) && Sound(ReleaseAt(s, at))
    ensures OthersSame(s, AbandonAt(s, at), at.req) && Sound(AbandonAt(s, at))
  {}

  lemma {:induction false} OthersChain(s: State, t: State, u: State, req: nat)
    requires OthersSame(s, t, req) && OthersSame(t, u, req)
    ensures OthersSame(s, u, req)
  {}

  lemma {:induction false} UnholdAllOthers(s: State, ats: seq<At>, req: nat)
    requires Sound(s) && forall at | at in ats :: at.req == req
    ensures OthersSame(s, UnholdAll(s, ats), req)
    decreases |ats|
  {
    if ats != [] {
      UnholdOthers(s, ats[0]);
      UnholdAllOthers(Unhold(s, ats[0]), ats[1..], req);
      hide Sound, Unhold, OthersSame;
      OthersChain(s, Unhold(s, ats[0]), UnholdAll(s, ats), req);
    }
  }

  lemma {:induction false} ReleaseAllOthers(s: State, ats: seq<At>, req: nat)
    requires Sound(s) && forall at | at in ats :: at.req == req
    ensures OthersSame(s, ReleaseAll(s, ats), req)
    decreases |ats|
  {
    if ats != [] {
      UnholdOthers(s, ats[0]);
      ReleaseAllOthers(ReleaseAt(s, ats[0]), ats[1..], req);
      hide Sound, ReleaseAt, OthersSame;
      OthersChain(s, ReleaseAt(s, ats[0]), ReleaseAll(s, ats), req);
    }
  }

  lemma {:induction false} AbandonAllOthers(s: State, ats: seq<At>, req: nat)
    requires Sound(s) && forall at | at in ats :: at.req == req
    ensures OthersSame(s, AbandonAll(s, ats), req)
    decreases |ats|
  {
    if ats != [] {
      UnholdOthers(s, ats[0]);
      AbandonAllOthers(AbandonAt(s, ats[0]), ats[1..], req);
      hide Sound, AbandonAt, OthersSame;
      OthersChain(s, AbandonAt(s, ats[0]), AbandonAll(s, ats), req);
    }
  }

  lemma {:induction false} DetachOthers(s: State, gone: set<At>, req: nat)
    requires forall at | at in gone :: at.req == req
    ensures OthersSame(s, Detached(s, gone), req)
  {}

  // Nothing happens to the operations of a request that is over, and it gets no new ones.
  ghost predicate Untouched(s: State, t: State, req: nat) {
    && |s.ops| <= |t.ops|
    && (forall i | 0 <= i < |s.ops| && s.ops[i].at.req == req ::
          t.ops[i].at == s.ops[i].at && t.ops[i].hold == s.ops[i].hold)
    && (forall i | 0 <= i < |t.ops| && t.ops[i].at.req == req :: i < |s.ops| && s.ops[i].at.req == req)
  }

  lemma {:induction false} OverUntouched(s: State, step: Step, req: nat)
    requires Inv(s) && Enabled(s, step) && req in s.over
    ensures Untouched(s, Apply(s, step), req) && req in Apply(s, step).over
  {
    match step
    case Unplaced(_) =>
    case Place(_) =>
    case Settle(id, ok) => SettleOthers(s, id, ok, req);
    case HandOver(r) => HandOverOthers(s, r, req);
    case Release(r) => ReleaseOthers(s, r, req);
    case FrameEnd(r, phase) => FrameOthers(s, r, phase, req);
    case Finish(r) => FinishOthers(s, r, req);
  }

  lemma {:induction false} OthersUntouched(s: State, t: State, r: nat, req: nat)
    requires OthersSame(s, t, r) && r != req
    ensures Untouched(s, t, req)
  {}

  lemma {:induction false} SettleOthers(s: State, id: nat, ok: bool, req: nat)
    requires Inv(s) && Enabled(s, Settle(id, ok)) && req in s.over
    ensures Untouched(s, Apply(s, Settle(id, ok)), req) && Apply(s, Settle(id, ok)).over == s.over
  {
    var at := s.ops[id].at;
    var t := s.(ops := s.ops[id := s.ops[id].(pending := false)]);
    assert at.req != req && Sound(t);
    UnholdOthers(t, at);
    hide Inv, Sound;
  }

  lemma {:induction false} HandOverOthers(s: State, r: nat, req: nat)
    requires Sound(s) && r != req
    ensures var t := UnholdAll(s, Phase(r, 0)); Untouched(s, t, req) && t.over == s.over
  {
    UnholdAllOthers(s, Phase(r, 0), r);
    SameOver(s, Phase(r, 0));
    hide UnholdAll, Sound;
    OthersUntouched(s, UnholdAll(s, Phase(r, 0)), r, req);
  }

  lemma {:induction false} ReleaseOthers(s: State, r: nat, req: nat)
    requires Sound(s) && r != req
    ensures var t := ReleaseAll(s, Places(r)); Untouched(s, t, req) && t.over == s.over
  {
    ReleaseAllOthers(s, Places(r), r);
    SameOver(s, Places(r));
    hide ReleaseAll, Sound;
    OthersUntouched(s, ReleaseAll(s, Places(r)), r, req);
  }

  lemma {:induction false} FrameOthers(s: State, r: nat, phase: nat, req: nat)
    requires Inv(s) && Enabled(s, FrameEnd(r, phase)) && r != req
    ensures Untouched(s, Apply(s, FrameEnd(r, phase)), req) && Apply(s, FrameEnd(r, phase)).over == s.over
  {
    var at, all := At(r, phase, BODY), (set a | a in Phase(r, phase));
    var t := if at in s.slot && at in s.placed then ReleaseAll(s, Phase(r, phase)) else s;
    assert OthersSame(s, t, r) && t.over == s.over && Sound(t) by {
      ReleaseAllOthers(s, Phase(r, phase), r);
      ReleaseAllKeeps(s, Phase(r, phase));
    }
    hide Inv, ReleaseAll;
    var u := AbandonAt(t, at);
    FrameRestOthers(s, t, at, all);
    var v := Apply(s, FrameEnd(r, phase));
    assert v.ops == Detached(u, all).ops && v.over == u.over;
    hide Apply;
    OthersUntouched(s, v, r, req);
  }

  lemma {:induction false} FrameRestOthers(s: State, t: State, at: At, all: set<At>)
    requires OthersSame(s, t, at.req) && Sound(t) && forall a | a in all :: a.req == at.req
    ensures OthersSame(s, Detached(AbandonAt(t, at), all), at.req) && AbandonAt(t, at).over == t.over
  {
    var u := AbandonAt(t, at);
    UnholdOthers(t, at);
    DetachOthers(u, all, at.req);
    OthersChain(s, t, u, at.req);
    OthersChain(s, u, Detached(u, all), at.req);
    hide OthersSame, Sound, Detached;
  }

  lemma {:induction false} FinishOthers(s: State, r: nat, req: nat)
    requires Inv(s) && Enabled(s, Finish(r)) && r != req
    ensures Untouched(s, Apply(s, Finish(r)), req) && s.over <= Apply(s, Finish(r)).over
  {
    hide ReleaseAll, AbandonAll, Inv, OthersSame, Places, Untouched;
    CleanupOthers(s, r);
    var ats, all := Places(r), (set a | a in Places(r));
    var t := if r in s.registered then AbandonAll(ReleaseAll(s, ats), ats) else s;
    SameSame(s, r);
    OfRequest(r);
    DetachOthers(t, all, r);
    OthersChain(s, t, Detached(t, all), r);
    var v := Apply(s, Finish(r));
    assert v == Detached(t, all).(over := t.over + {r});
    hide Apply, Detached;
    SameOps(s, Detached(t, all), v, r);
    OthersUntouched(s, v, r, req);
  }

  lemma {:induction false} SameSame(s: State, r: nat)
    ensures OthersSame(s, s, r)
  {}

  lemma {:induction false} SameOps(s: State, t: State, v: State, r: nat)
    requires OthersSame(s, t, r) && v.ops == t.ops
    ensures OthersSame(s, v, r)
  {}

  lemma {:induction false} OfRequest(r: nat)
    ensures forall at | at in Places(r) :: at.req == r
  {}

  // What ngx_http_waf_body_cleanup does concerns its request only.
  lemma {:induction false} CleanupOthers(s: State, r: nat)
    requires Inv(s)
    ensures var t := AbandonAll(ReleaseAll(s, Places(r)), Places(r)); OthersSame(s, t, r) && t.over == s.over
  {
    var ats := Places(r);
    OfRequest(r);
    ReleaseAllKeeps(s, ats);
    hide ReleaseAll, AbandonAll, Places, OthersSame;
    ReleaseAllOthers(s, ats, r);
    AbandonAllOthers(ReleaseAll(s, ats), ats, r);
    hide Inv, Sound;
    SameOver(s, ats);
    SameOver(ReleaseAll(s, ats), ats);
    OthersChain(s, ReleaseAll(s, ats), AbandonAll(ReleaseAll(s, ats), ats), r);
  }

  lemma {:induction false} OverStays(run: seq<State>, steps: seq<Step>, i: nat, j: nat, req: nat)
    requires IsRun(run, steps) && i <= j < |run| && req in run[i].over
    ensures req in run[j].over && Untouched(run[i], run[j], req)
    decreases j
  {
    if i < j {
      OverStays(run, steps, i, j - 1, req);
      RunsKeep(run, steps, j - 1);
      hide Inv;
      OverUntouched(run[j - 1], steps[j - 1], req);
    }
  }

  lemma {:induction false} OverBy(run: seq<State>, steps: seq<Step>, j: nat, req: nat) returns (i: nat)
    requires IsRun(run, steps) && j < |run| && req in run[j].over
    ensures i < j && steps[i] == Finish(req)
    decreases j
  {
    if req in run[j - 1].over {
      i := OverBy(run, steps, j - 1, req);
    } else {
      i := j - 1;
      OverByStep(run[i], steps[i], req);
    }
  }

  lemma {:induction false} OverByStep(s: State, step: Step, req: nat)
    requires Enabled(s, step) && req !in s.over && req in Apply(s, step).over
    ensures step == Finish(req)
  {
    match step
    case HandOver(r) => SameOver(s, Phase(r, 0));
    case Release(r) => SameOver(s, Places(r));
    case FrameEnd(r, phase) => SameOver(s, Phase(r, phase));
    case Finish(r) => SameOver(s, Places(r)); SameOver(ReleaseAll(s, Places(r)), Places(r));
    case _ =>
  }

  lemma {:induction false} SameOver(s: State, ats: seq<At>)
    ensures UnholdAll(s, ats).over == ReleaseAll(s, ats).over == AbandonAll(s, ats).over == s.over
    decreases |ats|
  {
    if ats != [] {
      SameOver(Unhold(s, ats[0]), ats[1..]);
      SameOver(ReleaseAt(s, ats[0]), ats[1..]);
      SameOver(AbandonAt(s, ats[0]), ats[1..]);
    }
  }

  // ---------------------------------------------------------------------------
  // Main results
  // ---------------------------------------------------------------------------

  // At every moment the counter is the number of counted operations that hold, within the limit.
  lemma {:induction false} CounterIsExact(run: seq<State>, steps: seq<Step>, i: nat)
    requires IsRun(run, steps) && i < |run|
    ensures run[i].holds == |Held(run[i].ops)| && run[i].holds <= run[i].max
  {
    RunsKeep(run, steps, i);
  }

  // From the end of a request on, none of its operations holds, in whatever order they were placed,
  // answered, handed over, released and abandoned: if and only if its cleanup was registered or no
  // operation of a frame was left holding.
  lemma {:induction false} NothingHeldAfterwards(run: seq<State>, steps: seq<Step>, i: nat, j: nat, req: nat)
    requires IsRun(run, steps) && i < j < |run| && steps[i] == Finish(req)
    ensures NoneHeld(run[j], req) <==> Clean(run[i], req)
  {
    RunsKeep(run, steps, i);
    hide Inv;
    FinishKeeps(run[i], req);
    OverStays(run, steps, i + 1, j, req);
    hide Apply, Clean;
  }

  // A request that ended its frame first, as frame_finalize does, is one of those.
  lemma {:induction false} EndedFramesAreClean(run: seq<State>, steps: seq<Step>, i: nat, req: nat)
    requires IsRun(run, steps) && i < |run|
    requires forall at | at in run[i].slot && at.req == req :: !IsFrame(at.phase)
    ensures Clean(run[i], req)
  {
    RunsKeep(run, steps, i);
  }

  // Otherwise the counter never comes back: a request torn down in its frame, with nothing registered.
  lemma {:induction false} TornDownInItsFrame(s: State, req: nat)
    requires s == State(0, s.max, [], map[], {}, {}, {}, {}) && s.max > 0
    ensures var at := At(req, 2, BODY);
            && Enabled(s, Place(at)) && Enabled(Apply(s, Place(at)), Finish(req))
            && !Clean(Apply(s, Place(at)), req)
            && Apply(Apply(s, Place(at)), Finish(req)).holds == 1
  {
    hide Places;
    var t := Apply(s, Place(At(req, 2, BODY)));
    assert t.ops[0] == Op(At(req, 2, BODY), true, true);
  }

  // So a worker with no request left holds nothing, if and only if every request ended clean.
  lemma {:induction false} IdleWorkerHoldsNothing(run: seq<State>, steps: seq<Step>, j: nat)
    requires IsRun(run, steps) && j < |run|
    requires forall id | 0 <= id < |run[j].ops| :: run[j].ops[id].at.req in run[j].over
    ensures run[j].holds == 0 <==> forall i | 0 <= i < j && steps[i].Finish? :: Clean(run[i], steps[i].req)
  {
    RunsKeep(run, steps, j);
    var s := run[j];
    hide Inv, Clean;
    assert s.holds == |Held(s.ops)| by {
      CounterIsExact(run, steps, j);
    }
    if s.holds == 0 {
      assert Held(s.ops) == {};
      forall i | 0 <= i < j && steps[i].Finish? ensures Clean(run[i], steps[i].req) {
        NothingHeldAfterwards(run, steps, i, j, steps[i].req);
        assert forall id | 0 <= id < |s.ops| && s.ops[id].hold :: id in Held(s.ops);
      }
    }
    if forall i | 0 <= i < j && steps[i].Finish? :: Clean(run[i], steps[i].req) {
      forall id | 0 <= id < |s.ops| ensures !s.ops[id].hold {
        var i := OverBy(run, steps, j, s.ops[id].at.req);
        NothingHeldAfterwards(run, steps, i, j, s.ops[id].at.req);
      }
      assert Held(s.ops) == {};
    }
  }

  // ---------------------------------------------------------------------------
  // What single steps achieve
  // ---------------------------------------------------------------------------

  lemma {:induction false} UnholdAllClears(s: State, ats: seq<At>)
    requires Inv(s)
    ensures var t := UnholdAll(s, ats);
            && Inv(t) && Same(s, t)
            && (forall i | 0 <= i < |s.ops| && !s.ops[i].hold :: !t.ops[i].hold)
            && (forall at | at in ats && at in s.slot :: !t.ops[s.slot[at]].hold)
            && (forall i | 0 <= i < |s.ops| && s.ops[i].at !in ats :: t.ops[i].hold == s.ops[i].hold)
    decreases |ats|
  {
    if ats != [] {
      var u := Unhold(s, ats[0]);
      UnholdKeeps(s, ats[0]);
      OnlyThere(s, ats[0]);
      UnholdAllClears(u, ats[1..]);
      hide Inv, Unhold;
      assert ats == [ats[0]] + ats[1..];
    }
  }

  lemma {:induction false} OnlyThere(s: State, at: At)
    requires Sound(s)
    ensures var u := Unhold(s, at);
            && |u.ops| == |s.ops|
            && (forall i | 0 <= i < |s.ops| && !s.ops[i].hold :: !u.ops[i].hold)
            && (forall i | 0 <= i < |s.ops| && s.ops[i].at != at :: u.ops[i].hold == s.ops[i].hold)
  {}

  // Handing a request over ends the holds of its own phase and no others.
  lemma {:induction false} HandOverEndsHolds(s: State, req: nat)
    requires Inv(s) && Enabled(s, HandOver(req))
    ensures var t := Apply(s, HandOver(req));
            && |t.ops| == |s.ops|
            && forall i | 0 <= i < |s.ops| ::
                 t.ops[i].at == s.ops[i].at
                 && t.ops[i].hold == (s.ops[i].hold && !(s.ops[i].at.req == req && s.ops[i].at.phase == 0))
  {
    UnholdAllClears(s, Phase(req, 0));
    var t := UnholdAll(s, Phase(req, 0));
    hide UnholdAll, Counted, Ended;
    forall i | 0 <= i < |s.ops| && s.ops[i].hold
      ensures t.ops[i].hold == !(s.ops[i].at.req == req && s.ops[i].at.phase == 0)
    {
      assert s.ops[i].at in s.slot && s.slot[s.ops[i].at] == i && Allowed(s.ops[i].at);
      InPhase(s.ops[i].at, req, 0);
    }
  }

  lemma {:induction false} InPhase(at: At, req: nat, phase: nat)
    requires Allowed(at)
    ensures at in Phase(req, phase) <==> at.req == req && at.phase == phase
  {}

  // Releasing a request empties its placed places and ends their holds.
  lemma {:induction false} ReleaseEndsPlaced(s: State, req: nat)
    requires Inv(s) && Enabled(s, Release(req))
    ensures var t := Apply(s, Release(req));
            && |t.ops| == |s.ops|
            && (forall at: At | at.req == req && at in s.placed :: at !in t.slot)
            && (forall i | 0 <= i < |t.ops| && t.ops[i].at.req == req && t.ops[i].at in s.placed :: !t.ops[i].hold)
  {
    ReleaseAllKeeps(s, Places(req));
    ReleaseAllOthers(s, Places(req), req);
    ReleaseAllEmpties(s, Places(req));
    var t := ReleaseAll(s, Places(req));
    hide ReleaseAll, Counted, Ended;
    forall at: At | at.req == req && at in s.placed ensures at !in t.slot {
      assert at in t.slot ==> Allowed(at);
    }
  }

  lemma {:induction false} ReleaseAllEmpties(s: State, ats: seq<At>)
    requires Inv(s)
    ensures forall at | at in ats && at in s.placed :: at !in ReleaseAll(s, ats).slot
    decreases |ats|
  {
    if ats != [] {
      ReleaseAtKeeps(s, ats[0]);
      assert ats[0] in s.placed ==> ats[0] !in ReleaseAt(s, ats[0]).slot;
      assert forall at | at in s.placed && at != ats[0] :: at in ReleaseAt(s, ats[0]).placed;
      ReleaseAllEmpties(ReleaseAt(s, ats[0]), ats[1..]);
      ReleaseAllKeeps(ReleaseAt(s, ats[0]), ats[1..]);
      hide Inv, ReleaseAt;
    }
  }

  // The end of a frame leaves nothing of it held, awaited or placed.
  lemma {:induction false} FrameEndEndsHold(s: State, req: nat, phase: nat)
    requires Inv(s) && Enabled(s, FrameEnd(req, phase))
    ensures var t := Apply(s, FrameEnd(req, phase));
            && (forall at | at in t.slot :: at.req != req || at.phase != phase)
            && forall i | 0 <= i < |t.ops| && t.ops[i].at.req == req && t.ops[i].at.phase == phase ::
                 !t.ops[i].hold && !t.ops[i].pending
  {
    FrameEndKeeps(s, req, phase);
    var t := Apply(s, FrameEnd(req, phase));
    FrameEmptied(s, req, phase);
    hide Apply, Counted, Ended;
    forall at | at in t.slot ensures at.req != req || at.phase != phase {
      assert Allowed(at);
      InPhase(at, req, phase);
    }
  }

  lemma {:induction false} FrameEmptied(s: State, req: nat, phase: nat)
    requires Enabled(s, FrameEnd(req, phase))
    ensures forall at | at in Phase(req, phase) :: at !in Apply(s, FrameEnd(req, phase)).slot
  {
    hide ReleaseAll, AbandonAt, Phase, Detached;
  }

  // An answer that fails gives the operation up; one that succeeds makes it placed.
  lemma {:induction false} SettleDecides(s: State, id: nat, ok: bool)
    requires Inv(s) && Enabled(s, Settle(id, ok))
    ensures var t, at := Apply(s, Settle(id, ok)), s.ops[id].at;
            && |t.ops| == |s.ops| && !t.ops[id].pending
            && if ok then t.ops[id].hold == s.ops[id].hold && at in t.placed && at in t.slot && t.slot[at] == id
               else !t.ops[id].hold && at !in t.slot
  {
    hide Counted, Ended;
    assert s.ops[id].at in s.slot && s.slot[s.ops[id].at] == id;
  }

  // No phase context ever loses an operation it points to: a place is empty when one is put there.
  lemma {:induction false} NeverOverwritten(run: seq<State>, steps: seq<Step>, i: nat)
    requires IsRun(run, steps) && i < |steps| && steps[i].Place?
    ensures steps[i].at !in run[i].slot
  {
    RunsKeep(run, steps, i);
  }
}
