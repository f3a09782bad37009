/** A run of the mirror with an honest keeper and no lost record that ends with an entry the
    keeper's set does not have: the `extra` of Mirror.MirrorsTheKeeper cannot be left out.
 */
module MirrorExample {
  import opened Bytes
  import opened Overlay
  import opened Mirror

  const KEY: Key := [1]
  const ADD := Record(Add, KEY, 0)

  ghost function DemoEnv(): (env: Env)
    ensures Sane(env)
  {
    Env(Str, (k: Key) => 0, (k: nat, x: Key) => {0}, 0, 100, (e: nat) => 0,
        (e: nat, n: nat) => if n == 1 then {KEY} else {})
  }

  // The first snapshot brings KEY, the second drops it.
  ghost function P1(): Pack { Pack(1, 1, SetHash(DemoEnv(), 0, {KEY}), 0, 1, [ADD]) }
  ghost function P2(): Pack { Pack(1, 2, SetHash(DemoEnv(), 0, {}), 0, 0, []) }

  ghost function M1(): Nodes { map[KEY := Node(2, 0, {0})] }
  ghost function M2(): Nodes { map[KEY := Node(3, 5, {0})] }

  ghost function E0(): SlotState { SlotState(false, map[], 1, 0, 0, 0, false, false) }
  ghost function E1(): SlotState { SlotState(true, map[], 2, 0, 0, 0, true, false) }
  ghost function E2(): SlotState { SlotState(true, M1(), 2, 0, 0, 0, true, false) }
  ghost function E3(): SlotState { SlotState(true, M1(), 2, 1, 1, 0, false, XorAll(M1()) != P1().hash) }
  ghost function E4(): SlotState { E3().(gen := 3, syncing := true) }
  ghost function E5(): SlotState { E4().(nodes := M2()) }
  ghost function E6(): SlotState { SlotState(true, M2(), 3, 1, 2, 0, false, XorAll(M2()) != P2().hash) }

  ghost function H0(): History { History(None, [], {}, {}, {}, {}, {}, true) }
  ghost function H1(): History { History(Some(0), [], {}, {}, {}, {}, {}, true) }
  ghost function H2(): History { History(Some(0), [], {}, {KEY}, {}, {}, {}, true) }
  ghost function H3(): History { History(None, [Snapshot(1, 1)], {}, {KEY}, {}, {}, {}, true) }
  ghost function H4(): History { History(Some(0), [Snapshot(1, 1)], {}, {}, {}, {}, {}, true) }
  ghost function H5(): History { History(Some(0), [Snapshot(1, 1)], {KEY}, {}, {}, {}, {KEY}, false) }
  ghost function H6(): History { History(None, [Snapshot(1, 1), Snapshot(1, 2)], {KEY}, {}, {}, {}, {KEY}, false) }

  ghost function Demo(slot: SlotState, work: Work, past: History): State { State(slot, map[0 := work], past) }

  ghost function D0(): State { Demo(E0(), Idle, H0()) }
  ghost function D1(): State { Demo(E1(), Marking(P1(), 0, 2), H1()) }
  ghost function D2(): State { Demo(E1(), Marking(P1(), 1, 2), H1()) }
  ghost function D3(): State { Demo(E1(), Sweeping(P1(), 2, Start), H1()) }
  ghost function D4(): State { Demo(E1(), Loading(P1(), 0, 2), H1()) }
  ghost function D5(): State { Demo(E2(), Loading(P1(), 1, 2), H2()) }
  ghost function D6(): State { Demo(E3(), Idle, H3()) }
  ghost function D7(): State { Demo(E4(), Marking(P2(), 0, 3), H4()) }
  ghost function D8(): State { Demo(E5(), Marking(P2(), 0, 3), H5()) }
  ghost function D9(): State { Demo(E5(), Sweeping(P2(), 3, Start), H5()) }
  ghost function D10(): State { Demo(E5(), Sweeping(P2(), 3, At(KEY)), H5()) }
  ghost function D11(): State { Demo(E5(), Loading(P2(), 0, 3), H5()) }
  ghost function D12(): State { Demo(E6(), Idle, H6()) }

  lemma {:induction false} Demo0()
    ensures Next(DemoEnv(), D0(), D1(), SnapshotStart(0, P1()))
  {
    assert D0().workers[0 := Marking(P1(), 0, 2)] == D1().workers;
    assert AddKeys([ADD]) == {KEY} && CountAdds([ADD]) == 1 by { assert [ADD][..0] == []; }
    assert E0().nodes.Keys * {KEY} == {};
  }

  lemma {:induction false} Demo1()
    ensures Next(DemoEnv(), D1(), D2(), MarkRecord(0))
  {
    assert D1().workers[0 := Marking(P1(), 1, 2)] == D2().workers;
  }

  lemma {:induction false} Demo2()
    ensures Next(DemoEnv(), D2(), D3(), MarkEnd(0))
  {
    assert D2().workers[0 := Sweeping(P1(), 2, Start)] == D3().workers;
  }

  lemma {:induction false} Demo3()
    ensures Next(DemoEnv(), D3(), D4(), SweepNode(0))
  {
    assert D3().workers[0 := Loading(P1(), 0, 2)] == D4().workers;
  }

  lemma {:induction false} Demo4()
    ensures Next(DemoEnv(), D4(), D5(), LoadRecord(0, Room(true, true)))
  {
    assert D4().workers[0 := Loading(P1(), 1, 2)] == D5().workers;
  }

  lemma {:induction false} Demo5()
    ensures Next(DemoEnv(), D5(), D6(), SnapshotEnd(0))
  {
    assert D5().workers[0 := Idle] == D6().workers;
  }

  lemma {:induction false} Demo6()
    ensures Next(DemoEnv(), D6(), D7(), SnapshotStart(0, P2()))
  {
    assert D6().workers[0 := Marking(P2(), 0, 3)] == D7().workers;
    assert AddKeys([]) == {};
    assert E3().nodes.Keys * AddKeys([]) == {};
  }

  lemma {:induction false} Demo7()
    ensures Next(DemoEnv(), D7(), D8(), Ban(KEY, 5, Room(true, true)))
  {
    assert D7().workers[0 := Marking(P2(), 0, 3)] == D8().workers;
    assert AddKeys([]) == {};
    assert M1()[KEY := Node(3, 5, {0})] == M2();
  }

  lemma {:induction false} Demo8()
    ensures Next(DemoEnv(), D8(), D9(), MarkEnd(0))
  {
    assert D8().workers[0 := Sweeping(P2(), 3, Start)] == D9().workers;
  }

  lemma {:induction false} Demo9()
    ensures Next(DemoEnv(), D9(), D10(), SweepNode(0))
  {
    assert D9().workers[0 := Sweeping(P2(), 3, At(KEY))] == D10().workers;
    assert M2().Keys == {KEY};
    assert IsLeast(DemoEnv().crc, M2().Keys, KEY);
  }

  lemma {:induction false} Demo10()
    ensures Next(DemoEnv(), D10(), D11(), SweepNode(0))
  {
    assert D10().workers[0 := Loading(P2(), 0, 3)] == D11().workers;
    BeforeTotal(DemoEnv().crc, KEY, KEY);
    assert IsNext(DemoEnv().crc, M2(), KEY, None);
  }

  lemma {:induction false} Demo11()
    ensures Next(DemoEnv(), D11(), D12(), SnapshotEnd(0))
  {
    assert D11().workers[0 := Idle] == D12().workers;
  }

  ghost predicate Reaches(env: Env, s: State) {
    exists run: seq<State>, steps: seq<Step> :: IsRun(env, run, steps) && run[|steps|] == s
  }

  lemma {:induction false} ReachStep(env: Env, s: State, s': State, step: Step)
    requires Reaches(env, s) && Next(env, s, s', step)
    ensures Reaches(env, s')
  {
    var run: seq<State>, steps: seq<Step> :| IsRun(env, run, steps) && run[|steps|] == s;
    var run', steps' := run + [s'], steps + [step];
    forall i | 0 <= i < |steps'| ensures Next(env, run'[i], run'[i + 1], steps'[i]) {
      if i < |steps| {
        assert Next(env, run[i], run[i + 1], steps[i]);
      }
    }
    assert IsRun(env, run', steps') && run'[|steps'|] == s';
  }

  lemma {:induction false} FirstSnapshot()
    ensures Reaches(DemoEnv(), D6())
  {
    var none: seq<Step> := [];
    assert IsRun(DemoEnv(), [D0()], none) && [D0()][|none|] == D0();
    Demo0();
    ReachStep(DemoEnv(), D0(), D1(), SnapshotStart(0, P1()));
    Demo1();
    ReachStep(DemoEnv(), D1(), D2(), MarkRecord(0));
    Demo2();
    ReachStep(DemoEnv(), D2(), D3(), MarkEnd(0));
    Demo3();
    ReachStep(DemoEnv(), D3(), D4(), SweepNode(0));
    Demo4();
    ReachStep(DemoEnv(), D4(), D5(), LoadRecord(0, Room(true, true)));
    Demo5();
    ReachStep(DemoEnv(), D5(), D6(), SnapshotEnd(0));
  }

  lemma {:induction false} SecondSnapshot()
    ensures Reaches(DemoEnv(), D9())
  {
    FirstSnapshot();
    Demo6();
    Demo7();
    Demo8();
    hide Reaches, Next;
    ReachStep(DemoEnv(), D6(), D7(), SnapshotStart(0, P2()));
    ReachStep(DemoEnv(), D7(), D8(), Ban(KEY, 5, Room(true, true)));
    ReachStep(DemoEnv(), D8(), D9(), MarkEnd(0));
  }

  lemma {:induction false} SecondSnapshotEnds()
    ensures Reaches(DemoEnv(), D12())
  {
    SecondSnapshot();
    Demo9();
    Demo10();
    Demo11();
    hide Reaches, Next;
    ReachStep(DemoEnv(), D9(), D10(), SweepNode(0));
    ReachStep(DemoEnv(), D10(), D11(), SweepNode(0));
    ReachStep(DemoEnv(), D11(), D12(), SnapshotEnd(0));
  }

  // A ban lands on KEY before the sweep reaches it: the entry stays with its keeper hash, although
  // the keeper's set no longer has it and no record was lost.
  lemma {:induction false} BanRevivesEntry()
    ensures exists s ::
        && Reaches(DemoEnv(), s)
        && s.slot.epoch != 0 && !s.slot.syncing && s.past.missing == {}
        && Hashed(s.slot.nodes).Keys != DemoEnv().sets(s.slot.epoch, s.slot.seqno)
  {
    SecondSnapshotEnds();
    hide Reaches;
    assert KEY in Hashed(D12().slot.nodes);
  }
}
