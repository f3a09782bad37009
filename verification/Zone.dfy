/** The slot table of the shared zone: dataset_init_zone and dataset_bind of
    module/src/local/ngx_http_waf_dataset.c, over reloads.

    A configuration declares its datasets; the master reserves slots under the pool mutex, drops
    the mutex to build the sets (which may fail), and takes it again to bind them. Workers of any
    configuration that initialised commit its generation when they start, at any moment.
 */
module Zone {
  import opened Bytes

  const MAX_DATASETS := 128

  datatype Slot = Slot(bound: bool, name: string, gen: nat, released: nat)

  // ---------------------------------------------------------------------------
  // What the two critical sections of init_zone do
  // ---------------------------------------------------------------------------

  ghost predicate Distinct<T>(s: seq<T>) {
    forall i, j | 0 <= i < j < |s| :: s[i] != s[j]
  }

  ghost predicate NamesUnique(slots: seq<Slot>) {
    forall i, j | 0 <= i < j < |slots| && slots[i].bound && slots[j].bound :: slots[i].name != slots[j].name
  }

  predicate Bears(slot: Slot, name: string) { slot.bound && slot.name == name }

  // A slot is given up only if the new configuration does not name it and the workers committed a
  // generation newer than its last declaration.
  ghost function Release(slot: Slot, names: seq<string>, committed: nat, gen: nat): Slot {
    if slot.bound && slot.name !in names && slot.gen < committed
    then slot.(bound := false, released := gen) else slot
  }

  ghost function Released(slots: seq<Slot>, names: seq<string>, committed: nat, gen: nat): (after: seq<Slot>)
    ensures |after| == |slots|
  {
    seq(|slots|, j requires 0 <= j < |slots| => Release(slots[j], names, committed, gen))
  }

  ghost function Free(slots: seq<Slot>): set<int> { set j | 0 <= j < |slots| && !slots[j].bound }

  ghost predicate Borne(slots: seq<Slot>, name: string) {
    exists j | 0 <= j < |slots| :: Bears(slots[j], name)
  }

  ghost function Newcomers(slots: seq<Slot>, names: seq<string>): set<int> {
    set i | 0 <= i < |names| && !Borne(slots, names[i])
  }

  // plan[i] is the slot bearing names[i] if there is one, otherwise a free slot of its own.
  ghost predicate Planned(slots: seq<Slot>, names: seq<string>, plan: seq<nat>) {
    && |plan| == |names| && Distinct(plan)
    && forall i | 0 <= i < |names| ::
         && plan[i] < |slots|
         && (Borne(slots, names[i]) ==> Bears(slots[plan[i]], names[i]))
         && (!Borne(slots, names[i]) ==> !slots[plan[i]].bound)
  }

  // Newcomers get the free slots released longest ago.
  ghost predicate OldestFirst(slots: seq<Slot>, names: seq<string>, plan: seq<nat>) {
    forall k: nat, j: nat | k in Newcomers(slots, names) && j in Free(slots) && j !in plan ::
      k < |plan| && plan[k] < |slots| && slots[plan[k]].released <= slots[j].released
  }

  ghost function Bind(slots: seq<Slot>, names: seq<string>, plan: seq<nat>, gen: nat, n: nat): (after: seq<Slot>)
    requires n <= |names| == |plan| && forall i | 0 <= i < |plan| :: plan[i] < |slots|
    ensures |after| == |slots|
  {
    if n == 0 then slots
    else
      var before := Bind(slots, names, plan, gen, n - 1);
      var slot := before[plan[n - 1]];
      before[plan[n - 1] := Slot(true, if slot.bound then slot.name else names[n - 1], gen, slot.released)]
  }

  // ---------------------------------------------------------------------------
  // The methods
  // ---------------------------------------------------------------------------

  class Shm {
    var slots: seq<Slot>
    var dsGen: nat
    var committed: nat

    // The slot already bearing a name, or MAX_DATASETS.
    method Find(name: string) returns (j: nat)
      requires |slots| == MAX_DATASETS
      ensures j <= |slots|
      ensures j < |slots| ==> Bears(slots[j], name)
      ensures j == |slots| ==> !Borne(slots, name)
    {
      j := 0;
      while j < MAX_DATASETS
        invariant j <= MAX_DATASETS && forall k | 0 <= k < j :: !Bears(slots[k], name)
      {
        if slots[j].bound && slots[j].name == name {
          return;
        }
        j := j + 1;
      }
    }

    // The unbound, untaken slot released longest ago, or MAX_DATASETS.
    method Oldest(taken: set<int>) returns (best: nat)
      requires |slots| == MAX_DATASETS
      ensures best <= |slots|
      ensures best == |slots| <==> Free(slots) <= taken
      ensures best < |slots| ==> best in Free(slots) - taken
      ensures best < |slots| ==> forall j | j in Free(slots) - taken :: slots[best].released <= slots[j].released
    {
      best := MAX_DATASETS;
      for j := 0 to MAX_DATASETS
        invariant best <= |slots|
        invariant best == |slots| ==> forall k | 0 <= k < j :: k !in Free(slots) || k in taken
        invariant best < |slots| ==> best < j && best in Free(slots) - taken
        invariant best < |slots| ==>
                    forall k | 0 <= k < j && k in Free(slots) - taken :: slots[best].released <= slots[k].released
      {
        if slots[j].bound || j in taken {
          continue;
        }
        if best == MAX_DATASETS || slots[j].released < slots[best].released {
          best := j;
        }
      }
    }

    // First critical section of init_zone.
    method Reserve(names: seq<string>) returns (ok: bool, gen: nat, plan: seq<nat>)
      requires |slots| == MAX_DATASETS && NamesUnique(slots) && Distinct(names)
      modifies this`slots, this`dsGen
      ensures gen == dsGen == old(dsGen) + 1
      ensures slots == Released(old(slots), names, committed, gen)
      ensures ok ==> Planned(slots, names, plan) && OldestFirst(slots, names, plan)
      ensures ok <==> |Newcomers(slots, names)| <= |Free(slots)|
    {
      dsGen := dsGen + 1;
      gen := dsGen;
      var taken: set<int>;
      plan, taken := Match(names);
      ReleaseOthers(names, taken, gen);
      MatchSurvives(old(slots), slots, names, gen);
      ok, plan := Fill(names, plan, taken);
    }

    method Match(names: seq<string>) returns (plan: seq<nat>, taken: set<int>)
      requires |slots| == MAX_DATASETS && NamesUnique(slots) && Distinct(names)
      ensures Matched(slots, names, plan)
      ensures taken == set j | 0 <= j < |slots| && slots[j].bound && slots[j].name in names
    {
      plan, taken := [], {};
      for i := 0 to |names|
        invariant Matched(slots, names[..i], plan)
        invariant taken == set j | 0 <= j < |slots| && slots[j].bound && slots[j].name in names[..i]
      {
        var j := Find(names[i]);
        plan := plan + [j];
        if j < MAX_DATASETS {
          taken := taken + {j};
        }
        assert forall k | 0 <= k < |slots| && slots[k].bound ::
            slots[k].name in names[..i + 1] <==> slots[k].name in names[..i] || k == j;
      }
      assert names[..|names|] == names;
    }

    static ghost predicate Matched(slots: seq<Slot>, names: seq<string>, plan: seq<nat>) {
      && |plan| == |names|
      && forall i | 0 <= i < |names| ::
           if Borne(slots, names[i]) then plan[i] < |slots| && Bears(slots[plan[i]], names[i])
           else plan[i] == |slots|
    }

    method ReleaseOthers(names: seq<string>, taken: set<int>, gen: nat)
      requires |slots| == MAX_DATASETS
      requires taken == set j | 0 <= j < |slots| && slots[j].bound && slots[j].name in names
      modifies this`slots
      ensures slots == Released(old(slots), names, committed, gen)
    {
      for j := 0 to MAX_DATASETS
        invariant |slots| == MAX_DATASETS
        invariant forall k | 0 <= k < j :: slots[k] == Release(old(slots)[k], names, committed, gen)
        invariant forall k | j <= k < MAX_DATASETS :: slots[k] == old(slots)[k]
      {
        if slots[j].bound && j !in taken && slots[j].gen < committed {
          slots := slots[j := slots[j].(bound := false, released := gen)];
        }
      }
    }

    // Releasing touches no slot a name was matched to.
    lemma {:induction false} MatchSurvives(before: seq<Slot>, after: seq<Slot>, names: seq<string>, gen: nat)
      requires after == Released(before, names, committed, gen)
      ensures forall name, j | name in names && 0 <= j < |before| :: Bears(after[j], name) <==> Bears(before[j], name)
      ensures forall name | name in names :: Borne(after, name) <==> Borne(before, name)
    {
      forall name | name in names ensures Borne(after, name) <==> Borne(before, name) {
        if Borne(before, name) {
          var j :| 0 <= j < |before| && Bears(before[j], name);
          assert Bears(after[j], name);
        }
        if Borne(after, name) {
          var j :| 0 <= j < |after| && Bears(after[j], name);
          assert Bears(before[j], name);
        }
      }
    }

    method Fill(names: seq<string>, matched: seq<nat>, bound: set<int>) returns (ok: bool, plan: seq<nat>)
      requires |slots| == MAX_DATASETS && Distinct(names) && Matched(slots, names, matched)
      requires forall j | j in bound :: 0 <= j < |slots| && slots[j].bound
      ensures ok ==> Planned(slots, names, plan) && OldestFirst(slots, names, plan)
      ensures ok <==> |Newcomers(slots, names)| <= |Free(slots)|
    {
      plan := matched;
      var taken := bound;
      ghost var given: set<int> := {};
      FillStart(names, matched);
      BoundNotFree(bound);
      hide *;
      for i := 0 to |names|
        invariant Filling(names, matched, plan, given, i)
        invariant taken == bound + given && Fair(plan, given, i)
      {
        ok, plan, taken, given := Give(names, matched, plan, taken, bound, given, i);
        if !ok {
          return;
        }
      }
      EnoughSlots(names, matched, plan, given);
      FairToAll(names, matched, plan, given);
      ok := true;
    }

    // What was given is in the plan, and was released no later than what was not given.
    ghost predicate Fair(plan: seq<nat>, given: set<int>, i: nat)
      reads this
    {
      && (forall x | x in given :: x in Free(slots) && InPlan(plan, i, x))
      && (forall x, j | x in given && j in Free(slots) - given :: slots[x].released <= slots[j].released)
    }

    static ghost predicate InPlan(plan: seq<nat>, i: nat, x: int) {
      exists k | 0 <= k < i && k < |plan| :: plan[k] as int == x
    }

    lemma {:induction false} FairStep(plan: seq<nat>, given: set<int>, i: nat, best: nat)
      requires Fair(plan, given, i) && i < |plan| && best in Free(slots) - given
      requires forall j | j in Free(slots) - given :: slots[best].released <= slots[j].released
      ensures Fair(plan[i := best], given + {best as int}, i + 1)
    {
      var after := plan[i := best];
      assert after[i] as int == best;
      forall x | x in given ensures InPlan(after, i + 1, x) {
        assert InPlan(plan, i, x);
        var k :| 0 <= k < i && k < |plan| && plan[k] as int == x;
        assert after[k] as int == x;
      }
    }

    lemma {:induction false} FairSame(plan: seq<nat>, given: set<int>, i: nat)
      requires Fair(plan, given, i)
      ensures Fair(plan, given, i + 1)
    {
      forall x | x in given ensures InPlan(plan, i + 1, x) {
        assert InPlan(plan, i, x);
        var k :| 0 <= k < i && k < |plan| && plan[k] as int == x;
      }
    }

    lemma {:induction false} FairToAll(names: seq<string>, matched: seq<nat>, plan: seq<nat>, given: set<int>)
      requires Filling(names, matched, plan, given, |names|) && Fair(plan, given, |names|)
      ensures OldestFirst(slots, names, plan)
    {
      forall k: nat, j: nat | k in Newcomers(slots, names) && j in Free(slots) && j !in plan
        ensures k < |plan| && plan[k] < |slots| && slots[plan[k]].released <= slots[j].released
      {
        assert plan[k] as int in given && j !in given;
      }
    }

    // A slot for one name; none is left for it otherwise.
    method Give(names: seq<string>, matched: seq<nat>, plan: seq<nat>, taken: set<int>,
                ghost bound: set<int>, ghost given: set<int>, i: nat)
      returns (ok: bool, plan': seq<nat>, taken': set<int>, ghost given': set<int>)
      requires |slots| == MAX_DATASETS && i < |names| && Filling(names, matched, plan, given, i)
      requires bound !! Free(slots) && taken == bound + given && Fair(plan, given, i)
      ensures ok ==> Filling(names, matched, plan', given', i + 1)
      ensures ok ==> taken' == bound + given' && Fair(plan', given', i + 1)
      ensures !ok ==> |Newcomers(slots, names)| > |Free(slots)|
    {
      FillLength(names, matched, plan, given, i);
      hide *;
      ok, plan', taken', given' := true, plan, taken, given;
      if plan[i] != MAX_DATASETS {
        FillMatched(names, matched, plan, given, i);
        FairSame(plan, given, i);
        return;
      }
      var best := Oldest(taken);
      if best == MAX_DATASETS {
        OnlyGiven(bound, given);
        ShortOfSlots(names, matched, plan, given, i);
        ok := false;
        return;
      }
      GiveFresh(names, matched, plan, taken, bound, given, i, best);
      plan' := plan[i := best];
      taken' := taken + {best};
      given' := given + {best as int};
    }

    lemma {:induction false} OnlyGiven(bound: set<int>, given: set<int>)
      requires bound !! Free(slots) && Free(slots) <= bound + given
      ensures Free(slots) <= given
    {}

    lemma {:induction false} GiveFresh(names: seq<string>, matched: seq<nat>, plan: seq<nat>, taken: set<int>,
                                       bound: set<int>, given: set<int>, i: nat, best: nat)
      requires i < |names| && Filling(names, matched, plan, given, i) && plan[i] == |slots| && Fair(plan, given, i)
      requires bound !! Free(slots) && taken == bound + given && best in Free(slots) - taken
      requires forall j | j in Free(slots) - taken :: slots[best].released <= slots[j].released
      ensures Filling(names, matched, plan[i := best], given + {best as int}, i + 1)
      ensures Fair(plan[i := best], given + {best as int}, i + 1)
      ensures taken + {best as int} == bound + (given + {best as int})
    {
      hide Filling, Fair, Newcomers;
      forall j | j in Free(slots) - given ensures slots[best].released <= slots[j].released {
        assert j in Free(slots) - taken;
      }
      FillLength(names, matched, plan, given, i);
      FillFresh(names, matched, plan, given, i, best);
      FairStep(plan, given, i, best);
    }

    lemma {:induction false} FillStart(names: seq<string>, matched: seq<nat>)
      requires Distinct(names) && Matched(slots, names, matched)
      ensures Filling(names, matched, matched, {}, 0)
    {
      assert names[..0] == [];
    }

    lemma {:induction false} BoundNotFree(bound: set<int>)
      requires forall j | j in bound :: 0 <= j < |slots| && slots[j].bound
      ensures bound !! Free(slots)
    {}

    lemma {:induction false} FillLength(names: seq<string>, matched: seq<nat>, plan: seq<nat>, given: set<int>, i: nat)
      requires Filling(names, matched, plan, given, i)
      ensures |plan| == |names| && given <= Free(slots)
    {}

    // The first i names have slots; given are the free ones handed to newcomers among them.
    ghost predicate Filling(names: seq<string>, matched: seq<nat>, plan: seq<nat>, given: set<int>, i: nat)
      reads this
    {
      && i <= |names| == |plan| == |matched| && Distinct(names) && Matched(slots, names, matched)
      && (forall k | i <= k < |names| :: plan[k] == matched[k])
      && given <= Free(slots)
      && (forall k | 0 <= k < i && k in Newcomers(slots, names) :: plan[k] as int in given)
      && |given| == |Newcomers(slots, names[..i])|
      && Placed(slots, names, plan, i)
    }

    lemma {:induction false} FillMatched(names: seq<string>, matched: seq<nat>, plan: seq<nat>, given: set<int>, i: nat)
      requires i < |names| && Filling(names, matched, plan, given, i) && plan[i] != |slots|
      ensures Filling(names, matched, plan, given, i + 1)
    {
      Unmatched(names, matched, i);
      NewcomersStep(slots, names, i);
      assert plan[i] < |slots| && Bears(slots[plan[i]], names[i]);
      hide Newcomers, Matched, Free, Placed, Borne;
      PlacedMatched(names, plan, i);
    }

    lemma {:induction false} FillFresh(names: seq<string>, matched: seq<nat>, plan: seq<nat>, given: set<int>, i: nat,
                                       best: nat)
      requires i < |names| && Filling(names, matched, plan, given, i) && plan[i] == |slots|
      requires best in Free(slots) && best !in given
      ensures Filling(names, matched, plan[i := best], given + {best as int}, i + 1)
    {
      Unmatched(names, matched, i);
      NewcomersStep(slots, names, i);
      hide Newcomers, Matched, Distinct, Free, Placed;
      PlacedFresh(names, plan, plan[i := best], given, i, best);
      Larger(given, best, Newcomers(slots, names[..i]), i);
      forall k | 0 <= k < i + 1 && k in Newcomers(slots, names)
        ensures plan[i := best][k] as int in given + {best as int}
      {
        if k < i {
          assert plan[k] as int in given;
        }
      }
    }

    lemma {:induction false} Larger(a: set<int>, x: int, b: set<int>, y: int)
      requires |a| == |b| && x !in a && y !in b
      ensures |a + {x}| == |b + {y}|
    {}

    lemma {:induction false} Unmatched(names: seq<string>, matched: seq<nat>, i: nat)
      requires i < |names| && Matched(slots, names, matched)
      ensures matched[i] == |slots| <==> i in Newcomers(slots, names)
    {}

    // The first n names have their slots, all different.
    static ghost predicate Placed(slots: seq<Slot>, names: seq<string>, plan: seq<nat>, n: nat)
      requires n <= |names| == |plan|
    {
      && (forall i, j | 0 <= i < j < n :: plan[i] != plan[j])
      && forall i | 0 <= i < n ::
           && plan[i] < |slots|
           && (Borne(slots, names[i]) ==> Bears(slots[plan[i]], names[i]))
           && (!Borne(slots, names[i]) ==> !slots[plan[i]].bound)
    }

    lemma {:induction false} PlacedMatched(names: seq<string>, plan: seq<nat>, i: nat)
      requires i < |names| == |plan| && Distinct(names) && Placed(slots, names, plan, i)
      requires plan[i] < |slots| && Bears(slots[plan[i]], names[i])
      ensures Placed(slots, names, plan, i + 1)
    {
      assert Borne(slots, names[i]);
      forall k | 0 <= k < i ensures plan[k] != plan[i] {
        if Borne(slots, names[k]) {
          assert names[k] != names[i];
        }
      }
    }

    lemma {:induction false} PlacedFresh(names: seq<string>, was: seq<nat>, plan: seq<nat>, given: set<int>, i: nat,
                                         best: nat)
      requires i < |names| == |was| && plan == was[i := best] && i in Newcomers(slots, names)
      requires forall k | 0 <= k < i && k in Newcomers(slots, names) :: was[k] as int in given
      requires best in Free(slots) && best !in given && Placed(slots, names, was, i)
      ensures Placed(slots, names, plan, i + 1)
    {
      forall k | 0 <= k < i ensures plan[k] != best {
        if k !in Newcomers(slots, names) {
          assert Borne(slots, names[k]);
        }
      }
    }

    lemma {:induction false} NewcomersStep(slots: seq<Slot>, names: seq<string>, i: nat)
      requires i < |names|
      ensures Newcomers(slots, names[..i + 1])
           == Newcomers(slots, names[..i]) + if i in Newcomers(slots, names) then {i as int} else {}
      ensures i !in Newcomers(slots, names[..i])
      ensures Newcomers(slots, names[..i + 1]) <= Newcomers(slots, names)
    {}

    lemma {:induction false} ShortOfSlots(names: seq<string>, matched: seq<nat>, plan: seq<nat>, given: set<int>,
                                          i: nat)
      requires i < |names| && Filling(names, matched, plan, given, i) && plan[i] == |slots|
      requires Free(slots) <= given
      ensures |Newcomers(slots, names)| > |Free(slots)|
    {
      NewcomersStep(slots, names, i);
      var some := Newcomers(slots, names[..i]) + {i as int};
      assert given == Free(slots);
      SubsetSize(some, Newcomers(slots, names));
    }

    lemma {:induction false} EnoughSlots(names: seq<string>, matched: seq<nat>, plan: seq<nat>, given: set<int>)
      requires Filling(names, matched, plan, given, |names|)
      ensures Planned(slots, names, plan) && |Newcomers(slots, names)| <= |Free(slots)|
    {
      assert names[..|names|] == names;
      SubsetSize(given, Free(slots));
    }

    // Second critical section of init_zone, after every set was built.
    method Settle(names: seq<string>, plan: seq<nat>, gen: nat)
      requires |names| == |plan| && forall i | 0 <= i < |plan| :: plan[i] < |slots|
      modifies this`slots
      ensures slots == Bind(old(slots), names, plan, gen, |names|)
    {
      for i := 0 to |names|
        invariant |slots| == |old(slots)| && slots == Bind(old(slots), names, plan, gen, i)
      {
        var slot := slots[plan[i]];
        if !slot.bound {
          slot := slot.(name := names[i], bound := true);
        }
        slot := slot.(gen := gen);
        slots := slots[plan[i] := slot];
      }
    }

    // dataset_bind: a worker of generation gen has started.
    method Commit(gen: nat)
      modifies this`committed
      ensures committed == if gen > old(committed) then gen else old(committed)
    {
      if gen > committed {
        committed := gen;
      }
    }
  }

  // ---------------------------------------------------------------------------
  // Runs: inits that are refused, fail while building or finish, and workers committing
  // ---------------------------------------------------------------------------

  datatype Config = Config(names: seq<string>, plan: seq<nat>, gen: nat)

  datatype State = State(
    slots: seq<Slot>,
    dsGen: nat,
    committed: nat,
    pending: Option<Config>,  // between the two critical sections of init_zone
    configs: seq<Config>)     // every configuration that initialised

  datatype Step =
    | Reserve(names: seq<string>, plan: seq<nat>)
    | Refuse(names: seq<string>)
    | Fail
    | Settle
    | Commit(config: nat)

  ghost predicate Init(s: State) {
    && |s.slots| == MAX_DATASETS && (forall j | 0 <= j < |s.slots| :: !s.slots[j].bound)
    && s.dsGen == 0 && s.committed == 0 && s.pending.None? && s.configs == []
  }

  ghost function Opened(s: State, names: seq<string>): State {
    s.(slots := Released(s.slots, names, s.committed, s.dsGen + 1), dsGen := s.dsGen + 1)
  }

  ghost predicate Next(s: State, s': State, step: Step) {
    match step
    case Reserve(names, plan) =>
      && s.pending.None? && Distinct(names) && Planned(Opened(s, names).slots, names, plan)
      && s' == Opened(s, names).(pending := Some(Config(names, plan, s.dsGen + 1)))
    case Refuse(names) =>
      && s.pending.None? && Distinct(names)
      && |Newcomers(Opened(s, names).slots, names)| > |Free(Opened(s, names).slots)|
      && s' == Opened(s, names)
    case Fail => s.pending.Some? && s' == s.(pending := None)
    case Settle =>
      && s.pending.Some?
      && var c := s.pending.value;
      && |c.names| == |c.plan| && (forall i | 0 <= i < |c.plan| :: c.plan[i] < |s.slots|)
      && s' == s.(slots := Bind(s.slots, c.names, c.plan, c.gen, |c.names|), pending := None,
                  configs := s.configs + [c])
    case Commit(i) =>
      && i < |s.configs|
      && var gen := s.configs[i].gen;
      && s' == s.(committed := if gen > s.committed then gen else s.committed)
  }

  ghost predicate IsRun(run: seq<State>, steps: seq<Step>) {
    && |run| == |steps| + 1 && Init(run[0])
    && forall i | 0 <= i < |steps| :: Next(run[i], run[i + 1], steps[i])
  }

  // ---------------------------------------------------------------------------
  // What every run keeps
  // ---------------------------------------------------------------------------

  // Every dataset of a configuration has the slot it was given, bound under its name.
  ghost predicate Served(slots: seq<Slot>, c: Config) {
    && |c.plan| == |c.names| && Distinct(c.plan)
    && forall i | 0 <= i < |c.names| ::
         && c.plan[i] < |slots|
         && Bears(slots[c.plan[i]], c.names[i])
         && slots[c.plan[i]].gen >= c.gen
  }

  ghost predicate Declares(c: Config, j: nat, slot: Slot) {
    c.gen == slot.gen && |c.plan| == |c.names| && exists i | 0 <= i < |c.names| ::
      c.plan[i] == j && c.names[i] == slot.name
  }

  // Slot j was last declared by a configuration that initialised.
  ghost predicate Declared(configs: seq<Config>, slots: seq<Slot>, j: nat)
    requires j < |slots|
  {
    exists k | 0 <= k < |configs| :: Declares(configs[k], j, slots[j])
  }

  ghost predicate Live(s: State, k: int) { 0 <= k < |s.configs| && s.configs[k].gen >= s.committed }

  ghost predicate Inv(s: State) {
    && |s.slots| == MAX_DATASETS && NamesUnique(s.slots) && s.committed <= s.dsGen
    && (forall k | 0 <= k < |s.configs| :: s.configs[k].gen <= s.dsGen)
    && (forall k | Live(s, k) :: Served(s.slots, s.configs[k]))
    && (forall j | 0 <= j < |s.slots| && s.slots[j].bound :: Declared(s.configs, s.slots, j))
    && (s.pending.Some? ==> PendingOk(s, s.pending.value))
  }

  ghost predicate PendingOk(s: State, c: Config) {
    && Distinct(c.names) && Planned(s.slots, c.names, c.plan) && c.gen == s.dsGen && c.gen > s.committed
    && forall k | 0 <= k < |s.configs| :: s.configs[k].gen < c.gen
  }

  // Opening an init takes no slot from a live configuration.
  lemma {:induction false} OpenKeeps(s: State, names: seq<string>)
    requires Inv(s) && s.pending.None?
    ensures Inv(Opened(s, names))
    ensures Opened(s, names).committed <= s.dsGen
  {
    var t := Opened(s, names);
    forall k | Live(t, k) ensures Served(t.slots, t.configs[k]) {
      assert Live(s, k);
    }
    forall j | 0 <= j < |t.slots| && t.slots[j].bound ensures Declared(t.configs, t.slots, j) {
      assert Declared(s.configs, s.slots, j);
    }
  }

  lemma {:induction false} BindAt(slots: seq<Slot>, names: seq<string>, plan: seq<nat>, gen: nat, n: nat)
    requires n <= |names| && Planned(slots, names, plan)
    ensures var after := Bind(slots, names, plan, gen, n);
            && (forall i | 0 <= i < n :: Bears(after[plan[i]], names[i]) && after[plan[i]].gen == gen)
            && forall j: nat | j < |slots| && j !in plan[..n] :: after[j] == slots[j]
  {
    if n > 0 {
      BindAt(slots, names, plan, gen, n - 1);
      assert plan[..n] == plan[..n - 1] + [plan[n - 1]];
      assert plan[n - 1] !in plan[..n - 1];
      var after := Bind(slots, names, plan, gen, n);
      forall i | 0 <= i < n ensures Bears(after[plan[i]], names[i]) && after[plan[i]].gen == gen {
        if i < n - 1 {
          assert plan[i] != plan[n - 1];
        }
      }
    }
  }

  // Binding renames nothing that was bound, and the new names are nobody else's.
  lemma {:induction false} BindKeepsUnique(slots: seq<Slot>, names: seq<string>, plan: seq<nat>, gen: nat)
    requires NamesUnique(slots) && Distinct(names) && Planned(slots, names, plan)
    ensures NamesUnique(Bind(slots, names, plan, gen, |names|))
    ensures forall j | 0 <= j < |slots| && slots[j].bound ::
              Bears(Bind(slots, names, plan, gen, |names|)[j], slots[j].name)
  {
    var after := Bind(slots, names, plan, gen, |names|);
    BindAt(slots, names, plan, gen, |names|);
    assert plan[..|names|] == plan;
    forall j | 0 <= j < |slots| && slots[j].bound ensures Bears(after[j], slots[j].name) {
      if j in plan {
        var i :| 0 <= i < |plan| && plan[i] == j;
        assert Bears(after[plan[i]], names[i]);
      }
    }
    forall a, b | 0 <= a < b < |after| && after[a].bound && after[b].bound ensures after[a].name != after[b].name {
      BoundNamesDiffer(slots, after, names, plan, a, b);
    }
  }

  lemma {:induction false} BoundNamesDiffer(slots: seq<Slot>, after: seq<Slot>, names: seq<string>, plan: seq<nat>,
                                            a: nat, b: nat)
    requires NamesUnique(slots) && Distinct(names) && Planned(slots, names, plan) && |after| == |slots|
    requires forall i | 0 <= i < |names| :: Bears(after[plan[i]], names[i])
    requires forall j: nat | j < |slots| && j !in plan :: after[j] == slots[j]
    requires a < b < |after| && after[a].bound && after[b].bound
    ensures after[a].name != after[b].name
  {
    if a in plan && b in plan {
      var i :| 0 <= i < |plan| && plan[i] == a;
      var k :| 0 <= k < |plan| && plan[k] == b;
      assert Bears(after[plan[i]], names[i]) && Bears(after[plan[k]], names[k]);
    } else if a in plan {
      PlannedElsewhere(slots, after, names, plan, a, b);
    } else if b in plan {
      PlannedElsewhere(slots, after, names, plan, b, a);
    }
  }

  lemma {:induction false} PlannedElsewhere(slots: seq<Slot>, after: seq<Slot>, names: seq<string>, plan: seq<nat>,
                                            a: nat, b: nat)
    requires NamesUnique(slots) && Planned(slots, names, plan) && |after| == |slots|
    requires forall i | 0 <= i < |names| :: Bears(after[plan[i]], names[i])
    requires a < |slots| && b < |slots| && a in plan && b !in plan && after[b] == slots[b] && slots[b].bound
    ensures after[a].name != after[b].name
  {
    var i :| 0 <= i < |plan| && plan[i] == a;
    assert Bears(after[plan[i]], names[i]);
    if names[i] == slots[b].name {
      assert Bears(slots[b], names[i]) && Borne(slots, names[i]);
    }
  }

  lemma {:induction false} SettleKeeps(s: State, s': State)
    requires Inv(s) && Next(s, s', Settle)
    ensures Inv(s')
  {
    hide Bind, Served, Declared, Planned;
    var c := s.pending.value;
    BindKeepsUnique(s.slots, c.names, c.plan, c.gen);
    BindAt(s.slots, c.names, c.plan, c.gen, |c.names|);
    assert c.plan[..|c.names|] == c.plan;
    SettleServes(s, s');
    SettleDeclares(s, s');
  }

  lemma {:induction false} SettleServes(s: State, s': State)
    requires Inv(s) && s.pending.Some? && s'.configs == s.configs + [s.pending.value] && s'.committed == s.committed
    requires |s'.slots| == |s.slots|
    requires var c := s.pending.value;
             && (forall i | 0 <= i < |c.names| ::
                   Bears(s'.slots[c.plan[i]], c.names[i]) && s'.slots[c.plan[i]].gen == c.gen)
             && (forall j: nat | j < |s.slots| && j !in c.plan :: s'.slots[j] == s.slots[j])
    requires forall j | 0 <= j < |s.slots| && s.slots[j].bound :: Bears(s'.slots[j], s.slots[j].name)
    ensures forall k | Live(s', k) :: Served(s'.slots, s'.configs[k])
  {
    forall k | Live(s', k) ensures Served(s'.slots, s'.configs[k]) {
      if k < |s.configs| {
        var d := s.configs[k];
        assert Live(s, k) && s'.configs[k] == d;
        forall i | 0 <= i < |d.names|
          ensures Bears(s'.slots[d.plan[i]], d.names[i]) && s'.slots[d.plan[i]].gen >= d.gen
        {
          if d.plan[i] in s.pending.value.plan {
            var m :| 0 <= m < |s.pending.value.plan| && s.pending.value.plan[m] == d.plan[i];
            assert Bears(s'.slots[s.pending.value.plan[m]], s.pending.value.names[m]);
          }
        }
      }
    }
  }

  lemma {:induction false} SettleDeclares(s: State, s': State)
    requires Inv(s) && s.pending.Some? && s'.configs == s.configs + [s.pending.value] && |s'.slots| == |s.slots|
    requires var c := s.pending.value;
             && (forall i | 0 <= i < |c.names| ::
                   Bears(s'.slots[c.plan[i]], c.names[i]) && s'.slots[c.plan[i]].gen == c.gen)
             && (forall j: nat | j < |s.slots| && j !in c.plan :: s'.slots[j] == s.slots[j])
    ensures forall j | 0 <= j < |s'.slots| && s'.slots[j].bound :: Declared(s'.configs, s'.slots, j)
  {
    var c := s.pending.value;
    forall j | 0 <= j < |s'.slots| && s'.slots[j].bound ensures Declared(s'.configs, s'.slots, j) {
      if j in c.plan {
        var i :| 0 <= i < |c.plan| && c.plan[i] == j;
        assert Bears(s'.slots[c.plan[i]], c.names[i]);
        assert Declares(s'.configs[|s.configs|], j, s'.slots[j]);
      } else {
        var k :| 0 <= k < |s.configs| && Declares(s.configs[k], j, s.slots[j]);
        assert s'.configs[k] == s.configs[k];
      }
    }
  }

  lemma {:induction false} CommitKeeps(s: State, s': State, i: nat)
    requires Inv(s) && Next(s, s', Commit(i))
    ensures Inv(s')
  {
    forall k | Live(s', k) ensures Served(s'.slots, s'.configs[k]) {
      assert Live(s, k);
    }
    forall j | 0 <= j < |s'.slots| && s'.slots[j].bound ensures Declared(s'.configs, s'.slots, j) {
      assert Declared(s.configs, s.slots, j);
    }
  }

  lemma {:induction false} NextKeeps(s: State, s': State, step: Step)
    requires Inv(s) && Next(s, s', step)
    ensures Inv(s')
  {
    match step
    case Reserve(names, plan) => OpenKeeps(s, names); OpenWith(s, s', names);
    case Refuse(names) => OpenKeeps(s, names);
    case Fail =>
      OpenWith(s, s', []);
    case Settle => SettleKeeps(s, s');
    case Commit(i) => CommitKeeps(s, s', i);
  }

  lemma {:induction false} OpenWith(s: State, s': State, names: seq<string>)
    requires (Inv(Opened(s, names)) && s' == Opened(s, names).(pending := s'.pending))
          || (Inv(s) && s' == s.(pending := s'.pending))
    requires s'.pending.Some? ==> PendingOk(s', s'.pending.value)
    ensures Inv(s')
  {
    var t := if s'.dsGen == s.dsGen then s else Opened(s, names);
    forall k | Live(s', k) ensures Served(s'.slots, s'.configs[k]) {
      assert Live(t, k);
    }
    forall j | 0 <= j < |s'.slots| && s'.slots[j].bound ensures Declared(s'.configs, s'.slots, j) {
      assert Declared(t.configs, t.slots, j);
    }
  }

  lemma {:induction false} RunsKeep(run: seq<State>, steps: seq<Step>, i: nat)
    requires IsRun(run, steps) && i < |run|
    ensures Inv(run[i])
  {
    if i > 0 {
      RunsKeep(run, steps, i - 1);
      NextKeeps(run[i - 1], run[i], steps[i - 1]);
    }
  }

  // ---------------------------------------------------------------------------
  // Main results
  // ---------------------------------------------------------------------------

  // At every moment of every run, each configuration that initialised and is not older than the
  // committed one finds, at the index of each of its datasets, a slot bound under that name; its
  // datasets have different slots, and no two bound slots share a name.
  lemma {:induction false} LiveConfigurationsServed(run: seq<State>, steps: seq<Step>, i: nat)
    requires IsRun(run, steps) && i < |run|
    ensures forall k | Live(run[i], k) :: Served(run[i].slots, run[i].configs[k])
    ensures NamesUnique(run[i].slots)
  {
    RunsKeep(run, steps, i);
  }

  // Two live configurations that name the same dataset read the same slot.
  lemma {:induction false} SharedNameSharedSlot(run: seq<State>, steps: seq<Step>, i: nat, c: Config, d: Config,
                                                x: nat, y: nat)
    requires IsRun(run, steps) && i < |run|
    requires exists k :: Live(run[i], k) && run[i].configs[k] == c
    requires exists k :: Live(run[i], k) && run[i].configs[k] == d
    requires x < |c.names| == |c.plan| && y < |d.names| == |d.plan| && c.names[x] == d.names[y]
    ensures c.plan[x] == d.plan[y]
  {
    RunsKeep(run, steps, i);
    assert Served(run[i].slots, c) && Served(run[i].slots, d);
  }

  ghost predicate StillDeclared(s: State, j: nat)
    requires j < |s.slots|
  {
    exists k | Live(s, k) :: Declares(s.configs[k], j, s.slots[j])
  }

  // Opening an init frees every slot nobody needs: what stays bound is named by the new
  // configuration or belongs to a live one. So a refusal means those two together, with the
  // newcomers, need more than MAX_DATASETS slots.
  lemma {:induction false} RefusedOnlyWhenFull(run: seq<State>, steps: seq<Step>, i: nat, names: seq<string>)
    requires IsRun(run, steps) && i < |steps| && steps[i] == Refuse(names)
    ensures var slots := run[i + 1].slots;
            var used := set j | 0 <= j < |slots| && slots[j].bound;
            && |Newcomers(slots, names)| + |used| > MAX_DATASETS
            && forall j | j in used ::
                 slots[j].name in names || StillDeclared(run[i + 1], j)
  {
    RunsKeep(run, steps, i + 1);
    var s := run[i + 1];
    var used := set j | 0 <= j < |s.slots| && s.slots[j].bound;
    SplitSlots(s.slots, used);
    forall j | j in used
      ensures s.slots[j].name in names || StillDeclared(s, j)
    {
      var k :| 0 <= k < |s.configs| && Declares(s.configs[k], j, s.slots[j]);
      if s.slots[j].name !in names {
        assert s.slots[j] == Release(run[i].slots[j], names, s.committed, s.dsGen);
        assert Live(s, k);
      }
    }
  }

  lemma {:induction false} SplitSlots(slots: seq<Slot>, used: set<int>)
    requires used == set j | 0 <= j < |slots| && slots[j].bound
    ensures |used| + |Free(slots)| == |slots|
  {
    if slots != [] {
      var n := |slots| - 1;
      var rest := slots[..n];
      var usedRest := used - {n};
      assert usedRest == set j | 0 <= j < |rest| && rest[j].bound;
      SplitSlots(rest, usedRest);
      LastSlot(slots, used, n);
      hide Free;
    }
  }

  lemma {:induction false} LastSlot(slots: seq<Slot>, used: set<int>, n: nat)
    requires n + 1 == |slots| && used == set j | 0 <= j < |slots| && slots[j].bound
    ensures |used - {n}| == |used| - (if slots[n].bound then 1 else 0)
    ensures |Free(slots[..n])| == |Free(slots)| - (if slots[n].bound then 0 else 1)
  {
    assert Free(slots[..n]) == Free(slots) - {n};
    if slots[n].bound {
      assert Free(slots) - {n} == Free(slots);
    } else {
      assert used - {n} == used;
    }
  }
}
