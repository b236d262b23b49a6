/**
  `get_or_assign_variant` run by any number of concurrent callers, one SQL statement a step,
  against an assignment table that `upsert_experiment` may clear by cascade.
 */
module AssignmentProtocol {
  import opened Wrappers
  import opened Experiments

  type Caller = nat
  type Key = (int, int) // experiment, customer

  /** SHA-256 of the pair, reduced modulo the number of buckets. */
  type Hash = (int, int) -> nat

  datatype Outcome = Assigned(variantId: int) | NoVariants | DatabaseError

  datatype Phase =
    | Looking                       // about to run the first SELECT
    | Choosing                      // no row seen; about to walk the variant list and INSERT
    | Rereading(conflictAt: nat)    // INSERT hit a conflict in that epoch; about to SELECT again
    | Done(outcome: Outcome, epoch: nat)

  datatype Call = Call(key: Key, variants: seq<Variant>, phase: Phase)

  /**
    `rows` is the table with its UNIQUE (experiment, customer) constraint.  `epoch` counts how
    often an experiment's variants have been deleted, and `born` says for which experiment and in
    which epoch a variant id was drawn from its sequence; the service keeps neither.
   */
  datatype State = State(rows: map<Key, int>, born: map<int, (int, nat)>, epoch: map<int, nat>,
                         calls: map<Caller, Call>)

  datatype Action =
    | Begin(caller: Caller, key: Key, variants: seq<Variant>)
    | Advance(caller: Caller)
    | DeleteVariants(experiment: int)
    | InsertVariant(experiment: int, id: int)

  function EpochOf(s: State, experiment: int): nat {
    if experiment in s.epoch then s.epoch[experiment] else 0
  }

  predicate BornIn(s: State, id: int, experiment: int, epoch: nat) {
    id in s.born && s.born[id] == (experiment, epoch)
  }

  /** The variants an experiment has now: those inserted since its last deletion. */
  function LiveOf(s: State, experiment: int): set<int> {
    set id | id in s.born && BornIn(s, id, experiment, EpochOf(s, experiment))
  }

  function RowOf(s: State, key: Key): Option<int> {
    if key in s.rows then Some(s.rows[key]) else None
  }

  /** Where a statement takes its call, and the row it inserts. */
  datatype Effect = Effect(phase: Phase, inserted: Option<int>)

  /** What one statement does, given the row and the variants it finds. */
  function Statement(hash: Hash, call: Call, row: Option<int>, live: set<int>, epoch: nat): Effect {
    match call.phase
    case Looking =>
      if row.Some? then Effect(Done(Assigned(row.value), epoch), None) else Effect(Choosing, None)
    case Choosing => (
      match Assign(hash(call.key.0, call.key.1), call.variants)
      case None => Effect(Done(NoVariants, epoch), None)
      case Some(v) =>
        if row.Some? then Effect(Rereading(epoch), None)
        else if v !in live then Effect(Done(DatabaseError, epoch), None)
        else Effect(Done(Assigned(v), epoch), Some(v)))
    case Rereading(_) =>
      Effect(Done(if row.Some? then Assigned(row.value) else DatabaseError, epoch), None)
    case Done(_, _) => Effect(call.phase, None)
  }

  function Proceed(hash: Hash, s: State, c: Caller): State
    requires c in s.calls
  {
    var call := s.calls[c];
    var effect := Statement(hash, call, RowOf(s, call.key), LiveOf(s, call.key.0), EpochOf(s, call.key.0));
    s.(calls := s.calls[c := call.(phase := effect.phase)],
       rows := if effect.inserted.Some? then s.rows[call.key := effect.inserted.value] else s.rows)
  }

  /** Deleting variants deletes their assignments by cascade; a sequence draws no id twice. */
  function Step(hash: Hash, s: State, a: Action): State {
    match a
    case Begin(c, key, vs) =>
      if c in s.calls then s else s.(calls := s.calls[c := Call(key, vs, Looking)])
    case Advance(c) => if c in s.calls then Proceed(hash, s, c) else s
    case DeleteVariants(e) =>
      s.(rows := (map k | k in s.rows && k.0 != e :: s.rows[k]),
         epoch := s.epoch[e := EpochOf(s, e) + 1])
    case InsertVariant(e, id) =>
      if id in s.born then s else s.(born := s.born[id := (e, EpochOf(s, e))])
  }

  function Run(hash: Hash, s: State, actions: seq<Action>): State
    decreases |actions|
  {
    if actions == [] then s else Run(hash, Step(hash, s, actions[0]), actions[1..])
  }

  /** Each row points to a variant its experiment has now. */
  ghost predicate RowsLive(s: State) {
    forall key :: key in s.rows ==> BornIn(s, s.rows[key], key.0, EpochOf(s, key.0))
  }

  /** Nobody has called yet; the tables may hold whatever their constraints allow. */
  ghost predicate Initial(s: State) { s.calls == map[] && RowsLive(s) }

  // ----- what every step keeps -----

  /** `c` returned variant `v` for `key` during `epoch`. */
  predicate Returned(s: State, c: Caller, key: Key, epoch: nat, v: int) {
    c in s.calls && s.calls[c].key == key && s.calls[c].phase == Done(Assigned(v), epoch)
  }

  /** In the current epoch, a row that was returned or conflicted with is still there. */
  predicate PhaseOk(phase: Phase, row: Option<int>, epoch: nat) {
    match phase
    case Done(outcome, e) =>
      e <= epoch && (outcome.Assigned? && e == epoch ==> row == Some(outcome.variantId))
    case Rereading(e) => e <= epoch && (e == epoch ==> row.Some?)
    case _ => true
  }

  predicate CallOk(s: State, c: Caller)
    requires c in s.calls
  {
    var key := s.calls[c].key;
    PhaseOk(s.calls[c].phase, RowOf(s, key), EpochOf(s, key.0))
  }

  ghost predicate Agreement(s: State) {
    forall c, d, key, epoch, v, w ::
      Returned(s, c, key, epoch, v) && Returned(s, d, key, epoch, w) ==> v == w
  }

  ghost predicate Inv(s: State) {
    && (forall c :: c in s.calls ==> CallOk(s, c))
    && Agreement(s)
  }

  /** Returns in the current epoch all equal the row, so new ones cannot disagree. */
  lemma AgreementKept(s: State, s': State)
    requires Agreement(s)
    requires forall c :: c in s'.calls ==> CallOk(s', c)
    requires forall c, key, epoch, v :: Returned(s', c, key, epoch, v) ==>
      Returned(s, c, key, epoch, v) || epoch == EpochOf(s', key.0)
    ensures Agreement(s')
  {
    forall x, y, key, epoch, v, w | Returned(s', x, key, epoch, v) && Returned(s', y, key, epoch, w)
      ensures v == w
    {
      assert CallOk(s', x) && CallOk(s', y);
    }
  }

  lemma StatementOk(hash: Hash, call: Call, row: Option<int>, live: set<int>, epoch: nat)
    requires PhaseOk(call.phase, row, epoch)
    ensures var effect := Statement(hash, call, row, live, epoch);
      && (effect.inserted.Some? ==> row.None?)
      && PhaseOk(effect.phase, if effect.inserted.Some? then effect.inserted else row, epoch)
      && (effect.phase.Done? ==> effect.phase == call.phase || effect.phase.epoch == epoch)
  {
    hide Assign;
  }

  lemma InvProceed(hash: Hash, s: State, c: Caller)
    requires Inv(s) && c in s.calls
    ensures Inv(Proceed(hash, s, c))
  {
    hide Statement;
    var call := s.calls[c];
    var s' := Proceed(hash, s, c);
    assert CallOk(s, c);
    StatementOk(hash, call, RowOf(s, call.key), LiveOf(s, call.key.0), EpochOf(s, call.key.0));
    forall d | d in s'.calls ensures CallOk(s', d) {
      assert CallOk(s, d);
    }
    AgreementKept(s, s');
  }

  /** Starting a call and changing an experiment's variants move no call. */
  lemma InvOther(hash: Hash, s: State, a: Action)
    requires Inv(s) && !a.Advance?
    ensures Inv(Step(hash, s, a))
  {
    var s' := Step(hash, s, a);
    forall d | d in s'.calls ensures CallOk(s', d) {
      OtherMovesNoCall(hash, s, a, d);
    }
    forall d, key, epoch, v | Returned(s', d, key, epoch, v)
      ensures Returned(s, d, key, epoch, v)
    {
      OtherMovesNoCall(hash, s, a, d);
    }
  }

  lemma OtherMovesNoCall(hash: Hash, s: State, a: Action, c: Caller)
    requires Inv(s) && !a.Advance? && c in Step(hash, s, a).calls
    ensures CallOk(Step(hash, s, a), c)
    ensures Step(hash, s, a).calls[c].phase.Looking? || (c in s.calls && s.calls[c] == Step(hash, s, a).calls[c])
  {
    hide Agreement;
    if c in s.calls { assert CallOk(s, c); }
  }

  lemma InvStep(hash: Hash, s: State, a: Action)
    requires Inv(s)
    ensures Inv(Step(hash, s, a))
  {
    if !a.Advance? {
      InvOther(hash, s, a);
    } else if a.caller in s.calls {
      InvProceed(hash, s, a.caller);
    }
  }

  lemma {:induction false} InvRun(hash: Hash, s: State, actions: seq<Action>)
    requires Inv(s)
    ensures Inv(Run(hash, s, actions))
    decreases |actions|
  {
    if actions != [] {
      InvStep(hash, s, actions[0]);
      InvRun(hash, Step(hash, s, actions[0]), actions[1..]);
    }
  }

  /**
    Any interleaving of any number of callers, with any variant lists, and with experiments
    being replaced at any moment: two calls that return for the same experiment and customer
    with no replacement of the experiment between their returns, return the same variant.
   */
  lemma CallersAgree(hash: Hash, s: State, actions: seq<Action>)
    requires Initial(s)
    ensures Agreement(Run(hash, s, actions))
  {
    InvRun(hash, s, actions);
  }

  // ----- rows are never overwritten -----

  predicate Touches(a: Action, experiment: int) {
    a == DeleteVariants(experiment)
  }

  /** While an experiment's variants stay, so does each of its rows, unchanged. */
  lemma {:induction false} RowsAreStable(hash: Hash, s: State, actions: seq<Action>, key: Key)
    requires key in s.rows
    requires forall i :: 0 <= i < |actions| ==> !Touches(actions[i], key.0)
    ensures key in Run(hash, s, actions).rows
    ensures Run(hash, s, actions).rows[key] == s.rows[key]
    decreases |actions|
  {
    if actions != [] {
      RowsAreStable(hash, Step(hash, s, actions[0]), actions[1..], key);
    }
  }

  /** Without a replacement the epoch stands still; with one it moves on. */
  lemma {:induction false} EpochCountsReplacements(hash: Hash, s: State, actions: seq<Action>, e: int)
    ensures EpochOf(s, e) <= EpochOf(Run(hash, s, actions), e)
    ensures EpochOf(s, e) == EpochOf(Run(hash, s, actions), e)
      <==> forall i :: 0 <= i < |actions| ==> !Touches(actions[i], e)
    decreases |actions|
  {
    if actions != [] {
      var s1 := Step(hash, s, actions[0]);
      EpochCountsReplacements(hash, s1, actions[1..], e);
      if Touches(actions[0], e) {
        assert EpochOf(s1, e) == EpochOf(s, e) + 1;
      } else {
        assert forall i :: 0 <= i < |actions| && i != 0 ==> actions[i] == actions[1..][i - 1];
      }
    }
  }

  /** Every return for `key` happened no earlier than epoch `base`. */
  ghost predicate Since(s: State, key: Key, base: nat) {
    && base <= EpochOf(s, key.0)
    && forall c :: c in s.calls && s.calls[c].key == key && s.calls[c].phase.Done? ==>
         base <= s.calls[c].phase.epoch
  }

  lemma {:induction false} SinceRun(hash: Hash, s: State, actions: seq<Action>, key: Key, base: nat)
    requires Since(s, key, base)
    ensures Since(Run(hash, s, actions), key, base)
    decreases |actions|
  {
    if actions != [] {
      SinceStep(hash, s, actions[0], key, base);
      SinceRun(hash, Step(hash, s, actions[0]), actions[1..], key, base);
    }
  }

  lemma SinceStep(hash: Hash, s: State, a: Action, key: Key, base: nat)
    requires Since(s, key, base)
    ensures Since(Step(hash, s, a), key, base)
  {
    hide Assign;
  }

  /** Without a replacement of the experiment, all callers agree, whenever they return. */
  lemma CallersAgreeWithoutReplacement(hash: Hash, s: State, actions: seq<Action>, key: Key,
                                       c: Caller, d: Caller, m: nat, n: nat, v: int, w: int)
    requires Initial(s)
    requires forall i :: 0 <= i < |actions| ==> !Touches(actions[i], key.0)
    requires Returned(Run(hash, s, actions), c, key, m, v) && Returned(Run(hash, s, actions), d, key, n, w)
    ensures v == w
  {
    var end := Run(hash, s, actions);
    InvRun(hash, s, actions);
    SinceRun(hash, s, actions, key, EpochOf(s, key.0));
    EpochCountsReplacements(hash, s, actions, key.0);
    assert CallOk(end, c) && CallOk(end, d);
  }

  /**
    Between the conflicting INSERT and the second SELECT nothing but a replacement of the
    experiment can make the row disappear.
   */
  lemma MissingRowMeansReplacement(hash: Hash, s: State, actions: seq<Action>, c: Caller)
    requires Initial(s)
    ensures var w := Run(hash, s, actions);
      c in w.calls && w.calls[c].phase.Rereading? && w.calls[c].key !in w.rows
      ==> w.calls[c].phase.conflictAt < EpochOf(w, w.calls[c].key.0)
  {
    InvRun(hash, s, actions);
    var w := Run(hash, s, actions);
    if c in w.calls {
      assert CallOk(w, c);
    }
  }

  // ----- agreement, exactly -----

  /** Whoever returned a variant returned one born in the epoch of the return. */
  ghost predicate Homed(s: State) {
    forall c, key, epoch, v :: Returned(s, c, key, epoch, v) ==> BornIn(s, v, key.0, epoch)
  }

  lemma StatementFinds(hash: Hash, call: Call, row: Option<int>, live: set<int>, epoch: nat)
    ensures var effect := Statement(hash, call, row, live, epoch);
      && (effect.inserted.Some? ==> effect.inserted.value in live)
      && (effect.phase == call.phase || !effect.phase.Done?
          || (effect.phase.epoch == epoch
              && (effect.phase.outcome.Assigned? ==>
                    row == Some(effect.phase.outcome.variantId) || effect.phase.outcome.variantId in live)))
  {
    hide Assign;
  }

  lemma BornStays(hash: Hash, s: State, a: Action, id: int, experiment: int, epoch: nat)
    requires BornIn(s, id, experiment, epoch)
    ensures BornIn(Step(hash, s, a), id, experiment, epoch)
  {
    hide Statement;
  }

  lemma RowsLiveStep(hash: Hash, s: State, a: Action)
    requires RowsLive(s)
    ensures RowsLive(Step(hash, s, a))
  {
    hide Statement;
    var s' := Step(hash, s, a);
    if a.Advance? && a.caller in s.calls {
      var call := s.calls[a.caller];
      StatementFinds(hash, call, RowOf(s, call.key), LiveOf(s, call.key.0), EpochOf(s, call.key.0));
    }
    forall key | key in s'.rows ensures BornIn(s', s'.rows[key], key.0, EpochOf(s', key.0)) {
      assert key in s.rows ==> BornIn(s, s.rows[key], key.0, EpochOf(s, key.0));
    }
  }

  lemma ReturnIsBorn(hash: Hash, s: State, a: Action, c: Caller, key: Key, epoch: nat, v: int)
    requires RowsLive(s) && !Returned(s, c, key, epoch, v) && Returned(Step(hash, s, a), c, key, epoch, v)
    ensures BornIn(s, v, key.0, epoch)
  {
    hide Statement;
    assert a == Advance(c) && c in s.calls;
    StatementFinds(hash, s.calls[c], RowOf(s, key), LiveOf(s, key.0), EpochOf(s, key.0));
  }

  lemma HomedStep(hash: Hash, s: State, a: Action)
    requires RowsLive(s) && Homed(s)
    ensures Homed(Step(hash, s, a))
  {
    hide Step, Returned, BornIn, RowsLive;
    var s' := Step(hash, s, a);
    forall c, key, epoch, v | Returned(s', c, key, epoch, v) ensures BornIn(s', v, key.0, epoch) {
      if !Returned(s, c, key, epoch, v) { ReturnIsBorn(hash, s, a, c, key, epoch, v); }
      BornStays(hash, s, a, v, key.0, epoch);
    }
  }

  lemma {:induction false} HomedRun(hash: Hash, s: State, actions: seq<Action>)
    requires RowsLive(s) && Homed(s)
    ensures RowsLive(Run(hash, s, actions)) && Homed(Run(hash, s, actions))
    decreases |actions|
  {
    if actions != [] {
      RowsLiveStep(hash, s, actions[0]);
      HomedStep(hash, s, actions[0]);
      HomedRun(hash, Step(hash, s, actions[0]), actions[1..]);
    }
  }

  /** Two calls that returned for the same experiment and customer agree if and only if they did so in one epoch. */
  lemma AgreementIsTheEpoch(hash: Hash, s: State, actions: seq<Action>, key: Key,
                            c: Caller, d: Caller, m: nat, n: nat, v: int, w: int)
    requires Initial(s)
    requires Returned(Run(hash, s, actions), c, key, m, v) && Returned(Run(hash, s, actions), d, key, n, w)
    ensures v == w <==> m == n
  {
    InvRun(hash, s, actions);
    HomedRun(hash, s, actions);
    var end := Run(hash, s, actions);
    assert BornIn(end, v, key.0, m) && BornIn(end, w, key.0, n);
  }

  /** The last action makes `c` return `v`. */
  predicate ReturnsNow(hash: Hash, s: State, actions: seq<Action>, c: Caller, key: Key, v: int) {
    && actions != [] && actions[|actions| - 1] == Advance(c)
    && var before, after := Run(hash, s, actions[..|actions| - 1]), Run(hash, s, actions);
    && c in before.calls && !before.calls[c].phase.Done?
    && Returned(after, c, key, EpochOf(after, key.0), v)
  }

  lemma {:induction false} ReturnsStay(hash: Hash, s: State, actions: seq<Action>, c: Caller, key: Key, m: nat, v: int)
    requires Returned(s, c, key, m, v)
    ensures Returned(Run(hash, s, actions), c, key, m, v)
    decreases |actions|
  {
    if actions != [] { ReturnsStay(hash, Step(hash, s, actions[0]), actions[1..], c, key, m, v); }
  }

  lemma {:induction false} RunInTwo(hash: Hash, s: State, before: seq<Action>, after: seq<Action>)
    ensures Run(hash, s, before + after) == Run(hash, Run(hash, s, before), after)
    decreases |before|
  {
    if before == [] {
      assert before + after == after;
    } else {
      RunInTwo(hash, Step(hash, s, before[0]), before[1..], after);
      assert (before + after)[1..] == before[1..] + after;
    }
  }

  /**
    In any interleaving: if `c` returns at the end of `before` and `d` for the same experiment and
    customer at the end of `between`, they are told the same variant if and only if the experiment
    was not replaced in between.
   */
  lemma AgreeUnlessReplaced(hash: Hash, s: State, before: seq<Action>, between: seq<Action>, key: Key,
                            c: Caller, d: Caller, v: int, w: int)
    requires Initial(s)
    requires ReturnsNow(hash, s, before, c, key, v) && ReturnsNow(hash, s, before + between, d, key, w)
    ensures v == w <==> forall i :: 0 <= i < |between| ==> !Touches(between[i], key.0)
  {
    hide Step, Returned;
    var mid, end := Run(hash, s, before), Run(hash, s, before + between);
    RunInTwo(hash, s, before, between);
    ReturnsStay(hash, mid, between, c, key, EpochOf(mid, key.0), v);
    EpochCountsReplacements(hash, mid, between, key.0);
    AgreementIsTheEpoch(hash, s, before + between, key, c, d, EpochOf(mid, key.0), EpochOf(end, key.0), v, w);
  }

  // ----- every caller is served -----

  /** A caller that finds the row, at once or after losing the race, returns it and changes nothing. */
  lemma RowIsReturned(hash: Hash, s: State, c: Caller)
    requires c in s.calls && s.calls[c].key in s.rows
    requires s.calls[c].phase.Looking? || s.calls[c].phase.Rereading?
    ensures var s' := Step(hash, s, Advance(c));
      && c in s'.calls && s'.calls[c].phase.Done? && s'.rows == s.rows
      && s'.calls[c].phase.outcome == Assigned(s.rows[s.calls[c].key])
  {
  }

  /** An empty list is refused, but only where no row is found first. */
  lemma EmptyListIsRefused(hash: Hash, s: State, c: Caller)
    requires c in s.calls && s.calls[c].phase.Choosing? && s.calls[c].variants == []
    ensures var s' := Step(hash, s, Advance(c));
      c in s'.calls && s'.calls[c].phase.Done? && s'.calls[c].phase.outcome == NoVariants && s'.rows == s.rows
  {
  }

  /** Whatever the bucket, the choice is the id of some variant of the list. */
  lemma ChoiceIsListed(bucket: nat, variants: seq<Variant>)
    requires variants != []
    ensures Assign(bucket, variants).Some?
    ensures exists v :: v in variants && Assign(bucket, variants) == Some(v.id)
  {
    ByIdSorts(variants);
    var ordered := ById(variants);
    assert |ordered| == |multiset(ordered)| == |multiset(variants)| == |variants|;
    assert ordered[Choice(ordered, bucket, 0)] in multiset(variants);
  }

  /** A call for `key` starts with variants, all of which the experiment has at that moment. */
  predicate BeginsLive(s: State, a: Action, key: Key) {
    a.Begin? && a.key == key ==>
      a.variants != [] && forall v :: v in a.variants ==> v.id in LiveOf(s, key.0)
  }

  ghost predicate AllBeginLive(hash: Hash, s: State, actions: seq<Action>, key: Key)
    decreases |actions|
  {
    actions == [] || (BeginsLive(s, actions[0], key) && AllBeginLive(hash, Step(hash, s, actions[0]), actions[1..], key))
  }

  /** The call can only end well: its variants are there, and so is the row once it has been seen or written. */
  predicate OnCourse(s: State, key: Key, call: Call) {
    && call.variants != [] && (forall v :: v in call.variants ==> v.id in LiveOf(s, key.0))
    && match call.phase
       case Looking => true
       case Choosing => true
       case Rereading(_) => key in s.rows
       case Done(outcome, _) => key in s.rows && outcome == Assigned(s.rows[key])
  }

  ghost predicate AllOnCourse(s: State, key: Key) {
    forall c :: c in s.calls && s.calls[c].key == key ==> OnCourse(s, key, s.calls[c])
  }

  lemma StatementOnCourse(hash: Hash, call: Call, row: Option<int>, live: set<int>, epoch: nat)
    requires call.variants != [] && forall v :: v in call.variants ==> v.id in live
    requires call.phase.Rereading? ==> row.Some?
    requires call.phase.Done? ==> row.Some? && call.phase.outcome == Assigned(row.value)
    ensures var effect := Statement(hash, call, row, live, epoch);
      var row' := if effect.inserted.Some? then effect.inserted else row;
      && (effect.inserted.Some? ==> row.None?)
      && (effect.phase.Rereading? ==> row'.Some?)
      && (effect.phase.Done? ==> row'.Some? && effect.phase.outcome == Assigned(row'.value))
  {
    hide Assign;
    ChoiceIsListed(hash(call.key.0, call.key.1), call.variants);
  }

  lemma OnCourseStep(hash: Hash, s: State, a: Action, key: Key)
    requires AllOnCourse(s, key) && BeginsLive(s, a, key) && !Touches(a, key.0)
    ensures AllOnCourse(Step(hash, s, a), key)
  {
    hide Statement;
    var s' := Step(hash, s, a);
    forall v | v in LiveOf(s, key.0) ensures v in LiveOf(s', key.0) {
      BornStays(hash, s, a, v, key.0, EpochOf(s, key.0));
    }
    if a.Advance? && a.caller in s.calls && s.calls[a.caller].key == key {
      var call := s.calls[a.caller];
      assert OnCourse(s, key, call);
      StatementOnCourse(hash, call, RowOf(s, key), LiveOf(s, key.0), EpochOf(s, key.0));
    }
    forall c | c in s'.calls && s'.calls[c].key == key ensures OnCourse(s', key, s'.calls[c]) {
      assert c in s.calls ==> OnCourse(s, key, s.calls[c]);
    }
  }

  /**
    In any interleaving without a replacement of the experiment, if every call for a customer
    starts with variants the experiment has, then every call that has ended has returned a variant,
    and it is the one in the customer's row.
   */
  lemma {:induction false} EveryCallerIsServed(hash: Hash, s: State, actions: seq<Action>, key: Key)
    requires AllOnCourse(s, key) && AllBeginLive(hash, s, actions, key)
    requires forall i :: 0 <= i < |actions| ==> !Touches(actions[i], key.0)
    ensures AllOnCourse(Run(hash, s, actions), key)
    ensures var end := Run(hash, s, actions);
      forall c :: c in end.calls && end.calls[c].key == key && end.calls[c].phase.Done? ==>
        key in end.rows && end.calls[c].phase.outcome == Assigned(end.rows[key])
    decreases |actions|
  {
    if actions != [] {
      OnCourseStep(hash, s, actions[0], key);
      EveryCallerIsServed(hash, Step(hash, s, actions[0]), actions[1..], key);
    } else {
      assert forall c :: c in s.calls && s.calls[c].key == key ==> OnCourse(s, key, s.calls[c]);
    }
  }

  /** Statements a call has yet to run at most. */
  function Remaining(phase: Phase): nat {
    match phase
    case Looking => 3
    case Choosing => 2
    case Rereading(_) => 1
    case Done(_, _) => 0
  }

  /** How many of the actions are statements of `c`. */
  function StatementsOf(actions: seq<Action>, c: Caller): nat {
    if actions == [] then 0 else (if actions[0] == Advance(c) then 1 else 0) + StatementsOf(actions[1..], c)
  }

  /** A call ends after three statements of its own at the latest, whatever the others do in between. */
  lemma {:induction false} ThreeStatementsSuffice(hash: Hash, s: State, actions: seq<Action>, c: Caller)
    requires c in s.calls
    ensures c in Run(hash, s, actions).calls
    ensures Remaining(Run(hash, s, actions).calls[c].phase)
         <= if StatementsOf(actions, c) >= Remaining(s.calls[c].phase) then 0
            else Remaining(s.calls[c].phase) - StatementsOf(actions, c)
    ensures StatementsOf(actions, c) >= 3 ==> Run(hash, s, actions).calls[c].phase.Done?
    decreases |actions|
  {
    hide Assign;
    if actions != [] {
      ThreeStatementsSuffice(hash, Step(hash, s, actions[0]), actions[1..], c);
    }
  }

  // ----- which variant it is -----

  /** Every call and the row of `key` stand for the list `vs`, in whatever order. */
  ghost predicate AllUse(hash: Hash, s: State, key: Key, vs: seq<Variant>) {
    && (key in s.rows ==> Assign(hash(key.0, key.1), vs) == Some(s.rows[key]))
    && (forall c :: c in s.calls && s.calls[c].key == key ==>
          && multiset(s.calls[c].variants) == multiset(vs)
          && (s.calls[c].phase.Done? && s.calls[c].phase.outcome.Assigned? ==>
                Assign(hash(key.0, key.1), vs) == Some(s.calls[c].phase.outcome.variantId)))
  }

  predicate BeginsWith(a: Action, key: Key, vs: seq<Variant>) {
    a.Begin? && a.key == key ==> multiset(a.variants) == multiset(vs)
  }

  /**
    When all calls for a customer carry the same variants, in any order, whoever wins the race
    the customer gets the variant of the hash bucket.
   */
  lemma {:induction false} RaceDoesNotMatter(hash: Hash, s: State, actions: seq<Action>, key: Key, vs: seq<Variant>)
    requires DistinctIds(vs) && AllUse(hash, s, key, vs)
    requires forall i :: 0 <= i < |actions| ==> BeginsWith(actions[i], key, vs)
    ensures AllUse(hash, Run(hash, s, actions), key, vs)
    decreases |actions|
  {
    if actions != [] {
      assert BeginsWith(actions[0], key, vs);
      UseStep(hash, s, actions[0], key, vs);
      RaceDoesNotMatter(hash, Step(hash, s, actions[0]), actions[1..], key, vs);
    }
  }

  lemma UseStep(hash: Hash, s: State, a: Action, key: Key, vs: seq<Variant>)
    requires DistinctIds(vs) && AllUse(hash, s, key, vs) && BeginsWith(a, key, vs)
    ensures AllUse(hash, Step(hash, s, a), key, vs)
  {
    hide Assign, Statement, DistinctIds;
    if a.Advance? && a.caller in s.calls && s.calls[a.caller].key == key {
      var call := s.calls[a.caller];
      StatementUses(hash, call, RowOf(s, key), LiveOf(s, key.0), EpochOf(s, key.0), vs);
    }
  }

  lemma StatementUses(hash: Hash, call: Call, row: Option<int>, live: set<int>, epoch: nat, vs: seq<Variant>)
    requires DistinctIds(vs) && multiset(call.variants) == multiset(vs)
    requires row.Some? ==> row == Assign(hash(call.key.0, call.key.1), vs)
    requires call.phase.Done? && call.phase.outcome.Assigned? ==>
      Assign(hash(call.key.0, call.key.1), vs) == Some(call.phase.outcome.variantId)
    ensures var effect := Statement(hash, call, row, live, epoch);
      && (effect.inserted.Some? ==> effect.inserted == Assign(hash(call.key.0, call.key.1), vs))
      && (effect.phase.Done? && effect.phase.outcome.Assigned? ==>
            Assign(hash(call.key.0, call.key.1), vs) == Some(effect.phase.outcome.variantId))
  {
    hide Assign, DistinctIds;
    AssignIgnoresOrder(hash(call.key.0, call.key.1), vs, call.variants);
  }

  // ----- a replacement does break agreement -----

  lemma RunSnoc(hash: Hash, s: State, actions: seq<Action>, a: Action)
    ensures Run(hash, s, actions + [a]) == Step(hash, Run(hash, s, actions), a)
  {
    RunInTwo(hash, s, actions, [a]);
    assert [a][1..] == [];
  }

  lemma OnlyVariant(bucket: nat, v: Variant)
    ensures Assign(bucket, [v]) == Some(v.id)
  {
    assert [v][..0] == [] && ById([v]) == [v];
  }

  const KEY: Key := (7, 5)

  /** A call that finds no row inserts its own variant. */
  lemma FirstCall(hash: Hash, s: State, actions: seq<Action>, c: Caller, v: Variant) returns (more: seq<Action>)
    requires var w := Run(hash, s, actions);
      c !in w.calls && KEY !in w.rows && v.id in LiveOf(w, KEY.0)
    ensures var w, w' := Run(hash, s, actions), Run(hash, s, more);
      && w'.rows == w.rows[KEY := v.id] && w'.born == w.born && w'.epoch == w.epoch
      && w'.calls == w.calls[c := Call(KEY, [v], Done(Assigned(v.id), EpochOf(w, KEY.0)))]
  {
    OnlyVariant(hash(KEY.0, KEY.1), v);
    RunSnoc(hash, s, actions, Begin(c, KEY, [v]));
    var l1 := actions + [Begin(c, KEY, [v])];
    RunSnoc(hash, s, l1, Advance(c));
    var l2 := l1 + [Advance(c)];
    RunSnoc(hash, s, l2, Advance(c));
    more := l2 + [Advance(c)];
  }

  /** One customer is told two different variants once the experiment has been replaced. */
  lemma ReplacementBreaksAgreement(hash: Hash) returns (s: State, actions: seq<Action>)
    ensures Initial(s) && s.rows == map[]
    ensures Returned(Run(hash, s, actions), 0, KEY, 0, 1)
    ensures Returned(Run(hash, s, actions), 1, KEY, 1, 2)
  {
    s := State(map[], map[1 := (7, 0)], map[], map[]);
    var l1 := FirstCall(hash, s, [], 0, Variant(1, 100));
    RunSnoc(hash, s, l1, DeleteVariants(7));
    var l2 := l1 + [DeleteVariants(7)];
    RunSnoc(hash, s, l2, InsertVariant(7, 2));
    actions := FirstCall(hash, s, l2 + [InsertVariant(7, 2)], 1, Variant(2, 100));
  }

  /** A replacement between a conflicting INSERT and the second SELECT surfaces as an error. */
  lemma ReplacementLosesTheRow(hash: Hash) returns (s: State, actions: seq<Action>)
    ensures Initial(s) && 0 in Run(hash, s, actions).calls
    ensures Run(hash, s, actions).calls[0].phase == Done(DatabaseError, 1)
  {
    var v := Variant(1, 100);
    s := State(map[], map[1 := (7, 0)], map[], map[]);
    OnlyVariant(hash(KEY.0, KEY.1), v);
    RunSnoc(hash, s, [], Begin(0, KEY, [v]));
    var l1 := [] + [Begin(0, KEY, [v])];
    RunSnoc(hash, s, l1, Advance(0));
    var l2 := FirstCall(hash, s, l1 + [Advance(0)], 1, v);
    RunSnoc(hash, s, l2, Advance(0));
    var l3 := l2 + [Advance(0)];
    RunSnoc(hash, s, l3, DeleteVariants(7));
    var l4 := l3 + [DeleteVariants(7)];
    RunSnoc(hash, s, l4, Advance(0));
    actions := l4 + [Advance(0)];
  }
}
