/**
 * The long-horizon benchmark of long_horizon.py: a validator that enforces explicit supersession,
 * a replay that computes the state at each probe, and a scorer.
 */
module LongHorizon {
  import opened Prelude

  datatype Action = Assign | Revoke

  datatype Update = Update(id: string, key: string, action: Action, value: Option<string>, supersedes: Option<string>)

  datatype Turn = Turn(id: string, updates: seq<Update>)

  datatype Probe = Probe(id: string, afterTurn: string)

  datatype Task = Task(id: string, keys: seq<string>, turns: seq<Turn>, probes: seq<Probe>)

  type State = map<string, string>

  /** `action_fields_must_be_consistent`. */
  predicate ValidUpdate(u: Update) {
    if u.action == Assign then u.value.Some? && u.value.value != "" else u.value.None?
  }

  // ---- the declarative reading of a history -----------------------------------------------------

  /** The updates of the first n turns, in order. */
  function History(turns: seq<Turn>, n: nat): seq<Update>
    requires n <= |turns|
  {
    if n == 0 then [] else History(turns, n - 1) + turns[n - 1].updates
  }

  /** Update j sets a value that no later update supersedes. */
  predicate ActiveIn(us: seq<Update>, j: int) {
    && 0 <= j < |us| && us[j].action == Assign
    && forall i :: j < i < |us| ==> us[i].supersedes != Some(us[j].id)
  }

  /** The next update respects the history: a fresh id, a declared key, and an explicit supersession. */
  ghost predicate StepOk(us: seq<Update>, u: Update, keys: set<string>) {
    && (forall j :: 0 <= j < |us| ==> us[j].id != u.id)
    && u.key in keys
    && (forall j :: ActiveIn(us, j) && us[j].key == u.key ==> u.supersedes == Some(us[j].id))
    && ((forall j :: ActiveIn(us, j) ==> us[j].key != u.key) ==> u.action == Assign && u.supersedes == None)
  }

  ghost predicate ValidHistory(us: seq<Update>, keys: set<string>) {
    && (forall k :: 0 <= k < |us| ==> ValidUpdate(us[k]))
    && forall k :: 0 <= k < |us| ==> StepOk(us[..k], us[k], keys)
  }

  /** The state is exactly the values of the active updates. */
  ghost predicate IsState(us: seq<Update>, state: State) {
    && (forall j :: ActiveIn(us, j) ==> us[j].key in state && us[j].value == Some(state[us[j].key]))
    && (forall key :: key in state ==> exists j :: ActiveIn(us, j) && us[j].key == key)
  }

  predicate DeclaredTurn(turns: seq<Turn>, id: string) {
    exists i :: 0 <= i < |turns| && turns[i].id == id
  }

  function TurnIndex(turns: seq<Turn>, id: string): (i: nat)
    requires DeclaredTurn(turns, id)
    ensures i < |turns| && turns[i].id == id
  {
    if turns[0].id == id then 0
    else
      assert turns[1..] == turns[1..] && DeclaredTurn(turns[1..], id) by {
        var i :| 0 <= i < |turns| && turns[i].id == id;
        assert turns[1..][i - 1].id == id;
      }
      1 + TurnIndex(turns[1..], id)
  }

  function KeySet(keys: seq<string>): set<string> {
    set i | 0 <= i < |keys| :: keys[i]
  }

  ghost predicate ValidProbes(turns: seq<Turn>, probes: seq<Probe>) {
    && (forall i, j :: 0 <= i < j < |probes| ==> probes[i].id != probes[j].id)
    && (forall i :: 0 <= i < |probes| ==> DeclaredTurn(turns, probes[i].afterTurn))
    && forall i, j :: 0 <= i < j < |probes| ==>
         TurnIndex(turns, probes[i].afterTurn) <= TurnIndex(turns, probes[j].afterTurn)
  }

  ghost predicate DistinctTurns(turns: seq<Turn>) {
    forall i, j :: 0 <= i < j < |turns| ==> turns[i].id != turns[j].id
  }

  ghost predicate ValidTask(task: Task) {
    && DistinctTurns(task.turns)
    && ValidHistory(History(task.turns, |task.turns|), KeySet(task.keys))
    && ValidProbes(task.turns, task.probes)
  }

  // ---- the validator ------------------------------------------------------------------------------

  datatype Invalid =
    | DuplicateTurn | DuplicateUpdate | UndeclaredKey | SupersedesInactive | MissingSupersession
    | RevokesInactive | DuplicateProbe | UnknownTurn | UnorderedProbes

  /** The validator's `active` dictionary holds exactly the active updates, one a key. */
  ghost predicate Tracks(us: seq<Update>, active: map<string, Update>) {
    && (forall j :: ActiveIn(us, j) ==> us[j].key in active && active[us[j].key] == us[j])
    && (forall key :: key in active ==> exists j :: ActiveIn(us, j) && us[j] == active[key] && us[j].key == key)
  }

  ghost predicate KnowsIds(us: seq<Update>, ids: set<string>) {
    && (forall j :: 0 <= j < |us| ==> us[j].id in ids)
    && forall id :: id in ids ==> exists j :: 0 <= j < |us| && us[j].id == id
  }

  ghost predicate UniqueIds(us: seq<Update>) {
    forall i, j :: 0 <= i < j < |us| ==> us[i].id != us[j].id
  }

  /** One iteration over an update: `active` and the known ids move on, or the step is refused. */
  method CheckUpdate(
    ghost us: seq<Update>, u: Update, keys: set<string>, ids: set<string>, active: map<string, Update>)
    returns (error: Option<Invalid>, active': map<string, Update>)
    requires Tracks(us, active) && KnowsIds(us, ids) && UniqueIds(us)
    ensures error.None? <==> StepOk(us, u, keys)
    ensures error.None? ==> Tracks(us + [u], active')
  {
    active' := active;
    if u.id in ids {
      return Some(DuplicateUpdate), active;
    }
    if u.key !in keys {
      return Some(UndeclaredKey), active;
    }
    if u.key in active {
      ghost var c :| ActiveIn(us, c) && us[c] == active[u.key] && us[c].key == u.key;
      if u.supersedes != Some(active[u.key].id) {
        return Some(MissingSupersession), active;
      }
      if u.action == Assign {
        active' := active[u.key := u];
      } else {
        active' := active - {u.key};
      }
      SupersedingStep(us, u, active, active', c);
    } else {
      assert forall j :: ActiveIn(us, j) ==> us[j].key != u.key;
      if u.action == Revoke {
        return Some(RevokesInactive), active;
      }
      if u.supersedes != None {
        return Some(SupersedesInactive), active;
      }
      active' := active[u.key := u];
      IntroducingStep(us, u, active, active');
    }
    error := None;
  }

  /** What is active after one more update. */
  lemma {:induction false} ActiveAfter(us: seq<Update>, u: Update, j: int)
    ensures ActiveIn(us + [u], j) <==>
              (ActiveIn(us, j) && u.supersedes != Some(us[j].id)) || (j == |us| && u.action == Assign)
  {
    var longer := us + [u];
    if 0 <= j < |us| {
      assert longer[j] == us[j];
      if ActiveIn(us, j) && u.supersedes != Some(us[j].id) {
        forall i | j < i < |longer| ensures longer[i].supersedes != Some(longer[j].id) {
          assert i < |us| ==> longer[i] == us[i];
        }
      }
      if ActiveIn(longer, j) {
        forall i | j < i < |us| ensures us[i].supersedes != Some(us[j].id) {
          assert longer[i] == us[i];
        }
        assert longer[|us|] == u;
      }
    }
  }

  lemma {:induction false} SupersedingStep(
    us: seq<Update>, u: Update, active: map<string, Update>, active': map<string, Update>, c: int)
    requires Tracks(us, active) && UniqueIds(us) && (forall j :: 0 <= j < |us| ==> us[j].id != u.id)
    requires ActiveIn(us, c) && us[c].key == u.key && u.supersedes == Some(us[c].id)
    requires active' == if u.action == Assign then active[u.key := u] else active - {u.key}
    ensures Tracks(us + [u], active')
  {
    var longer := us + [u];
    forall j | ActiveIn(longer, j) ensures longer[j].key in active' && active'[longer[j].key] == longer[j] {
      ActiveAfter(us, u, j);
      if j < |us| {
        assert us[j].key in active && active[us[j].key] == us[j];
        assert us[c].key in active && active[us[c].key] == us[c];
      }
    }
    forall key | key in active'
      ensures exists j :: ActiveIn(longer, j) && longer[j] == active'[key] && longer[j].key == key
    {
      if key == u.key {
        ActiveAfter(us, u, |us|);
        assert longer[|us|] == active'[key];
      } else {
        var j :| ActiveIn(us, j) && us[j] == active[key] && us[j].key == key;
        assert j != c;
        ActiveAfter(us, u, j);
        assert longer[j] == us[j];
      }
    }
  }

  lemma {:induction false} IntroducingStep(
    us: seq<Update>, u: Update, active: map<string, Update>, active': map<string, Update>)
    requires Tracks(us, active) && u.key !in active && u.action == Assign && u.supersedes == None
    requires active' == active[u.key := u]
    ensures Tracks(us + [u], active')
  {
    var longer := us + [u];
    forall j | ActiveIn(longer, j) ensures longer[j].key in active' && active'[longer[j].key] == longer[j] {
      ActiveAfter(us, u, j);
      if j < |us| {
        assert us[j].key in active && active[us[j].key] == us[j];
      }
    }
    forall key | key in active'
      ensures exists j :: ActiveIn(longer, j) && longer[j] == active'[key] && longer[j].key == key
    {
      if key == u.key {
        ActiveAfter(us, u, |us|);
        assert longer[|us|] == active'[key];
      } else {
        var j :| ActiveIn(us, j) && us[j] == active[key] && us[j].key == key;
        ActiveAfter(us, u, j);
        assert longer[j] == us[j];
      }
    }
  }

  /** The steps taken so far are all in order. */
  ghost predicate StepsOk(us: seq<Update>, keys: set<string>) {
    forall k :: 0 <= k < |us| ==> StepOk(us[..k], us[k], keys)
  }

  lemma {:induction false} StepsAppend(us: seq<Update>, u: Update, keys: set<string>)
    requires StepsOk(us, keys) && StepOk(us, u, keys)
    ensures StepsOk(us + [u], keys)
  {
    var longer := us + [u];
    forall k | 0 <= k < |longer| ensures StepOk(longer[..k], longer[k], keys) {
      assert longer[..k] == if k < |us| then us[..k] else us;
    }
  }

  lemma {:induction false} StepsGiveUniqueIds(us: seq<Update>, keys: set<string>)
    requires StepsOk(us, keys)
    ensures UniqueIds(us)
  {
    forall i, j | 0 <= i < j < |us| ensures us[i].id != us[j].id {
      assert StepOk(us[..j], us[j], keys);
      assert us[..j][i] == us[i];
    }
  }

  /** A bad step stays bad however the history goes on. */
  lemma {:induction false} BadStepSpoils(us: seq<Update>, u: Update, more: seq<Update>, keys: set<string>)
    requires !StepOk(us, u, keys)
    ensures !StepsOk(us + [u] + more, keys)
  {
    var all := us + [u] + more;
    assert all[..|us|] == us && all[|us|] == u;
  }

  /** What the turn loop has established after n turns and m updates of the next one. */
  ghost predicate Validated(us: seq<Update>, keys: set<string>, ids: set<string>, active: map<string, Update>) {
    StepsOk(us, keys) && KnowsIds(us, ids) && Tracks(us, active)
  }

  /** The body of the inner loop. */
  method CheckNext(ghost us: seq<Update>, u: Update, keys: set<string>, ids: set<string>, active: map<string, Update>)
    returns (error: Option<Invalid>, ids': set<string>, active': map<string, Update>)
    requires Validated(us, keys, ids, active)
    ensures error.None? ==> Validated(us + [u], keys, ids', active')
    ensures error.Some? ==> !StepOk(us, u, keys)
  {
    StepsGiveUniqueIds(us, keys);
    error, active' := CheckUpdate(us, u, keys, ids, active);
    ids' := ids + {u.id};
    if error.None? {
      StepTaken(us, u, keys, ids, active');
    }
  }

  lemma {:induction false} StepTaken(
    us: seq<Update>, u: Update, keys: set<string>, ids: set<string>, next: map<string, Update>)
    requires StepsOk(us, keys) && KnowsIds(us, ids) && StepOk(us, u, keys) && Tracks(us + [u], next)
    ensures Validated(us + [u], keys, ids + {u.id}, next)
  {
    StepsAppend(us, u, keys);
    IdsGrow(us, u, ids);
  }

  /** The inner loop: the updates of one turn. */
  method CheckUpdates(
    ghost us: seq<Update>, updates: seq<Update>, keys: set<string>, ids: set<string>, active: map<string, Update>)
    returns (error: Option<Invalid>, ids': set<string>, active': map<string, Update>)
    requires Validated(us, keys, ids, active)
    ensures error.None? ==> Validated(us + updates, keys, ids', active')
    ensures error.Some? ==> NeverValid(us + updates, keys)
  {
    ids', active' := ids, active;
    assert us + updates[..0] == us;
    for m := 0 to |updates|
      invariant Validated(us + updates[..m], keys, ids', active')
    {
      SliceOfSum(us, updates, m);
      error, ids', active' := CheckNext(us + updates[..m], updates[m], keys, ids', active');
      if error.Some? {
        BadUpdateSpoilsTurn(us, updates, m, keys);
        return;
      }
    }
    assert updates[..|updates|] == updates;
    error := None;
  }

  /** However the history goes on, it has a bad step. */
  ghost predicate NeverValid(us: seq<Update>, keys: set<string>) {
    forall more :: !StepsOk(us + more, keys)
  }

  lemma {:induction false} BadUpdateSpoilsTurn(us: seq<Update>, updates: seq<Update>, m: nat, keys: set<string>)
    requires m < |updates| && !StepOk(us + updates[..m], updates[m], keys)
    ensures NeverValid(us + updates, keys)
  {
    forall more ensures !StepsOk(us + updates + more, keys) {
      BadStepSpoils(us + updates[..m], updates[m], updates[m + 1..] + more, keys);
      assert us + updates + more == us + updates[..m] + [updates[m]] + (updates[m + 1..] + more);
    }
  }

  lemma {:induction false} IdsGrow(us: seq<Update>, u: Update, ids: set<string>)
    requires KnowsIds(us, ids)
    ensures KnowsIds(us + [u], ids + {u.id})
  {
    var longer := us + [u];
    forall id | id in ids + {u.id} ensures exists j :: 0 <= j < |longer| && longer[j].id == id {
      if id in ids {
        var j :| 0 <= j < |us| && us[j].id == id;
        assert longer[j].id == id;
      } else {
        assert longer[|us|].id == id;
      }
    }
  }

  lemma {:induction false} HistoryExtends(turns: seq<Turn>, n: nat) returns (more: seq<Update>)
    requires n <= |turns|
    ensures History(turns, |turns|) == History(turns, n) + more
    decreases |turns| - n
  {
    if n == |turns| {
      more := [];
      assert History(turns, n) + [] == History(turns, n);
    } else {
      more := HistoryExtends(turns, n + 1);
      more := turns[n].updates + more;
    }
  }

  /** The dictionary of turn ids built by the first loop. */
  ghost predicate IndexesTurns(turns: seq<Turn>, n: nat, turnIds: map<string, int>)
    requires n <= |turns|
  {
    && (forall i :: 0 <= i < n ==> turns[i].id in turnIds && turnIds[turns[i].id] == i)
    && forall id :: id in turnIds ==> 0 <= turnIds[id] < n && turns[turnIds[id]].id == id
  }

  /** What the turn loop has established after n turns. */
  ghost predicate TurnsChecked(
    turns: seq<Turn>, n: nat, keys: set<string>, turnIds: map<string, int>, ids: set<string>,
    active: map<string, Update>)
  {
    && n <= |turns| && IndexesTurns(turns, n, turnIds) && Validated(History(turns, n), keys, ids, active)
    && forall i, j :: 0 <= i < j < n ==> turns[i].id != turns[j].id
  }

  lemma {:induction false} BadTurnSpoils(turns: seq<Turn>, n: nat, keys: set<string>)
    requires n < |turns| && NeverValid(History(turns, n) + turns[n].updates, keys)
    ensures !StepsOk(History(turns, |turns|), keys)
  {
    var more := HistoryExtends(turns, n + 1);
    assert History(turns, n + 1) == History(turns, n) + turns[n].updates;
    assert !StepsOk(History(turns, n) + turns[n].updates + more, keys);
  }

  /** The body of the turn loop. */
  method CheckTurn(
    turns: seq<Turn>, n: nat, keys: set<string>, turnIds: map<string, int>, ids: set<string>,
    active: map<string, Update>)
    returns (error: Option<Invalid>, ids': set<string>, active': map<string, Update>)
    requires n < |turns| && TurnsChecked(turns, n, keys, turnIds, ids, active)
    ensures error.None? ==> TurnsChecked(turns, n + 1, keys, turnIds[turns[n].id := n], ids', active')
    ensures error.Some? ==> !DistinctTurns(turns) || !StepsOk(History(turns, |turns|), keys)
  {
    if turns[n].id in turnIds {
      assert turns[turnIds[turns[n].id]].id == turns[n].id;
      return Some(DuplicateTurn), ids, active;
    }
    error, ids', active' := CheckUpdates(History(turns, n), turns[n].updates, keys, ids, active);
    if error.Some? {
      BadTurnSpoils(turns, n, keys);
    }
  }

  /** `state_transitions_and_probes_must_be_valid`. */
  method ValidateTask(task: Task) returns (error: Option<Invalid>)
    requires forall i, j :: 0 <= i < |task.turns| && 0 <= j < |task.turns[i].updates| ==>
               ValidUpdate(task.turns[i].updates[j])
    ensures error.None? <==> ValidTask(task)
  {
    HistoryIsWellTyped(task.turns, |task.turns|);
    var turnIds;
    error, turnIds := ValidateTurns(task.turns, KeySet(task.keys));
    if error.None? {
      error := ValidateProbes(task.turns, task.probes, turnIds);
    }
  }

  method ValidateTurns(turns: seq<Turn>, keys: set<string>) returns (error: Option<Invalid>, turnIds: map<string, int>)
    ensures error.None? <==> DistinctTurns(turns) && StepsOk(History(turns, |turns|), keys)
    ensures error.None? ==> IndexesTurns(turns, |turns|, turnIds)
  {
    turnIds := map[];
    var ids: set<string> := {};
    var active: map<string, Update> := map[];
    for n := 0 to |turns|
      invariant TurnsChecked(turns, n, keys, turnIds, ids, active)
    {
      error, ids, active := CheckTurn(turns, n, keys, turnIds, ids, active);
      if error.Some? {
        return;
      }
      turnIds := turnIds[turns[n].id := n];
    }
    error := None;
  }

  lemma {:induction false} HistoryIsWellTyped(turns: seq<Turn>, n: nat)
    requires n <= |turns|
    requires forall i, j :: 0 <= i < |turns| && 0 <= j < |turns[i].updates| ==> ValidUpdate(turns[i].updates[j])
    ensures forall k :: 0 <= k < |History(turns, n)| ==> ValidUpdate(History(turns, n)[k])
  {
    if n > 0 {
      HistoryIsWellTyped(turns, n - 1);
    }
  }

  /** The state of the second loop before the n-th probe. */
  ghost predicate Checked(turns: seq<Turn>, probes: seq<Probe>, n: nat, ids: set<string>, previous: int) {
    && n <= |probes| && ValidProbes(turns, probes[..n]) && ids == ProbeIds(probes[..n])
    && (n == 0 ==> previous == -1)
    && (n > 0 ==> DeclaredTurn(turns, probes[n - 1].afterTurn) && previous == TurnIndex(turns, probes[n - 1].afterTurn))
  }

  lemma {:induction false} ProbeChecked(turns: seq<Turn>, probes: seq<Probe>, n: nat, ids: set<string>, previous: int)
    requires Checked(turns, probes, n, ids, previous) && n < |probes|
    requires probes[n].id !in ids && DeclaredTurn(turns, probes[n].afterTurn)
    requires previous <= TurnIndex(turns, probes[n].afterTurn)
    ensures Checked(turns, probes, n + 1, ids + {probes[n].id}, TurnIndex(turns, probes[n].afterTurn))
  {
    FreshProbe(probes, n);
    ProbesGrow(turns, probes, n);
    assert probes[..n + 1] == probes[..n] + [probes[n]];
  }

  lemma {:induction false} BadProbeSpoils(turns: seq<Turn>, probes: seq<Probe>, n: nat, ids: set<string>, previous: int)
    requires Checked(turns, probes, n, ids, previous) && n < |probes|
    requires probes[n].id in ids || !DeclaredTurn(turns, probes[n].afterTurn)
             || TurnIndex(turns, probes[n].afterTurn) < previous
    ensures !ValidProbes(turns, probes)
  {
    if probes[n].id in ids {
      RepeatedProbe(probes, n);
    }
  }

  /** The second loop of the validator. */
  method ValidateProbes(
    turns: seq<Turn>, probes: seq<Probe>, turnIds: map<string, int>) returns (error: Option<Invalid>)
    requires IndexesTurns(turns, |turns|, turnIds) && DistinctTurns(turns)
    ensures error.None? <==> ValidProbes(turns, probes)
  {
    var probeIds: set<string> := {};
    var previous := -1;
    for n := 0 to |probes|
      invariant Checked(turns, probes, n, probeIds, previous)
    {
      LookupTurn(turns, turnIds, probes[n].afterTurn);
      if probes[n].id in probeIds {
        BadProbeSpoils(turns, probes, n, probeIds, previous);
        return Some(DuplicateProbe);
      }
      if probes[n].afterTurn !in turnIds {
        BadProbeSpoils(turns, probes, n, probeIds, previous);
        return Some(UnknownTurn);
      }
      var at := turnIds[probes[n].afterTurn];
      if at < previous {
        BadProbeSpoils(turns, probes, n, probeIds, previous);
        return Some(UnorderedProbes);
      }
      ProbeChecked(turns, probes, n, probeIds, previous);
      probeIds := probeIds + {probes[n].id};
      previous := at;
    }
    assert probes[..|probes|] == probes;
    return None;
  }

  function ProbeIds(probes: seq<Probe>): set<string> {
    set i | 0 <= i < |probes| :: probes[i].id
  }

  lemma {:induction false} LookupTurn(turns: seq<Turn>, turnIds: map<string, int>, id: string)
    requires IndexesTurns(turns, |turns|, turnIds) && DistinctTurns(turns)
    ensures id in turnIds <==> DeclaredTurn(turns, id)
    ensures id in turnIds ==> turnIds[id] == TurnIndex(turns, id)
  {
    if id in turnIds {
      assert turns[turnIds[id]].id == id;
    }
  }

  lemma {:induction false} RepeatedProbe(probes: seq<Probe>, n: nat)
    requires n < |probes| && probes[n].id in ProbeIds(probes[..n])
    ensures exists i :: 0 <= i < n && probes[i].id == probes[n].id
  {
    var i :| 0 <= i < n && probes[..n][i].id == probes[n].id;
    assert probes[i].id == probes[n].id;
  }

  lemma {:induction false} FreshProbe(probes: seq<Probe>, n: nat)
    requires n < |probes| && probes[n].id !in ProbeIds(probes[..n])
    ensures forall i :: 0 <= i < n ==> probes[i].id != probes[n].id
  {
    forall i | 0 <= i < n ensures probes[i].id != probes[n].id {
      assert probes[..n][i].id in ProbeIds(probes[..n]);
    }
  }

  lemma {:induction false} ProbesGrow(turns: seq<Turn>, probes: seq<Probe>, n: nat)
    requires n < |probes| && ValidProbes(turns, probes[..n])
    requires DeclaredTurn(turns, probes[n].afterTurn)
    requires forall i :: 0 <= i < n ==> probes[i].id != probes[n].id
    requires n > 0 ==>
               (DeclaredTurn(turns, probes[n - 1].afterTurn) &&
                TurnIndex(turns, probes[n - 1].afterTurn) <= TurnIndex(turns, probes[n].afterTurn))
    ensures ValidProbes(turns, probes[..n + 1])
  {
    var before, after := probes[..n], probes[..n + 1];
    assert forall i :: 0 <= i < n ==> after[i] == before[i];
    assert n > 0 ==> before[n - 1] == probes[n - 1];
  }

  // ---- supersession is unambiguous ----------------------------------------------------------------

  /** An update that supersedes does so to an active update of its own key. */
  lemma {:induction false} SupersedesAnActiveUpdate(us: seq<Update>, keys: set<string>, k: nat)
    requires StepsOk(us, keys) && k < |us| && us[k].supersedes.Some?
    ensures exists j :: ActiveIn(us[..k], j) && us[j].key == us[k].key && us[k].supersedes == Some(us[j].id)
  {
    var prefix := us[..k];
    assert StepOk(prefix, us[k], keys);
    var j :| ActiveIn(prefix, j) && prefix[j].key == us[k].key;
    assert prefix[j] == us[j];
  }

  /** In a validated history each update is superseded at most once, and only by a later one. */
  lemma {:induction false} SupersededAtMostOnce(us: seq<Update>, keys: set<string>, i: nat, j: nat)
    requires StepsOk(us, keys) && i < j < |us| && us[i].supersedes.Some?
    ensures us[i].supersedes != us[j].supersedes
  {
    StepsGiveUniqueIds(us, keys);
    SupersedesAnActiveUpdate(us, keys, i);
    var c :| ActiveIn(us[..i], c) && us[c].key == us[i].key && us[i].supersedes == Some(us[c].id);
    if us[j].supersedes.Some? {
      SupersedesAnActiveUpdate(us, keys, j);
      var d :| ActiveIn(us[..j], d) && us[d].key == us[j].key && us[j].supersedes == Some(us[d].id);
      assert us[..j][i] == us[i] && us[..j][c] == us[c];
      assert !ActiveIn(us[..j], c);
    }
  }

  /** A later update of the same key leaves no earlier one active. */
  lemma {:induction false} EarlierIsSuperseded(us: seq<Update>, keys: set<string>, i: int, j: int)
    requires StepsOk(us, keys) && 0 <= i < j < |us| && us[i].key == us[j].key
    ensures !ActiveIn(us, i)
  {
    var prefix := us[..j];
    assert StepOk(prefix, us[j], keys) && prefix[i] == us[i];
    if us[i].action == Assign && !ActiveIn(prefix, i) {
      var m :| i < m < j && prefix[m].supersedes == Some(prefix[i].id);
      assert us[m] == prefix[m];
    }
  }

  /** At most one active update a key, at every point of a validated history. */
  lemma {:induction false} OneActivePerKey(us: seq<Update>, keys: set<string>, i: int, j: int)
    requires StepsOk(us, keys) && ActiveIn(us, i) && ActiveIn(us, j) && us[i].key == us[j].key
    ensures i == j
  {
    if i < j {
      EarlierIsSuperseded(us, keys, i, j);
    } else if j < i {
      EarlierIsSuperseded(us, keys, j, i);
    }
  }

  // ---- replay ---------------------------------------------------------------------------------------

  /** One update of the replay in `_expected_probe_states`. */
  function Replayed(state: State, u: Update): State
    requires ValidUpdate(u)
  {
    if u.action == Assign then state[u.key := u.value.value] else state - {u.key}
  }

  /** The replay of one update keeps the state equal to the declarative reading. */
  lemma {:induction false} ReplayStep(us: seq<Update>, u: Update, keys: set<string>, state: State)
    requires StepsOk(us, keys) && StepOk(us, u, keys) && ValidUpdate(u) && IsState(us, state)
    ensures IsState(us + [u], Replayed(state, u))
  {
    var longer, next := us + [u], Replayed(state, u);
    forall j | ActiveIn(longer, j) ensures longer[j].key in next && longer[j].value == Some(next[longer[j].key]) {
      ActiveAfter(us, u, j);
      if j < |us| {
        assert longer[j] == us[j] && us[j].key in state;
      }
    }
    forall key | key in next ensures exists j :: ActiveIn(longer, j) && longer[j].key == key {
      if key == u.key {
        ActiveAfter(us, u, |us|);
        assert longer[|us|].key == key;
      } else {
        var j :| ActiveIn(us, j) && us[j].key == key;
        if u.supersedes == Some(us[j].id) {
          SupersedesItsOwnKey(us, u, keys, j);
        }
        ActiveAfter(us, u, j);
        assert longer[j] == us[j];
      }
    }
  }

  lemma {:induction false} SupersedesItsOwnKey(us: seq<Update>, u: Update, keys: set<string>, j: int)
    requires StepsOk(us, keys) && StepOk(us, u, keys) && ActiveIn(us, j) && u.supersedes == Some(us[j].id)
    ensures us[j].key == u.key
  {
    StepsGiveUniqueIds(us, keys);
    var c :| ActiveIn(us, c) && us[c].key == u.key;
    assert us[c].id == us[j].id;
  }

  /** There is one such state: the reading is a definition, not a bound. */
  lemma {:induction false} StateIsUnique(us: seq<Update>, a: State, b: State)
    requires IsState(us, a) && IsState(us, b)
    ensures a == b
  {
    forall key ensures key in a <==> key in b
                ensures key in a ==> a[key] == b[key] {
      if key in a {
        var j :| ActiveIn(us, j) && us[j].key == key;
        assert us[j].value == Some(a[key]) && us[j].value == Some(b[key]);
      }
      if key in b {
        var j :| ActiveIn(us, j) && us[j].key == key;
      }
    }
    assert a.Keys == b.Keys;
  }

  /** The probes placed after one turn, in order. */
  function ProbesAfter(probes: seq<Probe>, turn: string): seq<Probe> {
    if probes == [] then []
    else
      var n := |probes| - 1;
      ProbesAfter(probes[..n], turn) + (if probes[n].afterTurn == turn then [probes[n]] else [])
  }

  lemma {:induction false} ProbesAfterMembers(probes: seq<Probe>, turn: string, p: Probe)
    ensures p in ProbesAfter(probes, turn) <==> p in probes && p.afterTurn == turn
  {
    if probes != [] {
      var n := |probes| - 1;
      ProbesAfterMembers(probes[..n], turn, p);
      assert probes == probes[..n] + [probes[n]];
    }
  }

  ghost predicate Groups(byTurn: map<string, seq<Probe>>, probes: seq<Probe>) {
    forall turn :: GroupOf(byTurn, turn) == ProbesAfter(probes, turn)
  }

  /** `probes_by_turn.setdefault(probe.after_turn_id, []).append(probe)`. */
  method GroupProbes(probes: seq<Probe>) returns (byTurn: map<string, seq<Probe>>)
    ensures Groups(byTurn, probes)
  {
    byTurn := map[];
    for n := 0 to |probes|
      invariant Groups(byTurn, probes[..n])
    {
      var turn := probes[n].afterTurn;
      assert probes[..n + 1][..n] == probes[..n];
      byTurn := byTurn[turn := GroupOf(byTurn, turn) + [probes[n]]];
    }
    assert probes[..|probes|] == probes;
  }

  /** The state at a probe is what the history up to and including its turn says. */
  ghost predicate AtProbe(task: Task, p: Probe, state: State) {
    && DeclaredTurn(task.turns, p.afterTurn)
    && IsState(History(task.turns, TurnIndex(task.turns, p.afterTurn) + 1), state)
  }

  ghost predicate RecordedFor(task: Task, p: Probe, id: string, state: State) {
    p in task.probes && p.id == id && AtProbe(task, p, state)
  }

  /** Nothing is recorded but the states of probes of this task. */
  ghost predicate OnlyProbes(task: Task, expected: map<string, State>) {
    forall id :: id in expected ==> exists p :: RecordedFor(task, p, id, expected[id])
  }

  /** The probes placed within the first n turns are recorded. */
  ghost predicate Recorded(task: Task, n: nat, expected: map<string, State>)
    requires n <= |task.turns|
  {
    forall p :: p in task.probes && DeclaredTurn(task.turns[..n], p.afterTurn) ==> p.id in expected
  }

  lemma {:induction false} SliceOfSum<T>(xs: seq<T>, ys: seq<T>, m: nat)
    requires m < |ys|
    ensures (xs + ys)[..|xs| + m] == xs + ys[..m] && (xs + ys)[|xs| + m] == ys[m]
    ensures xs + ys[..m + 1] == xs + ys[..m] + [ys[m]]
  {
  }

  lemma {:induction false} StepAt(all: seq<Update>, before: seq<Update>, u: Update, keys: set<string>)
    requires ValidHistory(all, keys) && |before| < |all| && before == all[..|before|] && u == all[|before|]
    ensures StepsOk(before, keys) && StepOk(before, u, keys) && ValidUpdate(u)
  {
    PrefixSteps(all, |before|, keys);
  }

  lemma {:induction false} StepsOfTurn(us: seq<Update>, updates: seq<Update>, m: nat, keys: set<string>)
    requires ValidHistory(us + updates, keys) && m < |updates|
    ensures StepsOk(us + updates[..m], keys) && StepOk(us + updates[..m], updates[m], keys) && ValidUpdate(updates[m])
  {
    SliceOfSum(us, updates, m);
    StepAt(us + updates, us + updates[..m], updates[m], keys);
  }

  lemma {:induction false} ReplayTurnStep(
    us: seq<Update>, updates: seq<Update>, m: nat, keys: set<string>, state: State)
    requires ValidHistory(us + updates, keys) && m < |updates| && IsState(us + updates[..m], state)
    ensures ValidUpdate(updates[m])
    ensures IsState(us + updates[..m + 1], Replayed(state, updates[m]))
  {
    SliceOfSum(us, updates, m);
    StepsOfTurn(us, updates, m, keys);
    ReplayStep(us + updates[..m], updates[m], keys, state);
  }

  /** The inner replay loop over the updates of one turn. */
  method ReplayTurn(
    ghost us: seq<Update>, updates: seq<Update>, ghost keys: set<string>, state: State) returns (next: State)
    requires ValidHistory(us + updates, keys) && IsState(us, state)
    ensures IsState(us + updates, next)
  {
    next := state;
    assert us + updates[..0] == us;
    for m := 0 to |updates|
      invariant IsState(us + updates[..m], next)
    {
      ReplayTurnStep(us, updates, m, keys, next);
      if updates[m].action == Assign {
        next := next[updates[m].key := updates[m].value.value];
      } else {
        next := next - {updates[m].key};
      }
    }
    assert updates[..|updates|] == updates;
  }

  lemma {:induction false} PrefixSteps(us: seq<Update>, n: nat, keys: set<string>)
    requires ValidHistory(us, keys) && n <= |us|
    ensures ValidHistory(us[..n], keys)
    ensures n < |us| ==> StepOk(us[..n], us[n], keys) && ValidUpdate(us[n])
  {
    forall k | 0 <= k < n ensures StepOk(us[..n][..k], us[..n][k], keys) {
      assert us[..n][..k] == us[..k];
    }
  }

  lemma {:induction false} HistoryPrefixValid(turns: seq<Turn>, n: nat, keys: set<string>)
    requires ValidHistory(History(turns, |turns|), keys) && n <= |turns|
    ensures ValidHistory(History(turns, n), keys)
  {
    var more := HistoryExtends(turns, n);
    var all := History(turns, |turns|);
    PrefixSteps(all, |History(turns, n)|, keys);
    assert all[..|History(turns, n)|] == History(turns, n);
  }

  /** Every probe, and nothing else, is given the state its history defines. */
  ghost predicate ExpectedStates(task: Task, expected: map<string, State>) {
    && expected.Keys == ProbeIds(task.probes)
    && forall i :: 0 <= i < |task.probes| ==>
         task.probes[i].id in expected && AtProbe(task, task.probes[i], expected[task.probes[i].id])
  }

  /** `_expected_probe_states`. */
  method ExpectedProbeStates(task: Task) returns (expected: map<string, State>)
    requires ValidTask(task)
    ensures ExpectedStates(task, expected)
  {
    var byTurn := GroupProbes(task.probes);
    var state: State := map[];
    expected := map[];
    NothingReplayed(task);
    for n := 0 to |task.turns|
      invariant Reached(task, n, state, expected)
    {
      state := ReplayOneTurn(task, n, state);
      expected := RecordProbes(task, n, byTurn, state, expected);
    }
    RecordsAll(task, expected);
  }

  /** `probes_by_turn.get(turn, [])`. */
  function GroupOf(byTurn: map<string, seq<Probe>>, turn: string): seq<Probe> {
    if turn in byTurn then byTurn[turn] else []
  }

  /** What the replay has established after n turns. */
  ghost predicate Reached(task: Task, n: nat, state: State, expected: map<string, State>) {
    && n <= |task.turns| && IsState(History(task.turns, n), state)
    && OnlyProbes(task, expected) && Recorded(task, n, expected)
  }

  lemma {:induction false} NothingReplayed(task: Task)
    ensures Reached(task, 0, map[], map[])
  {
  }

  method ReplayOneTurn(task: Task, n: nat, state: State) returns (next: State)
    requires ValidHistory(History(task.turns, |task.turns|), KeySet(task.keys)) && n < |task.turns|
    requires IsState(History(task.turns, n), state)
    ensures IsState(History(task.turns, n + 1), next)
  {
    HistoryPrefixValid(task.turns, n + 1, KeySet(task.keys));
    next := ReplayTurn(History(task.turns, n), task.turns[n].updates, KeySet(task.keys), state);
  }

  /** The inner loop that stores the current state for the probes after turn n. */
  method RecordProbes(task: Task, n: nat, byTurn: map<string, seq<Probe>>, state: State, before: map<string, State>)
    returns (expected: map<string, State>)
    requires DistinctTurns(task.turns) && n < |task.turns| && Groups(byTurn, task.probes)
    requires IsState(History(task.turns, n + 1), state)
    requires OnlyProbes(task, before) && Recorded(task, n, before)
    ensures OnlyProbes(task, expected) && Recorded(task, n + 1, expected)
  {
    var here := GroupOf(byTurn, task.turns[n].id);
    forall p | p in here ensures RecordedFor(task, p, p.id, state) {
      ProbeHere(task, n, p, state);
    }
    expected := RecordAll(task, here, state, before);
    TurnIsRecorded(task, n, here, before, expected);
  }

  method RecordAll(ghost task: Task, here: seq<Probe>, state: State, before: map<string, State>)
    returns (expected: map<string, State>)
    requires forall p :: p in here ==> RecordedFor(task, p, p.id, state)
    requires OnlyProbes(task, before)
    ensures OnlyProbes(task, expected) && before.Keys <= expected.Keys
    ensures forall p :: p in here ==> p.id in expected
  {
    expected := before;
    for m := 0 to |here|
      invariant before.Keys <= expected.Keys
      invariant forall i :: 0 <= i < m ==> here[i].id in expected
      invariant OnlyProbes(task, expected)
    {
      OnlyProbesGrow(task, here[m], state, expected);
      expected := expected[here[m].id := state];
    }
  }

  lemma {:induction false} OnlyProbesGrow(task: Task, p: Probe, state: State, expected: map<string, State>)
    requires OnlyProbes(task, expected) && RecordedFor(task, p, p.id, state)
    ensures OnlyProbes(task, expected[p.id := state])
  {
    var grown := expected[p.id := state];
    forall id | id in grown ensures exists q :: RecordedFor(task, q, id, grown[id]) {
      if id == p.id {
        assert RecordedFor(task, p, id, grown[id]);
      } else {
        var q :| RecordedFor(task, q, id, expected[id]);
        assert RecordedFor(task, q, id, grown[id]);
      }
    }
  }

  lemma {:induction false} TurnIsRecorded(
    task: Task, n: nat, here: seq<Probe>, before: map<string, State>, expected: map<string, State>)
    requires n < |task.turns| && here == ProbesAfter(task.probes, task.turns[n].id)
    requires Recorded(task, n, before) && before.Keys <= expected.Keys
    requires forall p :: p in here ==> p.id in expected
    ensures Recorded(task, n + 1, expected)
  {
    forall p | p in task.probes && DeclaredTurn(task.turns[..n + 1], p.afterTurn) ensures p.id in expected {
      LastDeclared(task.turns, n, p.afterTurn);
      ProbesAfterMembers(task.probes, task.turns[n].id, p);
    }
  }

  lemma {:induction false} ProbeHere(task: Task, n: nat, p: Probe, state: State)
    requires DistinctTurns(task.turns) && n < |task.turns| && p in ProbesAfter(task.probes, task.turns[n].id)
    requires IsState(History(task.turns, n + 1), state)
    ensures RecordedFor(task, p, p.id, state)
  {
    ProbesAfterMembers(task.probes, task.turns[n].id, p);
    assert task.turns[n].id == p.afterTurn;
    assert TurnIndex(task.turns, p.afterTurn) == n;
  }

  lemma {:induction false} LastDeclared(turns: seq<Turn>, n: nat, id: string)
    requires n < |turns| && DeclaredTurn(turns[..n + 1], id)
    ensures DeclaredTurn(turns[..n], id) || turns[n].id == id
  {
    var i :| 0 <= i < n + 1 && turns[..n + 1][i].id == id;
    if i < n {
      assert turns[..n][i].id == id;
    }
  }

  lemma {:induction false} RecordsOne(task: Task, expected: map<string, State>, i: nat)
    requires ValidProbes(task.turns, task.probes) && i < |task.probes|
    requires OnlyProbes(task, expected) && Recorded(task, |task.turns|, expected)
    ensures task.probes[i].id in expected && AtProbe(task, task.probes[i], expected[task.probes[i].id])
  {
    assert task.turns[..|task.turns|] == task.turns;
    var p := task.probes[i];
    assert p in task.probes;
    var q :| RecordedFor(task, q, p.id, expected[p.id]);
    SameProbe(task, q, i);
  }

  lemma {:induction false} RecordsNothingElse(task: Task, expected: map<string, State>)
    requires OnlyProbes(task, expected)
    ensures expected.Keys <= ProbeIds(task.probes)
  {
    forall id | id in expected ensures id in ProbeIds(task.probes) {
      var q :| RecordedFor(task, q, id, expected[id]);
      var j :| 0 <= j < |task.probes| && task.probes[j] == q;
    }
  }

  lemma {:induction false} RecordsAll(task: Task, expected: map<string, State>)
    requires ValidProbes(task.turns, task.probes)
    requires OnlyProbes(task, expected) && Recorded(task, |task.turns|, expected)
    ensures ExpectedStates(task, expected)
  {
    forall i | 0 <= i < |task.probes|
      ensures task.probes[i].id in expected && AtProbe(task, task.probes[i], expected[task.probes[i].id])
    {
      RecordsOne(task, expected, i);
    }
    RecordsNothingElse(task, expected);
    assert expected.Keys == ProbeIds(task.probes);
  }

  lemma {:induction false} SameProbe(task: Task, q: Probe, i: nat)
    requires ValidProbes(task.turns, task.probes) && i < |task.probes|
    requires q in task.probes && q.id == task.probes[i].id
    ensures q == task.probes[i]
  {
    var j :| 0 <= j < |task.probes| && task.probes[j] == q;
    assert i == j;
  }
}
