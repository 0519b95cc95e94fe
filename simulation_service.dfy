/**
 * The aggregate-count engine: one vehicle count for the whole junction,
 * three light phases (green, yellow, red), three traffic states, and a
 * pure per-tick transition that moves the count, the waiting time and the
 * speed, rewards the result, picks the next phase and updates the Q-table.
 */
module SimulationService {
  import opened Wrappers
  import opened Records
  import opened QTable

  datatype TrafficLightPhase = TrafficLightPhase(id: nat, name: string, duration: int, color: string)

  const TrafficLightPhases: seq<TrafficLightPhase> := [
    TrafficLightPhase(0, "Green", 82, "#4ade80"),
    TrafficLightPhase(1, "Yellow", 3, "#facc15"),
    TrafficLightPhase(2, "Red", 5, "#ef4444")
  ]

  const States: seq<string> := ["low_traffic", "medium_traffic", "high_traffic"]

  const Actions: seq<nat> := [0, 1, 2]

  // ---------------------------------------------------------------------
  // The initial Q-table and state
  // ---------------------------------------------------------------------

  /** The key the loop body writes for the `i`-th state and the `a`-th action. */
  function KeyOf(i: nat, a: nat): string
    requires i < 3 && a < 3
  {
    ActionKey(States[i], Actions[a])
  }

  /** The loops stand at state `i` and action `a`, or have finished (`i == 3`). */
  ghost predicate LoopPoint(i: nat, a: nat)
  {
    (i < 3 && a <= 3) || (i == 3 && a == 0)
  }

  /** The table the two loops have built when they stand at state `i` and action `a`. */
  function Built(i: nat, a: nat): (m: QValues)
    requires LoopPoint(i, a)
    ensures forall k :: k in m ==> m[k] == 0.0
    decreases i, a
  {
    if a > 0 then Built(i, a - 1)[KeyOf(i, a - 1) := 0.0]
    else if i > 0 then Built(i - 1, 3)
    else map[]
  }

  /** What the module builds before the first step: the table once both loops have finished. */
  function InitialQValues(): QValues
  {
    Built(3, 0)
  }

  lemma StateIndexInjective(i: nat, j: nat)
    requires i < 3 && j < 3 && States[i] == States[j]
    ensures i == j
  {
    assert |States[0]| == 11 && |States[1]| == 14 && |States[2]| == 12;
  }

  /** Distinct loop passes write distinct keys. */
  lemma KeyOfInjective(i: nat, a: nat, j: nat, b: nat)
    requires i < 3 && a < 3 && j < 3 && b < 3
    ensures KeyOf(i, a) == KeyOf(j, b) <==> i == j && a == b
  {
    if KeyOf(i, a) == KeyOf(j, b) {
      assert Actions[a] == a && Actions[b] == b;
      ActionKeyInjective(States[i], a, States[j], b);
      StateIndexInjective(i, j);
    }
  }

  /** A pass the loops have not reached yet has no key in the table. */
  lemma {:induction false} KeyNotBelow(i: nat, a: nat, j: nat, b: nat)
    requires LoopPoint(i, a) && j < 3 && b < 3 && 3 * i + a <= 3 * j + b
    ensures KeyOf(j, b) !in Built(i, a)
    decreases i, a
  {
    if a > 0 {
      KeyNotBelow(i, a - 1, j, b);
      KeyOfInjective(i, a - 1, j, b);
    } else if i > 0 {
      KeyNotBelow(i - 1, 3, j, b);
    }
  }

  /** A pass the loops have made has its key in the table. */
  lemma {:induction false} KeyBelow(i: nat, a: nat, j: nat, b: nat)
    requires LoopPoint(i, a) && j < 3 && b < 3 && 3 * j + b < 3 * i + a
    ensures KeyOf(j, b) in Built(i, a)
    decreases i, a
  {
    if a > 0 {
      if j != i || b != a - 1 {
        KeyBelow(i, a - 1, j, b);
      }
    } else {
      KeyBelow(i - 1, 3, j, b);
    }
  }

  /** Every key in the table is the key of an earlier pass. */
  lemma {:induction false} KeysOfTable(i: nat, a: nat, k: string)
    requires LoopPoint(i, a) && k in Built(i, a)
    ensures exists j, b :: 0 <= j < 3 && 0 <= b < 3 && 3 * j + b < 3 * i + a && k == KeyOf(j, b)
    decreases i, a
  {
    if a > 0 {
      if k != KeyOf(i, a - 1) {
        KeysOfTable(i, a - 1, k);
      }
    } else {
      KeysOfTable(i - 1, 3, k);
    }
  }

  /** Each pass adds one new key. */
  lemma {:induction false} TableSize(i: nat, a: nat)
    requires LoopPoint(i, a)
    ensures |Built(i, a)| == 3 * i + a
    decreases i, a
  {
    if a > 0 {
      TableSize(i, a - 1);
      KeyNotBelow(i, a - 1, i, a - 1);
    } else if i > 0 {
      TableSize(i - 1, 3);
    }
  }

  lemma InitialKeyPresent(i: nat, a: nat)
    requires i < |States| && a < |Actions|
    ensures ActionKey(States[i], a) in InitialQValues()
  {
    assert KeyOf(i, a) == ActionKey(States[i], a);
    KeyBelow(3, 0, i, a);
  }

  lemma InitialKeyKnown(k: string)
    requires k in InitialQValues()
    ensures exists i, a :: 0 <= i < |States| && 0 <= a < |Actions| && k == ActionKey(States[i], a)
  {
    KeysOfTable(3, 0, k);
    var i, a :| 0 <= i < 3 && 0 <= a < 3 && 3 * i + a < 9 && k == KeyOf(i, a);
    assert k == ActionKey(States[i], a);
  }

  /** Every state paired with every action, 9 keys, all zero, and nothing else. */
  lemma InitialQValuesShape()
    ensures |InitialQValues()| == 9
    ensures forall k :: k in InitialQValues() ==> InitialQValues()[k] == 0.0
    ensures forall i, a :: 0 <= i < |States| && 0 <= a < |Actions| ==> ActionKey(States[i], a) in InitialQValues()
    ensures forall k :: k in InitialQValues() ==>
      exists i, a :: 0 <= i < |States| && 0 <= a < |Actions| && k == ActionKey(States[i], a)
  {
    TableSize(3, 0);
    forall i, a | 0 <= i < |States| && 0 <= a < |Actions|
      ensures ActionKey(States[i], a) in InitialQValues()
    {
      InitialKeyPresent(i, a);
    }
    forall k | k in InitialQValues()
      ensures exists i, a :: 0 <= i < |States| && 0 <= a < |Actions| && k == ActionKey(States[i], a)
    {
      InitialKeyKnown(k);
    }
  }

  /** `states.forEach(state => actions.forEach(action => q[`${state}_${action}`] = 0))`. */
  method BuildInitialQValues() returns (initialQValues: QValues)
    ensures initialQValues == InitialQValues()
  {
    initialQValues := map[];
    var i := 0;
    while i < |States|
      invariant 0 <= i <= 3
      invariant initialQValues == Built(i, 0)
    {
      var state := States[i];
      var a := 0;
      while a < |Actions|
        invariant 0 <= a <= 3
        invariant initialQValues == Built(i, a)
      {
        var action := Actions[a];
        initialQValues := initialQValues[ActionKey(state, action) := 0.0];
        a := a + 1;
      }
      i := i + 1;
    }
  }

  /**
   * The state record. `roadTraffic` and `adaptiveMode` are declared by the
   * state type but this engine never sets them: `None` is a missing property.
   * The per-node view is not part of this model.
   */
  datatype SimulationState = SimulationState(
    isRunning: bool,
    step: int,
    averageWaitingTime: real,
    averageSpeed: real,
    vehicleCount: real,
    qValues: QValues,
    currentPhase: nat,
    currentReward: real,
    epsilon: real,
    learningRate: real,
    discountFactor: real,
    roadTraffic: Option<Record>,
    adaptiveMode: Option<bool>)

  datatype SimulationSettings = SimulationSettings(
    maxSteps: int,
    vehicleRate: real,
    learningRate: real,
    epsilon: real,
    discountFactor: real,
    adaptiveMode: bool)

  /** The state before the first tick: nothing has happened yet and every Q-value is 0. */
  function InitialSimulationState(): (s: SimulationState)
    ensures s.step == 0 && s.currentPhase == 0 && s.vehicleCount == 0.0 && s.currentReward == 0.0
    ensures |s.qValues| == 9 && forall k :: k in s.qValues ==> s.qValues[k] == 0.0
  {
    InitialQValuesShape();
    SimulationState(
      isRunning := false, step := 0, averageWaitingTime := 0.0, averageSpeed := 0.0,
      vehicleCount := 0.0, qValues := InitialQValues(), currentPhase := 0, currentReward := 0.0,
      epsilon := 0.1, learningRate := 0.1, discountFactor := 0.9,
      roadTraffic := None, adaptiveMode := None)
  }

  // ---------------------------------------------------------------------
  // Discretizer and reward
  // ---------------------------------------------------------------------

  function DetermineTrafficState(vehicleCount: real): (state: string)
    ensures state in States
    ensures state == "low_traffic" <==> vehicleCount < 5.0
    ensures state == "medium_traffic" <==> 5.0 <= vehicleCount < 15.0
    ensures state == "high_traffic" <==> 15.0 <= vehicleCount
  {
    if vehicleCount < 5.0 then "low_traffic"
    else if vehicleCount < 15.0 then "medium_traffic"
    else "high_traffic"
  }

  /** Within the bounds the tick keeps, the reward lies between -w and 2 * 13.9. */
  function CalculateReward(averageWaitingTime: real, averageSpeed: real): (reward: real)
    ensures averageWaitingTime >= 0.0 && 0.0 <= averageSpeed <= 13.9 ==>
      -averageWaitingTime <= reward <= 27.8
  {
    -averageWaitingTime + averageSpeed * 2.0
  }

  /** Waiting lowers the reward; speed raises it. */
  lemma RewardMonotone(w1: real, w2: real, s1: real, s2: real)
    ensures w1 < w2 ==> CalculateReward(w2, s1) < CalculateReward(w1, s1)
    ensures s1 < s2 ==> CalculateReward(w1, s1) < CalculateReward(w1, s2)
  {
  }

  // ---------------------------------------------------------------------
  // Action selection
  // ---------------------------------------------------------------------

  /** The keys `${state}_0`, `${state}_1`, `${state}_2` are all in the table. */
  ghost predicate ActionsPresent(qValues: QValues, state: string)
  {
    forall a :: 0 <= a < |Actions| ==> ActionKey(state, a) in qValues
  }

  /** The action `selectAction` returns for the draws `explore` and `pick`. */
  function ChooseAction(state: string, qValues: QValues, epsilon: real, explore: real, pick: real): (action: nat)
    requires 0.0 <= pick < 1.0 && ActionsPresent(qValues, state)
    ensures action < |Actions|
    ensures explore >= epsilon ==> IsFirstMax(ActionValues(qValues, state, |Actions|), action)
  {
    if explore < epsilon then (pick * 3.0).Floor
    else FirstArgMax(ActionValues(qValues, state, |Actions|))
  }

  /** Exploring, action `k` is chosen exactly when the second draw falls in [k/3, (k+1)/3). */
  lemma ExplorationInterval(state: string, qValues: QValues, epsilon: real, explore: real, pick: real, k: nat)
    requires 0.0 <= pick < 1.0 && ActionsPresent(qValues, state) && explore < epsilon && k < |Actions|
    ensures ChooseAction(state, qValues, epsilon, explore, pick) == k <==>
      k as real / 3.0 <= pick < (k as real + 1.0) / 3.0
  {
    var action := ChooseAction(state, qValues, epsilon, explore, pick);
    assert action as real <= pick * 3.0 < action as real + 1.0;
    if k as real / 3.0 <= pick < (k as real + 1.0) / 3.0 {
      assert k as real <= pick * 3.0 < k as real + 1.0;
      assert action < k + 1 && k < action + 1;
    }
  }

  /** Not exploring, the first action with the largest Q-value is chosen. */
  lemma ExploitationChoosesFirstMaximum(state: string, qValues: QValues, epsilon: real, explore: real,
                                        pick: real)
    requires 0.0 <= pick < 1.0 && ActionsPresent(qValues, state) && explore >= epsilon
    ensures var action := ChooseAction(state, qValues, epsilon, explore, pick);
      (forall a :: 0 <= a < |Actions| ==> qValues[ActionKey(state, a)] <= qValues[ActionKey(state, action)]) &&
      (forall a :: 0 <= a < action ==> qValues[ActionKey(state, a)] < qValues[ActionKey(state, action)])
  {
    var v := ActionValues(qValues, state, |Actions|);
    var action := ChooseAction(state, qValues, epsilon, explore, pick);
    assert IsFirstMax(v, action);
    forall a | 0 <= a < |Actions|
      ensures qValues[ActionKey(state, a)] <= qValues[ActionKey(state, action)]
    {
      assert v[a] <= v[action];
    }
    forall a | 0 <= a < action
      ensures qValues[ActionKey(state, a)] < qValues[ActionKey(state, action)]
    {
      assert v[a] < v[action];
    }
  }

  method SelectAction(state: string, qValues: QValues, epsilon: real, explore: real, pick: real)
    returns (action: nat)
    requires 0.0 <= pick < 1.0 && ActionsPresent(qValues, state)
    ensures action == ChooseAction(state, qValues, epsilon, explore, pick)
  {
    if explore < epsilon {
      return (pick * 3.0).Floor;
    }
    ghost var values := ActionValues(qValues, state, |Actions|);
    var bestAction := Actions[0];
    var bestValue := qValues[ActionKey(state, Actions[0])];
    var i := 1;
    while i < |Actions|
      invariant 1 <= i <= |Actions|
      invariant bestAction < i && bestAction == FirstArgMax(values[..i])
      invariant bestValue == values[bestAction]
    {
      var value := qValues[ActionKey(state, Actions[i])];
      assert values[..i + 1][..i] == values[..i];
      if value > bestValue {
        bestValue := value;
        bestAction := Actions[i];
      }
      i := i + 1;
    }
    assert values[..i] == values;
    action := bestAction;
  }

  // ---------------------------------------------------------------------
  // Q-value update
  // ---------------------------------------------------------------------

  function MaxNextQ(qValues: QValues, nextState: string): (m: real)
    requires ActionsPresent(qValues, nextState)
    ensures forall a :: 0 <= a < |Actions| ==> qValues[ActionKey(nextState, a)] <= m
    ensures exists a :: 0 <= a < |Actions| && qValues[ActionKey(nextState, a)] == m
  {
    var values := ActionValues(qValues, nextState, |Actions|);
    var m := MaxOf(values);
    assert exists a :: 0 <= a < |values| && values[a] == m;
    m
  }

  /** The table `updateQValue` returns: a copy with the one present key rewritten. */
  function UpdatedQValues(state: string, action: nat, reward: real, nextState: string, qValues: QValues,
                          learningRate: real, discountFactor: real): (newQValues: QValues)
    requires ActionsPresent(qValues, nextState) && ActionKey(state, action) in qValues
    ensures newQValues.Keys == qValues.Keys
    ensures forall k :: k in qValues && k != ActionKey(state, action) ==> newQValues[k] == qValues[k]
  {
    var key := ActionKey(state, action);
    qValues[key := Blend(qValues[key], reward + discountFactor * MaxNextQ(qValues, nextState), learningRate)]
  }

  /** The rewritten value follows the Q-learning rule. */
  lemma UpdateRule(state: string, action: nat, reward: real, nextState: string, qValues: QValues,
                   learningRate: real, discountFactor: real)
    requires ActionsPresent(qValues, nextState) && ActionKey(state, action) in qValues
    ensures var key := ActionKey(state, action);
      UpdatedQValues(state, action, reward, nextState, qValues, learningRate, discountFactor)[key] ==
        qValues[key] + learningRate * (reward + discountFactor * MaxNextQ(qValues, nextState) - qValues[key])
  {
  }

  /** The update written with its target `reward + gamma * maxNextQ` as a parameter. */
  lemma UpdateWithTarget(state: string, action: nat, reward: real, nextState: string, qValues: QValues,
                         learningRate: real, discountFactor: real, target: real)
    requires ActionsPresent(qValues, nextState) && ActionKey(state, action) in qValues
    requires target == reward + discountFactor * MaxNextQ(qValues, nextState)
    ensures var key := ActionKey(state, action);
      UpdatedQValues(state, action, reward, nextState, qValues, learningRate, discountFactor) ==
        qValues[key := Blend(qValues[key], target, learningRate)]
  {
  }

  method UpdateQValue(state: string, action: nat, reward: real, nextState: string, qValues: QValues,
                      learningRate: real, discountFactor: real) returns (newQValues: QValues)
    requires ActionsPresent(qValues, nextState) && ActionKey(state, action) in qValues
    ensures newQValues == UpdatedQValues(state, action, reward, nextState, qValues, learningRate, discountFactor)
  {
    ghost var values := ActionValues(qValues, nextState, |Actions|);
    var maxNextQ := qValues[ActionKey(nextState, Actions[0])];
    var i := 1;
    while i < |Actions|
      invariant 1 <= i <= |Actions|
      invariant maxNextQ == MaxOf(values[..i])
    {
      var value := qValues[ActionKey(nextState, Actions[i])];
      assert values[..i + 1][..i] == values[..i];
      maxNextQ := if value > maxNextQ then value else maxNextQ;
      i := i + 1;
    }
    assert values[..i] == values;
    assert maxNextQ == MaxNextQ(qValues, nextState);
    var oldValue := qValues[ActionKey(state, action)];
    newQValues := qValues;
    newQValues := newQValues[ActionKey(state, action) := Blend(oldValue, reward + discountFactor * maxNextQ, learningRate)];
    assert reward + discountFactor * maxNextQ == reward + discountFactor * MaxNextQ(qValues, nextState);
    UpdateWithTarget(state, action, reward, nextState, qValues, learningRate, discountFactor,
                     reward + discountFactor * maxNextQ);
  }

  // ---------------------------------------------------------------------
  // One tick
  // ---------------------------------------------------------------------

  /** The four `Math.random()` draws of one tick, in the order they are made. */
  datatype StepDraws = StepDraws(arrival: real, departure: real, explore: real, pick: real)

  ghost predicate ValidDraws(d: StepDraws)
  {
    && 0.0 <= d.arrival < 1.0 && 0.0 <= d.departure < 1.0
    && 0.0 <= d.explore < 1.0 && 0.0 <= d.pick < 1.0
  }

  /** The count after one arrival draw and one departure draw; it is never negative. */
  function NextVehicleCount(vehicleCount: real, vehicleRate: real, d: StepDraws): (count: real)
    ensures count >= 0.0
    ensures count == 0.0 || count == vehicleCount + (if d.arrival < vehicleRate / 10.0 then 1.0 else 0.0)
                                                  - (if d.departure < 0.05 then 1.0 else 0.0)
  {
    var arrived := if d.arrival < vehicleRate / 10.0 then 1.0 else 0.0;
    var left := if d.departure < 0.05 then 1.0 else 0.0;
    var count := vehicleCount + arrived - left;
    if 0.0 < count then count else 0.0
  }

  /** The waiting time after a tick in `currentPhase`; only red makes it grow. */
  function NextWaitingTime(currentPhase: nat, averageWaitingTime: real, newVehicleCount: real): (w: real)
    ensures currentPhase != 2 ==> w >= 0.0 && w <= (if averageWaitingTime > 0.0 then averageWaitingTime else 0.0)
    ensures currentPhase == 2 ==> averageWaitingTime <= w <= averageWaitingTime + 0.5
  {
    if currentPhase == 2 then averageWaitingTime + (if newVehicleCount > 0.0 then 0.5 else 0.0)
    else
      var w := averageWaitingTime - (if currentPhase == 0 then 0.3 else 0.0);
      if 0.0 < w then w else 0.0
  }

  /** The speed after a tick in `currentPhase`: green raises it up to 13.9, the others lower it down to 0. */
  function NextSpeed(currentPhase: nat, averageSpeed: real): (s: real)
    ensures currentPhase == 0 ==> s <= 13.9 && (averageSpeed <= 13.7 ==> s == averageSpeed + 0.2)
    ensures currentPhase != 0 ==> 0.0 <= s && s <= (if averageSpeed > 0.0 then averageSpeed else 0.0)
  {
    if currentPhase == 0 then (if averageSpeed + 0.2 < 13.9 then averageSpeed + 0.2 else 13.9)
    else
      var s := averageSpeed - (if currentPhase == 2 then 0.5 else 0.1);
      if 0.0 < s then s else 0.0
  }

  /** A non-negative count stays non-negative and moves by at most one vehicle. */
  lemma VehicleCountStep(vehicleCount: real, vehicleRate: real, d: StepDraws)
    requires vehicleCount >= 0.0
    ensures var n := NextVehicleCount(vehicleCount, vehicleRate, d);
      n >= 0.0 && vehicleCount - 1.0 <= n <= vehicleCount + 1.0
  {
  }

  /** Red adds 0.5 while vehicles remain, green takes off 0.3, yellow keeps the time; it never goes negative. */
  lemma WaitingTimeStep(currentPhase: nat, averageWaitingTime: real, newVehicleCount: real)
    requires averageWaitingTime >= 0.0
    ensures var w := NextWaitingTime(currentPhase, averageWaitingTime, newVehicleCount);
      && w >= 0.0
      && (currentPhase == 2 && newVehicleCount > 0.0 ==> w == averageWaitingTime + 0.5)
      && (currentPhase == 2 && newVehicleCount <= 0.0 ==> w == averageWaitingTime)
      && (currentPhase == 0 ==> w == if averageWaitingTime > 0.3 then averageWaitingTime - 0.3 else 0.0)
      && (currentPhase == 1 ==> w == averageWaitingTime)
  {
  }

  /** Green speeds up by 0.2 up to 13.9; yellow and red slow down by 0.1 and 0.5 down to 0. */
  lemma SpeedStep(currentPhase: nat, averageSpeed: real)
    requires 0.0 <= averageSpeed <= 13.9
    ensures var s := NextSpeed(currentPhase, averageSpeed);
      && 0.0 <= s <= 13.9
      && (currentPhase == 0 ==> s == if averageSpeed + 0.2 < 13.9 then averageSpeed + 0.2 else 13.9)
      && (currentPhase == 2 ==> s == if averageSpeed > 0.5 then averageSpeed - 0.5 else 0.0)
      && (currentPhase != 0 && currentPhase != 2 ==> s == if averageSpeed > 0.1 then averageSpeed - 0.1 else 0.0)
  {
  }

  /** What the tick reads from the Q-table is there. */
  ghost predicate StepDefined(state: SimulationState, settings: SimulationSettings, d: StepDraws)
  {
    var trafficState := DetermineTrafficState(NextVehicleCount(state.vehicleCount, settings.vehicleRate, d));
    ActionsPresent(state.qValues, trafficState) && ActionKey(trafficState, state.currentPhase) in state.qValues
  }

  function SimulateStep(state: SimulationState, settings: SimulationSettings, d: StepDraws): (next: SimulationState)
    requires 0.0 <= d.pick < 1.0 && StepDefined(state, settings, d)
    ensures next.step == state.step + 1
    ensures next.currentPhase < |TrafficLightPhases|
    ensures next.currentReward == -next.averageWaitingTime + 2.0 * next.averageSpeed
    ensures next.qValues.Keys == state.qValues.Keys
    ensures next.epsilon == settings.epsilon && next.learningRate == settings.learningRate
    ensures next.discountFactor == settings.discountFactor
    ensures next.isRunning == state.isRunning
    ensures next.roadTraffic == state.roadTraffic && next.adaptiveMode == state.adaptiveMode
    ensures next.vehicleCount == NextVehicleCount(state.vehicleCount, settings.vehicleRate, d)
    ensures next.averageWaitingTime == NextWaitingTime(state.currentPhase, state.averageWaitingTime, next.vehicleCount)
    ensures next.averageSpeed == NextSpeed(state.currentPhase, state.averageSpeed)
  {
    var newVehicleCount := NextVehicleCount(state.vehicleCount, settings.vehicleRate, d);
    var newAverageWaitingTime := NextWaitingTime(state.currentPhase, state.averageWaitingTime, newVehicleCount);
    var newAverageSpeed := NextSpeed(state.currentPhase, state.averageSpeed);
    var trafficState := DetermineTrafficState(newVehicleCount);
    var reward := CalculateReward(newAverageWaitingTime, newAverageSpeed);
    var nextAction := ChooseAction(trafficState, state.qValues, settings.epsilon, d.explore, d.pick);
    var newQValues := UpdatedQValues(trafficState, state.currentPhase, reward, trafficState, state.qValues,
                                     settings.learningRate, settings.discountFactor);
    state.(
      step := state.step + 1,
      averageWaitingTime := newAverageWaitingTime,
      averageSpeed := newAverageSpeed,
      vehicleCount := newVehicleCount,
      qValues := newQValues,
      currentPhase := nextAction,
      currentReward := reward,
      epsilon := settings.epsilon,
      learningRate := settings.learningRate,
      discountFactor := settings.discountFactor)
  }

  /** The tick picks its next phase from the table as it was before the update. */
  lemma StepChoosesFromOldTable(state: SimulationState, settings: SimulationSettings, d: StepDraws)
    requires 0.0 <= d.pick < 1.0 && StepDefined(state, settings, d)
    ensures var trafficState := DetermineTrafficState(NextVehicleCount(state.vehicleCount, settings.vehicleRate, d));
      SimulateStep(state, settings, d).currentPhase ==
        ChooseAction(trafficState, state.qValues, settings.epsilon, d.explore, d.pick)
  {
  }

  /**
   * The tick's new table is the Q-learning update of its traffic state and the
   * phase that was active, with the tick's reward and, as next state, that same
   * traffic state: that key alone is rewritten, to the `Blend` of its old value
   * and the reward plus the discounted best value of the new traffic state's
   * actions (`UpdateWithTarget`).
   */
  lemma StepUpdatesOneKey(state: SimulationState, settings: SimulationSettings, d: StepDraws)
    requires 0.0 <= d.pick < 1.0 && StepDefined(state, settings, d)
    ensures var trafficState := DetermineTrafficState(NextVehicleCount(state.vehicleCount, settings.vehicleRate, d));
      var next := SimulateStep(state, settings, d);
      next.qValues == UpdatedQValues(trafficState, state.currentPhase, next.currentReward, trafficState,
                                     state.qValues, settings.learningRate, settings.discountFactor)
    ensures var trafficState := DetermineTrafficState(NextVehicleCount(state.vehicleCount, settings.vehicleRate, d));
      var next := SimulateStep(state, settings, d);
      forall k :: k in state.qValues && k != ActionKey(trafficState, state.currentPhase) ==>
        next.qValues[k] == state.qValues[k]
  {
  }

  /**
   * Measured on the tick's result: the count stays non-negative and moves by
   * at most one vehicle, the waiting time stays non-negative and the speed
   * stays in [0, 13.9].
   */
  lemma StepMetrics(state: SimulationState, settings: SimulationSettings, d: StepDraws)
    requires 0.0 <= d.pick < 1.0 && StepDefined(state, settings, d)
    requires state.vehicleCount >= 0.0 && state.averageWaitingTime >= 0.0 && 0.0 <= state.averageSpeed <= 13.9
    ensures var next := SimulateStep(state, settings, d);
      && 0.0 <= next.vehicleCount
      && state.vehicleCount - 1.0 <= next.vehicleCount <= state.vehicleCount + 1.0
      && next.averageWaitingTime >= 0.0
      && 0.0 <= next.averageSpeed <= 13.9
  {
    var next := SimulateStep(state, settings, d);
    VehicleCountStep(state.vehicleCount, settings.vehicleRate, d);
    WaitingTimeStep(state.currentPhase, state.averageWaitingTime, next.vehicleCount);
    SpeedStep(state.currentPhase, state.averageSpeed);
  }

  /** What every state reached from the initial one satisfies. */
  ghost predicate Invariant(state: SimulationState)
  {
    && state.qValues.Keys == InitialQValues().Keys
    && state.currentPhase < |TrafficLightPhases|
    && state.vehicleCount >= 0.0
    && state.averageWaitingTime >= 0.0
    && 0.0 <= state.averageSpeed <= 13.9
  }

  lemma InitialStateFacts()
    ensures var s := InitialSimulationState();
      s.step == 0 && s.currentPhase == 0 && s.vehicleCount == 0.0 && |s.qValues| == 9 &&
      (forall k :: k in s.qValues ==> s.qValues[k] == 0.0) && Invariant(s)
  {
    InitialQValuesShape();
  }

  /** Under the invariant every key the tick reads is present. */
  lemma InvariantMakesStepDefined(state: SimulationState, settings: SimulationSettings, d: StepDraws)
    requires Invariant(state)
    ensures StepDefined(state, settings, d)
  {
    var trafficState := DetermineTrafficState(NextVehicleCount(state.vehicleCount, settings.vehicleRate, d));
    ActionsPresentInInitialKeys(state.qValues, trafficState);
    assert ActionKey(trafficState, state.currentPhase) in state.qValues;
  }

  /** A table with the initial keys holds every action of every state. */
  lemma ActionsPresentInInitialKeys(qValues: QValues, state: string)
    requires qValues.Keys == InitialQValues().Keys && state in States
    ensures ActionsPresent(qValues, state)
  {
    var i :| 0 <= i < |States| && States[i] == state;
    forall a | 0 <= a < |Actions|
      ensures ActionKey(state, a) in qValues
    {
      InitialKeyPresent(i, a);
    }
  }

  lemma StepPreservesInvariant(state: SimulationState, settings: SimulationSettings, d: StepDraws)
    requires Invariant(state) && 0.0 <= d.pick < 1.0
    ensures StepDefined(state, settings, d)
    ensures Invariant(SimulateStep(state, settings, d))
  {
    InvariantMakesStepDefined(state, settings, d);
    StepMetrics(state, settings, d);
  }

  /**
   * The state after the driver has called the tick once per entry of `draws`.
   * Every state on the way satisfies the invariant: the table has exactly the
   * nine initial keys, the phase is valid, the count and the waiting time are
   * non-negative and the speed is in [0, 13.9].
   */
  ghost function Run(state: SimulationState, settings: SimulationSettings, draws: seq<StepDraws>): (last: SimulationState)
    requires Invariant(state)
    requires forall i :: 0 <= i < |draws| ==> ValidDraws(draws[i])
    ensures Invariant(last)
    ensures last.step == state.step + |draws|
    decreases |draws|
  {
    if |draws| == 0 then state
    else
      assert ValidDraws(draws[0]);
      StepPreservesInvariant(state, settings, draws[0]);
      assert forall i :: 0 <= i < |draws[1..]| ==> draws[1..][i] == draws[i + 1];
      Run(SimulateStep(state, settings, draws[0]), settings, draws[1..])
  }
}
