/**
 * The learning core of the per-road engine: the traffic-efficiency reward,
 * the epsilon-greedy policy with its adaptive east-west / north-south
 * override, and the copy-on-write one-step Q-learning update.
 */
module QLearningService {
  import opened Wrappers
  import opened Records
  import opened QTable
  import opened TrafficData

  // ---------------------------------------------------------------------
  // Reward
  // ---------------------------------------------------------------------

  /**
   * The share of all vehicles that stand on roads the phase serves; 0 on an
   * empty junction. `None` is JavaScript's NaN: a served road is missing
   * from the object while the total is positive.
   */
  function TrafficEfficiency(roadTraffic: Record, currentPhase: nat): (eff: Option<real>)
    requires currentPhase < |TrafficLightPhases|
    ensures eff.None? <==> (Total(roadTraffic) > 0.0 &&
      exists i :: 0 <= i < |TrafficLightPhases[currentPhase].activeRoads| &&
        Get(roadTraffic, TrafficLightPhases[currentPhase].activeRoads[i]).None?)
    ensures Total(roadTraffic) <= 0.0 ==> eff == Some(0.0)
    ensures eff.Some? && Total(roadTraffic) > 0.0 ==>
      SumAt(roadTraffic, TrafficLightPhases[currentPhase].activeRoads).Some? &&
      eff.value * Total(roadTraffic) == SumAt(roadTraffic, TrafficLightPhases[currentPhase].activeRoads).value
  {
    SumAtMissing(roadTraffic, TrafficLightPhases[currentPhase].activeRoads);
    var activeRoadTraffic := SumAt(roadTraffic, TrafficLightPhases[currentPhase].activeRoads);
    var totalTraffic := Total(roadTraffic);
    if totalTraffic > 0.0 then
      (if activeRoadTraffic.None? then None else Some(activeRoadTraffic.value / totalTraffic))
    else
      Some(0.0)
  }

  function CalculateReward(averageWaitingTime: real, averageSpeed: real, roadTraffic: Record,
                           currentPhase: nat): (reward: Option<real>)
    requires currentPhase < |TrafficLightPhases|
    ensures reward.None? <==> TrafficEfficiency(roadTraffic, currentPhase).None?
  {
    match TrafficEfficiency(roadTraffic, currentPhase)
    case None => None
    case Some(eff) => Some(-averageWaitingTime + averageSpeed * 2.0 + eff * 10.0)
  }

  /** With non-negative counts the efficiency is a fraction. */
  lemma EfficiencyBounds(roadTraffic: Record, currentPhase: nat)
    requires currentPhase < |TrafficLightPhases| && NonNegative(roadTraffic)
    ensures TrafficEfficiency(roadTraffic, currentPhase).Some? ==>
      0.0 <= TrafficEfficiency(roadTraffic, currentPhase).value <= 1.0
  {
    var roads := TrafficLightPhases[currentPhase].activeRoads;
    var total := Total(roadTraffic);
    var active := SumAt(roadTraffic, roads);
    if total > 0.0 && active.Some? {
      ActiveRoadsDistinct(currentPhase);
      SumAtBounded(roadTraffic, roads);
      assert 0.0 <= active.value <= total;
      FractionBounds(active.value, total);
    }
  }

  lemma FractionBounds(part: real, whole: real)
    requires 0.0 <= part <= whole && whole > 0.0
    ensures 0.0 <= part / whole <= 1.0
  {
    var f := part / whole;
    assert f * whole == part;
    assert (1.0 - f) * whole == whole - part;
  }

  /** With non-negative counts the reward lies in [-w + 2s, -w + 2s + 10]. */
  lemma RewardBounds(averageWaitingTime: real, averageSpeed: real, roadTraffic: Record, currentPhase: nat)
    requires currentPhase < |TrafficLightPhases| && NonNegative(roadTraffic)
    ensures var reward := CalculateReward(averageWaitingTime, averageSpeed, roadTraffic, currentPhase);
      reward.Some? ==>
        -averageWaitingTime + 2.0 * averageSpeed <= reward.value <= -averageWaitingTime + 2.0 * averageSpeed + 10.0
  {
    EfficiencyBounds(roadTraffic, currentPhase);
  }

  /** When every served road is present the reward is a number. */
  lemma RewardDefinedWhenServedRoadsPresent(averageWaitingTime: real, averageSpeed: real,
                                            roadTraffic: Record, currentPhase: nat)
    requires currentPhase < |TrafficLightPhases|
    requires forall i :: 0 <= i < |TrafficLightPhases[currentPhase].activeRoads| ==>
      Get(roadTraffic, TrafficLightPhases[currentPhase].activeRoads[i]).Some?
    ensures CalculateReward(averageWaitingTime, averageSpeed, roadTraffic, currentPhase).Some?
  {
  }

  /** More waiting, same traffic and phase: strictly less reward. */
  lemma RewardDecreasesWithWaiting(w1: real, w2: real, averageSpeed: real, roadTraffic: Record, currentPhase: nat)
    requires currentPhase < |TrafficLightPhases| && w1 < w2
    ensures var r1 := CalculateReward(w1, averageSpeed, roadTraffic, currentPhase);
      var r2 := CalculateReward(w2, averageSpeed, roadTraffic, currentPhase);
      r1.Some? == r2.Some? && (r1.Some? ==> r2.value < r1.value)
  {
  }

  /** More speed, same traffic and phase: strictly more reward. */
  lemma RewardIncreasesWithSpeed(averageWaitingTime: real, s1: real, s2: real, roadTraffic: Record, currentPhase: nat)
    requires currentPhase < |TrafficLightPhases| && s1 < s2
    ensures var r1 := CalculateReward(averageWaitingTime, s1, roadTraffic, currentPhase);
      var r2 := CalculateReward(averageWaitingTime, s2, roadTraffic, currentPhase);
      r1.Some? == r2.Some? && (r1.Some? ==> r1.value < r2.value)
  {
  }

  // ---------------------------------------------------------------------
  // Action selection
  // ---------------------------------------------------------------------

  /** `roadTraffic[a] + roadTraffic[b]`, NaN (`None`) when either is missing. */
  function DirectionTraffic(roadTraffic: Record, a: string, b: string): (t: Option<real>)
    ensures t.Some? <==> Get(roadTraffic, a).Some? && Get(roadTraffic, b).Some?
  {
    var x, y := Get(roadTraffic, a), Get(roadTraffic, b);
    if x.None? || y.None? then None else Some(x.value + y.value)
  }

  /** `eastWestTraffic > northSouthTraffic`; any comparison with NaN is false. */
  predicate EastWestHeavier(roadTraffic: Record): (heavier: bool)
    ensures heavier <==>
      && Get(roadTraffic, "road_west").Some? && Get(roadTraffic, "road_east").Some?
      && Get(roadTraffic, "road_north").Some? && Get(roadTraffic, "road_south").Some?
      && Get(roadTraffic, "road_west").value + Get(roadTraffic, "road_east").value >
         Get(roadTraffic, "road_north").value + Get(roadTraffic, "road_south").value
  {
    var eastWest := DirectionTraffic(roadTraffic, "road_west", "road_east");
    var northSouth := DirectionTraffic(roadTraffic, "road_north", "road_south");
    eastWest.Some? && northSouth.Some? && eastWest.value > northSouth.value
  }

  /**
   * The phase `selectAction` returns. `explore` is its first random draw and
   * `pick` the second, both in [0, 1).
   */
  function ChooseAction(state: string, qValues: QValues, epsilon: real, roadTraffic: Record,
                        adaptiveMode: bool, explore: real, pick: real): (action: nat)
    requires 0.0 <= pick < 1.0
    ensures action < |TrafficLightPhases|
    ensures explore < epsilon ==>
      action as real <= pick * |TrafficLightPhases| as real < action as real + 1.0
    ensures explore >= epsilon && adaptiveMode ==> (action == 0 <==> EastWestHeavier(roadTraffic))
    ensures explore >= epsilon && !adaptiveMode ==>
      IsFirstMax(ActionValues(qValues, state, |TrafficLightPhases|), action)
  {
    if explore < epsilon then
      (pick * |TrafficLightPhases| as real).Floor
    else if adaptiveMode then
      (if EastWestHeavier(roadTraffic) then 0 else 1)
    else
      FirstArgMax(ActionValues(qValues, state, |TrafficLightPhases|))
  }

  /** Exploring, phase `k` is chosen exactly when the second draw falls in [k/2, (k+1)/2). */
  lemma ExplorationInterval(state: string, qValues: QValues, epsilon: real, roadTraffic: Record,
                            adaptiveMode: bool, explore: real, pick: real, k: nat)
    requires 0.0 <= pick < 1.0 && explore < epsilon && k < |TrafficLightPhases|
    ensures ChooseAction(state, qValues, epsilon, roadTraffic, adaptiveMode, explore, pick) == k <==>
      k as real / 2.0 <= pick < (k as real + 1.0) / 2.0
  {
    var action := ChooseAction(state, qValues, epsilon, roadTraffic, adaptiveMode, explore, pick);
    assert action as real <= pick * 2.0 < action as real + 1.0;
    if k as real / 2.0 <= pick < (k as real + 1.0) / 2.0 {
      assert k as real <= pick * 2.0 < k as real + 1.0;
      assert action < k + 1 && k < action + 1;
    }
  }

  /** Adaptive, not exploring, all four roads present: phase 0 exactly when east-west carries more; ties go to phase 1. */
  lemma AdaptiveChoice(state: string, qValues: QValues, epsilon: real, roadTraffic: Record,
                       explore: real, pick: real)
    requires 0.0 <= pick < 1.0 && explore >= epsilon
    requires Get(roadTraffic, "road_west").Some? && Get(roadTraffic, "road_east").Some?
    requires Get(roadTraffic, "road_north").Some? && Get(roadTraffic, "road_south").Some?
    ensures var action := ChooseAction(state, qValues, epsilon, roadTraffic, true, explore, pick);
      var west, east := Get(roadTraffic, "road_west").value, Get(roadTraffic, "road_east").value;
      var north, south := Get(roadTraffic, "road_north").value, Get(roadTraffic, "road_south").value;
      (action == 0 <==> west + east > north + south) && (action == 1 <==> west + east <= north + south)
  {
  }

  /** A phase whose Q-value beats every other one is always chosen when neither exploring nor adaptive. */
  lemma ExploitationPicksStrictBest(state: string, qValues: QValues, epsilon: real, roadTraffic: Record,
                                    explore: real, pick: real, k: nat)
    requires 0.0 <= pick < 1.0 && explore >= epsilon && k < |TrafficLightPhases|
    requires forall j :: 0 <= j < |TrafficLightPhases| && j != k ==>
      ValueOr0(qValues, ActionKey(state, j)) < ValueOr0(qValues, ActionKey(state, k))
    ensures ChooseAction(state, qValues, epsilon, roadTraffic, false, explore, pick) == k
  {
    var v := ActionValues(qValues, state, |TrafficLightPhases|);
    var action := ChooseAction(state, qValues, epsilon, roadTraffic, false, explore, pick);
    assert IsFirstMax(v, action);
    assert v[k] <= v[action];
  }

  method SelectAction(state: string, qValues: QValues, epsilon: real, roadTraffic: Record,
                      adaptiveMode: bool, explore: real, pick: real) returns (action: nat)
    requires 0.0 <= pick < 1.0
    ensures action == ChooseAction(state, qValues, epsilon, roadTraffic, adaptiveMode, explore, pick)
  {
    if explore < epsilon {
      return (pick * |TrafficLightPhases| as real).Floor;
    }
    if adaptiveMode {
      var eastWestTraffic := DirectionTraffic(roadTraffic, "road_west", "road_east");
      var northSouthTraffic := DirectionTraffic(roadTraffic, "road_north", "road_south");
      if eastWestTraffic.Some? && northSouthTraffic.Some? && eastWestTraffic.value > northSouthTraffic.value {
        return 0;
      } else {
        return 1;
      }
    }
    ghost var values := ActionValues(qValues, state, |TrafficLightPhases|);
    var bestAction := 0;
    var bestValue := ValueOr0(qValues, ActionKey(state, 0));
    var index := 1;
    while index < |TrafficLightPhases|
      invariant 1 <= index <= |TrafficLightPhases|
      invariant bestAction < index && bestAction == FirstArgMax(values[..index])
      invariant bestValue == values[bestAction]
    {
      var value := ValueOr0(qValues, ActionKey(state, index));
      assert values[..index + 1][..index] == values[..index];
      if value > bestValue {
        bestValue := value;
        bestAction := index;
      }
      index := index + 1;
    }
    assert values[..index] == values;
    action := bestAction;
  }

  // ---------------------------------------------------------------------
  // Q-value update
  // ---------------------------------------------------------------------

  /** The largest `q[${nextState}_${p}] || 0` over the phases. */
  function MaxNextQ(qValues: QValues, nextState: string): (m: real)
    ensures forall p :: 0 <= p < |TrafficLightPhases| ==> ValueOr0(qValues, ActionKey(nextState, p)) <= m
    ensures exists p :: 0 <= p < |TrafficLightPhases| && ValueOr0(qValues, ActionKey(nextState, p)) == m
  {
    var values := ActionValues(qValues, nextState, |TrafficLightPhases|);
    var m := MaxOf(values);
    assert exists p :: 0 <= p < |values| && values[p] == m;
    m
  }

  /** The table `updateQValue` returns: a copy of the input with the one key rewritten. */
  function UpdatedQValues(state: string, action: nat, reward: real, nextState: string, qValues: QValues,
                          learningRate: real, discountFactor: real): (newQValues: QValues)
    ensures newQValues.Keys == qValues.Keys + {ActionKey(state, action)}
    ensures forall k :: k in qValues && k != ActionKey(state, action) ==> newQValues[k] == qValues[k]
  {
    var stateActionKey := ActionKey(state, action);
    var oldValue := ValueOr0(qValues, stateActionKey);
    qValues[stateActionKey := Blend(oldValue, reward + discountFactor * MaxNextQ(qValues, nextState), learningRate)]
  }

  /** The Q-learning rule: old + alpha * (reward + gamma * maxNextQ - old), with old = 0 when missing. */
  lemma UpdateRule(state: string, action: nat, reward: real, nextState: string, qValues: QValues,
                   learningRate: real, discountFactor: real)
    ensures var key := ActionKey(state, action);
      var oldValue := ValueOr0(qValues, key);
      UpdatedQValues(state, action, reward, nextState, qValues, learningRate, discountFactor)[key] ==
        oldValue + learningRate * (reward + discountFactor * MaxNextQ(qValues, nextState) - oldValue)
  {
  }

  /** alpha = 0 keeps the old value; alpha = 1 replaces it by the target. */
  lemma UpdateRateExtremes(state: string, action: nat, reward: real, nextState: string, qValues: QValues,
                           discountFactor: real)
    ensures var key := ActionKey(state, action);
      UpdatedQValues(state, action, reward, nextState, qValues, 0.0, discountFactor)[key] == ValueOr0(qValues, key)
    ensures var key := ActionKey(state, action);
      UpdatedQValues(state, action, reward, nextState, qValues, 1.0, discountFactor)[key] ==
        reward + discountFactor * MaxNextQ(qValues, nextState)
  {
  }

  /** With alpha in [0, 1] the new value lies between the old value and the target. */
  lemma UpdateMovesTowardTarget(state: string, action: nat, reward: real, nextState: string, qValues: QValues,
                                learningRate: real, discountFactor: real)
    requires 0.0 <= learningRate <= 1.0
    ensures var key := ActionKey(state, action);
      var oldValue := ValueOr0(qValues, key);
      var target := reward + discountFactor * MaxNextQ(qValues, nextState);
      var newValue := UpdatedQValues(state, action, reward, nextState, qValues, learningRate, discountFactor)[key];
      (oldValue <= target ==> oldValue <= newValue <= target) &&
      (target <= oldValue ==> target <= newValue <= oldValue)
  {
    var key := ActionKey(state, action);
    BlendBetween(ValueOr0(qValues, key), reward + discountFactor * MaxNextQ(qValues, nextState), learningRate);
  }

  /** alpha = 0.1, gamma = 0.9, an empty next state, old value 0 and reward 5 give 0.5. */
  lemma UpdateExample(state: string, action: nat, nextState: string)
    ensures UpdatedQValues(state, action, 5.0, nextState, map[], 0.1, 0.9)[ActionKey(state, action)] == 0.5
  {
    assert MaxNextQ(map[], nextState) == 0.0;
  }

  /** The update written with its target `reward + gamma * maxNextQ` as a parameter. */
  lemma UpdateWithTarget(state: string, action: nat, reward: real, nextState: string, qValues: QValues,
                         learningRate: real, discountFactor: real, target: real)
    requires target == reward + discountFactor * MaxNextQ(qValues, nextState)
    ensures var key := ActionKey(state, action);
      UpdatedQValues(state, action, reward, nextState, qValues, learningRate, discountFactor) ==
        qValues[key := Blend(ValueOr0(qValues, key), target, learningRate)]
  {
  }

  method UpdateQValue(state: string, action: nat, reward: real, nextState: string, qValues: QValues,
                      learningRate: real, discountFactor: real) returns (newQValues: QValues)
    ensures newQValues == UpdatedQValues(state, action, reward, nextState, qValues, learningRate, discountFactor)
  {
    ghost var values := ActionValues(qValues, nextState, |TrafficLightPhases|);
    var maxNextQ := ValueOr0(qValues, ActionKey(nextState, 0));
    var index := 1;
    while index < |TrafficLightPhases|
      invariant 1 <= index <= |TrafficLightPhases|
      invariant maxNextQ == MaxOf(values[..index])
    {
      var value := ValueOr0(qValues, ActionKey(nextState, index));
      assert values[..index + 1][..index] == values[..index];
      maxNextQ := if value > maxNextQ then value else maxNextQ;
      index := index + 1;
    }
    assert values[..index] == values;
    assert maxNextQ == MaxNextQ(qValues, nextState);
    var stateActionKey := ActionKey(state, action);
    var oldValue := ValueOr0(qValues, stateActionKey);
    newQValues := qValues;
    newQValues := newQValues[stateActionKey := Blend(oldValue, reward + discountFactor * maxNextQ, learningRate)];
    assert reward + discountFactor * maxNextQ == reward + discountFactor * MaxNextQ(qValues, nextState);
    UpdateWithTarget(state, action, reward, nextState, qValues, learningRate, discountFactor,
                     reward + discountFactor * maxNextQ);
  }
}
