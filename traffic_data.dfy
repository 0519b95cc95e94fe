/**
 * The fixed junction of the per-road engine: four roads leading into the
 * centre, four leading out, and two light phases, each naming the roads it
 * gives a green light.
 */
module TrafficData {

  datatype TrafficEdge = TrafficEdge(id: string, from: string, to: string, length: int, angle: int)

  datatype TrafficLightPhase = TrafficLightPhase(
    id: nat, name: string, duration: int, color: string, activeRoads: seq<string>)

  const TrafficEdges: seq<TrafficEdge> := [
    TrafficEdge("road_west", "west", "center", 150, 0),
    TrafficEdge("road_east", "east", "center", 150, 180),
    TrafficEdge("road_north", "north", "center", 150, 90),
    TrafficEdge("road_south", "south", "center", 150, 270),
    TrafficEdge("road_west_out", "center", "west", 150, 180),
    TrafficEdge("road_east_out", "center", "east", 150, 0),
    TrafficEdge("road_north_out", "center", "north", 150, 270),
    TrafficEdge("road_south_out", "center", "south", 150, 90)
  ]

  const TrafficLightPhases: seq<TrafficLightPhase> := [
    TrafficLightPhase(0, "East-West Green", 30, "#4ade80", ["road_west", "road_east"]),
    TrafficLightPhase(1, "North-South Green", 30, "#4ade80", ["road_north", "road_south"])
  ]

  /** The ids of the roads that lead into the junction. */
  function IncomingRoads(): set<string>
  {
    set i | 0 <= i < |TrafficEdges| && TrafficEdges[i].to == "center" :: TrafficEdges[i].id
  }

  /** The ids of the roads that lead away from the junction. */
  function OutgoingRoads(): set<string>
  {
    set i | 0 <= i < |TrafficEdges| && TrafficEdges[i].from == "center" :: TrafficEdges[i].id
  }

  function EdgeIds(): set<string>
  {
    set i | 0 <= i < |TrafficEdges| :: TrafficEdges[i].id
  }

  /** The roads a phase serves, as a set. */
  function Served(p: nat): set<string>
    requires p < |TrafficLightPhases|
  {
    set r | r in TrafficLightPhases[p].activeRoads
  }

  lemma PhaseIdsAreIndices()
    ensures |TrafficLightPhases| == 2
    ensures forall i :: 0 <= i < |TrafficLightPhases| ==> TrafficLightPhases[i].id == i
  {
  }

  lemma PhaseRoads()
    ensures TrafficLightPhases[0].activeRoads == ["road_west", "road_east"]
    ensures TrafficLightPhases[1].activeRoads == ["road_north", "road_south"]
  {
  }

  lemma IncomingRoadIds()
    ensures IncomingRoads() == {"road_west", "road_east", "road_north", "road_south"}
  {
    var ids := {"road_west", "road_east", "road_north", "road_south"};
    forall r | r in IncomingRoads() ensures r in ids {
      var i :| 0 <= i < |TrafficEdges| && TrafficEdges[i].to == "center" && TrafficEdges[i].id == r;
      assert i < 4;
    }
    assert TrafficEdges[0].id in IncomingRoads() && TrafficEdges[1].id in IncomingRoads();
    assert TrafficEdges[2].id in IncomingRoads() && TrafficEdges[3].id in IncomingRoads();
  }

  lemma OutgoingRoadIds()
    ensures OutgoingRoads() == {"road_west_out", "road_east_out", "road_north_out", "road_south_out"}
  {
    var ids := {"road_west_out", "road_east_out", "road_north_out", "road_south_out"};
    forall r | r in OutgoingRoads() ensures r in ids {
      var i :| 0 <= i < |TrafficEdges| && TrafficEdges[i].from == "center" && TrafficEdges[i].id == r;
      assert 4 <= i;
    }
    assert TrafficEdges[4].id in OutgoingRoads() && TrafficEdges[5].id in OutgoingRoads();
    assert TrafficEdges[6].id in OutgoingRoads() && TrafficEdges[7].id in OutgoingRoads();
  }

  lemma IncomingAndOutgoing()
    ensures IncomingRoads() !! OutgoingRoads()
    ensures IncomingRoads() + OutgoingRoads() == EdgeIds()
  {
    IncomingRoadIds();
    OutgoingRoadIds();
    forall r | r in EdgeIds() ensures r in IncomingRoads() + OutgoingRoads() {
      var i :| 0 <= i < |TrafficEdges| && TrafficEdges[i].id == r;
    }
  }

  /** Every road into the junction ends at its centre; every road out starts there. */
  lemma EdgesMeetAtCenter()
    ensures forall i :: 0 <= i < 4 ==> TrafficEdges[i].to == "center" && TrafficEdges[i].from != "center"
    ensures forall i :: 4 <= i < |TrafficEdges| ==> TrafficEdges[i].from == "center" && TrafficEdges[i].to != "center"
  {
  }

  /** The two phases serve disjoint roads and together serve exactly the incoming ones. */
  lemma PhasesPartitionIncoming()
    ensures Served(0) !! Served(1)
    ensures Served(0) + Served(1) == IncomingRoads()
  {
    IncomingRoadIds();
    assert Served(0) == {"road_west", "road_east"};
    assert Served(1) == {"road_north", "road_south"};
  }

  /** Every road a phase names is an edge of the junction, and none of them leads out. */
  lemma ActiveRoadsAreIncomingEdges()
    ensures forall p, i :: 0 <= p < |TrafficLightPhases| && 0 <= i < |TrafficLightPhases[p].activeRoads| ==>
      TrafficLightPhases[p].activeRoads[i] in EdgeIds() &&
      TrafficLightPhases[p].activeRoads[i] !in OutgoingRoads()
  {
    IncomingRoadIds();
    OutgoingRoadIds();
    IncomingAndOutgoing();
  }

  /** No phase names a road twice. */
  lemma ActiveRoadsDistinct(p: nat)
    requires p < |TrafficLightPhases|
    ensures forall i, j :: 0 <= i < j < |TrafficLightPhases[p].activeRoads| ==>
      TrafficLightPhases[p].activeRoads[i] != TrafficLightPhases[p].activeRoads[j]
  {
  }
}
