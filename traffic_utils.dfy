/**
 * The discretizer of the per-road engine: a count becomes one of three
 * levels, the four incoming roads' levels become a state key, and the
 * initial Q-table holds a zero for every state key and both phases.
 */
module TrafficUtils {
  import opened Wrappers
  import opened Records
  import opened QTable
  import TrafficData

  datatype Level = Low | Medium | High

  function LevelName(l: Level): string
  {
    match l
    case Low => "low"
    case Medium => "medium"
    case High => "high"
  }

  /** Position of a level in the order low < medium < high. */
  function Rank(l: Level): nat
  {
    match l
    case Low => 0
    case Medium => 1
    case High => 2
  }

  function DetermineTrafficLevel(vehicleCount: real): (l: Level)
    ensures l == Low <==> vehicleCount < 3.0
    ensures l == Medium <==> 3.0 <= vehicleCount < 7.0
    ensures l == High <==> 7.0 <= vehicleCount
    ensures Rank(l) == (if vehicleCount >= 3.0 then 1 else 0) + (if vehicleCount >= 7.0 then 1 else 0)
  {
    if vehicleCount < 3.0 then Low
    else if vehicleCount < 7.0 then Medium
    else High
  }

  /** More vehicles never give a lower level. */
  lemma LevelMonotone(a: real, b: real)
    requires a <= b
    ensures Rank(DetermineTrafficLevel(a)) <= Rank(DetermineTrafficLevel(b))
  {
  }

  /**
   * The level of a property that may be missing: `undefined < 3` and
   * `undefined < 7` are both false, so a missing road reads as "high".
   */
  function LevelOf(count: Option<real>): (l: Level)
    ensures l == Low <==> count.Some? && count.value < 3.0
    ensures l == Medium <==> count.Some? && 3.0 <= count.value < 7.0
    ensures l == High <==> count.None? || 7.0 <= count.value
  {
    match count
    case None => High
    case Some(c) => DetermineTrafficLevel(c)
  }

  /** The roads the state key reads, in the order it reads them. */
  const KeyRoads: seq<string> := ["road_west", "road_east", "road_north", "road_south"]

  /** The key text for four levels: west_east_north_south. */
  function StateName(w: Level, e: Level, n: Level, s: Level): string
  {
    LevelName(w) + "_" + LevelName(e) + "_" + LevelName(n) + "_" + LevelName(s)
  }

  /**
   * `createStateKey`: whatever the object holds, its key is one of the 81
   * states the initial table was built for, so both of its action keys are
   * already there.
   */
  function CreateStateKey(roadTraffic: Record): (key: string)
    ensures ActionKey(key, 0) in InitialQValues() && ActionKey(key, 1) in InitialQValues()
  {
    var (w, e, n, s) := RoadLevels(roadTraffic);
    InitialKeyPresent(w, e, n, s, 0);
    InitialKeyPresent(w, e, n, s, 1);
    StateName(
      LevelOf(Get(roadTraffic, "road_west")),
      LevelOf(Get(roadTraffic, "road_east")),
      LevelOf(Get(roadTraffic, "road_north")),
      LevelOf(Get(roadTraffic, "road_south")))
  }

  /** The state key reads exactly the roads that lead into the junction. */
  lemma KeyRoadsAreIncoming()
    ensures (set r | r in KeyRoads) == TrafficData.IncomingRoads()
  {
    TrafficData.IncomingRoadIds();
  }

  /** Two objects that agree on the four incoming roads have the same key. */
  lemma StateKeyReadsIncomingOnly(a: Record, b: Record)
    requires forall i :: 0 <= i < |KeyRoads| ==> Get(a, KeyRoads[i]) == Get(b, KeyRoads[i])
    ensures CreateStateKey(a) == CreateStateKey(b)
  {
    assert Get(a, KeyRoads[0]) == Get(b, KeyRoads[0]);
    assert Get(a, KeyRoads[1]) == Get(b, KeyRoads[1]);
    assert Get(a, KeyRoads[2]) == Get(b, KeyRoads[2]);
    assert Get(a, KeyRoads[3]) == Get(b, KeyRoads[3]);
  }

  /** Writing any other property, an outgoing road for one, leaves the key as it was. */
  lemma StateKeyIgnoresOtherRoads(roadTraffic: Record, k: string, v: real)
    requires k !in KeyRoads
    ensures CreateStateKey(Put(roadTraffic, k, v)) == CreateStateKey(roadTraffic)
  {
    StateKeyReadsIncomingOnly(Put(roadTraffic, k, v), roadTraffic);
  }

  lemma NoSeparatorInLevelName(l: Level)
    ensures forall i :: 0 <= i < |LevelName(l)| ==> LevelName(l)[i] != '_'
  {
  }

  /** Index of the first "_" in `t`, or `|t|` when there is none. */
  function FirstSeparator(t: string): (i: nat)
    ensures i <= |t|
  {
    if |t| == 0 then 0 else if t[0] == '_' then 0 else 1 + FirstSeparator(t[1..])
  }

  lemma {:induction false} FirstSeparatorAfterWord(x: string, u: string)
    requires forall i :: 0 <= i < |x| ==> x[i] != '_'
    ensures FirstSeparator(x + "_" + u) == |x|
  {
    if |x| > 0 {
      assert (x + "_" + u)[1..] == x[1..] + "_" + u;
      FirstSeparatorAfterWord(x[1..], u);
    }
  }

  /** A word without "_" followed by "_" is recovered from the joined text. */
  lemma SeparatorSplit(x: string, u: string, y: string, v: string)
    requires forall i :: 0 <= i < |x| ==> x[i] != '_'
    requires forall i :: 0 <= i < |y| ==> y[i] != '_'
    requires x + "_" + u == y + "_" + v
    ensures x == y && u == v
  {
    var t := x + "_" + u;
    FirstSeparatorAfterWord(x, u);
    FirstSeparatorAfterWord(y, v);
    assert |x| == |y|;
    assert x == t[..|x|] && y == t[..|y|];
    assert u == t[|x| + 1..] && v == t[|y| + 1..];
  }

  /** Four words joined by "_", the first three without "_", are recovered from the text. */
  lemma JoinInjective(a: string, b: string, c: string, d: string,
                      a': string, b': string, c': string, d': string)
    requires forall i :: 0 <= i < |a| ==> a[i] != '_'
    requires forall i :: 0 <= i < |b| ==> b[i] != '_'
    requires forall i :: 0 <= i < |c| ==> c[i] != '_'
    requires forall i :: 0 <= i < |a'| ==> a'[i] != '_'
    requires forall i :: 0 <= i < |b'| ==> b'[i] != '_'
    requires forall i :: 0 <= i < |c'| ==> c'[i] != '_'
    requires a + "_" + b + "_" + c + "_" + d == a' + "_" + b' + "_" + c' + "_" + d'
    ensures a == a' && b == b' && c == c' && d == d'
  {
    var tail2, tail2' := c + "_" + d, c' + "_" + d';
    var tail3, tail3' := b + "_" + tail2, b' + "_" + tail2';
    assert a + "_" + b + "_" + c + "_" + d == a + "_" + tail3;
    assert a' + "_" + b' + "_" + c' + "_" + d' == a' + "_" + tail3';
    SeparatorSplit(a, tail3, a', tail3');
    SeparatorSplit(b, tail2, b', tail2');
    SeparatorSplit(c, d, c', d');
  }

  lemma LevelNameInjective(a: Level, b: Level)
    ensures LevelName(a) == LevelName(b) <==> a == b
  {
  }

  /** Different level tuples give different keys, because no level word contains "_". */
  lemma StateNameInjective(w: Level, e: Level, n: Level, s: Level,
                           w': Level, e': Level, n': Level, s': Level)
    ensures StateName(w, e, n, s) == StateName(w', e', n', s') <==>
      w == w' && e == e' && n == n' && s == s'
  {
    if StateName(w, e, n, s) == StateName(w', e', n', s') {
      NoSeparatorInLevelName(w); NoSeparatorInLevelName(w');
      NoSeparatorInLevelName(e); NoSeparatorInLevelName(e');
      NoSeparatorInLevelName(n); NoSeparatorInLevelName(n');
      JoinInjective(LevelName(w), LevelName(e), LevelName(n), LevelName(s),
                    LevelName(w'), LevelName(e'), LevelName(n'), LevelName(s'));
      LevelNameInjective(w, w'); LevelNameInjective(e, e');
      LevelNameInjective(n, n'); LevelNameInjective(s, s');
    }
  }

  /** The four levels the key is made of, west to south. */
  function RoadLevels(roadTraffic: Record): (Level, Level, Level, Level)
  {
    (LevelOf(Get(roadTraffic, "road_west")), LevelOf(Get(roadTraffic, "road_east")),
     LevelOf(Get(roadTraffic, "road_north")), LevelOf(Get(roadTraffic, "road_south")))
  }

  /** Two traffic objects share a key exactly when their four road levels agree. */
  lemma StateKeyEqualIffLevelsEqual(a: Record, b: Record)
    ensures CreateStateKey(a) == CreateStateKey(b) <==> RoadLevels(a) == RoadLevels(b)
  {
    var (w, e, n, s) := RoadLevels(a);
    var (w', e', n', s') := RoadLevels(b);
    assert CreateStateKey(a) == StateName(w, e, n, s);
    assert CreateStateKey(b) == StateName(w', e', n', s');
    StateNameInjective(w, e, n, s, w', e', n', s');
  }

  // ---------------------------------------------------------------------
  // The initial Q-table
  // ---------------------------------------------------------------------

  const TrafficLevels: seq<string> := ["low", "medium", "high"]

  function LevelAt(i: nat): (l: Level)
    requires i < 3
    ensures LevelName(l) == TrafficLevels[i] && Rank(l) == i
  {
    if i == 0 then Low else if i == 1 then Medium else High
  }

  /** The four loop counters `w, e, n, s`, west outermost and south innermost. */
  datatype LoopCounters = LoopCounters(w: nat, e: nat, n: nat, s: nat)

  predicate InBounds(c: LoopCounters)
  {
    c.w < 3 && c.e < 3 && c.n < 3 && c.s < 3
  }

  /** How many passes of the innermost body happen before the counters reach `c`. */
  function Position(c: LoopCounters): nat
  {
    27 * c.w + 9 * c.e + 3 * c.n + c.s
  }

  /** The counters of the pass just before `c`: south counts fastest, borrowing from north, east and west. */
  function Retreat(c: LoopCounters): (p: LoopCounters)
    requires Position(c) > 0
    ensures Position(p) + 1 == Position(c)
  {
    if c.s > 0 then c.(s := c.s - 1)
    else if c.n > 0 then c.(n := c.n - 1, s := 2)
    else if c.e > 0 then c.(e := c.e - 1, n := 2, s := 2)
    else LoopCounters(c.w - 1, 2, 2, 2)
  }

  /** The table exists before `c`: every earlier pass had counters within the loop bounds. */
  ghost predicate TableDefined(c: LoopCounters)
  {
    Position(c) > 0 ==> InBounds(Retreat(c))
  }

  /**
   * The state string the loop body builds for the counters `c`, read through
   * the levels, so that `StateNameInjective` applies to it. `StateText` below
   * is the same string read the way the loop body reads it, by indexing
   * `TrafficLevels`; `StateTextIsStateOf` proves the two agree.
   */
  function StateOf(c: LoopCounters): string
    requires InBounds(c)
  {
    StateName(LevelAt(c.w), LevelAt(c.e), LevelAt(c.n), LevelAt(c.s))
  }

  /**
   * The key the loop body writes for the counters `c` and the phase `a`:
   * `${state}_0` or `${state}_1`. Counters outside the loop bounds make no
   * pass; the empty string stands in for them.
   */
  function PassKey(c: LoopCounters, a: nat): string
  {
    if InBounds(c) then ActionKey(StateOf(c), a) else ""
  }

  /**
   * The table once the loops have run every pass before the counters `c`,
   * each pass writing 0 under `key(p, 0)` and `key(p, 1)`. This is the same
   * table as `AtSouth` below, flattened to one pass per step, which is the
   * shape the counting proofs need. The key function is a parameter so that
   * those proofs never unfold the key strings; the loops' keys are `PassKey`.
   */
  function Table(c: LoopCounters, key: (LoopCounters, nat) -> string): QValues
    requires TableDefined(c)
    decreases Position(c)
  {
    if Position(c) == 0 then map[]
    else
      var p := Retreat(c);
      Table(p, key)[key(p, 0) := 0.0][key(p, 1) := 0.0]
  }

  /** The counters before a pass within the bounds are themselves a place the loops reach. */
  lemma RetreatDefined(c: LoopCounters)
    requires TableDefined(c) && Position(c) > 0
    ensures InBounds(Retreat(c)) && TableDefined(Retreat(c))
  {
  }

  /** The loops write only zeros. */
  lemma {:induction false} TableZero(c: LoopCounters, key: (LoopCounters, nat) -> string)
    requires TableDefined(c)
    ensures forall k :: k in Table(c, key) ==> Table(c, key)[k] == 0.0
    decreases Position(c)
  {
    if Position(c) > 0 {
      RetreatDefined(c);
      TableZero(Retreat(c), key);
    }
  }

  /** A base-3 digit and the number above it are determined by `3x + r`. */
  lemma Base3Digit(x: int, r: int, y: int, q: int)
    requires 0 <= r < 3 && 0 <= q < 3 && 3 * x + r == 3 * y + q
    ensures x == y && r == q
  {
  }

  /** Counters within the loop bounds are determined by their position. */
  lemma CountersUnique(c: LoopCounters, d: LoopCounters)
    requires InBounds(c) && InBounds(d)
    ensures Position(c) == Position(d) <==> c == d
  {
    if Position(c) == Position(d) {
      Base3Digit(9 * c.w + 3 * c.e + c.n, c.s, 9 * d.w + 3 * d.e + d.n, d.s);
      Base3Digit(3 * c.w + c.e, c.n, 3 * d.w + d.e, d.n);
      Base3Digit(c.w, c.e, d.w, d.e);
    }
  }

  /** Counters within the loop bounds are determined by their state string. */
  lemma StateOfInjective(c: LoopCounters, d: LoopCounters)
    requires InBounds(c) && InBounds(d)
    ensures StateOf(c) == StateOf(d) <==> c == d
  {
    if StateOf(c) == StateOf(d) {
      StateNameInjective(
        LevelAt(c.w), LevelAt(c.e), LevelAt(c.n), LevelAt(c.s),
        LevelAt(d.w), LevelAt(d.e), LevelAt(d.n), LevelAt(d.s));
      assert c.w == Rank(LevelAt(c.w)) == Rank(LevelAt(d.w)) == d.w;
      assert c.e == Rank(LevelAt(c.e)) == Rank(LevelAt(d.e)) == d.e;
      assert c.n == Rank(LevelAt(c.n)) == Rank(LevelAt(d.n)) == d.n;
      assert c.s == Rank(LevelAt(c.s)) == Rank(LevelAt(d.s)) == d.s;
    }
  }

  /** Different passes, or different phases of one pass, write different keys. */
  ghost predicate PassKeysInjective(key: (LoopCounters, nat) -> string)
  {
    forall p, d, a, b :: InBounds(p) && InBounds(d) && a < 2 && b < 2 && key(p, a) == key(d, b) ==>
      p == d && a == b
  }

  /** The loop body's keys never collide: the state string and the phase digit are recovered from the key. */
  lemma PassKeyInjective()
    ensures PassKeysInjective(PassKey)
  {
    forall p, d, a, b | InBounds(p) && InBounds(d) && a < 2 && b < 2 && PassKey(p, a) == PassKey(d, b)
      ensures p == d && a == b
    {
      ActionKeyInjective(StateOf(p), a, StateOf(d), b);
      StateOfInjective(p, d);
    }
  }

  /** A pass the loops have not reached yet has no key in the table. */
  lemma {:induction false} KeyNotBelow(c: LoopCounters, key: (LoopCounters, nat) -> string, d: LoopCounters, a: nat)
    requires TableDefined(c) && PassKeysInjective(key)
    requires InBounds(d) && Position(c) <= Position(d) && a < 2
    ensures key(d, a) !in Table(c, key)
    decreases Position(c)
  {
    if Position(c) > 0 {
      var p := Retreat(c);
      RetreatDefined(c);
      KeyNotBelow(p, key, d, a);
      assert p != d;
      assert key(d, a) != key(p, 0) && key(d, a) != key(p, 1);
    }
  }

  /** A pass the loops have made has both of its keys in the table. */
  lemma {:induction false} KeyBelow(c: LoopCounters, key: (LoopCounters, nat) -> string, d: LoopCounters, a: nat)
    requires TableDefined(c) && InBounds(d) && Position(d) < Position(c) && a < 2
    ensures key(d, a) in Table(c, key)
    decreases Position(c)
  {
    var p := Retreat(c);
    RetreatDefined(c);
    var m := Table(p, key);
    assert Table(c, key) == m[key(p, 0) := 0.0][key(p, 1) := 0.0];
    if p != d {
      CountersUnique(p, d);
      KeyBelow(p, key, d, a);
    } else if a == 0 {
      assert key(d, 0) == key(p, 0);
    } else {
      assert a == 1;
      assert key(d, 1) == key(p, 1);
    }
  }

  /** Every key in the table is the key of an earlier pass and phase 0 or 1. */
  lemma {:induction false} KeysOfTable(c: LoopCounters, key: (LoopCounters, nat) -> string, k: string)
    requires TableDefined(c) && k in Table(c, key)
    ensures exists d, a :: InBounds(d) && Position(d) < Position(c) && 0 <= a < 2 && k == key(d, a)
    decreases Position(c)
  {
    var p := Retreat(c);
    RetreatDefined(c);
    if k != key(p, 0) && k != key(p, 1) {
      KeysOfTable(p, key, k);
    }
  }

  /** Each pass adds two new keys. */
  lemma {:induction false} TableSize(c: LoopCounters, key: (LoopCounters, nat) -> string)
    requires TableDefined(c) && PassKeysInjective(key)
    ensures |Table(c, key)| == 2 * Position(c)
    decreases Position(c)
  {
    if Position(c) > 0 {
      var p := Retreat(c);
      RetreatDefined(c);
      TableSize(p, key);
      var m := Table(p, key);
      KeyNotBelow(p, key, p, 0);
      KeyNotBelow(p, key, p, 1);
      assert key(p, 0) != key(p, 1);
      assert |m[key(p, 0) := 0.0]| == |m| + 1;
      assert key(p, 1) !in m[key(p, 0) := 0.0];
    }
  }

  /** The pass at which the loops build the state of a level tuple. */
  function CountersOf(w: Level, e: Level, n: Level, s: Level): (c: LoopCounters)
    ensures InBounds(c) && StateOf(c) == StateName(w, e, n, s)
  {
    var c := LoopCounters(Rank(w), Rank(e), Rank(n), Rank(s));
    assert LevelAt(c.w) == w && LevelAt(c.e) == e && LevelAt(c.n) == n && LevelAt(c.s) == s;
    c
  }

  lemma SuffixIsActionKey(state: string)
    ensures state + "_0" == ActionKey(state, 0) && state + "_1" == ActionKey(state, 1)
  {
    assert Digits(0) == "0" && Digits(1) == "1";
  }

  /** The state string the loop body builds from the four counters, indexing `TrafficLevels`. */
  function StateText(w: nat, e: nat, n: nat, s: nat): string
    requires w < 3 && e < 3 && n < 3 && s < 3
  {
    TrafficLevels[w] + "_" + TrafficLevels[e] + "_" + TrafficLevels[n] + "_" + TrafficLevels[s]
  }

  /**
   * The table the four nested loops have built when they stand at `w, e, n, s`,
   * one function per loop: `AtSouth` inside the innermost loop, `AtNorth`,
   * `AtEast` and `AtWest` at the head of the three loops around it.
   */
  function AtSouth(w: nat, e: nat, n: nat, s: nat): QValues
    requires w < 3 && e < 3 && n < 3 && s <= 3
    decreases w, e, n, s, 3
  {
    if s == 0 then AtNorth(w, e, n)
    else AtSouth(w, e, n, s - 1)[StateText(w, e, n, s - 1) + "_0" := 0.0][StateText(w, e, n, s - 1) + "_1" := 0.0]
  }

  function AtNorth(w: nat, e: nat, n: nat): QValues
    requires w < 3 && e < 3 && n <= 3
    decreases w, e, n, 0, 2
  {
    if n == 0 then AtEast(w, e) else AtSouth(w, e, n - 1, 3)
  }

  function AtEast(w: nat, e: nat): QValues
    requires w < 3 && e <= 3
    decreases w, e, 0, 0, 1
  {
    if e == 0 then AtWest(w) else AtNorth(w, e - 1, 3)
  }

  function AtWest(w: nat): QValues
    requires w <= 3
    decreases w, 0, 0, 0, 0
  {
    if w == 0 then map[] else AtEast(w - 1, 3)
  }

  /** What `createInitialQValues` returns: the table once all four loops have finished. */
  function InitialQValues(): QValues
  {
    AtWest(3)
  }

  /** The loop body's string is the state of its counters. */
  lemma StateTextIsStateOf(w: nat, e: nat, n: nat, s: nat)
    requires w < 3 && e < 3 && n < 3 && s < 3
    ensures StateText(w, e, n, s) + "_0" == PassKey(LoopCounters(w, e, n, s), 0)
    ensures StateText(w, e, n, s) + "_1" == PassKey(LoopCounters(w, e, n, s), 1)
  {
    assert StateText(w, e, n, s) == StateOf(LoopCounters(w, e, n, s));
    SuffixIsActionKey(StateText(w, e, n, s));
  }

  /** Inside the innermost loop, the loops' table is the table of every earlier pass. */
  lemma {:induction false} SouthAgrees(w: nat, e: nat, n: nat, s: nat)
    requires w < 3 && e < 3 && n < 3 && s <= 3
    ensures AtSouth(w, e, n, s) == Table(LoopCounters(w, e, n, s), PassKey)
    decreases w, e, n, s, 3
  {
    if s == 0 {
      NorthAgrees(w, e, n);
    } else {
      var p := LoopCounters(w, e, n, s - 1);
      assert Retreat(LoopCounters(w, e, n, s)) == p;
      SouthAgrees(w, e, n, s - 1);
      StateTextIsStateOf(w, e, n, s - 1);
      assert AtSouth(w, e, n, s) == Table(p, PassKey)[PassKey(p, 0) := 0.0][PassKey(p, 1) := 0.0];
    }
  }

  lemma {:induction false} NorthAgrees(w: nat, e: nat, n: nat)
    requires w < 3 && e < 3 && n <= 3
    ensures AtNorth(w, e, n) == Table(LoopCounters(w, e, n, 0), PassKey)
    decreases w, e, n, 0, 2
  {
    if n == 0 {
      EastAgrees(w, e);
    } else {
      SouthAgrees(w, e, n - 1, 3);
      assert Retreat(LoopCounters(w, e, n, 0)) == Retreat(LoopCounters(w, e, n - 1, 3));
    }
  }

  lemma {:induction false} EastAgrees(w: nat, e: nat)
    requires w < 3 && e <= 3
    ensures AtEast(w, e) == Table(LoopCounters(w, e, 0, 0), PassKey)
    decreases w, e, 0, 0, 1
  {
    if e == 0 {
      WestAgrees(w);
    } else {
      NorthAgrees(w, e - 1, 3);
      assert Retreat(LoopCounters(w, e, 0, 0)) == Retreat(LoopCounters(w, e - 1, 3, 0));
    }
  }

  lemma {:induction false} WestAgrees(w: nat)
    requires w <= 3
    ensures AtWest(w) == Table(LoopCounters(w, 0, 0, 0), PassKey)
    decreases w, 0, 0, 0, 0
  {
    if w > 0 {
      EastAgrees(w - 1, 3);
      assert Retreat(LoopCounters(w, 0, 0, 0)) == Retreat(LoopCounters(w - 1, 3, 0, 0));
    }
  }

  /** The final counters stand one past the last pass; the table of all passes is the loops' table. */
  lemma FinalTable()
    ensures TableDefined(LoopCounters(3, 0, 0, 0)) && Position(LoopCounters(3, 0, 0, 0)) == 81
    ensures InitialQValues() == Table(LoopCounters(3, 0, 0, 0), PassKey)
  {
    WestAgrees(3);
  }

  lemma InitialKeyPresent(w: Level, e: Level, n: Level, s: Level, a: nat)
    requires a < 2
    ensures ActionKey(StateName(w, e, n, s), a) in InitialQValues()
  {
    FinalTable();
    KeyBelow(LoopCounters(3, 0, 0, 0), PassKey, CountersOf(w, e, n, s), a);
  }

  lemma InitialKeyKnown(k: string)
    requires k in InitialQValues()
    ensures exists w, e, n, s, a :: 0 <= a < 2 && k == ActionKey(StateName(w, e, n, s), a)
  {
    FinalTable();
    KeysOfTable(LoopCounters(3, 0, 0, 0), PassKey, k);
    var d, a :| InBounds(d) && Position(d) < 81 && 0 <= a < 2 && k == PassKey(d, a);
    assert k == ActionKey(StateOf(d), a);
    assert k == ActionKey(StateName(LevelAt(d.w), LevelAt(d.e), LevelAt(d.n), LevelAt(d.s)), a);
  }

  /**
   * The initial table: 3^4 states times 2 phases, 162 distinct keys, every
   * value 0, and every key is some state's key for phase 0 or 1.
   */
  lemma InitialQValuesShape()
    ensures |InitialQValues()| == 162
    ensures forall k :: k in InitialQValues() ==> InitialQValues()[k] == 0.0
    ensures forall w, e, n, s, a :: 0 <= a < 2 ==> ActionKey(StateName(w, e, n, s), a) in InitialQValues()
    ensures forall k :: k in InitialQValues() ==>
      exists w, e, n, s, a :: 0 <= a < 2 && k == ActionKey(StateName(w, e, n, s), a)
  {
    FinalTable();
    PassKeyInjective();
    TableSize(LoopCounters(3, 0, 0, 0), PassKey);
    TableZero(LoopCounters(3, 0, 0, 0), PassKey);
    forall w, e, n, s, a | 0 <= a < 2
      ensures ActionKey(StateName(w, e, n, s), a) in InitialQValues()
    {
      InitialKeyPresent(w, e, n, s, a);
    }
    forall k | k in InitialQValues()
      ensures exists w, e, n, s, a :: 0 <= a < 2 && k == ActionKey(StateName(w, e, n, s), a)
    {
      InitialKeyKnown(k);
    }
  }

  /** Whatever the traffic, both keys of its state are in the initial table. */
  lemma InitialQValuesCoverEveryState(roadTraffic: Record)
    ensures CreateStateKey(roadTraffic) + "_0" in InitialQValues()
    ensures CreateStateKey(roadTraffic) + "_1" in InitialQValues()
  {
    SuffixIsActionKey(CreateStateKey(roadTraffic));
  }

  /**
   * Four nested loops over the levels, writing a zero for phase 0 and phase 1
   * of each state (the loop bound 3 is the length of `TrafficLevels`).
   */
  method CreateInitialQValues() returns (initialQValues: QValues)
    ensures initialQValues == InitialQValues()
  {
    initialQValues := map[];
    var w := 0;
    while w < 3
      invariant 0 <= w <= 3
      invariant initialQValues == AtWest(w)
    {
      var e := 0;
      while e < 3
        invariant 0 <= e <= 3
        invariant initialQValues == AtEast(w, e)
      {
        var n := 0;
        while n < 3
          invariant 0 <= n <= 3
          invariant initialQValues == AtNorth(w, e, n)
        {
          var s := 0;
          while s < 3
            invariant 0 <= s <= 3
            invariant initialQValues == AtSouth(w, e, n, s)
          {
            var state := StateText(w, e, n, s);
            initialQValues := initialQValues[state + "_0" := 0.0];
            initialQValues := initialQValues[state + "_1" := 0.0];
            s := s + 1;
          }
          n := n + 1;
        }
        e := e + 1;
      }
      w := w + 1;
    }
  }
}
