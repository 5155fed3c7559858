/** The ranked sharder list of core/node/node.go: every node carries a sliding window of at most
    twenty +1/-1 outcomes and a position-weighted score, and the list of ids is kept in descending
    score order by removing an id, searching its new place by bisection and inserting it again.

    `Ranking` is the list and the table as values; `NodeHolder` is the object that edits a backing
    array in place and is proved to follow `Adjust` on those values. */
module NodeRanking {
  import opened Support
  import opened Cardinality

  const STAT_SIZE := 20
  const MAX_WEIGHT := 210

  datatype Node = Node(weight: int, stats: seq<int>)

  datatype Ranking = Ranking(nodes: seq<string>, stats: map<string, Node>)

  // ----- scores -----

  /** Sum of (i+1) * s[i]: later outcomes weigh more. */
  function Weighted(s: seq<int>): int {
    if s == [] then 0 else Weighted(s[..|s| - 1]) + |s| * s[|s| - 1]
  }

  function Sum(s: seq<int>): int {
    if s == [] then 0 else Sum(s[..|s| - 1]) + s[|s| - 1]
  }

  /** Appends an outcome and drops the oldest one when more than twenty are held. */
  function Slide(window: seq<int>, res: int): seq<int> {
    var s := window + [res];
    if |s| > STAT_SIZE then s[1..] else s
  }

  ghost predicate Outcomes(s: seq<int>) {
    forall i :: 0 <= i < |s| ==> s[i] == 1 || s[i] == -1
  }

  ghost predicate AllOf(s: seq<int>, v: int) {
    forall i :: 0 <= i < |s| ==> s[i] == v
  }

  ghost predicate WellScored(n: Node) {
    && 1 <= |n.stats| <= STAT_SIZE
    && Outcomes(n.stats)
    && n.weight == Weighted(n.stats)
  }

  // ----- the list -----

  ghost predicate Listed(nodes: seq<string>, stats: map<string, Node>) {
    forall i :: 0 <= i < |nodes| ==> nodes[i] in stats
  }

  ghost predicate Descending(nodes: seq<string>, stats: map<string, Node>)
    requires Listed(nodes, stats)
  {
    forall i, j :: 0 <= i < j < |nodes| ==> stats[nodes[i]].weight >= stats[nodes[j]].weight
  }

  /** The list holds exactly the ids of the table, once each. */
  ghost predicate Indexed(r: Ranking) {
    && Distinct(r.nodes)
    && forall id :: id in r.nodes <==> id in r.stats
  }

  ghost predicate Ranked(r: Ranking) {
    && Indexed(r)
    && Listed(r.nodes, r.stats)
    && Descending(r.nodes, r.stats)
    && forall id :: id in r.stats ==> WellScored(r.stats[id])
  }

  /** Position of the first occurrence of id, or the length of the list. */
  function IndexOf(nodes: seq<string>, id: string): (k: nat)
    ensures k <= |nodes|
    ensures k < |nodes| ==> nodes[k] == id
    ensures id !in nodes[..k]
    ensures k == |nodes| <==> id !in nodes
  {
    if nodes == [] then 0
    else if nodes[0] == id then 0
    else
      var k := IndexOf(nodes[1..], id);
      assert nodes[..k + 1] == [nodes[0]] + nodes[1..][..k];
      assert nodes == [nodes[0]] + nodes[1..];
      k + 1
  }

  function Without(nodes: seq<string>, id: string): seq<string> {
    var k := IndexOf(nodes, id);
    if k == |nodes| then nodes else nodes[..k] + nodes[k + 1..]
  }

  function InsertAt(nodes: seq<string>, k: nat, id: string): seq<string>
    requires k <= |nodes|
  {
    nodes[..k] + [id] + nodes[k..]
  }

  /** The bisection of sort.Search for the first node that weighs less than w, on nodes[i..j]. */
  function Bisect(nodes: seq<string>, stats: map<string, Node>, w: int, i: nat, j: nat): (k: nat)
    requires i <= j <= |nodes|
    requires Listed(nodes, stats)
    ensures i <= k <= j
    decreases j - i
  {
    if i == j then i
    else
      var h := (i + j) / 2;
      if stats[nodes[h]].weight < w then Bisect(nodes, stats, w, i, h)
      else Bisect(nodes, stats, w, h + 1, j)
  }

  /** The same search as it is done, on any list: None when it looks up an id that has no table entry, where
      the source dereferences nil. */
  function Probe(nodes: seq<string>, stats: map<string, Node>, w: int, i: nat, j: nat): (k: Option<nat>)
    requires i <= j <= |nodes|
    ensures k.Some? ==> i <= k.value <= j
    decreases j - i
  {
    if i == j then Some(i)
    else
      var h := (i + j) / 2;
      if nodes[h] !in stats then None
      else if stats[nodes[h]].weight < w then Probe(nodes, stats, w, i, h)
      else Probe(nodes, stats, w, h + 1, j)
  }

  function Rescored(n: Node, res: int): Node {
    Node(Weighted(Slide(n.stats, res)), Slide(n.stats, res))
  }

  /** Where an id of the table goes back in after the outcome. */
  function Slot(r: Ranking, id: string, res: int): (k: nat)
    requires Listed(r.nodes, r.stats)
    requires id in r.stats
    ensures k <= |Without(r.nodes, id)|
  {
    var rest := Without(r.nodes, id);
    var n := Rescored(r.stats[id], res);
    ListedWithout(r.nodes, r.stats, id);
    Bisect(rest, r.stats[id := n], n.weight, 0, |rest|)
  }

  /** One recorded outcome. An id the table does not know is inserted with the default weight 1
      and the table is left alone. */
  function Adjust(r: Ranking, id: string, res: int): Ranking
    requires Listed(r.nodes, r.stats)
  {
    if id in r.stats then
      Ranking(InsertAt(Without(r.nodes, id), Slot(r, id, res), id), r.stats[id := Rescored(r.stats[id], res)])
    else
      Ranking(InsertAt(r.nodes, Bisect(r.nodes, r.stats, 1, 0, |r.nodes|), id), r.stats)
  }

  /** One recorded outcome on any list, also one that holds unknown ids; None when the search fails. */
  function TryAdjust(r: Ranking, id: string, res: int): Option<Ranking> {
    var rest := if id in r.stats then Without(r.nodes, id) else r.nodes;
    var stats := Recorded(r.stats, id, res);
    var k := Probe(rest, stats, if id in stats then stats[id].weight else 1, 0, |rest|);
    if k.None? then None else Some(Ranking(InsertAt(rest, k.value, id), stats))
  }

  function Recorded(stats: map<string, Node>, id: string, res: int): map<string, Node> {
    if id in stats then stats[id := Rescored(stats[id], res)] else stats
  }

  /** What a failed search leaves behind: the outcome is recorded, and the tail of the list has been moved
      over the id, with the last entry standing twice. */
  function Interrupted(r: Ranking, id: string, res: int): Ranking {
    Ranking(if id in r.stats then Shifted(r.nodes, id) else r.nodes, Recorded(r.stats, id, res))
  }

  function Shifted(nodes: seq<string>, id: string): seq<string> {
    if id in nodes then Without(nodes, id) + [nodes[|nodes| - 1]] else nodes
  }

  function Initial(nodes: seq<string>): Ranking {
    Ranking(nodes, map id | id in nodes :: Node(1, [1]))
  }

  /** A sequence of Success (+1) and Fail (-1) calls. */
  datatype Call = Call(id: string, res: int)

  ghost predicate KnownCalls(stats: map<string, Node>, calls: seq<Call>) {
    forall i :: 0 <= i < |calls| ==> calls[i].id in stats && (calls[i].res == 1 || calls[i].res == -1)
  }

  // ----- lemmas about scores -----

  lemma {:induction false} SlideWeight(s: seq<int>, res: int)
    ensures Weighted(s + [res]) == Weighted(s) + (|s| + 1) * res
    ensures Sum(s + [res]) == Sum(s) + res
  {
    assert (s + [res])[..|s|] == s;
  }

  /** Dropping the oldest outcome lowers every other position by one. */
  lemma {:induction false} DropOldest(s: seq<int>)
    requires s != []
    ensures Weighted(s[1..]) == Weighted(s) - Sum(s)
  {
    var m := |s| - 1;
    if m == 0 {
      assert s[1..] == [] && s[..0] == [];
    } else {
      DropOldest(s[..m]);
      assert s[..m][1..] == s[1..][..m - 1];
      assert s[1..][m - 1] == s[m];
    }
  }

  /** The sliding law: on a full window the new weight is the old one, less the sum of the window,
      plus or minus twenty. */
  lemma SlidingLaw(window: seq<int>, res: int)
    requires 1 <= |window| <= STAT_SIZE
    ensures |window| < STAT_SIZE ==> Weighted(Slide(window, res)) == Weighted(window) + (|window| + 1) * res
    ensures |window| == STAT_SIZE ==> Weighted(Slide(window, res)) == Weighted(window) - Sum(window) + STAT_SIZE * res
  {
    SlideWeight(window, res);
    if |window| == STAT_SIZE {
      FullWindowSlides(window, res);
    }
  }

  lemma FullWindowSlides(window: seq<int>, res: int)
    requires |window| == STAT_SIZE
    ensures Weighted(Slide(window, res)) == Weighted(window) - Sum(window) + STAT_SIZE * res
  {
    var s := window + [res];
    var w, sum := Weighted(window), Sum(window);
    SlideWeight(window, res);
    assert Weighted(s) == w + 21 * res && Sum(s) == sum + res;
    DropOldest(s);
    assert Slide(window, res) == s[1..];
  }

  lemma {:induction false} SumBounds(s: seq<int>)
    requires Outcomes(s)
    ensures -|s| <= Sum(s) <= |s|
    ensures Sum(s) == |s| <==> AllOf(s, 1)
    ensures Sum(s) == -|s| <==> AllOf(s, -1)
  {
    if s != [] {
      var m := |s| - 1;
      SumBounds(s[..m]);
      if Sum(s) == |s| { assert AllOf(s[..m], 1); assert forall i :: 0 <= i < m ==> s[i] == s[..m][i]; }
      if AllOf(s, 1) { assert AllOf(s[..m], 1); }
      if Sum(s) == -|s| { assert AllOf(s[..m], -1); assert forall i :: 0 <= i < m ==> s[i] == s[..m][i]; }
      if AllOf(s, -1) { assert AllOf(s[..m], -1); }
    }
  }

  function Triangle(n: nat): int {
    if n == 0 then 0 else Triangle(n - 1) + n
  }

  lemma {:induction false} TriangleGrows(m: nat, n: nat)
    requires m <= n
    ensures Triangle(m) <= Triangle(n)
    ensures m < n ==> Triangle(m) < Triangle(n)
    decreases n
  {
    if m < n {
      TriangleGrows(m, n - 1);
    }
  }

  lemma TriangleOfWindow()
    ensures Triangle(STAT_SIZE) == MAX_WEIGHT
  {
    assert Triangle(5) == 15;
    assert Triangle(10) == 55;
    assert Triangle(15) == 120;
  }

  lemma {:induction false} WeightBounds(s: seq<int>)
    requires Outcomes(s)
    ensures -Triangle(|s|) <= Weighted(s) <= Triangle(|s|)
    ensures Weighted(s) == Triangle(|s|) <==> AllOf(s, 1)
    ensures Weighted(s) == -Triangle(|s|) <==> AllOf(s, -1)
  {
    if s != [] {
      var m := |s| - 1;
      WeightBounds(s[..m]);
      if Weighted(s) == Triangle(|s|) { assert AllOf(s[..m], 1); assert forall i :: 0 <= i < m ==> s[i] == s[..m][i]; }
      if AllOf(s, 1) { assert AllOf(s[..m], 1); }
      if Weighted(s) == -Triangle(|s|) {
        assert AllOf(s[..m], -1) && forall i :: 0 <= i < m ==> s[i] == s[..m][i];
      }
      if AllOf(s, -1) { assert AllOf(s[..m], -1); }
    }
  }

  lemma WeightWithinRange(n: Node)
    requires WellScored(n)
    ensures -MAX_WEIGHT <= n.weight <= MAX_WEIGHT
    ensures n.weight == MAX_WEIGHT <==> |n.stats| == STAT_SIZE && AllOf(n.stats, 1)
    ensures n.weight == -MAX_WEIGHT <==> |n.stats| == STAT_SIZE && AllOf(n.stats, -1)
  {
    WeightBounds(n.stats);
    TriangleGrows(|n.stats|, STAT_SIZE);
    TriangleOfWindow();
  }

  /** A success raises a weight unless it is already maximal, a failure lowers it unless it is already
      minimal. Both also when the window slides. */
  lemma OutcomeMovesWeight(n: Node)
    requires WellScored(n)
    ensures Weighted(Slide(n.stats, 1)) >= n.weight
    ensures Weighted(Slide(n.stats, 1)) == n.weight <==> n.weight == MAX_WEIGHT
    ensures Weighted(Slide(n.stats, -1)) <= n.weight
    ensures Weighted(Slide(n.stats, -1)) == n.weight <==> n.weight == -MAX_WEIGHT
  {
    SlidingLaw(n.stats, 1);
    SlidingLaw(n.stats, -1);
    SumBounds(n.stats);
    WeightWithinRange(n);
  }

  // ----- what an outcome leaves in the table -----

  /** The window of a known id is the last twenty of its old window followed by the outcome, and its weight
      is the sum over that window; with a weight that was right before, the new one is the old one plus
      or minus the next position, or, on a full window, less its sum and plus or minus twenty. Nothing else
      changes. */
  ghost predicate RecordsOutcome(before: map<string, Node>, after: map<string, Node>, id: string, res: int) {
    && after.Keys == before.Keys
    && (forall x :: x in before && x != id ==> after[x] == before[x])
    && (id in before ==> NodeRecords(before[id], after[id], res))
  }

  ghost predicate NodeRecords(was: Node, now: Node, res: int) {
    && now.stats == (if |was.stats| < 20 then was.stats + [res] else was.stats[1..] + [res])
    && now.weight == Weighted(now.stats)
    && (WellScored(was) ==>
          now.weight == if |was.stats| < 20 then was.weight + (|was.stats| + 1) * res
                        else was.weight - Sum(was.stats) + 20 * res)
  }

  lemma RescoredRecords(n: Node, res: int)
    ensures NodeRecords(n, Rescored(n, res), res)
  {
    assert |n.stats| >= 20 ==> (n.stats + [res])[1..] == n.stats[1..] + [res];
    if WellScored(n) {
      SlidingLaw(n.stats, res);
    }
  }

  lemma RecordedRecords(stats: map<string, Node>, id: string, res: int)
    ensures RecordsOutcome(stats, Recorded(stats, id, res), id, res)
  {
    if id in stats {
      RescoredRecords(stats[id], res);
    }
  }

  /** On a ranked list a success raises the weight of a known id unless it is 210, and a failure lowers it
      unless it is -210. */
  lemma OutcomeInTable(r: Ranking, id: string)
    requires Ranked(r) && id in r.stats
    ensures RecordsOutcome(r.stats, Adjust(r, id, 1).stats, id, 1)
    ensures RecordsOutcome(r.stats, Adjust(r, id, -1).stats, id, -1)
    ensures if r.stats[id].weight == 210 then Adjust(r, id, 1).stats[id].weight == 210
            else Adjust(r, id, 1).stats[id].weight > r.stats[id].weight
    ensures if r.stats[id].weight == -210 then Adjust(r, id, -1).stats[id].weight == -210
            else Adjust(r, id, -1).stats[id].weight < r.stats[id].weight
  {
    RecordedRecords(r.stats, id, 1);
    RecordedRecords(r.stats, id, -1);
    OutcomeMovesWeight(r.stats[id]);
  }

  // ----- lemmas about the list -----

  lemma ListedWithout(nodes: seq<string>, stats: map<string, Node>, id: string)
    requires Listed(nodes, stats)
    ensures Listed(Without(nodes, id), stats)
  {
    var rest := Without(nodes, id);
    forall i | 0 <= i < |rest| ensures rest[i] in stats {
      assert rest[i] in nodes;
    }
  }

  /** Everything before position k weighs at least w, everything from it on weighs less. */
  ghost predicate Splits(nodes: seq<string>, stats: map<string, Node>, w: int, k: nat)
    requires Listed(nodes, stats)
  {
    && k <= |nodes|
    && (forall x :: 0 <= x < k ==> stats[nodes[x]].weight >= w)
    && (forall x :: k <= x < |nodes| ==> stats[nodes[x]].weight < w)
  }

  /** On a descending list the bisection finds the boundary. */
  lemma {:induction false} BisectSplits(nodes: seq<string>, stats: map<string, Node>, w: int, i: nat, j: nat)
    requires i <= j <= |nodes|
    requires Listed(nodes, stats)
    requires Descending(nodes, stats)
    requires forall x :: 0 <= x < i ==> stats[nodes[x]].weight >= w
    requires forall x :: j <= x < |nodes| ==> stats[nodes[x]].weight < w
    ensures Splits(nodes, stats, w, Bisect(nodes, stats, w, i, j))
    decreases j - i
  {
    if i < j {
      var h := (i + j) / 2;
      if stats[nodes[h]].weight < w {
        BisectSplits(nodes, stats, w, i, h);
      } else {
        BisectSplits(nodes, stats, w, h + 1, j);
      }
    }
  }

  lemma WithoutIsRest(nodes: seq<string>, id: string)
    requires Distinct(nodes)
    requires id in nodes
    ensures Distinct(Without(nodes, id))
    ensures forall x :: x in Without(nodes, id) <==> x in nodes && x != id
  {
    var k := IndexOf(nodes, id);
    var rest := Without(nodes, id);
    forall x | x in nodes && x != id ensures x in rest {
      var i :| 0 <= i < |nodes| && nodes[i] == x;
      assert rest[if i < k then i else i - 1] == x;
    }
    forall x | x in rest ensures x in nodes && x != id {
      var i :| 0 <= i < |rest| && rest[i] == x;
      assert rest[i] == nodes[if i < k then i else i + 1];
    }
  }

  lemma InsertKeepsDistinct(nodes: seq<string>, k: nat, id: string)
    requires k <= |nodes|
    requires Distinct(nodes)
    requires id !in nodes
    ensures Distinct(InsertAt(nodes, k, id))
    ensures forall x :: x in InsertAt(nodes, k, id) <==> x in nodes || x == id
    ensures IndexOf(InsertAt(nodes, k, id), id) == k
  {
    var all := InsertAt(nodes, k, id);
    assert all[k] == id;
    forall x | x in nodes ensures x in all {
      var i :| 0 <= i < |nodes| && nodes[i] == x;
      assert all[if i < k then i else i + 1] == x;
    }
    assert forall i :: 0 <= i < |all| && i != k ==> all[i] == nodes[if i < k then i else i - 1];
    FirstIsIndex(all, id, k);
  }

  lemma InsertKeepsDescending(nodes: seq<string>, stats: map<string, Node>, k: nat, id: string)
    requires Listed(nodes, stats)
    requires Descending(nodes, stats)
    requires id in stats
    requires Splits(nodes, stats, stats[id].weight, k)
    ensures Listed(InsertAt(nodes, k, id), stats)
    ensures Descending(InsertAt(nodes, k, id), stats)
  {
    var all := InsertAt(nodes, k, id);
    assert forall i :: 0 <= i < |all| ==> all[i] == if i < k then nodes[i] else if i == k then id else nodes[i - 1];
  }

  lemma RestAt(nodes: seq<string>, id: string)
    requires Distinct(nodes)
    requires id in nodes
    ensures |Without(nodes, id)| == |nodes| - 1
    ensures forall x :: 0 <= x < |Without(nodes, id)| ==>
              Without(nodes, id)[x] != id
              && Without(nodes, id)[x] == nodes[if x < IndexOf(nodes, id) then x else x + 1]
  {
    var k, rest := IndexOf(nodes, id), Without(nodes, id);
    GapAt(nodes, k);
    forall x | 0 <= x < |rest| ensures rest[x] != id {
      assert rest[x] == nodes[if x < k then x else x + 1] && nodes[k] == id;
    }
  }

  lemma GapAt(nodes: seq<string>, k: nat)
    requires k < |nodes|
    ensures var rest := nodes[..k] + nodes[k + 1..];
            |rest| == |nodes| - 1 && forall x :: 0 <= x < |rest| ==> rest[x] == nodes[if x < k then x else x + 1]
  {
  }

  /** The list without an id is still descending, under any table that differs only at that id. */
  lemma RestDescends(r: Ranking, id: string, n: Node)
    requires Ranked(r)
    requires id in r.stats
    ensures Listed(Without(r.nodes, id), r.stats[id := n])
    ensures Descending(Without(r.nodes, id), r.stats[id := n])
    ensures Listed(Without(r.nodes, id), r.stats)
  {
    RestAt(r.nodes, id);
    DescendsAlong(r.nodes, Without(r.nodes, id), r.stats, r.stats[id := n], IndexOf(r.nodes, id));
  }

  lemma DescendsAlong(nodes: seq<string>, rest: seq<string>,
                      stats: map<string, Node>, stats': map<string, Node>, cut: nat)
    requires Listed(nodes, stats) && Descending(nodes, stats)
    requires |rest| + 1 == |nodes|
    requires forall x :: 0 <= x < |rest| ==> rest[x] == nodes[if x < cut then x else x + 1]
    requires forall x :: 0 <= x < |rest| && rest[x] in stats ==> rest[x] in stats' && stats'[rest[x]] == stats[rest[x]]
    ensures Listed(rest, stats) && Listed(rest, stats') && Descending(rest, stats')
  {
  }

  /** The slot splits the other nodes at the new weight. */
  lemma SlotSplits(r: Ranking, id: string, res: int)
    requires Ranked(r)
    requires id in r.stats
    ensures Listed(Without(r.nodes, id), r.stats)
    ensures Splits(Without(r.nodes, id), r.stats, Rescored(r.stats[id], res).weight, Slot(r, id, res))
  {
    var n := Rescored(r.stats[id], res);
    RestAt(r.nodes, id);
    RestDescends(r, id, n);
    BisectSplits(Without(r.nodes, id), r.stats[id := n], n.weight, 0, |Without(r.nodes, id)|);
  }

  lemma AdjustKeepsIndex(r: Ranking, id: string, res: int)
    requires Ranked(r)
    requires id in r.stats
    ensures Indexed(Adjust(r, id, res))
    ensures IndexOf(Adjust(r, id, res).nodes, id) == Slot(r, id, res)
  {
    WithoutIsRest(r.nodes, id);
    InsertKeepsDistinct(Without(r.nodes, id), Slot(r, id, res), id);
  }

  lemma AdjustKeepsOrder(r: Ranking, id: string, res: int)
    requires Ranked(r)
    requires id in r.stats
    ensures Listed(Adjust(r, id, res).nodes, Adjust(r, id, res).stats)
    ensures Descending(Adjust(r, id, res).nodes, Adjust(r, id, res).stats)
  {
    var n := Rescored(r.stats[id], res);
    var rest := Without(r.nodes, id);
    RestDescends(r, id, n);
    BisectSplits(rest, r.stats[id := n], n.weight, 0, |rest|);
    InsertKeepsDescending(rest, r.stats[id := n], Slot(r, id, res), id);
  }

  lemma AdjustKeepsScores(r: Ranking, id: string, res: int)
    requires Ranked(r)
    requires id in r.stats
    requires res == 1 || res == -1
    ensures forall x :: x in Adjust(r, id, res).stats ==> WellScored(Adjust(r, id, res).stats[x])
    ensures Adjust(r, id, res).stats.Keys == r.stats.Keys
  {
    assert WellScored(Rescored(r.stats[id], res));
  }

  /** What every call on a known id keeps. */
  lemma AdjustKeepsRanked(r: Ranking, id: string, res: int)
    requires Ranked(r)
    requires id in r.stats
    requires res == 1 || res == -1
    ensures Ranked(Adjust(r, id, res))
    ensures Adjust(r, id, res).stats.Keys == r.stats.Keys
  {
    AdjustKeepsIndex(r, id, res);
    AdjustKeepsOrder(r, id, res);
    AdjustKeepsScores(r, id, res);
  }

  function Replay(r: Ranking, calls: seq<Call>): (r': Ranking)
    requires Ranked(r)
    requires KnownCalls(r.stats, calls)
    ensures Ranked(r')
    ensures r'.stats.Keys == r.stats.Keys
    ensures multiset(r'.nodes) == multiset(r.nodes)
    decreases |calls|
  {
    if calls == [] then r
    else
      AdjustKeepsRanked(r, calls[0].id, calls[0].res);
      AdjustPermutes(r, calls[0].id, calls[0].res);
      Replay(Adjust(r, calls[0].id, calls[0].res), calls[1..])
  }

  lemma AdjustPermutes(r: Ranking, id: string, res: int)
    requires Listed(r.nodes, r.stats)
    requires id in r.stats && id in r.nodes
    ensures multiset(Adjust(r, id, res).nodes) == multiset(r.nodes)
  {
    MovePermutes(r.nodes, IndexOf(r.nodes, id), Slot(r, id, res));
  }

  lemma MovePermutes(nodes: seq<string>, k: nat, j: nat)
    requires k < |nodes| && j < |nodes|
    ensures multiset(InsertAt(nodes[..k] + nodes[k + 1..], j, nodes[k])) == multiset(nodes)
  {
    var rest := nodes[..k] + nodes[k + 1..];
    calc {
      multiset(InsertAt(rest, j, nodes[k]));
      multiset(rest[..j]) + multiset{nodes[k]} + multiset(rest[j..]);
      { assert rest == rest[..j] + rest[j..]; }
      multiset(rest) + multiset{nodes[k]};
      multiset(nodes[..k]) + multiset{nodes[k]} + multiset(nodes[k + 1..]);
      multiset(nodes[..k] + [nodes[k]] + nodes[k + 1..]);
      { assert nodes == nodes[..k] + [nodes[k]] + nodes[k + 1..]; }
      multiset(nodes);
    }
  }

  /** Whole runs: from a fresh list of distinct ids, any number of calls on known ids leaves a
      permutation of those ids in descending weight order, every weight being the position-weighted
      sum of one to twenty outcomes. */
  lemma EveryRunStaysRanked(nodes: seq<string>, calls: seq<Call>)
    requires Distinct(nodes)
    requires KnownCalls(Initial(nodes).stats, calls)
    ensures Ranked(Initial(nodes))
    ensures Ranked(Replay(Initial(nodes), calls))
    ensures multiset(Replay(Initial(nodes), calls).nodes) == multiset(nodes)
  {
    assert Weighted([1]) == 1 by { SlideWeight([], 1); assert [] + [1] == [1]; }
    assert Ranked(Initial(nodes));
  }

  /** The first k entries are never outweighed by one left out. */
  lemma TopIsHeaviest(r: Ranking, k: nat, inside: string, outside: string)
    requires Ranked(r)
    requires k <= |r.nodes|
    requires inside in r.nodes[..k]
    requires outside in r.stats && outside !in r.nodes[..k]
    ensures r.stats[inside].weight >= r.stats[outside].weight
  {
    var i :| 0 <= i < k && r.nodes[i] == inside;
    var j :| 0 <= j < |r.nodes| && r.nodes[j] == outside;
    assert forall x :: 0 <= x < k ==> r.nodes[x] in r.nodes[..k];
  }

  /** A failure never moves a node towards the front. */
  lemma FailNeverPromotes(r: Ranking, id: string)
    requires Ranked(r)
    requires id in r.stats
    ensures IndexOf(Adjust(r, id, -1).nodes, id) >= IndexOf(r.nodes, id)
  {
    AdjustKeepsIndex(r, id, -1);
    OutcomeMovesWeight(r.stats[id]);
    LighterSplitsLater(r, id, -1);
  }

  lemma LighterSplitsLater(r: Ranking, id: string, res: int)
    requires Ranked(r)
    requires id in r.stats
    requires Rescored(r.stats[id], res).weight <= r.stats[id].weight
    ensures Slot(r, id, res) >= IndexOf(r.nodes, id)
  {
    SlotSplits(r, id, res);
    AheadWeighMore(r, id);
    var atSlot := (Without(r.nodes, id) + [id])[Slot(r, id, res)];
  }

  /** After a success a node lands behind its old position exactly when its weight did not change
      and the next node has the same weight. */
  lemma HeavierSplitsEarlier(r: Ranking, id: string, res: int)
    requires Ranked(r)
    requires id in r.stats
    requires Rescored(r.stats[id], res).weight >= r.stats[id].weight
    ensures Slot(r, id, res) > IndexOf(r.nodes, id)
       <==> Rescored(r.stats[id], res).weight == r.stats[id].weight
            && IndexOf(r.nodes, id) + 1 < |r.nodes|
            && r.stats[r.nodes[IndexOf(r.nodes, id) + 1]].weight == r.stats[id].weight
  {
    SlotSplits(r, id, res);
    AheadWeighMore(r, id);
    var was, rest := IndexOf(r.nodes, id), Without(r.nodes, id);
    if was < |rest| {
      assert rest[was] == r.nodes[was + 1];
    }
  }

  /** Nodes listed before id weigh at least as much as id, nodes behind it at most as much. */
  lemma AheadWeighMore(r: Ranking, id: string)
    requires Ranked(r)
    requires id in r.stats
    ensures Listed(Without(r.nodes, id), r.stats)
    ensures forall x :: 0 <= x < IndexOf(r.nodes, id) ==>
              r.stats[Without(r.nodes, id)[x]].weight >= r.stats[id].weight
    ensures forall x :: IndexOf(r.nodes, id) <= x < |Without(r.nodes, id)| ==>
              r.stats[Without(r.nodes, id)[x]].weight <= r.stats[id].weight
  {
    RestAt(r.nodes, id);
    RestDescends(r, id, r.stats[id]);
    assert r.nodes[IndexOf(r.nodes, id)] == id;
  }

  /** A success moves a node towards the back in exactly one situation: its weight is already
      maximal and the node right behind it has the maximal weight too. */
  lemma SuccessDemotesOnlyAtTop(r: Ranking, id: string)
    requires Ranked(r)
    requires id in r.stats
    ensures IndexOf(Adjust(r, id, 1).nodes, id) > IndexOf(r.nodes, id)
       <==> r.stats[id].weight == MAX_WEIGHT
            && IndexOf(r.nodes, id) + 1 < |r.nodes|
            && r.stats[r.nodes[IndexOf(r.nodes, id) + 1]].weight == MAX_WEIGHT
  {
    AdjustKeepsIndex(r, id, 1);
    OutcomeMovesWeight(r.stats[id]);
    HeavierSplitsEarlier(r, id, 1);
  }

  /** The list stays an index of the table exactly when the id was known: an unknown id is listed
      without ever entering the table. */
  lemma IndexKeptIffKnown(r: Ranking, id: string, res: int)
    requires Ranked(r)
    requires res == 1 || res == -1
    ensures Indexed(Adjust(r, id, res)) <==> id in r.stats
  {
    if id in r.stats {
      AdjustKeepsRanked(r, id, res);
    } else {
      var k := Bisect(r.nodes, r.stats, 1, 0, |r.nodes|);
      assert Adjust(r, id, res).nodes[k] == id;
    }
  }

  // ----- lists with unknown ids -----

  lemma {:induction false} ProbeOfListed(nodes: seq<string>, stats: map<string, Node>, w: int, i: nat, j: nat)
    requires i <= j <= |nodes| && Listed(nodes, stats)
    ensures Probe(nodes, stats, w, i, j) == Some(Bisect(nodes, stats, w, i, j))
    decreases j - i
  {
    if i < j {
      var h := (i + j) / 2;
      if stats[nodes[h]].weight < w {
        ProbeOfListed(nodes, stats, w, i, h);
      } else {
        ProbeOfListed(nodes, stats, w, h + 1, j);
      }
    }
  }

  /** As long as every listed id is known the search never fails. */
  lemma ListedNeverFails(r: Ranking, id: string, res: int)
    requires Listed(r.nodes, r.stats)
    ensures TryAdjust(r, id, res) == Some(Adjust(r, id, res))
  {
    if id in r.stats {
      var n := Rescored(r.stats[id], res);
      var rest := Without(r.nodes, id);
      ListedWithout(r.nodes, r.stats, id);
      ProbeOfListed(rest, r.stats[id := n], n.weight, 0, |rest|);
    } else {
      ProbeOfListed(r.nodes, r.stats, 1, 0, |r.nodes|);
    }
  }

  /** A search cannot get round an unknown id that stands at the boundary it looks for. */
  lemma {:induction false} ProbeMeetsBoundary(
    nodes: seq<string>, stats: map<string, Node>, w: int, i: nat, j: nat, k: nat)
    requires i <= k < j <= |nodes| && nodes[k] !in stats
    requires forall x :: i <= x < k ==> nodes[x] in stats && stats[nodes[x]].weight >= w
    requires forall x :: k < x < j ==> nodes[x] in stats && stats[nodes[x]].weight < w
    ensures Probe(nodes, stats, w, i, j) == None
    decreases j - i
  {
    var h := (i + j) / 2;
    if h < k {
      ProbeMeetsBoundary(nodes, stats, w, h + 1, j, k);
    } else if h > k {
      ProbeMeetsBoundary(nodes, stats, w, i, h, k);
    }
  }

  /** After one report about an unknown id, the next report about an unknown id, the same or another one,
      always dereferences nil: both are placed by the default weight. */
  lemma SecondUnknownFails(r: Ranking, id: string, res: int, id': string, res': int)
    requires Ranked(r)
    requires id !in r.stats && id' !in r.stats
    ensures TryAdjust(Adjust(r, id, res), id', res') == None
  {
    var k := Bisect(r.nodes, r.stats, 1, 0, |r.nodes|);
    BisectSplits(r.nodes, r.stats, 1, 0, |r.nodes|);
    UnknownAtBoundary(r.nodes, r.stats, k, id);
    UnknownMeetsBoundary(InsertAt(r.nodes, k, id), r.stats, k, id', res');
  }

  lemma UnknownMeetsBoundary(nodes: seq<string>, stats: map<string, Node>, k: nat, id: string, res: int)
    requires id !in stats && k < |nodes| && nodes[k] !in stats
    requires forall x :: 0 <= x < k ==> nodes[x] in stats && stats[nodes[x]].weight >= 1
    requires forall x :: k < x < |nodes| ==> nodes[x] in stats && stats[nodes[x]].weight < 1
    ensures TryAdjust(Ranking(nodes, stats), id, res) == None
  {
    ProbeMeetsBoundary(nodes, stats, 1, 0, |nodes|, k);
  }

  lemma UnknownAtBoundary(nodes: seq<string>, stats: map<string, Node>, k: nat, id: string)
    requires Listed(nodes, stats) && Splits(nodes, stats, 1, k)
    ensures var all := InsertAt(nodes, k, id);
            && |all| == |nodes| + 1 && all[k] == id
            && (forall x :: 0 <= x < k ==> all[x] in stats && stats[all[x]].weight >= 1)
            && (forall x :: k < x < |all| ==> all[x] in stats && stats[all[x]].weight < 1)
  {
    var all := InsertAt(nodes, k, id);
    assert forall x :: 0 <= x < k ==> all[x] == nodes[x];
    assert forall x :: k < x < |all| ==> all[x] == nodes[x - 1];
  }

  // ----- the holder -----

  class NodeHolder {
    const consensus: int
    var stats: map<string, Node>
    // The slice h.nodes: the first `len` cells of a backing array.
    var buf: array<string>
    var len: nat

    ghost predicate Valid()
      reads this, buf
    {
      len <= buf.Length
    }

    ghost function Value(): Ranking
      requires Valid()
      reads this, buf
    {
      Ranking(buf[..len], stats)
    }

    /** NewHolder panics when there are fewer nodes than the consensus asks for. */
    constructor (nodes: seq<string>, consensus: int)
      requires consensus <= |nodes|
      ensures Valid() && fresh(buf)
      ensures Value() == Initial(nodes)
      ensures Value().nodes == nodes && (forall id :: id in stats <==> id in nodes)
      ensures forall id :: id in stats ==> stats[id] == Node(1, [1])
      ensures this.consensus == consensus
    {
      this.consensus := consensus;
      buf := new string[|nodes|];
      len := 0;
      stats := map[];
      new;
      while len < |nodes|
        invariant len <= |nodes| == buf.Length
        invariant fresh(buf)
        invariant buf[..len] == nodes[..len]
        invariant stats == Initial(nodes[..len]).stats
      {
        assert nodes[..len + 1] == nodes[..len] + [nodes[len]];
        buf[len] := nodes[len];
        stats := stats[nodes[len] := Node(1, [1])];
        len := len + 1;
      }
      assert nodes[..len] == nodes;
    }

    /** Like AdjustNode, `ok` says that no nil was dereferenced. */
    method Success(id: string) returns (ok: bool)
      requires Valid()
      modifies this, buf
      ensures Valid() && (buf == old(buf) || fresh(buf))
      ensures RecordsOutcome(old(stats), stats, id, 1)
      ensures ok <==> TryAdjust(old(Value()), id, 1).Some?
      ensures Value() == if ok then TryAdjust(old(Value()), id, 1).value else Interrupted(old(Value()), id, 1)
      ensures Listed(old(Value()).nodes, old(stats)) ==> ok && Value() == Adjust(old(Value()), id, 1)
    {
      ok := AdjustNode(id, 1);
    }

    method Fail(id: string) returns (ok: bool)
      requires Valid()
      modifies this, buf
      ensures Valid() && (buf == old(buf) || fresh(buf))
      ensures RecordsOutcome(old(stats), stats, id, -1)
      ensures ok <==> TryAdjust(old(Value()), id, -1).Some?
      ensures Value() == if ok then TryAdjust(old(Value()), id, -1).value else Interrupted(old(Value()), id, -1)
      ensures Listed(old(Value()).nodes, old(stats)) ==> ok && Value() == Adjust(old(Value()), id, -1)
    {
      ok := AdjustNode(id, -1);
    }

    /** Both slice edits happen in the backing array. The search dereferences nil when it looks up a listed
        id without a table entry; on a list of known ids it never does. */
    method AdjustNode(id: string, res: int) returns (ok: bool)
      requires Valid()
      modifies this, buf
      ensures Valid() && (buf == old(buf) || fresh(buf))
      ensures RecordsOutcome(old(stats), stats, id, res)
      ensures ok <==> TryAdjust(old(Value()), id, res).Some?
      ensures Value() == if ok then TryAdjust(old(Value()), id, res).value else Interrupted(old(Value()), id, res)
      ensures Listed(old(Value()).nodes, old(stats)) ==> ok && Value() == Adjust(old(Value()), id, res)
    {
      ghost var before := Value();
      if Listed(before.nodes, stats) {
        ListedNeverFails(before, id, res);
      }
      var m, weight := Record(id, res);
      var i := Search(m, weight);
      if i.None? {
        return false;
      }
      Insert(m, i.value, id);
      return true;
    }

    /** Takes a known id out of the list and records the outcome; `m` entries are left to search. */
    method Record(id: string, res: int) returns (m: nat, weight: int)
      requires Valid()
      modifies this`stats, buf
      ensures m <= len && stats == Recorded(old(stats), id, res) && RecordsOutcome(old(stats), stats, id, res)
      ensures weight == if id in stats then stats[id].weight else 1
      ensures buf[..m] == if id in old(stats) then Without(old(Value()).nodes, id) else old(Value()).nodes
      ensures Value() == Interrupted(old(Value()), id, res)
    {
      RecordedRecords(stats, id, res);
      weight := 1;
      m := len;
      if id in stats {
        m := Remove(id);
        var window := stats[id].stats + [res];
        if |window| > STAT_SIZE {
          window := window[1..];
        }
        weight := Score(window);
        stats := stats[id := Node(weight, window)];
      }
    }

    method Remove(id: string) returns (m: nat)
      requires Valid()
      modifies buf
      ensures m <= len
      ensures buf[..m] == Without(old(buf[..len]), id)
      ensures buf[..len] == Shifted(old(buf[..len]), id)
    {
      ghost var nodes := buf[..len];
      var k := Find(id);
      m := len;
      if k < len {
        CloseGap(k);
        m := len - 1;
        assert buf[..len] == buf[..m] + [buf[m]];
        RemovedAt(nodes, id, buf[..m], buf[m]);
      }
    }

    /** append(nodes[:k], nodes[k+1:]...): the tail moves down one cell. */
    method CloseGap(k: nat)
      requires Valid() && k < len
      modifies buf
      ensures buf[..len - 1] == old(buf[..len])[..k] + old(buf[..len])[k + 1..]
      ensures buf[len - 1] == old(buf[len - 1])
    {
      for j := k to len - 1
        invariant forall i :: k <= i < j ==> buf[i] == old(buf[i + 1])
        invariant forall i :: 0 <= i < len && !(k <= i < j) ==> buf[i] == old(buf[i])
      {
        buf[j] := buf[j + 1];
      }
    }

    method Find(id: string) returns (k: nat)
      requires Valid()
      ensures k == IndexOf(buf[..len], id)
    {
      k := 0;
      while k < len && buf[k] != id
        invariant 0 <= k <= len
        invariant id !in buf[..k]
      {
        k := k + 1;
      }
      assert buf[..len][..k] == buf[..k];
      FirstIsIndex(buf[..len], id, k);
    }

    method Score(window: seq<int>) returns (w: int)
      ensures w == Weighted(window)
    {
      w := 0;
      for i := 0 to |window|
        invariant w == Weighted(window[..i])
      {
        assert window[..i + 1][..i] == window[..i];
        w := w + (i + 1) * window[i];
      }
      assert window[..|window|] == window;
    }

    method Search(m: nat, weight: int) returns (k: Option<nat>)
      requires m <= len && Valid()
      ensures k == Probe(buf[..m], stats, weight, 0, m)
    {
      ghost var nodes := buf[..m];
      var i, j := 0, m;
      while i < j
        invariant 0 <= i <= j <= m
        invariant Probe(nodes, stats, weight, i, j) == Probe(nodes, stats, weight, 0, m)
      {
        var h := (i + j) / 2;
        assert buf[h] == nodes[h];
        if buf[h] !in stats {
          return None;
        }
        if stats[buf[h]].weight < weight {
          j := h;
        } else {
          i := h + 1;
        }
      }
      return Some(i);
    }

    /** append(nodes[:i], append([]string{id}, nodes[i:]...)...): the tail is copied first, and the
        backing array is replaced only when it is full. */
    method Insert(m: nat, i: nat, id: string)
      requires Valid() && i <= m <= len
      modifies this, buf
      ensures Valid() && (buf == old(buf) || fresh(buf))
      ensures stats == old(stats)
      ensures buf[..len] == InsertAt(old(buf[..m]), i, id)
    {
      ghost var nodes := buf[..m];
      var tail := [id] + buf[i..m];
      assert InsertAt(nodes, i, id) == nodes[..i] + tail;
      if m + 1 > buf.Length {
        var bigger := new string[m + 1];
        forall j | 0 <= j < i {
          bigger[j] := buf[j];
        }
        buf := bigger;
      }
      forall j | i <= j < m + 1 {
        buf[j] := tail[j - i];
      }
      len := m + 1;
      assert buf[..i] == nodes[..i] && buf[i..m + 1] == tail;
    }

    /** The first `consensus` entries of the list; on a ranked list, the heaviest nodes at the moment
        of return. */
    method Healthy() returns (res: seq<string>)
      requires Valid() && 0 <= consensus <= len
      ensures res == Value().nodes[..consensus]
      ensures Ranked(Value()) ==> Distinct(res) && forall id :: id in res ==> id in stats
      ensures Ranked(Value()) ==>
                forall a, b :: a in res && b in stats && b !in res ==> stats[a].weight >= stats[b].weight
    {
      res := buf[..consensus];
      ghost var r := Value();
      assert res == r.nodes[..consensus];
      if Ranked(r) {
        forall a, b | a in res && b in stats && b !in res ensures stats[a].weight >= stats[b].weight {
          TopIsHeaviest(r, consensus, a, b);
        }
      }
    }
  }

  const DEFAULT_SHARDER_CONSENSUS := 3

  /** The consensus size handed to NewHolder: the configured one, at least three, at most the number
      of sharders. It never makes NewHolder or Healthy panic. */
  method SetNetwork(sharders: seq<string>, configured: int) returns (holder: NodeHolder)
    ensures fresh(holder) && holder.Valid() && fresh(holder.buf)
    ensures holder.Value() == Initial(sharders)
    ensures 0 <= holder.consensus <= holder.len
    ensures |sharders| >= 3 ==> holder.consensus >= 3
    ensures holder.consensus < |sharders| ==> holder.consensus >= configured
    ensures holder.consensus <= 3 || holder.consensus <= configured
  {
    var consensus := configured;
    if consensus < DEFAULT_SHARDER_CONSENSUS {
      consensus := DEFAULT_SHARDER_CONSENSUS;
    }
    if |sharders| < consensus {
      consensus := |sharders|;
    }
    holder := new NodeHolder(sharders, consensus);
  }

  lemma RemovedAt(nodes: seq<string>, id: string, rest: seq<string>, last: string)
    requires id in nodes && last == nodes[|nodes| - 1]
    requires var k := IndexOf(nodes, id); rest == nodes[..k] + nodes[k + 1..]
    ensures Without(nodes, id) == rest && Shifted(nodes, id) == rest + [last]
  {
  }

  lemma FirstIsIndex(nodes: seq<string>, id: string, k: nat)
    requires k <= |nodes|
    requires id !in nodes[..k]
    requires k == |nodes| || nodes[k] == id
    ensures k == IndexOf(nodes, id)
  {
    var i := IndexOf(nodes, id);
    assert forall x :: 0 <= x < k ==> nodes[x] in nodes[..k];
    assert forall x :: 0 <= x < i ==> nodes[x] in nodes[..i];
    assert nodes[..|nodes|] == nodes;
  }
}
