/**
 * The dependency-graph diagram of the web front end (static/graph.js):
 * a ProcGraph collects node records in insertion order with an index from
 * id to node, and Build places every node into a lane (column) and a row,
 * routes one connector per resolvable dependency around occupied lanes, and
 * sizes the canvas to the fullest lane.
 *
 * Coordinates of boxes and ports are integers; connector waypoints are exact
 * reals. SVG element creation is not modelled: a box is a record and a
 * connector is its list of waypoints together with the token sequence of its
 * path data.
 */
module Graph {
  import opened Wrappers

  /** Size of the per-lane counter array of Build. */
  const MaxLanes: nat := 7
  const LaneWidth: nat := 180
  /** Vertical pitch of rows (`h` in the source). */
  const RowHeight: nat := 80
  const TopMargin: nat := 30
  const LeftMargin: nat := 4
  const BoxWidth: nat := 115
  const BoxHeight: nat := 50
  /** Distance of the ports below the top of a box. */
  const PortOffset: nat := 25
  /** Horizontal offset of the bezier control points from their end points. */
  const ControlOffset: real := 50.0

  /** A node record as handed to `add`; `srcIds` may be absent. */
  datatype Descriptor = Descriptor(
    id: string, lane: nat, srcIds: Option<seq<string>>,
    text: string, color: string, connectColor: string)

  /** A node as the graph stores it: `srcIds` is always present. */
  datatype Node = Node(
    id: string, lane: nat, srcIds: seq<string>,
    text: string, color: string, connectColor: string)

  /** The fields Build assigns to a node: its row and its box and port coordinates. */
  datatype Layout = Layout(row: nat, x: int, y: int, inX: int, inY: int, outX: int, outY: int)

  /** The rectangle drawn for a node (svgBox): title, origin, size, caption and fill. */
  datatype Box = Box(title: string, x: int, y: int, width: nat, height: nat, text: string, fill: string)

  datatype Point = Point(x: real, y: real)

  /** Path data of a connector: command letters and numbers, in order. */
  datatype Token = Cmd(c: char) | Num(v: real)

  /** One connector: from node `src` to node `dst`, drawn for dependency `srcId` of `dst`. */
  datatype Edge = Edge(src: nat, dst: nat, srcId: string, points: seq<Point>, color: string, d: seq<Token>)

  datatype Rendering = Rendering(boxes: seq<Box>, edges: seq<Edge>, height: int)

  /** A string is truthy in JavaScript exactly when it is not empty. */
  predicate Truthy(s: string) {
    s != []
  }

  function ToNode(d: Descriptor): (n: Node)
    ensures n.id == d.id && n.lane == d.lane
    ensures n.srcIds == (if d.srcIds.Some? then d.srcIds.value else [])
  {
    Node(d.id, d.lane, if d.srcIds.Some? then d.srcIds.value else [], d.text, d.color, d.connectColor)
  }

  // ---------------------------------------------------------------- id index

  /** The id index `add` builds: each truthy id maps to the position of the
      last node carrying it. */
  function IdIndex(els: seq<Node>): map<string, nat>
  {
    if els == [] then map[]
    else
      var prev := IdIndex(els[..|els| - 1]);
      var e := els[|els| - 1];
      if Truthy(e.id) then prev[e.id := |els| - 1] else prev
  }

  /** The index holds exactly the truthy ids of the nodes, and each maps to the
      last node with that id ("last writer wins"). */
  lemma {:induction false} IdIndexLastWins(els: seq<Node>, id: string)
    ensures id in IdIndex(els) <==> Truthy(id) && exists k :: 0 <= k < |els| && els[k].id == id
    ensures id in IdIndex(els) ==>
      var k := IdIndex(els)[id];
      k < |els| && els[k].id == id &&
      forall j :: k < j < |els| ==> els[j].id != id
  {
    if els != [] {
      var init := els[..|els| - 1];
      IdIndexLastWins(init, id);
      if id in IdIndex(init) {
        var k := IdIndex(init)[id];
        assert els[k] == init[k];
      }
      forall k | 0 <= k < |init| && init[k].id == id ensures els[k].id == id {
        assert els[k] == init[k];
      }
      if exists k :: 0 <= k < |els| && els[k].id == id {
        var k :| 0 <= k < |els| && els[k].id == id;
        if k < |init| {
          assert init[k] == els[k];
        }
      }
    }
  }

  /** Every position the index holds is a node of the graph. */
  lemma IdIndexInRange(els: seq<Node>)
    ensures forall id :: id in IdIndex(els) ==> IdIndex(els)[id] < |els| && els[IdIndex(els)[id]].id == id
  {
    forall id | id in IdIndex(els)
      ensures IdIndex(els)[id] < |els| && els[IdIndex(els)[id]].id == id
    {
      IdIndexLastWins(els, id);
    }
  }

  // --------------------------------------------------------------- placement

  predicate LanesBounded(els: seq<Node>) {
    forall k :: 0 <= k < |els| ==> els[k].lane < MaxLanes
  }

  /** Number of nodes of `els` in lane `l`. */
  function CountLane(els: seq<Node>, l: nat): nat
  {
    if els == [] then 0
    else CountLane(els[..|els| - 1], l) + (if els[|els| - 1].lane == l then 1 else 0)
  }

  /** The row of node `k`: how many earlier nodes share its lane. */
  function RowOf(els: seq<Node>, k: nat): nat
    requires k < |els|
  {
    CountLane(els[..k], els[k].lane)
  }

  /** Box origin and ports of a node in lane `lane`, row `row`. */
  function LayoutAt(lane: nat, row: nat): Layout
  {
    var x := lane * LaneWidth + LeftMargin;
    var y := row * RowHeight + TopMargin;
    Layout(row, x, y, x, y + PortOffset, x + BoxWidth, y + PortOffset)
  }

  /** What the placement pass assigns to every node. */
  function Layouts(els: seq<Node>): (ls: seq<Layout>)
    ensures |ls| == |els|
  {
    if els == [] then []
    else
      var init := els[..|els| - 1];
      Layouts(init) + [LayoutAt(els[|els| - 1].lane, CountLane(init, els[|els| - 1].lane))]
  }

  /** Node `k` is placed in its lane at the row counting the earlier nodes of that lane. */
  lemma {:induction false} LayoutsAt(els: seq<Node>, k: nat)
    requires k < |els|
    ensures Layouts(els)[k] == LayoutAt(els[k].lane, RowOf(els, k))
  {
    var init := els[..|els| - 1];
    if k < |init| {
      LayoutsAt(init, k);
      assert init[k] == els[k] && init[..k] == els[..k];
    }
  }

  /** The per-lane counters once every node is placed. */
  function LaneCounts(els: seq<Node>): (c: seq<int>)
    ensures |c| == MaxLanes
  {
    seq(MaxLanes, l requires 0 <= l < MaxLanes => CountLane(els, l))
  }

  lemma CountLaneStep(els: seq<Node>, i: nat)
    requires i < |els|
    ensures forall l :: CountLane(els[..i + 1], l) == CountLane(els[..i], l) + (if els[i].lane == l then 1 else 0)
  {
    assert els[..i + 1][..i] == els[..i];
  }

  function BoxOf(n: Node, p: Layout): Box
  {
    Box(n.id, p.x, p.y, BoxWidth, BoxHeight, n.text, if Truthy(n.color) then n.color else "white")
  }

  lemma LayoutsEach(els: seq<Node>)
    ensures forall k :: 0 <= k < |els| ==> Layouts(els)[k] == LayoutAt(els[k].lane, RowOf(els, k))
  {
    forall k | 0 <= k < |els| ensures Layouts(els)[k] == LayoutAt(els[k].lane, RowOf(els, k)) {
      LayoutsAt(els, k);
    }
  }

  function Boxes(els: seq<Node>, layouts: seq<Layout>): (bs: seq<Box>)
    requires |layouts| == |els|
    ensures |bs| == |els|
  {
    if els == [] then []
    else Boxes(els[..|els| - 1], layouts[..|els| - 1]) + [BoxOf(els[|els| - 1], layouts[|els| - 1])]
  }

  /** Box k is node k drawn at layout k. */
  lemma {:induction false} BoxesAt(els: seq<Node>, layouts: seq<Layout>, k: nat)
    requires |layouts| == |els| && k < |els|
    ensures Boxes(els, layouts)[k] == BoxOf(els[k], layouts[k])
  {
    var n := |els| - 1;
    if k < n {
      BoxesAt(els[..n], layouts[..n], k);
    }
  }

  /** Placing node `i` after the first `i`: one more layout and box, at the
      row counting the earlier nodes of its lane. */
  lemma PlaceStep(els: seq<Node>, i: nat)
    requires i < |els|
    ensures Layouts(els[..i + 1]) ==
      Layouts(els[..i]) + [LayoutAt(els[i].lane, CountLane(els[..i], els[i].lane))]
    ensures Boxes(els[..i + 1], Layouts(els[..i + 1])) ==
      Boxes(els[..i], Layouts(els[..i])) + [BoxOf(els[i], LayoutAt(els[i].lane, CountLane(els[..i], els[i].lane)))]
  {
    var pre := els[..i + 1];
    assert pre[..i] == els[..i] && pre[i] == els[i];
    var ls := Layouts(pre);
    assert ls[..i] == Layouts(els[..i]);
  }


  /** Ports sit on the box: the input port at the middle of its left side, the
      output port at the middle of its right side. */
  lemma PortsOnBox(n: Node, lane: nat, row: nat)
    ensures var p := LayoutAt(lane, row); var b := BoxOf(n, p);
      p.inX == b.x && p.outX == b.x + b.width &&
      p.inY == p.outY == b.y + b.height / 2 &&
      b.x == lane * LaneWidth + LeftMargin && b.y == row * RowHeight + TopMargin
  {
  }

  lemma CountLanePrefix(els: seq<Node>, i: nat, j: nat, l: nat)
    requires i <= j <= |els|
    ensures CountLane(els[..i], l) <= CountLane(els[..j], l)
    decreases j - i
  {
    if i < j {
      CountLanePrefix(els, i, j - 1, l);
      assert els[..j][..j - 1] == els[..j - 1];
    }
  }

  /** Two nodes in the same lane never share a row: a later node sits strictly
      below an earlier one, by at least one row pitch, so boxes never overlap. */
  lemma {:induction false} RowsIncreaseInLane(els: seq<Node>, i: nat, j: nat)
    requires i < j < |els| && els[i].lane == els[j].lane
    ensures RowOf(els, i) < RowOf(els, j)
    ensures LayoutAt(els[i].lane, RowOf(els, i)).y + RowHeight <= LayoutAt(els[j].lane, RowOf(els, j)).y
  {
    var l := els[i].lane;
    assert els[..i + 1][..i] == els[..i];
    assert CountLane(els[..i + 1], l) == CountLane(els[..i], l) + 1;
    CountLanePrefix(els, i + 1, j, l);
  }

  function SumOf(s: seq<int>): int
  {
    if s == [] then 0 else SumOf(s[..|s| - 1]) + s[|s| - 1]
  }

  lemma SumOfPointwise(a: seq<int>, b: seq<int>, i: nat)
    requires |a| == |b| && i < |a|
    requires forall l :: 0 <= l < |a| && l != i ==> a[l] == b[l]
    ensures SumOf(b) == SumOf(a) + b[i] - a[i]
  {
    if |a| - 1 != i {
      SumOfPointwise(a[..|a| - 1], b[..|b| - 1], i);
    } else {
      assert a[..|a| - 1] == b[..|b| - 1];
    }
  }

  lemma SumOfZeros(s: seq<int>)
    requires forall i :: 0 <= i < |s| ==> s[i] == 0
    ensures SumOf(s) == 0
  {
    if s != [] {
      SumOfZeros(s[..|s| - 1]);
    }
  }

  /** Every node is counted in exactly one lane: the counters add up to the
      number of nodes. */
  lemma {:induction false} LaneCountsSum(els: seq<Node>)
    requires LanesBounded(els)
    ensures SumOf(LaneCounts(els)) == |els|
  {
    if els == [] {
      SumOfZeros(LaneCounts(els));
    } else {
      var init := els[..|els| - 1];
      assert LanesBounded(init) by {
        forall k | 0 <= k < |init| ensures init[k].lane < MaxLanes { assert init[k] == els[k]; }
      }
      LaneCountsSum(init);
      SumOfPointwise(LaneCounts(init), LaneCounts(els), els[|els| - 1].lane);
    }
  }

  function MaxOf(s: seq<int>): (m: int)
    requires |s| > 0
    ensures forall i :: 0 <= i < |s| ==> s[i] <= m
    ensures exists i :: 0 <= i < |s| && s[i] == m
  {
    if |s| == 1 then s[0]
    else
      var m' := MaxOf(s[..|s| - 1]);
      assert forall i :: 0 <= i < |s| - 1 ==> s[..|s| - 1][i] == s[i];
      if s[|s| - 1] > m' then s[|s| - 1] else m'
  }

  /** Canvas height: the fullest lane's rows plus half a row. */
  function CanvasHeight(lanes: seq<int>): int
    requires |lanes| > 0
  {
    MaxOf(lanes) * RowHeight + RowHeight / 2
  }

  lemma CountLaneAtLeastRow(els: seq<Node>, k: nat)
    requires k < |els|
    ensures RowOf(els, k) + 1 <= CountLane(els, els[k].lane)
  {
    var l := els[k].lane;
    assert els[..k + 1][..k] == els[..k];
    CountLanePrefix(els, k + 1, |els|, l);
    assert els[..|els|] == els;
  }

  /** Every box lies inside the canvas, and the fullest lane's last box ends a
      half row above its bottom edge. */
  lemma {:induction false} BoxesFitCanvas(els: seq<Node>, k: nat)
    requires LanesBounded(els) && k < |els|
    ensures Layouts(els)[k].y + BoxHeight < CanvasHeight(LaneCounts(els))
  {
    CountLaneAtLeastRow(els, k);
    LayoutsAt(els, k);
    var c := LaneCounts(els);
    var row := RowOf(els, k);
    assert row + 1 <= c[els[k].lane] <= MaxOf(c);
    assert (row + 1) * RowHeight <= MaxOf(c) * RowHeight;
  }

  /** Some lane holds a node as soon as there is one, so the maximum lane count
      that routing divides by is positive. */
  lemma LaneCountsPositive(els: seq<Node>)
    requires LanesBounded(els) && |els| > 0
    ensures MaxOf(LaneCounts(els)) >= 1
  {
    CountLaneAtLeastRow(els, 0);
    assert LaneCounts(els)[els[0].lane] >= 1;
  }

  // ----------------------------------------------------------------- routing

  /** The y the straight line from (`sy` at lane `sl`) to (`ty` at lane `dl`)
      has at lane `l`, interpolated by lane index. */
  function CrossY(sy: int, ty: int, sl: nat, dl: nat, l: nat): (y: real)
    requires sl < l < dl
    ensures sy >= 0 && ty >= 0 ==> y >= 0.0
  {
    var f := (l - sl) as real / (dl - sl) as real;
    assert 0.0 <= f <= 1.0;
    var y := sy as real + (ty - sy) as real * f;
    assert y == sy as real * (1.0 - f) + ty as real * f;
    assert sy >= 0 && ty >= 0 ==> sy as real * (1.0 - f) >= 0.0 && ty as real * f >= 0.0;
    y
  }

  /** A lane is congested at height `y` when its occupied extent reaches past `y`. */
  predicate Congested(count: int, y: real) {
    (count * RowHeight + 10) as real > y
  }

  /** The y of a detour: the crossing y snapped to a row boundary of the lane
      (the `| 0` truncation is the floor, the argument being non-negative),
      moved down by the fan-out offset `dy`. */
  function DetourY(y: real, dy: real): real
  {
    ((y + (RowHeight / 2) as real) / RowHeight as real).Floor as real * RowHeight as real + dy
  }

  /** The fan-out offset of connectors leaving a node whose output port is at `outY`. */
  function FanOut(outY: int, maxCount: int): real
    requires maxCount != 0
  {
    outY as real / RowHeight as real * (25.0 / maxCount as real)
  }

  function DetourLeft(l: nat): real {
    (l * LaneWidth + 18) as real
  }

  function DetourRight(l: nat): real {
    DetourLeft(l) + 72.0
  }

  /** The lanes strictly between `lo` and `hi` that satisfy `p`, in increasing order. */
  function Select(p: nat -> bool, lo: nat, hi: nat): (cl: seq<nat>)
    ensures forall i :: 0 <= i < |cl| ==> lo < cl[i] < hi
    decreases hi
  {
    if hi <= lo + 1 then [] else Select(p, lo, hi - 1) + (if p(hi - 1) then [hi - 1] else [])
  }

  /** What the routing loop appends for the lanes strictly between `lo` and
      `hi`: `pair(l)` for each lane `l` that satisfies `p`. */
  function Collect(p: nat -> bool, pair: nat -> seq<Point>, lo: nat, hi: nat): seq<Point>
    decreases hi
  {
    if hi <= lo + 1 then [] else Collect(p, pair, lo, hi - 1) + (if p(hi - 1) then pair(hi - 1) else [])
  }

  function Expand(pair: nat -> seq<Point>, cl: seq<nat>): seq<Point>
  {
    if cl == [] then [] else Expand(pair, cl[..|cl| - 1]) + pair(cl[|cl| - 1])
  }

  lemma {:induction false} SelectExact(p: nat -> bool, lo: nat, hi: nat)
    ensures forall i :: 0 <= i < |Select(p, lo, hi)| ==> p(Select(p, lo, hi)[i])
    ensures forall i, j :: 0 <= i < j < |Select(p, lo, hi)| ==> Select(p, lo, hi)[i] < Select(p, lo, hi)[j]
    ensures forall l :: lo < l < hi && p(l) ==> l in Select(p, lo, hi)
    decreases hi
  {
    if hi > lo + 1 {
      SelectExact(p, lo, hi - 1);
      var cl := Select(p, lo, hi - 1);
      if p(hi - 1) {
        var cl' := cl + [hi - 1];
        assert Select(p, lo, hi) == cl';
        forall i | 0 <= i < |cl'| ensures p(cl'[i]) {
          if i < |cl| {
            assert cl'[i] == cl[i];
          }
        }
        forall i, j | 0 <= i < j < |cl'| ensures cl'[i] < cl'[j] {
          assert cl'[i] == cl[i];
        }
        forall l | lo < l < hi && p(l) ensures l in cl' {
          if l < hi - 1 {
            assert l in cl;
          } else {
            assert cl'[|cl|] == l;
          }
        }
      } else {
        assert Select(p, lo, hi) == cl;
      }
    }
  }

  lemma {:induction false} CollectIsExpand(p: nat -> bool, pair: nat -> seq<Point>, lo: nat, hi: nat)
    ensures Collect(p, pair, lo, hi) == Expand(pair, Select(p, lo, hi))
    decreases hi
  {
    if hi > lo + 1 {
      CollectIsExpand(p, pair, lo, hi - 1);
      var cl := Select(p, lo, hi - 1);
      if p(hi - 1) {
        var cl' := cl + [hi - 1];
        assert Select(p, lo, hi) == cl';
        assert cl'[..|cl'| - 1] == cl;
        assert Expand(pair, cl') == Expand(pair, cl) + pair(hi - 1);
      } else {
        assert Select(p, lo, hi) == cl;
      }
    }
  }

  lemma {:induction false} ExpandAt(pair: nat -> seq<Point>, cl: seq<nat>)
    requires forall i :: 0 <= i < |cl| ==> |pair(cl[i])| == 2
    ensures |Expand(pair, cl)| == 2 * |cl|
    ensures forall i :: 0 <= i < |cl| ==>
      Expand(pair, cl)[2 * i] == pair(cl[i])[0] && Expand(pair, cl)[2 * i + 1] == pair(cl[i])[1]
  {
    if cl != [] {
      var init := cl[..|cl| - 1];
      assert forall i :: 0 <= i < |init| ==> init[i] == cl[i];
      ExpandAt(pair, init);
    }
  }

  /** Source and destination of one connector, with the final lane counters. */
  datatype Route = Route(sl: nat, s: Layout, dl: nat, d: Layout, lanes: seq<int>)
  {
    predicate Ok() {
      |lanes| == MaxLanes && dl <= MaxLanes && MaxOf(lanes) != 0
    }

    function Dy(): real
      requires Ok()
    {
      FanOut(s.outY, MaxOf(lanes))
    }

    function Ty(l: nat): real
      requires sl < l < dl
    {
      CrossY(s.outY, d.inY, sl, dl, l)
    }

    /** Lane `l` lies strictly between the two ends and is congested at the
        connector's crossing height. */
    predicate CongestedAt(l: nat)
      requires Ok()
    {
      sl < l < dl && Congested(lanes[l], Ty(l))
    }

    /** The two detour waypoints at lane `l`: one y, near the lane's left and
        right edges. */
    function DetourPair(l: nat): (ps: seq<Point>)
      requires Ok()
      ensures |ps| == 2
    {
      var y := if sl < l < dl then DetourY(Ty(l), Dy()) else 0.0;
      [Point(DetourLeft(l), y), Point(DetourRight(l), y)]
    }

    /** Detours of the intermediate lanes strictly between `sl` and `hi`. */
    function Detours(hi: nat): seq<Point>
      requires Ok()
    {
      Collect((l: nat) => CongestedAt(l), (l: nat) => DetourPair(l), sl, hi)
    }

    /** The congested intermediate lanes strictly between `sl` and `hi`, in order. */
    function CongestedLanes(hi: nat): seq<nat>
      requires Ok()
    {
      Select((l: nat) => CongestedAt(l), sl, hi)
    }

    function Waypoints(): seq<Point>
      requires Ok()
    {
      [Point(s.outX as real, s.outY as real)] + Detours(dl) + [Point(d.inX as real, d.inY as real)]
    }
  }

  /** The detours consist of one pair per congested intermediate lane, in lane
      order, and a lane contributes a pair exactly when it is congested; the
      pair for lane `l` shares one y (the crossing height snapped to a row
      boundary plus the fan-out offset) and spans the lane from x = l*180+18
      to x = l*180+90. */
  lemma DetoursShape(r: Route)
    requires r.Ok()
    ensures var ds := r.Detours(r.dl); var cl := r.CongestedLanes(r.dl);
      (forall i :: 0 <= i < |cl| ==> r.sl < cl[i] < r.dl && r.CongestedAt(cl[i])) &&
      (forall i, j :: 0 <= i < j < |cl| ==> cl[i] < cl[j]) &&
      (forall l :: r.sl < l < r.dl && r.CongestedAt(l) ==> l in cl) &&
      |ds| == 2 * |cl| &&
      forall i :: 0 <= i < |cl| ==>
        ds[2 * i] == Point(DetourLeft(cl[i]), DetourY(r.Ty(cl[i]), r.Dy())) &&
        ds[2 * i + 1] == Point(DetourRight(cl[i]), DetourY(r.Ty(cl[i]), r.Dy()))
  {
    var p := (l: nat) => r.CongestedAt(l);
    var pair := (l: nat) => r.DetourPair(l);
    SelectExact(p, r.sl, r.dl);
    CollectIsExpand(p, pair, r.sl, r.dl);
    ExpandAt(pair, Select(p, r.sl, r.dl));
  }

  /** Every waypoint list runs from the source's output port to the
      destination's input port and has 2 + 2 * (number of congested
      intermediate lanes) points; a connector to the next lane, to the same
      lane or backwards is a direct two-point curve. */
  lemma WaypointsShape(r: Route)
    requires r.Ok()
    ensures var w := r.Waypoints();
      |w| == 2 + 2 * |r.CongestedLanes(r.dl)| &&
      w[0] == Point(r.s.outX as real, r.s.outY as real) &&
      w[|w| - 1] == Point(r.d.inX as real, r.d.inY as real)
    ensures r.dl <= r.sl + 1 ==> |r.Waypoints()| == 2
  {
    DetoursShape(r);
  }

  /** The `for l` loop of the routing pass: collect the waypoints of one connector. */
  method RoutePoints(sl: nat, s: Layout, dl: nat, d: Layout, lanes: array<int>) returns (points: seq<Point>)
    requires lanes.Length == MaxLanes && dl <= MaxLanes && MaxOf(lanes[..]) != 0
    ensures points == Route(sl, s, dl, d, lanes[..]).Waypoints()
  {
    ghost var r := Route(sl, s, dl, d, lanes[..]);
    points := [Point(s.outX as real, s.outY as real)];
    var dy := FanOut(s.outY, MaxOf(lanes[..]));
    var l := sl + 1;
    while l < dl
      invariant sl + 1 <= l && (l <= dl || l == sl + 1)
      invariant points == [Point(s.outX as real, s.outY as real)] + r.Detours(l)
    {
      var ty := CrossY(s.outY, d.inY, sl, dl, l);
      if (lanes[l] * RowHeight + 10) as real > ty {
        var y := DetourY(ty, dy);
        var x := DetourLeft(l);
        points := points + [Point(x, y), Point(x + 72.0, y)];
      }
      l := l + 1;
    }
    points := points + [Point(d.inX as real, d.inY as real)];
  }

  // ------------------------------------------------------------------ svgConnect

  /** One cubic bezier segment from `p` to `q`, control points offset horizontally. */
  function Segment(p: Point, q: Point, xlen: real): seq<Token>
  {
    [Cmd('C'), Num(p.x + xlen), Num(p.y), Num(q.x - xlen), Num(q.y), Num(q.x), Num(q.y)]
  }

  /** Path data of a connector through `points`: a move to the first point,
      then one `C` segment per consecutive pair of points. */
  function SvgConnect(points: seq<Point>, xlen: real): (d: seq<Token>)
    requires |points| >= 1
    ensures |d| == 3 + 7 * (|points| - 1)
  {
    if |points| == 1 then [Cmd('M'), Num(points[0].x), Num(points[0].y)]
    else SvgConnect(points[..|points| - 1], xlen) + Segment(points[|points| - 2], points[|points| - 1], xlen)
  }

  /** The path data starts with the move to the first point, and token
      block `i` after it is the segment from point `i` to point `i + 1`. */
  lemma {:induction false} SvgConnectShape(points: seq<Point>, xlen: real)
    requires |points| >= 1
    ensures SvgConnect(points, xlen)[..3] == [Cmd('M'), Num(points[0].x), Num(points[0].y)]
    ensures forall i :: 0 <= i < |points| - 1 ==>
      SvgConnect(points, xlen)[3 + 7 * i .. 3 + 7 * i + 7] == Segment(points[i], points[i + 1], xlen)
  {
    if |points| > 1 {
      var init := points[..|points| - 1];
      SvgConnectShape(init, xlen);
      var prev := SvgConnect(init, xlen);
      var d := SvgConnect(points, xlen);
      assert d == prev + Segment(points[|points| - 2], points[|points| - 1], xlen);
      assert d[..3] == prev[..3];
      forall i | 0 <= i < |points| - 1
        ensures d[3 + 7 * i .. 3 + 7 * i + 7] == Segment(points[i], points[i + 1], xlen)
      {
        if i < |init| - 1 {
          assert init[i] == points[i] && init[i + 1] == points[i + 1];
          assert d[3 + 7 * i .. 3 + 7 * i + 7] == prev[3 + 7 * i .. 3 + 7 * i + 7];
        } else {
          assert 3 + 7 * i == |prev|;
        }
      }
    }
  }

  // ------------------------------------------------------------ edge sequence

  /** The facts routing relies on: one layout per node, lanes in range and the
      final counters. */
  ghost predicate Routable(els: seq<Node>, ids: map<string, nat>, layouts: seq<Layout>, lanes: seq<int>)
  {
    && LanesBounded(els)
    && ids == IdIndex(els)
    && layouts == Layouts(els)
    && lanes == LaneCounts(els)
  }

  function ConnectColor(n: Node): string {
    if Truthy(n.connectColor) then n.connectColor else "black"
  }

  /** The connector drawn for dependency `srcId` of node `k`, if `srcId` names a node. */
  function EdgeFor(els: seq<Node>, ids: map<string, nat>, layouts: seq<Layout>, lanes: seq<int>,
                   k: nat, srcId: string): Option<Edge>
    requires Routable(els, ids, layouts, lanes) && k < |els|
  {
    if srcId !in ids then None
    else
      IdIndexInRange(els);
      LaneCountsPositive(els);
      var si := ids[srcId];
      var w := Route(els[si].lane, layouts[si], els[k].lane, layouts[k], lanes).Waypoints();
      Some(Edge(si, k, srcId, w, ConnectColor(els[si]), SvgConnect(w, ControlOffset)))
  }

  /** Connectors for the first `j` dependencies of node `k`, in dependency order. */
  function NodeEdges(els: seq<Node>, ids: map<string, nat>, layouts: seq<Layout>, lanes: seq<int>,
                     k: nat, j: nat): seq<Edge>
    requires Routable(els, ids, layouts, lanes) && k < |els| && j <= |els[k].srcIds|
  {
    if j == 0 then []
    else
      var prev := NodeEdges(els, ids, layouts, lanes, k, j - 1);
      match EdgeFor(els, ids, layouts, lanes, k, els[k].srcIds[j - 1])
      case None => prev
      case Some(e) => prev + [e]
  }

  /** Connectors of the first `n` nodes, in node order, then dependency order. */
  function AllEdges(els: seq<Node>, ids: map<string, nat>, layouts: seq<Layout>, lanes: seq<int>,
                    n: nat): seq<Edge>
    requires Routable(els, ids, layouts, lanes) && n <= |els|
  {
    if n == 0 then []
    else AllEdges(els, ids, layouts, lanes, n - 1)
         + NodeEdges(els, ids, layouts, lanes, n - 1, |els[n - 1].srcIds|)
  }

  /** The (node, dependency) pairs whose dependency names a node: an
      independent statement of which connectors exist and in what order. */
  function ResolvedDeps(srcIds: seq<string>, ids: map<string, nat>): seq<string>
  {
    if srcIds == [] then []
    else ResolvedDeps(srcIds[..|srcIds| - 1], ids)
         + (if srcIds[|srcIds| - 1] in ids then [srcIds[|srcIds| - 1]] else [])
  }

  function Tagged(k: nat, deps: seq<string>): seq<(nat, string)>
  {
    seq(|deps|, i requires 0 <= i < |deps| => (k, deps[i]))
  }

  function ResolvedPairs(els: seq<Node>, ids: map<string, nat>, n: nat): seq<(nat, string)>
    requires n <= |els|
  {
    if n == 0 then []
    else ResolvedPairs(els, ids, n - 1) + Tagged(n - 1, ResolvedDeps(els[n - 1].srcIds, ids))
  }

  function Labels(es: seq<Edge>): seq<(nat, string)>
  {
    seq(|es|, i requires 0 <= i < |es| => (es[i].dst, es[i].srcId))
  }

  lemma {:induction false} NodeEdgesLabels(els: seq<Node>, ids: map<string, nat>, layouts: seq<Layout>,
                                          lanes: seq<int>, k: nat, j: nat)
    requires Routable(els, ids, layouts, lanes) && k < |els| && j <= |els[k].srcIds|
    ensures var es := NodeEdges(els, ids, layouts, lanes, k, j);
      var rd := ResolvedDeps(els[k].srcIds[..j], ids);
      |es| == |rd| && forall i :: 0 <= i < |es| ==> es[i].dst == k && es[i].srcId == rd[i]
  {
    if j > 0 {
      NodeEdgesLabels(els, ids, layouts, lanes, k, j - 1);
      assert els[k].srcIds[..j][..j - 1] == els[k].srcIds[..j - 1];
    }
  }

  /** Connectors appear exactly for the dependencies that name a node, one
      each, in node order and then dependency order; an unknown id yields no
      connector. Each connector goes from the node its id names. */
  lemma {:induction false} EdgesAreResolvedDeps(els: seq<Node>, ids: map<string, nat>, layouts: seq<Layout>,
                                               lanes: seq<int>, n: nat)
    requires Routable(els, ids, layouts, lanes) && n <= |els|
    ensures Labels(AllEdges(els, ids, layouts, lanes, n)) == ResolvedPairs(els, ids, n)
  {
    if n > 0 {
      EdgesAreResolvedDeps(els, ids, layouts, lanes, n - 1);
      var k := n - 1;
      NodeEdgesLabels(els, ids, layouts, lanes, k, |els[k].srcIds|);
      assert els[k].srcIds[..|els[k].srcIds|] == els[k].srcIds;
    }
  }

  /** Connector `e` of node `k` leaves the output port of the node its id
      names and ends at the input port of node `k`. */
  ghost predicate JoinsPorts(els: seq<Node>, ids: map<string, nat>, layouts: seq<Layout>, k: nat, e: Edge)
    requires |layouts| == |els| && k < |els|
  {
    && e.srcId in ids && e.src == ids[e.srcId] && e.src < |els| && e.dst == k
    && |e.points| >= 2
    && e.points[0] == Point(layouts[e.src].outX as real, layouts[e.src].outY as real)
    && e.points[|e.points| - 1] == Point(layouts[k].inX as real, layouts[k].inY as real)
  }

  lemma EdgeForJoinsPorts(els: seq<Node>, ids: map<string, nat>, layouts: seq<Layout>,
                          lanes: seq<int>, k: nat, srcId: string)
    requires Routable(els, ids, layouts, lanes) && k < |els|
    ensures var e := EdgeFor(els, ids, layouts, lanes, k, srcId);
      e.Some? ==> JoinsPorts(els, ids, layouts, k, e.value)
  {
    if srcId in ids {
      IdIndexInRange(els);
      LaneCountsPositive(els);
      var si := ids[srcId];
      WaypointsShape(Route(els[si].lane, layouts[si], els[k].lane, layouts[k], lanes));
    }
  }

  /** Every connector runs from the output port of the node its id names to the
      input port of the dependent node. */
  lemma {:induction false} NodeEdgesJoinPorts(els: seq<Node>, ids: map<string, nat>, layouts: seq<Layout>,
                                             lanes: seq<int>, k: nat, j: nat)
    requires Routable(els, ids, layouts, lanes) && k < |els| && j <= |els[k].srcIds|
    ensures forall e :: e in NodeEdges(els, ids, layouts, lanes, k, j) ==> JoinsPorts(els, ids, layouts, k, e)
  {
    if j > 0 {
      NodeEdgesJoinPorts(els, ids, layouts, lanes, k, j - 1);
      EdgeForJoinsPorts(els, ids, layouts, lanes, k, els[k].srcIds[j - 1]);
    }
  }

  // ------------------------------------------------------------------- graph

  class ProcGraph {
    /** The nodes in insertion order. */
    var elements: seq<Node>
    /** Truthy id to position in `elements` of the node last added with it. */
    var ids: map<string, nat>
    /** The per-node fields Build assigns, one per element once Build has run. */
    var layouts: seq<Layout>

    ghost predicate Valid()
      reads this
    {
      ids == IdIndex(elements)
    }

    constructor ()
      ensures Valid() && elements == [] && ids == map[] && layouts == []
    {
      elements := [];
      ids := map[];
      layouts := [];
    }

    /** Append a node; an absent `srcIds` becomes empty, and a truthy id is
        (re)bound to the new node. */
    method Add(d: Descriptor)
      requires Valid()
      modifies this
      ensures Valid()
      ensures elements == old(elements) + [ToNode(d)]
      ensures ids == if Truthy(d.id) then old(ids)[d.id := |old(elements)|] else old(ids)
      ensures layouts == old(layouts)
    {
      var n := ToNode(d);
      assert (elements + [n])[..|elements|] == elements;
      if Truthy(n.id) {
        ids := ids[n.id := |elements|];
      }
      elements := elements + [n];
    }

    /** The routing pass: one connector per resolvable dependency. */
    method RouteAll(lanes: array<int>) returns (edges: seq<Edge>)
      requires Valid() && LanesBounded(elements) && layouts == Layouts(elements)
      requires lanes.Length == MaxLanes && lanes[..] == LaneCounts(elements)
      ensures edges == AllEdges(elements, ids, layouts, lanes[..], |elements|)
    {
      assert Routable(elements, ids, layouts, lanes[..]);
      edges := [];
      var k := 0;
      while k < |elements|
        invariant 0 <= k <= |elements|
        invariant edges == AllEdges(elements, ids, layouts, lanes[..], k)
      {
        var es := RouteNode(lanes, k);
        edges := edges + es;
        k := k + 1;
      }
    }

    /** The inner loop of the routing pass: the connectors into node `k`,
        one per dependency that names a node. */
    method RouteNode(lanes: array<int>, k: nat) returns (edges: seq<Edge>)
      requires Valid() && LanesBounded(elements) && layouts == Layouts(elements)
      requires lanes.Length == MaxLanes && lanes[..] == LaneCounts(elements)
      requires k < |elements|
      ensures Routable(elements, ids, layouts, lanes[..])
      ensures edges == NodeEdges(elements, ids, layouts, lanes[..], k, |elements[k].srcIds|)
    {
      assert Routable(elements, ids, layouts, lanes[..]);
      var elem := elements[k];
      edges := [];
      var j := 0;
      while j < |elem.srcIds|
        invariant 0 <= j <= |elem.srcIds|
        invariant edges == NodeEdges(elements, ids, layouts, lanes[..], k, j)
      {
        var e := RouteEdge(lanes, k, elem.srcIds[j]);
        if e.Some? {
          edges := edges + [e.value];
        }
        j := j + 1;
      }
    }

    /** One step of the inner loop: the connector for dependency `srcId` of
        node `k`, when `srcId` names a node. */
    method RouteEdge(lanes: array<int>, k: nat, srcId: string) returns (e: Option<Edge>)
      requires Valid() && LanesBounded(elements) && layouts == Layouts(elements)
      requires lanes.Length == MaxLanes && lanes[..] == LaneCounts(elements)
      requires k < |elements|
      ensures Routable(elements, ids, layouts, lanes[..])
      ensures e == EdgeFor(elements, ids, layouts, lanes[..], k, srcId)
    {
      assert Routable(elements, ids, layouts, lanes[..]);
      if srcId !in ids {
        return None;
      }
      IdIndexInRange(elements);
      var si := ids[srcId];
      var src := elements[si];
      LaneCountsPositive(elements);
      var points := RoutePoints(src.lane, layouts[si], elements[k].lane, layouts[k], lanes);
      e := Some(Edge(si, k, srcId, points, ConnectColor(src), SvgConnect(points, ControlOffset)));
    }

    /** The placement pass: assign row, box and ports to every node, counting
        the nodes of each lane in `lanes`. */
    method Place(lanes: array<int>) returns (placed: seq<Layout>, boxes: seq<Box>)
      requires LanesBounded(elements)
      requires lanes.Length == MaxLanes && forall l :: 0 <= l < MaxLanes ==> lanes[l] == 0
      modifies lanes
      ensures placed == Layouts(elements) && boxes == Boxes(elements, placed)
      ensures lanes[..] == LaneCounts(elements)
    {
      placed, boxes := [], [];
      var i := 0;
      while i < |elements|
        invariant 0 <= i <= |elements|
        invariant placed == Layouts(elements[..i]) && boxes == Boxes(elements[..i], placed)
        invariant forall l :: 0 <= l < MaxLanes ==> lanes[l] == CountLane(elements[..i], l)
      {
        var elem := elements[i];
        var p := LayoutAt(elem.lane, lanes[elem.lane]);
        CountLaneStep(elements, i);
        PlaceStep(elements, i);
        placed := placed + [p];
        boxes := boxes + [BoxOf(elem, p)];
        lanes[elem.lane] := lanes[elem.lane] + 1;
        i := i + 1;
      }
      assert elements[..|elements|] == elements;
      assert forall l :: 0 <= l < MaxLanes ==> lanes[..][l] == LaneCounts(elements)[l];
    }

    /** Lay out and route the whole graph and size the canvas. */
    method Build() returns (r: Rendering)
      requires Valid() && LanesBounded(elements)
      modifies this
      ensures Valid() && elements == old(elements) && ids == old(ids)
      ensures layouts == Layouts(elements)
      ensures forall k :: 0 <= k < |elements| ==>
        layouts[k].row == CountLane(elements[..k], elements[k].lane) &&
        layouts[k].x == elements[k].lane * LaneWidth + LeftMargin &&
        layouts[k].y == layouts[k].row * RowHeight + TopMargin &&
        layouts[k].inX == layouts[k].x && layouts[k].outX == layouts[k].x + BoxWidth &&
        layouts[k].inY == layouts[k].y + PortOffset && layouts[k].outY == layouts[k].y + PortOffset
      ensures r.boxes == Boxes(elements, layouts)
      ensures r.edges == AllEdges(elements, ids, layouts, LaneCounts(elements), |elements|)
      ensures r.height == CanvasHeight(LaneCounts(elements))
    {
      var lanes := new int[MaxLanes](_ => 0);
      var placed, boxes := Place(lanes);
      layouts := placed;
      LayoutsEach(elements);
      var edges := RouteAll(lanes);
      r := Rendering(boxes, edges, MaxOf(lanes[..]) * RowHeight + RowHeight / 2);
    }
  }
}
