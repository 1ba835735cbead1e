/** The hierarchical grid layout of the architecture graph, and its normalisation to 800 units. */
module GridLayout {
  import opened Arithmetic
  import opened Sets
  import opened Sorting

  type NodeId = string

  datatype Point = Point(x: real, y: real)

  const X_SPACING := 40
  const Y_SPACING := 40
  const MAX_COLS := 150
  const LEVEL_GAP := 80

  /** `s.count(part)` for the two separators; occurrences of `::` do not overlap. */
  function CountDots(s: string): nat {
    if s == "" then 0 else (if s[0] == '.' then 1 else 0) + CountDots(s[1..])
  }

  function CountScopes(s: string): nat {
    if |s| < 2 then 0
    else if s[..2] == "::" then 1 + CountScopes(s[2..])
    else CountScopes(s[1..])
  }

  function TypeOffset(kind: string): nat {
    match kind
    case "class" => 1
    case "function" => 2
    case "struct" => 1
    case "external" => 3
    case _ => 0
  }

  function Depth(id: NodeId): nat {
    CountDots(id) + CountScopes(id)
  }

  function Level(id: NodeId, kind: string): nat {
    Depth(id) * 3 + TypeOffset(kind)
  }

  lemma {:induction false} DotsAreOccurrences(s: string)
    ensures CountDots(s) == multiset(s)['.']
  {
    if s != "" {
      DotsAreOccurrences(s[1..]);
      assert s == [s[0]] + s[1..];
    }
  }

  predicate ScopeAt(s: string, i: nat) {
    i + 1 < |s| && s[i] == ':' && s[i + 1] == ':'
  }

  /** Scopes are counted one after another: none without an occurrence, or one more than after the first. */
  lemma {:induction false} ScopesAreOccurrences(s: string, first: nat)
    ensures (forall i: nat :: !ScopeAt(s, i)) ==> CountScopes(s) == 0
    ensures ScopeAt(s, first) && (forall i: nat | i < first :: !ScopeAt(s, i)) ==> CountScopes(s) == 1 + CountScopes(s[first + 2..])
    decreases |s|
  {
    if |s| >= 2 {
      assert s[..2] == [s[0], s[1]];
      if ScopeAt(s, 0) {
        assert s[..2] == "::";
      } else {
        ScopesAreOccurrences(s[1..], if first > 0 then first - 1 else 0);
        assert forall i: nat :: ScopeAt(s[1..], i) <==> ScopeAt(s, i + 1);
        if first > 0 && ScopeAt(s, first) { assert s[1..][first - 1 + 2..] == s[first + 2..]; }
      }
    }
  }

  /** Within a depth: modules and the like first, then classes and structs, functions and externals. */
  lemma KindsAreOrdered(id: NodeId, other: string)
    requires other !in {"class", "struct", "function", "external"}
    ensures Level(id, other) < Level(id, "class") == Level(id, "struct") < Level(id, "function") < Level(id, "external")
    ensures Level(id, other) == Level(id, "module")
  {
  }

  /** A deeper name never stands above a shallower one, and level with it only where externals meet modules. */
  lemma DeeperNamesStandLower(a: NodeId, kindA: string, b: NodeId, kindB: string)
    ensures Depth(a) == Depth(b) && kindA == kindB ==> Level(a, kindA) == Level(b, kindB)
    ensures Depth(a) < Depth(b) ==>
              && Level(a, kindA) <= Level(b, kindB)
              && (Level(a, kindA) == Level(b, kindB) <==>
                    Depth(a) + 1 == Depth(b) && kindA == "external" && kindB !in {"class", "struct", "function", "external"})
  {
  }

  /** At least one grid step apart along some axis. */
  predicate Apart(p: Point, q: Point) {
    p.x - q.x >= 40.0 || q.x - p.x >= 40.0 || p.y - q.y >= 40.0 || q.y - p.y >= 40.0
  }

  /** `p` is read before `q`: higher up, or further left on the same row. */
  predicate ReadBefore(p: Point, q: Point) {
    p.y < q.y || (p.y == q.y && p.x < q.x)
  }

  function Cols(n: nat): nat {
    if n < MAX_COLS then n else MAX_COLS
  }

  /** The place of the `i`-th of `n` names of a level whose first row is at `y`. */
  function Slot(n: nat, i: nat, y: real): Point
    requires i < n
  {
    var cols := Cols(n);
    Point(-((cols * X_SPACING) as real) / 2.0 + ((i % cols) * X_SPACING) as real,
          y + ((i / cols) * Y_SPACING) as real)
  }

  /** The number of rows a level of `n` names fills. */
  function Rows(n: nat): nat
    requires n > 0
  {
    var cols := Cols(n);
    (n + cols - 1) / cols
  }

  lemma DivModOrder(i: nat, j: nat, c: nat)
    requires i <= j && c > 0
    ensures i / c <= j / c
    ensures i / c == j / c ==> j % c - i % c == j - i
  {
    IntQuotientsAreOrdered(i, j, c);
    assert i == i / c * c + i % c && j == j / c * c + j % c;
  }

  lemma SlotsAreApart(n: nat, i: nat, j: nat, y: real)
    requires i < j < n
    ensures Apart(Slot(n, i, y), Slot(n, j, y)) && ReadBefore(Slot(n, i, y), Slot(n, j, y))
  {
    DivModOrder(i, j, Cols(n));
  }

  lemma RowOfLast(i: nat, n: nat, c: nat)
    requires i < n && c > 0
    ensures 0 <= i / c <= (n + c - 1) / c - 1
  {
    IntQuotientsAreOrdered(i, n - 1, c);
    var q, r := (n - 1) / c, (n - 1) % c;
    OneMore(q, c);
    QuotientIs(n + c - 1, c, q + 1, r);
  }

  lemma RowIsWithinRows(n: nat, i: nat)
    requires i < n
    ensures 0 <= i / Cols(n) <= Rows(n) - 1
  {
    RowOfLast(i, n, Cols(n));
  }

  lemma SlotsFillTheRows(n: nat, i: nat, y: real)
    requires i < n
    ensures y <= Slot(n, i, y).y <= y + ((Rows(n) - 1) * Y_SPACING) as real
  {
    RowIsWithinRows(n, i);
  }

  /** A level's slots start 20 units to the left for each of its columns, 150 at most, and run 40 apart, row by row. */
  lemma SlotsRunInRows(n: nat, i: nat, y: real)
    requires i < n
    ensures Slot(n, 0, y) == Point(-20.0 * (if n < 150 then n else 150) as real, y)
    ensures var next := if i + 1 < n then Slot(n, i + 1, y) else Slot(n, i, y);
            i + 1 < n ==>
              if (i + 1) % 150 == 0 then next == Point(Slot(n, 0, y).x, Slot(n, i, y).y + 40.0)
              else next == Point(Slot(n, i, y).x + 40.0, Slot(n, i, y).y)
  {
    if i + 1 < n {
      StepsOfQuotient(i, Cols(n));
      if n < 150 { SmallQuotient(i + 1, n); SmallQuotient(i + 1, 150); }
    }
  }

  lemma SmallQuotient(i: nat, c: nat)
    requires i < c
    ensures i / c == 0 && i % c == i
  {
    QuotientIs(i, c, 0, i);
  }

  lemma StepsOfQuotient(i: nat, c: nat)
    requires c > 0
    ensures if (i + 1) % c == 0 then (i + 1) / c == i / c + 1 else (i + 1) / c == i / c && (i + 1) % c == i % c + 1
  {
    var q, r := i / c, i % c;
    assert i == q * c + r;
    if r + 1 < c {
      QuotientIs(i + 1, c, q, r + 1);
    } else {
      OneMore(q, c);
      QuotientIs(i + 1, c, q + 1, 0);
    }
  }

  /** Two nodes are laid out as they must be relative to one another. */
  predicate WellPlaced(kinds: map<NodeId, string>, a: NodeId, p: Point, b: NodeId, q: Point)
    requires a in kinds && b in kinds && a != b
  {
    var m, n := Level(a, kinds[a]), Level(b, kinds[b]);
    && Apart(p, q)
    && (m < n ==> p.y + (Y_SPACING + LEVEL_GAP) as real <= q.y)
    && (m == n && StringLeq(a, b) ==> ReadBefore(p, q))
  }

  predicate LaidOut(kinds: map<NodeId, string>, layout: map<NodeId, Point>)
    requires layout.Keys <= kinds.Keys
  {
    forall a, b | a in layout && b in layout && a != b :: WellPlaced(kinds, a, layout[a], b, layout[b])
  }

  // ----- the exact grid

  /** The nodes of a level. */
  function Peers(kinds: map<NodeId, string>, level: nat): set<NodeId> {
    set id | id in kinds && Level(id, kinds[id]) == level
  }

  /** The nodes of a node's own level whose names sort before its name. */
  function Ahead(kinds: map<NodeId, string>, id: NodeId): set<NodeId>
    requires id in kinds
  {
    set other | other in Peers(kinds, Level(id, kinds[id])) && other != id && StringLeq(other, id)
  }

  /** What a level takes up: nothing if it has no nodes. */
  function Span(kinds: map<NodeId, string>, level: nat): real {
    if Peers(kinds, level) == {} then 0.0 else (Rows(|Peers(kinds, level)|) * Y_SPACING + LEVEL_GAP) as real
  }

  /** Where a level begins. */
  function Top(kinds: map<NodeId, string>, level: nat): real {
    if level == 0 then 0.0 else Top(kinds, level - 1) + Span(kinds, level - 1)
  }

  /** A node stands in the slot that its name's rank in its level gives it. */
  predicate InGrid(kinds: map<NodeId, string>, id: NodeId, p: Point) {
    && id in kinds
    && var level := Level(id, kinds[id]);
       |Ahead(kinds, id)| < |Peers(kinds, level)|
       && p == Slot(|Peers(kinds, level)|, |Ahead(kinds, id)|, Top(kinds, level))
  }

  lemma {:induction false} EmptyLevelsTakeNoSpace(kinds: map<NodeId, string>, from: nat, level: nat)
    requires from <= level && forall l | from <= l < level :: Peers(kinds, l) == {}
    ensures Top(kinds, level) == Top(kinds, from)
    decreases level
  {
    if from < level {
      EmptyLevelsTakeNoSpace(kinds, from, level - 1);
    }
  }

  /** The next level starts 120 units below the last row of a level that has nodes. */
  lemma LevelsAreSetApart(kinds: map<NodeId, string>, level: nat)
    requires Peers(kinds, level) != {}
    ensures var n := |Peers(kinds, level)|;
            n > 0 && Top(kinds, level + 1) == Slot(n, n - 1, Top(kinds, level)).y + 120.0
  {
    var n := |Peers(kinds, level)|;
    LastRow(n);
  }

  lemma LastRow(n: nat)
    requires n > 0
    ensures (n - 1) / Cols(n) == Rows(n) - 1
  {
    var c := Cols(n);
    var q, r := (n - 1) / c, (n - 1) % c;
    OneMore(q, c);
    QuotientIs(n + c - 1, c, q + 1, r);
  }

  lemma {:induction false} DistinctSize<T>(xs: seq<T>)
    requires Distinct(xs)
    ensures |set x | x in xs| == |xs|
  {
    if xs != [] {
      var init, last := xs[..|xs| - 1], xs[|xs| - 1];
      DistinctSize(init);
      assert (set x | x in xs) == (set x | x in init) + {last};
    }
  }

  /** In a level's sorted names, a name's index is its rank. */
  lemma IndexIsRank(kinds: map<NodeId, string>, names: seq<NodeId>, level: nat, i: nat)
    requires Distinct(names) && Sorted(names, StringLeq) && i < |names|
    requires forall n :: n in names <==> n in Peers(kinds, level)
    ensures names[i] in kinds && |Peers(kinds, level)| == |names| && |Ahead(kinds, names[i])| == i
  {
    assert names[i] in Peers(kinds, level);
    DistinctSize(names);
    assert Peers(kinds, level) == set n | n in names;
    DistinctSize(names[..i]);
    forall o | o in names
      ensures o in names[..i] <==> o != names[i] && StringLeq(o, names[i])
    {
      var j :| 0 <= j < |names| && names[j] == o;
      StringOrderIsTotal(o, names[i]);
      assert j < i ==> names[..i][j] == o;
      assert j > i ==> StringLeq(names[i], o);
    }
    assert Ahead(kinds, names[i]) == set n | n in names[..i];
  }

  /** The levels of the graph and the nodes of each, in no particular order. */
  method GroupByLevel(kinds: map<NodeId, string>) returns (levels: map<nat, seq<NodeId>>)
    ensures forall l | l in levels :: levels[l] != []
    ensures forall l, i, j | l in levels && 0 <= i < j < |levels[l]| :: levels[l][i] != levels[l][j]
    ensures forall l, id :: l in levels && id in levels[l] <==> id in kinds && Level(id, kinds[id]) == l
  {
    levels := map[];
    var todo := kinds.Keys;
    while todo != {}
      invariant todo <= kinds.Keys
      invariant forall l | l in levels :: levels[l] != []
      invariant forall l, i, j | l in levels && 0 <= i < j < |levels[l]| :: levels[l][i] != levels[l][j]
      invariant forall l, id :: l in levels && id in levels[l] <==> id in kinds && id !in todo && Level(id, kinds[id]) == l
    {
      var id :| id in todo;
      todo := todo - {id};
      var l := Level(id, kinds[id]);
      levels := levels[l := (if l in levels then levels[l] else []) + [id]];
    }
  }

  /** Places one level below everything placed so far. */
  method PlaceLevel(names: seq<NodeId>, y: real, layout: map<NodeId, Point>) returns (placed: map<NodeId, Point>)
    requires forall i, j | 0 <= i < j < |names| :: names[i] != names[j]
    requires forall n | n in names :: n !in layout
    ensures placed.Keys == layout.Keys + set n | n in names
    ensures forall id | id in layout :: placed[id] == layout[id]
    ensures forall i | 0 <= i < |names| :: names[i] in placed && placed[names[i]] == Slot(|names|, i, y)
  {
    placed := layout;
    for i := 0 to |names|
      invariant placed.Keys == layout.Keys + set n | n in names[..i]
      invariant forall id | id in layout :: placed[id] == layout[id]
      invariant forall k | 0 <= k < i :: names[k] in placed && placed[names[k]] == Slot(|names|, k, y)
    {
      assert names[..i + 1] == names[..i] + [names[i]];
      placed := placed[names[i] := Slot(|names|, i, y)];
    }
    assert names[..|names|] == names;
  }

  /** The first of `sorted(levels)`. */
  method Least(levels: set<nat>) returns (least: nat)
    requires levels != {}
    ensures least in levels && forall l | l in levels :: least <= l
  {
    least :| least in levels;
    var todo := levels - {least};
    while todo != {}
      invariant todo <= levels && least in levels
      invariant forall l | l in levels && l !in todo :: least <= l
    {
      var l :| l in todo;
      todo := todo - {l};
      if l < least { least := l; }
    }
  }

  lemma LevelIsInGrid(kinds: map<NodeId, string>, names: seq<NodeId>, level: nat, placed: map<NodeId, Point>)
    requires names != [] && Distinct(names) && Sorted(names, StringLeq)
    requires forall n :: n in names <==> n in Peers(kinds, level)
    requires forall i | 0 <= i < |names| :: names[i] in placed && placed[names[i]] == Slot(|names|, i, Top(kinds, level))
    ensures forall n | n in names :: InGrid(kinds, n, placed[n])
    ensures Top(kinds, level + 1) == Top(kinds, level) + (Rows(|names|) * Y_SPACING + LEVEL_GAP) as real
  {
    forall n | n in names
      ensures InGrid(kinds, n, placed[n])
    {
      var i :| 0 <= i < |names| && names[i] == n;
      IndexIsRank(kinds, names, level, i);
    }
    IndexIsRank(kinds, names, level, 0);
  }

  /** One turn of the layout loop: sorts the names of a level and places them from `y` on. */
  method AddLevel(kinds: map<NodeId, string>, ids: seq<NodeId>, ghost level: nat, y: real, layout: map<NodeId, Point>)
      returns (placed: map<NodeId, Point>, nextY: real)
    requires ids != [] && Distinct(ids) && y == Top(kinds, level)
    requires forall n :: n in ids <==> n in Peers(kinds, level)
    requires forall id | id in ids :: id !in layout
    ensures placed.Keys == layout.Keys + set n | n in ids
    ensures forall id | id in layout :: placed[id] == layout[id]
    ensures forall id | id in ids :: InGrid(kinds, id, placed[id])
    ensures nextY == Top(kinds, level + 1)
  {
    var names := Sort(ids, StringLeq);
    StringOrder();
    SortSorts(ids, StringLeq);
    PermutationKeepsDistinct(ids, names);
    SameElements(ids, names);
    placed := PlaceLevel(names, y, layout);
    LevelIsInGrid(kinds, names, level, placed);
    nextY := y + (Rows(|names|) * Y_SPACING + LEVEL_GAP) as real;
  }

  ghost predicate GridPart(kinds: map<NodeId, string>, layout: map<NodeId, Point>) {
    forall id | id in layout :: InGrid(kinds, id, layout[id])
  }

  lemma GridPartGrows(kinds: map<NodeId, string>, layout: map<NodeId, Point>, ids: seq<NodeId>, placed: map<NodeId, Point>)
    requires GridPart(kinds, layout) && placed.Keys == layout.Keys + set n | n in ids
    requires forall id | id in layout :: placed[id] == layout[id]
    requires forall id | id in ids :: InGrid(kinds, id, placed[id])
    ensures GridPart(kinds, placed)
  {
    forall id | id in placed
      ensures InGrid(kinds, id, placed[id])
    {
      if id in layout {
        assert InGrid(kinds, id, layout[id]);
      }
    }
  }

  /** Every node stands in its exact slot, whatever the order of the graph's nodes. */
  method HierarchicalLayout(kinds: map<NodeId, string>) returns (layout: map<NodeId, Point>)
    ensures layout.Keys == kinds.Keys && GridPart(kinds, layout)
  {
    layout := map[];
    var levels := GroupByLevel(kinds);
    var todo := levels.Keys;
    var currentY := 0.0;
    ghost var next := 0;
    while todo != {}
      invariant todo <= levels.Keys
      invariant forall id :: id in layout <==> id in kinds && Level(id, kinds[id]) !in todo
      invariant GridPart(kinds, layout)
      invariant currentY == Top(kinds, next) && forall l | l in levels :: l in todo <==> l >= next
    {
      var level := Least(todo);
      GapIsEmpty(kinds, levels.Keys, next, level);
      ghost var before := layout;
      layout, currentY := AddLevel(kinds, levels[level], level, currentY, layout);
      GridPartGrows(kinds, before, levels[level], layout);
      todo := todo - {level};
      next := level + 1;
    }
  }

  lemma GapIsEmpty(kinds: map<NodeId, string>, levels: set<nat>, next: nat, level: nat)
    requires forall id | id in kinds :: Level(id, kinds[id]) in levels
    requires next <= level && forall l | l in levels && l >= next :: level <= l
    ensures Top(kinds, level) == Top(kinds, next)
  {
    EmptyLevelsTakeNoSpace(kinds, next, level);
  }

  // ----- what the grid guarantees

  lemma {:induction false} LowerLevelsBeginLower(kinds: map<NodeId, string>, m: nat, n: nat)
    requires m <= n
    ensures Top(kinds, m) <= Top(kinds, n)
    decreases n
  {
    if m < n {
      LowerLevelsBeginLower(kinds, m, n - 1);
    }
  }

  lemma LevelsAreSeparated(kinds: map<NodeId, string>, a: NodeId, p: Point, b: NodeId, q: Point)
    requires InGrid(kinds, a, p) && InGrid(kinds, b, q) && Level(a, kinds[a]) < Level(b, kinds[b])
    ensures p.y + (Y_SPACING + LEVEL_GAP) as real <= q.y
  {
    var m, n := Level(a, kinds[a]), Level(b, kinds[b]);
    assert a in Peers(kinds, m);
    SlotsFillTheRows(|Peers(kinds, m)|, |Ahead(kinds, a)|, Top(kinds, m));
    SlotsFillTheRows(|Peers(kinds, n)|, |Ahead(kinds, b)|, Top(kinds, n));
    LowerLevelsBeginLower(kinds, m + 1, n);
  }

  /** Ranks follow the order of the names. */
  lemma RanksFollowNames(kinds: map<NodeId, string>, a: NodeId, b: NodeId)
    requires a in kinds && b in kinds && a != b && Level(a, kinds[a]) == Level(b, kinds[b]) && StringLeq(a, b)
    ensures |Ahead(kinds, a)| < |Ahead(kinds, b)|
  {
    forall o | o in Ahead(kinds, a)
      ensures o in Ahead(kinds, b)
    {
      StringOrderIsTransitive(o, a, b);
      StringOrderIsTotal(a, b);
    }
    ProperSubsetSize(Ahead(kinds, a), Ahead(kinds, b), a);
  }

  lemma PeersAreApart(kinds: map<NodeId, string>, a: NodeId, p: Point, b: NodeId, q: Point)
    requires InGrid(kinds, a, p) && InGrid(kinds, b, q) && a != b && Level(a, kinds[a]) == Level(b, kinds[b]) && StringLeq(a, b)
    ensures Apart(p, q) && ReadBefore(p, q)
  {
    var level := Level(a, kinds[a]);
    RanksFollowNames(kinds, a, b);
    SlotsAreApart(|Peers(kinds, level)|, |Ahead(kinds, a)|, |Ahead(kinds, b)|, Top(kinds, level));
  }

  /** In the grid no two nodes collide, levels stand below one another, and names read in order. */
  lemma GridIsLaidOut(kinds: map<NodeId, string>, layout: map<NodeId, Point>)
    requires layout.Keys <= kinds.Keys && GridPart(kinds, layout)
    ensures LaidOut(kinds, layout)
  {
    forall a, b | a in layout && b in layout && a != b
      ensures WellPlaced(kinds, a, layout[a], b, layout[b])
    {
      NodesAreWellPlaced(kinds, a, layout[a], b, layout[b]);
    }
  }

  lemma NodesAreWellPlaced(kinds: map<NodeId, string>, a: NodeId, p: Point, b: NodeId, q: Point)
    requires InGrid(kinds, a, p) && InGrid(kinds, b, q) && a != b
    ensures WellPlaced(kinds, a, p, b, q)
  {
    var m, n := Level(a, kinds[a]), Level(b, kinds[b]);
    if m < n {
      LevelsAreSeparated(kinds, a, p, b, q);
    } else if n < m {
      LevelsAreSeparated(kinds, b, q, a, p);
    } else {
      StringOrderIsTotal(a, b);
      if StringLeq(a, b) {
        PeersAreApart(kinds, a, p, b, q);
      } else {
        PeersAreApart(kinds, b, q, a, p);
      }
    }
  }

  // ----- normalisation

  /** The corners of the bounding box, each side touched by some node. */
  ghost predicate Bounds(positions: map<NodeId, Point>, low: Point, high: Point) {
    && (forall n | n in positions :: low.x <= positions[n].x <= high.x && low.y <= positions[n].y <= high.y)
    && (exists n :: n in positions && positions[n].x == low.x) && (exists n :: n in positions && positions[n].x == high.x)
    && (exists n :: n in positions && positions[n].y == low.y) && (exists n :: n in positions && positions[n].y == high.y)
  }

  /** `min(xs), max(xs)` */
  method MinMax(xs: seq<real>) returns (low: real, high: real)
    requires xs != []
    ensures low in xs && high in xs && forall x | x in xs :: low <= x <= high
  {
    low, high := xs[0], xs[0];
    for i := 1 to |xs|
      invariant low in xs && high in xs && forall k | 0 <= k < i :: low <= xs[k] <= high
    {
      if xs[i] < low { low := xs[i]; }
      if xs[i] > high { high := xs[i]; }
    }
  }

  /** The nodes in some order, and their coordinates in that order. */
  method Coordinates(positions: map<NodeId, Point>) returns (ids: seq<NodeId>, xs: seq<real>, ys: seq<real>)
    ensures forall n :: n in ids <==> n in positions
    ensures |xs| == |ids| == |ys|
    ensures forall i | 0 <= i < |ids| :: positions[ids[i]] == Point(xs[i], ys[i])
  {
    ids, xs, ys := [], [], [];
    var todo := positions.Keys;
    while todo != {}
      invariant forall n :: n in ids <==> n in positions && n !in todo
      invariant |xs| == |ids| == |ys|
      invariant forall i | 0 <= i < |ids| :: ids[i] in positions && positions[ids[i]] == Point(xs[i], ys[i])
    {
      var n :| n in todo;
      todo := todo - {n};
      ids, xs, ys := ids + [n], xs + [positions[n].x], ys + [positions[n].y];
    }
  }

  method BoundingBox(positions: map<NodeId, Point>) returns (low: Point, high: Point)
    requires positions != map[]
    ensures Bounds(positions, low, high)
  {
    var ids, xs, ys := Coordinates(positions);
    var n :| n in positions;
    assert n in ids;
    var minX, maxX := MinMax(xs);
    var minY, maxY := MinMax(ys);
    low, high := Point(minX, minY), Point(maxX, maxY);
    forall n | n in positions
      ensures low.x <= positions[n].x <= high.x && low.y <= positions[n].y <= high.y
    {
      var i :| 0 <= i < |ids| && ids[i] == n;
      assert xs[i] in xs && ys[i] in ys;
    }
    Attained(positions, ids, xs, ys, minX, minY);
    Attained(positions, ids, xs, ys, maxX, maxY);
  }

  lemma Attained(positions: map<NodeId, Point>, ids: seq<NodeId>, xs: seq<real>, ys: seq<real>, x: real, y: real)
    requires forall n :: n in ids <==> n in positions
    requires |xs| == |ids| == |ys|
    requires forall i | 0 <= i < |ids| :: positions[ids[i]] == Point(xs[i], ys[i])
    requires x in xs && y in ys
    ensures exists n :: n in positions && positions[n].x == x
    ensures exists n :: n in positions && positions[n].y == y
  {
    var i :| 0 <= i < |xs| && xs[i] == x;
    var j :| 0 <= j < |ys| && ys[j] == y;
    assert ids[i] in ids && ids[j] in ids;
  }

  function Extent(low: real, high: real): real {
    if high != low then high - low else 1.0
  }

  function Scale(low: Point, high: Point): real
    requires low.x <= high.x && low.y <= high.y
  {
    var width, height := Extent(low.x, high.x), Extent(low.y, high.y);
    800.0 / if width < height then height else width
  }

  function Rescale(p: Point, low: Point, scale: real): Point {
    Point((p.x - low.x) * scale, (p.y - low.y) * scale)
  }

  predicate InSquare(p: Point) {
    0.0 <= p.x <= 800.0 && 0.0 <= p.y <= 800.0
  }

  /** The offset from `a` to `b` is that from `p` to `q`, stretched. */
  predicate Stretched(p: Point, q: Point, a: Point, b: Point, scale: real) {
    b.x - a.x == (q.x - p.x) * scale && b.y - a.y == (q.y - p.y) * scale
  }

  /** The map is `before` shifted and stretched by `scale`, inside the square and against its edges. */
  ghost predicate Normalized(before: map<NodeId, Point>, after: map<NodeId, Point>, scale: real) {
    && scale > 0.0 && after.Keys == before.Keys
    && (forall n | n in after :: InSquare(after[n]))
    && (forall a, b | a in after && b in after :: Stretched(before[a], before[b], after[a], after[b], scale))
    && TouchesEdges(before, after)
  }

  /** Node positions, rewritten in place. */
  class Positions {
    var coords: map<NodeId, Point>

    method Normalize()
      modifies this
      ensures coords.Keys == old(coords).Keys
      ensures old(coords) != map[] ==> exists scale :: Normalized(old(coords), coords, scale)
    {
      if coords == map[] { return; }
      var low, high := BoundingBox(coords);
      var scale := Scale(low, high);
      var todo := coords.Keys;
      while todo != {}
        invariant todo <= coords.Keys && coords.Keys == old(coords).Keys
        invariant forall n | n in coords ::
                    coords[n] == if n in todo then old(coords)[n] else Rescale(old(coords)[n], low, scale)
      {
        var n :| n in todo;
        todo := todo - {n};
        coords := coords[n := Rescale(coords[n], low, scale)];
      }
      ScaleFits(low, high);
      ScalingNormalizes(old(coords), coords, low, high, scale);
    }
  }

  lemma ProductOfPositives(a: real, b: real)
    ensures a >= 0.0 && b >= 0.0 ==> a * b >= 0.0
    ensures a > 0.0 && b > 0.0 ==> a * b > 0.0
  {
  }

  /** `s` maps the longer side of the box onto 800, or one unit of a box without sides. */
  predicate Fitting(low: Point, high: Point, s: real) {
    && s > 0.0
    && (high.x - low.x) * s <= 800.0 && (high.y - low.y) * s <= 800.0
    && (high.x - low.x >= 40.0 || high.y - low.y >= 40.0 ==>
          (high.x - low.x) * s == 800.0 || (high.y - low.y) * s == 800.0)
  }

  lemma ScaleFits(low: Point, high: Point)
    requires low.x <= high.x && low.y <= high.y
    ensures Fitting(low, high, Scale(low, high))
  {
    var s := Scale(low, high);
    var width, height := Extent(low.x, high.x), Extent(low.y, high.y);
    var longer := if width < height then height else width;
    assert longer * s == 800.0;
    ProductOfPositives(longer - (high.x - low.x), s);
    ProductOfPositives(longer - (high.y - low.y), s);
  }

  lemma CoordinateIsInRange(v: real, low: real, high: real, s: real)
    requires low <= v <= high && s > 0.0 && (high - low) * s <= 800.0
    ensures 0.0 <= (v - low) * s <= 800.0
  {
    ProductsAreOrdered(0.0, v - low, s);
    ProductsAreOrdered(v - low, high - low, s);
  }

  lemma RescaledIsInSquare(p: Point, low: Point, high: Point, s: real)
    requires low.x <= p.x <= high.x && low.y <= p.y <= high.y && Fitting(low, high, s)
    ensures InSquare(Rescale(p, low, s))
  {
    CoordinateIsInRange(p.x, low.x, high.x, s);
    CoordinateIsInRange(p.y, low.y, high.y, s);
  }

  lemma RescalingStretches(p: Point, q: Point, low: Point, scale: real)
    ensures Stretched(p, q, Rescale(p, low, scale), Rescale(q, low, scale), scale)
  {
  }

  /** The rescaled map reaches the left and top edges, and the far edge if two nodes were a grid step apart. */
  ghost predicate TouchesEdges(before: map<NodeId, Point>, after: map<NodeId, Point>) {
    && (exists n :: n in after && after[n].x == 0.0) && (exists n :: n in after && after[n].y == 0.0)
    && ((exists a, b :: a in before && b in before && Apart(before[a], before[b])) ==>
          exists n :: n in after && (after[n].x == 800.0 || after[n].y == 800.0))
  }

  lemma EdgesAreTouched(before: map<NodeId, Point>, after: map<NodeId, Point>, low: Point, high: Point, s: real)
    requires before != map[] && Bounds(before, low, high) && after.Keys == before.Keys
    requires forall n | n in after :: after[n] == Rescale(before[n], low, s)
    requires Fitting(low, high, s)
    ensures TouchesEdges(before, after)
  {
    var left :| left in before && before[left].x == low.x;
    var top :| top in before && before[top].y == low.y;
    var right :| right in before && before[right].x == high.x;
    var bottom :| bottom in before && before[bottom].y == high.y;
    CornersRescale(low, high, before[left], before[top], before[right], before[bottom], s);
    assert left in after && top in after && right in after && bottom in after;
  }

  lemma CornersRescale(low: Point, high: Point, left: Point, top: Point, right: Point, bottom: Point, s: real)
    requires left.x == low.x && top.y == low.y && right.x == high.x && bottom.y == high.y
    ensures Rescale(left, low, s).x == 0.0 && Rescale(top, low, s).y == 0.0
    ensures Rescale(right, low, s).x == (high.x - low.x) * s && Rescale(bottom, low, s).y == (high.y - low.y) * s
  {
  }

  lemma ScalingNormalizes(before: map<NodeId, Point>, after: map<NodeId, Point>, low: Point, high: Point, s: real)
    requires before != map[] && Bounds(before, low, high) && after.Keys == before.Keys
    requires Fitting(low, high, s)
    requires forall n | n in after :: after[n] == Rescale(before[n], low, s)
    ensures Normalized(before, after, s)
  {
    EdgesAreTouched(before, after, low, high, s);
    forall n | n in after
      ensures InSquare(after[n])
    {
      RescaledIsInSquare(before[n], low, high, s);
    }
    forall a, b | a in after && b in after
      ensures Stretched(before[a], before[b], after[a], after[b], s)
    {
      RescalingStretches(before[a], before[b], low, s);
    }
  }

  /** Laying out and normalising never merges two nodes: they stay 40 units times the scale apart. */
  method LayOutNormalized(kinds: map<NodeId, string>, positions: Positions) returns (ghost scale: real)
    modifies positions
    ensures positions.coords.Keys == kinds.Keys
    ensures scale > 0.0
    ensures forall n | n in kinds :: InSquare(positions.coords[n])
    ensures AllApart(positions.coords, 40.0 * scale)
  {
    var layout := CollisionFreeLayout(kinds);
    positions.coords := layout;
    scale := 1.0;
    positions.Normalize();
    if kinds != map[] {
      assert layout != map[];
      scale :| Normalized(layout, positions.coords, scale);
      StretchedGridIsApart(kinds, layout, positions.coords, scale);
    }
  }

  method CollisionFreeLayout(kinds: map<NodeId, string>) returns (layout: map<NodeId, Point>)
    ensures layout.Keys == kinds.Keys && LaidOut(kinds, layout)
  {
    layout := HierarchicalLayout(kinds);
    GridIsLaidOut(kinds, layout);
  }

  predicate AllApart(coords: map<NodeId, Point>, d: real) {
    forall a, b | a in coords && b in coords && a != b :: ApartBy(coords[a], coords[b], d)
  }

  predicate ApartBy(p: Point, q: Point, d: real) {
    p.x - q.x >= d || q.x - p.x >= d || p.y - q.y >= d || q.y - p.y >= d
  }

  lemma StretchedGridIsApart(kinds: map<NodeId, string>, layout: map<NodeId, Point>, coords: map<NodeId, Point>, scale: real)
    requires layout.Keys == kinds.Keys == coords.Keys && LaidOut(kinds, layout) && Normalized(layout, coords, scale)
    ensures AllApart(coords, 40.0 * scale)
  {
    forall a, b | a in coords && b in coords && a != b
      ensures ApartBy(coords[a], coords[b], 40.0 * scale)
    {
      assert WellPlaced(kinds, a, layout[a], b, layout[b]);
      StretchKeepsApart(layout[a], layout[b], coords[a], coords[b], scale);
    }
  }

  lemma StretchKeepsApart(p: Point, q: Point, a: Point, b: Point, scale: real)
    requires scale > 0.0 && Apart(p, q) && Stretched(p, q, a, b, scale)
    ensures ApartBy(a, b, 40.0 * scale)
  {
    ProductOfPositives(p.x - q.x - 40.0, scale);
    ProductOfPositives(q.x - p.x - 40.0, scale);
    ProductOfPositives(p.y - q.y - 40.0, scale);
    ProductOfPositives(q.y - p.y - 40.0, scale);
  }
}
