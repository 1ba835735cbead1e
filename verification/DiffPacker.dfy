/** Packing the pieces of a diff into chunks: the largest first, each into the least loaded bin. */
module DiffPacker {
  import opened Arithmetic
  import opened Sequences
  import opened Sorting
  import DiffSplitter

  /** A bin of the heap; its number, which breaks ties, is its position. */
  datatype Bin = Bin(chars: nat, pieces: seq<string>)

  /** What `heappop` yields: the least loaded bin, the first of them if there are several. */
  function Least(bins: seq<Bin>): (k: nat)
    requires bins != []
    ensures k < |bins|
    ensures forall i | 0 <= i < |bins| :: bins[k].chars <= bins[i].chars
    ensures forall i | 0 <= i < k :: bins[k].chars < bins[i].chars
  {
    if |bins| == 1 then 0
    else
      var last := |bins| - 1;
      var k := Least(bins[..last]);
      assert forall i | 0 <= i < last :: bins[..last][i] == bins[i];
      if bins[last].chars < bins[k].chars then last else k
  }

  function Grown(b: Bin, pieces: seq<string>): Bin {
    Bin(b.chars + |Join(pieces)|, b.pieces + pieces)
  }

  /** The heap after the least loaded bin took the pieces. */
  function Put(bins: seq<Bin>, pieces: seq<string>): (r: seq<Bin>)
    requires bins != []
    ensures |r| == |bins|
  {
    var k := Least(bins);
    bins[k := Grown(bins[k], pieces)]
  }

  /** Pieces one at a time, each into the bin least loaded by then. */
  function PlacePieces(bins: seq<Bin>, pieces: seq<string>): (r: seq<Bin>)
    requires bins != []
    ensures |r| == |bins|
    decreases |pieces|
  {
    if pieces == [] then bins else PlacePieces(Put(bins, [pieces[0]]), pieces[1..])
  }

  function LongestFirst(): (string, string) -> bool {
    (a, b) => |a| >= |b|
  }

  function HeaviestFirst(): (seq<string>, seq<string>) -> bool {
    (a, b) => |Join(a)| >= |Join(b)|
  }

  /** A file's group stays together if the least loaded bin has room, or is spread piece by piece. */
  function PlaceGroup(bins: seq<Bin>, group: seq<string>, max: nat): (r: seq<Bin>)
    requires bins != []
    ensures |r| == |bins|
  {
    if bins[Least(bins)].chars + |Join(group)| <= max then Put(bins, group)
    else PlacePieces(bins, Sort(group, LongestFirst()))
  }

  function PlaceGroups(bins: seq<Bin>, groups: seq<seq<string>>, max: nat): (r: seq<Bin>)
    requires bins != []
    ensures |r| == |bins|
    decreases |groups|
  {
    if groups == [] then bins else PlaceGroups(PlaceGroup(bins, groups[0], max), groups[1..], max)
  }

  function EmptyBins(n: nat): (bins: seq<Bin>)
    ensures |bins| == n && forall i | 0 <= i < n :: bins[i] == Bin(0, [])
  {
    seq(n, _ => Bin(0, []))
  }

  /** `max(1, ceil(total / max))`, but no more bins than pieces. */
  function BinCount(groups: seq<seq<string>>, max: nat): nat
    requires max > 0
  {
    var total := |Join(Join(groups))|;
    var wanted := if total == 0 then 1 else (total + max - 1) / max;
    if wanted < |Join(groups)| then wanted else |Join(groups)|
  }

  function Pack(groups: seq<seq<string>>, max: nat): (bins: seq<Bin>)
    requires max > 0 && BinCount(groups, max) > 0
    ensures |bins| == BinCount(groups, max)
  {
    PlaceGroups(EmptyBins(BinCount(groups, max)), Sort(groups, HeaviestFirst()), max)
  }

  // ----- conservation

  function Contents(bins: seq<Bin>): multiset<string> {
    if bins == [] then multiset{} else Contents(bins[..|bins| - 1]) + multiset(bins[|bins| - 1].pieces)
  }

  function Load(bins: seq<Bin>): nat {
    if bins == [] then 0 else Load(bins[..|bins| - 1]) + bins[|bins| - 1].chars
  }

  /** Each bin's count is the length of its pieces. */
  predicate Counted(bins: seq<Bin>) {
    forall i | 0 <= i < |bins| :: bins[i].chars == |Join(bins[i].pieces)|
  }

  lemma Exchange<T>(x: multiset<T>, y: multiset<T>, l: multiset<T>, a: multiset<T>, b: multiset<T>)
    requires x + a == y + b
    ensures (x + l) + a == (y + l) + b
  {
    assert (x + l) + a == (x + a) + l;
    assert (y + l) + b == (y + b) + l;
  }

  lemma {:induction false} UpdateTotals(bins: seq<Bin>, k: nat, b: Bin)
    requires k < |bins|
    ensures Load(bins[k := b]) == Load(bins) - bins[k].chars + b.chars
    ensures Contents(bins[k := b]) + multiset(bins[k].pieces) == Contents(bins) + multiset(b.pieces)
  {
    var last := |bins| - 1;
    var after := bins[k := b];
    if k == last {
      assert after[..last] == bins[..last];
      var rest := Contents(bins[..last]);
      assert (rest + multiset(b.pieces)) + multiset(bins[k].pieces) == (rest + multiset(bins[k].pieces)) + multiset(b.pieces);
    } else {
      assert after[..last] == bins[..last][k := b];
      UpdateTotals(bins[..last], k, b);
      Exchange(Contents(after[..last]), Contents(bins[..last]), multiset(bins[last].pieces),
               multiset(bins[k].pieces), multiset(b.pieces));
    }
  }

  lemma Cancel<T>(x: multiset<T>, y: multiset<T>, a: multiset<T>, b: multiset<T>)
    requires x + a == y + (a + b)
    ensures x == y + b
  {
    forall e | true
      ensures x[e] == (y + b)[e]
    {
      assert (x + a)[e] == (y + (a + b))[e];
    }
  }

  lemma GrownContents(bins: seq<Bin>, k: nat, pieces: seq<string>)
    requires k < |bins|
    ensures Load(bins[k := Grown(bins[k], pieces)]) == Load(bins) + |Join(pieces)|
    ensures Contents(bins[k := Grown(bins[k], pieces)]) == Contents(bins) + multiset(pieces)
  {
    var b := Grown(bins[k], pieces);
    UpdateTotals(bins, k, b);
    assert multiset(b.pieces) == multiset(bins[k].pieces) + multiset(pieces);
    Cancel(Contents(bins[k := b]), Contents(bins), multiset(bins[k].pieces), multiset(pieces));
  }

  lemma GrownIsCounted(bins: seq<Bin>, k: nat, pieces: seq<string>)
    requires k < |bins| && Counted(bins)
    ensures Counted(bins[k := Grown(bins[k], pieces)])
  {
    JoinOfParts(bins[k].pieces, pieces);
  }

  lemma PutTotals(bins: seq<Bin>, pieces: seq<string>)
    requires bins != [] && Counted(bins)
    ensures Counted(Put(bins, pieces))
    ensures Load(Put(bins, pieces)) == Load(bins) + |Join(pieces)|
    ensures Contents(Put(bins, pieces)) == Contents(bins) + multiset(pieces)
  {
    GrownContents(bins, Least(bins), pieces);
    GrownIsCounted(bins, Least(bins), pieces);
  }

  lemma HeadCounts<T>(before: multiset<T>, xs: seq<T>)
    requires xs != []
    ensures (before + multiset([xs[0]])) + multiset(xs[1..]) == before + multiset(xs)
  {
    assert xs == [xs[0]] + xs[1..];
  }

  lemma {:induction false} PlacePiecesTotals(bins: seq<Bin>, pieces: seq<string>)
    requires bins != [] && Counted(bins)
    ensures Counted(PlacePieces(bins, pieces))
    ensures Load(PlacePieces(bins, pieces)) == Load(bins) + |Join(pieces)|
    ensures Contents(PlacePieces(bins, pieces)) == Contents(bins) + multiset(pieces)
    decreases |pieces|
  {
    if pieces != [] {
      var next := Put(bins, [pieces[0]]);
      PutTotals(bins, [pieces[0]]);
      JoinOfOne(pieces[0]);
      PlacePiecesTotals(next, pieces[1..]);
      assert PlacePieces(bins, pieces) == PlacePieces(next, pieces[1..]);
      HeadCounts(Contents(bins), pieces);
    }
  }

  /** Joining in another order gives the same length. */
  lemma {:induction false} LengthOfPermutation(a: seq<string>, b: seq<string>)
    requires multiset(a) == multiset(b)
    ensures |Join(a)| == |Join(b)|
    decreases |a|
  {
    if a == [] {
      assert b == [] by { assert |multiset(b)| == |b|; }
    } else {
      var k := FirstElsewhere(a, b);
      var before, after := b[..k], b[k + 1..];
      LengthOfPermutation(a[1..], before + after);
      JoinOfParts(before, [b[k]] + after);
      JoinOfParts(before, after);
    }
  }

  lemma PlaceGroupTotals(bins: seq<Bin>, group: seq<string>, max: nat)
    requires bins != [] && Counted(bins)
    ensures Counted(PlaceGroup(bins, group, max))
    ensures Load(PlaceGroup(bins, group, max)) == Load(bins) + |Join(group)|
    ensures Contents(PlaceGroup(bins, group, max)) == Contents(bins) + multiset(group)
  {
    PutTotals(bins, group);
    var sorted := Sort(group, LongestFirst());
    PlacePiecesTotals(bins, sorted);
    LengthOfPermutation(sorted, group);
  }

  lemma {:induction false} PlaceGroupsTotals(bins: seq<Bin>, groups: seq<seq<string>>, max: nat)
    requires bins != [] && Counted(bins)
    ensures Counted(PlaceGroups(bins, groups, max))
    ensures Load(PlaceGroups(bins, groups, max)) == Load(bins) + |Join(Join(groups))|
    ensures Contents(PlaceGroups(bins, groups, max)) == Contents(bins) + multiset(Join(groups))
    decreases |groups|
  {
    if groups != [] {
      PlaceGroupTotals(bins, groups[0], max);
      PlaceGroupsTotals(PlaceGroup(bins, groups[0], max), groups[1..], max);
      JoinOfParts(groups[0], Join(groups[1..]));
    }
  }

  // ----- the bound

  /** Within the limit, or no more than an even share of the total above the longest piece. */
  predicate Bounded(bins: seq<Bin>, max: nat, total: nat, longest: nat) {
    forall i | 0 <= i < |bins| :: WithinBound(|bins|, bins[i].chars, max, total, longest)
  }

  predicate WithinBound(n: int, chars: nat, max: nat, total: nat, longest: nat) {
    chars <= max || n * chars <= total + (n - 1) * longest
  }

  lemma {:induction false} LoadAtLeast(bins: seq<Bin>, m: nat)
    requires forall i | 0 <= i < |bins| :: m <= bins[i].chars
    ensures |bins| * m <= Load(bins)
  {
    if bins != [] {
      var init := bins[..|bins| - 1];
      LoadAtLeast(init, m);
      OneMore(|init|, m);
    }
  }

  lemma ShareArithmetic(n: int, least: nat, p: nat, load: nat, total: nat, longest: nat)
    requires n > 0 && n * least <= load && load + p <= total && p <= longest
    ensures n * (least + p) <= total + (n - 1) * longest
  {
    Distribute(n, least, p);
    OneMore(n - 1, p);
    TimesIsMonotone(n - 1, p, longest);
  }

  lemma PutPieceIsBounded(bins: seq<Bin>, piece: string, max: nat, total: nat, longest: nat)
    requires bins != [] && Bounded(bins, max, total, longest)
    requires Load(bins) + |piece| <= total && |piece| <= longest
    ensures Bounded(Put(bins, [piece]), max, total, longest)
  {
    var k := Least(bins);
    LoadAtLeast(bins, bins[k].chars);
    ShareArithmetic(|bins|, bins[k].chars, |piece|, Load(bins), total, longest);
    JoinOfOne(piece);
    var after := Put(bins, [piece]);
    forall i | 0 <= i < |after|
      ensures WithinBound(|after|, after[i].chars, max, total, longest)
    {
      if i != k { assert WithinBound(|bins|, bins[i].chars, max, total, longest); }
    }
  }

  /** No piece is longer than `longest`. */
  predicate NoneLonger(pieces: seq<string>, longest: nat) {
    forall p | p in pieces :: |p| <= longest
  }

  lemma {:induction false} PlacePiecesIsBounded(bins: seq<Bin>, pieces: seq<string>, max: nat, total: nat, longest: nat)
    requires bins != [] && Counted(bins) && Bounded(bins, max, total, longest)
    requires Load(bins) + |Join(pieces)| <= total && NoneLonger(pieces, longest)
    ensures Bounded(PlacePieces(bins, pieces), max, total, longest)
    decreases |pieces|
  {
    if pieces != [] {
      assert pieces[0] in pieces;
      PutPieceIsBounded(bins, pieces[0], max, total, longest);
      PutTotals(bins, [pieces[0]]);
      JoinOfOne(pieces[0]);
      PlacePiecesIsBounded(Put(bins, [pieces[0]]), pieces[1..], max, total, longest);
    }
  }

  lemma PlaceGroupIsBounded(bins: seq<Bin>, group: seq<string>, max: nat, total: nat, longest: nat)
    requires bins != [] && Counted(bins) && Bounded(bins, max, total, longest)
    requires Load(bins) + |Join(group)| <= total && NoneLonger(group, longest)
    ensures Bounded(PlaceGroup(bins, group, max), max, total, longest)
  {
    var k := Least(bins);
    if bins[k].chars + |Join(group)| <= max {
      var after := Put(bins, group);
      forall i | 0 <= i < |after|
        ensures WithinBound(|after|, after[i].chars, max, total, longest)
      {
        if i != k { assert WithinBound(|bins|, bins[i].chars, max, total, longest); }
      }
    } else {
      var sorted := Sort(group, LongestFirst());
      LengthOfPermutation(sorted, group);
      SameElements(sorted, group);
      PlacePiecesIsBounded(bins, sorted, max, total, longest);
    }
  }

  lemma {:induction false} PlaceGroupsIsBounded(bins: seq<Bin>, groups: seq<seq<string>>, max: nat, total: nat, longest: nat)
    requires bins != [] && Counted(bins) && Bounded(bins, max, total, longest)
    requires Load(bins) + |Join(Join(groups))| <= total && NoneLonger(Join(groups), longest)
    ensures Bounded(PlaceGroups(bins, groups, max), max, total, longest)
    decreases |groups|
  {
    if groups != [] {
      JoinOfParts(groups[0], Join(groups[1..]));
      PlaceGroupIsBounded(bins, groups[0], max, total, longest);
      PlaceGroupTotals(bins, groups[0], max);
      PlaceGroupsIsBounded(PlaceGroup(bins, groups[0], max), groups[1..], max, total, longest);
    }
  }

  /** Flattening permuted groups gives a permutation. */
  lemma {:induction false} FlattenPermutation(a: seq<seq<string>>, b: seq<seq<string>>)
    requires multiset(a) == multiset(b)
    ensures multiset(Join(a)) == multiset(Join(b))
    decreases |a|
  {
    if a == [] {
      assert b == [] by { assert |multiset(b)| == |b|; }
    } else {
      var k := FirstElsewhere(a, b);
      var before, after := b[..k], b[k + 1..];
      FlattenPermutation(a[1..], before + after);
      JoinOfParts(before, [b[k]] + after);
      JoinOfParts(before, after);
      assert Join([b[k]] + after) == b[k] + Join(after) by { assert ([b[k]] + after)[1..] == after; }
    }
  }

  lemma {:induction false} EmptyTotals(n: nat)
    ensures Load(EmptyBins(n)) == 0 && Contents(EmptyBins(n)) == multiset{} && Counted(EmptyBins(n))
  {
    if n > 0 {
      EmptyTotals(n - 1);
      assert EmptyBins(n)[..n - 1] == EmptyBins(n - 1);
    }
  }

  /** The bins hold every piece once, and none other; each counts what it holds. */
  lemma PackConserves(groups: seq<seq<string>>, max: nat)
    requires max > 0 && BinCount(groups, max) > 0
    ensures var bins := Pack(groups, max);
            Counted(bins) && Contents(bins) == multiset(Join(groups)) && Load(bins) == |Join(Join(groups))|
  {
    var n := BinCount(groups, max);
    var sorted := Sort(groups, HeaviestFirst());
    EmptyTotals(n);
    FlattenPermutation(sorted, groups);
    LengthOfPermutation(Join(sorted), Join(groups));
    PlaceGroupsTotals(EmptyBins(n), sorted, max);
  }

  /** With `n` bins every one ends within the limit, or at most at total / n + longest * (n - 1) / n. */
  lemma PackIsBounded(groups: seq<seq<string>>, max: nat, longest: nat)
    requires max > 0 && BinCount(groups, max) > 0 && NoneLonger(Join(groups), longest)
    ensures Bounded(Pack(groups, max), max, |Join(Join(groups))|, longest)
  {
    var n := BinCount(groups, max);
    var sorted := Sort(groups, HeaviestFirst());
    EmptyTotals(n);
    FlattenPermutation(sorted, groups);
    LengthOfPermutation(Join(sorted), Join(groups));
    SameElements(Join(sorted), Join(groups));
    PlaceGroupsIsBounded(EmptyBins(n), sorted, max, |Join(Join(groups))|, longest);
  }

  lemma TwiceIsOverBound(n: int, chars: nat, max: nat, total: nat, longest: nat)
    requires n > 0 && max > 0 && longest <= max && total <= n * max && chars >= 2 * max
    ensures !WithinBound(n, chars, max, total, longest)
  {
    TimesIsMonotone(n, 2 * max, chars);
    TimesIsMonotone(n - 1, longest, max);
    assert n * (2 * max) == n * max + (n - 1) * max + max;
  }

  lemma {:induction false} TotalAtMost(pieces: seq<string>, longest: nat)
    requires NoneLonger(pieces, longest)
    ensures |Join(pieces)| <= |pieces| * longest
  {
    if pieces != [] {
      assert pieces[0] in pieces;
      TotalAtMost(pieces[1..], longest);
      OneMore(|pieces[1..]|, longest);
    }
  }

  lemma CeilingCovers(total: nat, max: nat)
    requires max > 0
    ensures total <= (total + max - 1) / max * max
  {
    var t := total + max - 1;
    assert t == t / max * max + t % max;
  }

  /** The bins together have room for the total when no piece is over the limit. */
  lemma BinsCoverTotal(groups: seq<seq<string>>, max: nat)
    requires max > 0 && NoneLonger(Join(groups), max)
    ensures |Join(Join(groups))| <= BinCount(groups, max) * max
  {
    TotalAtMost(Join(groups), max);
    CeilingCovers(|Join(Join(groups))|, max);
  }

  /** When no piece is over the limit, every chunk stays below twice the limit. */
  lemma ChunksStayBelowTwiceTheLimit(groups: seq<seq<string>>, max: nat)
    requires max > 0 && BinCount(groups, max) > 0 && NoneLonger(Join(groups), max)
    ensures forall b | b in Pack(groups, max) :: b.chars < 2 * max
  {
    PackIsBounded(groups, max, max);
    BinsCoverTotal(groups, max);
    var bins := Pack(groups, max);
    forall i | 0 <= i < |bins|
      ensures bins[i].chars < 2 * max
    {
      if bins[i].chars >= 2 * max {
        TwiceIsOverBound(|bins|, bins[i].chars, max, |Join(Join(groups))|, max);
      }
    }
  }

  /** The limit itself holds when the total leaves a longest piece of room in all bins but one. */
  lemma ChunksFitWithSlack(groups: seq<seq<string>>, max: nat, longest: nat)
    requires max > 0 && BinCount(groups, max) > 0 && NoneLonger(Join(groups), longest)
    requires var n := BinCount(groups, max); |Join(Join(groups))| + (n - 1) * longest <= n * max
    ensures forall b | b in Pack(groups, max) :: b.chars <= max
  {
    PackIsBounded(groups, max, longest);
    var bins := Pack(groups, max);
    forall i | 0 <= i < |bins|
      ensures bins[i].chars <= max
    {
      assert WithinBound(|bins|, bins[i].chars, max, |Join(Join(groups))|, longest);
      QuotientOrder(|bins|, bins[i].chars, max);
    }
  }

  lemma QuotientOrder(n: int, a: nat, b: nat)
    requires n > 0
    ensures n * a <= n * b <==> a <= b
  {
    if a <= b {
      TimesIsMonotone(n, a, b);
    } else {
      TimesIsMonotone(n, b + 1, a);
      assert n * (b + 1) == n * b + n;
    }
  }

  /** As few bins as could hold the total within the limit, or one for each piece if that is fewer. */
  lemma BinsAreFewest(groups: seq<seq<string>>, max: nat)
    requires max > 0 && Join(groups) != []
    ensures var n, total := BinCount(groups, max), |Join(Join(groups))|;
            && 1 <= n <= |Join(groups)|
            && (total <= n * max || n == |Join(groups)|)
            && forall m | 1 <= m < n :: m * max < total
  {
    var n, total := BinCount(groups, max), |Join(Join(groups))|;
    CeilingCovers(total, max);
    forall m | 1 <= m < n
      ensures m * max < total
    {
      CeilingIsLeast(total, max, m);
    }
  }

  lemma CeilingIsLeast(total: nat, max: nat, m: nat)
    requires max > 0 && m < (total + max - 1) / max
    ensures m * max < total
  {
    QuotientIsLargestMultiple(total + max - 1, max, m + 1);
    OneMore(m, max);
  }

  // ----- when the promised limit holds

  predicate BinsWithin(bins: seq<Bin>, max: nat) {
    forall i | 0 <= i < |bins| :: bins[i].chars <= max
  }

  /** Every piece in turn finds room in the bin least loaded by then. */
  predicate PiecesFit(bins: seq<Bin>, pieces: seq<string>, max: nat)
    requires bins != []
    decreases |pieces|
  {
    pieces == [] ||
    (bins[Least(bins)].chars + |pieces[0]| <= max && PiecesFit(Put(bins, [pieces[0]]), pieces[1..], max))
  }

  /** Every group in turn finds room as a whole, or all its pieces do one by one. */
  predicate GroupsFit(bins: seq<Bin>, groups: seq<seq<string>>, max: nat)
    requires bins != []
    decreases |groups|
  {
    groups == [] ||
    ((bins[Least(bins)].chars + |Join(groups[0])| <= max || PiecesFit(bins, Sort(groups[0], LongestFirst()), max))
     && GroupsFit(PlaceGroup(bins, groups[0], max), groups[1..], max))
  }

  /** No bin holds less than it did. */
  predicate Grows(before: seq<Bin>, after: seq<Bin>) {
    |before| == |after| && forall i | 0 <= i < |before| :: before[i].chars <= after[i].chars
  }

  lemma {:induction false} PiecesGrow(bins: seq<Bin>, pieces: seq<string>)
    requires bins != []
    ensures Grows(bins, PlacePieces(bins, pieces))
    decreases |pieces|
  {
    if pieces != [] {
      PiecesGrow(Put(bins, [pieces[0]]), pieces[1..]);
    }
  }

  lemma {:induction false} GroupsGrow(bins: seq<Bin>, groups: seq<seq<string>>, max: nat)
    requires bins != []
    ensures Grows(bins, PlaceGroups(bins, groups, max))
    decreases |groups|
  {
    if groups != [] {
      PiecesGrow(bins, Sort(groups[0], LongestFirst()));
      GroupsGrow(PlaceGroup(bins, groups[0], max), groups[1..], max);
    }
  }

  lemma {:induction false} PiecesStayWithinIff(bins: seq<Bin>, pieces: seq<string>, max: nat)
    requires bins != [] && BinsWithin(bins, max)
    ensures BinsWithin(PlacePieces(bins, pieces), max) <==> PiecesFit(bins, pieces, max)
    decreases |pieces|
  {
    if pieces != [] {
      var k := Least(bins);
      var after := Put(bins, [pieces[0]]);
      JoinOfOne(pieces[0]);
      if bins[k].chars + |pieces[0]| <= max {
        PiecesStayWithinIff(after, pieces[1..], max);
      } else {
        PiecesGrow(after, pieces[1..]);
        assert after[k].chars > max;
        assert PlacePieces(after, pieces[1..])[k].chars > max;
      }
    }
  }

  lemma {:induction false} GroupsStayWithinIff(bins: seq<Bin>, groups: seq<seq<string>>, max: nat)
    requires bins != [] && BinsWithin(bins, max)
    ensures BinsWithin(PlaceGroups(bins, groups, max), max) <==> GroupsFit(bins, groups, max)
    decreases |groups|
  {
    if groups != [] {
      var after := PlaceGroup(bins, groups[0], max);
      PiecesStayWithinIff(bins, Sort(groups[0], LongestFirst()), max);
      if BinsWithin(after, max) {
        GroupsStayWithinIff(after, groups[1..], max);
      } else {
        GroupsGrow(after, groups[1..], max);
        var i :| 0 <= i < |after| && after[i].chars > max;
        assert PlaceGroups(after, groups[1..], max)[i].chars > max;
      }
    }
  }

  /** The promised limit holds exactly when no piece is ever forced into a bin without room for it. */
  lemma LimitHoldsIffAllFit(groups: seq<seq<string>>, max: nat)
    requires max > 0 && BinCount(groups, max) > 0
    ensures BinsWithin(Pack(groups, max), max) <==>
            GroupsFit(EmptyBins(BinCount(groups, max)), Sort(groups, HeaviestFirst()), max)
  {
    GroupsStayWithinIff(EmptyBins(BinCount(groups, max)), Sort(groups, HeaviestFirst()), max);
  }

  // ----- the promise fails

  /** Every group is a single piece of the given length. */
  predicate Singles(groups: seq<seq<string>>, length: nat) {
    forall g | g in groups :: |g| == 1 && |g[0]| == length
  }

  lemma SinglePiece(group: seq<string>)
    requires |group| == 1
    ensures |Join(group)| == |group[0]| && Sort(group, LongestFirst()) == group
  {
    JoinOfOne(group[0]);
    assert group == [group[0]];
    assert Sort(group[..0], LongestFirst()) == [];
  }

  lemma SingleIsPut(bins: seq<Bin>, group: seq<string>, max: nat)
    requires bins != [] && |group| == 1
    ensures PlaceGroup(bins, group, max) == Put(bins, group)
  {
    SinglePiece(group);
    assert group == [group[0]] && group[1..] == [];
    assert PlacePieces(Put(bins, group), []) == Put(bins, group);
  }

  /** Equal pieces dealt out evenly: the first `extra` bins hold one more than the others. */
  predicate Dealt(bins: seq<Bin>, low: nat, high: nat, extra: nat) {
    extra < |bins| && forall i | 0 <= i < |bins| :: bins[i].chars == if i < extra then high else low
  }

  lemma DealOne(bins: seq<Bin>, low: nat, high: nat, extra: nat, group: seq<string>)
    requires Dealt(bins, low, high, extra) && low < high && |group| == 1 && |group[0]| == high - low
    ensures if extra + 1 < |bins| then Dealt(Put(bins, group), low, high, extra + 1)
            else Dealt(Put(bins, group), high, high + (high - low), 0)
  {
    SinglePiece(group);
    var k := Least(bins);
    assert bins[extra].chars == low;
    assert k == extra;
  }

  /** `n` times `m`, by repeated addition. */
  function Repeated(m: nat, n: nat): nat {
    if n == 0 then 0 else Repeated(m, n - 1) + m
  }

  lemma {:induction false} RepeatedIsProduct(m: nat, n: nat)
    ensures Repeated(m, n) == n * m
  {
    if n > 0 {
      RepeatedIsProduct(m, n - 1);
      OneMore(n - 1, m);
    }
  }

  /** Equal pieces are dealt out in turn, whatever the limit. */
  lemma {:induction false} DealAll(bins: seq<Bin>, groups: seq<seq<string>>, length: nat, max: nat, rounds: nat, extra: nat)
      returns (rounds': nat, extra': nat)
    requires Dealt(bins, Repeated(length, rounds), Repeated(length, rounds + 1), extra) && length > 0 && Singles(groups, length)
    ensures Dealt(PlaceGroups(bins, groups, max), Repeated(length, rounds'), Repeated(length, rounds' + 1), extra')
    ensures Repeated(|bins|, rounds') + extra' == Repeated(|bins|, rounds) + extra + |groups|
    decreases |groups|
  {
    if groups == [] {
      return rounds, extra;
    }
    assert groups[0] in groups;
    var next := Put(bins, groups[0]);
    SingleIsPut(bins, groups[0], max);
    DealOne(bins, Repeated(length, rounds), Repeated(length, rounds + 1), extra, groups[0]);
    if extra + 1 < |bins| {
      rounds', extra' := DealAll(next, groups[1..], length, max, rounds, extra + 1);
    } else {
      assert Repeated(length, rounds + 2) == Repeated(length, rounds + 1) + length;
      rounds', extra' := DealAll(next, groups[1..], length, max, rounds + 1, 0);
    }
  }

  lemma SinglesTotal(groups: seq<seq<string>>, length: nat)
    requires Singles(groups, length)
    ensures |Join(groups)| == |groups| && |Join(Join(groups))| == |groups| * length && NoneLonger(Join(groups), length)
  {
    if groups != [] {
      var g := groups[0];
      assert g in groups && g == [g[0]];
      SinglesTotal(groups[1..], length);
      JoinOfParts(g, Join(groups[1..]));
      JoinOfOne(g[0]);
      OneMore(|groups[1..]|, length);
    }
  }

  /** `ceil(count / n)`: how many of `count` pieces dealt to `n` bins the fullest bin gets. */
  function FullestShare(count: nat, n: nat): nat
    requires n > 0
  {
    (count + n - 1) / n
  }

  lemma ShareOf(count: nat, n: nat, rounds: nat, extra: nat)
    requires extra < n && rounds * n + extra == count
    ensures FullestShare(count, n) == if extra > 0 then rounds + 1 else rounds
  {
    OneMore(rounds, n);
    if extra == 0 {
      QuotientIs(count + n - 1, n, rounds, n - 1);
    } else {
      QuotientIs(count + n - 1, n, rounds + 1, extra - 1);
    }
  }

  /** The first bin is a fullest one, and holds its share of the pieces. */
  lemma FirstBinIsFullest(groups: seq<seq<string>>, length: nat, n: nat, max: nat, share: nat)
    requires n > 0 && length > 0 && Singles(groups, length) && share == FullestShare(|groups|, n)
    ensures var bins := PlaceGroups(EmptyBins(n), groups, max);
            bins[0].chars == share * length && forall i | 0 <= i < |bins| :: bins[i].chars <= bins[0].chars
  {
    var rounds, extra := DealAll(EmptyBins(n), groups, length, max, 0, 0);
    RepeatedIsProduct(length, rounds);
    RepeatedIsProduct(length, rounds + 1);
    RepeatedIsProduct(n, rounds);
    ShareOf(|groups|, n, rounds, extra);
    OneMore(rounds, length);
  }

  /** Sorting files of one size and packing them. */
  lemma EqualFilesArePacked(groups: seq<seq<string>>, length: nat, max: nat, n: nat, share: nat)
    requires max > 0 && n == BinCount(groups, max) > 0 && length > 0 && Singles(groups, length)
    requires share == FullestShare(|groups|, n)
    ensures var bins := Pack(groups, max);
            bins[0].chars == share * length && forall i | 0 <= i < |bins| :: bins[i].chars <= bins[0].chars
  {
    var sorted := Sort(groups, HeaviestFirst());
    SameElements(sorted, groups);
    FirstBinIsFullest(sorted, length, n, max, share);
  }

  /**
   For files of one size, none of them split, the promised limit holds exactly when the fullest
   bin's share of them, which only depends on their number and size, keeps within it.
   */
  lemma EqualFilesFitIff(groups: seq<seq<string>>, length: nat, max: nat)
    requires groups != [] && Singles(groups, length) && max > 0
    ensures BinCount(groups, max) > 0
    ensures BinsWithin(Pack(groups, max), max) <==> FullestShare(|groups|, BinCount(groups, max)) * length <= max
  {
    SinglesTotal(groups, length);
    SomeBins(groups, max);
    var n := BinCount(groups, max);
    if length > 0 {
      EqualFilesArePacked(groups, length, max, n, FullestShare(|groups|, n));
    } else {
      EmptyLoadIsWithin(groups, max);
    }
  }

  lemma EmptyLoadIsWithin(groups: seq<seq<string>>, max: nat)
    requires max > 0 && BinCount(groups, max) > 0 && |Join(Join(groups))| == 0
    ensures BinsWithin(Pack(groups, max), max)
  {
    PackConserves(groups, max);
    var bins := Pack(groups, max);
    forall i | 0 <= i < |bins|
      ensures bins[i].chars <= max
    {
      BinIsNoHeavierThanAll(bins, i);
    }
  }

  lemma {:induction false} BinIsNoHeavierThanAll(bins: seq<Bin>, i: nat)
    requires i < |bins|
    ensures bins[i].chars <= Load(bins)
  {
    if i < |bins| - 1 {
      BinIsNoHeavierThanAll(bins[..|bins| - 1], i);
    }
  }

  /**
   The bound on a bin is attained for every number of bins: with `n + 1` files of `n * k`
   characters and a limit of `(n + 1) * k`, the first of `n` bins holds exactly
   total / n + longest * (n - 1) / n characters, which for two bins or more is over the limit.
   */
  lemma BoundIsAttained(groups: seq<seq<string>>, n: nat, k: nat)
    requires n > 0 && k > 0 && |groups| == n + 1 && Singles(groups, n * k)
    ensures (n + 1) * k > 0 && BinCount(groups, (n + 1) * k) == n
    ensures var first := Pack(groups, (n + 1) * k)[0].chars;
            && n * first == |Join(Join(groups))| + (n - 1) * (n * k)
            && (n > 1 ==> first > (n + 1) * k)
  {
    var length, max := n * k, (n + 1) * k;
    SinglesTotal(groups, length);
    BinsOfAttained(n, k, max, |Join(Join(groups))|);
    var share := FullestShare(n + 1, n);
    EqualFilesArePacked(groups, length, max, n, share);
    BoundArithmetic(n, k, length, share);
  }

  lemma BinsOfAttained(n: nat, k: nat, max: nat, total: nat)
    requires n > 0 && k > 0 && max == (n + 1) * k && total == (n + 1) * (n * k)
    ensures max > 0 && total > 0 && (total + max - 1) / max == n
  {
    TimesIsMonotone(n, 1, k);
    OneMore(n, k);
    Rearranged(n, k);
    TimesIsMonotone(n, 1, max);
    QuotientIs(total + max - 1, max, n, max - 1);
  }

  lemma Rearranged(n: nat, k: nat)
    ensures (n + 1) * (n * k) == n * ((n + 1) * k)
  {
  }

  lemma BoundArithmetic(n: nat, k: nat, length: nat, share: nat)
    requires n > 0 && k > 0 && length == n * k && share == FullestShare(n + 1, n)
    ensures n * (share * length) == (n + 1) * length + (n - 1) * length
    ensures n > 1 ==> share * length > (n + 1) * k
  {
    if n == 1 {
      ShareOf(2, 1, 2, 0);
    } else {
      ShareOf(n + 1, n, 1, 1);
      OneMore(n, k);
      TwiceSplits(n, length);
      TimesIsMonotone(k, 2, n);
    }
  }

  lemma TwiceSplits(n: nat, m: nat)
    ensures n * (2 * m) == (n + 1) * m + (n - 1) * m
  {
  }

  /** At the limit in use, three files of a million characters make a chunk of two million. */
  lemma LimitInUseIsExceeded(groups: seq<seq<string>>)
    requires |groups| == 3 && Singles(groups, 1_000_000)
    ensures BinCount(groups, DiffSplitter.MAX_CHARS_PER_PIECE) == 2
    ensures Pack(groups, DiffSplitter.MAX_CHARS_PER_PIECE)[0].chars == 2_000_000 > DiffSplitter.MAX_CHARS_PER_PIECE
  {
    SinglesTotal(groups, 1_000_000);
    EqualFilesArePacked(groups, 1_000_000, DiffSplitter.MAX_CHARS_PER_PIECE, 2, 2);
  }

  // ----- the packing loops

  /** The heap's loop over one group's pieces. */
  method SpreadPieces(bins: array<Bin>, pieces: seq<string>)
    requires bins.Length > 0
    modifies bins
    ensures bins[..] == PlacePieces(old(bins[..]), pieces)
  {
    for i := 0 to |pieces|
      invariant PlacePieces(bins[..], pieces[i..]) == PlacePieces(old(bins[..]), pieces)
    {
      var k := Least(bins[..]);
      ghost var was := bins[..];
      JoinOfOne(pieces[i]);
      bins[k] := Bin(bins[k].chars + |pieces[i]|, bins[k].pieces + [pieces[i]]);
      assert bins[..] == Put(was, [pieces[i]]);
      assert pieces[i..][0] == pieces[i] && pieces[i..][1..] == pieces[i + 1..];
    }
  }

  /** One turn of the loop over the groups. */
  method TakeGroup(bins: array<Bin>, group: seq<string>, max: nat)
    requires bins.Length > 0
    modifies bins
    ensures bins[..] == PlaceGroup(old(bins[..]), group, max)
  {
    var groupSize := |Join(group)|;
    var k := Least(bins[..]);
    ghost var was := bins[..];
    if bins[k].chars + groupSize <= max {
      bins[k] := Bin(bins[k].chars + groupSize, bins[k].pieces + group);
      assert bins[..] == Put(was, group);
    } else {
      SpreadPieces(bins, Sort(group, LongestFirst()));
    }
  }

  method FillBins(groups: seq<seq<string>>, max: nat) returns (bins: array<Bin>)
    requires max > 0 && BinCount(groups, max) > 0
    ensures fresh(bins) && bins[..] == Pack(groups, max)
  {
    var n := BinCount(groups, max);
    bins := new Bin[n](_ => Bin(0, []));
    assert bins[..] == EmptyBins(n);
    TakeGroups(bins, Sort(groups, HeaviestFirst()), max);
  }

  /** The loop over the groups. */
  method TakeGroups(bins: array<Bin>, groups: seq<seq<string>>, max: nat)
    requires bins.Length > 0
    modifies bins
    ensures bins[..] == PlaceGroups(old(bins[..]), groups, max)
  {
    for i := 0 to |groups|
      invariant PlaceGroups(bins[..], groups[i..], max) == PlaceGroups(old(bins[..]), groups, max)
    {
      assert groups[i..][0] == groups[i] && groups[i..][1..] == groups[i + 1..];
      TakeGroup(bins, groups[i], max);
    }
  }

  /** The joined pieces of every bin that has any, by bin number. */
  function Chunks(bins: seq<Bin>): (chunks: seq<string>) {
    if bins == [] then []
    else
      var last := bins[|bins| - 1];
      Chunks(bins[..|bins| - 1]) + if last.pieces == [] then [] else [Join(last.pieces)]
  }

  function Filled(bins: seq<Bin>): set<nat> {
    set k: nat | k < |bins| && bins[k].pieces != []
  }

  /** The chunks are the bins that hold anything, in order, each the text of its pieces. */
  lemma {:induction false} ChunksAreFilledBins(bins: seq<Bin>) returns (numbers: seq<nat>)
    ensures InOrder(numbers, Filled(bins)) && |Chunks(bins)| == |numbers|
    ensures forall j | 0 <= j < |numbers| :: numbers[j] < |bins| && Chunks(bins)[j] == Join(bins[numbers[j]].pieces)
  {
    numbers := [];
    if bins != [] {
      var n := |bins| - 1;
      numbers := ChunksAreFilledBins(bins[..n]);
      if bins[n].pieces != [] {
        assert Filled(bins) == Filled(bins[..n]) + {n};
        OneMoreInOrder(numbers, Filled(bins[..n]), n);
        numbers := numbers + [n];
      } else {
        assert Filled(bins) == Filled(bins[..n]);
      }
    }
  }

  /** The chunks' text is the bins' load, and each chunk is as long as some bin counts. */
  lemma {:induction false} ChunksCarryTheLoad(bins: seq<Bin>)
    requires Counted(bins)
    ensures |Join(Chunks(bins))| == Load(bins)
    ensures forall c | c in Chunks(bins) :: exists b :: b in bins && |c| == b.chars
  {
    if bins != [] {
      var init, last := bins[..|bins| - 1], bins[|bins| - 1];
      ChunksCarryTheLoad(init);
      assert last.chars == |Join(last.pieces)|;
      var chunk := if last.pieces == [] then [] else [Join(last.pieces)];
      JoinOfOne(Join(last.pieces));
      JoinOfParts(Chunks(init), chunk);
      forall c | c in Chunks(init) + chunk
        ensures exists b :: b in bins && |c| == b.chars
      {
        if c in Chunks(init) {
          var b :| b in init && |c| == b.chars;
          assert b in bins;
        } else {
          assert last in bins;
        }
      }
    }
  }

  method JoinBins(bins: array<Bin>) returns (chunks: seq<string>)
    ensures chunks == Chunks(bins[..])
  {
    chunks := [];
    for i := 0 to bins.Length
      invariant chunks == Chunks(bins[..i])
    {
      assert bins[..i + 1][..i] == bins[..i];
      if bins[i].pieces != [] {
        chunks := chunks + [Join(bins[i].pieces)];
      }
    }
    assert bins[..bins.Length] == bins[..];
  }

  // ----- the whole split

  predicate IsSpace(c: char) {
    '\t' <= c <= '\r' || '\U{1c}' <= c <= ' ' || c == '\U{85}' || c == '\U{a0}' || c == '\U{1680}'
    || '\U{2000}' <= c <= '\U{200a}' || c == '\U{2028}' || c == '\U{2029}' || c == '\U{202f}' || c == '\U{205f}'
    || c == '\U{3000}'
  }

  /** `text.strip()` leaves nothing. */
  predicate IsBlank(text: string) {
    forall c | c in text :: IsSpace(c)
  }

  /** Where the files' diffs start: increasing positions of the text. */
  predicate FileStarts(text: string, starts: seq<nat>) {
    && (forall i | 0 <= i < |starts| :: starts[i] < |text|)
    && (forall i, j | 0 <= i < j < |starts| :: starts[i] < starts[j])
  }

  /** The text cut at every start. */
  function FileCuts(text: string, starts: seq<nat>): (cuts: seq<string>)
    requires FileStarts(text, starts)
    ensures Join(cuts) == text
    decreases |starts|
  {
    if starts == [] then
      JoinOfOne(text);
      [text]
    else
      var last := starts[|starts| - 1];
      var before := FileCuts(text[..last], starts[..|starts| - 1]);
      JoinOfMore(before, text[last..]);
      before + [text[last..]]
  }

  /** The cuts run from the front of the text, or a start, to the next start, or the end. */
  lemma {:induction false} CutsRunBetweenStarts(text: string, starts: seq<nat>, i: nat)
    requires FileStarts(text, starts) && i <= |starts|
    ensures |FileCuts(text, starts)| == |starts| + 1
    ensures FileCuts(text, starts)[i] == text[CutFrom(starts, i)..CutTo(text, starts, i)]
    decreases |starts|
  {
    if starts != [] {
      var last := |starts| - 1;
      var before := text[..starts[last]];
      CutsRunBetweenStarts(before, starts[..last], if i <= last then i else 0);
      if i <= last {
        SliceOfFront(text, starts[last], CutFrom(starts, i), CutTo(text, starts, i));
      }
    }
  }

  lemma SliceOfFront(text: string, front: nat, from: nat, to: nat)
    requires from <= to <= front <= |text|
    ensures text[..front][from..to] == text[from..to]
  {
  }

  function CutFrom(starts: seq<nat>, i: nat): nat
    requires i <= |starts|
  {
    if i == 0 then 0 else starts[i - 1]
  }

  function CutTo(text: string, starts: seq<nat>, i: nat): (to: nat)
    requires FileStarts(text, starts) && i <= |starts|
    ensures CutFrom(starts, i) <= to <= |text|
  {
    if i < |starts| then starts[i] else |text|
  }

  function NotBlank(parts: seq<string>): (kept: seq<string>)
    ensures forall p :: p in kept <==> p in parts && !IsBlank(p)
  {
    if parts == [] then []
    else
      assert parts == [parts[0]] + parts[1..];
      (if IsBlank(parts[0]) then [] else [parts[0]]) + NotBlank(parts[1..])
  }

  function Kept(parts: seq<string>): set<nat> {
    set k: nat | k < |parts| && !IsBlank(parts[k])
  }

  /** What is kept of the parts stands in their order. */
  lemma {:induction false} KeptInOrder(parts: seq<string>) returns (places: seq<nat>)
    ensures InOrder(places, Kept(parts)) && |NotBlank(parts)| == |places|
    ensures forall j | 0 <= j < |places| :: places[j] < |parts| && NotBlank(parts)[j] == parts[places[j]]
  {
    places := [];
    if parts != [] {
      var n := |parts| - 1;
      var init := parts[..n];
      places := KeptInOrder(init);
      NotBlankOfMore(init, parts[n]);
      KeptOfMore(init, parts[n]);
      assert parts == init + [parts[n]];
      if !IsBlank(parts[n]) {
        OneMoreInOrder(places, Kept(init), n);
        places := places + [n];
      }
    }
  }

  lemma KeptOfMore(parts: seq<string>, part: string)
    ensures Kept(parts + [part]) == if IsBlank(part) then Kept(parts) else Kept(parts) + {|parts|}
  {
    var more := parts + [part];
    assert forall k | 0 <= k < |parts| :: more[k] == parts[k];
  }

  lemma NotBlankOfMore(parts: seq<string>, part: string)
    ensures NotBlank(parts + [part]) == NotBlank(parts) + if IsBlank(part) then [] else [part]
  {
    NotBlankOfParts(parts, [part]);
    assert [part][1..] == [];
  }

  lemma {:induction false} NotBlankOfParts(a: seq<string>, b: seq<string>)
    ensures NotBlank(a + b) == NotBlank(a) + NotBlank(b)
  {
    if a == [] {
      assert a + b == b;
    } else {
      assert (a + b)[1..] == a[1..] + b;
      NotBlankOfParts(a[1..], b);
    }
  }

  /** A file's diff that is within the limit, or splits into pieces that are. */
  predicate SplitsWithin(diff: string, hunkStarts: seq<nat>, max: nat)
    requires DiffSplitter.HunkStarts(diff, hunkStarts)
  {
    |diff| <= max || hunkStarts == [] ||
    if |hunkStarts| == 1 then hunkStarts[0] < max
    else forall h | h in DiffSplitter.Hunks(diff, hunkStarts) :: hunkStarts[0] + |h| <= max
  }

  /** What a file's group holds: its diff as it is, or split on lines or hunks when over the limit. */
  ghost predicate IsGroupOf(diff: string, hunkStarts: seq<nat>, max: nat, group: seq<string>)
    requires max > 0 && DiffSplitter.HunkStarts(diff, hunkStarts)
  {
    && group != [] && (DiffSplitter.AllWithin(group, max) <==> SplitsWithin(diff, hunkStarts, max))
    && if |diff| <= max then group == [diff]
       else if hunkStarts == [] then Join(group) == diff && DiffSplitter.Pieces(DiffSplitter.SplitLines(diff), max, group)
       else exists bodies, hunks :: DiffSplitter.SplitsFile(diff, hunkStarts, max, group, bodies, hunks)
  }

  /** The positions at which the hunks of any diff start. */
  ghost predicate FindsHunks(hunkStarts: string -> seq<nat>) {
    forall t :: DiffSplitter.HunkStarts(t, hunkStarts(t))
  }

  /** Every file's group, in order. */
  ghost predicate AreGroups(files: seq<string>, hunkStarts: string -> seq<nat>, max: nat, groups: seq<seq<string>>)
    requires max > 0 && FindsHunks(hunkStarts)
  {
    |groups| == |files| &&
    (files == [] ||
     var last := |files| - 1;
     AreGroups(files[..last], hunkStarts, max, groups[..last]) && IsGroupOf(files[last], hunkStarts(files[last]), max, groups[last]))
  }

  lemma LinePiecesFit(diff: string, max: nat, group: seq<string>)
    requires max > 0 && |diff| > max && Join(group) == diff
    requires DiffSplitter.Pieces(DiffSplitter.SplitLines(diff), max, group)
    ensures group != [] && DiffSplitter.AllWithin(group, max)
  {
    forall c | c in group
      ensures |c| <= max
    {
      var k :| 0 <= k < |group| && group[k] == c;
    }
  }

  lemma SubsplitHoldsPieces(diff: string, hunkStarts: seq<nat>, max: nat, group: seq<string>, bodies: seq<string>)
    requires DiffSplitter.HunkStarts(diff, hunkStarts) && hunkStarts != []
    requires DiffSplitter.Subsplit(diff, hunkStarts, max, group, bodies)
    ensures group != []
  {
    assert |diff[hunkStarts[0]..]| > 0;
  }

  method GroupOf(diff: string, hunkStarts: seq<nat>, max: nat) returns (group: seq<string>)
    requires max > 0 && DiffSplitter.HunkStarts(diff, hunkStarts)
    ensures IsGroupOf(diff, hunkStarts, max, group)
  {
    if |diff| > max {
      ghost var bodies, hunks;
      group, bodies, hunks := DiffSplitter.SubsplitLargeFileDiff(diff, hunkStarts, max);
      if hunkStarts == [] {
        LinePiecesFit(diff, max, group);
      } else {
        SubsplitHoldsPieces(diff, hunkStarts, max, group, bodies);
      }
    } else {
      group := [diff];
    }
  }

  lemma GroupsHoldPieces(files: seq<string>, hunkStarts: string -> seq<nat>, max: nat, groups: seq<seq<string>>)
    requires max > 0 && FindsHunks(hunkStarts) && AreGroups(files, hunkStarts, max, groups) && files != []
    ensures Join(groups) != []
  {
    var last := |groups| - 1;
    assert groups == groups[..last] + [groups[last]];
    JoinOfMore(groups[..last], groups[last]);
  }

  /** One turn of the loop over the files. */
  method TakeFile(ghost done: seq<string>, file: string, hunkStarts: string -> seq<nat>, max: nat, groups: seq<seq<string>>)
      returns (more: seq<seq<string>>)
    requires max > 0 && FindsHunks(hunkStarts) && AreGroups(done, hunkStarts, max, groups)
    ensures AreGroups(done + [file], hunkStarts, max, more)
  {
    var group := GroupOf(file, hunkStarts(file), max);
    assert (done + [file])[..|done|] == done && (groups + [group])[..|groups|] == groups;
    more := groups + [group];
  }

  method GroupFiles(files: seq<string>, hunkStarts: string -> seq<nat>, max: nat) returns (groups: seq<seq<string>>)
    requires max > 0 && FindsHunks(hunkStarts)
    ensures AreGroups(files, hunkStarts, max, groups)
  {
    groups := [];
    ghost var done := [];
    for i := 0 to |files|
      invariant done == files[..i] && AreGroups(done, hunkStarts, max, groups)
    {
      OneFurther(files, i);
      groups := TakeFile(done, files[i], hunkStarts, max, groups);
      done := done + [files[i]];
    }
    assert files[..|files|] == files;
  }

  /**
   Splits a diff at its files. With `files` the parts that are not blank, each is kept or split
   into a group of pieces; the chunks hold every piece once, and with `n` bins each chunk is
   within the limit or at most total / n + longest * (n - 1) / n long.
   */
  method SplitDiffOnFileBoundaries(text: string, fileStarts: seq<nat>, hunkStarts: string -> seq<nat>, max: nat)
      returns (chunks: seq<string>)
    requires max > 0 && FileStarts(text, fileStarts)
    requires FindsHunks(hunkStarts)
    ensures var files := NotBlank(FileCuts(text, fileStarts));
            if files == [] then chunks == [text]
            else exists groups :: PacksFiles(files, hunkStarts, max, groups, chunks)
  {
    var files := NotBlank(FileCuts(text, fileStarts));
    if files == [] { return [text]; }
    var fileGroups := GroupFiles(files, hunkStarts, max);
    GroupsHoldPieces(files, hunkStarts, max, fileGroups);
    SomeBins(fileGroups, max);
    var bins := FillBins(fileGroups, max);
    chunks := JoinBins(bins);
    assert PacksFiles(files, hunkStarts, max, fileGroups, chunks);
  }

  /** The chunks are the packing of the files' groups. */
  ghost predicate PacksFiles(files: seq<string>, hunkStarts: string -> seq<nat>, max: nat,
                             groups: seq<seq<string>>, chunks: seq<string>)
    requires max > 0 && FindsHunks(hunkStarts)
  {
    AreGroups(files, hunkStarts, max, groups) && BinCount(groups, max) > 0 && chunks == Chunks(Pack(groups, max))
  }

  lemma SomeBins(groups: seq<seq<string>>, max: nat)
    requires max > 0 && Join(groups) != []
    ensures BinCount(groups, max) > 0
  {
    CeilingCovers(|Join(Join(groups))|, max);
  }

  /** What the split's chunks carry and how long they get, whatever the groups. */
  lemma ChunksAreBalanced(groups: seq<seq<string>>, max: nat, longest: nat)
    requires max > 0 && BinCount(groups, max) > 0 && NoneLonger(Join(groups), longest)
    ensures |Join(Chunks(Pack(groups, max)))| == |Join(Join(groups))|
    ensures forall c | c in Chunks(Pack(groups, max)) ::
              WithinBound(BinCount(groups, max), |c|, max, |Join(Join(groups))|, longest)
  {
    PackConserves(groups, max);
    PackIsBounded(groups, max, longest);
    var bins := Pack(groups, max);
    ChunksCarryTheLoad(bins);
    forall c | c in Chunks(bins)
      ensures WithinBound(|bins|, |c|, max, |Join(Join(groups))|, longest)
    {
      var b :| b in bins && |c| == b.chars;
      var i :| 0 <= i < |bins| && bins[i] == b;
      assert WithinBound(|bins|, bins[i].chars, max, |Join(Join(groups))|, longest);
    }
  }

  lemma GroupHoldsWithin(f: string, hunkStarts: seq<nat>, max: nat, g: seq<string>)
    requires max > 0 && DiffSplitter.HunkStarts(f, hunkStarts) && IsGroupOf(f, hunkStarts, max, g)
    ensures NoneLonger(g, max) <==> SplitsWithin(f, hunkStarts, max)
    ensures |f| <= max ==> g == [f]
  {
  }

  lemma {:induction false} GroupsHoldWithin(files: seq<string>, hunkStarts: string -> seq<nat>, max: nat, groups: seq<seq<string>>)
    requires max > 0 && FindsHunks(hunkStarts)
    requires AreGroups(files, hunkStarts, max, groups)
    ensures NoneLonger(Join(groups), max) <==> AllSplitWithin(files, hunkStarts, max)
  {
    if files != [] {
      var last := |files| - 1;
      var f, g := files[last], groups[last];
      assert groups == groups[..last] + [g];
      GroupsHoldWithin(files[..last], hunkStarts, max, groups[..last]);
      GroupHoldsWithin(f, hunkStarts(f), max, g);
      JoinOfMore(groups[..last], g);
      NoneLongerOfParts(Join(groups[..last]), g, max);
      LastSplitsWithin(files, hunkStarts, max);
    }
  }

  ghost predicate AllSplitWithin(files: seq<string>, hunkStarts: string -> seq<nat>, max: nat)
    requires FindsHunks(hunkStarts)
  {
    forall f | f in files :: SplitsWithin(f, hunkStarts(f), max)
  }

  lemma LastSplitsWithin(files: seq<string>, hunkStarts: string -> seq<nat>, max: nat)
    requires FindsHunks(hunkStarts) && files != []
    ensures var last := |files| - 1;
            AllSplitWithin(files, hunkStarts, max) <==>
            AllSplitWithin(files[..last], hunkStarts, max) && SplitsWithin(files[last], hunkStarts(files[last]), max)
  {
    var last := |files| - 1;
    assert files == files[..last] + [files[last]];
  }

  lemma {:induction false} SmallFilesStayWhole(files: seq<string>, hunkStarts: string -> seq<nat>, max: nat, groups: seq<seq<string>>)
    requires max > 0 && FindsHunks(hunkStarts)
    requires AreGroups(files, hunkStarts, max, groups) && NoneLonger(files, max)
    ensures Join(groups) == files
  {
    if files != [] {
      var last := |files| - 1;
      var f, g := files[last], groups[last];
      assert files == files[..last] + [f] && groups == groups[..last] + [g];
      SmallFilesStayWhole(files[..last], hunkStarts, max, groups[..last]);
      GroupHoldsWithin(f, hunkStarts(f), max, g);
      JoinOfMore(groups[..last], g);
    }
  }

  lemma NoneLongerOfParts(a: seq<string>, b: seq<string>, longest: nat)
    ensures NoneLonger(a + b, longest) <==> NoneLonger(a, longest) && NoneLonger(b, longest)
  {
    assert forall p :: p in a + b <==> p in a || p in b;
  }

  /**
   The whole split when every file's diff splits within the limit: no chunk reaches twice the
   limit. When no file's diff is over the limit, the chunks hold exactly the files' diffs.
   */
  lemma SplitIsBounded(files: seq<string>, hunkStarts: string -> seq<nat>, max: nat,
                       groups: seq<seq<string>>, chunks: seq<string>)
    requires max > 0 && FindsHunks(hunkStarts)
    requires PacksFiles(files, hunkStarts, max, groups, chunks)
    requires AllSplitWithin(files, hunkStarts, max)
    ensures forall c | c in chunks :: |c| < 2 * max
    ensures (forall f | f in files :: |f| <= max) ==>
              Contents(Pack(groups, max)) == multiset(files) && |Join(chunks)| == |Join(files)|
  {
    GroupsHoldWithin(files, hunkStarts, max, groups);
    if NoneLonger(files, max) { SmallFilesStayWhole(files, hunkStarts, max, groups); }
    PackConserves(groups, max);
    ChunksStayBelowTwiceTheLimit(groups, max);
    ChunksCarryTheLoad(Pack(groups, max));
  }
}
