/** The order of the packing, largest first, and how close it comes to the best packing there is. */
module LargestFirst {
  import opened Arithmetic
  import opened Sequences
  import opened Sorting
  import DiffSplitter
  import opened DiffPacker

  // ----- the order

  /** The groups as long as the given one, in order. */
  function SameSize(groups: seq<seq<string>>, size: nat): seq<seq<string>> {
    if groups == [] then []
    else (if |Join(groups[0])| == size then [groups[0]] else []) + SameSize(groups[1..], size)
  }

  /** The same groups, no group before a larger one, and groups of one size in the order they had. */
  ghost predicate IsLargestFirst(groups: seq<seq<string>>, order: seq<seq<string>>) {
    && multiset(order) == multiset(groups)
    && (forall i, j | 0 <= i < j < |order| :: |Join(order[i])| >= |Join(order[j])|)
    && (forall size :: SameSize(order, size) == SameSize(groups, size))
  }

  lemma {:induction false} TiesAreOfOneSize(groups: seq<seq<string>>, g: seq<string>)
    ensures Ties(groups, g, HeaviestFirst()) == SameSize(groups, |Join(g)|)
  {
    if groups != [] {
      TiesAreOfOneSize(groups[1..], g);
    }
  }

  /** A group of any size. */
  lemma GroupOfSize(size: nat) returns (g: seq<string>)
    ensures |Join(g)| == size
  {
    var text := seq(size, _ => ' ');
    JoinOfOne(text);
    g := [text];
  }

  /** The groups are packed the largest first. */
  lemma GroupsAreTakenLargestFirst(groups: seq<seq<string>>, max: nat)
    requires max > 0 && BinCount(groups, max) > 0
    ensures exists order :: IsLargestFirst(groups, order)
              && Pack(groups, max) == PlaceGroups(EmptyBins(BinCount(groups, max)), order, max)
  {
    var order := Sort(groups, HeaviestFirst());
    SortSorts(groups, HeaviestFirst());
    forall size: nat | true
      ensures SameSize(order, size) == SameSize(groups, size)
    {
      var g := GroupOfSize(size);
      SortIsStable(groups, g, HeaviestFirst());
      TiesAreOfOneSize(groups, g);
      TiesAreOfOneSize(order, g);
    }
    assert IsLargestFirst(groups, order);
  }

  /** No piece before a longer one. */
  predicate Falling(pieces: seq<string>) {
    forall i, j | 0 <= i < j < |pieces| :: |pieces[i]| >= |pieces[j]|
  }

  lemma SortedFalls(pieces: seq<string>)
    ensures Falling(Sort(pieces, LongestFirst()))
  {
    SortSorts(pieces, LongestFirst());
  }

  predicate NoneShorter(pieces: seq<string>, least: nat) {
    forall p | p in pieces :: |p| >= least
  }

  /** The bin took pieces on, longest first and none shorter than `least`. */
  predicate TookFalling(before: Bin, after: Bin, least: nat) {
    var s := |before.pieces|;
    s <= |after.pieces| && before.pieces == after.pieces[..s]
    && Falling(after.pieces[s..]) && NoneShorter(after.pieces[s..], least)
  }

  predicate AllTookFalling(before: seq<Bin>, after: seq<Bin>, least: nat) {
    |before| == |after| && forall i | 0 <= i < |before| :: TookFalling(before[i], after[i], least)
  }

  lemma {:induction false} PlacePiecesFalling(first: seq<Bin>, bins: seq<Bin>, pieces: seq<string>, least: nat)
    requires bins != [] && Falling(pieces) && AllTookFalling(first, bins, least) && forall p | p in pieces :: |p| <= least
    ensures AllTookFalling(first, PlacePieces(bins, pieces), 0)
    decreases |pieces|
  {
    if pieces == [] {
      assert forall i | 0 <= i < |first| :: TookFalling(first[i], bins[i], least) ==> TookFalling(first[i], bins[i], 0);
    } else {
      PutFalling(first, bins, pieces[0], least);
      PlacePiecesFalling(first, Put(bins, [pieces[0]]), pieces[1..], |pieces[0]|);
    }
  }

  lemma PutFalling(first: seq<Bin>, bins: seq<Bin>, piece: string, least: nat)
    requires bins != [] && AllTookFalling(first, bins, least) && |piece| <= least
    ensures AllTookFalling(first, Put(bins, [piece]), |piece|)
  {
    var k := Least(bins);
    TakesFalling(first[k], bins[k], piece, least);
    var after := Put(bins, [piece]);
    forall i | 0 <= i < |first|
      ensures TookFalling(first[i], after[i], |piece|)
    {
      if i != k { assert TookFalling(first[i], bins[i], least); }
    }
  }

  lemma TakesFalling(first: Bin, b: Bin, piece: string, least: nat)
    requires TookFalling(first, b, least) && |piece| <= least
    ensures TookFalling(first, Grown(b, [piece]), |piece|)
  {
    FallsFurther(b.pieces[|first.pieces|..], piece, least);
    PartsAround(b.pieces, piece, |first.pieces|);
  }

  lemma PartsAround(pieces: seq<string>, piece: string, s: nat)
    requires s <= |pieces|
    ensures (pieces + [piece])[s..] == pieces[s..] + [piece]
    ensures (pieces + [piece])[..s] == pieces[..s]
  {
  }

  lemma FallsFurther(pieces: seq<string>, piece: string, least: nat)
    requires Falling(pieces) && NoneShorter(pieces, least) && |piece| <= least
    ensures Falling(pieces + [piece]) && NoneShorter(pieces + [piece], |piece|)
  {
    assert forall i | 0 <= i < |pieces| :: pieces[i] in pieces;
  }

  /**
   A group stays together, in its order, exactly when some bin has room for all of it, and then
   the first of the least loaded bins takes it. Otherwise what each bin takes of it goes longest first.
   */
  lemma GroupStaysTogetherIfItFits(bins: seq<Bin>, group: seq<string>, max: nat)
    requires bins != []
    ensures (exists b :: b in bins && b.chars + |Join(group)| <= max) ==>
              exists k: nat :: IsFirstLeast(bins, k) &&
                PlaceGroup(bins, group, max) == bins[k := Bin(bins[k].chars + |Join(group)|, bins[k].pieces + group)]
    ensures (forall b | b in bins :: b.chars + |Join(group)| > max) ==>
              AllTookFalling(bins, PlaceGroup(bins, group, max), 0)
  {
    if b :| b in bins && b.chars + |Join(group)| <= max {
      assert IsFirstLeast(bins, Least(bins));
    } else {
      assert bins[Least(bins)] in bins;
      SpreadFalls(bins, Sort(group, LongestFirst())) by { SortedFalls(group); }
    }
  }

  lemma SpreadFalls(bins: seq<Bin>, pieces: seq<string>)
    requires bins != [] && Falling(pieces)
    ensures AllTookFalling(bins, PlacePieces(bins, pieces), 0)
  {
    var longest := if pieces == [] then 0 else |pieces[0]|;
    forall i | 0 <= i < |bins|
      ensures TookFalling(bins[i], bins[i], longest)
    {
      assert bins[i].pieces[..|bins[i].pieces|] == bins[i].pieces;
    }
    PlacePiecesFalling(bins, bins, pieces, longest);
  }

  predicate IsFirstLeast(bins: seq<Bin>, k: nat) {
    k < |bins| && (forall i | 0 <= i < |bins| :: bins[k].chars <= bins[i].chars)
    && (forall i | 0 <= i < k :: bins[k].chars < bins[i].chars)
  }

  // ----- weights

  /** A piece no shorter than `least` weighs one, and two if not even another `least` fits beside it. */
  function Weight(piece: string, least: nat, room: nat): nat {
    if |piece| < least then 0 else if |piece| + least <= room then 1 else 2
  }

  function Weights(pieces: seq<string>, least: nat, room: nat): nat {
    if pieces == [] then 0 else Weight(pieces[0], least, room) + Weights(pieces[1..], least, room)
  }

  lemma {:induction false} WeightsOfParts(a: seq<string>, b: seq<string>, least: nat, room: nat)
    ensures Weights(a + b, least, room) == Weights(a, least, room) + Weights(b, least, room)
  {
    if a == [] {
      assert a + b == b;
    } else {
      assert (a + b)[1..] == a[1..] + b;
      WeightsOfParts(a[1..], b, least, room);
    }
  }

  /** A piece found in a sequence, and what stands around it. */
  lemma Found<T>(x: T, b: seq<T>) returns (k: nat)
    requires x in b
    ensures k < |b| && b[k] == x && b == b[..k] + ([x] + b[k + 1..])
    ensures multiset(b) == multiset{x} + multiset(b[..k] + b[k + 1..])
  {
    k :| 0 <= k < |b| && b[k] == x;
    assert b == b[..k] + ([x] + b[k + 1..]);
  }

  lemma WithoutOne<T>(x: multiset<T>, y: multiset<T>, e: T)
    requires multiset{e} + x <= multiset{e} + y
    ensures x <= y
  {
    forall o | o in x
      ensures x[o] <= y[o]
    {
      assert (multiset{e} + x)[o] <= (multiset{e} + y)[o];
    }
  }

  lemma {:induction false} FewerWeighLess(a: seq<string>, b: seq<string>, least: nat, room: nat)
    requires multiset(a) <= multiset(b)
    ensures Weights(a, least, room) <= Weights(b, least, room)
    decreases |a|
  {
    if a != [] {
      assert a == [a[0]] + a[1..];
      assert a[0] in multiset(a);
      var k := Found(a[0], b);
      var before, after := b[..k], b[k + 1..];
      WithoutOne(multiset(a[1..]), multiset(before + after), a[0]);
      FewerWeighLess(a[1..], before + after, least, room);
      WeightsOfParts(before, [a[0]] + after, least, room);
      WeightsOfParts(before, after, least, room);
      assert ([a[0]] + after)[1..] == after;
    }
  }

  lemma {:induction false} WeightNeedsLength(pieces: seq<string>, least: nat, room: nat)
    ensures Weights(pieces, least, room) >= 1 ==> |Join(pieces)| >= least
    ensures Weights(pieces, least, room) >= 2 ==> 2 * least <= |Join(pieces)| || room < |Join(pieces)| + least
    ensures Weights(pieces, least, room) >= 3 ==> 3 * least <= |Join(pieces)| || room < |Join(pieces)|
  {
    if pieces != [] {
      WeightNeedsLength(pieces[1..], least, room);
    }
  }

  /** Pieces all at least `least` that leave no room for another weigh two or more. */
  lemma FullBinWeighsTwo(pieces: seq<string>, least: nat, room: nat)
    requires forall p | p in pieces :: |p| >= least
    requires least <= room < |Join(pieces)| + least
    ensures Weights(pieces, least, room) >= 2
  {
    assert pieces[0] in pieces;
    if |pieces| == 1 {
      JoinOfOne(pieces[0]);
      assert pieces == [pieces[0]];
    } else {
      assert pieces[1] in pieces && pieces[1..][0] == pieces[1];
    }
  }

  /** Parts of at most `room`, of which three of `least` do not fit, weigh two each at the most. */
  lemma {:induction false} PartsWeighTwoEach(parts: seq<seq<string>>, least: nat, room: nat)
    requires room < 3 * least && forall part | part in parts :: |Join(part)| <= room
    ensures Weights(Join(parts), least, room) <= 2 * |parts|
  {
    if parts != [] {
      assert parts[0] in parts;
      WeightNeedsLength(parts[0], least, room);
      PartsWeighTwoEach(parts[1..], least, room);
      WeightsOfParts(parts[0], Join(parts[1..]), least, room);
    }
  }

  /** The pieces of the bins, bin by bin. */
  function InBins(bins: seq<Bin>): (pieces: seq<string>)
    ensures multiset(pieces) == Contents(bins)
  {
    if bins == [] then [] else InBins(bins[..|bins| - 1]) + bins[|bins| - 1].pieces
  }

  lemma {:induction false} FullBinsWeighTwoEach(bins: seq<Bin>, least: nat, room: nat)
    requires Counted(bins) && least <= room
    requires forall p | p in Contents(bins) :: |p| >= least
    requires forall i | 0 <= i < |bins| :: bins[i].chars + least > room
    ensures Weights(InBins(bins), least, room) >= 2 * |bins|
  {
    if bins != [] {
      var init, last := bins[..|bins| - 1], bins[|bins| - 1];
      forall p | p in last.pieces
        ensures |p| >= least
      {
        assert p in multiset(last.pieces);
      }
      FullBinWeighsTwo(last.pieces, least, room);
      FullBinsWeighTwoEach(init, least, room);
      WeightsOfParts(InBins(init), last.pieces, least, room);
    }
  }

  // ----- against the best packing

  /** The pieces can be put into `n` parts of at most `room` characters. */
  predicate IsPacking(parts: seq<seq<string>>, pieces: multiset<string>, n: nat, room: nat) {
    |parts| == n && multiset(Join(parts)) == pieces && forall part | part in parts :: |Join(part)| <= room
  }

  /** A piece more than a third of the room long finds room beside longer ones. */
  lemma LongPieceFits(bins: seq<Bin>, piece: string, all: multiset<string>, parts: seq<seq<string>>, room: nat)
    requires bins != [] && Counted(bins) && room < 3 * |piece|
    requires forall p | p in Contents(bins) :: |p| >= |piece|
    requires IsPacking(parts, all, |bins|, room) && Contents(bins) + multiset{piece} <= all
    ensures bins[Least(bins)].chars + |piece| <= room
  {
    PieceFitsSomePart(parts, piece, room) by { assert piece in Contents(bins) + multiset{piece}; }
    if bins[Least(bins)].chars + |piece| > room {
      FullBinsWeighTwoEach(bins, |piece|, room);
      PartsWeighTwoEach(parts, |piece|, room);
      OneMoreWeighsMore(bins, piece, Join(parts), room);
      assert false;
    }
  }

  lemma OneMoreWeighsMore(bins: seq<Bin>, piece: string, all: seq<string>, room: nat)
    requires Contents(bins) + multiset{piece} <= multiset(all)
    ensures Weights(InBins(bins), |piece|, room) < Weights(all, |piece|, room)
  {
    var pieces := InBins(bins) + [piece];
    WeightsOfParts(InBins(bins), [piece], |piece|, room);
    assert Weights([piece], |piece|, room) >= 1;
    assert multiset(pieces) == Contents(bins) + multiset{piece};
    FewerWeighLess(pieces, all, |piece|, room);
  }

  lemma PieceFitsSomePart(parts: seq<seq<string>>, piece: string, room: nat)
    requires piece in multiset(Join(parts)) && forall part | part in parts :: |Join(part)| <= room
    ensures |piece| <= room
  {
    DiffSplitter.MemberOfJoin(parts, piece);
    var k :| 0 <= k < |parts| && piece in parts[k];
    DiffSplitter.PartIsNoLonger(parts[k], piece);
    assert parts[k] in parts;
  }

  lemma {:induction false} PartsHoldAtMost(parts: seq<seq<string>>, room: nat)
    requires forall part | part in parts :: |Join(part)| <= room
    ensures |Join(Join(parts))| <= Repeated(room, |parts|)
  {
    if parts != [] {
      assert parts[0] in parts;
      PartsHoldAtMost(parts[1..], room);
      JoinOfParts(parts[0], Join(parts[1..]));
    }
  }

  /** No bin holds more than a third less `1 / 3n` above the room. */
  predicate NearlyBest(bins: seq<Bin>, room: nat) {
    forall i | 0 <= i < |bins| :: IsNearlyBest(|bins|, bins[i].chars, room)
  }

  predicate IsNearlyBest(n: nat, chars: nat, room: nat) {
    3 * (n * chars) <= (4 * n - 1) * room
  }

  /** The same by repeated addition. */
  predicate IsNear(n: nat, chars: nat, room: nat) {
    3 * Repeated(chars, n) + room <= 4 * Repeated(room, n)
  }

  predicate AllNear(bins: seq<Bin>, room: nat) {
    forall i | 0 <= i < |bins| :: IsNear(|bins|, bins[i].chars, room)
  }

  lemma NearIsNearlyBest(n: nat, chars: nat, room: nat)
    requires IsNear(n, chars, room)
    ensures IsNearlyBest(n, chars, room)
  {
    RepeatedIsProduct(chars, n);
    RepeatedIsProduct(room, n);
    ShareOfRoom(n, room);
  }

  lemma AllNearIsNearlyBest(bins: seq<Bin>, room: nat)
    requires AllNear(bins, room)
    ensures NearlyBest(bins, room)
  {
    forall i | 0 <= i < |bins|
      ensures IsNearlyBest(|bins|, bins[i].chars, room)
    {
      NearIsNearlyBest(|bins|, bins[i].chars, room);
    }
  }

  lemma ShortPieceArithmetic(n: nat, least: nat, piece: nat, load: nat, room: nat)
    requires n > 0 && 3 * piece <= room && n * least <= load && load + piece <= Repeated(room, n)
    ensures IsNear(n, least + piece, room)
  {
    RepeatedIsProduct(least + piece, n);
    Distribute(n, least, piece);
    OneMore(n - 1, piece);
    ThirdOfRoom(n - 1, piece, room);
    RepeatedIsProduct(room, n - 1);
  }

  lemma ThirdOfRoom(n: nat, piece: nat, room: nat)
    requires 3 * piece <= room
    ensures 3 * (n * piece) <= n * room
  {
    TimesIsMonotone(n, 3 * piece, room);
    ThreeTimes(n, piece);
  }

  lemma ThreeTimes(n: int, m: int)
    ensures n * (3 * m) == 3 * (n * m)
  {
  }

  lemma ShareOfRoom(n: int, room: int)
    ensures (4 * n - 1) * room == 4 * (n * room) - room
  {
  }

  lemma {:induction false} RepeatedIsMonotone(a: nat, b: nat, n: nat)
    requires a <= b
    ensures Repeated(a, n) <= Repeated(b, n)
  {
    if n > 0 {
      RepeatedIsMonotone(a, b, n - 1);
    }
  }

  lemma FittingIsNear(n: nat, chars: nat, room: nat)
    requires n > 0 && chars <= room
    ensures IsNear(n, chars, room)
  {
    RepeatedIsMonotone(chars, room, n);
  }

  /** Each piece in turn finds room, or is short and finds the bins holding little enough. */
  ghost predicate PlacesWell(bins: seq<Bin>, pieces: seq<string>, room: nat)
    requires bins != []
    decreases |pieces|
  {
    pieces == [] ||
    (PieceIsPlacedWell(|bins|, bins[Least(bins)].chars, |pieces[0]|, Load(bins), room)
     && PlacesWell(Put(bins, [pieces[0]]), pieces[1..], room))
  }

  predicate PieceIsPlacedWell(n: nat, least: nat, piece: nat, load: nat, room: nat) {
    least + piece <= room || (3 * piece <= room && load + piece <= Repeated(room, n))
  }

  lemma NextIsPlacedWell(bins: seq<Bin>, piece: string, all: multiset<string>, parts: seq<seq<string>>, room: nat)
    requires bins != [] && Counted(bins)
    requires forall p | p in Contents(bins) :: |p| >= |piece|
    requires IsPacking(parts, all, |bins|, room) && Contents(bins) + multiset{piece} <= all
    ensures PieceIsPlacedWell(|bins|, bins[Least(bins)].chars, |piece|, Load(bins), room)
  {
    if room < 3 * |piece| {
      LongPieceFits(bins, piece, all, parts, room);
    } else {
      LoadFits(bins, piece, all, parts, room);
    }
  }

  lemma {:induction false} FallingPlacesWell(bins: seq<Bin>, pieces: seq<string>, parts: seq<seq<string>>, room: nat)
    requires bins != [] && Counted(bins) && Falling(pieces)
    requires pieces != [] ==> forall p | p in Contents(bins) :: |p| >= |pieces[0]|
    requires IsPacking(parts, Contents(bins) + multiset(pieces), |bins|, room)
    ensures PlacesWell(bins, pieces, room)
    decreases |pieces|
  {
    if pieces != [] {
      var piece, rest := pieces[0], pieces[1..];
      HeadCounts(Contents(bins), pieces);
      NextIsPlacedWell(bins, piece, Contents(bins) + multiset(pieces), parts, room);
      PutTotals(bins, [piece]);
      FallingPlacesWell(Put(bins, [piece]), rest, parts, room);
    }
  }

  lemma LoadFits(bins: seq<Bin>, piece: string, all: multiset<string>, parts: seq<seq<string>>, room: nat)
    requires Counted(bins) && IsPacking(parts, all, |bins|, room) && Contents(bins) + multiset{piece} <= all
    ensures Load(bins) + |piece| <= Repeated(room, |bins|)
  {
    PartsHoldAtMost(parts, room);
    LoadIsLength(bins);
    var pieces := InBins(bins) + [piece];
    JoinOfMore(InBins(bins), piece);
    assert multiset(pieces) == Contents(bins) + multiset{piece};
    FewerAreNoLonger(pieces, Join(parts));
  }

  lemma {:induction false} LoadIsLength(bins: seq<Bin>)
    requires Counted(bins)
    ensures Load(bins) == |Join(InBins(bins))|
  {
    if bins != [] {
      var init, last := bins[..|bins| - 1], bins[|bins| - 1];
      LoadIsLength(init);
      JoinOfParts(InBins(init), last.pieces);
      assert last.chars == |Join(last.pieces)|;
    }
  }

  lemma {:induction false} FewerAreNoLonger(a: seq<string>, b: seq<string>)
    requires multiset(a) <= multiset(b)
    ensures |Join(a)| <= |Join(b)|
    decreases |a|
  {
    if a != [] {
      assert a == [a[0]] + a[1..];
      assert a[0] in multiset(a);
      var k := Found(a[0], b);
      var before, after := b[..k], b[k + 1..];
      WithoutOne(multiset(a[1..]), multiset(before + after), a[0]);
      FewerAreNoLonger(a[1..], before + after);
      JoinOfParts(before, [a[0]] + after);
      JoinOfParts(before, after);
      JoinOfParts([a[0]], after);
      JoinOfOne(a[0]);
    }
  }

  lemma PutIsNear(bins: seq<Bin>, piece: string, grown: nat, room: nat)
    requires bins != [] && AllNear(bins, room)
    requires grown == bins[Least(bins)].chars + |piece| && IsNear(|bins|, grown, room)
    ensures AllNear(Put(bins, [piece]), room)
  {
    var after := Put(bins, [piece]);
    JoinOfOne(piece);
    assert after[Least(bins)].chars == grown;
    forall i | 0 <= i < |after|
      ensures IsNear(|after|, after[i].chars, room)
    {
      if i != Least(bins) { assert IsNear(|bins|, bins[i].chars, room); }
    }
  }

  lemma PlacedWellIsNear(n: nat, least: nat, piece: nat, load: nat, room: nat)
    requires n > 0 && n * least <= load && PieceIsPlacedWell(n, least, piece, load, room)
    ensures IsNear(n, least + piece, room)
  {
    if least + piece <= room {
      FittingIsNear(n, least + piece, room);
    } else {
      ShortPieceArithmetic(n, least, piece, load, room);
    }
  }

  lemma {:induction false} PiecesAreNear(bins: seq<Bin>, pieces: seq<string>, room: nat)
    requires bins != [] && AllNear(bins, room) && PlacesWell(bins, pieces, room)
    ensures AllNear(PlacePieces(bins, pieces), room)
    decreases |pieces|
  {
    if pieces != [] {
      var piece, least := pieces[0], bins[Least(bins)].chars;
      LoadAtLeast(bins, least);
      PlacedWellIsNear(|bins|, least, |piece|, Load(bins), room);
      PutIsNear(bins, piece, least + |piece|, room);
      PiecesAreNear(Put(bins, [piece]), pieces[1..], room);
    }
  }

  /**
   Pieces put into `n` empty bins longest first, each into the least loaded: no bin holds more than
   4/3 - 1/(3n) of what the fullest one holds in any other way of packing them into `n` bins.
   */
  lemma LongestFirstIsNearlyBest(pieces: seq<string>, n: nat, parts: seq<seq<string>>, room: nat)
    requires n > 0 && IsPacking(parts, multiset(pieces), n, room)
    ensures NearlyBest(PlacePieces(EmptyBins(n), Sort(pieces, LongestFirst())), room)
  {
    SpreadIsNearlyBest(Sort(pieces, LongestFirst()), n, parts, room) by { SortedFalls(pieces); }
  }

  lemma SpreadIsNearlyBest(pieces: seq<string>, n: nat, parts: seq<seq<string>>, room: nat)
    requires n > 0 && Falling(pieces) && IsPacking(parts, multiset(pieces), n, room)
    ensures NearlyBest(PlacePieces(EmptyBins(n), pieces), room)
  {
    EmptyTotals(n);
    forall i | 0 <= i < n
      ensures IsNear(n, EmptyBins(n)[i].chars, room)
    {
      FittingIsNear(n, 0, room);
    }
    FallingPlacesWell(EmptyBins(n), pieces, parts, room);
    PiecesAreNear(EmptyBins(n), pieces, room);
    AllNearIsNearlyBest(PlacePieces(EmptyBins(n), pieces), room);
  }

  // ----- files

  /** Every file's diff is a piece of its own. */
  predicate Unsplit(groups: seq<seq<string>>) {
    forall g | g in groups :: |g| == 1
  }

  /** Unsplit files are packed as single pieces. */
  lemma {:induction false} UnsplitIsSpread(bins: seq<Bin>, groups: seq<seq<string>>, max: nat)
    requires bins != [] && Unsplit(groups)
    ensures PlaceGroups(bins, groups, max) == PlacePieces(bins, Join(groups))
    decreases |groups|
  {
    if groups != [] {
      var g := groups[0];
      assert g in groups && g == [g[0]];
      SingleIsPut(bins, g, max);
      UnsplitIsSpread(Put(bins, g), groups[1..], max);
      assert Join(groups) == [g[0]] + Join(groups[1..]);
    }
  }

  lemma {:induction false} UnsplitPieces(groups: seq<seq<string>>)
    requires Unsplit(groups)
    ensures |Join(groups)| == |groups|
    ensures forall i | 0 <= i < |groups| :: groups[i] == [Join(groups)[i]] && |Join(groups[i])| == |Join(groups)[i]|
  {
    if groups != [] {
      var g := groups[0];
      assert g in groups && g == [g[0]];
      UnsplitPieces(groups[1..]);
      JoinOfOne(g[0]);
    }
  }

  /**
   Files none of which is split: no chunk is longer than 4/3 - 1/(3n) of the longest one in any
   other way of putting the files into the `n` bins, and each chunk holds its files largest first.
   */
  lemma LargestFirstIsNearlyBest(groups: seq<seq<string>>, max: nat, parts: seq<seq<string>>, room: nat)
    requires max > 0 && BinCount(groups, max) > 0 && Unsplit(groups)
    requires IsPacking(parts, multiset(Join(groups)), BinCount(groups, max), room)
    ensures NearlyBest(Pack(groups, max), room)
    ensures forall b | b in Pack(groups, max) :: Falling(b.pieces)
  {
    var n := BinCount(groups, max);
    var sorted := Sort(groups, HeaviestFirst());
    SameElements(sorted, groups);
    SortSorts(groups, HeaviestFirst());
    UnsplitPieces(sorted);
    UnsplitIsSpread(EmptyBins(n), sorted, max);
    FlattenPermutation(sorted, groups);
    SpreadIsNearlyBest(Join(sorted), n, parts, room);
    BinsFall(n, Join(sorted));
  }

  lemma BinsFall(n: nat, pieces: seq<string>)
    requires n > 0 && Falling(pieces)
    ensures forall b | b in PlacePieces(EmptyBins(n), pieces) :: Falling(b.pieces)
  {
    var bins := PlacePieces(EmptyBins(n), pieces);
    SpreadFalls(EmptyBins(n), pieces);
    forall b | b in bins
      ensures Falling(b.pieces)
    {
      var i :| 0 <= i < |bins| && bins[i] == b;
      assert TookFalling(EmptyBins(n)[i], bins[i], 0);
      assert b.pieces[0..] == b.pieces;
    }
  }
}
