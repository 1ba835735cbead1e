/** Searching the table: marking matches with their ancestors, and rendering what was marked. */
module TreeSearch {
  import opened Characters
  import opened TreeTable

  datatype Mark = Match | Ancestor

  /** Every parent is a record of the table, or there is none. */
  predicate ParentsInRange(t: seq<Node>) {
    forall i | 0 <= i < |t| :: -1 <= t[i].pa < |t|
  }

  /** The `k`-th parent of record `i`, or -1 past a root. */
  function Up(t: seq<Node>, i: int, k: nat): (a: int)
    requires ParentsInRange(t) && -1 <= i < |t|
    ensures -1 <= a < |t|
  {
    if k == 0 then i
    else
      var below := Up(t, i, k - 1);
      if below < 0 then -1 else t[below].pa
  }

  /** Record `a` lies on the way from record `i` up, or is `i` itself. */
  ghost predicate OnWayUp(t: seq<Node>, a: nat, i: nat)
    requires ParentsInRange(t) && i < |t|
  {
    exists k :: Up(t, i, k) == a
  }

  /** What a search must mark: the matches and all their ancestors. */
  ghost predicate Wanted(t: seq<Node>, hit: string -> bool, a: nat)
    requires ParentsInRange(t)
  {
    a < |t| && exists i: nat :: i < |t| && hit(t[i].n) && OnWayUp(t, a, i)
  }

  /** Every marked record's parent is marked, but for one that may still be to come. */
  predicate ClosedBut(t: seq<Node>, marks: map<nat, Mark>, pending: int)
  {
    forall a | a in marks :: a < |t| && (t[a].pa < 0 || t[a].pa == pending || t[a].pa in marks)
  }

  /** After the first `i` records: matches so far are marked so, nothing unwanted is marked. */
  ghost predicate Marked(t: seq<Node>, hit: string -> bool, wanted: iset<nat>, marks: map<nat, Mark>, i: nat)
    requires i <= |t|
  {
    && (forall a: nat | a < i && hit(t[a].n) :: a in marks)
    && (forall a | a in marks :: a < |t| && a in wanted && (marks[a] == Match <==> a < i && hit(t[a].n)))
  }

  ghost function AllWanted(t: seq<Node>, hit: string -> bool): iset<nat>
    requires ParentsInRange(t)
  {
    iset a: nat | Wanted(t, hit, a)
  }

  lemma {:induction false} ClosedMarksReachUp(t: seq<Node>, marks: map<nat, Mark>, i: nat, k: nat)
    requires ParentsInRange(t) && ClosedBut(t, marks, -1) && i in marks && i < |t|
    ensures Up(t, i, k) < 0 || Up(t, i, k) in marks
    decreases k
  {
    if k > 0 {
      ClosedMarksReachUp(t, marks, i, k - 1);
    }
  }

  lemma UpIsWanted(t: seq<Node>, hit: string -> bool, i: nat, k: nat)
    requires ParentsInRange(t) && i < |t| && hit(t[i].n) && Up(t, i, k) >= 0
    ensures Wanted(t, hit, Up(t, i, k))
  {
    assert OnWayUp(t, Up(t, i, k), i);
  }

  function Below(n: nat): (s: set<nat>)
    ensures forall a: nat :: a in s <==> a < n
  {
    if n == 0 then {} else Below(n - 1) + {n - 1}
  }

  lemma MatchIsMarked(t: seq<Node>, hit: string -> bool, wanted: iset<nat>, i: nat, marks: map<nat, Mark>)
    requires i < |t| && hit(t[i].n) && i in wanted
    requires ClosedBut(t, marks, -1) && Marked(t, hit, wanted, marks, i)
    ensures ClosedBut(t, marks[i := Match], t[i].pa) && Marked(t, hit, wanted, marks[i := Match], i + 1)
  {
  }

  lemma AncestorIsMarked(t: seq<Node>, hit: string -> bool, wanted: iset<nat>, i: nat, marks: map<nat, Mark>, anc: nat)
    requires i < |t| && anc < |t| && anc in wanted && anc !in marks
    requires ClosedBut(t, marks, anc) && Marked(t, hit, wanted, marks, i + 1)
    ensures ClosedBut(t, marks[anc := Ancestor], t[anc].pa)
    ensures Marked(t, hit, wanted, marks[anc := Ancestor], i + 1)
  {
  }

  /** The walk up from a match, which stops at the first record marked before. */
  method MarkUpwards(t: seq<Node>, hit: string -> bool, ghost wanted: iset<nat>, i: nat, before: map<nat, Mark>)
      returns (marks: map<nat, Mark>)
    requires ParentsInRange(t) && i < |t| && hit(t[i].n)
    requires forall k: nat :: Up(t, i, k) >= 0 ==> Up(t, i, k) in wanted
    requires ClosedBut(t, before, -1) && Marked(t, hit, wanted, before, i)
    ensures ClosedBut(t, marks, -1) && Marked(t, hit, wanted, marks, i + 1)
  {
    assert Up(t, i, 0) == i;
    marks := before[i := Match];
    MatchIsMarked(t, hit, wanted, i, before);
    var anc := t[i].pa;
    ghost var k := 1;
    while anc >= 0 && anc !in marks
      invariant -1 <= anc < |t| && anc == Up(t, i, k)
      invariant ClosedBut(t, marks, anc) && Marked(t, hit, wanted, marks, i + 1)
      decreases Below(|t|) - marks.Keys
    {
      AncestorIsMarked(t, hit, wanted, i, marks, anc);
      marks := marks[anc as nat := Ancestor];
      anc := t[anc].pa;
      k := k + 1;
    }
  }

  /** The set holds every record on the way up from a match. */
  ghost predicate HoldsUps(t: seq<Node>, hit: string -> bool, wanted: iset<nat>)
    requires ParentsInRange(t)
  {
    forall i: nat, k: nat | i < |t| && hit(t[i].n) && Up(t, i, k) >= 0 :: Up(t, i, k) in wanted
  }

  lemma UpsAreWanted(t: seq<Node>, hit: string -> bool)
    requires ParentsInRange(t)
    ensures HoldsUps(t, hit, AllWanted(t, hit))
  {
    forall i: nat, k: nat | i < |t| && hit(t[i].n) && Up(t, i, k) >= 0
      ensures Up(t, i, k) in AllWanted(t, hit)
    {
      UpIsWanted(t, hit, i, k);
    }
  }

  /** The loop over the records. */
  method MarkMatches(t: seq<Node>, hit: string -> bool, ghost wanted: iset<nat>) returns (marks: map<nat, Mark>)
    requires ParentsInRange(t) && HoldsUps(t, hit, wanted)
    ensures ClosedBut(t, marks, -1) && Marked(t, hit, wanted, marks, |t|)
  {
    marks := map[];
    for i := 0 to |t|
      invariant ClosedBut(t, marks, -1) && Marked(t, hit, wanted, marks, i)
    {
      if hit(t[i].n) {
        marks := MarkUpwards(t, hit, wanted, i, marks);
      }
    }
  }

  /** Marks that are closed under parents hold the whole way up from every match. */
  lemma MarksAreExact(t: seq<Node>, hit: string -> bool, marks: map<nat, Mark>)
    requires ParentsInRange(t) && ClosedBut(t, marks, -1) && Marked(t, hit, AllWanted(t, hit), marks, |t|)
    ensures forall a: nat :: a in marks <==> Wanted(t, hit, a)
    ensures forall a: nat | a in marks && a < |t| :: marks[a] == Match <==> hit(t[a].n)
  {
    forall a: nat | Wanted(t, hit, a)
      ensures a in marks
    {
      WantedIsMarked(t, hit, marks, a);
    }
  }

  lemma WantedIsMarked(t: seq<Node>, hit: string -> bool, marks: map<nat, Mark>, a: nat)
    requires ParentsInRange(t) && ClosedBut(t, marks, -1) && Wanted(t, hit, a)
    requires forall i: nat | i < |t| && hit(t[i].n) :: i in marks
    ensures a in marks
  {
    var i: nat :| i < |t| && hit(t[i].n) && OnWayUp(t, a, i);
    var k :| Up(t, i, k) == a;
    ClosedMarksReachUp(t, marks, i, k);
  }

  /**
   The marking loop of the search, for any table whose parents are in range: exactly the matches
   and their ancestors are marked, and a record is marked a match exactly when its name matches,
   although each walk up stops at the first record marked before.
   */
  method MarkPaths(t: seq<Node>, hit: string -> bool) returns (marks: map<nat, Mark>)
    requires ParentsInRange(t)
    ensures forall a: nat :: a in marks <==> Wanted(t, hit, a)
    ensures forall a: nat | a in marks && a < |t| :: marks[a] == Match <==> hit(t[a].n)
  {
    UpsAreWanted(t, hit);
    marks := MarkMatches(t, hit, AllWanted(t, hit));
    MarksAreExact(t, hit, marks);
  }

  // ----- the page

  function Lower(s: string): string {
    seq(|s|, i requires 0 <= i < |s| => LowerChar(s[i]))
  }

  /** `s.indexOf(q) !== -1` */
  predicate Contains(s: string, q: string) {
    q <= s || (s != "" && Contains(s[1..], q))
  }

  function Hit(query: string): string -> bool {
    name => Contains(Lower(name), Lower(query))
  }

  /** The text stands at the index, whatever the case of its letters. */
  predicate StandsAt(name: string, query: string, i: nat) {
    i + |query| <= |name| && forall j | 0 <= j < |query| :: SameLetter(name[i + j], query[j])
  }

  predicate IsAt(s: string, q: string, i: nat) {
    i + |q| <= |s| && s[i..i + |q|] == q
  }

  lemma {:induction false} ContainsIffIsSomewhere(s: string, q: string)
    ensures Contains(s, q) <==> exists i: nat :: IsAt(s, q, i)
  {
    if q <= s {
      assert IsAt(s, q, 0);
    } else if s != "" {
      ContainsIffIsSomewhere(s[1..], q);
      if i: nat :| IsAt(s[1..], q, i) {
        IsOneFurther(s, q, i);
      }
      if i: nat :| IsAt(s, q, i) {
        assert i > 0;
        IsOneFurther(s, q, i - 1);
      }
    }
  }

  lemma IsOneFurther(s: string, q: string, i: nat)
    requires s != ""
    ensures IsAt(s[1..], q, i) <==> IsAt(s, q, i + 1)
  {
    if i + |q| < |s| { assert s[1..][i..i + |q|] == s[i + 1..i + 1 + |q|]; }
  }

  lemma IsAtIffStandsAt(name: string, query: string, i: nat)
    ensures IsAt(Lower(name), Lower(query), i) <==> StandsAt(name, query, i)
  {
    if i + |query| <= |name| {
      var slice := Lower(name)[i..i + |query|];
      forall j | 0 <= j < |query|
        ensures slice[j] == Lower(query)[j] <==> SameLetter(name[i + j], query[j])
      {
        SameLetterIffSameLower(name[i + j], query[j]);
      }
      assert slice == Lower(query) <==> forall j | 0 <= j < |query| :: slice[j] == Lower(query)[j];
    }
  }

  /** A name matches exactly when the query stands somewhere in it, whatever the case. */
  lemma HitIffQueryStands(name: string, query: string)
    ensures Hit(query)(name) <==> exists i: nat :: StandsAt(name, query, i)
  {
    ContainsIffIsSomewhere(Lower(name), Lower(query));
    if i: nat :| IsAt(Lower(name), Lower(query), i) {
      IsAtIffStandsAt(name, query, i);
    }
    if i: nat :| StandsAt(name, query, i) {
      IsAtIffStandsAt(name, query, i);
    }
  }

  lemma WellFormedParents(t: seq<Node>)
    requires WellFormed(t)
    ensures ParentsInRange(t)
    ensures forall i: nat | i < |t| :: t[i].pa < i
    ensures forall i: nat | i < |t| && t[i].pa >= 0 :: t[t[i].pa].FolderNode? && i in t[t[i].pa].c
    ensures forall i: nat | i < |t| && t[i].pa < 0 :: i == 0
  {
    forall i | 0 <= i < |t|
      ensures i == 0 || ParentLinked(t, 0, i)
      ensures i == 0 ==> t[i].pa == -1
    {
      assert (t[i - 0].pa == -1 && i in [0]) || ParentLinked(t, 0, i);
    }
  }

  /**
   The rendered page. `spans` are the records that have an item, `open` the folders whose list of
   children is displayed; an item is hidden or highlighted by its index.
   */
  class Page {
    const t: seq<Node>
    var spans: set<nat>
    var materialized: set<nat>
    var open: set<nat>
    var hidden: set<nat>
    var highlighted: set<nat>

    ghost predicate Valid()
      reads this
    {
      && WellFormed(t) && ParentsInRange(t) && 0 in spans
      && forall i, k | i in materialized && i < |t| && t[i].FolderNode? && k in t[i].c :: k in spans
    }

    /** The page as first rendered: the root, opened. */
    constructor (table: seq<Node>)
      requires WellFormed(table)
      ensures Valid() && t == table && hidden == highlighted == {}
    {
      t := table;
      spans, materialized, open, hidden, highlighted := {0}, {}, {}, {}, {};
      new;
      WellFormedParents(table);
      OpenFolder(0);
    }

    /** Gives every child of a rendered record an item and displays them, once. */
    method OpenFolder(id: nat)
      requires Valid() && id in spans && id < |t|
      modifies this
      ensures Valid() && spans >= old(spans) && open >= old(open)
      ensures t[id].FolderNode? ==> forall k | k in t[id].c :: k in spans && id in open
      ensures hidden <= old(hidden) && highlighted <= old(highlighted)
    {
      if id !in materialized && t[id].FolderNode? && t[id].c != [] {
        var children := set k | k in t[id].c;
        spans, hidden, highlighted := spans + children, hidden - children, highlighted - children;
        materialized := materialized + {id};
      }
      if id in materialized { open := open + {id}; }
    }

    /** The way from the root down to `id`. */
    method AncestorChain(id: nat) returns (chain: seq<nat>)
      requires WellFormed(t) && id < |t|
      ensures chain != [] && chain[0] == 0 && chain[|chain| - 1] == id
      ensures forall i | 0 <= i < |chain| :: chain[i] < |t|
      ensures forall i | 0 < i < |chain| :: t[chain[i]].pa == chain[i - 1]
    {
      WellFormedParents(t);
      chain := [];
      var cur := id as int;
      while cur >= 0
        invariant -1 <= cur < |t|
        invariant chain == [] ==> cur == id
        invariant forall i | 0 <= i < |chain| :: chain[i] < |t|
        invariant chain != [] ==> chain[|chain| - 1] == id && t[chain[0]].pa == cur
        invariant forall i | 0 < i < |chain| :: t[chain[i]].pa == chain[i - 1]
        decreases cur
      {
        chain := [cur as nat] + chain;
        cur := t[cur].pa;
      }
    }

    /** Gives `id` and everything above it an item, and opens every folder above it. */
    method EnsureAncestorsRendered(id: nat)
      requires Valid() && id < |t|
      modifies this
      ensures Valid() && spans >= old(spans) && open >= old(open)
      ensures id in spans && (t[id].pa >= 0 ==> t[id].pa in open)
      ensures hidden <= old(hidden) && highlighted <= old(highlighted)
    {
      WellFormedParents(t);
      var chain := AncestorChain(id);
      for i := 0 to |chain| - 1
        invariant Valid() && spans >= old(spans) && open >= old(open)
        invariant chain[i] in spans && (i > 0 ==> chain[i - 1] in open)
        invariant hidden <= old(hidden) && highlighted <= old(highlighted)
      {
        if chain[i] in spans {
          OpenFolder(chain[i]);
        }
        assert t[chain[i + 1]].pa == chain[i];
      }
    }

    /** Renders every marked record. */
    method RenderMarked(marks: map<nat, Mark>)
      requires Valid() && hidden == highlighted == {} && forall a | a in marks :: a < |t|
      modifies this
      ensures Valid() && hidden == highlighted == {}
      ensures forall a: nat | a in marks && a < |t| :: a in spans && (t[a].pa >= 0 ==> t[a].pa in open)
    {
      var todo := marks.Keys;
      while todo != {}
        invariant Valid() && todo <= marks.Keys && hidden == highlighted == {}
        invariant forall a: nat | a in marks && a !in todo && a < |t| :: a in spans && (t[a].pa >= 0 ==> t[a].pa in open)
      {
        var k :| k in todo;
        todo := todo - {k};
        EnsureAncestorsRendered(k);
      }
    }

    /** Hides every unmarked item and highlights the matches. */
    method ShowMarked(marks: map<nat, Mark>)
      requires Valid() && hidden == highlighted == {} && forall a | a in marks :: a in spans
      modifies `hidden, `highlighted
      ensures Valid()
      ensures forall a: nat :: a in spans && a !in hidden <==> a in marks
      ensures forall a: nat :: a in highlighted <==> a in marks && marks[a] == Match
    {
      hidden := spans - marks.Keys;
      highlighted := set a | a in spans && a in marks && marks[a] == Match;
    }

    /**
     A search shows exactly the matches and their ancestors, each inside open folders, and
     highlights exactly the matches; an empty query shows everything.
     */
    method PerformSearch(query: string)
      requires Valid()
      modifies this
      ensures Valid()
      ensures query == "" ==> hidden == {} && highlighted == {} && spans == old(spans)
      ensures query != "" ==> Shows(Hit(query))
    {
      hidden, highlighted := {}, {};
      if query == "" { return; }
      ShowHits(Hit(query));
    }

    /** Exactly what is wanted is visible, inside open folders, and exactly the matches are highlighted. */
    ghost predicate Shows(hit: string -> bool)
      requires ParentsInRange(t)
      reads this
    {
      && (forall a: nat :: a in spans && a !in hidden <==> Wanted(t, hit, a))
      && (forall a: nat :: a in highlighted <==> a < |t| && hit(t[a].n))
      && (forall a: nat :: a in spans && a !in hidden && a < |t| && t[a].pa >= 0 ==> t[a].pa in open)
    }

    method ShowHits(hit: string -> bool)
      requires Valid() && hidden == highlighted == {}
      modifies this
      ensures Valid() && Shows(hit)
    {
      var marks := MarkPaths(t, hit);
      RenderMarked(marks);
      ShowMarked(marks);
      forall a: nat | a < |t| && hit(t[a].n)
        ensures a in marks
      {
        UpIsWanted(t, hit, a, 0);
      }
    }
  }
}
