/** The directory tree as a flat table: one record per entry, parents before their children. */
module TreeTable {
  import opened Wrappers
  import opened Sequences

  /** A scanned entry; `children` are those of the sorted, filtered listing, in its order. */
  datatype Entry =
    | File(name: string, path: string, size: nat)
    | Folder(name: string, path: string, children: seq<Entry>)

  /** A table record: name, path and parent index, with child indices or a size. */
  datatype Node =
    | FileNode(n: string, p: string, pa: int, s: nat)
    | FolderNode(n: string, p: string, pa: int, c: seq<nat>)

  function Size(e: Entry): (k: nat)
    ensures k > 0
  {
    match e
    case File(_, _, _) => 1
    case Folder(_, _, children) => 1 + SizeAll(children)
  }

  function SizeAll(es: seq<Entry>): nat {
    if es == [] then 0 else Size(es[0]) + SizeAll(es[1..])
  }

  function Files(e: Entry): nat {
    match e
    case File(_, _, _) => 1
    case Folder(_, _, children) => FilesAll(children)
  }

  function FilesAll(es: seq<Entry>): nat {
    if es == [] then 0 else Files(es[0]) + FilesAll(es[1..])
  }

  /** The table of `e` when its own record lands at index `at`. */
  function Encode(e: Entry, parent: int, at: nat): (t: seq<Node>)
    ensures |t| == Size(e)
  {
    match e
    case File(n, p, s) => [FileNode(n, p, parent, s)]
    case Folder(n, p, children) =>
      [FolderNode(n, p, parent, Roots(children, at + 1))] + EncodeAll(children, at, at + 1)
  }

  function EncodeAll(es: seq<Entry>, parent: int, at: nat): (t: seq<Node>)
    ensures |t| == SizeAll(es)
  {
    if es == [] then [] else Encode(es[0], parent, at) + EncodeAll(es[1..], parent, at + Size(es[0]))
  }

  /** Where the records of the entries `es` begin when the first lands at `at`. */
  function Roots(es: seq<Entry>, at: nat): seq<nat> {
    if es == [] then [] else [at] + Roots(es[1..], at + Size(es[0]))
  }

  lemma {:induction false} SnocSize(es: seq<Entry>, e: Entry)
    ensures SizeAll(es + [e]) == SizeAll(es) + Size(e)
    ensures FilesAll(es + [e]) == FilesAll(es) + Files(e)
  {
    if es != [] {
      assert (es + [e])[1..] == es[1..] + [e];
      SnocSize(es[1..], e);
    } else {
      assert ([e])[1..] == [];
    }
  }

  lemma {:induction false} SnocTable(es: seq<Entry>, e: Entry, parent: int, at: nat)
    ensures Roots(es + [e], at) == Roots(es, at) + [at + SizeAll(es)]
    ensures EncodeAll(es + [e], parent, at) == EncodeAll(es, parent, at) + Encode(e, parent, at + SizeAll(es))
    decreases |es|
  {
    if es != [] {
      var next := at + Size(es[0]);
      assert (es + [e])[0] == es[0] && (es + [e])[1..] == es[1..] + [e];
      SnocTable(es[1..], e, parent, next);
      assert next + SizeAll(es[1..]) == at + SizeAll(es);
      Associative(Encode(es[0], parent, at), EncodeAll(es[1..], parent, next), Encode(e, parent, at + SizeAll(es)));
      Associative([at], Roots(es[1..], next), [at + SizeAll(es)]);
    } else {
      assert ([e])[1..] == [];
    }
  }

  /** The table after a folder's record and the subtrees of its first children. */
  function Partial(before: seq<Node>, n: string, p: string, parent: int, es: seq<Entry>): seq<Node> {
    before + ([FolderNode(n, p, parent, Roots(es, |before| + 1))] + EncodeAll(es, |before|, |before| + 1))
  }

  /** Walking one more child and entering its index in the folder's record extends the table as encoded. */
  lemma ChildIsAppended(before: seq<Node>, n: string, p: string, parent: int, es: seq<Entry>, e: Entry)
    ensures var at := |before|;
            var t := Partial(before, n, p, parent, es);
            var walked := t + Encode(e, at, |t|);
            && walked[at] == FolderNode(n, p, parent, Roots(es, at + 1))
            && walked[at := walked[at].(c := walked[at].c + [|t|])] == Partial(before, n, p, parent, es + [e])
  {
    var at := |before|;
    var t := Partial(before, n, p, parent, es);
    var head := FolderNode(n, p, parent, Roots(es, at + 1));
    PartialOfMore(before, n, p, parent, es, e);
    UpdateAfterAppend(before, head, head.(c := head.c + [|t|]), EncodeAll(es, at, at + 1), Encode(e, at, |t|));
  }

  lemma PartialOfMore(before: seq<Node>, n: string, p: string, parent: int, es: seq<Entry>, e: Entry)
    ensures var at := |before|;
            var size := |Partial(before, n, p, parent, es)|;
            Partial(before, n, p, parent, es + [e])
            == before + ([FolderNode(n, p, parent, Roots(es, at + 1) + [size])] + (EncodeAll(es, at, at + 1) + Encode(e, at, size)))
  {
    SnocTable(es, e, |before|, |before| + 1);
  }

  lemma UpdateAfterAppend<T>(a: seq<T>, was: T, becomes: T, b: seq<T>, c: seq<T>)
    ensures var whole := (a + ([was] + b)) + c;
            whole[|a|] == was && whole[|a| := becomes] == a + ([becomes] + (b + c))
  {
  }

  /** The scan's shared table and counters. */
  class Scanner {
    var nodes: seq<Node>
    var fileCount: nat
    var folderCount: nat

    constructor ()
      ensures nodes == [] && fileCount == 0 && folderCount == 0
    {
      nodes, fileCount, folderCount := [], 0, 0;
    }

    method Walk(e: Entry, parent: int) returns (idx: nat)
      modifies this
      ensures idx == |old(nodes)|
      ensures nodes == old(nodes) + Encode(e, parent, idx)
      ensures fileCount == old(fileCount) + Files(e)
      ensures fileCount + folderCount == old(fileCount) + old(folderCount) + Size(e)
      decreases e
    {
      idx := |nodes|;
      match e
      case Folder(n, p, children) =>
        folderCount := folderCount + 1;
        nodes := nodes + [FolderNode(n, p, parent, [])];
        for i := 0 to |children|
          invariant nodes == Partial(old(nodes), n, p, parent, children[..i])
          invariant fileCount == old(fileCount) + FilesAll(children[..i])
          invariant fileCount + folderCount == old(fileCount) + old(folderCount) + 1 + SizeAll(children[..i])
        {
          var child := Walk(children[i], idx);
          nodes := nodes[idx := nodes[idx].(c := nodes[idx].c + [child])];
          assert children[..i + 1] == children[..i] + [children[i]];
          SnocSize(children[..i], children[i]);
          ChildIsAppended(old(nodes), n, p, parent, children[..i], children[i]);
        }
        assert children[..|children|] == children;
      case File(n, p, s) =>
        fileCount := fileCount + 1;
        nodes := nodes + [FileNode(n, p, parent, s)];
    }
  }

  // ----- reading a table back

  /** The entry whose record is at `i`, following child indices only; None when they do not go forward. */
  function Decode(t: seq<Node>, i: nat): Option<Entry>
    decreases |t| - i, 1, 0
  {
    if i >= |t| then None
    else match t[i]
      case FileNode(n, p, _, s) => Some(File(n, p, s))
      case FolderNode(n, p, _, c) =>
        match DecodeAll(t, i, c)
        case None => None
        case Some(children) => Some(Folder(n, p, children))
  }

  function DecodeAll(t: seq<Node>, i: nat, c: seq<nat>): Option<seq<Entry>>
    requires i < |t|
    decreases |t| - i, 0, |c|
  {
    if c == [] then Some([])
    else if c[0] <= i || c[0] >= |t| then None
    else match (Decode(t, c[0]), DecodeAll(t, i, c[1..]))
      case (Some(e), Some(es)) => Some([e] + es)
      case _ => None
  }

  /** Table `t` holds the records `part` from index `at` on. */
  predicate Holds(t: seq<Node>, at: nat, part: seq<Node>) {
    at + |part| <= |t| && t[at..at + |part|] == part
  }

  lemma HoldsParts(t: seq<Node>, at: nat, a: seq<Node>, b: seq<Node>)
    requires Holds(t, at, a + b)
    ensures Holds(t, at, a) && Holds(t, at + |a|, b)
  {
    assert t[at..at + |a|] == (a + b)[..|a|];
    assert t[at + |a|..at + |a| + |b|] == (a + b)[|a|..];
  }

  lemma {:induction false} DecodeEncoded(t: seq<Node>, e: Entry, parent: int, at: nat)
    requires Holds(t, at, Encode(e, parent, at))
    ensures Decode(t, at) == Some(e)
    decreases e
  {
    assert t[at] == Encode(e, parent, at)[0];
    match e
    case File(_, _, _) =>
    case Folder(n, p, children) =>
      HoldsParts(t, at, [FolderNode(n, p, parent, Roots(children, at + 1))], EncodeAll(children, at, at + 1));
      DecodeEncodedAll(t, at, children, at + 1);
  }

  lemma {:induction false} DecodeEncodedAll(t: seq<Node>, i: nat, es: seq<Entry>, at: nat)
    requires i < at && i < |t| && Holds(t, at, EncodeAll(es, i, at))
    ensures DecodeAll(t, i, Roots(es, at)) == Some(es)
    decreases es
  {
    if es != [] {
      HoldsParts(t, at, Encode(es[0], i, at), EncodeAll(es[1..], i, at + Size(es[0])));
      DecodeEncoded(t, es[0], i, at);
      DecodeEncodedAll(t, i, es[1..], at + Size(es[0]));
      assert [es[0]] + es[1..] == es;
    }
  }

  // ----- parents and children

  /** Child indices increase, lead forward, and each child names this record as its parent. */
  predicate ChildrenLinked(t: seq<Node>, base: nat, i: nat)
    requires base <= i < base + |t|
  {
    t[i - base].FolderNode? ==>
      var c := t[i - base].c;
      && (forall k | 0 <= k < |c| :: i < c[k] < base + |t| && t[c[k] - base].pa == i)
      && (forall j, k | 0 <= j < k < |c| :: c[j] < c[k])
  }

  /** The record's parent is an earlier folder that lists it. */
  predicate ParentLinked(t: seq<Node>, base: nat, i: nat)
    requires base <= i < base + |t|
  {
    var pa := t[i - base].pa;
    base <= pa < i && t[pa - base].FolderNode? && i in t[pa - base].c
  }

  /** The records from `base` on are linked among themselves, but for `roots`, whose parent is `parent`. */
  predicate Linked(t: seq<Node>, base: nat, parent: int, roots: seq<nat>) {
    && (forall i | base <= i < base + |t| :: ChildrenLinked(t, base, i))
    && (forall i | base <= i < base + |t| :: (t[i - base].pa == parent && i in roots) || ParentLinked(t, base, i))
    && (forall k | 0 <= k < |roots| :: base <= roots[k] < base + |t| && t[roots[k] - base].pa == parent)
    && (forall j, k | 0 <= j < k < |roots| :: roots[j] < roots[k])
  }

  /** Two runs of records side by side, hung on the same parent, stay linked. */
  lemma LinkedSideBySide(a: seq<Node>, b: seq<Node>, base: nat, parent: int, ra: seq<nat>, rb: seq<nat>)
    requires Linked(a, base, parent, ra) && Linked(b, base + |a|, parent, rb)
    ensures Linked(a + b, base, parent, ra + rb)
  {
    var t := a + b;
    forall i | base <= i < base + |t|
      ensures ChildrenLinked(t, base, i)
      ensures (t[i - base].pa == parent && i in ra + rb) || ParentLinked(t, base, i)
    {
      if i < base + |a| {
        assert ChildrenLinked(a, base, i);
        assert (a[i - base].pa == parent && i in ra) || ParentLinked(a, base, i);
      } else {
        assert ChildrenLinked(b, base + |a|, i);
        assert (b[i - base - |a|].pa == parent && i in rb) || ParentLinked(b, base + |a|, i);
      }
    }
  }

  /** A folder's record in front of its children's records links them all. */
  lemma LinkedUnderFolder(n: string, p: string, parent: int, t: seq<Node>, at: nat, roots: seq<nat>)
    requires Linked(t, at + 1, at, roots)
    ensures Linked([FolderNode(n, p, parent, roots)] + t, at, parent, [at])
  {
    var whole := [FolderNode(n, p, parent, roots)] + t;
    forall i | at <= i < at + |whole|
      ensures ChildrenLinked(whole, at, i)
      ensures (whole[i - at].pa == parent && i in [at]) || ParentLinked(whole, at, i)
    {
      if i > at {
        assert ChildrenLinked(t, at + 1, i);
        assert (t[i - at - 1].pa == at && i in roots) || ParentLinked(t, at + 1, i);
      }
    }
  }

  lemma {:induction false} EncodedIsLinked(e: Entry, parent: int, at: nat)
    ensures Linked(Encode(e, parent, at), at, parent, [at])
    decreases e
  {
    if e.Folder? {
      EncodedAllIsLinked(e.children, at, at + 1);
      LinkedUnderFolder(e.name, e.path, parent, EncodeAll(e.children, at, at + 1), at, Roots(e.children, at + 1));
    }
  }

  lemma {:induction false} EncodedAllIsLinked(es: seq<Entry>, parent: int, at: nat)
    ensures Linked(EncodeAll(es, parent, at), at, parent, Roots(es, at))
    decreases es
  {
    if es != [] {
      EncodedIsLinked(es[0], parent, at);
      EncodedAllIsLinked(es[1..], parent, at + Size(es[0]));
      LinkedSideBySide(Encode(es[0], parent, at), EncodeAll(es[1..], parent, at + Size(es[0])), at, parent,
                       [at], Roots(es[1..], at + Size(es[0])));
    }
  }

  /** Record 0 is the root; parents come before children, and the two kinds of links mirror each other. */
  predicate WellFormed(t: seq<Node>) {
    t != [] && Linked(t, 0, -1, [0])
  }

  function CountFiles(t: seq<Node>): nat {
    if t == [] then 0 else (if t[0].FileNode? then 1 else 0) + CountFiles(t[1..])
  }

  lemma {:induction false} CountFilesOfParts(a: seq<Node>, b: seq<Node>)
    ensures CountFiles(a + b) == CountFiles(a) + CountFiles(b)
  {
    if a == [] {
      assert a + b == b;
    } else {
      assert (a + b)[1..] == a[1..] + b;
      CountFilesOfParts(a[1..], b);
    }
  }

  lemma {:induction false} FilesAreCounted(e: Entry, parent: int, at: nat)
    ensures CountFiles(Encode(e, parent, at)) == Files(e)
    decreases e
  {
    if e.Folder? {
      FilesOfAllAreCounted(e.children, at, at + 1);
      CountFilesOfParts([FolderNode(e.name, e.path, parent, Roots(e.children, at + 1))], EncodeAll(e.children, at, at + 1));
    }
  }

  lemma {:induction false} FilesOfAllAreCounted(es: seq<Entry>, parent: int, at: nat)
    ensures CountFiles(EncodeAll(es, parent, at)) == FilesAll(es)
    decreases es
  {
    if es != [] {
      FilesAreCounted(es[0], parent, at);
      FilesOfAllAreCounted(es[1..], parent, at + Size(es[0]));
      CountFilesOfParts(Encode(es[0], parent, at), EncodeAll(es[1..], parent, at + Size(es[0])));
    }
  }

  /** The scan: the table decodes to the tree, is well formed, and the counters count its records. */
  method ScanDirectory(root: Entry) returns (nodes: seq<Node>, fileCount: nat, folderCount: nat)
    ensures Decode(nodes, 0) == Some(root)
    ensures WellFormed(nodes)
    ensures fileCount == CountFiles(nodes) && fileCount + folderCount == |nodes|
  {
    var scanner := new Scanner();
    var _ := scanner.Walk(root, -1);
    nodes, fileCount, folderCount := scanner.nodes, scanner.fileCount, scanner.folderCount;
    assert nodes == Encode(root, -1, 0);
    DecodeEncoded(nodes, root, -1, 0);
    EncodedIsLinked(root, -1, 0);
    FilesAreCounted(root, -1, 0);
  }

  /** Two trees with the same table are the same tree. */
  lemma EncodingIsInjective(e: Entry, e': Entry)
    requires Encode(e, -1, 0) == Encode(e', -1, 0)
    ensures e == e'
  {
    DecodeEncoded(Encode(e, -1, 0), e, -1, 0);
    DecodeEncoded(Encode(e', -1, 0), e', -1, 0);
  }
}
