/** Expanding an argfile with the argfiles it references in turn, cycles refused. */
module Argfiles {
  import opened Wrappers
  import opened Sequences

  type Path = string
  type Line = string

  /** The files that exist, each as its lines. */
  type Files = map<Path, seq<Line>>

  /** Where a reference as written leads: joined to the base directory and resolved. */
  type Resolver = string -> Path

  datatype Error = Cycle(chain: seq<Path>) | Missing(path: Path)

  const ARGFILE_PREFIX := '@'

  /** The path a line references, if it is a reference. */
  function ArgfileSource(line: Line): Option<string> {
    if line != "" && line[0] == ARGFILE_PREFIX then Some(line[1..]) else None
  }

  /** A reference is a path behind an '@'. */
  lemma SourceIsBehindPrefix(line: Line, source: string)
    ensures ArgfileSource(line) == Some(source) <==> line == "@" + source
  {
    if line != "" { assert line == [line[0]] + line[1..]; }
    if line == "@" + source { assert line[1..] == source; }
  }

  /** The files a file references. */
  predicate References(files: Files, resolve: Resolver, a: Path, b: Path) {
    a in files && exists l | l in files[a] :: ArgfileSource(l).Some? && resolve(ArgfileSource(l).value) == b
  }

  // ----- the expansion, as a function of the chain above it

  function ChainSet(chain: seq<Path>): set<Path> {
    set p | p in chain
  }

  function Expansion(files: Files, resolve: Resolver, path: Path, chain: seq<Path>): Result<seq<Line>, Error>
    decreases files.Keys - ChainSet(chain), 2, 0
  {
    if path in chain then Failure(Cycle(chain + [path]))
    else if path !in files then Failure(Missing(path))
    else ExpansionOfLines(files, resolve, files[path], path, chain)
  }

  /** The expansion of the lines `lines` of the file `path`, which stands below `chain`. */
  function ExpansionOfLines(files: Files, resolve: Resolver, lines: seq<Line>, path: Path, chain: seq<Path>): Result<seq<Line>, Error>
    requires path in files && path !in chain
    decreases files.Keys - ChainSet(chain), 1, |lines|
  {
    if lines == [] then Success([])
    else
      match ExpansionOfLine(files, resolve, lines[0], path, chain)
      case Failure(e) => Failure(e)
      case Success(tokens) =>
        match ExpansionOfLines(files, resolve, lines[1..], path, chain)
        case Failure(e) => Failure(e)
        case Success(rest) => Success(tokens + rest)
  }

  function ExpansionOfLine(files: Files, resolve: Resolver, line: Line, path: Path, chain: seq<Path>): Result<seq<Line>, Error>
    requires path in files && path !in chain
    decreases files.Keys - ChainSet(chain), 0, 0
  {
    match ArgfileSource(line)
    case None => Success([line])
    case Some(source) =>
      assert path in files.Keys - ChainSet(chain) && path !in files.Keys - ChainSet(chain + [path]);
      Expansion(files, resolve, resolve(source), chain + [path])
  }

  lemma {:induction false} ExpansionOfMoreLines(files: Files, resolve: Resolver, lines: seq<Line>, line: Line, path: Path,
                                                chain: seq<Path>)
    requires path in files && path !in chain && ExpansionOfLines(files, resolve, lines, path, chain).Success?
    ensures var before := ExpansionOfLines(files, resolve, lines, path, chain).value;
            var head := ExpansionOfLine(files, resolve, line, path, chain);
            ExpansionOfLines(files, resolve, lines + [line], path, chain) ==
              if head.Success? then Success(before + head.value) else head
    decreases |lines|
  {
    var head := ExpansionOfLine(files, resolve, line, path, chain);
    if lines == [] {
      assert (lines + [line])[1..] == [];
      assert head.Success? ==> head.value + [] == [] + head.value;
    } else {
      assert (lines + [line])[1..] == lines[1..] + [line];
      ExpansionOfMoreLines(files, resolve, lines[1..], line, path, chain);
      if head.Success? {
        Associative(ExpansionOfLine(files, resolve, lines[0], path, chain).value,
                    ExpansionOfLines(files, resolve, lines[1..], path, chain).value, head.value);
      }
    }
  }

  lemma {:induction false} FailureStays(files: Files, resolve: Resolver, lines: seq<Line>, more: seq<Line>, path: Path,
                                        chain: seq<Path>)
    requires path in files && path !in chain && ExpansionOfLines(files, resolve, lines, path, chain).Failure?
    ensures ExpansionOfLines(files, resolve, lines + more, path, chain) == ExpansionOfLines(files, resolve, lines, path, chain)
    decreases |lines|
  {
    assert (lines + more)[1..] == lines[1..] + more;
    if ExpansionOfLine(files, resolve, lines[0], path, chain).Success? {
      FailureStays(files, resolve, lines[1..], more, path, chain);
    }
  }

  /** The recursion with its token-building loop, which stops at the first failure. */
  method Expand(files: Files, resolve: Resolver, source: string, chain: seq<Path>) returns (r: Result<seq<Line>, Error>)
    ensures r == Expansion(files, resolve, resolve(source), chain)
    decreases files.Keys - ChainSet(chain)
  {
    var path := resolve(source);
    if path in chain { return Failure(Cycle(chain + [path])); }
    if path !in files { return Failure(Missing(path)); }
    var lines := files[path];
    var tokens := [];
    for i := 0 to |lines|
      invariant ExpansionOfLines(files, resolve, lines[..i], path, chain) == Success(tokens)
    {
      assert lines[..i + 1] == lines[..i] + [lines[i]];
      ExpansionOfMoreLines(files, resolve, lines[..i], lines[i], path, chain);
      var nested := ArgfileSource(lines[i]);
      if nested == None {
        tokens := tokens + [lines[i]];
      } else {
        assert path in files.Keys - ChainSet(chain) && path !in files.Keys - ChainSet(chain + [path]);
        var inner := Expand(files, resolve, nested.value, chain + [path]);
        if inner.Failure? {
          Rejoined(lines, i + 1);
          FailureStays(files, resolve, lines[..i + 1], lines[i + 1..], path, chain);
          return inner;
        }
        tokens := tokens + inner.value;
      }
    }
    assert lines[..|lines|] == lines;
    return Success(tokens);
  }

  // ----- when an expansion fails

  /** A walk along references. */
  ghost predicate Walk(files: Files, resolve: Resolver, w: seq<Path>) {
    w != [] && forall i | 0 <= i < |w| - 1 :: References(files, resolve, w[i], w[i + 1])
  }

  /** The walk ends where it has been before. */
  predicate EndsInCycle(w: seq<Path>) {
    w != [] && w[|w| - 1] in w[..|w| - 1]
  }

  /** The walk a failure reports: it leads from `path` to a file that is missing or above it already. */
  ghost predicate Reports(files: Files, resolve: Resolver, path: Path, chain: seq<Path>, e: Error, w: seq<Path>) {
    && Walk(files, resolve, w) && w[0] == path
    && match e
       case Cycle(c) => c == chain + w && EndsInCycle(c)
       case Missing(p) => p == w[|w| - 1] && p !in files
  }

  lemma {:induction false} FailureReports(files: Files, resolve: Resolver, path: Path, chain: seq<Path>) returns (w: seq<Path>)
    requires Expansion(files, resolve, path, chain).Failure?
    ensures Reports(files, resolve, path, chain, Expansion(files, resolve, path, chain).error, w)
    decreases files.Keys - ChainSet(chain), 2, 0
  {
    w := [path];
    if path !in chain && path in files {
      w := FailureOfLinesReports(files, resolve, files[path], path, chain);
    } else if path in chain {
      assert (chain + [path])[..|chain|] == chain;
    }
  }

  lemma {:induction false} FailureOfLinesReports(files: Files, resolve: Resolver, lines: seq<Line>, path: Path, chain: seq<Path>)
      returns (w: seq<Path>)
    requires path in files && path !in chain && (forall l | l in lines :: l in files[path])
    requires ExpansionOfLines(files, resolve, lines, path, chain).Failure?
    ensures Reports(files, resolve, path, chain, ExpansionOfLines(files, resolve, lines, path, chain).error, w)
    decreases files.Keys - ChainSet(chain), 1, |lines|
  {
    if ExpansionOfLine(files, resolve, lines[0], path, chain).Success? {
      w := FailureOfLinesReports(files, resolve, lines[1..], path, chain);
    } else {
      var next := resolve(ArgfileSource(lines[0]).value);
      assert path in files.Keys - ChainSet(chain) && path !in files.Keys - ChainSet(chain + [path]);
      var rest := FailureReports(files, resolve, next, chain + [path]);
      w := [path] + rest;
      assert lines[0] in lines;
      assert References(files, resolve, path, next);
      Associative(chain, [path], rest);
    }
  }

  lemma {:induction false} LinesSucceed(files: Files, resolve: Resolver, lines: seq<Line>, line: Line, path: Path, chain: seq<Path>)
    requires path in files && path !in chain && line in lines
    requires ExpansionOfLines(files, resolve, lines, path, chain).Success?
    ensures ExpansionOfLine(files, resolve, line, path, chain).Success?
    decreases |lines|
  {
    if line != lines[0] {
      LinesSucceed(files, resolve, lines[1..], line, path, chain);
    }
  }

  /** Below a successful expansion every walk stays on files, off the chain and off its own track. */
  lemma {:induction false} SuccessBoundsWalks(files: Files, resolve: Resolver, chain: seq<Path>, w: seq<Path>)
    requires Walk(files, resolve, w) && Expansion(files, resolve, w[0], chain).Success?
    ensures forall i | 0 <= i < |w| :: w[i] in files && w[i] !in chain
    ensures forall i, j | 0 <= i < j < |w| :: w[i] != w[j]
    decreases |w|
  {
    if |w| > 1 {
      var path, tail := w[0], w[1..];
      assert References(files, resolve, path, w[1]);
      var line :| line in files[path] && ArgfileSource(line).Some? && resolve(ArgfileSource(line).value) == w[1];
      LinesSucceed(files, resolve, files[path], line, path, chain);
      forall i | 0 <= i < |tail| - 1
        ensures References(files, resolve, tail[i], tail[i + 1])
      {
        assert References(files, resolve, w[i + 1], w[i + 2]);
      }
      SuccessBoundsWalks(files, resolve, chain + [path], tail);
      forall i | 1 <= i < |w|
        ensures w[i] in files && w[i] !in chain && w[i] != path
      {
        assert w[i] == tail[i - 1] && tail[i - 1] !in chain + [path];
      }
      forall i, j | 0 <= i < j < |w|
        ensures w[i] != w[j]
      {
        assert i > 0 ==> w[i] == tail[i - 1] && w[j] == tail[j - 1];
      }
    }
  }

  /** Reading fails exactly when some walk from the source meets a missing file or closes a cycle. */
  lemma FailsExactlyOnBadWalks(files: Files, resolve: Resolver, path: Path)
    ensures Expansion(files, resolve, path, []).Failure? <==>
            exists w :: Walk(files, resolve, w) && w[0] == path && (EndsInCycle(w) || w[|w| - 1] !in files)
  {
    if Expansion(files, resolve, path, []).Failure? {
      var w := FailureReports(files, resolve, path, []);
      assert [] + w == w;
    } else {
      forall w | Walk(files, resolve, w) && w[0] == path
        ensures !EndsInCycle(w) && w[|w| - 1] in files
      {
        SuccessBoundsWalks(files, resolve, [], w);
      }
    }
  }

  /** When every reference leads to an existing file, reading fails exactly when a cycle can be reached. */
  lemma FailsExactlyOnCycles(files: Files, resolve: Resolver, path: Path)
    requires path in files && forall a, b :: References(files, resolve, a, b) ==> b in files
    ensures Expansion(files, resolve, path, []).Failure? <==>
            exists w :: Walk(files, resolve, w) && w[0] == path && EndsInCycle(w)
  {
    FailsExactlyOnBadWalks(files, resolve, path);
    forall w | Walk(files, resolve, w) && w[0] == path
      ensures w[|w| - 1] in files
    {
      assert |w| > 1 ==> References(files, resolve, w[|w| - 2], w[|w| - 1]);
    }
  }

  // ----- what an expansion yields

  /** The lines of `lines` in order, each reference replaced by its file's, nested at most `depth` deep. */
  function Flat(files: Files, resolve: Resolver, lines: seq<Line>, depth: nat): seq<Line>
    decreases depth, |lines|
  {
    if lines == [] then []
    else
      var head := match ArgfileSource(lines[0])
        case None => [lines[0]]
        case Some(source) =>
          if depth == 0 || resolve(source) !in files then []
          else Flat(files, resolve, files[resolve(source)], depth - 1);
      head + Flat(files, resolve, lines[1..], depth)
  }

  /** A reference at the head of successfully expanded lines was itself expanded, one level down. */
  lemma NestedIsExpanded(files: Files, resolve: Resolver, lines: seq<Line>, path: Path, chain: seq<Path>)
    requires path in files && path !in chain && lines != [] && ArgfileSource(lines[0]).Some?
    requires ExpansionOfLines(files, resolve, lines, path, chain).Success?
    ensures var next := resolve(ArgfileSource(lines[0]).value);
            && next in files && next !in chain + [path]
            && files.Keys - ChainSet(chain + [path]) == files.Keys - ChainSet(chain) - {path}
            && ExpansionOfLines(files, resolve, files[next], next, chain + [path]).Success?
            && ExpansionOfLines(files, resolve, lines[1..], path, chain).Success?
            && ExpansionOfLines(files, resolve, lines, path, chain).value
               == ExpansionOfLines(files, resolve, files[next], next, chain + [path]).value
                  + ExpansionOfLines(files, resolve, lines[1..], path, chain).value
  {
    var next := resolve(ArgfileSource(lines[0]).value);
    assert ExpansionOfLine(files, resolve, lines[0], path, chain) == Expansion(files, resolve, next, chain + [path]);
    assert Expansion(files, resolve, next, chain + [path]).Success?;
  }

  lemma SmallerByOne<T>(s: set<T>, a: T, b: T)
    requires a in s && b in s - {a}
    ensures |s - {a}| == |s| - 1 && |s| >= 2
  {
    assert |s - {a} - {b}| == |s - {a}| - 1;
  }

  /** A successful expansion is the plain in-order flattening, at whatever depth suffices. */
  lemma {:induction false} ExpansionFlattens(files: Files, resolve: Resolver, lines: seq<Line>, path: Path, chain: seq<Path>,
                                             depth: nat)
    requires path in files && path !in chain && ExpansionOfLines(files, resolve, lines, path, chain).Success?
    requires depth + 1 >= |files.Keys - ChainSet(chain)|
    ensures ExpansionOfLines(files, resolve, lines, path, chain) == Success(Flat(files, resolve, lines, depth))
    decreases files.Keys - ChainSet(chain), |lines|
  {
    if lines != [] {
      var nested := ArgfileSource(lines[0]);
      if nested == None {
        PlainLineIsKept(files, resolve, lines, path, chain);
        ExpansionFlattens(files, resolve, lines[1..], path, chain, depth);
      } else {
        var next := resolve(nested.value);
        NestedIsExpanded(files, resolve, lines, path, chain);
        SmallerByOne(files.Keys - ChainSet(chain), path, next);
        ExpansionFlattens(files, resolve, lines[1..], path, chain, depth);
        ExpansionFlattens(files, resolve, files[next], next, chain + [path], depth - 1);
        NestedFlattens(files, resolve, lines, path, chain, depth, next);
      }
    }
  }

  /** If the nested file and the remaining lines are flattened, so are the lines as a whole. */
  lemma NestedFlattens(files: Files, resolve: Resolver, lines: seq<Line>, path: Path, chain: seq<Path>, depth: nat, next: Path)
    requires path in files && path !in chain && lines != [] && ArgfileSource(lines[0]).Some? && depth > 0
    requires next == resolve(ArgfileSource(lines[0]).value) && next in files && next !in chain + [path]
    requires ExpansionOfLines(files, resolve, lines, path, chain).Success?
    requires ExpansionOfLines(files, resolve, files[next], next, chain + [path]) == Success(Flat(files, resolve, files[next], depth - 1))
    requires ExpansionOfLines(files, resolve, lines[1..], path, chain) == Success(Flat(files, resolve, lines[1..], depth))
    ensures ExpansionOfLines(files, resolve, lines, path, chain) == Success(Flat(files, resolve, lines, depth))
  {
    NestedIsExpanded(files, resolve, lines, path, chain);
    FlatOfNested(files, resolve, lines, depth);
  }

  lemma PlainLineIsKept(files: Files, resolve: Resolver, lines: seq<Line>, path: Path, chain: seq<Path>)
    requires path in files && path !in chain && lines != [] && ArgfileSource(lines[0]) == None
    requires ExpansionOfLines(files, resolve, lines, path, chain).Success?
    ensures ExpansionOfLines(files, resolve, lines[1..], path, chain).Success?
    ensures ExpansionOfLines(files, resolve, lines, path, chain)
         == Success([lines[0]] + ExpansionOfLines(files, resolve, lines[1..], path, chain).value)
  {
  }

  lemma FlatOfNested(files: Files, resolve: Resolver, lines: seq<Line>, depth: nat)
    requires lines != [] && ArgfileSource(lines[0]).Some? && depth > 0
    requires resolve(ArgfileSource(lines[0]).value) in files
    ensures Flat(files, resolve, lines, depth)
         == Flat(files, resolve, files[resolve(ArgfileSource(lines[0]).value)], depth - 1) + Flat(files, resolve, lines[1..], depth)
  {
  }

  lemma {:induction false} NoReferenceIsLeft(files: Files, resolve: Resolver, lines: seq<Line>, path: Path, chain: seq<Path>)
    requires path in files && path !in chain && ExpansionOfLines(files, resolve, lines, path, chain).Success?
    ensures forall t | t in ExpansionOfLines(files, resolve, lines, path, chain).value :: ArgfileSource(t) == None
    decreases files.Keys - ChainSet(chain), |lines|
  {
    if lines != [] {
      NoReferenceIsLeft(files, resolve, lines[1..], path, chain);
      var nested := ArgfileSource(lines[0]);
      if nested.Some? {
        var next := resolve(nested.value);
        NestedIsExpanded(files, resolve, lines, path, chain);
        NoReferenceIsLeft(files, resolve, files[next], next, chain + [path]);
      }
    }
  }

  /** Reading an argfile: the flattening without a reference left, or a walk that shows why not. */
  method ReadArgfile(files: Files, resolve: Resolver, source: string) returns (r: Result<seq<Line>, Error>)
    ensures r.Failure? <==>
            exists w :: Walk(files, resolve, w) && w[0] == resolve(source) && (EndsInCycle(w) || w[|w| - 1] !in files)
    ensures r.Failure? ==> exists w :: Reports(files, resolve, resolve(source), [], r.error, w)
    ensures r.Success? ==> resolve(source) in files
    ensures r.Success? ==> forall depth: nat | depth >= |files| :: r.value == Flat(files, resolve, files[resolve(source)], depth)
    ensures r.Success? ==> forall t | t in r.value :: ArgfileSource(t) == None
  {
    r := Expand(files, resolve, source, []);
    var path := resolve(source);
    FailsExactlyOnBadWalks(files, resolve, path);
    if r.Failure? {
      ghost var w := FailureReports(files, resolve, path, []);
    } else {
      NoReferenceIsLeft(files, resolve, files[path], path, []);
      forall depth: nat | depth >= |files|
        ensures r.value == Flat(files, resolve, files[path], depth)
      {
        assert files.Keys - ChainSet([]) == files.Keys;
        ExpansionFlattens(files, resolve, files[path], path, [], depth);
      }
    }
  }
}
