/** Which top-level `site-packages` entries belong to the optional ML stack alone. */
module MlSplit {
  import opened Characters
  import opened Wrappers

  /** One requirement of a distribution; `active` is its marker's value in the environment. */
  datatype Requirement = Requirement(name: string, active: bool)

  datatype Distribution = Distribution(requires_: seq<Requirement>, files: seq<string>)

  /** The installed distributions by canonical name. */
  type Installed = map<string, Distribution>

  // ----- names

  predicate IsSeparator(c: char) {
    c == '-' || c == '_' || c == '.'
  }

  /** PEP 503, section "Normalized Names": lower case, runs of `-`, `_` and `.` become one `-`. */
  function Canonical(name: string): string {
    if name == "" then ""
    else if !IsSeparator(name[0]) then [LowerChar(name[0])] + Canonical(name[1..])
    else if |name| > 1 && IsSeparator(name[1]) then Canonical(name[1..])
    else ['-'] + Canonical(name[1..])
  }

  lemma {:induction false} CanonicalIsIdempotent(name: string)
    ensures Canonical(Canonical(name)) == Canonical(name)
    ensures name != "" ==> Canonical(name) != ""
    ensures name != "" && !IsSeparator(name[0]) ==> !IsSeparator(Canonical(name)[0])
  {
    if name != "" {
      CanonicalIsIdempotent(name[1..]);
      var rest := Canonical(name[1..]);
      if !IsSeparator(name[0]) {
        assert ([LowerChar(name[0])] + rest)[1..] == rest;
      } else if !(|name| > 1 && IsSeparator(name[1])) {
        assert (['-'] + rest)[1..] == rest;
      }
    }
  }

  /** Neither an upper-case letter, nor a separator other than '-', nor two of those in a row. */
  lemma {:induction false} CanonicalForm(name: string)
    ensures forall c | c in Canonical(name) :: !('A' <= c <= 'Z') && c != '_' && c != '.'
    ensures forall i | 0 < i < |Canonical(name)| :: Canonical(name)[i - 1] != '-' || Canonical(name)[i] != '-'
    ensures name != "" && !IsSeparator(name[0]) ==> Canonical(name)[0] != '-'
  {
    if name != "" {
      CanonicalForm(name[1..]);
    }
  }

  /** What is left after the separators a name starts with. */
  function AfterSeparators(name: string): (rest: string)
    ensures |rest| <= |name| && (name != "" && IsSeparator(name[0]) ==> |rest| < |name|)
  {
    if name != "" && IsSeparator(name[0]) then AfterSeparators(name[1..]) else name
  }

  /** Equal but for the case of letters and for what each run of separators is made of. */
  predicate Alike(a: string, b: string)
    decreases |a|
  {
    if a == "" || b == "" then a == b
    else if IsSeparator(a[0]) then IsSeparator(b[0]) && Alike(AfterSeparators(a), AfterSeparators(b))
    else !IsSeparator(b[0]) && SameLetter(a[0], b[0]) && Alike(a[1..], b[1..])
  }

  lemma {:induction false} CanonicalOfRun(name: string)
    requires name != "" && IsSeparator(name[0])
    ensures Canonical(name) == ['-'] + Canonical(AfterSeparators(name))
    ensures AfterSeparators(name) == "" || !IsSeparator(AfterSeparators(name)[0])
  {
    if |name| > 1 && IsSeparator(name[1]) {
      CanonicalOfRun(name[1..]);
    }
  }

  lemma HeadsAndTails(x: char, xs: string, y: char, ys: string)
    ensures [x] + xs == [y] + ys <==> x == y && xs == ys
  {
    assert ([x] + xs)[1..] == xs && ([y] + ys)[1..] == ys;
    assert ([x] + xs)[0] == x && ([y] + ys)[0] == y;
  }

  /** Names have one canonical name exactly when they are equal but for case and runs of separators. */
  lemma {:induction false} SameCanonicalIffAlike(a: string, b: string)
    ensures Canonical(a) == Canonical(b) <==> Alike(a, b)
    decreases |a|
  {
    CanonicalForm(a);
    CanonicalForm(b);
    if a == "" || b == "" {
      CanonicalIsIdempotent(a);
      CanonicalIsIdempotent(b);
    } else if IsSeparator(a[0]) && IsSeparator(b[0]) {
      CanonicalOfRun(a);
      CanonicalOfRun(b);
      SameCanonicalIffAlike(AfterSeparators(a), AfterSeparators(b));
      HeadsAndTails('-', Canonical(AfterSeparators(a)), '-', Canonical(AfterSeparators(b)));
    } else if !IsSeparator(a[0]) && !IsSeparator(b[0]) {
      SameLetterIffSameLower(a[0], b[0]);
      SameCanonicalIffAlike(a[1..], b[1..]);
      HeadsAndTails(LowerChar(a[0]), Canonical(a[1..]), LowerChar(b[0]), Canonical(b[1..]));
    } else if IsSeparator(a[0]) {
      CanonicalOfRun(a);
    } else {
      CanonicalOfRun(b);
    }
  }

  // ----- the dependency closure

  predicate ActiveNeed(installed: Installed, n: string, q: Requirement) {
    n in installed && q in installed[n].requires_ && q.active
  }

  /** `names` holds the canonical roots and whatever an installed member actively requires. */
  ghost predicate Closed(roots: seq<string>, installed: Installed, names: set<string>) {
    && (forall r | r in roots :: Canonical(r) in names)
    && (forall n, q | n in names && ActiveNeed(installed, n, q) :: Canonical(q.name) in names)
  }

  ghost predicate IsClosure(roots: seq<string>, installed: Installed, names: set<string>) {
    Closed(roots, installed, names) && forall other :: Closed(roots, installed, other) ==> names <= other
  }

  /** Every canonical name the walk can meet. */
  function Universe(roots: seq<string>, installed: Installed): set<string> {
    (set r | r in roots :: Canonical(r)) +
    set n, q | n in installed && q in installed[n].requires_ :: Canonical(q.name)
  }

  /** The active requirement names of one distribution, in order. */
  function Needs(reqs: seq<Requirement>): (names: seq<string>)
    ensures forall n :: n in names <==> exists q :: q in reqs && q.active && q.name == n
  {
    if reqs == [] then []
    else (if reqs[0].active then [reqs[0].name] else []) + Needs(reqs[1..])
  }

  lemma {:induction false} NeedsOfMore(reqs: seq<Requirement>, q: Requirement)
    ensures Needs(reqs + [q]) == Needs(reqs) + if q.active then [q.name] else []
  {
    if reqs != [] {
      assert (reqs + [q])[1..] == reqs[1..] + [q];
      NeedsOfMore(reqs[1..], q);
    } else {
      assert [q][1..] == [];
    }
  }

  /** What is seen and stacked lies in the universe and in every closed set. */
  ghost predicate Bounded(roots: seq<string>, installed: Installed, seen: set<string>, stack: seq<string>) {
    && seen <= Universe(roots, installed)
    && (forall s | s in stack :: Canonical(s) in Universe(roots, installed))
    && (forall other | Closed(roots, installed, other) :: seen <= other && forall s | s in stack :: Canonical(s) in other)
  }

  /** Every root and every need of a seen name is seen or on the stack. */
  ghost predicate Covered(roots: seq<string>, installed: Installed, seen: set<string>, stack: seq<string>) {
    && (forall r | r in roots :: Canonical(r) in seen || r in stack)
    && (forall n, q | n in seen && ActiveNeed(installed, n, q) :: Canonical(q.name) in seen || q.name in stack)
  }

  /** Visiting the top name and stacking its needs keeps what is seen bounded. */
  lemma VisitIsBounded(roots: seq<string>, installed: Installed, seen: set<string>, rest: seq<string>, name: string, needs: seq<string>)
    requires Bounded(roots, installed, seen, rest)
    requires name in Universe(roots, installed) && forall other | Closed(roots, installed, other) :: name in other
    requires forall n | n in needs :: exists q :: ActiveNeed(installed, name, q) && q.name == n
    ensures Bounded(roots, installed, seen + {name}, rest + needs)
  {
  }

  /** One turn of the inner loop after another: the active needs go on the stack, in order. */
  method PushNeeds(stack: seq<string>, reqs: seq<Requirement>) returns (pushed: seq<string>)
    ensures pushed == stack + Needs(reqs)
  {
    pushed := stack;
    for i := 0 to |reqs|
      invariant pushed == stack + Needs(reqs[..i])
    {
      assert reqs[..i + 1] == reqs[..i] + [reqs[i]];
      NeedsOfMore(reqs[..i], reqs[i]);
      if !reqs[i].active { continue; }
      pushed := pushed + [reqs[i].name];
    }
    assert reqs[..|reqs|] == reqs;
  }

  /** The least closed set, however the requirements loop back on one another. */
  method DependencyClosure(roots: seq<string>, installed: Installed) returns (seen: set<string>)
    ensures IsClosure(roots, installed, seen)
  {
    seen := {};
    var stack := roots;
    while stack != []
      invariant Bounded(roots, installed, seen, stack) && Covered(roots, installed, seen, stack)
      decreases Universe(roots, installed) - seen, |stack|
    {
      var top := stack[|stack| - 1];
      var rest := stack[..|stack| - 1];
      assert stack == rest + [top];
      stack := rest;
      var name := Canonical(top);
      if name in seen { continue; }
      ghost var needs: seq<string> := [];
      if name in installed {
        stack := PushNeeds(rest, installed[name].requires_);
        needs := Needs(installed[name].requires_);
      }
      VisitIsBounded(roots, installed, seen, rest, name, needs);
      seen := seen + {name};
      assert stack == rest + needs;
    }
  }

  // ----- top-level entries

  predicate IsSlash(c: char) {
    c == '/' || c == '\\'
  }

  /** The first path component, whichever way the slashes lean. */
  function FirstComponent(path: string): string {
    if path == "" || IsSlash(path[0]) then "" else [path[0]] + FirstComponent(path[1..])
  }

  function TopLevelName(path: string): Option<string> {
    var first := FirstComponent(path);
    if first == "" || first == ".." then None else Some(first)
  }

  lemma {:induction false} FirstComponentIsMaximal(path: string)
    ensures FirstComponent(path) <= path
    ensures forall c | c in FirstComponent(path) :: !IsSlash(c)
    ensures |FirstComponent(path)| < |path| ==> IsSlash(path[|FirstComponent(path)|])
  {
    if path != "" && !IsSlash(path[0]) {
      FirstComponentIsMaximal(path[1..]);
    }
  }

  lemma {:induction false} FirstComponentIsUnique(path: string, name: string)
    requires name <= path && (forall c | c in name :: !IsSlash(c))
    requires |name| < |path| ==> IsSlash(path[|name|])
    ensures FirstComponent(path) == name
  {
    if name != "" {
      assert name == [name[0]] + name[1..];
      FirstComponentIsUnique(path[1..], name[1..]);
    }
  }

  /**
   A path names the top-level entry `name` exactly when it is `name`, or continues it after a slash
   of either kind, and `name` neither is empty or ".." nor holds a slash.
   */
  lemma TopLevelNameIsExact(path: string, name: string)
    ensures TopLevelName(path) == Some(name) <==>
              && name != "" && name != ".." && (forall c | c in name :: !IsSlash(c))
              && name <= path && (|name| < |path| ==> IsSlash(path[|name|]))
  {
    FirstComponentIsMaximal(path);
    if name <= path && (forall c | c in name :: !IsSlash(c)) && (|name| < |path| ==> IsSlash(path[|name|])) {
      FirstComponentIsUnique(path, name);
    }
  }

  /** The entry `name` is installed by distribution `d`. */
  predicate Owns(d: Distribution, name: string) {
    exists f | f in d.files :: TopLevelName(f) == Some(name)
  }

  /** Some installed member of `names` owns the entry. */
  ghost predicate OwnedAmong(installed: Installed, names: set<string>, e: string) {
    exists n :: n in names && Provides(installed, n, e)
  }

  predicate Provides(installed: Installed, n: string, e: string) {
    n in installed && Owns(installed[n], e)
  }

  /** The entries that some installed member of `names` owns. */
  ghost predicate IsEntriesOf(installed: Installed, names: set<string>, entries: set<string>) {
    forall e :: e in entries <==> OwnedAmong(installed, names, e)
  }

  method TopLevelNames(files: seq<string>) returns (names: set<string>)
    ensures forall e :: e in names <==> exists f | f in files :: TopLevelName(f) == Some(e)
  {
    names := {};
    for i := 0 to |files|
      invariant forall e :: e in names <==> exists f | f in files[..i] :: TopLevelName(f) == Some(e)
    {
      assert files[..i + 1] == files[..i] + [files[i]];
      var name := TopLevelName(files[i]);
      if name.Some? { names := names + {name.value}; }
    }
    assert files[..|files|] == files;
  }

  /** The member has no record although one is demanded of it. */
  predicate LacksRecord(installed: Installed, required: set<string>, n: string) {
    n in installed && n in required && installed[n].files == []
  }

  lemma EntriesOfOneMore(installed: Installed, names: set<string>, n: string, entries: set<string>, more: set<string>)
    requires IsEntriesOf(installed, names, entries) && forall e :: e in more <==> Provides(installed, n, e)
    ensures IsEntriesOf(installed, names + {n}, entries + more)
  {
    forall e
      ensures OwnedAmong(installed, names + {n}, e) <==> OwnedAmong(installed, names, e) || Provides(installed, n, e)
    {
      if OwnedAmong(installed, names, e) {
        var m :| m in names && Provides(installed, m, e);
        assert m in names + {n};
      }
    }
  }

  /** Fails on a member without its demanded record, whatever order the members come in. */
  method DistributionEntries(names: set<string>, required: set<string>, installed: Installed)
      returns (r: Result<set<string>, string>)
    ensures r.Failure? <==> exists n :: n in names && LacksRecord(installed, required, n)
    ensures r.Failure? ==> r.error in names && LacksRecord(installed, required, r.error)
    ensures r.Success? ==> IsEntriesOf(installed, names, r.value)
  {
    var entries := {};
    var todo := names;
    while todo != {}
      invariant todo <= names
      invariant forall n | n in names - todo :: !LacksRecord(installed, required, n)
      invariant IsEntriesOf(installed, names - todo, entries)
    {
      var n :| n in todo;
      ghost var done := names - todo;
      todo := todo - {n};
      assert names - todo == done + {n};
      if n !in installed {
        EntriesOfOneMore(installed, done, n, entries, {});
        continue;
      }
      var files := installed[n].files;
      if |files| == 0 && n in required { return Failure(n); }
      var more := TopLevelNames(files);
      EntriesOfOneMore(installed, done, n, entries, more);
      entries := entries + more;
    }
    assert names - todo == names;
    return Success(entries);
  }

  /** The entry is owned by a distribution only the ML roots reach, and by none of the core's. */
  ghost predicate ToMove(installed: Installed, core: set<string>, ml: set<string>, e: string) {
    OwnedAmong(installed, ml - core, e) && !OwnedAmong(installed, core, e)
  }

  /** The entries to move, for the closures of the two sets of roots. */
  ghost predicate IsSplit(coreRoots: seq<string>, mlRoots: seq<string>, installed: Installed,
                          core: set<string>, ml: set<string>, entries: set<string>) {
    && IsClosure(coreRoots, installed, core) && IsClosure(mlRoots, installed, ml)
    && forall e :: e in entries <==> ToMove(installed, core, ml, e)
  }

  /** The split over the closures `core` and `ml`, or a failure exactly for an ML-only member without a record. */
  ghost predicate IsSplitResult(coreRoots: seq<string>, mlRoots: seq<string>, installed: Installed,
                                core: set<string>, ml: set<string>, r: Result<set<string>, string>) {
    && IsClosure(coreRoots, installed, core) && IsClosure(mlRoots, installed, ml)
    && (r.Success? ==> IsSplit(coreRoots, mlRoots, installed, core, ml, r.value))
    && (r.Failure? <==> exists n :: LacksRecord(installed, ml - core, n))
    && (r.Failure? ==> LacksRecord(installed, ml - core, r.error))
  }

  method ComputeMlOnlyEntries(coreRoots: seq<string>, mlRoots: seq<string>, installed: Installed)
      returns (r: Result<set<string>, string>)
    ensures IsResult(coreRoots, mlRoots, installed, r)
  {
    var core := DependencyClosure(coreRoots, installed);
    var ml := DependencyClosure(mlRoots, installed);
    var mlOnly := ml - core;
    var coreEntries := DistributionEntries(core, {}, installed);
    var entries := DistributionEntries(mlOnly, mlOnly, installed);
    r := if entries.Failure? then entries else Success(entries.value - coreEntries.value);
    assert IsSplitResult(coreRoots, mlRoots, installed, core, ml, r);
  }

  /** What `ComputeMlOnlyEntries` promises of its result. */
  ghost predicate IsResult(coreRoots: seq<string>, mlRoots: seq<string>, installed: Installed, r: Result<set<string>, string>) {
    exists core, ml :: IsSplitResult(coreRoots, mlRoots, installed, core, ml, r)
  }

  lemma ClosureGrowsWithRoots(roots: seq<string>, more: seq<string>, installed: Installed, a: set<string>, b: set<string>)
    requires IsClosure(roots, installed, a) && IsClosure(more, installed, b)
    requires forall r | r in roots :: r in more
    ensures a <= b
  {
    assert Closed(roots, installed, b);
  }

  lemma ClosureIsUnique(roots: seq<string>, installed: Installed, a: set<string>, b: set<string>)
    requires IsClosure(roots, installed, a) && IsClosure(roots, installed, b)
    ensures a == b
  {
    ClosureGrowsWithRoots(roots, roots, installed, a, b);
    ClosureGrowsWithRoots(roots, roots, installed, b, a);
  }

  /**
   What a split moves: nothing that a distribution the core roots reach owns, and everything that
   one only the ML roots reach owns and no core one does. It fails exactly when one of the latter
   distributions has no record.
   */
  lemma SplitIsExact(coreRoots: seq<string>, mlRoots: seq<string>, installed: Installed, r: Result<set<string>, string>,
                     core: set<string>, ml: set<string>)
    requires IsResult(coreRoots, mlRoots, installed, r)
    requires IsClosure(coreRoots, installed, core) && IsClosure(mlRoots, installed, ml)
    ensures r.Success? ==> forall n, e | n in core && Provides(installed, n, e) :: e !in r.value
    ensures r.Success? ==> forall n, e | n in ml && Provides(installed, n, e) && !OwnedAmong(installed, core, e) :: e in r.value
    ensures r.Success? ==> forall e | e in r.value :: exists n :: n in ml - core && Provides(installed, n, e)
    ensures r.Success? <==> forall n :: !LacksRecord(installed, ml - core, n)
  {
    var core', ml' :| IsSplitResult(coreRoots, mlRoots, installed, core', ml', r);
    ClosureIsUnique(coreRoots, installed, core, core');
    ClosureIsUnique(mlRoots, installed, ml, ml');
    if r.Success? {
      forall n, e | n in core && Provides(installed, n, e)
        ensures e !in r.value
      {
        assert OwnedAmong(installed, core, e);
      }
      forall n, e | n in ml && Provides(installed, n, e) && !OwnedAmong(installed, core, e)
        ensures e in r.value
      {
        assert n in ml - core;
        assert ToMove(installed, core, ml, e);
      }
    }
  }

  /** Adding core roots only ever shrinks what is moved, and never introduces a failure. */
  lemma SplitShrinksWithCoreRoots(coreRoots: seq<string>, more: seq<string>, mlRoots: seq<string>, installed: Installed,
                                  r: Result<set<string>, string>, r': Result<set<string>, string>)
    requires forall n | n in coreRoots :: n in more
    requires IsResult(coreRoots, mlRoots, installed, r) && IsResult(more, mlRoots, installed, r')
    ensures r.Success? ==> r'.Success? && r'.value <= r.value
  {
    var core, ml :| IsSplitResult(coreRoots, mlRoots, installed, core, ml, r);
    var core', ml' :| IsSplitResult(more, mlRoots, installed, core', ml', r');
    ClosureGrowsWithRoots(coreRoots, more, installed, core, core');
    ClosureIsUnique(mlRoots, installed, ml, ml');
    forall n | LacksRecord(installed, ml' - core', n)
      ensures LacksRecord(installed, ml - core, n)
    {
    }
    forall e | ToMove(installed, core', ml', e)
      ensures ToMove(installed, core, ml, e)
    {
      var n :| n in ml' - core' && Provides(installed, n, e);
      assert n in ml - core;
    }
  }
}
