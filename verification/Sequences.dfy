/** Joining and permuting sequences. */
module Sequences {
  lemma Associative<T>(a: seq<T>, b: seq<T>, c: seq<T>)
    ensures (a + b) + c == a + (b + c)
  {
  }

  /** `"".join(parts)` */
  function Join<T>(parts: seq<seq<T>>): seq<T> {
    if parts == [] then [] else parts[0] + Join(parts[1..])
  }

  lemma {:induction false} JoinOfParts<T>(a: seq<seq<T>>, b: seq<seq<T>>)
    ensures Join(a + b) == Join(a) + Join(b)
  {
    if a == [] {
      assert a + b == b;
    } else {
      assert (a + b)[1..] == a[1..] + b;
      JoinOfParts(a[1..], b);
      Associative(a[0], Join(a[1..]), Join(b));
    }
  }

  lemma JoinOfOne<T>(part: seq<T>)
    ensures Join([part]) == part
  {
    assert [part][1..] == [];
  }

  lemma JoinOfMore<T>(parts: seq<seq<T>>, part: seq<T>)
    ensures Join(parts + [part]) == Join(parts) + part
  {
    JoinOfParts(parts, [part]);
    JoinOfOne(part);
  }

  /** A slice past the first part is a slice of the second. */
  lemma SliceOfSecond<T>(a: seq<T>, b: seq<T>, from: nat, to: nat)
    requires from <= to <= |b|
    ensures (a + b)[|a| + from..|a| + to] == b[from..to]
  {
  }

  lemma SliceOfFirst<T>(a: seq<T>, b: seq<T>, from: nat, to: nat)
    requires from <= to <= |a|
    ensures (a + b)[from..to] == a[from..to]
  {
  }

  lemma OneFurther<T>(s: seq<T>, i: nat)
    requires i < |s|
    ensures s[..i + 1] == s[..i] + [s[i]]
  {
  }

  lemma Rejoined<T>(s: seq<T>, k: nat)
    requires k <= |s|
    ensures s == s[..k] + s[k..]
  {
  }

  lemma CancelOne<T>(x: multiset<T>, y: multiset<T>, e: T)
    requires multiset{e} + x == multiset{e} + y
    ensures x == y
  {
    assert x == multiset{e} + x - multiset{e};
    assert y == multiset{e} + y - multiset{e};
  }

  /** The first element of a sequence, found in a permutation of it, leaves permutations behind. */
  lemma FirstElsewhere<T>(a: seq<T>, b: seq<T>) returns (k: nat)
    requires multiset(a) == multiset(b) && a != []
    ensures k < |b| && b[k] == a[0] && b == b[..k] + ([b[k]] + b[k + 1..])
    ensures multiset(a[1..]) == multiset(b[..k] + b[k + 1..])
  {
    assert a[0] in multiset(b);
    k :| 0 <= k < |b| && b[k] == a[0];
    var before, after := b[..k], b[k + 1..];
    assert b == before + ([b[k]] + after);
    assert a == [a[0]] + a[1..];
    assert multiset(b) == multiset{b[k]} + multiset(before + after);
    CancelOne(multiset(a[1..]), multiset(before + after), b[k]);
  }

  /** Exactly the wanted places, in order. */
  ghost predicate InOrder(places: seq<nat>, wanted: set<nat>) {
    && (forall i, j | 0 <= i < j < |places| :: places[i] < places[j])
    && (forall k :: k in places <==> k in wanted)
  }

  lemma OneMoreInOrder(places: seq<nat>, wanted: set<nat>, n: nat)
    requires InOrder(places, wanted) && forall k | k in wanted :: k < n
    ensures InOrder(places + [n], wanted + {n})
  {
    forall i | 0 <= i < |places|
      ensures places[i] < n
    {
      assert places[i] in places;
    }
  }
}
