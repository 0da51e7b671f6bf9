/** Semantic versions: construction, ordering, increments and development versions. */
module SemVer {
  import opened Wrappers

  /** `sys.maxsize` of a 64-bit interpreter: the dev count a released version sorts with. */
  const MAXSIZE: nat := 0x7FFF_FFFF_FFFF_FFFF

  /** dev is 0 for a version that is not a development version. */
  datatype SemanticVersion = SemanticVersion(
    major: nat, minor: nat, patch: nat, preType: Option<string>, pre: Option<nat>, dev: nat)

  /** Truth of the prerelease type: neither None nor empty. */
  predicate Typed(v: SemanticVersion) {
    v.preType.Some? && v.preType.value != ""
  }

  /** The constructor: a type without a number gets number 0, a missing dev count becomes 0. */
  function Make(major: nat, minor: nat, patch: nat,
                preType: Option<string>, pre: Option<nat>, dev: Option<nat>): (v: SemanticVersion)
    ensures Constructed(v)
  {
    var number := if preType.Some? && preType.value != "" && pre.None? then Some(0) else pre;
    SemanticVersion(major, minor, patch, preType, number, if dev.Some? then dev.value else 0)
  }

  /** What the constructor establishes. */
  predicate Constructed(v: SemanticVersion) {
    Typed(v) ==> v.pre.Some?
  }

  /** The types the sort key knows; any other raises KeyError there. */
  predicate KnownType(v: SemanticVersion) {
    v.preType in {None, Some("a"), Some("b"), Some("rc")}
  }

  predicate WellFormed(v: SemanticVersion) {
    KnownType(v) && (v.pre.Some? <==> v.preType.Some?)
  }

  /** The lookup a, b, rc, None -> 'a', 'b', 'rc', 'z', as positions in the order of those strings. */
  function Phase(v: SemanticVersion): nat
    requires KnownType(v)
  {
    match v.preType
    case None => 3
    case Some(t) => if t == "a" then 0 else if t == "b" then 1 else 2
  }

  /** The sort key. A missing prerelease number is -1: it only ever meets another missing one. */
  function SortKey(v: SemanticVersion): (k: seq<int>)
    requires KnownType(v)
    ensures |k| == 7
  {
    var uqDev := if v.dev != 0 && !Typed(v) then 0 else 1;
    [v.major, v.minor, v.patch, uqDev, Phase(v),
     if v.pre.Some? then v.pre.value else -1,
     if v.dev != 0 then v.dev else MAXSIZE]
  }

  /** Comparison of tuples of equal length from position i. */
  predicate LexLess(a: seq<int>, b: seq<int>, i: nat)
    requires |a| == |b|
    decreases |a| - i
  {
    i < |a| && (a[i] < b[i] || (a[i] == b[i] && LexLess(a, b, i + 1)))
  }

  predicate Lt(v: SemanticVersion, w: SemanticVersion)
    requires KnownType(v) && KnownType(w)
  {
    LexLess(SortKey(v), SortKey(w), 0)
  }

  predicate Le(v: SemanticVersion, w: SemanticVersion)
    requires KnownType(v) && KnownType(w)
  {
    v == w || Lt(v, w)
  }

  predicate Ge(v: SemanticVersion, w: SemanticVersion)
    requires KnownType(v) && KnownType(w)
  {
    !Lt(v, w)
  }

  predicate Gt(v: SemanticVersion, w: SemanticVersion)
    requires KnownType(v) && KnownType(w)
  {
    !Le(v, w)
  }

  function Increment(v: SemanticVersion, minor: bool, major: bool): SemanticVersion
    requires Constructed(v)
  {
    var (preType, pre, patch) :=
      if Typed(v) then (v.preType, Some(v.pre.value + 1), v.patch) else (None, None, v.patch + 1);
    if major then Make(v.major + 1, 0, 0, None, None, None)
    else if minor then Make(v.major, v.minor + 1, 0, None, None, None)
    else Make(v.major, v.minor, patch, preType, pre, None)
  }

  function ToDev(v: SemanticVersion, dev: nat): SemanticVersion {
    Make(v.major, v.minor, v.patch, v.preType, v.pre, Some(dev))
  }

  function Decrement(v: SemanticVersion): SemanticVersion {
    var (major, minor, patch) :=
      if v.patch != 0 then (v.major, v.minor, v.patch - 1)
      else if v.minor != 0 then (v.major, v.minor - 1, 9999)
      else (if v.major != 0 then v.major - 1 else 0, 9999, 9999);
    Make(major, minor, patch, None, None, None)
  }

  // ---------------------------------------------------------------- order

  lemma {:induction false} LexTransitive(a: seq<int>, b: seq<int>, c: seq<int>, i: nat)
    requires |a| == |b| == |c|
    requires LexLess(a, b, i) && LexLess(b, c, i)
    ensures LexLess(a, c, i)
    decreases |a| - i
  {
    if a[i] == b[i] == c[i] {
      LexTransitive(a, b, c, i + 1);
    }
  }

  lemma {:induction false} LexTrichotomy(a: seq<int>, b: seq<int>, i: nat)
    requires |a| == |b| && i <= |a|
    ensures !(LexLess(a, b, i) && LexLess(b, a, i))
    ensures LexLess(a, b, i) || LexLess(b, a, i) <==> a[i..] != b[i..]
    decreases |a| - i
  {
    if i < |a| {
      LexTrichotomy(a, b, i + 1);
      assert a[i..] == [a[i]] + a[i + 1..];
      assert b[i..] == [b[i]] + b[i + 1..];
    }
  }

  /** Two versions the order cannot separate: same prerelease, one released, one at dev MAXSIZE. */
  predicate DevCollision(v: SemanticVersion, w: SemanticVersion) {
    && v.preType.Some?
    && v.(dev := 0) == w.(dev := 0)
    && ((v.dev == 0 && w.dev == MAXSIZE) || (v.dev == MAXSIZE && w.dev == 0))
  }

  /** The sort key loses information exactly on a dev collision. */
  lemma SortKeyInjective(v: SemanticVersion, w: SemanticVersion)
    requires WellFormed(v) && WellFormed(w)
    ensures SortKey(v) == SortKey(w) <==> v == w || DevCollision(v, w)
  {
    var a, b := SortKey(v), SortKey(w);
    if a == b {
      assert a[0] == b[0] && a[1] == b[1] && a[2] == b[2] && a[3] == b[3];
      assert a[4] == b[4] && a[5] == b[5] && a[6] == b[6];
      assert v.preType == w.preType;
      assert v.pre == w.pre;
    }
  }

  /** The four comparison operators form one strict total order, up to dev collisions. */
  lemma TotalOrder(v: SemanticVersion, w: SemanticVersion)
    requires WellFormed(v) && WellFormed(w)
    ensures !(Lt(v, w) && Lt(w, v))
    ensures Lt(v, w) || Lt(w, v) <==> v != w && !DevCollision(v, w)
    ensures Le(v, w) && Ge(w, v) <==> (v == w || Lt(v, w))
    ensures Gt(v, w) == Lt(w, v) <==> !DevCollision(v, w)
    ensures Ge(v, w) == Le(w, v) <==> !DevCollision(v, w)
  {
    var a, b := SortKey(v), SortKey(w);
    LexTrichotomy(a, b, 0);
    assert a[0..] == a && b[0..] == b;
    SortKeyInjective(v, w);
  }

  lemma LtTransitive(u: SemanticVersion, v: SemanticVersion, w: SemanticVersion)
    requires KnownType(u) && KnownType(v) && KnownType(w)
    requires Lt(u, v) && Lt(v, w)
    ensures Lt(u, w)
  {
    LexTransitive(SortKey(u), SortKey(v), SortKey(w), 0);
  }

  /** The stages of one release: unqualified dev, alpha, beta, candidate, final. */
  function Stage(v: SemanticVersion): nat
    requires KnownType(v)
  {
    match v.preType
    case None => if v.dev != 0 then 0 else 4
    case Some(t) => if t == "a" then 1 else if t == "b" then 2 else 3
  }

  predicate TripleLess(v: SemanticVersion, w: SemanticVersion) {
    v.major < w.major || (v.major == w.major && (v.minor < w.minor || (v.minor == w.minor && v.patch < w.patch)))
  }

  predicate SameTriple(v: SemanticVersion, w: SemanticVersion) {
    v.major == w.major && v.minor == w.minor && v.patch == w.patch
  }

  /** A development version precedes the release it leads to. */
  predicate DevLess(d: nat, e: nat) {
    d != 0 && (e == 0 || d < e)
  }

  /** The precedence rules in prose form: release number, stage, prerelease number, dev count. */
  predicate Precedes(v: SemanticVersion, w: SemanticVersion)
    requires WellFormed(v) && WellFormed(w)
  {
    || TripleLess(v, w)
    || (SameTriple(v, w) && Stage(v) < Stage(w))
    || (SameTriple(v, w) && v.preType == w.preType && v.preType.Some? && v.pre.value < w.pre.value)
    || (SameTriple(v, w) && Stage(v) == Stage(w) && v.pre == w.pre && DevLess(v.dev, w.dev))
  }

  /** The key comparison, component by component. */
  lemma LtUnfold(v: SemanticVersion, w: SemanticVersion)
    requires KnownType(v) && KnownType(w)
    ensures var a, b := SortKey(v), SortKey(w);
            Lt(v, w) <==>
              || TripleLess(v, w)
              || (SameTriple(v, w) &&
                  (a[3] < b[3] || (a[3] == b[3] &&
                    (a[4] < b[4] || (a[4] == b[4] &&
                      (a[5] < b[5] || (a[5] == b[5] && a[6] < b[6])))))))
  {
    var a, b := SortKey(v), SortKey(w);
    assert !LexLess(a, b, 7);
    assert LexLess(a, b, 6) <==> a[6] < b[6];
    assert LexLess(a, b, 5) <==> a[5] < b[5] || (a[5] == b[5] && LexLess(a, b, 6));
    assert LexLess(a, b, 4) <==> a[4] < b[4] || (a[4] == b[4] && LexLess(a, b, 5));
    assert LexLess(a, b, 3) <==> a[3] < b[3] || (a[3] == b[3] && LexLess(a, b, 4));
    assert LexLess(a, b, 2) <==> a[2] < b[2] || (a[2] == b[2] && LexLess(a, b, 3));
    assert LexLess(a, b, 1) <==> a[1] < b[1] || (a[1] == b[1] && LexLess(a, b, 2));
  }

  /** A prerelease against one of its development versions whose count is past the sentinel of the sort key. */
  predicate PastSentinel(v: SemanticVersion, w: SemanticVersion) {
    && v.preType.Some? && v.(dev := 0) == w.(dev := 0)
    && ((v.dev == 0 && w.dev > MAXSIZE) || (w.dev == 0 && v.dev >= MAXSIZE))
  }

  /** The hand-made sort key implements the precedence rules, except exactly past its sentinel. */
  lemma KeyOrderIsPrecedence(v: SemanticVersion, w: SemanticVersion)
    requires WellFormed(v) && WellFormed(w)
    ensures (Lt(v, w) <==> Precedes(v, w)) <==> !PastSentinel(v, w)
  {
    LtUnfold(v, w);
  }

  // ----------------------------------------------------------- increments

  /** Increments of rising impact give rising versions, all above the one incremented. */
  lemma IncrementChain(v: SemanticVersion)
    requires WellFormed(v)
    ensures WellFormed(Increment(v, false, false)) && WellFormed(Increment(v, true, false))
    ensures WellFormed(Increment(v, false, true))
    ensures Lt(v, Increment(v, false, false))
    ensures Lt(Increment(v, false, false), Increment(v, true, false))
    ensures Lt(Increment(v, true, false), Increment(v, false, true))
    ensures Increment(v, true, true) == Increment(v, false, true)
  {
    var patch, minor, major := Increment(v, false, false), Increment(v, true, false), Increment(v, false, true);
    LtUnfold(v, patch);
    LtUnfold(patch, minor);
    LtUnfold(minor, major);
  }

  /** The numbers of an increment: next prerelease or patch, M.(m+1).0, (M+1).0.0. The dev count goes. */
  lemma IncrementNumbers(v: SemanticVersion)
    requires WellFormed(v)
    ensures Increment(v, false, false) ==
            if v.preType.Some? then SemanticVersion(v.major, v.minor, v.patch, v.preType, Some(v.pre.value + 1), 0)
            else SemanticVersion(v.major, v.minor, v.patch + 1, None, None, 0)
    ensures Increment(v, true, false) == SemanticVersion(v.major, v.minor + 1, 0, None, None, 0)
    ensures forall minor :: Increment(v, minor, true) == SemanticVersion(v.major + 1, 0, 0, None, None, 0)
  {
  }

  /** A development version differs in the dev count only. */
  lemma ToDevNumbers(v: SemanticVersion, dev: nat)
    requires WellFormed(v)
    ensures ToDev(v, dev) == SemanticVersion(v.major, v.minor, v.patch, v.preType, v.pre, dev)
  {
  }

  /** A development version of a release sorts below it, except past the sentinel of a prerelease. */
  lemma DevBelowRelease(v: SemanticVersion, dev: nat)
    requires WellFormed(v) && v.dev == 0 && dev > 0
    ensures WellFormed(ToDev(v, dev))
    ensures Lt(ToDev(v, dev), v) <==> (Typed(v) ==> dev < MAXSIZE)
  {
    LtUnfold(ToDev(v, dev), v);
  }

  /** Development versions of one version are ordered by their counts. */
  lemma DevCountsOrdered(v: SemanticVersion, d: nat, e: nat)
    requires WellFormed(v) && 0 < d && 0 < e
    ensures Lt(ToDev(v, d), ToDev(v, e)) <==> d < e
  {
    LtUnfold(ToDev(v, d), ToDev(v, e));
  }

  /** Taking development versions reverses an order exactly between a prerelease and its final version. */
  lemma ToDevReverses(v: SemanticVersion, w: SemanticVersion, dev: nat)
    requires WellFormed(v) && WellFormed(w) && dev > 0
    requires Lt(v, w)
    ensures Lt(ToDev(w, dev), ToDev(v, dev)) <==> SameTriple(v, w) && Typed(v) && !Typed(w)
  {
    LtUnfold(v, w);
    LtUnfold(ToDev(w, dev), ToDev(v, dev));
  }

  /** A dev version of any increment is above the version incremented. */
  lemma DevOfIncrementAbove(v: SemanticVersion, minor: bool, major: bool, dev: nat)
    requires WellFormed(v) && dev > 0
    ensures WellFormed(ToDev(Increment(v, minor, major), dev))
    ensures Lt(v, ToDev(Increment(v, minor, major), dev))
  {
    LtUnfold(v, ToDev(Increment(v, minor, major), dev));
  }

  // ------------------------------------------------------------ decrement

  /** The base-10000 reading of the release number. */
  function Reading(v: SemanticVersion): nat {
    (v.major * 10000 + v.minor) * 10000 + v.patch
  }

  predicate Digits10000(v: SemanticVersion) {
    v.minor <= 9999 && v.patch <= 9999
  }

  /** On bounded release numbers the order is the order of readings. */
  lemma ReadingOrder(v: SemanticVersion, w: SemanticVersion)
    requires Digits10000(v) && Digits10000(w)
    ensures Reading(v) < Reading(w) <==> TripleLess(v, w)
    ensures Reading(v) == Reading(w) <==> SameTriple(v, w)
  {
  }

  /** Decrementing subtracts one from the reading; 0.0.0 wraps to 0.9999.9999. */
  lemma DecrementReading(v: SemanticVersion)
    requires Digits10000(v)
    ensures Digits10000(Decrement(v)) && WellFormed(Decrement(v)) && Decrement(v).dev == 0
    ensures Reading(Decrement(v)) == if Reading(v) == 0 then 9999_9999 else Reading(v) - 1
  {
  }

  /** No bounded release lies strictly between a release and its decrement. */
  lemma DecrementAdjacent(v: SemanticVersion, w: SemanticVersion)
    requires Digits10000(v) && Digits10000(w) && Reading(v) > 0
    requires WellFormed(w) && !Typed(w) && w.dev == 0
    requires WellFormed(v) && !Typed(v) && v.dev == 0
    ensures Lt(Decrement(v), v)
    ensures !(Lt(Decrement(v), w) && Lt(w, v))
  {
    DecrementReading(v);
    ReadingOrder(Decrement(v), w);
    ReadingOrder(w, v);
    ReadingOrder(Decrement(v), v);
    LtUnfold(Decrement(v), v);
    LtUnfold(Decrement(v), w);
    LtUnfold(w, v);
  }
}
