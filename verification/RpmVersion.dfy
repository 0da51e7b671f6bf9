/** The RPM serialisation lowers prereleases below the release before; it still names each version uniquely. */
module RpmVersion {
  import opened Text
  import opened SemVer
  import opened PipVersion
  import opened PipVersionProofs

  predicate IsPre(v: SemanticVersion) {
    Typed(v) || v.dev != 0
  }

  /** The numbers the RPM string shows. */
  function Shown(v: SemanticVersion): SemanticVersion {
    if IsPre(v) then Decrement(v) else v
  }

  function RpmParts(v: SemanticVersion): seq<string>
    requires Printable(v)
  {
    Numbers(Shown(v)) + Suffixed(v, "", 0)
  }

  lemma RpmStringIsJoin(v: SemanticVersion)
    requires Printable(v)
    ensures RpmString(v) == Join(RpmParts(v), '.')
  {
    BriefIsJoin(Shown(v));
    PrintedIsJoin(Numbers(Shown(v)), v, "", 0);
    assert RpmString(v) == RpmString(v) + "";
  }

  lemma RpmPartsSplit(v: SemanticVersion)
    requires Printable(v)
    ensures Split(RpmString(v), '.') == RpmParts(v)
  {
    RpmStringIsJoin(v);
    SegmentsAreClean(v, "", 0);
    var parts := RpmParts(v);
    forall i | 0 <= i < |parts|
      ensures '.' !in parts[i]
    {
      assert i >= 3 ==> parts[i] == Suffixed(v, "", 0)[i - 3];
    }
    SplitJoin(parts, '.');
  }

  /** A prerelease segment gives back its type and number. */
  lemma TypeSegmentInjective(t: string, n: nat, u: string, m: nat)
    requires t in {"a", "b", "rc"} && u in {"a", "b", "rc"}
    requires t + Numeral(n) == u + Numeral(m)
    ensures t == u && n == m
  {
    assert (t + Numeral(n))[0] == (u + Numeral(m))[0];
    assert t[0] == u[0];
    assert (t + Numeral(n))[|t|..] == Numeral(n);
    assert (u + Numeral(m))[|u|..] == Numeral(m);
    assert NumeralValue(Numeral(n)) == NumeralValue(Numeral(m));
  }

  lemma DevSegmentInjective(d: nat, e: nat)
    requires "dev" + Numeral(d) == "dev" + Numeral(e)
    ensures d == e
  {
    assert ("dev" + Numeral(d))[3..] == Numeral(d);
    assert ("dev" + Numeral(e))[3..] == Numeral(e);
    assert NumeralValue(Numeral(d)) == NumeralValue(Numeral(e));
  }

  /** The segments after the numbers determine the prerelease and the dev count. */
  lemma SuffixInjective(v: SemanticVersion, w: SemanticVersion)
    requires WellFormed(v) && WellFormed(w)
    requires Suffixed(v, "", 0) == Suffixed(w, "", 0)
    ensures v.preType == w.preType && v.pre == w.pre && v.dev == w.dev
  {
    var s, t := Suffixed(v, "", 0), Suffixed(w, "", 0);
    SuffixShape(v);
    SuffixShape(w);
    if s != [] && s[0][0] != 'd' {
      TypeSegmentInjective(v.preType.value, v.pre.value, w.preType.value, w.pre.value);
    }
    if v.dev != 0 && w.dev != 0 {
      assert s[|s| - 1] == t[|t| - 1];
      DevSegmentInjective(v.dev, w.dev);
    }
  }

  lemma SuffixShape(v: SemanticVersion)
    requires WellFormed(v)
    ensures var s := Suffixed(v, "", 0);
            && |s| == (if Typed(v) then 1 else 0) + (if v.dev != 0 then 1 else 0)
            && (Typed(v) ==> s[0] == v.preType.value + Numeral(v.pre.value) && s[0][0] in {'a', 'b', 'r'})
            && (v.dev != 0 ==> s[|s| - 1] == "dev" + Numeral(v.dev) && s[|s| - 1][0] == 'd')
  {
    if Typed(v) {
      var t, n := v.preType.value, Numeral(v.pre.value);
      assert "" + t + n == t + n;
      assert (t + n)[0] == t[0];
    }
    var d: string := "dev" + Numeral(v.dev);
    assert d[0] == 'd';
  }

  /** The one pair of release numbers with the same decrement. */
  predicate WrapsTogether(v: SemanticVersion, w: SemanticVersion) {
    || (Reading(v) == 0 && Reading(w) == 1_0000_0000)
    || (Reading(w) == 0 && Reading(v) == 1_0000_0000)
  }

  /** The same prerelease on 0.0.0 and on 1.0.0. */
  predicate RpmCollision(v: SemanticVersion, w: SemanticVersion) {
    IsPre(v) && WrapsTogether(v, w) && v.preType == w.preType && v.pre == w.pre && v.dev == w.dev
  }

  /** Decrementing is injective within four digits, apart from the wrap. */
  lemma DecrementInjective(v: SemanticVersion, w: SemanticVersion)
    requires Digits10000(v) && Digits10000(w)
    ensures SameTriple(Decrement(v), Decrement(w)) <==> SameTriple(v, w) || WrapsTogether(v, w)
  {
    DecrementReading(v);
    DecrementReading(w);
    ReadingOrder(v, w);
    ReadingOrder(Decrement(v), Decrement(w));
  }

  lemma RpmStringDetermines(v: SemanticVersion, w: SemanticVersion)
    requires WellFormed(v) && WellFormed(w)
    requires RpmString(v) == RpmString(w)
    ensures SameTriple(Shown(v), Shown(w))
    ensures v.preType == w.preType && v.pre == w.pre && v.dev == w.dev
  {
    RpmPartsSplit(v);
    RpmPartsSplit(w);
    var p, q := RpmParts(v), RpmParts(w);
    assert p[3..] == Suffixed(v, "", 0) && q[3..] == Suffixed(w, "", 0);
    SuffixInjective(v, w);
    assert p[..3] == Numbers(Shown(v)) && q[..3] == Numbers(Shown(w));
    NumbersInjective(Shown(v), Shown(w));
  }

  lemma RpmStringOfCollision(v: SemanticVersion, w: SemanticVersion)
    requires WellFormed(v) && WellFormed(w) && Digits10000(v) && Digits10000(w)
    requires RpmCollision(v, w)
    ensures RpmString(v) == RpmString(w)
  {
    DecrementInjective(v, w);
    assert BriefString(Decrement(v)) == BriefString(Decrement(w));
  }

  /**
   * With minor and patch within four digits, two versions share an RPM string only if they are equal, or are
   * the same prerelease of 0.0.0 and of 1.0.0.
   */
  lemma RpmStringInjective(v: SemanticVersion, w: SemanticVersion)
    requires WellFormed(v) && WellFormed(w) && Digits10000(v) && Digits10000(w)
    ensures RpmString(v) == RpmString(w) <==> v == w || RpmCollision(v, w)
  {
    if RpmString(v) == RpmString(w) {
      RpmStringDetermines(v, w);
      DecrementInjective(v, w);
    } else if RpmCollision(v, w) {
      RpmStringOfCollision(v, w);
    }
  }

  lemma NumbersInjective(v: SemanticVersion, w: SemanticVersion)
    requires Numbers(v)[0] == Numbers(w)[0] && Numbers(v)[1] == Numbers(w)[1] && Numbers(v)[2] == Numbers(w)[2]
    ensures SameTriple(v, w)
  {
    assert NumeralValue(Numeral(v.major)) == NumeralValue(Numeral(w.major));
    assert NumeralValue(Numeral(v.minor)) == NumeralValue(Numeral(w.minor));
    assert NumeralValue(Numeral(v.patch)) == NumeralValue(Numeral(w.patch));
  }
}
