/** Every spelling older releases produced means the same version as its canonical form. */
module PipVersionLegacy {
  import opened Wrappers
  import opened Text
  import opened SemVer
  import opened PipVersion
  import opened PipVersionProofs

  // -------------------------------------------------- re-printing a parse

  lemma ParseTypeIsAlphabetic(segment: string)
    ensures match ParseType(segment)
            case None => true
            case Some((t, n)) => t != "" && forall c | c in t :: IsAlpha(c)
  {
    var s := segment[|TakeDigits(segment)|..];
    var t := TakeAlpha(s);
    if t == "" && s != "" {
      assert s[0] == segment[|TakeDigits(segment)|];
      assert s[|t|..] == s;
    }
  }

  lemma RemainderIsPrintable(remainder: seq<string>)
    ensures match ParseRemainder(remainder)
            case None => true
            case Some(tail) =>
              && (tail.pre.Some? <==> tail.preType.Some?)
              && (tail.preType.Some? ==> tail.preType.value != "" && forall c | c in tail.preType.value :: IsAlpha(c))
  {
    if remainder != [] {
      ParseTypeIsAlphabetic(remainder[0]);
    }
  }

  /** Whatever the parser accepts can be printed. */
  lemma ParsedIsPrintable(s: string)
    requires ParsePip(s).Some?
    ensures Printable(ParsePip(s).value)
  {
    var components := Normalise(Split(DropLeadingV(s), '.')).value;
    RemainderIsPrintable(components[3..]);
    AssembleIsPrintable(NumeralValue(components[0]), NumeralValue(components[1]), NumeralValue(components[2]),
                        ParseRemainder(components[3..]).value);
  }

  lemma AssembleIsPrintable(major: nat, minor: nat, patch: nat, tail: Tail)
    requires tail.pre.Some? <==> tail.preType.Some?
    requires tail.preType.Some? ==> tail.preType.value != "" && forall c | c in tail.preType.value :: IsAlpha(c)
    ensures Assemble(major, minor, patch, tail).Some? ==> Printable(Assemble(major, minor, patch, tail).value)
  {
  }

  /** Re-printing any accepted string reaches a fixed point at once. */
  lemma ReprintFixedPoint(s: string)
    requires ParsePip(s).Some?
    ensures var v := ParsePip(s).value;
            && Constructed(v)
            && ParsePip(ReleaseString(v)) == Some(v)
  {
    ParsedIsPrintable(s);
    RoundTrip(ParsePip(s).value);
  }

  // ------------------------------------------------------ legacy spellings

  predicate LegacyType(t: string) {
    t in {"a", "b", "rc"}
  }

  /** The prerelease the digit strings denote. */
  function Prerelease(major: string, minor: string, patch: string, t: string, number: string): SemanticVersion
    requires AllDigits(major) && AllDigits(minor) && AllDigits(patch) && AllDigits(number)
  {
    SemanticVersion(NumeralValue(major), NumeralValue(minor), NumeralValue(patch),
                    Some(t), Some(NumeralValue(number)), 0)
  }

  lemma LegacySegment(zero: string, t: string, number: string)
    requires zero in {"", "0"} && LegacyType(t) && AllDigits(number)
    ensures var segment := zero + t + number;
            && '.' !in segment && !AllDigits(segment)
            && segment != "" && segment[0] in {'0', 'a', 'b', 'r'}
            && ParseType(segment) == Some((t, NumeralValue(number)))
  {
    hide NumeralValue;
    var segment := zero + t + number;
    assert segment[|zero|] == t[0];
    ParseTypeOf(zero, t, number);
  }

  lemma ParseSegment(segment: string, t: string, n: nat)
    requires !AllDigits(segment) && segment != "" && segment[0] in {'0', 'a', 'b', 'r'}
    requires ParseType(segment) == Some((t, n))
    ensures ParseRemainder([segment]) == Some(Tail(Some(t), Some(n), Suffix(None, None)))
  {
    assert [segment][1..] == [];
  }

  lemma ParseFourParts(input: seq<string>, a: string, b: string, c: string, segment: string, tail: Tail)
    requires Normalise(input) == Some([a, b, c, segment])
    requires ParseRemainder([segment]) == Some(tail)
    ensures AllDigits(a) && AllDigits(b) && AllDigits(c)
    ensures ParseComponents(input) == Assemble(NumeralValue(a), NumeralValue(b), NumeralValue(c), tail)
  {
    hide NumeralValue;
    var components := [a, b, c, segment];
    assert components[3..] == [segment];
    assert components[0] == a && components[1] == b && components[2] == c;
    ParseComponentsOf(input, components, tail);
  }

  /** Three numbers and one prerelease segment after normalisation give the prerelease. */
  lemma NormalisedPrerelease(input: seq<string>, a: string, b: string, c: string, zero: string, t: string, n: string)
    requires AllDigits(a) && AllDigits(b) && AllDigits(c) && AllDigits(n)
    requires zero in {"", "0"} && LegacyType(t)
    requires Normalise(input) == Some([a, b, c, zero + t + n])
    ensures ParseComponents(input) == Some(Prerelease(a, b, c, t, n))
  {
    hide NumeralValue;
    var segment := zero + t + n;
    var tail := Tail(Some(t), Some(NumeralValue(n)), Suffix(None, None));
    assert ParseRemainder([segment]) == Some(tail) by {
      LegacySegment(zero, t, n);
      ParseSegment(segment, t, NumeralValue(n));
    }
    ParseFourParts(input, a, b, c, segment, tail);
  }

  lemma ParseJoined(input: seq<string>, v: SemanticVersion)
    requires |input| > 0 && AllDigits(input[0]) && forall i | 0 <= i < |input| :: '.' !in input[i]
    requires ParseComponents(input) == Some(v)
    ensures ParsePip(Join(input, '.')) == Some(v)
  {
    ParsePipOfJoin(input);
  }

  /** The canonical form M.m.p.0Tn. */
  lemma CanonicalPrerelease(a: string, b: string, c: string, t: string, n: string)
    requires AllDigits(a) && AllDigits(b) && AllDigits(c) && AllDigits(n) && LegacyType(t)
    ensures ParsePip(Join([a, b, c, "0" + t + n], '.')) == Some(Prerelease(a, b, c, t, n))
  {
    hide Normalise, ParseRemainder, ParseComponents, ParsePip, ParseType, NumeralValue;
    LegacySegment("0", t, n);
    NormaliseNumbers([a, b, c], ["0" + t + n]);
    assert [a, b, c] + ["0" + t + n] == [a, b, c, "0" + t + n];
    NormalisedPrerelease([a, b, c, "0" + t + n], a, b, c, "0", t, n);
    ParseJoined([a, b, c, "0" + t + n], Prerelease(a, b, c, t, n));
  }

  /** M.m.pTn is M.m.p.0Tn. */
  lemma AttachedPrerelease(a: string, b: string, c: string, t: string, n: string)
    requires AllDigits(a) && AllDigits(b) && AllDigits(c) && AllDigits(n) && LegacyType(t)
    ensures ParsePip(Join([a, b, c + t + n], '.')) == Some(Prerelease(a, b, c, t, n))
  {
    hide Normalise, ParseRemainder, ParseComponents, ParsePip, ParseType, NumeralValue;
    assert c + t + n == c + (t + n);
    assert "" + t + n == t + n;
    assert (t + n)[0] == t[0];
    NormaliseMixed([a, b], c, t + n);
    assert [a, b] + [c] + Zeros(0) + [t + n] == [a, b, c, "" + t + n];
    assert [a, b] + [c + (t + n)] == [a, b, c + t + n];
    LegacySegment("", t, n);
    NormalisedPrerelease([a, b, c + t + n], a, b, c, "", t, n);
    ParseJoined([a, b, c + t + n], Prerelease(a, b, c, t, n));
  }

  /** M.m.p.Tn is M.m.p.0Tn. */
  lemma BarePrerelease(a: string, b: string, c: string, t: string, n: string)
    requires AllDigits(a) && AllDigits(b) && AllDigits(c) && AllDigits(n) && LegacyType(t)
    ensures ParsePip(Join([a, b, c, t + n], '.')) == Some(Prerelease(a, b, c, t, n))
  {
    hide Normalise, ParseRemainder, ParseComponents, ParsePip, ParseType, NumeralValue;
    assert "" + t + n == t + n;
    LegacySegment("", t, n);
    NormaliseNumbers([a, b, c], [t + n]);
    assert [a, b, c] + [t + n] == [a, b, c, "" + t + n];
    NormalisedPrerelease([a, b, c, t + n], a, b, c, "", t, n);
    ParseJoined([a, b, c, t + n], Prerelease(a, b, c, t, n));
  }

  lemma ShortNormalises(a: string, b: string, t: string, n: string)
    requires AllDigits(a) && AllDigits(b) && AllDigits(n) && LegacyType(t)
    ensures Normalise([a, b + t + n]) == Some([a, b, "0", "" + t + n])
  {
    assert b + t + n == b + (t + n);
    assert "" + t + n == t + n;
    assert (t + n)[0] == t[0];
    NormaliseMixed([a], b, t + n);
    assert [a] + [b] + Zeros(1) + [t + n] == [a, b, "0", t + n];
    assert [a] + [b + (t + n)] == [a, b + t + n];
  }

  /** M.mTn is M.m.0.0Tn. */
  lemma ShortPrerelease(a: string, b: string, t: string, n: string)
    requires AllDigits(a) && AllDigits(b) && AllDigits(n) && LegacyType(t)
    ensures ParsePip(Join([a, b + t + n], '.')) == Some(Prerelease(a, b, Numeral(0), t, n))
  {
    hide Normalise, ParseRemainder, ParseComponents, ParsePip, ParseType, NumeralValue;
    ShortNormalises(a, b, t, n);
    assert Numeral(0) == "0";
    assert '.' !in b + t + n by {
      LegacySegment("", t, n);
      assert b + t + n == b + ("" + t + n);
    }
    NormalisedPrerelease([a, b + t + n], a, b, Numeral(0), "", t, n);
    ParseJoined([a, b + t + n], Prerelease(a, b, Numeral(0), t, n));
  }

  lemma ZeroCountRejected(zeros: string, rest: seq<string>)
    requires AllDigits(zeros) && NumeralValue(zeros) == 0
    ensures ParseRemainder([zeros] + rest) == None
  {
    ZeroNumeral(zeros);
    TakeDigitsPrefix(zeros, "");
    assert zeros + "" == zeros;
    assert ParseType(zeros) == None;
  }

  lemma {:induction false} ZeroNumeral(s: string)
    requires AllDigits(s) && NumeralValue(s) == 0
    ensures s[0] == '0'
  {
    if |s| > 1 {
      ZeroNumeral(s[..|s| - 1]);
    }
  }

  lemma DevRemainder(n: string)
    requires AllDigits(n)
    ensures ParseRemainder(["dev" + n]) == Some(Tail(None, None, Suffix(Some(NumeralValue(n)), None)))
    ensures !AllDigits("dev" + n) && '.' !in "dev" + n
  {
    var d: string := "dev" + n;
    assert d[0] == 'd';
    ParseDevSegment(n, Suffix(None, None));
  }

  /** A segment behind three or four numbers is left alone. */
  lemma NumbersThenSegment(numbers: seq<string>, segment: string)
    requires |numbers| >= 3 && (forall i | 0 <= i < |numbers| :: AllDigits(numbers[i])) && !AllDigits(segment)
    ensures Normalise(numbers + [segment]) == Some(numbers + [segment])
  {
    NormaliseNumbers(numbers, [segment]);
  }

  /** Three numbers and one further segment. */
  lemma NumbersAndSegment(a: string, b: string, c: string, d: string, tail: Tail)
    requires AllDigits(a) && AllDigits(b) && AllDigits(c)
    requires !AllDigits(d) && '.' !in d && ParseRemainder([d]) == Some(tail)
    ensures ParsePip(Join([a, b, c, d], '.')) == Assemble(NumeralValue(a), NumeralValue(b), NumeralValue(c), tail)
  {
    hide Normalise, ParseRemainder, ParseComponents, ParsePip, Assemble, NumeralValue;
    NumbersThenSegment([a, b, c], d);
    assert [a, b, c] + [d] == [a, b, c, d];
    ParseFourParts([a, b, c, d], a, b, c, d, tail);
    ParsePipOfJoin([a, b, c, d]);
  }

  /** The canonical form M.m.p.devN. */
  lemma CanonicalDev(a: string, b: string, c: string, n: string)
    requires AllDigits(a) && AllDigits(b) && AllDigits(c) && AllDigits(n)
    ensures ParsePip(Join([a, b, c, "dev" + n], '.')) ==
            Some(SemanticVersion(NumeralValue(a), NumeralValue(b), NumeralValue(c), None, None, NumeralValue(n)))
  {
    hide ParseRemainder, ParsePip, Join, NumeralValue;
    var d: string := "dev" + n;
    DevRemainder(n);
    NumbersAndSegment(a, b, c, d, Tail(None, None, Suffix(Some(NumeralValue(n)), None)));
  }

  lemma CountRemainder(n: string, g: string)
    requires AllDigits(n)
    ensures ParseRemainder([n, g]) ==
            if NumeralValue(n) == 0 then None else Some(Tail(None, None, Suffix(Some(NumeralValue(n)), None)))
  {
    if NumeralValue(n) == 0 {
      ZeroCountRejected(n, [g]);
      assert [n] + [g] == [n, g];
    }
  }

  /** A count and a hash after three numbers. */
  lemma CountAndHash(a: string, b: string, c: string, n: string, hash: string)
    requires AllDigits(a) && AllDigits(b) && AllDigits(c) && AllDigits(n) && '.' !in hash
    ensures ParsePip(Join([a, b, c, n, "g" + hash], '.')) ==
            if NumeralValue(n) == 0 then None
            else Some(SemanticVersion(NumeralValue(a), NumeralValue(b), NumeralValue(c), None, None, NumeralValue(n)))
  {
    hide Normalise, ParseRemainder, ParsePip, NumeralValue;
    var g: string := "g" + hash;
    assert g[0] == 'g';
    NumbersThenSegment([a, b, c, n], g);
    assert [a, b, c, n] + [g] == [a, b, c, n, g];
    assert [a, b, c, n, g][3..] == [n, g];
    CountRemainder(n, g);
    ParsePipOfJoin([a, b, c, n, g]);
  }

  /** M.m.p.N.gHASH is M.m.p.devN when N is at least 1, and is rejected when N is 0. */
  lemma OldDevFormat(a: string, b: string, c: string, n: string, hash: string)
    requires AllDigits(a) && AllDigits(b) && AllDigits(c) && AllDigits(n) && '.' !in hash
    ensures ParsePip(Join([a, b, c, n, "g" + hash], '.')) ==
            if NumeralValue(n) == 0 then None else ParsePip(Join([a, b, c, "dev" + n], '.'))
    ensures NumeralValue(n) != 0 ==>
              ParsePip(Join([a, b, c, "dev" + n], '.')) ==
              Some(SemanticVersion(NumeralValue(a), NumeralValue(b), NumeralValue(c), None, None, NumeralValue(n)))
  {
    hide ParsePip;
    CanonicalDev(a, b, c, n);
    CountAndHash(a, b, c, n, hash);
  }

  /** v.postK is the K-th development version of v's increment; it lies between the two. */
  lemma PostIsDevOfIncrement(v: SemanticVersion, k: nat)
    requires WellFormed(v) && k >= 1
    ensures ParsePip(ReleaseString(v) + ".post" + Numeral(k)) == Some(ToDev(Increment(v, false, false), k))
    ensures var between, next := ToDev(Increment(v, false, false), k), Increment(v, false, false);
            && WellFormed(between) && WellFormed(next)
            && Lt(v, between)
            && (Lt(between, next) <==> (Typed(v) ==> k < MAXSIZE))
  {
    hide NumeralValue;
    ParsePrinted(v, k);
    assert ReleaseString(v) + ".post" + Numeral(k) == ReleaseString(v) + PostPart(k);
    DevOfIncrementAbove(v, false, false, k);
    DevBelowRelease(Increment(v, false, false), k);
  }

  // ------------------------------------------------------ prefixes and short forms

  /** A leading v in either case is ignored, however many there are. */
  lemma LeadingV(s: string)
    ensures ParsePip(['v'] + s) == ParsePip(s) && ParsePip(['V'] + s) == ParsePip(s)
  {
    assert (['v'] + s)[1..] == s && (['V'] + s)[1..] == s;
  }

  /** Anything else than a digit in front, or nothing at all, is an error. */
  lemma NoDigitRejected(s: string)
    requires s == "" || (s[0] !in {'v', 'V'} && !('0' <= s[0] <= '9'))
    ensures ParsePip(s) == None
  {
  }

  lemma ZerosAre(n: nat)
    requires n <= 2
    ensures Zeros(n) == if n == 0 then [] else if n == 1 then ["0"] else ["0", "0"]
  {
  }

  /** One, two or three numbers are padded with zeros at the end. */
  lemma NumbersNormalise(numbers: seq<string>)
    requires 1 <= |numbers| <= 3 && forall i | 0 <= i < |numbers| :: AllDigits(numbers[i])
    ensures Normalise(numbers) == Some(numbers + Zeros(3 - |numbers|))
  {
    AllDigitComponents(numbers);
    assert numbers[|numbers|..] == [];
    assert numbers + Zeros(3 - |numbers|) + [] == numbers + Zeros(3 - |numbers|);
  }

  lemma ParseThree(input: seq<string>, a: string, b: string, c: string)
    requires Normalise(input) == Some([a, b, c])
    ensures AllDigits(a) && AllDigits(b) && AllDigits(c)
    ensures ParseComponents(input) ==
            Some(SemanticVersion(NumeralValue(a), NumeralValue(b), NumeralValue(c), None, None, 0))
  {
    hide NumeralValue;
    assert [a, b, c][3..] == [];
    assert [a, b, c][0] == a && [a, b, c][1] == b && [a, b, c][2] == c;
    assert ParseRemainder([]) == Some(Tail(None, None, Suffix(None, None)));
  }

  lemma ZeroValue()
    ensures AllDigits("0") && NumeralValue("0") == 0
  {
  }

  /** M, M.m and M.m.p. */
  lemma ShortForms(a: string, b: string, c: string)
    requires AllDigits(a) && AllDigits(b) && AllDigits(c)
    ensures ParsePip(a) == Some(SemanticVersion(NumeralValue(a), 0, 0, None, None, 0))
    ensures ParsePip(Join([a, b], '.')) == Some(SemanticVersion(NumeralValue(a), NumeralValue(b), 0, None, None, 0))
    ensures ParsePip(Join([a, b, c], '.')) ==
            Some(SemanticVersion(NumeralValue(a), NumeralValue(b), NumeralValue(c), None, None, 0))
  {
    hide NumeralValue, Normalise, ParsePip, ParseComponents;
    ZeroValue();
    ZerosAre(0);
    ZerosAre(1);
    ZerosAre(2);
    NumbersNormalise([a]);
    NumbersNormalise([a, b]);
    NumbersNormalise([a, b, c]);
    assert [a] + ["0", "0"] == [a, "0", "0"] && [a, b] + ["0"] == [a, b, "0"] && [a, b, c] + [] == [a, b, c];
    ParseThree([a], a, "0", "0");
    ParseThree([a, b], a, b, "0");
    ParseThree([a, b, c], a, b, c);
    assert Join([a], '.') == a;
    ParsePipOfJoin([a]);
    ParsePipOfJoin([a, b]);
    ParsePipOfJoin([a, b, c]);
  }

  // ------------------------------------------------------------------ suffixes

  /** A devN or postN segment. */
  datatype Item = DevItem(n: nat) | PostItem(n: nat)

  function Spell(item: Item): string {
    match item
    case DevItem(n) => "dev" + Numeral(n)
    case PostItem(n) => "post" + Numeral(n)
  }

  function SpellAll(items: seq<Item>): seq<string> {
    seq(|items|, i requires 0 <= i < |items| => Spell(items[i]))
  }

  /** The last post count, and the last dev count that no post count follows. */
  function Counts(items: seq<Item>): Suffix {
    if items == [] then Suffix(None, None)
    else
      var before := Counts(items[..|items| - 1]);
      match items[|items| - 1]
      case DevItem(n) => Suffix(Some(n), before.post)
      case PostItem(n) => Suffix(None, Some(n))
  }

  /** The counts with some found already. */
  function Onto(found: Suffix, later: Suffix): Suffix {
    if later.post.Some? then later
    else Suffix(if later.dev.Some? then later.dev else found.dev, found.post)
  }

  lemma {:induction false} CountsCons(item: Item, items: seq<Item>)
    ensures Counts([item] + items) == Onto(Counts([item]), Counts(items))
  {
    var all := [item] + items;
    if items == [] {
      assert all == [item] && [item][..0] == [];
    } else {
      var n := |items| - 1;
      CountsCons(item, items[..n]);
      assert all[..|all| - 1] == [item] + items[..n] && all[|all| - 1] == items[n];
    }
  }

  lemma SpellParses(item: Item, rest: seq<string>, found: Suffix)
    ensures ParseSuffixes([Spell(item)] + rest, found) == ParseSuffixes(rest, Onto(found, Counts([item])))
  {
    hide NumeralValue;
    var s: string := Spell(item);
    assert ([s] + rest)[1..] == rest && [item][..0] == [];
    match item {
      case DevItem(n) =>
        assert s[3..] == Numeral(n);
      case PostItem(n) =>
        assert s[4..] == Numeral(n) && s[0] == 'p';
    }
  }

  lemma {:induction false} SpelledParse(items: seq<Item>, found: Suffix)
    ensures ParseSuffixes(SpellAll(items), found) == Some(Onto(found, Counts(items)))
    decreases |items|
  {
    if items == [] {
      assert SpellAll(items) == [];
    } else {
      hide ParseSuffixes, Spell;
      var rest := items[1..];
      assert SpellAll(items) == [Spell(items[0])] + SpellAll(rest);
      assert items == [items[0]] + rest;
      SpellParses(items[0], SpellAll(rest), found);
      SpelledParse(rest, Onto(found, Counts([items[0]])));
      CountsCons(items[0], rest);
    }
  }

  /**
   * M.m.p followed by any devN and postN segments: the last counts hold, a dev count before a post count is
   * forgotten, and nonzero counts of both kinds are an error.
   */
  lemma SuffixedForms(a: string, b: string, c: string, items: seq<Item>)
    requires AllDigits(a) && AllDigits(b) && AllDigits(c)
    ensures var dev := if Counts(items).dev.Some? then Counts(items).dev.value else 0;
            var post := if Counts(items).post.Some? then Counts(items).post.value else 0;
            var major, minor, patch := NumeralValue(a), NumeralValue(b), NumeralValue(c);
            ParsePip(Join([a, b, c] + SpellAll(items), '.')) ==
            if post == 0 then Some(SemanticVersion(major, minor, patch, None, None, dev))
            else if dev != 0 then None
            else Some(SemanticVersion(major, minor, patch + 1, None, None, post))
  {
    hide NumeralValue, Normalise, ParsePip, ParseRemainder, Spell, Counts;
    var tail := SpellAll(items);
    forall i | 0 <= i < |tail|
      ensures !AllDigits(tail[i]) && '.' !in tail[i]
    {
      SpelledClean(items[i]);
    }
    NormaliseNumbers([a, b, c], tail);
    assert ([a, b, c] + tail)[3..] == tail;
    SpelledRemainder(items);
    ParsePipOfJoin([a, b, c] + tail);
    ParseComponentsOf([a, b, c] + tail, [a, b, c] + tail, Tail(None, None, Counts(items)));
  }

  lemma SpelledClean(item: Item)
    ensures !AllDigits(Spell(item)) && '.' !in Spell(item) && Spell(item) != "" && Spell(item)[0] in {'d', 'p'}
  {
    hide NumeralValue;
    var s := Spell(item);
    assert s[0] in {'d', 'p'};
  }

  lemma SpelledRemainder(items: seq<Item>)
    ensures ParseRemainder(SpellAll(items)) == Some(Tail(None, None, Counts(items)))
  {
    hide NumeralValue, Spell, Counts, ParseSuffixes;
    SpelledParse(items, Suffix(None, None));
    if items != [] {
      SpelledClean(items[0]);
    }
  }

  /** A segment that is neither a number, a prerelease, devN nor postN is an error wherever it stands. */
  lemma {:induction false} UnknownSegmentRejected(before: seq<Item>, segment: string, after: seq<string>, found: Suffix)
    requires !("dev" <= segment) && !("post" <= segment)
    ensures ParseSuffixes(SpellAll(before) + [segment] + after, found) == None
    decreases |before|
  {
    if before == [] {
      assert SpellAll(before) + [segment] + after == [segment] + after;
    } else {
      hide Spell, Counts;
      var rest := SpellAll(before[1..]) + [segment] + after;
      assert SpellAll(before) + [segment] + after == [Spell(before[0])] + rest;
      SpellParses(before[0], rest, found);
      UnknownSegmentRejected(before[1..], segment, after, Onto(found, Counts([before[0]])));
    }
  }

  lemma UnknownRemainder(before: seq<Item>, segment: string, after: seq<string>)
    requires segment != "" && !AllDigits(segment) && !("dev" <= segment) && !("post" <= segment)
    requires before == [] ==> segment[0] !in {'0', 'a', 'b', 'r'}
    ensures ParseRemainder(SpellAll(before) + [segment] + after) == None
  {
    hide NumeralValue, Spell, Counts, ParseSuffixes, AllDigits;
    UnknownSegmentRejected(before, segment, after, Suffix(None, None));
    if before != [] {
      SpelledClean(before[0]);
    }
  }

  /** So is the whole string. */
  lemma UnknownFormRejected(a: string, b: string, c: string, before: seq<Item>, segment: string, after: seq<string>)
    requires AllDigits(a) && AllDigits(b) && AllDigits(c)
    requires segment != "" && '.' !in segment && !AllDigits(segment) && !("dev" <= segment) && !("post" <= segment)
    requires before == [] ==> segment[0] !in {'0', 'a', 'b', 'r'}
    requires forall i | 0 <= i < |after| :: '.' !in after[i] && !AllDigits(after[i])
    ensures ParsePip(Join([a, b, c] + (SpellAll(before) + [segment] + after), '.')) == None
  {
    hide NumeralValue, Normalise, ParsePip, ParseRemainder, Spell, Join;
    var tail := SpellAll(before) + [segment] + after;
    assert forall i | 0 <= i < |tail| :: !AllDigits(tail[i]) && '.' !in tail[i] by {
      forall i | 0 <= i < |before|
        ensures !AllDigits(Spell(before[i])) && '.' !in Spell(before[i])
      {
        SpelledClean(before[i]);
      }
    }
    hide AllDigits;
    NormaliseNumbers([a, b, c], tail);
    assert ([a, b, c] + tail)[3..] == tail;
    UnknownRemainder(before, segment, after);
    CleanParts(a, b, c, tail);
    ParsePipOfJoin([a, b, c] + tail);
  }

  lemma CleanParts(a: string, b: string, c: string, tail: seq<string>)
    requires AllDigits(a) && AllDigits(b) && AllDigits(c) && forall i | 0 <= i < |tail| :: '.' !in tail[i]
    ensures forall i | 0 <= i < 3 + |tail| :: '.' !in ([a, b, c] + tail)[i]
  {
  }

  // ------------------------------------------------------------ printed forms

  /** The release string: M.m.p, then .0Tn for a prerelease, then .devN. */
  lemma ReleaseForm(v: SemanticVersion)
    requires WellFormed(v)
    ensures ReleaseString(v) ==
            Numeral(v.major) + "." + Numeral(v.minor) + "." + Numeral(v.patch)
            + (if v.preType.Some? then ".0" + v.preType.value + Numeral(v.pre.value) else "")
            + (if v.dev != 0 then ".dev" + Numeral(v.dev) else "")
  {
    hide Numeral;
    if v.preType.Some? {
      assert "." + "0" + v.preType.value + Numeral(v.pre.value) == ".0" + v.preType.value + Numeral(v.pre.value);
    }
    assert "." + "dev" + Numeral(v.dev) == ".dev" + Numeral(v.dev);
  }

  /** The RPM string: the release before it, when it is not final, then .Tn and .devN. */
  lemma RpmForm(v: SemanticVersion)
    requires WellFormed(v)
    ensures var shown := if v.preType.Some? || v.dev != 0 then Decrement(v) else v;
            RpmString(v) ==
            Numeral(shown.major) + "." + Numeral(shown.minor) + "." + Numeral(shown.patch)
            + (if v.preType.Some? then "." + v.preType.value + Numeral(v.pre.value) else "")
            + (if v.dev != 0 then ".dev" + Numeral(v.dev) else "")
  {
    hide Numeral;
    if v.preType.Some? {
      assert "." + "" + v.preType.value + Numeral(v.pre.value) == "." + v.preType.value + Numeral(v.pre.value);
    }
    assert "." + "dev" + Numeral(v.dev) == ".dev" + Numeral(v.dev);
  }
}
