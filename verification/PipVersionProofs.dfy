/** Parsing undoes printing, and the legacy spellings mean what the canonical ones do. */
module PipVersionProofs {
  import opened Wrappers
  import opened Text
  import opened SemVer
  import opened PipVersion

  /** What the printer can write so that the parser reads it back: any nonempty alphabetic type. */
  predicate Printable(v: SemanticVersion) {
    && (v.pre.Some? <==> v.preType.Some?)
    && (v.preType.Some? ==> v.preType.value != "" && forall c | c in v.preType.value :: IsAlpha(c))
  }

  // ------------------------------------------------------------ components

  lemma {:induction false} DigitComponentsAppend(a: seq<string>, b: seq<string>)
    ensures DigitComponents(a + b) == DigitComponents(a) + DigitComponents(b)
  {
    if b == [] {
      assert a + b == a;
    } else {
      var init, last := b[..|b| - 1], b[|b| - 1];
      DigitComponentsAppend(a, init);
      assert (a + b)[..|a + b| - 1] == a + init;
    }
  }

  lemma {:induction false} NoDigitComponents(tail: seq<string>)
    requires forall i | 0 <= i < |tail| :: !AllDigits(tail[i])
    ensures DigitComponents(tail) == []
  {
    if tail != [] {
      NoDigitComponents(tail[..|tail| - 1]);
    }
  }

  lemma {:induction false} AllDigitComponents(digits: seq<string>)
    requires forall i | 0 <= i < |digits| :: AllDigits(digits[i])
    ensures DigitComponents(digits) == digits
  {
    if digits != [] {
      AllDigitComponents(digits[..|digits| - 1]);
    }
  }

  lemma DigitsThenRest(digits: seq<string>, tail: seq<string>)
    requires forall i | 0 <= i < |digits| :: AllDigits(digits[i])
    requires forall i | 0 <= i < |tail| :: !AllDigits(tail[i])
    ensures DigitComponents(digits + tail) == digits
  {
    DigitComponentsAppend(digits, tail);
    AllDigitComponents(digits);
    NoDigitComponents(tail);
  }

  /** At least three leading numbers are left alone. */
  lemma NormaliseNumbers(digits: seq<string>, tail: seq<string>)
    requires |digits| >= 3
    requires forall i | 0 <= i < |digits| :: AllDigits(digits[i])
    requires forall i | 0 <= i < |tail| :: !AllDigits(tail[i])
    ensures Normalise(digits + tail) == Some(digits + tail)
  {
    DigitsThenRest(digits, tail);
    assert (digits + tail)[|digits|..] == tail;
    assert digits + Zeros(0) == digits;
  }

  /** One or two numbers and a segment that starts with the next: X.YaZ and X.Y.ZaN. */
  lemma NormaliseMixed(digits: seq<string>, number: string, rest: string)
    requires |digits| in {1, 2}
    requires forall i | 0 <= i < |digits| :: AllDigits(digits[i])
    requires AllDigits(number) && rest != "" && !IsDigit(rest[0])
    ensures Normalise(digits + [number + rest]) == Some(digits + [number] + Zeros(2 - |digits|) + [rest])
  {
    var mixed := number + rest;
    assert !AllDigits(mixed) by {
      assert mixed[|number|] == rest[0];
    }
    DigitsThenRest(digits, [mixed]);
    TakeDigitsPrefix(number, rest);
    assert mixed[|number|..] == rest;
    assert digits + [number] + Zeros(2 - |digits|) + [rest] + [] == digits + [number] + Zeros(2 - |digits|) + [rest];
  }

  lemma JoinHead(parts: seq<string>, sep: char)
    requires |parts| > 0 && parts[0] != ""
    ensures Join(parts, sep) != "" && Join(parts, sep)[0] == parts[0][0]
  {
  }

  lemma ParsePipNumeric(s: string)
    requires s != "" && IsDigit(s[0])
    ensures ParsePip(s) == ParseComponents(Split(s, '.'))
  {
    assert DropLeadingV(s) == s;
  }

  /** A string of dot-free parts led by a number reaches the component parser as those parts. */
  lemma ParsePipOfJoin(parts: seq<string>)
    requires |parts| > 0 && AllDigits(parts[0])
    requires forall i | 0 <= i < |parts| :: '.' !in parts[i]
    ensures ParsePip(Join(parts, '.')) == ParseComponents(parts)
  {
    SplitJoin(parts, '.');
    JoinHead(parts, '.');
    ParsePipNumeric(Join(parts, '.'));
  }

  // ------------------------------------------------------------- remainder

  lemma ParseTypeOf(digits: string, t: string, number: string)
    requires forall i | 0 <= i < |digits| :: IsDigit(digits[i])
    requires t != "" && (forall c | c in t :: IsAlpha(c)) && AllDigits(number)
    ensures ParseType(digits + t + number) == Some((t, NumeralValue(number)))
  {
    assert digits + t + number == digits + (t + number);
    assert t[0] in t;
    TakeDigitsPrefix(digits, t + number);
    assert (digits + t + number)[|digits|..] == t + number;
    TakeAlphaPrefix(t, number);
    assert (t + number)[|t|..] == number;
  }

  lemma ParseDevSegment(number: string, found: Suffix)
    requires AllDigits(number)
    ensures ParseSuffixes(["dev" + number], found) == Some(found.(dev := Some(NumeralValue(number))))
  {
    assert ("dev" + number)[3..] == number;
    assert ["dev" + number][1..] == [];
  }

  function DevSegment(dev: nat): seq<string> {
    if dev != 0 then ["dev" + Numeral(dev)] else []
  }

  function PostSegment(post: nat): seq<string> {
    if post != 0 then ["post" + Numeral(post)] else []
  }

  /** A dev and a post segment together: the post count wins. */
  lemma ParseDevPost(dev: nat, post: nat)
    ensures ParseSuffixes(DevSegment(dev) + PostSegment(post), Suffix(None, None)) ==
            Some(if post != 0 then Suffix(None, Some(post)) else Suffix(if dev != 0 then Some(dev) else None, None))
  {
    var none := Suffix(None, None);
    var p: string := "post" + Numeral(post);
    assert p[4..] == Numeral(post);
    assert PostSegment(post) == [p] || post == 0;
    if dev != 0 {
      ParseDevSegment(Numeral(dev), none);
      var d: string := "dev" + Numeral(dev);
      assert d[3..] == Numeral(dev);
      assert (DevSegment(dev) + PostSegment(post))[1..] == PostSegment(post);
      assert (DevSegment(dev) + PostSegment(post))[0] == d;
    } else {
      assert DevSegment(dev) + PostSegment(post) == PostSegment(post);
    }
    assert !("dev" <= p) by {
      assert p[0] == 'p';
    }
    assert forall found :: post != 0 ==> ParseSuffixes([p], found) == Some(Suffix(None, Some(post)));
  }

  function TypeSegment(v: SemanticVersion, marker: string): seq<string>
    requires Printable(v)
  {
    if v.preType.Some? then [marker + v.preType.value + Numeral(v.pre.value)] else []
  }

  /** The segments of a printed version after the numbers, with an optional post segment, parse to their values. */
  lemma ParsePrintedRemainder(v: SemanticVersion, post: nat)
    requires Printable(v)
    ensures ParseRemainder(TypeSegment(v, "0") + (DevSegment(v.dev) + PostSegment(post))) ==
            Some(Tail(v.preType, v.pre, PrintedSuffix(v, post)))
  {
    hide ParseSuffixes, NumeralValue;
    var suffixes := DevSegment(v.dev) + PostSegment(post);
    var remainder := TypeSegment(v, "0") + suffixes;
    ParseDevPost(v.dev, post);
    if v.preType.Some? {
      var t, number := v.preType.value, Numeral(v.pre.value);
      ParseTypeOf("0", t, number);
      assert remainder[0] == "0" + t + number;
      assert remainder[0][1] == t[0];
      assert remainder[1..] == suffixes;
    } else {
      assert remainder == suffixes;
      if v.dev != 0 {
        assert remainder[0] == "dev" + Numeral(v.dev);
        assert remainder[0][0] == 'd';
      } else if post != 0 {
        assert remainder == PostSegment(post);
        assert remainder[0] == "post" + Numeral(post);
        assert remainder[0][0] == 'p';
      }
    }
  }

  // ------------------------------------------------------------ round trip

  lemma {:induction false} JoinSnoc(parts: seq<string>, s: string)
    requires |parts| > 0
    ensures Join(parts + [s], '.') == Join(parts, '.') + "." + s
  {
    if |parts| == 1 {
      assert (parts + [s])[1..] == [s];
    } else {
      JoinSnoc(parts[1..], s);
      assert (parts + [s])[1..] == parts[1..] + [s];
    }
  }

  function Numbers(v: SemanticVersion): (parts: seq<string>)
    ensures |parts| == 3 && forall i | 0 <= i < 3 :: AllDigits(parts[i])
  {
    [Numeral(v.major), Numeral(v.minor), Numeral(v.patch)]
  }

  lemma BriefIsJoin(v: SemanticVersion)
    ensures BriefString(v) == Join(Numbers(v), '.')
  {
    var a, b, c := Numeral(v.major), Numeral(v.minor), Numeral(v.patch);
    JoinSnoc([a], b);
    JoinSnoc([a, b], c);
    assert [a, b] + [c] == Numbers(v);
  }

  function PostPart(post: nat): string {
    if post != 0 then ".post" + Numeral(post) else ""
  }

  /** The part of a printed version after its numbers, with a post segment. */
  function Suffixed(v: SemanticVersion, marker: string, post: nat): seq<string>
    requires Printable(v)
  {
    TypeSegment(v, marker) + (DevSegment(v.dev) + PostSegment(post))
  }

  /** A part of the printed string and its segment: both empty, or a dotted segment. */
  predicate IsPart(segments: seq<string>, part: string) {
    (segments == [] && part == "") || (|segments| == 1 && part == "." + segments[0])
  }

  /** Appending a part that is empty or a dotted segment extends the joined list. */
  lemma AppendPart(base: seq<string>, segments: seq<string>, part: string)
    requires |base| > 0
    requires IsPart(segments, part)
    ensures Join(base, '.') + part == Join(base + segments, '.')
  {
    hide Join;
    var joined := Join(base, '.');
    if segments == [] {
      assert base + segments == base;
      assert joined + part == joined;
    } else {
      var s := segments[0];
      JoinSnoc(base, s);
      assert segments == [s];
      assert part == "." + s;
      assert joined + ("." + s) == joined + "." + s;
    }
  }

  lemma AppendParts(base: seq<string>, s1: seq<string>, p1: string, s2: seq<string>, p2: string,
                    s3: seq<string>, p3: string)
    requires |base| > 0
    requires IsPart(s1, p1) && IsPart(s2, p2) && IsPart(s3, p3)
    ensures Join(base, '.') + p1 + p2 + p3 == Join(base + (s1 + (s2 + s3)), '.')
  {
    hide Join, IsPart;
    var b1, b2, b3 := base + s1, base + s1 + s2, base + s1 + s2 + s3;
    assert Join(base, '.') + p1 == Join(b1, '.') by { AppendPart(base, s1, p1); }
    assert Join(b1, '.') + p2 == Join(b2, '.') by { AppendPart(b1, s2, p2); }
    assert Join(b2, '.') + p3 == Join(b3, '.') by { AppendPart(b2, s3, p3); }
    assert b3 == base + (s1 + (s2 + s3));
  }

  lemma PartsAreSegments(v: SemanticVersion, marker: string, post: nat)
    requires Printable(v)
    ensures Typed(v) ==> TypePart(v, ".", marker) == "." + TypeSegment(v, marker)[0]
    ensures v.dev != 0 ==> DevPart(v, ".") == "." + DevSegment(v.dev)[0]
    ensures post != 0 ==> PostPart(post) == "." + PostSegment(post)[0]
  {
    if Typed(v) {
      var t, n := v.preType.value, Numeral(v.pre.value);
      assert "." + marker + t + n == "." + (marker + t + n);
    }
    assert "." + "dev" + Numeral(v.dev) == "." + ("dev" + Numeral(v.dev));
    assert ".post" + Numeral(post) == "." + ("post" + Numeral(post));
  }

  /** Dot-separated printing is joining: the base string, then type, dev and post segments. */
  lemma PrintedIsJoin(base: seq<string>, v: SemanticVersion, marker: string, post: nat)
    requires Printable(v) && |base| > 0
    ensures Join(base, '.') + TypePart(v, ".", marker) + DevPart(v, ".") + PostPart(post)
         == Join(base + Suffixed(v, marker, post), '.')
  {
    PartsAreSegments(v, marker, post);
    AppendParts(base, TypeSegment(v, marker), TypePart(v, ".", marker),
                DevSegment(v.dev), DevPart(v, "."), PostSegment(post), PostPart(post));
  }

  lemma SegmentsAreClean(v: SemanticVersion, marker: string, post: nat)
    requires Printable(v) && marker in {"", "0"}
    ensures forall i | 0 <= i < |Suffixed(v, marker, post)| ::
              '.' !in Suffixed(v, marker, post)[i] && !AllDigits(Suffixed(v, marker, post)[i])
  {
    hide NumeralValue;
    var segments := Suffixed(v, marker, post);
    forall i | 0 <= i < |segments|
      ensures '.' !in segments[i] && !AllDigits(segments[i])
    {
      if v.preType.Some? && i == 0 {
        var s := segments[0];
        assert s == marker + v.preType.value + Numeral(v.pre.value);
        assert v.preType.value[0] in v.preType.value;
        assert s[|marker|] == v.preType.value[0];
      } else {
        assert segments[i] in DevSegment(v.dev) + PostSegment(post);
        assert segments[i][0] in {'d', 'p'};
      }
    }
  }

  lemma ReleaseStringIsJoin(v: SemanticVersion, post: nat)
    requires Printable(v)
    ensures ReleaseString(v) + PostPart(post) == Join(Numbers(v) + Suffixed(v, "0", post), '.')
  {
    BriefIsJoin(v);
    PrintedIsJoin(Numbers(v), v, "0", post);
  }

  lemma ParseComponentsOf(input: seq<string>, components: seq<string>, tail: Tail)
    requires Normalise(input) == Some(components) && ParseRemainder(components[3..]) == Some(tail)
    ensures ParseComponents(input) ==
            Assemble(NumeralValue(components[0]), NumeralValue(components[1]), NumeralValue(components[2]), tail)
  {
  }

  /** The suffix a printed version with a post segment reads back as. */
  function PrintedSuffix(v: SemanticVersion, post: nat): Suffix {
    if post != 0 then Suffix(None, Some(post)) else Suffix(if v.dev != 0 then Some(v.dev) else None, None)
  }

  lemma AssemblePrinted(v: SemanticVersion, post: nat)
    requires Printable(v)
    ensures Assemble(v.major, v.minor, v.patch, Tail(v.preType, v.pre, PrintedSuffix(v, post))) ==
            Some(if post != 0 then ToDev(Increment(v, false, false), post) else v)
  {
  }

  lemma ParsePrintedParts(v: SemanticVersion, post: nat)
    requires Printable(v)
    ensures ParseComponents(Numbers(v) + Suffixed(v, "0", post)) ==
            Some(if post != 0 then ToDev(Increment(v, false, false), post) else v)
  {
    hide NumeralValue, Normalise, ParseRemainder, ParseComponents, Assemble, TypeSegment, DevSegment, PostSegment;
    var numbers, tail := Numbers(v), Suffixed(v, "0", post);
    SegmentsAreClean(v, "0", post);
    NormaliseNumbers(numbers, tail);
    assert (numbers + tail)[3..] == tail;
    ParsePrintedRemainder(v, post);
    ParseComponentsOf(numbers + tail, numbers + tail, Tail(v.preType, v.pre, PrintedSuffix(v, post)));
    assert (numbers + tail)[0] == Numeral(v.major) && (numbers + tail)[1] == Numeral(v.minor)
        && (numbers + tail)[2] == Numeral(v.patch);
    AssemblePrinted(v, post);
  }

  /** Parsing a printed version, followed or not by a post segment. */
  lemma ParsePrinted(v: SemanticVersion, post: nat)
    requires Printable(v)
    ensures ParsePip(ReleaseString(v) + PostPart(post)) ==
            Some(if post != 0 then ToDev(Increment(v, false, false), post) else v)
  {
    var parts := Numbers(v) + Suffixed(v, "0", post);
    ReleaseStringIsJoin(v, post);
    SegmentsAreClean(v, "0", post);
    forall i | 0 <= i < |parts|
      ensures '.' !in parts[i]
    {
      assert i >= 3 ==> parts[i] == Suffixed(v, "0", post)[i - 3];
    }
    ParsePipOfJoin(parts);
    ParsePrintedParts(v, post);
  }

  /** Parsing undoes printing. */
  lemma RoundTrip(v: SemanticVersion)
    requires Printable(v)
    ensures ParsePip(ReleaseString(v)) == Some(v)
  {
    ParsePrinted(v, 0);
    assert ReleaseString(v) + "" == ReleaseString(v);
  }
}
