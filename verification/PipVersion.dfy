/** Printing semantic versions and parsing them back, with every legacy spelling the parser accepts. */
module PipVersion {
  import opened Wrappers
  import opened Text
  import opened SemVer

  // --------------------------------------------------------------- printing

  function BriefString(v: SemanticVersion): string {
    Numeral(v.major) + "." + Numeral(v.minor) + "." + Numeral(v.patch)
  }

  /** The prerelease part of a printed version, empty without a type. */
  function TypePart(v: SemanticVersion, separator: string, rcMarker: string): string
    requires Constructed(v)
  {
    if Typed(v) then separator + rcMarker + v.preType.value + Numeral(v.pre.value) else ""
  }

  /** The dev part, after a dot when a prerelease part stands before it. */
  function DevPart(v: SemanticVersion, separator: string): string {
    if v.dev != 0 then (if Typed(v) then "." else separator) + "dev" + Numeral(v.dev) else ""
  }

  /** The printer all serialisations share. No separator means: lower the release number instead. */
  function LongVersion(v: SemanticVersion, preSeparator: Option<string>, rcMarker: string): string
    requires Constructed(v)
  {
    var lowered := (Typed(v) || v.dev != 0) && preSeparator.None?;
    var separator := if preSeparator.Some? then preSeparator.value else ".";
    BriefString(if lowered then Decrement(v) else v) + TypePart(v, separator, rcMarker) + DevPart(v, separator)
  }

  function ReleaseString(v: SemanticVersion): string
    requires Constructed(v)
  {
    LongVersion(v, Some("."), "0")
  }

  function RpmString(v: SemanticVersion): string
    requires Constructed(v)
  {
    LongVersion(v, None, "")
  }

  function Concat(segments: seq<string>): string {
    if segments == [] then "" else Concat(segments[..|segments| - 1]) + segments[|segments| - 1]
  }

  lemma ConcatSnoc(segments: seq<string>, s: string)
    ensures Concat(segments + [s]) == Concat(segments) + s
  {
    assert (segments + [s])[..|segments|] == segments;
  }

  lemma ConcatThree(segments: seq<string>, a: string, b: string, c: string)
    ensures Concat(segments + [a] + [b] + [c]) == Concat(segments) + (a + b + c)
  {
    ConcatSnoc(segments, a);
    ConcatSnoc(segments + [a], b);
    ConcatSnoc(segments + [a] + [b], c);
    assert Concat(segments) + a + b + c == Concat(segments) + (a + b + c);
  }

  /** The segment list as the printer grows it. */
  method BuildLongVersion(v: SemanticVersion, preSeparator: Option<string>, rcMarker: string) returns (s: string)
    requires Constructed(v)
    ensures s == LongVersion(v, preSeparator, rcMarker)
  {
    var brief, separator := BriefString(v), ".";
    if (Typed(v) || v.dev != 0) && preSeparator.None? {
      brief := BriefString(Decrement(v));
    } else if preSeparator.Some? {
      separator := preSeparator.value;
    }
    var segments := [brief];
    assert Concat(segments) == brief by {
      ConcatSnoc([], brief);
    }
    if Typed(v) {
      var segment := separator + rcMarker + v.preType.value + Numeral(v.pre.value);
      ConcatSnoc(segments, segment);
      segments := segments + [segment];
    }
    assert Concat(segments) == brief + TypePart(v, separator, rcMarker);
    if v.dev != 0 {
      var dot := if Typed(v) then "." else separator;
      ConcatThree(segments, dot, "dev", Numeral(v.dev));
      segments := segments + [dot] + ["dev"] + [Numeral(v.dev)];
    }
    assert Concat(segments) == brief + TypePart(v, separator, rcMarker) + DevPart(v, separator);
    s := Concat(segments);
  }

  // ---------------------------------------------------------------- parsing

  function DropLeadingV(s: string): string {
    if s != "" && s[0] in {'v', 'V'} then DropLeadingV(s[1..]) else s
  }

  /** The components that are all digits, wherever they stand. */
  function DigitComponents(input: seq<string>): (digits: seq<string>)
    ensures |digits| <= |input|
    ensures forall i | 0 <= i < |digits| :: AllDigits(digits[i])
  {
    if input == [] then []
    else
      var rest := DigitComponents(input[..|input| - 1]);
      if AllDigits(input[|input| - 1]) then rest + [input[|input| - 1]] else rest
  }

  function Zeros(n: nat): (z: seq<string>)
    ensures |z| == n && forall i | 0 <= i < n :: z[i] == "0"
  {
    seq(n, i => "0")
  }

  /** Digits first, padded to three, then whatever stood after as many components. None is a ValueError. */
  function Normalise(input: seq<string>): (components: Option<seq<string>>)
    ensures components.Some? ==> |components.value| >= 3 && forall i | 0 <= i < 3 :: AllDigits(components.value[i])
  {
    var digits := DigitComponents(input);
    var n := |digits|;
    if n == 0 then None
    else if n >= 3 || n == |input| then Some(digits + Zeros(if n < 3 then 3 - n else 0) + input[n..])
    else if input[n] == "" then None
    else if IsDigit(input[n][0]) then
      var last := TakeDigits(input[n]);
      Some(digits + [last] + Zeros(2 - n) + [input[n][|last|..]] + input[n + 1..])
    else Some(digits + Zeros(3 - n) + input[n..])
  }

  /** A prerelease segment such as 0a1, a1 or rc2: leading digits are discarded. */
  function ParseType(segment: string): Option<(string, nat)> {
    var s := segment[|TakeDigits(segment)|..];
    var t := TakeAlpha(s);
    match ParseInt(s[|t|..])
    case None => None
    case Some(number) => Some((t, number))
  }

  datatype Suffix = Suffix(dev: Option<nat>, post: Option<nat>)

  /** The devN and postN segments, left to right; a post segment forgets an earlier dev count. */
  function ParseSuffixes(remainder: seq<string>, found: Suffix): Option<Suffix> {
    if remainder == [] then Some(found)
    else if "dev" <= remainder[0] then
      match ParseInt(remainder[0][3..])
      case None => None
      case Some(n) => ParseSuffixes(remainder[1..], found.(dev := Some(n)))
    else if "post" <= remainder[0] then
      match ParseInt(remainder[0][4..])
      case None => None
      case Some(n) => ParseSuffixes(remainder[1..], Suffix(None, Some(n)))
    else None
  }

  datatype Tail = Tail(preType: Option<string>, pre: Option<nat>, suffix: Suffix)

  /** Everything after the three numbers. */
  function ParseRemainder(remainder: seq<string>): Option<Tail> {
    if remainder != [] && ParseInt(remainder[0]).Some? && ParseInt(remainder[0]).value != 0 then
      // pre-semver dev format: a count, then a hash that is ignored
      Some(Tail(None, None, Suffix(ParseInt(remainder[0]), None)))
    else if remainder != [] && remainder[0] == "" then None
    else if remainder != [] && remainder[0][0] in {'0', 'a', 'b', 'r'} then
      match ParseType(remainder[0])
      case None => None
      case Some((t, number)) =>
        (match ParseSuffixes(remainder[1..], Suffix(None, None))
         case None => None
         case Some(suffix) => Some(Tail(Some(t), Some(number), suffix)))
    else
      match ParseSuffixes(remainder, Suffix(None, None))
      case None => None
      case Some(suffix) => Some(Tail(None, None, suffix))
  }

  function Assemble(major: nat, minor: nat, patch: nat, tail: Tail): Option<SemanticVersion> {
    var result := Make(major, minor, patch, tail.preType, tail.pre, tail.suffix.dev);
    if tail.suffix.post.None? || tail.suffix.post.value == 0 then Some(result)
    else if tail.suffix.dev.Some? && tail.suffix.dev.value != 0 then None
    else Some(ToDev(Increment(result, false, false), tail.suffix.post.value))
  }

  function ParseComponents(input: seq<string>): Option<SemanticVersion> {
    match Normalise(input)
    case None => None
    case Some(components) =>
      match ParseRemainder(components[3..])
      case None => None
      case Some(tail) =>
        Assemble(NumeralValue(components[0]), NumeralValue(components[1]), NumeralValue(components[2]), tail)
  }

  /** `from_pip_string`; None is a ValueError. */
  function ParsePip(versionString: string): Option<SemanticVersion> {
    var s := DropLeadingV(versionString);
    if s == "" || !IsDigit(s[0]) then None else ParseComponents(Split(s, '.'))
  }

  /** The component lists, edited in place. */
  method NormaliseComponents(split: seq<string>) returns (r: Option<seq<string>>)
    ensures r == Normalise(split)
  {
    hide NumeralValue, ParseInt, AllDigits;
    var input := split;
    var components: seq<string> := [];
    var i := 0;
    while i < |input|
      invariant 0 <= i <= |input|
      invariant components == DigitComponents(input[..i])
    {
      assert input[..i + 1][..i] == input[..i];
      if AllDigits(input[i]) {
        components := components + [input[i]];
      }
      i := i + 1;
    }
    assert input[..i] == input;
    ghost var digits := components;
    var digitLen := |components|;
    if digitLen == 0 {
      return None;
    } else if digitLen < 3 {
      if digitLen < |input| {
        if input[digitLen] == "" {
          return None;
        }
        if IsDigit(input[digitLen][0]) {
          var mixed := input[digitLen];
          var last := TakeDigits(mixed);
          components := components + [last];
          input := input[..digitLen] + [last, mixed[|last|..]] + input[digitLen + 1..];
          digitLen := digitLen + 1;
        }
      }
      components := components + Zeros(3 - digitLen);
    } else {
      assert components == components + Zeros(0);
    }
    var tail := input[digitLen..];
    components := components + tail;
    ghost var n := |digits|;
    if n < 3 && n < |split| && IsDigit(split[n][0]) {
      ghost var last := TakeDigits(split[n]);
      ghost var rest := split[n][|last|..];
      assert tail == [rest] + split[n + 1..];
      assert components == digits + [last] + Zeros(2 - n) + [rest] + split[n + 1..];
    }
    return Some(components);
  }

  /** The loop over the devN and postN segments. */
  method ScanSuffixes(segments: seq<string>) returns (r: Option<Suffix>)
    ensures r == ParseSuffixes(segments, Suffix(None, None))
  {
    var remainder := segments;
    var dev: Option<nat> := None;
    var post: Option<nat> := None;
    while remainder != []
      invariant ParseSuffixes(remainder, Suffix(dev, post)) == ParseSuffixes(segments, Suffix(None, None))
      decreases |remainder|
    {
      var component := remainder[0];
      if "dev" <= component {
        var count := ParseInt(component[3..]);
        if count.None? {
          return None;
        }
        dev := count;
      } else if "post" <= component {
        var count := ParseInt(component[4..]);
        if count.None? {
          return None;
        }
        dev, post := None, count;
      } else {
        return None;
      }
      remainder := remainder[1..];
    }
    return Some(Suffix(dev, post));
  }

  /** The remainder after the three numbers: old dev format, or a type and then suffixes. */
  method ScanRemainder(segments: seq<string>) returns (r: Option<Tail>)
    ensures r == ParseRemainder(segments)
  {
    var remainder := segments;
    var preType: Option<string> := None;
    var pre: Option<nat> := None;
    if remainder != [] {
      var count := ParseInt(remainder[0]);
      if count.Some? && count.value != 0 {
        return Some(Tail(None, None, Suffix(count, None)));
      }
      if remainder[0] == "" {
        return None;
      }
      if remainder[0][0] in {'0', 'a', 'b', 'r'} {
        var parsed := ParseType(remainder[0]);
        if parsed.None? {
          return None;
        }
        preType, pre := Some(parsed.value.0), Some(parsed.value.1);
        remainder := remainder[1..];
      }
    }
    var suffix := ScanSuffixes(remainder);
    if suffix.None? {
      return None;
    }
    return Some(Tail(preType, pre, suffix.value));
  }

  /** The parser as written. The branch for a third component that is not a number is dead: Normalise rules it out. */
  method FromPipString(versionString: string) returns (r: Option<SemanticVersion>)
    ensures r == ParsePip(versionString)
  {
    var s := versionString;
    while s != "" && s[0] in {'v', 'V'}
      invariant DropLeadingV(s) == DropLeadingV(versionString)
      decreases |s|
    {
      s := s[1..];
    }
    if s == "" || !IsDigit(s[0]) {
      return None;
    }
    var components := NormaliseComponents(Split(s, '.'));
    if components.None? {
      return None;
    }
    var c := components.value;
    var tail := ScanRemainder(c[3..]);
    if tail.None? {
      return None;
    }
    var suffix := tail.value.suffix;
    var result := Make(NumeralValue(c[0]), NumeralValue(c[1]), NumeralValue(c[2]),
                       tail.value.preType, tail.value.pre, suffix.dev);
    if suffix.post.Some? && suffix.post.value != 0 {
      if suffix.dev.Some? && suffix.dev.value != 0 {
        return None;
      }
      result := ToDev(Increment(result, false, false), suffix.post.value);
    }
    return Some(result);
  }
}
