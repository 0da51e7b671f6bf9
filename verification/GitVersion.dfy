/** The version of an untagged commit, computed from the last tag, the distance to it and Sem-Ver headers. */
module GitVersion {
  import opened Wrappers
  import opened Text
  import opened SemVer
  import opened PipVersion

  datatype Error = KeyError | TargetTooLow

  /** A commit of a linear history: the tag names found on it, and its message. */
  datatype Commit = Commit(tags: seq<string>, message: string)

  /** Commits newest first; refs gives, for each tag git can resolve, how many commits it reaches. */
  datatype Repo = Repo(history: seq<Commit>, refs: map<string, nat>)

  // ------------------------------------------------------ Sem-Ver headers

  predicate IsHeader(line: string) {
    "sem-ver:" <= Lower(line)
  }

  /** The symbols a line contributes: comma separated after the header, none on any other line. */
  function LineSymbols(line: string): set<string> {
    if IsHeader(line) then set s | s in Split(Strip(line[8..]), ',') :: Strip(s) else {}
  }

  function Symbols(lines: seq<string>): set<string> {
    if lines == [] then {} else Symbols(lines[..|lines| - 1]) + LineSymbols(lines[|lines| - 1])
  }

  predicate Minor(symbols: set<string>) {
    "feature" in symbols || "deprecation" in symbols
  }

  predicate Major(symbols: set<string>) {
    "api-break" in symbols
  }

  /** The impact of a set of symbols: 0 patch, 1 minor, 2 major. */
  function Level(symbols: set<string>): (level: nat)
    ensures level <= 2
  {
    if Major(symbols) then 2 else if Minor(symbols) then 1 else 0
  }

  /** The messages as `git log` prints them, each ended by a newline. */
  function LogText(commits: seq<Commit>): string {
    if commits == [] then "" else commits[0].message + ['\n'] + LogText(commits[1..])
  }

  /** The commits since the tag: all of them without a tag, none when git cannot resolve it. */
  function Since(repo: Repo, tag: string): seq<Commit> {
    var n := |repo.history|;
    if tag == "" then repo.history
    else if tag !in repo.refs || repo.refs[tag] > n then []
    else repo.history[..n - repo.refs[tag]]
  }

  /** The output the command wrapper returns: white space is stripped at both ends. */
  function Changelog(repo: Repo, tag: string): string {
    Strip(LogText(Since(repo, tag)))
  }

  function LogSymbols(changelog: string): set<string> {
    Symbols(Split(changelog, '\n'))
  }

  /** The keyword arguments for increment, found by scanning the lines and then the symbols. */
  method GetIncrementKwargs(changelog: string) returns (minor: bool, major: bool)
    ensures minor == Minor(LogSymbols(changelog)) && major == Major(LogSymbols(changelog))
  {
    var lines := Split(changelog, '\n');
    var symbols: set<string> := {};
    for i := 0 to |lines|
      invariant symbols == Symbols(lines[..i])
    {
      assert lines[..i + 1][..i] == lines[..i];
      if IsHeader(lines[i]) {
        var command := Strip(lines[i][8..]);
        symbols := symbols + set s | s in Split(command, ',') :: Strip(s);
      }
    }
    assert lines[..|lines|] == lines;
    minor, major := false, false;
    if "bugfix" in symbols {
      symbols := symbols - {"bugfix"};
    }
    if "feature" in symbols {
      minor, symbols := true, symbols - {"feature"};
    }
    if "deprecation" in symbols {
      minor, symbols := true, symbols - {"deprecation"};
    }
    if "api-break" in symbols {
      major, symbols := true, symbols - {"api-break"};
    }
  }

  // -------------------------------------------------------------- last tag

  /** The versions among the tags of a commit; tags that do not parse are ignored. */
  function VersionTags(commit: Commit): set<SemanticVersion> {
    set t | t in commit.tags && ParsePip(t).Some? :: ParsePip(t).value
  }

  /** `max` over the versions raises KeyError only when it has to compare an unknown type. */
  predicate Comparable(versions: set<SemanticVersion>) {
    |versions| <= 1 || forall v | v in versions :: KnownType(v)
  }

  /** The first commit that carries a version, or the length of the history. */
  function FirstTagged(history: seq<Commit>): (row: nat)
    ensures row <= |history|
    ensures forall i | 0 <= i < row :: VersionTags(history[i]) == {}
    ensures row < |history| ==> VersionTags(history[row]) != {}
  {
    if history == [] || VersionTags(history[0]) != {} then 0 else 1 + FirstTagged(history[1..])
  }

  /** No other version of the set is above v. */
  predicate Highest(v: SemanticVersion, versions: set<SemanticVersion>) {
    && v in versions
    && forall w | w in versions && w != v :: KnownType(v) && KnownType(w) && !Lt(v, w)
  }

  /** The tag and row reported: a highest version tag of the first tagged commit, or no tag and the last row. */
  predicate IsLastTag(history: seq<Commit>, tag: string, row: nat) {
    var first := FirstTagged(history);
    if first == |history| then tag == "" && row == (if first == 0 then 0 else first - 1)
    else
      && row == first
      && tag in history[row].tags && ParsePip(tag).Some?
      && Highest(ParsePip(tag).value, VersionTags(history[row]))
  }

  lemma NotLtChain(u: SemanticVersion, v: SemanticVersion, w: SemanticVersion)
    requires KnownType(u) && KnownType(v) && KnownType(w)
    requires !Lt(v, u) && !Lt(w, v)
    ensures !Lt(w, u)
  {
    var a, b, c := SortKey(u), SortKey(v), SortKey(w);
    LexTrichotomy(a, b, 0);
    LexTrichotomy(b, c, 0);
    assert a[0..] == a && b[0..] == b && c[0..] == c;
    if Lt(w, u) {
      if Lt(v, w) {
        LexTransitive(b, c, a, 0);
      }
    }
  }

  lemma LtIrreflexive(v: SemanticVersion)
    requires KnownType(v)
    ensures !Lt(v, v)
  {
    LexTrichotomy(SortKey(v), SortKey(v), 0);
  }

  /** `max` over a set of versions: a later item replaces the best so far when it compares greater. */
  method MaxVersion(versions: set<SemanticVersion>) returns (r: Result<SemanticVersion, Error>)
    requires versions != {}
    ensures r.Ok? <==> |versions| == 1 || forall v | v in versions :: KnownType(v)
    ensures Comparable(versions) <==> r.Ok?
    ensures r.Ok? ==> Highest(r.value, versions)
    ensures r.Ok? && |versions| > 1 ==> r.value in versions && KnownType(r.value) && forall v | v in versions ::
              KnownType(v) && (v == r.value || !Lt(r.value, v))
    ensures r.Err? ==> r.error == KeyError
  {
    var best :| best in versions;
    var seen := {best};
    var todo := versions - seen;
    while todo != {}
      invariant best in seen && seen <= versions && todo == versions - seen
      invariant |seen| > 1 ==> forall v | v in seen :: KnownType(v)
      invariant Highest(best, seen)
      decreases |todo|
    {
      var item :| item in todo;
      assert {best, item} <= versions;
      if !KnownType(item) || !KnownType(best) {
        AtLeastTwo(versions, best, item);
        return Err(KeyError);
      }
      ghost var previous, before := best, seen;
      if Gt(item, best) {
        best := item;
      }
      seen, todo := seen + {item}, todo - {item};
      forall v | v in seen && v != best
        ensures KnownType(v) && !Lt(best, v)
      {
        KeepsHighest(previous, item, best, v, before);
      }
    }
    assert seen == versions;
    return Ok(best);
  }

  lemma AtLeastTwo(versions: set<SemanticVersion>, v: SemanticVersion, w: SemanticVersion)
    requires v in versions && w in versions && v != w
    ensures |versions| > 1
  {
    assert |versions| == |versions - {v, w}| + |{v, w}| by {
      assert versions == (versions - {v, w}) + {v, w};
    }
  }

  lemma KeepsHighest(previous: SemanticVersion, item: SemanticVersion, best: SemanticVersion,
                     v: SemanticVersion, seen: set<SemanticVersion>)
    requires Highest(previous, seen) && KnownType(item) && KnownType(previous)
    requires item !in seen && best == (if Gt(item, previous) then item else previous)
    requires v in seen || v == item
    requires v != best
    ensures KnownType(v) && !Lt(best, v)
  {
    LexTrichotomy(SortKey(item), SortKey(previous), 0);
    LtIrreflexive(previous);
    if best == item && v != previous {
      NotLtChain(v, previous, item);
    }
  }

  /** The version tags of one row, and a tag for each version. */
  method CollectTags(row: Commit) returns (versionTags: set<SemanticVersion>, semverToTag: map<SemanticVersion, string>)
    ensures versionTags == semverToTag.Keys == VersionTags(row)
    ensures forall v | v in semverToTag :: semverToTag[v] in row.tags && ParsePip(semverToTag[v]) == Some(v)
  {
    hide ParsePip;
    versionTags, semverToTag := {}, map[];
    for j := 0 to |row.tags|
      invariant versionTags == semverToTag.Keys
      invariant versionTags == VersionTags(Commit(row.tags[..j], ""))
      invariant forall v | v in semverToTag :: semverToTag[v] in row.tags && ParsePip(semverToTag[v]) == Some(v)
    {
      var tag := row.tags[j];
      TagsSnoc(row.tags, j);
      var semver := ParsePip(tag);
      if semver.Some? {
        semverToTag := semverToTag[semver.value := tag];
        versionTags := versionTags + {semver.value};
      }
    }
    assert row.tags[..|row.tags|] == row.tags;
  }

  /** The walk over the log, newest first, to the first commit with a version tag. */
  method GetRevnoAndLastTag(history: seq<Commit>) returns (r: Result<(string, nat), Error>)
    ensures r.Ok? ==> IsLastTag(history, r.value.0, r.value.1)
    ensures r.Err? <==> TagsIncomparable(history)
    ensures r.Err? <==>
              var first := FirstTagged(history);
              && first < |history| && |VersionTags(history[first])| > 1
              && exists v | v in VersionTags(history[first]) :: !KnownType(v)
    ensures r.Err? ==> r.error == KeyError
  {
    var rowCount := 0;
    var i := 0;
    while i < |history|
      invariant 0 <= i <= |history|
      invariant rowCount == if i == 0 then 0 else i - 1
      invariant FirstTagged(history) == i + FirstTagged(history[i..])
    {
      rowCount := i;
      var versionTags, semverToTag := CollectTags(history[i]);
      assert history[i..][0] == history[i];
      if versionTags != {} {
        var best := MaxVersion(versionTags);
        if best.Err? {
          return Err(best.error);
        }
        return Ok((semverToTag[best.value], rowCount));
      }
      assert history[i..][1..] == history[i + 1..];
      i := i + 1;
    }
    return Ok(("", rowCount));
  }

  lemma TagsSnoc(tags: seq<string>, j: nat)
    requires j < |tags|
    ensures VersionTags(Commit(tags[..j + 1], "")) ==
            VersionTags(Commit(tags[..j], "")) + (if ParsePip(tags[j]).Some? then {ParsePip(tags[j]).value} else {})
  {
    assert tags[..j + 1] == tags[..j] + [tags[j]];
  }

  // --------------------------------------------------------------- version

  /** The version the tag names, 0.0.0 without one. */
  function LastVersion(tag: string): Option<SemanticVersion> {
    ParsePip(if tag == "" then "0" else tag)
  }

  /** `new > target`, with the equality test that spares the sort key. */
  function Above(v: SemanticVersion, w: SemanticVersion): Result<bool, Error> {
    if v == w then Ok(false)
    else if !KnownType(v) || !KnownType(w) then Err(KeyError)
    else Ok(Gt(v, w))
  }

  /** The decision, given the last version, the distance and the kind of increment. */
  function VersionFrom(last: SemanticVersion, distance: nat, minor: bool, major: bool,
                       target: Option<SemanticVersion>): Result<SemanticVersion, Error>
    requires Constructed(last)
  {
    var next := if distance == 0 then last else Increment(last, minor, major);
    var tooHigh := if target.Some? then Above(next, target.value) else Ok(false);
    if tooHigh.Err? then Err(tooHigh.error)
    else if tooHigh.value then Err(TargetTooLow)
    else if distance == 0 then Ok(last)
    else
      var nextDev := ToDev(next, distance);
      if target.None? then Ok(nextDev)
      else
        var targetDev := ToDev(target.value, distance);
        match Above(targetDev, nextDev)
        case Err(e) => Err(e)
        case Ok(above) => Ok(if above then targetDev else nextDev)
  }

  function VersionOf(repo: Repo, tag: string, last: SemanticVersion, row: nat, target: Option<SemanticVersion>)
    : Result<SemanticVersion, Error>
    requires Constructed(last)
  {
    var symbols := LogSymbols(Changelog(repo, tag));
    VersionFrom(last, row, Minor(symbols), Major(symbols), target)
  }

  /** The results the calculation may return; several tags of equal rank leave a choice. */
  ghost predicate Computes(repo: Repo, target: Option<SemanticVersion>, r: Result<SemanticVersion, Error>) {
    exists tag, row ::
      && IsLastTag(repo.history, tag, row)
      && LastVersion(tag).Some? && Constructed(LastVersion(tag).value)
      && r == VersionOf(repo, tag, LastVersion(tag).value, row, target)
  }

  lemma ZeroNormalises()
    ensures Normalise(["0"]) == Some(["0", "0", "0"])
  {
    assert DigitComponents(["0"]) == ["0"] by {
      assert ["0"][..0] == [];
    }
    assert Zeros(2) == ["0", "0"];
    assert ["0"] + Zeros(2) + ["0"][1..] == ["0", "0", "0"];
  }

  lemma EmptyRemainder()
    ensures ParseRemainder([]) == Some(Tail(None, None, Suffix(None, None)))
  {
  }

  lemma ZeroParses()
    ensures ParsePip("0") == Some(SemanticVersion(0, 0, 0, None, None, 0))
  {
    hide Normalise, ParseRemainder, Split, Numeral;
    SplitWithout("0", '.');
    assert DropLeadingV("0") == "0";
    ZeroNormalises();
    assert ["0", "0", "0"][3..] == [];
    EmptyRemainder();
    assert NumeralValue("0") == 0;
  }

  lemma ParsedIsConstructed(s: string)
    ensures ParsePip(s).Some? ==> Constructed(ParsePip(s).value)
  {
  }

  /** Tags on the first tagged commit that max cannot compare. */
  predicate TagsIncomparable(history: seq<Commit>) {
    FirstTagged(history) < |history| && !Comparable(VersionTags(history[FirstTagged(history)]))
  }

  method GetVersionFromGitTarget(repo: Repo, target: Option<SemanticVersion>)
    returns (r: Result<SemanticVersion, Error>)
    ensures if TagsIncomparable(repo.history) then r == Err(KeyError) else Computes(repo, target, r)
  {
    var found := GetRevnoAndLastTag(repo.history);
    if found.Err? {
      return Err(found.error);
    }
    var (tag, distance) := found.value;
    ZeroParses();
    ParsedIsConstructed(tag);
    var last := LastVersion(tag).value;
    var newVersion := last;
    ghost var expected := VersionOf(repo, tag, last, distance, target);
    var minor, major := GetIncrementKwargs(Changelog(repo, tag));
    if distance != 0 {
      newVersion := Increment(last, minor, major);
    }
    if target.Some? {
      var tooHigh := Above(newVersion, target.value);
      if tooHigh.Err? {
        assert expected == Err(tooHigh.error);
        return Err(tooHigh.error);
      }
      if tooHigh.value {
        assert expected == Err(TargetTooLow);
        return Err(TargetTooLow);
      }
    }
    if distance == 0 {
      assert expected == Ok(last);
      return Ok(last);
    }
    var newDev := ToDev(newVersion, distance);
    r := Ok(newDev);
    if target.Some? {
      var targetDev := ToDev(target.value, distance);
      var above := Above(targetDev, newDev);
      if above.Err? {
        assert expected == Err(above.error);
        return Err(above.error);
      }
      if above.value {
        r := Ok(targetDev);
      }
    }
    assert expected == r;
  }
}
