/** Concrete inputs outside the conditions under which the ordering, printing and parsing laws hold. */
module Counterexamples {
  import opened Wrappers
  import opened Text
  import opened SemVer
  import opened PipVersion
  import opened PipVersionProofs
  import opened PipVersionLegacy
  import opened RpmVersion
  import GitVersion
  import GitLog
  import GitVersionProofs
  import DataFiles

  function Alpha(major: nat, dev: nat): SemanticVersion {
    SemanticVersion(major, 0, 0, Some("a"), Some(1), dev)
  }

  /** 1.0.0.0a1 and its development version MAXSIZE differ, and neither compares below the other. */
  lemma OrderMissesDevCollision()
    ensures var v, w := Alpha(1, 0), Alpha(1, MAXSIZE);
            WellFormed(v) && WellFormed(w) && v != w && !Lt(v, w) && !Lt(w, v)
  {
    assert DevCollision(Alpha(1, 0), Alpha(1, MAXSIZE));
    TotalOrder(Alpha(1, 0), Alpha(1, MAXSIZE));
  }

  /** Any post segment from MAXSIZE on, after 1.0.0.0a1, is not below the increment it leads to. */
  lemma PostReachesIncrement(v: SemanticVersion, k: nat)
    requires v == Alpha(1, 0) && k >= MAXSIZE
    ensures var next := Increment(v, false, false);
            && KnownType(next) && KnownType(ToDev(next, k))
            && ParsePip(ReleaseString(v) + ".post" + Numeral(k)) == Some(ToDev(next, k))
            && !Lt(ToDev(next, k), next)
  {
    hide ParsePip, Numeral;
    PostIsDevOfIncrement(v, k);
  }

  /** 0.0.0.0a1 and 1.0.0.0a1 print as the same RPM version. */
  lemma RpmStringsCollide()
    ensures Alpha(0, 0) != Alpha(1, 0) && RpmString(Alpha(0, 0)) == RpmString(Alpha(1, 0))
  {
    hide RpmString;
    assert RpmCollision(Alpha(0, 0), Alpha(1, 0));
    RpmStringInjective(Alpha(0, 0), Alpha(1, 0));
  }

  // ---------------------------------------------------------- git versions

  const HEADER: string := "sem-ver:feature"

  lemma FeatureStripped()
    ensures Strip("feature") == "feature" && Split("feature", ',') == ["feature"]
  {
    SplitWithout("feature", ',');
  }

  lemma HeaderSymbols()
    ensures GitVersion.LineSymbols(HEADER) == {"feature"}
    ensures GitVersion.LineSymbols([' '] + HEADER) == {} && GitVersion.LineSymbols("") == {}
  {
    hide Strip, Split;
    FeatureStripped();
    assert Lower(HEADER) == HEADER && HEADER[8..] == "feature";
    assert Lower([' '] + HEADER)[0] == ' ';
  }

  /** The log of one message that is an indented line. */
  lemma IndentedLine(line: string)
    requires line != "" && !IsSpace(line[0]) && '\n' !in line
    ensures var text := [' '] + line + ['\n'];
            && GitVersion.LogSymbols(text) == GitVersion.LineSymbols([' '] + line) + GitVersion.LineSymbols("")
            && GitVersion.LogSymbols(Strip(text)) == GitVersion.LogSymbols(text) + GitVersion.LineSymbols(line)
  {
    hide Strip, GitVersion.LineSymbols;
    var indented := [' '] + line;
    var text := indented + ['\n'];
    assert text == indented + ['\n'] + "" && text[1..] == line + ['\n'] + "";
    SplitAppend(indented, "", '\n');
    SplitAppend(line, "", '\n');
    SplitWithout(indented, '\n');
    SplitWithout(line, '\n');
    GitLog.SymbolsAppend([indented], [""]);
    assert GitVersion.Symbols([indented]) == GitVersion.LineSymbols(indented) by {
      assert [indented][..0] == [];
    }
    assert GitVersion.Symbols([""]) == GitVersion.LineSymbols("") by {
      assert [""][..0] == [];
    }
    assert LStrip(text) == text[1..];
    GitLog.StripSymbols(text);
  }

  /** A tagged commit and one above it whose message starts with an indented header. */
  function IndentedRepo(): GitVersion.Repo {
    GitVersion.Repo([GitVersion.Commit([], [' '] + HEADER), GitVersion.Commit(["1.0.0"], "")], map["1.0.0" := 1])
  }

  const RELEASE: SemanticVersion := SemanticVersion(1, 0, 0, None, None, 0)

  /** The tag names version 1.0.0. */
  lemma ReleaseTag()
    ensures ParsePip("1.0.0") == Some(RELEASE) && WellFormed(RELEASE)
  {
    hide ParsePip;
    assert Numeral(1) == "1" && Numeral(0) == "0";
    assert ReleaseString(RELEASE) == "1.0.0";
    RoundTrip(RELEASE);
  }

  /** The history below the plain commit: its last tag is 1.0.0, one row away. */
  lemma IndentedRepoTag()
    ensures GitVersion.IsLastTag(IndentedRepo().history, "1.0.0", 1)
    ensures GitVersion.LastVersion("1.0.0") == Some(RELEASE)
    ensures GitVersionProofs.Untagged(GitVersion.Commit([], "x")) && GitVersionProofs.ValidRepo(IndentedRepo())
  {
    hide ParsePip;
    ReleaseTag();
    var history := IndentedRepo().history;
    assert GitVersion.VersionTags(history[0]) == {};
    assert GitVersion.VersionTags(history[1]) == {RELEASE} by {
      GitVersion.TagsSnoc(["1.0.0"], 0);
      assert ["1.0.0"][..0] == [] && ["1.0.0"][..1] == ["1.0.0"];
    }
    assert history[1..][0] == history[1];
  }

  /** With one more plain commit the computed version drops: the header is no longer the first line. */
  lemma IndentedHeaderDrops()
    ensures var repo, later := IndentedRepo(), GitVersionProofs.AddCommit(IndentedRepo(), GitVersion.Commit([], "x"));
            && GitVersion.IsLastTag(repo.history, "1.0.0", 1) && GitVersion.IsLastTag(later.history, "1.0.0", 2)
            && GitVersion.LastVersion("1.0.0") == Some(RELEASE) && WellFormed(RELEASE)
            && GitVersion.VersionOf(repo, "1.0.0", RELEASE, 1, None) == Ok(SemanticVersion(1, 1, 0, None, None, 1))
            && GitVersion.VersionOf(later, "1.0.0", RELEASE, 2, None) == Ok(SemanticVersion(1, 0, 1, None, None, 2))
            && !GitVersionProofs.Rises(repo, later, "1.0.0", RELEASE, 1, 2, None)
  {
    hide GitVersion.LineSymbols, Strip, Split, ParsePip, GitVersion.IsLastTag, GitVersion.FirstTagged;
    var repo, plain := IndentedRepo(), GitVersion.Commit([], "x");
    var later := GitVersionProofs.AddCommit(repo, plain);
    var since := GitVersion.Since(repo, "1.0.0");
    assert since == [repo.history[0]];
    assert since[1..] == [];
    assert GitVersion.LogText(since) == [' '] + HEADER + ['\n'] by {
      assert GitVersion.LogText([]) == "";
    }
    HeaderSymbols();
    IndentedLine(HEADER);
    IndentedRepoTag();
    GitVersionProofs.TagMovesBy(repo.history, [plain], "1.0.0", 1, 2);
    GitVersionProofs.PlainCommitHides(repo, "1.0.0");
    GitVersionProofs.LowerImpactFalls(repo, later, "1.0.0", RELEASE, 1);
  }

  // ------------------------------------------------------------ data files

  /** A splitter that unquotes one quoted space. */
  function QuotedSpace(s: string): Option<seq<string>> {
    if s == "' '" then Some([" "]) else Some([s])
  }

  /** A line with that key and a one-letter file name. */
  lemma QuotedLine(lines: seq<string>, i: nat, file: char)
    requires i < |lines| && lines[i] == "' '=" + [file] && !IsSpace(file)
    ensures DataFiles.LineError(lines, i, QuotedSpace) == None && '=' in lines[i]
    ensures DataFiles.RawKey(lines[i], QuotedSpace) == " "
    ensures DataFiles.TokensAt(lines, i, QuotedSpace) == [[file]]
  {
    var line := lines[i];
    assert line[3] == '=' && line[4..] == [file];
    assert DataFiles.BeforeEquals(line) == "' '";
    assert Strip("' '") == "' '" && Strip([file]) == [file];
  }

  /** Two lines for a key that is one quoted space: the second takes the files of the first away. */
  lemma QuotedSpaceLosesFiles()
    ensures var lines := ["' '=" + ['a'], "' '=" + ['b']];
            && DataFiles.Clean(lines, 2, QuotedSpace)
            && DataFiles.Concatenated(lines, 2, QuotedSpace, "") == ["a", "b"]
            && DataFiles.Collected(lines, 2, QuotedSpace, "") == ["b"]
  {
    hide DataFiles.LineError, DataFiles.RawKey, DataFiles.TokensAt;
    var lines := ["' '=" + ['a'], "' '=" + ['b']];
    QuotedLine(lines, 0, 'a');
    QuotedLine(lines, 1, 'b');
    assert Strip(" ") == "";
    assert DataFiles.Concatenated(lines, 1, QuotedSpace, "") == ["a"];
  }
}
