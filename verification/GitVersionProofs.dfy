/** What the computed version promises: it lies where it should, and it rises with every commit. */
module GitVersionProofs {
  import opened Wrappers
  import opened Text
  import opened SemVer
  import opened PipVersion
  import opened GitVersion
  import opened GitLog

  // -------------------------------------------------------------- placing

  /** Past the tag, the computed version is above the last one. */
  lemma AboveLastTag(last: SemanticVersion, distance: nat, minor: bool, major: bool, target: Option<SemanticVersion>)
    requires WellFormed(last) && (target.Some? ==> WellFormed(target.value)) && distance > 0
    requires VersionFrom(last, distance, minor, major, target).Ok?
    ensures var r := VersionFrom(last, distance, minor, major, target).value;
            WellFormed(r) && Lt(last, r)
  {
    IncrementChain(last);
    var next := Increment(last, minor, major);
    DevOfIncrementAbove(last, minor, major, distance);
    if target.Some? {
      var targetDev, nextDev := ToDev(target.value, distance), ToDev(next, distance);
      TotalOrder(targetDev, nextDev);
      if Lt(nextDev, targetDev) {
        LtTransitive(last, nextDev, targetDev);
      }
    }
  }

  /** Without a target, it is below the version being worked towards. */
  lemma BelowNextVersion(last: SemanticVersion, distance: nat, minor: bool, major: bool)
    requires WellFormed(last) && distance > 0
    ensures var next := Increment(last, minor, major);
            var r := VersionFrom(last, distance, minor, major, None).value;
            && WellFormed(next) && WellFormed(r)
            && (Lt(r, next) <==> (Typed(next) ==> distance < MAXSIZE))
  {
    IncrementChain(last);
    DevBelowRelease(Increment(last, minor, major), distance);
  }

  /** With an accepted released target, it is below that target, although to_dev may reverse the order. */
  lemma BelowTarget(last: SemanticVersion, distance: nat, minor: bool, major: bool, target: SemanticVersion)
    requires WellFormed(last) && WellFormed(target) && target.dev == 0 && distance > 0
    requires VersionFrom(last, distance, minor, major, Some(target)).Ok?
    ensures var r := VersionFrom(last, distance, minor, major, Some(target)).value;
            && WellFormed(r)
            && (Lt(r, target) <==> (Typed(target) ==> distance < MAXSIZE))
  {
    var next := Increment(last, minor, major);
    IncrementChain(last);
    TotalOrder(next, target);
    assert next == target || Lt(next, target);
    var nextDev, targetDev := ToDev(next, distance), ToDev(target, distance);
    TotalOrder(targetDev, nextDev);
    LtUnfold(next, target);
    LtUnfold(nextDev, target);
    LtUnfold(targetDev, target);
    LtUnfold(targetDev, nextDev);
  }

  /** d is a development version of the prerelease r. */
  predicate DevOf(d: SemanticVersion, r: SemanticVersion) {
    r.preType.Some? && r.dev == 0 && d.dev != 0 && d.(dev := 0) == r
  }

  /** The target is too low: it precedes the version, as far as the sentinel of the sort key lets that be seen. */
  predicate TooLow(target: SemanticVersion, v: SemanticVersion)
    requires WellFormed(target) && WellFormed(v)
  {
    if DevOf(target, v) then target.dev <= MAXSIZE
    else if DevOf(v, target) then v.dev >= MAXSIZE
    else Precedes(target, v)
  }

  /** Below the sentinel that is precedence. */
  lemma TooLowIsPrecedence(target: SemanticVersion, v: SemanticVersion)
    requires WellFormed(target) && WellFormed(v) && target.dev < MAXSIZE && v.dev < MAXSIZE
    ensures TooLow(target, v) <==> Precedes(target, v)
  {
    if DevOf(v, target) {
      assert SameTriple(v, target) && DevLess(v.dev, target.dev);
    }
  }

  /** What a target is compared with: the last version at its tag, the incremented one past it. */
  function Next(last: SemanticVersion, distance: nat, minor: bool, major: bool): SemanticVersion
    requires Constructed(last)
  {
    if distance == 0 then last else Increment(last, minor, major)
  }

  lemma AboveIsTooLow(v: SemanticVersion, target: SemanticVersion)
    requires WellFormed(v) && WellFormed(target)
    ensures Above(v, target) == Ok(TooLow(target, v))
    ensures TooLow(target, v) ==> v != target
  {
    TotalOrder(v, target);
    KeyOrderIsPrecedence(target, v);
    LtUnfold(target, v);
  }

  /**
   * There is a result exactly unless a target is too low for the last version, at its tag, or for the incremented
   * one past it; a target equal to it never is.
   */
  lemma RejectedExactly(last: SemanticVersion, distance: nat, minor: bool, major: bool, target: Option<SemanticVersion>)
    requires WellFormed(last) && (target.Some? ==> WellFormed(target.value))
    ensures var next := Next(last, distance, minor, major);
            var r := VersionFrom(last, distance, minor, major, target);
            && WellFormed(next)
            && (r.Err? <==> target.Some? && TooLow(target.value, next))
            && (r.Err? ==> r.error == TargetTooLow)
            && (target == Some(next) ==> r.Ok?)
  {
    IncrementChain(last);
    if target.Some? {
      var next := Next(last, distance, minor, major);
      AboveIsTooLow(next, target.value);
      AboveIsTooLow(ToDev(target.value, distance), ToDev(next, distance));
    }
  }

  /** The result: the last version at its tag; past it the greater development version of increment and target. */
  lemma ResultExactly(last: SemanticVersion, distance: nat, minor: bool, major: bool, target: Option<SemanticVersion>)
    requires WellFormed(last) && (target.Some? ==> WellFormed(target.value))
    requires VersionFrom(last, distance, minor, major, target).Ok?
    ensures var r := VersionFrom(last, distance, minor, major, target).value;
            var next := ToDev(Increment(last, minor, major), distance);
            && (distance == 0 ==> r == last)
            && (distance > 0 && target.None? ==> r == next)
            && (distance > 0 && target.Some? ==>
                  var bound := ToDev(target.value, distance);
                  WellFormed(next) && WellFormed(bound) && r == if TooLow(next, bound) then bound else next)
  {
    IncrementChain(last);
    if target.Some? {
      AboveIsTooLow(Next(last, distance, minor, major), target.value);
      AboveIsTooLow(ToDev(target.value, distance), ToDev(Increment(last, minor, major), distance));
    }
  }

  // ---------------------------------------------------------- monotonicity

  function FlagLevel(minor: bool, major: bool): nat {
    if major then 2 else if minor then 1 else 0
  }

  /** Development versions of two increments compare by impact, then by distance. */
  lemma IncrementDevOrder(last: SemanticVersion, d: nat, minor: bool, major: bool, e: nat, minor': bool, major': bool)
    requires WellFormed(last) && 0 < d && 0 < e
    ensures var v, w := ToDev(Increment(last, minor, major), d), ToDev(Increment(last, minor', major'), e);
            && WellFormed(v) && WellFormed(w)
            && (Lt(v, w) <==>
                  || FlagLevel(minor, major) < FlagLevel(minor', major')
                  || (FlagLevel(minor, major) == FlagLevel(minor', major') && d < e))
  {
    IncrementChain(last);
    LtUnfold(ToDev(Increment(last, minor, major), d), ToDev(Increment(last, minor', major'), e));
  }

  /** Further from the tag, with no less impact unless a target is given, the version is higher. */
  lemma DistanceRaises(last: SemanticVersion, d: nat, minor: bool, major: bool, e: nat, minor': bool, major': bool,
                       target: Option<SemanticVersion>)
    requires WellFormed(last) && (target.Some? ==> WellFormed(target.value)) && d < e
    requires d > 0 && target.None? ==> FlagLevel(minor, major) <= FlagLevel(minor', major')
    requires VersionFrom(last, d, minor, major, target).Ok?
    requires VersionFrom(last, e, minor', major', target).Ok?
    ensures var v, w := VersionFrom(last, d, minor, major, target).value,
                        VersionFrom(last, e, minor', major', target).value;
            WellFormed(v) && WellFormed(w) && Lt(v, w)
  {
    AboveLastTag(last, e, minor', major', target);
    if d > 0 {
      AboveLastTag(last, d, minor, major, target);
      IncrementDevOrder(last, d, minor, major, e, minor', major');
      if target.Some? {
        DevCountsOrdered(target.value, d, e);
        if FlagLevel(minor, major) <= FlagLevel(minor', major') {
          MaxRises(ToDev(Increment(last, minor, major), d), ToDev(Increment(last, minor', major'), e),
                   ToDev(target.value, d), ToDev(target.value, e));
        } else {
          TargetLeads(last, d, minor, major, target.value);
          TargetBounds(last, e, minor', major', target.value);
        }
      }
    }
  }

  /** After a minor or major increment, which is final, an accepted target is what the version is taken from. */
  lemma TargetLeads(last: SemanticVersion, d: nat, minor: bool, major: bool, target: SemanticVersion)
    requires WellFormed(last) && WellFormed(target) && d > 0 && (minor || major)
    requires VersionFrom(last, d, minor, major, Some(target)).Ok?
    ensures VersionFrom(last, d, minor, major, Some(target)).value == ToDev(target, d)
  {
    var next := Increment(last, minor, major);
    IncrementChain(last);
    TotalOrder(next, target);
    var nextDev, targetDev := ToDev(next, d), ToDev(target, d);
    TotalOrder(targetDev, nextDev);
    if next != target {
      LtUnfold(next, target);
      LtUnfold(nextDev, targetDev);
    }
  }

  /** With an accepted target the version is at least the target's development version. */
  lemma TargetBounds(last: SemanticVersion, e: nat, minor: bool, major: bool, target: SemanticVersion)
    requires WellFormed(last) && WellFormed(target) && e > 0
    requires VersionFrom(last, e, minor, major, Some(target)).Ok?
    ensures var w := VersionFrom(last, e, minor, major, Some(target)).value;
            WellFormed(w) && forall u | WellFormed(u) && Lt(u, ToDev(target, e)) :: Lt(u, w)
  {
    IncrementChain(last);
    var w, targetDev := VersionFrom(last, e, minor, major, Some(target)).value, ToDev(target, e);
    TotalOrder(targetDev, w);
    forall u | WellFormed(u) && Lt(u, targetDev)
      ensures Lt(u, w)
    {
      if w != targetDev {
        LtTransitive(u, targetDev, w);
      }
    }
  }

  /** The larger of two rises when both do. */
  lemma MaxRises(v: SemanticVersion, w: SemanticVersion, t: SemanticVersion, u: SemanticVersion)
    requires WellFormed(v) && WellFormed(w) && WellFormed(t) && WellFormed(u)
    requires v.dev > 0 && w.dev > 0 && t.dev == v.dev && u.dev == w.dev
    requires Lt(v, w) && Lt(t, u)
    ensures Lt(if Gt(t, v) then t else v, if Gt(u, w) then u else w)
  {
    TotalOrder(t, v);
    TotalOrder(u, w);
    if Lt(v, t) && !Lt(w, u) {
      if Lt(u, w) {
        LtTransitive(t, u, w);
      }
    } else if !Lt(v, t) && Lt(w, u) {
      LtTransitive(v, w, u);
    }
  }

  // ------------------------------------------------------- tag and distance

  predicate Untagged(commit: Commit) {
    VersionTags(commit) == {}
  }

  function AddCommit(repo: Repo, commit: Commit): Repo {
    repo.(history := [commit] + repo.history)
  }

  /** git resolves tags to commits of the history. */
  predicate ValidRepo(repo: Repo) {
    forall tag | tag in repo.refs :: repo.refs[tag] <= |repo.history|
  }

  lemma FirstTaggedMoves(history: seq<Commit>, commit: Commit)
    requires Untagged(commit)
    ensures FirstTagged([commit] + history) == FirstTagged(history) + 1
  {
    assert ([commit] + history)[1..] == history;
  }

  /** The text of the log grows by the new message, or stays empty when the tag cannot be resolved. */
  lemma LogGrows(repo: Repo, commit: Commit, tag: string)
    requires ValidRepo(repo)
    ensures var before, after := LogText(Since(repo, tag)), LogText(Since(AddCommit(repo, commit), tag));
            if tag == "" || tag in repo.refs then after == commit.message + ['\n'] + before else after == before == ""
  {
    var longer := AddCommit(repo, commit);
    var n := |repo.history|;
    if tag == "" || tag in repo.refs {
      assert Since(longer, tag) == [commit] + Since(repo, tag);
      assert ([commit] + Since(repo, tag))[1..] == Since(repo, tag);
    }
  }

  // --------------------------------------------------------- whole histories

  /** The versions before and after, for one choice of last tag. */
  ghost predicate Rises(repo: Repo, later: Repo, tag: string, last: SemanticVersion, row: nat, row': nat,
                        target: Option<SemanticVersion>)
    requires WellFormed(last)
  {
    var before, after := VersionOf(repo, tag, last, row, target), VersionOf(later, tag, last, row', target);
    before.Ok? && after.Ok? ==>
      WellFormed(before.value) && WellFormed(after.value) && Lt(before.value, after.value)
  }

  function LevelOf(repo: Repo, tag: string): nat {
    Level(LogSymbols(Changelog(repo, tag)))
  }

  /** Further from the same tag the version rises, unless the impact read from the log drops and nothing bounds it. */
  lemma LaterRises(repo: Repo, later: Repo, tag: string, last: SemanticVersion, row: nat, row': nat,
                   target: Option<SemanticVersion>)
    requires WellFormed(last) && (target.Some? ==> WellFormed(target.value))
    requires row < row' && (row > 0 && target.None? ==> LevelOf(repo, tag) <= LevelOf(later, tag))
    ensures Rises(repo, later, tag, last, row, row', target)
  {
    var s, t := LogSymbols(Changelog(repo, tag)), LogSymbols(Changelog(later, tag));
    if VersionOf(repo, tag, last, row, target).Ok? && VersionOf(later, tag, last, row', target).Ok? {
      DistanceRaises(last, row, Minor(s), Major(s), row', Minor(t), Major(t), target);
    }
  }

  /** Without a target the version rises only if the impact does not drop. */
  lemma LowerImpactFalls(repo: Repo, later: Repo, tag: string, last: SemanticVersion, row: nat)
    requires WellFormed(last) && row > 0
    requires LevelOf(repo, tag) > LevelOf(later, tag)
    ensures !Rises(repo, later, tag, last, row, row + 1, None)
  {
    var s, t := LogSymbols(Changelog(repo, tag)), LogSymbols(Changelog(later, tag));
    IncrementDevOrder(last, row, Minor(s), Major(s), row + 1, Minor(t), Major(t));
  }

  /** A one-letter line above a text has no symbols and keeps the text from being stripped. */
  lemma PlainLineHides(text: string)
    ensures var after := "x" + ['\n'] + text;
            LogSymbols(after) == LogSymbols(text) && Lead(after) == {}
  {
    var after := "x" + ['\n'] + text;
    assert after[0] == 'x' && LStrip(after) == after;
    SplitWithout("x", '\n');
    SplitAppend("x", text, '\n');
    SymbolsAppend(["x"], Split(text, '\n'));
    assert LineSymbols("x") == {};
    assert Symbols(["x"]) == {} by {
      assert ["x"][..0] == [];
    }
  }

  /** A commit with a one-letter message leaves exactly the symbols of the older lines. */
  lemma PlainCommitHides(repo: Repo, tag: string)
    requires ValidRepo(repo)
    ensures LogSymbols(Changelog(AddCommit(repo, Commit([], "x")), tag)) == LogSymbols(LogText(Since(repo, tag)))
  {
    hide LogSymbols, Strip, LogText, Since;
    LogGrows(repo, Commit([], "x"), tag);
    StripSymbols(LogText(Since(AddCommit(repo, Commit([], "x")), tag)));
    PlainLineHides(LogText(Since(repo, tag)));
    assert Lead("") == {} by {
      assert LineSymbols("") == {};
    }
  }

  /** The message does not begin with an indented header that says more than its other lines. */
  predicate Tidy(message: string) {
    Lead(message) <= LogSymbols(message)
  }

  lemma {:induction false} TidyLog(commits: seq<Commit>)
    requires forall c | c in commits :: Tidy(c.message)
    ensures Lead(LogText(commits)) <= LogSymbols(LogText(commits))
  {
    if commits == [] {
      assert LineSymbols("") == {};
    } else {
      var message, older := commits[0].message, LogText(commits[1..]);
      TidyLog(commits[1..]);
      assert commits[0] in commits;
      LeadAppend(message, older);
      SplitAppend(message, older, '\n');
      SymbolsAppend(Split(message, '\n'), Split(older, '\n'));
    }
  }

  function AddCommits(repo: Repo, commits: seq<Commit>): Repo {
    repo.(history := commits + repo.history)
  }

  lemma {:induction false} FirstTaggedMovesBy(history: seq<Commit>, commits: seq<Commit>)
    requires forall i | 0 <= i < |commits| :: Untagged(commits[i])
    ensures FirstTagged(commits + history) == |commits| + FirstTagged(history)
  {
    hide VersionTags;
    if commits == [] {
      assert commits + history == history;
    } else {
      FirstTaggedMovesBy(history, commits[1..]);
      FirstTaggedMoves(commits[1..] + history, commits[0]);
      assert [commits[0]] + (commits[1..] + history) == commits + history;
    }
  }

  lemma {:induction false} LinesAccumulate(repo: Repo, commits: seq<Commit>, tag: string)
    requires ValidRepo(repo)
    ensures LogSymbols(LogText(Since(repo, tag))) <= LogSymbols(LogText(Since(AddCommits(repo, commits), tag)))
  {
    hide LineSymbols, Split;
    var later := AddCommits(repo, commits);
    if commits == [] {
      assert commits + repo.history == repo.history;
      assert later == repo;
    } else {
      var middle := AddCommits(repo, commits[1..]);
      LinesAccumulate(repo, commits[1..], tag);
      assert [commits[0]] + (commits[1..] + repo.history) == commits + repo.history;
      assert later == AddCommit(middle, commits[0]);
      LogGrows(middle, commits[0], tag);
      var text := LogText(Since(middle, tag));
      if tag == "" || tag in repo.refs {
        SplitAppend(commits[0].message, text, '\n');
        SymbolsAppend(Split(commits[0].message, '\n'), Split(text, '\n'));
      }
    }
  }

  // ------------------------------------------------------------------ runs

  predicate AllUntagged(commits: seq<Commit>) {
    forall i | 0 <= i < |commits| :: Untagged(commits[i])
  }

  /** The row of the tag, or of the oldest commit without one, after n > 0 more untagged commits. */
  function RowAfter(history: seq<Commit>, row: nat, n: nat): nat
    requires n > 0
  {
    if history == [] then n - 1 else row + n
  }

  /** Untagged commits keep the last tag and fix its row. */
  lemma TagMovesBy(history: seq<Commit>, commits: seq<Commit>, tag: string, row: nat, row': nat)
    requires IsLastTag(history, tag, row) && commits != [] && AllUntagged(commits)
    ensures IsLastTag(commits + history, tag, row') <==> row' == RowAfter(history, row, |commits|)
  {
    hide VersionTags, ParsePip, Highest;
    FirstTaggedMovesBy(history, commits);
    var first := FirstTagged(history);
    if first < |history| {
      assert (commits + history)[first + |commits|] == history[first];
    }
  }

  /** No header counts only because leading white space was stripped: the lines alone have the impact. */
  predicate LinesDecide(repo: Repo, tag: string) {
    LevelOf(repo, tag) <= Level(LogSymbols(LogText(Since(repo, tag))))
  }

  /** The impact of the lines is never lost. */
  lemma LinesKeepLevel(repo: Repo, commits: seq<Commit>, tag: string)
    requires ValidRepo(repo)
    ensures Level(LogSymbols(LogText(Since(repo, tag)))) <= LevelOf(AddCommits(repo, commits), tag)
  {
    LinesAccumulate(repo, commits, tag);
    StripSymbols(LogText(Since(AddCommits(repo, commits), tag)));
  }

  /** Tidy messages are one way to meet the condition. */
  lemma TidyLinesDecide(repo: Repo, tag: string)
    requires forall c | c in Since(repo, tag) :: Tidy(c.message)
    ensures LinesDecide(repo, tag)
  {
    TidyLog(Since(repo, tag));
    StripSymbols(LogText(Since(repo, tag)));
  }

  /** The version rises over these untagged commits, wherever the tag is found then. */
  ghost predicate RisesOver(repo: Repo, commits: seq<Commit>, tag: string, last: SemanticVersion, row: nat,
                            target: Option<SemanticVersion>)
    requires WellFormed(last) && commits != []
  {
    Rises(repo, AddCommits(repo, commits), tag, last, row, RowAfter(repo.history, row, |commits|), target)
  }

  ghost predicate NextCommitsRaise(repo: Repo, tag: string, last: SemanticVersion, row: nat,
                                   target: Option<SemanticVersion>)
    requires WellFormed(last)
  {
    forall commit | Untagged(commit) :: RisesOver(repo, [commit], tag, last, row, target)
  }

  ghost predicate AllRunsRaise(repo: Repo, tag: string, last: SemanticVersion, row: nat,
                               target: Option<SemanticVersion>)
    requires WellFormed(last)
  {
    forall commits | commits != [] && AllUntagged(commits) :: RisesOver(repo, commits, tag, last, row, target)
  }

  /**
   * Without a target: a nonempty history that is at its tag or whose lines alone decide the impact. With one: a
   * nonempty history, or a target that is rejected from the start.
   */
  predicate Raising(repo: Repo, tag: string, last: SemanticVersion, row: nat, target: Option<SemanticVersion>)
    requires WellFormed(last)
  {
    if target.None? then repo.history != [] && (row == 0 || LinesDecide(repo, tag))
    else repo.history != [] || VersionOf(repo, tag, last, row, target).Err?
  }

  /** With a target that is not rejected, any run of untagged commits raises the version of a nonempty history. */
  lemma RunRaisesWithTarget(repo: Repo, commits: seq<Commit>, tag: string, last: SemanticVersion, row: nat,
                            target: SemanticVersion)
    requires repo.history != [] && commits != [] && WellFormed(last) && WellFormed(target)
    ensures RisesOver(repo, commits, tag, last, row, Some(target))
  {
    hide Rises;
    LaterRises(repo, AddCommits(repo, commits), tag, last, row, row + |commits|, Some(target));
  }

  /** Under the condition any run of untagged commits raises the version. */
  lemma RunRaises(repo: Repo, commits: seq<Commit>, tag: string, last: SemanticVersion, row: nat,
                  target: Option<SemanticVersion>)
    requires ValidRepo(repo) && commits != [] && WellFormed(last) && (target.Some? ==> WellFormed(target.value))
    requires Raising(repo, tag, last, row, target)
    ensures RisesOver(repo, commits, tag, last, row, target)
  {
    hide VersionOf, LevelOf;
    if repo.history != [] {
      hide Rises;
      if target.Some? {
        RunRaisesWithTarget(repo, commits, tag, last, row, target.value);
      } else {
        LinesKeepLevel(repo, commits, tag);
        LaterRises(repo, AddCommits(repo, commits), tag, last, row, row + |commits|, None);
      }
    }
  }

  /** Outside the condition one plain commit does not raise it. */
  lemma PlainCommitStays(repo: Repo, tag: string, last: SemanticVersion, row: nat, target: Option<SemanticVersion>)
    requires ValidRepo(repo) && IsLastTag(repo.history, tag, row) && WellFormed(last)
    requires !Raising(repo, tag, last, row, target)
    ensures Untagged(Commit([], "x")) && !RisesOver(repo, [Commit([], "x")], tag, last, row, target)
  {
    hide Changelog;
    var plain := Commit([], "x");
    assert AddCommits(repo, [plain]) == AddCommit(repo, plain);
    if repo.history != [] {
      PlainCommitHides(repo, tag);
      LowerImpactFalls(repo, AddCommit(repo, plain), tag, last, row);
    } else {
      LtIrreflexive(last);
    }
  }

  /**
   * Every next untagged commit, and every run of them, raises the version exactly under the condition. Without a
   * target a header indented in the first line of the newest message counts until a later commit hides that line.
   */
  lemma EveryCommitRaises(repo: Repo, tag: string, last: SemanticVersion, row: nat, target: Option<SemanticVersion>)
    requires ValidRepo(repo) && IsLastTag(repo.history, tag, row)
    requires WellFormed(last) && (target.Some? ==> WellFormed(target.value))
    ensures NextCommitsRaise(repo, tag, last, row, target) <==> Raising(repo, tag, last, row, target)
    ensures AllRunsRaise(repo, tag, last, row, target) <==> NextCommitsRaise(repo, tag, last, row, target)
  {
    hide RisesOver, Raising;
    if Raising(repo, tag, last, row, target) {
      forall commits: seq<Commit> | commits != []
        ensures RisesOver(repo, commits, tag, last, row, target)
      {
        RunRaises(repo, commits, tag, last, row, target);
      }
    } else {
      PlainCommitStays(repo, tag, last, row, target);
      assert AllUntagged([Commit([], "x")]);
    }
  }

  // ------------------------------------------------- the computed versions

  /** The tags of the first tagged commit resolve to it, and the versions they name are well formed. */
  ghost predicate LastTagsSound(repo: Repo) {
    var first := FirstTagged(repo.history);
    first < |repo.history| ==>
      && (forall t | t in repo.history[first].tags :: t in repo.refs && repo.refs[t] == |repo.history| - first)
      && (forall v | v in VersionTags(repo.history[first]) :: WellFormed(v))
  }

  /** The row every last tag is found at. */
  function LastRow(history: seq<Commit>): nat {
    var first := FirstTagged(history);
    if first == |history| && first > 0 then first - 1 else first
  }

  lemma LastTagNames(repo: Repo, tag: string, row: nat)
    requires LastTagsSound(repo) && IsLastTag(repo.history, tag, row)
    ensures row == LastRow(repo.history) && (tag == "" <==> FirstTagged(repo.history) == |repo.history|)
    ensures LastVersion(tag).Some? && WellFormed(LastVersion(tag).value)
  {
    if FirstTagged(repo.history) == |repo.history| {
      ZeroParses();
    } else {
      assert ParsePip(tag).value in VersionTags(repo.history[row]);
      assert tag != "";
    }
  }

  /** Two highest versions are equal, or a prerelease and its development version at the sentinel. */
  lemma HighestAreOne(v: SemanticVersion, w: SemanticVersion, versions: set<SemanticVersion>)
    requires Highest(v, versions) && Highest(w, versions) && WellFormed(v) && WellFormed(w)
    ensures v.(dev := 0) == w.(dev := 0)
  {
    TotalOrder(v, w);
  }

  /** Past the tag the dev count of the last version plays no part. */
  lemma DevCountForgotten(v: SemanticVersion, w: SemanticVersion, distance: nat, minor: bool, major: bool,
                          target: Option<SemanticVersion>)
    requires WellFormed(v) && WellFormed(w) && v.(dev := 0) == w.(dev := 0) && distance > 0
    ensures VersionFrom(v, distance, minor, major, target) == VersionFrom(w, distance, minor, major, target)
  {
    assert Increment(v, minor, major) == Increment(w, minor, major);
  }

  /** Any two last tags have the same log, and versions that differ in the dev count at most. */
  lemma SameLog(repo: Repo, t: string, u: string, row: nat)
    requires LastTagsSound(repo) && IsLastTag(repo.history, t, row) && IsLastTag(repo.history, u, row)
    ensures Since(repo, t) == Since(repo, u) && (repo.history == [] ==> t == u)
    ensures LastVersion(t).Some? && LastVersion(u).Some?
    ensures LastVersion(t).value.(dev := 0) == LastVersion(u).value.(dev := 0)
  {
    hide ParsePip, VersionTags;
    LastTagNames(repo, t, row);
    LastTagNames(repo, u, row);
    if t != u {
      HighestAreOne(LastVersion(t).value, LastVersion(u).value, VersionTags(repo.history[row]));
    }
  }

  /** The log runs from the newest commit down to, and without, the one with the tag. */
  lemma LogEndsAtTag(repo: Repo, tag: string, row: nat)
    requires LastTagsSound(repo) && IsLastTag(repo.history, tag, row)
    ensures Since(repo, tag) == if tag == "" then repo.history else repo.history[..row]
    ensures tag != "" ==> row < |repo.history| && tag in repo.history[row].tags
    ensures forall i | 0 <= i < |Since(repo, tag)| :: VersionTags(Since(repo, tag)[i]) == {}
  {
    LastTagNames(repo, tag, row);
  }

  /** The last tag names a version no other version on its commit is above. */
  lemma LastTagIsHighest(repo: Repo, tag: string, row: nat, other: string)
    requires LastTagsSound(repo) && IsLastTag(repo.history, tag, row) && tag != ""
    requires row < |repo.history| && other in repo.history[row].tags && ParsePip(other).Some?
    ensures var v, w := LastVersion(tag), ParsePip(other).value;
            && v.Some? && WellFormed(v.value) && WellFormed(w)
            && (w == v.value || Lt(w, v.value) || DevCollision(w, v.value))
  {
    hide ParsePip;
    LastTagNames(repo, tag, row);
    assert ParsePip(other).value in VersionTags(repo.history[row]);
    TotalOrder(LastVersion(tag).value, ParsePip(other).value);
  }

  /** Whatever the calculation returns, it is an error exactly for a target that is too low. */
  lemma ComputedExactly(repo: Repo, target: Option<SemanticVersion>, r: Result<SemanticVersion, Error>)
    requires LastTagsSound(repo) && (target.Some? ==> WellFormed(target.value)) && Computes(repo, target, r)
    ensures exists tag | IsLastTag(repo.history, tag, LastRow(repo.history)) ::
              && LastVersion(tag).Some? && WellFormed(LastVersion(tag).value)
              && var row, symbols := LastRow(repo.history), LogSymbols(Changelog(repo, tag));
                 var next := Next(LastVersion(tag).value, row, Minor(symbols), Major(symbols));
                 && WellFormed(next)
                 && (r.Err? <==> target.Some? && TooLow(target.value, next))
                 && (r.Err? ==> r.error == TargetTooLow)
                 && (row == 0 && r.Ok? ==> r == Ok(LastVersion(tag).value))
  {
    hide IsLastTag, LastTagsSound, LastVersion, Changelog, TooLow, LogSymbols;
    var tag, row :| && IsLastTag(repo.history, tag, row) && LastVersion(tag).Some?
                    && Constructed(LastVersion(tag).value)
                    && r == VersionOf(repo, tag, LastVersion(tag).value, row, target);
    LastTagNames(repo, tag, row);
    var symbols := LogSymbols(Changelog(repo, tag));
    RejectedExactly(LastVersion(tag).value, row, Minor(symbols), Major(symbols), target);
    if r.Ok? {
      ResultExactly(LastVersion(tag).value, row, Minor(symbols), Major(symbols), target);
    }
  }

  /** Whichever last tag is chosen, the log is the same, and past it the version is the same. */
  lemma LastTagChoice(repo: Repo, t: string, u: string, row: nat, target: Option<SemanticVersion>)
    requires LastTagsSound(repo) && IsLastTag(repo.history, t, row) && IsLastTag(repo.history, u, row)
    ensures Since(repo, t) == Since(repo, u) && (repo.history == [] ==> t == u)
    ensures LastVersion(t).Some? && WellFormed(LastVersion(t).value)
    ensures LastVersion(u).Some? && WellFormed(LastVersion(u).value)
    ensures row > 0 ==> VersionOf(repo, t, LastVersion(t).value, row, target) ==
                        VersionOf(repo, u, LastVersion(u).value, row, target)
  {
    hide IsLastTag, LastVersion, LastTagsSound, Since, VersionFrom, Strip, LogText, Level;
    LastTagNames(repo, t, row);
    LastTagNames(repo, u, row);
    SameLog(repo, t, u, row);
    if row > 0 {
      var symbols := LogSymbols(Changelog(repo, t));
      DevCountForgotten(LastVersion(t).value, LastVersion(u).value, row, Minor(symbols), Major(symbols), target);
    }
  }

  /** After untagged commits the last tags are those from before. */
  lemma LastTagsStay(repo: Repo, commits: seq<Commit>, tag: string, row: nat)
    requires LastTagsSound(repo) && commits != [] && AllUntagged(commits)
    requires IsLastTag(AddCommits(repo, commits).history, tag, row)
    ensures LastTagsSound(AddCommits(repo, commits))
    ensures IsLastTag(repo.history, tag, LastRow(repo.history))
    ensures row == RowAfter(repo.history, LastRow(repo.history), |commits|)
  {
    hide VersionTags, Highest, ParsePip;
    FirstTaggedMovesBy(repo.history, commits);
    var first := FirstTagged(repo.history);
    if first < |repo.history| {
      assert (commits + repo.history)[first + |commits|] == repo.history[first];
    }
  }

  /** Whatever the calculation returns before and after the commits, the later version is higher. */
  ghost predicate ComputedRise(repo: Repo, commits: seq<Commit>, target: Option<SemanticVersion>) {
    forall v, w | Computes(repo, target, Ok(v)) && Computes(AddCommits(repo, commits), target, Ok(w)) ::
      WellFormed(v) && WellFormed(w) && Lt(v, w)
  }

  /** The version rises for each choice of last tag. */
  ghost predicate EachChoiceRises(repo: Repo, commits: seq<Commit>, row: nat, target: Option<SemanticVersion>)
    requires commits != []
  {
    forall t | IsLastTag(repo.history, t, row) && LastVersion(t).Some? && WellFormed(LastVersion(t).value) ::
      RisesOver(repo, commits, t, LastVersion(t).value, row, target)
  }

  /** Then so does what is computed. */
  lemma RisesOverChoices(repo: Repo, commits: seq<Commit>, target: Option<SemanticVersion>, v: SemanticVersion,
                         w: SemanticVersion)
    requires LastTagsSound(repo) && commits != [] && AllUntagged(commits)
    requires EachChoiceRises(repo, commits, LastRow(repo.history), target)
    requires Computes(repo, target, Ok(v)) && Computes(AddCommits(repo, commits), target, Ok(w))
    ensures WellFormed(v) && WellFormed(w) && Lt(v, w)
  {
    hide IsLastTag, LastVersion, VersionOf, LastTagsSound;
    var later := AddCommits(repo, commits);
    var t, row :| && IsLastTag(repo.history, t, row) && LastVersion(t).Some? && Constructed(LastVersion(t).value)
                  && Ok(v) == VersionOf(repo, t, LastVersion(t).value, row, target);
    var u, row' :| && IsLastTag(later.history, u, row') && LastVersion(u).Some? && Constructed(LastVersion(u).value)
                   && Ok(w) == VersionOf(later, u, LastVersion(u).value, row', target);
    LastTagNames(repo, t, row);
    LastTagsStay(repo, commits, u, row');
    TagMovesBy(repo.history, commits, t, row, row');
    LastTagChoice(repo, t, u, row, target);
    LastTagChoice(later, t, u, row', target);
  }

  /** It does not, if for some choice the version does not rise. */
  lemma StaysForChoice(repo: Repo, commits: seq<Commit>, tag: string, row: nat, target: Option<SemanticVersion>)
    requires LastTagsSound(repo) && commits != [] && AllUntagged(commits) && IsLastTag(repo.history, tag, row)
    requires LastVersion(tag).Some? && WellFormed(LastVersion(tag).value)
    requires !RisesOver(repo, commits, tag, LastVersion(tag).value, row, target)
    ensures !ComputedRise(repo, commits, target)
  {
    hide IsLastTag, LastVersion, VersionOf;
    var last, later, row' := LastVersion(tag).value, AddCommits(repo, commits), RowAfter(repo.history, row, |commits|);
    TagMovesBy(repo.history, commits, tag, row, row');
    var before, after := VersionOf(repo, tag, last, row, target), VersionOf(later, tag, last, row', target);
    assert Computes(repo, target, before) && Computes(later, target, after);
  }

  /** The condition does not depend on the choice. */
  lemma RaisingForChoice(repo: Repo, t: string, u: string, row: nat, target: Option<SemanticVersion>)
    requires LastTagsSound(repo) && IsLastTag(repo.history, t, row) && IsLastTag(repo.history, u, row)
    requires LastVersion(t).Some? && WellFormed(LastVersion(t).value)
    requires LastVersion(u).Some? && WellFormed(LastVersion(u).value)
    ensures Raising(repo, t, LastVersion(t).value, row, target) <==> Raising(repo, u, LastVersion(u).value, row, target)
  {
    hide VersionOf, Level, LogSymbols, Strip, LogText;
    LastTagChoice(repo, t, u, row, target);
  }

  /** Under the condition for one choice, a run raises the version for each. */
  lemma RunRaisesForChoices(repo: Repo, commits: seq<Commit>, tag: string, row: nat, target: Option<SemanticVersion>)
    requires ValidRepo(repo) && LastTagsSound(repo) && (target.Some? ==> WellFormed(target.value)) && commits != []
    requires IsLastTag(repo.history, tag, row)
    requires LastVersion(tag).Some? && WellFormed(LastVersion(tag).value)
    requires Raising(repo, tag, LastVersion(tag).value, row, target)
    ensures EachChoiceRises(repo, commits, row, target)
  {
    hide IsLastTag, LastVersion, LastTagsSound, Raising, RisesOver, ValidRepo, FirstTagged;
    forall t | IsLastTag(repo.history, t, row) && LastVersion(t).Some? && WellFormed(LastVersion(t).value)
      ensures RisesOver(repo, commits, t, LastVersion(t).value, row, target)
    {
      RaisingForChoice(repo, tag, t, row, target);
      RunRaises(repo, commits, t, LastVersion(t).value, row, target);
    }
  }

  lemma ChoicesSuffice(repo: Repo, commits: seq<Commit>, target: Option<SemanticVersion>)
    requires LastTagsSound(repo) && commits != [] && AllUntagged(commits)
    requires EachChoiceRises(repo, commits, LastRow(repo.history), target)
    ensures ComputedRise(repo, commits, target)
  {
    hide LastTagsSound, EachChoiceRises, Computes, LastRow, AllUntagged, Lt, AddCommits, FirstTagged;
    forall v, w | Computes(repo, target, Ok(v)) && Computes(AddCommits(repo, commits), target, Ok(w))
      ensures WellFormed(v) && WellFormed(w) && Lt(v, w)
    {
      RisesOverChoices(repo, commits, target, v, w);
    }
  }

  /** Under the condition for one choice, every run raises what the calculation returns. */
  lemma ComputedRuns(repo: Repo, commits: seq<Commit>, tag: string, row: nat, target: Option<SemanticVersion>)
    requires ValidRepo(repo) && LastTagsSound(repo) && (target.Some? ==> WellFormed(target.value))
    requires IsLastTag(repo.history, tag, row) && commits != [] && AllUntagged(commits)
    requires LastVersion(tag).Some? && WellFormed(LastVersion(tag).value)
    requires Raising(repo, tag, LastVersion(tag).value, row, target)
    ensures ComputedRise(repo, commits, target)
  {
    hide *;
    LastTagNames(repo, tag, row);
    RunRaisesForChoices(repo, commits, tag, row, target);
    ChoicesSuffice(repo, commits, target);
  }

  /**
   * The versions the calculation returns rise with every next untagged commit, and with every run of them,
   * exactly under the condition, whichever of several equal tags is chosen each time.
   */
  lemma EveryComputedVersionRises(repo: Repo, tag: string, row: nat, target: Option<SemanticVersion>)
    requires ValidRepo(repo) && LastTagsSound(repo) && (target.Some? ==> WellFormed(target.value))
    requires IsLastTag(repo.history, tag, row)
    ensures LastVersion(tag).Some? && WellFormed(LastVersion(tag).value)
    ensures (forall commit | Untagged(commit) :: ComputedRise(repo, [commit], target)) <==>
            Raising(repo, tag, LastVersion(tag).value, row, target)
    ensures (forall commits | commits != [] && AllUntagged(commits) :: ComputedRise(repo, commits, target)) <==>
            Raising(repo, tag, LastVersion(tag).value, row, target)
  {
    hide IsLastTag, LastVersion, LastTagsSound, RisesOver, ComputedRise, Raising, FirstTagged, LastRow;
    LastTagNames(repo, tag, row);
    if Raising(repo, tag, LastVersion(tag).value, row, target) {
      forall commits | commits != [] && AllUntagged(commits)
        ensures ComputedRise(repo, commits, target)
      {
        ComputedRuns(repo, commits, tag, row, target);
      }
    } else {
      var plain := Commit([], "x");
      PlainCommitStays(repo, tag, LastVersion(tag).value, row, target);
      assert AllUntagged([plain]);
      StaysForChoice(repo, [plain], tag, row, target);
    }
  }

  /** The first commit of an untagged history does not raise the version: the row counts from zero. */
  lemma FirstCommitStays(commit: Commit, refs: map<string, nat>, target: Option<SemanticVersion>)
    requires Untagged(commit)
    ensures IsLastTag([], "", 0) && IsLastTag([commit], "", 0)
    ensures LastVersion("") == Some(SemanticVersion(0, 0, 0, None, None, 0))
    ensures var last := LastVersion("").value;
            && VersionOf(Repo([commit], refs), "", last, 0, target) == VersionOf(Repo([], refs), "", last, 0, target)
            && VersionOf(Repo([], refs), "", last, 0, None) == Ok(last)
  {
    ZeroParses();
    FirstTaggedMoves([], commit);
    assert [commit] + [] == [commit];
  }
}
