/** How stripping the output of git log changes the Sem-Ver symbols read from it. */
module GitLog {
  import opened Text
  import opened GitVersion

  lemma {:induction false} SymbolsAppend(a: seq<string>, b: seq<string>)
    ensures Symbols(a + b) == Symbols(a) + Symbols(b)
  {
    if b == [] {
      assert a + b == a;
    } else {
      var init := b[..|b| - 1];
      SymbolsAppend(a, init);
      assert (a + b)[..|a + b| - 1] == a + init;
    }
  }

  lemma SymbolsCons(line: string, rest: seq<string>)
    ensures Symbols([line] + rest) == LineSymbols(line) + Symbols(rest)
  {
    SymbolsAppend([line], rest);
    assert [line][..0] == [];
  }

  /** The symbols of the first line once leading white space is stripped. */
  function Lead(text: string): set<string> {
    LineSymbols(Split(LStrip(text), '\n')[0])
  }

  lemma NotHeader(line: string)
    requires line == "" || IsSpace(line[0])
    ensures LineSymbols(line) == {}
  {
    if line != "" {
      assert Lower(line)[0] == LowerChar(line[0]) != 's';
    }
  }

  /** The parts of a text at the commas, stripped. */
  function Listed(text: string): set<string> {
    set part | part in Split(text, ',') :: Strip(part)
  }

  lemma {:induction false} ListedLStrip(text: string)
    ensures Listed(LStrip(text)) == Listed(text)
  {
    if text != "" && IsSpace(text[0]) {
      var parts := Split(text[1..], ',');
      ListedLStrip(text[1..]);
      assert ([text[0]] + parts[0])[1..] == parts[0];
      assert Strip([text[0]] + parts[0]) == Strip(parts[0]);
      assert parts == [parts[0]] + parts[1..];
      assert Split(text, ',') == [[text[0]] + parts[0]] + parts[1..];
      forall x
        ensures x in Listed(text) <==> x in Listed(text[1..])
      {
        assert parts[0] in parts && [text[0]] + parts[0] in Split(text, ',');
      }
    }
  }

  lemma {:induction false} ListedRStrip(text: string)
    ensures Listed(RStrip(text)) == Listed(text)
  {
    if text != "" && IsSpace(text[|text| - 1]) {
      var init, c := text[..|text| - 1], text[|text| - 1];
      var parts := Split(init, ',');
      var n := |parts| - 1;
      assert text == init + [c];
      ListedRStrip(init);
      SplitSnoc(init, c, ',');
      StripSnoc(parts[n], c);
      assert parts == parts[..n] + [parts[n]];
      forall x
        ensures x in Listed(text) <==> x in Listed(init)
      {
        assert parts[n] in parts && parts[n] + [c] in Split(text, ',');
      }
    }
  }

  /** A header in any spelling lists exactly the stripped parts of what follows it; another line lists nothing. */
  lemma LineLists(line: string)
    ensures LineSymbols(line) == if |line| >= 8 && Lower(line[..8]) == "sem-ver:" then Listed(line[8..]) else {}
  {
    if |line| >= 8 {
      assert Lower(line)[..8] == Lower(line[..8]);
      ListedLStrip(line[8..]);
      ListedRStrip(LStrip(line[8..]));
    }
  }

  lemma {:induction false} SymbolsMembers(lines: seq<string>, symbol: string)
    ensures symbol in Symbols(lines) <==> exists line | line in lines :: symbol in LineSymbols(line)
  {
    if lines != [] {
      var n := |lines| - 1;
      SymbolsMembers(lines[..n], symbol);
      assert lines == lines[..n] + [lines[n]];
    }
  }

  /** A symbol of the log is one listed after a header at the start of one of its lines. */
  lemma ImpactOfLog(log: string, symbol: string)
    ensures symbol in LogSymbols(log) <==>
            exists line | line in Split(log, '\n') ::
              && |line| >= 8 && Lower(line[..8]) == "sem-ver:"
              && exists part | part in Split(line[8..], ',') :: Strip(part) == symbol
  {
    SymbolsMembers(Split(log, '\n'), symbol);
    forall line | line in Split(log, '\n')
      ensures symbol in LineSymbols(line) <==>
              && |line| >= 8 && Lower(line[..8]) == "sem-ver:"
              && exists part | part in Split(line[8..], ',') :: Strip(part) == symbol
    {
      LineLists(line);
    }
  }

  /** A message in front of a log adds its symbols. */
  lemma LogPrepends(message: string, older: string)
    ensures LogSymbols(message + ['\n'] + older) == LogSymbols(message) + LogSymbols(older)
  {
    SplitAppend(message, older, '\n');
    SymbolsAppend(Split(message, '\n'), Split(older, '\n'));
  }

  lemma EmptyLog()
    ensures LogSymbols("") == {}
  {
    SymbolsCons("", []);
    NotHeader("");
    assert [""] + [] == [""];
  }

  /** The log of some commits has the symbols of their messages. */
  lemma {:induction false} LogCollects(commits: seq<Commit>, symbol: string)
    ensures symbol in LogSymbols(LogText(commits)) <==>
            exists commit | commit in commits :: symbol in LogSymbols(commit.message)
  {
    hide LogSymbols;
    if commits == [] {
      EmptyLog();
    } else {
      LogCollects(commits[1..], symbol);
      LogPrepends(commits[0].message, LogText(commits[1..]));
      assert commits == [commits[0]] + commits[1..];
    }
  }

  /** The impact: major for api-break, minor for feature or deprecation, and nothing else matters. */
  lemma ImpactSymbols(symbols: set<string>)
    ensures Level(symbols) == if "api-break" in symbols then 2
                              else if "feature" in symbols || "deprecation" in symbols then 1 else 0
  {
  }

  /** The documented spelling is a header, and so is any other case. */
  lemma HeaderSpellings()
    ensures Lower("Sem-Ver:") == Lower("sem-ver:") == Lower("SEM-VER:") == "sem-ver:"
  {
  }

  /** Stripping at the front adds the symbols of the line it uncovers. */
  lemma {:induction false} LStripSymbols(text: string)
    ensures LogSymbols(LStrip(text)) == LogSymbols(text) + Lead(text)
  {
    var lines := Split(text, '\n');
    if text == "" || !IsSpace(text[0]) {
      SymbolsCons(lines[0], lines[1..]);
      assert lines == [lines[0]] + lines[1..];
    } else {
      var rest := Split(text[1..], '\n');
      LStripSymbols(text[1..]);
      if text[0] == '\n' {
        SymbolsCons("", rest);
        NotHeader("");
      } else {
        SymbolsCons([text[0]] + rest[0], rest[1..]);
        SymbolsCons(rest[0], rest[1..]);
        assert rest == [rest[0]] + rest[1..];
        NotHeader([text[0]] + rest[0]);
        assert LineSymbols(rest[0]) <= Lead(text[1..]) by {
          UnindentedLead(text[1..]);
        }
      }
    }
  }

  /** A first line that is a header is not indented, so stripping leaves it. */
  lemma UnindentedLead(text: string)
    ensures LineSymbols(Split(text, '\n')[0]) <= Lead(text)
  {
    var first := Split(text, '\n')[0];
    if text == "" || IsSpace(text[0]) {
      NotHeader(first);
    }
  }

  lemma {:induction false} SplitSnoc(text: string, c: char, sep: char)
    requires c != sep
    ensures var lines := Split(text, sep);
            Split(text + [c], sep) == lines[..|lines| - 1] + [lines[|lines| - 1] + [c]]
  {
    if text == "" {
      assert text + [c] == [c];
      SplitWithout([c], sep);
      assert "" + [c] == [c];
    } else {
      assert (text + [c])[1..] == text[1..] + [c];
      SplitSnoc(text[1..], c, sep);
      var rest := Split(text[1..], sep);
      if text[0] != sep && |rest| == 1 {
        assert [text[0]] + (rest[0] + [c]) == [text[0]] + rest[0] + [c];
      }
    }
  }

  lemma {:induction false} LStripSnoc(s: string, c: char)
    requires IsSpace(c)
    ensures LStrip(s + [c]) == if LStrip(s) == "" then "" else LStrip(s) + [c]
  {
    if s == "" {
      assert s + [c] == [c];
    } else {
      assert (s + [c])[1..] == s[1..] + [c];
      if IsSpace(s[0]) {
        LStripSnoc(s[1..], c);
      }
    }
  }

  lemma StripSnoc(s: string, c: char)
    requires IsSpace(c)
    ensures Strip(s + [c]) == Strip(s)
  {
    LStripSnoc(s, c);
    if LStrip(s) != "" {
      assert (LStrip(s) + [c])[..|LStrip(s)|] == LStrip(s);
    }
  }

  /** White space at the end of a line does not change its symbols. */
  lemma LineSnoc(line: string, c: char)
    requires IsSpace(c)
    ensures LineSymbols(line + [c]) == LineSymbols(line)
  {
    var longer := line + [c];
    if |line| >= 8 {
      assert forall i | 0 <= i < 8 :: Lower(longer)[i] == Lower(line)[i];
      assert IsHeader(longer) <==> IsHeader(line) by {
        assert Lower(longer)[..8] == Lower(line)[..8];
      }
      assert longer[8..] == line[8..] + [c];
      StripSnoc(line[8..], c);
    } else if |line| == 7 {
      assert Lower(longer)[7] == LowerChar(c);
      assert !IsHeader(longer) by {
        assert "sem-ver:"[7] == ':';
      }
    }
  }

  /** Stripping at the end keeps the symbols. */
  lemma {:induction false} RStripSymbols(text: string)
    ensures LogSymbols(RStrip(text)) == LogSymbols(text)
  {
    if text != "" && IsSpace(text[|text| - 1]) {
      var init, c := text[..|text| - 1], text[|text| - 1];
      assert text == init + [c];
      RStripSymbols(init);
      var lines := Split(init, '\n');
      if c == '\n' {
        SplitAppend(init, "", '\n');
        assert init + [c] + "" == text;
        SymbolsAppend(lines, [""]);
        SymbolsCons("", []);
        NotHeader("");
        assert [""] + [] == [""];
      } else {
        SplitSnoc(init, c, '\n');
        LineSnoc(lines[|lines| - 1], c);
        SymbolsAppend(lines[..|lines| - 1], [lines[|lines| - 1] + [c]]);
      }
    }
  }

  /** The stripped log has the symbols of its lines and those of the first line it uncovers. */
  lemma StripSymbols(text: string)
    ensures LogSymbols(Strip(text)) == LogSymbols(text) + Lead(text)
  {
    LStripSymbols(text);
    RStripSymbols(LStrip(text));
  }

  /** The uncovered line of a longer log is that of the newest message, or of the older log when it is blank. */
  lemma {:induction false} LeadAppend(message: string, older: string)
    ensures Lead(message + ['\n'] + older) == if LStrip(message) == "" then Lead(older) else Lead(message)
  {
    var whole := message + ['\n'] + older;
    if message == "" {
      assert whole[1..] == older;
    } else if IsSpace(message[0]) {
      assert whole[1..] == message[1..] + ['\n'] + older;
      LeadAppend(message[1..], older);
    } else {
      SplitAppend(message, older, '\n');
    }
  }
}
