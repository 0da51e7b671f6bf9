/** The data_files and package_data options: a dictionary of lists filled line by line through an alias. */
module DataFiles {
  import opened Wrappers
  import opened Text

  datatype Error = MissingEquals | BadQuoting | EmptyKey

  /** A Python list. */
  class StringList {
    var items: seq<string>

    constructor (items: seq<string>)
      ensures this.items == items
    {
      this.items := items;
    }

    method Extend(more: seq<string>)
      modifies this
      ensures items == old(items) + more
    {
      items := items + more;
    }
  }

  /** `shlex.split`, an unknown function; None stands for its ValueError. */
  type Splitter = string -> Option<seq<string>>

  /** The part of a line before its first '=', all of it without one. */
  function BeforeEquals(line: string): (s: string)
    ensures s <= line && '=' !in s
    ensures '=' in line ==> |s| < |line| && line[|s|] == '='
    ensures '=' !in line ==> s == line
  {
    if line == "" || line[0] == '=' then "" else [line[0]] + BeforeEquals(line[1..])
  }

  function ValuePart(line: string): string
    requires '=' in line
  {
    Strip(line[|BeforeEquals(line)| + 1..])
  }

  /** The quoted part that holds the file names of a line. */
  function FilesPart(line: string): string {
    if '=' in line then ValuePart(line) else Strip(line)
  }

  /** What goes wrong on line i, if anything. */
  function LineError(lines: seq<string>, i: nat, shlex: Splitter): Option<Error>
    requires i < |lines|
  {
    var line := lines[i];
    if '=' in line then
      match shlex(Strip(BeforeEquals(line)))
      case None => Some(BadQuoting)
      case Some(words) =>
        if words == [] then Some(EmptyKey)
        else if shlex(ValuePart(line)).None? then Some(BadQuoting)
        else None
    else if i == 0 then Some(MissingEquals)
    else if shlex(Strip(line)).None? then Some(BadQuoting)
    else None
  }

  /** The first n lines are free of errors. */
  predicate Clean(lines: seq<string>, n: nat, shlex: Splitter)
    requires n <= |lines|
  {
    forall i | 0 <= i < n :: LineError(lines, i, shlex) == None
  }

  /** The unquoted key of a line with '='. */
  function RawKey(line: string, shlex: Splitter): string
    requires '=' in line
    requires shlex(Strip(BeforeEquals(line))).Some? && shlex(Strip(BeforeEquals(line))).value != []
  {
    shlex(Strip(BeforeEquals(line))).value[0]
  }

  /** The key line i is attributed to: that of the last line with '=' up to it. */
  function KeyAt(lines: seq<string>, i: nat, shlex: Splitter): string
    requires i < |lines| && Clean(lines, i + 1, shlex)
  {
    assert LineError(lines, i, shlex) == None;
    if '=' in lines[i] then Strip(RawKey(lines[i], shlex)) else KeyAt(lines, i - 1, shlex)
  }

  function TokensAt(lines: seq<string>, i: nat, shlex: Splitter): seq<string>
    requires i < |lines| && LineError(lines, i, shlex) == None
  {
    shlex(FilesPart(lines[i])).value
  }

  /** A key that keeps surrounding space after unquoting is never found, so its line starts the list afresh. */
  predicate StartsAfresh(lines: seq<string>, i: nat, shlex: Splitter)
    requires i < |lines| && LineError(lines, i, shlex) == None
  {
    '=' in lines[i] && Strip(RawKey(lines[i], shlex)) != RawKey(lines[i], shlex)
  }

  function KeysSeen(lines: seq<string>, n: nat, shlex: Splitter): set<string>
    requires n <= |lines| && Clean(lines, n, shlex)
  {
    set i | 0 <= i < n :: KeyAt(lines, i, shlex)
  }

  /** In order, the tokens of all lines attributed to a key. */
  function Concatenated(lines: seq<string>, n: nat, shlex: Splitter, key: string): seq<string>
    requires n <= |lines| && Clean(lines, n, shlex)
  {
    if n == 0 then []
    else if KeyAt(lines, n - 1, shlex) == key then
      Concatenated(lines, n - 1, shlex, key) + TokensAt(lines, n - 1, shlex)
    else Concatenated(lines, n - 1, shlex, key)
  }

  /** The same, from the last line that starts the list afresh. */
  function Collected(lines: seq<string>, n: nat, shlex: Splitter, key: string): seq<string>
    requires n <= |lines| && Clean(lines, n, shlex)
  {
    if n == 0 then []
    else if KeyAt(lines, n - 1, shlex) == key then
      (if StartsAfresh(lines, n - 1, shlex) then [] else Collected(lines, n - 1, shlex, key))
      + TokensAt(lines, n - 1, shlex)
    else Collected(lines, n - 1, shlex, key)
  }

  lemma {:induction false} UnseenKeyIsEmpty(lines: seq<string>, n: nat, shlex: Splitter, key: string)
    requires n <= |lines| && Clean(lines, n, shlex) && key !in KeysSeen(lines, n, shlex)
    ensures Collected(lines, n, shlex, key) == []
  {
    if n > 0 {
      assert KeyAt(lines, n - 1, shlex) in KeysSeen(lines, n, shlex);
      forall i | 0 <= i < n - 1
        ensures KeyAt(lines, i, shlex) in KeysSeen(lines, n, shlex)
      {
      }
      UnseenKeyIsEmpty(lines, n - 1, shlex, key);
    }
  }

  lemma {:induction false} KeysAreStripped(lines: seq<string>, n: nat, shlex: Splitter)
    requires n <= |lines| && Clean(lines, n, shlex)
    ensures forall key | key in KeysSeen(lines, n, shlex) :: Strip(key) == key
  {
    forall i | 0 <= i < n
      ensures Strip(KeyAt(lines, i, shlex)) == KeyAt(lines, i, shlex)
    {
      KeyIsStripped(lines, i, shlex);
    }
  }

  lemma {:induction false} KeyIsStripped(lines: seq<string>, i: nat, shlex: Splitter)
    requires i < |lines| && Clean(lines, i + 1, shlex)
    ensures Strip(KeyAt(lines, i, shlex)) == KeyAt(lines, i, shlex)
  {
    assert LineError(lines, i, shlex) == None;
    if '=' in lines[i] {
      StripIdempotent(RawKey(lines[i], shlex));
    } else {
      KeyIsStripped(lines, i - 1, shlex);
    }
  }

  lemma {:induction false} RStripTrimmed(s: string)
    ensures RStrip(s) <= s
    ensures RStrip(s) != "" ==> !IsSpace(RStrip(s)[|RStrip(s)| - 1])
  {
    if s != "" && IsSpace(s[|s| - 1]) {
      RStripTrimmed(s[..|s| - 1]);
    }
  }

  lemma {:induction false} LStripTrimmed(s: string)
    ensures LStrip(s) != "" ==> !IsSpace(LStrip(s)[0])
  {
    if s != "" && IsSpace(s[0]) {
      LStripTrimmed(s[1..]);
    }
  }

  lemma StripIdempotent(s: string)
    ensures Strip(Strip(s)) == Strip(s)
  {
    LStripTrimmed(s);
    RStripTrimmed(LStrip(s));
    var t := Strip(s);
    if t != "" {
      assert t[0] == LStrip(s)[0];
    }
  }

  /** The dictionary after n lines, as plain values: lookup by the key as it stands, storage under it stripped. */
  function Contents(lines: seq<string>, n: nat, shlex: Splitter): map<string, seq<string>>
    requires n <= |lines| && Clean(lines, n, shlex)
  {
    if n == 0 then map[]
    else
      var c := Contents(lines, n - 1, shlex);
      assert LineError(lines, n - 1, shlex) == None;
      if '=' in lines[n - 1] then
        var key := RawKey(lines[n - 1], shlex);
        c[Strip(key) := (if key in c then c[key] else []) + TokensAt(lines, n - 1, shlex)]
      else
        var key := KeyAt(lines, n - 2, shlex);
        c[key := (if key in c then c[key] else []) + TokensAt(lines, n - 1, shlex)]
  }

  /** The dictionary has one separate list per key, with the given contents. */
  ghost predicate Holds(dict: map<string, StringList>, contents: map<string, seq<string>>)
    reads dict.Values
  {
    && dict.Keys == contents.Keys
    && (forall key | key in dict :: dict[key].items == contents[key])
    && (forall key, other | key in dict && other in dict && key != other :: dict[key] != dict[other])
  }

  lemma KeysSeenStep(lines: seq<string>, i: nat, shlex: Splitter)
    requires i < |lines| && Clean(lines, i, shlex) && Clean(lines, i + 1, shlex)
    ensures KeysSeen(lines, i + 1, shlex) == KeysSeen(lines, i, shlex) + {KeyAt(lines, i, shlex)}
  {
    forall key | key in KeysSeen(lines, i, shlex) + {KeyAt(lines, i, shlex)}
      ensures key in KeysSeen(lines, i + 1, shlex)
    {
    }
  }

  /** One line more: its key's list grows by its tokens, from nothing if the key was not seen or starts afresh. */
  lemma CollectedStep(lines: seq<string>, i: nat, shlex: Splitter)
    requires i < |lines| && Clean(lines, i + 1, shlex)
    ensures KeysSeen(lines, i + 1, shlex) == KeysSeen(lines, i, shlex) + {KeyAt(lines, i, shlex)}
    ensures forall key | key != KeyAt(lines, i, shlex) ::
              Collected(lines, i + 1, shlex, key) == Collected(lines, i, shlex, key)
    ensures var key := KeyAt(lines, i, shlex);
            Collected(lines, i + 1, shlex, key) ==
            (if StartsAfresh(lines, i, shlex) then [] else Collected(lines, i, shlex, key)) + TokensAt(lines, i, shlex)
  {
    KeysSeenStep(lines, i, shlex);
  }

  /** What the dictionary finds under the key of a line is what was collected for it, unless it starts afresh. */
  lemma FoundIsCollected(lines: seq<string>, i: nat, shlex: Splitter, c: map<string, seq<string>>)
    requires i < |lines| && Clean(lines, i + 1, shlex)
    requires c.Keys == KeysSeen(lines, i, shlex)
    requires forall key | key in c :: c[key] == Collected(lines, i, shlex, key)
    ensures LineError(lines, i, shlex) == None
    ensures var key := KeyAt(lines, i, shlex);
            var found := if '=' in lines[i] then RawKey(lines[i], shlex) else key;
            (if found in c then c[found] else []) ==
            if StartsAfresh(lines, i, shlex) then [] else Collected(lines, i, shlex, key)
  {
    hide Collected, TokensAt;
    assert LineError(lines, i, shlex) == None;
    KeysAreStripped(lines, i, shlex);
    if KeyAt(lines, i, shlex) !in KeysSeen(lines, i, shlex) {
      UnseenKeyIsEmpty(lines, i, shlex, KeyAt(lines, i, shlex));
    }
  }

  /** The dictionary has exactly the keys lines were attributed to, each with what was collected for it. */
  lemma {:induction false} ContentsAreCollected(lines: seq<string>, n: nat, shlex: Splitter)
    requires n <= |lines| && Clean(lines, n, shlex)
    ensures Contents(lines, n, shlex).Keys == KeysSeen(lines, n, shlex)
    ensures forall key | key in Contents(lines, n, shlex) ::
              Contents(lines, n, shlex)[key] == Collected(lines, n, shlex, key)
  {
    if n > 0 {
      hide Contents, Collected, KeysSeen, KeyAt, TokensAt, StartsAfresh, LineError, RawKey;
      var i := n - 1;
      ContentsAreCollected(lines, i, shlex);
      FoundIsCollected(lines, i, shlex, Contents(lines, i, shlex));
      ContentsStep(lines, i, shlex);
      CollectedStep(lines, i, shlex);
    }
  }

  lemma KeyIsStrippedWhenFound(lines: seq<string>, n: nat, shlex: Splitter, key: string)
    requires n <= |lines| && Clean(lines, n, shlex)
    ensures key in Contents(lines, n, shlex) ==> Strip(key) == key
  {
    ContentsAreCollected(lines, n, shlex);
    KeysAreStripped(lines, n, shlex);
  }

  /** Extend the list found under the key as it stands, or store a new one under it stripped. */
  method Attribute(dict: map<string, StringList>, key: string, tokens: seq<string>,
                   ghost contents: map<string, seq<string>>)
    returns (longer: map<string, StringList>, prev: StringList)
    requires Holds(dict, contents) && (key in dict ==> Strip(key) == key)
    modifies dict.Values
    ensures Holds(longer, contents[Strip(key) := (if key in contents then contents[key] else []) + tokens])
    ensures prev == longer[Strip(key)]
    ensures forall k | k in longer :: (k in dict && longer[k] == dict[k]) || fresh(longer[k])
  {
    if key in dict {
      prev, longer := dict[key], dict;
      prev.Extend(tokens);
    } else {
      prev := new StringList(tokens);
      longer := dict[Strip(key) := prev];
    }
  }

  /** Extending the current list through its alias changes that key's list and no other. */
  method Continue(prev: StringList, tokens: seq<string>,
                  ghost dict: map<string, StringList>, ghost key: string, ghost contents: map<string, seq<string>>)
    requires Holds(dict, contents) && key in dict && prev == dict[key]
    modifies prev
    ensures Holds(dict, contents[key := contents[key] + tokens])
  {
    prev.Extend(tokens);
  }

  /** A line read: its unquoted key, if it has one, and its file names. */
  datatype Line = Keyed(key: string, files: seq<string>) | Continued(files: seq<string>)

  method ReadLine(lines: seq<string>, i: nat, shlex: Splitter) returns (r: Result<Line, Error>)
    requires i < |lines|
    ensures r.Err? ==> LineError(lines, i, shlex) == Some(r.error)
    ensures r.Ok? ==> LineError(lines, i, shlex) == None && r.value.files == TokensAt(lines, i, shlex)
    ensures r.Ok? ==> (r.value.Keyed? <==> '=' in lines[i]) && (i == 0 ==> r.value.Keyed?)
    ensures r.Ok? && r.value.Keyed? ==> r.value.key == RawKey(lines[i], shlex)
  {
    var line := lines[i];
    if '=' in line {
      var words := shlex(Strip(BeforeEquals(line)));
      if words.None? {
        return Err(BadQuoting);
      }
      if words.value == [] {
        return Err(EmptyKey);
      }
      var files := shlex(ValuePart(line));
      return if files.None? then Err(BadQuoting) else Ok(Keyed(words.value[0], files.value));
    } else if i == 0 {
      return Err(MissingEquals);
    } else {
      var files := shlex(Strip(line));
      return if files.None? then Err(BadQuoting) else Ok(Continued(files.value));
    }
  }

  /** One line: its own key, or the current one, gets its file names. */
  method Apply(line: Line, dict: map<string, StringList>, prev: StringList?, ghost current: string,
               ghost contents: map<string, seq<string>>)
    returns (longer: map<string, StringList>, next: StringList)
    requires Holds(dict, contents)
    requires line.Keyed? ==> current == Strip(line.key) && (line.key in contents ==> current == line.key)
    requires line.Continued? ==> current in dict && prev == dict[current]
    modifies dict.Values
    ensures var found := if line.Keyed? then line.key else current;
            Holds(longer, contents[current := (if found in contents then contents[found] else []) + line.files])
    ensures current in longer && next == longer[current]
    ensures forall k | k in longer :: (k in dict && longer[k] == dict[k]) || fresh(longer[k])
  {
    match line {
      case Keyed(key, files) =>
        longer, next := Attribute(dict, key, files, contents);
      case Continued(files) =>
        Continue(prev, files, dict, current, contents);
        longer, next := dict, prev;
    }
  }

  lemma HoldsMeans(dict: map<string, StringList>, contents: map<string, seq<string>>)
    requires Holds(dict, contents)
    ensures dict.Keys == contents.Keys
    ensures forall key | key in dict :: dict[key].items == contents[key]
    ensures forall key, other | key in dict && other in dict && key != other :: dict[key] != dict[other]
  {
  }

  lemma ContentsStart(lines: seq<string>, shlex: Splitter)
    ensures Clean(lines, 0, shlex) && Holds(map[], Contents(lines, 0, shlex))
  {
  }

  /** The dictionary after one more line. */
  lemma ContentsStep(lines: seq<string>, i: nat, shlex: Splitter)
    requires i < |lines| && Clean(lines, i, shlex) && LineError(lines, i, shlex) == None
    ensures Clean(lines, i + 1, shlex)
    ensures !('=' in lines[i]) ==> i > 0 && KeyAt(lines, i, shlex) == KeyAt(lines, i - 1, shlex)
    ensures '=' in lines[i] ==> KeyAt(lines, i, shlex) == Strip(RawKey(lines[i], shlex))
    ensures var c := Contents(lines, i, shlex);
            var found := if '=' in lines[i] then RawKey(lines[i], shlex) else KeyAt(lines, i, shlex);
            Contents(lines, i + 1, shlex) ==
            c[KeyAt(lines, i, shlex) := (if found in c then c[found] else []) + TokensAt(lines, i, shlex)]
  {
  }

  /** The loop over the lines. */
  method ParseDataFiles(lines: seq<string>, shlex: Splitter) returns (r: Result<map<string, StringList>, Error>)
    ensures r.Ok? <==> Clean(lines, |lines|, shlex)
    ensures r.Ok? ==>
              var contents := Contents(lines, |lines|, shlex);
              && r.value.Keys == contents.Keys
              && (forall key | key in r.value :: r.value[key].items == contents[key])
              && (forall key, other | key in r.value && other in r.value && key != other ::
                    r.value[key] != r.value[other])
    ensures r.Err? ==> exists i | 0 <= i < |lines| ::
              LineError(lines, i, shlex) == Some(r.error) && Clean(lines, i, shlex)
  {
    hide Contents, KeyAt, LineError, TokensAt, Holds;
    ContentsStart(lines, shlex);
    var dict: map<string, StringList> := map[];
    var prev: StringList? := null;
    var i := 0;
    while i < |lines|
      invariant 0 <= i <= |lines|
      invariant Clean(lines, i, shlex) && Holds(dict, Contents(lines, i, shlex))
      invariant forall key | key in dict :: fresh(dict[key])
      invariant i > 0 ==> KeyAt(lines, i - 1, shlex) in dict && prev == dict[KeyAt(lines, i - 1, shlex)]
    {
      var read := ReadLine(lines, i, shlex);
      if read.Err? {
        return Err(read.error);
      }
      ghost var contents := Contents(lines, i, shlex);
      ContentsStep(lines, i, shlex);
      if read.value.Keyed? {
        KeyIsStrippedWhenFound(lines, i, shlex, read.value.key);
      }
      dict, prev := Apply(read.value, dict, prev, KeyAt(lines, i, shlex), contents);
      i := i + 1;
    }
    HoldsMeans(dict, Contents(lines, |lines|, shlex));
    return Ok(dict);
  }

  /** No key keeps surrounding space: every list is the concatenation of its lines' tokens. */
  lemma {:induction false} CollectedIsConcatenated(lines: seq<string>, n: nat, shlex: Splitter, key: string)
    requires n <= |lines| && Clean(lines, n, shlex)
    requires forall i | 0 <= i < n :: StartsAfresh(lines, i, shlex) ==> KeyAt(lines, i, shlex) != key
    ensures Collected(lines, n, shlex, key) == Concatenated(lines, n, shlex, key)
  {
    if n > 0 {
      CollectedIsConcatenated(lines, n - 1, shlex, key);
    }
  }

  /** The list is a suffix of the concatenation; tokens are lost exactly when a fresh start follows some. */
  lemma {:induction false} CollectedExact(lines: seq<string>, n: nat, shlex: Splitter, key: string)
    requires n <= |lines| && Clean(lines, n, shlex)
    ensures |Collected(lines, n, shlex, key)| <= |Concatenated(lines, n, shlex, key)|
    ensures Collected(lines, n, shlex, key) == Concatenated(lines, n, shlex, key) <==>
            (forall i | 0 <= i < n ::
               StartsAfresh(lines, i, shlex) && KeyAt(lines, i, shlex) == key ==>
               Concatenated(lines, i, shlex, key) == [])
  {
    hide KeyAt, LineError, TokensAt, RawKey;
    if n > 0 {
      CollectedExact(lines, n - 1, shlex, key);
      var whole, kept := Concatenated(lines, n - 1, shlex, key), Collected(lines, n - 1, shlex, key);
      var tokens := TokensAt(lines, n - 1, shlex);
      if KeyAt(lines, n - 1, shlex) == key && !StartsAfresh(lines, n - 1, shlex) && kept + tokens == whole + tokens {
        assert |kept| == |whole|;
        assert kept == (kept + tokens)[..|kept|] == whole;
      }
      if KeyAt(lines, n - 1, shlex) == key && StartsAfresh(lines, n - 1, shlex) {
        ConcatenatedGrows(lines, n - 1, shlex, key);
      }
    }
  }

  /** An empty concatenation was empty all along. */
  lemma {:induction false} ConcatenatedGrows(lines: seq<string>, n: nat, shlex: Splitter, key: string)
    requires n <= |lines| && Clean(lines, n, shlex)
    ensures Concatenated(lines, n, shlex, key) == [] ==>
              forall i | 0 <= i <= n :: Concatenated(lines, i, shlex, key) == []
  {
    if n > 0 {
      ConcatenatedGrows(lines, n - 1, shlex, key);
    }
  }

  // ------------------------------------------------------------------- lines

  lemma {:induction false} BeforeEqualsOf(key: string, value: string)
    requires '=' !in key
    ensures BeforeEquals(key + ['='] + value) == key
  {
    var line := key + ['='] + value;
    if key != "" {
      BeforeEqualsOf(key[1..], value);
      assert line[1..] == key[1..] + ['='] + value;
    }
  }

  /** A line key=value: the first unquoted word of the key before the first '=', and the words of the rest. */
  lemma KeyedLine(lines: seq<string>, i: nat, shlex: Splitter, key: string, value: string)
    requires i < |lines| && lines[i] == key + ['='] + value && '=' !in key
    requires shlex(Strip(key)).Some? && shlex(Strip(key)).value != [] && shlex(Strip(value)).Some?
    ensures LineError(lines, i, shlex) == None && '=' in lines[i]
    ensures RawKey(lines[i], shlex) == shlex(Strip(key)).value[0]
    ensures TokensAt(lines, i, shlex) == shlex(Strip(value)).value
  {
    BeforeEqualsOf(key, value);
    assert lines[i][|key|] == '=';
    assert lines[i][|key| + 1..] == value;
  }

  /** A line without '=' adds its words to the key of the line before; the first line may not be one. */
  lemma ContinuedLine(lines: seq<string>, i: nat, shlex: Splitter)
    requires i < |lines| && '=' !in lines[i]
    ensures i == 0 ==> LineError(lines, i, shlex) == Some(MissingEquals)
    ensures i > 0 && shlex(Strip(lines[i])).Some? ==>
              LineError(lines, i, shlex) == None && TokensAt(lines, i, shlex) == shlex(Strip(lines[i])).value
    ensures i > 0 && Clean(lines, i + 1, shlex) ==> KeyAt(lines, i, shlex) == KeyAt(lines, i - 1, shlex)
  {
    if i > 0 && Clean(lines, i + 1, shlex) {
      assert LineError(lines, i, shlex) == None;
    }
  }

  /** A line is attributed to the stripped key of the last line with '=' up to it. */
  lemma {:induction false} KeyIsLastKeyed(lines: seq<string>, i: nat, shlex: Splitter) returns (j: nat)
    requires i < |lines| && Clean(lines, i + 1, shlex)
    ensures j <= i && '=' in lines[j] && (forall k | j < k <= i :: '=' !in lines[k])
    ensures LineError(lines, j, shlex) == None && KeyAt(lines, i, shlex) == Strip(RawKey(lines[j], shlex))
  {
    assert LineError(lines, i, shlex) == None;
    if '=' in lines[i] {
      j := i;
    } else {
      j := KeyIsLastKeyed(lines, i - 1, shlex);
    }
  }

  /** In a line's list its tokens come after those of all earlier lines. */
  lemma TokensInOrder(lines: seq<string>, i: nat, shlex: Splitter)
    requires i < |lines| && Clean(lines, i + 1, shlex)
    ensures LineError(lines, i, shlex) == None
    ensures Concatenated(lines, i + 1, shlex, KeyAt(lines, i, shlex)) ==
            Concatenated(lines, i, shlex, KeyAt(lines, i, shlex)) + TokensAt(lines, i, shlex)
    ensures forall key | key != KeyAt(lines, i, shlex) ::
              Concatenated(lines, i + 1, shlex, key) == Concatenated(lines, i, shlex, key)
    ensures forall key :: Concatenated(lines, 0, shlex, key) == []
  {
    assert LineError(lines, i, shlex) == None;
  }
}
