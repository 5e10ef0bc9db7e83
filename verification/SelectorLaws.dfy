/** What the terms of workspace selectors mean, as they are written. */
module SelectorLaws {
  import opened Common
  import opened SelectorText
  import opened WorkArea

  // ----- Window flags -----

  /** What each flag asks of a window. */
  predicate MeetsFlags(w: Window, flags: string) {
    && ('t' in flags ==> !w.floating)
    && ('f' in flags ==> w.floating)
    && ('p' in flags ==> w.pinned)
    && ('v' in flags ==> !w.hidden && w.visible != Some(false))
  }

  predicate IsCounted(w: Window, flags: string, workspace: Workspace) {
    w.workspace == Some(workspace.id) && w.mapped && MeetsFlags(w, flags)
  }

  lemma CountedMeans(w: Window, flags: string, workspace: Workspace)
    ensures Counted(w, flags, workspace) <==> IsCounted(w, flags, workspace)
  {
    if MeetsFlags(w, flags) {
      forall i | 0 <= i < |flags| ensures MatchesFlag(w, flags[i]) {
        assert flags[i] in flags;
      }
    }
    if MatchesFlags(w, flags) {
      forall c | c in flags ensures MatchesFlag(w, c) {
      }
    }
  }

  /** Without flags a workspace's own count is taken; with g, each group that has a window
      of the kind asked for counts once, however its members are listed; otherwise each
      such window counts. */
  lemma CountMeans(flags: string, workspace: Workspace, clients: seq<Window>)
    ensures Count(flags, workspace, Canonical(clients)) ==
      if flags == "" then workspace.windows
      else if 'g' in flags then
        |set i | 0 <= i < |clients| && IsCounted(clients[i], flags, workspace) && clients[i].grouped != []
           :: multiset(clients[i].grouped)|
      else |set i | 0 <= i < |clients| && IsCounted(clients[i], flags, workspace)|
  {
    forall w ensures Counted(w, flags, workspace) <==> IsCounted(w, flags, workspace) {
      CountedMeans(w, flags, workspace);
    }
    if 'g' in flags {
      GroupsAreCountedOnce(flags, workspace, clients);
      assert (set i | 0 <= i < |clients| && IsCounted(clients[i], flags, workspace) && clients[i].grouped != []
                :: multiset(clients[i].grouped)) == Groups(flags, workspace, clients);
    } else {
      var sorted := Canonical(clients);
      forall i | 0 <= i < |clients|
        ensures IsCounted(sorted[i], flags, workspace) == IsCounted(clients[i], flags, workspace)
      {
      }
      assert (set i | 0 <= i < |clients| && IsCounted(clients[i], flags, workspace))
          == CountedAt(flags, workspace, sorted);
    }
  }

  /** The flags are five letters, each once, and not both t and f. */
  lemma FlagLetters(flags: string)
    ensures ValidFlags(flags) <==>
      && (forall i :: 0 <= i < |flags| ==> flags[i] in "tfpgv")
      && (forall i, k :: 0 <= i < k < |flags| ==> flags[i] != flags[k])
      && !('t' in flags && 'f' in flags)
  {
    forall i, k | 0 <= i < |flags| && 0 <= k < |flags| && flags[i] == 't' && flags[k] == 'f'
      ensures !ValidFlags(flags)
    {
      assert FlagBit(flags[i]) == FlagBit(flags[k]);
    }
  }

  // ----- Fullscreen -----

  lemma {:induction false} NumberEndAt(digits: string, rest: string, i: nat)
    requires i <= |digits| && (forall k :: i <= k < |digits| ==> IsDigit(digits[k]))
    requires digits != "" && (rest == "" || !IsDigit(rest[0]))
    ensures NumberEnd(digits + rest, i) == |digits|
    decreases |digits| - i
  {
    var value := digits + rest;
    if i < |digits| {
      assert value[i] == digits[i];
      NumberEndAt(digits, rest, i + 1);
    } else if rest != "" {
      assert value[i] == rest[0];
    }
  }

  lemma ShowDigits(n: int)
    ensures Show(n) != "" && (IsDigit(Show(n)[0]) || Show(n)[0] == '-')
    ensures forall k :: 1 <= k < |Show(n)| ==> IsDigit(Show(n)[k])
  {
    var digits := DigitsOf(if n < 0 then -n else n);
    DigitsComeBack(if n < 0 then -n else n);
    if n < 0 {
      assert Show(n) == "-" + digits;
      assert forall k :: 1 <= k < |Show(n)| ==> Show(n)[k] == digits[k - 1];
    }
  }

  lemma NumberEndShown(n: int, rest: string)
    requires rest == "" || !IsDigit(rest[0])
    ensures NumberEnd(Show(n) + rest, 0) == |Show(n)|
  {
    ShowDigits(n);
    assert (Show(n) + rest)[0] == Show(n)[0];
    NumberEndAt(Show(n), rest, 1);
  }

  lemma ShownParses(n: int)
    ensures ParseInt(Show(n), 10, I32_MIN, I32_MAX) == if I32_MIN <= n <= I32_MAX then Some(n) else None
  {
    DigitsComeBack(if n < 0 then -n else n);
    if n < 0 {
      assert Show(n)[1..] == DigitsOf(-n);
    } else {
      assert IsDigit(Show(n)[0]);
    }
  }

  predicate HasFullscreen(scene: Scene, mode: int) {
    && scene.workspace.fullscreen
    && exists w :: w in scene.clients && w.workspace == Some(scene.workspace.id) && w.fullscreen == mode
  }

  /** f takes the number at the front of its value: -1 asks for no fullscreen window, 0
      for one that is fullscreen, 1 for one that is maximized, other numbers ask for
      nothing, and one beyond 32 bits never holds. */
  lemma FullscreenTermMeans(space: string, n: int, rest: string, scene: Scene)
    requires AllWhite(space) && (rest == "" || !IsDigit(rest[0]))
    ensures Term("f", space + (Show(n) + rest), scene) <==>
      if n == -1 then !scene.workspace.fullscreen
      else if n == 0 then HasFullscreen(scene, 2)
      else if n == 1 then HasFullscreen(scene, 1)
      else -0x8000_0000 <= n < 0x8000_0000
  {
    ShowEnds(n);
    var text := Show(n) + rest;
    TrimStartSpace(space, text);
    NumberEndShown(n, rest);
    assert text[..|Show(n)|] == Show(n);
    ShownParses(n);
    OneIsFullscreenMeans(scene, 1);
    OneIsFullscreenMeans(scene, 2);
  }

  lemma OneIsFullscreenMeans(scene: Scene, mode: int)
    ensures OneIsFullscreen(scene, mode) <==> HasFullscreen(scene, mode)
  {
  }

  /** Without a number f never holds. */
  lemma FullscreenNeedsANumber(space: string, rest: string, scene: Scene)
    requires AllWhite(space)
    requires rest == "" || (!White(rest[0]) && !IsDigit(rest[0]) && rest[0] != '+' && rest[0] != '-')
    ensures !Term("f", space + rest, scene)
  {
    TrimStartSpace(space, rest);
    assert NumberEnd(rest, 0) == 0;
    assert rest[..0] == "";
  }

  // ----- Special workspaces and names -----

  /** The values that stand for a number in s and n. */
  lemma WordsAreNumbers(word: string, rest: string)
    ensures word in {"true", "on", "yes"} ==> SelectorInteger(word + rest) == Some(1)
    ensures word in {"false", "off", "no"} ==> SelectorInteger(word + rest) == Some(0)
  {
    assert word <= word + rest;
    if word in {"false", "off", "no"} {
      assert (word + rest)[0] == word[0] && (word + rest)[1] == word[1];
      NotAPrefix("true", word + rest, 0);
      NotAPrefix("on", word + rest, if word == "off" then 1 else 0);
      NotAPrefix("yes", word + rest, 0);
    }
  }

  lemma NumbersAreNoWords(value: string)
    requires value != "" && (IsDigit(value[0]) || value[0] == '-')
    ensures !("true" <= value) && !("on" <= value) && !("yes" <= value)
    ensures !("false" <= value) && !("off" <= value) && !("no" <= value)
  {
    NotAPrefix("true", value, 0);
    NotAPrefix("on", value, 0);
    NotAPrefix("yes", value, 0);
    NotAPrefix("false", value, 0);
    NotAPrefix("off", value, 0);
    NotAPrefix("no", value, 0);
  }

  lemma NumbersAreNumbers(n: int)
    requires I64_MIN <= n <= I64_MAX
    ensures SelectorInteger(Show(n)) == Some(n)
  {
    PrintedIntegersComeBack(n);
    ShowIsNoWord(n);
    NumbersAreNoWords(Show(n));
  }

  lemma ShowIsNoWord(n: int)
    ensures Show(n) != "" && (IsDigit(Show(n)[0]) || Show(n)[0] == '-') && !("0x" <= Show(n))
  {
    ShowDigits(n);
    if |Show(n)| >= 2 {
      NotAPrefix("0x", Show(n), 1);
    }
  }

  function HexDigit(d: nat): char
    requires d < 16
  {
    if d < 10 then DigitChar(d) else ('a' as int + (d - 10)) as char
  }

  function HexOf(n: nat): string {
    (if n < 16 then "" else HexOf(n / 16)) + [HexDigit(n % 16)]
  }

  lemma HexDigitsAreDigits(d: nat)
    requires d < 16
    ensures DigitValue(HexDigit(d)) == Some(d) && HexDigit(d) != '+' && HexDigit(d) != '-'
  {
  }

  lemma {:induction false} HexComesBack(n: nat)
    ensures HexOf(n) != "" && Magnitude(HexOf(n), 16) == Some(n) && HexOf(n)[0] != '+' && HexOf(n)[0] != '-'
  {
    var front := if n < 16 then "" else HexOf(n / 16);
    if n >= 16 {
      HexComesBack(n / 16);
    }
    HexDigitsAreDigits(n % 16);
    assert Magnitude(front, 16) == Some(n / 16);
    assert HexOf(n) == front + [HexDigit(n % 16)];
    MagnitudeSnoc(front, HexDigit(n % 16), 16);
  }

  /** A number written in hexadecimal behind 0x is read as that number. */
  lemma HexIsRead(n: nat)
    requires n <= I64_MAX
    ensures SelectorInteger("0x" + HexOf(n)) == Some(n)
  {
    var value := "0x" + HexOf(n);
    assert value[0] == '0' && value[2..] == HexOf(n);
    NumbersAreNoWords(value);
    HexParses(n);
  }

  lemma HexParses(n: nat)
    requires n <= I64_MAX
    ensures ParseInt(HexOf(n), 16, I64_MIN, I64_MAX) == Some(n)
  {
    HexComesBack(n);
  }

  /** Neither a number nor one of the words. */
  predicate SaysNothing(value: string) {
    && value != "" && !IsDigit(value[0]) && value[0] !in "+-"
    && !("true" <= value) && !("on" <= value) && !("yes" <= value)
    && !("false" <= value) && !("off" <= value) && !("no" <= value)
  }

  lemma OthersAreNoNumber(value: string)
    requires SaysNothing(value)
    ensures SelectorInteger(value) == None
  {
    NotAnInteger(value);
    NotAPrefix("0x", value + "x", 0);
    assert "0x" <= value ==> "0x" <= value + "x";
  }

  predicate IsSpecial(workspace: Workspace) {
    -1337 < workspace.id < -1
  }

  /** s asks whether the workspace is special: any number but zero, and yes, on and true,
      ask for one that is; zero, no, off and false for one that is not; a value that says
      neither asks for nothing. */
  lemma SpecialTermMeans(n: int, word: string, rest: string, scene: Scene)
    ensures I64_MIN <= n <= I64_MAX ==> (Term("s", Show(n), scene) <==> IsSpecial(scene.workspace) == (n != 0))
    ensures word in {"true", "on", "yes"} ==> (Term("s", word + rest, scene) <==> IsSpecial(scene.workspace))
    ensures word in {"false", "off", "no"} ==> (Term("s", word + rest, scene) <==> !IsSpecial(scene.workspace))
    ensures SaysNothing(rest) ==> Term("s", rest, scene)
  {
    WordsAreNumbers(word, rest);
    if I64_MIN <= n <= I64_MAX {
      NumbersAreNumbers(n);
    }
    if SaysNothing(rest) {
      OthersAreNoNumber(rest);
    }
  }

  /** n with s: or e: asks how the workspace's name starts or ends. */
  lemma NameTermMeans(text: string, scene: Scene)
    ensures Term("n", "s:" + text, scene) <==> StartsWith(scene.workspace.name, text)
    ensures Term("n", "e:" + text, scene) <==> FinishesWith(scene.workspace.name, text)
  {
    var name := scene.workspace.name;
    assert "s:" + text == "s" + [':'] + text && "e:" + text == "e" + [':'] + text;
    SplitOnceIs("s", ':', text);
    SplitOnceIs("e", ':', text);
    PrefixMeans(name, text);
    SuffixMeans(name, text);
  }

  ghost predicate StartsWith(name: string, text: string) {
    exists rest :: name == text + rest
  }

  ghost predicate FinishesWith(name: string, text: string) {
    exists front :: name == front + text
  }

  lemma PrefixMeans(name: string, text: string)
    ensures text <= name <==> StartsWith(name, text)
  {
    if text <= name {
      assert name == text + name[|text|..];
    }
  }

  lemma SuffixMeans(name: string, text: string)
    ensures EndsWith(name, text) <==> FinishesWith(name, text)
  {
    if EndsWith(name, text) {
      assert name == name[..|name| - |text|] + text;
    }
    forall front | name == front + text ensures EndsWith(name, text) {
      assert name[|front|..] == text;
    }
  }

  predicate IsNamed(workspace: Workspace) {
    workspace.id <= -1337
  }

  /** n with a value of another form asks whether the workspace is named: one, yes, on and
      true for one that is, zero, no, off and false for one that is not; another number
      never holds, and a value that says neither asks for nothing. */
  lemma NamedTermMeans(n: int, word: string, rest: string, scene: Scene)
    ensures I64_MIN <= n <= I64_MAX ==>
      (Term("n", Show(n), scene) <==> n == if IsNamed(scene.workspace) then 1 else 0)
    ensures word in {"true", "on", "yes"} ==> (Term("n", word + rest, scene) <==> IsNamed(scene.workspace))
    ensures word in {"false", "off", "no"} ==> (Term("n", word + rest, scene) <==> !IsNamed(scene.workspace))
    ensures SaysNothing(rest) && !("s:" <= rest) && !("e:" <= rest) ==> Term("n", rest, scene)
  {
    WordsAreNumbers(word, rest);
    if word in {"true", "on", "yes", "false", "off", "no"} {
      assert (word + rest)[0] == word[0];
      NeitherStartNorEnd(word + rest);
    }
    if I64_MIN <= n <= I64_MAX {
      NumbersAreNumbers(n);
      ShowIsNoWord(n);
      NeitherStartNorEnd(Show(n));
    }
    if SaysNothing(rest) && !("s:" <= rest) && !("e:" <= rest) {
      OthersAreNoNumber(rest);
      NeitherStartNorEnd(rest);
    }
  }

  lemma NeitherStartNorEnd(value: string)
    requires !("s:" <= value) && !("e:" <= value)
    ensures var parts := SplitOnce(value, ':'); parts.None? || (parts.value.0 != "s" && parts.value.0 != "e")
  {
    var i := IndexOf(value, ':');
    if i == 1 < |value| {
      assert value[..1] == [value[0]] && value[..2] == [value[0], ':'];
    } else if i < |value| {
      assert |value[..i]| == i;
    }
  }

  // ----- Whole selectors -----

  /** A selector of one clause for a monitor holds exactly when the monitor is the one. */
  lemma MonitorClauseMeans(value: string, scene: Scene)
    requires ']' !in value
    ensures Matches("m[" + value + "]", scene) <==> scene.onMonitor(value)
  {
    var clauses := [Clause("", 'm', value)];
    assert Print(clauses[1..]) == "" && Text(clauses[0]) == "m[" + value;
    assert Print(clauses) + "" == "m[" + value + "]";
    SelectorsAreConjunctions(clauses, "", scene);
    assert AllTerms(clauses, scene) <==> Term([clauses[0].kind], clauses[0].value, scene);
  }

  /** Text that is no id and no name selector. */
  predicate IsOther(text: string) {
    && text != "" && !White(text[0]) && !White(text[|text| - 1])
    && !IsDigit(text[0]) && text[0] !in "+-" && !("name:" <= text)
  }

  /** A selector that starts with special is a name. */
  lemma SpecialNamesMatchThemselves(text: string, scene: Scene)
    requires IsOther(text) && "special" <= text
    ensures Matches(text, scene) <==> scene.workspace.name == text
  {
    TrimNothing(text);
    NotAnInteger(text);
  }

  /** Any other selector must end with a bracket. */
  lemma UnclosedSelectorsFail(text: string, scene: Scene)
    requires IsOther(text) && !("special" <= text) && text[|text| - 1] != ']'
    ensures !Matches(text, scene)
  {
    TrimNothing(text);
    NotAnInteger(text);
  }

  lemma MoreIsNoPrefix(prefix: string, text: string)
    requires ']' !in prefix && !(prefix <= text)
    ensures !(prefix <= text + "]")
  {
    if |prefix| <= |text| {
      assert (text + "]")[..|prefix|] == text[..|prefix|];
    } else if |prefix| == |text| + 1 {
      NotAPrefix(prefix, text + "]", |text|);
    }
  }

  /** A selector of one clause is that clause. */
  lemma OneClause(text: string, scene: Scene)
    requires IsOther(text) && !("special" <= text) && ']' !in text
    ensures Matches(text + "]", scene) <==> ClauseHolds(text, scene)
  {
    var whole := text + "]";
    TrimNothing(whole);
    NotAnInteger(whole);
    MoreIsNoPrefix("name:", text);
    MoreIsNoPrefix("special", text);
    IndexOfNone(text, ']');
    assert whole[..|whole| - 1] == text;
    assert Split(text, ']') == [text];
    assert AllHold([text], scene) <==> ClauseHolds([text][0], scene);
  }

  lemma UnknownKind(kind: string, value: string, scene: Scene)
    requires kind !in {"r", "s", "n", "m", "w", "f"}
    ensures !Term(kind, value, scene)
  {
    if |kind| == 1 {
      assert kind == [kind[0]];
    }
  }

  /** A clause without an opening bracket, or of no known kind, never holds. */
  lemma BadClausesFail(kind: string, value: string, scene: Scene)
    requires '[' !in kind && ']' !in kind + value
    ensures IsOther(kind) && !("special" <= kind) ==> !Matches(kind + "]", scene)
    ensures var text := kind + "[" + value;
      IsOther(text) && !("special" <= text) && kind !in {"r", "s", "n", "m", "w", "f"} ==>
        !Matches(text + "]", scene)
  {
    var text := kind + "[" + value;
    if IsOther(kind) && !("special" <= kind) {
      OneClause(kind, scene);
      IndexOfNone(kind, '[');
    }
    if IsOther(text) && !("special" <= text) && kind !in {"r", "s", "n", "m", "w", "f"} {
      OneClause(text, scene);
      TrimStartSpace("", text);
      assert "" + text == text;
      SplitOnceIs(kind, '[', value);
      UnknownKind(kind, value, scene);
    }
  }
}
