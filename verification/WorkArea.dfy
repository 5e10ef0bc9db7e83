/** Workspace-rule selectors: which workspaces a rule applies to.  Which monitors a
    monitor selector names is a function given from outside. */
module WorkArea {
  import opened Common
  import opened SelectorText
  import opened Sorting

  // ----- The snapshot -----

  datatype Workspace = Workspace(id: int, name: string, windows: nat, fullscreen: bool)

  datatype Window = Window(
    workspace: Option<int>, mapped: bool, floating: bool, pinned: bool, hidden: bool, visible: Option<bool>,
    grouped: seq<string>, fullscreen: int)

  /** `onMonitor` says whether a monitor selector names the monitor in question. */
  datatype Scene = Scene(workspace: Workspace, clients: seq<Window>, onMonitor: string -> bool)

  // ----- Window flags -----

  function FlagBit(c: char): Option<bv8> {
    match c
    case 't' => Some(1)
    case 'f' => Some(1)
    case 'p' => Some(2)
    case 'g' => Some(4)
    case 'v' => Some(8)
    case _ => None
  }

  /** Flags only, each used once; tiled and floating exclude each other. */
  predicate ValidFlags(flags: string) {
    && (forall i :: 0 <= i < |flags| ==> FlagBit(flags[i]).Some?)
    && (forall i, k :: 0 <= i < k < |flags| ==> FlagBit(flags[i]) != FlagBit(flags[k]))
  }

  function FlagsEnd(value: string, k: nat): (end: nat)
    requires k <= |value| && ValidFlags(value[..k])
    ensures k <= end <= |value| && ValidFlags(value[..end])
    ensures end < |value| ==> !ValidFlags(value[..end + 1])
    decreases |value| - k
  {
    if k < |value| && ValidFlags(value[..k + 1]) then FlagsEnd(value, k + 1) else k
  }

  /** There is one longest valid prefix. */
  lemma LongestFlagsAreUnique(value: string, end: nat)
    requires end <= |value| && ValidFlags(value[..end]) && (end < |value| ==> !ValidFlags(value[..end + 1]))
    ensures FlagsEnd(value, 0) == end
  {
    var found := FlagsEnd(value, 0);
    forall n | 0 <= n <= end ensures ValidFlags(value[..n]) {
      assert value[..end][..n] == value[..n];
    }
    forall n | 0 <= n <= found ensures ValidFlags(value[..n]) {
      assert value[..found][..n] == value[..n];
    }
  }

  predicate HasBit(flags: string, bit: bv8) {
    exists i :: 0 <= i < |flags| && FlagBit(flags[i]) == Some(bit)
  }

  /** The mask holds the bits of the flags read so far. */
  predicate MaskOf(seen: bv8, flags: string) {
    && (seen & 1 != 0 <==> HasBit(flags, 1)) && (seen & 2 != 0 <==> HasBit(flags, 2))
    && (seen & 4 != 0 <==> HasBit(flags, 4)) && (seen & 8 != 0 <==> HasBit(flags, 8))
  }

  lemma HasBitSnoc(flags: string, c: char, bit: bv8)
    ensures HasBit(flags + [c], bit) <==> HasBit(flags, bit) || FlagBit(c) == Some(bit)
  {
    var all := flags + [c];
    assert all[|flags|] == c;
    if HasBit(flags, bit) {
      var i :| 0 <= i < |flags| && FlagBit(flags[i]) == Some(bit);
      assert all[i] == flags[i];
    }
  }

  lemma MaskSnoc(seen: bv8, flags: string, c: char)
    requires MaskOf(seen, flags) && FlagBit(c).Some?
    ensures MaskOf(seen | FlagBit(c).value, flags + [c])
  {
    HasBitSnoc(flags, c, 1);
    HasBitSnoc(flags, c, 2);
    HasBitSnoc(flags, c, 4);
    HasBitSnoc(flags, c, 8);
  }

  lemma FlagsSnoc(flags: string, c: char)
    requires ValidFlags(flags)
    ensures ValidFlags(flags + [c]) <==> FlagBit(c).Some? && !HasBit(flags, FlagBit(c).value)
  {
    var all := flags + [c];
    assert all[|flags|] == c;
    assert forall i :: 0 <= i < |flags| ==> all[i] == flags[i];
    if FlagBit(c).Some? && HasBit(flags, FlagBit(c).value) {
      var i :| 0 <= i < |flags| && FlagBit(flags[i]) == FlagBit(c);
      assert FlagBit(all[i]) == FlagBit(all[|flags|]);
    }
  }

  /** Where the flags of a window selector end: the longest prefix in which no flag is
      repeated. */
  method WindowSelector(value: string) returns (split: nat)
    ensures split <= |value| && ValidFlags(value[..split])
    ensures split < |value| ==> !ValidFlags(value[..split + 1])
    ensures split == FlagsEnd(value, 0)
  {
    var seen: bv8 := 0;
    split := 0;
    while split < |value|
      invariant split <= |value| && ValidFlags(value[..split]) && MaskOf(seen, value[..split])
    {
      var bit := FlagBit(value[split]);
      FlagsSnoc(value[..split], value[split]);
      assert value[..split + 1] == value[..split] + [value[split]];
      if bit.None? || seen & bit.value != 0 {
        LongestFlagsAreUnique(value, split);
        return;
      }
      MaskSnoc(seen, value[..split], value[split]);
      seen := seen | bit.value;
      split := split + 1;
    }
    LongestFlagsAreUnique(value, split);
  }

  // ----- Counting windows -----

  predicate MatchesFlag(w: Window, flag: char) {
    match flag
    case 't' => !w.floating
    case 'f' => w.floating
    case 'p' => w.pinned
    case 'v' => !w.hidden && w.visible != Some(false)
    case _ => true
  }

  predicate MatchesFlags(w: Window, flags: string) {
    forall i :: 0 <= i < |flags| ==> MatchesFlag(w, flags[i])
  }

  predicate Counted(w: Window, flags: string, workspace: Workspace) {
    w.workspace == Some(workspace.id) && w.mapped && MatchesFlags(w, flags)
  }

  /** The windows counted, by position. */
  function CountedAt(flags: string, workspace: Workspace, clients: seq<Window>): set<nat> {
    set i | 0 <= i < |clients| && Counted(clients[i], flags, workspace)
  }

  predicate CountedGroup(w: Window, flags: string, workspace: Workspace) {
    Counted(w, flags, workspace) && w.grouped != []
  }

  /** The groups counted, as they are listed. */
  function GroupLists(flags: string, workspace: Workspace, clients: seq<Window>): set<seq<string>> {
    set i | 0 <= i < |clients| && CountedGroup(clients[i], flags, workspace) :: clients[i].grouped
  }

  /** The groups counted, whatever the order of their members. */
  function Groups(flags: string, workspace: Workspace, clients: seq<Window>): set<multiset<string>> {
    set i | 0 <= i < |clients| && CountedGroup(clients[i], flags, workspace) :: multiset(clients[i].grouped)
  }

  function Count(flags: string, workspace: Workspace, clients: seq<Window>): nat {
    if flags == "" then workspace.windows
    else if 'g' in flags then |GroupLists(flags, workspace, clients)|
    else |CountedAt(flags, workspace, clients)|
  }

  method WindowCount(flags: string, workspace: Workspace, clients: seq<Window>) returns (n: nat)
    ensures n == Count(flags, workspace, clients)
  {
    if flags == "" {
      return workspace.windows;
    }
    var groupOnce := 'g' in flags;
    var groups: set<seq<string>> := {};
    n := 0;
    var k := 0;
    while k < |clients|
      invariant k <= |clients|
      invariant groupOnce ==> groups == GroupLists(flags, workspace, clients[..k]) && n == |groups|
      invariant !groupOnce ==> n == |CountedAt(flags, workspace, clients[..k])|
    {
      var c := clients[k];
      OneMore(flags, workspace, clients, k);
      if Counted(c, flags, workspace) && (!groupOnce || (c.grouped != [] && c.grouped !in groups)) {
        n := n + 1;
        if groupOnce {
          groups := groups + {c.grouped};
        }
      }
      k := k + 1;
    }
    assert clients[..k] == clients;
  }

  lemma OneMore(flags: string, workspace: Workspace, clients: seq<Window>, k: nat)
    requires k < |clients|
    ensures var c, counted := clients[k], Counted(clients[k], flags, workspace);
      && CountedAt(flags, workspace, clients[..k + 1])
         == CountedAt(flags, workspace, clients[..k]) + (if counted then {k} else {})
      && GroupLists(flags, workspace, clients[..k + 1])
         == GroupLists(flags, workspace, clients[..k]) + (if counted && c.grouped != [] then {c.grouped} else {})
  {
    var before, after := clients[..k], clients[..k + 1];
    assert forall i :: 0 <= i < k ==> before[i] == clients[i] && after[i] == clients[i];
    assert after[k] == clients[k];
    var added := if Counted(clients[k], flags, workspace) && clients[k].grouped != [] then {clients[k].grouped} else {};
    forall g ensures g in GroupLists(flags, workspace, after) <==> g in GroupLists(flags, workspace, before) + added {
      if g in GroupLists(flags, workspace, before) {
        var i :| 0 <= i < k && CountedGroup(before[i], flags, workspace) && before[i].grouped == g;
        assert after[i] == before[i];
      }
    }
  }

  // ----- Canonical groups -----

  function Canonical(clients: seq<Window>): seq<Window> {
    seq(|clients|, i requires 0 <= i < |clients| => clients[i].(grouped := Sort(clients[i].grouped, StringLe)))
  }

  method SortGroups(clients: array<Window>)
    modifies clients
    ensures clients[..] == Canonical(old(clients[..]))
  {
    var k := 0;
    while k < clients.Length
      invariant k <= clients.Length
      invariant forall i :: 0 <= i < k ==>
        clients[i] == old(clients[i]).(grouped := Sort(old(clients[i]).grouped, StringLe))
      invariant forall i :: k <= i < clients.Length ==> clients[i] == old(clients[i])
    {
      clients[k] := clients[k].(grouped := Sort(clients[k].grouped, StringLe));
      k := k + 1;
    }
  }

  /** After the sorting, counting each list once counts each group once. */
  lemma GroupsAreCountedOnce(flags: string, workspace: Workspace, clients: seq<Window>)
    requires 'g' in flags
    ensures Count(flags, workspace, Canonical(clients)) == |Groups(flags, workspace, clients)|
  {
    ListsHaveGroups(flags, workspace, clients);
    GroupsHaveLists(flags, workspace, clients);
    SameSize(GroupLists(flags, workspace, Canonical(clients)), Groups(flags, workspace, clients));
  }

  lemma CanonicalWindow(flags: string, workspace: Workspace, clients: seq<Window>, i: nat)
    requires i < |clients|
    ensures var sorted, c := Canonical(clients)[i], clients[i];
      && Counted(sorted, flags, workspace) == Counted(c, flags, workspace)
      && multiset(sorted.grouped) == multiset(c.grouped) && Ordered(sorted.grouped, StringLe)
      && (sorted.grouped == [] <==> c.grouped == [])
  {
    StringsAreOrdered();
    SortSorts(clients[i].grouped, StringLe);
  }

  lemma ListsHaveGroups(flags: string, workspace: Workspace, clients: seq<Window>)
    ensures forall g :: g in GroupLists(flags, workspace, Canonical(clients)) ==>
      multiset(g) in Groups(flags, workspace, clients) && Ordered(g, StringLe)
  {
    var sorted := Canonical(clients);
    forall g | g in GroupLists(flags, workspace, sorted)
      ensures multiset(g) in Groups(flags, workspace, clients) && Ordered(g, StringLe)
    {
      var i :| 0 <= i < |sorted| && CountedGroup(sorted[i], flags, workspace) && sorted[i].grouped == g;
      CanonicalWindow(flags, workspace, clients, i);
    }
  }

  lemma GroupsHaveLists(flags: string, workspace: Workspace, clients: seq<Window>)
    ensures forall m :: m in Groups(flags, workspace, clients) ==>
      exists g :: g in GroupLists(flags, workspace, Canonical(clients)) && multiset(g) == m
  {
    var sorted := Canonical(clients);
    forall m | m in Groups(flags, workspace, clients)
      ensures exists g :: g in GroupLists(flags, workspace, sorted) && multiset(g) == m
    {
      var i :| 0 <= i < |clients| && CountedGroup(clients[i], flags, workspace) && multiset(clients[i].grouped) == m;
      CanonicalWindow(flags, workspace, clients, i);
      assert sorted[i].grouped in GroupLists(flags, workspace, sorted);
    }
  }

  /** Ordered lists and their multisets correspond one to one. */
  lemma {:induction false} SameSize(lists: set<seq<string>>, groups: set<multiset<string>>)
    requires forall g :: g in lists ==> multiset(g) in groups && Ordered(g, StringLe)
    requires forall m :: m in groups ==> exists g :: g in lists && multiset(g) == m
    ensures |lists| == |groups|
    decreases |lists|
  {
    if g :| g in lists {
      forall h | h in lists - {g} ensures multiset(h) in groups - {multiset(g)} {
        if multiset(h) == multiset(g) {
          StringsAreOrdered();
          SortedListsAreUnique(g, h, StringLe);
        }
      }
      forall m | m in groups - {multiset(g)} ensures exists h :: h in lists - {g} && multiset(h) == m {
        var h :| h in lists && multiset(h) == m;
        assert h in lists - {g};
      }
      SameSize(lists - {g}, groups - {multiset(g)});
    } else {
      assert groups == {};
    }
  }

  // ----- Terms -----

  datatype Range = Range(low: int, high: int)

  predicate Contains(r: Option<Range>, n: int) {
    r.Some? && r.value.low <= n <= r.value.high
  }

  function ParseRange(value: string): Option<Range> {
    match SplitOnce(value, '-')
    case Some((left, right)) =>
      var low, high := ParseI64(left), ParseI64(right);
      if low.Some? && high.Some? && 1 <= low.value <= high.value then Some(Range(low.value, high.value)) else None
    case None =>
      var n := ParseI64(value);
      if n.Some? then Some(Range(n.value, n.value)) else None
  }

  function SelectorInteger(value: string): Option<int> {
    if "true" <= value || "on" <= value || "yes" <= value then Some(1)
    else if "false" <= value || "off" <= value || "no" <= value then Some(0)
    else if "0x" <= value then ParseInt(value[2..], 16, I64_MIN, I64_MAX)
    else ParseI64(value)
  }

  function NumberEnd(value: string, i: nat): (end: nat)
    requires i <= |value|
    ensures i <= end <= |value|
    decreases |value| - i
  {
    if i < |value| && (IsDigit(value[i]) || (i == 0 && (value[i] == '+' || value[i] == '-')))
    then NumberEnd(value, i + 1)
    else i
  }

  predicate FullscreenMatches(value: string, scene: Scene) {
    var text := TrimStart(value);
    var end := NumberEnd(text, 0);
    var mode := ParseInt(text[..end], 10, I32_MIN, I32_MAX);
    match mode
    case None => false
    case Some(n) =>
      if n == -1 then !scene.workspace.fullscreen
      else if n == 0 then OneIsFullscreen(scene, 2)
      else if n == 1 then OneIsFullscreen(scene, 1)
      else true
  }

  predicate OneIsFullscreen(scene: Scene, mode: int) {
    && scene.workspace.fullscreen
    && exists i :: 0 <= i < |scene.clients|
         && scene.clients[i].workspace == Some(scene.workspace.id) && scene.clients[i].fullscreen == mode
  }

  predicate NameTerm(value: string, workspace: Workspace) {
    var parts := SplitOnce(value, ':');
    if parts.Some? && parts.value.0 == "s" then parts.value.1 <= workspace.name
    else if parts.Some? && parts.value.0 == "e" then EndsWith(workspace.name, parts.value.1)
    else
      var n := SelectorInteger(value);
      n.None? || (if workspace.id <= -1337 then 1 else 0) == n.value
  }

  predicate Term(kind: string, value: string, scene: Scene) {
    var workspace := scene.workspace;
    if |kind| != 1 then false
    else
      match kind[0]
      case 'r' => '-' in value && Contains(ParseRange(value), workspace.id)
      case 's' =>
        var n := SelectorInteger(value);
        n.None? || (-1337 < workspace.id < -1) == (n.value != 0)
      case 'n' => NameTerm(value, workspace)
      case 'm' => scene.onMonitor(value)
      case 'w' =>
        var end := FlagsEnd(value, 0);
        Contains(ParseRange(value[end..]), Count(value[..end], workspace, scene.clients))
      case 'f' => FullscreenMatches(value, scene)
      case _ => false
  }

  // ----- Selectors -----

  predicate ClauseHolds(clause: string, scene: Scene) {
    var parts := SplitOnce(TrimStart(clause), '[');
    parts.Some? && Term(parts.value.0, parts.value.1, scene)
  }

  predicate AllHold(clauses: seq<string>, scene: Scene) {
    forall i :: 0 <= i < |clauses| ==> ClauseHolds(clauses[i], scene)
  }

  predicate Matches(selector: string, scene: Scene) {
    var rest := Trim(selector);
    if rest == "" then true
    else if ParseI64(rest).Some? then scene.workspace.id == ParseI64(rest).value
    else if "name:" <= rest then scene.workspace.name == rest[5..]
    else if "special" <= rest then scene.workspace.name == rest
    else if rest[|rest| - 1] != ']' then false
    else AllHold(Split(rest[..|rest| - 1], ']'), scene)
  }

  // ----- What selectors mean -----

  /** A clause as written: spaces, a kind, and a value in brackets. */
  datatype Clause = Clause(space: string, kind: char, value: string)

  predicate WellFormed(c: Clause) {
    && AllWhite(c.space) && ']' !in c.value
    && (c.kind == 'r' || c.kind == 's' || c.kind == 'n' || c.kind == 'm' || c.kind == 'w' || c.kind == 'f')
  }

  predicate AllWellFormed(clauses: seq<Clause>) {
    forall i :: 0 <= i < |clauses| ==> WellFormed(clauses[i])
  }

  /** Without its closing bracket. */
  function Text(c: Clause): string {
    c.space + ([c.kind] + "[" + c.value)
  }

  function Print(clauses: seq<Clause>): string {
    if clauses == [] then "" else Text(clauses[0]) + "]" + Print(clauses[1..])
  }

  function Texts(clauses: seq<Clause>): seq<string> {
    seq(|clauses|, i requires 0 <= i < |clauses| => Text(clauses[i]))
  }

  lemma ClauseMeansTerm(c: Clause, scene: Scene)
    requires WellFormed(c)
    ensures ClauseHolds(Text(c), scene) <==> Term([c.kind], c.value, scene)
  {
    TrimStartSpace(c.space, [c.kind] + "[" + c.value);
    SplitOnceIs([c.kind], '[', c.value);
  }

  lemma NoBracket(c: Clause)
    requires WellFormed(c)
    ensures ']' !in Text(c)
  {
  }

  /** The printed list without its last bracket. */
  function Inner(clauses: seq<Clause>): string
    requires clauses != []
  {
    if |clauses| == 1 then Text(clauses[0]) else Text(clauses[0]) + [']'] + Inner(clauses[1..])
  }

  lemma {:induction false} PrintedInner(clauses: seq<Clause>)
    requires clauses != []
    ensures Print(clauses) == Inner(clauses) + "]"
  {
    if |clauses| == 1 {
      assert Print(clauses[1..]) == "";
    } else {
      PrintedInner(clauses[1..]);
      assert Print(clauses) == Text(clauses[0]) + "]" + (Inner(clauses[1..]) + "]");
    }
  }

  lemma {:induction false} SplitInner(clauses: seq<Clause>)
    requires clauses != [] && AllWellFormed(clauses)
    ensures Split(Inner(clauses), ']') == Texts(clauses)
  {
    var c, rest := clauses[0], clauses[1..];
    NoBracket(c);
    if rest == [] {
      IndexOfNone(Text(c), ']');
      assert Texts(clauses) == [Text(c)];
    } else {
      SplitInner(rest);
      SplitFirst(Text(c), ']', Inner(rest));
      TextsFirst(clauses);
    }
  }

  lemma TextsFirst(clauses: seq<Clause>)
    requires clauses != []
    ensures Texts(clauses) == [Text(clauses[0])] + Texts(clauses[1..])
  {
  }

  lemma PrintStarts(clauses: seq<Clause>)
    requires clauses != [] && clauses[0].space == ""
    ensures |Print(clauses)| > 2 && Print(clauses)[0] == clauses[0].kind && Print(clauses)[1] == '['
  {
    var c := clauses[0];
    var text := Text(c);
    assert text == [c.kind] + "[" + c.value;
    assert text[0] == c.kind && text[1] == '[';
    assert Print(clauses)[0] == text[0] && Print(clauses)[1] == text[1];
  }

  /** What is left of a printed list after trimming is no id, no name and no special
      workspace. */
  lemma PrintedIsAList(clauses: seq<Clause>)
    requires clauses != [] && clauses[0].space == "" && WellFormed(clauses[0])
    ensures var text := Print(clauses);
      text != "" && !White(text[0]) && ParseI64(text).None? && !("name:" <= text) && !("special" <= text)
  {
    var text := Print(clauses);
    PrintStarts(clauses);
    NotAnInteger(text);
    NotAPrefix("name:", text, 1);
    NotAPrefix("special", text, 1);
  }

  lemma TrimPrinted(clauses: seq<Clause>, trimmed: seq<Clause>, trailing: string)
    requires clauses != [] && WellFormed(clauses[0])
    requires trimmed == [clauses[0].(space := "")] + clauses[1..] && AllWhite(trailing)
    ensures Trim(Print(clauses) + trailing) == Print(trimmed)
  {
    var rest := Print(trimmed);
    assert trimmed[1..] == clauses[1..];
    assert Text(clauses[0]) == clauses[0].space + Text(trimmed[0]);
    assert Print(clauses) == clauses[0].space + rest;
    TrimEndSpace(Print(clauses), trailing);
    PrintedInner(clauses);
    PrintedIsAList(trimmed);
    TrimStartSpace(clauses[0].space, rest);
  }

  ghost predicate AllTerms(clauses: seq<Clause>, scene: Scene) {
    forall i :: 0 <= i < |clauses| ==> Term([clauses[i].kind], clauses[i].value, scene)
  }

  lemma ListsAreConjunctions(clauses: seq<Clause>, scene: Scene)
    requires clauses != [] && clauses[0].space == "" && AllWellFormed(clauses) && Trim(Print(clauses)) == Print(clauses)
    ensures Matches(Print(clauses), scene) <==> AllTerms(clauses, scene)
  {
    var text := Print(clauses);
    PrintedIsAList(clauses);
    PrintedInner(clauses);
    SplitInner(clauses);
    assert text[..|text| - 1] == Inner(clauses);
    assert Matches(text, scene) == AllHold(Texts(clauses), scene);
    forall i | 0 <= i < |clauses|
      ensures ClauseHolds(Texts(clauses)[i], scene) <==> Term([clauses[i].kind], clauses[i].value, scene)
    {
      ClauseMeansTerm(clauses[i], scene);
    }
  }

  lemma OnlyTrimmedTextMatters(a: string, b: string, scene: Scene)
    requires Trim(a) == Trim(b)
    ensures Matches(a, scene) <==> Matches(b, scene)
  {
  }

  lemma SpaceIsNoTerm(clauses: seq<Clause>, trimmed: seq<Clause>, scene: Scene)
    requires clauses != [] && AllWellFormed(clauses)
    requires trimmed == [clauses[0].(space := "")] + clauses[1..]
    ensures AllWellFormed(trimmed) && (AllTerms(trimmed, scene) <==> AllTerms(clauses, scene))
  {
    assert forall i :: 0 < i < |clauses| ==> trimmed[i] == clauses[i];
    assert trimmed[0].kind == clauses[0].kind && trimmed[0].value == clauses[0].value;
  }

  /** The selector printed from a list of clauses, spaced in any way, matches exactly
      when every clause of the list holds. */
  lemma SelectorsAreConjunctions(clauses: seq<Clause>, trailing: string, scene: Scene)
    requires AllWhite(trailing) && AllWellFormed(clauses)
    ensures Matches(Print(clauses) + trailing, scene) <==> AllTerms(clauses, scene)
  {
    if clauses == [] {
      TrimEndSpace("", trailing);
      assert "" + trailing == trailing;
    } else {
      var trimmed := [clauses[0].(space := "")] + clauses[1..];
      SpaceIsNoTerm(clauses, trimmed, scene);
      TrimPrinted(clauses, trimmed, trailing);
      TrimPrinted(trimmed, trimmed, "");
      assert Print(trimmed) + "" == Print(trimmed);
      ListsAreConjunctions(trimmed, scene);
      OnlyTrimmedTextMatters(Print(clauses) + trailing, Print(trimmed), scene);
    }
  }

  /** A printed range means its bounds, for one workspace id; one from zero, or one whose
      bounds are the wrong way round, holds for none, and so does a number alone. */
  lemma RangeTermMeans(low: nat, high: nat, scene: Scene)
    requires low <= I64_MAX && high <= I64_MAX
    ensures Term("r", Show(low) + "-" + Show(high), scene) <==> 1 <= low <= scene.workspace.id <= high
    ensures !Term("r", Show(low), scene)
  {
    var value := Show(low) + "-" + Show(high);
    PrintedRangesComeBack(low, high);
    assert value[|Show(low)|] == '-';
    NoDash(low);
  }

  lemma NoDash(n: nat)
    ensures '-' !in Show(n)
  {
    DigitsComeBack(n);
  }

  lemma PrintedRangesComeBack(low: nat, high: nat)
    requires low <= I64_MAX && high <= I64_MAX
    ensures ParseRange(Show(low) + "-" + Show(high)) == if 1 <= low <= high then Some(Range(low, high)) else None
  {
    PrintedIntegersComeBack(low);
    PrintedIntegersComeBack(high);
    DigitsComeBack(low);
    SplitOnceIs(Show(low), '-', Show(high));
  }

  /** Flags and bounds written together come apart again: a window selector means that
      the count for its flags lies within its bounds, which start at one. */
  lemma WindowTermMeans(flags: string, low: nat, high: nat, scene: Scene)
    requires ValidFlags(flags) && low <= I64_MAX && high <= I64_MAX
    ensures var count := Count(flags, scene.workspace, scene.clients);
      Term("w", flags + (Show(low) + "-" + Show(high)), scene) <==> 1 <= low <= count <= high
  {
    var bounds := Show(low) + "-" + Show(high);
    var value := flags + bounds;
    DigitsComeBack(low);
    assert bounds[0] == Show(low)[0];
    FlagsEndAtADigit(flags, bounds);
    assert value[..|flags|] == flags && value[|flags|..] == bounds;
    WindowTermSplit(flags, bounds, scene);
    PrintedRangesComeBack(low, high);
  }

  /** A single count written behind the flags means exactly that count, zero included. */
  lemma WindowCountMeans(flags: string, count: nat, scene: Scene)
    requires ValidFlags(flags) && count <= I64_MAX
    ensures Term("w", flags + Show(count), scene) <==> Count(flags, scene.workspace, scene.clients) == count
  {
    DigitsComeBack(count);
    FlagsEndAtADigit(flags, Show(count));
    WindowTermSplit(flags, Show(count), scene);
    PrintedCountsComeBack(count);
  }

  lemma PrintedCountsComeBack(count: nat)
    requires count <= I64_MAX
    ensures ParseRange(Show(count)) == Some(Range(count, count))
  {
    PrintedIntegersComeBack(count);
    DigitsComeBack(count);
    IndexOfNone(Show(count), '-');
  }

  lemma WindowTermSplit(flags: string, rest: string, scene: Scene)
    requires FlagsEnd(flags + rest, 0) == |flags|
    ensures Term("w", flags + rest, scene) <==> Contains(ParseRange(rest), Count(flags, scene.workspace, scene.clients))
  {
    var value := flags + rest;
    assert value[..|flags|] == flags && value[|flags|..] == rest;
  }

  lemma FlagsEndAtADigit(flags: string, rest: string)
    requires ValidFlags(flags) && rest != "" && IsDigit(rest[0])
    ensures FlagsEnd(flags + rest, 0) == |flags|
  {
    var value := flags + rest;
    assert value[..|flags|] == flags;
    assert value[..|flags| + 1] == flags + [rest[0]];
    FlagsSnoc(flags, rest[0]);
    LongestFlagsAreUnique(value, |flags|);
  }

  /** A selector that is an integer is a workspace id. */
  lemma IdsMatchThemselves(id: int, scene: Scene)
    requires I64_MIN <= id <= I64_MAX
    ensures Matches(Show(id), scene) <==> scene.workspace.id == id
  {
    ShowEnds(id);
    TrimNothing(Show(id));
    PrintedIntegersComeBack(id);
  }

  /** A name selector names exactly one workspace, up to the spaces that end it. */
  lemma NamesMatchThemselves(name: string, scene: Scene)
    ensures Matches("name:" + name, scene) <==> scene.workspace.name == TrimEnd(name)
  {
    var rest := "name:" + TrimEnd(name);
    TrimEndKeeps("name:", name);
    assert Trim("name:" + name) == rest;
    NotAnInteger(rest);
    assert rest[5..] == TrimEnd(name);
  }
}
