/**
 Replaying recoveries: element by element, as the search found them, and in groups that skip first and then insert.
 A skip and an insertion can be swapped (`MergeCommutes`), so both replays meet the same parser states.
 */
module Replay {
  import opened Options
  import opened TokenMachine

  /** One edit of a recovery with the state of the parser in front of it. */
  datatype ReturnElement = ReturnElement(totalSkippedTokens: nat, totalInsertedTokens: nat,
                                         preRecoveryState: SavedState, recovery: Element) {
    function ParsedSourceTokens(): int {
      preRecoveryState.parsedTokens - totalInsertedTokens
    }

    function TotalAdvancedTokens(): int {
      preRecoveryState.parsedTokens + totalSkippedTokens - totalInsertedTokens
    }
  }

  datatype RecoveryInstructions = RecoveryInstructions(skipTokens: nat, insertTokens: seq<LexerToken>) {
    /** The instructions with one more edit. */
    function With(e: Element): RecoveryInstructions {
      match e
      case Insert(token) => this.(insertTokens := insertTokens + [token])
      case Skip => this.(skipTokens := skipTokens + 1)
    }
  }

  const NO_RECOVERY := RecoveryInstructions(0, [])

  datatype RecoveryGroup = RecoveryGroup(recovery: RecoveryInstructions, sourceTokenPosition: int,
                                         preFirstRecoveryState: SavedState)

  function StartState(m: Machine): SavedState {
    SavedState(Key(0, m.start, Ready), 0)
  }

  predicate ReadyIn(m: Machine, s: SavedState) {
    s.key.status == Ready && m.InSource(s.key)
  }

  /** The state after parsing `n` more tokens. */
  function Advanced(m: Machine, s: SavedState, n: nat): (s': SavedState)
    requires ReadyIn(m, s)
    ensures m.InSource(s'.key)
  {
    var k := m.Run(s.key, n);
    SavedState(k, s.parsedTokens + (k.pos - s.key.pos))
  }

  // Element by element

  /** Parses from `s` to the state in front of the element, and applies its edit. */
  function AfterElement(m: Machine, s: SavedState, e: ReturnElement): Option<SavedState>
    requires ReadyIn(m, s)
  {
    var pre := e.preRecoveryState;
    if pre.key.pos < s.key.pos || pre != Advanced(m, s, pre.key.pos - s.key.pos) || pre.key.status != Ready then None
    else
      var after := AfterApply(m, pre, e.recovery);
      if after.key.status == Ready then Some(after) else None
  }

  /** The state after replaying all elements from the start, if every one of them is met and can be applied. */
  function ReplayElements(m: Machine, elements: seq<ReturnElement>): (r: Option<SavedState>)
    ensures r.Some? ==> ReadyIn(m, r.value)
  {
    if elements == [] then Some(StartState(m))
    else
      match ReplayElements(m, elements[..|elements| - 1])
      case None => None
      case Some(s) => AfterElement(m, s, elements[|elements| - 1])
  }

  function Skipped(elements: seq<ReturnElement>): nat {
    if elements == [] then 0 else Skipped(elements[..|elements| - 1]) + elements[|elements| - 1].recovery.Skips()
  }

  function Inserted(elements: seq<ReturnElement>): nat {
    if elements == [] then 0 else Inserted(elements[..|elements| - 1]) + elements[|elements| - 1].recovery.Inserts()
  }

  /** Every element counts the edits before it. */
  ghost predicate Counted(elements: seq<ReturnElement>) {
    forall i :: 0 <= i < |elements| ==>
      && elements[i].totalSkippedTokens == Skipped(elements[..i])
      && elements[i].totalInsertedTokens == Inserted(elements[..i])
  }

  /** The counts of every element, and the state after it, are those of the elements in front of it, carried on. */
  lemma ElementAppended(m: Machine, elements: seq<ReturnElement>, s: SavedState, e: ReturnElement)
    requires Counted(elements) && ReplayElements(m, elements) == Some(s) && AfterElement(m, s, e).Some?
    requires e.totalSkippedTokens == Skipped(elements) && e.totalInsertedTokens == Inserted(elements)
    ensures Counted(elements + [e]) && ReplayElements(m, elements + [e]) == AfterElement(m, s, e)
    ensures Skipped(elements + [e]) == Skipped(elements) + e.recovery.Skips()
    ensures Inserted(elements + [e]) == Inserted(elements) + e.recovery.Inserts()
  {
    hide AfterElement;
    var longer := elements + [e];
    assert longer[..|elements|] == elements;
    assert forall i :: 0 <= i < |elements| ==> longer[..i] == elements[..i];
  }

  // In groups

  function SkipTokens(m: Machine, s: SavedState, n: nat): (s': SavedState)
    requires ReadyIn(m, s)
    ensures m.InSource(s'.key)
  {
    if n == 0 then s
    else
      var before := SkipTokens(m, s, n - 1);
      if before.key.status != Ready then before else AfterApply(m, before, Skip)
  }

  function InsertTokens(m: Machine, s: SavedState, tokens: seq<LexerToken>): (s': SavedState)
    requires m.InSource(s.key)
    ensures m.InSource(s'.key)
  {
    if tokens == [] then s
    else
      var before := InsertTokens(m, s, tokens[..|tokens| - 1]);
      if before.key.status != Ready then before else AfterApply(m, before, Insert(tokens[|tokens| - 1]))
  }

  /** Skips first, then inserts, up to the first edit that fails. */
  function Expanded(m: Machine, s: SavedState, r: RecoveryInstructions): SavedState
    requires ReadyIn(m, s)
  {
    InsertTokens(m, SkipTokens(m, s, r.skipTokens), r.insertTokens)
  }

  function AfterGroup(m: Machine, s: SavedState, g: RecoveryGroup): Option<SavedState>
    requires ReadyIn(m, s)
  {
    var pre := g.preFirstRecoveryState;
    if pre.parsedTokens < s.parsedTokens || pre != Advanced(m, s, pre.parsedTokens - s.parsedTokens)
       || pre.key.status != Ready then None
    else
      var after := Expanded(m, pre, g.recovery);
      if after.key.status == Ready then Some(after) else None
  }

  function ReplayGroups(m: Machine, groups: seq<RecoveryGroup>): (r: Option<SavedState>)
    ensures r.Some? ==> ReadyIn(m, r.value)
  {
    if groups == [] then Some(StartState(m))
    else
      match ReplayGroups(m, groups[..|groups| - 1])
      case None => None
      case Some(s) => AfterGroup(m, s, groups[|groups| - 1])
  }

  // Skips and inserts commute

  lemma {:induction false} SkipsOnlyMove(m: Machine, s: SavedState, n: nat)
    requires ReadyIn(m, s)
    ensures SkipTokens(m, s, n).key.status == Ready <==> s.key.pos + n <= |m.source|
    ensures SkipTokens(m, s, n).key.status == Ready ==>
      SkipTokens(m, s, n) == s.(key := s.key.(pos := s.key.pos + n))
  {
    if n > 0 {
      SkipsOnlyMove(m, s, n - 1);
    }
  }

  /** Inserting does not look at the position. */
  lemma {:induction false} InsertsStayInPlace(m: Machine, s: SavedState, pos: nat, tokens: seq<LexerToken>)
    requires ReadyIn(m, s) && pos <= |m.source|
    ensures var r := InsertTokens(m, s, tokens);
            && r.key.pos == s.key.pos
            && InsertTokens(m, s.(key := s.key.(pos := pos)), tokens) == r.(key := r.key.(pos := pos))
  {
    if tokens != [] {
      InsertsStayInPlace(m, s, pos, tokens[..|tokens| - 1]);
    }
  }

  /** One more edit on top of a group leads to the state of the group with that edit merged into it. */
  lemma MergeCommutes(m: Machine, s: SavedState, r: RecoveryInstructions, e: Element)
    requires ReadyIn(m, s) && Expanded(m, s, r).key.status == Ready
    requires m.InSource(Expanded(m, s, r).key)
    requires AfterApply(m, Expanded(m, s, r), e).key.status == Ready
    ensures Expanded(m, s, r.With(e)) == AfterApply(m, Expanded(m, s, r), e)
  {
    var skipped := SkipTokens(m, s, r.skipTokens);
    InsertNeedsReady(m, skipped, r.insertTokens);
    match e {
      case Insert(token) =>
        assert (r.insertTokens + [token])[..|r.insertTokens|] == r.insertTokens;
      case Skip =>
        SkipsOnlyMove(m, s, r.skipTokens);
        SkipsOnlyMove(m, s, r.skipTokens + 1);
        InsertsStayInPlace(m, skipped, skipped.key.pos, r.insertTokens);
        InsertsStayInPlace(m, skipped, skipped.key.pos + 1, r.insertTokens);
    }
  }

  lemma {:induction false} InsertNeedsReady(m: Machine, s: SavedState, tokens: seq<LexerToken>)
    requires m.InSource(s.key) && InsertTokens(m, s, tokens).key.status == Ready
    ensures s.key.status == Ready
  {
    if tokens != [] {
      InsertNeedsReady(m, s, tokens[..|tokens| - 1]);
    }
  }

  // Grouping

  function NewGroup(e: ReturnElement): RecoveryGroup {
    RecoveryGroup(NO_RECOVERY.With(e.recovery), e.TotalAdvancedTokens(), e.preRecoveryState)
  }

  function WithMerged(groups: seq<RecoveryGroup>, e: Element): seq<RecoveryGroup>
    requires groups != []
  {
    var n := |groups| - 1;
    groups[n := groups[n].(recovery := groups[n].recovery.With(e))]
  }

  /** The number of source tokens parsed in front of the last group. */
  function LastGroupStart(elements: seq<ReturnElement>): int {
    if elements == [] then 0
    else
      var n := |elements| - 1;
      if n == 0 || elements[n].ParsedSourceTokens() != LastGroupStart(elements[..n])
      then elements[n].ParsedSourceTokens() else LastGroupStart(elements[..n])
  }

  /** Edits between which no token was parsed form one group. */
  function Groups(elements: seq<ReturnElement>): (groups: seq<RecoveryGroup>)
    ensures groups == [] <==> elements == []
  {
    if elements == [] then []
    else
      var n := |elements| - 1;
      var before := Groups(elements[..n]);
      if n == 0 || elements[n].ParsedSourceTokens() != LastGroupStart(elements[..n])
      then before + [NewGroup(elements[n])] else WithMerged(before, elements[n].recovery)
  }

  // Groups as slices

  /** The slices one behind the other. */
  ghost function Joined(slices: seq<seq<ReturnElement>>): seq<ReturnElement> {
    if slices == [] then [] else Joined(slices[..|slices| - 1]) + slices[|slices| - 1]
  }

  /** No token of the source is parsed between the elements of a slice. */
  ghost predicate InOnePlace(slice: seq<ReturnElement>) {
    slice != [] && forall i, j :: 0 <= i < |slice| && 0 <= j < |slice| ==>
      slice[i].ParsedSourceTokens() == slice[j].ParsedSourceTokens()
  }

  ghost function PlaceOf(slice: seq<ReturnElement>): int {
    if slice == [] then 0 else slice[0].ParsedSourceTokens()
  }

  /** The elements cut wherever a token of the source is parsed between two of them, and nowhere else. */
  ghost predicate AreSlices(elements: seq<ReturnElement>, slices: seq<seq<ReturnElement>>) {
    && Joined(slices) == elements
    && (forall g :: 0 <= g < |slices| ==> InOnePlace(slices[g]))
    && (forall g, h :: 0 <= g && h == g + 1 && h < |slices| ==>
          PlaceOf(slices[g]) != PlaceOf(slices[h]))
  }

  /** The inserted tokens in their order. */
  ghost function TokensOf(elements: seq<ReturnElement>): seq<LexerToken> {
    if elements == [] then []
    else
      var n := |elements| - 1;
      TokensOf(elements[..n]) + if elements[n].recovery.Insert? then [elements[n].recovery.token] else []
  }

  ghost predicate IsGroupOf(g: RecoveryGroup, slice: seq<ReturnElement>) {
    && slice != []
    && g.preFirstRecoveryState == slice[0].preRecoveryState
    && g.sourceTokenPosition == slice[0].TotalAdvancedTokens()
    && g.recovery.skipTokens == Skipped(slice) && g.recovery.insertTokens == TokensOf(slice)
  }

  /** One group for every slice. */
  ghost predicate AreGroups(elements: seq<ReturnElement>, slices: seq<seq<ReturnElement>>, groups: seq<RecoveryGroup>) {
    && AreSlices(elements, slices) && |groups| == |slices|
    && forall g :: 0 <= g < |groups| ==> IsGroupOf(groups[g], slices[g])
  }

  /** What is skipped and inserted in one place is one group, and what is not is not. */
  lemma {:induction false} GroupsAreSlices(elements: seq<ReturnElement>) returns (slices: seq<seq<ReturnElement>>)
    ensures AreGroups(elements, slices, Groups(elements))
    ensures elements != [] ==>
      slices != [] && PlaceOf(slices[|slices| - 1]) == LastGroupStart(elements)
    decreases |elements|
  {
    hide InOnePlace, IsGroupOf, WithMerged, NewGroup;
    if elements == [] {
      slices := [];
    } else {
      var n := |elements| - 1;
      var front, e := elements[..n], elements[n];
      assert front + [e] == elements;
      var before := GroupsAreSlices(front);
      if n == 0 || e.ParsedSourceTokens() != LastGroupStart(front) {
        slices := before + [[e]];
        NewSlice(front, before, Groups(front), e);
      } else {
        var last := |before| - 1;
        slices := before[last := before[last] + [e]];
        LongerSlice(front, before, Groups(front), e);
      }
    }
  }

  lemma NewSlice(front: seq<ReturnElement>, before: seq<seq<ReturnElement>>, groups: seq<RecoveryGroup>,
                 e: ReturnElement)
    requires AreGroups(front, before, groups)
    requires before != [] ==> PlaceOf(before[|before| - 1]) != e.ParsedSourceTokens()
    ensures AreGroups(front + [e], before + [[e]], groups + [NewGroup(e)])
  {
    hide IsGroupOf, InOnePlace;
    var slices := before + [[e]];
    assert slices[..|before|] == before;
    OneElementGroup(e);
    OneElementPlace(e);
    forall g, h | 0 <= g && h == g + 1 && h < |slices|
      ensures PlaceOf(slices[g]) != PlaceOf(slices[h])
    {
      if h < |before| {
        assert slices[g] == before[g] && slices[h] == before[h];
      } else {
        assert slices[g] == before[|before| - 1] && slices[h] == [e];
      }
    }
  }

  lemma OneElementPlace(e: ReturnElement)
    ensures InOnePlace([e])
  {
  }

  lemma OneElementGroup(e: ReturnElement)
    ensures IsGroupOf(NewGroup(e), [e])
  {
    assert [e][..0] == [];
  }

  lemma LongerSlice(front: seq<ReturnElement>, before: seq<seq<ReturnElement>>, groups: seq<RecoveryGroup>,
                    e: ReturnElement)
    requires AreGroups(front, before, groups) && before != []
    requires PlaceOf(before[|before| - 1]) == e.ParsedSourceTokens()
    ensures var last := |before| - 1;
            AreGroups(front + [e], before[last := before[last] + [e]], WithMerged(groups, e.recovery))
  {
    hide IsGroupOf, RecoveryInstructions.With;
    var last := |before| - 1;
    var slices := before[last := before[last] + [e]];
    assert slices[..last] == before[..last];
    LongerGroup(groups[last], before[last], e);
  }

  lemma LongerGroup(g: RecoveryGroup, slice: seq<ReturnElement>, e: ReturnElement)
    requires IsGroupOf(g, slice)
    ensures IsGroupOf(g.(recovery := g.recovery.With(e.recovery)), slice + [e])
  {
    assert (slice + [e])[..|slice|] == slice;
  }

  method BuildGroups(elements: seq<ReturnElement>) returns (result: seq<RecoveryGroup>)
    ensures result == Groups(elements)
    ensures exists slices :: AreGroups(elements, slices, result)
  {
    ghost var slices := GroupsAreSlices(elements);
    result := [];
    var parsedSourceTokens: int := 0;
    for i := 0 to |elements|
      invariant result == Groups(elements[..i]) && parsedSourceTokens == LastGroupStart(elements[..i])
    {
      var element := elements[i];
      assert elements[..i + 1][..i] == elements[..i];
      if result == [] || element.ParsedSourceTokens() != parsedSourceTokens {
        result := result + [RecoveryGroup(NO_RECOVERY, element.TotalAdvancedTokens(), element.preRecoveryState)];
        parsedSourceTokens := element.ParsedSourceTokens();
      }
      var n := |result| - 1;
      result := result[n := result[n].(recovery := result[n].recovery.With(element.recovery))];
    }
    assert elements[..|elements|] == elements;
  }

  lemma GroupStartIsLast(elements: seq<ReturnElement>)
    requires elements != []
    ensures LastGroupStart(elements) == elements[|elements| - 1].ParsedSourceTokens()
  {
  }

  /** No token was parsed in front of an edit that joins the group of the edit before it. */
  lemma JoinsInPlace(m: Machine, elements: seq<ReturnElement>)
    requires Counted(elements) && |elements| >= 2 && ReplayElements(m, elements).Some?
    requires elements[|elements| - 1].ParsedSourceTokens() == LastGroupStart(elements[..|elements| - 1])
    ensures ReplayElements(m, elements[..|elements| - 1]).Some?
    ensures ReplayElements(m, elements[..|elements| - 1]).value == elements[|elements| - 1].preRecoveryState
  {
    var n := |elements| - 1;
    var front := elements[..n];
    assert front[..n - 1] == elements[..n - 1];
    GroupStartIsLast(front);
    var s := ReplayElements(m, front).value;
    assert s == AfterElement(m, ReplayElements(m, front[..n - 1]).value, front[n - 1]).value;
    assert elements[n].totalInsertedTokens == Inserted(front);
    assert elements[n - 1].totalInsertedTokens == Inserted(elements[..n - 1]);
    assert AfterElement(m, s, elements[n]).Some?;
  }

  lemma PushedGroupReplays(m: Machine, groups: seq<RecoveryGroup>, s: SavedState, e: ReturnElement)
    requires ReplayGroups(m, groups) == Some(s) && AfterElement(m, s, e).Some?
    ensures ReplayGroups(m, groups + [NewGroup(e)]) == AfterElement(m, s, e)
  {
    assert (groups + [NewGroup(e)])[..|groups|] == groups;
    NewGroupReplays(m, s, e);
  }

  lemma MergedGroupReplays(m: Machine, groups: seq<RecoveryGroup>, s: SavedState, e: Element)
    requires groups != [] && ReplayGroups(m, groups) == Some(s) && AfterApply(m, s, e).key.status == Ready
    ensures ReplayGroups(m, WithMerged(groups, e)) == Some(AfterApply(m, s, e))
  {
    hide Expanded, Machine.Run, Machine.Apply, AfterApply, AfterGroup, RecoveryInstructions.With;
    var n := |groups| - 1;
    assert WithMerged(groups, e)[..n] == groups[..n];
    MergedGroup(m, ReplayGroups(m, groups[..n]).value, groups[n], e);
  }

  lemma MergedGroup(m: Machine, s: SavedState, g: RecoveryGroup, e: Element)
    requires ReadyIn(m, s) && AfterGroup(m, s, g).Some? && ReadyIn(m, AfterGroup(m, s, g).value)
    requires AfterApply(m, AfterGroup(m, s, g).value, e).key.status == Ready
    ensures AfterGroup(m, s, g.(recovery := g.recovery.With(e))) == Some(AfterApply(m, AfterGroup(m, s, g).value, e))
  {
    hide Expanded, Machine.Run, Machine.Apply, AfterApply, RecoveryInstructions.With;
    MergeCommutes(m, g.preFirstRecoveryState, g.recovery, e);
  }

  lemma InPlaceElement(m: Machine, s: SavedState, e: ReturnElement)
    requires ReadyIn(m, s) && AfterElement(m, s, e).Some? && e.preRecoveryState == s
    ensures AfterApply(m, s, e.recovery).key.status == Ready
    ensures AfterElement(m, s, e) == Some(AfterApply(m, s, e.recovery))
  {
  }

  /** Replaying the groups meets every state in front of a group and ends where replaying the elements ends. */
  lemma {:induction false} GroupsReplay(m: Machine, elements: seq<ReturnElement>)
    requires Counted(elements) && ReplayElements(m, elements).Some?
    ensures ReplayGroups(m, Groups(elements)) == ReplayElements(m, elements)
  {
    hide AfterElement, Counted, NewGroup, WithMerged, LastGroupStart, AfterGroup;
    if elements != [] {
      var n := |elements| - 1;
      var front, last := elements[..n], elements[n];
      CountedFront(elements);
      GroupsReplay(m, front);
      var s := ReplayElements(m, front).value;
      if n == 0 || last.ParsedSourceTokens() != LastGroupStart(front) {
        PushedGroupReplays(m, Groups(front), s, last);
      } else {
        JoinsInPlace(m, elements);
        InPlaceElement(m, s, last);
        MergedGroupReplays(m, Groups(front), s, last.recovery);
      }
    }
  }

  lemma CountedFront(elements: seq<ReturnElement>)
    requires Counted(elements) && elements != []
    ensures Counted(elements[..|elements| - 1])
  {
    var front := elements[..|elements| - 1];
    assert forall i :: 0 <= i < |front| ==> front[..i] == elements[..i];
  }

  lemma NewGroupReplays(m: Machine, s: SavedState, e: ReturnElement)
    requires ReadyIn(m, s) && AfterElement(m, s, e).Some?
    ensures AfterGroup(m, s, NewGroup(e)) == AfterElement(m, s, e)
  {
    var pre := e.preRecoveryState;
    assert Expanded(m, pre, NO_RECOVERY) == pre;
    MergeCommutes(m, pre, NO_RECOVERY, e.recovery);
  }

  // Where groups are

  /** The state after the elements is as far into the source as the counts say. */
  lemma {:induction false} ReplayPosition(m: Machine, elements: seq<ReturnElement>)
    requires ReplayElements(m, elements).Some?
    ensures var s := ReplayElements(m, elements).value;
            s.parsedTokens + Skipped(elements) - Inserted(elements) == s.key.pos
    decreases |elements|
  {
    if elements != [] {
      var n := |elements| - 1;
      ReplayPosition(m, elements[..n]);
      ElementPosition(m, ReplayElements(m, elements[..n]).value, elements[n]);
    }
  }

  /** Parsing to an element and applying its edit moves the parser and its counter. */
  lemma ElementPosition(m: Machine, s: SavedState, e: ReturnElement)
    requires ReadyIn(m, s) && AfterElement(m, s, e).Some?
    ensures var pre, after := e.preRecoveryState, AfterElement(m, s, e).value;
            && pre.parsedTokens - pre.key.pos == s.parsedTokens - s.key.pos && pre.parsedTokens >= s.parsedTokens
            && after.parsedTokens == pre.parsedTokens + e.recovery.Inserts()
            && after.key.pos == pre.key.pos + e.recovery.Skips()
  {
    hide Machine.Run;
  }

  /** Between two elements in a row the parsed tokens of the source can only increase, and the position with them. */
  lemma ElementsAdvance(m: Machine, elements: seq<ReturnElement>)
    requires Counted(elements) && |elements| >= 2 && ReplayElements(m, elements).Some?
    ensures var n := |elements| - 1;
            && elements[n].ParsedSourceTokens() >= elements[n - 1].ParsedSourceTokens()
            && elements[n].TotalAdvancedTokens() - elements[n - 1].TotalAdvancedTokens()
               == elements[n].ParsedSourceTokens() - elements[n - 1].ParsedSourceTokens()
                  + elements[n - 1].recovery.Skips()
  {
    var n := |elements| - 1;
    var front := elements[..n];
    assert front[..n - 1] == elements[..n - 1];
    assert elements[n].totalSkippedTokens == Skipped(front) && elements[n].totalInsertedTokens == Inserted(front);
    assert elements[n - 1].totalSkippedTokens == Skipped(elements[..n - 1]);
    assert elements[n - 1].totalInsertedTokens == Inserted(elements[..n - 1]);
    ElementPosition(m, ReplayElements(m, front[..n - 1]).value, front[n - 1]);
    ElementPosition(m, ReplayElements(m, front).value, elements[n]);
  }

  ghost predicate Increasing(groups: seq<RecoveryGroup>) {
    forall i, j :: 0 <= i < j < |groups| ==> groups[i].sourceTokenPosition < groups[j].sourceTokenPosition
  }

  /** Every group is farther into the source than the one before it. */
  lemma {:induction false} GroupPositionsIncrease(m: Machine, elements: seq<ReturnElement>)
    requires Counted(elements) && ReplayElements(m, elements).Some?
    ensures Increasing(Groups(elements))
    ensures elements != [] ==>
      var groups := Groups(elements);
      groups[|groups| - 1].sourceTokenPosition <= elements[|elements| - 1].TotalAdvancedTokens()
    decreases |elements|
  {
    hide AfterElement, Counted;
    if elements != [] {
      var n := |elements| - 1;
      CountedFront(elements);
      GroupPositionsIncrease(m, elements[..n]);
      if n > 0 {
        GroupStartIsLast(elements[..n]);
        ElementsAdvance(m, elements);
      }
    }
  }
}
