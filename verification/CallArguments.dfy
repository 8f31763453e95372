/**
 The arguments of the calls that are being parsed, in one flat buffer: a stack of frames, each with the token that
 opened the call, the names of its arguments, and their number.
 */
module CallArguments {
  import opened Options

  /** Names and numbers are words of 32 bits. */
  type Word = nat

  const NO_NAME: Word := 0
  const ARGUMENT_BUFFER_SIZE := 1024

  /** A call that is not closed yet. */
  datatype Frame = Frame(token: nat, names: seq<Word>)

  /** Arguments outside of all calls are counted too, from whatever number is found there. */
  datatype BaseFrame = BaseFrame(count: nat, names: seq<Word>)

  // The flat buffer

  ghost function Layout(base: BaseFrame, frames: seq<Frame>): (cells: seq<Word>)
    ensures cells != []
  {
    if frames == [] then base.names + [base.count + |base.names|]
    else
      var n := |frames| - 1;
      Layout(base, frames[..n]) + [frames[n].token] + frames[n].names + [|frames[n].names|]
  }

  lemma LayoutOfPushed(base: BaseFrame, frames: seq<Frame>, f: Frame)
    ensures Layout(base, frames + [f]) == Layout(base, frames) + [f.token] + f.names + [|f.names|]
  {
    assert (frames + [f])[..|frames|] == frames;
  }

  /** The names that the last cells before the end of the buffer hold. */
  ghost function TopNames(base: BaseFrame, frames: seq<Frame>): seq<Word> {
    if frames == [] then base.names else frames[|frames| - 1].names
  }

  ghost function WithTopFrame(frames: seq<Frame>, names: seq<Word>): seq<Frame>
    requires frames != []
  {
    frames[|frames| - 1 := frames[|frames| - 1].(names := names)]
  }

  lemma LayoutOfOpened(base: BaseFrame, frames: seq<Frame>, token: nat)
    ensures Layout(base, frames + [Frame(token, [])]) == Layout(base, frames) + [token, 0]
  {
    LayoutOfPushed(base, frames, Frame(token, []));
    hide Layout;
    var cells := Layout(base, frames);
    assert cells + [token] + [] + [0] == cells + [token, 0];
  }

  /** What precedes the names of the top frame. */
  ghost function BelowNames(base: BaseFrame, frames: seq<Frame>): seq<Word> {
    if frames == [] then []
    else Layout(base, frames[..|frames| - 1]) + [frames[|frames| - 1].token]
  }

  ghost function TopCount(base: BaseFrame, frames: seq<Frame>): nat {
    |TopNames(base, frames)| + if frames == [] then base.count else 0
  }

  lemma LayoutOfTop(base: BaseFrame, frames: seq<Frame>)
    ensures Layout(base, frames) == BelowNames(base, frames) + TopNames(base, frames) + [TopCount(base, frames)]
  {
    if frames == [] {
      assert [] + base.names + [TopCount(base, frames)] == Layout(base, frames);
    }
  }

  /** The cells with another name behind those of the top frame. */
  lemma LayoutOfAdded(base: BaseFrame, frames: seq<Frame>, name: Word)
    ensures var cells, n := Layout(base, frames), |Layout(base, frames)| - 1;
            cells[..n] + [name, cells[n] + 1]
            == if frames == [] then Layout(base.(names := base.names + [name]), frames)
               else Layout(base, WithTopFrame(frames, TopNames(base, frames) + [name]))
  {
    hide Layout, BelowNames, TopNames, TopCount, WithTopFrame;
    LayoutOfTop(base, frames);
    AddedParts(base, frames, name);
    var below, names, count := BelowNames(base, frames), TopNames(base, frames), TopCount(base, frames);
    AddedCells(Layout(base, frames), below, names, count, name);
    if frames == [] {
      LayoutOfTop(base.(names := base.names + [name]), frames);
    } else {
      LayoutOfTop(base, WithTopFrame(frames, names + [name]));
    }
  }

  lemma AddedParts(base: BaseFrame, frames: seq<Frame>, name: Word)
    ensures var below, names, count := BelowNames(base, frames), TopNames(base, frames), TopCount(base, frames);
            if frames == [] then
              var base' := base.(names := base.names + [name]);
              && BelowNames(base', frames) == below && TopNames(base', frames) == names + [name]
              && TopCount(base', frames) == count + 1 && names == base.names
            else
              var frames' := WithTopFrame(frames, names + [name]);
              && BelowNames(base, frames') == below && TopNames(base, frames') == names + [name]
              && TopCount(base, frames') == count + 1
  {
    if frames != [] {
      assert WithTopFrame(frames, TopNames(base, frames) + [name])[..|frames| - 1] == frames[..|frames| - 1];
    }
  }

  lemma TopCountOf(base: BaseFrame, frames: seq<Frame>)
    ensures var cells := Layout(base, frames);
            cells[|cells| - 1] == |TopNames(base, frames)| + if frames == [] then base.count else 0
  {
  }

  lemma AddedCells(cells: seq<Word>, below: seq<Word>, names: seq<Word>, count: nat, name: Word)
    requires cells == below + names + [count]
    ensures cells[..|cells| - 1] + [name, cells[|cells| - 1] + 1] == below + (names + [name]) + [count + 1]
  {
    assert cells[..|cells| - 1] == below + names;
  }

  lemma LayoutOfRenamed(base: BaseFrame, frames: seq<Frame>, name: Word)
    requires TopNames(base, frames) != []
    ensures var cells, n := Layout(base, frames), |Layout(base, frames)| - 1;
            var names := TopNames(base, frames);
            && n > 0
            && cells[n - 1 := name]
               == if frames == [] then Layout(base.(names := names[|names| - 1 := name]), frames)
                  else Layout(base, WithTopFrame(frames, names[|names| - 1 := name]))
  {
    if frames != [] {
      var k, names := |frames| - 1, TopNames(base, frames);
      assert WithTopFrame(frames, names[|names| - 1 := name])[..k] == frames[..k];
    }
  }

  /** Where the parts of the top frame are. */
  lemma TopOfLayout(base: BaseFrame, frames: seq<Frame>)
    requires frames != []
    ensures var cells, n := Layout(base, frames), |Layout(base, frames)| - 1;
            var top := frames[|frames| - 1];
            && cells[n] == |top.names|
            && n - |top.names| - 1 >= 1
            && cells[n - |top.names|..n] == top.names
            && cells[n - |top.names| - 1] == top.token
            && cells[..n - |top.names| - 1] == Layout(base, frames[..|frames| - 1])
  {
  }

  class ArgumentBuffer {
    const buffer: array<Word>
    var position: nat
    /** The arguments that were recorded on the tokens. */
    var tokens: seq<Option<seq<Word>>>
    ghost var base: BaseFrame
    ghost var frames: seq<Frame>

    ghost predicate Valid()
      reads this, buffer
    {
      && position < buffer.Length == ARGUMENT_BUFFER_SIZE
      && buffer[..position + 1] == Layout(base, frames)
      && FramesOk(frames, tokens)
    }

    constructor ()
      ensures Valid() && frames == [] && tokens == [] && base.names == [] && fresh(buffer)
    {
      buffer := new Word[ARGUMENT_BUFFER_SIZE];
      position := 0;
      tokens, frames := [], [];
      new;
      base := BaseFrame(buffer[0], []);
    }

    /** Emits a token that opens no call. */
    method EmitToken()
      requires Valid()
      modifies this`tokens
      ensures Valid() && tokens == old(tokens) + [None]
    {
      tokens := tokens + [None];
    }

    /** Takes the last token back, which opens no call. */
    method DiscardLastToken()
      requires Valid() && tokens != [] && forall f :: f in frames ==> f.token < |tokens| - 1
      modifies this`tokens
      ensures Valid() && tokens == old(tokens)[..|old(tokens)| - 1]
    {
      tokens := tokens[..|tokens| - 1];
    }

    /** Emits the token that opens a call. */
    method EmitCallToken()
      requires Valid() && position + 2 < ARGUMENT_BUFFER_SIZE
      modifies this`position, this`tokens, this`frames, buffer
      ensures Valid() && tokens == old(tokens) + [None]
      ensures frames == old(frames) + [Frame(|old(tokens)|, [])]
    {
      hide Layout, FramesOk;
      LayoutOfOpened(base, frames, |tokens|);
      PushedFramesOk(frames, tokens);
      ghost var cells := buffer[..position + 1];
      var tokenIndex := |tokens|;
      tokens := tokens + [None];
      buffer[position + 1] := tokenIndex;
      buffer[position + 2] := 0;
      position := position + 2;
      frames := frames + [Frame(tokenIndex, [])];
      assert buffer[..position + 1] == cells + [tokenIndex, 0];
    }

    method AddCallArgument(name: Word)
      requires Valid() && position + 1 < ARGUMENT_BUFFER_SIZE
      modifies this`position, this`base, this`frames, buffer
      ensures Valid()
      ensures if old(frames) == [] then base == old(base).(names := old(base).names + [name]) && frames == []
              else base == old(base) && frames == WithTopFrame(old(frames), TopNames(base, old(frames)) + [name])
    {
      hide Layout;
      LayoutOfAdded(base, frames, name);
      var newCount := buffer[position] + 1;
      buffer[position] := name;
      position := position + 1;
      buffer[position] := newCount;
      if frames == [] {
        base := base.(names := base.names + [name]);
      } else {
        frames := WithTopFrame(frames, TopNames(base, frames) + [name]);
      }
      assert buffer[..position + 1] == old(buffer[..position]) + [name, newCount];
    }

    /** Gives the last argument a name. */
    method UpdateCallArgument(name: Word)
      requires Valid() && TopNames(base, frames) != []
      modifies this`base, this`frames, buffer
      ensures Valid()
      ensures var names := TopNames(old(base), old(frames));
              if old(frames) == [] then base == old(base).(names := names[|names| - 1 := name]) && frames == []
              else base == old(base) && frames == WithTopFrame(old(frames), names[|names| - 1 := name])
    {
      hide Layout;
      ghost var names := TopNames(base, frames);
      LayoutOfRenamed(base, frames, name);
      assert buffer[position] != 0 by {
        assert buffer[position] == buffer[..position + 1][position];
        TopCountOf(base, frames);
      }
      buffer[position - 1] := name;
      if frames == [] {
        base := base.(names := names[|names| - 1 := name]);
      } else {
        frames := WithTopFrame(frames, names[|names| - 1 := name]);
      }
      assert buffer[..position + 1] == old(buffer[..position + 1])[position - 1 := name];
    }

    /** Records the names of the top frame, in their order, on the token that opened it, and drops the frame. */
    method EndCall()
      requires Valid() && frames != []
      modifies this`position, this`tokens, this`frames
      ensures Valid() && frames == old(frames)[..|old(frames)| - 1]
      ensures var top := old(frames)[|old(frames)| - 1];
              top.token < |old(tokens)| && tokens == old(tokens)[top.token := Some(top.names)]
    {
      hide Layout;
      ghost var cells, top := Layout(base, frames), frames[|frames| - 1];
      TopOfLayout(base, frames);
      assert forall k :: 0 <= k <= position ==> buffer[k] == cells[k];
      var count := buffer[position];
      var arguments := buffer[position - count..position];
      assert arguments == cells[position - count..position];
      position := position - (count + 2);
      var token := buffer[position + 1];
      tokens := tokens[token := Some(arguments)];
      frames := frames[..|frames| - 1];
      assert buffer[..position + 1] == cells[..position + 1];
    }
  }

  /** Calls were opened by different tokens, the inner ones later. */
  ghost predicate FramesOk(frames: seq<Frame>, tokens: seq<Option<seq<Word>>>) {
    && (forall i :: 0 <= i < |frames| ==> frames[i].token < |tokens| && tokens[frames[i].token].None?)
    && (forall i, j :: 0 <= i < j < |frames| ==> frames[i].token < frames[j].token)
  }

  lemma PushedFramesOk(frames: seq<Frame>, tokens: seq<Option<seq<Word>>>)
    requires FramesOk(frames, tokens)
    ensures FramesOk(frames + [Frame(|tokens|, [])], tokens + [None])
  {
  }

  // The calls of a parser run

  datatype Bracket = Paren | Square | Brace | BraceInImplExpr

  /** Scopes of open calls, and other scopes. */
  datatype Scope = Call(bracket: Bracket) | Other(kind: nat)

  /**
   What the parser state says about calls: the last token opened one, or was the identifier of an argument, which
   a colon may turn into its name.
   */
  datatype Mode = Between | First(bracket: Bracket) | MaybeDesignated

  datatype CallState = CallState(frames: seq<Frame>, base: seq<Word>, scopes: seq<Scope>, mode: Mode,
                                 tokens: seq<Option<seq<Word>>>)

  datatype Action =
    | Open(bracket: Bracket)
    | CloseEmpty
    | FirstArgument
    | OpenInImplExpr
    | NextArgument
    | EmitIdentifier
    | Designate(name: Word)
    | NoDesignator
    | Close(bracket: Bracket)
    | PushScope(kind: nat)
    | PopScope(kind: nat)
    | Emit

  ghost predicate Opens(a: Action) {
    a.Open? || a.OpenInImplExpr?
  }

  ghost predicate Closes(a: Action) {
    a.CloseEmpty? || a.Close?
  }

  function NamesOf(s: CallState): seq<Word> {
    if s.frames == [] then s.base else s.frames[|s.frames| - 1].names
  }

  function WithNames(s: CallState, names: seq<Word>): CallState {
    if s.frames == [] then s.(base := names)
    else
      var n := |s.frames| - 1;
      s.(frames := s.frames[n := s.frames[n].(names := names)])
  }

  function Opened(s: CallState): CallState {
    s.(frames := s.frames + [Frame(|s.tokens|, [])], tokens := s.tokens + [None])
  }

  function Ended(s: CallState): CallState
    requires s.frames != [] && s.frames[|s.frames| - 1].token < |s.tokens|
  {
    var top := s.frames[|s.frames| - 1];
    s.(frames := s.frames[..|s.frames| - 1], tokens := s.tokens[top.token := Some(top.names)])
  }

  /** Whether an action is one the parser takes in a state; scopes are popped only if they are on top. */
  predicate Allowed(s: CallState, a: Action) {
    match a
    case Open(bracket) => s.mode.Between? && bracket != BraceInImplExpr
    case CloseEmpty => s.mode.First?
    case FirstArgument => s.mode.First?
    case EmitIdentifier => s.mode.Between? && NamesOf(s) != []
    case Designate(_) => s.mode.MaybeDesignated?
    case NoDesignator => s.mode.MaybeDesignated?
    case Close(bracket) => s.mode.Between? && s.scopes != [] && s.scopes[|s.scopes| - 1] == Call(bracket)
    case PopScope(kind) => s.mode.Between? && s.scopes != [] && s.scopes[|s.scopes| - 1] == Other(kind)
    case _ => s.mode.Between?
  }

  /** What an action does; ending a call needs an open frame, and taking a token back one that is not needed. */
  function After(s: CallState, a: Action): CallState
    requires Allowed(s, a) && CallsOk(s)
  {
    match a
    case Open(bracket) => Opened(s).(mode := First(bracket))
    case CloseEmpty => Ended(s).(mode := Between)
    case FirstArgument =>
      WithNames(s, NamesOf(s) + [NO_NAME]).(scopes := s.scopes + [Call(s.mode.bracket)], mode := Between)
    case OpenInImplExpr => Opened(s).(scopes := s.scopes + [Call(BraceInImplExpr)])
    case NextArgument => WithNames(s, NamesOf(s) + [NO_NAME])
    case EmitIdentifier => s.(tokens := s.tokens + [None], mode := MaybeDesignated)
    case Designate(name) =>
      WithNames(s, NamesOf(s)[|NamesOf(s)| - 1 := name]).(tokens := s.tokens[..|s.tokens| - 1], mode := Between)
    case NoDesignator => s.(mode := Between)
    case Close(_) =>
      CallScopesOfLast(s.scopes);
      Ended(s).(scopes := s.scopes[..|s.scopes| - 1])
    case PushScope(kind) => s.(scopes := s.scopes + [Other(kind)])
    case PopScope(_) => s.(scopes := s.scopes[..|s.scopes| - 1])
    case Emit => s.(tokens := s.tokens + [None])
  }

  function CallScopes(scopes: seq<Scope>): nat {
    if scopes == [] then 0
    else CallScopes(scopes[..|scopes| - 1]) + if scopes[|scopes| - 1].Call? then 1 else 0
  }

  lemma CallScopesOfLast(scopes: seq<Scope>)
    requires scopes != [] && scopes[|scopes| - 1].Call?
    ensures CallScopes(scopes) > 0
  {
  }

  /** There is a frame for every scope of a call, and one for a call whose first argument is to come. */
  ghost predicate CallsOk(s: CallState) {
    && |s.frames| == CallScopes(s.scopes) + (if s.mode.First? then 1 else 0)
    && FramesOk(s.frames, s.tokens)
    && (s.mode.MaybeDesignated? ==>
          NamesOf(s) != [] && s.tokens != [] && forall f :: f in s.frames ==> f.token < |s.tokens| - 1)
  }

  lemma {:induction false} CallScopesPushed(scopes: seq<Scope>, scope: Scope)
    ensures CallScopes(scopes + [scope]) == CallScopes(scopes) + if scope.Call? then 1 else 0
  {
    assert (scopes + [scope])[..|scopes|] == scopes;
  }

  lemma OpeningKeepsCalls(s: CallState, a: Action)
    requires CallsOk(s) && Allowed(s, a) && Opens(a)
    ensures CallsOk(After(s, a))
  {
    hide CallScopes;
    CallScopesPushed(s.scopes, Call(BraceInImplExpr));
  }

  lemma ClosingKeepsCalls(s: CallState, a: Action)
    requires CallsOk(s) && Allowed(s, a) && Closes(a)
    ensures CallsOk(After(s, a)) && s.frames != []
  {
    if a.Close? {
      CallScopesOfLast(s.scopes);
    }
  }

  lemma NamingKeepsCalls(s: CallState, a: Action)
    requires CallsOk(s) && Allowed(s, a) && (a.FirstArgument? || a.NextArgument? || a.Designate?)
    ensures CallsOk(After(s, a))
  {
    hide CallScopes;
    if a.FirstArgument? {
      CallScopesPushed(s.scopes, Call(s.mode.bracket));
    }
  }

  /** Every action keeps the frames and the scopes of calls in step, so a call that is ended has an open frame. */
  lemma AfterKeepsCalls(s: CallState, a: Action)
    requires CallsOk(s) && Allowed(s, a)
    ensures CallsOk(After(s, a))
    ensures Closes(a) ==> s.frames != []
  {
    if Opens(a) {
      OpeningKeepsCalls(s, a);
    } else if Closes(a) {
      ClosingKeepsCalls(s, a);
    } else if a.FirstArgument? || a.NextArgument? || a.Designate? {
      NamingKeepsCalls(s, a);
    } else if a.PushScope? {
      CallScopesPushed(s.scopes, Other(a.kind));
    }
  }

  /** A run of the parser, which stops in front of the first action that is not allowed. */
  function Run(s: CallState, actions: seq<Action>): (r: CallState)
    requires CallsOk(s)
    ensures CallsOk(r)
    decreases |actions|
  {
    if actions == [] || !Allowed(s, actions[0]) then s
    else
      AfterKeepsCalls(s, actions[0]);
      Run(After(s, actions[0]), actions[1..])
  }

  const START := CallState([], [], [], Between, [])

  /** After every run there are as many frames as calls are open, so ending a call always finds its frame. */
  lemma RunsKeepCalls(actions: seq<Action>)
    ensures var s := Run(START, actions);
            && |s.frames| == CallScopes(s.scopes) + (if s.mode.First? then 1 else 0)
            && (s.scopes != [] && s.scopes[|s.scopes| - 1].Call? && s.mode.Between? ==> s.frames != [])
            && (s.mode.First? ==> s.frames != [])
  {
    var s := Run(START, actions);
    if s.scopes != [] && s.scopes[|s.scopes| - 1].Call? {
      CallScopesOfLast(s.scopes);
    }
  }

  /** Every action is allowed when its turn comes. */
  ghost predicate AllAllowed(s: CallState, actions: seq<Action>)
    requires CallsOk(s)
    decreases |actions|
  {
    actions != [] ==>
      && Allowed(s, actions[0])
      && CallsOk(After(s, actions[0]))
      && AllAllowed(After(s, actions[0]), actions[1..])
  }

  /** Designators take a token back, and some other actions emit one. */
  ghost function Emitted(a: Action): int {
    if Opens(a) || a.Emit? || a.EmitIdentifier? then 1 else if a.Designate? then -1 else 0
  }

  ghost function TokensLeft(n: int, actions: seq<Action>): int
    decreases |actions|
  {
    if actions == [] then n else TokensLeft(n + Emitted(actions[0]), actions[1..])
  }

  lemma ActionEmits(s: CallState, a: Action)
    requires CallsOk(s) && Allowed(s, a)
    ensures |After(s, a).tokens| == |s.tokens| + Emitted(a)
  {
    AfterKeepsCalls(s, a);
  }

  /** A run leaves the tokens it emits, less one for every designator. */

  lemma {:induction false} RunLeavesTokens(s: CallState, actions: seq<Action>)
    requires CallsOk(s) && AllAllowed(s, actions)
    ensures |Run(s, actions).tokens| == TokensLeft(|s.tokens|, actions)
    decreases |actions|
  {
    hide CallScopes, FramesOk, After, Emitted;
    if actions != [] {
      ActionEmits(s, actions[0]);
      RunLeavesTokens(After(s, actions[0]), actions[1..]);
    }
  }

  /** A designator names the last argument and takes the token of its identifier back; nothing else changes. */
  lemma DesignatorTakesTokenBack(s: CallState, name: Word)
    requires CallsOk(s) && Allowed(s, EmitIdentifier)
    ensures CallsOk(After(s, EmitIdentifier)) && Allowed(After(s, EmitIdentifier), Designate(name))
    ensures var r := After(After(s, EmitIdentifier), Designate(name));
            && r.tokens == s.tokens && r.scopes == s.scopes && r.mode == s.mode && |r.frames| == |s.frames|
            && NamesOf(r) == NamesOf(s)[|NamesOf(s)| - 1 := name]
            && (s.frames == [] ==> r.frames == [])
            && (s.frames != [] ==> r.base == s.base && r.frames[..|s.frames| - 1] == s.frames[..|s.frames| - 1]
                                   && r.frames[|s.frames| - 1].token == s.frames[|s.frames| - 1].token)
  {
    AfterKeepsCalls(s, EmitIdentifier);
    hide CallScopes, FramesOk;
    assert (s.tokens + [None])[..|s.tokens|] == s.tokens;
  }

  // What is recorded

  /** The number of open calls behind the actions; a call that was open before is not closed. */
  ghost function DepthAfter(depth: nat, actions: seq<Action>): Option<nat>
    decreases |actions|
  {
    if actions == [] then Some(depth)
    else if Opens(actions[0]) then DepthAfter(depth + 1, actions[1..])
    else if !Closes(actions[0]) then DepthAfter(depth, actions[1..])
    else if depth == 0 then None
    else DepthAfter(depth - 1, actions[1..])
  }

  ghost function NamesWith(names: seq<Word>, a: Action): seq<Word> {
    match a
    case FirstArgument => names + [NO_NAME]
    case NextArgument => names + [NO_NAME]
    case Designate(name) => if names == [] then names else names[|names| - 1 := name]
    case _ => names
  }

  /** The names of the arguments that the actions add outside of all calls they open themselves. */
  ghost function NamesAdded(names: seq<Word>, depth: nat, actions: seq<Action>): seq<Word>
    decreases |actions|
  {
    if actions == [] then names
    else if depth > 0 then
      NamesAdded(names, if Opens(actions[0]) then depth + 1 else if Closes(actions[0]) then depth - 1 else depth,
                 actions[1..])
    else NamesAdded(NamesWith(names, actions[0]), if Opens(actions[0]) then 1 else 0, actions[1..])
  }

  /** `x` is reached from `s` in a call that was opened there, and has `names` so far; `depth` calls are open in it. */
  ghost predicate InCall(s: CallState, x: CallState, depth: nat, names: seq<Word>) {
    && |x.frames| == |s.frames| + 1 + depth
    && x.frames[..|s.frames|] == s.frames && x.frames[|s.frames|] == Frame(|s.tokens|, names)
    && |x.tokens| > |s.tokens| && x.tokens[..|s.tokens|] == s.tokens
    && x.base == s.base
    && ScopesInCall(s.scopes, x, depth)
  }

  /** The scope of the call is on top of the scopes from before, unless its first argument is to come. */
  ghost predicate ScopesInCall(scopes: seq<Scope>, x: CallState, depth: nat) {
    && |x.scopes| >= |scopes| && x.scopes[..|scopes|] == scopes
    && if |x.scopes| == |scopes| then x.mode.First? && depth == 0 else x.scopes[|scopes|].Call?
  }

  lemma {:induction false} CallScopesOfPrefix(scopes: seq<Scope>, n: nat)
    requires n <= |scopes|
    ensures CallScopes(scopes[..n]) <= CallScopes(scopes) <= CallScopes(scopes[..n]) + |scopes| - n
    ensures n < |scopes| && scopes[n].Call? ==> CallScopes(scopes[..n]) + 1 <= CallScopes(scopes)
    ensures n + 1 < |scopes| && scopes[n].Call? && scopes[|scopes| - 1].Call? ==>
      CallScopes(scopes[..n]) + 2 <= CallScopes(scopes)
    decreases |scopes|
  {
    if n < |scopes| {
      var front := scopes[..|scopes| - 1];
      assert front[..n] == scopes[..n];
      CallScopesOfPrefix(front, n);
    } else {
      assert scopes[..n] == scopes;
    }
  }

  /** One action in a call that it does not close. */
  lemma StepInCall(s: CallState, x: CallState, depth: nat, names: seq<Word>, a: Action)
    requires CallsOk(s) && s.mode.Between? && CallsOk(x) && Allowed(x, a)
    requires InCall(s, x, depth, names) && (Closes(a) ==> depth > 0)
    ensures InCall(s, After(x, a), if Opens(a) then depth + 1 else if Closes(a) then depth - 1 else depth,
                   if depth == 0 then NamesWith(names, a) else names)
  {
    hide CallScopes, FramesOk;
    ScopesAfter(s, x, depth, names, a);
    FramesAfter(s, x, depth, names, a);
  }

  lemma ScopesAfter(s: CallState, x: CallState, depth: nat, names: seq<Word>, a: Action)
    requires CallsOk(s) && s.mode.Between? && CallsOk(x) && Allowed(x, a)
    requires InCall(s, x, depth, names) && (Closes(a) ==> depth > 0)
    ensures ScopesInCall(s.scopes, After(x, a),
                         if Opens(a) then depth + 1 else if Closes(a) then depth - 1 else depth)
  {
    hide FramesOk;
    CallScopesOfPrefix(x.scopes, |s.scopes|);
    hide CallScopes;
    assert a.Close? ==> |x.scopes| > |s.scopes| + 1;
  }

  lemma FramesAfter(s: CallState, x: CallState, depth: nat, names: seq<Word>, a: Action)
    requires CallsOk(s) && s.mode.Between? && CallsOk(x) && Allowed(x, a)
    requires InCall(s, x, depth, names) && (Closes(a) ==> depth > 0)
    ensures var x', depth' := After(x, a), if Opens(a) then depth + 1 else if Closes(a) then depth - 1 else depth;
            && |x'.frames| == |s.frames| + 1 + depth'
            && x'.frames[..|s.frames|] == s.frames
            && x'.frames[|s.frames|] == Frame(|s.tokens|, if depth == 0 then NamesWith(names, a) else names)
            && |x'.tokens| > |s.tokens| && x'.tokens[..|s.tokens|] == s.tokens && x'.base == s.base
  {
    hide CallScopes;
    if Closes(a) {
      assert x.frames[|s.frames|].token < x.frames[|x.frames| - 1].token;
    }
    if a.Designate? {
      assert x.frames[|s.frames|] in x.frames;
    }
  }

  lemma {:induction false} RunInCall(s: CallState, x: CallState, depth: nat, names: seq<Word>, actions: seq<Action>)
    requires CallsOk(s) && s.mode.Between? && CallsOk(x) && AllAllowed(x, actions)
    requires InCall(s, x, depth, names) && DepthAfter(depth, actions).Some?
    ensures InCall(s, Run(x, actions), DepthAfter(depth, actions).value, NamesAdded(names, depth, actions))
    decreases |actions|
  {
    hide InCall, CallsOk, After, Allowed;
    if actions != [] {
      var a := actions[0];
      StepInCall(s, x, depth, names, a);
      RunInCall(s, After(x, a), if Opens(a) then depth + 1 else if Closes(a) then depth - 1 else depth,
                if depth == 0 then NamesWith(names, a) else names, actions[1..]);
    }
  }

  /**
   From the action that opens a call to the one that closes it, whatever is parsed in between: the names of exactly its
   own arguments are recorded on its token in their order, and the frames, scopes and tokens from before are back.
   */
  lemma CallIsRecorded(s: CallState, open: Action, inner: seq<Action>, close: Action)
    requires CallsOk(s) && Allowed(s, open) && Opens(open) && Closes(close)
    requires CallsOk(After(s, open)) && AllAllowed(After(s, open), inner)
    requires DepthAfter(0, inner) == Some(0) && Allowed(Run(After(s, open), inner), close)
    ensures var r := After(Run(After(s, open), inner), close);
            && r.frames == s.frames && r.scopes == s.scopes && r.base == s.base && r.mode.Between?
            && |r.tokens| > |s.tokens| && r.tokens[..|s.tokens|] == s.tokens
            && r.tokens[|s.tokens|] == Some(NamesAdded([], 0, inner))
  {
    var begun := After(s, open);
    OpenedCall(s, open);
    RunInCall(s, begun, 0, [], inner);
    ClosedCall(s, Run(begun, inner), NamesAdded([], 0, inner), close);
  }

  lemma OpenedCall(s: CallState, open: Action)
    requires CallsOk(s) && Allowed(s, open) && Opens(open)
    ensures s.mode.Between? && InCall(s, After(s, open), 0, [])
  {
  }

  lemma ClosedCall(s: CallState, x: CallState, names: seq<Word>, close: Action)
    requires CallsOk(s) && s.mode.Between? && CallsOk(x) && InCall(s, x, 0, names)
    requires Allowed(x, close) && Closes(close)
    ensures var r := After(x, close);
            && r.frames == s.frames && r.scopes == s.scopes && r.base == s.base && r.mode.Between?
            && |r.tokens| > |s.tokens| && r.tokens[..|s.tokens|] == s.tokens && r.tokens[|s.tokens|] == Some(names)
  {
    CallScopesOfPrefix(x.scopes, |s.scopes|);
    hide CallScopes, FramesOk;
    var r := After(x, close);
    assert r.frames == x.frames[..|s.frames|];
    if close.Close? {
      assert |x.scopes| == |s.scopes| + 1;
      assert r.scopes == x.scopes[..|s.scopes|];
    } else {
      assert x.mode.First?;
      assert |x.scopes| == |s.scopes|;
      assert r.scopes == x.scopes[..|s.scopes|];
    }
  }

  /** More than `depth` calls stay open during a run. */
  ghost predicate StaysAbove(s: CallState, actions: seq<Action>, depth: nat)
    requires CallsOk(s)
    decreases |actions|
  {
    |s.frames| > depth &&
    (actions != [] && Allowed(s, actions[0]) ==>
      CallsOk(After(s, actions[0])) && StaysAbove(After(s, actions[0]), actions[1..], depth))
  }

  /** Whatever happens in a call, the calls around it keep their arguments. */
  lemma {:induction false} EnclosingCallsStay(s: CallState, actions: seq<Action>, depth: nat)
    requires CallsOk(s) && StaysAbove(s, actions, depth)
    ensures var r := Run(s, actions);
            |r.frames| > depth && r.frames[..depth] == s.frames[..depth]
    decreases |actions|
  {
    if actions != [] && Allowed(s, actions[0]) {
      var next := After(s, actions[0]);
      assert next.frames[..depth] == s.frames[..depth];
      EnclosingCallsStay(next, actions[1..], depth);
    }
  }

  // The parser with the flat buffer

  ghost function FrameCells(frames: seq<Frame>): nat {
    if frames == [] then 0 else FrameCells(frames[..|frames| - 1]) + 2 + |frames[|frames| - 1].names|
  }

  /** How many cells of the buffer a state takes. */
  ghost function Cells(s: CallState): nat {
    1 + |s.base| + FrameCells(s.frames)
  }

  lemma {:induction false} LayoutSize(base: BaseFrame, frames: seq<Frame>)
    ensures |Layout(base, frames)| == 1 + |base.names| + FrameCells(frames)
  {
    if frames != [] {
      LayoutSize(base, frames[..|frames| - 1]);
    }
  }

  lemma CellsOfOpened(frames: seq<Frame>, token: nat)
    ensures FrameCells(frames + [Frame(token, [])]) == FrameCells(frames) + 2
  {
    assert (frames + [Frame(token, [])])[..|frames|] == frames;
  }

  lemma CellsOfTop(frames: seq<Frame>, names: seq<Word>)
    requires frames != []
    ensures FrameCells(WithTopFrame(frames, names))
         == FrameCells(frames) - |frames[|frames| - 1].names| + |names|
  {
    assert WithTopFrame(frames, names)[..|frames| - 1] == frames[..|frames| - 1];
  }

  lemma CellsAfter(s: CallState, a: Action)
    requires CallsOk(s) && Allowed(s, a)
    ensures Opens(a) ==> Cells(After(s, a)) == Cells(s) + 2
    ensures a.FirstArgument? || a.NextArgument? ==> Cells(After(s, a)) == Cells(s) + 1
  {
    hide CallScopes, FramesOk;
    CellsOfOpened(s.frames, |s.tokens|);
    if s.frames != [] {
      CellsOfTop(s.frames, NamesOf(s) + [NO_NAME]);
    }
  }

  /** The buffer has room for the state behind each of the actions. */
  ghost predicate RunFits(s: CallState, actions: seq<Action>)
    requires CallsOk(s) && AllAllowed(s, actions)
    decreases |actions|
  {
    actions != [] ==> Cells(After(s, actions[0])) <= ARGUMENT_BUFFER_SIZE && RunFits(After(s, actions[0]), actions[1..])
  }

  /** The part of the parser that deals with calls. */
  class CallParser {
    const arguments: ArgumentBuffer
    var scopes: seq<Scope>
    var mode: Mode

    ghost function State(): CallState
      reads this, arguments
    {
      CallState(arguments.frames, arguments.base.names, scopes, mode, arguments.tokens)
    }

    ghost predicate Valid()
      reads this, arguments, arguments.buffer
    {
      arguments.Valid() && CallsOk(State())
    }

    constructor ()
      ensures Valid() && State() == START && fresh(arguments) && fresh(arguments.buffer)
    {
      arguments := new ArgumentBuffer();
      scopes, mode := [], Between;
    }

    /** Adds an argument without a name; `ok` is whether there is room for it. */
    method AddArgument() returns (ok: bool)
      requires arguments.Valid()
      modifies arguments`position, arguments`base, arguments`frames, arguments.buffer
      ensures ok <==> 2 + |old(arguments.base.names)| + FrameCells(old(arguments.frames)) <= ARGUMENT_BUFFER_SIZE
      ensures ok ==> arguments.Valid() && State() == WithNames(old(State()), NamesOf(old(State())) + [NO_NAME])
    {
      hide Layout, FramesOk;
      LayoutSize(arguments.base, arguments.frames);
      if arguments.position + 1 >= ARGUMENT_BUFFER_SIZE {
        return false;
      }
      arguments.AddCallArgument(NO_NAME);
      return true;
    }

    /** Opens a call; `ok` is whether there is room for it. */
    method OpenCall() returns (ok: bool)
      requires arguments.Valid()
      modifies arguments`position, arguments`tokens, arguments`frames, arguments.buffer
      ensures ok <==> 3 + |old(arguments.base.names)| + FrameCells(old(arguments.frames)) <= ARGUMENT_BUFFER_SIZE
      ensures ok ==> arguments.Valid() && State() == Opened(old(State()))
    {
      hide Layout, FramesOk;
      LayoutSize(arguments.base, arguments.frames);
      if arguments.position + 2 >= ARGUMENT_BUFFER_SIZE {
        return false;
      }
      arguments.EmitCallToken();
      return true;
    }

    /** Takes one action; `ok` is whether the buffer has room for it. */
    method Step(a: Action) returns (ok: bool)
      requires Valid() && Allowed(State(), a)
      modifies this, arguments, arguments.buffer
      ensures ok <==> Cells(After(old(State()), a)) <= ARGUMENT_BUFFER_SIZE
      ensures ok ==> Valid() && State() == After(old(State()), a)
    {
      hide Layout, FramesOk, CallScopes, FrameCells, After, Allowed;
      AfterKeepsCalls(State(), a);
      CellsAfter(State(), a);
      match a {
        case Open(_) => ok := StepIntoCall(a);
        case OpenInImplExpr => ok := StepIntoCall(a);
        case CloseEmpty => ok := StepOutOfCall(a);
        case Close(_) => ok := StepOutOfCall(a);
        case FirstArgument => ok := StepToArgument(a);
        case NextArgument => ok := StepToArgument(a);
        case _ => ok := StepBetween(a);
      }
      if ok {
        LayoutSize(arguments.base, arguments.frames);
      }
    }

    method StepIntoCall(a: Action) returns (ok: bool)
      requires Valid() && Allowed(State(), a) && Opens(a)
      modifies this, arguments, arguments.buffer
      ensures ok <==> Cells(old(State())) + 2 <= ARGUMENT_BUFFER_SIZE
      ensures ok ==> arguments.Valid() && State() == After(old(State()), a)
    {
      hide Layout, FramesOk, CallScopes, FrameCells;
      if a.Open? {
        ok := OpenCall();
        mode := First(a.bracket);
      } else {
        scopes := scopes + [Call(BraceInImplExpr)];
        ok := OpenCall();
      }
    }

    method StepOutOfCall(a: Action) returns (ok: bool)
      requires Valid() && Allowed(State(), a) && Closes(a) && State().frames != []
      modifies this, arguments, arguments.buffer
      ensures ok && arguments.Valid() && State() == After(old(State()), a)
    {
      hide Layout, CallScopes;
      if a.CloseEmpty? {
        arguments.EndCall();
        mode := Between;
      } else {
        scopes := scopes[..|scopes| - 1];
        arguments.EndCall();
      }
      return true;
    }

    method StepToArgument(a: Action) returns (ok: bool)
      requires Valid() && Allowed(State(), a) && (a.FirstArgument? || a.NextArgument?)
      modifies this, arguments, arguments.buffer
      ensures ok <==> Cells(old(State())) + 1 <= ARGUMENT_BUFFER_SIZE
      ensures ok ==> arguments.Valid() && State() == After(old(State()), a)
    {
      hide Layout, FramesOk, CallScopes, FrameCells;
      if a.FirstArgument? {
        scopes := scopes + [Call(mode.bracket)];
        ok := AddArgument();
        mode := Between;
      } else {
        ok := AddArgument();
      }
    }

    method StepBetween(a: Action) returns (ok: bool)
      requires Valid() && Allowed(State(), a) && !Opens(a) && !Closes(a) && !a.FirstArgument? && !a.NextArgument?
      modifies this, arguments, arguments.buffer
      ensures ok && arguments.Valid() && State() == After(old(State()), a)
    {
      hide Layout, CallScopes;
      match a {
        case EmitIdentifier =>
          arguments.EmitToken();
          mode := MaybeDesignated;
        case Designate(name) =>
          arguments.UpdateCallArgument(name);
          arguments.DiscardLastToken();
          mode := Between;
        case NoDesignator =>
          mode := Between;
        case PushScope(kind) =>
          scopes := scopes + [Other(kind)];
        case PopScope(_) =>
          scopes := scopes[..|scopes| - 1];
        case Emit =>
          arguments.EmitToken();
      }
      return true;
    }

    /** Takes the actions of a run; `ok` is whether the buffer has room for all of them. */
    method Drive(actions: seq<Action>) returns (ok: bool)
      requires Valid() && AllAllowed(State(), actions)
      modifies this, arguments, arguments.buffer
      ensures ok <==> RunFits(old(State()), actions)
      ensures ok ==> Valid() && State() == Run(old(State()), actions)
    {
      hide Allowed, CallsOk, After, Cells;
      for i := 0 to |actions|
        invariant Valid() && AllAllowed(State(), actions[i..])
        invariant RunFits(old(State()), actions) <==> RunFits(State(), actions[i..])
        invariant Run(old(State()), actions) == Run(State(), actions[i..])
      {
        assert actions[i..][1..] == actions[i + 1..];
        ok := Step(actions[i]);
        if !ok {
          return;
        }
      }
      return true;
    }
  }
}
