/**
 The parser as a deterministic machine over tokens.  Its core state (parser state and scope stack) and its position
 in the source determine how it continues; the number of parsed tokens is only counted along.
 */
module TokenMachine {

  type LexerToken = nat

  datatype Core = Core(state: nat, scopes: seq<nat>)

  datatype Status = Ready | EOS | UnhandledCase | ScopeError

  /** What one token does to a core state: continue, or stop with an error. */
  datatype StepResult = Next(core: Core) | Reject(scopeError: bool)

  /** What `Step`, `Run` and `Apply` depend on besides the machine. */
  datatype Key = Key(pos: nat, core: Core, status: Status)

  datatype SavedState = SavedState(key: Key, parsedTokens: nat)

  /** An edit of one token: one of the source is left out, or another one is put in front of it. */
  datatype Element = Skip | Insert(token: LexerToken) {
    function Cost(): nat {
      if Insert? then 3 else 2
    }

    function Skips(): nat {
      if Insert? then 0 else 1
    }

    function Inserts(): nat {
      if Insert? then 1 else 0
    }
  }

  function ErrorStatus(scopeError: bool): Status {
    if scopeError then ScopeError else UnhandledCase
  }

  predicate IsError(status: Status) {
    status == UnhandledCase || status == ScopeError
  }

  /**
   `step` handles a token of the source or an inserted one, `end` the end of the source.  `inserts` lists the tokens
   that are tried as insertions in a parser state.  The end of the source counts as one more token.
   */
  datatype Machine = Machine(step: (Core, LexerToken) -> StepResult,
                             end: Core -> StepResult,
                             inserts: nat -> seq<LexerToken>,
                             start: Core,
                             source: seq<LexerToken>) {

    predicate InSource(k: Key) {
      match k.status
      case Ready => k.pos <= |source|
      case EOS => k.pos == |source| + 1
      case _ => k.pos <= |source|
    }

    /** Parses one token. */
    function Step(k: Key): (k': Key)
      requires k.status == Ready && InSource(k)
      ensures InSource(k')
      ensures IsError(k'.status) ==> k'.pos == k.pos
      ensures !IsError(k'.status) ==> k'.pos == k.pos + 1
    {
      if k.pos < |source| then
        match step(k.core, source[k.pos])
        case Next(core) => Key(k.pos + 1, core, Ready)
        case Reject(scopeError) => k.(status := ErrorStatus(scopeError))
      else
        match end(k.core)
        case Next(core) => Key(k.pos + 1, core, EOS)
        case Reject(scopeError) => k.(status := ErrorStatus(scopeError))
    }

    /** Parses at most `n` tokens. */
    function Run(k: Key, n: nat): (k': Key)
      requires InSource(k)
      ensures InSource(k') && k.pos <= k'.pos <= k.pos + n
      ensures k'.status == Ready ==> k'.pos == k.pos + n || k'.status != k.status
      decreases n
    {
      if n == 0 || k.status != Ready then k else Run(Step(k), n - 1)
    }

    /** Parses to the end of the source or the first error. */
    function RunAll(k: Key): (k': Key)
      requires InSource(k)
      ensures InSource(k') && k'.status != Ready && k.pos <= k'.pos
      decreases |source| + 1 - k.pos, k.status == Ready
    {
      if k.status != Ready then k else RunAll(Step(k))
    }

    /** Skips or inserts one token; skipping is an error at the end of the source. */
    function Apply(k: Key, e: Element): (k': Key)
      requires k.status == Ready && InSource(k)
      ensures InSource(k') && k'.status != EOS
      ensures k'.status == Ready ==> k'.pos == k.pos + e.Skips()
    {
      match e
      case Skip =>
        if k.pos < |source| then Key(k.pos + 1, k.core, Ready) else k.(status := UnhandledCase)
      case Insert(token) =>
        match step(k.core, token)
        case Next(core) => k.(core := core)
        case Reject(scopeError) => k.(status := ErrorStatus(scopeError))
    }

    /** The edits that are tried in a state. */
    function Cases(k: Key): seq<Element> {
      if k.status == EOS then []
      else
        var tokens := inserts(k.core.state);
        (if k.pos < |source| then [Skip] else []) + seq(|tokens|, i requires 0 <= i < |tokens| => Insert(tokens[i]))
    }

    /**
     The states an edit leads to: the end of the source, or the states in front of the next error and, where there
     is room, one valid token earlier.
     */
    function Targets(k: Key, e: Element): (targets: seq<Key>)
      requires k.status == Ready && InSource(k)
      ensures forall t :: t in targets ==> InSource(t)
    {
      var edited := Apply(k, e);
      if edited.status != Ready then []
      else
        var stop := RunAll(edited);
        var valid := stop.pos - edited.pos;
        if stop.status == EOS then [stop]
        else if valid > 1 then [Run(edited, valid - 1), Run(edited, valid)]
        else [Run(edited, valid)]
    }

    // Runs as sequences of core states

    /** The core states that the tokens of the source lead through, one after the other, from `k.pos` on. */
    ghost predicate IsTokenRun(k: Key, cores: seq<Core>) {
      && cores != [] && cores[0] == k.core && k.pos + |cores| - 1 <= |source|
      && forall i :: 0 <= i < |cores| - 1 ==> step(cores[i], source[k.pos + i]) == Next(cores[i + 1])
    }

    /** The run ends behind these core states: at a token or an end that is rejected, or at an end that is accepted. */
    ghost predicate StopsAt(k: Key, cores: seq<Core>, stop: Key) {
      && IsTokenRun(k, cores)
      && var pos, last := k.pos + |cores| - 1, cores[|cores| - 1];
         match if pos < |source| then step(last, source[pos]) else end(last)
         case Reject(scopeError) => stop == Key(pos, last, ErrorStatus(scopeError))
         case Next(core) => pos == |source| && stop == Key(pos + 1, core, EOS)
    }

    lemma TokenRunTail(k: Key, cores: seq<Core>)
      requires k.status == Ready && IsTokenRun(k, cores) && |cores| > 1
      ensures InSource(k) && Step(k) == Key(k.pos + 1, cores[1], Ready) && IsTokenRun(Step(k), cores[1..])
    {
      assert step(cores[0], source[k.pos + 0]) == Next(cores[0 + 1]);
    }

    lemma TokenRunCons(k: Key, cores: seq<Core>)
      requires k.status == Ready && InSource(k) && Step(k).status == Ready && IsTokenRun(Step(k), cores)
      ensures IsTokenRun(k, [k.core] + cores)
    {
      var all := [k.core] + cores;
      assert k.pos < |source|;
      forall i | 0 <= i < |all| - 1
        ensures step(all[i], source[k.pos + i]) == Next(all[i + 1])
      {
        if i > 0 {
          assert step(cores[i - 1], source[k.pos + 1 + (i - 1)]) == Next(cores[i - 1 + 1]);
        }
      }
    }

    lemma {:induction false} TokenRunRuns(k: Key, cores: seq<Core>)
      requires k.status == Ready && IsTokenRun(k, cores)
      ensures InSource(k)
      ensures Run(k, |cores| - 1) == Key(k.pos + |cores| - 1, cores[|cores| - 1], Ready)
      ensures RunAll(k) == RunAll(Run(k, |cores| - 1))
      decreases |cores|
    {
      if |cores| > 1 {
        TokenRunTail(k, cores);
        TokenRunRuns(Step(k), cores[1..]);
      }
    }

    lemma {:induction false} RunHasCores(k: Key, n: nat) returns (cores: seq<Core>)
      requires k.status == Ready && InSource(k) && Run(k, n).status == Ready
      ensures IsTokenRun(k, cores) && |cores| == n + 1 && Run(k, n).core == cores[n] && Run(k, n).pos == k.pos + n
      decreases n
    {
      if n == 0 {
        cores := [k.core];
      } else {
        var rest := RunHasCores(Step(k), n - 1);
        TokenRunCons(k, rest);
        cores := [k.core] + rest;
      }
    }

    /** A run over `n` tokens is ready in a core state exactly if these tokens lead there, in their order. */
    lemma RunIsTokenRun(k: Key, n: nat, core: Core)
      requires k.status == Ready && InSource(k)
      ensures Run(k, n) == Key(k.pos + n, core, Ready) <==>
        exists cores :: IsTokenRun(k, cores) && |cores| == n + 1 && cores[n] == core
    {
      if Run(k, n) == Key(k.pos + n, core, Ready) {
        var cores := RunHasCores(k, n);
      }
      forall cores | IsTokenRun(k, cores) && |cores| == n + 1 && cores[n] == core
        ensures Run(k, n) == Key(k.pos + n, core, Ready)
      {
        TokenRunRuns(k, cores);
      }
    }

    lemma {:induction false} RunAllHasCores(k: Key) returns (cores: seq<Core>)
      requires k.status == Ready && InSource(k)
      ensures StopsAt(k, cores, RunAll(k))
      decreases |source| + 1 - k.pos
    {
      var next := Step(k);
      if next.status == Ready {
        var rest := RunAllHasCores(next);
        TokenRunCons(k, rest);
        cores := [k.core] + rest;
      } else {
        cores := [k.core];
      }
    }

    /**
     A whole run stops where the first token is rejected, with the error of that token, or at the end of the source,
     which the last core state accepts or rejects.
     */
    lemma RunAllIsTokenRun(k: Key, stop: Key)
      requires k.status == Ready && InSource(k)
      ensures RunAll(k) == stop <==> exists cores :: StopsAt(k, cores, stop)
    {
      hide RunAll, Run, IsTokenRun;
      var cores := RunAllHasCores(k);
      forall others | StopsAt(k, others, stop)
        ensures RunAll(k) == stop
      {
        TokenRunStops(k, others, stop);
      }
    }

    lemma TokenRunStops(k: Key, cores: seq<Core>, stop: Key)
      requires k.status == Ready && InSource(k) && StopsAt(k, cores, stop)
      ensures RunAll(k) == stop
    {
      hide IsTokenRun;
      TokenRunRuns(k, cores);
      var last := Key(k.pos + |cores| - 1, cores[|cores| - 1], Ready);
      assert RunAll(last) == RunAll(Step(last)) == Step(last);
    }

    /** The tokens of the source lead from the start to a core state that accepts the end. */
    ghost predicate Accepts() {
      exists cores :: IsTokenRun(Key(0, start, Ready), cores) && |cores| == |source| + 1 && end(cores[|source|]).Next?
    }

    lemma AcceptsIsEOS()
      ensures Accepts() <==> RunAll(Key(0, start, Ready)).status == EOS
    {
      var k := Key(0, start, Ready);
      var cores := RunAllHasCores(k);
      forall others | IsTokenRun(k, others) && |others| == |source| + 1 && end(others[|source|]).Next?
        ensures RunAll(k).status == EOS
      {
        var stop := Key(|source| + 1, end(others[|source|]).core, EOS);
        assert StopsAt(k, others, stop);
        RunAllIsTokenRun(k, stop);
      }
    }

    /** Parsing up to a limit ends behind as many tokens, or where one is rejected or the source ends. */
    ghost predicate ParsesTo(k: Key, tokenLimit: int, cores: seq<Core>, k': Key) {
      if |cores| == tokenLimit + 1 then IsTokenRun(k, cores) && k' == Key(k.pos + tokenLimit, cores[tokenLimit], Ready)
      else StopsAt(k, cores, k') && (tokenLimit < 0 || |cores| <= tokenLimit)
    }

    lemma SomeTokensParsed(k: Key, tokenLimit: int, k': Key)
      requires k.status == Ready && InSource(k)
      requires k' == if tokenLimit < 0 then RunAll(k) else Run(k, tokenLimit)
      ensures exists cores :: ParsesTo(k, tokenLimit, cores, k')
    {
      if k'.status == Ready {
        var cores := RunHasCores(k, tokenLimit);
        assert ParsesTo(k, tokenLimit, cores, k');
      } else {
        var cores := RunAllHasCores(k);
        if tokenLimit >= 0 {
          LimitedRunStops(k, tokenLimit);
        }
        if tokenLimit >= 0 && |cores| > tokenLimit {
          TokenRunRuns(k, cores[..tokenLimit + 1]);
          assert false;
        }
        assert ParsesTo(k, tokenLimit, cores, k');
      }
    }

    /** A limited run that is not ready any more stopped where the whole run stops. */
    lemma {:induction false} LimitedRunStops(k: Key, n: nat)
      requires InSource(k) && Run(k, n).status != Ready
      ensures Run(k, n) == RunAll(k)
      decreases n
    {
      if n > 0 && k.status == Ready {
        LimitedRunStops(Step(k), n - 1);
      }
    }

    lemma {:induction false} RunAdd(k: Key, a: nat, b: nat)
      requires InSource(k)
      ensures Run(Run(k, a), b) == Run(k, a + b)
      decreases a
    {
      if a > 0 && k.status == Ready {
        RunAdd(Step(k), a - 1, b);
      }
    }

    /**
     Parsing everything stops after some number of valid tokens; parsing just that many leaves the parser ready in
     front of the error, or done.
     */
    lemma {:induction false} RunUntilStop(k: Key)
      requires InSource(k) && k.status == Ready
      ensures var stop, valid := RunAll(k), RunAll(k).pos - k.pos;
              && (IsError(stop.status) ==> Run(k, valid).status == Ready && Run(k, valid + 1) == stop)
              && (stop.status == EOS ==> Run(k, valid) == stop)
      decreases |source| + 1 - k.pos
    {
      var next := Step(k);
      if next.status == Ready {
        RunUntilStop(next);
        assert Run(k, RunAll(k).pos - k.pos) == Run(next, RunAll(k).pos - next.pos);
      } else {
        assert Run(next, 0) == next;
      }
    }

    /** Whether the state is at most one valid token in front of an error. */
    predicate FailsSoon(k: Key)
      requires InSource(k)
    {
      k.status == Ready ==> IsError(Run(k, 2).status)
    }

    /** The state in front of the first error fails soon, and so does the one a valid token earlier. */
    lemma StopsFailSoon(k: Key)
      requires InSource(k) && k.status == Ready && IsError(RunAll(k).status)
      ensures var valid := RunAll(k).pos - k.pos;
              && Run(k, valid).status == Ready
              && FailsSoon(Run(k, valid))
              && (valid > 0 ==> EarlierFailsSoon(k, valid - 1))
    {
      hide *;
      var valid := RunAll(k).pos - k.pos;
      RunUntilStop(k);
      RunAdd(k, valid + 1, 1);
      StoppedStays(RunAll(k), 1);
      assert Run(k, valid + 2) == RunAll(k);
      FailsBefore(k, valid);
      if valid > 0 {
        EarlierFails(k, valid - 1);
      }
    }

    predicate EarlierFailsSoon(k: Key, n: nat)
      requires InSource(k)
    {
      && Run(k, n).status == Ready
      && FailsSoon(Run(k, n))
      && Run(Run(k, n), 1) == Run(k, n + 1)
    }

    lemma StoppedStays(k: Key, n: nat)
      requires InSource(k) && k.status != Ready
      ensures Run(k, n) == k
    {
    }

    lemma FailsBefore(k: Key, n: nat)
      requires InSource(k) && IsError(Run(k, n + 2).status)
      ensures FailsSoon(Run(k, n))
    {
      RunAdd(k, n, 2);
    }

    lemma EarlierFails(k: Key, n: nat)
      requires InSource(k) && Run(k, n + 1).status == Ready && IsError(Run(k, n + 2).status)
      ensures EarlierFailsSoon(k, n)
    {
      FailsBefore(k, n);
      hide Run, FailsSoon;
      RunAdd(k, n, 1);
      RunPrefixReady(k, n, n + 1);
    }

    /** Targets are ready states that fail soon, or the end, and are reached by parsing on after the edit. */
    lemma TargetsAreStops(k: Key, e: Element, t: Key)
      requires k.status == Ready && InSource(k) && t in Targets(k, e)
      ensures Apply(k, e).status == Ready && Apply(k, e).pos <= t.pos
      ensures t == Run(Apply(k, e), t.pos - Apply(k, e).pos)
      ensures (t.status == Ready || t.status == EOS) && FailsSoon(t)
    {
      hide Run, RunAll, FailsSoon, Apply;
      var edited := Apply(k, e);
      RunUntilStop(edited);
      StoppedFailsSoon(RunAll(edited));
      if RunAll(edited).status != EOS {
        StopsFailSoon(edited);
      }
    }

    lemma TargetsShape(k: Key, e: Element)
      requires k.status == Ready && InSource(k) && Apply(k, e).status == Ready
      ensures var edited := Apply(k, e);
              var stop, valid := RunAll(edited), RunAll(edited).pos - edited.pos;
              if stop.status == EOS then Targets(k, e) == [stop]
              else if valid > 1 then
                && Run(edited, valid - 1).status == Ready
                && Targets(k, e) == [Run(edited, valid - 1), Run(Run(edited, valid - 1), 1)]
              else Targets(k, e) == [Run(edited, valid)]
      ensures forall t :: t in Targets(k, e) ==> t.status == Ready || t == RunAll(Apply(k, e))
    {
      hide Run, RunAll, FailsSoon, Apply;
      if IsError(RunAll(Apply(k, e)).status) {
        StopsFailSoon(Apply(k, e));
      }
    }

    lemma StoppedFailsSoon(k: Key)
      requires InSource(k)
      ensures k.status != Ready ==> FailsSoon(k)
    {
    }

    /** The core states the parser can be in stay within a set that is closed under its steps. */
    ghost predicate Closed(cores: set<Core>) {
      && start in cores
      && (forall c, t :: c in cores && step(c, t).Next? ==> step(c, t).core in cores)
      && (forall c :: c in cores && end(c).Next? ==> end(c).core in cores)
    }

    lemma TargetsStay(cores: set<Core>, k: Key, e: Element, t: Key)
      requires Closed(cores) && k.status == Ready && InSource(k) && k.core in cores && t in Targets(k, e)
      ensures t.core in cores
    {
      TargetsAreStops(k, e, t);
      hide Targets, Run, FailsSoon;
      RunStays(cores, Apply(k, e), t.pos - Apply(k, e).pos);
    }

    lemma {:induction false} RunStays(cores: set<Core>, k: Key, n: nat)
      requires Closed(cores) && InSource(k) && k.core in cores
      ensures Run(k, n).core in cores
      decreases n
    {
      if n > 0 && k.status == Ready {
        RunStays(cores, Step(k), n - 1);
      }
    }

    /** `t` is where a run from `k` is in front of an error, or it is behind a valid token and one more is left. */
    ghost predicate IsInFrontOfError(k: Key, t: Key)
      requires InSource(k)
    {
      exists n :: IsReadyAfter(k, t, n) && (IsError(Run(t, 1).status) || (n > 0 && IsError(Run(t, 2).status)))
    }

    ghost predicate IsReadyAfter(k: Key, t: Key, n: nat)
      requires InSource(k)
    {
      t == Run(k, n) && t.status == Ready && InSource(t)
    }

    lemma RunsUpToError(k: Key, n: nat)
      requires InSource(k) && k.status == Ready && IsError(RunAll(k).status)
      ensures if n <= RunAll(k).pos - k.pos then Run(k, n).status == Ready else Run(k, n) == RunAll(k)
    {
      hide *;
      var valid := RunAll(k).pos - k.pos;
      RunUntilStop(k);
      if n <= valid {
        RunPrefixReady(k, n, valid);
      } else {
        RunAdd(k, valid + 1, n - valid - 1);
        StoppedStays(RunAll(k), n - valid - 1);
      }
    }

    /** Only the state behind all valid tokens and the one a valid token earlier are in front of the error. */
    lemma InFrontOfErrorIsExact(k: Key, t: Key)
      requires InSource(k) && k.status == Ready && IsError(RunAll(k).status)
      ensures var valid := RunAll(k).pos - k.pos;
              IsInFrontOfError(k, t) <==> t == Run(k, valid) || (valid > 1 && t == Run(k, valid - 1))
    {
      hide Run, RunAll, FailsSoon;
      var valid := RunAll(k).pos - k.pos;
      ReadyInFrontOfError(k, valid);
      if valid > 1 {
        ReadyInFrontOfError(k, valid - 1);
      }
      hide IsError;
      forall n: nat | IsReadyAfter(k, t, n) && (IsError(Run(t, 1).status) || (n > 0 && IsError(Run(t, 2).status)))
        ensures t == Run(k, valid) || (valid > 1 && t == Run(k, valid - 1))
      {
        ReadyInFrontOfError(k, n);
      }
    }

    lemma ReadyInFrontOfError(k: Key, n: nat)
      requires InSource(k) && k.status == Ready && IsError(RunAll(k).status)
      ensures var t, valid := Run(k, n), RunAll(k).pos - k.pos;
              && InSource(t) && (IsReadyAfter(k, t, n) <==> n <= valid)
              && (n <= valid ==> (IsError(Run(t, 1).status) <==> n == valid))
              && (n <= valid ==> (IsError(Run(t, 2).status) <==> n + 1 >= valid))
    {
      hide Run, RunAll, FailsSoon;
      RunsUpToError(k, n);
      RunsUpToError(k, n + 1);
      RunsUpToError(k, n + 2);
      RunAdd(k, n, 1);
      RunAdd(k, n, 2);
    }

    /** An edit leads to the end of the source, or else to the states in front of the next error. */
    lemma TargetsAreExact(k: Key, e: Element, t: Key)
      requires k.status == Ready && InSource(k)
      ensures t in Targets(k, e) <==>
        var edited := Apply(k, e);
        && edited.status == Ready
        && if RunAll(edited).status == EOS then t == RunAll(edited) else IsInFrontOfError(edited, t)
    {
      hide Run, RunAll, FailsSoon, Apply;
      var edited := Apply(k, e);
      if edited.status == Ready && RunAll(edited).status != EOS {
        InFrontOfErrorIsExact(edited, t);
      }
    }

    /** Every prefix of a valid run is valid. */
    lemma {:induction false} RunPrefixReady(k: Key, n: nat, m: nat)
      requires InSource(k) && n <= m && Run(k, m).status == Ready
      ensures Run(k, n).status == Ready
    {
      RunAdd(k, n, m - n);
      assert m > n ==> Run(Run(k, n), m - n).status == Ready;
    }
  }

  /** A parser that only tracks its state. */
  class SimpleParser {
    const machine: Machine
    var state: SavedState

    ghost predicate Valid()
      reads this
    {
      machine.InSource(state.key)
    }

    constructor (machine: Machine)
      ensures this.machine == machine && Valid()
      ensures state == SavedState(Key(0, machine.start, Ready), 0)
    {
      this.machine := machine;
      state := SavedState(Key(0, machine.start, Ready), 0);
    }

    method Restore(saved: SavedState)
      requires machine.InSource(saved.key) && !IsError(saved.key.status)
      modifies this
      ensures Valid() && state == saved
    {
      state := saved;
    }

    /** Parses at most `tokenLimit` tokens, or without a limit when it is negative. */
    method Parse(tokenLimit: int)
      requires Valid() && state.key.status == Ready
      modifies this
      ensures Valid()
      ensures state.key == if tokenLimit < 0 then machine.RunAll(old(state.key))
                           else machine.Run(old(state.key), tokenLimit)
      ensures state.parsedTokens == old(state.parsedTokens) + (state.key.pos - old(state.key.pos))
      ensures exists cores :: machine.ParsesTo(old(state.key), tokenLimit, cores, state.key)
    {
      var remaining := tokenLimit;
      while state.key.status == Ready && remaining != 0
        invariant Valid() && (tokenLimit < 0 ==> remaining < 0) && (tokenLimit >= 0 ==> remaining >= 0)
        invariant tokenLimit < 0 ==> machine.RunAll(state.key) == machine.RunAll(old(state.key))
        invariant tokenLimit >= 0 ==> machine.Run(state.key, remaining) == machine.Run(old(state.key), tokenLimit)
        invariant state.parsedTokens == old(state.parsedTokens) + (state.key.pos - old(state.key.pos))
        decreases |machine.source| + 1 - state.key.pos, state.key.status == Ready
      {
        var next := machine.Step(state.key);
        state := SavedState(next, state.parsedTokens + if IsError(next.status) then 0 else 1);
        remaining := remaining - 1;
      }
      machine.SomeTokensParsed(old(state.key), tokenLimit, state.key);
    }

    /** Whether an edit can be applied: there is a token to skip, or the core state takes the inserted one. */
    predicate Takes(e: Element)
      reads this
    {
      match e
      case Skip => state.key.pos < |machine.source|
      case Insert(token) => machine.step(state.key.core, token).Next?
    }

    /**
     Skips or inserts one token.  A skip moves on in the source and is not counted; an insertion is counted, changes
     the core state as the token would, and stays where it is.  An edit that fails only changes the status.
     */
    method Apply(e: Element)
      requires Valid() && state.key.status == Ready
      modifies this
      ensures Valid() && state == AfterApply(machine, old(state), e)
      ensures state.key.status == Ready <==> old(Takes(e))
      ensures !old(Takes(e)) ==>
        && IsError(state.key.status)
        && state == old(state).(key := old(state.key).(status := state.key.status))
      ensures old(Takes(e)) ==>
        && state.key.pos == old(state.key.pos) + e.Skips()
        && state.parsedTokens == old(state.parsedTokens) + e.Inserts()
        && (e.Skip? ==> state.key.core == old(state.key.core))
        && (e.Insert? ==> machine.step(old(state.key.core), e.token) == Next(state.key.core))
    {
      var key, tokens := state.key, state.parsedTokens;
      match e {
        case Skip =>
          if key.pos < |machine.source| {
            key := key.(pos := key.pos + 1);
          } else {
            key := key.(status := UnhandledCase);
          }
        case Insert(token) =>
          match machine.step(key.core, token) {
            case Next(core) =>
              key, tokens := key.(core := core), tokens + 1;
            case Reject(scopeError) =>
              key := key.(status := ErrorStatus(scopeError));
          }
      }
      state := SavedState(key, tokens);
    }
  }

  function AfterApply(m: Machine, s: SavedState, e: Element): SavedState
    requires m.InSource(s.key) && s.key.status == Ready
  {
    var k := m.Apply(s.key, e);
    SavedState(k, s.parsedTokens + if k.status == Ready then e.Inserts() else 0)
  }
}
