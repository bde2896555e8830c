// The Macho engine: entry and exit actions, history, and the loop that
// performs pending transitions.

module Macho {
  import opened MachoStates
  import opened Options
  import opened Sequences

  // How the target of a transition is initialized: by its plain init, by its
  // history, or by an init with parameters.
  datatype Initializer = Default | History | Parameters

  datatype Target = Target(state: State, init: Initializer)

  // What a user action asks of the machine: a transition, a further event.
  datatype Reaction = Reaction(target: Option<Target>, event: Option<Event>)

  // Where a state has a box: just the active ones do, or, if their box is
  // shared or survives, those that were ever entered.
  ghost predicate BoxesFit(boxes: set<State>, log: seq<Action>, c: State) {
    forall s: State :: s.Sub? ==> (s in boxes <==> if s.kind == OwnBox then IsChild(c, s) else Enter(s) in log)
  }

  function HistoryAt(history: map<State, State>, s: State): Option<State> {
    if s in history then Some(history[s]) else None
  }

  ghost predicate HistoryFits(history: map<State, State>, log: seq<Action>) {
    forall s :: Remembered(log, s) == HistoryAt(history, s)
  }

  // Every state above a transition's target is one of the machine's.
  ghost predicate Closed(states: set<State>) {
    forall s :: s in states && s.Sub? ==> s.parent in states
  }

  // ---- the engine as a step relation, on what its user sees

  datatype Config = Config(state: State, target: Option<Target>, event: Option<Event>, user: seq<Reaction>,
    log: seq<Action>)

  function Answer(user: seq<Reaction>): Reaction { if user == [] then Reaction(None, None) else user[0] }
  function Rest(user: seq<Reaction>): seq<Reaction> { if user == [] then [] else user[1..] }

  // A pending transition comes before a pending event.
  function Next(k: Config): Config
    requires k.target.Some? || k.event.Some?
  {
    match k.target
    case Some(Target(n, init)) =>
      var moved := k.log + Moves(k.state, n);
      if init == History && Remembered(moved, n).Some? then
        Config(n, Some(Target(Remembered(moved, n).value, Default)), k.event, k.user, moved + [Recall(n)])
      else
        Config(n, if n.Sub? then Answer(k.user).target else None, k.event, if n.Sub? then Rest(k.user) else k.user,
               moved + [Init(n, init == Parameters)])
    case None =>
      Config(k.state, Answer(k.user).target, Answer(k.user).event, Rest(k.user),
        k.log + [Handle(k.state, k.event.value)])
  }

  // An initialization may only lead to proper substates.
  predicate Narrowing(k: Config, k': Config) {
    k.target.Some? && k'.target.Some? ==> Below(k'.target.value.state, k'.state)
  }

  predicate Follows(k: Config, k': Config) { (k.target.Some? || k.event.Some?) && k' == Next(k) }

  // A sequence of steps; all but the last may only narrow.
  ghost predicate IsRun(run: seq<Config>, first: Config, last: Config, ok: bool)
    decreases |run|
  {
    && run != [] && run[|run| - 1] == last
    && if |run| == 1 then first == last && ok
       else Follows(run[|run| - 2], last) && Narrowing(run[|run| - 2], last) == ok &&
            IsRun(run[..|run| - 1], first, run[|run| - 2], true)
  }

  lemma RunOn(run: seq<Config>, first: Config, last: Config, k: Config)
    requires IsRun(run, first, last, true) && Follows(last, k)
    ensures IsRun(run + [k], first, k, Narrowing(last, k))
  {
    assert (run + [k])[..|run + [k]| - 1] == run;
  }

  lemma RunStarts(k: Config)
    ensures IsRun([k], k, k, true)
  {}

  // ---- what a run does, told by its actions and the user's answers alone

  // The user is asked by the handlers, and by the inits of all states but the root.
  predicate Asks(a: Action) { a.Handle? || (a.Init? && a.s.Sub?) }

  function Asked(done: seq<Action>): nat {
    if done == [] then 0 else Asked(done[..|done| - 1]) + if Asks(done[|done| - 1]) then 1 else 0
  }

  // The answer to the k-th question, from 0, and those after it.
  function AnswerAt(user: seq<Reaction>, k: nat): Reaction { if k < |user| then user[k] else Reaction(None, None) }
  function Later(user: seq<Reaction>, k: nat): seq<Reaction> { if k < |user| then user[k..] else [] }

  // After `done`, the event the last handler raised.
  function Raised(first: Config, done: seq<Action>): Option<Event> {
    if done == [] then first.event
    else if done[|done| - 1].Handle? then AnswerAt(first.user, Asked(done[..|done| - 1])).event
    else Raised(first, done[..|done| - 1])
  }

  // How n, entered last, is initialized.
  function Initial(log: seq<Action>, n: State, init: Initializer): Action {
    if init == History && Remembered(log, n).Some? then Recall(n) else Init(n, init == Parameters)
  }

  // What is done after log in state s: a transition that was asked for, with the
  // initialization of its target; otherwise the event that was raised is
  // handled; otherwise nothing more.
  predicate GoesOn(s: State, target: Option<Target>, event: Option<Event>, log: seq<Action>, more: seq<Action>,
      ok: bool) {
    match target
    case Some(Target(n, init)) => Moves(s, n) + [Initial(log + Moves(s, n), n, init)] <= more
    case None =>
      match event
      case Some(e) => [Handle(s, e)] <= more
      case None => more == [] && ok
  }

  // What the last of the actions `done` asks for.
  function Wanted(first: Config, done: seq<Action>): Option<Target>
    requires done != []
  {
    var before, a := done[..|done| - 1], done[|done| - 1];
    if Asks(a) then AnswerAt(first.user, Asked(before)).target
    else if a.Recall? && Remembered(first.log + before, a.s).Some? then
      Some(Target(Remembered(first.log + before, a.s).value, Default))
    else None
  }

  predicate Rests(a: Action) { a.Handle? || a.Init? || a.Recall? }

  // What the i-th of the actions `done` asks for is done next. An init that asks
  // for anything but a proper substate ends the run.
  predicate Obeyed(first: Config, done: seq<Action>, ok: bool, i: nat)
    requires i < |done|
  {
    var past, more, a := done[..i + 1], done[i + 1..], done[i];
    var target := Wanted(first, past);
    Rests(a) ==>
      if a.Init? && target.Some? && !Below(target.value.state, a.s) then more == [] && !ok
      else GoesOn(a.s, target, Raised(first, past), first.log + past, more, ok)
  }

  // From `first` on, the actions `done` are just what is asked for, one after the other.
  ghost predicate Told(first: Config, done: seq<Action>, ok: bool) {
    && GoesOn(first.state, first.target, first.event, first.log, done, ok)
    && forall i :: 0 <= i < |done| ==> Obeyed(first, done, ok, i)
  }

  // The machine after the actions `done`, which do what was asked for but by the last.
  ghost predicate Reached(first: Config, done: seq<Action>, k: Config) {
    && k.log == first.log + done && k.user == Later(first.user, Asked(done)) && k.event == Raised(first, done)
    && (if done == [] then k.state == first.state && k.target == first.target
        else
          var a := done[|done| - 1];
          Rests(a) && k.state == a.s && k.target == Wanted(first, done)
          && GoesOn(first.state, first.target, first.event, first.log, done, true))
    && forall i :: 0 <= i < |done| - 1 ==> Obeyed(first, done, true, i)
  }

  // The last action may ask for what it asks for.
  predicate Lawful(done: seq<Action>, k: Config) {
    done != [] && done[|done| - 1].Init? && k.target.Some? ==> Below(k.target.value.state, k.state)
  }

  lemma GoesOnLonger(s: State, target: Option<Target>, event: Option<Event>, log: seq<Action>, more: seq<Action>,
      x: seq<Action>, ok: bool, ok': bool)
    requires GoesOn(s, target, event, log, more, ok) && more != []
    ensures GoesOn(s, target, event, log, more + x, ok')
  {}

  lemma ObeyedLonger(first: Config, done: seq<Action>, x: seq<Action>, ok: bool, ok': bool, i: nat)
    requires i < |done| - 1 && Obeyed(first, done, ok, i)
    ensures Obeyed(first, done + x, ok', i)
  {
    hide GoesOn, Wanted, Raised, Below;
    var z := done + x;
    assert z[..i + 1] == done[..i + 1] && z[i + 1..] == done[i + 1..] + x;
    if Rests(done[i]) {
      var past := done[..i + 1];
      GoesOnLonger(done[i].s, Wanted(first, past), Raised(first, past), first.log + past, done[i + 1..], x, ok, ok');
    }
  }

  // Actions that ask for nothing.
  lemma {:induction false} Unasked(first: Config, done: seq<Action>, more: seq<Action>)
    requires forall a :: a in more ==> !Rests(a)
    ensures Asked(done + more) == Asked(done) && Raised(first, done + more) == Raised(first, done)
  {
    if more == [] {
      assert done + more == done;
    } else {
      var m := more[..|more| - 1];
      Unasked(first, done, m);
      assert (done + more)[..|done + more| - 1] == done + m && (done + more)[|done + more| - 1] in more;
    }
  }

  lemma MovesRest(p: State, n: State)
    ensures forall a :: a in Moves(p, n) ==> !Rests(a)
  {
    OnlyExits(p, n);
    OnlyEntries(n, p);
  }

  lemma OneAnswer(user: seq<Reaction>, k: nat)
    ensures Answer(Later(user, k)) == AnswerAt(user, k) && Rest(Later(user, k)) == Later(user, k + 1)
  {}

  // What one step adds.
  function Added(k: Config): seq<Action>
    requires k.target.Some? || k.event.Some?
  {
    match k.target
    case Some(Target(n, init)) => Moves(k.state, n) + [Initial(k.log + Moves(k.state, n), n, init)]
    case None => [Handle(k.state, k.event.value)]
  }

  lemma LastCounts(first: Config, before: seq<Action>, a: Action)
    ensures Asked(before + [a]) == Asked(before) + if Asks(a) then 1 else 0
    ensures Raised(first, before + [a]) ==
      if a.Handle? then AnswerAt(first.user, Asked(before)).event else Raised(first, before)
    ensures Wanted(first, before + [a]) ==
      if Asks(a) then AnswerAt(first.user, Asked(before)).target
      else if a.Recall? && Remembered(first.log + before, a.s).Some? then
        Some(Target(Remembered(first.log + before, a.s).value, Default))
      else None
  {
    assert (before + [a])[..|before|] == before;
  }

  lemma StepReached(first: Config, done: seq<Action>, k: Config)
    requires Reached(first, done, k) && Lawful(done, k) && (k.target.Some? || k.event.Some?)
    ensures Reached(first, done + Added(k), Next(k))
  {
    StepObeyed(first, done, k);
    hide Moves, Remembered, GoesOn, Below, Obeyed, Asked, Raised, Wanted, AnswerAt, Later;
    OneAnswer(first.user, Asked(done));
    if k.target.Some? {
      StepMoves(first, done, k);
    } else {
      var a := Handle(k.state, k.event.value);
      LastCounts(first, done, a);
      assert first.log + (done + [a]) == k.log + [a];
    }
  }

  lemma StepMoves(first: Config, done: seq<Action>, k: Config)
    requires k.target.Some? && k.log == first.log + done && k.event == Raised(first, done)
    requires k.user == Later(first.user, Asked(done))
    ensures var k', done' := Next(k), done + Added(k);
      && k'.log == first.log + done' && k'.user == Later(first.user, Asked(done')) && k'.event == Raised(first, done')
      && k'.target == Wanted(first, done') && Rests(done'[|done'| - 1]) && k'.state == done'[|done'| - 1].s
  {
    hide Moves, Remembered, Asked, Raised, Wanted, AnswerAt, Later;
    var n := k.target.value.state;
    var moves := Moves(k.state, n);
    var a := Initial(k.log + moves, n, k.target.value.init);
    OneAnswer(first.user, Asked(done));
    MovesRest(k.state, n);
    Unasked(first, done, moves);
    Assoc(first.log, done, moves);
    LastCounts(first, done + moves, a);
    Assoc(done, moves, [a]);
    Assoc(first.log, done + moves, [a]);
  }

  lemma StepObeyed(first: Config, done: seq<Action>, k: Config)
    requires Reached(first, done, k) && Lawful(done, k) && (k.target.Some? || k.event.Some?)
    ensures GoesOn(first.state, first.target, first.event, first.log, done + Added(k), true)
    ensures forall i :: 0 <= i < |done + Added(k)| - 1 ==> Obeyed(first, done + Added(k), true, i)
  {
    hide Moves, Remembered, Below, Wanted;
    var more := Added(k);
    var done' := done + more;
    if done == [] {
      assert done' == more && first.log + [] == first.log;
    } else {
      GoesOnLonger(first.state, first.target, first.event, first.log, done, more, true, true);
    }
    forall i | 0 <= i < |done'| - 1 ensures Obeyed(first, done', true, i) {
      if i < |done| - 1 {
        ObeyedLonger(first, done, more, true, true, i);
      } else if i == |done| - 1 {
        assert done'[..i + 1] == done && done'[i + 1..] == more;
      } else {
        if k.target.Some? {
          MovesRest(k.state, k.target.value.state);
        }
        assert done'[i] == more[i - |done|];
      }
    }
  }

  lemma NextLawful(first: Config, done: seq<Action>, k: Config)
    requires done != [] && (k.target.Some? || k.event.Some?) && Reached(first, done, Next(k))
    requires first.log + done == k.log + Added(k)
    ensures Lawful(done, Next(k)) <==> Narrowing(k, Next(k))
  {
    hide Moves, Remembered, GoesOn, Below, Obeyed, Wanted, Raised;
    var more, a := Added(k), done[|done| - 1];
    assert (first.log + done)[|first.log + done| - 1] == a == more[|more| - 1];
    if a.Recall? {
      RememberedBelow(k.log + more[..|more| - 1], a.s);
    }
  }

  // A run does what it is asked for, step by step.
  lemma {:induction false} RunReached(run: seq<Config>, k: Config, last: Config, ok: bool, first: Config,
      begun: seq<Action>) returns (done: seq<Action>)
    requires IsRun(run, k, last, ok) && Reached(first, begun, k) && Lawful(begun, k)
    ensures begun <= done && Reached(first, done, last) && (Lawful(done, last) <==> ok)
    decreases |run|
  {
    hide Reached, Lawful;
    if |run| == 1 {
      done := begun;
    } else {
      var prev := run[|run| - 2];
      var d := RunReached(run[..|run| - 1], k, prev, true, first, begun);
      StepReached(first, d, prev);
      done := d + Added(prev);
      LogAfter(first, d, prev);
      NextLawful(first, done, prev);
    }
  }

  lemma LogAfter(first: Config, done: seq<Action>, k: Config)
    requires Reached(first, done, k) && (k.target.Some? || k.event.Some?)
    ensures first.log + (done + Added(k)) == k.log + Added(k)
  {}

  // A run that stops, for want of more to do or at an init that may not do what
  // it asks for, has done just what was asked.
  lemma RunTold(first: Config, done: seq<Action>, last: Config, ok: bool)
    requires Reached(first, done, last) && (Lawful(done, last) <==> ok)
    requires ok ==> last.target == None && last.event == None
    ensures Told(first, done, ok)
  {
    hide Moves, Remembered, Below, Wanted;
    if done != [] {
      assert done + [] == done;
      GoesOnLonger(first.state, first.target, first.event, first.log, done, [], true, ok);
    }
    forall i | 0 <= i < |done| ensures Obeyed(first, done, ok, i) {
      if i < |done| - 1 {
        ObeyedLonger(first, done, [], true, ok, i);
      } else {
        assert done[..i + 1] == done && done[i + 1..] == [];
      }
    }
  }

  // Wherever e is handled in state c, the handler's answer is obeyed.
  lemma HandlerObeyed(first: Config, done: seq<Action>, ok: bool, last: Config, before: seq<Action>, c: State, e: Event)
    requires Told(first, done, ok) && Reached(first, done, last) && before + [Handle(c, e)] <= done
    ensures var r, begun := AnswerAt(first.user, Asked(before)), before + [Handle(c, e)];
      && (r == Reaction(None, None) ==>
        ok && done == begun && last.state == c && last.user == Later(first.user, Asked(before) + 1))
      && (r.target == None && r.event.Some? ==> begun + [Handle(c, r.event.value)] <= done)
      && (r.target.Some? ==>
        var n := r.target.value.state;
        begun + Moves(c, n) + [Initial(first.log + begun + Moves(c, n), n, r.target.value.init)] <= done)
  {
    var begun, i := before + [Handle(c, e)], |before|;
    assert done[..i + 1] == begun && begun[..i] == before && done == begun + done[i + 1..] && done[i] == Handle(c, e);
    assert Obeyed(first, done, ok, i);
    hide Moves, Remembered, Initial, Below;
    var r := Wanted(first, begun);
    if r.Some? {
      var n := r.value.state;
      var more := Moves(c, n) + [Initial(first.log + begun + Moves(c, n), n, r.value.init)];
      assert more <= done[i + 1..] && begun + more <= done;
    }
  }

  // Wherever n is initialized from its history, the state recalled comes next.
  lemma RecallObeyed(first: Config, done: seq<Action>, ok: bool, before: seq<Action>, n: State)
    requires Told(first, done, ok) && before + [Recall(n)] <= done && Remembered(first.log + before, n).Some?
    ensures var m := Remembered(first.log + before, n).value;
      before + [Recall(n)] + Moves(n, m) + [Init(m, false)] <= done
  {
    var begun, i := before + [Recall(n)], |before|;
    assert done[..i + 1] == begun && begun[..i] == before && done == begun + done[i + 1..] && done[i] == Recall(n);
    assert Obeyed(first, done, ok, i);
    hide Moves, Remembered, Below;
    var m := Remembered(first.log + before, n).value;
    var more := Moves(n, m) + [Init(m, false)];
    assert more <= done[i + 1..] && begun + more <= done;
  }

  // Wherever n has its init, the answer is obeyed, if it is for a proper substate.
  lemma InitObeyed(first: Config, done: seq<Action>, ok: bool, last: Config, before: seq<Action>, n: State,
      params: bool)
    requires Told(first, done, ok) && Reached(first, done, last) && before + [Init(n, params)] <= done
    ensures var begun, target := before + [Init(n, params)],
        if n.Sub? then AnswerAt(first.user, Asked(before)).target else None;
      && (target == None && Raised(first, before) == None ==> ok && done == begun && last.state == n)
      && (target == None && Raised(first, before).Some? ==>
        begun + [Handle(n, Raised(first, before).value)] <= done)
      && (target.Some? && !Below(target.value.state, n) ==> !ok && done == begun && last.state == n)
      && (target.Some? && Below(target.value.state, n) ==>
        var m := target.value.state;
        begun + Moves(n, m) + [Initial(first.log + begun + Moves(n, m), m, target.value.init)] <= done)
  {
    var begun, i := before + [Init(n, params)], |before|;
    assert done[..i + 1] == begun && begun[..i] == before;
    assert done == begun + done[i + 1..] && done[i] == Init(n, params);
    assert Raised(first, begun) == Raised(first, before);
    assert Obeyed(first, done, ok, i);
    hide Moves, Remembered, Initial, Below;
    var target := Wanted(first, begun);
    if target.Some? && Below(target.value.state, n) {
      var m := target.value.state;
      var more := Moves(n, m) + [Initial(first.log + begun + Moves(n, m), m, target.value.init)];
      assert more <= done[i + 1..] && begun + more <= done;
    }
  }

  lemma RunObeys(run: seq<Config>, k: Config, last: Config, ok: bool, first: Config, begun: seq<Action>)
    requires IsRun(run, k, last, ok) && Reached(first, begun, k) && Lawful(begun, k)
    requires ok ==> last.target == None && last.event == None
    ensures first.log + begun <= last.log
    ensures Told(first, last.log[|first.log|..], ok) && Reached(first, last.log[|first.log|..], last)
  {
    hide IsRun, Told, Lawful;
    var done := RunReached(run, k, last, ok, first, begun);
    RunTold(first, done, last, ok);
    DoneIsLog(first, done, last);
  }

  lemma DoneIsLog(first: Config, done: seq<Action>, last: Config)
    requires Reached(first, done, last)
    ensures last.log == first.log + done && last.log[|first.log|..] == done
  {}

  // A machine before its first step, and after it, if that is an event's.
  lemma Unmoved(first: Config)
    ensures Reached(first, [], first) && Lawful([], first)
  {
    assert first.log + [] == first.log;
  }

  lemma Handled(first: Config)
    requires first.target == None && first.event.Some?
    ensures var begun := [Handle(first.state, first.event.value)];
      Reached(first, begun, Next(first)) && Lawful(begun, Next(first))
  {
    hide Reached;
    Unmoved(first);
    StepReached(first, [], first);
    assert [] + Added(first) == Added(first);
  }

  lemma SamePrefix(log: seq<Action>, more: seq<Action>, done: seq<Action>)
    requires log + more <= log + done
    ensures more <= done
  {
    assert (log + more)[|log|..] == more && (log + done)[|log|..] == done;
  }

  lemma LogPrefix(log: seq<Action>, begun: seq<Action>, more: seq<Action>, done: seq<Action>)
    requires begun + more <= done
    ensures log + begun + more <= log + done
  {
    Assoc(log, begun, more);
  }

  lemma FirstAnswer(first: Config, done: seq<Action>, ok: bool, last: Config)
    requires Told(first, done, ok) && Reached(first, done, last) && first.target == None && first.event.Some?
    ensures var c, r, begun := first.state, Answer(first.user), first.log + [Handle(first.state, first.event.value)];
      && begun <= last.log
      && (r == Reaction(None, None) ==> ok && last.log == begun && last.state == c && last.user == Rest(first.user))
      && (r.target == None && r.event.Some? ==> begun + [Handle(c, r.event.value)] <= last.log)
      && (r.target.Some? ==>
        var n := r.target.value.state;
        begun + Moves(c, n) + [Initial(begun + Moves(c, n), n, r.target.value.init)] <= last.log)
  {
    var c, e, r := first.state, first.event.value, Answer(first.user);
    assert [] + [Handle(c, e)] == [Handle(c, e)] <= done && last.log == first.log + done;
    OneAnswer(first.user, 0);
    assert Later(first.user, 0) == first.user;
    hide Told, Reached, Moves, Initial, Below;
    HandlerObeyed(first, done, ok, last, [], c, e);
    var begun := first.log + [Handle(c, e)];
    if r.target.Some? {
      var n := r.target.value.state;
      var more := Moves(c, n) + [Initial(begun + Moves(c, n), n, r.target.value.init)];
      LogPrefix(first.log, [Handle(c, e)], more, done);
    } else if r.event.Some? {
      LogPrefix(first.log, [Handle(c, e)], [Handle(c, r.event.value)], done);
    }
  }

  // The state asked for has its init, and nothing more is asked.
  lemma ThenQuiet(first: Config, done: seq<Action>, ok: bool, last: Config, n: State, params: bool)
    requires Told(first, done, ok) && Reached(first, done, last) && first.target == None && first.event.Some?
    requires Answer(first.user).event == None && (n.Sub? ==> AnswerAt(first.user, 1).target == None)
    requires [Handle(first.state, first.event.value)] + Moves(first.state, n) + [Init(n, params)] <= done
    ensures ok && done == [Handle(first.state, first.event.value)] + Moves(first.state, n) + [Init(n, params)]
    ensures last.state == n
  {
    var begun := [Handle(first.state, first.event.value)];
    hide Told, Reached, Moves, Below, Wanted;
    OneAnswer(first.user, 0);
    LastCounts(first, [], begun[0]);
    assert [] + [begun[0]] == begun && Asked([]) == 0 && Later(first.user, 0) == first.user;
    MovesRest(first.state, n);
    Unasked(first, begun, Moves(first.state, n));
    InitObeyed(first, done, ok, last, begun + Moves(first.state, n), n, params);
  }

  lemma StartMoves(first: Config, done: seq<Action>, ok: bool)
    requires Told(first, done, ok) && first.target.Some? && first.target.value.init == Default
    ensures Moves(first.state, first.target.value.state) + [Init(first.target.value.state, false)] <= done
  {}

  lemma Quiet(first: Config, ok: bool, last: Config)
    requires first.log <= last.log && first.target == None && first.event.Some?
    requires Told(first, last.log[|first.log|..], ok) && Reached(first, last.log[|first.log|..], last)
    ensures var c, r, begun := first.state, Answer(first.user), first.log + [Handle(first.state, first.event.value)];
      r.target.Some? && r.target.value.init != History && r.event == None ==>
        var n, params := r.target.value.state, r.target.value.init == Parameters;
        (n.Sub? ==> AnswerAt(first.user, 1).target == None) ==>
          ok && last.log == begun + Moves(c, n) + [Init(n, params)] && last.state == n
  {
    var r, done := Answer(first.user), last.log[|first.log|..];
    hide Told, Reached, Moves, Below, Remembered;
    FirstAnswer(first, done, ok, last);
    if r.target.Some? && r.target.value.init != History && r.event == None {
      var n, params := r.target.value.state, r.target.value.init == Parameters;
      var more := [Handle(first.state, first.event.value)] + Moves(first.state, n) + [Init(n, params)];
      Assoc(first.log, [Handle(first.state, first.event.value)], Moves(first.state, n));
      Assoc(first.log, [Handle(first.state, first.event.value)] + Moves(first.state, n), [Init(n, params)]);
      SamePrefix(first.log, more, done);
      if n.Sub? ==> AnswerAt(first.user, 1).target == None {
        ThenQuiet(first, done, ok, last, n, params);
        assert last.log == first.log + done;
      }
    }
  }

  class Machine {
    const states: set<State>
    var myCurrentState: Option<State>
    var myPendingState: Option<State>
    var myPendingInit: Initializer
    var myPendingEvent: Option<Event>
    var myBox: set<State>
    var myHistory: map<State, State>
    var log: seq<Action>
    var user: seq<Reaction>

    constructor (states: set<State>, user: seq<Reaction>)
      ensures this.states == states && this.user == user
      ensures myCurrentState == None && myPendingState == None && myPendingEvent == None
      ensures myBox == {} && myHistory == map[] && log == []
    {
      this.states, this.user := states, user;
      myCurrentState, myPendingState, myPendingEvent := None, None, None;
      myPendingInit := Default;
      myBox, myHistory, log := {}, map[], [];
    }

    method CreateBox(s: State)
      modifies this`myBox
      ensures myBox == old(myBox) + {s}
    {
      if s !in myBox {
        myBox := myBox + {s};
      }
    }

    method DeleteBox(s: State)
      requires s in myBox
      modifies this`myBox
      ensures myBox == old(myBox) - {s}
    {
      myBox := myBox - {s};
    }

    method Entry(s: State, previous: State, first: bool)
      modifies this`myBox, this`log
      ensures var entries := if first then EntryLog(s, previous) else EntriesAbove(s, previous);
        log == old(log) + entries && forall x :: x in myBox <==> x in old(myBox) || Enter(x) in entries
      decreases s
    {
      if s.Root? {
        return;
      }
      if first || !IsChild(previous, s) {
        Entry(s.parent, previous, false);
        CreateBox(s);
        log := log + [Enter(s)];
      }
    }

    method Leave(s: State, next: State)
      requires forall x: State :: x.Sub? && x.kind == OwnBox && IsChild(s, x) ==> x in myBox
      modifies this`myBox, this`log
      ensures log == old(log) + ExitLog(s, next)
      ensures forall x: State :: x in myBox <==>
        x in old(myBox) && !(Exit(x) in ExitLog(s, next) && x.Sub? && x.kind == OwnBox)
      decreases s
    {
      if s.Root? {
        return;
      }
      if s == next || !IsChild(next, s) {
        log := log + [Exit(s)];
        if s.kind != EmptyBox {
          if s.kind == OwnBox {
            DeleteBox(s);
          }
        }
        BelowByParent(s, s);
        Leave(s.parent, next);
      }
    }

    // Tells the states s is properly in that the machine leaves `deep`.
    method SetHistorySuper(s: State, deep: State)
      requires IsChild(deep, s)
      modifies this`myHistory
      ensures forall t :: HistoryAt(myHistory, t) == if Records(t, deep) && Below(s, t) then Some(Recorded(t, deep))
        else HistoryAt(old(myHistory), t)
      decreases s, 0
    {
      if s.Sub? {
        forall t ensures Below(s, t) <==> IsChild(s.parent, t) {
          BelowByParent(s, t);
        }
        SaveHistory(s.parent, s, deep);
      }
    }

    method SaveHistory(s: State, shallow: State, deep: State)
      requires shallow.Sub? && shallow.parent == s && IsChild(deep, shallow)
      modifies this`myHistory
      ensures forall t :: HistoryAt(myHistory, t) == if Records(t, deep) && IsChild(s, t) then Some(Recorded(t, deep))
        else HistoryAt(old(myHistory), t)
      decreases s, 1
    {
      TowardIs(s, deep, shallow);
      if s.Root? {
        return;
      }
      match s.strategy {
        case Deep => myHistory := myHistory[s := deep];
        case Shallow => myHistory := myHistory[s := shallow];
        case NoHistory =>
      }
      if SuperHasHistory(s) {
        SetHistorySuper(s, deep);
      } else {
        forall t: State | t.Sub? && Below(s, t) ensures t.strategy == NoHistory {
          NoHistoryAbove(s, t);
        }
      }
    }

    // The machine is in state c, between two actions of the engine.
    ghost predicate In(c: State)
      reads this
    {
      && myCurrentState == Some(c) && c in states && Closed(states)
      && Go(Root, log) == Some(c) && BoxesFit(myBox, log, c) && HistoryFits(myHistory, log)
      && HistoryWithin(myHistory, states) && Answers(user, states)
    }

    ghost function View(): Config
      reads this
      requires myCurrentState.Some?
    {
      Config(myCurrentState.value, if myPendingState.Some? then Some(Target(myPendingState.value, myPendingInit))
        else None, myPendingEvent, user, log)
    }

    // One pending transition, up to the initialization of its target.
    method Transit(n: State, ghost p: State)
      requires In(p) && n in states
      modifies this`myCurrentState, this`myBox, this`myHistory, this`log
      ensures In(n) && log == old(log) + Moves(p, n)
    {
      var previous := myCurrentState.value;
      log := log + [Transition(previous, n)];
      Leave(previous, n);
      SetHistorySuper(previous, previous);
      myCurrentState := Some(n);
      Entry(n, previous, true);
      assert log == old(log) + Moves(p, n);
      MovedOn(old(log), old(myBox), myBox, old(myHistory), myHistory, p, n, states);
    }

    // What the user answers to the next action that may ask for something.
    method Ask() returns (r: Reaction)
      modifies this`user
      ensures r == Answer(old(user)) && user == Rest(old(user))
    {
      if user == [] {
        return Reaction(None, None);
      }
      r, user := user[0], user[1..];
    }

    method SetPendingState(state: State, init: Initializer)
      requires myPendingState == None
      modifies this`myPendingState, this`myPendingInit
      ensures myPendingState == Some(state) && myPendingInit == init
    {
      myPendingState, myPendingInit := Some(state), init;
    }

    // The init of state c, which may ask for a transition; the root's does not.
    method UserInit(c: State, params: bool)
      requires In(c) && myPendingState == None
      modifies this`log, this`user, this`myPendingState, this`myPendingInit
      ensures View() == old(View()).(target := if c.Sub? then Answer(old(user)).target else None,
        user := if c.Sub? then Rest(old(user)) else old(user), log := old(log) + [Init(c, params)])
      ensures Answers(user, states) && (myPendingState.Some? ==> myPendingState.value in states)
    {
      log := log + [Init(c, params)];
      if c.Sub? {
        var r := Ask();
        if r.target.Some? {
          SetPendingState(r.target.value.state, r.target.value.init);
        }
      }
    }

    // Initializes the new current state. A state recalled from its history is
    // one the engine's check on initializations accepts.
    method Initialize(c: State, init: Initializer)
      requires In(c) && myPendingState == None
      modifies this`log, this`user, this`myPendingState, this`myPendingInit, this`myHistory
      ensures In(c) && (myPendingState.Some? ==> myPendingState.value in states)
      ensures var k := old(View());
        if init == History && Remembered(k.log, c).Some? then
          View() == k.(target := Some(Target(Remembered(k.log, c).value, Default)), log := k.log + [Recall(c)])
            && Below(Remembered(k.log, c).value, c)
        else
          View() == k.(target := if c.Sub? then Answer(k.user).target else None,
            user := if c.Sub? then Rest(k.user) else k.user, log := k.log + [Init(c, init == Parameters)])
    {
      ghost var before := log;
      if init == Parameters {
        UserInit(c, true);
      } else {
        if init == History && c in myHistory {
          Recallable(log, myHistory, c);
          log := log + [Recall(c)];
          SetPendingState(myHistory[c], Default);
        } else {
          UserInit(c, false);
        }
        myHistory := myHistory - {c};
      }
      Initialized(before, log[|log| - 1], old(myHistory), myBox, c);
    }

    // The states a pending transition can still lead to by initializations.
    ghost function Ahead(): set<State>
      reads this`myPendingState
    {
      if myPendingState.None? then {} else Within(states, myPendingState.value)
    }

    // The pending transition, with the initialization of its target.
    method Perform()
      requires myCurrentState.Some? && In(myCurrentState.value) && myPendingState.Some?
        && myPendingState.value in states
      modifies this`myCurrentState, this`myPendingState, this`myPendingInit, this`myBox, this`myHistory, this`log,
        this`user
      ensures myCurrentState == old(myPendingState) && In(myCurrentState.value) && View() == Next(old(View()))
      ensures myPendingState.Some? ==> myPendingState.value in states
      ensures !Narrowing(old(View()), View()) ==> log[|log| - 1].Init?
    {
      var n := myPendingState.value;
      Transit(n, myCurrentState.value);
      myPendingState := None;
      Initialize(n, myPendingInit);
    }

    // Performs pending transitions and events. Fails if an init asks for a
    // transition to anything but a proper substate.
    method RattleOn() returns (ok: bool, ghost run: seq<Config>)
      requires myCurrentState.Some? && In(myCurrentState.value)
      requires myPendingState.Some? ==> myPendingState.value in states
      modifies this
      ensures myCurrentState.Some? && In(myCurrentState.value)
      ensures IsRun(run, old(View()), View(), ok)
      ensures ok ==> myPendingState == None && myPendingEvent == None
      ensures !ok ==> log != [] && log[|log| - 1].Init?
    {
      hide IsRun;
      run := [View()];
      RunStarts(View());
      while myPendingState.Some? || myPendingEvent.Some?
        invariant myCurrentState.Some? && In(myCurrentState.value)
        invariant myPendingState.Some? ==> myPendingState.value in states
        invariant IsRun(run, old(View()), View(), true)
        decreases 2 * |user| + (if myPendingEvent.Some? then 1 else 0) + (if myPendingState.Some? then 1 else 0)
      {
        ok, run := RattlePending(run, old(View()));
        if !ok {
          return;
        }
        if myPendingEvent.Some? {
          ghost var k := View();
          var e := myPendingEvent.value;
          myPendingEvent := None;
          HandleEvent(e);
          RunOn(run, old(View()), k, View());
          run := run + [View()];
        }
      }
      ok := true;
    }

    // The inner loop of rattleOn: transitions, until none is pending.
    method RattlePending(ghost run: seq<Config>, ghost start: Config) returns (ok: bool, ghost run': seq<Config>)
      requires myCurrentState.Some? && In(myCurrentState.value) && IsRun(run, start, View(), true)
      requires myPendingState.Some? ==> myPendingState.value in states
      modifies this
      ensures myCurrentState.Some? && In(myCurrentState.value) && IsRun(run', start, View(), ok)
      ensures |user| <= old(|user|) && myPendingEvent == old(myPendingEvent)
      ensures ok ==> myPendingState == None
      ensures !ok ==> log != [] && log[|log| - 1].Init?
    {
      hide IsRun;
      run' := run;
      while myPendingState.Some?
        invariant myCurrentState.Some? && In(myCurrentState.value)
        invariant myPendingState.Some? ==> myPendingState.value in states
        invariant |user| <= old(|user|) && myPendingEvent == old(myPendingEvent)
        invariant IsRun(run', start, View(), true)
        decreases Ahead()
      {
        assert myPendingState.value in Ahead();
        ghost var k := View();
        Perform();
        RunOn(run', start, k, View());
        run' := run' + [View()];
        if myPendingState.Some? && !Below(myPendingState.value, myCurrentState.value) {
          return false, run';
        }
        if myPendingState.Some? {
          Narrower(states, myCurrentState.value, myPendingState.value);
        }
      }
      ok := true;
    }

    // The current state's handler for event e.
    method HandleEvent(e: Event)
      requires myCurrentState.Some? && In(myCurrentState.value) && myPendingState == None && myPendingEvent == None
      modifies this`log, this`user, this`myPendingState, this`myPendingInit, this`myPendingEvent
      ensures In(myCurrentState.value) && View() == Next(old(View()).(event := Some(e)))
      ensures log == old(log) + [Handle(myCurrentState.value, e)] && user == Rest(old(user))
      ensures myPendingEvent == Answer(old(user)).event
      ensures match Answer(old(user)).target
        case None => myPendingState == None
        case Some(t) => myPendingState == Some(t.state) && myPendingInit == t.init
      ensures myPendingState.Some? ==> myPendingState.value in states
    {
      var c := myCurrentState.value;
      log := log + [Handle(c, e)];
      Initialized(old(log), Handle(c, e), myHistory, myBox, c);
      var r := Ask();
      if r.target.Some? {
        SetPendingState(r.target.value.state, r.target.value.init);
      }
      myPendingEvent := r.event;
    }

    method SetState(state: State, init: Initializer) returns (ok: bool, ghost run: seq<Config>)
      requires myCurrentState.Some? && In(myCurrentState.value) && state in states && myPendingState == None
      modifies this
      ensures myCurrentState.Some? && In(myCurrentState.value)
      ensures IsRun(run, old(View()).(target := Some(Target(state, init))), View(), ok)
      ensures ok ==> myPendingState == None && myPendingEvent == None
    {
      SetPendingState(state, init);
      ok, run := RattleOn();
    }

    // Goes from the root to the start state.
    method Start(state: State) returns (ok: bool, ghost run: seq<Config>)
      requires myCurrentState == None && myPendingState == None && myPendingEvent == None && log == [] && myBox == {}
        && myHistory == map[]
      requires state in states && Root in states && Closed(states) && Answers(user, states)
      modifies this
      ensures myCurrentState.Some? && In(myCurrentState.value)
      ensures IsRun(run, Config(Root, Some(Target(state, Default)), None, old(user), []), View(), ok)
      ensures ok ==> myPendingState == None && myPendingEvent == None
      ensures Moves(Root, state) + [Init(state, false)] <= log
      ensures Told(Config(Root, Some(Target(state, Default)), None, old(user), []), log, ok)
      ensures Reached(Config(Root, Some(Target(state, Default)), None, old(user), []), log, View())
    {
      hide Told, Reached, Lawful, IsRun, In, Moves;
      myCurrentState := Some(Root);
      ghost var first := Config(Root, Some(Target(state, Default)), None, user, []);
      StartView(state);
      ok, run := SetState(state, Default);
      Unmoved(first);
      RunObeys(run, first, View(), ok, first, []);
      assert log[|first.log|..] == log;
      StartMoves(first, log, ok);
    }

    lemma StartView(state: State)
      requires myCurrentState == Some(Root) && log == [] && myBox == {} && myHistory == map[] && myPendingEvent == None
      requires Root in states && Closed(states) && Answers(user, states)
      ensures In(Root)
      ensures View().(target := Some(Target(state, Default))) ==
        Config(Root, Some(Target(state, Default)), None, user, [])
    {}

    // Lets the current state handle e, and performs what that asks for.
    method Dispatch(e: Event) returns (ok: bool, ghost run: seq<Config>)
      requires myCurrentState.Some? && In(myCurrentState.value) && myPendingState == None && myPendingEvent == None
      modifies this
      ensures myCurrentState.Some? && In(myCurrentState.value)
      ensures IsRun(run, Next(old(View()).(event := Some(e))), View(), ok)
      ensures ok ==> myPendingState == None && myPendingEvent == None
      ensures var c, r := old(myCurrentState).value, Answer(old(user));
        var begun := old(log) + [Handle(c, e)];
        && begun <= log
        && (r == Reaction(None, None) ==> ok && log == begun && myCurrentState == Some(c) && user == Rest(old(user)))
        && (r.target == None && r.event.Some? ==> begun + [Handle(c, r.event.value)] <= log)
        && (r.target.Some? ==>
          var n := r.target.value.state;
          begun + Moves(c, n) + [Initial(begun + Moves(c, n), n, r.target.value.init)] <= log)
      ensures var c, r := old(myCurrentState).value, Answer(old(user));
        var begun := old(log) + [Handle(c, e)];
        r.target.Some? && r.target.value.init != History && r.event == None ==>
          var n, params := r.target.value.state, r.target.value.init == Parameters;
          (n.Sub? ==> AnswerAt(old(user), 1).target == None) ==>
            ok && log == begun + Moves(c, n) + [Init(n, params)] && myCurrentState == Some(n)
      ensures old(log) <= log && Told(old(View()).(event := Some(e)), log[|old(log)|..], ok)
      ensures Reached(old(View()).(event := Some(e)), log[|old(log)|..], View())
    {
      ghost var first := View().(event := Some(e));
      HandleEvent(e);
      ok, run := RattleOn();
      Handled(first);
      RunObeys(run, Next(first), View(), ok, first, [Handle(first.state, e)]);
      FirstAnswer(first, log[|old(log)|..], ok, View());
      Quiet(first, ok, View());
    }

    // Leaves every state by going to the root.
    method Shutdown() returns (ok: bool)
      requires myCurrentState.Some? && In(myCurrentState.value) && myPendingState == None && myPendingEvent == None
        && Root in states
      modifies this
      ensures ok && myCurrentState == None && myPendingState == None && myPendingEvent == None
      ensures log == old(log) + Moves(old(myCurrentState).value, Root) + [Init(Root, false)] && user == old(user)
      ensures Go(Root, log) == Some(Root) && forall s: State :: s in myBox && s.Sub? ==> s.kind != OwnBox
    {
      ghost var run;
      ok, run := SetState(Root, Default);
      OneStep(run, old(View()).(target := Some(Target(Root, Default))), View(), ok);
      myCurrentState := None;
    }
  }

  // The transition to the root is a run of its own.
  lemma OneStep(run: seq<Config>, first: Config, last: Config, ok: bool)
    requires IsRun(run, first, last, ok) && first.target == Some(Target(Root, Default)) && first.event == None
    requires ok ==> last.target == None && last.event == None
    ensures ok && last == Next(first)
  {
    if |run| > 1 {
      FirstStep(run, first, last, ok);
    }
  }

  lemma {:induction false} FirstStep(run: seq<Config>, first: Config, last: Config, ok: bool)
    requires IsRun(run, first, last, ok) && |run| > 1 && first.target == Some(Target(Root, Default))
      && first.event == None
    ensures |run| == 2 && last == Next(first)
    decreases |run|
  {
    var before := run[..|run| - 1];
    assert IsRun(before, first, before[|before| - 1], true);
    if |run| > 2 {
      FirstStep(before, first, run[|run| - 2], true);
      assert false;
    }
  }

  // Every recorded state is one of the machine's.
  ghost predicate HistoryWithin(history: map<State, State>, states: set<State>) {
    forall s :: s in history ==> history[s] in states
  }

  // The user names states of the machine only.
  ghost predicate Answers(user: seq<Reaction>, states: set<State>) {
    forall i :: 0 <= i < |user| && user[i].target.Some? ==> user[i].target.value.state in states
  }

  lemma {:induction false} SupersWithin(states: set<State>, s: State, x: State)
    requires Closed(states) && s in states && IsChild(s, x)
    ensures x in states
  {
    if s != x {
      SupersWithin(states, s.parent, x);
    }
  }

  lemma MovedBoxes(log: seq<Action>, boxes: set<State>, boxes': set<State>, p: State, n: State)
    requires BoxesFit(boxes, log, p)
    requires forall x: State :: x in boxes' <==>
      (x in boxes && !(Exit(x) in ExitLog(p, n) && x.Sub? && x.kind == OwnBox)) || Enter(x) in EntryLog(n, p)
    ensures BoxesFit(boxes', log + Moves(p, n), n)
  {
    forall s: State | s.Sub?
      ensures s in boxes' <==> if s.kind == OwnBox then IsChild(n, s) else Enter(s) in log + Moves(p, n)
    {
      ExitsAre(p, n, s);
      EntriesAre(n, p, s);
      NoEntryInExits(p, n, s);
    }
  }

  lemma {:induction false} NoEntryInExits(p: State, n: State, s: State)
    ensures Enter(s) !in ExitLog(p, n)
  {
    if !(p.Root? || Below(n, p)) {
      NoEntryInExits(p.parent, n, s);
    }
  }

  lemma MovedHistory(log: seq<Action>, history: map<State, State>, history': map<State, State>, p: State, n: State)
    requires HistoryFits(history, log)
    requires forall t :: HistoryAt(history', t) == if Records(t, p) then Some(Recorded(t, p)) else HistoryAt(history, t)
    ensures HistoryFits(history', log + Moves(p, n))
  {
    forall t ensures Remembered(log + Moves(p, n), t) == HistoryAt(history', t) {
      MovesRemembered(log, p, n, t);
      assert Remembered(log, t) == HistoryAt(history, t);
    }
  }

  lemma MovedOn(log: seq<Action>, boxes: set<State>, boxes': set<State>, history: map<State, State>,
      history': map<State, State>, p: State, n: State, states: set<State>)
    requires Go(Root, log) == Some(p) && p in states && Closed(states)
    requires BoxesFit(boxes, log, p) && HistoryFits(history, log) && HistoryWithin(history, states)
    requires forall x: State :: x in boxes' <==>
      (x in boxes && !(Exit(x) in ExitLog(p, n) && x.Sub? && x.kind == OwnBox)) || Enter(x) in EntryLog(n, p)
    requires forall t :: HistoryAt(history', t) == if Records(t, p) then Some(Recorded(t, p)) else HistoryAt(history, t)
    ensures Go(Root, log + Moves(p, n)) == Some(n)
    ensures BoxesFit(boxes', log + Moves(p, n), n) && HistoryFits(history', log + Moves(p, n))
      && HistoryWithin(history', states)
  {
    MovesLead(p, n);
    GoOn(Root, log, p, Moves(p, n));
    MovedBoxes(log, boxes, boxes', p, n);
    MovedHistory(log, history, history', p, n);
    forall s | s in history' ensures history'[s] in states {
      assert HistoryAt(history', s) == Some(history'[s]);
      if Records(s, p) {
        TowardIsChild(s, p);
        SupersWithin(states, p, Toward(s, p));
      } else {
        assert HistoryAt(history, s) == Some(history'[s]);
      }
    }
  }

  // Initializing c or handling an event in it changes nothing else.
  lemma Initialized(log: seq<Action>, a: Action, history: map<State, State>, boxes: set<State>, c: State)
    requires Go(Root, log) == Some(c) && BoxesFit(boxes, log, c) && HistoryFits(history, log)
    requires a == Recall(c) || (a.Init? && a.s == c) || (a.Handle? && a.s == c)
    ensures Go(Root, log + [a]) == Some(c) && BoxesFit(boxes, log + [a], c)
    ensures HistoryFits(if a.Recall? || (a.Init? && !a.params) then history - {c} else history, log + [a])
  {
    GoOn(Root, log, c, [a]);
    var history' := if a.Recall? || (a.Init? && !a.params) then history - {c} else history;
    assert (log + [a])[..|log + [a]| - 1] == log;
    forall s ensures Remembered(log + [a], s) == HistoryAt(history', s) {
      assert Remembered(log, s) == HistoryAt(history, s);
    }
  }

  function Within(states: set<State>, x: State): set<State> {
    set s | s in states && IsChild(s, x)
  }

  lemma Narrower(states: set<State>, n: State, m: State)
    requires Below(m, n) && n in states
    ensures Within(states, m) < Within(states, n)
  {
    var a, b := Within(states, m), Within(states, n);
    forall s | s in a ensures s in b {
      ChildTransitive(s, m, n);
    }
    ChildIsDeeper(m, n);
    if IsChild(n, m) {
      ChildIsDeeper(n, m);
      assert false;
    }
    assert n in b && n !in a;
  }

  lemma Recallable(log: seq<Action>, history: map<State, State>, c: State)
    requires HistoryFits(history, log) && c in history
    ensures Below(history[c], c)
  {
    assert Remembered(log, c) == HistoryAt(history, c);
    RememberedBelow(log, c);
  }
}
