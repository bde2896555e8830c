// The state hierarchy of a Macho machine, and the traces of its runs.

module MachoStates {
  import opened Options

  datatype HistoryKind = NoHistory | Shallow | Deep
  datatype BoxKind = EmptyBox | OwnBox | PersistentBox

  // A state is given by its superstate and its declaration in it.
  datatype State = Root | Sub(parent: State, id: nat, strategy: HistoryKind, kind: BoxKind)

  predicate IsChild(s: State, x: State) { s == x || (s.Sub? && IsChild(s.parent, x)) }

  predicate Below(s: State, x: State) { s != x && IsChild(s, x) }

  function Depth(s: State): nat { if s.Root? then 0 else 1 + Depth(s.parent) }

  lemma {:induction false} ChildIsDeeper(s: State, x: State)
    requires IsChild(s, x)
    ensures Depth(s) >= Depth(x) && (s != x ==> Depth(s) > Depth(x))
  {
    if s != x {
      ChildIsDeeper(s.parent, x);
    }
  }

  lemma {:induction false} ChildOfRoot(s: State)
    ensures IsChild(s, Root)
  {
    if s.Sub? {
      ChildOfRoot(s.parent);
    }
  }

  lemma {:induction false} ChildTransitive(s: State, x: State, y: State)
    requires IsChild(s, x) && IsChild(x, y)
    ensures IsChild(s, y)
  {
    if s != x {
      ChildTransitive(s.parent, x, y);
    }
  }

  // Below n is the same as at or below n's superstate ... seen from n.
  lemma BelowByParent(n: State, x: State)
    ensures Below(n, x) <==> n.Sub? && IsChild(n.parent, x)
  {
    if n.Sub? && IsChild(n.parent, x) && n == x {
      ChildIsDeeper(n.parent, n);
      assert false;
    }
  }

  // ---- what a machine lets its user see

  type Event = nat

  datatype Action =
    | Transition(from: State, to: State)
    | Exit(s: State)
    | Enter(s: State)
    | Init(s: State, params: bool)
    | Recall(s: State)
    | Handle(s: State, e: Event)

  // The innermost active state after action a, if a may happen in c.
  function Step(c: State, a: Action): Option<State> {
    match a
    case Enter(s) => if s.Sub? && c == s.parent then Some(s) else None
    case Exit(s) => if s.Sub? && c == s then Some(s.parent) else None
    case Transition(p, _) => if c == p then Some(c) else None
    case Init(s, _) => if c == s then Some(c) else None
    case Recall(s) => if c == s then Some(c) else None
    case Handle(s, _) => if c == s then Some(c) else None
  }

  function Go(c: State, log: seq<Action>): Option<State>
    decreases |log|
  {
    if log == [] then Some(c)
    else match Step(c, log[0])
      case None => None
      case Some(d) => Go(d, log[1..])
  }

  lemma {:induction false} GoOn(c: State, a: seq<Action>, d: State, b: seq<Action>)
    requires Go(c, a) == Some(d)
    ensures Go(c, a + b) == Go(d, b)
    decreases |a|
  {
    if a == [] {
      assert a + b == b;
    } else {
      assert (a + b)[1..] == a[1..] + b;
      GoOn(Step(c, a[0]).value, a[1..], d, b);
    }
  }

  // ---- the actions of a transition from p to n

  function ExitLog(p: State, n: State): seq<Action> {
    if p.Root? || Below(n, p) then [] else [Exit(p)] + ExitLog(p.parent, n)
  }

  // Entering s and what is above it, as far as p is not in it.
  function EntriesAbove(s: State, p: State): seq<Action> {
    if s.Root? || IsChild(p, s) then [] else EntriesAbove(s.parent, p) + [Enter(s)]
  }

  function EntryLog(n: State, p: State): seq<Action> {
    if n.Root? then [] else EntriesAbove(n.parent, p) + [Enter(n)]
  }

  // The lowest state above or equal to p that q is in.
  function Join(p: State, q: State): State {
    if p.Root? || IsChild(q, p) then p else Join(p.parent, q)
  }

  lemma {:induction false} ExitsLeadToJoin(p: State, n: State)
    ensures Go(p, ExitLog(p, n)) == Some(if n.Root? then Root else Join(p, n.parent))
  {
    BelowByParent(n, p);
    if !(p.Root? || Below(n, p)) {
      ExitsLeadToJoin(p.parent, n);
    }
  }

  lemma {:induction false} JoinOfChild(p: State, q: State)
    requires IsChild(p, q)
    ensures Join(p, q) == q
  {
    if IsChild(q, p) {
      ChildIsDeeper(p, q);
      ChildIsDeeper(q, p);
    } else if p.Sub? {
      JoinOfChild(p.parent, q);
    }
  }

  lemma {:induction false} JoinAbove(p: State, q: State)
    requires !IsChild(p, q) && q.Sub?
    ensures Join(p, q) == Join(p, q.parent)
  {
    BelowByParent(q, p);
    if p.Sub? && !IsChild(q, p) {
      JoinAbove(p.parent, q);
    }
  }

  lemma {:induction false} EntriesLeadDown(q: State, p: State)
    ensures Go(Join(p, q), EntriesAbove(q, p)) == Some(q)
  {
    if q.Root? {
      ChildOfRoot(p);
    }
    if IsChild(p, q) {
      JoinOfChild(p, q);
    } else {
      JoinAbove(p, q);
      EntriesLeadDown(q.parent, p);
      GoOn(Join(p, q), EntriesAbove(q.parent, p), q.parent, [Enter(q)]);
    }
  }

  function Moves(p: State, n: State): seq<Action> { [Transition(p, n)] + ExitLog(p, n) + EntryLog(n, p) }

  // The actions of a transition are possible in their order, and lead to n.
  lemma MovesLead(p: State, n: State)
    ensures Go(p, Moves(p, n)) == Some(n)
  {
    var j := if n.Root? then Root else Join(p, n.parent);
    ExitsLeadToJoin(p, n);
    GoOn(p, [Transition(p, n)], p, ExitLog(p, n));
    if n.Root? {
      assert EntryLog(n, p) == [];
    } else {
      EntriesLeadDown(n.parent, p);
      GoOn(j, EntriesAbove(n.parent, p), n.parent, [Enter(n)]);
    }
    GoOn(p, [Transition(p, n)] + ExitLog(p, n), j, EntryLog(n, p));
  }

  // Exits: every state p is in that is not properly above n, and no other.
  lemma {:induction false} ExitsAre(p: State, n: State, s: State)
    ensures Exit(s) in ExitLog(p, n) <==> s.Sub? && IsChild(p, s) && !Below(n, s)
  {
    if p.Root? || Below(n, p) {
      if s.Sub? && IsChild(p, s) && p.Sub? {
        ChildTransitive(n, p, s);
        if n == s {
          ChildIsDeeper(n, p);
          ChildIsDeeper(p, s);
        }
      }
    } else {
      ExitsAre(p.parent, n, s);
      if s == p {
        assert ExitLog(p, n)[0] == Exit(p);
      }
    }
  }

  // Entries: n, and every state n is in that p is not in, and no other.
  lemma {:induction false} EntriesAboveAre(q: State, p: State, s: State)
    ensures Enter(s) in EntriesAbove(q, p) <==> s.Sub? && IsChild(q, s) && !IsChild(p, s)
  {
    if q.Root? || IsChild(p, q) {
      if IsChild(q, s) && q.Sub? {
        ChildTransitive(p, q, s);
      }
    } else {
      EntriesAboveAre(q.parent, p, s);
      assert EntriesAbove(q, p)[|EntriesAbove(q.parent, p)|] == Enter(q);
    }
  }

  lemma EntriesAre(n: State, p: State, s: State)
    ensures Enter(s) in EntryLog(n, p) <==> s.Sub? && IsChild(n, s) && (s == n || !IsChild(p, s))
  {
    if n.Sub? {
      EntriesAboveAre(n.parent, p, s);
      assert EntryLog(n, p)[|EntriesAbove(n.parent, p)|] == Enter(n);
    }
  }

  // Exits run bottom-up, entries top-down: each is next to the one before.
  lemma {:induction false} ExitsBottomUp(p: State, n: State, i: nat)
    requires i < |ExitLog(p, n)|
    ensures ExitLog(p, n)[i].Exit? && ExitLog(p, n)[i].s.Sub?
    ensures i + 1 < |ExitLog(p, n)| ==> ExitLog(p, n)[i + 1] == Exit(ExitLog(p, n)[i].s.parent)
  {
    if i > 0 {
      ExitsBottomUp(p.parent, n, i - 1);
    } else if |ExitLog(p, n)| > 1 {
      assert ExitLog(p, n)[1] == ExitLog(p.parent, n)[0];
    }
  }

  lemma {:induction false} EntriesTopDown(q: State, p: State, i: nat)
    requires i < |EntriesAbove(q, p)|
    ensures EntriesAbove(q, p)[i].Enter? && EntriesAbove(q, p)[i].s.Sub?
    ensures i + 1 < |EntriesAbove(q, p)| ==>
      EntriesAbove(q, p)[i + 1].Enter? && EntriesAbove(q, p)[i + 1].s.Sub?
      && EntriesAbove(q, p)[i + 1].s.parent == EntriesAbove(q, p)[i].s
    ensures i + 1 == |EntriesAbove(q, p)| ==> EntriesAbove(q, p)[i] == Enter(q)
  {
    var above := EntriesAbove(q.parent, p);
    if i < |above| {
      EntriesTopDown(q.parent, p, i);
    }
  }

  // ---- history

  predicate Records(t: State, p: State) { t.Sub? && t.strategy != NoHistory && Below(p, t) }

  // The direct substate of t that p is in.
  function Toward(t: State, p: State): State
    requires Below(p, t)
  {
    if p.parent == t then p else Toward(t, p.parent)
  }

  function Recorded(t: State, p: State): State
    requires Records(t, p)
  {
    if t.strategy == Deep then p else Toward(t, p)
  }

  lemma {:induction false} TowardIsChild(t: State, p: State)
    requires Below(p, t)
    ensures Toward(t, p).Sub? && Toward(t, p).parent == t && IsChild(p, Toward(t, p)) && Below(Toward(t, p), t)
  {
    BelowByParent(Toward(t, p), t);
    if p.parent != t {
      TowardIsChild(t, p.parent);
    }
  }

  // What state t remembers after a run: the last state left below it, since
  // its own initialization.
  function Remembered(log: seq<Action>, t: State): Option<State>
    decreases |log|
  {
    if log == [] then None
    else match log[|log| - 1]
      case Transition(p, _) => if Records(t, p) then Some(Recorded(t, p)) else Remembered(log[..|log| - 1], t)
      case Init(s, params) => if s == t && !params then None else Remembered(log[..|log| - 1], t)
      case Recall(s) => if s == t then None else Remembered(log[..|log| - 1], t)
      case _ => Remembered(log[..|log| - 1], t)
  }

  // Only leaving a state below t, and initializing t, count.
  predicate Irrelevant(a: Action, t: State) {
    match a
    case Transition(p, _) => !Records(t, p)
    case Init(s, params) => s != t || params
    case Recall(s) => s != t
    case _ => true
  }

  lemma {:induction false} RememberedPast(log: seq<Action>, more: seq<Action>, t: State)
    requires forall a :: a in more ==> Irrelevant(a, t)
    ensures Remembered(log + more, t) == Remembered(log, t)
    decreases |more|
  {
    if more == [] {
      assert log + more == log;
    } else {
      var m := more[..|more| - 1];
      var a := more[|more| - 1];
      assert a in more && log + more == log + m + [a] && (log + m + [a])[..|log + m|] == log + m;
      assert Remembered(log + m + [a], t) == Remembered(log + m, t);
      RememberedPast(log, m, t);
    }
  }

  // A remembered state is always properly below the state that remembers it.
  lemma {:induction false} RememberedBelow(log: seq<Action>, t: State)
    requires Remembered(log, t).Some?
    ensures t.Sub? && t.strategy != NoHistory && Below(Remembered(log, t).value, t)
    ensures t.strategy == Shallow ==> Remembered(log, t).value.Sub? && Remembered(log, t).value.parent == t
    decreases |log|
  {
    var a := log[|log| - 1];
    if a.Transition? && Records(t, a.from) {
      TowardIsChild(t, a.from);
    } else {
      assert Remembered(log, t) == Remembered(log[..|log| - 1], t);
      RememberedBelow(log[..|log| - 1], t);
    }
  }

  predicate SuperHasHistory(s: State) {
    s.Sub? && s.parent.Sub? && (s.parent.strategy != NoHistory || SuperHasHistory(s.parent))
  }

  lemma {:induction false} NoHistoryAbove(s: State, t: State)
    requires !SuperHasHistory(s) && Below(s, t) && t.Sub?
    ensures t.strategy == NoHistory
  {
    if s.parent != t {
      NoHistoryAbove(s.parent, t);
    }
  }

  lemma {:induction false} TowardIs(t: State, p: State, x: State)
    requires x.Sub? && x.parent == t && IsChild(p, x)
    ensures Below(p, t) && Toward(t, p) == x
  {
    ChildTransitive(p, x, t);
    ChildIsDeeper(p, x);
    if p != x {
      TowardIs(t, p.parent, x);
      BelowByParent(p, t);
      ChildIsDeeper(p.parent, x);
    }
  }

  // ---- the active states, counted from the entries and exits

  function ActiveAfter(active: set<State>, log: seq<Action>): set<State>
    decreases |log|
  {
    if log == [] then active
    else match log[0]
      case Enter(s) => ActiveAfter(active + {s}, log[1..])
      case Exit(s) => ActiveAfter(active - {s}, log[1..])
      case _ => ActiveAfter(active, log[1..])
  }

  // After a possible run the active states are the innermost one and those it is in.
  lemma {:induction false} ActiveAre(c: State, active: set<State>, log: seq<Action>, d: State)
    requires Go(c, log) == Some(d)
    requires forall s :: s in active <==> s.Sub? && IsChild(c, s)
    ensures forall s :: s in ActiveAfter(active, log) <==> s.Sub? && IsChild(d, s)
    decreases |log|
  {
    if log != [] {
      var c' := Step(c, log[0]).value;
      var active' := match log[0] case Enter(s) => active + {s} case Exit(s) => active - {s} case _ => active;
      forall s ensures s in active' <==> s.Sub? && IsChild(c', s) {
        BelowByParent(c, s);
        BelowByParent(c', s);
      }
      ActiveAre(c', active', log[1..], d);
    }
  }

  lemma {:induction false} OnlyExits(p: State, n: State)
    ensures forall a :: a in ExitLog(p, n) ==> a.Exit?
  {
    if !(p.Root? || Below(n, p)) {
      OnlyExits(p.parent, n);
    }
  }

  lemma {:induction false} OnlyEntries(n: State, p: State)
    ensures forall a :: a in EntryLog(n, p) ==> a.Enter?
  {
    forall i | n.Sub? && 0 <= i < |EntriesAbove(n.parent, p)| ensures EntriesAbove(n.parent, p)[i].Enter? {
      EntriesTopDown(n.parent, p, i);
    }
  }

  // The actions of a transition, its announcement aside, change no memory.
  lemma MovesRemembered(log: seq<Action>, p: State, n: State, t: State)
    ensures Remembered(log + Moves(p, n), t) == if Records(t, p) then Some(Recorded(t, p)) else Remembered(log, t)
  {
    var more, begun := ExitLog(p, n) + EntryLog(n, p), log + [Transition(p, n)];
    OnlyExits(p, n);
    OnlyEntries(n, p);
    assert log + Moves(p, n) == begun + more && begun[..|begun| - 1] == log;
    RememberedPast(begun, more, t);
  }

  // A memory begins empty, lasts while t is not initialized or left below, and
  // is gone after an initialization, unless that has parameters.
  lemma MemoryLasts(log: seq<Action>, t: State, more: seq<Action>)
    requires forall a :: a in more ==> Irrelevant(a, t)
    ensures Remembered(more, t) == None && Remembered(log + more, t) == Remembered(log, t)
    ensures Remembered(log + [Init(t, false)] + more, t) == Remembered(log + [Recall(t)] + more, t) == None
    ensures Remembered(log + [Init(t, true)] + more, t) == Remembered(log, t)
  {
    RememberedPast([], more, t);
    assert [] + more == more;
    RememberedPast(log, more, t);
    forall a: Action | a == Init(t, false) || a == Recall(t) || a == Init(t, true)
      ensures Remembered(log + [a] + more, t) == if a == Init(t, true) then Remembered(log, t) else None
    {
      RememberedPast(log + [a], more, t);
      assert (log + [a])[..|log|] == log;
    }
  }

  // Leaving p for a state q outside t, staying in q, and coming back to t:
  // t remembers p, or its own substate p was in.
  lemma HistoryReturns(log: seq<Action>, p: State, q: State, stay: seq<Action>, t: State)
    requires Records(t, p) && !Below(q, t)
      && forall a :: a in stay ==> (a.Init? || a.Handle? || a.Recall?) && a.s == q && q != t
    ensures Remembered(log + Moves(p, q) + stay + Moves(q, t), t) ==
      Some(if t.strategy == Deep then p else Toward(t, p))
  {
    MovesRemembered(log, p, q, t);
    RememberedPast(log + Moves(p, q), stay, t);
    MovesRemembered(log + Moves(p, q) + stay, q, t, t);
  }
}
