// InitStageRegistry: numbers the registered stages in the order of their
// dependencies.

module InitStages {
  import opened Sequences

  class InitStage {
    const name: string
    var number: int
    var precedingStages: seq<InitStage>
    var followingStages: seq<InitStage>

    constructor (name: string)
      ensures this.name == name && number == -1 && precedingStages == [] && followingStages == []
    {
      this.name, number, precedingStages, followingStages := name, -1, [], [];
    }
  }

  // (source, target): the stage named source comes after the one named target.
  type Dependency = (string, string)

  datatype Outcome = Assigned | StageNotFound | CircleDetected

  // The position of the first stage of that name, or the number of stages.
  function Named(names: seq<string>, name: string): (i: nat)
    ensures i <= |names| && (i < |names| ==> names[i] == name) && forall j :: 0 <= j < i ==> names[j] != name
  {
    if names == [] || names[0] == name then 0 else 1 + Named(names[1..], name)
  }

  ghost predicate AllNamed(names: seq<string>, deps: seq<Dependency>) {
    forall d :: d in deps ==> Named(names, d.0) < |names| && Named(names, d.1) < |names|
  }

  // The stage at position i depends on the one at position j.
  ghost predicate After(names: seq<string>, deps: seq<Dependency>, i: nat, j: nat) {
    exists d :: d in deps && Named(names, d.0) == i && Named(names, d.1) == j
  }

  ghost predicate IsCycle(names: seq<string>, deps: seq<Dependency>, c: seq<nat>) {
    c != [] && After(names, deps, c[|c| - 1], c[0]) && IsChain(names, deps, c)
  }

  ghost predicate IsChain(names: seq<string>, deps: seq<Dependency>, c: seq<nat>) {
    forall k :: 0 <= k && k + 1 < |c| ==> Linked(names, deps, c, k)
  }

  ghost predicate Linked(names: seq<string>, deps: seq<Dependency>, c: seq<nat>, k: int)
    requires 0 <= k && k + 1 < |c|
  {
    After(names, deps, c[k], c[k + 1])
  }

  ghost predicate Cyclic(names: seq<string>, deps: seq<Dependency>) {
    exists c :: IsCycle(names, deps, c)
  }

  ghost predicate AfterOneOf(names: seq<string>, deps: seq<Dependency>, i: nat, u: set<nat>) {
    exists j :: j in u && After(names, deps, i, j)
  }

  // If every position in u depends on one in u, there is a cycle.
  lemma {:induction false} FindCycle(names: seq<string>, deps: seq<Dependency>, u: set<nat>, c: seq<nat>, met: set<nat>)
    requires forall i {:trigger AfterOneOf(names, deps, i, u)} :: i in u ==> AfterOneOf(names, deps, i, u)
    requires c != [] && IsChain(names, deps, c) && c[|c| - 1] in u && met <= u && forall i :: i in met <==> i in c
    ensures Cyclic(names, deps)
    decreases u - met
  {
    var last := c[|c| - 1];
    assert AfterOneOf(names, deps, last, u);
    var j: nat :| j in u && After(names, deps, last, j);
    if j in c {
      var k :| 0 <= k < |c| && c[k] == j;
      var cycle := c[k..];
      forall m | 0 <= m && m + 1 < |cycle| ensures Linked(names, deps, cycle, m) {
        assert Linked(names, deps, c, k + m);
      }
      assert IsCycle(names, deps, cycle);
    } else {
      var c' := c + [j];
      forall m | 0 <= m && m + 1 < |c'| ensures Linked(names, deps, c', m) {
        if m + 1 < |c| {
          assert Linked(names, deps, c, m);
        }
      }
      FindCycle(names, deps, u, c', met + {j});
    }
  }

  lemma StartsChain(names: seq<string>, deps: seq<Dependency>, a: nat)
    ensures IsChain(names, deps, [a])
  {}

  // Numbers that grow along the dependencies leave no cycle.
  ghost predicate Increasing(names: seq<string>, deps: seq<Dependency>, nums: seq<int>) {
    forall i: nat, j: nat :: After(names, deps, i, j) ==> i < |nums| && j < |nums| && nums[j] < nums[i]
  }

  lemma {:induction false} ChainDecreases(names: seq<string>, deps: seq<Dependency>, nums: seq<int>, c: seq<nat>)
    requires Increasing(names, deps, nums) && IsChain(names, deps, c) && c != []
    requires forall k :: 0 <= k < |c| ==> c[k] < |nums|
    ensures nums[c[|c| - 1]] <= nums[c[0]]
  {
    if |c| > 1 {
      var c' := c[..|c| - 1];
      forall k | 0 <= k && k + 1 < |c'| ensures Linked(names, deps, c', k) {
        assert Linked(names, deps, c, k);
      }
      ChainDecreases(names, deps, nums, c');
      assert Linked(names, deps, c, |c| - 2);
    }
  }

  lemma IncreasingAcyclic(names: seq<string>, deps: seq<Dependency>, nums: seq<int>)
    requires Increasing(names, deps, nums)
    ensures !Cyclic(names, deps)
  {
    if c :| IsCycle(names, deps, c) {
      forall k | 0 <= k < |c| ensures c[k] < |nums| {
        if k < |c| - 1 {
          assert Linked(names, deps, c, k);
        }
      }
      ChainDecreases(names, deps, nums, c);
      assert false;
    }
  }

  // ---- counting

  function Below(n: nat): (r: set<nat>)
    ensures |r| == n && forall i: nat :: i in r <==> i < n
  {
    if n == 0 then {}
    else
      var r := Below(n - 1);
      assert n - 1 !in r;
      r + {n - 1}
  }

  function Elements(s: seq<nat>): (r: set<nat>)
    ensures forall i :: i in r <==> i in s
  {
    if s == [] then {} else Elements(s[1..]) + {s[0]}
  }

  lemma {:induction false} DistinctCount(s: seq<nat>)
    requires NoRepeats(s)
    ensures |Elements(s)| == |s|
  {
    if s != [] {
      DistinctCount(s[1..]);
      assert s[0] !in s[1..];
    }
  }

  lemma {:induction false} SubsetCount(a: set<nat>, b: set<nat>)
    requires a <= b
    ensures |a| <= |b| && (|a| == |b| ==> a == b)
  {
    if x :| x in a {
      SubsetCount(a - {x}, b - {x});
    }
  }

  // Distinct numbers below n are at most n, and if they are n, they are all there is.
  lemma DistinctFit(s: seq<nat>, n: nat)
    requires NoRepeats(s) && forall i :: i in s ==> i < n
    ensures |s| <= n && (|s| == n ==> forall v :: 0 <= v < n ==> v in s)
  {
    DistinctCount(s);
    SubsetCount(Elements(s), Below(n));
    if |s| == n {
      assert Elements(s) == Below(n);
    }
  }

  // Increasing numbers below their count are their own positions.
  lemma {:induction false} Positions(s: seq<int>, k: nat)
    requires forall i, j :: 0 <= i < j < |s| ==> s[i] < s[j]
    requires forall i :: 0 <= i < |s| ==> 0 <= s[i] < |s|
    requires k < |s|
    ensures s[k] == k
  {
    AtLeast(s, k);
    AtMost(s, k);
  }

  lemma {:induction false} AtLeast(s: seq<int>, k: nat)
    requires forall i, j :: 0 <= i < j < |s| ==> s[i] < s[j]
    requires k < |s| && s[0] >= 0
    ensures s[k] >= k
  {
    if k > 0 {
      AtLeast(s, k - 1);
    }
  }

  lemma {:induction false} AtMost(s: seq<int>, k: nat)
    requires forall i, j :: 0 <= i < j < |s| ==> s[i] < s[j]
    requires k < |s| && s[|s| - 1] < |s|
    ensures s[k] <= k
    decreases |s| - k
  {
    if k < |s| - 1 {
      AtMost(s, k + 1);
    }
  }

  function NamesOf(stages: seq<InitStage>): (names: seq<string>)
    ensures |names| == |stages| && forall i :: 0 <= i < |stages| ==> names[i] == stages[i].name
  {
    seq(|stages|, i requires 0 <= i < |stages| => stages[i].name)
  }

  ghost function NumbersOf(stages: seq<InitStage>): (nums: seq<int>)
    reads stages
    ensures |nums| == |stages| && forall i :: 0 <= i < |stages| ==> nums[i] == stages[i].number
  {
    if stages == [] then [] else NumbersOf(stages[..|stages| - 1]) + [stages[|stages| - 1].number]
  }

  // s comes after p by one of the dependencies.
  ghost predicate Comes(stages: seq<InitStage>, deps: seq<Dependency>, s: InitStage, p: InitStage) {
    exists d :: d in deps && ByDependency(stages, d, s, p)
  }

  // s is the first stage of that name.
  ghost predicate FirstNamed(stages: seq<InitStage>, name: string, older s: InitStage) {
    exists i :: 0 <= i < |stages| && stages[i] == s && s.name == name && NoneNamed(stages[..i], name)
  }

  ghost predicate NoneNamed(stages: seq<InitStage>, name: string) {
    forall s :: s in stages ==> s.name != name
  }

  ghost predicate IsNamed(stages: seq<InitStage>, name: string) { exists s :: s in stages && s.name == name }

  lemma NamedIs(stages: seq<InitStage>, name: string)
    ensures Named(NamesOf(stages), name) < |stages| <==> IsNamed(stages, name)
    ensures forall s :: FirstNamed(stages, name, s) <==>
      Named(NamesOf(stages), name) < |stages| && s == stages[Named(NamesOf(stages), name)]
  {
    var i := Named(NamesOf(stages), name);
    if i < |stages| {
      assert stages[i].name == NamesOf(stages)[i] == name && stages[i] in stages;
    }
    if s :| s in stages && s.name == name {
      var j :| 0 <= j < |stages| && stages[j] == s;
      assert NamesOf(stages)[j] == name;
    }
    forall s ensures FirstNamed(stages, name, s) <==> i < |stages| && s == stages[i] {
      if k :| 0 <= k < |stages| && stages[k] == s && s.name == name && NoneNamed(stages[..k], name) {
        assert NamesOf(stages)[k] == name;
        assert forall j :: 0 <= j < k ==> stages[..k][j] in stages[..k] && stages[j].name != name;
      }
      if i < |stages| && s == stages[i] {
        forall x | x in stages[..i] ensures x.name != name {
          var j :| 0 <= j < i && stages[j] == x;
          assert NamesOf(stages)[j] == x.name;
        }
      }
    }
  }

  ghost predicate Known(stages: seq<InitStage>, deps: seq<Dependency>) {
    forall d :: d in deps ==> IsNamed(stages, d.0) && IsNamed(stages, d.1)
  }

  lemma KnownIs(stages: seq<InitStage>, deps: seq<Dependency>)
    ensures Known(stages, deps) <==> AllNamed(NamesOf(stages), deps)
  {
    forall d | d in deps
      ensures IsNamed(stages, d.0) && IsNamed(stages, d.1) <==>
        Named(NamesOf(stages), d.0) < |stages| && Named(NamesOf(stages), d.1) < |stages|
    {
      NamedIs(stages, d.0);
      NamedIs(stages, d.1);
    }
  }

  // The numbers grow along every dependency.
  ghost predicate Fulfilled(stages: seq<InitStage>, deps: seq<Dependency>)
    reads stages
  {
    forall d, s, p :: d in deps && FirstNamed(stages, d.0, s) && FirstNamed(stages, d.1, p) ==> p.number < s.number
  }

  ghost predicate ByDependency(stages: seq<InitStage>, d: Dependency, s: InitStage, p: InitStage) {
    var i, j := Named(NamesOf(stages), d.0), Named(NamesOf(stages), d.1);
    i < |stages| && j < |stages| && stages[i] == s && stages[j] == p
  }

  lemma ComesFulfilled(stages: seq<InitStage>, deps: seq<Dependency>)
    requires forall s, p :: s in stages && p in stages && Comes(stages, deps, s, p) ==> p.number < s.number
    ensures Fulfilled(stages, deps)
  {
    hide Named, NamesOf, FirstNamed, IsNamed;
    forall d, s, p | d in deps && FirstNamed(stages, d.0, s) && FirstNamed(stages, d.1, p) ensures p.number < s.number {
      NamedIs(stages, d.0);
      NamedIs(stages, d.1);
      assert ByDependency(stages, d, s, p);
    }
  }

  class InitStageRegistry {
    var numInitStages: int
    var stages: seq<InitStage>
    var dependencies: seq<Dependency>

    constructor ()
      ensures numInitStages == -1 && stages == [] && dependencies == []
    {
      numInitStages, stages, dependencies := -1, [], [];
    }

    method AddInitStage(initStage: InitStage)
      modifies this`stages, this`numInitStages
      ensures stages == old(stages) + [initStage] && numInitStages == -1
    {
      stages := stages + [initStage];
      numInitStages := -1;
    }

    method AddInitStageDependency(source: string, target: string)
      modifies this`dependencies, this`numInitStages
      ensures dependencies == old(dependencies) + [(source, target)] && numInitStages == -1
    {
      dependencies := dependencies + [(source, target)];
      numInitStages := -1;
    }

    method GetInitStage(name: string) returns (stage: InitStage?)
      ensures stage == null <==> Named(NamesOf(stages), name) == |stages|
      ensures stage != null ==> stage == stages[Named(NamesOf(stages), name)]
    {
      for i := 0 to |stages|
        invariant forall j :: 0 <= j < i ==> NamesOf(stages)[j] != name
      {
        if stages[i].name == name {
          return stages[i];
        }
      }
      return null;
    }

    // The stages know whom they follow, by the first n dependencies.
    ghost predicate Connected(n: nat)
      reads this`stages, this`dependencies, stages`precedingStages, stages`followingStages
      requires n <= |dependencies|
    {
      && (forall s, p :: s in stages && p in s.precedingStages ==> p in stages)
      && (forall s, p :: s in stages && p in stages ==> Know(s, p, Comes(stages, dependencies[..n], s, p)))
    }

    // Whether s and p both know that s comes after p.
    ghost predicate Know(s: InitStage, p: InitStage, after: bool)
      reads s`precedingStages, p`followingStages
    {
      (p in s.precedingStages <==> after) && (s in p.followingStages <==> after)
    }

    method Reset()
      modifies stages
      ensures Connected(0) && forall s :: s in stages ==> s.number == -1
    {
      for i := 0 to |stages|
        invariant forall j :: 0 <= j < i ==>
          stages[j].number == -1 && stages[j].precedingStages == [] && stages[j].followingStages == []
      {
        stages[i].number := -1;
        stages[i].followingStages := [];
        stages[i].precedingStages := [];
      }
    }

    // Enters the n-th dependency, if both its names are known.
    method ConnectOne(n: nat) returns (found: bool)
      requires n < |dependencies| && Connected(n)
      modifies stages`precedingStages, stages`followingStages
      ensures found <==>
        Named(NamesOf(stages), dependencies[n].0) < |stages| && Named(NamesOf(stages), dependencies[n].1) < |stages|
      ensures found ==> Connected(n + 1)
    {
      hide Comes, ByDependency, Named, NamesOf;
      var d := dependencies[n];
      var following := GetInitStage(d.0);
      var preceding := GetInitStage(d.1);
      if following == null || preceding == null {
        return false;
      }
      assert dependencies[..n + 1] == dependencies[..n] + [d];
      OneMoreComes(dependencies[..n], d, following, preceding);
      preceding.followingStages := preceding.followingStages + [following];
      following.precedingStages := following.precedingStages + [preceding];
      forall s, p | s in stages && p in stages ensures Know(s, p, Comes(stages, dependencies[..n + 1], s, p)) {
        assert old(Know(s, p, Comes(stages, dependencies[..n], s, p)));
      }
      found := true;
    }

    lemma OneMoreComes(deps: seq<Dependency>, d: Dependency, following: InitStage, preceding: InitStage)
      requires var i, j := Named(NamesOf(stages), d.0), Named(NamesOf(stages), d.1);
        i < |stages| && j < |stages| && stages[i] == following && stages[j] == preceding
      ensures following in stages && preceding in stages
      ensures forall s, p :: s in stages && p in stages ==>
        (Comes(stages, deps + [d], s, p) <==> Comes(stages, deps, s, p) || (s == following && p == preceding))
    {
      hide Named, NamesOf;
      forall s, p | s in stages && p in stages
        ensures Comes(stages, deps + [d], s, p) <==> Comes(stages, deps, s, p) || (s == following && p == preceding)
      {
        OneMore(stages, deps, d, s, p);
      }
    }

    method Connect() returns (found: bool)
      modifies stages
      ensures found <==> AllNamed(NamesOf(stages), dependencies)
      ensures found ==> Connected(|dependencies|) && forall s :: s in stages ==> s.number == -1
    {
      Reset();
      hide Connected;
      for n := 0 to |dependencies|
        invariant AllNamed(NamesOf(stages), dependencies[..n]) && Connected(n)
        invariant forall s :: s in stages ==> s.number == -1
      {
        assert dependencies[n] in dependencies && dependencies[..n + 1] == dependencies[..n] + [dependencies[n]];
        found := ConnectOne(n);
        if !found {
          return;
        }
      }
      assert dependencies[..|dependencies|] == dependencies;
      found := true;
    }

    // n stages are numbered, the k-th of them is stages[order[k]], and each
    // comes after those before it.
    ghost predicate Numbered(n: int, order: seq<nat>)
      reads this, stages
    {
      && |order| == n
      && (forall k :: 0 <= k < n ==> order[k] < |stages| && stages[order[k]].number == k)
      && (forall s :: s in stages ==> -1 <= s.number < n && (s.number >= 0 ==> stages[order[s.number]] == s))
      && (forall s, p :: s in stages && s.number >= 0 && p in stages && p in s.precedingStages ==>
        0 <= p.number < s.number)
    }

    // s waits for another stage.
    predicate Waits(s: InitStage)
      reads s, s.precedingStages
    {
      exists p :: p in s.precedingStages && p.number == -1
    }

    method IsWaiting(s: InitStage) returns (waits: bool)
      ensures waits <==> Waits(s)
    {
      for j := 0 to |s.precedingStages|
        invariant forall m :: 0 <= m < j ==> s.precedingStages[m].number != -1
      {
        if s.precedingStages[j].number == -1 {
          return true;
        }
      }
      return false;
    }

    // One pass over the stages.
    method Pass(ghost order: seq<nat>) returns (progress: bool, ghost order': seq<nat>)
      requires Connected(|dependencies|) && Numbered(numInitStages, order)
      modifies this`numInitStages, stages`number
      ensures Connected(|dependencies|) && Numbered(numInitStages, order')
      ensures numInitStages >= old(numInitStages) && (progress ==> numInitStages > old(numInitStages))
      ensures !progress ==>
        numInitStages == old(numInitStages)
        && forall s :: s in stages ==> s.number == old(s.number) && (s.number == -1 ==> Waits(s))
    {
      hide Connected, Numbered, Waits;
      progress, order' := false, order;
      for i := 0 to |stages|
        invariant Connected(|dependencies|) && Numbered(numInitStages, order')
        invariant numInitStages >= old(numInitStages) && (progress ==> numInitStages > old(numInitStages))
        invariant !progress ==>
          numInitStages == old(numInitStages) && forall s :: s in stages ==> s.number == old(s.number)
        invariant !progress ==> forall j :: 0 <= j < i && stages[j].number == -1 ==> Waits(stages[j])
      {
        var stage := stages[i];
        if stage.number == -1 {
          var waits := IsWaiting(stage);
          if !waits {
            Number(stage, i, order');
            order' := order' + [i];
            progress := true;
          }
        }
      }
    }

    // Stage i gets the next number.
    method Number(stage: InitStage, ghost i: nat, ghost order: seq<nat>)
      requires Connected(|dependencies|) && Numbered(numInitStages, order)
      requires i < |stages| && stages[i] == stage && stage.number == -1 && !Waits(stage)
      modifies this`numInitStages, stage`number
      ensures Connected(|dependencies|) && Numbered(numInitStages, order + [i])
        && numInitStages == old(numInitStages) + 1
      ensures stage.number == old(numInitStages)
    {
      stage.number := numInitStages;
      numInitStages := numInitStages + 1;
    }

    // When as many numbers are given as there are stages, all have one.
    lemma AllNumbered(n: nat, order: seq<nat>)
      requires Numbered(n, order) && n >= |stages|
      ensures n == |stages| && NoRepeats(stages) && forall s :: s in stages ==> s.number >= 0
    {
      assert NoRepeats(order) by {
        forall k, m | 0 <= k < m < |order| ensures order[k] != order[m] {
          assert stages[order[k]].number == k && stages[order[m]].number == m;
        }
      }
      DistinctFit(order, |stages|);
      forall i | 0 <= i < |stages| ensures stages[i].number >= 0 && order[stages[i].number] == i {
        assert i in order;
        var k :| 0 <= k < |order| && order[k] == i;
        assert stages[order[k]].number == k;
      }
    }

    lemma NumberedAcyclic(n: nat, order: seq<nat>)
      requires Connected(|dependencies|) && AllNamed(NamesOf(stages), dependencies) && Numbered(n, order)
      requires forall s :: s in stages ==> s.number >= 0
      ensures !Cyclic(NamesOf(stages), dependencies)
    {
      var nums := NumbersOf(stages);
      assert dependencies[..|dependencies|] == dependencies;
      forall i: nat, j: nat | After(NamesOf(stages), dependencies, i, j)
        ensures i < |nums| && j < |nums| && nums[j] < nums[i]
      {
        var d :| d in dependencies && Named(NamesOf(stages), d.0) == i && Named(NamesOf(stages), d.1) == j;
        assert ByDependency(stages, d, stages[i], stages[j]);
        assert Know(stages[i], stages[j], Comes(stages, dependencies, stages[i], stages[j]));
      }
      IncreasingAcyclic(NamesOf(stages), dependencies, nums);
    }

    // If every stage without a number waits for another, either there is a
    // cycle, or all have numbers and some stage is registered twice.
    lemma Stuck(n: nat, order: seq<nat>)
      requires Connected(|dependencies|) && AllNamed(NamesOf(stages), dependencies) && Numbered(n, order)
        && n < |stages|
      requires forall s :: s in stages && s.number == -1 ==> Waits(s)
      ensures Cyclic(NamesOf(stages), dependencies) || !NoRepeats(stages)
    {
      if s :| s in stages && s.number == -1 {
        WaitingCycle(s);
      } else if NoRepeats(stages) {
        EnoughNumbers(n, order);
        assert false;
      }
    }

    lemma WaitingCycle(s: InitStage)
      requires Connected(|dependencies|) && s in stages && s.number == -1
      requires forall s :: s in stages && s.number == -1 ==> Waits(s)
      ensures Cyclic(NamesOf(stages), dependencies)
    {
      hide Connected, Waits, After, Named, Cyclic, IsChain, Unnumbered, AfterOneOf;
      var names := NamesOf(stages);
      var u := Unnumbered();
      var a, b := WaitsFor(s);
      IsUnnumbered(a);
      forall i: nat | i in u ensures AfterOneOf(names, dependencies, i, u) {
        WaitsForOne(i);
      }
      StartsChain(names, dependencies, a);
      FindCycle(names, dependencies, u, [a], {a});
    }

    // The first positions of the unnumbered stages.
    ghost function Unnumbered(): set<nat>
      reads this`stages, stages`number
    {
      set i: nat | i < |stages| && stages[i].number == -1 && Named(NamesOf(stages), stages[i].name) == i
    }

    lemma IsUnnumbered(i: nat)
      ensures i in Unnumbered() <==>
        i < |stages| && stages[i].number == -1 && Named(NamesOf(stages), stages[i].name) == i
    {}

    lemma WaitsForOne(i: nat)
      requires Connected(|dependencies|) && i in Unnumbered()
      requires forall s :: s in stages && s.number == -1 ==> Waits(s)
      ensures AfterOneOf(NamesOf(stages), dependencies, i, Unnumbered())
    {
      hide Connected, Waits, After, Named, NamesOf, Unnumbered;
      IsUnnumbered(i);
      var a, b := WaitsFor(stages[i]);
      IsUnnumbered(b);
    }

    lemma EnoughNumbers(n: nat, order: seq<nat>)
      requires Numbered(n, order) && NoRepeats(stages) && forall s :: s in stages ==> s.number != -1
      ensures n >= |stages|
    {
      var nums := NumbersOf(stages);
      assert forall i :: 0 <= i < |nums| ==>
        stages[i] in stages && 0 <= nums[i] < n && stages[order[nums[i]]] == stages[i];
      var numbers: seq<nat> := nums;
      DistinctFit(numbers, n);
    }

    // The first positions of a waiting stage and of one it waits for.
    lemma WaitsFor(s: InitStage) returns (a: nat, b: nat)
      requires Connected(|dependencies|) && s in stages && Waits(s)
      ensures After(NamesOf(stages), dependencies, a, b) && a < |stages| && b < |stages| && stages[a] == s
        && stages[b].number == -1
      ensures Named(NamesOf(stages), s.name) == a && Named(NamesOf(stages), stages[b].name) == b
    {
      var p :| p in s.precedingStages && p.number == -1;
      assert Know(s, p, Comes(stages, dependencies[..|dependencies|], s, p));
      assert dependencies[..|dependencies|] == dependencies;
      var d :| d in dependencies && ByDependency(stages, d, s, p);
      a, b := Named(NamesOf(stages), d.0), Named(NamesOf(stages), d.1);
    }

    // The stages in the order of their numbers (std::sort).
    method Sort() returns (sorted: seq<InitStage>)
      ensures multiset(sorted) == multiset(stages) && InOrder(sorted)
    {
      sorted := [];
      for i := 0 to |stages|
        invariant multiset(sorted) == multiset(stages[..i]) && InOrder(sorted)
      {
        var s := stages[i];
        var k := |sorted|;
        while k > 0 && sorted[k - 1].number > s.number
          invariant 0 <= k <= |sorted| && forall j :: k <= j < |sorted| ==> sorted[j].number > s.number
        {
          k := k - 1;
        }
        assert stages[..i + 1] == stages[..i] + [s];
        Inserted(sorted, s, k);
        InsertedMultiset(sorted, s, k);
        sorted := sorted[..k] + [s] + sorted[k..];
      }
      assert stages[..|stages|] == stages;
    }

    // Numbers the stages so that each comes after those it depends on, and
    // puts them in this order, unless the dependencies make that impossible.
    method AssignInitStageNumbers() returns (outcome: Outcome)
      modifies this`numInitStages, this`stages, stages
      ensures outcome == StageNotFound <==> !Known(old(stages), dependencies)
      ensures outcome == CircleDetected <==>
        Known(old(stages), dependencies) && (Cyclic(NamesOf(old(stages)), dependencies) || !NoRepeats(old(stages)))
      ensures outcome != Assigned ==> stages == old(stages)
      ensures outcome == StageNotFound ==> numInitStages == old(numInitStages)
      ensures outcome == CircleDetected ==> 0 <= numInitStages < |stages|
      ensures outcome == Assigned ==> numInitStages == |stages| && multiset(stages) == multiset(old(stages))
      ensures outcome == Assigned ==> forall k :: 0 <= k < |stages| ==> stages[k].number == k
      ensures outcome == Assigned ==> Fulfilled(old(stages), dependencies)
    {
      KnownIs(stages, dependencies);
      hide Known, Fulfilled;
      var found := Connect();
      if !found {
        return StageNotFound;
      }
      var all;
      ghost var order;
      all, order := NumberAll();
      if !all {
        return CircleDetected;
      }
      NumberedAcyclic(numInitStages, order);
      Ordered(numInitStages, order);
      hide Connected, AllNamed, Cyclic, Comes;
      var sorted := Sort();
      SortedIsNumbered(stages, sorted);
      ComesFulfilled(stages, dependencies);
      stages := sorted;
      outcome := Assigned;
    }

    // The number of stages. Numbers are assigned only while there is no count:
    // after a circle was reported once, the partial count stands.
    method GetNumInitStages() returns (outcome: Outcome, n: int)
      modifies this`numInitStages, this`stages, stages
      ensures n == numInitStages
      ensures old(numInitStages) != -1 ==> outcome == Assigned && unchanged(this) && unchanged(stages)
      ensures old(numInitStages) == -1 ==>
        && (outcome == StageNotFound <==> !Known(old(stages), dependencies))
        && (outcome == CircleDetected <==>
          Known(old(stages), dependencies) && (Cyclic(NamesOf(old(stages)), dependencies) || !NoRepeats(old(stages))))
      ensures old(numInitStages) == -1 && outcome == Assigned ==>
        && n == |stages| && multiset(stages) == multiset(old(stages))
        && (forall k :: 0 <= k < |stages| ==> stages[k].number == k) && Fulfilled(old(stages), dependencies)
      ensures outcome != Assigned ==> stages == old(stages)
      ensures outcome == StageNotFound ==> n == -1
      ensures outcome == CircleDetected ==> 0 <= n < |stages|
    {
      hide *;
      outcome := Assigned;
      if numInitStages == -1 {
        outcome := AssignInitStageNumbers();
      }
      n := numInitStages;
    }

    // Passes over the stages until all are numbered, or no pass helps.
    method NumberAll() returns (all: bool, ghost order: seq<nat>)
      requires Connected(|dependencies|) && AllNamed(NamesOf(stages), dependencies)
        && forall s :: s in stages ==> s.number == -1
      modifies this`numInitStages, stages`number
      ensures Connected(|dependencies|) && Numbered(numInitStages, order)
      ensures all ==> numInitStages == |stages| && NoRepeats(stages) && forall s :: s in stages ==> s.number >= 0
      ensures !all ==> 0 <= numInitStages < |stages| && (Cyclic(NamesOf(stages), dependencies) || !NoRepeats(stages))
    {
      hide Connected, AllNamed, Cyclic, Comes, NoRepeats;
      numInitStages, order := 0, [];
      while numInitStages < |stages|
        invariant Connected(|dependencies|) && Numbered(numInitStages, order) && numInitStages >= 0
        decreases |stages| - numInitStages
      {
        all, order := Pass(order);
        if !all {
          Stuck(numInitStages, order);
          return;
        }
      }
      AllNumbered(numInitStages, order);
      all := true;
    }

    lemma Ordered(n: nat, order: seq<nat>)
      requires Connected(|dependencies|) && Numbered(n, order) && forall s :: s in stages ==> s.number >= 0
      ensures forall s, p :: s in stages && p in stages && Comes(stages, dependencies, s, p) ==> p.number < s.number
      ensures forall i, j :: 0 <= i < |stages| && 0 <= j < |stages| && stages[i].number == stages[j].number ==>
        stages[i] == stages[j]
    {
      assert dependencies[..|dependencies|] == dependencies;
      forall s, p | s in stages && p in stages && Comes(stages, dependencies, s, p) ensures p.number < s.number {
        assert Know(s, p, Comes(stages, dependencies, s, p));
      }
    }
  }

  ghost predicate InOrder(s: seq<InitStage>)
    reads s
  {
    forall i, j :: 0 <= i < j < |s| ==> s[i].number <= s[j].number
  }

  lemma SortedIsNumbered(stages: seq<InitStage>, sorted: seq<InitStage>)
    requires multiset(sorted) == multiset(stages) && InOrder(sorted) && NoRepeats(stages)
    requires forall s :: s in stages ==> 0 <= s.number < |stages|
    requires forall i, j :: 0 <= i < |stages| && 0 <= j < |stages| && stages[i].number == stages[j].number ==>
      stages[i] == stages[j]
    ensures |sorted| == |stages| && forall k :: 0 <= k < |sorted| ==> sorted[k].number == k
    ensures forall s :: s in sorted <==> s in stages
  {
    assert |sorted| == |multiset(sorted)| == |multiset(stages)| == |stages|;
    forall s ensures s in sorted <==> s in stages {
      assert s in multiset(sorted) <==> s in multiset(stages);
    }
    StillNoRepeats(stages, sorted);
    var nums := NumbersOf(sorted);
    forall i, j | 0 <= i < j < |nums| ensures nums[i] < nums[j] {
      assert sorted[i] in stages && sorted[j] in stages;
      var a, b :| 0 <= a < |stages| && 0 <= b < |stages| && stages[a] == sorted[i] && stages[b] == sorted[j];
    }
    forall k | 0 <= k < |sorted| ensures sorted[k].number == k {
      assert forall i :: 0 <= i < |nums| ==> sorted[i] in stages;
      Positions(nums, k);
    }
  }

  lemma Inserted(sorted: seq<InitStage>, s: InitStage, k: nat)
    requires InOrder(sorted) && k <= |sorted|
    requires (k > 0 ==> sorted[k - 1].number <= s.number)
      && (forall j :: k <= j < |sorted| ==> sorted[j].number > s.number)
    ensures InOrder(sorted[..k] + [s] + sorted[k..])
  {
    var r := sorted[..k] + [s] + sorted[k..];
    assert |r| == |sorted| + 1;
    forall i, j | 0 <= i < j < |r| ensures r[i].number <= r[j].number {
      InsertedAt(sorted, s, k, i, j);
    }
  }

  lemma InsertedMultiset(sorted: seq<InitStage>, s: InitStage, k: nat)
    requires k <= |sorted|
    ensures multiset(sorted[..k] + [s] + sorted[k..]) == multiset(sorted) + multiset{s}
  {
    assert sorted == sorted[..k] + sorted[k..];
  }

  lemma InsertedAt(sorted: seq<InitStage>, s: InitStage, k: nat, i: nat, j: nat)
    requires InOrder(sorted) && k <= |sorted| && i < j <= |sorted|
    requires (k > 0 ==> sorted[k - 1].number <= s.number)
      && (forall j :: k <= j < |sorted| ==> sorted[j].number > s.number)
    ensures var r := sorted[..k] + [s] + sorted[k..]; r[i].number <= r[j].number
  {
    if i < k <= j {
      OrderAt(sorted, i, k - 1);
    } else if i < k {
      OrderAt(sorted, i, j);
    } else if i > k {
      OrderAt(sorted, i - 1, j - 1);
    }
  }

  lemma OrderAt(s: seq<InitStage>, i: nat, j: nat)
    requires InOrder(s) && i <= j < |s|
    ensures s[i].number <= s[j].number
  {}

  lemma OneMore(stages: seq<InitStage>, deps: seq<Dependency>, d: Dependency, s: InitStage, p: InitStage)
    ensures Comes(stages, deps + [d], s, p) <==> Comes(stages, deps, s, p) || ByDependency(stages, d, s, p)
  {
    if e :| e in deps && ByDependency(stages, e, s, p) {
      assert e in deps + [d];
    }
    if ByDependency(stages, d, s, p) {
      assert d in deps + [d];
    }
  }
}