/** What the states of the two-level flow are, for patterns of any nodes, in the schedule's own terms. */
module Flows {
  import opened Options
  import opened Liveness

  // ----- one step -----

  /** A step is allowed when it spawns nothing that is live or that it kills, and kills only what is live;
      then what is live after it is what was or is spawned, and not killed. */
  ghost predicate Passes(live: set<Place>, kill: set<Place>, gen: set<Place>, next: set<Place>) {
    && (forall c :: c in gen ==> c !in kill && c !in live)
    && (forall c :: c in kill ==> c in live)
    && (forall c :: c in next <==> (c in live || c in gen) && c !in kill)
  }

  /** One of the three assertions fails. */
  ghost predicate Trips(live: set<Place>, kill: set<Place>, gen: set<Place>) {
    exists c :: (c in gen && (c in kill || c in live)) || (c in kill && c !in live)
  }

  lemma FlowStepIff(live: set<Place>, kill: set<Place>, gen: set<Place>)
    ensures FlowStep(live, kill, gen).None? <==> Trips(live, kill, gen)
    ensures FlowStep(live, kill, gen).Some? ==> Passes(live, kill, gen, FlowStep(live, kill, gen).value)
  {
    if c :| (c in gen && (c in kill || c in live)) || (c in kill && c !in live) {
      assert c in gen * kill || c in gen * live || c in kill - live;
    }
    if gen * kill != {} {
      var c :| c in gen * kill;
      assert c in gen && c in kill;
    } else if gen * live != {} {
      var c :| c in gen * live;
      assert c in gen && c in live;
    } else if kill - live != {} {
      var c :| c in kill - live;
      assert c in kill && c !in live;
    }
  }

  // ----- inside a pattern -----

  ghost predicate InPattern(pattern: seq<Node>, name: string) {
    exists i :: 0 <= i < |pattern| && pattern[i].name == name
  }

  /** Some node of the pattern produces the tensor, and its users are not only nodes of the pattern, fewer than it has. */
  ghost predicate LeavesPattern(ctxt: Context, pattern: seq<Node>, t: string) {
    && (exists i :: 0 <= i < |pattern| && t in pattern[i].outputs)
    && !(|Users(ctxt, t)| < |pattern| && forall u :: u in Users(ctxt, t) ==> InPattern(pattern, u))
  }

  /** The last of the tensor's users that is in the pattern is this node. */
  ghost predicate LastInPattern(ctxt: Context, pattern: seq<Node>, t: string, name: string) {
    exists p :: 0 <= p < |Users(ctxt, t)| && Users(ctxt, t)[p] == name && InPattern(pattern, name)
                && forall q :: p < q < |Users(ctxt, t)| ==> !InPattern(pattern, Users(ctxt, t)[q])
  }

  ghost predicate NoUserInPattern(ctxt: Context, pattern: seq<Node>, t: string) {
    forall p :: 0 <= p < |Users(ctxt, t)| ==> !InPattern(pattern, Users(ctxt, t)[p])
  }

  lemma InPatternIff(pattern: seq<Node>, name: string)
    ensures InPattern(pattern, name) <==> name in NodeNames(pattern)
  {
    if i :| 0 <= i < |pattern| && pattern[i].name == name { assert NodeNames(pattern)[i] == name; }
  }

  lemma LeavesPatternIff(ctxt: Context, pattern: seq<Node>, t: string)
    ensures LeavesPattern(ctxt, pattern, t) <==> t in PatternOutputs(ctxt, NodeNames(pattern), pattern)
  {
    PatternOutputsIff(ctxt, NodeNames(pattern), pattern, t);
    forall u ensures InPattern(pattern, u) <==> u in NodeNames(pattern) { InPatternIff(pattern, u); }
    assert |NodeNames(pattern)| == |pattern|;
  }

  ghost predicate LastAt(users: seq<string>, names: seq<string>, p: nat) {
    p < |users| && users[p] in names && forall q :: p < q < |users| ==> users[q] !in names
  }

  lemma LastAtMore(users: seq<string>, names: seq<string>, p: nat)
    requires users != [] && users[|users| - 1] !in names && LastAt(users[..|users| - 1], names, p)
    ensures LastAt(users, names, p) && users[..|users| - 1][p] == users[p]
  {
    var before := users[..|users| - 1];
    forall q | p < q < |users| ensures users[q] !in names {
      if q < |before| { assert before[q] == users[q]; }
    }
  }

  /** The last of the users among these names. */
  lemma {:induction false} LastAmong(users: seq<string>, names: seq<string>) returns (p: nat)
    ensures Among(users, names) != [] ==> LastAt(users, names, p) && Among(users, names)[|Among(users, names)| - 1] == users[p]
  {
    hide LastAt;
    p := 0;
    if users != [] {
      var l := |users| - 1;
      if users[l] in names {
        p := l;
        assert LastAt(users, names, l) by { LastIsLast(users, names); }
      } else {
        p := LastAmong(users[..l], names);
        assert Among(users, names) == Among(users[..l], names);
        if Among(users, names) != [] { LastAtMore(users, names, p); }
      }
    }
  }

  lemma LastIsLast(users: seq<string>, names: seq<string>)
    requires users != [] && users[|users| - 1] in names
    ensures LastAt(users, names, |users| - 1)
  {
  }

  lemma NoneAmong(users: seq<string>, names: seq<string>)
    ensures Among(users, names) == [] <==> forall q :: 0 <= q < |users| ==> users[q] !in names
  {
    if q :| 0 <= q < |users| && users[q] in names { assert users[q] in Among(users, names); }
    if Among(users, names) != [] {
      var u := Among(users, names)[0];
      assert u in Among(users, names);
      assert u in users && u in names;
    }
  }

  lemma LastUserMeans(ctxt: Context, pattern: seq<Node>, t: string, name: string)
    ensures Among(Users(ctxt, t), NodeNames(pattern)) == [] <==> NoUserInPattern(ctxt, pattern, t)
    ensures Among(Users(ctxt, t), NodeNames(pattern)) != [] ==> (LastUser(ctxt, pattern, t) == name <==> LastInPattern(ctxt, pattern, t, name))
  {
    var users, names := Users(ctxt, t), NodeNames(pattern);
    var p := LastAmong(users, names);
    NoneAmong(users, names);
    forall u ensures InPattern(pattern, u) <==> u in names { InPatternIff(pattern, u); }
    if Among(users, names) != [] && LastInPattern(ctxt, pattern, t, name) {
      var q :| 0 <= q < |users| && users[q] == name && InPattern(pattern, name) && forall i :: q < i < |users| ==> !InPattern(pattern, users[i]);
      assert users[p] in names && users[q] in names && p == q;
    }
  }

  /** A step kills the tensors it reads and is the last in the pattern to use, unless they leave it. */
  lemma KillSetIff(ctxt: Context, pattern: seq<Node>, target: Target, step: Node, c: Place)
    ensures KillSet(ctxt, pattern, target, step).None? <==>
      exists t :: t in step.inputs && !LeavesPattern(ctxt, pattern, t) && NoUserInPattern(ctxt, pattern, t)
    ensures KillSet(ctxt, pattern, target, step).Some? ==>
      (c in KillSet(ctxt, pattern, target, step).value <==> KilledBy(ctxt, pattern, target, step, c))
  {
    hide Without, PatternOutputs, LeavesPattern, NoUserInPattern, LastInPattern, LastUser, Among;
    var outputs := PatternOutputs(ctxt, NodeNames(pattern), pattern);
    var kept := Without(step.inputs, outputs);
    forall t
      ensures t in kept <==> t in step.inputs && !LeavesPattern(ctxt, pattern, t)
      ensures Among(Users(ctxt, t), NodeNames(pattern)) == [] <==> NoUserInPattern(ctxt, pattern, t)
      ensures Among(Users(ctxt, t), NodeNames(pattern)) != [] ==> (LastUser(ctxt, pattern, t) == step.name <==> LastInPattern(ctxt, pattern, t, step.name))
    {
      WithoutMembers(step.inputs, outputs, t);
      LeavesPatternIff(ctxt, pattern, t);
      LastUserMeans(ctxt, pattern, t, step.name);
    }
  }

  ghost predicate KilledBy(ctxt: Context, pattern: seq<Node>, target: Target, step: Node, c: Place) {
    && c.tensorName in step.inputs && c.level == target(step.name, c.tensorName)
    && !LeavesPattern(ctxt, pattern, c.tensorName) && LastInPattern(ctxt, pattern, c.tensorName, step.name)
  }

  /** A node of the pattern takes its outputs in and what it kills out. */
  ghost predicate PatternStep(ctxt: Context, pattern: seq<Node>, target: Target, i: nat, s: FlowState, next: set<Place>)
    requires i < |pattern|
  {
    && (forall c :: c in s.genSet <==> c.tensorName in pattern[i].outputs && c.level == target(pattern[i].name, c.tensorName))
    && (forall c :: c in s.killSet <==> KilledBy(ctxt, pattern, target, pattern[i], c))
    && Passes(s.liveSet, s.killSet, s.genSet, next)
  }

  /** The node reads a tensor that does not leave the pattern and has no user in it, or trips an assertion. */
  ghost predicate PatternStuck(ctxt: Context, pattern: seq<Node>, target: Target, i: nat, s: FlowState)
    requires i < |pattern|
  {
    || (exists t :: t in pattern[i].inputs && !LeavesPattern(ctxt, pattern, t) && NoUserInPattern(ctxt, pattern, t))
    || ((forall c :: c in s.genSet <==> c.tensorName in pattern[i].outputs && c.level == target(pattern[i].name, c.tensorName))
        && (forall c :: c in s.killSet <==> KilledBy(ctxt, pattern, target, pattern[i], c))
        && Trips(s.liveSet, s.killSet, s.genSet))
  }

  /** The first states of a pattern's flow from node i on, each the result of the node before. */
  ghost predicate PatternRun(ctxt: Context, pattern: seq<Node>, target: Target, live: set<Place>, i: nat, states: seq<FlowState>)
    requires i <= |pattern|
  {
    && states != [] && |states| <= |pattern| - i + 1 && states[0].liveSet == live
    && forall j :: 0 <= j < |states| - 1 ==> PatternStep(ctxt, pattern, target, i + j, states[j], states[j + 1].liveSet)
  }

  /** The flow through a pattern runs to the end, or is stuck at one of its nodes. */
  lemma {:induction false} PatternFromMeans(ctxt: Context, pattern: seq<Node>, target: Target, live: set<Place>, i: nat)
    requires i <= |pattern|
    ensures var r := PatternFrom(ctxt, pattern, target, live, i);
      && (r.Some? ==> PatternRun(ctxt, pattern, target, live, i, r.value) && |r.value| == |pattern| - i + 1)
      && (r.None? ==> exists states :: PatternRun(ctxt, pattern, target, live, i, states) && |states| <= |pattern| - i
                                       && PatternStuck(ctxt, pattern, target, i + |states| - 1, states[|states| - 1]))
    decreases |pattern| - i
  {
    hide KillSet, FlowStep, Places, PatternStep, PatternStuck;
    if i < |pattern| {
      var gen := Places(pattern[i].outputs, pattern[i].name, target);
      var killed := KillSet(ctxt, pattern, target, pattern[i]);
      var first := FlowState(live, if killed.Some? then killed.value else {}, gen);
      NodeMeans(ctxt, pattern, target, live, i);
      if killed.None? || FlowStep(live, killed.value, gen).None? {
        assert PatternRun(ctxt, pattern, target, live, i, [first]);
      } else {
        var next := FlowStep(live, killed.value, gen).value;
        PatternFromMeans(ctxt, pattern, target, next, i + 1);
        var rest := PatternFrom(ctxt, pattern, target, next, i + 1);
        if rest.Some? {
          RunOneMore(ctxt, pattern, target, live, i, first, rest.value);
        } else {
          var states :| PatternRun(ctxt, pattern, target, next, i + 1, states) && |states| <= |pattern| - i - 1
            && PatternStuck(ctxt, pattern, target, i + 1 + |states| - 1, states[|states| - 1]);
          RunOneMore(ctxt, pattern, target, live, i, first, states);
          assert ([first] + states)[|states|] == states[|states| - 1];
        }
      }
    }
  }

  lemma NodeMeans(ctxt: Context, pattern: seq<Node>, target: Target, live: set<Place>, i: nat)
    requires i < |pattern|
    ensures var gen, killed := Places(pattern[i].outputs, pattern[i].name, target), KillSet(ctxt, pattern, target, pattern[i]);
      var kill := if killed.Some? then killed.value else {};
      var next := FlowStep(live, kill, gen);
      if killed.None? || next.None? then PatternStuck(ctxt, pattern, target, i, FlowState(live, kill, gen))
      else PatternStep(ctxt, pattern, target, i, FlowState(live, kill, gen), next.value)
  {
    hide KillSet, KilledBy, LeavesPattern, NoUserInPattern, Passes, Trips, FlowStep;
    var gen, killed := Places(pattern[i].outputs, pattern[i].name, target), KillSet(ctxt, pattern, target, pattern[i]);
    KillSetIff(ctxt, pattern, target, pattern[i], Place("", ""));
    forall c | killed.Some? ensures c in killed.value <==> KilledBy(ctxt, pattern, target, pattern[i], c) {
      KillSetIff(ctxt, pattern, target, pattern[i], c);
    }
    FlowStepIff(live, if killed.Some? then killed.value else {}, gen);
    forall c ensures c in gen <==> c.tensorName in pattern[i].outputs && c.level == target(pattern[i].name, c.tensorName) {}
  }

  lemma RunOneMore(ctxt: Context, pattern: seq<Node>, target: Target, live: set<Place>, i: nat, first: FlowState, states: seq<FlowState>)
    requires i < |pattern| && first.liveSet == live && states != [] && PatternRun(ctxt, pattern, target, states[0].liveSet, i + 1, states)
    requires PatternStep(ctxt, pattern, target, i, first, states[0].liveSet)
    ensures PatternRun(ctxt, pattern, target, live, i, [first] + states)
  {
    hide PatternStep;
    var all := [first] + states;
    forall j | 0 <= j < |all| - 1 ensures PatternStep(ctxt, pattern, target, i + j, all[j], all[j + 1].liveSet) {
      if j > 0 { assert PatternStep(ctxt, pattern, target, i + 1 + (j - 1), states[j - 1], states[j].liveSet); }
    }
  }

  /** Live before a pattern: what the pattern before left, and the tensors that some node reads before the
      pattern produces them, where the pattern's users want them. */
  lemma PatternStartIff(ctxt: Context, pattern: seq<Node>, target: Target, initial: set<Place>, c: Place)
    ensures c in PatternStart(ctxt, pattern, target, initial) <==>
      c in initial ||
      ((exists i :: 0 <= i < |pattern| && ReadFirst(pattern, c.tensorName, i))
        && exists i :: 0 <= i < |pattern| && pattern[i].name in Users(ctxt, c.tensorName) && c.level == target(pattern[i].name, c.tensorName))
  {
    PatternInputsIff(pattern, c.tensorName);
    var inputs := PatternInputs(pattern);
    if c.tensorName in inputs {
      if i :| 0 <= i < |pattern| && pattern[i].name in Users(ctxt, c.tensorName) && c.level == target(pattern[i].name, c.tensorName) {
        assert c == Place(c.tensorName, target(pattern[i].name, c.tensorName));
      }
    }
  }

  // ----- over the schedule -----

  ghost predicate HomePlace(ctxt: Context, c: Place) {
    c.tensorName in ctxt && c.level == ctxt[c.tensorName].memoryLevel
  }

  /** Outside, a pattern spawns what it newly leaves live, and kills what it took in and uses last, unless
      constant; both at home. */
  lemma GraphSetsIff(ctxt: Context, step: seq<Node>, states: seq<FlowState>, c: Place)
    requires states != [] && c.tensorName in ctxt
    ensures c in GraphGen(ctxt, states) <==>
      HomePlace(ctxt, c) && exists p :: p in states[|states| - 1].liveSet && p !in states[0].liveSet && p.tensorName == c.tensorName
    ensures c in GraphKill(ctxt, states, step) <==>
      && HomePlace(ctxt, c) && !ctxt[c.tensorName].constant && (exists p :: p in states[0].liveSet && p.tensorName == c.tensorName)
      && ctxt[c.tensorName].users != [] && InPattern(step, ctxt[c.tensorName].users[|ctxt[c.tensorName].users| - 1])
  {
    if ctxt[c.tensorName].users != [] { InPatternIff(step, ctxt[c.tensorName].users[|ctxt[c.tensorName].users| - 1]); }
    if p :| p in states[|states| - 1].liveSet && p !in states[0].liveSet && p.tensorName == c.tensorName {
      assert p in states[|states| - 1].liveSet - states[0].liveSet;
    }
  }

  /** The outer states and the runs inside the patterns of a schedule. */
  ghost predicate GraphRun(ctxt: Context, schedule: seq<seq<Node>>, target: Target, inner: set<Place>, outer: set<Place>,
                           runs: seq<seq<FlowState>>, states: seq<FlowState>) {
    && |runs| == |schedule| && |states| == |schedule| + 1 && states[0].liveSet == outer
    && states[|schedule|].killSet == {} == states[|schedule|].genSet
    && forall k :: 0 <= k < |schedule| ==>
         GraphStep(ctxt, schedule[k], target, InnerBefore(inner, runs, k), runs[k], states[k], states[k + 1].liveSet)
  }

  /** A pattern runs inside, and takes the outer flow one step on. */
  ghost predicate GraphStep(ctxt: Context, step: seq<Node>, target: Target, before: set<Place>, run: seq<FlowState>, state: FlowState,
                            next: set<Place>) {
    && PatternRun(ctxt, step, target, PatternStart(ctxt, step, target, before), 0, run) && |run| == |step| + 1
    && state.genSet == GraphGen(ctxt, run) && state.killSet == GraphKill(ctxt, run, step)
    && Passes(state.liveSet, state.killSet, state.genSet, next)
  }

  /** What the pattern before the k-th left live inside. */
  ghost function InnerBefore(inner: set<Place>, runs: seq<seq<FlowState>>, k: nat): set<Place>
    requires k <= |runs|
  {
    if k == 0 then inner else if runs[k - 1] == [] then {} else runs[k - 1][|runs[k - 1]| - 1].liveSet
  }

  /** Over any schedule of any patterns, the states are those of such runs. */
  lemma {:induction false} GraphFromMeans(ctxt: Context, schedule: seq<seq<Node>>, target: Target, inner: set<Place>, outer: set<Place>)
    returns (runs: seq<seq<FlowState>>)
    ensures var r := GraphFrom(ctxt, schedule, target, inner, outer);
      r.Some? ==> GraphRun(ctxt, schedule, target, inner, outer, runs, r.value)
    decreases |schedule|
  {
    hide PatternStart, GraphGen, GraphKill, Passes, PatternRun, GraphRun, FlowStep, PatternFrom;
    runs := [];
    var r := GraphFrom(ctxt, schedule, target, inner, outer);
    if schedule == [] {
      NoPattern(ctxt, target, inner, outer);
    } else if r.Some? {
      var start := PatternStart(ctxt, schedule[0], target, inner);
      PatternFromMeans(ctxt, schedule[0], target, start, 0);
      var ps := PatternFrom(ctxt, schedule[0], target, start, 0).value;
      var kill, gen := GraphKill(ctxt, ps, schedule[0]), GraphGen(ctxt, ps);
      FlowStepIff(outer, kill, gen);
      var left, next := ps[|ps| - 1].liveSet, FlowStep(outer, kill, gen).value;
      var rest := GraphFromMeans(ctxt, schedule[1..], target, left, next);
      var tail := GraphFrom(ctxt, schedule[1..], target, left, next).value;
      runs := [ps] + rest;
      OnePatternMore(ctxt, schedule, target, inner, outer, ps, rest, next, tail);
    }
  }

  lemma NoPattern(ctxt: Context, target: Target, inner: set<Place>, outer: set<Place>)
    ensures GraphRun(ctxt, [], target, inner, outer, [], [FlowState(outer, {}, {})])
  {
  }

  lemma OnePatternMore(ctxt: Context, schedule: seq<seq<Node>>, target: Target, inner: set<Place>, outer: set<Place>,
                       ps: seq<FlowState>, rest: seq<seq<FlowState>>, next: set<Place>, tail: seq<FlowState>)
    requires schedule != [] && PatternRun(ctxt, schedule[0], target, PatternStart(ctxt, schedule[0], target, inner), 0, ps)
    requires |ps| == |schedule[0]| + 1 && GraphRun(ctxt, schedule[1..], target, ps[|ps| - 1].liveSet, next, rest, tail)
    requires Passes(outer, GraphKill(ctxt, ps, schedule[0]), GraphGen(ctxt, ps), next)
    ensures GraphRun(ctxt, schedule, target, inner, outer, [ps] + rest,
                     [FlowState(outer, GraphKill(ctxt, ps, schedule[0]), GraphGen(ctxt, ps))] + tail)
  {
    var runs, left := [ps] + rest, ps[|ps| - 1].liveSet;
    var states := [FlowState(outer, GraphKill(ctxt, ps, schedule[0]), GraphGen(ctxt, ps))] + tail;
    assert GraphStep(ctxt, schedule[0], target, inner, ps, states[0], next);
    hide GraphStep, PatternStart, GraphGen, GraphKill, Passes, PatternRun;
    forall k | 0 <= k < |schedule|
      ensures GraphStep(ctxt, schedule[k], target, InnerBefore(inner, runs, k), runs[k], states[k], states[k + 1].liveSet)
    {
      if k > 0 {
        assert GraphStep(ctxt, schedule[1..][k - 1], target, InnerBefore(left, rest, k - 1), rest[k - 1], tail[k - 1], tail[k].liveSet);
        assert InnerBefore(inner, runs, k) == InnerBefore(left, rest, k - 1);
      }
    }
  }

  /** Behind some first patterns that run, the next one is stuck or trips an assertion outside. */
  ghost predicate StuckBehind(ctxt: Context, schedule: seq<seq<Node>>, target: Target, inner: set<Place>, outer: set<Place>,
                              runs: seq<seq<FlowState>>, states: seq<FlowState>) {
    && |runs| < |schedule| && |states| == |runs| + 1
    && GraphRun(ctxt, schedule[..|runs|], target, inner, outer, runs, states)
    && var step := schedule[|runs|];
       match PatternFrom(ctxt, step, target, PatternStart(ctxt, step, target, InnerBefore(inner, runs, |runs|)), 0)
       case None => true
       case Some(ps) => ps != [] && Trips(states[|runs|].liveSet, GraphKill(ctxt, ps, step), GraphGen(ctxt, ps))
  }

  /** When the flow over a schedule fails, it is at such a pattern. */
  lemma {:induction false} GraphFromFails(ctxt: Context, schedule: seq<seq<Node>>, target: Target, inner: set<Place>, outer: set<Place>)
    returns (runs: seq<seq<FlowState>>, states: seq<FlowState>)
    requires GraphFrom(ctxt, schedule, target, inner, outer).None?
    ensures StuckBehind(ctxt, schedule, target, inner, outer, runs, states)
    decreases |schedule|
  {
    hide PatternStart, GraphGen, GraphKill, Passes, Trips, PatternRun, FlowStep, PatternFrom, GraphRun;
    var start := PatternStart(ctxt, schedule[0], target, inner);
    var first := PatternFrom(ctxt, schedule[0], target, start, 0);
    PatternFromMeans(ctxt, schedule[0], target, start, 0);
    NoPattern(ctxt, target, inner, outer);
    assert schedule[..0] == [];
    runs, states := [], [FlowState(outer, {}, {})];
    if first.Some? {
      var ps := first.value;
      HasStates(ctxt, schedule[0], target, start, ps);
      var kill, gen := GraphKill(ctxt, ps, schedule[0]), GraphGen(ctxt, ps);
      FlowStepIff(outer, kill, gen);
      if FlowStep(outer, kill, gen).Some? {
        var left, next := ps[|ps| - 1].liveSet, FlowStep(outer, kill, gen).value;
        var rest, tail := GraphFromFails(ctxt, schedule[1..], target, left, next);
        assert schedule[..|rest| + 1][0] == schedule[0] && schedule[..|rest| + 1][1..] == schedule[1..][..|rest|];
        OnePatternMore(ctxt, schedule[..|rest| + 1], target, inner, outer, ps, rest, next, tail);
        runs, states := [ps] + rest, [FlowState(outer, kill, gen)] + tail;
        assert InnerBefore(inner, runs, |runs|) == InnerBefore(left, rest, |rest|) && schedule[|runs|] == schedule[1..][|rest|];
      }
    }
  }

  lemma HasStates(ctxt: Context, pattern: seq<Node>, target: Target, live: set<Place>, ps: seq<FlowState>)
    requires PatternRun(ctxt, pattern, target, live, 0, ps)
    ensures ps != [] && ps[0].liveSet == live
  {
  }
}
