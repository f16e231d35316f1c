/** Gen/kill liveness at two levels: inside a pattern, and over the whole schedule. */
module Liveness {
  import opened Options

  datatype Node = Node(name: string, inputs: seq<string>, outputs: seq<string>)

  datatype Tensor = Tensor(users: seq<string>, constant: bool, memoryLevel: string)

  type Context = map<string, Tensor>

  /** A tensor in a memory level. */
  datatype Place = Place(tensorName: string, level: string)

  /** The level a node wants a tensor in. */
  type Target = (string, string) -> string

  datatype FlowState = FlowState(liveSet: set<Place>, killSet: set<Place>, genSet: set<Place>)

  function Users(ctxt: Context, t: string): seq<string> { if t in ctxt then ctxt[t].users else [] }

  predicate IsConstant(ctxt: Context, t: string) { t in ctxt && ctxt[t].constant }

  function Home(ctxt: Context, t: string): Place { Place(t, if t in ctxt then ctxt[t].memoryLevel else "") }

  // ----- one step -----

  /** The three assertions of a flow step. */
  predicate StepAllowed(live: set<Place>, kill: set<Place>, gen: set<Place>) {
    gen * kill == {} && gen * live == {} && kill - live == {}
  }

  function FlowStep(live: set<Place>, kill: set<Place>, gen: set<Place>): Option<set<Place>> {
    if StepAllowed(live, kill, gen) then Some((live + gen) - kill) else None
  }

  function Push(s: FlowState, rest: Option<seq<FlowState>>): Option<seq<FlowState>> {
    match rest case None => None case Some(r) => Some([s] + r)
  }

  // ----- inside a pattern -----

  function NodeNames(pattern: seq<Node>): seq<string> {
    seq(|pattern|, i requires 0 <= i < |pattern| => pattern[i].name)
  }

  /** _containsAll: false unless the second list is strictly shorter. */
  predicate ContainsAll(a: seq<string>, b: seq<string>) {
    |b| < |a| && forall x :: x in b ==> x in a
  }

  function Without(s: seq<string>, unwanted: seq<string>): seq<string> {
    if s == [] then []
    else Without(s[..|s| - 1], unwanted) + if s[|s| - 1] in unwanted then [] else [s[|s| - 1]]
  }

  function Produced(pattern: seq<Node>): seq<string> {
    if pattern == [] then [] else Produced(pattern[..|pattern| - 1]) + pattern[|pattern| - 1].outputs
  }

  /** Inputs of the pattern that no earlier node of it produced. */
  function PatternInputs(pattern: seq<Node>): seq<string> {
    if pattern == [] then []
    else PatternInputs(pattern[..|pattern| - 1]) + Without(pattern[|pattern| - 1].inputs, Produced(pattern[..|pattern| - 1]))
  }

  function Leaving(ctxt: Context, names: seq<string>, tensors: seq<string>): seq<string> {
    if tensors == [] then []
    else
      var t := tensors[|tensors| - 1];
      Leaving(ctxt, names, tensors[..|tensors| - 1]) + if ContainsAll(names, Users(ctxt, t)) then [] else [t]
  }

  /** Outputs of the pattern that are not consumed inside it alone. */
  function PatternOutputs(ctxt: Context, names: seq<string>, pattern: seq<Node>): seq<string> {
    if pattern == [] then []
    else PatternOutputs(ctxt, names, pattern[..|pattern| - 1]) + Leaving(ctxt, names, pattern[|pattern| - 1].outputs)
  }

  lemma OneMoreNode(ctxt: Context, names: seq<string>, pattern: seq<Node>, i: nat)
    requires i <= |pattern|
    ensures i == 0 ==> Produced(pattern[..i]) == [] && PatternInputs(pattern[..i]) == [] && PatternOutputs(ctxt, names, pattern[..i]) == []
    ensures i < |pattern| ==>
      && Produced(pattern[..i + 1]) == Produced(pattern[..i]) + pattern[i].outputs
      && PatternInputs(pattern[..i + 1]) == PatternInputs(pattern[..i]) + Without(pattern[i].inputs, Produced(pattern[..i]))
      && PatternOutputs(ctxt, names, pattern[..i + 1]) == PatternOutputs(ctxt, names, pattern[..i]) + Leaving(ctxt, names, pattern[i].outputs)
  {
    if i < |pattern| { assert pattern[..i + 1][..i] == pattern[..i]; }
  }

  method GetIONames(ctxt: Context, pattern: seq<Node>) returns (inputTensors: seq<string>, outputTensors: seq<string>)
    ensures inputTensors == PatternInputs(pattern)
    ensures outputTensors == PatternOutputs(ctxt, NodeNames(pattern), pattern)
  {
    hide ContainsAll, Users, Produced, PatternInputs, PatternOutputs;
    var names, produced: seq<string> := NodeNames(pattern), [];
    inputTensors, outputTensors := [], [];
    OneMoreNode(ctxt, names, pattern, 0);
    for i := 0 to |pattern|
      invariant produced == Produced(pattern[..i]) && inputTensors == PatternInputs(pattern[..i])
      invariant outputTensors == PatternOutputs(ctxt, names, pattern[..i])
    {
      var node := pattern[i];
      OneMoreNode(ctxt, names, pattern, i);
      ghost var ins, outs, done := inputTensors, outputTensors, produced;
      for k := 0 to |node.inputs|
        invariant inputTensors == ins + Without(node.inputs[..k], produced)
      {
        assert node.inputs[..k + 1][..k] == node.inputs[..k];
        if node.inputs[k] !in produced { inputTensors := inputTensors + [node.inputs[k]]; }
      }
      for k := 0 to |node.outputs|
        invariant produced == done + node.outputs[..k] && outputTensors == outs + Leaving(ctxt, names, node.outputs[..k])
      {
        assert node.outputs[..k + 1][..k] == node.outputs[..k];
        produced := produced + [node.outputs[k]];
        if !ContainsAll(names, Users(ctxt, node.outputs[k])) { outputTensors := outputTensors + [node.outputs[k]]; }
      }
      assert node.inputs[..|node.inputs|] == node.inputs && node.outputs[..|node.outputs|] == node.outputs;
    }
    assert pattern[..|pattern|] == pattern;
  }

  lemma {:induction false} ProducedIff(pattern: seq<Node>, t: string)
    ensures t in Produced(pattern) <==> exists i :: 0 <= i < |pattern| && t in pattern[i].outputs
  {
    if pattern != [] {
      var last := |pattern| - 1;
      ProducedIff(pattern[..last], t);
      if i :| 0 <= i < |pattern| && t in pattern[i].outputs { assert i < last ==> pattern[..last][i] == pattern[i]; }
    }
  }

  /** Node i reads the tensor, and no earlier node of the pattern produces it. */
  predicate ReadFirst(pattern: seq<Node>, t: string, i: nat)
    requires i < |pattern|
  {
    t in pattern[i].inputs && forall j :: 0 <= j < i ==> t !in pattern[j].outputs
  }

  /** The inputs of a pattern of any nodes: what some node reads and no earlier one produces. */
  lemma {:induction false} PatternInputsIff(pattern: seq<Node>, t: string)
    ensures t in PatternInputs(pattern) <==> exists i :: 0 <= i < |pattern| && ReadFirst(pattern, t, i)
  {
    hide Without, Produced, ReadFirst;
    if pattern != [] {
      var last := |pattern| - 1;
      var before := pattern[..last];
      PatternInputsIff(before, t);
      WithoutMembers(pattern[last].inputs, Produced(before), t);
      forall i | 0 <= i < last ensures ReadFirst(pattern, t, i) <==> ReadFirst(before, t, i) {
        ReadFirstEarlier(pattern, t, i);
      }
      LastReadFirst(pattern, t);
    }
  }

  lemma ReadFirstEarlier(pattern: seq<Node>, t: string, i: nat)
    requires i < |pattern| - 1
    ensures ReadFirst(pattern, t, i) <==> ReadFirst(pattern[..|pattern| - 1], t, i)
  {
    var before := pattern[..|pattern| - 1];
    assert forall j :: 0 <= j <= i ==> before[j] == pattern[j];
  }

  lemma LastReadFirst(pattern: seq<Node>, t: string)
    requires pattern != []
    ensures var last := |pattern| - 1;
      ReadFirst(pattern, t, last) <==> t in pattern[last].inputs && t !in Produced(pattern[..last])
  {
    var before := pattern[..|pattern| - 1];
    ProducedIff(before, t);
    assert forall j :: 0 <= j < |before| ==> before[j] == pattern[j];
  }

  /** Its outputs: what some node produces and not only nodes of the pattern, fewer than it has, use. */
  lemma {:induction false} PatternOutputsIff(ctxt: Context, names: seq<string>, pattern: seq<Node>, t: string)
    ensures t in PatternOutputs(ctxt, names, pattern) <==>
      (exists i :: 0 <= i < |pattern| && t in pattern[i].outputs) && !ContainsAll(names, Users(ctxt, t))
  {
    if pattern != [] {
      var last := |pattern| - 1;
      PatternOutputsIff(ctxt, names, pattern[..last], t);
      LeavingIff(ctxt, names, pattern[last].outputs, t);
      if i :| 0 <= i < |pattern| && t in pattern[i].outputs { assert i < last ==> pattern[..last][i] == pattern[i]; }
    }
  }

  lemma {:induction false} LeavingIff(ctxt: Context, names: seq<string>, tensors: seq<string>, t: string)
    ensures t in Leaving(ctxt, names, tensors) <==> t in tensors && !ContainsAll(names, Users(ctxt, t))
  {
    if tensors != [] { LeavingIff(ctxt, names, tensors[..|tensors| - 1], t); }
  }

  /** The places the pattern's users of these tensors want them in. */
  function InputPlaces(ctxt: Context, pattern: seq<Node>, target: Target, tensors: seq<string>): set<Place> {
    set t, i | t in tensors && 0 <= i < |pattern| && pattern[i].name in Users(ctxt, t) :: Place(t, target(pattern[i].name, t))
  }

  function Places(tensors: seq<string>, node: string, target: Target): set<Place> {
    set t | t in tensors :: Place(t, target(node, t))
  }

  function Among(users: seq<string>, names: seq<string>): (r: seq<string>)
    ensures forall u :: u in r <==> u in users && u in names
  {
    if users == [] then []
    else Among(users[..|users| - 1], names) + if users[|users| - 1] in names then [users[|users| - 1]] else []
  }

  /** Inputs of the step whose last user inside the pattern it is; None for one without any. */
  function KillSet(ctxt: Context, pattern: seq<Node>, target: Target, step: Node): Option<set<Place>> {
    var outputs := PatternOutputs(ctxt, NodeNames(pattern), pattern);
    var kept := Without(step.inputs, outputs);
    if exists t :: t in kept && Among(Users(ctxt, t), NodeNames(pattern)) == [] then None
    else Some(set t | t in kept && LastUser(ctxt, pattern, t) == step.name :: Place(t, target(step.name, t)))
  }

  function LastUser(ctxt: Context, pattern: seq<Node>, t: string): string {
    var users := Among(Users(ctxt, t), NodeNames(pattern));
    if users == [] then "" else users[|users| - 1]
  }

  /** The flow through the steps of a pattern still to come. */
  function PatternFrom(ctxt: Context, pattern: seq<Node>, target: Target, live: set<Place>, i: nat): Option<seq<FlowState>>
    requires i <= |pattern|
    decreases |pattern| - i
  {
    if i == |pattern| then Some([FlowState(live, {}, {})])
    else
      var gen := Places(pattern[i].outputs, pattern[i].name, target);
      match KillSet(ctxt, pattern, target, pattern[i])
      case None => None
      case Some(kill) =>
        match FlowStep(live, kill, gen)
        case None => None
        case Some(next) => Push(FlowState(live, kill, gen), PatternFrom(ctxt, pattern, target, next, i + 1))
  }

  function PatternStart(ctxt: Context, pattern: seq<Node>, target: Target, initial: set<Place>): set<Place> {
    initial + InputPlaces(ctxt, pattern, target, PatternInputs(pattern))
  }

  /** The flow through a pattern; None when one of its assertions fails. */
  method PatternFlow(ctxt: Context, pattern: seq<Node>, target: Target, initial: set<Place>) returns (r: Option<seq<FlowState>>)
    ensures r == PatternFrom(ctxt, pattern, target, PatternStart(ctxt, pattern, target, initial), 0)
  {
    var inputs, _ := GetIONames(ctxt, pattern);
    var live, states := initial + InputPlaces(ctxt, pattern, target, inputs), [];
    ghost var all := PatternFrom(ctxt, pattern, target, live, 0);
    PrependNothing(all);
    for i := 0 to |pattern|
      invariant all == Prepend(states, PatternFrom(ctxt, pattern, target, live, i))
    {
      var gen := Places(pattern[i].outputs, pattern[i].name, target);
      var kill := KillSet(ctxt, pattern, target, pattern[i]);
      if kill.None? { return None; }
      ghost var before := states;
      states := states + [FlowState(live, kill.value, gen)];
      var next := FlowStep(live, kill.value, gen);
      if next.None? { return None; }
      PrependPush(before, FlowState(live, kill.value, gen), PatternFrom(ctxt, pattern, target, next.value, i + 1));
      live := next.value;
    }
    r := Some(states + [FlowState(live, {}, {})]);
  }

  function Prepend(states: seq<FlowState>, rest: Option<seq<FlowState>>): Option<seq<FlowState>> {
    match rest case None => None case Some(r) => Some(states + r)
  }

  lemma PrependNothing(rest: Option<seq<FlowState>>)
    ensures Prepend([], rest) == rest
  {
    if rest.Some? { assert [] + rest.value == rest.value; }
  }

  lemma PrependPush(states: seq<FlowState>, s: FlowState, rest: Option<seq<FlowState>>)
    ensures Prepend(states, Push(s, rest)) == Prepend(states + [s], rest)
  {
    if rest.Some? { assert states + ([s] + rest.value) == (states + [s]) + rest.value; }
  }

  // ----- over the schedule -----

  function GraphGen(ctxt: Context, states: seq<FlowState>): set<Place>
    requires states != []
  {
    set c | c in states[|states| - 1].liveSet - states[0].liveSet :: Home(ctxt, c.tensorName)
  }

  function GraphKill(ctxt: Context, states: seq<FlowState>, step: seq<Node>): set<Place>
    requires states != []
  {
    set c | c in states[0].liveSet && !IsConstant(ctxt, c.tensorName) && Users(ctxt, c.tensorName) != []
            && Users(ctxt, c.tensorName)[|Users(ctxt, c.tensorName)| - 1] in NodeNames(step) :: Home(ctxt, c.tensorName)
  }

  /** The flow through the rest of the schedule, with what is live inside and outside the patterns. */
  function GraphFrom(ctxt: Context, schedule: seq<seq<Node>>, target: Target, inner: set<Place>, outer: set<Place>): Option<seq<FlowState>> {
    if schedule == [] then Some([FlowState(outer, {}, {})])
    else
      match PatternFrom(ctxt, schedule[0], target, PatternStart(ctxt, schedule[0], target, inner), 0)
      case None => None
      case Some(ps) =>
        if ps == [] then None
        else
          var gen, kill := GraphGen(ctxt, ps), GraphKill(ctxt, ps, schedule[0]);
          match FlowStep(outer, kill, gen)
          case None => None
          case Some(next) => Push(FlowState(outer, kill, gen), GraphFrom(ctxt, schedule[1..], target, ps[|ps| - 1].liveSet, next))
  }

  lemma {:induction false} PatternStates(ctxt: Context, pattern: seq<Node>, target: Target, live: set<Place>, i: nat)
    requires i <= |pattern|
    ensures var r := PatternFrom(ctxt, pattern, target, live, i);
      r.Some? ==> |r.value| == |pattern| - i + 1 && r.value[0].liveSet == live
    decreases |pattern| - i
  {
    if i < |pattern| {
      match KillSet(ctxt, pattern, target, pattern[i]) {
        case None =>
        case Some(kill) =>
          var next := FlowStep(live, kill, Places(pattern[i].outputs, pattern[i].name, target));
          if next.Some? { PatternStates(ctxt, pattern, target, next.value, i + 1); }
      }
    }
  }

  class GraphMemoryConstraintFlow {
    const ctxt: Context
    const target: Target
    var patternFlowStates: seq<seq<FlowState>>

    constructor (ctxt: Context, target: Target)
      ensures this.ctxt == ctxt && this.target == target && patternFlowStates == []
    {
      this.ctxt, this.target, patternFlowStates := ctxt, target, [];
    }

    predicate Valid()
      reads this
    {
      forall i :: 0 <= i < |patternFlowStates| ==> patternFlowStates[i] != []
    }

    /** What the last pattern left live; nothing before the first. */
    function Inner(): set<Place>
      requires Valid()
      reads this
    {
      if patternFlowStates == [] then {}
      else var last := patternFlowStates[|patternFlowStates| - 1]; last[|last| - 1].liveSet
    }

    /** Runs the pattern's own flow and records its states; false when it fails. */
    method PreComputeStep(step: seq<Node>) returns (ok: bool)
      requires Valid()
      modifies this
      ensures Valid()
      ensures var r := PatternFrom(ctxt, step, target, PatternStart(ctxt, step, target, old(Inner())), 0);
        && (ok <==> r.Some?)
        && patternFlowStates == if ok then old(patternFlowStates) + [r.value] else old(patternFlowStates)
    {
      var states := PatternFlow(ctxt, step, target, Inner());
      PatternStates(ctxt, step, target, PatternStart(ctxt, step, target, Inner()), 0);
      if states.None? { return false; }
      patternFlowStates := patternFlowStates + [states.value];
      ok := true;
    }

    /** The states of the flow over the schedule; None when an assertion fails. */
    method Flow(schedule: seq<seq<Node>>, initialLiveSet: set<Place>) returns (r: Option<seq<FlowState>>)
      requires patternFlowStates == []
      modifies this
      ensures r == GraphFrom(ctxt, schedule, target, {}, initialLiveSet)
    {
      var liveSet, flowStates: seq<FlowState> := initialLiveSet, [];
      ghost var all := GraphFrom(ctxt, schedule, target, {}, initialLiveSet);
      assert schedule[0..] == schedule;
      PrependNothing(all);
      for k := 0 to |schedule|
        invariant Valid()
        invariant all == Prepend(flowStates, GraphFrom(ctxt, schedule[k..], target, Inner(), liveSet))
      {
        assert schedule[k..][0] == schedule[k] && schedule[k..][1..] == schedule[k + 1..];
        ghost var inner := Inner();
        PatternStates(ctxt, schedule[k], target, PatternStart(ctxt, schedule[k], target, inner), 0);
        var ok := PreComputeStep(schedule[k]);
        if !ok { return None; }
        var states := patternFlowStates[|patternFlowStates| - 1];
        var genSet, killSet := GraphGen(ctxt, states), GraphKill(ctxt, states, schedule[k]);
        ghost var before := flowStates;
        flowStates := flowStates + [FlowState(liveSet, killSet, genSet)];
        var next := FlowStep(liveSet, killSet, genSet);
        if next.None? { return None; }
        PrependPush(before, FlowState(liveSet, killSet, genSet), GraphFrom(ctxt, schedule[k + 1..], target, Inner(), next.value));
        liveSet := next.value;
      }
      r := Some(flowStates + [FlowState(liveSet, {}, {})]);
    }
  }

  // ----- one node per pattern: live means produced and still needed -----

  function Singletons(nodes: seq<Node>): seq<seq<Node>> {
    seq(|nodes|, i requires 0 <= i < |nodes| => [nodes[i]])
  }

  ghost predicate ProducedBy(nodes: seq<Node>, i: nat, t: string)
    requires i < |nodes|
  {
    t in nodes[i].outputs
  }

  ghost predicate ReadBy(nodes: seq<Node>, i: nat, t: string)
    requires i < |nodes|
  {
    t in nodes[i].inputs
  }

  /** Every tensor has one producer, inputs come from earlier nodes, and user lists name exactly the
      readers, in schedule order. */
  ghost predicate WellFormed(ctxt: Context, nodes: seq<Node>, initial: set<string>) {
    && (forall i, j :: 0 <= i < j < |nodes| ==> nodes[i].name != nodes[j].name)
    && (forall i, j, t :: 0 <= i < j < |nodes| && ProducedBy(nodes, i, t) ==> !ProducedBy(nodes, j, t))
    && (forall i, t :: 0 <= i < |nodes| && ProducedBy(nodes, i, t) ==> t !in initial && !IsConstant(ctxt, t))
    && (forall i, t :: 0 <= i < |nodes| && ReadBy(nodes, i, t) && !IsConstant(ctxt, t) ==>
          t in initial || exists j :: 0 <= j < i && ProducedBy(nodes, j, t))
    && (forall t :: UsersInOrder(nodes, t, Users(ctxt, t)))
  }

  ghost predicate UsersInOrder(nodes: seq<Node>, t: string, users: seq<string>) {
    && (forall i :: 0 <= i < |nodes| ==> (nodes[i].name in users <==> ReadBy(nodes, i, t)))
    && (forall a :: 0 <= a < |users| ==> exists i :: 0 <= i < |nodes| && nodes[i].name == users[a])
    && (forall a, b, i, j :: (0 <= a < b < |users| && 0 <= i < |nodes| && 0 <= j < |nodes| && nodes[i].name == users[a] && nodes[j].name == users[b]) ==> i <= j)
  }

  /** There before step k. */
  ghost predicate Present(nodes: seq<Node>, initial: set<string>, t: string, k: nat)
    requires k <= |nodes|
  {
    t in initial || exists i :: 0 <= i < k && ProducedBy(nodes, i, t)
  }

  /** Kept for good, or read at step k or later. */
  ghost predicate Needed(ctxt: Context, nodes: seq<Node>, t: string, k: nat) {
    IsConstant(ctxt, t) || Users(ctxt, t) == [] || exists j :: k <= j < |nodes| && ReadBy(nodes, j, t)
  }

  /** The plain definition of liveness before step k. */
  ghost predicate LiveAt(ctxt: Context, nodes: seq<Node>, initial: set<string>, live: set<Place>, k: nat)
    requires k <= |nodes|
  {
    forall c :: c in live <==>
      c == Home(ctxt, c.tensorName) && Present(nodes, initial, c.tensorName, k) && Needed(ctxt, nodes, c.tensorName, k)
  }

  /** Inside the patterns, only tensors produced before are live. */
  ghost predicate InnerAt(nodes: seq<Node>, inner: set<Place>, k: nat)
    requires k <= |nodes|
  {
    forall c :: c in inner ==> exists i :: 0 <= i < k && ProducedBy(nodes, i, c.tensorName)
  }

  lemma AmongSelf(users: seq<string>, name: string)
    ensures name in users ==> Among(users, [name]) != [] && forall k :: 0 <= k < |Among(users, [name])| ==> Among(users, [name])[k] == name
  {
    forall k | 0 <= k < |Among(users, [name])| ensures Among(users, [name])[k] == name {
      assert Among(users, [name])[k] in Among(users, [name]);
    }
    if name in users { assert name in Among(users, [name]); }
  }

  lemma {:induction false} WithoutMembers(s: seq<string>, unwanted: seq<string>, t: string)
    ensures t in Without(s, unwanted) <==> t in s && t !in unwanted
  {
    if s != [] { WithoutMembers(s[..|s| - 1], unwanted, t); }
  }

  lemma {:induction false} LeavingMembers(ctxt: Context, names: seq<string>, tensors: seq<string>, t: string)
    ensures t in Leaving(ctxt, names, tensors) ==> t in tensors
  {
    if tensors != [] { LeavingMembers(ctxt, names, tensors[..|tensors| - 1], t); }
  }

  lemma OutputsOfOne(ctxt: Context, node: Node, t: string)
    ensures t in PatternOutputs(ctxt, [node.name], [node]) ==> t in node.outputs
    ensures t in PatternInputs([node]) <==> t in node.inputs
  {
    var pattern, names := [node], [node.name];
    assert pattern[..0] == [] && Produced(pattern[..0]) == [];
    assert PatternOutputs(ctxt, names, pattern) == PatternOutputs(ctxt, names, pattern[..0]) + Leaving(ctxt, names, node.outputs);
    assert PatternInputs(pattern) == PatternInputs(pattern[..0]) + Without(node.inputs, []);
    LeavingMembers(ctxt, [node.name], node.outputs, t);
    WithoutMembers(node.inputs, [], t);
  }

  /** A node does not read what it or a later node produces. */
  lemma InputsAreOlder(ctxt: Context, nodes: seq<Node>, initial: set<string>, k: nat, t: string)
    requires WellFormed(ctxt, nodes, initial) && k < |nodes|
    ensures t in nodes[k].inputs ==> forall j :: k <= j < |nodes| ==> !ProducedBy(nodes, j, t)
  {
    if t in nodes[k].inputs {
      assert ReadBy(nodes, k, t);
      forall j | k <= j < |nodes| ensures !ProducedBy(nodes, j, t) {}
    }
  }

  /** A node takes in and kills the tensors it reads, in the levels it wants them. */
  lemma NodeSets(ctxt: Context, nodes: seq<Node>, initial: set<string>, target: Target, inner: set<Place>, k: nat)
    requires WellFormed(ctxt, nodes, initial) && k < |nodes|
    ensures PatternStart(ctxt, [nodes[k]], target, inner) == inner + Places(nodes[k].inputs, nodes[k].name, target)
    ensures KillSet(ctxt, [nodes[k]], target, nodes[k]) == Some(Places(nodes[k].inputs, nodes[k].name, target))
  {
    var node := nodes[k];
    forall t | t in node.inputs ensures node.name in Users(ctxt, t) && t !in node.outputs {
      assert UsersInOrder(nodes, t, Users(ctxt, t)) && ReadBy(nodes, k, t);
      InputsAreOlder(ctxt, nodes, initial, k, t);
      assert !ProducedBy(nodes, k, t);
    }
    InputPlacesOfNode(ctxt, node, target);
    KillSetOfNode(ctxt, node, target);
  }

  lemma InputPlacesOfNode(ctxt: Context, node: Node, target: Target)
    requires forall t :: t in node.inputs ==> node.name in Users(ctxt, t)
    ensures InputPlaces(ctxt, [node], target, PatternInputs([node])) == Places(node.inputs, node.name, target)
  {
    var a, b := InputPlaces(ctxt, [node], target, PatternInputs([node])), Places(node.inputs, node.name, target);
    forall c ensures c in a <==> c in b {
      OutputsOfOne(ctxt, node, c.tensorName);
      if c in b {
        assert [node][0].name in Users(ctxt, c.tensorName);
      }
    }
  }

  lemma KillSetOfNode(ctxt: Context, node: Node, target: Target)
    requires forall t :: t in node.inputs ==> node.name in Users(ctxt, t) && t !in node.outputs
    ensures KillSet(ctxt, [node], target, node) == Some(Places(node.inputs, node.name, target))
  {
    var names := NodeNames([node]);
    assert names == [node.name];
    var kept := Without(node.inputs, PatternOutputs(ctxt, names, [node]));
    forall t
      ensures t in kept <==> t in node.inputs
      ensures t in node.inputs ==> Among(Users(ctxt, t), names) != [] && LastUser(ctxt, [node], t) == node.name
    {
      OutputsOfOne(ctxt, node, t);
      WithoutMembers(node.inputs, PatternOutputs(ctxt, names, [node]), t);
      AmongSelf(Users(ctxt, t), node.name);
    }
    var kill := KillSet(ctxt, [node], target, node);
    assert kill.Some?;
    var want := Places(node.inputs, node.name, target);
    forall c ensures c in kill.value <==> c in want {}
    assert kill.value == want;
  }

  /** Some node reads the tensor at step k, and none after it. */
  ghost predicate LastReadBy(nodes: seq<Node>, k: nat, t: string)
    requires k < |nodes|
  {
    ReadBy(nodes, k, t) && forall j :: k < j < |nodes| ==> !ReadBy(nodes, j, t)
  }

  /** The last user of a tensor is its last reader. */
  lemma LastUserIff(ctxt: Context, nodes: seq<Node>, initial: set<string>, k: nat, t: string)
    requires WellFormed(ctxt, nodes, initial) && k < |nodes| && Users(ctxt, t) != []
    ensures Users(ctxt, t)[|Users(ctxt, t)| - 1] == nodes[k].name <==> LastReadBy(nodes, k, t)
  {
    var users := Users(ctxt, t);
    var last := |users| - 1;
    assert UsersInOrder(nodes, t, users);
    var i :| 0 <= i < |nodes| && nodes[i].name == users[last];
    assert ReadBy(nodes, i, t);
    forall j | 0 <= j < |nodes| && ReadBy(nodes, j, t) ensures j <= i {
      var a :| 0 <= a < |users| && users[a] == nodes[j].name;
      if a == last { assert nodes[i].name == nodes[j].name; }
    }
  }

  /** The inner flow of a node succeeds, and leaves its outputs instead of its inputs. */
  lemma NodeFlow(ctxt: Context, nodes: seq<Node>, initial: set<string>, target: Target, inner: set<Place>, k: nat)
    requires WellFormed(ctxt, nodes, initial) && k < |nodes| && InnerAt(nodes, inner, k)
    ensures var node := nodes[k];
      var ins, outs := Places(node.inputs, node.name, target), Places(node.outputs, node.name, target);
      var r := PatternFrom(ctxt, [node], target, PatternStart(ctxt, [node], target, inner), 0);
      && r.Some? && |r.value| == 2
      && r.value[0].liveSet == inner + ins && r.value[1].liveSet == (inner + ins + outs) - ins
      && r.value[1].liveSet - r.value[0].liveSet == outs && InnerAt(nodes, r.value[1].liveSet, k + 1)
  {
    hide KillSet, InputPlaces;
    var node := nodes[k];
    var ins, outs := Places(node.inputs, node.name, target), Places(node.outputs, node.name, target);
    NodeSets(ctxt, nodes, initial, target, inner, k);
    forall c | c in outs ensures c !in inner + ins {
      assert ProducedBy(nodes, k, c.tensorName);
      InputsAreOlder(ctxt, nodes, initial, k, c.tensorName);
    }
    var next := (inner + ins + outs) - ins;
    assert next - (inner + ins) == outs;
    assert PatternFrom(ctxt, [node], target, next, 1) == Some([FlowState(next, {}, {})]);
    forall c | c in next ensures exists i :: 0 <= i < k + 1 && ProducedBy(nodes, i, c.tensorName) {
      if c in outs { assert ProducedBy(nodes, k, c.tensorName); }
    }
  }

  /** Over the schedule a node spawns its outputs ... */
  lemma NodeSpawns(ctxt: Context, nodes: seq<Node>, target: Target, k: nat, states: seq<FlowState>, c: Place)
    requires k < |nodes| && |states| == 2
    requires states[1].liveSet - states[0].liveSet == Places(nodes[k].outputs, nodes[k].name, target)
    ensures c in GraphGen(ctxt, states) <==> c == Home(ctxt, c.tensorName) && ProducedBy(nodes, k, c.tensorName)
  {
    if c == Home(ctxt, c.tensorName) && ProducedBy(nodes, k, c.tensorName) {
      assert Place(c.tensorName, target(nodes[k].name, c.tensorName)) in states[1].liveSet - states[0].liveSet;
    }
  }

  /** ... and kills the inputs it is the last to read. */
  lemma NodeKills(ctxt: Context, nodes: seq<Node>, initial: set<string>, target: Target, k: nat, states: seq<FlowState>, c: Place)
    requires WellFormed(ctxt, nodes, initial) && k < |nodes| && |states| == 2
    requires Places(nodes[k].inputs, nodes[k].name, target) <= states[0].liveSet
    ensures c in GraphKill(ctxt, states, [nodes[k]]) <==>
      c == Home(ctxt, c.tensorName) && !IsConstant(ctxt, c.tensorName) && LastReadBy(nodes, k, c.tensorName)
  {
    hide WellFormed;
    var t := c.tensorName;
    assert NodeNames([nodes[k]]) == [nodes[k].name];
    if Users(ctxt, t) != [] { LastUserIff(ctxt, nodes, initial, k, t); }
    ReadersAreUsers(ctxt, nodes, initial, k, t);
    if ReadBy(nodes, k, t) {
      assert Place(t, target(nodes[k].name, t)) in states[0].liveSet;
    }
  }

  lemma ReadersAreUsers(ctxt: Context, nodes: seq<Node>, initial: set<string>, k: nat, t: string)
    requires WellFormed(ctxt, nodes, initial) && k < |nodes|
    ensures ReadBy(nodes, k, t) ==> Users(ctxt, t) != []
  {
    assert UsersInOrder(nodes, t, Users(ctxt, t));
  }

  /** One node: no assertion trips, and liveness moves on by one step. */
  lemma NodeKeepsLiveness(ctxt: Context, nodes: seq<Node>, initial: set<string>, outer: set<Place>, kill: set<Place>, gen: set<Place>, k: nat)
    requires WellFormed(ctxt, nodes, initial) && k < |nodes| && LiveAt(ctxt, nodes, initial, outer, k)
    requires forall c :: c in gen <==> c == Home(ctxt, c.tensorName) && ProducedBy(nodes, k, c.tensorName)
    requires forall c :: c in kill <==> c == Home(ctxt, c.tensorName) && !IsConstant(ctxt, c.tensorName) && LastReadBy(nodes, k, c.tensorName)
    ensures FlowStep(outer, kill, gen).Some? && LiveAt(ctxt, nodes, initial, FlowStep(outer, kill, gen).value, k + 1)
  {
    forall c | c in gen ensures c !in outer && c !in kill {
      InputsAreOlder(ctxt, nodes, initial, k, c.tensorName);
    }
    forall c | c in kill ensures c in outer {
      assert ReadBy(nodes, k, c.tensorName);
    }
    hide WellFormed, Present, Needed;
    forall c
      ensures c in (outer + gen) - kill <==>
        c == Home(ctxt, c.tensorName) && Present(nodes, initial, c.tensorName, k + 1) && Needed(ctxt, nodes, c.tensorName, k + 1)
    {
      StillNeededIff(ctxt, nodes, initial, c.tensorName, k);
    }
  }

  lemma StillNeededIff(ctxt: Context, nodes: seq<Node>, initial: set<string>, t: string, k: nat)
    requires WellFormed(ctxt, nodes, initial) && k < |nodes|
    ensures Present(nodes, initial, t, k + 1) <==> Present(nodes, initial, t, k) || ProducedBy(nodes, k, t)
    ensures Needed(ctxt, nodes, t, k + 1) <==> Needed(ctxt, nodes, t, k) && (IsConstant(ctxt, t) || !LastReadBy(nodes, k, t))
    ensures ProducedBy(nodes, k, t) ==> Needed(ctxt, nodes, t, k + 1)
  {
    ReadersAreUsers(ctxt, nodes, initial, k, t);
    UsersRead(ctxt, nodes, initial, t);
    forall j | 0 <= j < |nodes| && ReadBy(nodes, j, t) && ProducedBy(nodes, k, t) ensures k < j {
      InputsAreOlder(ctxt, nodes, initial, j, t);
    }
  }

  lemma UsersRead(ctxt: Context, nodes: seq<Node>, initial: set<string>, t: string)
    requires WellFormed(ctxt, nodes, initial)
    ensures Users(ctxt, t) != [] ==> exists j :: 0 <= j < |nodes| && ReadBy(nodes, j, t)
  {
    var users := Users(ctxt, t);
    assert UsersInOrder(nodes, t, users);
    if users != [] {
      var name := users[0];
      assert exists j :: 0 <= j < |nodes| && nodes[j].name == name;
      var j :| 0 <= j < |nodes| && nodes[j].name == name;
      assert name in users && ReadBy(nodes, j, t);
    }
  }

  lemma {:induction false} LivenessFrom(ctxt: Context, nodes: seq<Node>, initial: set<string>, target: Target,
                                        inner: set<Place>, outer: set<Place>, k: nat)
    requires WellFormed(ctxt, nodes, initial) && k <= |nodes| && InnerAt(nodes, inner, k) && LiveAt(ctxt, nodes, initial, outer, k)
    ensures var r := GraphFrom(ctxt, Singletons(nodes)[k..], target, inner, outer);
      && r.Some? && |r.value| == |nodes| - k + 1
      && forall i :: 0 <= i < |r.value| ==> LiveAt(ctxt, nodes, initial, r.value[i].liveSet, k + i)
    decreases |nodes| - k
  {
    hide WellFormed, InnerAt, LiveAt, PatternFrom, PatternStart, GraphGen, GraphKill, FlowStep;
    if k < |nodes| {
      var node, rest := nodes[k], Singletons(nodes)[k..];
      NodeFlow(ctxt, nodes, initial, target, inner, k);
      var ps := PatternFrom(ctxt, [node], target, PatternStart(ctxt, [node], target, inner), 0).value;
      var kill, gen := GraphKill(ctxt, ps, [node]), GraphGen(ctxt, ps);
      assert ps[1].liveSet - ps[0].liveSet == Places(node.outputs, node.name, target);
      SpawnedAndKilled(ctxt, nodes, initial, target, k, ps);
      NodeKeepsLiveness(ctxt, nodes, initial, outer, kill, gen, k);
      var next := FlowStep(outer, kill, gen).value;
      LivenessFrom(ctxt, nodes, initial, target, ps[1].liveSet, next, k + 1);
      assert rest[0] == [node] && rest[1..] == Singletons(nodes)[k + 1..];
      var tail := GraphFrom(ctxt, rest[1..], target, ps[1].liveSet, next).value;
      assert GraphFrom(ctxt, rest, target, inner, outer) == Some([FlowState(outer, kill, gen)] + tail);
    }
  }

  lemma SpawnedAndKilled(ctxt: Context, nodes: seq<Node>, initial: set<string>, target: Target, k: nat, states: seq<FlowState>)
    requires WellFormed(ctxt, nodes, initial) && k < |nodes| && |states| == 2
    requires Places(nodes[k].inputs, nodes[k].name, target) <= states[0].liveSet
    requires states[1].liveSet - states[0].liveSet == Places(nodes[k].outputs, nodes[k].name, target)
    ensures forall c :: c in GraphGen(ctxt, states) <==> c == Home(ctxt, c.tensorName) && ProducedBy(nodes, k, c.tensorName)
    ensures forall c :: c in GraphKill(ctxt, states, [nodes[k]]) <==>
      c == Home(ctxt, c.tensorName) && !IsConstant(ctxt, c.tensorName) && LastReadBy(nodes, k, c.tensorName)
  {
    hide WellFormed, GraphGen, GraphKill, LastReadBy, Home;
    forall c ensures c in GraphGen(ctxt, states) <==> c == Home(ctxt, c.tensorName) && ProducedBy(nodes, k, c.tensorName) {
      NodeSpawns(ctxt, nodes, target, k, states, c);
    }
    forall c
      ensures c in GraphKill(ctxt, states, [nodes[k]]) <==>
        c == Home(ctxt, c.tensorName) && !IsConstant(ctxt, c.tensorName) && LastReadBy(nodes, k, c.tensorName)
    {
      NodeKills(ctxt, nodes, initial, target, k, states, c);
    }
  }

  /** On a well-formed schedule of single nodes the flow trips no assertion, at either level, and
      before step k exactly the tensors already there and still needed are live. */
  lemma FlowIsLiveness(ctxt: Context, nodes: seq<Node>, initial: set<string>, target: Target)
    requires WellFormed(ctxt, nodes, initial)
    ensures var r := GraphFrom(ctxt, Singletons(nodes), target, {}, set t | t in initial :: Home(ctxt, t));
      && r.Some? && |r.value| == |nodes| + 1
      && forall k :: 0 <= k <= |nodes| ==> LiveAt(ctxt, nodes, initial, r.value[k].liveSet, k)
  {
    hide WellFormed;
    var outer := set t | t in initial :: Home(ctxt, t);
    forall c ensures c in outer <==>
      c == Home(ctxt, c.tensorName) && Present(nodes, initial, c.tensorName, 0) && Needed(ctxt, nodes, c.tensorName, 0)
    {
      UsersRead(ctxt, nodes, initial, c.tensorName);
    }
    LivenessFrom(ctxt, nodes, initial, target, {}, outer, 0);
    assert Singletons(nodes)[0..] == Singletons(nodes);
  }
}
