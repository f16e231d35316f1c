/** The memory generation passes and the sizes they account for, level by level. */
module Accounting {
  import opened Options
  import opened Buffers

  function LevelOf(b: VariableBuffer): string {
    if b.memoryLevel.None? then "None" else b.memoryLevel.value
  }

  /** What a buffer takes of a level; one in no level counts under the name None. */
  function Share(b: VariableBuffer, level: string): nat {
    if b.memoryLevel == Some(level) || (b.memoryLevel.None? && level == "None") then b.sizeInBytes else 0
  }

  /** Summed sizes of the buffers of one level that are in a set. */
  ghost function Volume(buffers: seq<VariableBuffer>, alive: set<VariableBuffer>, level: string): nat {
    if buffers == [] then 0
    else
      var b := buffers[|buffers| - 1];
      Volume(buffers[..|buffers| - 1], alive, level) + if b in alive then Share(b, level) else 0
  }

  ghost function SizeSum(buffers: seq<VariableBuffer>, level: string): nat {
    if buffers == [] then 0 else Share(buffers[0], level) + SizeSum(buffers[1..], level)
  }

  predicate Distinct<T(==)>(s: seq<T>) {
    forall i, j :: 0 <= i < j < |s| ==> s[i] != s[j]
  }

  lemma {:induction false} VolumeWith(buffers: seq<VariableBuffer>, alive: set<VariableBuffer>, b: VariableBuffer, level: string)
    requires Distinct(buffers) && b !in alive
    ensures Volume(buffers, alive + {b}, level) == Volume(buffers, alive, level) + if b in buffers then Share(b, level) else 0
  {
    if buffers != [] { VolumeWith(buffers[..|buffers| - 1], alive, b, level); }
  }

  class NetworkContext {
    /** Every registered buffer. */
    const objects: map<string, VariableBuffer>
    /** The local ones, in registration order. */
    const localObjects: seq<VariableBuffer>
    var dynamicSize: map<string, int>
    var maxDynamicSize: map<string, int>

    constructor (objects: map<string, VariableBuffer>, localObjects: seq<VariableBuffer>)
      requires Registered(objects) && Distinct(localObjects)
      requires forall b :: b in localObjects ==> b in objects.Values && !b.live
      ensures Valid() && Accounted() && this.objects == objects && this.localObjects == localObjects
    {
      this.objects, this.localObjects, this.dynamicSize, this.maxDynamicSize := objects, localObjects, map[], map[];
      new;
      forall level ensures Volume(localObjects, Alive(objects), level) == 0 { NobodyAlive(localObjects, Alive(objects), level); }
    }

    ghost function DynamicAt(level: string): int
      reads this
    {
      if level in dynamicSize then dynamicSize[level] else 0
    }

    ghost function PeakAt(level: string): int
      reads this
    {
      if level in maxDynamicSize then maxDynamicSize[level] else 0
    }

    /** What is counted beyond the live buffers of a level. */
    ghost function Surplus(level: string): int
      reads this, objects.Values
    {
      DynamicAt(level) - Volume(localObjects, Alive(objects), level)
    }

    ghost predicate Accounted()
      reads this, objects.Values
    {
      forall level :: Surplus(level) == 0
    }

    ghost predicate Valid()
      reads this, objects.Values
    {
      && Registered(objects) && Distinct(localObjects) && (forall b :: b in localObjects ==> b in objects.Values)
      && (forall level :: Surplus(level) >= 0) && (forall level :: PeakAt(level) >= 0)
    }
  }

  lemma {:induction false} NobodyAlive(buffers: seq<VariableBuffer>, alive: set<VariableBuffer>, level: string)
    requires forall b :: b in buffers ==> b !in alive
    ensures Volume(buffers, alive, level) == 0
  {
    if buffers != [] { NobodyAlive(buffers[..|buffers| - 1], alive, level); }
  }

  // ----- the buffers a node allocates and frees -----

  datatype Role = Output | Transient | FinalInput

  predicate IsMemoryLevel(regex: Option<string -> bool>, b: VariableBuffer) {
    if regex.None? then b.memoryLevel.None? else b.memoryLevel.Some? && regex.value(b.memoryLevel.value)
  }

  predicate Plays(b: VariableBuffer, node: string, role: Role) {
    match role
    case Output => b.kind.Variable? && node !in b.users
    case Transient => b.kind.Transient? && node in b.users
    case FinalInput => b.kind.Variable? && |b.users| > 0 && node == b.users[|b.users| - 1]
  }

  function Select(regex: Option<string -> bool>, references: seq<VariableBuffer>, node: string, role: Role): (r: seq<VariableBuffer>)
    ensures forall b :: b in r ==> b in references && IsMemoryLevel(regex, b) && Plays(b, node, role)
    ensures forall b :: b in references && IsMemoryLevel(regex, b) && Plays(b, node, role) ==> b in r
    ensures Distinct(references) ==> Distinct(r)
  {
    if references == [] then []
    else
      var b := references[|references| - 1];
      Select(regex, references[..|references| - 1], node, role) + if IsMemoryLevel(regex, b) && Plays(b, node, role) then [b] else []
  }

  lemma DistinctSum<T>(a: seq<T>, b: seq<T>)
    ensures Distinct(a) && Distinct(b) && (forall x :: x in a ==> x !in b) ==> Distinct(a + b)
  {
    if Distinct(a) && Distinct(b) && forall x :: x in a ==> x !in b {
      forall i, j | 0 <= i < j < |a + b| ensures (a + b)[i] != (a + b)[j] {
        if i < |a| <= j { assert a[i] in a && b[j - |a|] in b; }
      }
    }
  }

  /** The buffers a node allocates, in the order of the passes, and those it frees. */
  function Allocated(regex: Option<string -> bool>, references: seq<VariableBuffer>, node: string): (r: seq<VariableBuffer>)
    ensures Distinct(references) ==> Distinct(r)
    ensures forall b :: b in r ==> b in references
  {
    var outputs, transients := Select(regex, references, node, Role.Output), Select(regex, references, node, Role.Transient);
    DistinctSum(outputs, transients);
    outputs + transients
  }

  function Freed(regex: Option<string -> bool>, references: seq<VariableBuffer>, node: string): (r: seq<VariableBuffer>)
    ensures Distinct(references) ==> Distinct(r)
    ensures forall b :: b in r ==> b in references
  {
    var inputs, transients := Select(regex, references, node, Role.FinalInput), Select(regex, references, node, Role.Transient);
    DistinctSum(inputs, transients);
    inputs + transients
  }

  ghost function Elements(s: seq<VariableBuffer>): set<VariableBuffer> {
    set b | b in s
  }

  // ----- steps the two passes share -----

  lemma AliveWith(ctxt: NetworkContext, before: set<VariableBuffer>, b: VariableBuffer)
    requires Distinct(ctxt.localObjects) && b in ctxt.localObjects && b !in before
    ensures forall level :: Volume(ctxt.localObjects, before + {b}, level) == Volume(ctxt.localObjects, before, level) + Share(b, level)
  {
    forall level
      ensures Volume(ctxt.localObjects, before + {b}, level) == Volume(ctxt.localObjects, before, level) + Share(b, level)
    {
      VolumeWith(ctxt.localObjects, before, b, level);
    }
  }

  /** Counts a buffer and makes it live. */
  method Allocate(ctxt: NetworkContext, b: VariableBuffer)
    requires ctxt.Valid() && b in ctxt.localObjects && !b.live
    modifies ctxt`dynamicSize, b`live
    ensures ctxt.Valid() && Alive(ctxt.objects) == old(Alive(ctxt.objects)) + {b}
    ensures forall level :: ctxt.Surplus(level) == old(ctxt.Surplus(level))
    ensures forall level :: ctxt.DynamicAt(level) == old(ctxt.DynamicAt(level)) + Share(b, level)
  {
    hide Volume;
    ghost var before := Alive(ctxt.objects);
    AliveWith(ctxt, before, b);
    b.live := true;
    var memoryLevel := LevelOf(b);
    if memoryLevel !in ctxt.dynamicSize {
      ctxt.dynamicSize := ctxt.dynamicSize[memoryLevel := b.sizeInBytes];
    } else {
      ctxt.dynamicSize := ctxt.dynamicSize[memoryLevel := ctxt.dynamicSize[memoryLevel] + b.sizeInBytes];
    }
    assert Alive(ctxt.objects) == before + {b};
    forall level ensures ctxt.Surplus(level) == old(ctxt.Surplus(level)) && ctxt.PeakAt(level) == old(ctxt.PeakAt(level)) {}
  }

  /** Takes a buffer that just died off the count. */
  method Deduct(ctxt: NetworkContext, b: VariableBuffer, ghost before: set<VariableBuffer>)
    requires ctxt.Valid() && b in ctxt.localObjects && b !in Alive(ctxt.objects) && before == Alive(ctxt.objects) + {b}
    requires forall level :: ctxt.DynamicAt(level) >= Volume(ctxt.localObjects, before, level)
    modifies ctxt`dynamicSize
    ensures ctxt.Valid()
    ensures forall level :: ctxt.Surplus(level) == old(ctxt.DynamicAt(level)) - Volume(ctxt.localObjects, before, level)
  {
    hide Volume;
    AliveWith(ctxt, Alive(ctxt.objects), b);
    var memoryLevel := LevelOf(b);
    if memoryLevel !in ctxt.dynamicSize {
      ctxt.dynamicSize := ctxt.dynamicSize[memoryLevel := 0];
    } else {
      ctxt.dynamicSize := ctxt.dynamicSize[memoryLevel := ctxt.dynamicSize[memoryLevel] - b.sizeInBytes];
    }
    forall level
      ensures ctxt.Surplus(level) == old(ctxt.DynamicAt(level)) - Volume(ctxt.localObjects, before, level)
      ensures ctxt.PeakAt(level) == old(ctxt.PeakAt(level))
    {}
  }

  /** Every dead buffer of a list is counted and becomes live; stops at one that is live already. */
  method AllocateAll(ctxt: NetworkContext, buffers: seq<VariableBuffer>) returns (ok: bool)
    requires ctxt.Valid() && Distinct(buffers) && forall b :: b in buffers ==> b in ctxt.localObjects
    modifies ctxt`dynamicSize, (set b | b in buffers)`live
    ensures ctxt.Valid() && forall level :: ctxt.Surplus(level) == old(ctxt.Surplus(level))
    ensures ok <==> old(Alive(ctxt.objects)) !! Elements(buffers)
    ensures ok ==> Alive(ctxt.objects) == old(Alive(ctxt.objects)) + Elements(buffers)
  {
    hide Volume;
    for i := 0 to |buffers|
      invariant ctxt.Valid() && forall level :: ctxt.Surplus(level) == old(ctxt.Surplus(level))
      invariant Alive(ctxt.objects) == old(Alive(ctxt.objects)) + Elements(buffers[..i])
      invariant old(Alive(ctxt.objects)) !! Elements(buffers[..i])
    {
      var b := buffers[i];
      assert b in Elements(buffers) && b !in Elements(buffers[..i]) && Elements(buffers[..i + 1]) == Elements(buffers[..i]) + {b};
      if b.live {
        assert b in old(Alive(ctxt.objects));
        return false;
      }
      assert b !in Alive(ctxt.objects);
      Allocate(ctxt, b);
    }
    assert buffers[..|buffers|] == buffers;
    ok := true;
  }

  /** The same from the back of the list. */
  method AllocateReversed(ctxt: NetworkContext, buffers: seq<VariableBuffer>) returns (ok: bool)
    requires ctxt.Valid() && Distinct(buffers) && forall b :: b in buffers ==> b in ctxt.localObjects
    modifies ctxt`dynamicSize, (set b | b in buffers)`live
    ensures ctxt.Valid() && forall level :: ctxt.Surplus(level) == old(ctxt.Surplus(level))
    ensures ok <==> old(Alive(ctxt.objects)) !! Elements(buffers)
    ensures ok ==> Alive(ctxt.objects) == old(Alive(ctxt.objects)) + Elements(buffers)
  {
    hide Volume;
    for i := |buffers| downto 0
      invariant ctxt.Valid() && forall level :: ctxt.Surplus(level) == old(ctxt.Surplus(level))
      invariant Alive(ctxt.objects) == old(Alive(ctxt.objects)) + Elements(buffers[i..])
      invariant old(Alive(ctxt.objects)) !! Elements(buffers[i..])
    {
      var b := buffers[i];
      assert b in Elements(buffers) && b !in Elements(buffers[i + 1..]) && Elements(buffers[i..]) == {b} + Elements(buffers[i + 1..]);
      if b.live {
        assert b in old(Alive(ctxt.objects));
        return false;
      }
      assert b !in Alive(ctxt.objects);
      Allocate(ctxt, b);
    }
    assert buffers[0..] == buffers;
    ok := true;
  }

  /** Every peak takes in the present size of its level. */
  method UpdatePeaks(ctxt: NetworkContext)
    requires ctxt.Valid()
    modifies ctxt`maxDynamicSize
    ensures ctxt.Valid()
    ensures forall level :: ctxt.PeakAt(level) == Max(old(ctxt.PeakAt(level)), ctxt.DynamicAt(level))
    ensures forall level :: ctxt.Surplus(level) == old(ctxt.Surplus(level))
  {
    var levels, done := ctxt.dynamicSize.Keys, {};
    forall level ensures ctxt.DynamicAt(level) >= 0 { assert ctxt.Surplus(level) >= 0; }
    while levels != {}
      invariant levels + done == ctxt.dynamicSize.Keys && levels !! done
      invariant forall level ::
        ctxt.PeakAt(level) == if level in done then Max(old(ctxt.PeakAt(level)), ctxt.DynamicAt(level)) else old(ctxt.PeakAt(level))
      decreases levels
    {
      var level :| level in levels;
      if level !in ctxt.maxDynamicSize {
        ctxt.maxDynamicSize := ctxt.maxDynamicSize[level := Max(0, ctxt.dynamicSize[level])];
      } else {
        ctxt.maxDynamicSize := ctxt.maxDynamicSize[level := Max(ctxt.maxDynamicSize[level], ctxt.dynamicSize[level])];
      }
      levels, done := levels - {level}, done + {level};
    }
    forall level ensures ctxt.Surplus(level) == old(ctxt.Surplus(level)) && ctxt.PeakAt(level) >= 0 {}
  }

  function Max(a: int, b: int): int { if a >= b then a else b }

  // ----- the passthrough pass -----

  /** The buffers live while a node runs, and after it. */
  ghost function During(regex: Option<string -> bool>, alive: set<VariableBuffer>, pass: Pass): set<VariableBuffer> {
    alive + Elements(Allocated(regex, pass.references, pass.node))
  }

  ghost function After(regex: Option<string -> bool>, alive: set<VariableBuffer>, pass: Pass): set<VariableBuffer> {
    During(regex, alive, pass) - Elements(Freed(regex, pass.references, pass.node))
  }

  /** One node to generate code for, with the local buffers its code refers to. */
  datatype Pass = Pass(references: seq<VariableBuffer>, node: string)

  /** What a node allocates is dead before it, and what it frees is live by then. */
  ghost predicate Balanced(regex: Option<string -> bool>, alive: set<VariableBuffer>, pass: Pass) {
    && alive !! Elements(Allocated(regex, pass.references, pass.node))
    && Elements(Freed(regex, pass.references, pass.node)) <= During(regex, alive, pass)
  }

  ghost predicate Refers(ctxt: NetworkContext, pass: Pass) {
    Distinct(pass.references) && forall b :: b in pass.references ==> b in ctxt.localObjects
  }

  class MemoryPassthroughGeneration {
    const regex: Option<string -> bool>

    constructor (regex: Option<string -> bool>)
      ensures this.regex == regex
    {
      this.regex := regex;
    }

    /** Deducts and kills the buffers of a list; stops at a dead one. */
    method FreeAll(ctxt: NetworkContext, buffers: seq<VariableBuffer>) returns (ok: bool)
      requires ctxt.Valid() && Distinct(buffers) && forall b :: b in buffers ==> b in ctxt.localObjects
      modifies ctxt`dynamicSize, (set b | b in buffers)`live
      ensures ctxt.Valid() && forall level :: ctxt.Surplus(level) == old(ctxt.Surplus(level))
      ensures ok <==> Elements(buffers) <= old(Alive(ctxt.objects))
      ensures ok ==> Alive(ctxt.objects) == old(Alive(ctxt.objects)) - Elements(buffers)
    {
      hide Volume;
      for i := 0 to |buffers|
        invariant ctxt.Valid() && forall level :: ctxt.Surplus(level) == old(ctxt.Surplus(level))
        invariant Alive(ctxt.objects) == old(Alive(ctxt.objects)) - Elements(buffers[..i])
        invariant Elements(buffers[..i]) <= old(Alive(ctxt.objects))
      {
        var b := buffers[i];
        assert b in Elements(buffers) && b !in Elements(buffers[..i]) && Elements(buffers[..i + 1]) == Elements(buffers[..i]) + {b};
        assert b.live <==> b in Alive(ctxt.objects);
        if !b.live { return false; }
        Kill(ctxt, b);
      }
      assert buffers[..|buffers|] == buffers;
      ok := true;
    }

    /** Marks the buffers of a node live and dead and keeps the sizes; false where the source raises. */
    method Apply(ctxt: NetworkContext, pass: Pass) returns (ok: bool)
      requires ctxt.Valid() && Refers(ctxt, pass)
      modifies ctxt`dynamicSize, ctxt`maxDynamicSize, (set b | b in pass.references)`live
      ensures ctxt.Valid() && forall level :: ctxt.Surplus(level) == old(ctxt.Surplus(level))
      ensures ok <==> Balanced(regex, old(Alive(ctxt.objects)), pass)
      ensures ok ==> Alive(ctxt.objects) == After(regex, old(Alive(ctxt.objects)), pass)
      ensures ok ==> forall level :: ctxt.PeakAt(level) == Max(old(ctxt.PeakAt(level)),
        old(ctxt.Surplus(level)) + Volume(ctxt.localObjects, During(regex, old(Alive(ctxt.objects)), pass), level))
    {
      hide Volume, Elements, Alive, Allocated, Freed, Share, Registered, Distinct;
      var entering, leaving := Allocated(regex, pass.references, pass.node), Freed(regex, pass.references, pass.node);
      ok := AllocateAll(ctxt, entering);
      if !ok { return; }
      ghost var during := Alive(ctxt.objects);
      UpdatePeaks(ctxt);
      forall level
        ensures ctxt.Surplus(level) == old(ctxt.Surplus(level))
        ensures ctxt.PeakAt(level) == Max(old(ctxt.PeakAt(level)), old(ctxt.Surplus(level)) + Volume(ctxt.localObjects, during, level))
      {}
      ok := FreeAll(ctxt, leaving);
    }

    /** A node at a time. Whatever the passes, the count stays with the live buffers, and the peaks are
        the largest counts over the allocation phases. */
    method CodeTransform(ctxt: NetworkContext, passes: seq<Pass>) returns (ok: bool)
      requires ctxt.Valid() && forall k :: 0 <= k < |passes| ==> Refers(ctxt, passes[k])
      modifies ctxt`dynamicSize, ctxt`maxDynamicSize, ctxt.localObjects`live
      ensures ctxt.Valid() && forall level :: ctxt.Surplus(level) == old(ctxt.Surplus(level))
      ensures ok <==> AllBalanced(regex, old(Alive(ctxt.objects)), passes)
      ensures ok ==> Alive(ctxt.objects) == AfterAll(regex, old(Alive(ctxt.objects)), passes)
      ensures ok && old(ctxt.Accounted()) ==>
        var phases := Phases(regex, old(Alive(ctxt.objects)), passes);
        forall level :: ctxt.PeakAt(level) == PeakOver(ctxt.localObjects, phases, old(ctxt.PeakAt(level)), level)
      ensures WellRun(passes) && old(Alive(ctxt.objects)) == {} ==>
        ok && Alive(ctxt.objects) == LeftSet(regex, passes, |passes|)
      ensures WellRun(passes) && old(Alive(ctxt.objects)) == {} && old(ctxt.Accounted()) ==>
        forall level :: ctxt.PeakAt(level) == PeakOver(ctxt.localObjects, NeededSets(regex, passes), old(ctxt.PeakAt(level)), level)
    {
      hide Volume, WellRun, LeftSet, NeededSets;
      ghost var start := Alive(ctxt.objects);
      RunIsNeeded(regex, passes);
      for k := 0 to |passes|
        invariant ctxt.Valid() && forall level :: ctxt.Surplus(level) == old(ctxt.Surplus(level))
        invariant AllBalanced(regex, start, passes[..k]) && Alive(ctxt.objects) == AfterAll(regex, start, passes[..k])
        invariant old(ctxt.Accounted()) ==> forall level ::
          ctxt.PeakAt(level) == PeakOver(ctxt.localObjects, Phases(regex, start, passes[..k]), old(ctxt.PeakAt(level)), level)
      {
        assert passes[..k + 1][..k] == passes[..k];
        ok := Apply(ctxt, passes[k]);
        if !ok {
          BalancedPrefix(regex, start, passes, k);
          return;
        }
        PhasesMore(ctxt, regex, start, passes, k);
      }
      assert passes[..|passes|] == passes;
      ok := true;
    }
  }

  /** Kills a live buffer and deducts it. */
  method Kill(ctxt: NetworkContext, b: VariableBuffer)
    requires ctxt.Valid() && b in ctxt.localObjects && b.live
    modifies ctxt`dynamicSize, b`live
    ensures ctxt.Valid() && Alive(ctxt.objects) == old(Alive(ctxt.objects)) - {b}
    ensures forall level :: ctxt.Surplus(level) == old(ctxt.Surplus(level))
  {
    hide Volume;
    ghost var before := Alive(ctxt.objects);
    MarkDead(ctxt, b);
    assert before == Alive(ctxt.objects) + {b};
    forall level ensures ctxt.DynamicAt(level) >= Volume(ctxt.localObjects, before, level) { assert old(ctxt.Surplus(level)) >= 0; }
    Deduct(ctxt, b, before);
  }

  /** Marking a buffer dead leaves its bytes counted. */
  method MarkDead(ctxt: NetworkContext, b: VariableBuffer)
    requires ctxt.Valid() && b in ctxt.localObjects && b.live
    modifies b`live
    ensures ctxt.Valid() && Alive(ctxt.objects) == old(Alive(ctxt.objects)) - {b}
    ensures forall level :: ctxt.Surplus(level) == old(ctxt.Surplus(level)) + Share(b, level)
  {
    hide Volume;
    ghost var before := Alive(ctxt.objects);
    b.live := false;
    assert before == Alive(ctxt.objects) + {b};
    AliveWith(ctxt, Alive(ctxt.objects), b);
    forall level
      ensures ctxt.Surplus(level) == old(ctxt.Surplus(level)) + Share(b, level) && ctxt.Surplus(level) >= 0
      ensures ctxt.PeakAt(level) >= 0
    {
      assert old(ctxt.Surplus(level)) >= 0 && old(ctxt.PeakAt(level)) >= 0;
    }
  }

  ghost function AfterAll(regex: Option<string -> bool>, alive: set<VariableBuffer>, passes: seq<Pass>): set<VariableBuffer> {
    if passes == [] then alive
    else After(regex, AfterAll(regex, alive, passes[..|passes| - 1]), passes[|passes| - 1])
  }

  ghost predicate AllBalanced(regex: Option<string -> bool>, alive: set<VariableBuffer>, passes: seq<Pass>) {
    passes == [] ||
    (AllBalanced(regex, alive, passes[..|passes| - 1])
      && Balanced(regex, AfterAll(regex, alive, passes[..|passes| - 1]), passes[|passes| - 1]))
  }

  lemma {:induction false} BalancedPrefix(regex: Option<string -> bool>, alive: set<VariableBuffer>, passes: seq<Pass>, k: nat)
    requires k < |passes|
    ensures AllBalanced(regex, alive, passes) ==> Balanced(regex, AfterAll(regex, alive, passes[..k]), passes[k])
    decreases |passes|
  {
    if k < |passes| - 1 {
      BalancedPrefix(regex, alive, passes[..|passes| - 1], k);
      assert passes[..|passes| - 1][..k] == passes[..k];
    }
  }

  /** What is live while each node runs. */
  ghost function Phases(regex: Option<string -> bool>, alive: set<VariableBuffer>, passes: seq<Pass>): seq<set<VariableBuffer>> {
    if passes == [] then []
    else
      var before := passes[..|passes| - 1];
      Phases(regex, alive, before) + [During(regex, AfterAll(regex, alive, before), passes[|passes| - 1])]
  }

  /** The larger of a start and the volumes of some phases. */
  ghost function PeakOver(buffers: seq<VariableBuffer>, phases: seq<set<VariableBuffer>>, start: int, level: string): int {
    if phases == [] then start
    else Max(PeakOver(buffers, phases[..|phases| - 1], start, level), Volume(buffers, phases[|phases| - 1], level))
  }

  lemma PhasesMore(ctxt: NetworkContext, regex: Option<string -> bool>, alive: set<VariableBuffer>, passes: seq<Pass>, k: nat)
    requires k < |passes|
    ensures forall start, level ::
      PeakOver(ctxt.localObjects, Phases(regex, alive, passes[..k + 1]), start, level) ==
        Max(PeakOver(ctxt.localObjects, Phases(regex, alive, passes[..k]), start, level),
          Volume(ctxt.localObjects, During(regex, AfterAll(regex, alive, passes[..k]), passes[k]), level))
  {
    assert passes[..k + 1][..k] == passes[..k];
    var phases := Phases(regex, alive, passes[..k + 1]);
    assert phases[..|phases| - 1] == Phases(regex, alive, passes[..k]);
  }

  /** A peak bounds every phase, and is the start or reached in one. */
  lemma {:induction false} PeakIsMaximum(buffers: seq<VariableBuffer>, phases: seq<set<VariableBuffer>>, start: int, level: string)
    ensures var peak := PeakOver(buffers, phases, start, level);
      && start <= peak && (forall i :: 0 <= i < |phases| ==> Volume(buffers, phases[i], level) <= peak)
      && (peak == start || exists i :: 0 <= i < |phases| && peak == Volume(buffers, phases[i], level))
  {
    if phases != [] {
      var before := phases[..|phases| - 1];
      PeakIsMaximum(buffers, before, start, level);
      assert forall i :: 0 <= i < |before| ==> before[i] == phases[i];
    }
  }

  // ----- over a schedule -----

  /** The run of a schedule: nodes have distinct names, a node refers to what it reads, and what it reads
      was produced, by one node, before. A node that refers to a variable without using it produces it. */
  ghost predicate WellRun(passes: seq<Pass>) {
    && (forall i, j :: 0 <= i < j < |passes| ==> passes[i].node != passes[j].node)
    && (forall i, j, b :: 0 <= i < |passes| && 0 <= j < |passes| && b in passes[j].references && passes[i].node in b.users ==>
          b in passes[i].references)
    && (forall i, b :: 0 <= i < |passes| && b in passes[i].references && b.kind.Variable? && passes[i].node in b.users ==>
          exists j :: 0 <= j < i && Produces(passes[j], b))
    && (forall i, j, b :: 0 <= i < |passes| && 0 <= j < |passes| && b in passes[i].references && Produces(passes[i], b) && Produces(passes[j], b) ==>
          i == j)
  }

  predicate Produces(pass: Pass, b: VariableBuffer) {
    b in pass.references && b.kind.Variable? && pass.node !in b.users
  }

  /** The buffers a pass with this regular expression takes care of. */
  predicate Managed(regex: Option<string -> bool>, b: VariableBuffer) {
    match b.memoryLevel
    case None => regex.None?
    case Some(level) => regex.Some? && regex.value(level)
  }

  /** Some node before k is the last user of the buffer. */
  ghost predicate UsedUpBefore(passes: seq<Pass>, k: nat, b: VariableBuffer)
    requires k <= |passes|
  {
    b.users != [] && exists j :: 0 <= j < k && passes[j].node == b.users[|b.users| - 1]
  }

  ghost predicate ProducedBefore(passes: seq<Pass>, k: nat, b: VariableBuffer)
    requires k <= |passes|
  {
    exists j :: 0 <= j < k && Produces(passes[j], b)
  }

  /** A buffer is needed while node k runs: a variable from its producer to its last user, a transient
      buffer by the nodes that use it. */
  ghost predicate NeededAt(regex: Option<string -> bool>, passes: seq<Pass>, k: nat, b: VariableBuffer)
    requires k < |passes|
  {
    Managed(regex, b) &&
    match b.kind
    case Variable => ProducedBefore(passes, k + 1, b) && !UsedUpBefore(passes, k, b)
    case Transient => b in passes[k].references && passes[k].node in b.users
    case Struct => false
  }

  /** What is needed after the first k nodes: the variables produced by then and not used up. */
  ghost predicate LeftAfter(regex: Option<string -> bool>, passes: seq<Pass>, k: nat, b: VariableBuffer)
    requires k <= |passes|
  {
    Managed(regex, b) && b.kind.Variable? && ProducedBefore(passes, k, b) && !UsedUpBefore(passes, k, b)
  }

  ghost function References(passes: seq<Pass>): set<VariableBuffer> {
    set i, b | 0 <= i < |passes| && b in passes[i].references :: b
  }

  ghost function NeededSet(regex: Option<string -> bool>, passes: seq<Pass>, k: nat): set<VariableBuffer>
    requires k < |passes|
  {
    set b | b in References(passes) && NeededAt(regex, passes, k, b)
  }

  ghost function LeftSet(regex: Option<string -> bool>, passes: seq<Pass>, k: nat): set<VariableBuffer>
    requires k <= |passes|
  {
    set b | b in References(passes) && LeftAfter(regex, passes, k, b)
  }

  /** What is needed while each node runs. */
  ghost function NeededSets(regex: Option<string -> bool>, passes: seq<Pass>): seq<set<VariableBuffer>> {
    seq(|passes|, k requires 0 <= k < |passes| => NeededSet(regex, passes, k))
  }

  /** Users listed in the order of the schedule: every node finds what it reads. */
  lemma ReadersFindLive(regex: Option<string -> bool>, passes: seq<Pass>, k: nat, b: VariableBuffer)
    requires WellRun(passes) && k < |passes| && b in passes[k].references && passes[k].node in b.users && Managed(regex, b) && !b.kind.Struct?
    requires forall i, j, u, v :: 0 <= i < |passes| && 0 <= j < |passes| && 0 <= u < v < |b.users| ==>
      b.users[u] == passes[i].node && b.users[v] == passes[j].node ==> i <= j
    ensures NeededAt(regex, passes, k, b)
  {
    if b.kind.Variable? {
      var j :| 0 <= j < k && Produces(passes[j], b);
      assert Produces(passes[j], b);
    }
  }

  /** Over a schedule that starts with nothing live, exactly what is needed is live during and after each node. */
  lemma {:induction false} LiveIsNeeded(regex: Option<string -> bool>, passes: seq<Pass>, k: nat)
    requires WellRun(passes) && k <= |passes|
    ensures AfterAll(regex, {}, passes[..k]) == LeftSet(regex, passes, k)
    ensures AllBalanced(regex, {}, passes[..k])
    ensures k < |passes| ==> During(regex, LeftSet(regex, passes, k), passes[k]) == NeededSet(regex, passes, k)
  {
    hide WellRun, LeftSet, NeededSet, Balanced, During, After;
    if k > 0 {
      LiveIsNeeded(regex, passes, k - 1);
      assert passes[..k][..k - 1] == passes[..k - 1];
      NeededStep(regex, passes, k - 1);
    } else {
      NothingLeft(regex, passes);
    }
    if k < |passes| { NeededStep(regex, passes, k); }
  }

  lemma NothingLeft(regex: Option<string -> bool>, passes: seq<Pass>)
    ensures LeftSet(regex, passes, 0) == {} && passes[..0] == []
  {
  }

  lemma NeededStep(regex: Option<string -> bool>, passes: seq<Pass>, k: nat)
    requires WellRun(passes) && k < |passes|
    ensures During(regex, LeftSet(regex, passes, k), passes[k]) == NeededSet(regex, passes, k)
    ensures After(regex, LeftSet(regex, passes, k), passes[k]) == LeftSet(regex, passes, k + 1)
    ensures Balanced(regex, LeftSet(regex, passes, k), passes[k])
  {
    var pass, left := passes[k], LeftSet(regex, passes, k);
    var during := During(regex, left, pass);
    forall b
      ensures b in during <==> b in NeededSet(regex, passes, k)
      ensures b in After(regex, left, pass) <==> b in LeftSet(regex, passes, k + 1)
      ensures b in left ==> b !in Elements(Allocated(regex, pass.references, pass.node))
      ensures b in Elements(Freed(regex, pass.references, pass.node)) ==> b in during
    {
      if b in References(passes) { NeededStepOf(regex, passes, k, b); }
    }
  }

  /** The same for one buffer. */
  lemma NeededStepOf(regex: Option<string -> bool>, passes: seq<Pass>, k: nat, b: VariableBuffer)
    requires WellRun(passes) && k < |passes| && b in References(passes)
    ensures var pass := passes[k];
      var enters, leaves := b in Allocated(regex, pass.references, pass.node), b in Freed(regex, pass.references, pass.node);
      && (NeededAt(regex, passes, k, b) <==> LeftAfter(regex, passes, k, b) || enters)
      && (LeftAfter(regex, passes, k + 1, b) <==> (LeftAfter(regex, passes, k, b) || enters) && !leaves)
      && !(LeftAfter(regex, passes, k, b) && enters)
      && (leaves ==> LeftAfter(regex, passes, k, b) || enters)
  {
    hide WellRun;
    var pass := passes[k];
    UsesOf(passes, k, b);
    if b.kind.Variable? {
      assert b in Allocated(regex, pass.references, pass.node) <==> Managed(regex, b) && Produces(pass, b);
      assert b in Freed(regex, pass.references, pass.node) <==> Managed(regex, b) && UsedUpBefore(passes, k + 1, b) && !UsedUpBefore(passes, k, b);
    }
  }

  /** A node uses a variable up when it is the last user, and then it refers to it and the variable was produced. */
  lemma UsesOf(passes: seq<Pass>, k: nat, b: VariableBuffer)
    requires WellRun(passes) && k < |passes| && b in References(passes)
    ensures var last := b.users != [] && passes[k].node == b.users[|b.users| - 1];
      && (UsedUpBefore(passes, k + 1, b) <==> UsedUpBefore(passes, k, b) || last)
      && (last ==> b in passes[k].references && !UsedUpBefore(passes, k, b) && (b.kind.Variable? ==> ProducedBefore(passes, k, b)))
    ensures ProducedBefore(passes, k + 1, b) <==> ProducedBefore(passes, k, b) || Produces(passes[k], b)
    ensures !(ProducedBefore(passes, k, b) && Produces(passes[k], b))
    ensures Produces(passes[k], b) ==> !UsedUpBefore(passes, k, b)
  {
    var i :| 0 <= i < |passes| && b in passes[i].references;
  }

  /** Over a schedule the phases are what its nodes need, and the passes stay balanced. */
  lemma {:induction false} PhasesAreNeeded(regex: Option<string -> bool>, passes: seq<Pass>, k: nat)
    requires WellRun(passes) && k <= |passes|
    ensures Phases(regex, {}, passes[..k]) == NeededSets(regex, passes)[..k]
  {
    hide WellRun, During, AfterAll, NeededSet, LeftSet;
    if k > 0 {
      PhasesAreNeeded(regex, passes, k - 1);
      LiveIsNeeded(regex, passes, k - 1);
      assert passes[..k][..k - 1] == passes[..k - 1];
      assert NeededSets(regex, passes)[..k] == NeededSets(regex, passes)[..k - 1] + [NeededSet(regex, passes, k - 1)];
    } else {
      assert passes[..0] == [];
    }
  }

  lemma RunIsNeeded(regex: Option<string -> bool>, passes: seq<Pass>)
    ensures WellRun(passes) ==>
      AfterAll(regex, {}, passes) == LeftSet(regex, passes, |passes|) && AllBalanced(regex, {}, passes)
      && Phases(regex, {}, passes) == NeededSets(regex, passes)
  {
    hide WellRun, LeftSet, NeededSet, AfterAll, AllBalanced, Phases;
    if WellRun(passes) {
      LiveIsNeeded(regex, passes, |passes|);
      PhasesAreNeeded(regex, passes, |passes|);
      assert passes[..|passes|] == passes && NeededSets(regex, passes)[..|passes|] == NeededSets(regex, passes);
    }
  }

  // ----- the allocating pass -----

  ghost predicate DistinctNames(buffers: seq<VariableBuffer>) {
    forall i, j :: 0 <= i < j < |buffers| ==> buffers[i].name != buffers[j].name
  }

  /** No buffer is a reference into itself or into a later one. */
  ghost predicate InOrder(buffers: seq<VariableBuffer>) {
    forall i, j :: 0 <= i <= j < |buffers| ==> buffers[i].referenceName != Some(buffers[j].name)
  }

  /** A list without the first occurrence of a name. */
  function Remove(names: seq<string>, name: string): (r: seq<string>)
    requires name in names
    ensures |r| == |names| - 1
  {
    if names[0] == name then names[1..] else [names[0]] + Remove(names[1..], name)
  }

  lemma {:induction false} RemoveMembers(names: seq<string>, name: string)
    requires name in names && Distinct(names)
    ensures Distinct(Remove(names, name)) && forall n :: n in Remove(names, name) <==> n in names && n != name
  {
    if names[0] == name {
      assert names == [name] + names[1..];
    } else {
      RemoveMembers(names[1..], name);
      var rest := Remove(names[1..], name);
      assert names[0] !in names[1..];
      DistinctSum([names[0]], rest);
      assert names == [names[0]] + names[1..];
    }
  }

  /** Sorted in an earlier round: no longer listed, and never skipped again. */
  ghost predicate Settled(unsorted: seq<string>, b: VariableBuffer) {
    b.name !in unsorted && (b.referenceName.Some? ==> b.referenceName.value !in unsorted)
  }

  /** The first i buffers seen once. */
  ghost predicate FirstRound(buffers: seq<VariableBuffer>, i: nat, sorted: seq<VariableBuffer>, unsorted: seq<string>, settled: nat) {
    && i <= |buffers| && |sorted| <= i && |unsorted| == |buffers| - |sorted| && Distinct(unsorted)
    && (forall j :: i <= j < |buffers| ==> buffers[j].name in unsorted)
    && (|sorted| == i ==> sorted == buffers[..i] && InOrderUpTo(buffers, i) && NamesFrom(buffers, i, unsorted))
    && (|sorted| < i ==> !InOrder(buffers))
    && (sorted != [] ==> settled < i && Settled(unsorted, buffers[settled]))
  }

  ghost predicate NamesFrom(buffers: seq<VariableBuffer>, i: nat, unsorted: seq<string>) {
    forall n :: n in unsorted ==> exists j :: i <= j < |buffers| && buffers[j].name == n
  }

  ghost predicate InOrderUpTo(buffers: seq<VariableBuffer>, i: nat)
    requires i <= |buffers|
  {
    forall p, q :: 0 <= p < i && p <= q < |buffers| ==> buffers[p].referenceName != Some(buffers[q].name)
  }

  /** After i buffers of a round over the list. */
  ghost predicate Round(first: bool, buffers: seq<VariableBuffer>, i: nat, sorted: seq<VariableBuffer>, unsorted: seq<string>, settled: nat) {
    if first then FirstRound(buffers, i, sorted, unsorted, settled)
    else i <= settled < |buffers| && !InOrder(buffers) && Settled(unsorted, buffers[settled]) && Distinct(unsorted)
  }

  lemma Skip(first: bool, buffers: seq<VariableBuffer>, i: nat, sorted: seq<VariableBuffer>, unsorted: seq<string>, settled: nat)
    requires i < |buffers| && Round(first, buffers, i, sorted, unsorted, settled)
    requires buffers[i].referenceName.Some? && buffers[i].referenceName.value in unsorted
    ensures Round(first, buffers, i + 1, sorted, unsorted, settled)
  {
    if first && |sorted| == i {
      var j :| i <= j < |buffers| && buffers[j].name == buffers[i].referenceName.value;
    }
  }

  lemma Take(first: bool, buffers: seq<VariableBuffer>, i: nat, sorted: seq<VariableBuffer>, unsorted: seq<string>, settled: nat)
    requires i < |buffers| && Round(first, buffers, i, sorted, unsorted, settled) && DistinctNames(buffers)
    requires buffers[i].referenceName.Some? ==> buffers[i].referenceName.value !in unsorted
    ensures buffers[i].name !in unsorted ==> !InOrder(buffers)
    ensures buffers[i].name in unsorted ==>
      Round(first, buffers, i + 1, sorted + [buffers[i]], Remove(unsorted, buffers[i].name), if first then i else settled)
  {
    if buffers[i].name in unsorted {
      RemoveMembers(unsorted, buffers[i].name);
      assert buffers[..i + 1] == buffers[..i] + [buffers[i]];
    }
  }

  lemma EndRound(first: bool, buffers: seq<VariableBuffer>, sorted: seq<VariableBuffer>, unsorted: seq<string>, settled: nat)
    requires Round(first, buffers, |buffers|, sorted, unsorted, settled)
    ensures unsorted == [] ==> sorted == buffers && InOrder(buffers)
    ensures unsorted != [] ==> !InOrder(buffers)
    ensures unsorted != [] && |unsorted| < |buffers| ==> Round(false, buffers, 0, sorted, unsorted, settled)
  {
    assert buffers[..|buffers|] == buffers;
  }

  /** Meant to order references behind what they refer to. A second round over the list meets a buffer
      sorted in the first and raises, so a list either is in order already or is refused. */
  method TopologicallySortBuffers(buffers: seq<VariableBuffer>) returns (r: Option<seq<VariableBuffer>>)
    requires DistinctNames(buffers)
    ensures r == if InOrder(buffers) then Some(buffers) else None
  {
    var sorted: seq<VariableBuffer>, unsorted := [], seq(|buffers|, i requires 0 <= i < |buffers| => buffers[i].name);
    ghost var first, settled: nat := true, 0;
    assert Round(first, buffers, 0, sorted, unsorted, settled) by {
      assert forall i :: 0 <= i < |buffers| ==> unsorted[i] == buffers[i].name;
    }
    assert buffers == [] ==> InOrder(buffers);
    hide Round, InOrder;
    while |unsorted| > 0
      invariant |unsorted| <= |buffers|
      invariant if unsorted == [] then sorted == buffers && InOrder(buffers) else Round(first, buffers, 0, sorted, unsorted, settled)
      decreases |unsorted|
    {
      var lastLen := |unsorted|;
      for i := 0 to |buffers|
        invariant Round(first, buffers, i, sorted, unsorted, settled) && |unsorted| <= lastLen <= |buffers|
      {
        var buffer := buffers[i];
        if buffer.referenceName.Some? && buffer.referenceName.value in unsorted {
          Skip(first, buffers, i, sorted, unsorted, settled);
          continue;
        }
        Take(first, buffers, i, sorted, unsorted, settled);
        sorted := sorted + [buffer];
        if buffer.name !in unsorted { return None; }
        unsorted := Remove(unsorted, buffer.name);
        if first { settled := i; }
      }
      EndRound(first, buffers, sorted, unsorted, settled);
      if |unsorted| == lastLen { return None; }
      first := false;
    }
    r := Some(sorted);
  }

  /** The documentation promises an error for circular references only, but a reference in front of what
      it refers to is refused as well. */
  lemma ForwardReferenceIsRefused(reference: VariableBuffer, target: VariableBuffer)
    requires reference.referenceName == Some(target.name) && target.referenceName.None? && reference.name != target.name
    ensures InOrder([target, reference]) && !InOrder([reference, target])
  {
    var forward := [reference, target];
    assert forward[0].referenceName == Some(forward[1].name);
  }

  /** Of these buffers, freed in this order, those whose bytes stay counted: something linked to them is
      live, an input or an output when their turn comes. */
  ghost function Skipped(objects: map<string, VariableBuffer>, alive: set<VariableBuffer>, buffers: seq<VariableBuffer>): seq<VariableBuffer> {
    if buffers == [] then []
    else
      var b, rest := buffers[0], alive - {buffers[0]};
      (if SomeExplored(LinksOf(objects), b.name, Flagged(objects, rest)) then [b] else []) + Skipped(objects, rest, buffers[1..])
  }

  /** Every name the search from a buffer looks at is registered. */
  ghost predicate LinksRegistered(objects: map<string, VariableBuffer>, b: VariableBuffer) {
    forall t :: Reaches(LinksOf(objects), b.name, Characters(b.name), t) ==> t in objects
  }

  lemma SkippedNext(objects: map<string, VariableBuffer>, alive: set<VariableBuffer>, buffers: seq<VariableBuffer>, i: nat)
    requires i < |buffers|
    ensures forall level ::
      SizeSum(Skipped(objects, alive, buffers[i..]), level) ==
        (if SomeExplored(LinksOf(objects), buffers[i].name, Flagged(objects, alive - {buffers[i]})) then Share(buffers[i], level) else 0)
        + SizeSum(Skipped(objects, alive - {buffers[i]}, buffers[i + 1..]), level)
  {
    hide SomeExplored, Flagged;
    var rest := Skipped(objects, alive - {buffers[i]}, buffers[i + 1..]);
    assert buffers[i..][1..] == buffers[i + 1..];
    assert ([buffers[i]] + rest)[1..] == rest && [] + rest == rest;
  }

  /** What the allocating pass demands of a node. */
  ghost predicate Allowed(objects: map<string, VariableBuffer>, regex: Option<string -> bool>, alive: set<VariableBuffer>, pass: Pass) {
    && Balanced(regex, alive, pass) && InOrder(Allocated(regex, pass.references, pass.node))
    && forall b :: b in Freed(regex, pass.references, pass.node) ==> LinksRegistered(objects, b)
  }

  ghost predicate AllAllowed(objects: map<string, VariableBuffer>, regex: Option<string -> bool>, alive: set<VariableBuffer>, passes: seq<Pass>) {
    passes == [] ||
    (AllAllowed(objects, regex, alive, passes[..|passes| - 1])
      && Allowed(objects, regex, AfterAll(regex, alive, passes[..|passes| - 1]), passes[|passes| - 1]))
  }

  /** The buffers whose bytes a node, and a run, leave counted. */
  ghost function SkippedIn(objects: map<string, VariableBuffer>, regex: Option<string -> bool>, alive: set<VariableBuffer>, pass: Pass): seq<VariableBuffer> {
    Skipped(objects, During(regex, alive, pass), Freed(regex, pass.references, pass.node))
  }

  ghost function SkippedInAll(objects: map<string, VariableBuffer>, regex: Option<string -> bool>, alive: set<VariableBuffer>, passes: seq<Pass>): seq<VariableBuffer> {
    if passes == [] then []
    else
      var before := passes[..|passes| - 1];
      SkippedInAll(objects, regex, alive, before) + SkippedIn(objects, regex, AfterAll(regex, alive, before), passes[|passes| - 1])
  }

  ghost predicate NoBytes(buffers: seq<VariableBuffer>) {
    forall b :: b in buffers ==> b.sizeInBytes == 0
  }

  /** The larger of a start and the counts while the nodes run: what is live, and what was skipped before. */
  ghost function CountedPeak(ctxt: NetworkContext, regex: Option<string -> bool>, alive: set<VariableBuffer>, passes: seq<Pass>, start: int, level: string): int {
    if passes == [] then start
    else
      var before := passes[..|passes| - 1];
      Max(CountedPeak(ctxt, regex, alive, before, start, level),
        Volume(ctxt.localObjects, During(regex, AfterAll(regex, alive, before), passes[|passes| - 1]), level)
        + SizeSum(SkippedInAll(ctxt.objects, regex, alive, before), level))
  }

  /** What the nodes free has no aliases and is no input or output of the network. */
  ghost predicate Unaliased(regex: Option<string -> bool>, passes: seq<Pass>) {
    forall k, b :: 0 <= k < |passes| && b in Freed(regex, passes[k].references, passes[k].node) ==>
      b.aliases == {} && !b.isInput && !b.isOutput
  }

  /** A run without aliases skips nothing, and its counted peak is that of the live buffers. */
  lemma {:induction false} NothingSkippedInAll(ctxt: NetworkContext, regex: Option<string -> bool>, alive: set<VariableBuffer>, passes: seq<Pass>)
    requires Registered(ctxt.objects) && (forall b :: b in ctxt.localObjects ==> b in ctxt.objects.Values)
    requires Unaliased(regex, passes) && forall k :: 0 <= k < |passes| ==> Refers(ctxt, passes[k])
    ensures SkippedInAll(ctxt.objects, regex, alive, passes) == []
    ensures forall start, level ::
      CountedPeak(ctxt, regex, alive, passes, start, level) == PeakOver(ctxt.localObjects, Phases(regex, alive, passes), start, level)
  {
    hide SkippedIn, Volume, During, After, PeakOver, Phases, CountedPeak, AfterAll, Refers, Unaliased, SizeSum;
    if passes == [] {
      EmptyPeaks(ctxt, regex, alive);
    } else {
      var last := |passes| - 1;
      assert passes[..last + 1] == passes;
      UnaliasedBefore(ctxt, regex, passes);
      NothingSkippedInAll(ctxt, regex, alive, passes[..last]);
      NothingSkippedIn(ctxt, regex, AfterAll(regex, alive, passes[..last]), passes, last);
      AllowedNext(ctxt, regex, alive, passes, last);
      PhasesMore(ctxt, regex, alive, passes, last);
      NoSize();
      forall start, level
        ensures CountedPeak(ctxt, regex, alive, passes, start, level) == PeakOver(ctxt.localObjects, Phases(regex, alive, passes), start, level)
      {
        assert CountedPeak(ctxt, regex, alive, passes[..last], start, level) == PeakOver(ctxt.localObjects, Phases(regex, alive, passes[..last]), start, level);
      }
    }
  }

  lemma NoSize()
    ensures NoBytes([]) && forall level :: SizeSum([], level) == 0
  {
  }

  lemma EmptyPeaks(ctxt: NetworkContext, regex: Option<string -> bool>, alive: set<VariableBuffer>)
    ensures forall start, level :: CountedPeak(ctxt, regex, alive, [], start, level) == start
    ensures forall start, level :: PeakOver(ctxt.localObjects, Phases(regex, alive, []), start, level) == start
  {
  }

  lemma UnaliasedBefore(ctxt: NetworkContext, regex: Option<string -> bool>, passes: seq<Pass>)
    requires passes != [] && Unaliased(regex, passes) && forall k :: 0 <= k < |passes| ==> Refers(ctxt, passes[k])
    ensures var before := passes[..|passes| - 1];
      Unaliased(regex, before) && forall k :: 0 <= k < |before| ==> Refers(ctxt, before[k])
  {
    hide Refers, Freed;
  }

  lemma NothingSkippedIn(ctxt: NetworkContext, regex: Option<string -> bool>, alive: set<VariableBuffer>, passes: seq<Pass>, k: nat)
    requires Registered(ctxt.objects) && (forall b :: b in ctxt.localObjects ==> b in ctxt.objects.Values)
    requires k < |passes| && Unaliased(regex, passes) && Refers(ctxt, passes[k])
    ensures SkippedIn(ctxt.objects, regex, alive, passes[k]) == []
  {
    hide Skipped, During;
    UnaliasedNotSkipped(ctxt.objects, During(regex, alive, passes[k]), Freed(regex, passes[k].references, passes[k].node));
  }

  class MemoryManagementGeneration {
    const regex: Option<string -> bool>

    constructor (regex: Option<string -> bool>)
      ensures this.regex == regex
    {
      this.regex := regex;
    }

    /** Kills the buffers of a list, and deducts those without live aliases. */
    method FreeUnaliased(ctxt: NetworkContext, buffers: seq<VariableBuffer>) returns (ok: bool)
      requires ctxt.Valid() && Distinct(buffers) && forall b :: b in buffers ==> b in ctxt.localObjects
      modifies ctxt`dynamicSize, (set b | b in buffers)`live
      ensures ctxt.Valid()
      ensures ok <==> Elements(buffers) <= old(Alive(ctxt.objects)) && forall b :: b in buffers ==> LinksRegistered(ctxt.objects, b)
      ensures ok ==> Alive(ctxt.objects) == old(Alive(ctxt.objects)) - Elements(buffers)
      ensures ok ==>
        var skipped := Skipped(ctxt.objects, old(Alive(ctxt.objects)), buffers);
        forall level :: ctxt.Surplus(level) == old(ctxt.Surplus(level)) + SizeSum(skipped, level)
    {
      hide Volume, Skipped, SomeExplored, Flagged, SizeSum, LinksOf;
      ghost var start := Alive(ctxt.objects);
      assert buffers[0..] == buffers;
      for i := 0 to |buffers|
        invariant ctxt.Valid() && Alive(ctxt.objects) == start - Elements(buffers[..i])
        invariant Elements(buffers[..i]) <= start && forall b :: b in buffers[..i] ==> LinksRegistered(ctxt.objects, b)
        invariant forall level ::
          ctxt.Surplus(level) + SizeSum(Skipped(ctxt.objects, Alive(ctxt.objects), buffers[i..]), level) ==
            old(ctxt.Surplus(level)) + SizeSum(Skipped(ctxt.objects, start, buffers), level)
      {
        var b := buffers[i];
        SkippedNext(ctxt.objects, Alive(ctxt.objects), buffers, i);
        assert b in Elements(buffers) && b !in Elements(buffers[..i]) && Elements(buffers[..i + 1]) == Elements(buffers[..i]) + {b};
        assert b.live <==> b in Alive(ctxt.objects);
        if !b.live { return false; }
        ghost var before := Alive(ctxt.objects);
        forall level ensures ctxt.DynamicAt(level) >= Volume(ctxt.localObjects, before, level) { assert ctxt.Surplus(level) >= 0; }
        MarkDead(ctxt, b);
        var aliased := b.HasLiveAliases(ctxt.objects);
        if aliased.None? { return false; }
        if !aliased.value {
          assert before == Alive(ctxt.objects) + {b};
          Deduct(ctxt, b, before);
        }
      }
      assert buffers[..|buffers|] == buffers && buffers[|buffers|..] == [];
      NothingSkipped(ctxt.objects, Alive(ctxt.objects));
      ok := true;
    }

    /** The allocation phase of a node. */
    method Enter(ctxt: NetworkContext, pass: Pass) returns (ok: bool)
      requires ctxt.Valid() && Refers(ctxt, pass)
      modifies ctxt`dynamicSize, ctxt`maxDynamicSize, (set b | b in pass.references)`live
      ensures ctxt.Valid() && forall level :: ctxt.Surplus(level) == old(ctxt.Surplus(level))
      ensures ok <==>
        && old(Alive(ctxt.objects)) !! Elements(Allocated(regex, pass.references, pass.node))
        && InOrder(Allocated(regex, pass.references, pass.node))
      ensures ok ==> Alive(ctxt.objects) == During(regex, old(Alive(ctxt.objects)), pass)
      ensures ok ==>
        var during := During(regex, old(Alive(ctxt.objects)), pass);
        forall level :: ctxt.PeakAt(level) == Max(old(ctxt.PeakAt(level)), old(ctxt.Surplus(level)) + Volume(ctxt.localObjects, during, level))
    {
      hide Volume, InOrder, Elements, Alive, Allocated, Share, Registered, Distinct, Max;
      var entering := Allocated(regex, pass.references, pass.node);
      LocalNames(ctxt, entering);
      var sorted := TopologicallySortBuffers(entering);
      if sorted.None? { return false; }
      ok := AllocateReversed(ctxt, sorted.value);
      if !ok { return; }
      ghost var during := Alive(ctxt.objects);
      UpdatePeaks(ctxt);
      forall level
        ensures ctxt.Surplus(level) == old(ctxt.Surplus(level))
        ensures ctxt.PeakAt(level) == Max(old(ctxt.PeakAt(level)), old(ctxt.Surplus(level)) + Volume(ctxt.localObjects, during, level))
      {}
    }

    /** Allocates and frees the buffers of a node; false where the source raises. What a skipped buffer
        took stays counted. */
    method Apply(ctxt: NetworkContext, pass: Pass) returns (ok: bool)
      requires ctxt.Valid() && Refers(ctxt, pass)
      modifies ctxt`dynamicSize, ctxt`maxDynamicSize, (set b | b in pass.references)`live
      ensures ctxt.Valid()
      ensures ok <==> Allowed(ctxt.objects, regex, old(Alive(ctxt.objects)), pass)
      ensures ok ==> Alive(ctxt.objects) == After(regex, old(Alive(ctxt.objects)), pass)
      ensures ok ==>
        var skipped := SkippedIn(ctxt.objects, regex, old(Alive(ctxt.objects)), pass);
        forall level :: ctxt.Surplus(level) == old(ctxt.Surplus(level)) + SizeSum(skipped, level)
      ensures ok && old(ctxt.Accounted()) ==>
        (ctxt.Accounted() <==> NoBytes(SkippedIn(ctxt.objects, regex, old(Alive(ctxt.objects)), pass)))
      ensures ok ==>
        var during := During(regex, old(Alive(ctxt.objects)), pass);
        forall level :: ctxt.PeakAt(level) == Max(old(ctxt.PeakAt(level)), old(ctxt.Surplus(level)) + Volume(ctxt.localObjects, during, level))
    {
      hide Volume, Skipped, SizeSum, InOrder, LinksRegistered, Elements, Alive, Allocated, Freed, Registered, Distinct, NoBytes, Max;
      ok := Enter(ctxt, pass);
      if !ok { return; }
      ok := FreeUnaliased(ctxt, Freed(regex, pass.references, pass.node));
      if ok { StillAccountedIff(ctxt, SkippedIn(ctxt.objects, regex, old(Alive(ctxt.objects)), pass)); }
    }

    /** A node at a time. The count drifts from the live buffers by what the nodes skip, and a peak is the
        largest count over the allocation phases; without aliases nothing is skipped. */
    method CodeTransform(ctxt: NetworkContext, passes: seq<Pass>) returns (ok: bool)
      requires ctxt.Valid() && forall k :: 0 <= k < |passes| ==> Refers(ctxt, passes[k])
      modifies ctxt`dynamicSize, ctxt`maxDynamicSize, ctxt.localObjects`live
      ensures ctxt.Valid()
      ensures ok <==> AllAllowed(ctxt.objects, regex, old(Alive(ctxt.objects)), passes)
      ensures ok ==> Alive(ctxt.objects) == AfterAll(regex, old(Alive(ctxt.objects)), passes)
      ensures ok ==>
        var skipped := SkippedInAll(ctxt.objects, regex, old(Alive(ctxt.objects)), passes);
        forall level :: ctxt.Surplus(level) == old(ctxt.Surplus(level)) + SizeSum(skipped, level)
      ensures ok && old(ctxt.Accounted()) ==>
        (ctxt.Accounted() <==> NoBytes(SkippedInAll(ctxt.objects, regex, old(Alive(ctxt.objects)), passes)))
      ensures ok && old(ctxt.Accounted()) ==>
        var alive := old(Alive(ctxt.objects));
        forall level :: ctxt.PeakAt(level) == CountedPeak(ctxt, regex, alive, passes, old(ctxt.PeakAt(level)), level)
      ensures ok && old(ctxt.Accounted()) && Unaliased(regex, passes) ==>
        var phases := Phases(regex, old(Alive(ctxt.objects)), passes);
        ctxt.Accounted() && forall level :: ctxt.PeakAt(level) == PeakOver(ctxt.localObjects, phases, old(ctxt.PeakAt(level)), level)
      ensures ok && WellRun(passes) && old(Alive(ctxt.objects)) == {} ==> Alive(ctxt.objects) == LeftSet(regex, passes, |passes|)
      ensures ok && WellRun(passes) && old(Alive(ctxt.objects)) == {} && old(ctxt.Accounted()) && Unaliased(regex, passes) ==>
        forall level :: ctxt.PeakAt(level) == PeakOver(ctxt.localObjects, NeededSets(regex, passes), old(ctxt.PeakAt(level)), level)
    {
      hide Volume, SizeSum, SkippedIn, Allowed, During, After, PeakOver, Phases, CountedPeak, SkippedInAll, AllAllowed, AfterAll, Alive,
        NoBytes, Registered, Distinct, Max, Unaliased, WellRun, LeftSet, NeededSets;
      ghost var start := Alive(ctxt.objects);
      RunIsNeeded(regex, passes);
      EmptyRun(ctxt, regex, start);
      assert passes[..0] == [];
      for k := 0 to |passes|
        invariant ctxt.Valid() && AllAllowed(ctxt.objects, regex, start, passes[..k]) && Alive(ctxt.objects) == AfterAll(regex, start, passes[..k])
        invariant forall level ::
          ctxt.Surplus(level) == old(ctxt.Surplus(level)) + SizeSum(SkippedInAll(ctxt.objects, regex, start, passes[..k]), level)
        invariant old(ctxt.Accounted()) ==> forall level ::
          ctxt.PeakAt(level) == CountedPeak(ctxt, regex, start, passes[..k], old(ctxt.PeakAt(level)), level)
      {
        AllowedNext(ctxt, regex, start, passes, k);
        ok := Apply(ctxt, passes[k]);
        if !ok {
          AllowedPrefix(ctxt.objects, regex, start, passes, k);
          return;
        }
      }
      assert passes[..|passes|] == passes;
      StillAccountedIff(ctxt, SkippedInAll(ctxt.objects, regex, start, passes));
      if Unaliased(regex, passes) {
        NothingSkippedInAll(ctxt, regex, start, passes);
        NoSize();
      }
      ok := true;
    }
  }

  lemma EmptyRun(ctxt: NetworkContext, regex: Option<string -> bool>, alive: set<VariableBuffer>)
    ensures forall level :: SizeSum(SkippedInAll(ctxt.objects, regex, alive, []), level) == 0
    ensures forall start, level :: CountedPeak(ctxt, regex, alive, [], start, level) == start
    ensures AllAllowed(ctxt.objects, regex, alive, []) && AfterAll(regex, alive, []) == alive
  {
  }

  lemma AllowedNext(ctxt: NetworkContext, regex: Option<string -> bool>, alive: set<VariableBuffer>, passes: seq<Pass>, k: nat)
    requires k < |passes|
    ensures var now := AfterAll(regex, alive, passes[..k]);
      && AfterAll(regex, alive, passes[..k + 1]) == After(regex, now, passes[k])
      && (AllAllowed(ctxt.objects, regex, alive, passes[..k + 1]) <==>
            AllAllowed(ctxt.objects, regex, alive, passes[..k]) && Allowed(ctxt.objects, regex, now, passes[k]))
      && (forall level :: SizeSum(SkippedInAll(ctxt.objects, regex, alive, passes[..k + 1]), level) ==
            SizeSum(SkippedInAll(ctxt.objects, regex, alive, passes[..k]), level) + SizeSum(SkippedIn(ctxt.objects, regex, now, passes[k]), level))
      && (forall start, level :: CountedPeak(ctxt, regex, alive, passes[..k + 1], start, level) ==
            Max(CountedPeak(ctxt, regex, alive, passes[..k], start, level),
              Volume(ctxt.localObjects, During(regex, now, passes[k]), level) + SizeSum(SkippedInAll(ctxt.objects, regex, alive, passes[..k]), level)))
  {
    hide Volume, SkippedIn, Allowed, During, After, SizeSum;
    assert passes[..k + 1][..k] == passes[..k];
    var before, more := SkippedInAll(ctxt.objects, regex, alive, passes[..k]), SkippedIn(ctxt.objects, regex, AfterAll(regex, alive, passes[..k]), passes[k]);
    forall level ensures SizeSum(before + more, level) == SizeSum(before, level) + SizeSum(more, level) {
      SizeSumConcat(before, more, level);
    }
  }

  lemma {:induction false} SizeSumConcat(a: seq<VariableBuffer>, b: seq<VariableBuffer>, level: string)
    ensures SizeSum(a + b, level) == SizeSum(a, level) + SizeSum(b, level)
  {
    if a == [] {
      assert a + b == b;
    } else {
      assert (a + b)[1..] == a[1..] + b;
      SizeSumConcat(a[1..], b, level);
    }
  }

  lemma {:induction false} AllowedPrefix(objects: map<string, VariableBuffer>, regex: Option<string -> bool>, alive: set<VariableBuffer>, passes: seq<Pass>, k: nat)
    requires k < |passes|
    ensures AllAllowed(objects, regex, alive, passes) ==> Allowed(objects, regex, AfterAll(regex, alive, passes[..k]), passes[k])
    decreases |passes|
  {
    hide Allowed;
    if k < |passes| - 1 {
      AllowedPrefix(objects, regex, alive, passes[..|passes| - 1], k);
      assert passes[..|passes| - 1][..k] == passes[..k];
    }
  }

  lemma NothingSkipped(objects: map<string, VariableBuffer>, alive: set<VariableBuffer>)
    ensures forall level :: SizeSum(Skipped(objects, alive, []), level) == 0
  {}

  lemma LocalNames(ctxt: NetworkContext, buffers: seq<VariableBuffer>)
    requires Registered(ctxt.objects) && Distinct(buffers) && forall b :: b in buffers ==> b in ctxt.objects.Values
    ensures DistinctNames(buffers)
  {
    forall i, j | 0 <= i < j < |buffers| ensures buffers[i].name != buffers[j].name {
      assert buffers[i] in buffers && buffers[j] in buffers;
    }
  }

  lemma {:induction false} SizeSumIsZero(buffers: seq<VariableBuffer>, level: string)
    ensures SizeSum(buffers, level) == 0 <==> forall b :: b in buffers ==> Share(b, level) == 0
  {
    if buffers != [] {
      SizeSumIsZero(buffers[1..], level);
      assert buffers == [buffers[0]] + buffers[1..];
    }
  }

  /** With a surplus of the skipped sizes, the count is that of the live buffers exactly when no skipped
      buffer takes any bytes. */
  lemma StillAccountedIff(ctxt: NetworkContext, skipped: seq<VariableBuffer>)
    ensures (forall level :: ctxt.Surplus(level) == SizeSum(skipped, level)) ==> (ctxt.Accounted() <==> NoBytes(skipped))
  {
    if (forall level :: ctxt.Surplus(level) == SizeSum(skipped, level)) && ctxt.Accounted() {
      forall b | b in skipped ensures b.sizeInBytes == 0 {
        assert ctxt.Surplus(LevelOf(b)) == 0;
        SizeSumIsZero(skipped, LevelOf(b));
        assert Share(b, LevelOf(b)) == 0;
      }
    }
    if (forall level :: ctxt.Surplus(level) == SizeSum(skipped, level)) && NoBytes(skipped) {
      forall level ensures ctxt.Surplus(level) == 0 { SizeSumIsZero(skipped, level); }
    }
  }

  /** No buffer without aliases is skipped, unless it is an input or an output of the network. */
  lemma {:induction false} UnaliasedNotSkipped(objects: map<string, VariableBuffer>, alive: set<VariableBuffer>, buffers: seq<VariableBuffer>)
    requires Registered(objects)
    requires forall b :: b in buffers ==> b in objects.Values && b.aliases == {} && !b.isInput && !b.isOutput
    ensures Skipped(objects, alive, buffers) == []
  {
    if buffers != [] {
      var b := buffers[0];
      assert b in buffers && objects[b.name] == b;
      forall t | Reaches(LinksOf(objects), b.name, Characters(b.name), t) ensures t == b.name {}
      UnaliasedNotSkipped(objects, alive - {b}, buffers[1..]);
    }
  }

  /** A node that frees both ends of an alias link gives back the second one only. */
  lemma LinkedPairKeepsFirst(objects: map<string, VariableBuffer>, a: VariableBuffer, b: VariableBuffer)
    requires Registered(objects) && a in objects.Values && b in objects.Values && a.name != b.name
    requires a.aliases == {b.name} && b.aliases == {a.name} && !a.isInput && !a.isOutput && !b.isInput && !b.isOutput
    ensures Skipped(objects, {a, b}, [a, b]) == [a]
  {
    var g := LinksOf(objects);
    assert objects[a.name] == a && objects[b.name] == b;
    StepReaches(g, a.name, Characters(a.name), a.name, b.name);
    var both := {a.name, b.name};
    forall t | Reaches(g, b.name, Characters(b.name), t) ensures t in both {
      if t != b.name {
        var path :| WalkAvoiding(g, b.name, Characters(b.name), path) && path[|path| - 1] == t;
        PathDone(g, b.name, Characters(b.name), both, path);
      }
    }
    assert {a, b} - {a} == {b} && {b} - {b} == {};
    assert Skipped(objects, {b}, [b]) == [] by {
      assert [b][1..] == [] && !SomeExplored(g, b.name, Flagged(objects, {}));
    }
    assert [a, b][1..] == [b];
    assert b.name in Flagged(objects, {b}) && SomeExplored(g, a.name, Flagged(objects, {b}));
  }
}
