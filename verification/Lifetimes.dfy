/** Lifetimes of the tensors of a schedule in one memory level, and the memory map's own test of them. */
module Lifetimes {
  import opened Options
  import opened Aliases

  datatype Buffer = Buffer(homeLevel: string, transient: bool, constant: bool, deploy: bool,
                           isInput: bool, isOutput: bool, isGlobal: bool, alias: Option<string>)

  type Context = map<string, Buffer>

  /** A tensor of a step, with the memory levels it is constrained in. */
  datatype TensorConstraint = TensorConstraint(name: string, levels: seq<string>)

  type Interval = (nat, nat)

  /** filterTensorMemoryConstraint, from the k-th level on. */
  predicate KeptFrom(b: Buffer, levels: seq<string>, k: nat, memoryLevel: string, tileScheduler: bool)
    requires k <= |levels|
    decreases |levels| - k
  {
    if k == |levels| then false
    else if levels[k] != memoryLevel then KeptFrom(b, levels, k + 1, memoryLevel, tileScheduler)
    else if b.transient then tileScheduler
    else if levels[k] == b.homeLevel && !tileScheduler then !b.constant
    else if levels[k] != b.homeLevel && tileScheduler then true
    else KeptFrom(b, levels, k + 1, memoryLevel, tileScheduler)
  }

  predicate Kept(b: Buffer, levels: seq<string>, memoryLevel: string, tileScheduler: bool) {
    b.deploy && KeptFrom(b, levels, 0, memoryLevel, tileScheduler)
  }

  /** Transient buffers belong to the tile scheduler; other tensors to the outer scheduler in their
      home level, unless constant, and to the tile scheduler elsewhere. */
  lemma {:induction false} KeptIff(b: Buffer, levels: seq<string>, k: nat, memoryLevel: string, tileScheduler: bool)
    requires k <= |levels|
    ensures KeptFrom(b, levels, k, memoryLevel, tileScheduler) <==>
      memoryLevel in levels[k..] &&
      (if b.transient then tileScheduler
       else if tileScheduler then memoryLevel != b.homeLevel
       else memoryLevel == b.homeLevel && !b.constant)
    decreases |levels| - k
  {
    if k < |levels| {
      assert levels[k..] == [levels[k]] + levels[k + 1..];
      KeptIff(b, levels, k + 1, memoryLevel, tileScheduler);
    }
  }

  /** So a tensor deployed and constrained in a level is kept there by just one of the two schedulers, at
      most: away from home or transient by the tile scheduler, at home and not constant by the outer one. */
  lemma KeptMeans(b: Buffer, levels: seq<string>, memoryLevel: string)
    ensures Kept(b, levels, memoryLevel, true) <==> b.deploy && memoryLevel in levels && (b.transient || b.homeLevel != memoryLevel)
    ensures Kept(b, levels, memoryLevel, false) <==>
      b.deploy && memoryLevel in levels && !b.transient && b.homeLevel == memoryLevel && !b.constant
  {
    KeptIff(b, levels, 0, memoryLevel, true);
    KeptIff(b, levels, 0, memoryLevel, false);
  }

  // ----- mentions and lifetimes -----

  /** A kept tensor named at a step. */
  datatype Mention = Mention(step: nat, name: string)

  predicate Registered(ctxt: Context, steps: seq<seq<TensorConstraint>>) {
    forall s, k :: 0 <= s < |steps| && 0 <= k < |steps[s]| ==> steps[s][k].name in ctxt
  }

  function StepMentions(ctxt: Context, step: nat, constraints: seq<TensorConstraint>, level: string, tile: bool): seq<Mention>
    requires forall k :: 0 <= k < |constraints| ==> constraints[k].name in ctxt
  {
    if constraints == [] then []
    else
      var last := constraints[|constraints| - 1];
      StepMentions(ctxt, step, constraints[..|constraints| - 1], level, tile)
      + if Kept(ctxt[last.name], last.levels, level, tile) then [Mention(step, last.name)] else []
  }

  /** All kept mentions of a schedule, in order. */
  function Mentions(ctxt: Context, steps: seq<seq<TensorConstraint>>, level: string, tile: bool): seq<Mention>
    requires Registered(ctxt, steps)
  {
    if steps == [] then []
    else
      var last := |steps| - 1;
      Mentions(ctxt, steps[..last], level, tile) + StepMentions(ctxt, last, steps[last], level, tile)
  }

  /** One mention: it extends the alias target, then the tensor itself. */
  function Touch(ctxt: Context, life: map<string, Interval>, m: Mention): map<string, Interval>
    requires m.name in ctxt
  {
    var alias := ctxt[m.name].alias;
    var extended := if alias.Some? && alias.value in life then life[alias.value := (life[alias.value].0, m.step)] else life;
    if m.name in extended then extended[m.name := (extended[m.name].0, m.step)] else extended[m.name := (m.step, m.step)]
  }

  ghost predicate AllRegistered(ctxt: Context, log: seq<Mention>) {
    forall q :: 0 <= q < |log| ==> log[q].name in ctxt
  }

  function Life(ctxt: Context, log: seq<Mention>): map<string, Interval>
    requires AllRegistered(ctxt, log)
  {
    if log == [] then map[] else Touch(ctxt, Life(ctxt, log[..|log| - 1]), log[|log| - 1])
  }

  /** Tensors in the order they are first mentioned. */
  function Order(log: seq<Mention>): seq<string> {
    if log == [] then []
    else
      var before, name := Order(log[..|log| - 1]), log[|log| - 1].name;
      if name in before then before else before + [name]
  }

  /** Inputs are alive from step 0, outputs to the last step; for a tensor that is both, the code
      keeps its first step. */
  function Align(b: Buffer, life: Interval, maxStep: nat): Interval {
    if b.isOutput then (life.0, maxStep) else if b.isInput then (0, life.1) else life
  }

  function Aligned(ctxt: Context, life: map<string, Interval>, maxStep: nat): map<string, Interval>
    requires forall t :: t in life ==> t in ctxt
  {
    map t | t in life :: Align(ctxt[t], life[t], maxStep)
  }

  method CalculateLifetimes(ctxt: Context, steps: seq<seq<TensorConstraint>>, memoryLevel: string, tileScheduler: bool)
    returns (order: seq<string>, lifetimes: map<string, Interval>)
    requires Registered(ctxt, steps)
    ensures var log := Mentions(ctxt, steps, memoryLevel, tileScheduler);
      && AllRegistered(ctxt, log) && order == Order(log)
      && (forall t :: t in Life(ctxt, log) ==> t in ctxt)
      && lifetimes == Aligned(ctxt, Life(ctxt, log), |steps|)
      && forall t :: t in lifetimes ==> exists first, last :: AliveFromTo(ctxt, log, |steps|, false, t, lifetimes[t], first, last)
  {
    hide Life, Order, Kept, Touch, Mentions, StepMentions;
    var life: map<string, Interval> := map[];
    order := [];
    ghost var log: seq<Mention> := [];
    EmptyLog(ctxt, memoryLevel, tileScheduler);
    for s := 0 to |steps|
      invariant log == Mentions(ctxt, steps[..s], memoryLevel, tileScheduler)
      invariant AllRegistered(ctxt, log) && life == Life(ctxt, log) && order == Order(log)
    {
      ghost var before := log;
      NextStep(ctxt, steps, s, memoryLevel, tileScheduler);
      assert log == before + StepMentions(ctxt, s, steps[s][..0], memoryLevel, tileScheduler);
      for k := 0 to |steps[s]|
        invariant log == before + StepMentions(ctxt, s, steps[s][..k], memoryLevel, tileScheduler)
        invariant AllRegistered(ctxt, log) && life == Life(ctxt, log) && order == Order(log)
      {
        var name, buffer := steps[s][k].name, ctxt[steps[s][k].name];
        NextMention(ctxt, s, steps[s], k, memoryLevel, tileScheduler);
        if !Kept(buffer, steps[s][k].levels, memoryLevel, tileScheduler) { continue; }
        NextTouch(ctxt, log, Mention(s, name));
        log := log + [Mention(s, name)];
        if buffer.alias.Some? && buffer.alias.value in life {
          life := life[buffer.alias.value := (life[buffer.alias.value].0, s)];
        }
        if name in life {
          life := life[name := (life[name].0, s)];
        } else {
          life := life[name := (s, s)];
          order := order + [name];
        }
      }
      assert steps[s][..|steps[s]|] == steps[s];
    }
    assert steps[..|steps|] == steps;
    OrderIsKeys(ctxt, log);
    lifetimes := Aligned(ctxt, life, |steps|);
    assert lifetimes == Scheduled(ctxt, Life(ctxt, log), |steps|, false);
    forall t | t in lifetimes ensures exists first, last :: AliveFromTo(ctxt, log, |steps|, false, t, lifetimes[t], first, last) {
      var first, last := ScheduledSpan(ctxt, log, |steps|, false, t);
    }
  }

  lemma EmptyLog(ctxt: Context, level: string, tile: bool)
    ensures Mentions(ctxt, [], level, tile) == [] && Life(ctxt, []) == map[] && Order([]) == []
  {
  }

  lemma NextStep(ctxt: Context, steps: seq<seq<TensorConstraint>>, s: nat, level: string, tile: bool)
    requires Registered(ctxt, steps) && s < |steps|
    ensures Mentions(ctxt, steps[..s + 1], level, tile)
         == Mentions(ctxt, steps[..s], level, tile) + StepMentions(ctxt, s, steps[s], level, tile)
    ensures StepMentions(ctxt, s, [], level, tile) == []
  {
    assert steps[..s + 1][..s] == steps[..s];
  }

  lemma NextMention(ctxt: Context, s: nat, constraints: seq<TensorConstraint>, k: nat, level: string, tile: bool)
    requires (forall i :: 0 <= i < |constraints| ==> constraints[i].name in ctxt) && k < |constraints|
    ensures StepMentions(ctxt, s, constraints[..k + 1], level, tile) == StepMentions(ctxt, s, constraints[..k], level, tile)
      + if Kept(ctxt[constraints[k].name], constraints[k].levels, level, tile) then [Mention(s, constraints[k].name)] else []
  {
    assert constraints[..k + 1][..k] == constraints[..k];
  }

  /** A further mention, spelled out. */
  lemma NextTouch(ctxt: Context, log: seq<Mention>, m: Mention)
    requires AllRegistered(ctxt, log) && m.name in ctxt
    ensures AllRegistered(ctxt, log + [m])
    ensures var life, alias := Life(ctxt, log), ctxt[m.name].alias;
      var extended := if alias.Some? && alias.value in life then life[alias.value := (life[alias.value].0, m.step)] else life;
      && (Life(ctxt, log + [m]) ==
          if m.name in extended then extended[m.name := (extended[m.name].0, m.step)] else extended[m.name := (m.step, m.step)])
      && (Order(log + [m]) == if m.name in extended then Order(log) else Order(log) + [m.name])
  {
    assert (log + [m])[..|log|] == log;
    OrderIsKeys(ctxt, log);
  }

  lemma {:induction false} OrderIsKeys(ctxt: Context, log: seq<Mention>)
    requires AllRegistered(ctxt, log)
    ensures forall t :: t in Order(log) <==> t in Life(ctxt, log)
    ensures forall t :: t in Life(ctxt, log) ==> t in ctxt
    ensures forall i, j :: 0 <= i < j < |Order(log)| ==> Order(log)[i] != Order(log)[j]
  {
    if log != [] { OrderIsKeys(ctxt, log[..|log| - 1]); }
  }

  /** Position q extends tensor t: it names t, or names a buffer aliasing t after t was named. */
  ghost predicate Touches(ctxt: Context, log: seq<Mention>, q: nat, t: string)
    requires AllRegistered(ctxt, log) && q < |log|
  {
    log[q].name == t || (ctxt[log[q].name].alias == Some(t) && exists r :: 0 <= r < q && log[r].name == t)
  }

  ghost predicate Chronological(log: seq<Mention>) {
    forall q, r :: 0 <= q < r < |log| ==> log[q].step <= log[r].step
  }

  /** The interval starts with the first mention and ends with the last touch. */
  ghost predicate Spans(ctxt: Context, log: seq<Mention>, t: string, life: Interval, first: nat, last: nat)
    requires AllRegistered(ctxt, log)
  {
    && first <= last < |log| && log[first].name == t && Touches(ctxt, log, last, t)
    && life == (log[first].step, log[last].step)
    && (forall q :: 0 <= q < first ==> log[q].name != t)
    && (forall q :: last < q < |log| ==> !Touches(ctxt, log, q, t))
  }

  lemma {:induction false} LifeSpans(ctxt: Context, log: seq<Mention>, t: string) returns (first: nat, last: nat)
    requires AllRegistered(ctxt, log) && t in Life(ctxt, log)
    ensures Spans(ctxt, log, t, Life(ctxt, log)[t], first, last)
  {
    var l := |log| - 1;
    var before := Life(ctxt, log[..l]);
    if t in before {
      first, last := LifeSpans(ctxt, log[..l], t);
      forall q | 0 <= q < l ensures Touches(ctxt, log, q, t) <==> Touches(ctxt, log[..l], q, t) {
        TouchesPrefix(ctxt, log, q, t);
      }
      if Touches(ctxt, log, l, t) {
        last := l;
      } else {
        assert log[first].name == t;
      }
    } else {
      first, last := l, l;
      forall q | 0 <= q < l ensures log[q].name != t {
        OrderIsKeys(ctxt, log[..l]);
        MentionedIsKey(ctxt, log[..l], q);
      }
    }
  }

  lemma TouchesPrefix(ctxt: Context, log: seq<Mention>, q: nat, t: string)
    requires AllRegistered(ctxt, log) && log != [] && q < |log| - 1
    ensures Touches(ctxt, log, q, t) <==> Touches(ctxt, log[..|log| - 1], q, t)
  {
    var p := log[..|log| - 1];
    if exists r :: 0 <= r < q && log[r].name == t {
      var r :| 0 <= r < q && log[r].name == t;
      assert p[r].name == t;
    }
  }

  lemma {:induction false} MentionedIsKey(ctxt: Context, log: seq<Mention>, q: nat)
    requires AllRegistered(ctxt, log) && q < |log|
    ensures log[q].name in Life(ctxt, log)
  {
    if q < |log| - 1 { MentionedIsKey(ctxt, log[..|log| - 1], q); }
  }

  lemma {:induction false} MentionsChronological(ctxt: Context, steps: seq<seq<TensorConstraint>>, level: string, tile: bool)
    requires Registered(ctxt, steps)
    ensures var log := Mentions(ctxt, steps, level, tile);
      && Chronological(log) && AllRegistered(ctxt, log) && forall q :: 0 <= q < |log| ==> log[q].step < |steps|
  {
    if steps != [] {
      var last := |steps| - 1;
      MentionsChronological(ctxt, steps[..last], level, tile);
      OneStep(ctxt, last, steps[last], level, tile);
    }
  }

  lemma {:induction false} OneStep(ctxt: Context, step: nat, constraints: seq<TensorConstraint>, level: string, tile: bool)
    requires forall k :: 0 <= k < |constraints| ==> constraints[k].name in ctxt
    ensures forall q :: 0 <= q < |StepMentions(ctxt, step, constraints, level, tile)| ==>
      StepMentions(ctxt, step, constraints, level, tile)[q].step == step && StepMentions(ctxt, step, constraints, level, tile)[q].name in ctxt
  {
    if constraints != [] { OneStep(ctxt, step, constraints[..|constraints| - 1], level, tile); }
  }

  /** The log has a tensor at a step exactly when the step constrains it and the scheduler keeps it. */
  lemma MentionedIff(ctxt: Context, steps: seq<seq<TensorConstraint>>, level: string, tile: bool, s: nat, t: string)
    requires Registered(ctxt, steps)
    ensures Mention(s, t) in Mentions(ctxt, steps, level, tile) <==>
      s < |steps| && exists k :: 0 <= k < |steps[s]| && steps[s][k].name == t && Kept(ctxt[t], steps[s][k].levels, level, tile)
  {
    hide Kept;
    if Mention(s, t) in Mentions(ctxt, steps, level, tile) { LoggedIsKept(ctxt, steps, level, tile, s, t); }
    if s < |steps| {
      if k :| 0 <= k < |steps[s]| && steps[s][k].name == t && Kept(ctxt[t], steps[s][k].levels, level, tile) {
        MentionLogged(ctxt, steps, level, tile, s, k);
      }
    }
  }

  lemma {:induction false} LoggedIsKept(ctxt: Context, steps: seq<seq<TensorConstraint>>, level: string, tile: bool, s: nat, t: string)
    requires Registered(ctxt, steps) && Mention(s, t) in Mentions(ctxt, steps, level, tile)
    ensures s < |steps| && exists k :: 0 <= k < |steps[s]| && steps[s][k].name == t && Kept(ctxt[t], steps[s][k].levels, level, tile)
  {
    hide Kept;
    var last := |steps| - 1;
    if Mention(s, t) in Mentions(ctxt, steps[..last], level, tile) {
      LoggedIsKept(ctxt, steps[..last], level, tile, s, t);
    } else {
      StepLoggedIsKept(ctxt, last, steps[last], level, tile, s, t);
    }
  }

  lemma {:induction false} StepLoggedIsKept(ctxt: Context, step: nat, constraints: seq<TensorConstraint>, level: string, tile: bool, s: nat, t: string)
    requires (forall i :: 0 <= i < |constraints| ==> constraints[i].name in ctxt) && Mention(s, t) in StepMentions(ctxt, step, constraints, level, tile)
    ensures s == step && exists k :: 0 <= k < |constraints| && constraints[k].name == t && Kept(ctxt[t], constraints[k].levels, level, tile)
  {
    hide Kept;
    var before := constraints[..|constraints| - 1];
    if Mention(s, t) in StepMentions(ctxt, step, before, level, tile) {
      StepLoggedIsKept(ctxt, step, before, level, tile, s, t);
      var k :| 0 <= k < |before| && before[k].name == t && Kept(ctxt[t], before[k].levels, level, tile);
      assert constraints[k] == before[k];
    }
  }

  /** Every kept tensor of every step is in the log. */
  lemma {:induction false} MentionLogged(ctxt: Context, steps: seq<seq<TensorConstraint>>, level: string, tile: bool, s: nat, k: nat)
    requires Registered(ctxt, steps) && s < |steps| && k < |steps[s]|
    requires Kept(ctxt[steps[s][k].name], steps[s][k].levels, level, tile)
    ensures Mention(s, steps[s][k].name) in Mentions(ctxt, steps, level, tile)
  {
    var last := |steps| - 1;
    if s == last {
      StepMentionLogged(ctxt, s, steps[s], level, tile, k);
    } else {
      MentionLogged(ctxt, steps[..last], level, tile, s, k);
    }
  }

  lemma {:induction false} StepMentionLogged(ctxt: Context, step: nat, constraints: seq<TensorConstraint>, level: string, tile: bool, k: nat)
    requires (forall i :: 0 <= i < |constraints| ==> constraints[i].name in ctxt) && k < |constraints|
    requires Kept(ctxt[constraints[k].name], constraints[k].levels, level, tile)
    ensures Mention(step, constraints[k].name) in StepMentions(ctxt, step, constraints, level, tile)
  {
    if k < |constraints| - 1 { StepMentionLogged(ctxt, step, constraints[..|constraints| - 1], level, tile, k); }
  }

  /** What a lifetime map promises about the schedule it was computed from. */
  ghost predicate CoversUse(ctxt: Context, log: seq<Mention>, lifetimes: map<string, Interval>, maxStep: nat) {
    && (forall q :: 0 <= q < |log| ==>
          log[q].name in lifetimes && lifetimes[log[q].name].0 <= log[q].step <= lifetimes[log[q].name].1)
    && (forall t :: t in lifetimes ==> t in ctxt && lifetimes[t].0 <= lifetimes[t].1 <= maxStep)
    && (forall t :: t in lifetimes && ctxt[t].isOutput ==> lifetimes[t].1 == maxStep)
    && (forall t :: t in lifetimes && ctxt[t].isInput && !ctxt[t].isOutput ==> lifetimes[t].0 == 0)
  }

  /** The lifetimes a scheduler hands on; the training scheduler keeps inputs for the whole schedule. */
  function Scheduled(ctxt: Context, life: map<string, Interval>, maxStep: nat, training: bool): map<string, Interval>
    requires forall t :: t in life ==> t in ctxt
  {
    map t | t in life :: if training && ctxt[t].isInput then (0, maxStep) else Align(ctxt[t], life[t], maxStep)
  }

  lemma LifetimesCoverUse(ctxt: Context, log: seq<Mention>, maxStep: nat, training: bool)
    requires AllRegistered(ctxt, log) && Chronological(log) && forall q :: 0 <= q < |log| ==> log[q].step < maxStep
    ensures forall t :: t in Life(ctxt, log) ==> t in ctxt
    ensures CoversUse(ctxt, log, Scheduled(ctxt, Life(ctxt, log), maxStep, training), maxStep)
  {
    OrderIsKeys(ctxt, log);
    forall q | 0 <= q < |log|
      ensures log[q].name in Life(ctxt, log)
        && Life(ctxt, log)[log[q].name].0 <= log[q].step <= Life(ctxt, log)[log[q].name].1
    {
      MentionedIsKey(ctxt, log, q);
      var first, last := LifeSpans(ctxt, log, log[q].name);
      assert Touches(ctxt, log, q, log[q].name);
    }
    forall t | t in Life(ctxt, log) ensures Life(ctxt, log)[t].0 <= Life(ctxt, log)[t].1 < maxStep {
      var first, last := LifeSpans(ctxt, log, t);
    }
  }

  /** From the first mention, at position first, to the last mention of the tensor or of an alias of it,
      at position last; but an input from the start, and an output to the end. The training scheduler
      keeps inputs for the whole schedule. */
  ghost predicate AliveFromTo(ctxt: Context, log: seq<Mention>, maxStep: nat, training: bool, t: string, life: Interval, first: nat, last: nat)
    requires AllRegistered(ctxt, log)
  {
    && t in ctxt && first <= last < |log|
    && log[first].name == t && (forall q :: 0 <= q < first ==> log[q].name != t)
    && (log[last].name == t || ctxt[log[last].name].alias == Some(t))
    && (forall q :: last < q < |log| ==> log[q].name != t && ctxt[log[q].name].alias != Some(t))
    && life.0 == (if ctxt[t].isInput && (training || !ctxt[t].isOutput) then 0 else log[first].step)
    && life.1 == (if ctxt[t].isOutput || (training && ctxt[t].isInput) then maxStep else log[last].step)
  }

  /** A scheduled lifetime in the schedule's own terms. */
  lemma ScheduledSpan(ctxt: Context, log: seq<Mention>, maxStep: nat, training: bool, t: string) returns (first: nat, last: nat)
    requires AllRegistered(ctxt, log) && t in Life(ctxt, log)
    ensures forall u :: u in Life(ctxt, log) ==> u in ctxt
    ensures AliveFromTo(ctxt, log, maxStep, training, t, Scheduled(ctxt, Life(ctxt, log), maxStep, training)[t], first, last)
  {
    OrderIsKeys(ctxt, log);
    first, last := LifeSpans(ctxt, log, t);
    forall q | last < q < |log| ensures log[q].name != t && ctxt[log[q].name].alias != Some(t) {
      assert !Touches(ctxt, log, q, t);
      assert log[first].name == t;
    }
  }

  /** The step a tensor is first mentioned at. */
  function FirstStep(log: seq<Mention>, t: string): nat {
    if log == [] then 0 else if log[0].name == t then log[0].step else FirstStep(log[1..], t)
  }

  lemma {:induction false} FirstStepAt(log: seq<Mention>, t: string, first: nat)
    requires first < |log| && log[first].name == t && forall q :: 0 <= q < first ==> log[q].name != t
    ensures FirstStep(log, t) == log[first].step
  {
    if first > 0 {
      forall q | 0 <= q < first - 1 ensures log[1..][q].name != t { assert log[q + 1].name != t; }
      FirstStepAt(log[1..], t, first - 1);
    }
  }

  /** The step a scheduled lifetime starts at. */
  function StartOf(ctxt: Context, log: seq<Mention>, t: string, training: bool): nat
    requires t in ctxt
  {
    if ctxt[t].isInput && (training || !ctxt[t].isOutput) then 0 else FirstStep(log, t)
  }

  lemma ScheduledStart(ctxt: Context, log: seq<Mention>, maxStep: nat, training: bool, t: string)
    requires AllRegistered(ctxt, log) && t in Life(ctxt, log)
    ensures forall u :: u in Life(ctxt, log) ==> u in ctxt
    ensures Scheduled(ctxt, Life(ctxt, log), maxStep, training)[t].0 == StartOf(ctxt, log, t, training)
  {
    OrderIsKeys(ctxt, log);
    var first, last := LifeSpans(ctxt, log, t);
    FirstStepAt(log, t, first);
  }

  // ----- the training scheduler -----

  /** TrainingMemoryScheduler: inputs stay alive for the whole schedule. */
  method CalculateTrainingLifetimes(ctxt: Context, steps: seq<seq<TensorConstraint>>, memoryLevel: string, tileScheduler: bool)
    returns (order: seq<string>, lifetimes: map<string, Interval>)
    requires Registered(ctxt, steps)
    ensures var log := Mentions(ctxt, steps, memoryLevel, tileScheduler);
      && AllRegistered(ctxt, log) && order == Order(log)
      && (forall t :: t in Life(ctxt, log) ==> t in ctxt)
      && lifetimes == Scheduled(ctxt, Life(ctxt, log), |steps|, true)
      && forall t :: t in lifetimes ==> exists first, last :: AliveFromTo(ctxt, log, |steps|, true, t, lifetimes[t], first, last)
  {
    hide Mentions, Order, Life, AliveFromTo;
    ghost var log := Mentions(ctxt, steps, memoryLevel, tileScheduler);
    var plain;
    order, plain := CalculateLifetimes(ctxt, steps, memoryLevel, tileScheduler);
    OrderIsKeys(ctxt, log);
    lifetimes := StretchInputs(ctxt, order, plain, |steps|);
    assert lifetimes == Scheduled(ctxt, Life(ctxt, log), |steps|, true);
    forall t | t in lifetimes ensures exists first, last :: AliveFromTo(ctxt, log, |steps|, true, t, lifetimes[t], first, last) {
      var first, last := ScheduledSpan(ctxt, log, |steps|, true, t);
    }
  }

  method StretchInputs(ctxt: Context, order: seq<string>, plain: map<string, Interval>, maxStep: nat) returns (lifetimes: map<string, Interval>)
    requires (forall t :: t in order <==> t in plain) && forall t :: t in plain ==> t in ctxt
    ensures lifetimes.Keys == plain.Keys
    ensures forall t :: t in plain ==> lifetimes[t] == if ctxt[t].isInput then (0, maxStep) else plain[t]
  {
    lifetimes := plain;
    for k := 0 to |order|
      invariant lifetimes.Keys == plain.Keys
      invariant forall t :: t in plain ==> lifetimes[t] == if ctxt[t].isInput && t in order[..k] then (0, maxStep) else plain[t]
    {
      var t := order[k];
      assert order[..k + 1] == order[..k] + [t];
      if ctxt[t].isInput { lifetimes := lifetimes[t := (0, maxStep)]; }
    }
    assert order[..|order|] == order;
  }

  // ----- aliases -----

  predicate LocalAlias(ctxt: Context, root: map<string, string>, t: string)
    requires t in root
  {
    root[t] != t && !(root[t] in ctxt && ctxt[root[t]].isGlobal)
  }

  /** The later of an interval's end and the ends of the first k tensors that resolve to t. */
  ghost function LatestEnd(ctxt: Context, root: map<string, string>, order: seq<string>, lifetimes: map<string, Interval>, t: string): nat
    requires t in lifetimes && forall u :: u in order ==> u in root && u in lifetimes
  {
    if order == [] then lifetimes[t].1
    else
      var rest, u := LatestEnd(ctxt, root, order[..|order| - 1], lifetimes, t), order[|order| - 1];
      if LocalAlias(ctxt, root, u) && root[u] == t && lifetimes[u].1 > rest then lifetimes[u].1 else rest
  }

  /** One key of the pass: a global alias starts at 0, a local alias stretches its target. */
  function DealiasKey(ctxt: Context, root: map<string, string>, life: map<string, Interval>, key: string): (r: map<string, Interval>)
    requires key in root && key in life && (LocalAlias(ctxt, root, key) ==> root[key] in life)
    ensures r.Keys == life.Keys
  {
    var alias := root[key];
    if alias == key then life
    else if alias in ctxt && ctxt[alias].isGlobal then life[key := (0, life[key].1)]
    else life[alias := (life[alias].0, if life[key].1 > life[alias].1 then life[key].1 else life[alias].1)]
  }

  ghost predicate TargetsPresent(ctxt: Context, root: map<string, string>, order: seq<string>, life: map<string, Interval>)
    requires forall t :: t in order ==> t in root
  {
    forall t :: t in order && LocalAlias(ctxt, root, t) ==> root[t] in life
  }

  ghost function DealiasAll(ctxt: Context, root: map<string, string>, order: seq<string>, life: map<string, Interval>): (r: map<string, Interval>)
    requires (forall t :: t in order ==> t in root && t in life) && TargetsPresent(ctxt, root, order, life)
    ensures r.Keys == life.Keys
  {
    if order == [] then life
    else
      assert order[|order| - 1] in order;
      DealiasKey(ctxt, root, DealiasAll(ctxt, root, order[..|order| - 1], life), order[|order| - 1])
  }

  /** What the pass makes of a tensor. */
  ghost function Dealiased(ctxt: Context, root: map<string, string>, order: seq<string>, lifetimes: map<string, Interval>, t: string): Interval
    requires (forall u :: u in order ==> u in root && u in lifetimes) && t in lifetimes && t in root
  {
    if root[t] == t then (lifetimes[t].0, LatestEnd(ctxt, root, order, lifetimes, t))
    else if LocalAlias(ctxt, root, t) || t !in order then lifetimes[t]
    else (0, lifetimes[t].1)
  }

  lemma {:induction false} DealiasMeaning(ctxt: Context, root: map<string, string>, order: seq<string>, life: map<string, Interval>, t: string)
    requires (forall u :: u in order ==> u in root && u in life) && TargetsPresent(ctxt, root, order, life)
    requires (forall u :: u in root ==> root[u] in root && root[root[u]] == root[u]) && t in life && t in root
    requires forall i, j :: 0 <= i < j < |order| ==> order[i] != order[j]
    ensures DealiasAll(ctxt, root, order, life)[t] == Dealiased(ctxt, root, order, life, t)
  {
    if order != [] {
      var before, key := order[..|order| - 1], order[|order| - 1];
      assert order == before + [key];
      DealiasMeaning(ctxt, root, before, life, t);
      if root[t] == t && LocalAlias(ctxt, root, key) && root[key] == t {
        DealiasMeaning(ctxt, root, before, life, key);
      }
    }
  }

  /** Stretches the targets of local aliases over their aliases; None when a target is missing. The
      tile scheduler leaves its lifetimes alone. */
  method DealiasLifetimeMap(ctxt: Context, root: map<string, string>, order: seq<string>, lifetimes: map<string, Interval>, tileScheduler: bool)
    returns (r: Option<map<string, Interval>>)
    requires Resolves(root, order) && (forall t :: t in order <==> t in lifetimes)
    requires forall i, j :: 0 <= i < j < |order| ==> order[i] != order[j]
    ensures tileScheduler ==> r == Some(lifetimes)
    ensures !tileScheduler ==> (r.None? <==> !TargetsPresent(ctxt, root, order, lifetimes))
    ensures r.Some? ==> r.value.Keys == lifetimes.Keys
    ensures !tileScheduler && r.Some? ==> forall t :: t in lifetimes ==> r.value[t] == Dealiased(ctxt, root, order, lifetimes, t)
  {
    if tileScheduler { return Some(lifetimes); }
    hide DealiasAll, Dealiased, LatestEnd, DealiasKey, LocalAlias;
    var current := lifetimes;
    NothingDealiased(ctxt, root, lifetimes);
    for k := 0 to |order|
      invariant TargetsPresent(ctxt, root, order[..k], lifetimes)
      invariant current == DealiasAll(ctxt, root, order[..k], lifetimes)
    {
      if LocalAlias(ctxt, root, order[k]) && root[order[k]] !in current {
        return None;
      }
      DealiasNext(ctxt, root, order, lifetimes, k);
      current := DealiasKey(ctxt, root, current, order[k]);
    }
    assert order[..|order|] == order;
    forall t | t in lifetimes ensures current[t] == Dealiased(ctxt, root, order, lifetimes, t) {
      DealiasMeaning(ctxt, root, order, lifetimes, t);
    }
    r := Some(current);
  }

  lemma NothingDealiased(ctxt: Context, root: map<string, string>, life: map<string, Interval>)
    ensures TargetsPresent(ctxt, root, [], life) && DealiasAll(ctxt, root, [], life) == life
  {
  }

  lemma DealiasNext(ctxt: Context, root: map<string, string>, order: seq<string>, life: map<string, Interval>, k: nat)
    requires k < |order| && (forall t :: t in order ==> t in root && t in life)
    requires TargetsPresent(ctxt, root, order[..k], life) && (LocalAlias(ctxt, root, order[k]) ==> root[order[k]] in life)
    ensures TargetsPresent(ctxt, root, order[..k + 1], life)
    ensures var before := DealiasAll(ctxt, root, order[..k], life);
      order[k] in before && DealiasAll(ctxt, root, order[..k + 1], life) == DealiasKey(ctxt, root, before, order[k])
  {
    assert order[..k + 1][..k] == order[..k] && order[..k + 1] == order[..k] + [order[k]];
  }

  lemma {:induction false} LatestEndBounds(ctxt: Context, root: map<string, string>, order: seq<string>, lifetimes: map<string, Interval>, t: string, maxStep: nat)
    requires t in lifetimes && forall u :: u in order ==> u in root && u in lifetimes
    requires forall u :: u in lifetimes ==> lifetimes[u].1 <= maxStep
    ensures lifetimes[t].1 <= LatestEnd(ctxt, root, order, lifetimes, t) <= maxStep
    ensures forall u :: u in order && LocalAlias(ctxt, root, u) && root[u] == t ==>
      lifetimes[u].1 <= LatestEnd(ctxt, root, order, lifetimes, t)
  {
    if order != [] { LatestEndBounds(ctxt, root, order[..|order| - 1], lifetimes, t, maxStep); }
  }

  /** Lifetimes still cover every use, inputs still start at 0 and outputs end at the last step, and an
      input alive for the whole schedule stays so. */
  lemma DealiasedStillCover(ctxt: Context, root: map<string, string>, log: seq<Mention>, order: seq<string>,
                            lifetimes: map<string, Interval>, dealiased: map<string, Interval>, maxStep: nat)
    requires CoversUse(ctxt, log, lifetimes, maxStep)
    requires Resolves(root, order) && (forall t :: t in order <==> t in lifetimes) && dealiased.Keys == lifetimes.Keys
    requires forall t :: t in lifetimes ==> dealiased[t] == Dealiased(ctxt, root, order, lifetimes, t)
    ensures CoversUse(ctxt, log, dealiased, maxStep)
    ensures forall t :: t in lifetimes && lifetimes[t] == (0, maxStep) ==> dealiased[t] == (0, maxStep)
  {
    forall t | t in lifetimes
      ensures dealiased[t].0 <= lifetimes[t].0 && lifetimes[t].1 <= dealiased[t].1 <= maxStep
      ensures lifetimes[t].1 == maxStep ==> dealiased[t].1 == maxStep
    {
      LatestEndBounds(ctxt, root, order, lifetimes, t, maxStep);
    }
  }

  /** The lifetimes a scheduler allocates by: the outer one's are dealiased, the tile scheduler's are not. */
  ghost predicate LevelLifetimes(ctxt: Context, root: map<string, string>, log: seq<Mention>, maxStep: nat, tile: bool, training: bool,
                                 life: map<string, Interval>)
    requires AllRegistered(ctxt, log)
  {
    && (forall t :: t in Order(log) <==> t in life)
    && (forall t :: t in Life(ctxt, log) ==> t in ctxt)
    && var plain := Scheduled(ctxt, Life(ctxt, log), maxStep, training);
       (forall t :: t in Order(log) ==> t in plain)
       && (tile ==> forall t :: t in Order(log) ==> life[t] == plain[t])
       && (tile || forall t :: t in Order(log) ==> t in root)
       && (!tile ==> forall t :: t in Order(log) ==> life[t] == Dealiased(ctxt, root, Order(log), plain, t))
  }

  /** The target of every local alias is scheduled in the level too. */
  ghost predicate TargetsKept(ctxt: Context, root: map<string, string>, order: seq<string>) {
    forall t :: t in order ==> t in root && (LocalAlias(ctxt, root, t) ==> root[t] in order)
  }

  ghost predicate Within(inner: Interval, outer: Interval) {
    outer.0 <= inner.0 && inner.1 <= outer.1
  }

  /** After dealiasing a local alias lives inside the lifetime of the buffer underneath exactly when
      that buffer is there from the start, or is mentioned no later than the alias's lifetime starts. */
  lemma AliasInsideIff(ctxt: Context, root: map<string, string>, log: seq<Mention>, maxStep: nat, training: bool,
                       life: map<string, Interval>, t: string)
    requires AllRegistered(ctxt, log) && LevelLifetimes(ctxt, root, log, maxStep, false, training, life) && Resolves(root, Order(log))
    requires t in Order(log) && LocalAlias(ctxt, root, t) && root[t] in Order(log)
    ensures Within(life[t], life[root[t]]) <==> StartOf(ctxt, log, root[t], training) <= StartOf(ctxt, log, t, training)
  {
    hide LatestEnd, Life, Order;
    OrderIsKeys(ctxt, log);
    var plain := Scheduled(ctxt, Life(ctxt, log), maxStep, training);
    ScheduledStart(ctxt, log, maxStep, training, t);
    ScheduledStart(ctxt, log, maxStep, training, root[t]);
    LatestEndKept(ctxt, root, Order(log), plain, root[t]);
  }

  lemma {:induction false} LatestEndKept(ctxt: Context, root: map<string, string>, order: seq<string>, lifetimes: map<string, Interval>, t: string)
    requires t in lifetimes && forall u :: u in order ==> u in root && u in lifetimes
    ensures forall u :: u in order && LocalAlias(ctxt, root, u) && root[u] == t ==>
      lifetimes[u].1 <= LatestEnd(ctxt, root, order, lifetimes, t)
  {
    if order != [] { LatestEndKept(ctxt, root, order[..|order| - 1], lifetimes, t); }
  }

  /** On a schedule that names the buffer underneath no later than the alias, and has no alias that is
      an input of its own, every local alias lives inside the buffer underneath. */
  lemma AliasesInside(ctxt: Context, root: map<string, string>, log: seq<Mention>, maxStep: nat, training: bool, life: map<string, Interval>)
    requires AllRegistered(ctxt, log) && Chronological(log) && Resolves(root, Order(log))
    requires LevelLifetimes(ctxt, root, log, maxStep, false, training, life)
    requires forall q :: 0 <= q < |log| && log[q].name in root && LocalAlias(ctxt, root, log[q].name) ==>
      !ctxt[log[q].name].isInput && exists r :: 0 <= r < |log| && log[r].name == root[log[q].name] && log[r].step <= log[q].step
    ensures forall t :: t in Order(log) && LocalAlias(ctxt, root, t) ==> root[t] in Order(log) && Within(life[t], life[root[t]])
  {
    hide Life, Order, LatestEnd, Dealiased;
    OrderIsKeys(ctxt, log);
    forall t | t in Order(log) && t in root && LocalAlias(ctxt, root, t) ensures root[t] in Order(log) && Within(life[t], life[root[t]]) {
      var first, last := LifeSpans(ctxt, log, t);
      assert log[first].name == t;
      var r :| 0 <= r < |log| && log[r].name == root[t] && log[r].step <= log[first].step;
      EarlierMention(ctxt, log, t, root[t], training, first, r);
      AliasInsideIff(ctxt, root, log, maxStep, training, life, t);
    }
  }

  /** A buffer mentioned no later than the first mention of another, which is no input, starts no later. */
  lemma EarlierMention(ctxt: Context, log: seq<Mention>, t: string, u: string, training: bool, first: nat, r: nat)
    requires AllRegistered(ctxt, log) && Chronological(log) && t in ctxt && !ctxt[t].isInput
    requires first < |log| && log[first].name == t && forall q :: 0 <= q < first ==> log[q].name != t
    requires r < |log| && log[r].name == u && log[r].step <= log[first].step
    ensures u in Order(log) && u in ctxt && StartOf(ctxt, log, u, training) <= StartOf(ctxt, log, t, training)
  {
    hide Order, FirstStep;
    LoggedInOrder(log, r);
    FirstStepAt(log, t, first);
    var from := FirstMention(log, r);
    FirstStepAt(log, u, from);
    assert log[from].step <= log[r].step;
  }

  lemma {:induction false} LoggedInOrder(log: seq<Mention>, q: nat)
    requires q < |log|
    ensures log[q].name in Order(log)
  {
    if q < |log| - 1 { LoggedInOrder(log[..|log| - 1], q); }
  }

  lemma {:induction false} FirstMention(log: seq<Mention>, r: nat) returns (first: nat)
    requires r < |log|
    ensures first <= r && log[first].name == log[r].name && forall q :: 0 <= q < first ==> log[q].name != log[r].name
    decreases r
  {
    if q :| 0 <= q < r && log[q].name == log[r].name {
      first := FirstMention(log, q);
    } else {
      first := r;
    }
  }

  /** The tile scheduler's lifetimes are the scheduled ones; the outer one's end when the last of a buffer
      and its local aliases ends. */
  lemma LevelSpan(ctxt: Context, root: map<string, string>, log: seq<Mention>, maxStep: nat, tile: bool, training: bool, life: map<string, Interval>, t: string)
    returns (u: string, plain: Interval, first: nat, last: nat)
    requires AllRegistered(ctxt, log) && LevelLifetimes(ctxt, root, log, maxStep, tile, training, life) && t in Order(log)
    ensures AliveFromTo(ctxt, log, maxStep, training, u, plain, first, last) && plain.1 == life[t].1
    ensures u == t || (!tile && u in Order(log) && u in root && LocalAlias(ctxt, root, u) && root[u] == t && root[t] == t)
    ensures u == t && (tile || root[t] == t || LocalAlias(ctxt, root, t)) ==> plain == life[t]
    ensures !tile && root[t] != t && root[t] in ctxt && ctxt[root[t]].isGlobal ==> life[t].0 == 0
    ensures !tile && root[t] == t ==> forall v :: v in Order(log) && v in root && LocalAlias(ctxt, root, v) && root[v] == t ==>
      exists p, f, l :: AliveFromTo(ctxt, log, maxStep, training, v, p, f, l) && p.1 <= life[t].1
  {
    hide Life, Order, AliveFromTo, LatestEnd;
    OrderIsKeys(ctxt, log);
    var spans := Scheduled(ctxt, Life(ctxt, log), maxStep, training);
    u := t;
    if !tile && root[t] == t {
      u := LatestOf(ctxt, root, Order(log), spans, t);
      forall v | v in Order(log) && LocalAlias(ctxt, root, v) && root[v] == t
        ensures exists p, f, l :: AliveFromTo(ctxt, log, maxStep, training, v, p, f, l) && p.1 <= life[t].1
      {
        LatestEndKept(ctxt, root, Order(log), spans, t);
        var f, l := ScheduledSpan(ctxt, log, maxStep, training, v);
      }
    }
    first, last := ScheduledSpan(ctxt, log, maxStep, training, u);
    plain := spans[u];
  }

  /** The latest end is the end of the buffer itself or of one of its local aliases. */
  lemma {:induction false} LatestOf(ctxt: Context, root: map<string, string>, order: seq<string>, lifetimes: map<string, Interval>, t: string)
    returns (u: string)
    requires t in lifetimes && forall v :: v in order ==> v in root && v in lifetimes
    ensures u in lifetimes && lifetimes[u].1 == LatestEnd(ctxt, root, order, lifetimes, t)
    ensures u == t || (u in order && LocalAlias(ctxt, root, u) && root[u] == t)
  {
    u := t;
    if order != [] {
      var last := order[|order| - 1];
      u := LatestOf(ctxt, root, order[..|order| - 1], lifetimes, t);
      if LatestEnd(ctxt, root, order, lifetimes, t) != lifetimes[u].1 { u := last; }
    }
  }

  /** A tensor internal to the schedule: neither an input nor an output, nor part of an alias. */
  ghost predicate Internal(ctxt: Context, root: map<string, string>, log: seq<Mention>, t: string)
    requires AllRegistered(ctxt, log)
  {
    && t in ctxt && !ctxt[t].isInput && !ctxt[t].isOutput && t in root && root[t] == t
    && (forall q :: 0 <= q < |log| ==> ctxt[log[q].name].alias != Some(t))
    && (forall u :: u in Order(log) && u in root && u != t ==> root[u] != t)
  }

  /** An internal tensor is dead before its first use and after its last; so one that is last used before
      another is first used is dead when that one comes alive. */
  lemma DisjointUsesApart(ctxt: Context, root: map<string, string>, log: seq<Mention>, maxStep: nat, tile: bool, training: bool,
                          life: map<string, Interval>, t: string, u: string)
    requires AllRegistered(ctxt, log) && LevelLifetimes(ctxt, root, log, maxStep, tile, training, life)
    requires t in Order(log) && u in Order(log) && Internal(ctxt, root, log, t) && Internal(ctxt, root, log, u)
    requires forall q, r :: 0 <= q < |log| && 0 <= r < |log| && log[q].name == t && log[r].name == u ==> log[q].step < log[r].step
    ensures life[t].1 < life[u].0
  {
    hide LevelLifetimes, Order;
    var v, plain, first, last := LevelSpan(ctxt, root, log, maxStep, tile, training, life, t);
    var w, other, from, to := LevelSpan(ctxt, root, log, maxStep, tile, training, life, u);
    assert v == t && w == u;
    assert log[last].name == t && log[from].name == u;
  }

  /** Under the training scheduler an input lives through the whole schedule, dealiased or not. */
  lemma TrainingInputWhole(ctxt: Context, root: map<string, string>, log: seq<Mention>, maxStep: nat, tile: bool, life: map<string, Interval>, t: string)
    requires AllRegistered(ctxt, log) && Chronological(log) && forall q :: 0 <= q < |log| ==> log[q].step < maxStep
    requires LevelLifetimes(ctxt, root, log, maxStep, tile, true, life) && t in Order(log)
    ensures t in ctxt && (ctxt[t].isInput ==> life[t] == (0, maxStep))
  {
    hide Life, Order, Dealiased, LocalAlias, Touches;
    OrderIsKeys(ctxt, log);
    var plain := Scheduled(ctxt, Life(ctxt, log), maxStep, true);
    LifetimesCoverUse(ctxt, log, maxStep, true);
    if !tile && ctxt[t].isInput { WholeStays(ctxt, root, Order(log), plain, maxStep, t); }
  }

  lemma WholeStays(ctxt: Context, root: map<string, string>, order: seq<string>, plain: map<string, Interval>, maxStep: nat, t: string)
    requires (forall u :: u in order ==> u in root && u in plain) && t in order && plain[t] == (0, maxStep)
    requires forall u :: u in plain ==> plain[u].1 <= maxStep
    ensures Dealiased(ctxt, root, order, plain, t) == (0, maxStep)
  {
    LatestEndBounds(ctxt, root, order, plain, t, maxStep);
  }

  /** The lifetimes a level is allocated by; None where dealiasing meets a circular alias or a missing target. */
  method CoveredLifetimes(ctxt: Context, root: map<string, string>, steps: seq<seq<TensorConstraint>>, level: string, tile: bool, training: bool)
    returns (order: seq<string>, r: Option<map<string, Interval>>)
    requires Registered(ctxt, steps) && root == Roots(AliasesOf(ctxt))
    ensures var log := Mentions(ctxt, steps, level, tile);
      && AllRegistered(ctxt, log) && order == Order(log) && (forall t :: t in order ==> t in ctxt)
      && (forall i, j :: 0 <= i < j < |order| ==> order[i] != order[j])
      && (r.Some? ==> CoversUse(ctxt, log, r.value, |steps|) && LevelLifetimes(ctxt, root, log, |steps|, tile, training, r.value))
      && (r.Some? && training ==> forall t :: t in order && ctxt[t].isInput ==> r.value[t] == (0, |steps|))
    ensures r.Some? <==> tile || TargetsKept(ctxt, root, order)
    ensures r.Some? ==> forall t :: t in order <==> t in r.value
  {
    hide Dealiased, Mentions, Life, Order, LocalAlias, Roots, Scheduled, CoversUse, EndsIn;
    var plain;
    order, plain := SchedulerLifetimes(ctxt, steps, level, tile, training);
    if tile { return order, Some(plain); }
    r := DealiasedLifetimes(ctxt, root, Mentions(ctxt, steps, level, tile), order, plain, |steps|);
  }

  method DealiasedLifetimes(ctxt: Context, root: map<string, string>, ghost log: seq<Mention>, order: seq<string>, plain: map<string, Interval>,
                            maxStep: nat)
    returns (r: Option<map<string, Interval>>)
    requires root == Roots(AliasesOf(ctxt)) && CoversUse(ctxt, log, plain, maxStep) && order == Order(log)
    requires (forall i, j :: 0 <= i < j < |order| ==> order[i] != order[j]) && forall t :: t in order <==> t in plain
    ensures r.Some? <==> TargetsKept(ctxt, root, order)
    ensures r.Some? ==> r.value.Keys == plain.Keys && CoversUse(ctxt, log, r.value, maxStep)
    ensures r.Some? ==> forall t :: t in order ==>
      t in root && r.value[t] == Dealiased(ctxt, root, order, plain, t) && (plain[t] == (0, maxStep) ==> r.value[t] == (0, maxStep))
  {
    hide Dealiased, Order, LocalAlias, Roots, CoversUse, EndsIn;
    if k :| 0 <= k < |order| && order[k] !in root { return None; }
    assert forall t :: t in order ==> t in root;
    RootsResolve(AliasesOf(ctxt), order);
    r := DealiasLifetimeMap(ctxt, root, order, plain, false);
    if r.Some? { DealiasedStillCover(ctxt, root, log, order, plain, r.value, maxStep); }
  }

  /** The lifetimes of the scheduler in use, before dealiasing. */
  method SchedulerLifetimes(ctxt: Context, steps: seq<seq<TensorConstraint>>, level: string, tile: bool, training: bool)
    returns (order: seq<string>, plain: map<string, Interval>)
    requires Registered(ctxt, steps)
    ensures var log := Mentions(ctxt, steps, level, tile);
      && AllRegistered(ctxt, log) && order == Order(log) && (forall t :: t in Life(ctxt, log) ==> t in ctxt)
      && plain == Scheduled(ctxt, Life(ctxt, log), |steps|, training) && CoversUse(ctxt, log, plain, |steps|)
    ensures (forall i, j :: 0 <= i < j < |order| ==> order[i] != order[j]) && forall t :: t in order <==> t in plain
    ensures forall t :: t in order ==> t in ctxt && (training && ctxt[t].isInput ==> plain[t] == (0, |steps|))
  {
    hide Mentions, Life, Order, CoversUse;
    ghost var log := Mentions(ctxt, steps, level, tile);
    if training {
      order, plain := CalculateTrainingLifetimes(ctxt, steps, level, tile);
    } else {
      order, plain := CalculateLifetimes(ctxt, steps, level, tile);
      assert plain == Scheduled(ctxt, Life(ctxt, log), |steps|, false);
    }
    MentionsChronological(ctxt, steps, level, tile);
    LifetimesCoverUse(ctxt, log, |steps|, training);
    OrderIsKeys(ctxt, log);
  }

  function AliasesOf(ctxt: Context): AliasMap {
    map t | t in ctxt :: ctxt[t].alias
  }

  // ----- the memory map's own test -----

  /** testMemoryMapCorrectness over the lifetimes of a memory map. */
  method TestMemoryMapCorrectness(life: map<string, Interval>, outputs: seq<string>, inputs: seq<string>, schedule: seq<seq<string>>)
    returns (ok: bool)
    ensures ok <==>
      && (forall t :: t in outputs ==> t in life && life[t].1 == |schedule|)
      && (forall t :: t in inputs ==> t in life && life[t].0 == 0)
      && (forall s, k :: 0 <= s < |schedule| && 0 <= k < |schedule[s]| ==>
            schedule[s][k] in life && life[schedule[s][k]].0 <= s <= life[schedule[s][k]].1)
  {
    for k := 0 to |outputs|
      invariant forall t :: t in outputs[..k] ==> t in life && life[t].1 == |schedule|
    {
      if outputs[k] !in life || life[outputs[k]].1 != |schedule| { return false; }
    }
    for k := 0 to |inputs|
      invariant forall t :: t in inputs[..k] ==> t in life && life[t].0 == 0
    {
      if inputs[k] !in life || life[inputs[k]].0 != 0 { return false; }
    }
    for s := 0 to |schedule|
      invariant forall r, k :: 0 <= r < s && 0 <= k < |schedule[r]| ==>
        schedule[r][k] in life && life[schedule[r][k]].0 <= r <= life[schedule[r][k]].1
    {
      for k := 0 to |schedule[s]|
        invariant forall j :: 0 <= j < k ==> schedule[s][j] in life && life[schedule[s][j]].0 <= s <= life[schedule[s][j]].1
      {
        var t := schedule[s][k];
        if t !in life || !(life[t].0 <= s <= life[t].1) { return false; }
      }
    }
    assert outputs[..|outputs|] == outputs && inputs[..|inputs|] == inputs;
    return true;
  }

  /** Where a scheduler keeps a tensor: the outer one at home, the tile scheduler away from home, unless transient. */
  predicate InScope(b: Buffer, level: string, tile: bool) {
    if tile then b.transient || b.homeLevel != level else b.homeLevel == level
  }

  lemma {:induction false} KeptInScope(ctxt: Context, steps: seq<seq<TensorConstraint>>, level: string, tile: bool, q: nat)
    requires Registered(ctxt, steps) && q < |Mentions(ctxt, steps, level, tile)|
    ensures var t := Mentions(ctxt, steps, level, tile)[q].name; t in ctxt && InScope(ctxt[t], level, tile)
  {
    var last := |steps| - 1;
    var before := Mentions(ctxt, steps[..last], level, tile);
    if q < |before| {
      KeptInScope(ctxt, steps[..last], level, tile, q);
    } else {
      StepKeptInScope(ctxt, last, steps[last], level, tile, q - |before|);
    }
  }

  lemma {:induction false} StepKeptInScope(ctxt: Context, step: nat, constraints: seq<TensorConstraint>, level: string, tile: bool, q: nat)
    requires (forall k :: 0 <= k < |constraints| ==> constraints[k].name in ctxt) && q < |StepMentions(ctxt, step, constraints, level, tile)|
    ensures var t := StepMentions(ctxt, step, constraints, level, tile)[q].name; t in ctxt && InScope(ctxt[t], level, tile)
  {
    var last := constraints[|constraints| - 1];
    KeptIff(ctxt[last.name], last.levels, 0, level, tile);
    if q < |StepMentions(ctxt, step, constraints[..|constraints| - 1], level, tile)| {
      StepKeptInScope(ctxt, step, constraints[..|constraints| - 1], level, tile, q);
    }
  }

  lemma {:induction false} OrderMentioned(log: seq<Mention>, t: string)
    requires t in Order(log)
    ensures exists q :: 0 <= q < |log| && log[q].name == t
  {
    var l := |log| - 1;
    if t in Order(log[..l]) {
      OrderMentioned(log[..l], t);
      var q :| 0 <= q < l && log[..l][q].name == t;
      assert log[q].name == t;
    } else {
      assert log[l].name == t;
    }
  }

  /** A tensor stands before another in the order when it is first mentioned before that one is. */
  lemma {:induction false} OrderByMention(log: seq<Mention>, i: nat, j: nat)
    requires i < j < |Order(log)|
    ensures exists q :: 0 <= q < |log| && log[q].name == Order(log)[i] && forall r :: 0 <= r <= q ==> log[r].name != Order(log)[j]
  {
    var before := log[..|log| - 1];
    if j < |Order(before)| {
      OrderByMention(before, i, j);
      var q :| 0 <= q < |before| && before[q].name == Order(before)[i] && forall r :: 0 <= r <= q ==> before[r].name != Order(before)[j];
      assert log[q].name == Order(log)[i] && forall r :: 0 <= r <= q ==> log[r] == before[r];
    } else {
      OrderMentioned(before, Order(log)[i]);
      var q :| 0 <= q < |before| && before[q].name == Order(log)[i];
      forall r | 0 <= r <= q ensures log[r].name != Order(log)[j] { LoggedInOrder(before, r); }
      assert log[q].name == Order(log)[i];
    }
  }

  lemma OrderInScope(ctxt: Context, steps: seq<seq<TensorConstraint>>, level: string, tile: bool, t: string)
    requires Registered(ctxt, steps) && t in Order(Mentions(ctxt, steps, level, tile))
    ensures t in ctxt && InScope(ctxt[t], level, tile)
  {
    OrderMentioned(Mentions(ctxt, steps, level, tile), t);
    var q :| 0 <= q < |Mentions(ctxt, steps, level, tile)| && Mentions(ctxt, steps, level, tile)[q].name == t;
    KeptInScope(ctxt, steps, level, tile, q);
  }

  /** The step a dealiased lifetime starts at. */
  ghost function HomeStart(ctxt: Context, root: map<string, string>, log: seq<Mention>, training: bool, t: string): nat
    requires t in ctxt && t in root
  {
    if root[t] != t && !LocalAlias(ctxt, root, t) then 0 else StartOf(ctxt, log, t, training)
  }

  /** The end is that of the buffer's own span, or of that of one of its local aliases. */
  ghost predicate EndsWithOne(ctxt: Context, root: map<string, string>, log: seq<Mention>, maxStep: nat, training: bool, t: string, end: nat)
    requires AllRegistered(ctxt, log)
  {
    exists u, plain, first, last ::
      && AliveFromTo(ctxt, log, maxStep, training, u, plain, first, last) && plain.1 == end
      && (u == t || (u in root && root[u] == t && LocalAlias(ctxt, root, u)))
  }

  /** A map covers the uses of a level's tensors, ends their outputs last, and starts them at their home
      start; no tensor is kept longer than it, or a local alias of it, is used. */
  ghost predicate LevelCovered(ctxt: Context, root: map<string, string>, log: seq<Mention>, maxStep: nat, training: bool, m: map<string, Interval>) {
    && AllRegistered(ctxt, log)
    && (forall q :: 0 <= q < |log| ==> log[q].name in m && m[log[q].name].0 <= log[q].step <= m[log[q].name].1)
    && (forall t :: t in Order(log) ==> t in m && t in ctxt && t in root)
    && (forall t :: t in Order(log) ==> m[t].0 == HomeStart(ctxt, root, log, training, t) && (ctxt[t].isOutput ==> m[t].1 == maxStep))
    && (forall t :: t in Order(log) ==> EndsWithOne(ctxt, root, log, maxStep, training, t, m[t].1))
  }

  lemma LevelStart(ctxt: Context, root: map<string, string>, log: seq<Mention>, maxStep: nat, training: bool, life: map<string, Interval>, t: string)
    requires AllRegistered(ctxt, log) && LevelLifetimes(ctxt, root, log, maxStep, false, training, life) && t in Order(log)
    ensures t in ctxt && t in root && life[t].0 == HomeStart(ctxt, root, log, training, t)
  {
    hide Life, Order, LatestEnd;
    OrderIsKeys(ctxt, log);
    ScheduledStart(ctxt, log, maxStep, training, t);
  }

  lemma LevelEnd(ctxt: Context, root: map<string, string>, log: seq<Mention>, maxStep: nat, training: bool, life: map<string, Interval>, t: string)
    requires AllRegistered(ctxt, log) && LevelLifetimes(ctxt, root, log, maxStep, false, training, life) && t in Order(log)
    ensures EndsWithOne(ctxt, root, log, maxStep, training, t, life[t].1)
  {
    hide LevelLifetimes, Order, AliveFromTo;
    var u, plain, first, last := LevelSpan(ctxt, root, log, maxStep, false, training, life, t);
  }

  lemma CoveredLevel(ctxt: Context, root: map<string, string>, log: seq<Mention>, maxStep: nat, training: bool, life: map<string, Interval>)
    requires AllRegistered(ctxt, log) && LevelLifetimes(ctxt, root, log, maxStep, false, training, life) && CoversUse(ctxt, log, life, maxStep)
    ensures LevelCovered(ctxt, root, log, maxStep, training, life)
  {
    hide Life, Order, EndsWithOne, HomeStart, Scheduled, Dealiased;
    OrderIsKeys(ctxt, log);
    forall t | t in Order(log)
      ensures life[t].0 == HomeStart(ctxt, root, log, training, t)
      ensures EndsWithOne(ctxt, root, log, maxStep, training, t, life[t].1)
    {
      LevelStart(ctxt, root, log, maxStep, training, life, t);
      LevelEnd(ctxt, root, log, maxStep, training, life, t);
    }
  }

  /** Other levels' tensors have other names, so merging their lifetimes changes nothing. */
  lemma MergedLevel(ctxt: Context, root: map<string, string>, steps: seq<seq<TensorConstraint>>, level: string, other: string,
                    training: bool, m: map<string, Interval>, life: map<string, Interval>)
    requires Registered(ctxt, steps)
    requires LevelCovered(ctxt, root, Mentions(ctxt, steps, level, false), |steps|, training, m)
    requires LevelCovered(ctxt, root, Mentions(ctxt, steps, other, false), |steps|, training, life)
    requires forall t :: t in life ==> t in Order(Mentions(ctxt, steps, other, false))
    ensures LevelCovered(ctxt, root, Mentions(ctxt, steps, level, false), |steps|, training, m + life)
  {
    hide Mentions, Order, HomeStart, EndsWithOne, AllRegistered;
    var log := Mentions(ctxt, steps, level, false);
    if level == other {
      SelfMerged(ctxt, root, log, |steps|, training, m, life);
    } else {
      forall t | t in Order(log) ensures t !in life { ScopesApart(ctxt, steps, level, other, t); }
      forall q | 0 <= q < |log| ensures log[q].name !in life { LoggedInOrder(log, q); }
    }
  }

  /** The outer scheduler keeps a tensor in its home level alone. */
  lemma ScopesApart(ctxt: Context, steps: seq<seq<TensorConstraint>>, level: string, other: string, t: string)
    requires Registered(ctxt, steps) && level != other && t in Order(Mentions(ctxt, steps, level, false))
    ensures t !in Order(Mentions(ctxt, steps, other, false))
  {
    hide Mentions, Order;
    OrderInScope(ctxt, steps, level, false, t);
    if t in Order(Mentions(ctxt, steps, other, false)) { OrderInScope(ctxt, steps, other, false, t); }
  }

  /** The lifetimes in a memory map: those of the last pattern of every level, merged by name. None
      for a circular alias or a missing target. */
  method MemoryMapLifetimes(ctxt: Context, root: map<string, string>, steps: seq<seq<TensorConstraint>>, levels: seq<string>, training: bool)
    returns (r: Option<map<string, Interval>>)
    requires Registered(ctxt, steps) && root == Roots(AliasesOf(ctxt))
    ensures r.Some? <==> forall level :: level in levels ==> TargetsKept(ctxt, root, Order(Mentions(ctxt, steps, level, false)))
    ensures r.Some? ==> forall level :: level in levels ==>
      LevelCovered(ctxt, root, Mentions(ctxt, steps, level, false), |steps|, training, r.value)
  {
    hide Mentions, Order, LevelCovered, TargetsKept, LevelLifetimes, CoversUse, Roots;
    var merged: map<string, Interval> := map[];
    for k := 0 to |levels|
      invariant forall level :: level in levels[..k] ==> TargetsKept(ctxt, root, Order(Mentions(ctxt, steps, level, false)))
      invariant forall level :: level in levels[..k] ==>
        LevelCovered(ctxt, root, Mentions(ctxt, steps, level, false), |steps|, training, merged)
    {
      assert levels[..k + 1] == levels[..k] + [levels[k]];
      var order, life := CoveredLifetimes(ctxt, root, steps, levels[k], false, training);
      if life.None? { return None; }
      CoveredLevel(ctxt, root, Mentions(ctxt, steps, levels[k], false), |steps|, training, life.value);
      forall level | level in levels[..k]
        ensures LevelCovered(ctxt, root, Mentions(ctxt, steps, level, false), |steps|, training, merged + life.value)
      {
        MergedLevel(ctxt, root, steps, level, levels[k], training, merged, life.value);
      }
      SelfMerged(ctxt, root, Mentions(ctxt, steps, levels[k], false), |steps|, training, merged, life.value);
      merged := merged + life.value;
    }
    assert levels[..|levels|] == levels;
    r := Some(merged);
  }

  lemma SelfMerged(ctxt: Context, root: map<string, string>, log: seq<Mention>, maxStep: nat, training: bool,
                   m: map<string, Interval>, life: map<string, Interval>)
    requires LevelCovered(ctxt, root, log, maxStep, training, life)
    ensures LevelCovered(ctxt, root, log, maxStep, training, m + life)
  {
    hide Order, HomeStart, EndsWithOne;
  }

  /** Some constraint of step s keeps the tensor in its home level, one of these levels. */
  ghost predicate KeptHome(ctxt: Context, steps: seq<seq<TensorConstraint>>, levels: seq<string>, s: nat, t: string)
    requires Registered(ctxt, steps) && s < |steps|
  {
    t in ctxt && ctxt[t].homeLevel in levels
    && exists k :: 0 <= k < |steps[s]| && steps[s][k].name == t && Kept(ctxt[t], steps[s][k].levels, ctxt[t].homeLevel, false)
  }

  lemma KeptIsMentioned(ctxt: Context, steps: seq<seq<TensorConstraint>>, levels: seq<string>, s: nat, t: string)
    requires Registered(ctxt, steps) && s < |steps| && KeptHome(ctxt, steps, levels, s, t)
    ensures Mention(s, t) in Mentions(ctxt, steps, ctxt[t].homeLevel, false)
    ensures t in Order(Mentions(ctxt, steps, ctxt[t].homeLevel, false))
  {
    var level := ctxt[t].homeLevel;
    var k :| 0 <= k < |steps[s]| && steps[s][k].name == t && Kept(ctxt[t], steps[s][k].levels, level, false);
    MentionLogged(ctxt, steps, level, false, s, k);
    var log := Mentions(ctxt, steps, level, false);
    var q :| 0 <= q < |log| && log[q] == Mention(s, t);
    MentionsChronological(ctxt, steps, level, false);
    MentionedIsKey(ctxt, log, q);
    OrderIsKeys(ctxt, log);
  }

  /** The lifetimes of a schedule over any levels, with every tensor kept in its home level, pass the
      test, exactly when no alias lacks its target and no input that is also an output starts late. The
      frontend registers no buffer as both, so that only the alias targets matter. */
  method CheckedLifetimes(ctxt: Context, steps: seq<seq<TensorConstraint>>, levels: seq<string>, training: bool,
                          outputs: seq<string>, inputs: seq<string>, schedule: seq<seq<string>>)
    returns (ok: bool)
    requires Registered(ctxt, steps) && |schedule| == |steps|
    requires forall s, k :: 0 <= s < |schedule| && 0 <= k < |schedule[s]| ==> KeptHome(ctxt, steps, levels, s, schedule[s][k])
    requires forall t :: t in outputs ==> t in ctxt && ctxt[t].isOutput && exists s: nat :: s < |steps| && KeptHome(ctxt, steps, levels, s, t)
    requires forall t :: t in inputs ==> t in ctxt && ctxt[t].isInput && exists s: nat :: s < |steps| && KeptHome(ctxt, steps, levels, s, t)
    ensures var root := Roots(AliasesOf(ctxt));
      ok <==>
        && (forall level :: level in levels ==> TargetsKept(ctxt, root, Order(Mentions(ctxt, steps, level, false))))
        && forall t :: t in inputs && ctxt[t].isOutput && !training ==>
             t in root && HomeStart(ctxt, root, Mentions(ctxt, steps, ctxt[t].homeLevel, false), training, t) == 0
    ensures (forall t :: t in inputs ==> !ctxt[t].isOutput) ==>
      (ok <==> forall level :: level in levels ==> TargetsKept(ctxt, Roots(AliasesOf(ctxt)), Order(Mentions(ctxt, steps, level, false))))
  {
    hide Mentions, Order, LevelCovered, TargetsKept, HomeStart, Roots, KeptHome;
    var root := ResolveAll(AliasesOf(ctxt));
    var life := MemoryMapLifetimes(ctxt, root, steps, levels, training);
    if life.None? { return false; }
    forall s, k | 0 <= s < |schedule| && 0 <= k < |schedule[s]|
      ensures schedule[s][k] in life.value && life.value[schedule[s][k]].0 <= s <= life.value[schedule[s][k]].1
    {
      UseCovered(ctxt, root, steps, levels, training, life.value, s, schedule[s][k]);
    }
    forall t | t in outputs ensures t in life.value && life.value[t].1 == |schedule| {
      var s: nat :| s < |steps| && KeptHome(ctxt, steps, levels, s, t);
      UseCovered(ctxt, root, steps, levels, training, life.value, s, t);
    }
    forall t | t in inputs
      ensures t in life.value && t in root
      ensures life.value[t].0 == HomeStart(ctxt, root, Mentions(ctxt, steps, ctxt[t].homeLevel, false), training, t)
      ensures training || !ctxt[t].isOutput ==> life.value[t].0 == 0
    {
      var s: nat :| s < |steps| && KeptHome(ctxt, steps, levels, s, t);
      UseCovered(ctxt, root, steps, levels, training, life.value, s, t);
      AlignedStart(ctxt, root, Mentions(ctxt, steps, ctxt[t].homeLevel, false), training, t);
    }
    ok := TestMemoryMapCorrectness(life.value, outputs, inputs, schedule);
  }

  lemma AlignedStart(ctxt: Context, root: map<string, string>, log: seq<Mention>, training: bool, t: string)
    requires t in ctxt && t in root
    ensures ctxt[t].isInput && (training || !ctxt[t].isOutput) ==> HomeStart(ctxt, root, log, training, t) == 0
  {
  }

  lemma UseCovered(ctxt: Context, root: map<string, string>, steps: seq<seq<TensorConstraint>>, levels: seq<string>, training: bool,
                   m: map<string, Interval>, s: nat, t: string)
    requires Registered(ctxt, steps) && s < |steps| && KeptHome(ctxt, steps, levels, s, t)
    requires forall level :: level in levels ==> LevelCovered(ctxt, root, Mentions(ctxt, steps, level, false), |steps|, training, m)
    ensures t in m && t in ctxt && t in root && m[t].0 <= s <= m[t].1 && (ctxt[t].isOutput ==> m[t].1 == |steps|)
    ensures m[t].0 == HomeStart(ctxt, root, Mentions(ctxt, steps, ctxt[t].homeLevel, false), training, t)
  {
    hide Mentions, Order, HomeStart, Kept, EndsWithOne;
    KeptIsMentioned(ctxt, steps, levels, s, t);
    var log := Mentions(ctxt, steps, ctxt[t].homeLevel, false);
    assert LevelCovered(ctxt, root, log, |steps|, training, m);
    var q :| 0 <= q < |log| && log[q] == Mention(s, t);
  }
}
