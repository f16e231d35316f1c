/** The iterative mapping search: a context stack, discard sets per mapper and layer, and rollback. */
module Mapping {
  import opened Options
  import opened Search

  class NodeMapper<C(!new)> {
    const spec: Mapper<C>
    var discardedBindings: set<nat>
    var binder: Option<nat>

    constructor (spec: Mapper<C>)
      ensures this.spec == spec && discardedBindings == {} && binder == None
    {
      this.spec := spec;
      discardedBindings, binder := {}, None;
    }

    /** Every discarded binding is one of the mapper's. */
    ghost predicate Valid()
      reads this`discardedBindings
    {
      forall b :: b in discardedBindings ==> b < |spec.bindings|
    }

    /** The sizes agree exactly when every binding is discarded. */
    method BindingsExhausted() returns (r: bool)
      requires Valid()
      ensures r <==> forall b :: 0 <= b < |spec.bindings| ==> b in discardedBindings
    {
      r := |discardedBindings| == |spec.bindings|;
      if b :| 0 <= b < |spec.bindings| && b !in discardedBindings {
        NotExhausted(discardedBindings, |spec.bindings|, b);
      } else {
        IntervalSize(|spec.bindings|);
        assert discardedBindings == Interval(|spec.bindings|);
      }
    }

    method DiscardCurrentBinder()
      requires binder.Some?
      modifies this
      ensures discardedBindings == old(discardedBindings) + {old(binder.value)} && binder == None
    {
      discardedBindings := discardedBindings + {binder.value};
      binder := None;
    }

    method ResetDiscardedBindings()
      modifies this
      ensures discardedBindings == {} && binder == old(binder)
    {
      discardedBindings := {};
    }

    /** Elects the first binding that is not discarded and type-checks; discards those that fail. */
    method TypeCheck(ctxt: C) returns (newCtxt: C, ok: bool)
      requires Valid()
      modifies this
      ensures Valid() && old(discardedBindings) <= discardedBindings
      ensures forall b :: b in discardedBindings && b !in old(discardedBindings) ==> spec.bindings[b](ctxt).None?
      ensures ok ==> binder.Some? && binder.value < |spec.bindings| && binder.value !in discardedBindings
      ensures ok ==> spec.bindings[binder.value](ctxt) == Some(newCtxt)
      ensures ok ==> forall b :: 0 <= b < binder.value ==> b in discardedBindings
      ensures !ok ==> newCtxt == ctxt && forall b :: 0 <= b < |spec.bindings| ==> b in discardedBindings
    {
      for idx := 0 to |spec.bindings|
        invariant Valid() && old(discardedBindings) <= discardedBindings
        invariant forall b :: b in discardedBindings && b !in old(discardedBindings) ==> b < idx && spec.bindings[b](ctxt).None?
        invariant forall b :: 0 <= b < idx ==> b in discardedBindings
      {
        if idx in discardedBindings { continue; }
        var checked := spec.bindings[idx](ctxt);
        if checked.None? {
          discardedBindings := discardedBindings + {idx};
          continue;
        }
        binder := Some(idx);
        return checked.value, true;
      }
      return ctxt, false;
    }
  }

  class ONNXLayer<C(!new)> {
    const maps: seq<NodeMapper<C>>
    var mapper: Option<nat>
    var discardedMappers: set<nat>

    constructor (maps: seq<NodeMapper<C>>)
      ensures this.maps == maps && mapper == None && discardedMappers == {}
    {
      this.maps := maps;
      mapper, discardedMappers := None, {};
    }

    /** The layer and its mappers. */
    ghost function Objects(): (s: set<object>)
      ensures this in s && forall m :: m in maps ==> m in s
    {
      {this} + set m: NodeMapper<C> | m in maps :: m as object
    }

    /** The mappers of a layer are distinct objects. */
    ghost predicate Distinct() {
      forall i, j :: 0 <= i < j < |maps| ==> maps[i] != maps[j]
    }

    function Spec(): (s: Layer<C>)
      ensures |s| == |maps| && forall j :: 0 <= j < |s| ==> s[j] == maps[j].spec
    {
      seq(|maps|, j requires 0 <= j < |maps| => maps[j].spec)
    }

    ghost predicate Fresh()
      reads Objects()
    {
      discardedMappers == {} && forall j :: 0 <= j < |maps| ==> maps[j].discardedBindings == {}
    }

    /** With c coming in and rest behind, nothing alive is discarded, and the first k bindings of the
        first parsing mapper are. */
    ghost predicate Consistent(c: C, rest: seq<Layer<C>>, k: nat)
      reads Objects()
    {
      && (forall j :: j in discardedMappers && j < |maps| ==> Parsed(maps[j].spec, c).None?)
      && (forall j :: 0 <= j < |maps| ==> maps[j].Valid())
      && (forall j :: 0 <= j < |maps| ==> First(Spec(), c).None? || First(Spec(), c).value.0 != j ==> maps[j].discardedBindings == {})
      && (First(Spec(), c).Some? ==>
          var (m, p) := First(Spec(), c).value;
          && k <= |maps[m].spec.bindings|
          && (forall b :: b in maps[m].discardedBindings ==> Try(maps[m].spec, b, p, rest).None?)
          && (forall b :: 0 <= b < k ==> b in maps[m].discardedBindings))
    }

    /** The layer turned c into d with binding b of its first parsing mapper. */
    ghost predicate Elected(c: C, d: C, rest: seq<Layer<C>>, b: nat)
      reads Objects()
    {
      && Consistent(c, rest, b)
      && First(Spec(), c).Some?
      && var (m, p) := First(Spec(), c).value;
      && mapper == Some(m) && maps[m].binder == Some(b)
      && b < |maps[m].spec.bindings| && b !in maps[m].discardedBindings
      && maps[m].spec.bindings[b](p) == Some(d)
    }

    /** The elected mapper and its elected binding. */
    ghost predicate Chose(m: nat, b: nat)
      reads Objects()
    {
      mapper == Some(m) && m < |maps| && maps[m].binder == Some(b)
    }

    /** Elects the first mapper that is not discarded and parses; discards those that do not. */
    method Parse(ctxt: C) returns (newCtxt: C, ok: bool)
      requires forall j :: j in discardedMappers && j < |maps| ==> Parsed(maps[j].spec, ctxt).None?
      modifies this
      ensures forall j :: j in discardedMappers && j < |maps| ==> Parsed(maps[j].spec, ctxt).None?
      ensures ok <==> First(Spec(), ctxt).Some?
      ensures ok ==> mapper == Some(First(Spec(), ctxt).value.0) && newCtxt == First(Spec(), ctxt).value.1
      ensures ok ==>
        && mapper.Some? && mapper.value < |maps| && maps[mapper.value].spec.parse(ctxt).Some?
        && maps[mapper.value].spec.parseCtxt(maps[mapper.value].spec.parse(ctxt).value) == Some(newCtxt)
        && forall j :: 0 <= j < mapper.value ==> Rejects(maps[j].spec, ctxt)
      ensures !ok ==> forall j :: 0 <= j < |maps| ==> Rejects(maps[j].spec, ctxt)
    {
      for idx := 0 to |maps|
        invariant forall j :: j in discardedMappers && j < |maps| ==> Parsed(maps[j].spec, ctxt).None?
        invariant First(Spec(), ctxt) == FirstFrom(Spec(), idx, ctxt)
      {
        if idx in discardedMappers { continue; }
        var parsed := maps[idx].spec.parse(ctxt);
        if parsed.None? {
          discardedMappers := discardedMappers + {idx};
          continue;
        }
        mapper := Some(idx);
        var contextParsed := maps[idx].spec.parseCtxt(parsed.value);
        if contextParsed.None? {
          discardedMappers := discardedMappers + {idx};
          continue;
        }
        return contextParsed.value, true;
      }
      return ctxt, false;
    }

    /** Parses and type-checks the layer in the context c: either it elects a binding not tried
        before, or nothing in this layer leads to a mapping of the rest. */
    method ParseAndTypeCheck(c: C, ghost rest: seq<Layer<C>>, ghost k: nat)
      returns (newCtxt: C, ok: bool, ghost b: nat)
      requires Distinct() && Consistent(c, rest, k)
      modifies Objects()
      ensures ok ==> k <= b && Elected(c, newCtxt, rest, b)
      ensures !ok ==> Dfs([Spec()] + rest, c).None?
    {
      b := 0;
      newCtxt, ok := Parse(c);
      ghost var layers := [Spec()] + rest;
      assert layers[1..] == rest;
      if !ok { return c, false, 0; }
      var m := mapper.value;
      ghost var p := newCtxt;
      newCtxt, ok := maps[m].TypeCheck(newCtxt);
      if ok {
        b := maps[m].binder.value;
        assert b !in maps[m].discardedBindings;
      } else {
        forall b' | 0 <= b' < |maps[m].spec.bindings| ensures Try(maps[m].spec, b', p, rest).None? {
          assert b' in maps[m].discardedBindings;
        }
        AllDead(layers, m, p, 0);
        return c, false, 0;
      }
    }

    /** Gives up the elected binding after the layers behind failed. The mapper itself is never
        discarded here: its elected binding is not among the discarded ones. */
    method DiscardCurrent(ghost c: C, ghost d: C, ghost rest: seq<Layer<C>>, ghost b: nat)
      requires Distinct() && Elected(c, d, rest, b) && Dfs(rest, d).None?
      modifies Objects()
      ensures Consistent(c, rest, b + 1)
      ensures discardedMappers == old(discardedMappers) && mapper == old(mapper)
    {
      hide Dfs;
      var m := mapper.value;
      assert Try(maps[m].spec, b, First(Spec(), c).value.1, rest).None?;
      var exhausted := maps[m].BindingsExhausted();
      if exhausted {
        assert false;
      } else {
        maps[m].DiscardCurrentBinder();
      }
    }

    method ResetDiscardedMappers()
      modifies Objects()
      ensures Fresh() && mapper == old(mapper)
    {
      for j := 0 to |maps|
        invariant forall i :: 0 <= i < j ==> maps[i].discardedBindings == {}
        invariant mapper == old(mapper)
      {
        maps[j].ResetDiscardedBindings();
      }
      discardedMappers := {};
    }
  }

  lemma {:induction false} AllDead<C>(layers: seq<Layer<C>>, m: nat, p: C, b: nat)
    requires layers != [] && m < |layers[0]| && b <= |layers[0][m].bindings|
    requires forall b' :: b <= b' < |layers[0][m].bindings| ==> Try(layers[0][m], b', p, layers[1..]).None?
    ensures DfsFrom(layers, m, p, b).None?
    decreases |layers[0][m].bindings| - b
  {
    if b < |layers[0][m].bindings| { AllDead(layers, m, p, b + 1); }
  }

  /** A set of bindings that misses one is not all of them. */
  lemma NotExhausted(discarded: set<nat>, n: nat, b: nat)
    requires (forall i :: i in discarded ==> i < n) && b < n && b !in discarded
    ensures |discarded| < n
  {
    IntervalSize(n);
    SmallerSubset(discarded, Interval(n));
  }

  function Interval(n: nat): (s: set<nat>)
    ensures forall i: nat :: i in s <==> i < n
  {
    if n == 0 then {} else Interval(n - 1) + {n - 1}
  }

  lemma {:induction false} IntervalSize(n: nat)
    ensures |Interval(n)| == n
  {
    if n > 0 { IntervalSize(n - 1); }
  }

  lemma {:induction false} SmallerSubset(a: set<nat>, b: set<nat>)
    requires a < b
    ensures |a| < |b|
  {
    var x :| x in b && x !in a;
    if a == {} {
      assert x in b;
    } else {
      var y :| y in a;
      SmallerSubset(a - {y}, b - {y});
    }
  }

  // ----- the termination measure -----

  /** Bindings not yet tried per layer, read as the digits of one number, the first layer's most
      significant. */
  ghost function Remaining(next: seq<nat>, caps: seq<nat>): nat
    requires |next| == |caps| && forall i :: 0 <= i < |next| ==> next[i] <= caps[i]
  {
    if next == [] then 0
    else Remaining(next[..|next| - 1], caps[..|caps| - 1]) * (caps[|caps| - 1] + 1) + (caps[|caps| - 1] - next[|next| - 1])
  }

  /** Trying a further binding of layer j lowers the measure, whatever is reset behind it. */
  lemma {:induction false} RollbackDecreases(a: seq<nat>, b: seq<nat>, caps: seq<nat>, j: nat)
    requires |a| == |b| == |caps| && j < |a|
    requires forall i :: 0 <= i < |a| ==> a[i] <= caps[i] && b[i] <= caps[i]
    requires a[..j] == b[..j] && a[j] < b[j]
    ensures Remaining(b, caps) < Remaining(a, caps)
    decreases |a|
  {
    var l := |a| - 1;
    if j == l {
      assert a[..l] == b[..l];
    } else {
      assert a[..l][..j] == a[..j] && b[..l][..j] == b[..j];
      RollbackDecreases(a[..l], b[..l], caps[..l], j);
      DigitDecreases(Remaining(a[..l], caps[..l]), Remaining(b[..l], caps[..l]), caps[l] + 1, caps[l] - a[l], caps[l] - b[l]);
    }
  }

  lemma DigitDecreases(x: nat, y: nat, w: nat, u: nat, v: nat)
    requires y < x && v < w
    ensures y * w + v < x * w + u
  {
    assert (y + 1) * w <= x * w;
    assert (y + 1) * w == y * w + w;
  }

  lemma AdvanceKeeps(a: seq<nat>, caps: seq<nat>, j: nat, b: nat)
    requires |a| == |caps| && j < |a| && a[j] <= b <= caps[j]
    requires forall i :: 0 <= i < |a| ==> a[i] <= caps[i]
    ensures Remaining(a[j := b], caps) <= Remaining(a, caps)
  {
    if a[j] < b {
      RollbackDecreases(a, a[j := b], caps, j);
    } else {
      assert a[j := b] == a;
    }
  }

  ghost function MaxBindings<C>(maps: Layer<C>): nat {
    if maps == [] then 0
    else var rest := MaxBindings(maps[..|maps| - 1]); var n := |maps[|maps| - 1].bindings|; if n > rest then n else rest
  }

  lemma {:induction false} MaxBindingsBound<C>(maps: Layer<C>, m: nat)
    requires m < |maps|
    ensures |maps[m].bindings| <= MaxBindings(maps)
  {
    if m < |maps| - 1 { MaxBindingsBound(maps[..|maps| - 1], m); }
  }

  // ----- the loop -----

  function Specs<C(!new)>(layers: seq<ONNXLayer<C>>): (s: seq<Layer<C>>)
    ensures |s| == |layers| && forall i :: 0 <= i < |s| ==> s[i] == layers[i].Spec()
  {
    seq(|layers|, i requires 0 <= i < |layers| => layers[i].Spec())
  }

  /** No object is shared between layers, or twice in one. */
  ghost predicate Separate<C(!new)>(layers: seq<ONNXLayer<C>>) {
    && (forall i :: 0 <= i < |layers| ==> layers[i].Distinct())
    && (forall i, j :: 0 <= i < |layers| && 0 <= j < |layers| && i != j ==> Apart(layers[i], layers[j]))
  }

  ghost predicate Apart<C(!new)>(a: ONNXLayer<C>, b: ONNXLayer<C>) {
    a.Objects() !! b.Objects()
  }

  ghost function AllObjects<C(!new)>(layers: seq<ONNXLayer<C>>): (s: set<object>)
    ensures forall i :: 0 <= i < |layers| ==> layers[i].Objects() <= s
  {
    set i, o | 0 <= i < |layers| && o in layers[i].Objects() :: o
  }

  /** Layer i of a finished search, as values. */
  ghost predicate Link<C>(specs: seq<Layer<C>>, i: nat, c: C, d: C, b: nat)
    requires i < |specs|
  {
    First(specs[i], c).Some? &&
    var (m, p) := First(specs[i], c).value;
    && b < |specs[i][m].bindings| && specs[i][m].bindings[b](p) == Some(d)
    && DeadBelow(specs[i][m], p, specs[i + 1..], b)
  }

  ghost predicate DeadBelow<C>(m: Mapper<C>, p: C, rest: seq<Layer<C>>, b: nat)
    requires b <= |m.bindings|
  {
    forall b' :: 0 <= b' < b ==> Try(m, b', p, rest).None?
  }

  /** A chain of elected bindings with only dead ones before each is what the search returns. */
  lemma {:induction false} ChainIsDfs<C>(specs: seq<Layer<C>>, cs: seq<C>, choice: seq<nat>, i: nat)
    requires i <= |specs| == |choice| && |cs| == |specs| + 1
    requires forall k :: 0 <= k < |specs| ==> Link(specs, k, cs[k], cs[k + 1], choice[k])
    ensures Dfs(specs[i..], cs[i]) == Some((choice[i..], cs[|specs|]))
    decreases |specs| - i
  {
    if i < |specs| {
      ChainIsDfs(specs, cs, choice, i + 1);
      assert Link(specs, i, cs[i], cs[i + 1], choice[i]);
      var (m, p) := First(specs[i], cs[i]).value;
      assert specs[i..][1..] == specs[i + 1..];
      SkipDead(specs[i..], m, p, 0, choice[i]);
      assert choice[i..] == [choice[i]] + choice[i + 1..];
    }
  }

  lemma {:induction false} SkipDead<C>(layers: seq<Layer<C>>, m: nat, p: C, from: nat, b: nat)
    requires layers != [] && m < |layers[0]| && from <= b <= |layers[0][m].bindings|
    requires forall b' :: from <= b' < b ==> Try(layers[0][m], b', p, layers[1..]).None?
    ensures DfsFrom(layers, m, p, from) == DfsFrom(layers, m, p, b)
    decreases b - from
  {
    if from < b { SkipDead(layers, m, p, from + 1, b); }
  }

  /** Layers before idx have elected a binding, layer idx is being explored, the rest is fresh. The
      contexts are the stack with the current one on top; next counts bindings known to be tried. */
  ghost predicate LayerAt<C(!new)>(layers: seq<ONNXLayer<C>>, contexts: seq<C>, next: seq<nat>, idx: nat, i: nat)
    requires |contexts| == idx + 1 && i < |layers| == |next|
    reads layers[i].Objects()
  {
    if i < idx then layers[i].Elected(contexts[i], contexts[i + 1], Specs(layers)[i + 1..], next[i])
    else if i == idx then layers[i].Consistent(contexts[i], Specs(layers)[i + 1..], next[i])
    else layers[i].Fresh() && next[i] == 0
  }

  ghost predicate Owns<C(!new)>(objects: set<object>, layers: seq<ONNXLayer<C>>) {
    forall i :: 0 <= i < |layers| ==> layers[i].Objects() <= objects
  }

  ghost predicate Exploring<C(!new)>(objects: set<object>, layers: seq<ONNXLayer<C>>, contexts: seq<C>, next: seq<nat>, idx: nat)
    requires Owns(objects, layers)
    reads objects
  {
    && |contexts| == idx + 1 && idx <= |layers| == |next|
    && forall i :: 0 <= i < |layers| ==> LayerAt(layers, contexts, next, idx, i)
  }

  ghost predicate Bounded<C(!new)>(layers: seq<ONNXLayer<C>>, next: seq<nat>) {
    |next| == |layers| && forall i :: 0 <= i < |layers| ==> next[i] <= MaxBindings(layers[i].Spec())
  }

  ghost function Caps<C(!new)>(layers: seq<ONNXLayer<C>>): (caps: seq<nat>)
    ensures |caps| == |layers| && forall i :: 0 <= i < |caps| ==> caps[i] == MaxBindings(layers[i].Spec())
  {
    seq(|layers|, i requires 0 <= i < |layers| => MaxBindings(layers[i].Spec()))
  }

  /** Nothing from layer i on maps in this context. */
  ghost predicate Hopeless<C(!new)>(layers: seq<ONNXLayer<C>>, i: nat, c: C)
    requires i <= |layers|
  {
    Dfs(Specs(layers)[i..], c).None?
  }

  /** Everything but layer idx is as LayerAt says. */
  ghost predicate Around<C(!new)>(objects: set<object>, layers: seq<ONNXLayer<C>>, contexts: seq<C>, next: seq<nat>, idx: nat)
    requires Owns(objects, layers)
    reads objects
  {
    && |contexts| == idx + 1 && idx < |layers| == |next|
    && forall i :: 0 <= i < |layers| && i != idx ==> LayerAt(layers, contexts, next, idx, i)
  }

  /** Parses and type-checks layer idx: one layer further down, or nothing below this context. */
  method Forward<C(!new)>(ghost objects: set<object>, layers: seq<ONNXLayer<C>>, ghost contexts: seq<C>, ghost next: seq<nat>, idx: nat, current: C)
    returns (newCtxt: C, success: bool, ghost b: nat)
    requires Separate(layers) && Owns(objects, layers) && Exploring(objects, layers, contexts, next, idx) && Bounded(layers, next)
    requires idx < |layers| && contexts[idx] == current
    modifies objects
    ensures success ==> next[idx] <= b && Bounded(layers, next[idx := b])
    ensures success ==> Exploring(objects, layers, contexts + [newCtxt], next[idx := b], idx + 1)
    ensures !success ==> Hopeless(layers, idx, current)
    ensures !success ==> Around(objects, layers, contexts, next, idx)
  {
    hide Dfs, Remaining, Try, Caps, First, FirstFrom, Parsed;
    ghost var rest := Specs(layers)[idx + 1..];
    assert LayerAt(layers, contexts, next, idx, idx);
    label Before:
    newCtxt, success, b := layers[idx].ParseAndTypeCheck(current, rest, next[idx]);
    forall i | 0 <= i < |layers| && i != idx ensures LayerAt(layers, contexts, next, idx, i) {
      assert Apart(layers[i], layers[idx]);
      assert old@Before(LayerAt(layers, contexts, next, idx, i));
    }
    assert [layers[idx].Spec()] + rest == Specs(layers)[idx..];
    if success {
      MaxBindingsBound(layers[idx].Spec(), First(layers[idx].Spec(), current).value.0);
      ghost var contexts', next', idx' := contexts + [newCtxt], next[idx := b], idx + 1;
      forall i | 0 <= i < |layers| ensures LayerAt(layers, contexts', next', idx', i) {
        assert i != idx ==> LayerAt(layers, contexts, next, idx, i);
        if i == idx + 1 { assert layers[i].Fresh(); }
      }
    }
  }

  /** Keeps the options of the failing layer open: its context will change. */
  method ResetLayer<C(!new)>(ghost objects: set<object>, layers: seq<ONNXLayer<C>>, ghost contexts: seq<C>, ghost next: seq<nat>, idx: nat)
    requires Separate(layers) && Owns(objects, layers) && Around(objects, layers, contexts, next, idx)
    modifies objects
    ensures Around(objects, layers, contexts, next, idx) && layers[idx].Fresh()
  {
    label Before:
    layers[idx].ResetDiscardedMappers();
    forall i | 0 <= i < |layers| && i != idx ensures LayerAt(layers, contexts, next, idx, i) {
      assert Apart(layers[i], layers[idx]);
      assert old@Before(LayerAt(layers, contexts, next, idx, i));
    }
  }

  /** Rolls back from layer idx, below which nothing was found, to the next option of layer idx - 1. */
  method Rollback<C(!new)>(ghost objects: set<object>, layers: seq<ONNXLayer<C>>, ghost contexts: seq<C>, ghost next: seq<nat>, idx: nat)
    returns (ghost next': seq<nat>)
    requires Separate(layers) && Owns(objects, layers) && Around(objects, layers, contexts, next, idx) && layers[idx].Fresh()
    requires 0 < idx
    requires Hopeless(layers, idx, contexts[idx])
    modifies objects
    ensures next' == next[idx - 1 := next[idx - 1] + 1][idx := 0]
    ensures Exploring(objects, layers, contexts[..idx], next', idx - 1)
  {
    hide Dfs, Remaining, Try, Caps, First, FirstFrom, Parsed;
    var previousLayer := layers[idx - 1];
    assert LayerAt(layers, contexts, next, idx, idx - 1);
    label Before:
    previousLayer.DiscardCurrent(contexts[idx - 1], contexts[idx], Specs(layers)[idx..], next[idx - 1]);
    next' := next[idx - 1 := next[idx - 1] + 1][idx := 0];
    ghost var contexts', idx' := contexts[..idx], idx - 1;
    forall i | 0 <= i < |layers| ensures LayerAt(layers, contexts', next', idx', i) {
      if i != idx' {
        assert Apart(layers[i], layers[idx']);
        assert i != idx ==> old@Before(LayerAt(layers, contexts, next, idx, i));
        assert i == idx ==> old@Before(layers[i].Fresh());
      }
    }
  }

  lemma ElectedBelowCap<C(!new)>(layers: seq<ONNXLayer<C>>, contexts: seq<C>, next: seq<nat>, idx: nat, i: nat)
    requires |contexts| == idx + 1 && i < |layers| == |next| && i < idx && LayerAt(layers, contexts, next, idx, i)
    ensures next[i] < MaxBindings(layers[i].Spec())
  {
    MaxBindingsBound(layers[i].Spec(), First(layers[i].Spec(), contexts[i]).value.0);
  }

  /** Resets the failing layer and gives up the binding elected before it. */
  method Backtrack<C(!new)>(ghost objects: set<object>, layers: seq<ONNXLayer<C>>, ghost contexts: seq<C>, ghost next: seq<nat>, idx: nat)
    returns (ghost next': seq<nat>)
    requires Separate(layers) && Owns(objects, layers) && Around(objects, layers, contexts, next, idx)
    requires 0 < idx && Bounded(layers, next) && Hopeless(layers, idx, contexts[idx])
    modifies objects
    ensures next' == next[idx - 1 := next[idx - 1] + 1][idx := 0]
    ensures Exploring(objects, layers, contexts[..idx], next', idx - 1) && Bounded(layers, next')
  {
    ElectedBelowCap(layers, contexts, next, idx, idx - 1);
    ResetLayer(objects, layers, contexts, next, idx);
    next' := Rollback(objects, layers, contexts, next, idx);
  }

  /** One turn of the loop. Either it ends the search at the root, or it makes progress: a binding
      more is known to be tried, or none fewer and one more layer has elected one. */
  method Turn<C(!new)>(ghost objects: set<object>, layers: seq<ONNXLayer<C>>, ghost contexts: seq<C>, ghost next: seq<nat>,
                       ctxtStack: seq<C>, current: C, idx: nat)
    returns (exhausted: bool, ctxtStack': seq<C>, current': C, idx': nat, ghost contexts': seq<C>, ghost next': seq<nat>)
    requires Separate(layers) && Owns(objects, layers) && Exploring(objects, layers, contexts, next, idx) && Bounded(layers, next)
    requires idx < |layers| && contexts == ctxtStack + [current]
    modifies objects
    ensures exhausted ==> idx == 0 && Hopeless(layers, idx, current)
    ensures !exhausted ==> Exploring(objects, layers, contexts', next', idx') && Bounded(layers, next')
    ensures !exhausted ==> contexts' == ctxtStack' + [current'] && contexts'[0] == contexts[0]
    ensures !exhausted ==> var left, left' := Remaining(next, Caps(layers)), Remaining(next', Caps(layers));
      left' < left || (left' == left && idx' == idx + 1)
  {
    hide Hopeless, LayerAt, Remaining;
    var newCtxt, success, b := Forward(objects, layers, contexts, next, idx, current);
    if success {
      AdvanceKeeps(next, Caps(layers), idx, b);
      return false, ctxtStack + [current], newCtxt, idx + 1, contexts + [newCtxt], next[idx := b];
    }
    if idx == 0 {
      return true, ctxtStack, current, idx, contexts, next;
    }
    next' := Backtrack(objects, layers, contexts, next, idx);
    RollbackDecreases(next, next', Caps(layers), idx - 1);
    exhausted, idx' := false, idx - 1;
    current', ctxtStack' := ctxtStack[idx - 1], ctxtStack[..idx - 1];
    contexts' := contexts[..idx];
  }

  /** Each layer is left on its mapper and binding. */
  ghost predicate AllChose<C(!new)>(layers: seq<ONNXLayer<C>>, mappers: seq<nat>, choice: seq<nat>)
    reads AllObjects(layers)
  {
    |mappers| == |choice| == |layers| && forall i :: 0 <= i < |layers| ==> layers[i].Chose(mappers[i], choice[i])
  }

  /** Once every layer has elected a binding, the elected bindings are the search's answer. */
  lemma Finished<C(!new)>(objects: set<object>, layers: seq<ONNXLayer<C>>, contexts: seq<C>, next: seq<nat>) returns (mappers: seq<nat>)
    requires Owns(objects, layers) && Exploring(objects, layers, contexts, next, |layers|)
    ensures Dfs(Specs(layers), contexts[0]) == Some((next, contexts[|layers|]))
    ensures Chain(Specs(layers), contexts, mappers, next) && AllChose(layers, mappers, next)
  {
    var specs := Specs(layers);
    forall k | 0 <= k < |layers| ensures First(specs[k], contexts[k]).Some? { assert LayerAt(layers, contexts, next, |layers|, k); }
    mappers := seq(|layers|, k requires 0 <= k < |layers| => First(specs[k], contexts[k]).value.0);
    forall k | 0 <= k < |layers|
      ensures Link(specs, k, contexts[k], contexts[k + 1], next[k]) && layers[k].Chose(mappers[k], next[k])
      ensures Binds(specs[k], contexts[k], contexts[k + 1], mappers[k], next[k])
    {
      BindsIff(specs[k], contexts[k], contexts[k + 1], mappers[k], next[k]);
      assert LayerAt(layers, contexts, next, |layers|, k);
      var (m, p) := First(specs[k], contexts[k]).value;
      var rest := specs[k + 1..];
      forall b' | 0 <= b' < next[k] ensures Try(specs[k][m], b', p, rest).None? {
        assert b' in layers[k].maps[m].discardedBindings;
      }
    }
    ChainIsDfs(specs, contexts, next, 0);
    assert specs[0..] == specs && next[0..] == next;
  }

  /** The loop of the search; None when backtracking is exhausted at the root. */
  method Explore<C(!new)>(ghost objects: set<object>, layers: seq<ONNXLayer<C>>, ctxt: C) returns (r: Option<C>)
    requires Separate(layers) && Owns(objects, layers)
    requires forall i :: 0 <= i < |layers| ==> layers[i].Fresh()
    modifies objects
    ensures r == (match Dfs(Specs(layers), ctxt) case Some(found) => Some(found.1) case None => None)
    ensures r.Some? ==> exists contexts, mappers ::
      && Chain(Specs(layers), contexts, mappers, Dfs(Specs(layers), ctxt).value.0) && contexts[0] == ctxt && contexts[|layers|] == r.value
      && AllChose(layers, mappers, Dfs(Specs(layers), ctxt).value.0)
  {
    hide Dfs, Chain, AllChose, Remaining, Apart;
    ghost var next: seq<nat>, contexts := seq(|layers|, _ => 0), [ctxt];
    var current, idx: nat := ctxt, 0;
    var ctxtStack: seq<C> := [];
    while idx < |layers|
      invariant idx <= |layers| && contexts == ctxtStack + [current] && contexts[0] == ctxt
      invariant Bounded(layers, next)
      invariant Exploring(objects, layers, contexts, next, idx)
      decreases Remaining(next, Caps(layers)), |layers| - idx
    {
      var exhausted;
      ghost var c := current;
      exhausted, ctxtStack, current, idx, contexts, next := Turn(objects, layers, contexts, next, ctxtStack, current, idx);
      if exhausted {
        assert c == ctxt && Specs(layers)[0..] == Specs(layers);
        return None;
      }
    }
    ghost var mappers := Finished(objects, layers, contexts, next);
    return Some(current);
  }

  /** No chain from this context has a choice of bindings that comes before this one. */
  ghost predicate FirstOf<C(!new)>(specs: seq<Layer<C>>, c: C, choice: seq<nat>) {
    forall contexts, mappers, other :: Chain(specs, contexts, mappers, other) && contexts[0] == c ==> choice == other || LexLess(choice, other)
  }

  class NetworkContainer<C(!new)> {
    const layers: seq<ONNXLayer<C>>
    var ctxt: C
    var parsed: bool

    constructor (layers: seq<ONNXLayer<C>>, ctxt: C)
      ensures this.layers == layers && this.ctxt == ctxt && !parsed
    {
      this.layers, this.ctxt, parsed := layers, ctxt, false;
    }

    /** The search over freshly bound layers: it maps the network exactly when there is a chain of
        contexts through it, and leaves each layer on the mapper and binding of the chain with the
        lexicographically first bindings. It returns false where the program raises its
        "backtracking exhausted" error. */
    method Parse() returns (ok: bool)
      requires Separate(layers) && this !in AllObjects(layers)
      requires forall i :: 0 <= i < |layers| ==> layers[i].Fresh()
      modifies this, AllObjects(layers)
      ensures ok <==> exists contexts, mappers, choice :: Chain(Specs(layers), contexts, mappers, choice) && contexts[0] == old(ctxt)
      ensures ok ==> parsed && exists contexts, mappers, choice ::
        && Chain(Specs(layers), contexts, mappers, choice) && contexts[0] == old(ctxt) && contexts[|layers|] == ctxt
        && AllChose(layers, mappers, choice) && FirstOf(Specs(layers), old(ctxt), choice)
      ensures !ok ==> ctxt == old(ctxt) && parsed == old(parsed)
    {
      hide Dfs, Chain, AllChose, LexLess;
      DfsIsFirstChain(Specs(layers), ctxt);
      var result := Explore(AllObjects(layers), layers, ctxt);
      if result.None? { return false; }
      ctxt := result.value;
      parsed := true;
      return true;
    }
  }
}
