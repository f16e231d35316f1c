/** What the mapping search is to compute: each layer of a network is taken on its first mapper that
    parses in the incoming context, and its bindings are tried in order, depth first. */
module Search {
  import opened Options

  /** A mapper: two parsing stages and the type checks of its bindings, over contexts C. */
  datatype Mapper<!C> = Mapper(parse: C -> Option<C>, parseCtxt: C -> Option<C>, bindings: seq<C -> Option<C>>)

  type Layer<!C> = seq<Mapper<C>>

  function Parsed<C>(m: Mapper<C>, c: C): Option<C> {
    match m.parse(c)
    case None => None
    case Some(p) => m.parseCtxt(p)
  }

  /** The first mapper at or after j that parses, and the context it leaves. */
  function FirstFrom<C>(maps: Layer<C>, j: nat, c: C): (r: Option<(nat, C)>)
    requires j <= |maps|
    ensures r.Some? ==> j <= r.value.0 < |maps| && Parsed(maps[r.value.0], c) == Some(r.value.1)
    ensures r.Some? ==> forall i :: j <= i < r.value.0 ==> Parsed(maps[i], c).None?
    ensures r.None? ==> forall i :: j <= i < |maps| ==> Parsed(maps[i], c).None?
    decreases |maps| - j
  {
    if j == |maps| then None
    else match Parsed(maps[j], c)
      case Some(p) => Some((j, p))
      case None => FirstFrom(maps, j + 1, c)
  }

  function First<C>(maps: Layer<C>, c: C): (r: Option<(nat, C)>)
    ensures r.Some? ==> r.value.0 < |maps|
  {
    FirstFrom(maps, 0, c)
  }

  /** Depth-first search: the binding chosen per layer, and the final context. */
  function Dfs<C>(layers: seq<Layer<C>>, c: C): Option<(seq<nat>, C)>
    decreases |layers|, 1, 0
  {
    if layers == [] then Some(([], c))
    else match First(layers[0], c)
      case None => None
      case Some(mp) => DfsFrom(layers, mp.0, mp.1, 0)
  }

  /** The search below a parsed layer, from its binding b on. */
  function DfsFrom<C>(layers: seq<Layer<C>>, m: nat, p: C, b: nat): Option<(seq<nat>, C)>
    requires layers != [] && m < |layers[0]| && b <= |layers[0][m].bindings|
    decreases |layers|, 0, |layers[0][m].bindings| - b
  {
    if b == |layers[0][m].bindings| then None
    else match Try(layers[0][m], b, p, layers[1..])
      case Some(r) => Some(([b] + r.0, r.1))
      case None => DfsFrom(layers, m, p, b + 1)
  }

  /** One binding and everything below it. */
  function Try<C>(m: Mapper<C>, b: nat, p: C, rest: seq<Layer<C>>): Option<(seq<nat>, C)>
    requires b < |m.bindings|
    decreases |rest|, 2, 0
  {
    match m.bindings[b](p)
    case None => None
    case Some(d) => Dfs(rest, d)
  }

  // ----- the search finds the lexicographically first choice -----

  /** Following a choice of bindings to the end, each layer on its first parsing mapper. */
  function Follow<C>(layers: seq<Layer<C>>, c: C, choice: seq<nat>): Option<C>
    decreases |layers|
  {
    if layers == [] then (if choice == [] then Some(c) else None)
    else if choice == [] then None
    else match First(layers[0], c)
      case None => None
      case Some(mp) =>
        if choice[0] >= |layers[0][mp.0].bindings| then None
        else match layers[0][mp.0].bindings[choice[0]](mp.1)
          case None => None
          case Some(d) => Follow(layers[1..], d, choice[1..])
  }

  ghost predicate LexLess(a: seq<nat>, b: seq<nat>) {
    |a| == |b| && exists k :: 0 <= k < |a| && a[..k] == b[..k] && a[k] < b[k]
  }

  /** The search returns the lexicographically first choice that type-checks end to end, with its
      final context, and fails exactly when there is none. */
  lemma DfsIsFirstChoice<C>(layers: seq<Layer<C>>, c: C, choice: seq<nat>)
    ensures var r := Dfs(layers, c);
      && (r.Some? ==> Follow(layers, c, r.value.0) == Some(r.value.1))
      && (Follow(layers, c, choice).Some? ==> r.Some? && (r.value.0 == choice || LexLess(r.value.0, choice)))
    decreases |layers|, 1, 0
  {
    if layers != [] && First(layers[0], c).Some? {
      var (m, p) := First(layers[0], c).value;
      DfsFromIsFirst(layers, c, m, p, 0, choice);
    }
  }

  lemma {:induction false} DfsFromIsFirst<C>(layers: seq<Layer<C>>, c: C, m: nat, p: C, b: nat, choice: seq<nat>)
    requires layers != [] && First(layers[0], c) == Some((m, p)) && b <= |layers[0][m].bindings|
    ensures var r := DfsFrom(layers, m, p, b);
      && (r.Some? ==> |r.value.0| > 0 && r.value.0[0] >= b && Follow(layers, c, r.value.0) == Some(r.value.1))
      && (Follow(layers, c, choice).Some? && choice[0] >= b ==> r.Some? && (r.value.0 == choice || LexLess(r.value.0, choice)))
    decreases |layers|, 0, |layers[0][m].bindings| - b
  {
    var bindings := layers[0][m].bindings;
    if b < |bindings| {
      DfsFromIsFirst(layers, c, m, p, b + 1, choice);
      if bindings[b](p).Some? {
        var d := bindings[b](p).value;
        var tail := if choice == [] then [] else choice[1..];
        DfsIsFirstChoice(layers[1..], d, tail);
        var sub := Dfs(layers[1..], d);
        if sub.Some? {
          var r := [b] + sub.value.0;
          assert r[1..] == sub.value.0;
          FollowLength(layers, c, r);
          if Follow(layers, c, choice).Some? && choice[0] >= b {
            FollowLength(layers, c, choice);
            FirstOrLater(b, sub.value.0, choice);
          }
        }
      }
    }
  }

  lemma {:induction false} FollowLength<C>(layers: seq<Layer<C>>, c: C, choice: seq<nat>)
    requires Follow(layers, c, choice).Some?
    ensures |choice| == |layers|
    decreases |layers|
  {
    if layers != [] {
      var (m, p) := First(layers[0], c).value;
      FollowLength(layers[1..], layers[0][m].bindings[choice[0]](p).value, choice[1..]);
    }
  }

  lemma FirstOrLater(b: nat, s: seq<nat>, choice: seq<nat>)
    requires |choice| == |s| + 1 && choice[0] >= b
    requires choice[0] == b ==> s == choice[1..] || LexLess(s, choice[1..])
    ensures [b] + s == choice || LexLess([b] + s, choice)
  {
    var r := [b] + s;
    if choice[0] > b {
      assert r[..0] == choice[..0];
    } else if s == choice[1..] {
      assert r == choice;
    } else {
      var k :| 0 <= k < |s| && s[..k] == choice[1..][..k] && s[k] < choice[1..][k];
      assert r[..k + 1] == [b] + s[..k] && choice[..k + 1] == [b] + choice[1..][..k];
    }
  }

  // ----- in the layers' own terms -----

  /** One of the two parsing stages of a mapper rejects the node. */
  ghost predicate Rejects<C>(m: Mapper<C>, c: C) {
    m.parse(c).None? || m.parseCtxt(m.parse(c).value).None?
  }

  /** Mapper m of a layer, the first that does not reject the node, and its binding b turn c into d. */
  ghost predicate Binds<C>(maps: Layer<C>, c: C, d: C, m: nat, b: nat) {
    && m < |maps| && b < |maps[m].bindings|
    && (forall j :: 0 <= j < m ==> Rejects(maps[j], c))
    && maps[m].parse(c).Some? && maps[m].parseCtxt(maps[m].parse(c).value).Some?
    && maps[m].bindings[b](maps[m].parseCtxt(maps[m].parse(c).value).value) == Some(d)
  }

  /** A mapped network: its contexts, from the incoming to the final one, with a mapper and a binding per layer. */
  ghost predicate Chain<C>(layers: seq<Layer<C>>, contexts: seq<C>, mappers: seq<nat>, choice: seq<nat>) {
    && |contexts| == |layers| + 1 && |mappers| == |choice| == |layers|
    && forall i :: 0 <= i < |layers| ==> Binds(layers[i], contexts[i], contexts[i + 1], mappers[i], choice[i])
  }

  lemma BindsIff<C>(maps: Layer<C>, c: C, d: C, m: nat, b: nat)
    ensures Binds(maps, c, d, m, b) <==>
      First(maps, c).Some? && First(maps, c).value.0 == m && b < |maps[m].bindings| && maps[m].bindings[b](First(maps, c).value.1) == Some(d)
  {
    if Binds(maps, c, d, m, b) {
      assert Parsed(maps[m], c).Some?;
      assert forall j :: 0 <= j < m ==> Parsed(maps[j], c).None?;
    }
  }

  /** Following a choice to the end gives a chain ... */
  lemma {:induction false} ChainOf<C>(layers: seq<Layer<C>>, c: C, choice: seq<nat>) returns (contexts: seq<C>, mappers: seq<nat>)
    requires Follow(layers, c, choice).Some?
    ensures Chain(layers, contexts, mappers, choice) && contexts[0] == c && contexts[|layers|] == Follow(layers, c, choice).value
    decreases |layers|
  {
    contexts, mappers := [c], [];
    if layers != [] {
      hide First, Binds;
      var (m, p) := First(layers[0], c).value;
      var d := layers[0][m].bindings[choice[0]](p).value;
      var cs, ms := ChainOf(layers[1..], d, choice[1..]);
      BindsIff(layers[0], c, d, m, choice[0]);
      contexts, mappers := [c] + cs, [m] + ms;
      forall i | 0 <= i < |layers| ensures Binds(layers[i], contexts[i], contexts[i + 1], mappers[i], choice[i]) {
        if i > 0 { assert Binds(layers[1..][i - 1], cs[i - 1], cs[i], ms[i - 1], choice[1..][i - 1]); }
      }
    }
  }

  /** ... and every chain follows its choice. */
  lemma {:induction false} ChainFollows<C>(layers: seq<Layer<C>>, contexts: seq<C>, mappers: seq<nat>, choice: seq<nat>)
    requires Chain(layers, contexts, mappers, choice)
    ensures Follow(layers, contexts[0], choice) == Some(contexts[|layers|])
    decreases |layers|
  {
    if layers != [] {
      BindsIff(layers[0], contexts[0], contexts[1], mappers[0], choice[0]);
      ChainFollows(layers[1..], contexts[1..], mappers[1..], choice[1..]);
    }
  }

  /** The search returns the chain with the lexicographically first choice of bindings, and fails exactly
      when there is no chain. */
  lemma DfsIsFirstChain<C(!new)>(layers: seq<Layer<C>>, c: C)
    ensures Dfs(layers, c).Some? ==> exists contexts, mappers ::
      && Chain(layers, contexts, mappers, Dfs(layers, c).value.0)
      && contexts[0] == c && contexts[|layers|] == Dfs(layers, c).value.1
    ensures forall contexts, mappers, choice :: Chain(layers, contexts, mappers, choice) && contexts[0] == c ==>
      Dfs(layers, c).Some? && (Dfs(layers, c).value.0 == choice || LexLess(Dfs(layers, c).value.0, choice))
  {
    hide Dfs, Follow, LexLess, Binds;
    if Dfs(layers, c).Some? {
      DfsIsFirstChoice(layers, c, []);
      var contexts, mappers := ChainOf(layers, c, Dfs(layers, c).value.0);
    }
    forall contexts, mappers, choice | Chain(layers, contexts, mappers, choice) && contexts[0] == c
      ensures Dfs(layers, c).Some? && (Dfs(layers, c).value.0 == choice || LexLess(Dfs(layers, c).value.0, choice))
    {
      ChainFollows(layers, contexts, mappers, choice);
      DfsIsFirstChoice(layers, c, choice);
    }
  }

  // ----- more than one mapper -----

  /** A layer can turn c into d with some mapper and some binding. */
  ghost predicate Outcome<C>(maps: Layer<C>, c: C, d: C) {
    exists m: nat, b: nat :: OutcomeOf(maps, c, d, m, b)
  }

  ghost predicate OutcomeOf<C>(maps: Layer<C>, c: C, d: C, m: nat, b: nat) {
    m < |maps| && b < |maps[m].bindings| && Parsed(maps[m], c).Some? &&
    maps[m].bindings[b](Parsed(maps[m], c).value) == Some(d)
  }

  /** ... with its first parsing mapper. */
  ghost predicate FirstOutcome<C>(maps: Layer<C>, c: C, d: C) {
    First(maps, c).Some? && exists b: nat :: OutcomeOf(maps, c, d, First(maps, c).value.0, b)
  }

  /** Later mappers of the layer reach nothing the first parsing one does not. */
  ghost predicate Covered<C(!new)>(maps: Layer<C>) {
    forall c: C, d: C :: Outcome(maps, c, d) ==> FirstOutcome(maps, c, d)
  }

  /** Some choice of mappers and bindings type-checks end to end. */
  ghost predicate Mappable<C(!new)>(layers: seq<Layer<C>>, c: C)
    decreases |layers|
  {
    layers == [] || exists d: C :: Outcome(layers[0], c, d) && Mappable(layers[1..], d)
  }

  lemma FirstOutcomeSearch<C>(layers: seq<Layer<C>>, c: C, d: C)
    requires layers != [] && FirstOutcome(layers[0], c, d) && Dfs(layers[1..], d).Some?
    ensures Dfs(layers, c).Some?
  {
    var (m, p) := First(layers[0], c).value;
    var b: nat :| OutcomeOf(layers[0], c, d, m, b);
    LiveBinding(layers, m, p, 0, b);
  }

  lemma {:induction false} LiveBinding<C>(layers: seq<Layer<C>>, m: nat, p: C, from: nat, b: nat)
    requires layers != [] && m < |layers[0]| && from <= b < |layers[0][m].bindings|
    requires Try(layers[0][m], b, p, layers[1..]).Some?
    ensures DfsFrom(layers, m, p, from).Some?
    decreases b - from
  {
    if from < b { LiveBinding(layers, m, p, from + 1, b); }
  }

  /** On layers whose later mappers add nothing, the search succeeds whenever any mapping exists. */
  lemma {:induction false} CoveredSearchComplete<C(!new)>(layers: seq<Layer<C>>, c: C)
    requires forall i :: 0 <= i < |layers| ==> Covered(layers[i])
    ensures Mappable(layers, c) ==> Dfs(layers, c).Some?
    decreases |layers|
  {
    if layers != [] && Mappable(layers, c) {
      var d: C :| Outcome(layers[0], c, d) && Mappable(layers[1..], d);
      CoveredSearchComplete(layers[1..], d);
      FirstOutcomeSearch(layers, c, d);
    }
  }

  /** A layer that passes the context d on and rejects any other. */
  ghost function Only<C>(d: C): Layer<C> {
    [Mapper(c => Some(c), c => Some(c), [c => if c == d then Some(c) else None])]
  }

  lemma OnlyMeaning<C(!new)>(d: C)
    ensures Covered(Only(d)) && Outcome(Only(d), d, d)
    ensures forall c: C :: Dfs([Only(d)], c).Some? ==> c == d
  {
    var maps := Only(d);
    forall c: C ensures First(maps, c) == Some((0, c)) {}
    forall c: C, e: C | Outcome(maps, c, e) ensures FirstOutcome(maps, c, e) {
      var m: nat, b: nat :| OutcomeOf(maps, c, e, m, b);
      assert OutcomeOf(maps, c, e, 0, b);
    }
    assert OutcomeOf(maps, d, d, 0, 0);
    forall c: C | Dfs([maps], c).Some? ensures c == d {
      assert DfsFrom([maps], 0, c, 0).Some?;
      assert DfsFrom([maps], 0, c, 1).None?;
      assert Try(maps[0], 0, c, [maps][1..]).Some?;
    }
  }

  /** A network starting with this layer, on any other covered layers, is mapped whenever some
      choice of mappers and bindings exists. */
  ghost predicate CompleteFor<C(!new)>(maps: Layer<C>) {
    forall c: C, rest: seq<Layer<C>> :: (forall i :: 0 <= i < |rest| ==> Covered(rest[i])) ==>
      Mappable([maps] + rest, c) ==> Dfs([maps] + rest, c).Some?
  }

  /** The search never tries a second mapper after a failed type check. It is complete over mappers
      exactly for layers whose later mappers reach nothing the first parsing one does not. */
  lemma CompleteIffCovered<C(!new)>(maps: Layer<C>)
    ensures CompleteFor(maps) <==> Covered(maps)
  {
    if Covered(maps) {
      forall c: C, rest: seq<Layer<C>> | (forall i :: 0 <= i < |rest| ==> Covered(rest[i])) && Mappable([maps] + rest, c)
        ensures Dfs([maps] + rest, c).Some?
      {
        CoveredSearchComplete([maps] + rest, c);
      }
    } else {
      var c: C, d: C :| Outcome(maps, c, d) && !FirstOutcome(maps, c, d);
      OnlyMeaning(d);
      var rest, layers := [Only(d)], [maps] + [Only(d)];
      assert layers[1..] == rest && rest[1..] == [];
      assert Outcome(rest[0], d, d) && Mappable(rest[1..], d);
      assert Outcome(layers[0], c, d) && Mappable(layers[1..], d);
      if Dfs(layers, c).Some? {
        var (m, p) := First(maps, c).value;
        var b := SuccessfulBinding(layers, m, p, 0);
        assert OutcomeOf(maps, c, d, m, b);
        assert false;
      }
    }
  }

  lemma {:induction false} SuccessfulBinding<C>(layers: seq<Layer<C>>, m: nat, p: C, from: nat) returns (b: nat)
    requires layers != [] && m < |layers[0]| && from <= |layers[0][m].bindings|
    requires DfsFrom(layers, m, p, from).Some?
    ensures from <= b < |layers[0][m].bindings| && Try(layers[0][m], b, p, layers[1..]).Some?
    decreases |layers[0][m].bindings| - from
  {
    if Try(layers[0][m], from, p, layers[1..]).Some? {
      b := from;
    } else {
      b := SuccessfulBinding(layers, m, p, from + 1);
    }
  }

  /** Two mappers parse, only the second type-checks: a mapping exists and the search fails. */
  lemma SecondMapperNeverTried() returns (maps: Layer<int>)
    ensures |maps| == 2 && Mappable([maps], 0) && Dfs([maps], 0).None?
  {
    var pass: int -> Option<int> := c => Some(c);
    var reject: int -> Option<int> := c => None;
    maps := [Mapper(pass, pass, [reject]), Mapper(pass, pass, [pass])];
    assert OutcomeOf(maps, 0, 0, 1, 0);
    assert Outcome([maps][0], 0, 0) && Mappable([maps][1..], 0);
    assert Parsed(maps[0], 0) == Some(0);
    assert First(maps, 0) == Some((0, 0));
    assert Try(maps[0], 0, 0, [maps][1..]).None?;
    assert DfsFrom([maps], 0, 0, 1).None?;
  }
}
