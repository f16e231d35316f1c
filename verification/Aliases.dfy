/** In-place aliases, and the buffer underneath a chain of them. */
module Aliases {
  import opened Options

  /** Registered names, each with the name it is an alias of, if any. */
  type AliasMap = map<string, Option<string>>

  /** The name k hops down the alias chain; None past its end or at an unregistered name. */
  function Hop(aliases: AliasMap, name: string, k: nat): (r: Option<string>)
    ensures r.Some? ==> r.value in aliases
    decreases k
  {
    if name !in aliases then None
    else if k == 0 then Some(name)
    else if aliases[name].None? then None
    else Hop(aliases, aliases[name].value, k - 1)
  }

  /** The chain ends, in a registered buffer that is no alias. */
  ghost predicate EndsIn(aliases: AliasMap, name: string, root: string) {
    root in aliases && aliases[root].None? && exists k: nat :: Hop(aliases, name, k) == Some(root)
  }

  lemma {:induction false} HopOn(aliases: AliasMap, name: string, j: nat, k: nat)
    requires Hop(aliases, name, j).Some?
    ensures Hop(aliases, name, j + k) == Hop(aliases, Hop(aliases, name, j).value, k)
    decreases j
  {
    if j > 0 { HopOn(aliases, aliases[name].value, j - 1, k); }
  }

  /** A chain that comes back to a name it has left goes on for ever. */
  lemma {:induction false} CircularNeverEnds(aliases: AliasMap, name: string, p: nat, k: nat)
    requires p > 0 && Hop(aliases, name, p) == Some(name)
    ensures Hop(aliases, name, k).Some? && aliases[Hop(aliases, name, k).value].Some?
    decreases k
  {
    if k < p {
      HopOn(aliases, name, 0, p);
      EarlierHop(aliases, name, k, p);
    } else {
      HopOn(aliases, name, p, k - p);
      CircularNeverEnds(aliases, name, p, k - p);
    }
  }

  lemma {:induction false} EarlierHop(aliases: AliasMap, name: string, k: nat, p: nat)
    requires k < p && Hop(aliases, name, p).Some?
    ensures Hop(aliases, name, k).Some? && aliases[Hop(aliases, name, k).value].Some?
    decreases k
  {
    if k > 0 { EarlierHop(aliases, aliases[name].value, k - 1, p - 1); }
  }

  /** The buffer an alias stands for; None when the chain is circular or leaves the registered names. */
  method DealiasBuffer(aliases: AliasMap, name: string) returns (r: Option<string>)
    ensures r.Some? ==> EndsIn(aliases, name, r.value)
    ensures r.None? ==> forall root :: !EndsIn(aliases, name, root)
  {
    if name !in aliases { return None; }
    var seen: set<string>, current := {}, name;
    ghost var k: nat := 0;
    while aliases[current].Some?
      invariant current in aliases && Hop(aliases, name, k) == Some(current)
      invariant seen <= aliases.Keys && current !in seen
      invariant forall t :: t in seen ==> exists j: nat :: j < k && Hop(aliases, name, j) == Some(t)
      decreases aliases.Keys - seen
    {
      seen := seen + {current};
      var next := aliases[current].value;
      HopOn(aliases, name, k, 1);
      if next !in aliases {
        forall root | EndsIn(aliases, name, root) ensures false { HopsEnd(aliases, name, k, root); }
        return None;
      }
      if next in seen {
        ghost var j: nat :| j < k + 1 && Hop(aliases, name, j) == Some(next);
        forall root | EndsIn(aliases, name, root) ensures false { CycleHasNoEnd(aliases, name, j, k + 1, root); }
        return None;
      }
      current, k := next, k + 1;
    }
    r := Some(current);
  }

  /** A chain whose next name is not registered has no end. */
  lemma HopsEnd(aliases: AliasMap, name: string, k: nat, root: string)
    requires Hop(aliases, name, k).Some? && aliases[Hop(aliases, name, k).value].Some? && Hop(aliases, name, k + 1).None?
    ensures !EndsIn(aliases, name, root)
  {
    if EndsIn(aliases, name, root) {
      var m: nat :| Hop(aliases, name, m) == Some(root);
      if m < k { EarlierHop(aliases, name, m, k); }
      if m > k { HopOn(aliases, name, k, m - k); HopOn(aliases, name, k, 1); }
    }
  }

  lemma CycleHasNoEnd(aliases: AliasMap, name: string, j: nat, k: nat, root: string)
    requires j < k && Hop(aliases, name, j).Some? && Hop(aliases, name, k) == Hop(aliases, name, j)
    ensures !EndsIn(aliases, name, root)
  {
    if EndsIn(aliases, name, root) {
      var m: nat :| Hop(aliases, name, m) == Some(root);
      if m < j {
        EarlierHop(aliases, name, m, j);
      } else {
        var start := Hop(aliases, name, j).value;
        HopOn(aliases, name, j, k - j);
        HopOn(aliases, name, j, m - j);
        CircularNeverEnds(aliases, start, k - j, m - j);
      }
    }
  }

  lemma OneEnd(aliases: AliasMap, name: string, a: string, b: string)
    requires EndsIn(aliases, name, a) && EndsIn(aliases, name, b)
    ensures a == b
  {
    var j: nat :| Hop(aliases, name, j) == Some(a);
    var k: nat :| Hop(aliases, name, k) == Some(b);
    if j < k { EarlierHop(aliases, name, j, k); }
    if k < j { EarlierHop(aliases, name, k, j); }
  }

  /** Every name whose chain ends, with its end. */
  ghost function Roots(aliases: AliasMap): (root: map<string, string>)
    ensures forall t :: t in root ==> t in aliases && EndsIn(aliases, t, root[t])
    ensures forall t, r :: EndsIn(aliases, t, r) ==> t in root && root[t] == r
  {
    RootsAreUnique(aliases);
    map t | t in aliases && exists r :: EndsIn(aliases, t, r) :: var r :| EndsIn(aliases, t, r); r
  }

  lemma RootsAreUnique(aliases: AliasMap)
    ensures forall t, a, b :: EndsIn(aliases, t, a) && EndsIn(aliases, t, b) ==> a == b
    ensures forall t, r :: EndsIn(aliases, t, r) ==> t in aliases
  {
    forall t, a, b | EndsIn(aliases, t, a) && EndsIn(aliases, t, b) ensures a == b {
      OneEnd(aliases, t, a, b);
    }
  }

  /** A resolution of aliases to their underlying buffers. */
  ghost predicate Resolves(root: map<string, string>, keys: seq<string>) {
    && (forall t :: t in keys ==> t in root)
    && (forall t :: t in root ==> root[t] in root && root[root[t]] == root[t])
  }

  /** Resolving is idempotent, as the lifetime pass needs it. */
  lemma RootsResolve(aliases: AliasMap, keys: seq<string>)
    requires forall t :: t in keys ==> t in Roots(aliases)
    ensures Resolves(Roots(aliases), keys)
  {
    var root := Roots(aliases);
    forall t | t in root ensures root[t] in root && root[root[t]] == root[t] {
      assert Hop(aliases, root[t], 0) == Some(root[t]);
      assert EndsIn(aliases, root[t], root[t]);
    }
  }

  /** dealiasBuffer on every registered name. */
  method ResolveAll(aliases: AliasMap) returns (root: map<string, string>)
    ensures root == Roots(aliases)
  {
    root := map[];
    var left := aliases.Keys;
    while left != {}
      invariant left <= aliases.Keys && root.Keys <= aliases.Keys - left
      invariant forall t :: t in aliases.Keys - left ==> (t in root <==> t in Roots(aliases))
      invariant forall t :: t in root ==> t in Roots(aliases) && root[t] == Roots(aliases)[t]
      decreases left
    {
      var t :| t in left;
      var r := DealiasBuffer(aliases, t);
      if r.Some? { root := root[t := r.value]; }
      left := left - {t};
    }
    assert root.Keys == Roots(aliases).Keys;
  }
}
