/** The memory hierarchy as a neighbour graph, and the shortest path a tile takes through it. */
module MemoryLevels {
  import opened Options

  datatype MemoryLevel = MemoryLevel(neighbourNames: seq<string>, size: nat)

  /** A walk along neighbours. */
  ghost predicate IsPath(levels: map<string, MemoryLevel>, p: seq<string>) {
    p != [] && forall i :: 0 <= i < |p| - 1 ==> p[i] in levels && p[i + 1] in levels[p[i]].neighbourNames
  }

  ghost predicate Connects(levels: map<string, MemoryLevel>, p: seq<string>, start: string, target: string) {
    IsPath(levels, p) && p[0] == start && p[|p| - 1] == target
  }

  ghost predicate NoRepetition(p: seq<string>) {
    forall i, j :: 0 <= i < j < |p| ==> p[i] != p[j]
  }

  function Last(p: seq<string>): string
    requires p != []
  {
    p[|p| - 1]
  }

  /** The state of the search: queue holds one path per visited level, in order of length. */
  ghost predicate Searching(levels: map<string, MemoryLevel>, queue: seq<seq<string>>, visited: seq<string>, start: string) {
    && |queue| == |visited| > 0 && queue[0] == [start]
    && (forall i :: 0 <= i < |queue| ==> Connects(levels, queue[i], start, visited[i]))
    && (forall i, j :: 0 <= i < j < |queue| ==> visited[i] != visited[j] && |queue[i]| <= |queue[j]|)
    && (forall i :: 0 <= i < |queue| ==> visited[i] in levels)
  }

  /** Level v is reached by a queued path no longer than n. */
  ghost predicate Within(queue: seq<seq<string>>, visited: seq<string>, v: string, n: nat)
    requires |queue| == |visited|
  {
    exists k :: 0 <= k < |queue| && visited[k] == v && |queue[k]| <= n
  }

  /** Path i is fully explored: its neighbours are queued within one more step, and none is the target. */
  ghost predicate Explored(levels: map<string, MemoryLevel>, queue: seq<seq<string>>, visited: seq<string>, target: string, i: nat)
    requires |queue| == |visited| && i < |queue| && visited[i] in levels
  {
    forall v :: v in levels[visited[i]].neighbourNames ==> v != target && Within(queue, visited, v, |queue[i]| + 1)
  }

  class MemoryHierarchy {
    var memoryLevels: map<string, MemoryLevel>

    constructor ()
      ensures memoryLevels == map[]
    {
      memoryLevels := map[];
    }

    /** _add: false for a name that is already taken. */
    method Add(name: string, level: MemoryLevel) returns (ok: bool)
      modifies this
      ensures ok <==> name !in old(memoryLevels)
      ensures memoryLevels == if ok then old(memoryLevels)[name := level] else old(memoryLevels)
    {
      if name in memoryLevels { return false; }
      memoryLevels := memoryLevels[name := level];
      ok := true;
    }

    /** _check: every neighbour is a level. */
    predicate Check()
      reads this
    {
      forall name, v :: name in memoryLevels && v in memoryLevels[name].neighbourNames ==> v in memoryLevels
    }

    /** Breadth-first search: a shortest path without repetition, or the empty list when there is no
        path. None for an unknown start level. */
    method Bfs(start: string, target: string) returns (r: Option<seq<string>>)
      requires Check()
      ensures r.None? <==> start != target && start !in memoryLevels
      ensures r.Some? && r.value != [] ==> Connects(memoryLevels, r.value, start, target) && NoRepetition(r.value)
      ensures r.Some? && r.value != [] ==> forall p :: Connects(memoryLevels, p, start, target) ==> |r.value| <= |p|
      ensures r == Some([]) ==> forall p :: !Connects(memoryLevels, p, start, target)
    {
      if start == target {
        assert Connects(memoryLevels, [start], start, target);
        return Some([start]);
      }
      if start !in memoryLevels { return None; }
      var visited, queue, queueIdx := [start], [[start]], 0;
      while queueIdx < |queue|
        invariant queueIdx <= |queue| && Searching(memoryLevels, queue, visited, start)
        invariant forall i :: 0 <= i < |queue| ==> visited[i] != target
        invariant forall i :: 0 <= i < queueIdx ==> Explored(memoryLevels, queue, visited, target, i)
        invariant queueIdx < |queue| ==> forall i :: 0 <= i < |queue| ==> |queue[i]| <= |queue[queueIdx]| + 1
        decreases |memoryLevels| + 1 - queueIdx
      {
        VisitedBound(memoryLevels, queue, visited, start);
        var currentPath := queue[queueIdx];
        var neighbours := memoryLevels[Last(currentPath)].neighbourNames;
        if target in neighbours {
          var found := currentPath + [target];
          FoundIsShortest(memoryLevels, queue, visited, start, target, queueIdx);
          return Some(found);
        }
        queue, visited := Expand(queue, visited, start, target, queueIdx);
        queueIdx := queueIdx + 1;
      }
      forall p ensures !Connects(memoryLevels, p, start, target) {
        if Connects(memoryLevels, p, start, target) {
          AllReached(memoryLevels, queue, visited, start, target, |queue|, p, |p|);
          assert false;
        }
      }
      r := Some([]);
    }

    /** Queues a path to every neighbour of the current path's end not visited before. */
    method Expand(queue: seq<seq<string>>, visited: seq<string>, start: string, target: string, q: nat)
      returns (queue': seq<seq<string>>, visited': seq<string>)
      requires Check() && Searching(memoryLevels, queue, visited, start) && q < |queue|
      requires target !in memoryLevels[visited[q]].neighbourNames
      requires forall i :: 0 <= i < |queue| ==> visited[i] != target && |queue[i]| <= |queue[q]| + 1
      requires forall i :: 0 <= i < q ==> Explored(memoryLevels, queue, visited, target, i)
      ensures Searching(memoryLevels, queue', visited', start) && queue <= queue' && visited <= visited'
      ensures forall i :: 0 <= i < |queue'| ==> visited'[i] != target
      ensures forall i :: 0 <= i <= q ==> Explored(memoryLevels, queue', visited', target, i)
      ensures q + 1 < |queue'| ==> forall i :: 0 <= i < |queue'| ==> |queue'[i]| <= |queue'[q + 1]| + 1
    {
      queue', visited' := queue, visited;
      var currentPath := queue[q];
      var neighbours := memoryLevels[visited[q]].neighbourNames;
      for k := 0 to |neighbours|
        invariant Searching(memoryLevels, queue', visited', start) && queue <= queue' && visited <= visited'
        invariant forall i :: 0 <= i < |queue'| ==> visited'[i] != target && |queue'[i]| <= |currentPath| + 1
        invariant forall v :: v in neighbours[..k] ==> Within(queue', visited', v, |currentPath| + 1)
      {
        ghost var before, seen := queue', visited';
        var nextNode := neighbours[k];
        assert neighbours[..k + 1] == neighbours[..k] + [nextNode];
        if nextNode !in visited' {
          ExtendedPath(memoryLevels, currentPath, start, visited[q], nextNode);
          queue', visited' := queue' + [currentPath + [nextNode]], visited' + [nextNode];
          forall v, n: nat | Within(before, seen, v, n) ensures Within(queue', visited', v, n) {
            WithinGrows(before, seen, queue', visited', v, n);
          }
          assert visited'[|visited'| - 1] == nextNode;
          assert Within(queue', visited', nextNode, |currentPath| + 1);
        } else {
          ghost var i :| 0 <= i < |visited'| && visited'[i] == nextNode;
          assert Within(queue', visited', nextNode, |currentPath| + 1);
        }
      }
      assert neighbours[..|neighbours|] == neighbours;
      forall i | 0 <= i <= q ensures Explored(memoryLevels, queue', visited', target, i) {
        if i < q {
          assert Explored(memoryLevels, queue, visited, target, i);
          forall v | v in memoryLevels[visited[i]].neighbourNames ensures Within(queue', visited', v, |queue[i]| + 1) {
            WithinGrows(queue, visited, queue', visited', v, |queue[i]| + 1);
          }
        }
      }
    }
  }

  lemma WithinGrows(queue: seq<seq<string>>, visited: seq<string>, queue': seq<seq<string>>, visited': seq<string>, v: string, n: nat)
    requires |queue| == |visited| && |queue'| == |visited'| && queue <= queue' && visited <= visited' && Within(queue, visited, v, n)
    ensures Within(queue', visited', v, n)
  {
    var k :| 0 <= k < |queue| && visited[k] == v && |queue[k]| <= n;
    assert visited'[k] == v && queue'[k] == queue[k];
  }

  lemma ExtendedPath(levels: map<string, MemoryLevel>, p: seq<string>, start: string, end: string, next: string)
    requires Connects(levels, p, start, end) && end in levels && next in levels[end].neighbourNames
    ensures Connects(levels, p + [next], start, next)
  {
    var r := p + [next];
    forall i | 0 <= i < |r| - 1 ensures r[i] in levels && r[i + 1] in levels[r[i]].neighbourNames {
      if i < |p| - 1 { assert p[i] in levels && p[i + 1] in levels[p[i]].neighbourNames; }
    }
  }

  /** No level is visited twice, so there are at most as many paths as levels. */
  lemma VisitedBound(levels: map<string, MemoryLevel>, queue: seq<seq<string>>, visited: seq<string>, start: string)
    requires Searching(levels, queue, visited, start)
    ensures |queue| <= |levels|
  {
    DistinctBound(visited, levels.Keys);
  }

  lemma {:induction false} DistinctBound(s: seq<string>, keys: set<string>)
    requires (forall i, j :: 0 <= i < j < |s| ==> s[i] != s[j]) && forall i :: 0 <= i < |s| ==> s[i] in keys
    ensures |s| <= |keys|
  {
    if s != [] { DistinctBound(s[..|s| - 1], keys - {s[|s| - 1]}); }
  }

  /** As far as the explored paths carry, every prefix of a path from the start is queued within its
      length; in particular nothing shorter than the first unexplored path is missing. */
  lemma {:induction false} AllReached(levels: map<string, MemoryLevel>, queue: seq<seq<string>>, visited: seq<string>, start: string,
                                      target: string, q: nat, p: seq<string>, n: nat)
    requires Searching(levels, queue, visited, start) && q <= |queue|
    requires forall i :: 0 <= i < q ==> Explored(levels, queue, visited, target, i)
    requires IsPath(levels, p) && p[0] == start && 0 < n <= |p|
    requires q < |queue| ==> n <= |queue[q]|
    ensures Within(queue, visited, p[n - 1], n)
    ensures n > 1 ==> p[n - 1] != target
    decreases n
  {
    if n == 1 {
      assert visited[0] == start && |queue[0]| <= 1;
    } else {
      AllReached(levels, queue, visited, start, target, q, p, n - 1);
      var k :| 0 <= k < |queue| && visited[k] == p[n - 2] && |queue[k]| <= n - 1;
      assert k < q;
      assert Explored(levels, queue, visited, target, k);
      assert p[n - 1] in levels[p[n - 2]].neighbourNames;
      var j :| 0 <= j < |queue| && visited[j] == p[n - 1] && |queue[j]| <= |queue[k]| + 1;
    }
  }

  lemma FoundIsShortest(levels: map<string, MemoryLevel>, queue: seq<seq<string>>, visited: seq<string>, start: string, target: string, q: nat)
    requires Searching(levels, queue, visited, start) && q < |queue| && start != target
    requires forall i :: 0 <= i < |queue| ==> visited[i] != target
    requires forall i :: 0 <= i < q ==> Explored(levels, queue, visited, target, i)
    requires target in levels[visited[q]].neighbourNames
    ensures Connects(levels, queue[q] + [target], start, target)
    ensures forall p :: Connects(levels, p, start, target) ==> |queue[q]| + 1 <= |p|
    ensures NoRepetition(queue[q] + [target])
  {
    ExtendedPath(levels, queue[q], start, visited[q], target);
    forall p | Connects(levels, p, start, target) ensures |queue[q]| + 1 <= |p| {
      if |p| <= |queue[q]| { AllReached(levels, queue, visited, start, target, q, p, |p|); }
    }
    ShortestHasNoRepetition(levels, queue[q] + [target], start, target);
  }

  /** A shortest path visits no level twice: the loop could be cut out. */
  lemma ShortestHasNoRepetition(levels: map<string, MemoryLevel>, p: seq<string>, start: string, target: string)
    requires Connects(levels, p, start, target)
    requires forall r :: Connects(levels, r, start, target) ==> |p| <= |r|
    ensures NoRepetition(p)
  {
    forall i, j | 0 <= i < j < |p| ensures p[i] != p[j] {
      if p[i] == p[j] {
        var r := p[..i] + p[j..];
        forall k | 0 <= k < |r| - 1 ensures r[k] in levels && r[k + 1] in levels[r[k]].neighbourNames {
          var a := if k < i then k else k + j - i;
          assert p[a] in levels && p[a + 1] in levels[p[a]].neighbourNames;
        }
        assert Connects(levels, r, start, target);
        assert false;
      }
    }
  }
}
