/** The Tetris cost recurrence: each block of the permuted pattern is dropped on top of the highest
    earlier block it overlaps. */
module Heights {
  import opened Permutations
  import opened TilerModels

  function MaxOf(s: seq<int>): (m: int)
    requires s != []
    ensures m in s && forall j :: 0 <= j < |s| ==> s[j] <= m
  {
    if |s| == 1 then s[0]
    else var rest, last := MaxOf(s[..|s| - 1]), s[|s| - 1]; if last > rest then last else rest
  }

  /** adj[i][j] * h[j] + cost[i] for the earlier blocks j. */
  function Entries(h: seq<int>, adj: Matrix, cost: int, i: nat): (s: seq<int>)
    requires i <= |h|
    ensures |s| == i
  {
    seq(i, j requires 0 <= j < i => Entry(adj, i, j) * h[j] + cost)
  }

  /** The i-th height obeys the recurrence. */
  predicate IsHeight(h: seq<int>, adj: Matrix, costs: seq<int>, i: nat)
    requires i < |h| == |costs|
  {
    h[i] == if i == 0 then costs[0] else MaxOf(Entries(h, adj, costs[i], i))
  }

  ghost predicate IsHeights(h: seq<int>, adj: Matrix, costs: seq<int>) {
    |h| == |costs| && forall i :: 0 <= i < |h| ==> IsHeight(h, adj, costs, i)
  }

  // ----- the posted recurrence -----

  /** The declared upper bound of the i-th height. */
  function HeightCap(costs: seq<Term>, i: nat): int
    requires i < |costs|
  {
    if i == 0 then MaxVal(costs[0]) else HeightCap(costs, i - 1) + MaxVal(costs[i])
  }

  function HeightTerms(costs: seq<Term>, k: nat): seq<Term>
    requires k <= |costs|
  {
    seq(k, i requires 0 <= i < k => Var(H(i), HeightCap(costs, i)))
  }

  function EntryTerms(costs: seq<Term>, i: nat, k: nat): seq<Term>
    requires k <= i < |costs|
  {
    seq(k, j requires 0 <= j < k => Var(MaxEntry(i, j), HeightCap(costs, j) + MaxVal(costs[i])))
  }

  ghost predicate EntryPosted(s: Assignment, adj: seq<seq<Term>>, costs: seq<Term>, i: nat, j: nat)
    requires j < i < |costs| && SquareTerms(adj, |costs|)
  {
    && 0 <= s(MaxEntry(i, j)) <= HeightCap(costs, j) + MaxVal(costs[i])
    && s(MaxEntry(i, j)) == Value(s, adj[i][j]) * s(H(j)) + Value(s, costs[i])
  }

  ghost predicate HeightPosted(s: Assignment, adj: seq<seq<Term>>, costs: seq<Term>, i: nat)
    requires i < |costs| && SquareTerms(adj, |costs|)
  {
    && 0 <= s(H(i)) <= HeightCap(costs, i)
    && if i == 0 then s(H(0)) == Value(s, costs[0])
       else (forall j :: 0 <= j < i ==> EntryPosted(s, adj, costs, i, j))
            && IsMaximum(s(H(i)), i, TermsAt(s, EntryTerms(costs, i, i)))
  }

  ghost predicate TotalPosted(s: Assignment, costs: seq<Term>)
    requires costs != []
  {
    && 0 <= s(TotalCost) <= MaxOf(seq(|costs|, i requires 0 <= i < |costs| => HeightCap(costs, i)))
    && IsMaximum(s(TotalCost), |costs|, TermsAt(s, HeightTerms(costs, |costs|)))
  }

  lemma EvalEntry(s: Assignment, x: Term, y: Term, z: Term)
    ensures Eval(s, Plus(Times(Leaf(x), Leaf(y)), Leaf(z))) == Value(s, x) * Value(s, y) + Value(s, z)
  {
    assert Eval(s, Times(Leaf(x), Leaf(y))) == Eval(s, Leaf(x)) * Eval(s, Leaf(y));
  }

  method PostEntry(model: TilerModel, adj: seq<seq<Term>>, costs: seq<Term>, hVar: Term, i: nat, j: nat) returns (pVar: Term)
    requires j < i < |costs| && SquareTerms(adj, |costs|) && hVar == HeightTerms(costs, i)[j]
    modifies model
    ensures pVar == EntryTerms(costs, i, i)[j]
    ensures forall s :: AllHold(s, model.constraints) <==> AllHold(s, old(model.constraints)) && EntryPosted(s, adj, costs, i, j)
  {
    pVar := model.AddVariable(MaxEntry(i, j), 0, MaxVal(hVar) + MaxVal(costs[i]));
    var constr := Is(pVar, Plus(Times(Leaf(adj[i][j]), Leaf(hVar)), Leaf(costs[i])));
    model.AddConstraint(constr);
    forall s ensures EntryPosted(s, adj, costs, i, j) <==> 0 <= Value(s, pVar) <= pVar.hi && Holds(s, constr) {
      EvalEntry(s, adj[i][j], hVar, costs[i]);
    }
  }

  ghost predicate EntriesPosted(s: Assignment, adj: seq<seq<Term>>, costs: seq<Term>, i: nat, k: nat)
    requires k <= i < |costs| && SquareTerms(adj, |costs|)
  {
    forall j :: 0 <= j < k ==> EntryPosted(s, adj, costs, i, j)
  }

  method PostHeight(model: TilerModel, adj: seq<seq<Term>>, costs: seq<Term>, hVector: seq<Term>, i: nat) returns (hVar: Term)
    requires 0 < i < |costs| && SquareTerms(adj, |costs|) && hVector == HeightTerms(costs, i)
    modifies model
    ensures hVar == Var(H(i), HeightCap(costs, i))
    ensures forall s :: AllHold(s, model.constraints) <==> AllHold(s, old(model.constraints)) && HeightPosted(s, adj, costs, i)
  {
    hVar := model.AddVariable(H(i), 0, MaxVal(hVector[i - 1]) + MaxVal(costs[i]));
    label Entries:
    var prod: seq<Term> := [];
    for j := 0 to i
      invariant prod == EntryTerms(costs, i, i)[..j]
      invariant forall s :: AllHold(s, model.constraints) <==>
        AllHold(s, old@Entries(model.constraints)) && EntriesPosted(s, adj, costs, i, j)
    {
      var pVar := PostEntry(model, adj, costs, hVector[j], i, j);
      forall s ensures EntriesPosted(s, adj, costs, i, j + 1) <==>
        EntriesPosted(s, adj, costs, i, j) && EntryPosted(s, adj, costs, i, j) {}
      prod := prod + [pVar];
    }
    assert prod == EntryTerms(costs, i, i);
    model.AddConstraint(MaxIs(prod, hVar));
    forall s ensures HeightPosted(s, adj, costs, i) <==>
      0 <= s(H(i)) <= HeightCap(costs, i) && EntriesPosted(s, adj, costs, i, i) && Holds(s, MaxIs(prod, hVar)) {}
  }

  /** The solutions left are those whose H variables satisfy the recurrence. */
  method GenerateCost(model: TilerModel, adjMatrix: seq<seq<Term>>, costVector: seq<Term>) returns (cost: Term)
    requires costVector != [] && SquareTerms(adjMatrix, |costVector|)
    modifies model
    ensures cost.Var? && cost.name == TotalCost
    ensures forall s :: AllHold(s, model.constraints) <==>
      && AllHold(s, old(model.constraints))
      && (forall i :: 0 <= i < |costVector| ==> HeightPosted(s, adjMatrix, costVector, i))
      && TotalPosted(s, costVector)
  {
    var n := |costVector|;
    var hVar := model.AddVariable(H(0), 0, MaxVal(costVector[0]));
    model.AddConstraint(Is(hVar, Leaf(costVector[0])));
    forall s ensures HeightPosted(s, adjMatrix, costVector, 0) <==>
      0 <= s(H(0)) <= MaxVal(costVector[0]) && Holds(s, Is(hVar, Leaf(costVector[0]))) {}
    var hVector := [hVar];
    for i := 1 to n
      invariant hVector == HeightTerms(costVector, i)
      invariant forall s :: AllHold(s, model.constraints) <==>
        AllHold(s, old(model.constraints)) && forall k :: 0 <= k < i ==> HeightPosted(s, adjMatrix, costVector, k)
    {
      hVar := PostHeight(model, adjMatrix, costVector, hVector, i);
      hVector := hVector + [hVar];
    }
    var caps := seq(n, i requires 0 <= i < n => MaxVal(hVector[i]));
    assert caps == seq(n, i requires 0 <= i < n => HeightCap(costVector, i));
    cost := model.AddVariable(TotalCost, 0, MaxOf(caps));
    model.AddConstraint(MaxIs(hVector, cost));
  }

  // ----- the recurrence has exactly one solution -----

  lemma BitTimes(b: int, x: int)
    requires 0 <= b <= 1
    ensures b * x == if b == 1 then x else 0
  {
  }

  lemma EntryValue(h: seq<int>, adj: Matrix, cost: int, i: nat, j: nat)
    requires j < i <= |h| && i < |adj| && ZeroOne(adj, |adj|)
    ensures Entries(h, adj, cost, i)[j] == cost + if adj[i][j] == 1 then h[j] else 0
  {
    BitTimes(adj[i][j], h[j]);
  }

  /** A block reaches at least its own cost, its cost above every earlier block it overlaps, and
      never above the declared upper bound. */
  lemma {:induction false} HeightBounds(h: seq<int>, adj: Matrix, s: Assignment, caps: seq<Term>, i: nat)
    requires |h| == |caps| && i < |h| && ZeroOne(adj, |h|) && CostsInRange(s, caps)
    requires forall k :: 0 <= k <= i ==> IsHeight(h, adj, Values(s, caps), k)
    ensures Value(s, caps[i]) <= h[i] <= HeightCap(caps, i)
    ensures forall j :: 0 <= j < i && adj[i][j] == 1 ==> h[j] + Value(s, caps[i]) <= h[i]
  {
    assert IsHeight(h, adj, Values(s, caps), i);
    if i > 0 {
      var cost := Value(s, caps[i]);
      var e := Entries(h, adj, cost, i);
      assert IsHeight(h, adj, Values(s, caps), i) && h[i] == MaxOf(e);
      forall j | 0 <= j < i ensures cost <= e[j] <= HeightCap(caps, i) && (adj[i][j] == 1 ==> e[j] == h[j] + cost) {
        HeightBounds(h, adj, s, caps, j);
        CapsGrow(s, caps, j, i - 1);
        EntryValue(h, adj, cost, i, j);
      }
      assert e[0] <= MaxOf(e);
    }
  }

  lemma {:induction false} CapsGrow(s: Assignment, caps: seq<Term>, j: nat, i: nat)
    requires j <= i < |caps| && CostsInRange(s, caps)
    ensures 0 <= HeightCap(caps, j) <= HeightCap(caps, i)
    decreases i
  {
    if j < i { CapsGrow(s, caps, j, i - 1); } else if i > 0 { CapsGrow(s, caps, i - 1, i - 1); }
  }

  lemma MaximumIsMaxOf(m: int, n: nat, f: nat -> int, e: seq<int>)
    requires |e| == n > 0 && forall j :: 0 <= j < n ==> f(j) == e[j]
    ensures IsMaximum(m, n, f) <==> m == MaxOf(e)
  {
    var k :| 0 <= k < n && e[k] == MaxOf(e);
    assert f(k) == MaxOf(e);
    if IsMaximum(m, n, f) {
      var j :| 0 <= j < n && f(j) == m;
      assert e[j] <= MaxOf(e);
    }
  }

  function HeightsAt(s: Assignment, n: nat): (h: seq<int>)
    ensures |h| == n
  {
    seq(n, i requires 0 <= i => s(H(i)))
  }

  /** The auxiliary variables hold the entries. */
  ghost predicate EntriesAt(s: Assignment, adj: Matrix, costs: seq<int>, i: nat)
    requires i < |costs|
  {
    forall j :: 0 <= j < i ==> s(MaxEntry(i, j)) == Entries(HeightsAt(s, |costs|), adj, costs[i], i)[j]
  }

  lemma EntriesAgree(s: Assignment, adj: seq<seq<Term>>, costs: seq<Term>, i: nat)
    requires 0 < i < |costs| && SquareTerms(adj, |costs|)
    requires EntriesAt(s, MatrixAt(s, adj), Values(s, costs), i)
    ensures IsMaximum(s(H(i)), i, TermsAt(s, EntryTerms(costs, i, i)))
       <==> IsHeight(HeightsAt(s, |costs|), MatrixAt(s, adj), Values(s, costs), i)
  {
    var e := Entries(HeightsAt(s, |costs|), MatrixAt(s, adj), Value(s, costs[i]), i);
    var f := TermsAt(s, EntryTerms(costs, i, i));
    forall j | 0 <= j < i ensures f(j) == e[j] {
      assert EntryTerms(costs, i, i)[j].name == MaxEntry(i, j);
    }
    MaximumIsMaxOf(s(H(i)), i, f, e);
  }

  /** Satisfying the posted recurrence and computing the heights are the same: the declared ranges
      exclude nothing, and the constraints leave no choice. */
  lemma HeightsPostedIff(s: Assignment, adj: seq<seq<Term>>, costs: seq<Term>)
    requires SquareTerms(adj, |costs|) && ZeroOne(MatrixAt(s, adj), |costs|) && CostsInRange(s, costs)
    ensures (forall i :: 0 <= i < |costs| ==> HeightPosted(s, adj, costs, i)) <==>
      && IsHeights(HeightsAt(s, |costs|), MatrixAt(s, adj), Values(s, costs))
      && forall i :: 0 <= i < |costs| ==> EntriesAt(s, MatrixAt(s, adj), Values(s, costs), i)
  {
    var n, h, am, cv := |costs|, HeightsAt(s, |costs|), MatrixAt(s, adj), Values(s, costs);
    if forall i :: 0 <= i < n ==> HeightPosted(s, adj, costs, i) {
      forall i | 0 <= i < n ensures EntriesAt(s, am, cv, i) && IsHeight(h, am, cv, i) {
        PostedMeansHeight(s, adj, costs, i);
      }
    }
    if IsHeights(h, am, cv) && forall i :: 0 <= i < n ==> EntriesAt(s, am, cv, i) {
      forall i | 0 <= i < n ensures HeightPosted(s, adj, costs, i) {
        HeightMeansPosted(s, adj, costs, i);
      }
    }
  }

  lemma PostedMeansHeight(s: Assignment, adj: seq<seq<Term>>, costs: seq<Term>, i: nat)
    requires i < |costs| && SquareTerms(adj, |costs|) && HeightPosted(s, adj, costs, i)
    ensures EntriesAt(s, MatrixAt(s, adj), Values(s, costs), i)
    ensures IsHeight(HeightsAt(s, |costs|), MatrixAt(s, adj), Values(s, costs), i)
  {
    if i > 0 {
      forall j | 0 <= j < i
        ensures s(MaxEntry(i, j)) == Entries(HeightsAt(s, |costs|), MatrixAt(s, adj), Value(s, costs[i]), i)[j]
      {
        assert EntryPosted(s, adj, costs, i, j);
        assert Entry(MatrixAt(s, adj), i, j) == Value(s, adj[i][j]);
      }
      EntriesAgree(s, adj, costs, i);
    }
  }

  lemma HeightMeansPosted(s: Assignment, adj: seq<seq<Term>>, costs: seq<Term>, i: nat)
    requires i < |costs| && SquareTerms(adj, |costs|) && ZeroOne(MatrixAt(s, adj), |costs|) && CostsInRange(s, costs)
    requires IsHeights(HeightsAt(s, |costs|), MatrixAt(s, adj), Values(s, costs))
    requires EntriesAt(s, MatrixAt(s, adj), Values(s, costs), i)
    ensures HeightPosted(s, adj, costs, i)
  {
    var h, am := HeightsAt(s, |costs|), MatrixAt(s, adj);
    HeightBounds(h, am, s, costs, i);
    assert IsHeight(h, am, Values(s, costs), i);
    if i > 0 {
      forall j | 0 <= j < i ensures EntryPosted(s, adj, costs, i, j) {
        HeightBounds(h, am, s, costs, j);
        EntryValue(h, am, Value(s, costs[i]), i, j);
        BitTimes(am[i][j], h[j]);
        assert am[i][j] == Value(s, adj[i][j]) && h[j] == s(H(j));
      }
      EntriesAgree(s, adj, costs, i);
    }
  }

  /** The recurrence determines the heights. */
  lemma {:induction false} HeightsUnique(a: seq<int>, b: seq<int>, adj: Matrix, costs: seq<int>, k: nat)
    requires IsHeights(a, adj, costs) && IsHeights(b, adj, costs) && k <= |costs|
    ensures a[..k] == b[..k]
  {
    if k > 0 {
      HeightsUnique(a, b, adj, costs, k - 1);
      var i := k - 1;
      assert IsHeight(a, adj, costs, i) && IsHeight(b, adj, costs, i);
      forall j | 0 <= j < i ensures a[j] == b[j] {
        assert a[..i][j] == b[..i][j];
      }
      assert Entries(a, adj, costs[i], i) == Entries(b, adj, costs[i], i);
    }
  }
}
