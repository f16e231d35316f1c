/** Buffers and the alias links between them. */
module Buffers {
  import opened Options

  // ----- alias links as a graph -----

  /** The names each registered buffer is linked to. */
  type Links = map<string, set<string>>

  /** A set built from a name holds its characters, each as a string of length one. */
  function Characters(name: string): set<string> {
    set c | c in name :: [c]
  }

  ghost predicate LinkedAt(g: Links, path: seq<string>, i: nat)
    requires 0 < i < |path|
  {
    path[i - 1] in g && path[i] in g[path[i - 1]]
  }

  /** A walk along alias links from a buffer. */
  ghost predicate Walk(g: Links, name: string, path: seq<string>) {
    && path != [] && name in g && path[0] in g[name]
    && forall i :: 0 < i < |path| ==> LinkedAt(g, path, i)
  }

  /** A walk that avoids these names after its first link. */
  ghost predicate WalkAvoiding(g: Links, name: string, avoid: set<string>, path: seq<string>) {
    Walk(g, name, path) && forall i :: 0 < i < |path| ==> path[i] !in avoid
  }

  ghost predicate Reaches(g: Links, name: string, avoid: set<string>, t: string) {
    t == name || exists path :: WalkAvoiding(g, name, avoid, path) && path[|path| - 1] == t
  }

  /** Some buffer linked to this one, itself included, is flagged. */
  ghost predicate SomeLinked(g: Links, name: string, flagged: set<string>) {
    exists t :: t in flagged && Reaches(g, name, {}, t)
  }

  /** The same, over what the search of a buffer's aliases looks at. */
  ghost predicate SomeExplored(g: Links, name: string, flagged: set<string>) {
    exists t :: t in flagged && Reaches(g, name, Characters(name), t)
  }

  /** No link out of this name is skipped: a linked one-character name occurring in it is a direct alias. */
  ghost predicate CharactersAreDirect(g: Links, name: string) {
    forall c :: c in Characters(name) && Reaches(g, name, {}, c) ==> c == name || (name in g && c in g[name])
  }

  lemma StepReaches(g: Links, name: string, avoid: set<string>, t: string, u: string)
    requires Reaches(g, name, avoid, t) && t in g && u in g[t] && (u !in avoid || t == name)
    ensures Reaches(g, name, avoid, u)
  {
    if t == name {
      assert WalkAvoiding(g, name, avoid, [u]);
    } else {
      var path :| WalkAvoiding(g, name, avoid, path) && path[|path| - 1] == t;
      var longer := path + [u];
      forall i | 0 < i < |longer| ensures LinkedAt(g, longer, i) && longer[i] !in avoid {
        if i < |path| { assert LinkedAt(g, path, i); }
      }
      assert WalkAvoiding(g, name, avoid, longer);
    }
  }

  /** What a walk reaches, the search reaches too, when no one-character name gets in its way. */
  lemma {:induction false} WalkExplored(g: Links, name: string, path: seq<string>)
    requires Walk(g, name, path) && CharactersAreDirect(g, name)
    ensures Reaches(g, name, Characters(name), path[|path| - 1])
    decreases |path|
  {
    var t, avoid := path[|path| - 1], Characters(name);
    if |path| == 1 {
      assert WalkAvoiding(g, name, avoid, path);
    } else {
      var before := path[..|path| - 1];
      forall i | 0 < i < |before| ensures LinkedAt(g, before, i) { assert LinkedAt(g, path, i); }
      WalkExplored(g, name, before);
      assert LinkedAt(g, path, |path| - 1);
      if t !in avoid || before[|before| - 1] == name {
        StepReaches(g, name, avoid, before[|before| - 1], t);
      } else {
        assert WalkAvoiding(g, name, {}, path);
        if t != name { assert WalkAvoiding(g, name, avoid, [t]); }
      }
    }
  }

  lemma SkippedName(g: Links, name: string, c: string)
    requires c in Characters(name) && c != name && name in g && c !in g[name]
    ensures !Reaches(g, name, Characters(name), c)
  {
    forall path | WalkAvoiding(g, name, Characters(name), path) ensures path[|path| - 1] != c {}
  }

  /** The search means "some linked buffer is flagged", whatever is flagged, exactly when it skips no link. */
  lemma ExploredIsLinkedIff(g: Links, name: string)
    requires name in g
    ensures (forall flagged :: SomeExplored(g, name, flagged) <==> SomeLinked(g, name, flagged)) <==> CharactersAreDirect(g, name)
  {
    if CharactersAreDirect(g, name) {
      forall flagged ensures SomeExplored(g, name, flagged) <==> SomeLinked(g, name, flagged) {
        ExploredIsLinked(g, name, flagged);
      }
    } else {
      var c :| c in Characters(name) && Reaches(g, name, {}, c) && c != name && c !in g[name];
      SkippedName(g, name, c);
      assert SomeLinked(g, name, {c}) && !SomeExplored(g, name, {c});
    }
  }

  lemma ExploredIsLinked(g: Links, name: string, flagged: set<string>)
    requires CharactersAreDirect(g, name)
    ensures SomeExplored(g, name, flagged) <==> SomeLinked(g, name, flagged)
  {
    if SomeLinked(g, name, flagged) {
      var t :| t in flagged && Reaches(g, name, {}, t);
      if t != name {
        var path :| WalkAvoiding(g, name, {}, path) && path[|path| - 1] == t;
        WalkExplored(g, name, path);
      }
    }
    if SomeExplored(g, name, flagged) {
      var t :| t in flagged && Reaches(g, name, Characters(name), t);
      if t != name {
        var path :| WalkAvoiding(g, name, Characters(name), path) && path[|path| - 1] == t;
        assert WalkAvoiding(g, name, {}, path);
      }
    }
  }

  lemma WalkEndsInLink(g: Links, name: string, path: seq<string>)
    requires Walk(g, name, path)
    ensures exists t :: t in g && path[|path| - 1] in g[t]
  {
    if |path| > 1 { assert LinkedAt(g, path, |path| - 1); }
  }

  /** Names longer than one character are never skipped. */
  lemma LongNamesExplored(g: Links, name: string, flagged: set<string>)
    requires forall t, u :: t in g && u in g[t] ==> |u| > 1
    ensures SomeExplored(g, name, flagged) <==> SomeLinked(g, name, flagged)
  {
    forall c | c in Characters(name) && Reaches(g, name, {}, c) ensures c == name {
      if c != name {
        var path :| WalkAvoiding(g, name, {}, path) && path[|path| - 1] == c;
        WalkEndsInLink(g, name, path);
      }
    }
    ExploredIsLinked(g, name, flagged);
  }

  /** A link to a buffer named "a" is missed from a buffer named "ab" when it is not direct. */
  lemma OneCharacterNameMissed()
    ensures var g := map["ab" := {"xy"}, "xy" := {"ab", "a"}, "a" := {"xy"}];
      SomeLinked(g, "ab", {"a"}) && !SomeExplored(g, "ab", {"a"})
  {
    var g: Links := map["ab" := {"xy"}, "xy" := {"ab", "a"}, "a" := {"xy"}];
    var path := ["xy", "a"];
    assert path[0] in g["ab"] && LinkedAt(g, path, 1);
    assert WalkAvoiding(g, "ab", {}, path) && path[|path| - 1] == "a";
    assert Reaches(g, "ab", {}, "a");
    assert ['a'] in Characters("ab");
    SkippedName(g, "ab", "a");
  }

  // ----- buffers -----

  datatype Kind = Variable | Transient | Struct

  class VariableBuffer {
    const name: string
    const kind: Kind
    /** The nodes that use the buffer, in schedule order. */
    const users: seq<string>
    const sizeInBytes: nat
    const memoryLevel: Option<string>
    const isInput: bool
    const isOutput: bool
    const aliases: set<string>
    /** The buffer this one is an offset into, for a reference buffer. */
    const referenceName: Option<string>
    var live: bool

    constructor (name: string, kind: Kind, users: seq<string>, sizeInBytes: nat, memoryLevel: Option<string>, isInput: bool, isOutput: bool,
                 aliases: set<string>, referenceName: Option<string>)
      ensures this.name == name && this.kind == kind && this.users == users && this.sizeInBytes == sizeInBytes
      ensures this.memoryLevel == memoryLevel && this.isInput == isInput && this.isOutput == isOutput
      ensures this.aliases == aliases && this.referenceName == referenceName && !live
    {
      this.name, this.kind, this.users, this.sizeInBytes, this.memoryLevel := name, kind, users, sizeInBytes, memoryLevel;
      this.isInput, this.isOutput, this.aliases, this.referenceName, this.live := isInput, isOutput, aliases, referenceName, false;
    }

    /** Whether the buffer or one linked to it is live, an input or an output; None when an explored
        name is not registered. Links may be cyclic. */
    method HasLiveAliases(objects: map<string, VariableBuffer>) returns (r: Option<bool>)
      requires Registered(objects) && name in objects && objects[name] == this
      ensures r.None? <==> exists t :: t !in objects && Reaches(LinksOf(objects), name, Characters(name), t)
      ensures r.Some? ==> (r.value <==> SomeExplored(LinksOf(objects), name, Flagged(objects, Alive(objects))))
      ensures r.Some? ==> (r.value <==> exists t :: t in objects && (t == name || Reaches(LinksOf(objects), name, Characters(name), t))
                                                    && (objects[t].live || objects[t].isInput || objects[t].isOutput))
    {
      ghost var g, avoid := LinksOf(objects), Characters(name);
      ghost var flagged := Flagged(objects, Alive(objects));
      var live := this.live || isInput || isOutput;
      var queue, visited := aliases, Characters(name);
      ghost var done := {};
      forall t | t in aliases ensures Reaches(g, name, avoid, t) {
        StepReaches(g, name, avoid, name, t);
      }
      while queue != {}
        invariant visited == avoid + done && done <= objects.Keys
        invariant forall t :: t in queue || t in done ==> Reaches(g, name, avoid, t)
        invariant aliases <= queue + done
        invariant forall t :: t in done ==> g[t] - avoid <= queue + done
        invariant live <==> name in flagged || exists t :: t in done && t in flagged
        decreases objects.Keys - visited, queue * visited
      {
        var next :| next in queue;
        ghost var before, waiting := visited, queue;
        queue := queue - {next};
        if next !in objects { return None; }
        var buffer := objects[next];
        live := live || buffer.live || buffer.isInput || buffer.isOutput;
        assert next in flagged <==> buffer.live || buffer.isInput || buffer.isOutput;
        visited := visited + {next};
        forall u | u in buffer.aliases - visited ensures Reaches(g, name, avoid, u) {
          StepReaches(g, name, avoid, next, u);
        }
        queue := queue + (buffer.aliases - visited);
        done := done + {next};
        if next in before {
          assert visited == before && queue * visited == waiting * before - {next};
        } else {
          assert next in objects.Keys - before && objects.Keys - visited < objects.Keys - before;
        }
      }
      forall t | Reaches(g, name, avoid, t) ensures t == name || t in done {
        if t != name {
          var path :| WalkAvoiding(g, name, avoid, path) && path[|path| - 1] == t;
          PathDone(g, name, avoid, done, path);
        }
      }
      r := Some(live);
    }
  }

  lemma {:induction false} PathDone(g: Links, name: string, avoid: set<string>, done: set<string>, path: seq<string>)
    requires WalkAvoiding(g, name, avoid, path) && g[name] <= done && done <= g.Keys
    requires forall t :: t in done ==> g[t] - avoid <= done
    ensures path[|path| - 1] in done
    decreases |path|
  {
    if |path| > 1 {
      var before := path[..|path| - 1];
      forall i | 0 < i < |before| ensures LinkedAt(g, before, i) { assert LinkedAt(g, path, i); }
      assert before[0] == path[0] && LinkedAt(g, path, |path| - 1);
      PathDone(g, name, avoid, done, before);
      assert path[|path| - 1] in g[path[|path| - 2]] - avoid;
    }
  }

  ghost predicate Registered(objects: map<string, VariableBuffer>) {
    forall n :: n in objects ==> objects[n].name == n
  }

  ghost function LinksOf(objects: map<string, VariableBuffer>): Links {
    map n | n in objects :: objects[n].aliases
  }

  ghost function Alive(objects: map<string, VariableBuffer>): set<VariableBuffer>
    reads objects.Values
  {
    set b | b in objects.Values && b.live
  }

  /** The names that keep their aliases' memory: live buffers, inputs and outputs. */
  ghost function Flagged(objects: map<string, VariableBuffer>, alive: set<VariableBuffer>): set<string> {
    set n | n in objects && (objects[n] in alive || objects[n].isInput || objects[n].isOutput)
  }
}
