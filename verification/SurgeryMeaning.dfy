/** Running the rewritten graph gives every kept tensor, and T, the value it had. */
module SurgeryMeaning {
  import opened Graphs
  import opened Ancestry
  import opened ChunkNames
  import opened SolveInsertion
  import opened GraphSurgery

  function ChunkValue<H>(v: Value<H>, lo: nat, hi: nat): Value<H>
    requires lo <= hi
  {
    if v.Heads? then Heads(SliceHeads(v.h, lo, hi)) else Absent
  }

  lemma Ordered(i: nat, ch: nat)
    ensures 0 <= i * ch <= (i + 1) * ch
  {
  }

  /** The values of the chunk tensors below n. */
  function ChunkValues<H>(f: H -> H, v: Value<H>, n: nat, ch: nat): Env<H> {
    if n == 0 then map[]
    else
      Ordered(n - 1, ch);
      var c := ChunkValue(v, (n - 1) * ch, n * ch);
      ChunkValues(f, v, n - 1, ch)[Name(ChunkIn, n - 1) := c][Name(ChunkOut, n - 1) := SolveValue(f, c)]
  }

  lemma {:induction false} ChunkValueNames<H>(f: H -> H, v: Value<H>, n: nat, ch: nat, x: string)
    ensures x in ChunkValues(f, v, n, ch) <==> IsChunk(x, n)
  {
    hide Name;
    if n > 0 { ChunkValueNames(f, v, n - 1, ch, x); }
  }

  lemma {:induction false} ChunkValuesAt<H>(f: H -> H, v: Value<H>, n: nat, ch: nat, i: nat)
    requires i < n
    ensures 0 <= i * ch <= (i + 1) * ch
    ensures var c := ChunkValue(v, i * ch, (i + 1) * ch);
            && Get(ChunkValues(f, v, n, ch), Name(ChunkIn, i)) == c
            && Get(ChunkValues(f, v, n, ch), Name(ChunkOut, i)) == SolveValue(f, c)
  {
    hide Name, SolveValue, ChunkValue;
    Ordered(i, ch);
    NamesDiffer(ChunkIn, i, ChunkIn, n - 1);
    NamesDiffer(ChunkIn, i, ChunkOut, n - 1);
    NamesDiffer(ChunkOut, i, ChunkIn, n - 1);
    NamesDiffer(ChunkOut, i, ChunkOut, n - 1);
    if i < n - 1 { ChunkValuesAt(f, v, n - 1, ch, i); }
  }

  /** The solved chunks, in order. */
  function SolvedChunks<H>(f: H -> H, v: Value<H>, n: nat, ch: nat): (vs: seq<Value<H>>)
    ensures |vs| == n
  {
    if n == 0 then []
    else
      Ordered(n - 1, ch);
      SolvedChunks(f, v, n - 1, ch) + [SolveValue(f, ChunkValue(v, (n - 1) * ch, n * ch))]
  }

  lemma MapConcat<H>(f: H -> H, h: seq<H>, lo: nat, hi: nat)
    requires lo <= hi <= |h|
    ensures MapHeads(f, h[..hi]) == MapHeads(f, h[..lo]) + MapHeads(f, h[lo..hi])
  {
    assert h[..hi] == h[..lo] + h[lo..hi];
  }

  /** One more solved chunk extends the solved prefix. */
  lemma ConcatStep<H>(f: H -> H, h: seq<H>, vs: seq<Value<H>>, lo: nat, hi: nat)
    requires lo <= hi && ConcatValue(vs) == Heads(MapHeads(f, h[..AtMost(lo, |h|)]))
    ensures ConcatValue(vs + [SolveValue(f, ChunkValue(Heads(h), lo, hi))]) == Heads(MapHeads(f, h[..AtMost(hi, |h|)]))
  {
    hide MapHeads;
    var last := SolveValue(f, ChunkValue(Heads(h), lo, hi));
    assert (vs + [last])[..|vs|] == vs;
    MapConcat(f, h, AtMost(lo, |h|), AtMost(hi, |h|));
  }

  /** Concatenating n solved chunks solves the first n*ch heads. */
  lemma {:induction false} ConcatSolved<H>(f: H -> H, v: Value<H>, n: nat, ch: nat)
    requires v.Heads?
    ensures n * ch >= 0
    ensures ConcatValue(SolvedChunks(f, v, n, ch)) == Heads(MapHeads(f, v.h[..AtMost(n * ch, |v.h|)]))
  {
    if n > 0 {
      hide ConcatValue, MapHeads, ChunkValue, SolveValue, AtMost;
      ConcatSolved(f, v, n - 1, ch);
      Ordered(n - 1, ch);
      ConcatStep(f, v.h, SolvedChunks(f, v, n - 1, ch), (n - 1) * ch, n * ch);
    } else {
      assert v.h[..AtMost(n * ch, |v.h|)] == [];
    }
  }

  /** Slicing, solving and concatenating is the whole solve exactly when the chunks reach every head. */
  lemma SplitIsWholeIff<H>(f: H -> H, h: seq<H>, n: nat, ch: nat)
    ensures n * ch >= 0
    ensures ConcatValue(SolvedChunks(f, Heads(h), n, ch)) == SolveValue(f, Heads(h)) <==> |h| <= n * ch
  {
    ConcatSolved(f, Heads(h), n, ch);
    if |h| <= n * ch {
      assert h[..AtMost(n * ch, |h|)] == h;
    } else {
      assert |MapHeads(f, h[..AtMost(n * ch, |h|)])| == n * ch;
    }
  }

  lemma {:induction false} ConcatAbsent<H>(f: H -> H, v: Value<H>, n: nat, ch: nat)
    requires !v.Heads? && n > 0
    ensures ConcatValue(SolvedChunks(f, v, n, ch)) == Absent
  {
    var vs := SolvedChunks(f, v, n, ch);
    assert vs[..|vs| - 1] == SolvedChunks(f, v, n - 1, ch);
    Ordered(n - 1, ch);
  }

  /** The split's result on any value of A, given enough chunks. */
  lemma SplitValue<H>(f: H -> H, v: Value<H>, n: nat, ch: nat)
    requires n > 0 && (v.Heads? ==> |v.h| <= n * ch)
    ensures ConcatValue(SolvedChunks(f, v, n, ch)) == SolveValue(f, v)
  {
    if v.Heads? { SplitIsWholeIff(f, v.h, n, ch); } else { ConcatAbsent(f, v, n, ch); }
  }

  /** Old values, constants and chunk values together. */
  function Extended<H>(sem: Sem<H>, E: Env<H>, A: string, n: nat, ch: nat): Env<H> {
    if n <= 1 then E else E + Constants(n, ch) + ChunkValues(sem.solve, Get(E, A), n, ch)
  }

  lemma ExtendedLooks<H>(sem: Sem<H>, E: Env<H>, A: string, n: nat, ch: nat, x: string)
    ensures !IsNew(x, n) ==> Get(Extended(sem, E, A, n, ch), x) == Get(E, x)
    ensures n > 1 && IsConstant(x, n) ==> Get(Extended(sem, E, A, n, ch), x) == Get(Constants<H>(n, ch), x)
    ensures n > 1 && IsChunk(x, n) ==>
              Get(Extended(sem, E, A, n, ch), x) == Get(ChunkValues(sem.solve, Get(E, A), n, ch), x)
  {
    ConstantNames<H>(n, ch, x);
    ChunkValueNames(sem.solve, Get(E, A), n, ch, x);
    ConstantNotChunk(x, n, n);
  }

  /** Each slice and solve node's equation holds of the extended values. */
  lemma ChunkNodeHolds<H>(sem: Sem<H>, E: Env<H>, A: string, n: nat, ch: nat, i: nat)
    requires n > 1 && i < n && !IsNew(A, n)
    ensures Holds(sem, ChunkPair(A, i)[0], Extended(sem, E, A, n, ch))
    ensures Holds(sem, ChunkPair(A, i)[1], Extended(sem, E, A, n, ch))
  {
    hide Name, IsConstant, IsChunk, Extended, Constants, ChunkValues;
    var V := Extended(sem, E, A, n, ch);
    ExtendedLooks(sem, E, A, n, ch, A);
    forall k: Kind
      ensures Get(V, Name(k, i)) == if k.ChunkIn? || k.ChunkOut?
                                    then Get(ChunkValues(sem.solve, Get(E, A), n, ch), Name(k, i))
                                    else Get(Constants<H>(n, ch), Name(k, i))
    {
      ConstantIndex(k, i, n);
      ExtendedLooks(sem, E, A, n, ch, Name(k, i));
    }
    ConstantValues<H>(n, ch, i);
    ChunkValuesAt(sem.solve, Get(E, A), n, ch, i);
  }

  lemma {:induction false} ChunkOutValues<H>(sem: Sem<H>, E: Env<H>, A: string, n: nat, ch: nat, m: nat)
    requires n > 1 && m <= n && !IsNew(A, n)
    ensures Gets(Extended(sem, E, A, n, ch), ChunkOuts(m)) == SolvedChunks(sem.solve, Get(E, A), m, ch)
  {
    hide Name, IsConstant, IsChunk, Extended, Constants, ChunkValues, ChunkValue, SolveValue, Get;
    if m > 0 {
      ChunkOutValues(sem, E, A, n, ch, m - 1);
      ConstantIndex(ChunkOut, m - 1, n);
      ExtendedLooks(sem, E, A, n, ch, Name(ChunkOut, m - 1));
      ChunkValuesAt(sem.solve, Get(E, A), n, ch, m - 1);
      Ordered(m - 1, ch);
    }
  }

  lemma {:induction false} ChunkNodesHold<H>(sem: Sem<H>, E: Env<H>, A: string, n: nat, ch: nat, m: nat)
    requires n > 1 && m <= n && !IsNew(A, n)
    ensures forall x :: x in ChunkNodes(A, m) ==> Holds(sem, x, Extended(sem, E, A, n, ch))
  {
    hide Name, IsConstant, IsChunk, Extended, Holds;
    if m > 0 {
      ChunkNodesHold(sem, E, A, n, ch, m - 1);
      ChunkNodeHolds(sem, E, A, n, ch, m - 1);
      forall x | x in ChunkNodes(A, m)
        ensures x in ChunkNodes(A, m - 1) || x == ChunkPair(A, m - 1)[0] || x == ChunkPair(A, m - 1)[1]
      {
      }
    }
  }

  /** The replacement's equations hold when T held the per-head solve of A. */
  lemma NewNodesHold<H>(sem: Sem<H>, E: Env<H>, A: string, T: string, n: nat, ch: nat)
    requires n > 0 && !IsNew(A, n) && !IsNew(T, n)
    requires Get(E, T) == SolveValue(sem.solve, Get(E, A))
    requires n > 1 && Get(E, A).Heads? ==> |Get(E, A).h| <= n * ch
    ensures forall x :: x in NewNodes(A, T, n) ==> Holds(sem, x, Extended(sem, E, A, n, ch))
  {
    hide Name, IsConstant, IsChunk, Extended;
    var V := Extended(sem, E, A, n, ch);
    ExtendedLooks(sem, E, A, n, ch, A);
    ExtendedLooks(sem, E, A, n, ch, T);
    if n > 1 {
      var join := Node(Concat, ChunkOuts(n), [T]);
      ChunkNodesHold(sem, E, A, n, ch, n);
      ChunkOutValues(sem, E, A, n, ch, n);
      SplitValue(sem.solve, Get(E, A), n, ch);
      assert Holds(sem, join, V);
      forall x | x in NewNodes(A, T, n)
        ensures Holds(sem, x, V)
      {
        assert x in ChunkNodes(A, n) || x == join;
      }
    }
  }

  /** A node that mentions no new name keeps its equation. */
  lemma OldNodeHolds<H>(sem: Sem<H>, E: Env<H>, A: string, n: nat, ch: nat, x: Node)
    requires Holds(sem, x, E)
    requires forall y :: y in Names(x.inputs) + Names(x.outputs) ==> !IsNew(y, n)
    ensures Holds(sem, x, Extended(sem, E, A, n, ch))
  {
    hide IsNew, Extended;
    var V := Extended(sem, E, A, n, ch);
    forall y | y in Names(x.inputs) + Names(x.outputs)
      ensures Get(V, y) == Get(E, y)
    {
      ExtendedLooks(sem, E, A, n, ch, y);
    }
    SameArgs(E, V, x.inputs);
    forall i | 0 <= i < |x.outputs| && x.outputs[i] != ""
      ensures Get(V, x.outputs[i]) == Get(E, x.outputs[i])
    {
      assert x.outputs[i] in Names(x.outputs);
    }
  }

  lemma OldNamesNotNew(nodes: seq<Node>, sources: set<string>, A: string, T: string, n: nat, k: nat)
    requires Boundary(nodes, sources, A, T, n) && k < |nodes|
    ensures forall y :: y in Names(nodes[k].inputs) + Names(nodes[k].outputs) ==> !IsNew(y, n)
  {
    WellFormedAt(nodes, sources, k);
    forall y | y in Names(nodes[k].inputs) + Names(nodes[k].outputs)
      ensures y in sources + Outs(nodes)
    {
      if y in Names(nodes[k].outputs) {
        OutsMember(nodes, y);
      } else if y !in sources {
        OutsMember(nodes[..k], y);
        var m :| 0 <= m < |nodes[..k]| && y in nodes[..k][m].outputs;
        assert y in nodes[m].outputs;
        OutsMember(nodes, y);
      }
    }
  }

  lemma {:induction false} KeptHold<H>(sem: Sem<H>, nodes: seq<Node>, removed: set<int>, base: int, V: Env<H>)
    requires forall k :: 0 <= k < |nodes| ==> Holds(sem, nodes[k], V)
    ensures forall x :: x in Kept(nodes, removed, base) ==> Holds(sem, x, V)
  {
    hide Holds;
    if nodes != [] {
      forall k | 0 <= k < |nodes[1..]|
        ensures Holds(sem, nodes[1..][k], V)
      {
        assert nodes[1..][k] == nodes[k + 1];
      }
      KeptHold(sem, nodes[1..], removed, base + 1, V);
      assert Holds(sem, nodes[0], V);
    }
  }

  /** Every equation of the rewritten list holds of the old values, extended by the chunks. */
  lemma ListHolds<H>(sem: Sem<H>, nodes: seq<Node>, sources: set<string>, env: Env<H>, A: string, T: string,
                     n: nat, ch: nat, removed: set<int>)
    requires n > 0 && Boundary(nodes, sources, A, T, n)
    requires var E := Run(sem, nodes, env);
             && Get(E, T) == SolveValue(sem.solve, Get(E, A))
             && (n > 1 && Get(E, A).Heads? ==> |Get(E, A).h| <= n * ch)
    ensures var V := Extended(sem, Run(sem, nodes, env), A, n, ch);
            forall x :: x in NewList(nodes, removed, A, T, n) ==> Holds(sem, x, V)
  {
    hide IsNew, Extended, Holds, Run, Kept, NewNodes, Rewritten;
    var E := Run(sem, nodes, env);
    var V := Extended(sem, E, A, n, ch);
    BoundaryNames(nodes, sources, A, T, n);
    NewNodesHold(sem, E, A, T, n, ch);
    RunSatisfies(sem, nodes, env, sources);
    forall k | 0 <= k < |nodes|
      ensures Holds(sem, nodes[k], V)
    {
      OldNamesNotNew(nodes, sources, A, T, n, k);
      OldNodeHolds(sem, E, A, n, ch, nodes[k]);
    }
    KeptHold(sem, nodes, removed, 0, V);
    forall x | x in NewList(nodes, removed, A, T, n)
      ensures Holds(sem, x, V)
    {
      RewrittenMembers(Kept(nodes, removed, 0), A, NewNodes(A, T, n), x);
    }
  }

  lemma BoundaryNames(nodes: seq<Node>, sources: set<string>, A: string, T: string, n: nat)
    requires Boundary(nodes, sources, A, T, n)
    ensures !IsNew(A, n) && !IsNew(T, n)
  {
    hide IsNew;
    UniqueProducer(nodes, sources, T, Producer(nodes, T));
  }

  /** The new graph starts from the kept sources with their old values, and the constants. */
  ghost predicate StartsFrom<H>(env: Env<H>, env': Env<H>, kept: set<string>, n: nat, ch: nat) {
    && (forall x :: x in kept ==> Get(env', x) == Get(env, x))
    && forall x :: n > 1 && IsConstant(x, n) ==> Get(env', x) == Get(Constants<H>(n, ch), x)
  }

  /**
   Meaning is preserved: whatever the graph is fed, if T held the per-head solve of A, then
   every name the rewritten graph still has, T among them, runs to its old value.
   */
  lemma SurgeryPreserves<H>(sem: Sem<H>, nodes: seq<Node>, sources: set<string>, inits: set<string>, env: Env<H>,
                            env': Env<H>, A: string, T: string, n: nat, ch: nat, removed: set<int>)
    requires n > 0 && Boundary(nodes, sources, A, T, n) && IsSolveSet(nodes, A, T, removed) && NoLeak(nodes, removed, T)
    requires var E := Run(sem, nodes, env);
             && Get(E, T) == SolveValue(sem.solve, Get(E, A))
             && (n > 1 && Get(E, A).Heads? ==> |Get(E, A).h| <= n * ch)
    requires StartsFrom(env, env', KeptSources(sources, inits, NewList(nodes, removed, A, T, n)), n, ch)
    ensures var list := NewList(nodes, removed, A, T, n);
            forall x :: x in KeptSources(sources, inits, list) + Outs(list) && !IsNew(x, n) ==>
              Get(Run(sem, list, env'), x) == Get(Run(sem, nodes, env), x)
  {
    hide IsNew, Extended, Holds, Run, IsSolveSet, NoLeak;
    var list := NewList(nodes, removed, A, T, n);
    var kept := KeptSources(sources, inits, list);
    var E := Run(sem, nodes, env);
    var V := Extended(sem, E, A, n, ch);
    RewriteWellFormed(nodes, sources, inits, A, T, n, removed);
    ListHolds(sem, nodes, sources, env, A, T, n, ch, removed);
    RunSatisfies(sem, nodes, env, sources);
    forall x | x in kept + ConstantSet(n)
      ensures Get(env', x) == Get(V, x)
    {
      ExtendedLooks(sem, E, A, n, ch, x);
    }
    RunUnique(sem, list, env', kept + ConstantSet(n), V);
    forall x | x in kept + Outs(list) && !IsNew(x, n)
      ensures Get(Run(sem, list, env'), x) == Get(E, x)
    {
      ExtendedLooks(sem, E, A, n, ch, x);
    }
  }

  lemma {:induction false} SpliceOuts(keep: seq<Node>, A: string, added: seq<Node>)
    requires Produces(keep, A)
    ensures Outs(Splice(keep, A, added)) == Outs(keep) + Outs(added)
  {
    if A in keep[0].outputs {
      OutsConcat([keep[0]] + added, keep[1..]);
      OutsConcat([keep[0]], added);
      OutsConcat([keep[0]], keep[1..]);
      assert [keep[0]] + keep[1..] == keep;
    } else {
      var k :| 0 <= k < |keep| && A in keep[k].outputs;
      assert keep[1..][k - 1] == keep[k];
      SpliceOuts(keep[1..], A, added);
      OutsConcat([keep[0]], Splice(keep[1..], A, added));
      OutsConcat([keep[0]], keep[1..]);
      assert [keep[0]] + keep[1..] == keep;
    }
  }

  lemma RewrittenOuts(keep: seq<Node>, A: string, added: seq<Node>)
    ensures Outs(Rewritten(keep, A, added)) == Outs(keep) + Outs(added)
  {
    if Produces(keep, A) { SpliceOuts(keep, A, added); } else { OutsConcat(added, keep); }
  }

  lemma {:induction false} KeptOuts(nodes: seq<Node>, avail: set<string>, removed: set<int>, base: int, x: string,
                                    k: nat)
    requires WellFormed(nodes, avail) && k < |nodes| && x != "" && x in nodes[k].outputs
    ensures x in Outs(Kept(nodes, removed, base)) <==> base + k !in removed
  {
    var rest := Kept(nodes[1..], removed, base + 1);
    OutsConcat([nodes[0]], rest);
    assert Outs([nodes[0]]) == Names(nodes[0].outputs) + Outs([nodes[0]][1..]);
    var more := avail + Names(nodes[0].outputs);
    if k > 0 {
      KeptOuts(nodes[1..], more, removed, base + 1, x, k - 1);
      UniqueProducer(nodes[1..], more, x, k - 1);
    } else {
      NotKeptLater(nodes[1..], more, removed, base + 1, x);
    }
  }

  /** An available name is not made again. */
  lemma {:induction false} NotKeptLater(nodes: seq<Node>, avail: set<string>, removed: set<int>, base: int, x: string)
    requires WellFormed(nodes, avail) && x in avail
    ensures x !in Outs(Kept(nodes, removed, base))
  {
    if nodes != [] {
      NotKeptLater(nodes[1..], avail + Names(nodes[0].outputs), removed, base + 1, x);
      OutsConcat([nodes[0]], Kept(nodes[1..], removed, base + 1));
      assert Outs([nodes[0]]) == Names(nodes[0].outputs) + Outs([nodes[0]][1..]);
    }
  }

  lemma RemovedOutIff(nodes: seq<Node>, sources: set<string>, removed: set<int>, x: string)
    requires WellFormed(nodes, sources) && x in Outs(nodes)
    ensures Producer(nodes, x) >= 0 && x in nodes[Producer(nodes, x)].outputs && x != ""
    ensures RemovedOut(nodes, removed, x) <==> Producer(nodes, x) in removed
  {
    OutsMember(nodes, x);
    if RemovedOut(nodes, removed, x) {
      var m :| m in removed && 0 <= m < |nodes| && x in nodes[m].outputs;
      UniqueProducer(nodes, sources, x, m);
    }
  }

  /** What the rewritten graph still computes: every kept node's outputs, and T. */
  lemma WhatSurvives(nodes: seq<Node>, sources: set<string>, A: string, T: string, n: nat, removed: set<int>, x: string)
    requires Boundary(nodes, sources, A, T, n) && IsSolveSet(nodes, A, T, removed) && x in Outs(nodes)
    ensures x in Outs(NewList(nodes, removed, A, T, n)) <==> x == T || !RemovedOut(nodes, removed, x)
  {
    hide IsNew, WellFormed, RemovedOut, IsSolveSet, NewNodes, Rewritten, Kept;
    RewrittenOuts(Kept(nodes, removed, 0), A, NewNodes(A, T, n));
    RemovedOutIff(nodes, sources, removed, x);
    KeptOuts(nodes, sources, removed, 0, x, Producer(nodes, x));
    NewOuts(A, T, n, x);
    NewNameIsNew(x, n);
  }

  lemma NewNameIsNew(x: string, n: nat)
    ensures n > 1 && IsChunk(x, n) ==> IsNew(x, n)
  {
  }

  /**
   The leak check looks at consumers only. Told from the graph before the call: a graph input is
   still fed exactly when it is an initializer, is A, or is read by a node that stays; a produced
   tensor is still computed exactly when it is T or no removed node made it.
   */
  lemma OutputSurvivesIff(nodes: seq<Node>, sources: set<string>, inits: set<string>, A: string, T: string, n: nat,
                          removed: set<int>, o: string)
    requires Boundary(nodes, sources, A, T, n) && IsSolveSet(nodes, A, T, removed) && o in sources + Outs(nodes)
    ensures var list := NewList(nodes, removed, A, T, n);
            o in KeptSources(sources, inits, list) + Outs(list) <==>
              if o in sources then o in inits || o == A || ReadByKept(nodes, removed, o)
              else o == T || !RemovedOut(nodes, removed, o)
  {
    hide WellFormed, RemovedOut, IsNew, NewNodes, Rewritten, Kept, ReadByKept, Used;
    if o in sources {
      RewrittenOuts(Kept(nodes, removed, 0), A, NewNodes(A, T, n));
      NotKeptLater(nodes, sources, removed, 0, o);
      NewNamesFresh(nodes, sources, A, T, n);
      OldNamesUsed(nodes, removed, A, T, n, o);
    } else {
      WhatSurvives(nodes, sources, A, T, n, removed, o);
    }
  }

  lemma {:induction false} RunConcat<H>(sem: Sem<H>, a: seq<Node>, b: seq<Node>, env: Env<H>)
    ensures Run(sem, a + b, env) == Run(sem, b, Run(sem, a, env))
  {
    if a == [] {
      assert a + b == b;
    } else {
      assert (a + b)[1..] == a[1..] + b;
      RunConcat(sem, a[1..], b, Step(sem, a[0], env));
    }
  }

  /** Where the new nodes land: right behind the first k kept nodes. */
  lemma {:induction false} SplicePoint(keep: seq<Node>, A: string, added: seq<Node>) returns (k: nat)
    requires Produces(keep, A)
    ensures k <= |keep| && Splice(keep, A, added) == keep[..k] + added + keep[k..]
  {
    if A in keep[0].outputs {
      k := 1;
    } else {
      var j :| 0 <= j < |keep| && A in keep[j].outputs;
      assert keep[1..][j - 1] == keep[j];
      var i := SplicePoint(keep[1..], A, added);
      k := i + 1;
      assert keep[..k] == [keep[0]] + keep[1..][..i] && keep[k..] == keep[1..][i..];
    }
  }

  lemma NewPoint(keep: seq<Node>, A: string, added: seq<Node>) returns (k: nat)
    ensures k <= |keep| && Rewritten(keep, A, added) == keep[..k] + added + keep[k..]
  {
    k := 0;
    if Produces(keep, A) { k := SplicePoint(keep, A, added); }
  }

  /** E with T given the value x. */
  function Rebound<H>(E: Env<H>, T: string, x: Value<H>): Env<H> {
    E[T := x]
  }

  /** A node that does not mention T keeps its equation when T changes. */
  lemma UntouchedHolds<H>(sem: Sem<H>, m: Node, E: Env<H>, T: string, x: Value<H>)
    requires Holds(sem, m, E) && T !in Names(m.inputs) + Names(m.outputs) && T != ""
    ensures Holds(sem, m, Rebound(E, T, x))
  {
    var V := Rebound(E, T, x);
    SameArgs(E, V, m.inputs);
    forall i | 0 <= i < |m.outputs| && m.outputs[i] != ""
      ensures Get(V, m.outputs[i]) == Get(E, m.outputs[i])
    {
      assert m.outputs[i] in Names(m.outputs);
    }
  }

  /** The split's equations hold when T is what the chunks concatenate to. */
  lemma SplitHolds<H>(sem: Sem<H>, E: Env<H>, A: string, T: string, n: nat, ch: nat)
    requires n > 1 && A != T && T != "" && !IsNew(A, n) && !IsNew(T, n)
    ensures var X := Rebound(E, T, ConcatValue(SolvedChunks(sem.solve, Get(E, A), n, ch)));
            forall m :: m in NewNodes(A, T, n) ==> Holds(sem, m, Extended(sem, X, A, n, ch))
  {
    hide Name, IsConstant, IsChunk, Extended, IsNew, ConcatValue, SolvedChunks;
    var X := Rebound(E, T, ConcatValue(SolvedChunks(sem.solve, Get(E, A), n, ch)));
    assert Get(X, A) == Get(E, A);
    var V := Extended(sem, X, A, n, ch);
    ExtendedLooks(sem, X, A, n, ch, T);
    ChunkNodesHold(sem, X, A, n, ch, n);
    ChunkOutValues(sem, X, A, n, ch, n);
    var join := Node(Concat, ChunkOuts(n), [T]);
    assert Holds(sem, join, V);
    forall m | m in NewNodes(A, T, n)
      ensures Holds(sem, m, V)
    {
      assert m in ChunkNodes(A, n) || m == join;
    }
  }

  /** Nodes placed before T is made mention T nowhere. */
  lemma {:induction false} PrefixAvoids(pre: seq<Node>, avail: set<string>, T: string, m: Node)
    requires WellFormed(pre, avail) && T !in avail + Outs(pre) && m in pre
    ensures T !in Names(m.inputs) + Names(m.outputs)
  {
    if m != pre[0] { PrefixAvoids(pre[1..], avail + Names(pre[0].outputs), T, m); }
  }

  /** The part of the rewritten list up to and including the replacement, and what stands before it. */
  lemma RewrittenParts(nodes: seq<Node>, sources: set<string>, inits: set<string>, A: string, T: string, n: nat,
                       removed: set<int>)
    returns (pre: seq<Node>, post: seq<Node>)
    requires Boundary(nodes, sources, A, T, n) && IsSolveSet(nodes, A, T, removed) && NoLeak(nodes, removed, T)
    ensures var list := NewList(nodes, removed, A, T, n);
            var now := KeptSources(sources, inits, list) + ConstantSet(n);
            && list == pre + NewNodes(A, T, n) + post
            && WellFormed(pre + NewNodes(A, T, n), now) && WellFormed(post, now + Outs(pre + NewNodes(A, T, n)))
            && T !in now + Outs(pre) && WellFormed(pre, now) && T in Outs(pre + NewNodes(A, T, n))
    ensures forall m :: m in pre ==> m in Kept(nodes, removed, 0)
  {
    var keep, added := Kept(nodes, removed, 0), NewNodes(A, T, n);
    var k := NewPoint(keep, A, added);
    pre, post := keep[..k], keep[k..];
    RewriteWellFormed(nodes, sources, inits, A, T, n, removed);
    hide NewNodes, Outs, WellFormed, Kept, Rewritten, Boundary, IsSolveSet, NoLeak, ConstantSet, KeptSources;
    var now := KeptSources(sources, inits, NewList(nodes, removed, A, T, n)) + ConstantSet(n);
    WellFormedConcat(pre + added, post, now);
    WellFormedConcat(pre, added, now);
    OutsConcat(pre, added);
    BoundaryT(nodes, sources, A, T, n);
    NewOuts(A, T, n, T);
    MadeOnce(added, now + Outs(pre), T);
  }

  lemma BoundaryT(nodes: seq<Node>, sources: set<string>, A: string, T: string, n: nat)
    requires Boundary(nodes, sources, A, T, n)
    ensures T != "" && A != "" && A != T
  {
    ReachProducer(nodes, T);
  }

  /** What a well-formed list makes was not available before it. */
  lemma {:induction false} MadeOnce(nodes: seq<Node>, avail: set<string>, x: string)
    requires WellFormed(nodes, avail) && x in Outs(nodes)
    ensures x !in avail
  {
    if x !in Names(nodes[0].outputs) { MadeOnce(nodes[1..], avail + Names(nodes[0].outputs), x); }
  }

  /** What T runs to in the rewritten graph when the solve is split: the concatenated solved chunks. */
  lemma SplitRunsTo<H>(sem: Sem<H>, nodes: seq<Node>, sources: set<string>, inits: set<string>, env: Env<H>,
                       env': Env<H>, A: string, T: string, n: nat, ch: nat, removed: set<int>)
    requires n > 1 && Boundary(nodes, sources, A, T, n) && IsSolveSet(nodes, A, T, removed) && NoLeak(nodes, removed, T)
    requires StartsFrom(env, env', KeptSources(sources, inits, NewList(nodes, removed, A, T, n)), n, ch)
    ensures Get(Run(sem, NewList(nodes, removed, A, T, n), env'), T)
            == ConcatValue(SolvedChunks(sem.solve, Get(Run(sem, nodes, env), A), n, ch))
  {
    hide IsNew, Extended, Holds, Run, IsSolveSet, NoLeak, ConcatValue, SolvedChunks, Outs, WellFormed, NewNodes, Kept;
    var list := NewList(nodes, removed, A, T, n);
    var E := Run(sem, nodes, env);
    var now := KeptSources(sources, inits, list) + ConstantSet(n);
    var y := ConcatValue(SolvedChunks(sem.solve, Get(E, A), n, ch));
    var X := Rebound(E, T, y);
    var V := Extended(sem, X, A, n, ch);
    BoundaryT(nodes, sources, A, T, n);
    BoundaryNames(nodes, sources, A, T, n);
    var pre, post := RewrittenParts(nodes, sources, inits, A, T, n, removed);
    var front := pre + NewNodes(A, T, n);
    SplitHolds(sem, E, A, T, n, ch);
    KeptHoldAfter(sem, nodes, sources, env, A, T, n, ch, removed, pre, now, y);
    SourcesAgree(sem, nodes, sources, inits, env, env', A, T, n, ch, removed, y);
    forall k | 0 <= k < |front|
      ensures Holds(sem, front[k], V)
    {
      assert front[k] in pre || front[k] in NewNodes(A, T, n);
    }
    RunUnique(sem, front, env', now, V);
    RunConcat(sem, front, post, env');
    RunSatisfies(sem, post, Run(sem, front, env'), now + Outs(front));
    ExtendedLooks(sem, X, A, n, ch, T);
  }

  lemma KeptHoldAfter<H>(sem: Sem<H>, nodes: seq<Node>, sources: set<string>, env: Env<H>, A: string, T: string,
                         n: nat, ch: nat, removed: set<int>, pre: seq<Node>, now: set<string>, y: Value<H>)
    requires Boundary(nodes, sources, A, T, n) && WellFormed(pre, now) && T !in now + Outs(pre)
    requires forall m :: m in pre ==> m in Kept(nodes, removed, 0)
    ensures var V := Extended(sem, Rebound(Run(sem, nodes, env), T, y), A, n, ch);
            forall m :: m in pre ==> Holds(sem, m, V)
  {
    hide IsNew, Extended, Holds, Run, Outs, WellFormed, Kept, Rebound;
    var E := Run(sem, nodes, env);
    BoundaryT(nodes, sources, A, T, n);
    RunSatisfies(sem, nodes, env, sources);
    KeptHold(sem, nodes, removed, 0, E);
    forall m | m in pre
      ensures Holds(sem, m, Extended(sem, Rebound(E, T, y), A, n, ch))
    {
      PrefixAvoids(pre, now, T, m);
      UntouchedHolds(sem, m, E, T, y);
      KeptOrigin(nodes, removed, 0, m);
      var k :| 0 <= k < |nodes| && 0 + k !in removed && nodes[k] == m;
      OldNamesNotNew(nodes, sources, A, T, n, k);
      OldNodeHolds(sem, Rebound(E, T, y), A, n, ch, m);
    }
  }

  lemma SourcesAgree<H>(sem: Sem<H>, nodes: seq<Node>, sources: set<string>, inits: set<string>, env: Env<H>,
                        env': Env<H>, A: string, T: string, n: nat, ch: nat, removed: set<int>, y: Value<H>)
    requires n > 1 && Boundary(nodes, sources, A, T, n)
    requires var kept := KeptSources(sources, inits, NewList(nodes, removed, A, T, n));
             StartsFrom(env, env', kept, n, ch) && T !in kept + ConstantSet(n)
    ensures var V := Extended(sem, Rebound(Run(sem, nodes, env), T, y), A, n, ch);
            forall x :: x in KeptSources(sources, inits, NewList(nodes, removed, A, T, n)) + ConstantSet(n) ==>
              Get(env', x) == Get(V, x)
  {
    hide IsConstant, IsChunk, Extended, Run, Used, NewList;
    var E := Run(sem, nodes, env);
    var X := Rebound(E, T, y);
    RunSatisfies(sem, nodes, env, sources);
    forall x | x in KeptSources(sources, inits, NewList(nodes, removed, A, T, n)) + ConstantSet(n)
      ensures Get(env', x) == Get(Extended(sem, X, A, n, ch), x)
    {
      ExtendedLooks(sem, X, A, n, ch, x);
    }
  }

  /** T keeps its value under a split exactly when the chunks reach every head. */
  lemma SplitKeepsTIff<H>(sem: Sem<H>, nodes: seq<Node>, sources: set<string>, inits: set<string>, env: Env<H>,
                          env': Env<H>, A: string, T: string, n: nat, ch: nat, removed: set<int>)
    requires n > 1 && Boundary(nodes, sources, A, T, n) && IsSolveSet(nodes, A, T, removed) && NoLeak(nodes, removed, T)
    requires var E := Run(sem, nodes, env); Get(E, A).Heads? && Get(E, T) == SolveValue(sem.solve, Get(E, A))
    requires StartsFrom(env, env', KeptSources(sources, inits, NewList(nodes, removed, A, T, n)), n, ch)
    ensures Get(Run(sem, NewList(nodes, removed, A, T, n), env'), T) == Get(Run(sem, nodes, env), T)
            <==> |Get(Run(sem, nodes, env), A).h| <= n * ch
  {
    hide IsNew, Run, IsSolveSet, NoLeak, ConcatValue, SolvedChunks, SolveValue, Boundary, NewList, StartsFrom;
    SplitRunsTo(sem, nodes, sources, inits, env, env', A, T, n, ch, removed);
    SplitIsWholeIff(sem.solve, Get(Run(sem, nodes, env), A).h, n, ch);
  }
}
