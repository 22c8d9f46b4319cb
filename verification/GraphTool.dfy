/** The surgery script itself, on a mutable graph. */
module GraphTool {
  import opened Graphs
  import opened Ancestry
  import opened ChunkNames
  import opened SolveInsertion
  import opened GraphSurgery
  import opened SurgeryMeaning

  /** Rewritten, refused because of leaks (tensor, consumer index), or because the split does not divide the heads. */
  datatype Outcome = Done | Leaks(found: seq<(string, int)>) | BadSplit

  function Filter(xs: seq<string>, keep: set<string>): (r: seq<string>)
    ensures forall x :: x in r <==> x in xs && x in keep
  {
    if xs == [] then []
    else Filter(xs[..|xs| - 1], keep) + (if xs[|xs| - 1] in keep then [xs[|xs| - 1]] else [])
  }

  /** xs is ys at the increasing positions f. */
  ghost predicate Embeds(f: seq<int>, xs: seq<string>, ys: seq<string>) {
    && |f| == |xs|
    && (forall i, j :: 0 <= i < j < |f| ==> f[i] < f[j])
    && forall i :: 0 <= i < |f| ==> 0 <= f[i] < |ys| && xs[i] == ys[f[i]]
  }

  ghost predicate Subsequence(xs: seq<string>, ys: seq<string>) {
    exists f :: Embeds(f, xs, ys)
  }

  /** Some node of the list reads x. */
  ghost predicate IsRead(nodes: seq<Node>, x: string) {
    exists k :: 0 <= k < |nodes| && x in Names(nodes[k].inputs)
  }

  lemma {:induction false} FilterOrder(xs: seq<string>, keep: set<string>) returns (f: seq<int>)
    ensures Embeds(f, Filter(xs, keep), xs)
  {
    if xs == [] {
      f := [];
    } else {
      var n := |xs| - 1;
      f := FilterOrder(xs[..n], keep);
      EmbedsMore(f, Filter(xs[..n], keep), xs[..n], xs[n]);
      assert xs[..n] + [xs[n]] == xs;
      hide Embeds;
      if xs[n] in keep { f := f + [n]; }
    }
  }

  lemma EmbedsMore(f: seq<int>, xs: seq<string>, ys: seq<string>, y: string)
    requires Embeds(f, xs, ys)
    ensures Embeds(f, xs, ys + [y]) && Embeds(f + [|ys|], xs + [y], ys + [y])
  {
  }

  lemma {:induction false} FilterCounts(xs: seq<string>, keep: set<string>, x: string)
    ensures multiset(Filter(xs, keep))[x] == if x in keep then multiset(xs)[x] else 0
  {
    if xs != [] {
      var n := |xs| - 1;
      FilterCounts(xs[..n], keep, x);
      assert xs == xs[..n] + [xs[n]];
    }
  }

  lemma UsedIsRead(nodes: seq<Node>, x: string)
    ensures x in Used(nodes) <==> IsRead(nodes, x)
  {
    hide Used, Names;
    UsedIff(nodes, x);
    if IsRead(nodes, x) {
      var k :| 0 <= k < |nodes| && x in Names(nodes[k].inputs);
      assert nodes[k] in nodes;
    }
  }

  /** Of the graph inputs those still read stay, each as often and in the order it was. */
  ghost predicate InputsLeft(before: seq<string>, after: seq<string>, nodes: seq<Node>) {
    && Subsequence(after, before)
    && forall x :: multiset(after)[x] == if IsRead(nodes, x) then multiset(before)[x] else 0
  }

  lemma InputsFiltered(before: seq<string>, nodes: seq<Node>)
    ensures InputsLeft(before, Filter(before, Used(nodes)), nodes)
  {
    hide Used, Filter, Embeds, IsRead;
    var f := FilterOrder(before, Used(nodes));
    forall x
      ensures multiset(Filter(before, Used(nodes)))[x] == if IsRead(nodes, x) then multiset(before)[x] else 0
    {
      UsedIsRead(nodes, x);
      FilterCounts(before, Used(nodes), x);
    }
  }

  /** The number of pieces asked for, one at least. */
  function SplitOf(split: int): (n: nat)
    ensures n >= 1 && n >= split && (n == 1 || n == split)
  {
    if split < 1 then 1 else split
  }

  /** A consumer outside the solve set of a removed tensor other than T. */
  ghost predicate IsLeak(nodes: seq<Node>, removed: set<int>, T: string, leak: (string, int)) {
    && 0 <= leak.1 < |nodes| && leak.1 !in removed && leak.0 in Names(nodes[leak.1].inputs)
    && leak.0 != T && RemovedOut(nodes, removed, leak.0)
  }

  /** How often leak.1 reads leak.0, when that is a leak. */
  ghost function LeakCount(nodes: seq<Node>, removed: set<int>, T: string, leak: (string, int)): nat {
    if IsLeak(nodes, removed, T, leak) then multiset(nodes[leak.1].inputs)[leak.0] else 0
  }

  lemma LeakCounted(nodes: seq<Node>, removed: set<int>, T: string, leak: (string, int))
    ensures LeakCount(nodes, removed, T, leak) > 0 <==> IsLeak(nodes, removed, T, leak)
  {
    hide RemovedOut;
    if IsLeak(nodes, removed, T, leak) {
      assert leak.0 in nodes[leak.1].inputs;
    }
  }

  lemma ReadIsLeak(nodes: seq<Node>, removed: set<int>, T: string, k: nat, i: nat)
    requires k < |nodes| && i < |nodes[k].inputs| && k !in removed
    ensures var x := nodes[k].inputs[i]; IsLeak(nodes, removed, T, (x, k)) <==> x != T && RemovedOut(nodes, removed, x)
  {
  }

  /** The leaks among the first i reads of node k and all of the nodes before it. */
  ghost predicate LeaksTo(nodes: seq<Node>, removed: set<int>, T: string, found: seq<(string, int)>, k: nat, i: nat) {
    && forall l {:trigger multiset(found)[l]} ::
         multiset(found)[l] == if l.1 < k then LeakCount(nodes, removed, T, l)
                               else if l.1 == k < |nodes| && i <= |nodes[k].inputs| && IsLeak(nodes, removed, T, l)
                               then multiset(nodes[k].inputs[..i])[l.0]
                               else 0
  }

  lemma LeakStep(nodes: seq<Node>, removed: set<int>, T: string, found: seq<(string, int)>, k: nat, i: nat)
    requires LeaksTo(nodes, removed, T, found, k, i) && k < |nodes| && i < |nodes[k].inputs| && k !in removed
    ensures var x := nodes[k].inputs[i];
            var more := if x != T && RemovedOut(nodes, removed, x) then found + [(x, k)] else found;
            LeaksTo(nodes, removed, T, more, k, i + 1)
  {
    var xs := nodes[k].inputs;
    hide RemovedOut, IsLeak, LeakCount;
    ReadIsLeak(nodes, removed, T, k, i);
    assert xs[..i + 1] == xs[..i] + [xs[i]];
  }

  lemma LeakNext(nodes: seq<Node>, removed: set<int>, T: string, found: seq<(string, int)>, k: nat)
    requires k < |nodes| && LeaksTo(nodes, removed, T, found, k, if k in removed then 0 else |nodes[k].inputs|)
    ensures LeaksTo(nodes, removed, T, found, k + 1, 0)
  {
    hide RemovedOut;
    var xs := nodes[k].inputs;
    assert xs[..|xs|] == xs;
  }

  /** All consumers outside the solve set of tensors made inside it, T excepted, once for every such read. */
  method FindLeaks(nodes: seq<Node>, removed: set<int>, T: string) returns (found: seq<(string, int)>)
    ensures forall l :: multiset(found)[l] == LeakCount(nodes, removed, T, l)
    ensures forall l :: l in found <==> IsLeak(nodes, removed, T, l)
  {
    hide LeaksTo, IsLeak, LeakCount, RemovedOut;
    found := [];
    NoReadsYet(nodes, removed, T);
    for k := 0 to |nodes|
      invariant LeaksTo(nodes, removed, T, found, k, 0)
    {
      if k !in removed {
        var xs := nodes[k].inputs;
        for i := 0 to |xs|
          invariant LeaksTo(nodes, removed, T, found, k, i)
        {
          LeakStep(nodes, removed, T, found, k, i);
          if xs[i] != T && RemovedOut(nodes, removed, xs[i]) { found := found + [(xs[i], k)]; }
        }
      }
      LeakNext(nodes, removed, T, found, k);
    }
    AllLeaks(nodes, removed, T, found);
  }

  lemma NoReadsYet(nodes: seq<Node>, removed: set<int>, T: string)
    ensures LeaksTo(nodes, removed, T, [], 0, 0)
  {
    hide RemovedOut;
  }

  lemma AllLeaks(nodes: seq<Node>, removed: set<int>, T: string, found: seq<(string, int)>)
    requires LeaksTo(nodes, removed, T, found, |nodes|, 0)
    ensures forall l :: multiset(found)[l] == LeakCount(nodes, removed, T, l)
    ensures forall l :: l in found <==> IsLeak(nodes, removed, T, l)
  {
    hide RemovedOut, IsLeak;
    forall l
      ensures multiset(found)[l] == LeakCount(nodes, removed, T, l)
      ensures l in found <==> IsLeak(nodes, removed, T, l)
    {
      LeakCounted(nodes, removed, T, l);
      BeyondIsNone(nodes, removed, T, l);
      assert l in found <==> multiset(found)[l] > 0;
    }
  }

  lemma BeyondIsNone(nodes: seq<Node>, removed: set<int>, T: string, l: (string, int))
    ensures l.1 >= |nodes| ==> LeakCount(nodes, removed, T, l) == 0
  {
  }

  lemma NoLeaksFound(nodes: seq<Node>, removed: set<int>, T: string, found: seq<(string, int)>)
    requires forall l :: l in found <==> IsLeak(nodes, removed, T, l)
    ensures found == [] <==> NoLeak(nodes, removed, T)
  {
    hide RemovedOut, IsLeak;
    if found != [] {
      LeakIsLeak(nodes, removed, T, found[0].0, found[0].1);
      assert IsLeak(nodes, removed, T, (found[0].0, found[0].1));
    }
    forall k, x | 0 <= k < |nodes| && k !in removed && x in Names(nodes[k].inputs) && x != T
      ensures RemovedOut(nodes, removed, x) ==> found != []
    {
      LeakIsLeak(nodes, removed, T, x, k);
      assert (x, k) in found <==> IsLeak(nodes, removed, T, (x, k));
    }
  }

  lemma LeakIsLeak(nodes: seq<Node>, removed: set<int>, T: string, x: string, k: int)
    ensures IsLeak(nodes, removed, T, (x, k))
            <==> 0 <= k < |nodes| && k !in removed && x in Names(nodes[k].inputs) && x != T
                 && RemovedOut(nodes, removed, x)
  {
  }

  /** Nodes outside the removed set, in order. */
  method Keep(nodes: seq<Node>, removed: set<int>) returns (keep: seq<Node>)
    ensures keep == Kept(nodes, removed, 0)
  {
    keep := [];
    for k := 0 to |nodes|
      invariant keep + Kept(nodes[k..], removed, k) == Kept(nodes, removed, 0)
    {
      assert nodes[k..][1..] == nodes[k + 1..];
      if k !in removed { keep := keep + [nodes[k]]; }
    }
  }

  class Graph<!H> {
    var nodes: seq<Node>
    var inputs: seq<string>
    var inits: Env<H>

    constructor (nodes: seq<Node>, inputs: seq<string>, inits: Env<H>)
      ensures this.nodes == nodes && this.inputs == inputs && this.inits == inits
    {
      this.nodes, this.inputs, this.inits := nodes, inputs, inits;
    }

    /** Replaces the solve between A and T; `heads` is A's head count as inferred. */
    method InsertSolve(A: string, T: string, split: int, heads: nat) returns (r: Outcome, ghost removed: set<int>)
      modifies this
      ensures IsSolveSet(old(nodes), A, T, removed)
      ensures r.Leaks? <==> !NoLeak(old(nodes), removed, T)
      ensures r.Leaks? ==> forall l :: l in r.found <==> IsLeak(old(nodes), removed, T, l)
      ensures r.Leaks? ==> forall l :: multiset(r.found)[l] == LeakCount(old(nodes), removed, T, l)
      ensures r.BadSplit? <==> NoLeak(old(nodes), removed, T) && !Divides(split, heads)
      ensures !r.Done? ==> unchanged(this)
      ensures r.Done? ==> nodes == NewList(old(nodes), removed, A, T, SplitOf(split))
      ensures r.Done? ==> inits == WithConstants(old(inits), SplitOf(split), heads)
      ensures r.Done? ==> inputs == Filter(old(inputs), Used(nodes)) && InputsLeft(old(inputs), inputs, nodes)
    {
      hide NoLeak, IsLeak, Reaches, Kept, Rewritten, NewNodes, Filter, Used, InputsLeft, LeakCount;
      var ancT := Ancestors(nodes, T);
      var ancA := Ancestors(nodes, A);
      var solveIds := ancT - ancA;
      removed := solveIds;
      var found := FindLeaks(nodes, solveIds, T);
      NoLeaksFound(nodes, solveIds, T, found);
      if found != [] { return Leaks(found), removed; }
      var keep := Keep(nodes, solveIds);
      if !Divides(split, heads) { return BadSplit, removed; }
      var added := BuildNew(A, T, SplitOf(split), heads);
      Reinsert(keep, A, added);
      InputsFiltered(inputs, nodes);
      inputs := Filter(inputs, Used(nodes));
      return Done, removed;
    }

    /** The replacement: one solve, or slices, solves and a concatenation with their constants registered. */
    method BuildNew(A: string, T: string, n: nat, heads: nat) returns (added: seq<Node>)
      requires n > 0
      modifies this`inits
      ensures added == NewNodes(A, T, n)
      ensures inits == WithConstants(old(inits), n, heads)
    {
      if n == 1 { return [Node(Solve, [A], [T])]; }
      hide Name, ChunkPair, Constants, ChunkNodes, ChunkOuts;
      added := [];
      var chunkOuts: seq<string> := [];
      var ch := heads / n;
      ChunksStart(inits, A, ch);
      for i := 0 to n
        invariant added == ChunkNodes(A, i) && chunkOuts == ChunkOuts(i)
        invariant inits == old(inits) + Constants(i, ch)
      {
        ChunksStep(old(inits), A, i, ch);
        inits := inits[Name(Start, i) := Ints([i * ch])]
                      [Name(End, i) := Ints([(i + 1) * ch])]
                      [Name(Axis, i) := Ints([1])];
        added := added + ChunkPair(A, i);
        chunkOuts := chunkOuts + [Name(ChunkOut, i)];
      }
      added := added + [Node(Concat, chunkOuts, [T])];
    }

    /** Refills the node list: the kept nodes, with the new ones right behind A's producer or in front. */
    method Reinsert(keep: seq<Node>, A: string, added: seq<Node>)
      modifies this`nodes
      ensures nodes == Rewritten(keep, A, added)
    {
      hide Emitted, Rewritten;
      nodes := [];
      var inserted := false;
      EmitStart(keep, A, added);
      for k := 0 to |keep|
        invariant Emitted(nodes, keep, A, added, k, inserted)
      {
        EmitStep(nodes, keep, A, added, k, inserted);
        nodes := nodes + [keep[k]];
        if !inserted && A in keep[k].outputs {
          nodes := nodes + added;
          inserted := true;
        }
      }
      EmitEnd(nodes, keep, A, added, inserted);
      if !inserted { nodes := added + nodes; }
    }
  }

  /** The script's assertion: the split divides the head count. */
  predicate Divides(split: int, heads: nat) {
    heads % SplitOf(split) == 0
  }

  function WithConstants<H>(inits: Env<H>, n: nat, heads: nat): Env<H>
    requires n > 0
  {
    AddConstants(inits, n, heads / n)
  }

  lemma ChunksStart<H>(inits: Env<H>, A: string, ch: nat)
    ensures ChunkNodes(A, 0) == [] && ChunkOuts(0) == [] && inits + Constants(0, ch) == inits
  {
  }

  lemma ChunksStep<H>(inits: Env<H>, A: string, i: nat, ch: nat)
    ensures ChunkNodes(A, i + 1) == ChunkNodes(A, i) + ChunkPair(A, i)
    ensures ChunkOuts(i + 1) == ChunkOuts(i) + [Name(ChunkOut, i)]
    ensures (inits + Constants(i, ch))[Name(Start, i) := Ints([i * ch])]
                                      [Name(End, i) := Ints([(i + 1) * ch])]
                                      [Name(Axis, i) := Ints([1])]
            == inits + Constants(i + 1, ch)
  {
    hide Name, ChunkPair;
    assert Constants<H>(i + 1, ch)
           == Constants<H>(i, ch)[Name(Start, i) := Ints([i * ch])]
                                 [Name(End, i) := Ints([(i + 1) * ch])]
                                 [Name(Axis, i) := Ints([1])];
  }

  /** What is still to be emitted from position k on. */
  function Remaining(keep: seq<Node>, A: string, added: seq<Node>, k: nat, inserted: bool): seq<Node>
    requires k <= |keep|
  {
    if inserted then keep[k..] else Splice(keep[k..], A, added)
  }

  /** The first k kept nodes have been emitted, the new ones among them once A's producer was. */
  ghost predicate Emitted(nodes: seq<Node>, keep: seq<Node>, A: string, added: seq<Node>, k: nat, inserted: bool) {
    && k <= |keep| && (inserted <==> Produces(keep[..k], A))
    && nodes + Remaining(keep, A, added, k, inserted) == Splice(keep, A, added)
    && (!inserted ==> nodes == keep[..k])
  }

  lemma EmitStart(keep: seq<Node>, A: string, added: seq<Node>)
    ensures Emitted([], keep, A, added, 0, false)
  {
    assert keep[0..] == keep;
  }

  lemma EmitProducer(nodes: seq<Node>, keep: seq<Node>, A: string, added: seq<Node>, k: nat)
    requires Emitted(nodes, keep, A, added, k, false) && k < |keep| && A in keep[k].outputs
    ensures Emitted(nodes + [keep[k]] + added, keep, A, added, k + 1, true)
  {
    hide Splice, Produces, Remaining;
    SpliceStep(keep, A, added, k);
    Regrouped(nodes, [keep[k]], added, Remaining(keep, A, added, k + 1, true));
  }

  lemma EmitOther(nodes: seq<Node>, keep: seq<Node>, A: string, added: seq<Node>, k: nat, inserted: bool)
    requires Emitted(nodes, keep, A, added, k, inserted) && k < |keep| && (inserted || A !in keep[k].outputs)
    ensures Emitted(nodes + [keep[k]], keep, A, added, k + 1, inserted)
  {
    hide Splice, Produces, Remaining;
    SpliceStep(keep, A, added, k);
    Regrouped(nodes, [keep[k]], [], Remaining(keep, A, added, k + 1, inserted));
  }

  lemma Regrouped(a: seq<Node>, b: seq<Node>, c: seq<Node>, d: seq<Node>)
    ensures a + b + c + d == a + (b + c + d) && a + b + [] == a + b && b + [] + d == b + d
  {
  }

  lemma EmitStep(nodes: seq<Node>, keep: seq<Node>, A: string, added: seq<Node>, k: nat, inserted: bool)
    requires Emitted(nodes, keep, A, added, k, inserted) && k < |keep|
    ensures if !inserted && A in keep[k].outputs then Emitted(nodes + [keep[k]] + added, keep, A, added, k + 1, true)
            else Emitted(nodes + [keep[k]], keep, A, added, k + 1, inserted)
  {
    hide Emitted;
    if !inserted && A in keep[k].outputs {
      EmitProducer(nodes, keep, A, added, k);
    } else {
      EmitOther(nodes, keep, A, added, k, inserted);
    }
  }

  lemma EmitEnd(nodes: seq<Node>, keep: seq<Node>, A: string, added: seq<Node>, inserted: bool)
    requires Emitted(nodes, keep, A, added, |keep|, inserted)
    ensures Rewritten(keep, A, added) == if inserted then nodes else added + nodes
  {
    SpliceEnd(keep, A, added);
    hide Splice, Produces, Remaining, Rewritten;
    assert nodes + [] == nodes;
  }

  lemma SpliceStep(keep: seq<Node>, A: string, added: seq<Node>, k: nat)
    requires k < |keep|
    ensures Remaining(keep, A, added, k, true) == [keep[k]] + Remaining(keep, A, added, k + 1, true)
    ensures Remaining(keep, A, added, k, false)
            == if A in keep[k].outputs then [keep[k]] + added + Remaining(keep, A, added, k + 1, true)
               else [keep[k]] + Remaining(keep, A, added, k + 1, false)
    ensures Produces(keep[..k + 1], A) <==> Produces(keep[..k], A) || A in keep[k].outputs
    ensures keep[..k + 1] == keep[..k] + [keep[k]]
  {
    assert keep[k..][1..] == keep[k + 1..] && keep[k..][0] == keep[k];
    ProducesOneMore(keep, A, k);
  }

  lemma SpliceEnd(keep: seq<Node>, A: string, added: seq<Node>)
    ensures Remaining(keep, A, added, |keep|, false) == [] == Remaining(keep, A, added, |keep|, true)
    ensures keep[..|keep|] == keep
    ensures !Produces(keep, A) ==> Rewritten(keep, A, added) == added + keep
    ensures Produces(keep, A) ==> Rewritten(keep, A, added) == Splice(keep, A, added)
  {
  }

  lemma ProducesOneMore(keep: seq<Node>, A: string, k: nat)
    requires k < |keep|
    ensures Produces(keep[..k + 1], A) <==> Produces(keep[..k], A) || A in keep[k].outputs
  {
    var before, after := keep[..k], keep[..k + 1];
    if i :| 0 <= i < |before| && A in before[i].outputs { assert after[i] == before[i]; }
    if i :| 0 <= i < |after| && A in after[i].outputs {
      if i < k { assert before[i] == after[i]; }
    }
    if A in keep[k].outputs { assert after[k] == keep[k]; }
  }

  /** The sources of the rewritten graph are the kept ones and the constants. */
  lemma SourcesAfter<H>(inputs: seq<string>, inits: Env<H>, list: seq<Node>, n: nat, ch: nat)
    requires n > 0 && "" !in inits
    ensures var inits' := AddConstants(inits, n, ch);
            Names(Filter(inputs, Used(list))) + inits'.Keys
            == KeptSources(Names(inputs) + inits.Keys, inits.Keys, list) + ConstantSet(n)
  {
    forall x
      ensures x in Constants<H>(n, ch) <==> IsConstant(x, n)
    {
      ConstantNames<H>(n, ch, x);
    }
  }

  lemma SplitCovers(split: int, heads: nat)
    requires Divides(split, heads)
    ensures SplitOf(split) * (heads / SplitOf(split)) == heads
  {
  }

  /** The feed and initializers of the rewritten graph start it where the old ones did, the constants added. */
  lemma FreshStart<H>(feed: Env<H>, inits: Env<H>, n: nat, ch: nat, kept: set<string>)
    requires n > 0 && kept <= feed.Keys + inits.Keys
    requires forall x :: IsNew(x, n) ==> x !in feed && x !in inits
    ensures StartsFrom(feed + inits, feed + AddConstants(inits, n, ch), kept, n, ch)
  {
    var env, env' := feed + inits, feed + AddConstants(inits, n, ch);
    forall x
      ensures x in kept ==> Get(env', x) == Get(env, x)
      ensures n > 1 && IsConstant(x, n) ==> Get(env', x) == Get(Constants<H>(n, ch), x)
    {
      ConstantNames<H>(n, ch, x);
    }
  }

  /** Initializers after an n-way split in chunks of ch heads. */
  function AddConstants<H>(inits: Env<H>, n: nat, ch: nat): Env<H> {
    if n > 1 then inits + Constants(n, ch) else inits
  }

  lemma RewrittenRuns<H>(sem: Sem<H>, nodes: seq<Node>, inputs: seq<string>, inits: Env<H>, feed: Env<H>, A: string,
                         T: string, n: nat, ch: nat, removed: set<int>)
    requires n > 0 && "" !in inits && feed.Keys == Names(inputs)
    requires Boundary(nodes, Names(inputs) + inits.Keys, A, T, n)
    requires IsSolveSet(nodes, A, T, removed) && NoLeak(nodes, removed, T)
    requires var E := Run(sem, nodes, feed + inits);
             && Get(E, T) == SolveValue(sem.solve, Get(E, A))
             && (n > 1 && Get(E, A).Heads? ==> |Get(E, A).h| <= n * ch)
    ensures var list, inits' := NewList(nodes, removed, A, T, n), AddConstants(inits, n, ch);
            var inputs' := Filter(inputs, Used(list));
            && WellFormed(list, Names(inputs') + inits'.Keys)
            && T in Outs(list)
            && forall x :: x in Names(inputs') + inits.Keys + Outs(list) && !IsNew(x, n) ==>
                 Get(Run(sem, list, feed + inits'), x) == Get(Run(sem, nodes, feed + inits), x)
  {
    var sources, list := Names(inputs) + inits.Keys, NewList(nodes, removed, A, T, n);
    var kept := KeptSources(sources, inits.Keys, list);
    NewNamesUnused(nodes, sources, A, T, n);
    hide Boundary, NewList, Used, IsNew, IsSolveSet, NoLeak, WellFormed, Outs, SolveValue, Get, Filter, Constants;
    RewriteWellFormed(nodes, sources, inits.Keys, A, T, n, removed);
    SourcesAfter(inputs, inits, list, n, ch);
    FreshStart(feed, inits, n, ch, kept);
    SurgeryPreserves(sem, nodes, sources, inits.Keys, feed + inits, feed + AddConstants(inits, n, ch), A, T, n, ch,
                     removed);
    TSurvives(nodes, sources, A, T, n, removed);
    InputsKept(inputs, inits.Keys, list);
  }

  lemma InputsKept(inputs: seq<string>, inits: set<string>, list: seq<Node>)
    ensures Names(Filter(inputs, Used(list))) + inits <= KeptSources(Names(inputs) + inits, inits, list)
  {
    hide Used;
  }

  /**
   The whole tool: when InsertSolve finishes, the graph it leaves is well-formed from the inputs
   and initializers it leaves, and fed as before gives every remaining tensor, T among them, the
   value it had. `heads` must be at least A's real head count when the solve is split.
   */
  lemma ToolPreserves<H>(sem: Sem<H>, nodes: seq<Node>, inputs: seq<string>, inits: Env<H>, feed: Env<H>, A: string,
                         T: string, split: int, heads: nat, removed: set<int>)
    requires "" !in inits && feed.Keys == Names(inputs) && Divides(split, heads)
    requires Boundary(nodes, Names(inputs) + inits.Keys, A, T, SplitOf(split))
    requires IsSolveSet(nodes, A, T, removed) && NoLeak(nodes, removed, T)
    requires var E := Run(sem, nodes, feed + inits);
             && Get(E, T) == SolveValue(sem.solve, Get(E, A))
             && (SplitOf(split) > 1 && Get(E, A).Heads? ==> |Get(E, A).h| <= heads)
    ensures var n := SplitOf(split);
            var list, inits' := NewList(nodes, removed, A, T, n), WithConstants(inits, n, heads);
            var inputs' := Filter(inputs, Used(list));
            && WellFormed(list, Names(inputs') + inits'.Keys)
            && T in Outs(list)
            && forall x :: x in Names(inputs') + inits.Keys + Outs(list) && !IsNew(x, n) ==>
                 Get(Run(sem, list, feed + inits'), x) == Get(Run(sem, nodes, feed + inits), x)
  {
    hide Boundary, NewList, Used, IsNew, IsSolveSet, NoLeak, WellFormed, Outs, SolveValue, Get, Filter, Constants, Run;
    SplitCovers(split, heads);
    RewrittenRuns(sem, nodes, inputs, inits, feed, A, T, SplitOf(split), heads / SplitOf(split), removed);
  }

  lemma RewrittenKeepsTIff<H>(sem: Sem<H>, nodes: seq<Node>, inputs: seq<string>, inits: Env<H>, feed: Env<H>,
                              A: string, T: string, n: nat, ch: nat, removed: set<int>)
    requires n > 1 && "" !in inits && feed.Keys == Names(inputs)
    requires Boundary(nodes, Names(inputs) + inits.Keys, A, T, n)
    requires IsSolveSet(nodes, A, T, removed) && NoLeak(nodes, removed, T)
    requires var E := Run(sem, nodes, feed + inits); Get(E, A).Heads? && Get(E, T) == SolveValue(sem.solve, Get(E, A))
    ensures Get(Run(sem, NewList(nodes, removed, A, T, n), feed + AddConstants(inits, n, ch)), T)
            == Get(Run(sem, nodes, feed + inits), T)
            <==> |Get(Run(sem, nodes, feed + inits), A).h| <= n * ch
  {
    var sources := Names(inputs) + inits.Keys;
    var kept := KeptSources(sources, inits.Keys, NewList(nodes, removed, A, T, n));
    NewNamesUnused(nodes, sources, A, T, n);
    hide Boundary, NewList, Used, IsNew, IsSolveSet, NoLeak, SolveValue, Get, Constants, Run, StartsFrom, AddConstants;
    FreshStart(feed, inits, n, ch, kept);
    SplitKeepsTIff(sem, nodes, sources, inits.Keys, feed + inits, feed + AddConstants(inits, n, ch), A, T, n, ch,
                     removed);
  }

  /** With the solve split, T keeps its value exactly when the head count the tool used covers A's real one. */
  lemma ToolKeepsTIff<H>(sem: Sem<H>, nodes: seq<Node>, inputs: seq<string>, inits: Env<H>, feed: Env<H>, A: string,
                         T: string, split: int, heads: nat, removed: set<int>)
    requires split > 1 && "" !in inits && feed.Keys == Names(inputs) && Divides(split, heads)
    requires Boundary(nodes, Names(inputs) + inits.Keys, A, T, split)
    requires IsSolveSet(nodes, A, T, removed) && NoLeak(nodes, removed, T)
    requires var E := Run(sem, nodes, feed + inits); Get(E, A).Heads? && Get(E, T) == SolveValue(sem.solve, Get(E, A))
    ensures Get(Run(sem, NewList(nodes, removed, A, T, split), feed + WithConstants(inits, split, heads)), T)
            == Get(Run(sem, nodes, feed + inits), T)
            <==> |Get(Run(sem, nodes, feed + inits), A).h| <= heads
  {
    hide Boundary, NewList, Used, IsNew, IsSolveSet, NoLeak, SolveValue, Get, AddConstants, Run;
    SplitCovers(split, heads);
    RewrittenKeepsTIff(sem, nodes, inputs, inits, feed, A, T, split, heads / split, removed);
  }

  lemma NewNamesUnused(nodes: seq<Node>, sources: set<string>, A: string, T: string, n: nat)
    requires Boundary(nodes, sources, A, T, n)
    ensures forall x :: IsNew(x, n) ==> x !in sources
  {
  }

  lemma TSurvives(nodes: seq<Node>, sources: set<string>, A: string, T: string, n: nat, removed: set<int>)
    requires Boundary(nodes, sources, A, T, n) && IsSolveSet(nodes, A, T, removed)
    ensures T in Outs(NewList(nodes, removed, A, T, n))
  {
    OutsMember(nodes, T);
    hide NewList, IsSolveSet, Outs, WellFormed;
    WhatSurvives(nodes, sources, A, T, n, removed, T);
  }

  /** A chain A -> X -> T. */
  function TwoSteps(): (nodes: seq<Node>)
    ensures |nodes| == 2 && nodes[0] == Node(Other("m"), ["A"], ["X"]) && nodes[1] == Node(Other("m"), ["X"], ["T"])
  {
    [Node(Other("m"), ["A"], ["X"]), Node(Other("m"), ["X"], ["T"])]
  }

  lemma TwoStepsNames()
    ensures Names(["A"]) == {"A"} && Names(["X"]) == {"X"} && Names(["T"]) == {"T"}
    ensures Outs(TwoSteps()) == {"X", "T"}
  {
    assert TwoSteps()[1..] == [TwoSteps()[1]] && TwoSteps()[1..][1..] == [];
  }

  lemma TwoStepsWellFormed()
    ensures WellFormed(TwoSteps(), {"A"})
  {
    TwoStepsNames();
    var nodes := TwoSteps();
    assert nodes[1..] == [nodes[1]] && nodes[1..][1..] == [];
    assert WellFormed(nodes[1..], {"A"} + {"X"});
  }

  lemma TwoStepsProducers()
    ensures Producer(TwoSteps(), "T") == 1 && Producer(TwoSteps(), "X") == 0 && Producer(TwoSteps(), "A") == -1
    ensures Reads(TwoSteps(), 1, 0)
  {
    TwoStepsNames();
    var nodes := TwoSteps();
    assert nodes[..1] == [nodes[0]] && nodes[..1][..0] == [];
    assert "T" in nodes[1].outputs && "X" !in nodes[1].outputs && "X" in nodes[..1][0].outputs;
    assert "A" !in nodes[0].outputs && "A" !in nodes[1].outputs;
    assert "X" in Names(nodes[1].inputs);
  }

  /** Everything reaches T and nothing reaches A, so both nodes are removed and nothing is left to leak. */
  lemma TwoStepsRemoved()
    ensures Boundary(TwoSteps(), {"A"}, "A", "T", 1) && IsSolveSet(TwoSteps(), "A", "T", {0, 1})
    ensures NoLeak(TwoSteps(), {0, 1}, "T")
  {
    var nodes := TwoSteps();
    TwoStepsProducers();
    TwoStepsWellFormed();
    hide Producer, WellFormed, TwoSteps, Reads;
    ReachProducer(nodes, "T");
    ReachStep(nodes, "T", 1, 0);
    var removed: set<int> := {0, 1};
    assert IsSolveSet(nodes, "A", "T", removed);
  }

  /** With X also a graph output, the checks pass and X is lost. */
  lemma InnerOutputLost()
    ensures Boundary(TwoSteps(), {"A"}, "A", "T", 1) && IsSolveSet(TwoSteps(), "A", "T", {0, 1})
    ensures NoLeak(TwoSteps(), {0, 1}, "T") && "X" in Outs(TwoSteps())
    ensures var list := NewList(TwoSteps(), {0, 1}, "A", "T", 1);
            "X" !in KeptSources({"A"}, {}, list) + Outs(list)
  {
    var nodes := TwoSteps();
    var removed: set<int> := {0, 1};
    TwoStepsNames();
    TwoStepsProducers();
    TwoStepsRemoved();
    TwoStepsWellFormed();
    hide Boundary, IsSolveSet, NoLeak, WellFormed, TwoSteps, Producer, NewList, Outs, RemovedOut;
    RemovedOutIff(nodes, {"A"}, removed, "X");
    OutputSurvivesIff(nodes, {"A"}, {}, "A", "T", 1, removed, "X");
  }
}
